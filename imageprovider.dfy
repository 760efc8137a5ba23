/**
 * The image provider: it offers at most one primary image per series, the
 * first `picture` element of the series document behind the AniDB picture
 * address, under the same ban and cache policy as the metadata path.
 */
module ImageProvider {
  import opened Wrappers
  import opened Text
  import opened Exceptions
  import opened People
  import opened Entities
  import opened Document
  import opened ApiErrors
  import opened Cache
  import opened BanPolicy

  /** The provider's name, recorded on every image it offers. */
  const ProviderName: string := "AniDB"

  /** The host's image kinds; `Primary` is the first, and so the value of a field nobody sets. */
  datatype ImageType = Primary | Art | Backdrop | Banner | Logo | Thumb | Disc | Box | Screenshot | Menu | Chapter | BoxRear | Profile

  /** The kinds of library item the host may ask about. */
  datatype ItemKind = SeriesItem | SeasonItem | MovieItem | EpisodeItem | OtherItem

  /** An image offered to the host. */
  datatype RemoteImageInfo = RemoteImageInfo(providerName: string, url: string, imageType: ImageType)

  /** What one `GetImages` call leaves behind: the images, the cache, and whether `MarkBanned` was called. */
  datatype ImagesOutcome = ImagesOutcome(images: seq<RemoteImageInfo>, files: map<Path, FileEntry>, markBanned: bool)

  /** `Supports`: series, seasons and movies. */
  function Supports(kind: ItemKind): (r: bool)
    ensures r <==> kind != EpisodeItem && kind != OtherItem
  {
    kind.SeriesItem? || kind.SeasonItem? || kind.MovieItem?
  }

  /** `GetSupportedImages`: only the primary image, whatever the item. */
  function SupportedImages(kind: ItemKind): (r: seq<ImageType>)
    ensures |r| == 1 && Primary in r
  {
    [Primary]
  }

  /**
   * `FindImageUrl` on the text of the cached document: the address of the
   * first `picture` element; no address when there is none; the reader's
   * exception when the document is malformed and holds no picture.
   */
  function ImageUrl(text: Result<string, Exception>, tokenise: string -> Parsed): Result<Option<string>, Exception> {
    match text
    case Failure(e) => Failure(e)
    case Success(t) =>
      var doc := tokenise(t);
      match FirstPicture(doc.sections)
      case Some(p) => Success(Some(PictureUrlPrefix + p))
      case None => if doc.malformed then Failure(XmlMalformed) else Success(None)
  }

  /** The address found is the picture address followed by the first picture's text, and it is never empty. */
  lemma ImageUrlIsFirstPicture(text: Result<string, Exception>, tokenise: string -> Parsed)
    ensures var r := ImageUrl(text, tokenise);
            (r.Success? && r.value.Some? <==> text.Success? && FirstPicture(tokenise(text.value).sections).Some?)
            && (r.Success? && r.value.Some? ==> r.value.value == PictureUrlPrefix + FirstPicture(tokenise(text.value).sections).value
                                                && r.value.value != [])
            && (r.Failure? ==> (text.Failure? && r.error == text.error) || r.error == XmlMalformed)
  {
  }

  /** The guard of `GetImages`: no id, or a recent ban and no valid cached document. */
  predicate ImagesSkipped(aniDbId: Option<string>, bannedRecently: bool, files: map<Path, FileEntry>, cachePath: Path,
                          nowTicks: int, maxCacheAge: int) {
    IsNullOrEmpty(aniDbId) || BanBlocksFetch(bannedRecently, files, cachePath, aniDbId.value, nowTicks, maxCacheAge)
  }

  /** `GetImages` on values; every exception is swallowed, after the ban test. */
  function Images(aniDbId: Option<string>, files: map<Path, FileEntry>, cachePath: Path, maxCacheAge: int, bannedRecently: bool,
                  response: Result<string, Exception>, tokenise: string -> Parsed, nowTicks: int): ImagesOutcome
  {
    if ImagesSkipped(aniDbId, bannedRecently, files, cachePath, nowTicks, maxCacheAge) then ImagesOutcome([], files, false)
    else
      var id := aniDbId.value;
      var (after, err) := SeriesData(files, cachePath, id, maxCacheAge, response, tokenise, nowTicks);
      if err.Some? then ImagesOutcome([], after, IsBanError(err.value))
      else match ImageUrl(FileText(after, SeriesFilePath(cachePath, id)), tokenise)
        case Failure(e) => ImagesOutcome([], after, IsBanError(e))
        case Success(None) => ImagesOutcome([], after, false)
        case Success(Some(url)) => ImagesOutcome([RemoteImageInfo(ProviderName, url, Primary)], after, false)
  }

  /**
   * Under the guard nothing is fetched: no image, the cache left alone, no
   * ban recorded, and the answer the request would have had makes no
   * difference.
   */
  lemma ImagesGuard(aniDbId: Option<string>, files: map<Path, FileEntry>, cachePath: Path, maxCacheAge: int, bannedRecently: bool,
                    response: Result<string, Exception>, tokenise: string -> Parsed, nowTicks: int, other: Result<string, Exception>)
    requires ImagesSkipped(aniDbId, bannedRecently, files, cachePath, nowTicks, maxCacheAge)
    ensures var o := Images(aniDbId, files, cachePath, maxCacheAge, bannedRecently, response, tokenise, nowTicks);
            o == ImagesOutcome([], files, false)
            && o == Images(aniDbId, files, cachePath, maxCacheAge, bannedRecently, other, tokenise, nowTicks)
  {
  }

  /**
   * At most one image is offered; there is one exactly when the guard let the
   * call through, the fetch raised nothing and the cached document has a
   * picture, and then it is the primary image of this provider at the
   * picture address of the first picture.
   */
  lemma AtMostOneImage(aniDbId: Option<string>, files: map<Path, FileEntry>, cachePath: Path, maxCacheAge: int, bannedRecently: bool,
                       response: Result<string, Exception>, tokenise: string -> Parsed, nowTicks: int)
    ensures var o := Images(aniDbId, files, cachePath, maxCacheAge, bannedRecently, response, tokenise, nowTicks);
            |o.images| <= 1
            && (|o.images| == 1 <==>
                  !ImagesSkipped(aniDbId, bannedRecently, files, cachePath, nowTicks, maxCacheAge)
                  && var (after, err) := SeriesData(files, cachePath, aniDbId.value, maxCacheAge, response, tokenise, nowTicks);
                     var text := FileText(after, SeriesFilePath(cachePath, aniDbId.value));
                     err.None? && text.Success? && FirstPicture(tokenise(text.value).sections).Some?)
            && (|o.images| == 1 ==>
                  var text := FileText(o.files, SeriesFilePath(cachePath, aniDbId.value));
                  o.images[0] == RemoteImageInfo(ProviderName, PictureUrlPrefix + FirstPicture(tokenise(text.value).sections).value, Primary))
  {
    if !ImagesSkipped(aniDbId, bannedRecently, files, cachePath, nowTicks, maxCacheAge) {
      var (after, err) := SeriesData(files, cachePath, aniDbId.value, maxCacheAge, response, tokenise, nowTicks);
      ImageUrlIsFirstPicture(FileText(after, SeriesFilePath(cachePath, aniDbId.value)), tokenise);
    }
  }

  /**
   * After a download, the image comes from the answer just received: the
   * first picture of the scrubbed response.
   */
  lemma ImageFromDownload(aniDbId: string, files: map<Path, FileEntry>, cachePath: Path, maxCacheAge: int, bannedRecently: bool,
                          response: Result<string, Exception>, tokenise: string -> Parsed, nowTicks: int)
    requires aniDbId != [] && !HasExistingSeriesData(files, cachePath, aniDbId, nowTicks, maxCacheAge) && !bannedRecently
    requires SeriesData(files, cachePath, aniDbId, maxCacheAge, response, tokenise, nowTicks).1.None?
    ensures var o := Images(Some(aniDbId), files, cachePath, maxCacheAge, bannedRecently, response, tokenise, nowTicks);
            response.Success?
            && (FirstPicture(tokenise(Scrub(response.value)).sections).None? ==> o.images == [])
            && (FirstPicture(tokenise(Scrub(response.value)).sections).Some? ==>
                  o.images == [RemoteImageInfo(ProviderName, PictureUrlPrefix + FirstPicture(tokenise(Scrub(response.value)).sections).value, Primary)])
  {
    SeriesDataOutcome(files, cachePath, aniDbId, maxCacheAge, response, tokenise, nowTicks);
  }

  /**
   * `MarkBanned` is called exactly when the id is set, no ban was recorded
   * recently, the cache was not valid, the request got an answer, and the
   * leftmost error element of that answer is the ban element.
   */
  lemma ImagesMarkBannedIff(aniDbId: Option<string>, files: map<Path, FileEntry>, cachePath: Path, maxCacheAge: int, bannedRecently: bool,
                            response: Result<string, Exception>, tokenise: string -> Parsed, nowTicks: int)
    requires response.Failure? ==> response.error == HttpFailure
    ensures Images(aniDbId, files, cachePath, maxCacheAge, bannedRecently, response, tokenise, nowTicks).markBanned <==>
              !IsNullOrEmpty(aniDbId) && !bannedRecently && !HasExistingSeriesData(files, cachePath, aniDbId.value, nowTicks, maxCacheAge)
              && response.Success? && FindError(Scrub(response.value)) == Some(BanMarker)
  {
    if !ImagesSkipped(aniDbId, bannedRecently, files, cachePath, nowTicks, maxCacheAge) {
      var id := aniDbId.value;
      SeriesDataBanError(files, cachePath, id, maxCacheAge, response, tokenise, nowTicks);
      var (after, err) := SeriesData(files, cachePath, id, maxCacheAge, response, tokenise, nowTicks);
      if err.None? {
        var text := FileText(after, SeriesFilePath(cachePath, id));
        ImageUrlIsFirstPicture(text, tokenise);
        var found := ImageUrl(text, tokenise);
        if found.Failure? {
          OnlyApiErrorsAreBans(found.error);
        }
      }
    }
  }

  /** Every image offered is of a kind `GetSupportedImages` names, for any item. */
  lemma ImagesSupported(aniDbId: Option<string>, files: map<Path, FileEntry>, cachePath: Path, maxCacheAge: int, bannedRecently: bool,
                        response: Result<string, Exception>, tokenise: string -> Parsed, nowTicks: int, kind: ItemKind)
    ensures var o := Images(aniDbId, files, cachePath, maxCacheAge, bannedRecently, response, tokenise, nowTicks);
            forall i :: 0 <= i < |o.images| ==> o.images[i].imageType in SupportedImages(kind) && o.images[i].providerName == ProviderName
  {
  }

  // ---------------------------------------------------------------- the provider methods

  /** `FindImageUrl`: reads the document until the first `picture` element. */
  method FindImageUrl(store: FileStore, path: Path, tokenise: string -> Parsed) returns (r: Result<Option<string>, Exception>)
    ensures r == ImageUrl(store.ReadText(path), tokenise)
  {
    var text := store.ReadText(path);
    if text.Failure? {
      return Failure(text.error);
    }
    var doc := tokenise(text.value);
    var i := 0;
    while i < |doc.sections|
      invariant 0 <= i <= |doc.sections|
      invariant FirstPicture(doc.sections[i..]) == FirstPicture(doc.sections)
    {
      var picture := SectionPicture(doc.sections[i]);
      if picture.Some? {
        return Success(Some(PictureUrlPrefix + picture.value));
      }
      assert doc.sections[i..][1..] == doc.sections[i + 1..];
      i := i + 1;
    }
    if doc.malformed {
      return Failure(XmlMalformed);
    }
    return Success(None);
  }

  /** `GetImages` for an AniDB id, on the cache `store`. */
  method GetImages(store: FileStore, aniDbId: Option<string>, cachePath: Path, maxCacheAge: int, bannedRecently: bool,
                   response: Result<string, Exception>, tokenise: string -> Parsed, nowTicks: int)
    returns (list: seq<RemoteImageInfo>, markBanned: bool)
    modifies store
    ensures ImagesOutcome(list, store.files, markBanned)
            == Images(aniDbId, old(store.files), cachePath, maxCacheAge, bannedRecently, response, tokenise, nowTicks)
  {
    list, markBanned := [], false;
    if !IsNullOrEmpty(aniDbId) && !(bannedRecently && !store.HasSeriesData(cachePath, aniDbId.value, nowTicks, maxCacheAge)) {
      var path := store.GetSeriesData(cachePath, aniDbId.value, maxCacheAge, response, tokenise, nowTicks);
      var found: Result<Option<string>, Exception>;
      if path.Failure? {
        found := Failure(path.error);
      } else {
        found := FindImageUrl(store, path.value, tokenise);
      }
      if found.Success? {
        if !IsNullOrEmpty(found.value) {
          list := list + [RemoteImageInfo(ProviderName, found.value.value, Primary)];
        }
      } else {
        markBanned := Contains(Message(found.error), BanMarker);
      }
    }
  }

  /** `GetImages` for a library item: the AniDB id among its provider ids. */
  method GetItemImages(store: FileStore, providerIds: map<ProviderKey, string>, cachePath: Path, maxCacheAge: int, bannedRecently: bool,
                       response: Result<string, Exception>, tokenise: string -> Parsed, nowTicks: int)
    returns (list: seq<RemoteImageInfo>, markBanned: bool)
    modifies store
    ensures var id := if AniDbKey in providerIds then Some(providerIds[AniDbKey]) else None;
            ImagesOutcome(list, store.files, markBanned)
            == Images(id, old(store.files), cachePath, maxCacheAge, bannedRecently, response, tokenise, nowTicks)
  {
    var id := if AniDbKey in providerIds then Some(providerIds[AniDbKey]) else None;
    list, markBanned := GetImages(store, id, cachePath, maxCacheAge, bannedRecently, response, tokenise, nowTicks);
  }
}
