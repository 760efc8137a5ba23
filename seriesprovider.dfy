/**
 * The series provider's entry points: `GetMetadata`, which finds the AniDB
 * id, and `GetMetadataForId`, the small state machine over the recent-ban
 * flag, the cache, the exceptions of the fetch and the `HasMetadata` flag,
 * with `ApplyFallbackTitlesAsync` as its way out when the full document
 * cannot be had.
 */
module SeriesProvider {
  import opened Wrappers
  import opened Text
  import opened Configuration
  import opened Exceptions
  import opened Entities
  import opened Titles
  import opened Document
  import opened ApiErrors
  import opened Cache
  import opened SeriesParser
  import opened BanPolicy

  /** The language used when the lookup names none. */
  const DefaultLanguage: string := "en"

  /**
   * What the provider learns from outside its own code during one call: the
   * plugin's recent-ban flag, the answer of the HTTP request (used only if a
   * download happens), the titles the title index holds for the id (absent
   * when it has none), the XML reader, the clock and the parse's
   * collaborators.
   */
  datatype Services = Services(
    bannedRecently: bool,
    response: Result<string, Exception>,
    fallbackTitles: Option<seq<Title>>,
    tokenise: string -> Parsed,
    nowTicks: int,
    parse: Collaborators)

  /** What one call leaves behind: the metadata result, the cache, and whether `MarkBanned` was called. */
  datatype Outcome = Outcome(result: ResultFields, files: map<Path, FileEntry>, markBanned: bool)

  /** `info.MetadataLanguage ?? "en"`. */
  function DesiredLanguage(metadataLanguage: Option<string>): (r: string)
    ensures metadataLanguage.Some? ==> r == metadataLanguage.value
    ensures metadataLanguage.None? ==> r == DefaultLanguage
  {
    metadataLanguage.GetOr(DefaultLanguage)
  }

  /** The result before anything is fetched: an empty series carrying the AniDB id, marked as having metadata. */
  function InitialResult(animeId: string): ResultFields {
    ResultFields(EmptySeries.(providerIds := map[AniDbKey := animeId]), [], true)
  }

  /**
   * `ApplyFallbackTitlesAsync`: without titles from the index, or when none of
   * them applies, the result is marked as having no metadata; the titles are
   * applied with the original title allowed as the name.
   */
  function FallbackApplied(r: ResultFields, titles: Option<seq<Title>>, c: PluginConfiguration, lang: string): ResultFields {
    match titles
    case None => r.(hasMetadata := false)
    case Some(ts) =>
      var (item, applied) := TitlesApplied(r.item, ts, c, lang, true);
      if applied then r.(item := item) else r.(item := item, hasMetadata := false)
  }

  /** Neither the title nor the original title resolves to a non-empty name. */
  predicate NoTitle(ts: seq<Title>, c: PluginConfiguration, lang: string) {
    IsNullOrEmpty(ResolveTitles(ts, c, lang).0) && IsNullOrEmpty(ResolveTitles(ts, c, lang).1)
  }

  /**
   * The fallback only ever clears the flag: it clears it exactly when the
   * index has no titles or none resolves, and it changes nothing but the two
   * titles and the flag.
   */
  lemma FallbackAppliedFlag(r: ResultFields, titles: Option<seq<Title>>, c: PluginConfiguration, lang: string)
    ensures var after := FallbackApplied(r, titles, c, lang);
            (after.hasMetadata <==> r.hasMetadata && titles.Some? && !NoTitle(titles.value, c, lang))
            && after.people == r.people
            && after.item == r.item.(name := after.item.name, originalTitle := after.item.originalTitle)
  {
    if titles.Some? {
      TitlesAppliedFalseIff(r.item, titles.value, c, lang, true);
      TitlesAppliedFields(r.item, titles.value, c, lang, true);
    }
  }

  /**
   * The guarded fetch: `GetSeriesData`, then `FetchSeriesInfo` on the file
   * it names. An exception of the first leaves the result as it was; one of
   * the second leaves whatever the sections before it applied.
   */
  function Fetched(start: ResultFields, animeId: string, lang: string, files: map<Path, FileEntry>, cachePath: Path,
                   c: PluginConfiguration, s: Services): (ResultFields, map<Path, FileEntry>, Option<Exception>)
  {
    var (after, err) := SeriesData(files, cachePath, animeId, c.MaxCacheAge, s.response, s.tokenise, s.nowTicks);
    if err.Some? then (start, after, err)
    else
      var (r, parseErr) := SeriesInfo(start, FileText(after, SeriesFilePath(cachePath, animeId)), s.tokenise, c, lang, s.parse);
      (r, after, parseErr)
  }

  /** `GetMetadataForId` on values. */
  function MetadataForId(animeId: string, metadataLanguage: Option<string>, files: map<Path, FileEntry>, cachePath: Path,
                         c: PluginConfiguration, s: Services): Outcome
  {
    var lang := DesiredLanguage(metadataLanguage);
    var start := InitialResult(animeId);
    if BanBlocksFetch(s.bannedRecently, files, cachePath, animeId, s.nowTicks, c.MaxCacheAge) then
      Outcome(FallbackApplied(start, s.fallbackTitles, c, lang), files, false)
    else
      var (r, after, err) := Fetched(start, animeId, lang, files, cachePath, c, s);
      if err.None? then Outcome(r, after, false)
      else Outcome(FallbackApplied(r, s.fallbackTitles, c, lang), after, IsBanError(err.value))
  }

  /** The fallback path is taken: under the ban guard, or after an exception of the fetch. */
  predicate FallbackTaken(animeId: string, metadataLanguage: Option<string>, files: map<Path, FileEntry>, cachePath: Path,
                          c: PluginConfiguration, s: Services) {
    BanBlocksFetch(s.bannedRecently, files, cachePath, animeId, s.nowTicks, c.MaxCacheAge)
    || Fetched(InitialResult(animeId), animeId, DesiredLanguage(metadataLanguage), files, cachePath, c, s).2.Some?
  }

  /**
   * Under the ban guard no request is made: the cache is left alone, no new
   * ban is recorded, the result is the fallback on the empty series, and the
   * answer the request would have had makes no difference.
   */
  lemma BanGuardSkipsFetch(animeId: string, metadataLanguage: Option<string>, files: map<Path, FileEntry>, cachePath: Path,
                           c: PluginConfiguration, s: Services, response: Result<string, Exception>)
    requires BanBlocksFetch(s.bannedRecently, files, cachePath, animeId, s.nowTicks, c.MaxCacheAge)
    ensures var o := MetadataForId(animeId, metadataLanguage, files, cachePath, c, s);
            o.files == files && !o.markBanned
            && o.result == FallbackApplied(InitialResult(animeId), s.fallbackTitles, c, DesiredLanguage(metadataLanguage))
            && o == MetadataForId(animeId, metadataLanguage, files, cachePath, c, s.(response := response))
  {
  }

  /**
   * `MarkBanned` is called exactly when no ban was recorded recently, the
   * cache was not valid, the request got an answer, and the leftmost error
   * element of that answer is the ban element (a failed request is an
   * `HttpRequestException`).
   */
  lemma MarkBannedIff(animeId: string, metadataLanguage: Option<string>, files: map<Path, FileEntry>, cachePath: Path,
                      c: PluginConfiguration, s: Services)
    requires s.response.Failure? ==> s.response.error == HttpFailure
    ensures MetadataForId(animeId, metadataLanguage, files, cachePath, c, s).markBanned <==>
              !s.bannedRecently && !HasExistingSeriesData(files, cachePath, animeId, s.nowTicks, c.MaxCacheAge)
              && s.response.Success? && FindError(Scrub(s.response.value)) == Some(BanMarker)
  {
    var lang := DesiredLanguage(metadataLanguage);
    var start := InitialResult(animeId);
    if !BanBlocksFetch(s.bannedRecently, files, cachePath, animeId, s.nowTicks, c.MaxCacheAge) {
      SeriesDataBanError(files, cachePath, animeId, c.MaxCacheAge, s.response, s.tokenise, s.nowTicks);
      var (after, err) := SeriesData(files, cachePath, animeId, c.MaxCacheAge, s.response, s.tokenise, s.nowTicks);
      if err.None? {
        var text := FileText(after, SeriesFilePath(cachePath, animeId));
        SeriesInfoKeeps(start, text, s.tokenise, c, lang, s.parse);
        var parseErr := SeriesInfo(start, text, s.tokenise, c, lang, s.parse).1;
        if parseErr.Some? {
          OnlyApiErrorsAreBans(parseErr.value);
        }
      }
    }
  }

  /**
   * `HasMetadata` starts true and ends false exactly when the fallback path
   * was taken and the title index had no titles for the id or none of them
   * resolves.
   */
  lemma HasMetadataIff(animeId: string, metadataLanguage: Option<string>, files: map<Path, FileEntry>, cachePath: Path,
                       c: PluginConfiguration, s: Services)
    ensures !MetadataForId(animeId, metadataLanguage, files, cachePath, c, s).result.hasMetadata <==>
              FallbackTaken(animeId, metadataLanguage, files, cachePath, c, s)
              && (s.fallbackTitles.None? || NoTitle(s.fallbackTitles.value, c, DesiredLanguage(metadataLanguage)))
  {
    var lang := DesiredLanguage(metadataLanguage);
    var start := InitialResult(animeId);
    var (r, after, err) := Fetched(start, animeId, lang, files, cachePath, c, s);
    FetchedKeeps(start, animeId, lang, files, cachePath, c, s);
    FallbackAppliedFlag(start, s.fallbackTitles, c, lang);
    FallbackAppliedFlag(r, s.fallbackTitles, c, lang);
  }

  /** The fetch keeps what every section step keeps. */
  lemma FetchedKeeps(start: ResultFields, animeId: string, lang: string, files: map<Path, FileEntry>, cachePath: Path,
                     c: PluginConfiguration, s: Services)
    ensures Keeps(start, Fetched(start, animeId, lang, files, cachePath, c, s).0)
  {
    var (after, err) := SeriesData(files, cachePath, animeId, c.MaxCacheAge, s.response, s.tokenise, s.nowTicks);
    if err.None? {
      SeriesInfoKeeps(start, FileText(after, SeriesFilePath(cachePath, animeId)), s.tokenise, c, lang, s.parse);
    }
  }

  /** Whatever happens, the result carries the AniDB id it was asked for. */
  lemma AniDbIdKept(animeId: string, metadataLanguage: Option<string>, files: map<Path, FileEntry>, cachePath: Path,
                    c: PluginConfiguration, s: Services)
    ensures var ids := MetadataForId(animeId, metadataLanguage, files, cachePath, c, s).result.item.providerIds;
            AniDbKey in ids && ids[AniDbKey] == animeId
  {
    var lang := DesiredLanguage(metadataLanguage);
    var start := InitialResult(animeId);
    var (r, after, err) := Fetched(start, animeId, lang, files, cachePath, c, s);
    FetchedKeeps(start, animeId, lang, files, cachePath, c, s);
    FallbackAppliedFlag(start, s.fallbackTitles, c, lang);
    FallbackAppliedFlag(r, s.fallbackTitles, c, lang);
  }

  /** A valid cached document is read, never rewritten, and the request's answer does not matter. */
  lemma ValidCacheUntouched(animeId: string, metadataLanguage: Option<string>, files: map<Path, FileEntry>, cachePath: Path,
                            c: PluginConfiguration, s: Services, response: Result<string, Exception>)
    requires HasExistingSeriesData(files, cachePath, animeId, s.nowTicks, c.MaxCacheAge)
    ensures var o := MetadataForId(animeId, metadataLanguage, files, cachePath, c, s);
            o.files == files && !o.markBanned
            && o == MetadataForId(animeId, metadataLanguage, files, cachePath, c, s.(response := response))
  {
    var lang := DesiredLanguage(metadataLanguage);
    var start := InitialResult(animeId);
    var text := FileText(files, SeriesFilePath(cachePath, animeId));
    SeriesInfoKeeps(start, text, s.tokenise, c, lang, s.parse);
    var err := SeriesInfo(start, text, s.tokenise, c, lang, s.parse).1;
    if err.Some? {
      OnlyApiErrorsAreBans(err.value);
    }
  }

  /**
   * `GetMetadata`: the AniDB id recorded on the lookup, or, when there is
   * none and the lookup has a name, the id the title index finds for that
   * name. `None` stands for the empty result returned without an id.
   */
  function LookupId(recorded: Option<string>, name: Option<string>, findId: string -> Option<string>): (r: Option<string>)
    ensures r.Some? ==> r.value != []
    ensures !IsNullOrEmpty(recorded) ==> r == recorded
    ensures IsNullOrEmpty(recorded) && IsNullOrEmpty(name) ==> r.None?
    ensures IsNullOrEmpty(recorded) && !IsNullOrEmpty(name) ==>
              r == (if IsNullOrEmpty(findId(name.value)) then None else findId(name.value))
  {
    var id := if IsNullOrEmpty(recorded) && !IsNullOrEmpty(name) then findId(name.value) else recorded;
    if IsNullOrEmpty(id) then None else id
  }

  // ---------------------------------------------------------------- the provider methods

  /** `ApplyFallbackTitlesAsync` on the result; the titles come from the title index. */
  method ApplyFallbackTitles(result: MetadataResult, titles: Option<seq<Title>>, c: PluginConfiguration, lang: string)
    modifies result, result.item
    ensures result.Fields() == FallbackApplied(old(result.Fields()), titles, c, lang)
  {
    if titles.None? {
      result.hasMetadata := false;
      return;
    }
    var applied := ApplyTitles(result.item, titles.value, c, lang, true);
    if !applied {
      result.hasMetadata := false;
    }
  }

  /** `GetMetadataForId` on the cache `store`. */
  method GetMetadataForId(store: FileStore, animeId: string, metadataLanguage: Option<string>, cachePath: Path,
                          c: PluginConfiguration, s: Services) returns (result: MetadataResult, markBanned: bool)
    modifies store
    ensures fresh(result) && fresh(result.item)
    ensures Outcome(result.Fields(), store.files, markBanned)
            == MetadataForId(animeId, metadataLanguage, old(store.files), cachePath, c, s)
  {
    var item := new Series();
    result := new MetadataResult(item);
    result.hasMetadata := true;
    item.providerIds := item.providerIds[AniDbKey := animeId];
    var lang := metadataLanguage.GetOr(DefaultLanguage);
    markBanned := false;
    if s.bannedRecently && !store.HasSeriesData(cachePath, animeId, s.nowTicks, c.MaxCacheAge) {
      ApplyFallbackTitles(result, s.fallbackTitles, c, lang);
      return;
    }
    var path := store.GetSeriesData(cachePath, animeId, c.MaxCacheAge, s.response, s.tokenise, s.nowTicks);
    var err: Option<Exception>;
    if path.Failure? {
      err := Some(path.error);
    } else {
      err := FetchSeriesInfo(result, store.ReadText(path.value), s.tokenise, c, lang, s.parse);
    }
    if err.Some? {
      markBanned := Contains(Message(err.value), BanMarker);
      ApplyFallbackTitles(result, s.fallbackTitles, c, lang);
    }
  }

  /** `GetMetadata`: no id gives no result; otherwise `GetMetadataForId`. */
  method GetMetadata(store: FileStore, recorded: Option<string>, name: Option<string>, findId: string -> Option<string>,
                     metadataLanguage: Option<string>, cachePath: Path, c: PluginConfiguration, s: Services)
    returns (result: MetadataResult?, markBanned: bool)
    modifies store
    ensures var id := LookupId(recorded, name, findId);
            if id.None? then result == null && !markBanned && store.files == old(store.files)
            else result != null && fresh(result)
                 && Outcome(result.Fields(), store.files, markBanned)
                    == MetadataForId(id.value, metadataLanguage, old(store.files), cachePath, c, s)
  {
    var animeId := recorded;
    if IsNullOrEmpty(animeId) && !IsNullOrEmpty(name) {
      animeId := findId(name.value);
    }
    if !IsNullOrEmpty(animeId) {
      result, markBanned := GetMetadataForId(store, animeId.value, metadataLanguage, cachePath, c, s);
      return;
    }
    return null, false;
  }
}
