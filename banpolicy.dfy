/**
 * The ban policy both providers share: the guard that skips the request when
 * AniDB banned the client recently and no valid cached document exists, and
 * the test on an exception's message that records a new ban.
 */
module BanPolicy {
  import opened Wrappers
  import opened Text
  import opened Exceptions
  import opened ApiErrors
  import opened Document
  import opened Cache

  /**
   * The guard in front of `GetSeriesData`: a recent ban and no valid cached
   * document mean no request is made.
   */
  predicate BanBlocksFetch(bannedRecently: bool, files: map<Path, FileEntry>, cachePath: Path, seriesId: string,
                           nowTicks: int, maxCacheAge: int) {
    bannedRecently && !HasExistingSeriesData(files, cachePath, seriesId, nowTicks, maxCacheAge)
  }

  /** The test before `MarkBanned`: the message contains the ban element, by ordinal search. */
  predicate IsBanError(e: Exception) {
    Contains(Message(e), BanMarker)
  }

  /** A text shorter than the ban element cannot contain it. */
  lemma ShortNoMarker(s: string)
    requires |s| < |BanMarker|
    ensures !Contains(s, BanMarker)
  {
  }

  /** Only an AniDB error element in the response can make an exception a ban. */
  lemma OnlyApiErrorsAreBans(e: Exception)
    requires !e.ApiError?
    ensures !IsBanError(e)
  {
    assert |Message(e)| < 25 < |BanMarker|;
    ShortNoMarker(Message(e));
  }

  /** An error element in the message is a ban exactly when it is the ban element itself. */
  lemma ApiErrorBan(s: string)
    requires FindError(s).Some?
    ensures IsBanError(ApiError(FindError(s).value)) <==> FindError(s).value == BanMarker
  {
    var r := FindFrom(s, 0).value;
    var k, d, w := r.0, r.1, r.2;
    assert FindError(s).value == ErrorElement(d, w);
    ErrorAtSound(s, k);
    BanMarkerIff(d, w);
    BanMarkerIsElement();
    if ErrorElement(d, w) == BanMarker {
      assert OccursAt(BanMarker, BanMarker, 0);
      ErrorAtComplete(BanMarker, 0, d, w);
      ErrorAtComplete(BanMarker, 0, "500", "banned");
    }
  }

  /**
   * `GetSeriesData` raises a ban exactly when the cache was not valid, the
   * request got an answer, and the leftmost error element of that answer,
   * once scrubbed, is the ban element; a failed request raises no ban.
   */
  lemma SeriesDataBanError(files: map<Path, FileEntry>, cachePath: Path, seriesId: string, maxCacheAge: int,
                           response: Result<string, Exception>, tokenise: string -> Parsed, nowTicks: int)
    requires response.Failure? ==> response.error == HttpFailure
    ensures var err := SeriesData(files, cachePath, seriesId, maxCacheAge, response, tokenise, nowTicks).1;
            (err.Some? && IsBanError(err.value)) <==>
              !HasExistingSeriesData(files, cachePath, seriesId, nowTicks, maxCacheAge) && response.Success?
              && FindError(Scrub(response.value)) == Some(BanMarker)
  {
    var err := SeriesData(files, cachePath, seriesId, maxCacheAge, response, tokenise, nowTicks).1;
    if !HasExistingSeriesData(files, cachePath, seriesId, nowTicks, maxCacheAge) {
      if response.Failure? {
        OnlyApiErrorsAreBans(HttpFailure);
      } else if FindError(Scrub(response.value)).Some? {
        assert err == Some(ApiError(FindError(Scrub(response.value)).value));
        ApiErrorBan(Scrub(response.value));
      } else {
        OnlyApiErrorsAreBans(XmlMalformed);
      }
    }
  }
}
