/**
 * The on-disk caches: the downloaded series document and its episode files
 * under `<cache>/anidb/series/<id>/`, and the person records under
 * `<cache>/anidb-people/<initial>/<name>.xml`.
 */
module Cache {
  import opened Wrappers
  import opened Text
  import opened Exceptions
  import opened People
  import opened Episodes
  import opened Document
  import opened ApiErrors

  /**
   * A file-system path as its components; `Path.Combine` appends components. Each name,
   * episode number and series id is one component: separators, `.` and `..` are not resolved.
   */
  type Path = seq<string>

  /** What a cached file holds: raw text, or a serialized person record. */
  datatype FileContent = TextContent(text: string) | PersonRecord(person: AniDbPersonInfo)

  /** A file and its last write time, in 100-nanosecond ticks. */
  datatype FileEntry = FileEntry(content: FileContent, lastWriteTicks: int)

  /** `TimeSpan.FromDays(1).Ticks`. */
  const TicksPerDay: int := 864_000_000_000

  const SeriesDataFile: string := "series.xml"
  const PeopleDirectory: string := "anidb-people"

  /** `GetSeriesDataPath`: the directory of one series' cached files. */
  function SeriesDataPath(cachePath: Path, seriesId: string): Path {
    cachePath + ["anidb", "series", seriesId]
  }

  /** The cached series document of one series. */
  function SeriesFilePath(cachePath: Path, seriesId: string): Path {
    SeriesDataPath(cachePath, seriesId) + [SeriesDataFile]
  }

  /** `FileInfo.Length`; a serialized person record is never empty. */
  function Length(e: FileEntry): nat {
    match e.content
    case TextContent(t) => |t|
    case PersonRecord(_) => 1
  }

  /**
   * `HasExistingSeriesData`: the cached document exists, is not empty, and is
   * not older than `maxCacheAge` days.
   */
  predicate HasExistingSeriesData(files: map<Path, FileEntry>, cachePath: Path, seriesId: string, nowTicks: int, maxCacheAge: int) {
    var path := SeriesFilePath(cachePath, seriesId);
    var exists_ := path in files;
    var isEmpty := exists_ && Length(files[path]) == 0;
    var isStale := exists_ && nowTicks - files[path].lastWriteTicks > maxCacheAge * TicksPerDay;
    exists_ && !isEmpty && !isStale
  }

  /** A document written at `t` with text in it stays valid for exactly `maxCacheAge` days. */
  lemma {:induction false} CacheValidityWindow(files: map<Path, FileEntry>, cachePath: Path, seriesId: string, nowTicks: int, maxCacheAge: int)
    ensures var path := SeriesFilePath(cachePath, seriesId);
            HasExistingSeriesData(files, cachePath, seriesId, nowTicks, maxCacheAge) <==>
              path in files && Length(files[path]) > 0 && nowTicks <= files[path].lastWriteTicks + maxCacheAge * TicksPerDay
  {
  }

  /** The name of a file: the last path component. */
  function FileName(p: Path): string
    requires p != []
  {
    p[|p| - 1]
  }

  predicate IsXmlFile(p: Path) {
    p != [] && |FileName(p)| >= |XmlExtension| && FileName(p)[|FileName(p)| - |XmlExtension|..] == XmlExtension
  }

  /** True when `p` lies somewhere below directory `dir`. */
  predicate Under(p: Path, dir: Path) {
    |dir| < |p| && p[..|dir|] == dir
  }

  /** `DeleteXmlFiles`: every `*.xml` file anywhere below `dir` is removed. */
  function DeleteXmlFiles(files: map<Path, FileEntry>, dir: Path): (r: map<Path, FileEntry>)
    ensures forall p :: p in r <==> p in files && !(Under(p, dir) && IsXmlFile(p))
    ensures forall p :: p in r ==> r[p] == files[p]
  {
    map p | p in files && !(Under(p, dir) && IsXmlFile(p)) :: files[p]
  }

  // ---- person cache -------------------------------------------------------

  /**
   * `GetCastPath` as written: `name[0]` on the lower-cased name throws
   * `IndexOutOfRangeException` when the name is empty.
   */
  function GetCastPathAsWritten(name: string, cachePath: Path): Result<Path, Exception> {
    var n := ToLower(name);
    if n == [] then Failure(IndexOutOfRange)
    else Success(cachePath + [PeopleDirectory, [n[0]], n + XmlExtension])
  }

  /** The person-cache path of a name, or nothing for an empty name. */
  function CastPath(name: string, cachePath: Path): (r: Option<Path>)
    ensures r.None? <==> name == []
    ensures r.Some? ==> GetCastPathAsWritten(name, cachePath) == Success(r.value)
    ensures r.None? ==> GetCastPathAsWritten(name, cachePath) == Failure(IndexOutOfRange)
  {
    var n := ToLower(name);
    if n == [] then None else Some(cachePath + [PeopleDirectory, [n[0]], n + XmlExtension])
  }

  /** Two names share a person file exactly when they agree ignoring case. */
  lemma CastPathCaseInsensitive(a: string, b: string, cachePath: Path)
    requires a != [] && b != []
    ensures CastPath(a, cachePath) == CastPath(b, cachePath) <==> EqualsIgnoreCase(a, b)
  {
    var pa := CastPath(a, cachePath).value;
    var pb := CastPath(b, cachePath).value;
    if pa == pb {
      assert pa[|cachePath| + 2] == pb[|cachePath| + 2];
      var na, nb := ToLower(a), ToLower(b);
      assert na + XmlExtension == nb + XmlExtension;
      assert na == (na + XmlExtension)[..|na|];
      assert nb == (nb + XmlExtension)[..|nb|];
    }
  }

  /** The file written for a person record. */
  function PersonFile(p: AniDbPersonInfo, nowTicks: int): FileEntry {
    FileEntry(PersonRecord(p), nowTicks)
  }

  /** `ExtractCast`'s rule for one record: write when the file is absent or the record has an image. */
  function WriteCastRecord(files: map<Path, FileEntry>, cachePath: Path, p: AniDbPersonInfo, nowTicks: int): map<Path, FileEntry> {
    match CastPath(p.name, cachePath)
    case None => files
    case Some(path) => if path !in files || p.image.Some? then files[path := PersonFile(p, nowTicks)] else files
  }

  /** The writes of `ExtractCast` for all records in document order; empty names are skipped. */
  function CastWrites(files: map<Path, FileEntry>, cachePath: Path, records: seq<AniDbPersonInfo>, nowTicks: int): map<Path, FileEntry>
    decreases |records|
  {
    if records == [] then files
    else CastWrites(WriteCastRecord(files, cachePath, records[0], nowTicks), cachePath, records[1..], nowTicks)
  }

  /** `ExtractCast` as written: the first empty name aborts with the remaining records unwritten. */
  function CastWritesAsWritten(files: map<Path, FileEntry>, cachePath: Path, records: seq<AniDbPersonInfo>, nowTicks: int): (map<Path, FileEntry>, Option<Exception>)
    decreases |records|
  {
    if records == [] then (files, None)
    else match GetCastPathAsWritten(records[0].name, cachePath)
      case Failure(e) => (files, Some(e))
      case Success(_) => CastWritesAsWritten(WriteCastRecord(files, cachePath, records[0], nowTicks), cachePath, records[1..], nowTicks)
  }

  /** Without empty names the corrected writes are those of the code as written. */
  lemma {:induction false} CastWritesAgree(files: map<Path, FileEntry>, cachePath: Path, records: seq<AniDbPersonInfo>, nowTicks: int)
    requires forall i :: 0 <= i < |records| ==> records[i].name != []
    ensures CastWritesAsWritten(files, cachePath, records, nowTicks) == (CastWrites(files, cachePath, records, nowTicks), None)
    decreases |records|
  {
    if records != [] {
      CastWritesAgree(WriteCastRecord(files, cachePath, records[0], nowTicks), cachePath, records[1..], nowTicks);
    }
  }

  /**
   * One seiyuu whose element is empty aborts the whole extraction as
   * written: the person after it is never cached, and the download fails.
   */
  lemma CastWritesAsWrittenAbortsOnEmptyName(cachePath: Path, nowTicks: int, name: string)
    requires name != []
    ensures var good := AniDbPersonInfo(name, None, None);
            var records := [AniDbPersonInfo("", None, None), good];
            CastWritesAsWritten(map[], cachePath, records, nowTicks) == (map[], Some(IndexOutOfRange))
            && CastPath(name, cachePath).Some?
            && CastPath(name, cachePath).value in CastWrites(map[], cachePath, records, nowTicks)
  {
    var good := AniDbPersonInfo(name, None, None);
    var records := [AniDbPersonInfo("", None, None), good];
    assert records[1..] == [good] && [good][1..] == [];
    assert WriteCastRecord(map[], cachePath, records[0], nowTicks) == map[];
    var once := WriteCastRecord(map[], cachePath, good, nowTicks);
    assert CastWrites(map[], cachePath, [good], nowTicks) == CastWrites(once, cachePath, [], nowTicks);
    assert CastWrites(map[], cachePath, records, nowTicks) == once;
  }

  /** True when record `p` is kept at `path`. */
  predicate CachedAt(p: AniDbPersonInfo, cachePath: Path, path: Path) {
    CastPath(p.name, cachePath) == Some(path)
  }

  /** Paths no record maps to keep their old contents. */
  lemma {:induction false} CastWritesUntouched(files: map<Path, FileEntry>, cachePath: Path, records: seq<AniDbPersonInfo>, nowTicks: int, path: Path)
    requires forall i :: 0 <= i < |records| ==> !CachedAt(records[i], cachePath, path)
    ensures var r := CastWrites(files, cachePath, records, nowTicks);
            (path in r <==> path in files) && (path in files ==> r[path] == files[path])
    decreases |records|
  {
    if records != [] {
      CastWritesUntouched(WriteCastRecord(files, cachePath, records[0], nowTicks), cachePath, records[1..], nowTicks, path);
    }
  }

  /** An existing person file is only overwritten by a record with an image. */
  lemma {:induction false} CastWritesKeepExisting(files: map<Path, FileEntry>, cachePath: Path, records: seq<AniDbPersonInfo>, nowTicks: int, path: Path)
    requires path in files
    requires forall i :: 0 <= i < |records| && CachedAt(records[i], cachePath, path) ==> records[i].image.None?
    ensures var r := CastWrites(files, cachePath, records, nowTicks);
            path in r && r[path] == files[path]
    decreases |records|
  {
    if records != [] {
      CastWritesKeepExisting(WriteCastRecord(files, cachePath, records[0], nowTicks), cachePath, records[1..], nowTicks, path);
    }
  }

  /** The last record with an image decides a person file. */
  lemma {:induction false} CastWritesLastImage(files: map<Path, FileEntry>, cachePath: Path, records: seq<AniDbPersonInfo>, nowTicks: int, path: Path, i: nat)
    requires i < |records| && CachedAt(records[i], cachePath, path) && records[i].image.Some?
    requires forall j :: i < j < |records| && CachedAt(records[j], cachePath, path) ==> records[j].image.None?
    ensures var r := CastWrites(files, cachePath, records, nowTicks);
            path in r && r[path] == PersonFile(records[i], nowTicks)
    decreases |records|
  {
    var next := WriteCastRecord(files, cachePath, records[0], nowTicks);
    if i == 0 {
      CastWritesKeepExisting(next, cachePath, records[1..], nowTicks, path);
    } else {
      CastWritesLastImage(next, cachePath, records[1..], nowTicks, path, i - 1);
    }
  }

  /** Without any image, a new person file holds the first record that maps to it. */
  lemma {:induction false} CastWritesFirstWithoutImage(files: map<Path, FileEntry>, cachePath: Path, records: seq<AniDbPersonInfo>, nowTicks: int, path: Path, i: nat)
    requires path !in files
    requires i < |records| && CachedAt(records[i], cachePath, path)
    requires forall j :: 0 <= j < i ==> !CachedAt(records[j], cachePath, path)
    requires forall j :: 0 <= j < |records| && CachedAt(records[j], cachePath, path) ==> records[j].image.None?
    ensures var r := CastWrites(files, cachePath, records, nowTicks);
            path in r && r[path] == PersonFile(records[i], nowTicks)
    decreases |records|
  {
    var next := WriteCastRecord(files, cachePath, records[0], nowTicks);
    if i == 0 {
      CastWritesKeepExisting(next, cachePath, records[1..], nowTicks, path);
    } else {
      CastWritesFirstWithoutImage(next, cachePath, records[1..], nowTicks, path, i - 1);
    }
  }

  // ---- episode files ------------------------------------------------------

  /** `SaveEpsiodeXml` for one episode. */
  function WriteEpisode(files: map<Path, FileEntry>, dir: Path, e: Episode, nowTicks: int): map<Path, FileEntry> {
    match EpisodeArtifact(e)
    case Some((name, xml)) => files[dir + [name] := FileEntry(TextContent(xml), nowTicks)]
    case None => files
  }

  /** `ExtractEpisodes`: every episode in document order, whatever its id. */
  function EpisodeWrites(files: map<Path, FileEntry>, dir: Path, episodes: seq<Episode>, nowTicks: int): map<Path, FileEntry>
    decreases |episodes|
  {
    if episodes == [] then files
    else EpisodeWrites(WriteEpisode(files, dir, episodes[0], nowTicks), dir, episodes[1..], nowTicks)
  }

  /** Episode files are written only inside the series directory, as `.xml` files. */
  lemma {:induction false} EpisodeWritesStayInside(files: map<Path, FileEntry>, dir: Path, episodes: seq<Episode>, nowTicks: int)
    ensures var r := EpisodeWrites(files, dir, episodes, nowTicks);
            forall p :: p in r && !(p in files && r[p] == files[p]) ==> Under(p, dir) && IsXmlFile(p) && FileName(p) != SeriesDataFile
    ensures forall p :: p in files ==> p in EpisodeWrites(files, dir, episodes, nowTicks)
    decreases |episodes|
  {
    if episodes != [] {
      var next := WriteEpisode(files, dir, episodes[0], nowTicks);
      EpisodeWritesStayInside(next, dir, episodes[1..], nowTicks);
      match EpisodeArtifact(episodes[0])
      case Some((name, xml)) =>
        var n := FirstEpisodeNumber(episodes[0].children).value;
        EpisodeFileNameIsXml(n);
        var p := dir + [name];
        assert Under(p, dir) && FileName(p) == name;
        assert name[0] == EpisodeFilePrefix[0] == 'e';
        assert SeriesDataFile[0] == 's';
      case None =>
    }
  }

  /** An episode named by a non-blank `epno` ends up saved when no later episode reuses its number. */
  lemma {:induction false} EpisodeWritesSaved(files: map<Path, FileEntry>, dir: Path, episodes: seq<Episode>, nowTicks: int, i: nat)
    requires i < |episodes| && EpisodeArtifact(episodes[i]).Some?
    requires forall j :: i < j < |episodes| && EpisodeArtifact(episodes[j]).Some? ==>
               EpisodeArtifact(episodes[j]).value.0 != EpisodeArtifact(episodes[i]).value.0
    ensures var r := EpisodeWrites(files, dir, episodes, nowTicks);
            var (name, xml) := EpisodeArtifact(episodes[i]).value;
            dir + [name] in r && r[dir + [name]] == FileEntry(TextContent(xml), nowTicks)
    decreases |episodes|
  {
    var next := WriteEpisode(files, dir, episodes[0], nowTicks);
    if i == 0 {
      var (name, xml) := EpisodeArtifact(episodes[0]).value;
      forall j | 0 <= j < |episodes[1..]| && EpisodeArtifact(episodes[1..][j]).Some?
        ensures dir + [EpisodeArtifact(episodes[1..][j]).value.0] != dir + [name]
      {
        var other := EpisodeArtifact(episodes[1..][j]).value.0;
        assert episodes[1..][j] == episodes[j + 1];
        assert (dir + [other])[|dir|] == other;
      }
      EpisodeWritesKeep(next, dir, episodes[1..], nowTicks, dir + [name]);
    } else {
      EpisodeWritesSaved(next, dir, episodes[1..], nowTicks, i - 1);
    }
  }

  /** A path no episode names is left alone. */
  lemma {:induction false} EpisodeWritesKeep(files: map<Path, FileEntry>, dir: Path, episodes: seq<Episode>, nowTicks: int, path: Path)
    requires forall j :: 0 <= j < |episodes| && EpisodeArtifact(episodes[j]).Some? ==> dir + [EpisodeArtifact(episodes[j]).value.0] != path
    ensures var r := EpisodeWrites(files, dir, episodes, nowTicks);
            (path in r <==> path in files) && (path in files ==> r[path] == files[path])
    decreases |episodes|
  {
    if episodes != [] {
      EpisodeWritesKeep(WriteEpisode(files, dir, episodes[0], nowTicks), dir, episodes[1..], nowTicks, path);
    }
  }

  // ---- download -----------------------------------------------------------

  /**
   * `DownloadSeriesData` on the cache: the old `.xml` files of the series are
   * deleted, the response is read (or the request fails), `series.xml` is
   * truncated, the scrubbed text is scanned for an AniDB error element, and
   * only a clean text is written; then the episodes and the person records
   * are extracted from it. The second component is the exception raised.
   */
  function Download(files: map<Path, FileEntry>, cachePath: Path, seriesId: string,
                    response: Result<string, Exception>, tokenise: string -> Parsed, nowTicks: int): (map<Path, FileEntry>, Option<Exception>) {
    var dir := SeriesDataPath(cachePath, seriesId);
    var path := dir + [SeriesDataFile];
    var cleared := DeleteXmlFiles(files, dir);
    match response
    case Failure(e) => (cleared, Some(e))
    case Success(body) =>
      var truncated := cleared[path := FileEntry(TextContent([]), nowTicks)];
      match ScanResponse(body)
      case Failure(e) => (truncated, Some(e))
      case Success(text) => Store(truncated, cachePath, seriesId, text, tokenise, nowTicks)
  }

  /** The clean text is written, then the episodes and the person records are extracted from it. */
  function Store(files: map<Path, FileEntry>, cachePath: Path, seriesId: string, text: string,
                 tokenise: string -> Parsed, nowTicks: int): (map<Path, FileEntry>, Option<Exception>) {
    var dir := SeriesDataPath(cachePath, seriesId);
    var doc := tokenise(text);
    var withEpisodes := EpisodeWrites(files[dir + [SeriesDataFile] := FileEntry(TextContent(text), nowTicks)], dir, AllEpisodes(doc.sections), nowTicks);
    if doc.malformed then (withEpisodes, Some(XmlMalformed))
    else (CastWrites(withEpisodes, cachePath, CastRecords(doc.sections), nowTicks), None)
  }

  /** Person files never land in a series directory. */
  lemma CastPathOutsideSeries(name: string, cachePath: Path, seriesId: string, p: Path)
    requires Under(p, SeriesDataPath(cachePath, seriesId))
    ensures CastPath(name, cachePath) != Some(p)
  {
    assert p[..|SeriesDataPath(cachePath, seriesId)|][|cachePath|] == "anidb";
  }

  /** The person extraction leaves the series directory alone. */
  lemma CastWritesOutsideSeries(files: map<Path, FileEntry>, cachePath: Path, seriesId: string, records: seq<AniDbPersonInfo>, nowTicks: int, p: Path)
    requires Under(p, SeriesDataPath(cachePath, seriesId))
    ensures var r := CastWrites(files, cachePath, records, nowTicks);
            (p in r <==> p in files) && (p in files ==> r[p] == files[p])
  {
    forall i | 0 <= i < |records| ensures !CachedAt(records[i], cachePath, p) {
      CastPathOutsideSeries(records[i].name, cachePath, seriesId, p);
    }
    CastWritesUntouched(files, cachePath, records, nowTicks, p);
  }

  /**
   * A failed request or an AniDB error leaves no valid cache entry behind: the
   * document is missing, or present and empty; and no older `.xml` file of the
   * series survives.
   */
  lemma DownloadFailureInvalidates(files: map<Path, FileEntry>, cachePath: Path, seriesId: string,
                                   response: Result<string, Exception>, tokenise: string -> Parsed, nowTicks: int,
                                   laterTicks: int, maxCacheAge: int)
    requires response.Failure? || ScanResponse(response.value).Failure?
    ensures var (after, err) := Download(files, cachePath, seriesId, response, tokenise, nowTicks);
            err.Some? && !HasExistingSeriesData(after, cachePath, seriesId, laterTicks, maxCacheAge)
            && forall p :: p in after && Under(p, SeriesDataPath(cachePath, seriesId)) && IsXmlFile(p) ==>
                             p == SeriesFilePath(cachePath, seriesId) && Length(after[p]) == 0
  {
  }

  /** After a clean download the document holds the scrubbed response, written now. */
  lemma DownloadSuccessWrites(files: map<Path, FileEntry>, cachePath: Path, seriesId: string,
                              body: string, tokenise: string -> Parsed, nowTicks: int)
    requires ScanResponse(body).Success?
    ensures var (after, err) := Download(files, cachePath, seriesId, Success(body), tokenise, nowTicks);
            var path := SeriesFilePath(cachePath, seriesId);
            path in after && after[path] == FileEntry(TextContent(Scrub(body)), nowTicks)
            && (err.Some? <==> tokenise(Scrub(body)).malformed)
  {
    var dir := SeriesDataPath(cachePath, seriesId);
    var path := dir + [SeriesDataFile];
    var text := Scrub(body);
    var doc := tokenise(text);
    var truncated := DeleteXmlFiles(files, dir)[path := FileEntry(TextContent([]), nowTicks)];
    var written := truncated[path := FileEntry(TextContent(text), nowTicks)];
    var withEpisodes := EpisodeWrites(written, dir, AllEpisodes(doc.sections), nowTicks);
    EpisodeWritesStayInside(written, dir, AllEpisodes(doc.sections), nowTicks);
    assert FileName(path) == SeriesDataFile;
    assert path in withEpisodes && withEpisodes[path] == written[path];
    assert Under(path, dir);
    CastWritesOutsideSeries(withEpisodes, cachePath, seriesId, CastRecords(doc.sections), nowTicks, path);
  }

  /** Every `.xml` file in the series directory after a download was written by that download. */
  lemma DownloadRefreshesSeriesDirectory(files: map<Path, FileEntry>, cachePath: Path, seriesId: string,
                                         response: Result<string, Exception>, tokenise: string -> Parsed, nowTicks: int)
    ensures var (after, _) := Download(files, cachePath, seriesId, response, tokenise, nowTicks);
            forall p :: p in after && Under(p, SeriesDataPath(cachePath, seriesId)) && IsXmlFile(p) ==>
                          after[p].lastWriteTicks == nowTicks && after[p].content.TextContent?
  {
    var dir := SeriesDataPath(cachePath, seriesId);
    var path := dir + [SeriesDataFile];
    var cleared := DeleteXmlFiles(files, dir);
    if response.Success? && ScanResponse(response.value).Success? {
      var text := Scrub(response.value);
      var doc := tokenise(text);
      var written := cleared[path := FileEntry(TextContent([]), nowTicks)][path := FileEntry(TextContent(text), nowTicks)];
      var withEpisodes := EpisodeWrites(written, dir, AllEpisodes(doc.sections), nowTicks);
      EpisodeWritesStayInside(written, dir, AllEpisodes(doc.sections), nowTicks);
      var after := Download(files, cachePath, seriesId, response, tokenise, nowTicks).0;
      forall p | p in after && Under(p, dir) && IsXmlFile(p)
        ensures after[p].lastWriteTicks == nowTicks && after[p].content.TextContent?
      {
        if !doc.malformed {
          CastWritesOutsideSeries(withEpisodes, cachePath, seriesId, CastRecords(doc.sections), nowTicks, p);
        }
        if doc.malformed {
          assert after == withEpisodes;
        } else {
          assert after == CastWrites(withEpisodes, cachePath, CastRecords(doc.sections), nowTicks);
        }
        assert p in withEpisodes && after[p] == withEpisodes[p];
        if p in written && withEpisodes[p] == written[p] {
          assert p == path;
        } else {
          var e := withEpisodes[p];
          EpisodeWriteEntries(written, dir, AllEpisodes(doc.sections), nowTicks, p);
        }
      }
    }
  }

  /** The entries the episode extraction changes are text files written now. */
  lemma {:induction false} EpisodeWriteEntries(files: map<Path, FileEntry>, dir: Path, episodes: seq<Episode>, nowTicks: int, p: Path)
    requires var r := EpisodeWrites(files, dir, episodes, nowTicks); p in r && !(p in files && r[p] == files[p])
    ensures var r := EpisodeWrites(files, dir, episodes, nowTicks); r[p].lastWriteTicks == nowTicks && r[p].content.TextContent?
    decreases |episodes|
  {
    var next := WriteEpisode(files, dir, episodes[0], nowTicks);
    var r := EpisodeWrites(files, dir, episodes, nowTicks);
    if !(p in next && r[p] == next[p]) {
      EpisodeWriteEntries(next, dir, episodes[1..], nowTicks, p);
    }
  }

  /** `GetSeriesData` on the cache: download exactly when the cached document is not valid. */
  function SeriesData(files: map<Path, FileEntry>, cachePath: Path, seriesId: string, maxCacheAge: int,
                      response: Result<string, Exception>, tokenise: string -> Parsed, nowTicks: int): (map<Path, FileEntry>, Option<Exception>) {
    if HasExistingSeriesData(files, cachePath, seriesId, nowTicks, maxCacheAge) then (files, None)
    else Download(files, cachePath, seriesId, response, tokenise, nowTicks)
  }

  /**
   * A valid cache is used as it is; otherwise the fetch either succeeds with
   * a document written now, or fails.
   */
  lemma SeriesDataOutcome(files: map<Path, FileEntry>, cachePath: Path, seriesId: string, maxCacheAge: int,
                          response: Result<string, Exception>, tokenise: string -> Parsed, nowTicks: int)
    ensures var (after, err) := SeriesData(files, cachePath, seriesId, maxCacheAge, response, tokenise, nowTicks);
            var path := SeriesFilePath(cachePath, seriesId);
            (HasExistingSeriesData(files, cachePath, seriesId, nowTicks, maxCacheAge) ==> after == files && err.None?)
            && (!HasExistingSeriesData(files, cachePath, seriesId, nowTicks, maxCacheAge) && err.None? ==>
                  path in after && after[path].lastWriteTicks == nowTicks && response.Success?
                  && after[path].content == TextContent(Scrub(response.value)))
  {
    if !HasExistingSeriesData(files, cachePath, seriesId, nowTicks, maxCacheAge) && response.Success? && ScanResponse(response.value).Success? {
      DownloadSuccessWrites(files, cachePath, seriesId, response.value, tokenise, nowTicks);
    }
  }

  /** The text of a file; opening a file that is not there raises. */
  function FileText(files: map<Path, FileEntry>, path: Path): (r: Result<string, Exception>)
    ensures r.Success? <==> path in files && files[path].content.TextContent?
    ensures r.Failure? ==> r.error == FileMissing
  {
    if path in files && files[path].content.TextContent? then Success(files[path].content.text) else Failure(FileMissing)
  }

  /** The file system as the provider sees it. */
  class FileStore {
    var files: map<Path, FileEntry>

    constructor (files: map<Path, FileEntry>)
      ensures this.files == files
    {
      this.files := files;
    }

    /** `HasExistingSeriesData`. */
    function HasSeriesData(cachePath: Path, seriesId: string, nowTicks: int, maxCacheAge: int): bool
      reads this
    {
      HasExistingSeriesData(files, cachePath, seriesId, nowTicks, maxCacheAge)
    }

    /** `File.Open` and a read to the end, on this file system. */
    function ReadText(path: Path): Result<string, Exception>
      reads this
    {
      FileText(files, path)
    }

    /** `DeleteXmlFiles`. */
    method DeleteXml(dir: Path)
      modifies this
      ensures files == DeleteXmlFiles(old(files), dir)
    {
      files := DeleteXmlFiles(files, dir);
    }

    /** `ExtractEpisodes`: saves each episode as the reader reaches it. */
    method ExtractEpisodes(dir: Path, doc: Parsed, nowTicks: int) returns (err: Option<Exception>)
      modifies this
      ensures files == EpisodeWrites(old(files), dir, AllEpisodes(doc.sections), nowTicks)
      ensures err == if doc.malformed then Some(XmlMalformed) else None
    {
      var episodes := AllEpisodes(doc.sections);
      var i := 0;
      while i < |episodes|
        invariant 0 <= i <= |episodes|
        invariant EpisodeWrites(files, dir, episodes[i..], nowTicks) == EpisodeWrites(old(files), dir, episodes, nowTicks)
      {
        var e := episodes[i];
        var number := ParseEpisodeNumber(e.children);
        if number.Some? {
          files := files[dir + [EpisodeFileName(number.value)] := FileEntry(TextContent(e.outerXml), nowTicks)];
        }
        assert episodes[i..][1..] == episodes[i + 1..];
        i := i + 1;
      }
      err := if doc.malformed then Some(XmlMalformed) else None;
    }

    /** `ExtractCast`: reads every record first, then writes them with the write rule. */
    method ExtractCast(cachePath: Path, doc: Parsed, nowTicks: int) returns (err: Option<Exception>)
      modifies this
      ensures doc.malformed ==> files == old(files) && err == Some(XmlMalformed)
      ensures !doc.malformed ==> files == CastWrites(old(files), cachePath, CastRecords(doc.sections), nowTicks) && err.None?
    {
      if doc.malformed {
        return Some(XmlMalformed);
      }
      var cast := CastRecords(doc.sections);
      var i := 0;
      while i < |cast|
        invariant 0 <= i <= |cast|
        invariant CastWrites(files, cachePath, cast[i..], nowTicks) == CastWrites(old(files), cachePath, cast, nowTicks)
      {
        var person := cast[i];
        var path := CastPath(person.name, cachePath);
        if path.Some? && (path.value !in files || person.image.Some?) {
          files := files[path.value := PersonFile(person, nowTicks)];
        }
        assert cast[i..][1..] == cast[i + 1..];
        i := i + 1;
      }
      return None;
    }

    /** `DownloadSeriesData`. */
    method DownloadSeriesData(cachePath: Path, seriesId: string, response: Result<string, Exception>,
                              tokenise: string -> Parsed, nowTicks: int) returns (err: Option<Exception>)
      modifies this
      ensures (files, err) == Download(old(files), cachePath, seriesId, response, tokenise, nowTicks)
    {
      var dir := SeriesDataPath(cachePath, seriesId);
      var path := dir + [SeriesDataFile];
      DeleteXml(dir);
      if response.Failure? {
        return Some(response.error);
      }
      files := files[path := FileEntry(TextContent([]), nowTicks)];
      var scanned := ScanResponse(response.value);
      if scanned.Failure? {
        return Some(scanned.error);
      }
      err := StoreAndExtract(cachePath, seriesId, scanned.value, tokenise, nowTicks);
    }

    /** Writes the clean text as the series document and extracts episodes and people from it. */
    method StoreAndExtract(cachePath: Path, seriesId: string, text: string, tokenise: string -> Parsed, nowTicks: int)
      returns (err: Option<Exception>)
      modifies this
      ensures (files, err) == Store(old(files), cachePath, seriesId, text, tokenise, nowTicks)
    {
      var dir := SeriesDataPath(cachePath, seriesId);
      files := files[dir + [SeriesDataFile] := FileEntry(TextContent(text), nowTicks)];
      var doc := tokenise(text);
      err := ExtractEpisodes(dir, doc, nowTicks);
      if err.Some? {
        return;
      }
      err := ExtractCast(cachePath, doc, nowTicks);
    }

    /** `GetSeriesData`: returns the document path, downloading first when the cache is not valid. */
    method GetSeriesData(cachePath: Path, seriesId: string, maxCacheAge: int, response: Result<string, Exception>,
                         tokenise: string -> Parsed, nowTicks: int) returns (r: Result<Path, Exception>)
      modifies this
      ensures var (after, err) := SeriesData(old(files), cachePath, seriesId, maxCacheAge, response, tokenise, nowTicks);
              files == after && r == (if err.Some? then Failure(err.value) else Success(SeriesFilePath(cachePath, seriesId)))
    {
      if !HasSeriesData(cachePath, seriesId, nowTicks, maxCacheAge) {
        var err := DownloadSeriesData(cachePath, seriesId, response, tokenise, nowTicks);
        if err.Some? {
          return Failure(err.value);
        }
      }
      return Success(SeriesFilePath(cachePath, seriesId));
    }
  }
}
