/**
 * `FetchSeriesInfo` and the section parsers it dispatches to. Each parser is
 * a method on the host's entities whose new state is given by a pure step
 * function; the properties of the parse are lemmas about those functions.
 */
module SeriesParser {
  import opened Wrappers
  import opened Sequences
  import opened Text
  import opened Configuration
  import opened Exceptions
  import opened People
  import opened Entities
  import opened Titles
  import opened Tags
  import opened Resources
  import opened Document

  /**
   * Code the parse calls but that lies outside this model: the AniDB link
   * regular expression, the host's genre clean-up and the configured role table.
   */
  datatype Collaborators = Collaborators(
    stripLinks: string -> string,
    cleanupGenres: seq<string> -> seq<string>,
    roles: map<string, PersonKind>)

  // ---------------------------------------------------------------- description

  /** The description as it reaches link stripping: leading `*` dropped, trimmed, graves replaced. */
  function DescriptionBody(text: string, replaceGraves: bool): (r: string)
    ensures r == [] || (!IsWhiteSpace(r[0]) && !IsWhiteSpace(r[|r| - 1]))
    ensures replaceGraves ==> '`' !in r
    ensures |r| <= |text|
  {
    var d := Trim(TrimStartChar(text, '*'));
    TrimEnds(TrimStartChar(text, '*'));
    if replaceGraves then
      if d != [] then GravesEnds(d); ReplaceGraves(d) else ReplaceGraves(d)
    else d
  }

  /** The overview `FetchSeriesInfo` stores for a `description` element. */
  function Overview(text: string, replaceGraves: bool, stripLinks: string -> string): (r: string)
    ensures '\n' !in r
  {
    ReplaceNewLine(stripLinks(DescriptionBody(text, replaceGraves)))
  }

  /**
   * No information is lost to line breaks: for text without `<` of its own,
   * turning every `<br>` back into a line feed gives the stripped text.
   */
  lemma OverviewRoundTrip(text: string, replaceGraves: bool, stripLinks: string -> string)
    requires '<' !in stripLinks(DescriptionBody(text, replaceGraves))
    ensures ReplaceAll(Overview(text, replaceGraves, stripLinks), "<br>", "\n") == stripLinks(DescriptionBody(text, replaceGraves))
  {
    ReplaceNewLineRoundTrip(stripLinks(DescriptionBody(text, replaceGraves)));
  }

  /** A description already trimmed and free of leading `*`, line feeds and links is stored as it is. */
  lemma OverviewPlainText(text: string, stripLinks: string -> string)
    requires text != [] && text[0] != '*' && !IsWhiteSpace(text[0]) && !IsWhiteSpace(text[|text| - 1])
    requires '\n' !in text && stripLinks(text) == text
    ensures Overview(text, false, stripLinks) == text
  {
    assert TrimStartChar(text, '*') == text;
    TrimUnchanged(text);
    forall k | 0 <= k <= |text|
      ensures !OccursAt(text, "\n", k)
    {
      if k + 1 <= |text| {
        assert text[k..k + 1][0] == text[k];
      }
    }
    ReplaceAllAbsent(text, "\n", "<br>");
  }

  // ---------------------------------------------------------------- creators

  /** The grave-accent normalisation when configured. */
  function Graves(replace: bool, s: string): string {
    if replace then ReplaceGraves(s) else s
  }

  /**
   * One `name` element of `ParseCreators`: an `Animation Work` becomes a
   * studio under its raw name; any other creator becomes a person, and one
   * without a `type` attribute makes the role lookup throw.
   */
  function CreatorApplied(r: ResultFields, c: CreatorElement, replaceGraves: bool, roles: map<string, PersonKind>)
    : Result<ResultFields, Exception>
  {
    if c.typeLabel == Some(AnimationWork) then Success(r.(item := r.item.(studios := r.item.studios + [c.name])))
    else
      match CreatePerson(Graves(replaceGraves, c.name), c.typeLabel, None, roles)
      case Failure(e) => Failure(e)
      case Success(p) => Success(r.(people := r.people + [p]))
  }

  /** `ParseCreators`: the creators in document order, ending at the first exception. */
  function CreatorsApplied(r: ResultFields, creators: seq<CreatorElement>, replaceGraves: bool,
                           roles: map<string, PersonKind>): (ResultFields, Option<Exception>)
    decreases |creators|
  {
    if creators == [] then (r, None)
    else
      match CreatorApplied(r, creators[0], replaceGraves, roles)
      case Failure(e) => (r, Some(e))
      case Success(next) => CreatorsApplied(next, creators[1..], replaceGraves, roles)
  }

  /** The studio a creator names: its own name when it is an `Animation Work`. */
  function StudioName(c: CreatorElement): seq<string> {
    if c.typeLabel == Some(AnimationWork) then [c.name] else []
  }

  /** The studios named by a creator list, in order. */
  function StudioNames(creators: seq<CreatorElement>): (r: seq<string>)
    ensures |r| <= |creators|
  {
    if creators == [] then [] else StudioName(creators[0]) + StudioNames(creators[1..])
  }

  /** The person a labelled creator that is not a studio names: reversed name, resolved kind, no role. */
  function CreatorPerson(c: CreatorElement, replaceGraves: bool, roles: map<string, PersonKind>): seq<PersonInfo> {
    if c.typeLabel.None? || c.typeLabel == Some(AnimationWork) then []
    else [PersonInfo(ReverseNameOrder(Graves(replaceGraves, c.name)), ResolveKind(c.typeLabel, roles).value, None)]
  }

  /** The people named by a creator list, in order. */
  function CreatorPeople(creators: seq<CreatorElement>, replaceGraves: bool, roles: map<string, PersonKind>): (r: seq<PersonInfo>)
    ensures |r| <= |creators|
  {
    if creators == [] then []
    else CreatorPerson(creators[0], replaceGraves, roles) + CreatorPeople(creators[1..], replaceGraves, roles)
  }

  /** A studio is named exactly when some `Animation Work` creator carries that name. */
  lemma {:induction false} StudioNamesMembership(creators: seq<CreatorElement>, name: string)
    ensures name in StudioNames(creators) <==>
            exists i :: 0 <= i < |creators| && creators[i].typeLabel == Some(AnimationWork) && creators[i].name == name
    decreases |creators|
  {
    if creators != [] {
      StudioNamesMembership(creators[1..], name);
      assert forall i :: 1 <= i < |creators| ==> creators[i] == creators[1..][i - 1];
      if name in StudioNames(creators[1..]) {
        var i :| 0 <= i < |creators[1..]| && creators[1..][i].typeLabel == Some(AnimationWork) && creators[1..][i].name == name;
        assert creators[i + 1] == creators[1..][i];
      }
    }
  }

  /**
   * A person is named exactly when some labelled creator that is not a
   * studio yields it: its reversed, grave-replaced name, the kind its label
   * resolves to, and no role.
   */
  lemma {:induction false} CreatorPeopleMembership(creators: seq<CreatorElement>, replaceGraves: bool,
                                                   roles: map<string, PersonKind>, p: PersonInfo)
    ensures p in CreatorPeople(creators, replaceGraves, roles) <==>
            exists i :: 0 <= i < |creators| && creators[i].typeLabel.Some? && creators[i].typeLabel != Some(AnimationWork)
                        && p == PersonInfo(ReverseNameOrder(Graves(replaceGraves, creators[i].name)),
                                           ResolveKind(creators[i].typeLabel, roles).value, None)
    decreases |creators|
  {
    if creators != [] {
      CreatorPeopleMembership(creators[1..], replaceGraves, roles, p);
      assert forall i :: 1 <= i < |creators| ==> creators[i] == creators[1..][i - 1];
      if p in CreatorPeople(creators[1..], replaceGraves, roles) {
        var i :| 0 <= i < |creators[1..]| && creators[1..][i].typeLabel.Some? && creators[1..][i].typeLabel != Some(AnimationWork)
                 && p == PersonInfo(ReverseNameOrder(Graves(replaceGraves, creators[1..][i].name)),
                                    ResolveKind(creators[1..][i].typeLabel, roles).value, None);
        assert creators[i + 1] == creators[1..][i];
      }
    }
  }

  /** One creator fails exactly when it has no `type`, and then with `ArgumentNullException`. */
  lemma CreatorAppliedFailure(r: ResultFields, c: CreatorElement, replaceGraves: bool, roles: map<string, PersonKind>)
    ensures CreatorApplied(r, c, replaceGraves, roles).Failure? <==> c.typeLabel.None?
    ensures CreatorApplied(r, c, replaceGraves, roles).Failure? ==> CreatorApplied(r, c, replaceGraves, roles).error == ArgumentNull
  {
  }

  lemma CreatorAppliedStudio(r: ResultFields, c: CreatorElement, replaceGraves: bool, roles: map<string, PersonKind>)
    requires c.typeLabel == Some(AnimationWork)
    ensures CreatorApplied(r, c, replaceGraves, roles) == Success(r.(item := r.item.(studios := r.item.studios + [c.name])))
  {
  }

  lemma CreatorAppliedPerson(r: ResultFields, c: CreatorElement, replaceGraves: bool, roles: map<string, PersonKind>)
    requires c.typeLabel != Some(AnimationWork) && c.typeLabel.Some?
    ensures CreatorApplied(r, c, replaceGraves, roles) == Success(r.(people := r.people + CreatorPerson(c, replaceGraves, roles)))
  {
  }

  /** A labelled creator adds its studio and its person, and nothing else. */
  lemma CreatorAppliedLabelled(r: ResultFields, c: CreatorElement, replaceGraves: bool, roles: map<string, PersonKind>)
    requires c.typeLabel.Some?
    ensures CreatorApplied(r, c, replaceGraves, roles)
            == Success(r.(item := r.item.(studios := r.item.studios + StudioName(c)),
                          people := r.people + CreatorPerson(c, replaceGraves, roles)))
  {
    if c.typeLabel == Some(AnimationWork) {
      CreatorAppliedStudio(r, c, replaceGraves, roles);
      assert r.people + [] == r.people;
    } else {
      CreatorAppliedPerson(r, c, replaceGraves, roles);
      assert r.item.studios + [] == r.item.studios;
      assert r.item.(studios := r.item.studios) == r.item;
    }
  }

  /**
   * The creator parse fails exactly when some creator has no `type`, and
   * then with `ArgumentNullException`.
   */
  lemma {:induction false} CreatorsFailure(r: ResultFields, creators: seq<CreatorElement>, replaceGraves: bool,
                                           roles: map<string, PersonKind>)
    ensures var err := CreatorsApplied(r, creators, replaceGraves, roles).1;
            (err.Some? <==> exists i :: 0 <= i < |creators| && creators[i].typeLabel.None?)
            && (err.Some? ==> err.value == ArgumentNull)
    decreases |creators|
  {
    if creators != [] {
      var c := creators[0];
      var rest := creators[1..];
      CreatorAppliedFailure(r, c, replaceGraves, roles);
      if c.typeLabel.Some? {
        var next := CreatorApplied(r, c, replaceGraves, roles).value;
        CreatorsFailure(next, rest, replaceGraves, roles);
        if exists i :: 0 <= i < |creators| && creators[i].typeLabel.None? {
          var i :| 0 <= i < |creators| && creators[i].typeLabel.None?;
          assert rest[i - 1] == creators[i];
        }
        if exists i :: 0 <= i < |rest| && rest[i].typeLabel.None? {
          var i :| 0 <= i < |rest| && rest[i].typeLabel.None?;
          assert creators[i + 1] == rest[i];
        }
      }
    }
  }

  /**
   * When every creator has a `type`, the studios and the people are appended
   * in document order and nothing else changes.
   */
  lemma {:induction false} CreatorsLabelled(r: ResultFields, creators: seq<CreatorElement>, replaceGraves: bool,
                                            roles: map<string, PersonKind>)
    requires forall i :: 0 <= i < |creators| ==> creators[i].typeLabel.Some?
    ensures CreatorsApplied(r, creators, replaceGraves, roles)
            == (r.(item := r.item.(studios := r.item.studios + StudioNames(creators)),
                   people := r.people + CreatorPeople(creators, replaceGraves, roles)), None)
    decreases |creators|
  {
    if creators != [] {
      var c := creators[0];
      var rest := creators[1..];
      CreatorAppliedLabelled(r, c, replaceGraves, roles);
      var next := r.(item := r.item.(studios := r.item.studios + StudioName(c)),
                     people := r.people + CreatorPerson(c, replaceGraves, roles));
      assert forall i :: 0 <= i < |rest| ==> rest[i] == creators[i + 1];
      CreatorsLabelled(next, rest, replaceGraves, roles);
      assert CreatorsApplied(r, creators, replaceGraves, roles) == CreatorsApplied(next, rest, replaceGraves, roles);
      var after := CreatorsApplied(next, rest, replaceGraves, roles).0;
      assert after.item.studios == next.item.studios + StudioNames(rest);
      Associative(r.item.studios, StudioName(c), StudioNames(rest));
      assert after.people == next.people + CreatorPeople(rest, replaceGraves, roles);
      Associative(r.people, CreatorPerson(c, replaceGraves, roles), CreatorPeople(rest, replaceGraves, roles));
      assert after.item == r.item.(studios := after.item.studios);
      assert after == r.(item := after.item, people := after.people);
    } else {
      assert r.item.studios + [] == r.item.studios && r.people + [] == r.people;
      assert r.item.(studios := r.item.studios) == r.item;
    }
  }

  // ---------------------------------------------------------------- characters

  /** The actor one character contributes, as a sequence of at most one. */
  function CharacterCast(c: Character, replaceGraves: bool): (r: seq<PersonInfo>)
    ensures |r| <= 1
    ensures r == [] <==> ActorOf(c, replaceGraves).None?
  {
    match ActorOf(c, replaceGraves)
    case Some(p) => [p]
    case None => []
  }

  function CastOf(replaceGraves: bool): Character -> seq<PersonInfo> {
    c => CharacterCast(c, replaceGraves)
  }

  /** The cast `ParseActors` adds: one actor per character that names both itself and its seiyuu. */
  function ActorPeople(chars: seq<Character>, replaceGraves: bool): seq<PersonInfo> {
    FlatMap(chars, CastOf(replaceGraves))
  }

  /** One more character adds its own cast at the end. */
  lemma ActorPeopleSnoc(chars: seq<Character>, i: nat, replaceGraves: bool)
    requires i < |chars|
    ensures ActorPeople(chars[..i + 1], replaceGraves) == ActorPeople(chars[..i], replaceGraves) + CharacterCast(chars[i], replaceGraves)
  {
    assert chars[..i + 1][..i] == chars[..i];
    assert CastOf(replaceGraves)(chars[i]) == CharacterCast(chars[i], replaceGraves);
  }

  /**
   * A person is added exactly when some character yields it, and every one
   * is an actor whose role is a non-empty character name.
   */
  lemma ActorPeopleMembership(chars: seq<Character>, replaceGraves: bool, p: PersonInfo)
    ensures p in ActorPeople(chars, replaceGraves) <==> exists i :: 0 <= i < |chars| && ActorOf(chars[i], replaceGraves) == Some(p)
    ensures p in ActorPeople(chars, replaceGraves) ==> p.kind == Actor && !IsNullOrEmpty(p.role)
  {
    FlatMapMembership(chars, CastOf(replaceGraves), p);
    assert forall i :: 0 <= i < |chars| ==>
      (p in CastOf(replaceGraves)(chars[i]) <==> ActorOf(chars[i], replaceGraves) == Some(p));
  }

  // ---------------------------------------------------------------- sections

  /** One top-level element of the document applied to the result. */
  function SectionApplied(r: ResultFields, s: Section, c: PluginConfiguration, lang: string, env: Collaborators)
    : (ResultFields, Option<Exception>)
  {
    match s
    case TitlesSection(ts) => (r.(item := TitlesApplied(r.item, ts, c, lang, false).0), None)
    case CreatorsSection(cr) => CreatorsApplied(r, cr, c.AniDbReplaceGraves, env.roles)
    case DescriptionSection(t) => (r.(item := r.item.(overview := Some(Overview(t, c.AniDbReplaceGraves, env.stripLinks)))), None)
    case ResourcesSection(rs) => (r.(item := r.item.(providerIds := ResourcesApplied(r.item.providerIds, rs))), None)
    case CharactersSection(chars) => (r.(people := r.people + ActorPeople(chars, c.AniDbReplaceGraves)), None)
    case TagsSection(tags) => (r.(item := TagsApplied(r.item, tags)), None)
    case EpisodesSection(_) => (r, None)
    case PictureSection(_) => (r, None)
    case OtherSection => (r, None)
  }

  /** The sections applied in document order, stopping at the first exception. */
  function SectionsApplied(r: ResultFields, sections: seq<Section>, c: PluginConfiguration, lang: string, env: Collaborators)
    : (ResultFields, Option<Exception>)
    decreases |sections|
  {
    if sections == [] then (r, None)
    else
      var (next, err) := SectionApplied(r, sections[0], c, lang, env);
      if err.Some? then (next, err) else SectionsApplied(next, sections[1..], c, lang, env)
  }

  /**
   * `FetchSeriesInfo`: open the document (a missing file throws), apply its
   * sections, raise the reader's `XmlException` when it is malformed, and
   * clean up the genres only when everything before succeeded.
   */
  function SeriesInfo(r: ResultFields, text: Result<string, Exception>, tokenise: string -> Parsed,
                      c: PluginConfiguration, lang: string, env: Collaborators): (ResultFields, Option<Exception>)
  {
    if text.Failure? then (r, Some(text.error))
    else
      var doc := tokenise(text.value);
      var (after, err) := SectionsApplied(r, doc.sections, c, lang, env);
      if err.Some? then (after, err)
      else if doc.malformed then (after, Some(XmlMalformed))
      else (after.(item := after.item.(genres := env.cleanupGenres(after.item.genres))), None)
  }

  /** What every section step keeps: the AniDB id, the presence flag and the people already there. */
  predicate Keeps(r: ResultFields, after: ResultFields) {
    && (AniDbKey in after.item.providerIds <==> AniDbKey in r.item.providerIds)
    && (AniDbKey in r.item.providerIds ==> after.item.providerIds[AniDbKey] == r.item.providerIds[AniDbKey])
    && after.hasMetadata == r.hasMetadata
    && r.people <= after.people
  }

  lemma {:induction false} CreatorsKeep(r: ResultFields, creators: seq<CreatorElement>, replaceGraves: bool,
                                        roles: map<string, PersonKind>)
    ensures Keeps(r, CreatorsApplied(r, creators, replaceGraves, roles).0)
    decreases |creators|
  {
    if creators != [] {
      var c := creators[0];
      CreatorAppliedFailure(r, c, replaceGraves, roles);
      if c.typeLabel.Some? {
        CreatorAppliedLabelled(r, c, replaceGraves, roles);
        var next := CreatorApplied(r, c, replaceGraves, roles).value;
        assert Keeps(r, next);
        CreatorsKeep(next, creators[1..], replaceGraves, roles);
      }
    }
  }

  lemma SectionKeeps(r: ResultFields, s: Section, c: PluginConfiguration, lang: string, env: Collaborators)
    ensures Keeps(r, SectionApplied(r, s, c, lang, env).0)
    ensures var err := SectionApplied(r, s, c, lang, env).1; err.Some? ==> err.value == ArgumentNull
  {
    match s {
      case CreatorsSection(cr) =>
        CreatorsKeep(r, cr, c.AniDbReplaceGraves, env.roles);
        CreatorsFailure(r, cr, c.AniDbReplaceGraves, env.roles);
      case ResourcesSection(rs) => ResourcesKeepAniDbId(r.item.providerIds, rs);
      case _ =>
    }
  }

  lemma {:induction false} SectionsKeep(r: ResultFields, sections: seq<Section>, c: PluginConfiguration, lang: string, env: Collaborators)
    ensures Keeps(r, SectionsApplied(r, sections, c, lang, env).0)
    ensures var err := SectionsApplied(r, sections, c, lang, env).1; err.Some? ==> err.value == ArgumentNull
    decreases |sections|
  {
    if sections != [] {
      var (next, err) := SectionApplied(r, sections[0], c, lang, env);
      SectionKeeps(r, sections[0], c, lang, env);
      if err.None? {
        SectionsKeep(next, sections[1..], c, lang, env);
      }
    }
  }

  /**
   * Whatever the document holds, the parse keeps the AniDB id the provider
   * recorded, leaves the presence flag alone and only appends people; it
   * fails only when the file cannot be read, a creator has no type or the
   * document is malformed.
   */
  lemma SeriesInfoKeeps(r: ResultFields, text: Result<string, Exception>, tokenise: string -> Parsed,
                        c: PluginConfiguration, lang: string, env: Collaborators)
    ensures var (after, err) := SeriesInfo(r, text, tokenise, c, lang, env);
            Keeps(r, after)
            && (err.None? ==> text.Success? && !tokenise(text.value).malformed)
            && (err.Some? ==> (text.Failure? && err.value == text.error) || err.value == ArgumentNull || err.value == XmlMalformed)
  {
    if text.Success? {
      SectionsKeep(r, tokenise(text.value).sections, c, lang, env);
    }
  }

  /** A document read without trouble has its genres cleaned up after every section was applied. */
  lemma SeriesInfoCleansGenres(r: ResultFields, text: string, tokenise: string -> Parsed,
                               c: PluginConfiguration, lang: string, env: Collaborators)
    requires !tokenise(text).malformed && SectionsApplied(r, tokenise(text).sections, c, lang, env).1.None?
    ensures var applied := SectionsApplied(r, tokenise(text).sections, c, lang, env).0;
            SeriesInfo(r, Success(text), tokenise, c, lang, env)
              == (applied.(item := applied.item.(genres := env.cleanupGenres(applied.item.genres))), None)
  {
  }

  // ---------------------------------------------------------------- the parser methods

  /** `ApplyTitlesAsync` on the series item. */
  method ApplyTitles(series: Series, ts: seq<Title>, c: PluginConfiguration, lang: string, useOriginalAsFallback: bool)
    returns (applied: bool)
    modifies series
    ensures (series.Fields(), applied) == TitlesApplied(old(series.Fields()), ts, c, lang, useOriginalAsFallback)
  {
    var resolved := ResolveTitles(ts, c, lang);
    var title, original := resolved.0, resolved.1;
    if IsNullOrEmpty(title) && IsNullOrEmpty(original) {
      return false;
    }
    title := GravesIf(c.AniDbReplaceGraves, title);
    original := GravesIf(c.AniDbReplaceGraves, original);
    if !IsNullOrEmpty(title) {
      series.name := title;
    } else if useOriginalAsFallback && !IsNullOrEmpty(original) {
      series.name := original;
    }
    if !IsNullOrEmpty(original) {
      series.originalTitle := original;
    }
    return true;
  }

  /** The inner loop of `ParseTags`: the names of one kept tag. */
  method ParseTagNames(series: Series, names: seq<string>, weight: int, genres: seq<GenreInfo>)
    returns (r: seq<GenreInfo>)
    modifies series
    ensures r == genres + (if weight >= MinGenreWeight then Weighted(names, weight) else [])
    ensures series.Fields() == old(series.Fields()).(officialRating :=
              if RestrictedTagName in names then Some(AdultRating) else old(series.officialRating))
  {
    r := genres;
    var j := 0;
    while j < |names|
      invariant 0 <= j <= |names|
      invariant r == genres + (if weight >= MinGenreWeight then Weighted(names[..j], weight) else [])
      invariant series.Fields() == old(series.Fields()).(officialRating :=
                  if RestrictedTagName in names[..j] then Some(AdultRating) else old(series.officialRating))
    {
      var name := names[j];
      if name == RestrictedTagName {
        series.officialRating := Some(AdultRating);
      }
      if weight >= MinGenreWeight {
        r := r + [GenreInfo(name, weight)];
        WeightedSnoc(names, j, weight);
      }
      assert names[..j + 1] == names[..j] + [name];
      j := j + 1;
    }
    assert names[..j] == names;
  }

  /** `ParseTags`: collects the genre candidates tag by tag, then stores their names by weight. */
  method ParseTags(series: Series, tags: seq<Tag>)
    modifies series
    ensures series.Fields() == TagsApplied(old(series.Fields()), tags)
  {
    var genres: seq<GenreInfo> := [];
    var i := 0;
    while i < |tags|
      invariant 0 <= i <= |tags|
      invariant genres == Candidates(tags[..i])
      invariant series.Fields() == old(series.Fields()).(officialRating :=
                  if AnyRestricted(tags[..i]) then Some(AdultRating) else old(series.officialRating))
    {
      var t := tags[i];
      var weight := if t.weight.Some? then t.weight.value else 0;
      if !Suppressed(t) {
        genres := ParseTagNames(series, t.names, weight, genres);
      }
      assert tags[..i + 1][..i] == tags[..i];
      i := i + 1;
    }
    assert tags[..i] == tags;
    series.genres := GenreNames(SortByWeight(genres));
  }

  /** `ParseImdbResource`: the first identifier, when non-empty, becomes the IMDb id. */
  method ParseImdbResource(series: Series, nodes: seq<ResourceNode>)
    modifies series
    ensures series.Fields() == old(series.Fields()).(providerIds := Store(old(series.providerIds), ImdbKey, ImdbId(nodes)))
  {
    var i := 0;
    while i < |nodes|
      invariant 0 <= i <= |nodes|
      invariant forall j :: 0 <= j < i ==> !nodes[j].Identifier?
    {
      if nodes[i].Identifier? {
        var imdbId := nodes[i].text;
        ImdbIdFirst(nodes, i);
        if imdbId != [] {
          series.providerIds := series.providerIds[ImdbKey := imdbId];
        }
        return;
      }
      i := i + 1;
    }
    ImdbIdNone(nodes);
  }

  /**
   * The reading loop of `ParseTheMovieDbResource`: the first identifier is
   * the id, the second the media type, and reading stops at the second.
   */
  method ReadTheMovieDbIdentifiers(nodes: seq<ResourceNode>) returns (theMovieDbId: Option<string>, theMovieDbType: Option<string>)
    ensures var ids := Identifiers(nodes);
      theMovieDbId == (if |ids| >= 1 then Some(ids[0]) else None) &&
      theMovieDbType == (if |ids| >= 2 then Some(ids[1]) else None)
  {
    theMovieDbId, theMovieDbType := None, None;
    ghost var seen: seq<string> := [];
    var i := 0;
    while i < |nodes|
      invariant 0 <= i <= |nodes|
      invariant seen == Identifiers(nodes[..i])
      invariant |seen| <= 1 && theMovieDbType.None?
      invariant theMovieDbId == if seen == [] then None else Some(seen[0])
    {
      IdentifiersSnoc(nodes, i);
      if nodes[i].Identifier? {
        seen := seen + [nodes[i].text];
        if theMovieDbId.None? {
          theMovieDbId := Some(nodes[i].text);
        } else {
          theMovieDbType := Some(nodes[i].text);
          i := i + 1;
          break;
        }
      }
      i := i + 1;
    }
    assert nodes == nodes[..i] + nodes[i..];
    IdentifiersAppend(nodes[..i], nodes[i..]);
  }

  /**
   * `ParseTheMovieDbResource`: the id is kept only when it is non-empty and
   * the media type is `tv`, compared without regard to case.
   */
  method ParseTheMovieDbResource(series: Series, nodes: seq<ResourceNode>)
    modifies series
    ensures series.Fields() == old(series.Fields()).(providerIds := Store(old(series.providerIds), TheMovieDbKey, TheMovieDbId(nodes)))
  {
    var theMovieDbId, theMovieDbType := ReadTheMovieDbIdentifiers(nodes);
    if !IsNullOrEmpty(theMovieDbId) && theMovieDbType.Some? && EqualsIgnoreCase(theMovieDbType.value, TvMediaType) {
      series.providerIds := series.providerIds[TheMovieDbKey := theMovieDbId.value];
    }
  }

  /** `ParseResources`: the `resource` elements applied in order. */
  method ParseResources(series: Series, resources: seq<Resource>)
    modifies series
    ensures series.Fields() == old(series.Fields()).(providerIds := ResourcesApplied(old(series.providerIds), resources))
  {
    var i := 0;
    while i < |resources|
      invariant 0 <= i <= |resources|
      invariant series.Fields() == old(series.Fields()).(providerIds := ResourcesApplied(old(series.providerIds), resources[..i]))
    {
      var r := resources[i];
      if r.resourceType == Some(ImdbType) {
        ParseImdbResource(series, r.nodes);
      } else if r.resourceType == Some(TheMovieDbType) {
        ParseTheMovieDbResource(series, r.nodes);
      }
      assert resources[..i + 1][..i] == resources[..i];
      i := i + 1;
    }
    assert resources[..i] == resources;
  }

  /**
   * `ParseActor`: the last `name` and `seiyuu` of a character make one actor
   * when both are non-empty. `CreatePerson` with the `Actor` label resolves to
   * the `Actor` kind (`ActorTypeParses`), so the person is built with that kind.
   */
  method ParseActor(result: MetadataResult, character: Character, replaceGraves: bool)
    modifies result
    ensures result.Fields() == old(result.Fields()).(people := old(result.people) + CharacterCast(character, replaceGraves))
  {
    var cs := character.children;
    var name: Option<string> := None;
    var role: Option<string> := None;
    var i := 0;
    while i < |cs|
      invariant 0 <= i <= |cs|
      invariant role == LastCharacterName(cs[..i]) && name == LastSeiyuuName(cs[..i])
    {
      var child := cs[i];
      if child.CharacterName? {
        role := Some(child.text);
      } else if child.CharacterSeiyuu? {
        name := Some(child.seiyuu.name);
      }
      assert cs[..i + 1][..i] == cs[..i];
      i := i + 1;
    }
    assert cs[..i] == cs;
    if !IsNullOrEmpty(name) && !IsNullOrEmpty(role) {
      result.AddPerson(PersonInfo(ReverseNameOrder(Graves(replaceGraves, name.value)), Actor, role));
    }
  }

  /** `ParseActors`: every `character` element in turn. */
  method ParseActors(result: MetadataResult, chars: seq<Character>, replaceGraves: bool)
    modifies result
    ensures result.Fields() == old(result.Fields()).(people := old(result.people) + ActorPeople(chars, replaceGraves))
  {
    var i := 0;
    while i < |chars|
      invariant 0 <= i <= |chars|
      invariant result.Fields() == old(result.Fields()).(people := old(result.people) + ActorPeople(chars[..i], replaceGraves))
    {
      ParseActor(result, chars[i], replaceGraves);
      ActorPeopleSnoc(chars, i, replaceGraves);
      Associative(old(result.people), ActorPeople(chars[..i], replaceGraves), CharacterCast(chars[i], replaceGraves));
      i := i + 1;
    }
    assert chars[..i] == chars;
  }

  /** `ParseCreators`: studios and people in document order, until a creator without a type throws. */
  method ParseCreators(result: MetadataResult, creators: seq<CreatorElement>, replaceGraves: bool, roles: map<string, PersonKind>)
    returns (err: Option<Exception>)
    modifies result, result.item
    ensures (result.Fields(), err) == CreatorsApplied(old(result.Fields()), creators, replaceGraves, roles)
  {
    var i := 0;
    while i < |creators|
      invariant 0 <= i <= |creators|
      invariant CreatorsApplied(result.Fields(), creators[i..], replaceGraves, roles)
                == CreatorsApplied(old(result.Fields()), creators, replaceGraves, roles)
    {
      var c := creators[i];
      assert creators[i..][0] == c && creators[i..][1..] == creators[i + 1..];
      if c.typeLabel == Some(AnimationWork) {
        result.item.AddStudio(c.name);
      } else {
        var p := CreatePerson(Graves(replaceGraves, c.name), c.typeLabel, None, roles);
        if p.Failure? {
          return Some(p.error);
        }
        result.AddPerson(p.value);
      }
      i := i + 1;
    }
    return None;
  }

  /** The `description` case of `FetchSeriesInfo`. */
  method ParseDescription(series: Series, text: string, replaceGraves: bool, stripLinks: string -> string)
    modifies series
    ensures series.Fields() == old(series.Fields()).(overview := Some(Overview(text, replaceGraves, stripLinks)))
  {
    ghost var before := series.Fields();
    var description := Trim(TrimStartChar(text, '*'));
    if replaceGraves {
      description := ReplaceGraves(description);
    }
    assert description == DescriptionBody(text, replaceGraves);
    var overview := ReplaceNewLine(stripLinks(description));
    assert overview == Overview(text, replaceGraves, stripLinks);
    series.overview := Some(overview);
    assert series.Fields() == before.(overview := Some(overview));
  }

  /** One case of `FetchSeriesInfo`'s switch. */
  method ParseSection(result: MetadataResult, s: Section, c: PluginConfiguration, lang: string, env: Collaborators)
    returns (err: Option<Exception>)
    modifies result, result.item
    ensures (result.Fields(), err) == SectionApplied(old(result.Fields()), s, c, lang, env)
  {
    err := None;
    match s {
      case TitlesSection(ts) =>
        var _ := ApplyTitles(result.item, ts, c, lang, false);
      case CreatorsSection(cr) =>
        err := ParseCreators(result, cr, c.AniDbReplaceGraves, env.roles);
      case DescriptionSection(t) =>
        ParseDescription(result.item, t, c.AniDbReplaceGraves, env.stripLinks);
      case ResourcesSection(rs) =>
        ParseResources(result.item, rs);
      case CharactersSection(chars) =>
        ParseActors(result, chars, c.AniDbReplaceGraves);
      case TagsSection(tags) =>
        ParseTags(result.item, tags);
      case EpisodesSection(_) =>
      case PictureSection(_) =>
      case OtherSection =>
    }
  }

  /** `FetchSeriesInfo` on the document stored at `path`. */
  method FetchSeriesInfo(result: MetadataResult, text: Result<string, Exception>, tokenise: string -> Parsed,
                         c: PluginConfiguration, lang: string, env: Collaborators) returns (err: Option<Exception>)
    modifies result, result.item
    ensures (result.Fields(), err) == SeriesInfo(old(result.Fields()), text, tokenise, c, lang, env)
  {
    if text.Failure? {
      return Some(text.error);
    }
    var doc := tokenise(text.value);
    var i := 0;
    while i < |doc.sections|
      invariant 0 <= i <= |doc.sections|
      invariant SectionsApplied(result.Fields(), doc.sections[i..], c, lang, env)
                == SectionsApplied(old(result.Fields()), doc.sections, c, lang, env)
    {
      assert doc.sections[i..][0] == doc.sections[i] && doc.sections[i..][1..] == doc.sections[i + 1..];
      err := ParseSection(result, doc.sections[i], c, lang, env);
      if err.Some? {
        return;
      }
      i := i + 1;
    }
    if doc.malformed {
      return Some(XmlMalformed);
    }
    result.item.genres := env.cleanupGenres(result.item.genres);
    return None;
  }
}
