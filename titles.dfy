/**
 * The title resolver: `TitleExtensions.Localize`, the pair of titles
 * `ParseTitle` resolves, and the effect of `ApplyTitlesAsync` on a series.
 */
module Titles {
  import opened Wrappers
  import opened Text
  import opened Configuration
  import opened Exceptions
  import opened Entities

  /** A `title` element: its `xml:lang` and `type` attributes and its text. */
  datatype Title = Title(language: Option<string>, kind: Option<string>, name: string)

  const MainType: string := "main"
  const OfficialType: string := "official"
  const SynonymType: string := "synonym"
  const JapaneseLanguage: string := "ja"
  const RomajiLanguage: string := "x-jat"

  predicate IsOf(t: Title, language: string, kind: string) {
    t.language == Some(language) && t.kind == Some(kind)
  }

  /** `FirstOrDefault(t => t.Language == language && t.Type == kind)`, as an index. */
  function FirstOf(ts: seq<Title>, language: string, kind: string): (r: Option<nat>)
    ensures r.Some? ==> r.value < |ts| && IsOf(ts[r.value], language, kind)
                        && forall j :: 0 <= j < r.value ==> !IsOf(ts[j], language, kind)
    ensures r.None? ==> forall j :: 0 <= j < |ts| ==> !IsOf(ts[j], language, kind)
  {
    if ts == [] then None
    else if IsOf(ts[0], language, kind) then Some(0)
    else match FirstOf(ts[1..], language, kind)
      case Some(i) => Some(i + 1)
      case None => None
  }

  /** `FirstOrDefault(t => t.Type == "main")`, as an index. */
  function FirstMain(ts: seq<Title>): (r: Option<nat>)
    ensures r.Some? ==> r.value < |ts| && ts[r.value].kind == Some(MainType)
                        && forall j :: 0 <= j < r.value ==> ts[j].kind != Some(MainType)
    ensures r.None? ==> forall j :: 0 <= j < |ts| ==> ts[j].kind != Some(MainType)
  {
    if ts == [] then None
    else if ts[0].kind == Some(MainType) then Some(0)
    else match FirstMain(ts[1..])
      case Some(i) => Some(i + 1)
      case None => None
  }

  /** The `??` operator on indices. */
  function OrElse(a: Option<nat>, b: Option<nat>): Option<nat> {
    if a.Some? then a else b
  }

  /** The language whose main, official and synonym titles a preference searches first. */
  function PreferredLanguage(p: TitlePreferenceType, metadataLanguage: string): Option<string> {
    match p
    case Localized => Some(metadataLanguage)
    case Japanese => Some(JapaneseLanguage)
    case JapaneseRomaji => None
  }

  /** The main, then official, then synonym title of one language. */
  function LanguageTiers(ts: seq<Title>, language: string): Option<nat> {
    OrElse(FirstOf(ts, language, MainType), OrElse(FirstOf(ts, language, OfficialType), FirstOf(ts, language, SynonymType)))
  }

  /** The romaji main title, else any main title, else the first title. */
  function DefaultTiers(ts: seq<Title>): Option<nat> {
    OrElse(FirstOf(ts, RomajiLanguage, MainType), OrElse(FirstMain(ts), if ts == [] then None else Some(0)))
  }

  /** The index of the title `Localize` picks. */
  function LocalizeIndex(ts: seq<Title>, p: TitlePreferenceType, metadataLanguage: string): (r: Option<nat>)
    ensures r.None? <==> ts == []
    ensures r.Some? ==> r.value < |ts|
  {
    var preferred := PreferredLanguage(p, metadataLanguage);
    var tiered := if preferred.Some? then LanguageTiers(ts, preferred.value) else None;
    if tiered.Some? then tiered else DefaultTiers(ts)
  }

  /** `Localize`: the title chosen under a preference, absent only for an empty list. */
  function Localize(ts: seq<Title>, p: TitlePreferenceType, metadataLanguage: string): (r: Option<Title>)
    ensures r.None? <==> ts == []
    ensures r.Some? ==> r.value in ts
  {
    match LocalizeIndex(ts, p, metadataLanguage)
    case Some(i) => Some(ts[i])
    case None => None
  }

  /**
   * An independent ranking of candidates under a preference: 0-2 for the
   * preferred language's main, official and synonym titles, 3 for the romaji
   * main title, 4 for any other main title, 5 for everything else.
   */
  function Rank(t: Title, p: TitlePreferenceType, metadataLanguage: string): nat {
    var preferred := PreferredLanguage(p, metadataLanguage);
    if preferred.Some? && IsOf(t, preferred.value, MainType) then 0
    else if preferred.Some? && IsOf(t, preferred.value, OfficialType) then 1
    else if preferred.Some? && IsOf(t, preferred.value, SynonymType) then 2
    else if IsOf(t, RomajiLanguage, MainType) then 3
    else if t.kind == Some(MainType) then 4
    else 5
  }

  /** `Localize` picks the first candidate of the best rank. */
  lemma LocalizePicksFirstBest(ts: seq<Title>, p: TitlePreferenceType, lang: string)
    requires ts != []
    ensures var i := LocalizeIndex(ts, p, lang).value;
            (forall j :: 0 <= j < |ts| ==> Rank(ts[i], p, lang) <= Rank(ts[j], p, lang))
            && (forall j :: 0 <= j < i ==> Rank(ts[i], p, lang) < Rank(ts[j], p, lang))
  {
    var preferred := PreferredLanguage(p, lang);
    if preferred.Some? {
      var l := preferred.value;
      var m, o, s := FirstOf(ts, l, MainType), FirstOf(ts, l, OfficialType), FirstOf(ts, l, SynonymType);
      if m.Some? {
        assert Rank(ts[m.value], p, lang) == 0;
      } else if o.Some? {
        assert Rank(ts[o.value], p, lang) == 1;
      } else if s.Some? {
        assert Rank(ts[s.value], p, lang) == 2;
      } else {
        DefaultTiersBest(ts, p, lang);
      }
    } else {
      DefaultTiersBest(ts, p, lang);
    }
  }

  /** When no preferred-language title exists, the default tiers pick the first candidate of the best rank. */
  lemma DefaultTiersBest(ts: seq<Title>, p: TitlePreferenceType, lang: string)
    requires ts != []
    requires forall j :: 0 <= j < |ts| ==> Rank(ts[j], p, lang) >= 3
    ensures var i := DefaultTiers(ts).value;
            (forall j :: 0 <= j < |ts| ==> Rank(ts[i], p, lang) <= Rank(ts[j], p, lang))
            && (forall j :: 0 <= j < i ==> Rank(ts[i], p, lang) < Rank(ts[j], p, lang))
  {
    var x, m := FirstOf(ts, RomajiLanguage, MainType), FirstMain(ts);
    if x.Some? {
      assert Rank(ts[x.value], p, lang) == 3;
    } else if m.Some? {
      assert Rank(ts[m.value], p, lang) == 4;
    } else {
      assert forall j :: 0 <= j < |ts| ==> Rank(ts[j], p, lang) == 5;
    }
  }

  /** When no preferred-language title exists, the default tiers apply; they always exist when `Localize` finds nothing preferred. */
  lemma LocalizedPreferenceFallsBack(ts: seq<Title>, lang: string)
    requires forall j :: 0 <= j < |ts| ==> ts[j].language != Some(lang)
    ensures LocalizeIndex(ts, Localized, lang) == DefaultTiers(ts)
  {
  }

  /** The worked example of a three-title anime under each preference. */
  lemma ResolutionExample()
    ensures var ts := [Title(Some("en"), Some(MainType), "Foo"), Title(Some(JapaneseLanguage), Some(MainType), "フー"),
                       Title(Some(RomajiLanguage), Some(MainType), "Fuu")];
            Localize(ts, Localized, "en") == Some(ts[0])
            && Localize(ts, JapaneseRomaji, "en") == Some(ts[2])
            && Localize(ts, Japanese, "en") == Some(ts[1])
  {
  }

  /** The name of a chosen title. */
  function NameOf(t: Option<Title>): Option<string> {
    match t
    case Some(x) => Some(x.name)
    case None => None
  }

  /**
   * `ParseTitle` as written: it reads `.Name` off `Localize`'s result, so an
   * empty title list raises a null-reference exception.
   */
  function ParseTitleAsWritten(ts: seq<Title>, c: PluginConfiguration, lang: string): (r: Result<(string, string), Exception>)
    ensures r.Failure? <==> ts == []
  {
    var t, o := Localize(ts, c.TitlePreference, lang), Localize(ts, c.OriginalTitlePreference, lang);
    if t.None? || o.None? then Failure(NullReference) else Success((t.value.name, o.value.name))
  }

  /** An empty title list makes the as-written `ParseTitle` throw. */
  lemma ParseTitleThrowsOnEmpty(c: PluginConfiguration, lang: string)
    ensures ParseTitleAsWritten([], c, lang) == Failure(NullReference)
  {
  }

  /** `ParseTitle` with the null result carried through: the display and original titles. */
  function ResolveTitles(ts: seq<Title>, c: PluginConfiguration, lang: string): (r: (Option<string>, Option<string>))
    ensures r.0.None? <==> ts == []
    ensures r.1.None? <==> ts == []
    ensures ParseTitleAsWritten(ts, c, lang).Success? ==> ParseTitleAsWritten(ts, c, lang).value == (r.0.value, r.1.value)
  {
    (NameOf(Localize(ts, c.TitlePreference, lang)), NameOf(Localize(ts, c.OriginalTitlePreference, lang)))
  }

  /** The grave-accent normalisation on a possibly absent title. */
  function GravesIf(replace: bool, s: Option<string>): (r: Option<string>)
    ensures IsNullOrEmpty(r) <==> IsNullOrEmpty(s)
  {
    if replace && s.Some? then Some(ReplaceGraves(s.value)) else s
  }

  /**
   * `ApplyTitlesAsync`: with both resolved titles empty it reports false and
   * leaves the item alone; otherwise it sets the name from the title (or from
   * the original title when the fallback flag allows) and the original title
   * when it is non-empty, and reports true.
   */
  function TitlesApplied(item: SeriesFields, ts: seq<Title>, c: PluginConfiguration, lang: string, useOriginalAsFallback: bool): (SeriesFields, bool)
  {
    var (title, original) := ResolveTitles(ts, c, lang);
    if IsNullOrEmpty(title) && IsNullOrEmpty(original) then (item, false)
    else
      var t := GravesIf(c.AniDbReplaceGraves, title);
      var o := GravesIf(c.AniDbReplaceGraves, original);
      var name := if !IsNullOrEmpty(t) then t
                  else if useOriginalAsFallback && !IsNullOrEmpty(o) then o
                  else item.name;
      var originalTitle := if !IsNullOrEmpty(o) then o else item.originalTitle;
      (item.(name := name, originalTitle := originalTitle), true)
  }

  /** Nothing is applied exactly when both titles are empty, and then nothing changes. */
  lemma TitlesAppliedFalseIff(item: SeriesFields, ts: seq<Title>, c: PluginConfiguration, lang: string, fb: bool)
    ensures var (title, original) := ResolveTitles(ts, c, lang);
            var (after, applied) := TitlesApplied(item, ts, c, lang, fb);
            (!applied <==> IsNullOrEmpty(title) && IsNullOrEmpty(original))
            && (!applied ==> after == item)
            && (ts == [] ==> !applied)
  {
  }

  /** Which titles end up on the item, and that nothing but the two titles changes. */
  lemma TitlesAppliedFields(item: SeriesFields, ts: seq<Title>, c: PluginConfiguration, lang: string, fb: bool)
    ensures var (title, original) := ResolveTitles(ts, c, lang);
            var (after, applied) := TitlesApplied(item, ts, c, lang, fb);
            (!IsNullOrEmpty(title) ==> after.name == GravesIf(c.AniDbReplaceGraves, title))
            && (IsNullOrEmpty(title) && !fb ==> after.name == item.name)
            && (IsNullOrEmpty(title) && fb && !IsNullOrEmpty(original) ==> after.name == GravesIf(c.AniDbReplaceGraves, original))
            && (after.originalTitle != item.originalTitle ==> !IsNullOrEmpty(original))
            && (!IsNullOrEmpty(original) ==> after.originalTitle == GravesIf(c.AniDbReplaceGraves, original))
            && after == item.(name := after.name, originalTitle := after.originalTitle)
  {
  }

  /** With at least one candidate and no empty names, some title is always applied and the name is never left empty. */
  lemma TitlesAppliedWhenNamed(item: SeriesFields, ts: seq<Title>, c: PluginConfiguration, lang: string)
    requires ts != []
    requires forall i :: 0 <= i < |ts| ==> ts[i].name != []
    ensures TitlesApplied(item, ts, c, lang, true).1
    ensures !IsNullOrEmpty(TitlesApplied(item, ts, c, lang, true).0.name)
  {
    var t := Localize(ts, c.TitlePreference, lang);
    assert t.value in ts;
  }
}
