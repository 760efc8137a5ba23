/**
 * The tag filter of `ParseTags`: suppressed tag ids, the weight threshold, the
 * adult-content rating, and the stable ascending-weight order of the genres.
 */
module Tags {
  import opened Wrappers
  import opened Sequences
  import opened Entities

  /**
   * A `tag` element: its `id`, `parentid` and `weight` attributes as
   * `int.TryParse` reads them (absent when missing or not a number), and the
   * texts of its `name` children.
   */
  datatype Tag = Tag(id: Option<int>, parentId: Option<int>, weight: Option<int>, names: seq<string>)

  /** Tag ids whose tags, and whose children's tags, never become genres. */
  const IgnoredTagIds: seq<int> := [6, 22, 23, 30, 60, 128, 129, 185, 216, 242, 255, 268, 269, 289,
                                    1760, 2391, 2604, 2624, 2625, 2628, 2630, 2790, 2791]

  /** The smallest weight a genre may have. */
  const MinGenreWeight: int := 400

  /** The tag name that marks adult content, and the rating it sets. */
  const RestrictedTagName: string := "18 restricted"
  const AdultRating: string := "XXX"

  /** A genre candidate: a tag name with its tag's weight. */
  datatype GenreInfo = GenreInfo(name: string, weight: int)

  /** A tag skipped because its own id or its parent's id is ignored. */
  predicate Suppressed(t: Tag) {
    (t.id.Some? && t.id.value in IgnoredTagIds) || (t.parentId.Some? && t.parentId.value in IgnoredTagIds)
  }

  /** A missing or unparseable weight counts as 0. */
  function EffectiveWeight(t: Tag): int {
    t.weight.GetOr(0)
  }

  /** One candidate per name, all of weight `w`. */
  function Weighted(names: seq<string>, w: int): (r: seq<GenreInfo>)
    ensures forall g :: g in r <==> g.weight == w && g.name in names
  {
    if names == [] then []
    else
      var init := names[..|names| - 1];
      assert names == init + [names[|names| - 1]];
      Weighted(init, w) + [GenreInfo(names[|names| - 1], w)]
  }

  /** One more name adds one candidate at the end. */
  lemma WeightedSnoc(names: seq<string>, j: nat, w: int)
    requires j < |names|
    ensures Weighted(names[..j + 1], w) == Weighted(names[..j], w) + [GenreInfo(names[j], w)]
  {
    assert names[..j + 1][..j] == names[..j];
  }

  /** The genre candidates one tag contributes: one per name, when kept and heavy enough. */
  function TagGenres(t: Tag): (r: seq<GenreInfo>)
    ensures forall g :: g in r <==> !Suppressed(t) && EffectiveWeight(t) >= MinGenreWeight
                                    && g.weight == EffectiveWeight(t) && g.name in t.names
  {
    if Suppressed(t) || EffectiveWeight(t) < MinGenreWeight then [] else Weighted(t.names, EffectiveWeight(t))
  }

  /** The candidates of a tag list, in document order. */
  function Candidates(tags: seq<Tag>): seq<GenreInfo> {
    FlatMap(tags, TagGenres)
  }

  /** A candidate comes from exactly some tag of the list that contributes it. */
  lemma CandidatesMembership(tags: seq<Tag>, g: GenreInfo)
    ensures g in Candidates(tags) <==> exists i :: 0 <= i < |tags| && g in TagGenres(tags[i])
  {
    FlatMapMembership(tags, TagGenres, g);
  }

  /** True when a kept tag carries the adult-content name, whatever its weight. */
  predicate MarksRestricted(t: Tag) {
    !Suppressed(t) && RestrictedTagName in t.names
  }

  function AnyRestricted(tags: seq<Tag>): (r: bool)
    ensures r <==> exists i :: 0 <= i < |tags| && MarksRestricted(tags[i])
  {
    if tags == [] then false
    else
      var init := tags[..|tags| - 1];
      assert forall i :: 0 <= i < |init| ==> init[i] == tags[i];
      AnyRestricted(init) || MarksRestricted(tags[|tags| - 1])
  }

  /** Ascending weight order. */
  predicate SortedByWeight(s: seq<GenreInfo>) {
    forall i, j :: 0 <= i < j < |s| ==> s[i].weight <= s[j].weight
  }

  /** The candidates of one weight, in order. */
  function WithWeight(s: seq<GenreInfo>, w: int): seq<GenreInfo> {
    if s == [] then [] else (if s[0].weight == w then [s[0]] else []) + WithWeight(s[1..], w)
  }

  /** Places `g` after every element of weight at most its own. */
  function Insert(g: GenreInfo, s: seq<GenreInfo>): (r: seq<GenreInfo>)
    ensures |r| == |s| + 1
    ensures r[0] == if s == [] || g.weight < s[0].weight then g else s[0]
  {
    if s == [] then [g]
    else if g.weight < s[0].weight then [g] + s
    else [s[0]] + Insert(g, s[1..])
  }

  /** `OrderBy(g => g.Weight)`: LINQ's stable sort, as insertion of each element in turn. */
  function SortByWeight(s: seq<GenreInfo>): seq<GenreInfo> {
    if s == [] then [] else Insert(s[|s| - 1], SortByWeight(s[..|s| - 1]))
  }

  lemma {:induction false} InsertElements(g: GenreInfo, s: seq<GenreInfo>)
    ensures multiset(Insert(g, s)) == multiset(s) + multiset{g}
    decreases |s|
  {
    if s != [] && g.weight >= s[0].weight {
      InsertElements(g, s[1..]);
      assert s == [s[0]] + s[1..];
    }
  }

  lemma {:induction false} InsertSorted(g: GenreInfo, s: seq<GenreInfo>)
    requires SortedByWeight(s)
    ensures SortedByWeight(Insert(g, s))
    decreases |s|
  {
    if s != [] && g.weight >= s[0].weight {
      var r := Insert(g, s[1..]);
      InsertSorted(g, s[1..]);
      assert s[0].weight <= r[0].weight by {
        if s[1..] != [] {
          assert s[1..][0] == s[1];
        }
      }
      var res := [s[0]] + r;
      assert Insert(g, s) == res;
      forall i, j | 0 <= i < j < |res| ensures res[i].weight <= res[j].weight {
        if i == 0 {
          assert res[j] == r[j - 1];
          assert r[0].weight <= r[j - 1].weight;
        } else {
          assert res[i] == r[i - 1] && res[j] == r[j - 1];
        }
      }
    }
  }

  /** The sort puts the candidates in ascending weight order. */
  lemma {:induction false} SortByWeightSorted(s: seq<GenreInfo>)
    ensures SortedByWeight(SortByWeight(s))
    decreases |s|
  {
    if s != [] {
      var init := s[..|s| - 1];
      SortByWeightSorted(init);
      InsertSorted(s[|s| - 1], SortByWeight(init));
    }
  }

  /** The sort keeps every candidate, as often as it occurs. */
  lemma {:induction false} SortByWeightPermutes(s: seq<GenreInfo>)
    ensures multiset(SortByWeight(s)) == multiset(s)
    decreases |s|
  {
    if s != [] {
      var init := s[..|s| - 1];
      SortByWeightPermutes(init);
      InsertElements(s[|s| - 1], SortByWeight(init));
      assert s == init + [s[|s| - 1]];
    }
  }

  lemma {:induction false} WithWeightNone(s: seq<GenreInfo>, w: int)
    requires forall k :: 0 <= k < |s| ==> s[k].weight > w
    ensures WithWeight(s, w) == []
    decreases |s|
  {
    if s != [] {
      WithWeightNone(s[1..], w);
    }
  }

  lemma {:induction false} WithWeightSnoc(s: seq<GenreInfo>, g: GenreInfo, w: int)
    ensures WithWeight(s + [g], w) == WithWeight(s, w) + (if g.weight == w then [g] else [])
    decreases |s|
  {
    if s != [] {
      assert (s + [g])[1..] == s[1..] + [g];
      WithWeightSnoc(s[1..], g, w);
    }
  }

  lemma WithWeightCons(x: GenreInfo, t: seq<GenreInfo>, w: int)
    ensures WithWeight([x] + t, w) == (if x.weight == w then [x] else []) + WithWeight(t, w)
  {
    assert ([x] + t)[0] == x && ([x] + t)[1..] == t;
  }

  lemma {:induction false} InsertStable(g: GenreInfo, s: seq<GenreInfo>, w: int)
    requires SortedByWeight(s)
    ensures WithWeight(Insert(g, s), w) == WithWeight(s, w) + (if g.weight == w then [g] else [])
    decreases |s|
  {
    var mine: seq<GenreInfo> := if g.weight == w then [g] else [];
    if s == [] {
      WithWeightCons(g, [], w);
      assert [g] + [] == [g];
    } else if g.weight < s[0].weight {
      assert Insert(g, s) == [g] + s;
      WithWeightCons(g, s, w);
      if g.weight == w {
        WithWeightNone(s, w);
      }
    } else {
      var rest := Insert(g, s[1..]);
      assert Insert(g, s) == [s[0]] + rest;
      InsertStable(g, s[1..], w);
      WithWeightCons(s[0], rest, w);
      WithWeightCons(s[0], s[1..], w);
      assert [s[0]] + s[1..] == s;
      Associative(if s[0].weight == w then [s[0]] else [], WithWeight(s[1..], w), mine);
    }
  }

  /** The sort is stable: the candidates of each weight keep their document order. */
  lemma {:induction false} SortByWeightStable(s: seq<GenreInfo>, w: int)
    ensures WithWeight(SortByWeight(s), w) == WithWeight(s, w)
    decreases |s|
  {
    if s != [] {
      var init, last := s[..|s| - 1], s[|s| - 1];
      var sorted := SortByWeight(init);
      assert SortByWeight(s) == Insert(last, sorted);
      SortByWeightStable(init, w);
      SortByWeightSorted(init);
      InsertStable(last, sorted, w);
      assert s == init + [last];
      WithWeightSnoc(init, last, w);
      assert WithWeight(SortByWeight(s), w) == WithWeight(sorted, w) + (if last.weight == w then [last] else []);
    }
  }

  /** The names of the sorted candidates. */
  function GenreNames(s: seq<GenreInfo>): (r: seq<string>)
    ensures |r| == |s| && forall i :: 0 <= i < |s| ==> r[i] == s[i].name
  {
    seq(|s|, i requires 0 <= i < |s| => s[i].name)
  }

  /** The genres `ParseTags` stores: the candidates' names in stable ascending weight order. */
  function GenreList(tags: seq<Tag>): seq<string> {
    GenreNames(SortByWeight(Candidates(tags)))
  }

  /** `ParseTags`: the genre list and, when a kept tag is the adult-content tag, the rating `XXX`. */
  function TagsApplied(item: SeriesFields, tags: seq<Tag>): SeriesFields {
    item.(genres := GenreList(tags),
          officialRating := if AnyRestricted(tags) then Some(AdultRating) else item.officialRating)
  }

  /** A tag that is kept, heavy enough (0 when the weight is missing) and carries the name `n`. */
  predicate Contributes(t: Tag, n: string) {
    !Suppressed(t) && EffectiveWeight(t) >= MinGenreWeight && n in t.names
  }

  /** Every stored genre is the name of a contributing tag. */
  lemma GenreFromTag(tags: seq<Tag>, n: string)
    requires n in GenreList(tags)
    ensures exists i :: 0 <= i < |tags| && Contributes(tags[i], n)
  {
    var c := Candidates(tags);
    var s := SortByWeight(c);
    SortByWeightPermutes(c);
    var k :| 0 <= k < |s| && s[k].name == n;
    assert s[k] in multiset(c);
    CandidatesMembership(tags, s[k]);
    var i :| 0 <= i < |tags| && s[k] in TagGenres(tags[i]);
    assert Contributes(tags[i], n);
  }

  /** The name of every contributing tag is stored. */
  lemma GenreOfTag(tags: seq<Tag>, n: string, i: int)
    requires 0 <= i < |tags| && Contributes(tags[i], n)
    ensures n in GenreList(tags)
  {
    var c := Candidates(tags);
    var s := SortByWeight(c);
    var g := GenreInfo(n, EffectiveWeight(tags[i]));
    assert g in TagGenres(tags[i]);
    CandidatesMembership(tags, g);
    SortByWeightPermutes(c);
    assert g in multiset(s);
    var k :| 0 <= k < |s| && s[k] == g;
    assert GenreList(tags)[k] == n;
  }

  /**
   * A name is a genre exactly when some tag carries it that is not suppressed
   * (by its own id or its parent's) and whose weight, 0 when missing, is at least 400.
   */
  lemma GenreListMembership(tags: seq<Tag>, n: string)
    ensures n in GenreList(tags) <==> exists i :: 0 <= i < |tags| && Contributes(tags[i], n)
  {
    if n in GenreList(tags) {
      GenreFromTag(tags, n);
    }
    if exists i :: 0 <= i < |tags| && Contributes(tags[i], n) {
      var i :| 0 <= i < |tags| && Contributes(tags[i], n);
      GenreOfTag(tags, n, i);
    }
  }

  /** The stored genres come with ascending weights, ties in document order, and none is lost. */
  lemma GenreListOrder(tags: seq<Tag>, w: int)
    ensures SortedByWeight(SortByWeight(Candidates(tags)))
    ensures multiset(SortByWeight(Candidates(tags))) == multiset(Candidates(tags))
    ensures WithWeight(SortByWeight(Candidates(tags)), w) == WithWeight(Candidates(tags), w)
  {
    SortByWeightSorted(Candidates(tags));
    SortByWeightPermutes(Candidates(tags));
    SortByWeightStable(Candidates(tags), w);
  }

  /** The rating becomes `XXX` exactly when a kept tag is named `18 restricted`, and is left alone otherwise. */
  lemma TagsRating(item: SeriesFields, tags: seq<Tag>)
    ensures var after := TagsApplied(item, tags);
            (after.officialRating == Some(AdultRating) <==>
               (exists i :: 0 <= i < |tags| && MarksRestricted(tags[i])) || item.officialRating == Some(AdultRating))
            && (!(exists i :: 0 <= i < |tags| && MarksRestricted(tags[i])) ==> after.officialRating == item.officialRating)
            && after == item.(genres := after.genres, officialRating := after.officialRating)
  {
  }
}
