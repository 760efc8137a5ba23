/**
 * The `resources` section: links to other catalogs. Type 43 carries an IMDb
 * identifier, type 44 a TheMovieDb identifier with its media type, type 4 an
 * official URL that is read and dropped.
 */
module Resources {
  import opened Wrappers
  import opened Text
  import opened Entities

  /** A node inside a `resource` element: an `identifier` element's text, or anything else. */
  datatype ResourceNode = Identifier(text: string) | OtherNode

  /** A `resource` element: its `type` attribute and its nodes in document order. */
  datatype Resource = Resource(resourceType: Option<string>, nodes: seq<ResourceNode>)

  const OfficialUrlType: string := "4"
  const ImdbType: string := "43"
  const TheMovieDbType: string := "44"
  /** The only TheMovieDb media type a series accepts, compared ignoring case. */
  const TvMediaType: string := "tv"

  /** The identifier texts, in document order. */
  function Identifiers(nodes: seq<ResourceNode>): (r: seq<string>)
    ensures |r| <= |nodes|
    ensures forall s :: s in r <==> Identifier(s) in nodes
  {
    if nodes == [] then []
    else (if nodes[0].Identifier? then [nodes[0].text] else []) + Identifiers(nodes[1..])
  }

  /** The identifiers of two runs of nodes are those of each run, in order. */
  lemma {:induction false} IdentifiersAppend(a: seq<ResourceNode>, b: seq<ResourceNode>)
    ensures Identifiers(a + b) == Identifiers(a) + Identifiers(b)
    decreases |a|
  {
    if a != [] {
      var h := if a[0].Identifier? then [a[0].text] else [];
      assert (a + b)[0] == a[0] && (a + b)[1..] == a[1..] + b;
      assert Identifiers(a + b) == h + Identifiers(a[1..] + b);
      assert Identifiers(a) == h + Identifiers(a[1..]);
      IdentifiersAppend(a[1..], b);
    } else {
      assert a + b == b;
    }
  }

  /** Reading one more node adds its text when it is an identifier. */
  lemma IdentifiersSnoc(nodes: seq<ResourceNode>, i: nat)
    requires i < |nodes|
    ensures Identifiers(nodes[..i + 1]) == Identifiers(nodes[..i]) + (if nodes[i].Identifier? then [nodes[i].text] else [])
  {
    assert nodes[..i + 1] == nodes[..i] + [nodes[i]];
    IdentifiersAppend(nodes[..i], [nodes[i]]);
    assert [nodes[i]][1..] == [];
  }

  /** The IMDb id a type-43 resource stores: its first identifier, when that is not empty. */
  function ImdbId(nodes: seq<ResourceNode>): Option<string> {
    var ids := Identifiers(nodes);
    if |ids| > 0 && ids[0] != "" then Some(ids[0]) else None
  }

  /** The identifiers of a resource are those after the nodes that are not identifiers. */
  lemma {:induction false} IdentifiersSkip(nodes: seq<ResourceNode>, i: nat)
    requires i <= |nodes|
    requires forall j :: 0 <= j < i ==> !nodes[j].Identifier?
    ensures Identifiers(nodes) == Identifiers(nodes[i..])
    decreases i
  {
    if i > 0 {
      IdentifiersSkip(nodes[1..], i - 1);
      assert nodes[1..][i - 1..] == nodes[i..];
    }
  }

  /** The first identifier node decides the IMDb id: it is stored unless empty. */
  lemma ImdbIdFirst(nodes: seq<ResourceNode>, i: nat)
    requires i < |nodes| && nodes[i].Identifier?
    requires forall j :: 0 <= j < i ==> !nodes[j].Identifier?
    ensures ImdbId(nodes) == if nodes[i].text == "" then None else Some(nodes[i].text)
  {
    IdentifiersSkip(nodes, i);
  }

  /** Without an identifier node there is no IMDb id. */
  lemma ImdbIdNone(nodes: seq<ResourceNode>)
    requires forall j :: 0 <= j < |nodes| ==> !nodes[j].Identifier?
    ensures ImdbId(nodes) == None
  {
    IdentifiersSkip(nodes, |nodes|);
  }

  /**
   * The TheMovieDb id a type-44 resource stores: its first identifier, when that
   * is not empty and the second identifier is `tv` in any letter case.
   */
  function TheMovieDbId(nodes: seq<ResourceNode>): Option<string> {
    var ids := Identifiers(nodes);
    if |ids| >= 2 && ids[0] != "" && EqualsIgnoreCase(ids[1], TvMediaType) then Some(ids[0]) else None
  }

  /** Records an optional identifier under a key. */
  function Store(ids: map<ProviderKey, string>, k: ProviderKey, v: Option<string>): (r: map<ProviderKey, string>)
    ensures forall j :: j != k ==> (j in r <==> j in ids) && (j in ids ==> r[j] == ids[j])
    ensures v.Some? ==> k in r && r[k] == v.value
    ensures v.None? ==> r == ids
  {
    if v.Some? then ids[k := v.value] else ids
  }

  /** The effect of one resource on the provider ids, dispatched on its type. */
  function ResourceApplied(ids: map<ProviderKey, string>, r: Resource): map<ProviderKey, string> {
    if r.resourceType == Some(ImdbType) then Store(ids, ImdbKey, ImdbId(r.nodes))
    else if r.resourceType == Some(TheMovieDbType) then Store(ids, TheMovieDbKey, TheMovieDbId(r.nodes))
    else ids
  }

  /** The effect of the section: each resource in document order, later ones overwriting. */
  function ResourcesApplied(ids: map<ProviderKey, string>, rs: seq<Resource>): map<ProviderKey, string> {
    if rs == [] then ids else ResourceApplied(ResourcesApplied(ids, rs[..|rs| - 1]), rs[|rs| - 1])
  }

  /** The catalog id, if any, a resource contributes under `k`. */
  function Contribution(r: Resource, k: ProviderKey): Option<string> {
    if k == ImdbKey && r.resourceType == Some(ImdbType) then ImdbId(r.nodes)
    else if k == TheMovieDbKey && r.resourceType == Some(TheMovieDbType) then TheMovieDbId(r.nodes)
    else None
  }

  /** One resource stores its contribution under `k`, when it has one, and leaves `k` alone otherwise. */
  lemma ResourceAppliedAt(ids: map<ProviderKey, string>, r: Resource, k: ProviderKey)
    ensures var after := ResourceApplied(ids, r);
            if Contribution(r, k).Some? then k in after && after[k] == Contribution(r, k).value
            else (k in after <==> k in ids) && (k in ids ==> after[k] == ids[k])
  {
  }

  /** A key no resource contributes to keeps its old value, or stays absent. */
  lemma {:induction false} ResourcesUntouched(ids: map<ProviderKey, string>, rs: seq<Resource>, k: ProviderKey)
    requires forall i :: 0 <= i < |rs| ==> Contribution(rs[i], k).None?
    ensures var after := ResourcesApplied(ids, rs);
            (k in after <==> k in ids) && (k in ids ==> after[k] == ids[k])
    decreases |rs|
  {
    if rs != [] {
      var init, last := rs[..|rs| - 1], rs[|rs| - 1];
      assert forall i :: 0 <= i < |init| ==> init[i] == rs[i];
      ResourcesUntouched(ids, init, k);
      ResourceAppliedAt(ResourcesApplied(ids, init), last, k);
    }
  }

  /** A key holds the contribution of the last resource that contributes to it. */
  lemma {:induction false} ResourcesLastContribution(ids: map<ProviderKey, string>, rs: seq<Resource>, k: ProviderKey, i: int)
    requires 0 <= i < |rs| && Contribution(rs[i], k).Some?
    requires forall j :: i < j < |rs| ==> Contribution(rs[j], k).None?
    ensures var after := ResourcesApplied(ids, rs);
            k in after && after[k] == Contribution(rs[i], k).value
    decreases |rs|
  {
    var init, last := rs[..|rs| - 1], rs[|rs| - 1];
    ResourceAppliedAt(ResourcesApplied(ids, init), last, k);
    if i < |init| {
      assert init[i] == rs[i];
      assert forall j :: i < j < |init| ==> init[j] == rs[j];
      ResourcesLastContribution(ids, init, k, i);
    }
  }

  /**
   * Each key ends up holding the contribution of the last resource that
   * contributes to it, or its old value when none does; in particular the
   * AniDB id and anything else not contributed to are left alone.
   */
  lemma ResourcesLastWins(ids: map<ProviderKey, string>, rs: seq<Resource>, k: ProviderKey)
    ensures var after := ResourcesApplied(ids, rs);
            (forall i :: 0 <= i < |rs| ==> Contribution(rs[i], k).None?) ==>
              (k in after <==> k in ids) && (k in ids ==> after[k] == ids[k])
    ensures var after := ResourcesApplied(ids, rs);
            forall i :: 0 <= i < |rs| && Contribution(rs[i], k).Some?
                        && (forall j :: i < j < |rs| ==> Contribution(rs[j], k).None?) ==>
              k in after && after[k] == Contribution(rs[i], k).value
  {
    if forall i :: 0 <= i < |rs| ==> Contribution(rs[i], k).None? {
      ResourcesUntouched(ids, rs, k);
    }
    forall i | 0 <= i < |rs| && Contribution(rs[i], k).Some? && (forall j :: i < j < |rs| ==> Contribution(rs[j], k).None?)
      ensures var after := ResourcesApplied(ids, rs); k in after && after[k] == Contribution(rs[i], k).value
    {
      ResourcesLastContribution(ids, rs, k, i);
    }
  }

  /** The AniDB id is never touched by the section. */
  lemma ResourcesKeepAniDbId(ids: map<ProviderKey, string>, rs: seq<Resource>)
    ensures var after := ResourcesApplied(ids, rs);
            (AniDbKey in after <==> AniDbKey in ids) && (AniDbKey in ids ==> after[AniDbKey] == ids[AniDbKey])
  {
    ResourcesUntouched(ids, rs, AniDbKey);
  }

  /** The media type is compared without regard to letter case. */
  lemma TheMovieDbUpperCaseTv()
    ensures TheMovieDbId([Identifier("1234"), OtherNode, Identifier("TV")]) == Some("1234")
  {
    assert Identifiers([Identifier("1234"), OtherNode, Identifier("TV")]) == ["1234", "TV"];
    assert ToLower("TV") == "tv";
  }

  /** A movie entry is refused. */
  lemma TheMovieDbMovieRefused()
    ensures TheMovieDbId([Identifier("1234"), Identifier("movie")]) == None
  {
    assert Identifiers([Identifier("1234"), Identifier("movie")]) == ["1234", "movie"];
    assert ToLower("movie")[0] == 'm';
  }

  /** With a single identifier there is no media type, and nothing is stored. */
  lemma TheMovieDbNeedsMediaType(id: string)
    ensures TheMovieDbId([Identifier(id)]) == None
  {
    assert Identifiers([Identifier(id)]) == [id];
  }
}
