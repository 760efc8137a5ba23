/**
 * Episode artifacts: each `episode` element of a downloaded series document is
 * saved as its own file, named after its first non-blank episode number.
 */
module Episodes {
  import opened Wrappers
  import opened Text

  /** A direct child element of an `episode` element: an `epno` with its text, or another element. */
  datatype EpisodeNode = EpNo(text: string) | OtherElement

  /** An `episode` element: its markup as `ReadOuterXml` returns it, and its child elements. */
  datatype Episode = Episode(outerXml: string, children: seq<EpisodeNode>)

  /** A child that names the episode: an `epno` whose text is not blank. */
  predicate Names(n: EpisodeNode) {
    n.EpNo? && !IsBlank(n.text)
  }

  /** The text of the first child that names the episode. */
  function FirstEpisodeNumber(children: seq<EpisodeNode>): (r: Option<string>)
    ensures r.Some? ==> exists i :: 0 <= i < |children| && children[i] == EpNo(r.value) && !IsBlank(r.value)
                                    && forall j :: 0 <= j < i ==> !Names(children[j])
    ensures r.None? <==> forall i :: 0 <= i < |children| ==> !Names(children[i])
  {
    if children == [] then None
    else if Names(children[0]) then Some(children[0].text)
    else
      var r := FirstEpisodeNumber(children[1..]);
      assert forall i :: 1 <= i < |children| ==> children[i] == children[1..][i - 1];
      r
  }

  /** `ParseEpisodeNumber`: scans the children and returns at the first non-blank `epno`. */
  method ParseEpisodeNumber(children: seq<EpisodeNode>) returns (r: Option<string>)
    ensures r == FirstEpisodeNumber(children)
  {
    var i := 0;
    while i < |children|
      invariant 0 <= i <= |children|
      invariant FirstEpisodeNumber(children[i..]) == FirstEpisodeNumber(children)
    {
      if children[i].EpNo? {
        var val := children[i].text;
        if !IsBlank(val) {
          return Some(val);
        }
      }
      assert children[i..][1..] == children[i + 1..];
      i := i + 1;
    }
    return None;
  }

  const EpisodeFilePrefix: string := "episode-"
  const XmlExtension: string := ".xml"

  /** `string.Format("episode-{0}.xml", n)`. */
  function EpisodeFileName(n: string): string {
    EpisodeFilePrefix + n + XmlExtension
  }

  /** Different episode numbers give different file names. */
  lemma EpisodeFileNameInjective(a: string, b: string)
    requires EpisodeFileName(a) == EpisodeFileName(b)
    ensures a == b
  {
    var p := |EpisodeFilePrefix|;
    assert |a| == |b|;
    assert a == EpisodeFileName(a)[p..p + |a|];
    assert b == EpisodeFileName(b)[p..p + |b|];
  }

  /** Every episode file name ends in `.xml`, so a later `*.xml` clean-up removes it. */
  lemma EpisodeFileNameIsXml(n: string)
    ensures var f := EpisodeFileName(n);
            |f| >= |XmlExtension| && f[|f| - |XmlExtension|..] == XmlExtension
  {
  }

  /** `SaveEpsiodeXml`: the file name and content to write, or nothing when no child names the episode. */
  function EpisodeArtifact(e: Episode): (r: Option<(string, string)>)
    ensures r.Some? <==> exists i :: 0 <= i < |e.children| && Names(e.children[i])
    ensures r.Some? ==> r.value.1 == e.outerXml
                        && r.value.0 == EpisodeFileName(FirstEpisodeNumber(e.children).value)
  {
    match FirstEpisodeNumber(e.children)
    case Some(n) => Some((EpisodeFileName(n), e.outerXml))
    case None => None
  }
}
