/**
 * A series document as the streaming XML reader presents it: the top-level
 * elements the provider reacts to, in document order, and whether the
 * reader fails after them.
 */
module Document {
  import opened Wrappers
  import opened People
  import opened Titles
  import opened Tags
  import opened Resources
  import opened Episodes

  /** A top-level element of the `anime` document. */
  datatype Section =
    | TitlesSection(titles: seq<Title>)
    | CreatorsSection(creators: seq<CreatorElement>)
    | DescriptionSection(text: string)
    | ResourcesSection(resources: seq<Resource>)
    | CharactersSection(characters: seq<Character>)
    | TagsSection(tags: seq<Tag>)
    | EpisodesSection(episodes: seq<Episode>)
    | PictureSection(file: string)
    | OtherSection   // dates, ratings and every element the provider does not read

  /**
   * The reader's view of a file: the sections it yields and, when
   * `malformed`, the `XmlException` it raises after the last of them.
   */
  datatype Parsed = Parsed(sections: seq<Section>, malformed: bool)

  /** The text of the first `picture` element among a character's children. */
  function FirstCharacterPicture(cs: seq<CharacterChild>): (r: Option<string>)
    ensures r.Some? <==> exists i :: 0 <= i < |cs| && cs[i].CharacterPicture?
    ensures r.Some? ==> exists i :: 0 <= i < |cs| && cs[i] == CharacterPicture(r.value)
                                    && forall j :: 0 <= j < i ==> !cs[j].CharacterPicture?
  {
    if cs == [] then None
    else if cs[0].CharacterPicture? then Some(cs[0].file)
    else
      var r := FirstCharacterPicture(cs[1..]);
      assert forall i :: 1 <= i < |cs| ==> cs[i] == cs[1..][i - 1];
      r
  }

  /** The first `picture` element inside a list of characters. */
  function CharactersPicture(chars: seq<Character>): Option<string> {
    if chars == [] then None
    else match FirstCharacterPicture(chars[0].children)
      case Some(p) => Some(p)
      case None => CharactersPicture(chars[1..])
  }

  /** The first `picture` element inside one section. */
  function SectionPicture(s: Section): Option<string> {
    match s
    case PictureSection(f) => Some(f)
    case CharactersSection(cs) => CharactersPicture(cs)
    case _ => None
  }

  /** The first `picture` element of the document, in document order. */
  function FirstPicture(sections: seq<Section>): (r: Option<string>)
    ensures r.Some? ==> exists i :: 0 <= i < |sections| && SectionPicture(sections[i]) == r
                                    && forall j :: 0 <= j < i ==> SectionPicture(sections[j]).None?
    ensures r.None? <==> forall i :: 0 <= i < |sections| ==> SectionPicture(sections[i]).None?
  {
    if sections == [] then None
    else if SectionPicture(sections[0]).Some? then SectionPicture(sections[0])
    else
      var r := FirstPicture(sections[1..]);
      assert forall i :: 1 <= i < |sections| ==> sections[i] == sections[1..][i - 1];
      r
  }

  /** Every `episode` element of the document, in document order. */
  function AllEpisodes(sections: seq<Section>): seq<Episode> {
    if sections == [] then []
    else (if sections[0].EpisodesSection? then sections[0].episodes else []) + AllEpisodes(sections[1..])
  }

  /** The person cache records of the document's `characters` and `creators` elements, in document order. */
  function CastRecords(sections: seq<Section>): seq<AniDbPersonInfo> {
    if sections == [] then []
    else
      var here := match sections[0]
        case CharactersSection(cs) => CharacterList(cs)
        case CreatorsSection(cr) => CreatorsList(cr)
        case _ => [];
      here + CastRecords(sections[1..])
  }
}
