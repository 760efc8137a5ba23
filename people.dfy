/**
 * People in a series document: the role classification of a person, the
 * name-order reversal, the cast (character/seiyuu) and crew (creator) records,
 * and the light person records kept in the cross-series person cache.
 */
module People {
  import opened Wrappers
  import opened Text
  import opened Exceptions

  /** The host's person classification; the names are what `Enum.TryParse` accepts. */
  datatype PersonKind =
    | Unknown | Actor | Director | Composer | Writer | GuestStar | Producer | Conductor
    | Lyricist | Arranger | Engineer | Mixer | Remixer | Creator | Artist | AlbumArtist
    | Author | Illustrator | Penciller | Inker | Colorist | Letterer | CoverArtist
    | Editor | Translator

  /** The declared name of a kind. */
  function KindName(k: PersonKind): string {
    match k
    case Unknown => "Unknown"
    case Actor => "Actor"
    case Director => "Director"
    case Composer => "Composer"
    case Writer => "Writer"
    case GuestStar => "GuestStar"
    case Producer => "Producer"
    case Conductor => "Conductor"
    case Lyricist => "Lyricist"
    case Arranger => "Arranger"
    case Engineer => "Engineer"
    case Mixer => "Mixer"
    case Remixer => "Remixer"
    case Creator => "Creator"
    case Artist => "Artist"
    case AlbumArtist => "AlbumArtist"
    case Author => "Author"
    case Illustrator => "Illustrator"
    case Penciller => "Penciller"
    case Inker => "Inker"
    case Colorist => "Colorist"
    case Letterer => "Letterer"
    case CoverArtist => "CoverArtist"
    case Editor => "Editor"
    case Translator => "Translator"
  }

  /** Every kind, in declaration order. */
  const AllKinds: seq<PersonKind> := [
    Unknown, Actor, Director, Composer, Writer, GuestStar, Producer, Conductor,
    Lyricist, Arranger, Engineer, Mixer, Remixer, Creator, Artist, AlbumArtist,
    Author, Illustrator, Penciller, Inker, Colorist, Letterer, CoverArtist,
    Editor, Translator]

  /** The first kind of `kinds` whose declared name is exactly `s`. */
  function FindKind(s: string, kinds: seq<PersonKind>): (r: Option<PersonKind>)
    ensures r.Some? ==> r.value in kinds && KindName(r.value) == s
    ensures r.None? ==> forall i :: 0 <= i < |kinds| ==> KindName(kinds[i]) != s
  {
    if kinds == [] then None
    else if KindName(kinds[0]) == s then Some(kinds[0])
    else FindKind(s, kinds[1..])
  }

  /** The kind whose declared name is exactly `s`, if any. */
  function KindNamed(s: string): (r: Option<PersonKind>)
    ensures r.Some? ==> KindName(r.value) == s
  {
    FindKind(s, AllKinds)
  }

  /** `Enum.TryParse(type, out PersonKind)` for a name: surrounding white space is ignored, case is not. */
  function ParseKind(s: Option<string>): Option<PersonKind> {
    if s.None? then None else KindNamed(Trim(s.value))
  }

  /** `PersonType.Actor`, the role typeLabel given to every cast member. */
  const ActorType: string := "Actor"

  /** The creator role typeLabel that names a studio rather than a person. */
  const AnimationWork: string := "Animation Work"

  /** The prefix that turns an AniDB picture file name into a URL. */
  const PictureUrlPrefix: string := "https://cdn.anidb.net/images/main/"

  /** `Actor` is the second declared kind. */
  lemma ActorKindNamed()
    ensures KindNamed(ActorType) == Some(Actor)
  {
    assert KindName(Unknown) != ActorType;
    assert AllKinds[1..][0] == Actor;
  }

  /** `Actor` carries no surrounding white space. */
  lemma ActorTypeTrimmed()
    ensures Trim(ActorType) == ActorType
  {
    assert ActorType[0] == 'A' && ActorType[|ActorType| - 1] == 'r';
    TrimUnchanged(ActorType);
  }

  /** The cast label `Actor` is itself a kind name, so every cast member is an actor. */
  lemma ActorTypeParses()
    ensures ParseKind(Some(ActorType)) == Some(Actor)
  {
    ActorTypeTrimmed();
    ActorKindNamed();
  }

  /** A person attached to a series. */
  datatype PersonInfo = PersonInfo(name: string, kind: PersonKind, role: Option<string>)

  /**
   * The role classification of `CreatePerson`: the kind the typeLabel names, else the
   * role table's entry, else `Actor`. A missing typeLabel is looked up in the table,
   * which rejects a null key.
   */
  function ResolveKind(typeLabel: Option<string>, roles: map<string, PersonKind>): (r: Result<PersonKind, Exception>)
    ensures r.Failure? <==> typeLabel.None?
    ensures r.Failure? ==> r.error == ArgumentNull
    ensures ParseKind(typeLabel).Some? ==> r == Success(ParseKind(typeLabel).value)
    ensures typeLabel.Some? && ParseKind(typeLabel).None? && typeLabel.value in roles ==> r == Success(roles[typeLabel.value])
    ensures typeLabel.Some? && ParseKind(typeLabel).None? && typeLabel.value !in roles ==> r == Success(Actor)
  {
    match ParseKind(typeLabel)
    case Some(k) => Success(k)
    case None =>
      if typeLabel.None? then Failure(ArgumentNull)
      else if typeLabel.value in roles then Success(roles[typeLabel.value])
      else Success(Actor)
  }

  /** `ReverseNameOrder`: the space-separated words in reverse order, trimmed. */
  function ReverseNameOrder(name: string): string {
    Trim(PrefixJoin(Reverse(Split(name))))
  }

  /** `CreatePerson`: the reversed name, the resolved kind and the optional role typeLabel. */
  function CreatePerson(name: string, typeLabel: Option<string>, role: Option<string>, roles: map<string, PersonKind>): (r: Result<PersonInfo, Exception>)
    ensures r.Success? <==> ResolveKind(typeLabel, roles).Success?
    ensures r.Success? ==> r.value == PersonInfo(ReverseNameOrder(name), ResolveKind(typeLabel, roles).value, role)
  {
    match ResolveKind(typeLabel, roles)
    case Success(k) => Success(PersonInfo(ReverseNameOrder(name), k, role))
    case Failure(e) => Failure(e)
  }

  /** A word of a normal name: not empty and not starting or ending in white space. */
  predicate IsWord(w: string) {
    w != [] && !IsWhiteSpace(w[0]) && !IsWhiteSpace(w[|w| - 1])
  }

  /** A name made of words separated by single spaces. */
  predicate WellSpaced(name: string) {
    var parts := Split(name);
    forall i :: 0 <= i < |parts| ==> IsWord(parts[i])
  }

  lemma TrimLeadingSpace(j: string)
    requires j != [] && !IsWhiteSpace(j[0]) && !IsWhiteSpace(j[|j| - 1])
    ensures Trim(" " + j) == j
  {
    assert (" " + j)[1..] == j;
  }

  lemma {:induction false} JoinFirst(parts: seq<string>)
    requires |parts| >= 1 && parts[0] != []
    ensures Join(parts) != [] && Join(parts)[0] == parts[0][0]
    decreases |parts|
  {
    if |parts| > 1 {
      JoinFirst(parts[..|parts| - 1]);
    }
  }

  lemma JoinLast(parts: seq<string>)
    requires |parts| >= 1 && parts[|parts| - 1] != []
    ensures Join(parts) != [] && Join(parts)[|Join(parts)| - 1] == parts[|parts| - 1][|parts[|parts| - 1]| - 1]
  {
  }

  /** A one-word name comes back trimmed and otherwise unchanged. */
  lemma ReverseOneWord(name: string)
    requires ' ' !in name
    ensures ReverseNameOrder(name) == Trim(name)
  {
    SplitNoSpace(name);
    assert Reverse([name]) == [name];
    assert PrefixJoin([name]) == " " + name by { assert [name][..0] == []; }
    assert Trim(" " + name) == Trim(name) by {
      assert (" " + name)[1..] == name;
    }
  }

  /** For a well-spaced name the result is the words joined in reverse order. */
  lemma ReverseWords(name: string)
    requires WellSpaced(name)
    ensures ReverseNameOrder(name) == Join(Reverse(Split(name)))
    ensures WellSpaced(ReverseNameOrder(name))
  {
    var parts := Split(name);
    var rev := Reverse(parts);
    PrefixJoinIsJoin(rev);
    assert IsWord(rev[0]) && IsWord(rev[|rev| - 1]);
    JoinFirst(rev);
    JoinLast(rev);
    TrimLeadingSpace(Join(rev));
    SplitJoin(rev);
  }

  /** Reversing the name order of a well-spaced name twice gives the name back. */
  lemma ReverseTwice(name: string)
    requires WellSpaced(name)
    ensures ReverseNameOrder(ReverseNameOrder(name)) == name
  {
    var parts := Split(name);
    var rev := Reverse(parts);
    ReverseWords(name);
    var once := Join(rev);
    ReverseWords(once);
    SplitJoin(rev);
    ReverseReverse(parts);
    JoinSplit(name);
  }

  /** A seiyuu (voice actor) element: its text and its optional `picture` and `id` attributes. */
  datatype Seiyuu = Seiyuu(name: string, picture: Option<string>, id: Option<string>)

  /** The child elements of a `character` element that the provider looks at. */
  datatype CharacterChild =
    | CharacterName(text: string)
    | CharacterSeiyuu(seiyuu: Seiyuu)
    | CharacterPicture(file: string)
    | CharacterOther

  /** One `character` element, its children in document order. */
  datatype Character = Character(children: seq<CharacterChild>)

  /** A `name` element of the `creators` section: its `type` and `id` attributes and its text. */
  datatype CreatorElement = CreatorElement(typeLabel: Option<string>, name: string, id: Option<string>)

  /** The last `name` and last `seiyuu` text seen in a character, as `ParseActor`'s loop leaves them. */
  function LastCharacterName(cs: seq<CharacterChild>): (r: Option<string>)
    ensures r.Some? ==> exists i :: 0 <= i < |cs| && cs[i] == CharacterName(r.value)
                                    && forall j :: i < j < |cs| ==> !cs[j].CharacterName?
    ensures r.None? ==> forall i :: 0 <= i < |cs| ==> !cs[i].CharacterName?
  {
    if cs == [] then None
    else if cs[|cs| - 1].CharacterName? then Some(cs[|cs| - 1].text)
    else LastCharacterName(cs[..|cs| - 1])
  }

  function LastSeiyuuName(cs: seq<CharacterChild>): (r: Option<string>)
    ensures r.Some? ==> exists i :: 0 <= i < |cs| && cs[i].CharacterSeiyuu? && cs[i].seiyuu.name == r.value
                                    && forall j :: i < j < |cs| ==> !cs[j].CharacterSeiyuu?
    ensures r.None? ==> forall i :: 0 <= i < |cs| ==> !cs[i].CharacterSeiyuu?
  {
    if cs == [] then None
    else if cs[|cs| - 1].CharacterSeiyuu? then Some(cs[|cs| - 1].seiyuu.name)
    else LastSeiyuuName(cs[..|cs| - 1])
  }

  /**
   * `ParseActor`: a cast member when both the character name and the seiyuu
   * name are non-empty; the seiyuu becomes an actor whose role is the character.
   */
  function ActorOf(c: Character, replaceGraves: bool): (r: Option<PersonInfo>)
    ensures r.Some? <==> !IsNullOrEmpty(LastCharacterName(c.children)) && !IsNullOrEmpty(LastSeiyuuName(c.children))
    ensures r.Some? ==> r.value.kind == Actor && r.value.role == LastCharacterName(c.children)
    ensures r.Some? ==> r.value.name == ReverseNameOrder(if replaceGraves then ReplaceGraves(LastSeiyuuName(c.children).value)
                                                         else LastSeiyuuName(c.children).value)
  {
    var role := LastCharacterName(c.children);
    var name := LastSeiyuuName(c.children);
    if IsNullOrEmpty(name) || IsNullOrEmpty(role) then None
    else
      var n := if replaceGraves then ReplaceGraves(name.value) else name.value;
      Some(PersonInfo(ReverseNameOrder(n), Actor, role))
  }

  /** A person record of the cross-series person cache. */
  datatype AniDbPersonInfo = AniDbPersonInfo(name: string, image: Option<string>, id: Option<string>)

  /** An attribute value kept only when present and non-empty. */
  function NonEmpty(a: Option<string>): (r: Option<string>)
    ensures r.Some? <==> !IsNullOrEmpty(a)
    ensures r.Some? ==> r == a
  {
    if IsNullOrEmpty(a) then None else a
  }

  /** The first `seiyuu` child of a character, as `XElement.Element("seiyuu")` finds it. */
  function FirstSeiyuu(cs: seq<CharacterChild>): (r: Option<Seiyuu>)
    ensures r.Some? ==> exists i :: 0 <= i < |cs| && cs[i] == CharacterSeiyuu(r.value)
                                    && forall j :: 0 <= j < i ==> !cs[j].CharacterSeiyuu?
    ensures r.None? ==> forall i :: 0 <= i < |cs| ==> !cs[i].CharacterSeiyuu?
  {
    if cs == [] then None
    else if cs[0].CharacterSeiyuu? then Some(cs[0].seiyuu)
    else
      var r := FirstSeiyuu(cs[1..]);
      assert forall i :: 1 <= i < |cs| ==> cs[i] == cs[1..][i - 1];
      r
  }

  /** The cache record built from a seiyuu: reversed name, picture URL and id. */
  function SeiyuuRecord(s: Seiyuu): (r: AniDbPersonInfo)
    ensures r.name == ReverseNameOrder(s.name) && r.id == NonEmpty(s.id)
    ensures r.image.Some? <==> !IsNullOrEmpty(s.picture)
    ensures r.image.Some? ==> r.image.value == PictureUrlPrefix + s.picture.value
  {
    AniDbPersonInfo(
      ReverseNameOrder(s.name),
      if IsNullOrEmpty(s.picture) then None else Some(PictureUrlPrefix + s.picture.value),
      NonEmpty(s.id))
  }

  /** `ParseCharacterList`: one record per character that has a seiyuu, in document order. */
  function CharacterList(chars: seq<Character>): (r: seq<AniDbPersonInfo>)
    ensures |r| <= |chars|
    ensures |r| == |chars| <== forall i :: 0 <= i < |chars| ==> FirstSeiyuu(chars[i].children).Some?
  {
    if chars == [] then []
    else
      var rest := CharacterList(chars[1..]);
      match FirstSeiyuu(chars[0].children)
      case Some(s) => [SeiyuuRecord(s)] + rest
      case None => rest
  }

  /** Adding one character at the end adds the record of its first seiyuu, if it has one. */
  lemma {:induction false} CharacterListSnoc(chars: seq<Character>, c: Character)
    ensures CharacterList(chars + [c]) ==
            CharacterList(chars) + (if FirstSeiyuu(c.children).Some? then [SeiyuuRecord(FirstSeiyuu(c.children).value)] else [])
    decreases |chars|
  {
    if chars == [] {
      assert [c][1..] == [];
    } else {
      assert (chars + [c])[1..] == chars[1..] + [c];
      CharacterListSnoc(chars[1..], c);
    }
  }

  /** A cached performer comes from the first seiyuu of some character, and every character with a seiyuu gives one. */
  lemma {:induction false} CharacterListMembership(chars: seq<Character>, p: AniDbPersonInfo)
    ensures p in CharacterList(chars) <==>
            exists i :: 0 <= i < |chars| && FirstSeiyuu(chars[i].children).Some? && p == SeiyuuRecord(FirstSeiyuu(chars[i].children).value)
    decreases |chars|
  {
    if chars != [] {
      CharacterListMembership(chars[1..], p);
      assert forall i :: 1 <= i < |chars| ==> chars[i] == chars[1..][i - 1];
      if p in CharacterList(chars[1..]) {
        var i :| 0 <= i < |chars[1..]| && FirstSeiyuu(chars[1..][i].children).Some?
                  && p == SeiyuuRecord(FirstSeiyuu(chars[1..][i].children).value);
        assert chars[i + 1] == chars[1..][i];
      }
    }
  }

  /** `ParseCreatorsList`: one record per creator that is not a studio, in document order. */
  function CreatorsList(creators: seq<CreatorElement>): (r: seq<AniDbPersonInfo>)
    ensures |r| <= |creators|
    ensures forall i :: 0 <= i < |r| ==> r[i].image.None?
  {
    if creators == [] then []
    else
      var rest := CreatorsList(creators[1..]);
      var c := creators[0];
      if c.typeLabel == Some(AnimationWork) then rest
      else [AniDbPersonInfo(ReverseNameOrder(c.name), None, NonEmpty(c.id))] + rest
  }

  /** Adding one creator at the end adds its record, unless it is a studio. */
  lemma {:induction false} CreatorsListSnoc(creators: seq<CreatorElement>, c: CreatorElement)
    ensures CreatorsList(creators + [c]) ==
            CreatorsList(creators) + (if c.typeLabel == Some(AnimationWork) then [] else [AniDbPersonInfo(ReverseNameOrder(c.name), None, NonEmpty(c.id))])
    decreases |creators|
  {
    if creators == [] {
      assert [c][1..] == [];
    } else {
      assert (creators + [c])[1..] == creators[1..] + [c];
      CreatorsListSnoc(creators[1..], c);
    }
  }
}
