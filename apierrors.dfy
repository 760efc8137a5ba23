/**
 * The check `DownloadSeriesData` makes on a downloaded response: the
 * `&#x0;` entity is removed, then the text is searched for an AniDB error
 * element `<error code="digits">letters</error>`; the first one found is
 * reported in the exception message.
 */
module ApiErrors {
  import opened Wrappers
  import opened Text
  import opened Exceptions

  /** The entity the response may carry for a NUL character. */
  const NullCharEntity: string := "&#x0;"

  const ErrorOpen: string := "<error code=\""
  const ErrorMid: string := "\">"
  const ErrorClose: string := "</error>"

  /** The error element AniDB answers with when it bans the client. */
  const BanMarker: string := "<error code=\"500\">banned</error>"

  predicate IsDigit(c: char) {
    '0' <= c <= '9'
  }

  predicate IsLetter(c: char) {
    ('a' <= c <= 'z') || ('A' <= c <= 'Z')
  }

  /** A match of `[0-9]+`. */
  predicate IsCode(d: string) {
    d != [] && forall i :: 0 <= i < |d| ==> IsDigit(d[i])
  }

  /** A match of `[a-zA-Z]+`. */
  predicate IsErrorWord(w: string) {
    w != [] && forall i :: 0 <= i < |w| ==> IsLetter(w[i])
  }

  /** The error element with the given code and word. */
  function ErrorElement(d: string, w: string): string {
    ErrorOpen + d + ErrorMid + w + ErrorClose
  }

  /** The end of the run of digits starting at `i`. */
  function DigitsEnd(s: string, i: nat): (r: nat)
    requires i <= |s|
    ensures i <= r <= |s|
    ensures forall j :: i <= j < r ==> IsDigit(s[j])
    ensures r < |s| ==> !IsDigit(s[r])
    decreases |s| - i
  {
    if i == |s| || !IsDigit(s[i]) then i else DigitsEnd(s, i + 1)
  }

  /** The end of the run of letters starting at `i`. */
  function LettersEnd(s: string, i: nat): (r: nat)
    requires i <= |s|
    ensures i <= r <= |s|
    ensures forall j :: i <= j < r ==> IsLetter(s[j])
    ensures r < |s| ==> !IsLetter(s[r])
    decreases |s| - i
  {
    if i == |s| || !IsLetter(s[i]) then i else LettersEnd(s, i + 1)
  }

  lemma {:induction false} DigitsEndAt(s: string, i: nat, j: nat)
    requires i <= j < |s| && !IsDigit(s[j])
    requires forall q :: i <= q < j ==> IsDigit(s[q])
    ensures DigitsEnd(s, i) == j
    decreases j - i
  {
    if i < j {
      DigitsEndAt(s, i + 1, j);
    }
  }

  lemma {:induction false} LettersEndAt(s: string, i: nat, j: nat)
    requires i <= j < |s| && !IsLetter(s[j])
    requires forall q :: i <= q < j ==> IsLetter(s[q])
    ensures LettersEnd(s, i) == j
    decreases j - i
  {
    if i < j {
      LettersEndAt(s, i + 1, j);
    }
  }

  /** The code and word of the error element starting at `k`, if one does. */
  function ErrorAt(s: string, k: nat): Option<(string, string)>
    requires k <= |s|
  {
    if !OccursAt(s, ErrorOpen, k) then None
    else
      var i := k + |ErrorOpen|;
      var j := DigitsEnd(s, i);
      if j == i || !OccursAt(s, ErrorMid, j) then None
      else
        var l := j + |ErrorMid|;
        var m := LettersEnd(s, l);
        if m == l || !OccursAt(s, ErrorClose, m) then None
        else Some((s[i..j], s[l..m]))
  }

  /** An occurrence of a concatenation is an occurrence of each part, one after the other. */
  lemma OccursConcat(s: string, a: string, b: string, k: int)
    ensures OccursAt(s, a + b, k) <==> OccursAt(s, a, k) && OccursAt(s, b, k + |a|)
  {
    if OccursAt(s, a, k) && OccursAt(s, b, k + |a|) {
      assert s[k..k + |a| + |b|] == s[k..k + |a|] + s[k + |a|..k + |a| + |b|];
    }
    if OccursAt(s, a + b, k) {
      assert s[k..k + |a|] == s[k..k + |a| + |b|][..|a|];
      assert s[k + |a|..k + |a| + |b|] == s[k..k + |a| + |b|][|a|..];
    }
  }

  /** The five parts of an error element, one after the other, are the element. */
  lemma ElementOccurs(s: string, k: int, d: string, w: string)
    requires OccursAt(s, ErrorOpen, k) && OccursAt(s, d, k + |ErrorOpen|)
    requires OccursAt(s, ErrorMid, k + |ErrorOpen| + |d|)
    requires OccursAt(s, w, k + |ErrorOpen| + |d| + |ErrorMid|)
    requires OccursAt(s, ErrorClose, k + |ErrorOpen| + |d| + |ErrorMid| + |w|)
    ensures OccursAt(s, ErrorElement(d, w), k)
  {
    OccursConcat(s, ErrorOpen, d, k);
    OccursConcat(s, ErrorOpen + d, ErrorMid, k);
    OccursConcat(s, (ErrorOpen + d) + ErrorMid, w, k);
    OccursConcat(s, ((ErrorOpen + d) + ErrorMid) + w, ErrorClose, k);
    assert ErrorElement(d, w) == (((ErrorOpen + d) + ErrorMid) + w) + ErrorClose;
  }

  /** What `ErrorAt` finds is a well-formed error element at that position. */
  lemma ErrorAtSound(s: string, k: nat)
    requires k <= |s| && ErrorAt(s, k).Some?
    ensures var (d, w) := ErrorAt(s, k).value;
            IsCode(d) && IsErrorWord(w) && OccursAt(s, ErrorElement(d, w), k)
  {
    var i := k + |ErrorOpen|;
    var j := DigitsEnd(s, i);
    var l := j + |ErrorMid|;
    var m := LettersEnd(s, l);
    var d, w := s[i..j], s[l..m];
    assert ErrorAt(s, k).value == (d, w);
    ElementOccurs(s, k, d, w);
  }

  /** Where `p` occurs, the characters of `s` are those of `p`. */
  lemma OccursChars(s: string, p: string, k: int)
    requires OccursAt(s, p, k)
    ensures forall q :: k <= q < k + |p| ==> s[q] == p[q - k]
  {
    forall q | k <= q < k + |p| ensures s[q] == p[q - k] {
      assert s[q] == s[k..k + |p|][q - k];
    }
  }

  /** An error element at `k` is its five parts, one after the other. */
  lemma ElementParts(s: string, k: int, d: string, w: string)
    requires OccursAt(s, ErrorElement(d, w), k)
    ensures OccursAt(s, ErrorOpen, k) && OccursAt(s, d, k + |ErrorOpen|)
    ensures OccursAt(s, ErrorMid, k + |ErrorOpen| + |d|)
    ensures OccursAt(s, w, k + |ErrorOpen| + |d| + |ErrorMid|)
    ensures OccursAt(s, ErrorClose, k + |ErrorOpen| + |d| + |ErrorMid| + |w|)
  {
    assert ErrorElement(d, w) == (((ErrorOpen + d) + ErrorMid) + w) + ErrorClose;
    OccursConcat(s, ((ErrorOpen + d) + ErrorMid) + w, ErrorClose, k);
    OccursConcat(s, (ErrorOpen + d) + ErrorMid, w, k);
    OccursConcat(s, ErrorOpen + d, ErrorMid, k);
    OccursConcat(s, ErrorOpen, d, k);
  }

  /** Every well-formed error element at a position is what `ErrorAt` finds there. */
  lemma ErrorAtComplete(s: string, k: nat, d: string, w: string)
    requires k <= |s| && IsCode(d) && IsErrorWord(w) && OccursAt(s, ErrorElement(d, w), k)
    ensures ErrorAt(s, k) == Some((d, w))
  {
    var i := k + |ErrorOpen|;
    var j := i + |d|;
    var l := j + |ErrorMid|;
    var m := l + |w|;
    ElementParts(s, k, d, w);
    OccursChars(s, d, i);
    OccursChars(s, w, l);
    assert s[j] == ErrorMid[0] by {
      OccursChars(s, ErrorMid, j);
    }
    assert s[m] == ErrorClose[0] by {
      OccursChars(s, ErrorClose, m);
    }
    DigitsEndAt(s, i, j);
    LettersEndAt(s, l, m);
    assert s[i..j] == d && s[l..m] == w;
  }

  /** The leftmost error element at or after `k`: its position, code and word. */
  function FindFrom(s: string, k: nat): (r: Option<(nat, string, string)>)
    requires k <= |s|
    ensures r.Some? ==> k <= r.value.0 <= |s| && ErrorAt(s, r.value.0) == Some((r.value.1, r.value.2))
                        && forall q :: k <= q < r.value.0 ==> ErrorAt(s, q).None?
    ensures r.None? ==> forall q :: k <= q <= |s| ==> ErrorAt(s, q).None?
    decreases |s| - k
  {
    var here := ErrorAt(s, k);
    if here.Some? then Some((k, here.value.0, here.value.1))
    else if k == |s| then None
    else FindFrom(s, k + 1)
  }

  /** `_errorRegex.Match`: the value of the leftmost match, if any. */
  function FindError(s: string): Option<string> {
    match FindFrom(s, 0)
    case Some((_, d, w)) => Some(ErrorElement(d, w))
    case None => None
  }

  /** The text a response is reduced to before the scan. */
  function Scrub(body: string): string {
    ReplaceAll(body, NullCharEntity, "")
  }

  /** The scan: the scrubbed text, or the exception its first error element raises. */
  function ScanResponse(body: string): Result<string, Exception> {
    var text := Scrub(body);
    match FindError(text)
    case Some(m) => Failure(ApiError(m))
    case None => Success(text)
  }

  /**
   * A response is accepted exactly when its scrubbed text holds no error
   * element anywhere, and then the scrubbed text is what is written; a
   * rejected one reports the leftmost error element of the scrubbed text.
   */
  lemma ScanResponseSpec(body: string)
    ensures var text := Scrub(body);
            ScanResponse(body).Success? <==>
              forall k, d, w :: 0 <= k <= |text| && IsCode(d) && IsErrorWord(w) ==> !OccursAt(text, ErrorElement(d, w), k)
    ensures ScanResponse(body).Success? ==> ScanResponse(body).value == Scrub(body)
    ensures var text := Scrub(body);
            ScanResponse(body).Failure? ==>
              exists k: nat, d, w :: k <= |text| && IsCode(d) && IsErrorWord(w) && OccursAt(text, ErrorElement(d, w), k)
                                 && ScanResponse(body).error == ApiError(ErrorElement(d, w))
                                 && forall q :: 0 <= q < k ==> ErrorAt(text, q).None?
  {
    var text := Scrub(body);
    match FindFrom(text, 0)
    case Some((k, d, w)) =>
      ErrorAtSound(text, k);
      assert OccursAt(text, ErrorElement(d, w), k);
    case None =>
      forall k, d, w | 0 <= k <= |text| && IsCode(d) && IsErrorWord(w)
        ensures !OccursAt(text, ErrorElement(d, w), k)
      {
        if OccursAt(text, ErrorElement(d, w), k) {
          ErrorAtComplete(text, k, d, w);
        }
      }
  }

  /** The only `<` characters of an error message are those of its element's two tags. */
  lemma {:induction false} MessageTags(d: string, w: string)
    requires IsCode(d) && IsErrorWord(w)
    ensures var t := Message(ApiError(ErrorElement(d, w)));
            forall i :: 0 <= i < |t| && i != |ApiErrorPrefix| && i != |t| - |ErrorClose| ==> t[i] != '<'
  {
    var t := Message(ApiError(ErrorElement(d, w)));
    var a := |ApiErrorPrefix|;
    var b := a + |ErrorOpen|;
    var c := b + |d|;
    var e := c + |ErrorMid|;
    var f := e + |w|;
    assert t == ApiErrorPrefix + ErrorOpen + d + ErrorMid + w + ErrorClose;
    forall i | 0 <= i < |t| && i != a && i != |t| - |ErrorClose|
      ensures t[i] != '<'
    {
      if i < a {
        assert t[i] == ApiErrorPrefix[i];
      } else if i < b {
        assert t[i] == ErrorOpen[i - a];
      } else if i < c {
        assert t[i] == d[i - b];
      } else if i < e {
        assert t[i] == ErrorMid[i - c];
      } else if i < f {
        assert t[i] == w[i - e];
      } else {
        assert t[i] == ErrorClose[i - f];
      }
    }
  }

  /** The ban marker is itself an error element. */
  lemma BanMarkerIsElement()
    ensures IsCode("500") && IsErrorWord("banned")
    ensures BanMarker == ErrorElement("500", "banned")
  {
  }

  /** An occurrence past a prefix is an occurrence in the rest. */
  lemma OccursShift(a: string, b: string, p: string, k: int)
    requires 0 <= k
    ensures OccursAt(a + b, p, |a| + k) <==> OccursAt(b, p, k)
  {
    if k + |p| <= |b| {
      assert (a + b)[|a| + k..|a| + k + |p|] == b[k..k + |p|];
    }
  }

  /** In a download error message, the ban marker can only start where the element does. */
  lemma BanMarkerPosition(d: string, w: string, p: int)
    requires IsCode(d) && IsErrorWord(w)
    requires OccursAt(Message(ApiError(ErrorElement(d, w))), BanMarker, p)
    ensures p == |ApiErrorPrefix|
  {
    var t := Message(ApiError(ErrorElement(d, w)));
    OccursChars(t, BanMarker, p);
    assert BanMarker[0] == '<';
    assert t[p] == '<';
    MessageTags(d, w);
  }

  /**
   * The message of a download error contains the ban marker exactly when
   * the error element is the ban itself: code 500, word `banned`.
   */
  lemma BanMarkerIff(d: string, w: string)
    requires IsCode(d) && IsErrorWord(w)
    ensures Contains(Message(ApiError(ErrorElement(d, w))), BanMarker) <==> d == "500" && w == "banned"
  {
    var m := ErrorElement(d, w);
    var t := Message(ApiError(m));
    assert t == ApiErrorPrefix + m;
    BanMarkerIsElement();
    if Contains(t, BanMarker) {
      var p :| 0 <= p <= |t| && OccursAt(t, BanMarker, p);
      BanMarkerPosition(d, w, p);
      OccursShift(ApiErrorPrefix, m, BanMarker, 0);
      assert OccursAt(m, m, 0);
      ErrorAtComplete(m, 0, d, w);
      ErrorAtComplete(m, 0, "500", "banned");
    }
    if d == "500" && w == "banned" {
      OccursShift(ApiErrorPrefix, m, BanMarker, 0);
      assert OccursAt(m, BanMarker, 0);
      assert OccursAt(t, BanMarker, |ApiErrorPrefix|);
    }
  }
}
