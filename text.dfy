/**
 * The .NET string operations the provider relies on, written out over `seq<char>`:
 * `Char.IsWhiteSpace`, `Trim`, `TrimStart(c)`, `Replace(char, char)`,
 * `Replace(string, string)`, `Split(' ')`, ordinal `IndexOf`, `IsNullOrEmpty`,
 * `IsNullOrWhiteSpace` and ASCII case mapping.
 */
module Text {
  import opened Wrappers

  /** `Char.IsWhiteSpace`: the Unicode space separators, line and paragraph separators and U+0009-U+000D, U+0085. */
  predicate IsWhiteSpace(c: char) {
    ('\U{9}' <= c <= '\U{D}') || c == ' ' || c == '\U{85}' || c == '\U{A0}' || c == '\U{1680}'
    || ('\U{2000}' <= c <= '\U{200A}') || c == '\U{2028}' || c == '\U{2029}' || c == '\U{202F}'
    || c == '\U{205F}' || c == '\U{3000}'
  }

  /** `string.IsNullOrEmpty` on a possibly absent string. */
  predicate IsNullOrEmpty(s: Option<string>) {
    s.None? || s.value == []
  }

  /** `string.IsNullOrWhiteSpace` on a present string. */
  predicate IsBlank(s: string) {
    forall i :: 0 <= i < |s| ==> IsWhiteSpace(s[i])
  }

  /** `TrimStart()`: drops the leading run of white space. */
  function TrimStartWhiteSpace(s: string): (r: string)
    ensures |r| <= |s| && r == s[|s| - |r|..]
    ensures r == [] || !IsWhiteSpace(r[0])
    ensures forall i :: 0 <= i < |s| - |r| ==> IsWhiteSpace(s[i])
  {
    if s == [] || !IsWhiteSpace(s[0]) then s else TrimStartWhiteSpace(s[1..])
  }

  /** `TrimEnd()`: drops the trailing run of white space. */
  function TrimEndWhiteSpace(s: string): (r: string)
    ensures |r| <= |s| && r == s[..|r|]
    ensures r == [] || !IsWhiteSpace(r[|r| - 1])
    ensures forall i :: |r| <= i < |s| ==> IsWhiteSpace(s[i])
  {
    if s == [] || !IsWhiteSpace(s[|s| - 1]) then s else TrimEndWhiteSpace(s[..|s| - 1])
  }

  /** `Trim()`: drops white space at both ends. */
  function Trim(s: string): string {
    TrimEndWhiteSpace(TrimStartWhiteSpace(s))
  }

  /** A trimmed string neither starts nor ends with white space. */
  lemma TrimEnds(s: string)
    ensures var t := Trim(s); t == [] || (!IsWhiteSpace(t[0]) && !IsWhiteSpace(t[|t| - 1]))
  {
    var u := TrimStartWhiteSpace(s);
    var t := TrimEndWhiteSpace(u);
    assert t == u[..|t|];
    if t != [] {
      assert t[0] == u[0];
    }
  }

  /** `TrimStart(c)`: drops the leading run of the character `c`. */
  function TrimStartChar(s: string, c: char): (r: string)
    ensures |r| <= |s| && r == s[|s| - |r|..]
    ensures r == [] || r[0] != c
    ensures forall i :: 0 <= i < |s| - |r| ==> s[i] == c
  {
    if s == [] || s[0] != c then s else TrimStartChar(s[1..], c)
  }

  /** `Replace(char, char)`: every occurrence of `a` becomes `b`, nothing else moves. */
  function ReplaceChar(s: string, a: char, b: char): (r: string)
    ensures |r| == |s|
    ensures forall i :: 0 <= i < |s| ==> r[i] == (if s[i] == a then b else s[i])
  {
    if s == [] then [] else [if s[0] == a then b else s[0]] + ReplaceChar(s[1..], a, b)
  }

  /** The grave-accent normalisation applied when `AniDbReplaceGraves` is set. */
  function ReplaceGraves(s: string): (r: string)
    ensures |r| == |s| && '`' !in r
    ensures forall i :: 0 <= i < |s| && s[i] != '`' ==> r[i] == s[i]
  {
    ReplaceChar(s, '`', '\'')
  }

  /** Replacing graves keeps a string free of white space at its ends. */
  lemma GravesEnds(s: string)
    requires s != [] && !IsWhiteSpace(s[0]) && !IsWhiteSpace(s[|s| - 1])
    ensures var t := ReplaceGraves(s); !IsWhiteSpace(t[0]) && !IsWhiteSpace(t[|t| - 1])
  {
    var t := ReplaceGraves(s);
    assert !IsWhiteSpace('\'');
    assert t[0] == s[0] || t[0] == '\'';
    assert t[|t| - 1] == s[|s| - 1] || t[|t| - 1] == '\'';
  }

  /** True when `p` occurs in `s` at position `k`. */
  predicate OccursAt(s: string, p: string, k: int) {
    0 <= k && k + |p| <= |s| && s[k..k + |p|] == p
  }

  /** Ordinal `IndexOf(p) >= 0`. */
  predicate Contains(s: string, p: string) {
    exists k :: 0 <= k <= |s| && OccursAt(s, p, k)
  }

  /**
   * `Replace(string, string)`: one left-to-right pass replacing non-overlapping
   * occurrences of `p` (never empty here) by `r`.
   */
  function ReplaceAll(s: string, p: string, r: string): string
    requires p != []
    decreases |s|
  {
    if |s| < |p| then s
    else if s[..|p|] == p then r + ReplaceAll(s[|p|..], p, r)
    else [s[0]] + ReplaceAll(s[1..], p, r)
  }

  /** A string too short to hold the pattern comes back unchanged. */
  lemma ReplaceAllShort(s: string, p: string, r: string)
    requires p != [] && |s| < |p|
    ensures ReplaceAll(s, p, r) == s
  {
  }

  /** A string with no occurrence of the pattern comes back unchanged. */
  lemma {:induction false} ReplaceAllAbsent(s: string, p: string, r: string)
    requires p != [] && !Contains(s, p)
    ensures ReplaceAll(s, p, r) == s
    decreases |s|
  {
    if |s| >= |p| {
      assert !OccursAt(s, p, 0);
      assert s[..|p|] != p;
      if Contains(s[1..], p) {
        var k :| 0 <= k <= |s[1..]| && OccursAt(s[1..], p, k);
        assert 0 <= k && k + |p| <= |s| - 1 && s[1..][k..k + |p|] == p;
        assert s[1..][k..k + |p|] == s[k + 1..k + 1 + |p|];
        assert OccursAt(s, p, k + 1);
        assert false;
      }
      ReplaceAllAbsent(s[1..], p, r);
    }
  }

  /** Replacing a one-character pattern by text without it leaves none of that character. */
  lemma {:induction false} ReplaceAllRemovesChar(s: string, c: char, r: string)
    requires c !in r
    ensures c !in ReplaceAll(s, [c], r)
    decreases |s|
  {
    if |s| >= 1 {
      ReplaceAllRemovesChar(s[1..], c, r);
    }
  }

  /** `ReplaceNewLine`: every line feed becomes an HTML line break. */
  function ReplaceNewLine(s: string): (r: string)
    ensures '\n' !in r
  {
    ReplaceAllRemovesChar(s, '\n', "<br>");
    ReplaceAll(s, "\n", "<br>")
  }

  /** One step of `ReplaceAll` on a string that starts with a character unrelated to the pattern's first. */
  lemma ReplaceAllCons(c: char, s: string, p: string, r: string)
    requires p != [] && c != p[0]
    ensures ReplaceAll([c] + s, p, r) == [c] + ReplaceAll(s, p, r)
  {
    var t := [c] + s;
    assert t[1..] == s;
    if |t| < |p| {
      ReplaceAllShort(s, p, r);
    } else {
      assert t[..|p|][0] == c;
    }
  }

  /**
   * `ReplaceNewLine` is undone by turning every `<br>` back into a line feed,
   * for text that contains no `<` of its own.
   */
  lemma {:induction false} ReplaceNewLineRoundTrip(s: string)
    requires '<' !in s
    ensures ReplaceAll(ReplaceNewLine(s), "<br>", "\n") == s
    decreases |s|
  {
    if |s| >= 1 {
      var rest := ReplaceAll(s[1..], "\n", "<br>");
      ReplaceNewLineRoundTrip(s[1..]);
      assert ReplaceNewLine(s[1..]) == rest;
      if s[0] == '\n' {
        assert s[..1] == "\n";
        assert ReplaceNewLine(s) == "<br>" + rest;
        var t := "<br>" + rest;
        assert t[..4] == "<br>" && t[4..] == rest;
        assert ReplaceAll(t, "<br>", "\n") == "\n" + ReplaceAll(rest, "<br>", "\n");
        assert s == [s[0]] + s[1..];
      } else {
        assert s[..1] != "\n";
        assert ReplaceNewLine(s) == [s[0]] + rest;
        ReplaceAllCons(s[0], rest, "<br>", "\n");
        assert s == [s[0]] + s[1..];
      }
    }
  }

  /** `Split(' ')`: the pieces between single spaces, empty pieces included. */
  function Split(s: string): (parts: seq<string>)
    ensures |parts| >= 1
    ensures forall i :: 0 <= i < |parts| ==> ' ' !in parts[i]
    decreases |s|
  {
    if s == [] then [[]]
    else if s[0] == ' ' then [[]] + Split(s[1..])
    else var rest := Split(s[1..]); [[s[0]] + rest[0]] + rest[1..]
  }

  /** `Aggregate(string.Empty, (n, part) => n + " " + part)`: each piece preceded by one space. */
  function PrefixJoin(parts: seq<string>): string {
    if parts == [] then [] else PrefixJoin(parts[..|parts| - 1]) + " " + parts[|parts| - 1]
  }

  /** The pieces of a string joined back with single spaces. */
  function Join(parts: seq<string>): string
    requires |parts| >= 1
  {
    if |parts| == 1 then parts[0] else Join(parts[..|parts| - 1]) + " " + parts[|parts| - 1]
  }

  /** Splitting on spaces and joining with spaces gives the string back. */
  lemma {:induction false} JoinSplit(s: string)
    ensures Join(Split(s)) == s
    decreases |s|
  {
    if s != [] {
      JoinSplit(s[1..]);
      var rest := Split(s[1..]);
      if s[0] == ' ' {
        JoinPrepend([], rest);
        assert Join([[]] + rest) == [] + " " + Join(rest);
      } else {
        JoinConsFirst(s[0], rest);
      }
      assert s == [s[0]] + s[1..];
    }
  }

  lemma {:induction false} JoinPrepend(w: string, parts: seq<string>)
    requires |parts| >= 1
    ensures Join([w] + parts) == w + " " + Join(parts)
    decreases |parts|
  {
    var all := [w] + parts;
    if |parts| == 1 {
      assert all[..1] == [w];
    } else {
      assert all[..|all| - 1] == [w] + parts[..|parts| - 1];
      JoinPrepend(w, parts[..|parts| - 1]);
    }
  }

  lemma {:induction false} JoinConsFirst(c: char, parts: seq<string>)
    requires |parts| >= 1
    ensures Join([[c] + parts[0]] + parts[1..]) == [c] + Join(parts)
    decreases |parts|
  {
    var all := [[c] + parts[0]] + parts[1..];
    if |parts| == 1 {
    } else {
      var init := parts[..|parts| - 1];
      assert all[..|all| - 1] == [[c] + init[0]] + init[1..];
      JoinConsFirst(c, init);
      assert all[|all| - 1] == parts[|parts| - 1];
    }
  }

  /** A piece without spaces splits to itself. */
  lemma {:induction false} SplitNoSpace(w: string)
    requires ' ' !in w
    ensures Split(w) == [w]
    decreases |w|
  {
    if w != [] {
      SplitNoSpace(w[1..]);
      assert [w[0]] + w[1..] == w;
    }
  }

  /** Splitting a piece followed by a space and more text. */
  lemma {:induction false} SplitAfterWord(w: string, rest: string)
    requires ' ' !in w
    ensures Split(w + " " + rest) == [w] + Split(rest)
    decreases |w|
  {
    var t := w + " " + rest;
    if w == [] {
      assert t == " " + rest && t[1..] == rest;
    } else {
      assert t[0] == w[0] && t[1..] == w[1..] + " " + rest;
      SplitAfterWord(w[1..], rest);
      assert [w[0]] + w[1..] == w;
    }
  }

  /** Joining space-free pieces and splitting again gives the pieces back. */
  lemma {:induction false} SplitJoin(parts: seq<string>)
    requires |parts| >= 1
    requires forall i :: 0 <= i < |parts| ==> ' ' !in parts[i]
    ensures Split(Join(parts)) == parts
    decreases |parts|
  {
    if |parts| == 1 {
      SplitNoSpace(parts[0]);
    } else {
      var tail := parts[1..];
      assert parts == [parts[0]] + tail;
      JoinPrepend(parts[0], tail);
      SplitAfterWord(parts[0], Join(tail));
      SplitJoin(tail);
    }
  }

  /** `PrefixJoin` is `Join` with one leading space. */
  lemma {:induction false} PrefixJoinIsJoin(parts: seq<string>)
    requires |parts| >= 1
    ensures PrefixJoin(parts) == " " + Join(parts)
    decreases |parts|
  {
    if |parts| == 1 {
      assert parts[..0] == [];
    } else {
      PrefixJoinIsJoin(parts[..|parts| - 1]);
    }
  }

  /** Reverses a sequence. */
  function Reverse<T>(s: seq<T>): (r: seq<T>)
    ensures |r| == |s|
    ensures forall i :: 0 <= i < |s| ==> r[i] == s[|s| - 1 - i]
  {
    if s == [] then [] else [s[|s| - 1]] + Reverse(s[..|s| - 1])
  }

  /** Reversing twice gives the sequence back. */
  lemma ReverseReverse<T>(s: seq<T>)
    ensures Reverse(Reverse(s)) == s
  {
  }

  /** A string that neither starts nor ends with white space is its own trim. */
  lemma TrimUnchanged(s: string)
    requires s != [] && !IsWhiteSpace(s[0]) && !IsWhiteSpace(s[|s| - 1])
    ensures Trim(s) == s
  {
  }

  /** ASCII `ToLowerInvariant` of one character. */
  function ToLowerChar(c: char): (r: char)
    ensures !('A' <= r <= 'Z')
  {
    if 'A' <= c <= 'Z' then (c as int + 32) as char else c
  }

  /** `ToLowerInvariant` on the ASCII range. */
  function ToLower(s: string): (r: string)
    ensures |r| == |s|
    ensures forall i :: 0 <= i < |s| ==> r[i] == ToLowerChar(s[i])
  {
    if s == [] then [] else [ToLowerChar(s[0])] + ToLower(s[1..])
  }

  /** `string.Equals(a, b, StringComparison.OrdinalIgnoreCase)` on the ASCII range. */
  predicate EqualsIgnoreCase(a: string, b: string) {
    ToLower(a) == ToLower(b)
  }

  /** Lowering twice is lowering once. */
  lemma ToLowerIdempotent(s: string)
    ensures ToLower(ToLower(s)) == ToLower(s)
  {
  }
}
