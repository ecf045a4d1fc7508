/** The handful of Python `str` operations the monitor is built from: `strip()`,
    `split(sep)` with a one-character separator, `replace(pat, "")`, the
    substring test `sub in s` and `splitlines()`. Each is defined the way
    CPython computes it, and its contract says what the result means. */
module Text {

  /** `c.isspace()` in Python 3: the ASCII white space characters, the four
      information separators and the Unicode space separators. */
  predicate IsSpace(c: char) {
    || c == ' '
    || '\t' <= c <= '\r'
    || '\U{1C}' <= c <= '\U{1F}'
    || c == '\U{85}' || c == '\U{A0}' || c == '\U{1680}'
    || '\U{2000}' <= c <= '\U{200A}'
    || c == '\U{2028}' || c == '\U{2029}' || c == '\U{202F}' || c == '\U{205F}' || c == '\U{3000}'
  }

  /** The characters at which `str.splitlines()` ends a line. */
  predicate IsLineBreak(c: char) {
    || '\n' <= c <= '\r'
    || '\U{1C}' <= c <= '\U{1E}'
    || c == '\U{85}' || c == '\U{2028}' || c == '\U{2029}'
  }

  predicate AllSpace(s: string) {
    forall i :: 0 <= i < |s| ==> IsSpace(s[i])
  }

  predicate NoLineBreak(s: string) {
    forall i :: 0 <= i < |s| ==> !IsLineBreak(s[i])
  }

  /** `s.lstrip()`: drops the white space at the front and nothing else. */
  function StripLeft(s: string): (r: string)
    ensures |r| <= |s| && r == s[|s| - |r|..]
    ensures AllSpace(s[..|s| - |r|])
    ensures r == [] || !IsSpace(r[0])
  {
    if s != [] && IsSpace(s[0]) then
      var t := s[1..];
      var r := StripLeft(t);
      var k := |t| - |r|;
      assert t[k..] == s[k + 1..];
      assert forall i :: 0 <= i < k ==> s[..k + 1][i + 1] == t[..k][i];
      r
    else s
  }

  /** `s.rstrip()`: drops the white space at the back and nothing else. */
  function StripRight(s: string): (r: string)
    ensures |r| <= |s| && r == s[..|r|]
    ensures AllSpace(s[|r|..])
    ensures r == [] || !IsSpace(r[|r| - 1])
  {
    if s != [] && IsSpace(s[|s| - 1]) then
      var r := StripRight(s[..|s| - 1]);
      assert s[..|s| - 1][..|r|] == s[..|r|];
      assert s[|r|..] == s[..|s| - 1][|r|..] + [s[|s| - 1]];
      r
    else s
  }

  /** `s.strip()`: what is left of `s` after removing white space from both
      ends. It neither starts nor ends with white space, its characters are
      drawn from `s`, and `s` is it with white space around it. */
  function Strip(s: string): (r: string)
    ensures r == [] || (!IsSpace(r[0]) && !IsSpace(r[|r| - 1]))
    ensures forall c :: c in r ==> c in s
  {
    StripRight(StripLeft(s))
  }

  /** Every text is its strip surrounded by white space. */
  lemma StripSurrounded(s: string) returns (w1: string, w2: string)
    ensures AllSpace(w1) && AllSpace(w2)
    ensures s == w1 + Strip(s) + w2
  {
    var l := StripLeft(s);
    var r := StripRight(l);
    w1 := s[..|s| - |l|];
    w2 := l[|r|..];
    Glue(s, |s| - |l|);
    Glue(l, |r|);
    Regroup(w1, r, w2);
  }

  lemma Glue(s: string, k: nat)
    requires k <= |s|
    ensures s == s[..k] + s[k..]
  {
  }

  lemma Regroup(a: string, b: string, c: string)
    ensures a + (b + c) == a + b + c
  {
  }

  lemma {:induction false} StripLeftPadded(w: string, t: string)
    requires AllSpace(w)
    requires t == [] || !IsSpace(t[0])
    ensures StripLeft(w + t) == t
    decreases |w|
  {
    if w != [] {
      assert (w + t)[1..] == w[1..] + t;
      StripLeftPadded(w[1..], t);
    } else {
      assert w + t == t;
    }
  }

  lemma {:induction false} StripRightPadded(t: string, w: string)
    requires AllSpace(w)
    requires t == [] || !IsSpace(t[|t| - 1])
    ensures StripRight(t + w) == t
    decreases |w|
  {
    if w != [] {
      assert (t + w)[..|t + w| - 1] == t + w[..|w| - 1];
      StripRightPadded(t, w[..|w| - 1]);
    } else {
      assert t + w == t;
    }
  }

  /** Stripping a token padded on both sides with white space gives the token back. */
  lemma StripPadded(w1: string, t: string, w2: string)
    requires AllSpace(w1) && AllSpace(w2)
    requires t != [] && !IsSpace(t[0]) && !IsSpace(t[|t| - 1])
    ensures Strip(w1 + t + w2) == t
  {
    assert w1 + t + w2 == w1 + (t + w2);
    StripLeftPadded(w1, t + w2);
    StripRightPadded(t, w2);
  }

  /** A text that neither starts nor ends with white space is its own strip. */
  lemma StripUnpadded(s: string)
    requires s != [] && !IsSpace(s[0]) && !IsSpace(s[|s| - 1])
    ensures Strip(s) == s
  {
    assert s == "" + s + "";
    StripPadded("", s, "");
  }

  /** The index of the first `x` in `s`, as `s.index(x)`. */
  function IndexOf<T(==)>(s: seq<T>, x: T): (k: nat)
    requires x in s
    ensures k < |s| && s[k] == x && x !in s[..k]
  {
    if s[0] == x then 0
    else
      var k := 1 + IndexOf(s[1..], x);
      assert s[..k] == [s[0]] + s[1..][..k - 1];
      k
  }

  /** Past a head that is not `x`, the first `x` is one further on than in the tail. */
  lemma IndexOfInTail<T>(s: seq<T>, x: T)
    requires x in s && s[0] != x
    ensures x in s[1..] && IndexOf(s, x) == 1 + IndexOf(s[1..], x)
  {
    assert s == [s[0]] + s[1..];
  }

  /** `sep.join(parts)`, the inverse of `Split`. */
  function Join(parts: seq<string>, sep: char): string {
    if parts == [] then []
    else if |parts| == 1 then parts[0]
    else parts[0] + [sep] + Join(parts[1..], sep)
  }

  /** `s.split(sep)` for a one-character separator: at least one piece, no
      piece holds the separator, joining the pieces with it gives `s` back,
      and there is a second piece exactly when `s` holds the separator. */
  function Split(s: string, sep: char): (r: seq<string>)
    ensures |r| >= 1
    ensures forall i :: 0 <= i < |r| ==> sep !in r[i]
    ensures Join(r, sep) == s
    ensures |r| == 1 <==> sep !in s
    decreases |s|
  {
    if sep in s then
      var k := IndexOf(s, sep);
      assert s == s[..k] + [sep] + s[k + 1..];
      [s[..k]] + Split(s[k + 1..], sep)
    else [s]
  }

  /** A text with no separator in its head splits into that head and the split of the rest. */
  lemma SplitHead(a: string, sep: char, b: string)
    requires sep !in a
    ensures Split(a + [sep] + b, sep) == [a] + Split(b, sep)
  {
    var s := a + [sep] + b;
    var k := IndexOf(s, sep);
    assert s[|a|] == sep;
    assert k == |a|;
    assert s[..k] == a;
    assert s[k + 1..] == b;
  }

  /** Python's `sub in s`. The empty text is in every text. */
  predicate Contains(s: string, sub: string) {
    exists i :: 0 <= i <= |s| - |sub| && OccursAt(s, sub, i)
  }

  predicate OccursAt(s: string, sub: string, i: int)
    requires 0 <= i <= |s| - |sub|
  {
    s[i..i + |sub|] == sub
  }

  /** The empty text occurs in every text. */
  lemma ContainsEmpty(s: string)
    ensures Contains(s, [])
  {
    assert OccursAt(s, [], 0);
  }

  /** A text occurs in any text built around it. */
  lemma ContainsInfix(a: string, sub: string, b: string)
    ensures Contains(a + sub + b, sub)
  {
    var s := a + sub + b;
    assert s[|a|..|a| + |sub|] == sub;
    assert OccursAt(s, sub, |a|);
  }

  /** `s.replace(pat, "")`: scans left to right and deletes every occurrence
      of `pat` that does not overlap an earlier one; the result is not
      scanned again. What remains is drawn from the characters of `s`, a text
      that cannot start the pattern is left alone, and a one-character
      pattern leaves none of itself. */
  function Remove(s: string, pat: string): (r: string)
    requires pat != []
    ensures forall c :: c in r ==> c in s
    ensures |pat| == 1 ==> pat[0] !in r
    ensures pat[0] !in s ==> r == s
    decreases |s|
  {
    if |s| < |pat| then s
    else if s[..|pat|] == pat then
      assert s == s[..|pat|] + s[|pat|..];
      Remove(s[|pat|..], pat)
    else
      assert s == [s[0]] + s[1..];
      [s[0]] + Remove(s[1..], pat)
  }

  /** Text that cannot start an occurrence of `pat` passes through `Remove` unchanged. */
  lemma {:induction false} RemoveSkip(a: string, b: string, pat: string)
    requires pat != [] && pat[0] !in a
    ensures Remove(a + b, pat) == a + Remove(b, pat)
    decreases |a|
  {
    if a != [] {
      var s := a + b;
      assert s[0] == a[0] != pat[0];
      assert s[1..] == a[1..] + b;
      if |s| >= |pat| {
        assert s[..|pat|] != pat by { assert s[..|pat|][0] == s[0]; }
      }
      assert Remove(s, pat) == [s[0]] + Remove(s[1..], pat);
      RemoveSkip(a[1..], b, pat);
      assert a == [a[0]] + a[1..];
    } else {
      assert a + b == b;
    }
  }

  /** Removing a pattern from itself leaves nothing. */
  lemma RemoveWhole(pat: string)
    requires pat != []
    ensures Remove(pat, pat) == []
  {
    assert pat[..|pat|] == pat;
    assert pat[|pat|..] == [];
  }

  /** Where the line starting at the front of `s` ends: the index of the first
      line break, or `|s|` when there is none. */
  function LineEnd(s: string): (k: nat)
    ensures k <= |s| && NoLineBreak(s[..k])
    ensures k < |s| ==> IsLineBreak(s[k])
  {
    if s == [] || IsLineBreak(s[0]) then 0
    else
      var k := 1 + LineEnd(s[1..]);
      assert s[..k] == [s[0]] + s[1..][..k - 1];
      k
  }

  /** `s.splitlines()`: the lines of `s` without their line breaks, where
      "\r\n" is one break and a final break does not start an empty line. */
  function SplitLines(s: string): (r: seq<string>)
    ensures forall i :: 0 <= i < |r| ==> NoLineBreak(r[i])
    ensures r == [] <==> s == []
    ensures NoLineBreak(s) && s != [] ==> r == [s]
    decreases |s|
  {
    if s == [] then []
    else
      var k := LineEnd(s);
      if k == |s| then
        assert s[..k] == s;
        [s]
      else
        var next := if s[k] == '\r' && k + 1 < |s| && s[k + 1] == '\n' then k + 2 else k + 1;
        [s[..k]] + SplitLines(s[next..])
  }

  /** The first line of a text ends where its first line break is. */
  lemma LineEndAt(a: string, rest: string)
    requires NoLineBreak(a) && rest != [] && IsLineBreak(rest[0])
    ensures LineEnd(a + rest) == |a|
  {
    var s := a + rest;
    var k := LineEnd(s);
    assert s[|a|] == rest[0];
    assert forall i :: 0 <= i < |a| ==> s[i] == a[i];
  }

  /** A line followed by a single line break splits off as the first line;
      a carriage return counts alone only when no newline follows it. */
  lemma SplitLinesHeadAny(a: string, c: char, b: string)
    requires NoLineBreak(a) && IsLineBreak(c)
    requires !(c == '\r' && b != [] && b[0] == '\n')
    ensures SplitLines(a + [c] + b) == [a] + SplitLines(b)
  {
    var s := a + [c] + b;
    assert s == a + ([c] + b);
    LineEndAt(a, [c] + b);
    assert s[|a|] == c;
    assert s[..|a|] == a;
    assert s[|a| + 1..] == b;
  }

  /** A line followed by "\r\n" splits off as the first line: the pair is one break. */
  lemma SplitLinesHeadCrLf(a: string, b: string)
    requires NoLineBreak(a)
    ensures SplitLines(a + "\r\n" + b) == [a] + SplitLines(b)
  {
    var rest := "\r\n" + b;
    var s := a + rest;
    assert a + "\r\n" + b == s;
    assert rest[0] == '\r' && rest[1] == '\n' && rest[2..] == b;
    LineEndAt(a, rest);
    assert s[..|a|] == a;
    assert s[|a|..] == rest;
  }

  /** A line followed by a newline splits off as the first line. */
  lemma SplitLinesHead(a: string, b: string)
    requires NoLineBreak(a)
    ensures SplitLines(a + "\n" + b) == [a] + SplitLines(b)
  {
    SplitLinesHeadAny(a, '\n', b);
  }
}
