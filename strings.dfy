/**
  The string primitives the scripts rely on: `str.strip`, `str.lower`,
  `str.splitlines`, `in` on strings, `"sep".join(...)`, slicing and the
  ordering of `>` on two strings.
 */
module StringUtil {

  /** Python's `str.isspace` (and the `\s` of a `str` regex): the ASCII
      whitespace and separator controls plus the Unicode space characters. */
  predicate IsSpace(c: char) {
    || '\t' <= c <= '\r'
    || '\U{1C}' <= c <= '\U{1F}'
    || c == ' ' || c == '\U{85}' || c == '\U{A0}' || c == '\U{1680}'
    || '\U{2000}' <= c <= '\U{200A}'
    || c == '\U{2028}' || c == '\U{2029}' || c == '\U{202F}' || c == '\U{205F}' || c == '\U{3000}'
  }

  /** `\d`, restricted to ASCII. */
  predicate IsDigit(c: char) {
    '0' <= c <= '9'
  }

  /** `\w`, restricted to ASCII. */
  predicate IsWordChar(c: char) {
    'a' <= c <= 'z' || 'A' <= c <= 'Z' || IsDigit(c) || c == '_'
  }

  /** `str.lower` on one character, restricted to ASCII. */
  function LowerChar(c: char): char {
    if 'A' <= c <= 'Z' then (c as int + 32) as char else c
  }

  /** `str.lower()`, restricted to ASCII. */
  function Lower(s: string): (r: string)
    ensures |r| == |s|
  {
    if |s| == 0 then [] else [LowerChar(s[0])] + Lower(s[1..])
  }

  lemma {:induction false} LowerAt(s: string, i: nat)
    requires i < |s|
    ensures Lower(s)[i] == LowerChar(s[i])
  {
    if i > 0 {
      LowerAt(s[1..], i - 1);
    }
  }

  /** `str.strip()`: `s` without its leading and trailing whitespace. */
  function Strip(s: string): (r: string)
    ensures |r| <= |s|
  {
    if |s| > 0 && IsSpace(s[0]) then Strip(s[1..])
    else if |s| > 0 && IsSpace(s[|s| - 1]) then Strip(s[..|s| - 1])
    else s
  }

  /** What `Strip` returns: the slice `s[lo..hi]`, with no whitespace at
      either end, and only whitespace cut off around it. */
  lemma {:induction false} StripSlice(s: string) returns (lo: nat, hi: nat)
    ensures lo <= hi <= |s| && Strip(s) == s[lo..hi]
    ensures forall i | 0 <= i < lo :: IsSpace(s[i])
    ensures forall i | hi <= i < |s| :: IsSpace(s[i])
    ensures lo < hi ==> !IsSpace(s[lo]) && !IsSpace(s[hi - 1])
    decreases |s|, 1
  {
    if |s| > 0 && IsSpace(s[0]) {
      lo, hi := StripSliceFront(s);
    } else if |s| > 0 && IsSpace(s[|s| - 1]) {
      var t := s[..|s| - 1];
      lo, hi := StripSlice(t);
      assert t[lo..hi] == s[lo..hi];
    } else {
      lo, hi := 0, |s|;
    }
  }

  lemma {:induction false} StripSliceFront(s: string) returns (lo: nat, hi: nat)
    requires |s| > 0 && IsSpace(s[0])
    ensures lo <= hi <= |s| && Strip(s) == s[lo..hi]
    ensures forall i | 0 <= i < lo :: IsSpace(s[i])
    ensures forall i | hi <= i < |s| :: IsSpace(s[i])
    ensures lo < hi ==> !IsSpace(s[lo]) && !IsSpace(s[hi - 1])
    decreases |s|, 0
  {
    var t := s[1..];
    var lo', hi' := StripSlice(t);
    lo, hi := lo' + 1, hi' + 1;
    assert t[lo'..hi'] == s[lo..hi];
    forall i | 0 <= i < lo
      ensures IsSpace(s[i])
    {
      if i > 0 {
        assert s[i] == t[i - 1];
      }
    }
    forall i | hi <= i < |s|
      ensures IsSpace(s[i])
    {
      assert s[i] == t[i - 1];
    }
  }

  /** A stripped string has no whitespace at either end. */
  lemma StripEnds(s: string)
    ensures var r := Strip(s); |r| > 0 ==> !IsSpace(r[0]) && !IsSpace(r[|r| - 1])
  {
    var lo, hi := StripSlice(s);
  }

  /** A string with no whitespace at either end is its own stripped form. */
  lemma StripNoSpaceEnds(s: string)
    requires |s| > 0 ==> !IsSpace(s[0]) && !IsSpace(s[|s| - 1])
    ensures Strip(s) == s
  {
  }

  /** Lower-casing changes no whitespace, so it commutes with stripping. */
  lemma {:induction false} StripLower(s: string)
    ensures Strip(Lower(s)) == Lower(Strip(s))
  {
    var l := Lower(s);
    if |s| > 0 {
      LowerAt(s, 0);
      LowerAt(s, |s| - 1);
      assert Lower(s[1..]) == l[1..];
      LowerPrefix(s, |s| - 1);
    }
    if |s| > 0 && IsSpace(s[0]) {
      StripLower(s[1..]);
    } else if |s| > 0 && IsSpace(s[|s| - 1]) {
      StripLower(s[..|s| - 1]);
    }
  }

  lemma {:induction false} LowerPrefix(s: string, n: nat)
    requires n <= |s|
    ensures Lower(s[..n]) == Lower(s)[..n]
  {
    if n > 0 {
      assert s[..n][1..] == s[1..][..n - 1];
      LowerPrefix(s[1..], n - 1);
    }
  }

  /** `sub in s`. */
  predicate Contains(s: string, sub: string) {
    StartsWith(s, sub) || (|s| > 0 && Contains(s[1..], sub))
  }

  predicate StartsWith(s: string, prefix: string) {
    |prefix| <= |s| && s[..|prefix|] == prefix
  }

  /** `s[:n]`. */
  function Take<T>(s: seq<T>, n: nat): (r: seq<T>)
    ensures |r| <= n && |r| <= |s|
    ensures |s| <= n ==> r == s
    ensures |s| > n ==> |r| == n
    ensures r == s[..|r|]
  {
    if |s| <= n then s else s[..n]
  }

  /** `sep.join(xs)`. */
  function Join(xs: seq<string>, sep: string): string {
    if |xs| == 0 then ""
    else if |xs| == 1 then xs[0]
    else xs[0] + sep + Join(xs[1..], sep)
  }

  /** Python's `a < b` on strings: lexicographic by code point, and a proper
      prefix is smaller. (Dafny's own `<` on sequences means proper prefix.) */
  predicate LexLess(a: string, b: string) {
    if |b| == 0 then false
    else if |a| == 0 then true
    else if a[0] != b[0] then a[0] < b[0]
    else LexLess(a[1..], b[1..])
  }

  lemma {:induction false} LexLessIrreflexive(a: string)
    ensures !LexLess(a, a)
  {
    if |a| > 0 {
      LexLessIrreflexive(a[1..]);
    }
  }

  lemma {:induction false} LexLessAsymmetric(a: string, b: string)
    ensures LexLess(a, b) ==> !LexLess(b, a)
  {
    if |a| > 0 && |b| > 0 && a[0] == b[0] {
      LexLessAsymmetric(a[1..], b[1..]);
    }
  }

  lemma {:induction false} LexLessTransitive(a: string, b: string, c: string)
    requires LexLess(a, b) && LexLess(b, c)
    ensures LexLess(a, c)
  {
    if |a| > 0 && a[0] == b[0] && b[0] == c[0] {
      LexLessTransitive(a[1..], b[1..], c[1..]);
    }
  }

  lemma {:induction false} LexLessTotal(a: string, b: string)
    requires a != b
    ensures LexLess(a, b) || LexLess(b, a)
  {
    if |a| > 0 && |b| > 0 && a[0] == b[0] {
      assert a == [a[0]] + a[1..] && b == [b[0]] + b[1..];
      LexLessTotal(a[1..], b[1..]);
    }
  }

  /** The line boundaries of `str.splitlines`. */
  predicate IsLineBreak(c: char) {
    || '\n' <= c <= '\r'
    || '\U{1C}' <= c <= '\U{1E}'
    || c == '\U{85}' || c == '\U{2028}' || c == '\U{2029}'
  }

  /** Index of the first line boundary in `s`, or `|s|`. */
  function FirstBreak(s: string): (i: nat)
    ensures i <= |s|
    ensures forall k | 0 <= k < i :: !IsLineBreak(s[k])
    ensures i < |s| ==> IsLineBreak(s[i])
  {
    if |s| == 0 || IsLineBreak(s[0]) then 0 else 1 + FirstBreak(s[1..])
  }

  /** `str.splitlines()`: `\r\n` counts as one boundary, and a boundary at the
      very end does not start an empty last line. */
  function SplitLines(s: string): (lines: seq<string>)
    ensures |lines| == 0 <==> |s| == 0
    decreases |s|
  {
    if |s| == 0 then []
    else
      var i := FirstBreak(s);
      if i == |s| then [s]
      else
        var next := if s[i] == '\r' && i + 1 < |s| && s[i + 1] == '\n' then i + 2 else i + 1;
        [s[..i]] + SplitLines(s[next..])
  }

  /** No line of `str.splitlines()` contains a line boundary. */
  lemma {:induction false} SplitLinesNoBreaks(s: string)
    ensures forall l | l in SplitLines(s) :: forall k | 0 <= k < |l| :: !IsLineBreak(l[k])
    decreases |s|
  {
    if |s| > 0 {
      var i := FirstBreak(s);
      if i < |s| {
        var next := if s[i] == '\r' && i + 1 < |s| && s[i + 1] == '\n' then i + 2 else i + 1;
        SplitLinesNoBreaks(s[next..]);
      }
    }
  }

  lemma {:induction false} FirstBreakAt(s: string, i: nat)
    requires i <= |s|
    requires forall k | 0 <= k < i :: !IsLineBreak(s[k])
    requires i < |s| ==> IsLineBreak(s[i])
    ensures FirstBreak(s) == i
  {
    if i > 0 {
      FirstBreakAt(s[1..], i - 1);
    }
  }

  /** A line holding no line boundary. */
  predicate IsLine(l: string) {
    forall k | 0 <= k < |l| :: !IsLineBreak(l[k])
  }

  /** Joining lines with `\n` and splitting the result gives the lines back,
      provided none of them holds a boundary and the last is not empty (a
      trailing empty line would vanish, as `str.splitlines` drops it). */
  lemma {:induction false} SplitLinesJoin(xs: seq<string>)
    requires |xs| > 0 && xs[|xs| - 1] != []
    requires forall j | 0 <= j < |xs| :: IsLine(xs[j])
    ensures SplitLines(Join(xs, "\n")) == xs
  {
    if |xs| == 1 {
      FirstBreakAt(xs[0], |xs[0]|);
    } else {
      SplitLinesJoin(xs[1..]);
      SplitLinesCons(xs[0], Join(xs[1..], "\n"));
    }
  }

  /** A line followed by `\n` splits off as the first line. */
  lemma SplitLinesCons(a: string, t: string)
    requires IsLine(a)
    ensures SplitLines(a + "\n" + t) == [a] + SplitLines(t)
  {
    var s := a + "\n" + t;
    FirstBreakAt(s, |a|);
    assert s[..|a|] == a;
    assert s[|a| + 1..] == t;
  }

  /** Joining a non-empty tail after a head puts one separator between. */
  lemma JoinCons(x: string, ys: seq<string>, sep: string)
    requires |ys| > 0
    ensures Join([x] + ys, sep) == x + sep + Join(ys, sep)
  {
    assert ([x] + ys)[1..] == ys;
  }

  /** Stripping leaves nothing exactly when every character is whitespace. */
  lemma StripEmpty(s: string)
    ensures Strip(s) == [] <==> forall k | 0 <= k < |s| :: IsSpace(s[k])
  {
    var lo, hi := StripSlice(s);
    if lo == hi {
      forall k | 0 <= k < |s|
        ensures IsSpace(s[k])
      {
        if k >= lo {
          assert k >= hi;
        }
      }
    }
  }
}

