/**
  The fragment of Python's `re` that the heading table uses, matched the way
  `re.match(p, s, flags=re.IGNORECASE)` does: anchored at the start of `s`,
  case-insensitive (ASCII letters only), succeeding when ANY backtracking
  path reaches the end of the pattern. Each atom yields every position where
  matching may continue; the pattern matches when some chain of such
  positions gets through all atoms.
 */
module Regex {
  import opened StringUtil

  /** `\s`, `\w`, `\d`, or one literal character. */
  datatype CharClass = Space | Word | Digit | Char(c: char)

  datatype Atom =
    | Text(lit: string)                          // a literal, such as `Breaking`
    | Optional(lit: string)                      // `(lit)?`, such as `s?`, `(es)?`, `:?`
    | Repeat(cls: CharClass, atLeastOne: bool)   // `cls*` or `cls+`
    | Boundary                                   // `\b`

  type Pattern = seq<Atom>

  predicate SameLetter(a: char, b: char) {
    LowerChar(a) == LowerChar(b)
  }

  predicate InClass(cls: CharClass, c: char) {
    match cls
    case Space => IsSpace(c)
    case Word => IsWordChar(c)
    case Digit => IsDigit(c)
    case Char(x) => SameLetter(x, c)
  }

  predicate TextAt(lit: string, s: string, p: nat) {
    p + |lit| <= |s| && forall k | 0 <= k < |lit| :: SameLetter(lit[k], s[p + k])
  }

  /** Length of the longest run of `cls` characters starting at `p`. */
  function RunLength(cls: CharClass, s: string, p: nat): (n: nat)
    requires p <= |s|
    ensures p + n <= |s|
    decreases |s| - p
  {
    if p == |s| || !InClass(cls, s[p]) then 0 else 1 + RunLength(cls, s, p + 1)
  }

  /** The run is made of `cls` characters and is followed by none. */
  lemma {:induction false} RunLengthRun(cls: CharClass, s: string, p: nat)
    requires p <= |s|
    ensures forall k | p <= k < p + RunLength(cls, s, p) :: InClass(cls, s[k])
    ensures p + RunLength(cls, s, p) < |s| ==> !InClass(cls, s[p + RunLength(cls, s, p)])
    decreases |s| - p
  {
    if p < |s| && InClass(cls, s[p]) {
      RunLengthRun(cls, s, p + 1);
    }
  }

  /** Any run with the two properties of `RunLength` is that run. */
  lemma {:induction false} RunLengthUnique(cls: CharClass, s: string, p: nat, m: nat)
    requires p + m <= |s|
    requires forall k | p <= k < p + m :: InClass(cls, s[k])
    requires p + m < |s| ==> !InClass(cls, s[p + m])
    ensures RunLength(cls, s, p) == m
    decreases m
  {
    if m > 0 {
      RunLengthUnique(cls, s, p + 1, m - 1);
    }
  }

  predicate AtBoundary(s: string, p: nat)
    requires p <= |s|
  {
    (p > 0 && IsWordChar(s[p - 1])) != (p < |s| && IsWordChar(s[p]))
  }

  /** Every position at which matching may continue after `a` matched at `p`,
      in the order backtracking tries them (greedy first). */
  function Ends(a: Atom, s: string, p: nat): (ends: seq<nat>)
    requires p <= |s|
    ensures forall k | 0 <= k < |ends| :: p <= ends[k] <= |s|
  {
    match a
    case Text(lit) => if TextAt(lit, s, p) then [p + |lit|] else []
    case Optional(lit) => if TextAt(lit, s, p) then [p + |lit|, p] else [p]
    case Repeat(cls, plus) =>
      var n := RunLength(cls, s, p);
      var least := if plus then 1 else 0;
      if n < least then [] else seq(n - least + 1, k requires 0 <= k <= n - least => p + n - k)
    case Boundary => if AtBoundary(s, p) then [p] else []
  }

  predicate MatchFrom(pat: Pattern, s: string, p: nat)
    requires p <= |s|
    decreases |pat|
  {
    if |pat| == 0 then true
    else
      var ends := Ends(pat[0], s, p);
      exists k | 0 <= k < |ends| :: MatchFrom(pat[1..], s, ends[k])
  }

  /** `re.match(pat, s, flags=re.IGNORECASE) is not None`. */
  predicate Matches(pat: Pattern, s: string) {
    MatchFrom(pat, s, 0)
  }

  /** A pattern that begins with a literal can only match where that literal
      stands. */
  lemma MatchStartsWithText(pat: Pattern, s: string, p: nat)
    requires p <= |s| && |pat| > 0 && pat[0].Text?
    requires MatchFrom(pat, s, p)
    ensures TextAt(pat[0].lit, s, p)
  {
  }

  /** A literal matches exactly its own text (up to case) and matching goes
      on right after it. */
  lemma MatchText(lit: string, rest: Pattern, s: string, p: nat)
    requires p <= |s|
    ensures MatchFrom([Text(lit)] + rest, s, p) <==> TextAt(lit, s, p) && MatchFrom(rest, s, p + |lit|)
  {
    var pat := [Text(lit)] + rest;
    assert pat[0] == Text(lit) && pat[1..] == rest;
    if TextAt(lit, s, p) {
      var ends := Ends(pat[0], s, p);
      assert ends == [p + |lit|];
      assert MatchFrom(pat, s, p) <==> MatchFrom(pat[1..], s, ends[0]);
    } else {
      assert Ends(pat[0], s, p) == [];
    }
  }

  /** Every literal of a pattern stands somewhere in a string the pattern
      matches, at or after the position where matching started. */
  lemma {:induction false} MatchHasText(pat: Pattern, s: string, p: nat, i: nat)
    requires p <= |s| && i < |pat| && pat[i].Text?
    requires MatchFrom(pat, s, p)
    ensures exists q | p <= q <= |s| :: TextAt(pat[i].lit, s, q)
    decreases i
  {
    var ends := Ends(pat[0], s, p);
    var k :| 0 <= k < |ends| && MatchFrom(pat[1..], s, ends[k]);
    if i == 0 {
      assert TextAt(pat[0].lit, s, p);
    } else {
      MatchHasText(pat[1..], s, ends[k], i - 1);
      assert pat[1..][i - 1] == pat[i];
    }
  }

  /** A pattern that begins with `c+` can only match where a `c` (up to case)
      stands. */
  lemma MatchStartsWithPlus(pat: Pattern, s: string, p: nat)
    requires p <= |s| && |pat| > 0 && pat[0].Repeat? && pat[0].cls.Char? && pat[0].atLeastOne
    requires MatchFrom(pat, s, p)
    ensures p < |s| && SameLetter(pat[0].cls.c, s[p])
  {
    var n := RunLength(pat[0].cls, s, p);
    RunLengthRun(pat[0].cls, s, p);
    assert n >= 1;
  }
}
