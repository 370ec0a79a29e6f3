/**
  `parse_semver` and `semver_gt`: the only test deciding whether a release
  tag is newer than the last one announced. A tag is read as
  `^v?(\d+)(?:\.(\d+))?(?:\.(\d+))?(.*)$` on its stripped form; the triple is
  compared as integers, then an empty suffix beats a non-empty one, then
  suffixes are compared as strings, code point by code point.
 */
module Semver {
  import opened StringUtil
  import opened Regex

  /** `(major, minor, patch, rest)`. */
  datatype Version = Version(major: nat, minor: nat, patch: nat, rest: string)

  // ---------------------------------------------------------------------------
  // Digits

  function DigitValue(c: char): nat
    requires IsDigit(c)
  {
    c as int - '0' as int
  }

  /** `int(ds)` for a run of ASCII digits. */
  function DigitsValue(ds: string): nat
    requires forall k | 0 <= k < |ds| :: IsDigit(ds[k])
  {
    if |ds| == 0 then 0 else 10 * DigitsValue(ds[..|ds| - 1]) + DigitValue(ds[|ds| - 1])
  }

  /** `str(n)`. */
  function NatDigits(n: nat): (ds: string)
    ensures |ds| > 0
    ensures forall k | 0 <= k < |ds| :: IsDigit(ds[k])
  {
    if n < 10 then [('0' as int + n) as char] else NatDigits(n / 10) + [('0' as int + n % 10) as char]
  }

  /** `int(str(n)) == n`. */
  lemma {:induction false} DigitsValueOfNatDigits(n: nat)
    ensures DigitsValue(NatDigits(n)) == n
  {
    if n >= 10 {
      var ds := NatDigits(n);
      assert ds[..|ds| - 1] == NatDigits(n / 10);
      DigitsValueOfNatDigits(n / 10);
    }
  }

  // ---------------------------------------------------------------------------
  // Parsing

  /** The length of the digit run at `p`. */
  function DigitRun(t: string, p: nat): nat
    requires p <= |t|
    ensures p + DigitRun(t, p) <= |t|
  {
    RunLength(Digit, t, p)
  }

  /** The value of the digit run of length `n` at `p`. */
  function RunValue(t: string, p: nat, n: nat): nat
    requires p + n <= |t|
    requires n == RunLength(Digit, t, p)
  {
    RunLengthRun(Digit, t, p);
    DigitsValue(t[p..p + n])
  }

  /** `(?:\.(\d+))?` at `p`: the group's value (0 when it is absent) and the
      position after it. */
  function DottedPart(t: string, p: nat): (r: (nat, nat))
    requires p <= |t|
    ensures p <= r.1 <= |t|
  {
    if p < |t| && t[p] == '.' && DigitRun(t, p + 1) > 0 then
      var n := DigitRun(t, p + 1);
      (RunValue(t, p + 1, n), p + 1 + n)
    else (0, p)
  }

  /** Where the digits of the major part start: after an optional `v`. */
  function MajorStart(t: string): nat {
    if |t| > 0 && t[0] == 'v' then 1 else 0
  }

  /** The stripped tag matches the pattern: a major digit run stands after
      the optional `v`, and `.` can reach the end (no `\n` anywhere). */
  predicate Parses(t: string) {
    MajorStart(t) <= |t| && DigitRun(t, MajorStart(t)) > 0 && '\n' !in t
  }

  /** `parse_semver(tag)`. */
  function ParseSemver(tag: string): Version {
    var t := Strip(tag);
    if !Parses(t) then Version(0, 0, 0, tag)
    else
      var p0 := MajorStart(t);
      var n0 := DigitRun(t, p0);
      var (minor, p2) := DottedPart(t, p0 + n0);
      var (patch, p3) := DottedPart(t, p2);
      Version(RunValue(t, p0, n0), minor, patch, Strip(t[p3..]))
  }

  /** When the stripped tag does not start with `[v]digit`, or cannot be
      matched to its end, the result is zero with the untouched tag. */
  lemma ParseFallback(tag: string)
    ensures ParseSemver(tag) == Version(0, 0, 0, tag) <==> !Parses(Strip(tag))
  {
    var t := Strip(tag);
    if Parses(t) {
      var p0 := MajorStart(t);
      var (_, p2) := DottedPart(t, p0 + DigitRun(t, p0));
      var (_, p3) := DottedPart(t, p2);
      assert |ParseSemver(tag).rest| <= |t| - p3 < |tag|;
    }
  }

  /** On the matching path the suffix carries no surrounding whitespace. */
  lemma ParseRestStripped(tag: string)
    requires Parses(Strip(tag))
    ensures var r := ParseSemver(tag).rest; |r| > 0 ==> !IsSpace(r[0]) && !IsSpace(r[|r| - 1])
  {
    var t := Strip(tag);
    var p0 := MajorStart(t);
    var (_, p2) := DottedPart(t, p0 + DigitRun(t, p0));
    var (_, p3) := DottedPart(t, p2);
    assert ParseSemver(tag).rest == Strip(t[p3..]);
    StripEnds(t[p3..]);
  }

  // ---------------------------------------------------------------------------
  // Rendering, the inverse on tags of the canonical form

  /** The tag `major.minor.patch` followed by `rest`. */
  function Render(v: Version): string {
    NatDigits(v.major) + "." + NatDigits(v.minor) + "." + NatDigits(v.patch) + v.rest
  }

  /** A suffix that parsing gives back unchanged after a full triple: it is
      stripped, has no `\n`, and does not continue the patch digits. */
  predicate CanonicalRest(rest: string) {
    && '\n' !in rest
    && (|rest| > 0 ==> !IsDigit(rest[0]) && !IsSpace(rest[0]) && !IsSpace(rest[|rest| - 1]))
  }

  /** A digit run followed by a non-digit (or the end) is read whole. */
  lemma ReadRun(t: string, p: nat, d: string)
    requires 0 < |d| && p + |d| <= |t| && t[p..p + |d|] == d
    requires forall k | 0 <= k < |d| :: IsDigit(d[k])
    requires p + |d| < |t| ==> !IsDigit(t[p + |d|])
    ensures DigitRun(t, p) == |d|
    ensures RunValue(t, p, |d|) == DigitsValue(d)
  {
    forall k | p <= k < p + |d|
      ensures IsDigit(t[k])
    {
      assert t[k] == d[k - p];
    }
    RunLengthUnique(Digit, t, p, |d|);
  }

  /** `.digits` followed by a non-digit (or the end) is read as that part. */
  lemma ReadDotted(t: string, p: nat, d: string)
    requires 0 < |d| && p + 1 + |d| <= |t| && t[p] == '.' && t[p + 1..p + 1 + |d|] == d
    requires forall k | 0 <= k < |d| :: IsDigit(d[k])
    requires p + 1 + |d| < |t| ==> !IsDigit(t[p + 1 + |d|])
    ensures DottedPart(t, p) == (DigitsValue(d), p + 1 + |d|)
  {
    ReadRun(t, p + 1, d);
  }

  lemma {:induction false} RenderParses(v: Version)
    requires CanonicalRest(v.rest)
    ensures ParseSemver(Render(v)) == v
  {
    var d0, d1, d2 := NatDigits(v.major), NatDigits(v.minor), NatDigits(v.patch);
    var t := Render(v);
    var p1 := |d0|;
    var p2 := p1 + 1 + |d1|;
    var p3 := p2 + 1 + |d2|;
    RenderPieces(v);
    StripNoSpaceEnds(t);
    DigitsValueOfNatDigits(v.major);
    DigitsValueOfNatDigits(v.minor);
    DigitsValueOfNatDigits(v.patch);
    ReadRun(t, 0, d0);
    ReadDotted(t, p1, d1);
    ReadDotted(t, p2, d2);
    StripNoSpaceEnds(v.rest);
  }

  /** Where the pieces of a rendered tag stand. */
  lemma RenderPieces(v: Version)
    requires CanonicalRest(v.rest)
    ensures var d0, d1, d2 := NatDigits(v.major), NatDigits(v.minor), NatDigits(v.patch);
      var t := Render(v);
      var p1 := |d0|;
      var p2 := p1 + 1 + |d1|;
      var p3 := p2 + 1 + |d2|;
      && |t| == p3 + |v.rest|
      && t[0..p1] == d0 && t[p1] == '.' && t[p1 + 1..p2] == d1 && t[p2] == '.' && t[p2 + 1..p3] == d2
      && t[p3..] == v.rest
      && (p3 < |t| ==> !IsDigit(t[p3]))
      && !IsSpace(t[0]) && !IsSpace(t[|t| - 1])
      && MajorStart(t) == 0
      && '\n' !in t
  {
    RenderLayout(v);
    var t := Render(v);
    var p3 := |NatDigits(v.major)| + 1 + |NatDigits(v.minor)| + 1 + |NatDigits(v.patch)|;
    forall k | 0 <= k < |t|
      ensures t[k] != '\n'
    {
      if k >= p3 {
        assert t[k] == t[p3..][k - p3];
      }
    }
  }

  /** The digit groups, dots and suffix of a rendered tag, in place. */
  lemma RenderLayout(v: Version)
    ensures var d0, d1, d2 := NatDigits(v.major), NatDigits(v.minor), NatDigits(v.patch);
      var t := Render(v);
      var p1 := |d0|;
      var p2 := p1 + 1 + |d1|;
      var p3 := p2 + 1 + |d2|;
      && |t| == p3 + |v.rest|
      && t[0..p1] == d0 && t[p1] == '.' && t[p1 + 1..p2] == d1 && t[p2] == '.' && t[p2 + 1..p3] == d2
      && t[p3..] == v.rest
  {
    var d0, d1, d2 := NatDigits(v.major), NatDigits(v.minor), NatDigits(v.patch);
    var t := Render(v);
    assert t == d0 + "." + d1 + "." + d2 + v.rest;
  }

  // ---------------------------------------------------------------------------
  // Ordering

  /** `pa[:3] > pb[:3]` on integer triples. */
  predicate TripleGt(a: Version, b: Version) {
    a.major > b.major
    || (a.major == b.major && a.minor > b.minor)
    || (a.major == b.major && a.minor == b.minor && a.patch > b.patch)
  }

  predicate SameTriple(a: Version, b: Version) {
    a.major == b.major && a.minor == b.minor && a.patch == b.patch
  }

  /** The comparison `semver_gt` makes once both tags are parsed. */
  predicate VersionGt(a: Version, b: Version) {
    if !SameTriple(a, b) then TripleGt(a, b)
    else if a.rest == b.rest then false
    else if a.rest == "" then true
    else if b.rest == "" then false
    else LexLess(b.rest, a.rest)
  }

  /** `semver_gt(a, b)`. */
  predicate SemverGt(a: string, b: string) {
    VersionGt(ParseSemver(a), ParseSemver(b))
  }

  lemma VersionGtIrreflexive(a: Version)
    ensures !VersionGt(a, a)
  {
  }

  lemma VersionGtAsymmetric(a: Version, b: Version)
    ensures VersionGt(a, b) ==> !VersionGt(b, a)
  {
    if SameTriple(a, b) && a.rest != "" && b.rest != "" {
      LexLessAsymmetric(a.rest, b.rest);
    }
  }

  lemma VersionGtTransitive(a: Version, b: Version, c: Version)
    requires VersionGt(a, b) && VersionGt(b, c)
    ensures VersionGt(a, c)
  {
    if SameTriple(a, b) && SameTriple(b, c) && a.rest != "" && b.rest != "" && c.rest != "" {
      LexLessTransitive(c.rest, b.rest, a.rest);
      LexLessIrreflexive(a.rest);
    }
  }

  /** Two versions are either ordered one way or the other, or equal. */
  lemma VersionGtTotal(a: Version, b: Version)
    ensures VersionGt(a, b) || VersionGt(b, a) || a == b
  {
    if SameTriple(a, b) && a.rest != b.rest && a.rest != "" && b.rest != "" {
      LexLessTotal(a.rest, b.rest);
    }
  }

  /** `semver_gt(a, a)` is false, and so is `semver_gt` of two tags that
      parse alike. */
  lemma SemverGtIrreflexive(a: string, b: string)
    requires ParseSemver(a) == ParseSemver(b)
    ensures !SemverGt(a, b)
  {
    VersionGtIrreflexive(ParseSemver(a));
  }

  lemma SemverGtAsymmetric(a: string, b: string)
    ensures SemverGt(a, b) ==> !SemverGt(b, a)
  {
    VersionGtAsymmetric(ParseSemver(a), ParseSemver(b));
  }

  lemma SemverGtTransitive(a: string, b: string, c: string)
    requires SemverGt(a, b) && SemverGt(b, c)
    ensures SemverGt(a, c)
  {
    VersionGtTransitive(ParseSemver(a), ParseSemver(b), ParseSemver(c));
  }

  /** Tags that parse differently are always ordered one way or the other. */
  lemma SemverGtTotal(a: string, b: string)
    ensures SemverGt(a, b) || SemverGt(b, a) || ParseSemver(a) == ParseSemver(b)
  {
    VersionGtTotal(ParseSemver(a), ParseSemver(b));
  }

  /** With equal triples a release without suffix is newer than any
      suffixed one, and never the other way round. */
  lemma StableBeatsSuffixed(a: Version, b: Version)
    requires SameTriple(a, b) && a.rest == "" && b.rest != ""
    ensures VersionGt(a, b) && !VersionGt(b, a)
  {
  }
}
