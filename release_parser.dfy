/**
  `extract_sections`: finds, for each category, the heading line it claims,
  then collects up to `MaxBulletsPerSection` normalised bullets under each
  heading until a heading of the same or a shallower level.
 */
module ReleaseParser {
  import opened Wrappers
  import opened StringUtil
  import opened Regex
  import opened Config

  /** The normalised list marker, a bullet and a space. */
  const BulletMark: string := "\U{2022} "

  const MaxProseLength: nat := 120

  // ---------------------------------------------------------------------------
  // Pass 1: which category claims a line

  /** The first category of `cats` that `heads` accepts for the stripped
      line `t`. The heading test is a parameter so that the proofs about the
      claim order never look inside the pattern table. */
  function ClaimIn(cats: seq<Category>, t: string, heads: (Category, string) -> bool): (r: Option<Category>)
    ensures r.Some? ==> exists k | 0 <= k < |cats| ::
      cats[k] == r.value && heads(cats[k], t) && forall m | 0 <= m < k :: !heads(cats[m], t)
    ensures r.None? <==> forall k | 0 <= k < |cats| :: !heads(cats[k], t)
  {
    if |cats| == 0 then None
    else if heads(cats[0], t) then Some(cats[0])
    else
      var r := ClaimIn(cats[1..], t, heads);
      assert forall k | 0 < k < |cats| :: cats[k] == cats[1..][k - 1];
      r
  }

  /** The category that claims the stripped line `t` as its heading: the
      first one in table order with an alternative matching `t`. */
  function Claim(t: string): Option<Category> {
    ClaimIn(Categories, t, IsHeadingOf)
  }

  /** A line is claimed by the category at position `k` exactly when that
      category matches and no category before it in table order does. */
  lemma {:induction false} ClaimInFirst(cats: seq<Category>, t: string, heads: (Category, string) -> bool, k: nat)
    requires k < |cats|
    requires heads(cats[k], t)
    requires forall m | 0 <= m < k :: !heads(cats[m], t)
    ensures ClaimIn(cats, t, heads) == Some(cats[k])
  {
    if k > 0 {
      ClaimInFirst(cats[1..], t, heads, k - 1);
    }
  }

  /** `[f(x) for x in xs]`. */
  function MapSeq<A, B>(xs: seq<A>, f: A -> B): (r: seq<B>)
    ensures |r| == |xs|
  {
    if |xs| == 0 then [] else MapSeq(xs[..|xs| - 1], f) + [f(xs[|xs| - 1])]
  }

  lemma {:induction false} MapSeqAt<A, B>(xs: seq<A>, f: A -> B, j: nat)
    requires j < |xs|
    ensures MapSeq(xs, f)[j] == f(xs[j])
  {
    if j < |xs| - 1 {
      MapSeqAt(xs[..|xs| - 1], f, j);
    }
  }

  lemma MapSeqSnoc<A, B>(xs: seq<A>, f: A -> B, i: nat)
    requires i < |xs|
    ensures MapSeq(xs[..i + 1], f) == MapSeq(xs[..i], f) + [f(xs[i])]
  {
    assert xs[..i + 1][..i] == xs[..i];
  }

  /** Mapping a slice gives the slice of the mapped sequence. */
  lemma MapSeqSlice<A, B>(xs: seq<A>, f: A -> B, from: nat, end: nat)
    requires from <= end <= |xs|
    ensures MapSeq(xs[from..end], f) == MapSeq(xs, f)[from..end]
  {
    var ys := xs[from..end];
    var lhs := MapSeq(ys, f);
    var rhs := MapSeq(xs, f)[from..end];
    forall k | 0 <= k < |ys|
      ensures lhs[k] == rhs[k]
    {
      MapSeqAt(ys, f, k);
      MapSeqAt(xs, f, from + k);
      assert ys[k] == xs[from + k];
    }
    assert lhs == rhs;
  }

  /** The claim on the raw line `line`. */
  function LineClaim(line: string): Option<Category> {
    Claim(Strip(line))
  }

  /** The claim of every line, in document order. */
  function Claims(lines: seq<string>): seq<Option<Category>> {
    MapSeq(lines, LineClaim)
  }

  lemma ClaimsAt(lines: seq<string>, j: nat)
    requires j < |lines|
    ensures Claims(lines)[j] == Claim(Strip(lines[j]))
  {
    MapSeqAt(lines, LineClaim, j);
  }

  /** Index of the last occurrence of `x` in `xs`. */
  function LastIndex<T(==)>(xs: seq<T>, x: T): (r: Option<nat>)
    ensures r.Some? ==> r.value < |xs| && xs[r.value] == x
    ensures r.Some? ==> forall j | r.value < j < |xs| :: xs[j] != x
    ensures r.None? ==> forall j | 0 <= j < |xs| :: xs[j] != x
  {
    if |xs| == 0 then None
    else if xs[|xs| - 1] == x then Some(|xs| - 1)
    else LastIndex(xs[..|xs| - 1], x)
  }

  /** Index of the heading line of `c`: a later heading of the same category
      overwrites an earlier one. */
  function LastClaim(lines: seq<string>, c: Category): Option<nat> {
    LastIndex(Claims(lines), Some(c))
  }

  lemma LastIndexSnoc<T>(xs: seq<T>, x: T, y: T)
    ensures LastIndex(xs + [y], x) == if y == x then Some(|xs|) else LastIndex(xs, x)
  {
    assert (xs + [y])[..|xs|] == xs;
  }

  /** The heading kept for `c` is claimed by `c`, and no later line is. */
  lemma LastClaimIsLastHeading(lines: seq<string>, c: Category)
    ensures LastClaim(lines, c).Some? ==>
      var k := LastClaim(lines, c).value;
      && k < |lines|
      && Claim(Strip(lines[k])) == Some(c)
      && forall j | k < j < |lines| :: Claim(Strip(lines[j])) != Some(c)
    ensures LastClaim(lines, c).None? ==> forall j | 0 <= j < |lines| :: Claim(Strip(lines[j])) != Some(c)
  {
    forall j | 0 <= j < |lines|
      ensures Claims(lines)[j] == Claim(Strip(lines[j]))
    {
      ClaimsAt(lines, j);
    }
  }

  // ---------------------------------------------------------------------------
  // Heading levels and where a section ends

  /** `t` starts with `n` hashes followed by whitespace: `^(#+)\s+` with `n`
      as the length of the group. */
  predicate AtxPrefix(t: string, n: nat) {
    0 < n < |t| && (forall k | 0 <= k < n :: t[k] == '#') && IsSpace(t[n])
  }

  /** `heading_level`: the length of the leading `#` run of the stripped line
      when whitespace follows it, and 0 otherwise. */
  function HeadingLevel(line: string): nat {
    var t := Strip(line);
    var run := RunLength(Char('#'), t, 0);
    if 0 < run < |t| && IsSpace(t[run]) then run else 0
  }

  /** The level is the one hash run that `^(#+)\s+` can match, and 0 exactly
      when the pattern does not match at all. */
  lemma HeadingLevelAtx(line: string)
    ensures HeadingLevel(line) > 0 ==> AtxPrefix(Strip(line), HeadingLevel(line))
    ensures HeadingLevel(line) == 0 ==> forall m: nat :: !AtxPrefix(Strip(line), m)
  {
    RunLengthRun(Char('#'), Strip(line), 0);
  }

  /** A line that ends a section opened at level `level`. */
  predicate Stops(line: string, level: nat) {
    var l := HeadingLevel(line);
    l != 0 && l <= level
  }

  /** The first index at or after `from` of a line that ends a section opened
      at `level`, or `|lines|`. */
  function SectionEnd(lines: seq<string>, from: nat, level: nat): (e: nat)
    requires from <= |lines|
    ensures from <= e <= |lines|
    ensures forall j {:trigger Stops(lines[j], level)} | from <= j < e :: !Stops(lines[j], level)
    ensures e < |lines| ==> Stops(lines[e], level)
    decreases |lines| - from
  {
    if from == |lines| || Stops(lines[from], level) then from else SectionEnd(lines, from + 1, level)
  }

  /** A heading written without whitespace after its hashes has level 0, and
      nothing but the end of the notes closes its section. */
  lemma LevelZeroRunsToEnd(lines: seq<string>, from: nat)
    requires from <= |lines|
    ensures SectionEnd(lines, from, 0) == |lines|
  {
  }

  // ---------------------------------------------------------------------------
  // Pass 2: which lines become bullets

  /** Length of a leading list marker (`[-*+]\s+` or `\d+\.\s+`) together with
      its whitespace, or 0 when `t` has none. */
  function MarkerLength(t: string): (m: nat)
    ensures m <= |t|
  {
    if |t| > 0 && (t[0] == '-' || t[0] == '*' || t[0] == '+') then
      var w := RunLength(Space, t, 1);
      if w > 0 then 1 + w else 0
    else
      var d := RunLength(Digit, t, 0);
      if 0 < d < |t| && t[d] == '.' then
        var w := RunLength(Space, t, d + 1);
        if w > 0 then d + 1 + w else 0
      else 0
  }

  /** The prose rule for a line without a list marker. */
  predicate IsProseNote(t: string) {
    |t| <= MaxProseLength
    && (':' in t || Contains(Lower(t), "removed") || Contains(Lower(t), "deprecated"))
  }

  /** What the stripped line `t` contributes to a section, if anything. */
  function Bullet(t: string): (r: Option<string>)
    ensures r.Some? ==> StartsWith(r.value, BulletMark)
  {
    var m := MarkerLength(t);
    if m > 0 then Some(BulletMark + t[m..])
    else if IsProseNote(t) then Some(BulletMark + t)
    else None
  }

  /** One of the three symbols `[-*+]` that open an unnumbered list item. */
  predicate IsListSymbol(c: char) {
    c == '-' || c == '*' || c == '+'
  }

  /** A list item loses exactly its marker and the whitespace after it; the
      rest of the text is kept as it is. The marker is a list symbol or a run
      of digits and a dot, and everything else removed is whitespace. */
  lemma ListItemNormalised(t: string)
    requires MarkerLength(t) > 0
    ensures var m := MarkerLength(t);
      && Bullet(t) == Some(BulletMark + t[m..])
      && (t[0] == '-' || t[0] == '*' || t[0] == '+' || (IsDigit(t[0]) && '.' in t[..m]))
      && IsSpace(t[m - 1])
      && (m < |t| ==> !IsSpace(t[m]))
    ensures var m := MarkerLength(t);
      IsListSymbol(t[0]) ==> 2 <= m && forall k | 1 <= k < m :: IsSpace(t[k])
    ensures var m := MarkerLength(t);
      !IsListSymbol(t[0]) ==>
        exists d :: 0 < d < m - 1 && (forall k | 0 <= k < d :: IsDigit(t[k])) && t[d] == '.'
          && forall k | d < k < m :: IsSpace(t[k])
  {
    if IsListSymbol(t[0]) {
      RunLengthRun(Space, t, 1);
    } else {
      var d := RunLength(Digit, t, 0);
      RunLengthRun(Digit, t, 0);
      RunLengthRun(Space, t, d + 1);
      assert forall k | d < k < MarkerLength(t) :: IsSpace(t[k]);
    }
  }

  /** `^\d+\.\s+` matches `t` with its dot at index `d`. */
  predicate NumberedAt(t: string, d: nat) {
    0 < d && d + 1 < |t| && (forall k | 0 <= k < d :: IsDigit(t[k])) && t[d] == '.' && IsSpace(t[d + 1])
  }

  /** Conversely, every line that `^[-*+]\s+` or `^\d+\.\s+` matches has a
      list marker, so it is normalised and never judged as prose. */
  lemma ListItemDetected(t: string)
    ensures |t| >= 2 && IsListSymbol(t[0]) && IsSpace(t[1]) ==> MarkerLength(t) > 0
    ensures (exists d :: NumberedAt(t, d)) ==> MarkerLength(t) > 0
  {
    if d :| NumberedAt(t, d) {
      RunLengthUnique(Digit, t, 0, d);
    }
  }

  /** A line without a list marker is kept, with the bullet put in front,
      exactly when it is short and carries a colon or mentions a removal or
      deprecation; a blank line is never kept. */
  lemma ProseLineRule(t: string)
    requires MarkerLength(t) == 0
    ensures Bullet(t).Some? <==> IsProseNote(t)
    ensures Bullet(t).Some? ==> Bullet(t).value == BulletMark + t
    ensures |t| == 0 ==> Bullet(t).None?
  {
    if |t| == 0 {
      assert ':' !in t;
      assert !Contains(Lower(t), "removed");
      assert !Contains(Lower(t), "deprecated");
    }
  }

  /** What the raw line `line` contributes. */
  function LineBullet(line: string): Option<string> {
    Bullet(Strip(line))
  }

  /** What each raw line contributes, in document order. */
  function LineBullets(lines: seq<string>): seq<Option<string>> {
    MapSeq(lines, LineBullet)
  }

  lemma LineBulletsAt(lines: seq<string>, j: nat)
    requires j < |lines|
    ensures LineBullets(lines)[j] == Bullet(Strip(lines[j]))
  {
    MapSeqAt(lines, LineBullet, j);
  }

  /** The value of `o` as a sequence of zero or one element. */
  function Present<T>(o: Option<T>): seq<T> {
    if o.Some? then [o.value] else []
  }

  /** The present values of `xs`, in order. */
  function Somes<T>(xs: seq<Option<T>>): (r: seq<T>)
    ensures |r| <= |xs|
  {
    if |xs| == 0 then [] else Somes(xs[..|xs| - 1]) + Present(xs[|xs| - 1])
  }

  /** The values of a prefix are a prefix of the values. */
  lemma {:induction false} SomesPrefix<T>(xs: seq<Option<T>>, n: nat)
    requires n <= |xs|
    ensures |Somes(xs[..n])| <= |Somes(xs)|
    ensures Somes(xs)[..|Somes(xs[..n])|] == Somes(xs[..n])
  {
    if n < |xs| {
      var init := xs[..|xs| - 1];
      assert init[..n] == xs[..n];
      SomesPrefix(init, n);
    } else {
      assert xs[..n] == xs;
    }
  }

  /** Extending the options by one extends the values by its value, if any. */
  lemma SomesSnoc<T>(xs: seq<Option<T>>, k: nat)
    requires k < |xs|
    ensures Somes(xs[..k + 1]) == Somes(xs[..k]) + Present(xs[k])
  {
    assert xs[..k + 1][..k] == xs[..k];
  }

  /** The positions of the present values, in order. */
  function SomeSources<T>(xs: seq<Option<T>>): (src: seq<nat>)
    ensures |src| == |Somes(xs)|
  {
    if |xs| == 0 then []
    else SomeSources(xs[..|xs| - 1]) + (if xs[|xs| - 1].Some? then [|xs| - 1] else [])
  }

  /** `src` lists, in increasing order, the positions that `vals` came from. */
  ghost predicate Traces<T>(xs: seq<Option<T>>, vals: seq<T>, src: seq<nat>) {
    && |src| == |vals|
    && (forall m | 0 <= m < |src| :: src[m] < |xs| && xs[src[m]] == Some(vals[m]))
    && (forall m, n | 0 <= m < n < |src| :: src[m] < src[n])
  }

  lemma {:induction false} SomesTraced<T>(xs: seq<Option<T>>)
    ensures Traces(xs, Somes(xs), SomeSources(xs))
  {
    if |xs| > 0 {
      var init := xs[..|xs| - 1];
      SomesTraced(init);
      assert forall j | 0 <= j < |init| :: init[j] == xs[j];
    }
  }

  /** The bullets of `lines`, in document order, before any cap. */
  function FilterBullets(lines: seq<string>): seq<string> {
    Somes(LineBullets(lines))
  }

  /** Every collected entry carries the bullet mark. */
  lemma FilterBulletsMarked(lines: seq<string>)
    ensures forall k | 0 <= k < |FilterBullets(lines)| :: StartsWith(FilterBullets(lines)[k], BulletMark)
  {
    var xs := LineBullets(lines);
    SomesTraced(xs);
    var src := SomeSources(xs);
    forall k | 0 <= k < |FilterBullets(lines)|
      ensures StartsWith(FilterBullets(lines)[k], BulletMark)
    {
      LineBulletsAt(lines, src[k]);
    }
  }

  // ---------------------------------------------------------------------------
  // The reference definition of the result

  /** The bullets collected under the heading at `start`: those of the lines
      after it and before the first line that ends the section, at most
      `MaxBulletsPerSection` of them. */
  function Section(lines: seq<string>, start: nat): seq<string>
    requires start < |lines|
  {
    var end := SectionEnd(lines, start + 1, HeadingLevel(lines[start]));
    Take(FilterBullets(lines[start + 1..end]), MaxBulletsPerSection)
  }

  /** The bullets kept for category `c`. */
  function SectionOf(lines: seq<string>, c: Category): seq<string> {
    match LastClaim(lines, c)
    case None => []
    case Some(start) => assert start < |Claims(lines)|; Section(lines, start)
  }

  /** What `extract_sections` returns for the given lines. */
  function SectionsSpec(lines: seq<string>): map<Category, seq<string>> {
    map c | c in Categories :: SectionOf(lines, c)
  }

  /** The result has all seven categories; a category never claimed gets no
      bullets; every list is capped and every entry carries the bullet. */
  lemma SectionsShape(lines: seq<string>, c: Category)
    ensures c in SectionsSpec(lines)
    ensures LastClaim(lines, c).None? ==> SectionsSpec(lines)[c] == []
    ensures |SectionsSpec(lines)[c]| <= MaxBulletsPerSection
    ensures forall k | 0 <= k < |SectionsSpec(lines)[c]| :: StartsWith(SectionsSpec(lines)[c][k], BulletMark)
  {
    CategoriesComplete(c);
    assert SectionsSpec(lines)[c] == SectionOf(lines, c);
    SectionOfShape(lines, c);
  }

  lemma SectionOfShape(lines: seq<string>, c: Category)
    ensures LastClaim(lines, c).None? ==> SectionOf(lines, c) == []
    ensures |SectionOf(lines, c)| <= MaxBulletsPerSection
    ensures forall k | 0 <= k < |SectionOf(lines, c)| :: StartsWith(SectionOf(lines, c)[k], BulletMark)
  {
    match LastClaim(lines, c)
    case None =>
    case Some(start) =>
      assert start < |Claims(lines)|;
      SectionMarked(lines, start, SectionEnd(lines, start + 1, HeadingLevel(lines[start])));
  }

  lemma SectionMarked(lines: seq<string>, start: nat, end: nat)
    requires start < end <= |lines|
    ensures var sec := Take(FilterBullets(lines[start + 1..end]), MaxBulletsPerSection);
      |sec| <= MaxBulletsPerSection && forall k | 0 <= k < |sec| :: StartsWith(sec[k], BulletMark)
  {
    FilterBulletsMarked(lines[start + 1..end]);
  }

  lemma WindowBullet(lines: seq<string>, from: nat, end: nat, k: nat)
    requires from <= end <= |lines| && k < end - from
    ensures LineBullets(lines[from..end])[k] == Bullet(Strip(lines[from + k]))
  {
    LineBulletsAt(lines[from..end], k);
  }

  /** The contributions of a run of lines are a slice of the contributions
      of the whole document. */
  lemma LineBulletsSlice(lines: seq<string>, from: nat, end: nat)
    requires from <= end <= |lines|
    ensures LineBullets(lines[from..end]) == LineBullets(lines)[from..end]
  {
    MapSeqSlice(lines, LineBullet, from, end);
  }

  /** `src` lists, in increasing order, lines strictly between `start` and
      `end` whose contributions are the entries of `sec`. */
  ghost predicate TracedBetween(lines: seq<string>, start: nat, end: nat, sec: seq<string>, src: seq<nat>) {
    && Traces(LineBullets(lines), sec, src)
    && forall m | 0 <= m < |src| :: start < src[m] < end
  }

  /** `src` with `d` added to every position. */
  function Shift(src: seq<nat>, d: nat): (r: seq<nat>)
    ensures |r| == |src|
    ensures forall m | 0 <= m < |src| :: r[m] == src[m] + d
  {
    seq(|src|, m requires 0 <= m < |src| => src[m] + d)
  }

  /** Capping the values caps their positions alike. */
  lemma TakeTraced<T>(xs: seq<Option<T>>, n: nat)
    ensures Traces(xs, Take(Somes(xs), n), Take(SomeSources(xs), n))
  {
    SomesTraced(xs);
  }

  /** Positions traced in the slice `xs[from..to]` are positions of `xs`
      once shifted by `from`. */
  lemma TracesShift<T>(xs: seq<Option<T>>, from: nat, to: nat, vals: seq<T>, src: seq<nat>)
    requires from <= to <= |xs|
    requires Traces(xs[from..to], vals, src)
    ensures Traces(xs, vals, Shift(src, from))
    ensures forall m | 0 <= m < |src| :: from <= Shift(src, from)[m] < to
  {
    forall m | 0 <= m < |src|
      ensures xs[src[m] + from] == Some(vals[m])
    {
      assert xs[from..to][src[m]] == xs[src[m] + from];
    }
  }

  /** The lines the first `MaxBulletsPerSection` bullets between `start` and
      `end` came from. */
  ghost function WindowSources(lines: seq<string>, start: nat, end: nat): seq<nat>
    requires start < end <= |lines|
  {
    Shift(Take(SomeSources(LineBullets(lines[start + 1..end])), MaxBulletsPerSection), start + 1)
  }

  lemma WindowTraced(lines: seq<string>, start: nat, end: nat)
    requires start < end <= |lines|
    ensures TracedBetween(lines, start, end, Take(FilterBullets(lines[start + 1..end]), MaxBulletsPerSection),
                          WindowSources(lines, start, end))
  {
    var xs := LineBullets(lines[start + 1..end]);
    LineBulletsSlice(lines, start + 1, end);
    TakeTraced(xs, MaxBulletsPerSection);
    TracesShift(LineBullets(lines), start + 1, end,
                Take(Somes(xs), MaxBulletsPerSection), Take(SomeSources(xs), MaxBulletsPerSection));
  }

  /** The lines the entries of the section at `start` came from. */
  ghost function SectionSources(lines: seq<string>, start: nat): seq<nat>
    requires start < |lines|
  {
    WindowSources(lines, start, SectionEnd(lines, start + 1, HeadingLevel(lines[start])))
  }

  /** The entries of a section come, in document order and one per line,
      from lines strictly after its heading and before the line that ends it. */
  lemma SectionTraced(lines: seq<string>, start: nat)
    requires start < |lines|
    ensures TracedBetween(lines, start, SectionEnd(lines, start + 1, HeadingLevel(lines[start])),
                          Section(lines, start), SectionSources(lines, start))
  {
    WindowTraced(lines, start, SectionEnd(lines, start + 1, HeadingLevel(lines[start])));
  }

  // ---------------------------------------------------------------------------
  // The extractor

  /** Reading one more line moves the heading of the category that claims
      it to that line and leaves every other category's heading alone. */
  lemma LastClaimSnoc(lines: seq<string>, i: nat, c: Category)
    requires i < |lines|
    ensures LastClaim(lines[..i + 1], c) ==
      (if Claim(Strip(lines[i])) == Some(c) then Some(i) else LastClaim(lines[..i], c))
  {
    MapSeqSnoc(lines, LineClaim, i);
    LastIndexSnoc(Claims(lines[..i]), Some(c), LineClaim(lines[i]));
  }

  /** The category that claims the stripped line `t`: the first one in table
      order with a matching alternative. */
  method ClaimLine(t: string) returns (r: Option<Category>)
    ensures r == Claim(t)
  {
    var k := 0;
    while k < |Categories|
      invariant 0 <= k <= |Categories|
      invariant forall m | 0 <= m < k :: !IsHeadingOf(Categories[m], t)
    {
      if IsHeadingOf(Categories[k], t) {
        ClaimInFirst(Categories, t, IsHeadingOf, k);
        return Some(Categories[k]);
      }
      k := k + 1;
    }
    return None;
  }

  /** Pass 1: the index of the heading line of each claimed category. */
  method FindHeadings(lines: seq<string>) returns (headings: map<Category, nat>)
    ensures forall c :: c in headings <==> LastClaim(lines, c).Some?
    ensures forall c | c in headings :: headings[c] == LastClaim(lines, c).value
  {
    headings := map[];
    var i := 0;
    while i < |lines|
      invariant 0 <= i <= |lines|
      invariant HeadingsOf(lines[..i], headings)
    {
      var claim := ClaimLine(Strip(lines[i]));
      HeadingsStep(lines, i, headings, claim);
      if claim.Some? {
        headings := headings[claim.value := i];
      }
      i := i + 1;
    }
    assert lines[..i] == lines;
  }

  /** `headings` holds exactly the kept heading of each claimed category. */
  ghost predicate HeadingsOf(lines: seq<string>, headings: map<Category, nat>) {
    && (forall c :: c in headings <==> LastClaim(lines, c).Some?)
    && (forall c | c in headings :: headings[c] == LastClaim(lines, c).value)
  }

  lemma HeadingsStep(lines: seq<string>, i: nat, headings: map<Category, nat>, claim: Option<Category>)
    requires i < |lines| && HeadingsOf(lines[..i], headings) && claim == Claim(Strip(lines[i]))
    ensures HeadingsOf(lines[..i + 1], if claim.Some? then headings[claim.value := i] else headings)
  {
    var next := if claim.Some? then headings[claim.value := i] else headings;
    forall c
      ensures (c in next <==> LastClaim(lines[..i + 1], c).Some?)
      ensures c in next ==> next[c] == LastClaim(lines[..i + 1], c).value
    {
      HeadingStepFor(lines, i, headings, claim, next, c);
    }
  }

  /** The step of pass 1 for one category. */
  lemma HeadingStepFor(lines: seq<string>, i: nat, headings: map<Category, nat>, claim: Option<Category>,
                       next: map<Category, nat>, c: Category)
    requires i < |lines| && claim == Claim(Strip(lines[i])) && HeadingsOf(lines[..i], headings)
    requires next == if claim.Some? then headings[claim.value := i] else headings
    ensures c in next <==> LastClaim(lines[..i + 1], c).Some?
    ensures c in next ==> next[c] == LastClaim(lines[..i + 1], c).value
  {
    LastClaimSnoc(lines, i, c);
    assert c in headings <==> LastClaim(lines[..i], c).Some?;
    assert c in headings ==> headings[c] == LastClaim(lines[..i], c).value;
    if claim == Some(c) {
      assert c in next && next[c] == i;
    } else {
      assert LastClaim(lines[..i + 1], c) == LastClaim(lines[..i], c);
      assert c in next <==> c in headings;
      assert c in next ==> next[c] == headings[c];
    }
  }

  /** The bullets of the lines strictly between `start` and `j`, in a
      section that runs to `end`. */
  function SectionPrefix(lines: seq<string>, start: nat, end: nat, j: nat): seq<string>
    requires start < j <= end <= |lines|
  {
    Somes(LineBullets(lines[start + 1..end])[..j - (start + 1)])
  }

  /** One more line of the section adds its bullet, if it has one. */
  lemma SectionPrefixNext(lines: seq<string>, start: nat, end: nat, j: nat)
    requires start < j < end <= |lines|
    ensures SectionPrefix(lines, start, end, j + 1) ==
      SectionPrefix(lines, start, end, j) + Present(LineBullet(lines[j]))
  {
    var ys := LineBullets(lines[start + 1..end]);
    SomesMapSnoc(lines, LineBullet, start + 1, end, j);
    assert SectionPrefix(lines, start, end, j + 1) == Somes(ys[..j + 1 - (start + 1)]);
    assert SectionPrefix(lines, start, end, j) == Somes(ys[..j - (start + 1)]);
  }

  /** Extending a window of mapped options by one more element. */
  lemma SomesMapSnoc<A, B>(xs: seq<A>, f: A -> Option<B>, from: nat, end: nat, j: nat)
    requires from <= j < end <= |xs|
    ensures Somes(MapSeq(xs[from..end], f)[..j + 1 - from]) == Somes(MapSeq(xs[from..end], f)[..j - from]) + Present(f(xs[j]))
  {
    var ys := MapSeq(xs[from..end], f);
    MapSeqAt(xs[from..end], f, j - from);
    assert xs[from..end][j - from] == xs[j];
    SomesSnoc(ys, j - from);
  }

  lemma SectionPrefixStep(lines: seq<string>, start: nat, end: nat, j: nat, bullet: Option<string>)
    requires start < j < end <= |lines|
    requires bullet == Bullet(Strip(lines[j]))
    ensures SectionPrefix(lines, start, end, j + 1) == SectionPrefix(lines, start, end, j) + Present(bullet)
  {
    SectionPrefixNext(lines, start, end, j);
  }

  /** Collection stops with the section: at the line that ends it, or once
      the cap is reached. */
  lemma SectionPrefixDone(lines: seq<string>, start: nat, end: nat, j: nat)
    requires start < j <= end <= |lines|
    requires |SectionPrefix(lines, start, end, j)| <= MaxBulletsPerSection
    requires j == end || |SectionPrefix(lines, start, end, j)| == MaxBulletsPerSection
    ensures Take(FilterBullets(lines[start + 1..end]), MaxBulletsPerSection) == SectionPrefix(lines, start, end, j)
  {
    var xs := LineBullets(lines[start + 1..end]);
    if j == end {
      assert xs[..j - (start + 1)] == xs;
    } else {
      SomesPrefix(xs, j - (start + 1));
    }
  }

  /** Pass 2 for one heading: the bullets under the heading at `start`. */
  method CollectSection(lines: seq<string>, start: nat) returns (collected: seq<string>)
    requires start < |lines|
    ensures collected == Section(lines, start)
  {
    var level := HeadingLevel(lines[start]);
    ghost var end := SectionEnd(lines, start + 1, level);
    collected := [];
    var j := start + 1;
    while j < |lines|
      invariant start + 1 <= j <= end
      invariant collected == SectionPrefix(lines, start, end, j)
      invariant |collected| < MaxBulletsPerSection
    {
      var lvl := HeadingLevel(lines[j]);
      if lvl != 0 && lvl <= level {
        assert Stops(lines[j], level);
        break;
      }
      assert j < end;
      var t := Strip(lines[j]);
      if |t| == 0 {
        ProseLineRule(t);
        SectionPrefixStep(lines, start, end, j, None);
        j := j + 1;
        continue;
      }
      var bullet := Bullet(t);
      SectionPrefixStep(lines, start, end, j, bullet);
      if bullet.Some? {
        collected := collected + [bullet.value];
      }
      if |collected| >= MaxBulletsPerSection {
        SectionPrefixDone(lines, start, end, j + 1);
        return;
      }
      j := j + 1;
    }
    SectionPrefixDone(lines, start, end, j);
  }

  /** Pass 2: for every category with a heading, the bullets under it
      replace its entry in `out0`. */
  method CollectSections(lines: seq<string>, headings: map<Category, nat>, out0: map<Category, seq<string>>)
    returns (out: map<Category, seq<string>>)
    requires forall c | c in headings :: headings[c] < |lines|
    requires forall c :: c in out0 <==> c in Categories
    ensures forall c :: c in out <==> c in Categories
    ensures forall c | c in Categories :: out[c] == if c in headings then Section(lines, headings[c]) else out0[c]
  {
    out := out0;
    var n := 0;
    while n < |Categories|
      invariant 0 <= n <= |Categories|
      invariant forall c :: c in out <==> c in Categories
      invariant forall m | 0 <= m < n ::
        out[Categories[m]] == if Categories[m] in headings then Section(lines, headings[Categories[m]]) else out0[Categories[m]]
      invariant forall m | n <= m < |Categories| :: out[Categories[m]] == out0[Categories[m]]
    {
      var c := Categories[n];
      CategoriesComplete(c);
      assert forall m | 0 <= m < |Categories| && m != n :: Categories[m] != c;
      if c in headings {
        var collected := CollectSection(lines, headings[c]);
        out := out[c := collected];
      }
      assert out[c] == if c in headings then Section(lines, headings[c]) else out0[c];
      n := n + 1;
    }
  }

  /** `extract_sections(markdown)`. */
  method ExtractSections(markdown: string) returns (out: map<Category, seq<string>>)
    ensures out == SectionsSpec(SplitLines(markdown))
  {
    var lines := SplitLines(markdown);
    out := map c | c in Categories :: [];
    var headings := FindHeadings(lines);
    out := CollectSections(lines, headings, out);
    forall c | c in Categories
      ensures out[c] == SectionsSpec(lines)[c]
    {
    }
  }
}
