/**
  The static configuration of the section extractor: the ordered table of
  heading patterns per release-note category, and the bullet cap.
 */
module Config {
  import opened StringUtil
  import opened Regex

  /** The seven release-note categories, declared in table order. */
  datatype Category = Breaking | Deprecated | Dependency | Features | BugFixes | Docs | Contributors

  /** The table's declaration order, which decides which category claims a line. */
  const Categories: seq<Category> := [Breaking, Deprecated, Dependency, Features, BugFixes, Docs, Contributors]

  const MaxBulletsPerSection: nat := 8

  // Pieces shared by the table's alternatives.
  const Hashes: Atom := Repeat(Char('#'), true)        // `#+`
  const Spaces: Atom := Repeat(Space, false)           // `\s*`
  const Spaces1: Atom := Repeat(Space, true)           // `\s+`
  /** `:?\w*:\s*`, an emoji short code such as `:star:` in front of the title. */
  const Emoji: Pattern := [Optional(":"), Repeat(Word, false), Text(":"), Spaces]

  /** `r"^#+\\s*Changes\\s+in\\s+Behavior\\b"`: in a raw string `\\` is a
      literal backslash, so this asks for `\`, then `s*`, and so on. */
  const ChangesInBehavior: Pattern :=
    [Hashes, Text("\\"), Repeat(Char('s'), false), Text("Changes"),
     Text("\\"), Repeat(Char('s'), true), Text("in"),
     Text("\\"), Repeat(Char('s'), true), Text("Behavior"), Text("\\b")]

  /** `r"^#+\\s*BOM\\s+Updates\\b"`, double-escaped in the same way. */
  const BomUpdates: Pattern :=
    [Hashes, Text("\\"), Repeat(Char('s'), false), Text("BOM"),
     Text("\\"), Repeat(Char('s'), true), Text("Updates"), Text("\\b")]

  /** The alternatives of one category, in table order. */
  function Patterns(c: Category): seq<Pattern> {
    match c
    case Breaking => [
      [Hashes, Spaces, Text("Breaking"), Spaces1, Text("Changes"), Boundary],
      [Hashes, Spaces, Text("Breaking"), Boundary],
      [Hashes, Spaces, Text("Incompatible"), Spaces1, Text("Changes"), Boundary],
      ChangesInBehavior]
    case Deprecated => [
      [Hashes, Spaces, Text("Deprecation"), Optional("s"), Boundary],
      [Hashes, Spaces, Text("Deprecated"), Boundary]]
    case Dependency => [
      [Hashes, Spaces] + Emoji + [Text("Dependency"), Spaces1, Text("Upgrade"), Optional("s"), Boundary],
      [Hashes, Spaces, Text("Dependencies"), Boundary],
      [Hashes, Spaces, Text("Upgrade"), Optional("s"), Boundary],
      BomUpdates]
    case Features => [
      [Hashes, Spaces] + Emoji + [Text("New"), Spaces1, Text("Features"), Boundary],
      [Hashes, Spaces, Text("Features"), Boundary],
      [Hashes, Spaces, Text("Enhancement"), Optional("s"), Boundary],
      [Hashes, Spaces, Text("What"), Optional("'"), Text("s"), Spaces1, Text("New"), Boundary]]
    case BugFixes => [
      [Hashes, Spaces] + Emoji + [Text("Bug"), Spaces1, Text("Fixes"), Boundary],
      [Hashes, Spaces, Text("Fixes"), Boundary],
      [Hashes, Spaces, Text("Bugs"), Boundary],
      [Hashes, Spaces, Text("Bugfix"), Optional("es"), Boundary]]
    case Docs => [
      [Hashes, Spaces] + Emoji + [Text("Documentation"), Boundary],
      [Hashes, Spaces, Text("Docs"), Boundary]]
    case Contributors => [
      [Hashes, Spaces] + Emoji + [Text("Contributors"), Boundary],
      [Hashes, Spaces, Text("Thanks"), Boundary]]
  }

  /** `any(re.match(p, t, flags=re.IGNORECASE) for p in SECTION_PATTERNS[c])`. */
  predicate IsHeadingOf(c: Category, t: string) {
    AnyMatches(Patterns(c), t)
  }

  /** Some alternative of `pats` matches `t`. */
  predicate AnyMatches(pats: seq<Pattern>, t: string) {
    if |pats| == 0 then false
    else Matches(pats[0], t) || AnyMatches(pats[1..], t)
  }

  /** The alternatives are tried in turn: `any` holds exactly when one of
      them matches. */
  lemma {:induction false} AnyMatchesExists(pats: seq<Pattern>, t: string)
    ensures AnyMatches(pats, t) <==> exists k | 0 <= k < |pats| :: Matches(pats[k], t)
  {
    if |pats| > 0 {
      AnyMatchesExists(pats[1..], t);
      assert forall k | 0 < k < |pats| :: pats[k] == pats[1..][k - 1];
    }
  }

  /** Every category appears exactly once in the table order. */
  lemma CategoriesComplete(c: Category)
    ensures c in Categories
    ensures forall i, j | 0 <= i < j < |Categories| :: Categories[i] != Categories[j]
  {
  }

  /** Every alternative starts with `^#+`, so only a line whose stripped form
      starts with `#` can be a heading of any category. */
  lemma HeadingStartsWithHash(c: Category, t: string)
    requires IsHeadingOf(c, t)
    ensures |t| > 0 && t[0] == '#'
  {
    AnyMatchesExists(Patterns(c), t);
    var k :| 0 <= k < |Patterns(c)| && Matches(Patterns(c)[k], t);
    AllAnchored(c);
    MatchStartsWithPlus(Patterns(c)[k], t, 0);
  }

  lemma AllAnchored(c: Category)
    ensures forall k | 0 <= k < |Patterns(c)| :: |Patterns(c)[k]| > 0 && Patterns(c)[k][0] == Hashes
  {
    match c
    case Breaking =>
    case Deprecated =>
    case Dependency =>
    case Features =>
    case BugFixes =>
    case Docs =>
    case Contributors =>
  }

  /** The double-escaped alternative for "Changes in Behavior" matches only
      lines that contain a backslash, so a plain `## Changes in Behavior` is
      never claimed through it. */
  lemma ChangesInBehaviorNeedsBackslash(t: string)
    requires Matches(ChangesInBehavior, t)
    ensures exists i | 0 <= i < |t| :: t[i] == '\\'
  {
    var ends := Ends(Hashes, t, 0);
    var k :| 0 <= k < |ends| && MatchFrom(ChangesInBehavior[1..], t, ends[k]);
    assert ChangesInBehavior[1..][0] == Text("\\");
    MatchStartsWithText(ChangesInBehavior[1..], t, ends[k]);
    assert SameLetter("\\"[0], t[ends[k]]);
  }

  /** Likewise for the double-escaped "BOM Updates" alternative. */
  lemma BomUpdatesNeedsBackslash(t: string)
    requires Matches(BomUpdates, t)
    ensures exists i | 0 <= i < |t| :: t[i] == '\\'
  {
    var ends := Ends(Hashes, t, 0);
    var k :| 0 <= k < |ends| && MatchFrom(BomUpdates[1..], t, ends[k]);
    assert BomUpdates[1..][0] == Text("\\");
    MatchStartsWithText(BomUpdates[1..], t, ends[k]);
    assert SameLetter("\\"[0], t[ends[k]]);
  }
}
