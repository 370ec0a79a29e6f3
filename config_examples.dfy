/**
  Which category claims some concrete heading lines. The general facts used
  here describe how a line of the shape `#…# title` runs through the
  leading `#+\s*` of an alternative, so that each example only has to look
  at the title.
 */
module ConfigExamples {
  import opened Wrappers
  import opened StringUtil
  import opened Regex
  import opened Config
  import opened ReleaseParser

  /** `t` is `h` hashes, one space, then a character that is not a space. */
  predicate HashHead(t: string, h: nat) {
    && 1 <= h && h + 1 < |t|
    && (forall i | 0 <= i < h :: t[i] == '#')
    && t[h] == ' ' && !IsSpace(t[h + 1])
  }

  /** The `#+` of an alternative may stop after any of the `h` hashes,
      longest first. */
  lemma HashEnds(t: string, h: nat)
    requires HashHead(t, h)
    ensures |Ends(Hashes, t, 0)| == h
    ensures forall k | 0 <= k < h :: Ends(Hashes, t, 0)[k] == h - k
  {
    RunLengthUnique(Char('#'), t, 0, h);
  }

  /** After fewer than `h` hashes, `\s*` reads nothing and a `#` stands
      where the title should start. */
  lemma ShortHashRunFails(t: string, e: nat, lit: string, rest: Pattern)
    requires e < |t| && t[e] == '#'
    requires |lit| > 0 && !SameLetter(lit[0], '#')
    ensures !MatchFrom([Spaces, Text(lit)] + rest, t, e)
  {
    var pat := [Spaces, Text(lit)] + rest;
    RunLengthUnique(Space, t, e, 0);
    assert Ends(Spaces, t, e) == [e];
    assert pat[1..] == [Text(lit)] + rest;
    assert !TextAt(lit, t, e);
  }

  /** Before a single space, `\s*` may take it or not. */
  lemma SpaceEnds(t: string, h: nat)
    requires h + 1 < |t| && t[h] == ' ' && !IsSpace(t[h + 1])
    ensures Ends(Spaces, t, h) == [h + 1, h]
  {
    RunLengthUnique(Space, t, h, 1);
  }

  /** After all `h` hashes, `\s*` may take the space or not; only taking it
      can bring the title's first letter. */
  lemma FullHashRun(t: string, h: nat, lit: string, rest: Pattern)
    requires h + 1 < |t| && t[h] == ' ' && !IsSpace(t[h + 1])
    requires |lit| > 0 && !SameLetter(lit[0], ' ')
    ensures MatchFrom([Spaces, Text(lit)] + rest, t, h) <==>
      TextAt(lit, t, h + 1) && MatchFrom(rest, t, h + 1 + |lit|)
  {
    var pat := [Spaces, Text(lit)] + rest;
    var title := pat[1..];
    assert title == [Text(lit)] + rest;
    SpaceEnds(t, h);
    var ends := Ends(Spaces, t, h);
    MatchText(lit, rest, t, h);
    assert !SameLetter(lit[0], t[h]);
    MatchText(lit, rest, t, h + 1);
    assert MatchFrom(pat, t, h) <==> MatchFrom(title, t, ends[0]) || MatchFrom(title, t, ends[1]);
  }

  /** On such a line, an alternative `#+\s*lit…` can only read `lit` right
      after the space: any shorter run of hashes leaves a `#` or the space
      where the title's first letter should be. */
  lemma HeadThenText(t: string, h: nat, lit: string, rest: Pattern)
    requires HashHead(t, h)
    requires |lit| > 0 && !SameLetter(lit[0], '#') && !SameLetter(lit[0], ' ')
    ensures MatchFrom([Hashes, Spaces, Text(lit)] + rest, t, 0) <==>
      TextAt(lit, t, h + 1) && MatchFrom(rest, t, h + 1 + |lit|)
  {
    var pat := [Hashes, Spaces, Text(lit)] + rest;
    if MatchFrom(pat, t, 0) {
      HeadMatchReadsText(t, h, lit, rest);
    }
    if TextAt(lit, t, h + 1) && MatchFrom(rest, t, h + 1 + |lit|) {
      HeadTextMatches(t, h, lit, rest);
    }
  }

  /** The if half: `lit` right after the space, and the rest after it, make
      a match. */
  lemma HeadTextMatches(t: string, h: nat, lit: string, rest: Pattern)
    requires HashHead(t, h)
    requires |lit| > 0 && !SameLetter(lit[0], ' ')
    requires TextAt(lit, t, h + 1) && MatchFrom(rest, t, h + 1 + |lit|)
    ensures MatchFrom([Hashes, Spaces, Text(lit)] + rest, t, 0)
  {
    FullHashRun(t, h, lit, rest);
    HashesThen(t, h, [Spaces, Text(lit)] + rest);
    assert [Hashes] + ([Spaces, Text(lit)] + rest) == [Hashes, Spaces, Text(lit)] + rest;
  }

  /** The only-if half: a match reads `lit` right after the space. */
  lemma HeadMatchReadsText(t: string, h: nat, lit: string, rest: Pattern)
    requires HashHead(t, h)
    requires |lit| > 0 && !SameLetter(lit[0], '#') && !SameLetter(lit[0], ' ')
    requires MatchFrom([Hashes, Spaces, Text(lit)] + rest, t, 0)
    ensures TextAt(lit, t, h + 1) && MatchFrom(rest, t, h + 1 + |lit|)
  {
    var pat := [Hashes, Spaces, Text(lit)] + rest;
    assert pat[1..] == [Spaces, Text(lit)] + rest;
    HashEnds(t, h);
    var ends := Ends(Hashes, t, 0);
    var k :| 0 <= k < h && MatchFrom(pat[1..], t, ends[k]);
    if k > 0 {
      ShortHashRunFails(t, h - k, lit, rest);
      assert false;
    }
    FullHashRun(t, h, lit, rest);
  }

  /** A step of a match: an atom stops at one of its end positions and the
      rest of the pattern matches from there. */
  lemma MatchStep(pat: Pattern, s: string, p: nat, k: nat)
    requires p <= |s| && |pat| > 0 && k < |Ends(pat[0], s, p)|
    requires MatchFrom(pat[1..], s, Ends(pat[0], s, p)[k])
    ensures MatchFrom(pat, s, p)
  {
  }

  /** A pattern none of whose matches can place its `i`-th literal: the
      literal's first character, `lower` or its upper-case form `upper`,
      occurs nowhere in `s`. For a character that is not a letter, `upper`
      is the character itself. */
  lemma LiteralAbsent(pat: Pattern, s: string, i: nat, lower: char, upper: char)
    requires i < |pat| && pat[i].Text? && |pat[i].lit| > 0 && LowerChar(pat[i].lit[0]) == lower
    requires || ('a' <= lower <= 'z' && upper as int == lower as int - 32)
             || (!('a' <= lower <= 'z') && !('A' <= lower <= 'Z') && upper == lower)
    requires lower !in s && upper !in s
    ensures !Matches(pat, s)
  {
    if Matches(pat, s) {
      forall q | 0 <= q <= |s|
        ensures !TextAt(pat[i].lit, s, q)
      {
      }
      MatchHasText(pat, s, 0, i);
    }
  }

  /** An alternative `#+\s*lit…` fails on a title whose first letter is not
      `lit`'s. */
  lemma OtherLetter(t: string, h: nat, lit: string, rest: Pattern)
    requires HashHead(t, h)
    requires |lit| > 0 && !SameLetter(lit[0], '#') && !SameLetter(lit[0], ' ')
    requires !SameLetter(lit[0], t[h + 1])
    ensures !MatchFrom([Hashes, Spaces, Text(lit)] + rest, t, 0)
  {
    HeadThenText(t, h, lit, rest);
  }

  // ---------------------------------------------------------------------------
  // Titles a category rejects: each lemma rules out every alternative of one
  // category, for any heading whose title starts with none of the letters
  // that category's alternatives start with.

  lemma NotBreaking(t: string, h: nat)
    requires HashHead(t, h) && '\\' !in t
    requires !SameLetter('B', t[h + 1]) && !SameLetter('I', t[h + 1])
    ensures !IsHeadingOf(Breaking, t)
  {
    var pats := Patterns(Breaking);
    assert pats[0] == [Hashes, Spaces, Text("Breaking")] + [Spaces1, Text("Changes"), Boundary];
    OtherLetter(t, h, "Breaking", [Spaces1, Text("Changes"), Boundary]);
    assert pats[1] == [Hashes, Spaces, Text("Breaking")] + [Boundary];
    OtherLetter(t, h, "Breaking", [Boundary]);
    assert pats[2] == [Hashes, Spaces, Text("Incompatible")] + [Spaces1, Text("Changes"), Boundary];
    OtherLetter(t, h, "Incompatible", [Spaces1, Text("Changes"), Boundary]);
    LiteralAbsent(pats[3], t, 1, '\\', '\\');
    AnyMatchesExists(pats, t);
  }

  lemma NotDeprecated(t: string, h: nat)
    requires HashHead(t, h)
    requires !SameLetter('D', t[h + 1])
    ensures !IsHeadingOf(Deprecated, t)
  {
    var pats := Patterns(Deprecated);
    assert pats[0] == [Hashes, Spaces, Text("Deprecation")] + [Optional("s"), Boundary];
    OtherLetter(t, h, "Deprecation", [Optional("s"), Boundary]);
    assert pats[1] == [Hashes, Spaces, Text("Deprecated")] + [Boundary];
    OtherLetter(t, h, "Deprecated", [Boundary]);
    AnyMatchesExists(pats, t);
  }

  /** The emoji alternative is ruled out by a missing `:` or a missing `d`. */
  lemma NotDependency(t: string, h: nat)
    requires HashHead(t, h) && '\\' !in t
    requires ':' !in t || ('d' !in t && 'D' !in t)
    requires !SameLetter('D', t[h + 1]) && !SameLetter('U', t[h + 1])
    ensures !IsHeadingOf(Dependency, t)
  {
    var pats := Patterns(Dependency);
    if ':' !in t {
      LiteralAbsent(pats[0], t, 4, ':', ':');
    } else {
      LiteralAbsent(pats[0], t, 6, 'd', 'D');
    }
    assert pats[1] == [Hashes, Spaces, Text("Dependencies")] + [Boundary];
    OtherLetter(t, h, "Dependencies", [Boundary]);
    assert pats[2] == [Hashes, Spaces, Text("Upgrade")] + [Optional("s"), Boundary];
    OtherLetter(t, h, "Upgrade", [Optional("s"), Boundary]);
    LiteralAbsent(pats[3], t, 1, '\\', '\\');
    AnyMatchesExists(pats, t);
  }

  lemma NotFeatures(t: string, h: nat)
    requires HashHead(t, h) && ':' !in t
    requires !SameLetter('F', t[h + 1]) && !SameLetter('E', t[h + 1]) && !SameLetter('W', t[h + 1])
    ensures !IsHeadingOf(Features, t)
  {
    var pats := Patterns(Features);
    LiteralAbsent(pats[0], t, 4, ':', ':');
    assert pats[1] == [Hashes, Spaces, Text("Features")] + [Boundary];
    OtherLetter(t, h, "Features", [Boundary]);
    assert pats[2] == [Hashes, Spaces, Text("Enhancement")] + [Optional("s"), Boundary];
    OtherLetter(t, h, "Enhancement", [Optional("s"), Boundary]);
    assert pats[3] == [Hashes, Spaces, Text("What")] + [Optional("'"), Text("s"), Spaces1, Text("New"), Boundary];
    OtherLetter(t, h, "What", [Optional("'"), Text("s"), Spaces1, Text("New"), Boundary]);
    AnyMatchesExists(pats, t);
  }

  /** `Bugs` and `Bugfix` are also ruled out by a title starting `B` but not
      `Bu`. */
  lemma NotBugFixes(t: string, h: nat)
    requires HashHead(t, h) && ':' !in t
    requires !SameLetter('F', t[h + 1])
    requires !SameLetter('B', t[h + 1]) || (h + 2 < |t| && !SameLetter('u', t[h + 2]))
    ensures !IsHeadingOf(BugFixes, t)
  {
    var pats := Patterns(BugFixes);
    LiteralAbsent(pats[0], t, 4, ':', ':');
    assert pats[1] == [Hashes, Spaces, Text("Fixes")] + [Boundary];
    OtherLetter(t, h, "Fixes", [Boundary]);
    assert pats[2] == [Hashes, Spaces, Text("Bugs")] + [Boundary];
    assert pats[3] == [Hashes, Spaces, Text("Bugfix")] + [Optional("es"), Boundary];
    if !SameLetter('B', t[h + 1]) {
      OtherLetter(t, h, "Bugs", [Boundary]);
      OtherLetter(t, h, "Bugfix", [Optional("es"), Boundary]);
    } else {
      HeadThenText(t, h, "Bugs", [Boundary]);
      HeadThenText(t, h, "Bugfix", [Optional("es"), Boundary]);
      assert !TextAt("Bugs", t, h + 1) by {
        assert !SameLetter("Bugs"[1], t[h + 1 + 1]);
      }
      assert !TextAt("Bugfix", t, h + 1) by {
        assert !SameLetter("Bugfix"[1], t[h + 1 + 1]);
      }
    }
    AnyMatchesExists(pats, t);
  }

  lemma NotDocs(t: string, h: nat)
    requires HashHead(t, h) && ':' !in t
    requires !SameLetter('D', t[h + 1])
    ensures !IsHeadingOf(Docs, t)
  {
    var pats := Patterns(Docs);
    LiteralAbsent(pats[0], t, 4, ':', ':');
    assert pats[1] == [Hashes, Spaces, Text("Docs")] + [Boundary];
    OtherLetter(t, h, "Docs", [Boundary]);
    AnyMatchesExists(pats, t);
  }

  lemma NotContributors(t: string, h: nat)
    requires HashHead(t, h) && ':' !in t
    requires !SameLetter('T', t[h + 1])
    ensures !IsHeadingOf(Contributors, t)
  {
    var pats := Patterns(Contributors);
    LiteralAbsent(pats[0], t, 4, ':', ':');
    assert pats[1] == [Hashes, Spaces, Text("Thanks")] + [Boundary];
    OtherLetter(t, h, "Thanks", [Boundary]);
    AnyMatchesExists(pats, t);
  }

  // ---------------------------------------------------------------------------
  // Headings a category claims

  lemma TwoHashes(t: string)
    requires |t| > 3 && t[0] == '#' && t[1] == '#' && t[2] == ' ' && !IsSpace(t[3])
    ensures HashHead(t, 2)
  {
    forall i | 0 <= i < 2
      ensures t[i] == '#'
    {
      if i == 1 {
      }
    }
  }

  lemma ThreeHashes(t: string)
    requires |t| > 4 && t[0] == '#' && t[1] == '#' && t[2] == '#' && t[3] == ' ' && !IsSpace(t[4])
    ensures HashHead(t, 3)
  {
    forall i | 0 <= i < 3
      ensures t[i] == '#'
    {
      if i == 1 {
      } else if i == 2 {
      }
    }
  }

  /** `\s+word\b` reads one space and then `word` up to the end of the
      line. */
  lemma WordTail(t: string, p: nat, word: string)
    requires |word| > 0 && p + 1 + |word| == |t| && t[p] == ' ' && TextAt(word, t, p + 1)
    requires !IsSpace(t[p + 1]) && IsWordChar(t[|t| - 1])
    ensures MatchFrom([Spaces1, Text(word), Boundary], t, p)
  {
    var rest := [Spaces1, Text(word), Boundary];
    assert AtBoundary(t, |t|);
    assert [Boundary][1..] == [];
    MatchStep([Boundary], t, |t|, 0);
    MatchText(word, [Boundary], t, p + 1);
    RunLengthUnique(Space, t, p, 1);
    assert rest[1..] == [Text(word), Boundary];
    MatchStep(rest, t, p, 0);
  }

  /** `#+` may read all `h` hashes. */
  lemma HashesThen(t: string, h: nat, rest: Pattern)
    requires HashHead(t, h) && MatchFrom(rest, t, h)
    ensures MatchFrom([Hashes] + rest, t, 0)
  {
    HashEnds(t, h);
    assert ([Hashes] + rest)[1..] == rest;
    MatchStep([Hashes] + rest, t, 0, 0);
  }

  /** `\s*` may read one space before a character that is not a space. */
  lemma SpaceThen(t: string, p: nat, rest: Pattern)
    requires p + 1 < |t| && t[p] == ' ' && !IsSpace(t[p + 1]) && MatchFrom(rest, t, p + 1)
    ensures MatchFrom([Spaces] + rest, t, p)
  {
    SpaceEnds(t, p);
    assert ([Spaces] + rest)[1..] == rest;
    MatchStep([Spaces] + rest, t, p, 0);
  }

  /** `:?` may read a colon. */
  lemma ColonThen(t: string, p: nat, rest: Pattern)
    requires p < |t| && t[p] == ':' && MatchFrom(rest, t, p + 1)
    ensures MatchFrom([Optional(":")] + rest, t, p)
  {
    assert TextAt(":", t, p);
    assert ([Optional(":")] + rest)[1..] == rest;
    MatchStep([Optional(":")] + rest, t, p, 0);
  }

  /** `\w*` may read a whole run of `w` word characters. */
  lemma WordsThen(t: string, p: nat, w: nat, rest: Pattern)
    requires p + w < |t| && !IsWordChar(t[p + w])
    requires forall k | p <= k < p + w :: IsWordChar(t[k])
    requires MatchFrom(rest, t, p + w)
    ensures MatchFrom([Repeat(Word, false)] + rest, t, p)
  {
    RunLengthUnique(Word, t, p, w);
    assert ([Repeat(Word, false)] + rest)[1..] == rest;
    MatchStep([Repeat(Word, false)] + rest, t, p, 0);
  }

  /** An alternative with an emoji short code, atom by atom. */
  lemma EmojiShape(rest: Pattern)
    ensures [Hashes, Spaces] + Emoji + rest ==
      [Hashes] + ([Spaces] + ([Optional(":")] + ([Repeat(Word, false)] + ([Text(":")] + ([Spaces] + rest)))))
  {
    var nested := [Hashes] + ([Spaces] + ([Optional(":")] + ([Repeat(Word, false)] + ([Text(":")] + ([Spaces] + rest)))));
    var flat := [Hashes, Spaces, Optional(":"), Repeat(Word, false), Text(":"), Spaces] + rest;
    assert Emoji == [Optional(":"), Repeat(Word, false), Text(":"), Spaces];
    assert [Hashes, Spaces] + Emoji == [Hashes, Spaces, Optional(":"), Repeat(Word, false), Text(":"), Spaces];
    assert nested == flat;
  }

  /** `#+\s*:?` reads the `h` hashes, the space and the opening colon of
      a heading. */
  lemma OpenThen(t: string, h: nat, rest: Pattern)
    requires HashHead(t, h) && h + 2 <= |t| && t[h + 1] == ':' && MatchFrom(rest, t, h + 2)
    ensures MatchFrom([Hashes] + ([Spaces] + ([Optional(":")] + rest)), t, 0)
  {
    ColonThen(t, h + 1, rest);
    HashSpaceThen(t, h, [Optional(":")] + rest);
  }

  /** `#+\s*` reads the `h` hashes and the space of a heading. */
  lemma HashSpaceThen(t: string, h: nat, rest: Pattern)
    requires HashHead(t, h) && MatchFrom(rest, t, h + 1)
    ensures MatchFrom([Hashes] + ([Spaces] + rest), t, 0)
  {
    SpaceThen(t, h, rest);
    HashesThen(t, h, [Spaces] + rest);
  }

  /** `\w*:\s*` reads `name: ` from position `q`. */
  lemma EmojiName(t: string, q: nat, w: nat, rest: Pattern)
    requires q + 2 + w < |t|
    requires t[q + w] == ':' && t[q + 1 + w] == ' ' && !IsSpace(t[q + 2 + w])
    requires forall k | q <= k < q + w :: IsWordChar(t[k])
    requires MatchFrom(rest, t, q + 2 + w)
    ensures MatchFrom([Repeat(Word, false)] + ([Text(":")] + ([Spaces] + rest)), t, q)
  {
    EmojiClose(t, q + w, rest);
    WordsThen(t, q, w, [Text(":")] + ([Spaces] + rest));
  }

  /** `:\s*` reads the closing colon and one space from position `q`. */
  lemma EmojiClose(t: string, q: nat, rest: Pattern)
    requires q + 2 < |t| && t[q] == ':' && t[q + 1] == ' ' && !IsSpace(t[q + 2])
    requires MatchFrom(rest, t, q + 2)
    ensures MatchFrom([Text(":")] + ([Spaces] + rest), t, q)
  {
    SpaceThen(t, q + 1, rest);
    assert TextAt(":", t, q);
    MatchText(":", [Spaces] + rest, t, q);
  }

  /** The first features alternative, atom by atom. */
  lemma FeaturesEmojiAlt(rest: Pattern)
    requires rest == [Text("New"), Spaces1, Text("Features"), Boundary]
    ensures Patterns(Features)[0] ==
      [Hashes] + ([Spaces] + ([Optional(":")] + ([Repeat(Word, false)] + ([Text(":")] + ([Spaces] + rest)))))
  {
    EmojiShape(rest);
  }

  /** The first breaking-changes alternative, `#+\s*Breaking\s+Changes\b`. */
  lemma BreakingAlt(rest: Pattern)
    requires rest == [Spaces1, Text("Changes"), Boundary]
    ensures Patterns(Breaking)[0] == [Hashes, Spaces, Text("Breaking")] + rest
  {
  }

  /** `#+\s*Breaking\s+Changes\b` reads `h` hashes, a space and
      `Breaking Changes` in any case. */
  lemma BreakingChangesAt(t: string, h: nat)
    requires HashHead(t, h) && |t| == h + 17
    requires TextAt("Breaking", t, h + 1) && t[h + 9] == ' '
    requires TextAt("Changes", t, h + 10) && !IsSpace(t[h + 10]) && IsWordChar(t[h + 16])
    ensures IsHeadingOf(Breaking, t)
  {
    var rest := [Spaces1, Text("Changes"), Boundary];
    HeadThenText(t, h, "Breaking", rest);
    WordTail(t, h + 9, "Changes");
    BreakingAlt(rest);
    assert Matches(Patterns(Breaking)[0], t);
  }

  /** Breaking changes come first in table order: a line they match is
      theirs. */
  lemma BreakingFirst(t: string)
    requires IsHeadingOf(Breaking, t)
    ensures Claim(t) == Some(Breaking)
  {
    assert Categories[0] == Breaking;
    ClaimInFirst(Categories, t, IsHeadingOf, 0);
  }

  /** The words of `Breaking Changes`, in either case, from position `p`. */
  lemma BreakingChangesWords(t: string, p: nat)
    requires p + 16 <= |t|
    requires t[p..p + 8] == "Breaking" || t[p..p + 8] == "breaking"
    requires t[p + 8] == ' '
    requires t[p + 9..p + 16] == "Changes" || t[p + 9..p + 16] == "changes"
    ensures TextAt("Breaking", t, p) && TextAt("Changes", t, p + 9)
    ensures !IsSpace(t[p + 9]) && IsWordChar(t[p + 15])
  {
    assert t[p + 9] == t[p + 9..p + 16][0] && t[p + 15] == t[p + 9..p + 16][6];
    forall k | 0 <= k < 8
      ensures SameLetter("Breaking"[k], t[p + k])
    {
      assert t[p + k] == t[p..p + 8][k];
    }
    forall k | 0 <= k < 7
      ensures SameLetter("Changes"[k], t[p + 9 + k])
    {
      assert t[p + 9 + k] == t[p + 9..p + 16][k];
    }
  }

  /** `## Breaking Changes` is a breaking-changes heading. */
  lemma BreakingChangesClaimed()
    ensures Claim("## Breaking Changes") == Some(Breaking)
  {
    var t := "## Breaking Changes";
    assert IsHeadingOf(Breaking, t) by {
      TwoHashes(t);
      assert t[3..11] == "Breaking" && t[11] == ' ' && t[12..19] == "Changes";
      BreakingChangesWords(t, 3);
      BreakingChangesAt(t, 2);
    }
    BreakingFirst(t);
  }

  /** The match ignores case and the number of hashes: `### breaking
      changes` is a breaking-changes heading too. */
  lemma LowerCaseClaimed()
    ensures Claim("### breaking changes") == Some(Breaking)
  {
    var t := "### breaking changes";
    assert IsHeadingOf(Breaking, t) by {
      ThreeHashes(t);
      assert t[4..12] == "breaking" && t[12] == ' ' && t[13..20] == "changes";
      BreakingChangesWords(t, 4);
      BreakingChangesAt(t, 3);
    }
    BreakingFirst(t);
  }

  /** A line no category matches is claimed by none. */
  lemma Unclaimed(t: string)
    requires !IsHeadingOf(Breaking, t) && !IsHeadingOf(Deprecated, t) && !IsHeadingOf(Dependency, t)
    requires !IsHeadingOf(Features, t) && !IsHeadingOf(BugFixes, t) && !IsHeadingOf(Docs, t)
    requires !IsHeadingOf(Contributors, t)
    ensures Claim(t) == None
  {
    forall k | 0 <= k < |Categories|
      ensures !IsHeadingOf(Categories[k], t)
    {
      CategoriesComplete(Categories[k]);
    }
  }

  /** The emoji short code in `:?\w*:\s*` is optional, but the colon after
      it is not: `## New Features` is claimed by no category, although
      `## Features` and `## :star: New Features` are. */
  lemma NewFeaturesUnclaimed()
    ensures Claim("## New Features") == None
  {
    var t := "## New Features";
    TwoHashes(t);
    assert t[3] == 'N' && ':' !in t && '\\' !in t;
    assert !SameLetter('B', t[3]) && !SameLetter('I', t[3]) && !SameLetter('D', t[3]) && !SameLetter('U', t[3]);
    assert !SameLetter('F', t[3]) && !SameLetter('E', t[3]) && !SameLetter('W', t[3]) && !SameLetter('T', t[3]);
    NotBreaking(t, 2);
    NotDeprecated(t, 2);
    NotDependency(t, 2);
    NotFeatures(t, 2);
    NotBugFixes(t, 2);
    NotDocs(t, 2);
    NotContributors(t, 2);
    Unclaimed(t);
  }

  /** `\b` after `Breaking` and `\s+` before `Changes` stop
      `## Breakingchanges` from being a breaking-changes heading. */
  lemma BreakingWordBoundary(t: string)
    requires t == "## Breakingchanges"
    ensures !IsHeadingOf(Breaking, t)
  {
    TwoHashes(t);
    var pats := Patterns(Breaking);
    assert pats[0] == [Hashes, Spaces, Text("Breaking")] + [Spaces1, Text("Changes"), Boundary];
    HeadThenText(t, 2, "Breaking", [Spaces1, Text("Changes"), Boundary]);
    RunLengthUnique(Space, t, 11, 0);
    assert Ends(Spaces1, t, 11) == [];
    assert pats[1] == [Hashes, Spaces, Text("Breaking")] + [Boundary];
    HeadThenText(t, 2, "Breaking", [Boundary]);
    assert !AtBoundary(t, 11);
    assert Ends(Boundary, t, 11) == [];
    assert pats[2] == [Hashes, Spaces, Text("Incompatible")] + [Spaces1, Text("Changes"), Boundary];
    OtherLetter(t, 2, "Incompatible", [Spaces1, Text("Changes"), Boundary]);
    assert '\\' !in t;
    LiteralAbsent(pats[3], t, 1, '\\', '\\');
    AnyMatchesExists(pats, t);
  }

  /** `## Breakingchanges` is claimed by no category. */
  lemma BreakingchangesUnclaimed()
    ensures Claim("## Breakingchanges") == None
  {
    var t := "## Breakingchanges";
    TwoHashes(t);
    assert t[3] == 'B' && t[4] == 'r' && ':' !in t && '\\' !in t;
    assert !SameLetter('D', t[3]) && !SameLetter('U', t[3]) && !SameLetter('T', t[3]);
    assert !SameLetter('F', t[3]) && !SameLetter('E', t[3]) && !SameLetter('W', t[3]);
    assert !SameLetter('u', t[4]);
    BreakingWordBoundary(t);
    NotDeprecated(t, 2);
    NotDependency(t, 2);
    NotFeatures(t, 2);
    NotBugFixes(t, 2);
    NotDocs(t, 2);
    NotContributors(t, 2);
    Unclaimed(t);
  }

  /** `#+\s*:?\w*:\s*New\s+Features\b` reads a line made of `h` hashes,
      a space, a `w`-letter short code between colons, a space and
      `New Features`. */
  lemma EmojiFeaturesAt(t: string, h: nat, w: nat)
    requires HashHead(t, h) && |t| == h + 16 + w
    requires t[h + 1] == ':' && t[h + 2 + w] == ':' && t[h + 3 + w] == ' '
    requires forall k | h + 2 <= k < h + 2 + w :: IsWordChar(t[k])
    requires TextAt("New", t, h + 4 + w) && t[h + 4 + w] == 'N' && t[h + 7 + w] == ' '
    requires TextAt("Features", t, h + 8 + w) && t[h + 8 + w] == 'F' && t[h + 15 + w] == 's'
    ensures IsHeadingOf(Features, t)
  {
    var rest := [Text("New"), Spaces1, Text("Features"), Boundary];
    NewFeaturesTail(t, h + 4 + w);
    EmojiName(t, h + 2, w, rest);
    OpenThen(t, h, [Repeat(Word, false)] + ([Text(":")] + ([Spaces] + rest)));
    FeaturesByEmoji(t, rest);
  }

  /** A line the first features alternative reads is a features heading. */
  lemma FeaturesByEmoji(t: string, rest: Pattern)
    requires rest == [Text("New"), Spaces1, Text("Features"), Boundary]
    requires MatchFrom([Hashes] + ([Spaces] + ([Optional(":")] + ([Repeat(Word, false)] + ([Text(":")] + ([Spaces] + rest))))), t, 0)
    ensures IsHeadingOf(Features, t)
  {
    FeaturesEmojiAlt(rest);
    assert Matches(Patterns(Features)[0], t);
  }

  /** `New\s+Features\b` reads `New Features` at the end of the line. */
  lemma NewFeaturesTail(t: string, p: nat)
    requires |t| == p + 12
    requires TextAt("New", t, p) && t[p + 3] == ' '
    requires TextAt("Features", t, p + 4) && t[p + 4] == 'F' && t[p + 11] == 's'
    ensures MatchFrom([Text("New"), Spaces1, Text("Features"), Boundary], t, p)
  {
    var tail := [Spaces1, Text("Features"), Boundary];
    WordTail(t, p + 3, "Features");
    MatchText("New", tail, t, p);
    assert [Text("New")] + tail == [Text("New"), Spaces1, Text("Features"), Boundary];
  }

  /** `#+\s*:?\w*:\s*New\s+Features\b` reads `## :star: New Features`. */
  lemma EmojiFeaturesMatch(t: string)
    requires t == "## :star: New Features"
    ensures IsHeadingOf(Features, t)
  {
    TwoHashes(t);
    assert t[3] == ':' && t[8] == ':' && t[9] == ' ';
    assert forall k | 4 <= k < 8 :: IsWordChar(t[k]) by {
      assert t[4] == 's' && t[5] == 't' && t[6] == 'a' && t[7] == 'r';
    }
    assert TextAt("New", t, 10) && t[10] == 'N' && t[13] == ' ';
    assert TextAt("Features", t, 14) && t[14] == 'F' && t[21] == 's';
    EmojiFeaturesAt(t, 2, 4);
  }

  /** Features is claimed when it matches and the three categories before
      it in table order do not. */
  lemma FeaturesFirst(t: string)
    requires !IsHeadingOf(Breaking, t) && !IsHeadingOf(Deprecated, t) && !IsHeadingOf(Dependency, t)
    requires IsHeadingOf(Features, t)
    ensures Claim(t) == Some(Features)
  {
    assert Categories[0] == Breaking && Categories[1] == Deprecated;
    assert Categories[2] == Dependency && Categories[3] == Features;
    ClaimInFirst(Categories, t, IsHeadingOf, 3);
  }

  /** No category before Features in table order matches
      `## :star: New Features`. */
  lemma EmojiFeaturesNotEarlier(t: string)
    requires t == "## :star: New Features"
    ensures !IsHeadingOf(Breaking, t) && !IsHeadingOf(Deprecated, t) && !IsHeadingOf(Dependency, t)
  {
    TwoHashes(t);
    assert t[3] == ':' && '\\' !in t && 'd' !in t && 'D' !in t;
    assert !SameLetter('B', t[3]) && !SameLetter('I', t[3]) && !SameLetter('D', t[3]) && !SameLetter('U', t[3]);
    NotBreaking(t, 2);
    NotDeprecated(t, 2);
    NotDependency(t, 2);
  }

  /** An emoji short code in front of the title is allowed:
      `## :star: New Features` is a features heading, and no earlier
      category in table order matches it. */
  lemma EmojiFeaturesClaimed()
    ensures Claim("## :star: New Features") == Some(Features)
  {
    var t := "## :star: New Features";
    EmojiFeaturesNotEarlier(t);
    EmojiFeaturesMatch(t);
    FeaturesFirst(t);
  }
}
