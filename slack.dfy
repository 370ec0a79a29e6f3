/**
  The Slack message for one release: an ordered list of Block Kit blocks
  built from the release record, the extracted sections and an optional
  AI summary.
 */
module Slack {
  import opened Wrappers
  import opened StringUtil
  import opened Config
  import opened Models
  import opened ReleaseParser

  /** The four kinds of block the message uses; the text of every header is
      plain text, every other text is `mrkdwn`. `Mrkdwn` is Slack's
      `section` block. */
  datatype Block =
    | Header(text: string)
    | Mrkdwn(text: string)
    | Context(text: string)
    | Divider

  /** The title of the AI summary block. */
  const AiHeading: string := "AI 요약"
  const AiLimit: nat := 2700

  /** The title of the excerpt shown when no section has bullets. */
  const ExcerptHeading: string := "요약(원문 일부)"
  const ExcerptLineLimit: nat := 8
  const ExcerptLimit: nat := 1200

  /** The categories in the order the message lists them, with their labels.
      This is not the order of the heading table: Bug Fixes come before
      Dependency Upgrades here. */
  const Labelled: seq<(Category, string)> := [
    (Breaking, "Breaking"),
    (Deprecated, "Deprecated"),
    (Features, "New Features"),
    (BugFixes, "Bug Fixes"),
    (Dependency, "Dependency Upgrades"),
    (Docs, "Documentation"),
    (Contributors, "Contributors")]

  // ---------------------------------------------------------------------------
  // The pieces of the message

  function Title(product: string, rel: Release): string {
    product + " 업데이트: " + rel.tagName
  }

  function LinkText(rel: Release): string {
    "<" + rel.htmlUrl + "|Release notes 열기>"
  }

  /** Python's truth value of an optional string: present and not empty. */
  predicate Truthy(o: Option<string>) {
    o.Some? && o.value != []
  }

  function SubtitleBits(rel: Release): seq<string> {
    (if Truthy(rel.publishedAt) then ["Published: " + rel.publishedAt.value] else [])
    + (if rel.prerelease then ["Prerelease"] else [])
  }

  function Subtitle(rel: Release): string {
    Join(SubtitleBits(rel), " · ")
  }

  /** `sections.get(c, [])`. */
  function Get(sections: map<Category, seq<string>>, c: Category): seq<string> {
    if c in sections then sections[c] else []
  }

  function SectionText(name: string, items: seq<string>): string {
    "*" + name + "*\n" + Join(Take(items, MaxBulletsPerSection), "\n")
  }

  /** `section_block(name, items)`: nothing for an empty list. */
  function SectionBlock(name: string, items: seq<string>): Option<Block> {
    if items == [] then None else Some(Mrkdwn(SectionText(name, items)))
  }

  /** The block, if any, of each labelled category in turn. */
  function LabelledBlocks(order: seq<(Category, string)>, sections: map<Category, seq<string>>): (r: seq<Option<Block>>)
    ensures |r| == |order|
  {
    if order == [] then []
    else
      var (c, name) := order[|order| - 1];
      LabelledBlocks(order[..|order| - 1], sections) + [SectionBlock(name, Get(sections, c))]
  }

  /** The category blocks, in the order of `order`. */
  function CategoryBlocksOf(order: seq<(Category, string)>, sections: map<Category, seq<string>>): seq<Block> {
    if order == [] then []
    else
      var (c, name) := order[|order| - 1];
      CategoryBlocksOf(order[..|order| - 1], sections) + Present(SectionBlock(name, Get(sections, c)))
  }

  function CategoryBlocks(sections: map<Category, seq<string>>): seq<Block> {
    CategoryBlocksOf(Labelled, sections)
  }

  /** `any(sections.get(k) for k in sections)`. */
  predicate AnySection(sections: map<Category, seq<string>>) {
    exists c | c in sections :: sections[c] != []
  }

  /** `[l for l in lines if l.strip()]`. */
  function NonBlank(lines: seq<string>): (r: seq<string>)
    ensures |r| <= |lines|
  {
    if lines == [] then []
    else
      var l := lines[|lines| - 1];
      NonBlank(lines[..|lines| - 1]) + (if Strip(l) != [] then [l] else [])
  }

  /** The indices of the lines that `NonBlank` keeps. */
  function NonBlankSources(lines: seq<string>): (r: seq<nat>)
    ensures |r| <= |lines|
  {
    if lines == [] then []
    else
      var i := |lines| - 1;
      NonBlankSources(lines[..i]) + (if Strip(lines[i]) != [] then [i] else [])
  }

  function Excerpt(body: string): string {
    Strip(Join(Take(NonBlank(SplitLines(body)), ExcerptLineLimit), "\n"))
  }

  function ContextBlocks(rel: Release): seq<Block> {
    if Subtitle(rel) != [] then [Context(Subtitle(rel))] else []
  }

  function AiBlocks(ai: Option<string>, heading: string): seq<Block> {
    if ai.Some? && Strip(ai.value) != [] then [Mrkdwn("*" + heading + "*\n" + Take(Strip(ai.value), AiLimit))] else []
  }

  function FallbackBlocks(rel: Release, sections: map<Category, seq<string>>): seq<Block> {
    var excerpt := Excerpt(rel.body);
    if AnySection(sections) || excerpt == [] then []
    else [Mrkdwn("*" + ExcerptHeading + "*\n```" + Take(excerpt, ExcerptLimit) + "```")]
  }

  /** The whole message, piece by piece. */
  function MessageBlocks(product: string, rel: Release, sections: map<Category, seq<string>>,
                         ai: Option<string>, heading: string): seq<Block> {
    [Header(Title(product, rel)), Mrkdwn(LinkText(rel))]
    + ContextBlocks(rel) + AiBlocks(ai, heading)
    + CategoryBlocks(sections) + FallbackBlocks(rel, sections)
    + [Divider]
  }

  lemma CategoryBlocksOfSnoc(order: seq<(Category, string)>, sections: map<Category, seq<string>>, i: nat)
    requires i < |order|
    ensures CategoryBlocksOf(order[..i + 1], sections)
         == CategoryBlocksOf(order[..i], sections) + Present(SectionBlock(order[i].1, Get(sections, order[i].0)))
  {
    assert order[..i + 1][..i] == order[..i];
  }

  lemma AppendAssoc<T>(a: seq<T>, b: seq<T>, c: seq<T>)
    ensures a + b + c == a + (b + c)
  {
  }

  // ---------------------------------------------------------------------------
  // The builder

  /** The subtitle: the publication date if there is one, then the
      prerelease mark, joined with a middle dot. */
  method BuildSubtitle(rel: Release) returns (subtitle: string)
    ensures subtitle == Subtitle(rel)
  {
    var bits: seq<string> := [];
    if rel.publishedAt.Some? && rel.publishedAt.value != [] {
      bits := bits + ["Published: " + rel.publishedAt.value];
    }
    if rel.prerelease {
      bits := bits + ["Prerelease"];
    }
    subtitle := if bits != [] then Join(bits, " · ") else "";
  }

  /** The loop over the labelled categories: appends the block of each
      category whose list is not empty. */
  method AppendCategoryBlocks(start: seq<Block>, sections: map<Category, seq<string>>) returns (blocks: seq<Block>)
    ensures blocks == start + CategoryBlocks(sections)
  {
    blocks := start;
    var i := 0;
    while i < |Labelled|
      invariant 0 <= i <= |Labelled|
      invariant blocks == start + CategoryBlocksOf(Labelled[..i], sections)
    {
      var (c, name) := Labelled[i];
      var items := if c in sections then sections[c] else [];
      var blk := SectionBlock(name, items);
      CategoryBlocksOfSnoc(Labelled, sections, i);
      ghost var next := CategoryBlocksOf(Labelled[..i + 1], sections);
      assert next == CategoryBlocksOf(Labelled[..i], sections) + Present(blk);
      if blk.Some? {
        AppendAssoc(start, CategoryBlocksOf(Labelled[..i], sections), [blk.value]);
        blocks := blocks + [blk.value];
      } else {
        assert next == CategoryBlocksOf(Labelled[..i], sections);
      }
      i := i + 1;
    }
    assert Labelled[..i] == Labelled;
  }

  /** `slack_blocks_for_release`, with the AI block's title as a parameter. */
  method BuildBlocks(product: string, rel: Release, sections: map<Category, seq<string>>,
                     ai: Option<string>, heading: string) returns (blocks: seq<Block>)
    ensures blocks == MessageBlocks(product, rel, sections, ai, heading)
  {
    var title := product + " 업데이트: " + rel.tagName;
    var subtitle := BuildSubtitle(rel);
    blocks := [Header(title), Mrkdwn("<" + rel.htmlUrl + "|Release notes 열기>")];
    if subtitle != [] {
      blocks := blocks + [Context(subtitle)];
    }
    ghost var upToContext := blocks;
    assert upToContext == [Header(Title(product, rel)), Mrkdwn(LinkText(rel))] + ContextBlocks(rel);
    if ai.Some? && ai.value != [] {
      var trimmed := Strip(ai.value);
      if trimmed != [] {
        blocks := blocks + [Mrkdwn("*" + heading + "*\n" + Take(trimmed, AiLimit))];
      }
    }
    ghost var upToAi := blocks;
    assert upToAi == upToContext + AiBlocks(ai, heading);
    blocks := AppendCategoryBlocks(blocks, sections);
    ghost var upToCategories := blocks;
    if !AnySection(sections) {
      var excerpt := Strip(Join(Take(NonBlank(SplitLines(rel.body)), ExcerptLineLimit), "\n"));
      if excerpt != [] {
        blocks := blocks + [Mrkdwn("*" + ExcerptHeading + "*\n```" + Take(excerpt, ExcerptLimit) + "```")];
      }
    }
    assert blocks == upToCategories + FallbackBlocks(rel, sections);
    blocks := blocks + [Divider];
  }

  /** `slack_blocks_for_release` of the modular bot. */
  method SlackBlocksForRelease(product: string, rel: Release, sections: map<Category, seq<string>>,
                               ai: Option<string>) returns (blocks: seq<Block>)
    ensures blocks == MessageBlocks(product, rel, sections, ai, AiHeading)
  {
    blocks := BuildBlocks(product, rel, sections, ai, AiHeading);
  }

  // ---------------------------------------------------------------------------
  // What the message looks like

  /** A block from the middle of the message: a section or the context. */
  predicate IsBodyBlock(b: Block) {
    b.Mrkdwn? || b.Context?
  }

  lemma {:induction false} CategoryBlocksAreSections(order: seq<(Category, string)>, sections: map<Category, seq<string>>)
    ensures forall k | 0 <= k < |CategoryBlocksOf(order, sections)| :: CategoryBlocksOf(order, sections)[k].Mrkdwn?
  {
    if order != [] {
      CategoryBlocksAreSections(order[..|order| - 1], sections);
    }
  }

  /** The frame of any message assembled from body blocks. */
  lemma FrameOf(first: Block, second: Block, ctx: seq<Block>, ai: seq<Block>, cats: seq<Block>, fallback: seq<Block>)
    requires forall k | 0 <= k < |ctx| :: IsBodyBlock(ctx[k])
    requires forall k | 0 <= k < |ai| :: IsBodyBlock(ai[k])
    requires forall k | 0 <= k < |cats| :: IsBodyBlock(cats[k])
    requires forall k | 0 <= k < |fallback| :: IsBodyBlock(fallback[k])
    requires !first.Divider? && second.Mrkdwn?
    ensures var b := [first, second] + ctx + ai + cats + fallback + [Divider];
      && |b| >= 3 && b[0] == first && b[1] == second && b[|b| - 1] == Divider
      && (forall k | 0 <= k < |b| - 1 :: !b[k].Divider?)
      && (forall k | 1 <= k < |b| :: !b[k].Header?)
  {
    var mid := ctx + ai + cats + fallback;
    var b := [first, second] + ctx + ai + cats + fallback + [Divider];
    assert b == [first, second] + mid + [Divider];
    assert forall k | 0 <= k < |mid| :: IsBodyBlock(mid[k]);
    assert forall k | 2 <= k < |b| - 1 :: b[k] == mid[k - 2];
  }

  lemma PiecesAreBody(rel: Release, sections: map<Category, seq<string>>, ai: Option<string>, heading: string)
    ensures forall k | 0 <= k < |ContextBlocks(rel)| :: ContextBlocks(rel)[k].Context?
    ensures forall k | 0 <= k < |AiBlocks(ai, heading)| :: AiBlocks(ai, heading)[k].Mrkdwn?
    ensures forall k | 0 <= k < |CategoryBlocks(sections)| :: CategoryBlocks(sections)[k].Mrkdwn?
    ensures forall k | 0 <= k < |FallbackBlocks(rel, sections)| :: FallbackBlocks(rel, sections)[k].Mrkdwn?
  {
    CategoryBlocksAreSections(Labelled, sections);
  }

  /** The header comes first and names the product and tag, the link to the
      release notes second, and a divider last; no other block is a header
      or a divider. */
  lemma MessageFrame(product: string, rel: Release, sections: map<Category, seq<string>>,
                     ai: Option<string>, heading: string)
    ensures var b := MessageBlocks(product, rel, sections, ai, heading);
      && |b| >= 3
      && b[0] == Header(product + " 업데이트: " + rel.tagName)
      && b[1] == Mrkdwn("<" + rel.htmlUrl + "|Release notes 열기>")
      && b[|b| - 1] == Divider
      && (forall k | 0 <= k < |b| - 1 :: !b[k].Divider?)
      && (forall k | 1 <= k < |b| :: !b[k].Header?)
  {
    PiecesAreBody(rel, sections, ai, heading);
    FrameOf(Header(Title(product, rel)), Mrkdwn(LinkText(rel)), ContextBlocks(rel), AiBlocks(ai, heading),
            CategoryBlocks(sections), FallbackBlocks(rel, sections));
  }

  /** The subtitle lists the publication date, if any, then the prerelease
      mark, separated by a middle dot; it is empty when there is neither. */
  lemma SubtitleCases(rel: Release)
    ensures Subtitle(rel) == [] <==> !Truthy(rel.publishedAt) && !rel.prerelease
    ensures Truthy(rel.publishedAt) && rel.prerelease ==>
      Subtitle(rel) == "Published: " + rel.publishedAt.value + " · Prerelease"
    ensures Truthy(rel.publishedAt) && !rel.prerelease ==>
      Subtitle(rel) == "Published: " + rel.publishedAt.value
    ensures !Truthy(rel.publishedAt) && rel.prerelease ==> Subtitle(rel) == "Prerelease"
  {
    if Truthy(rel.publishedAt) && rel.prerelease {
      var bits := SubtitleBits(rel);
      assert bits == ["Published: " + rel.publishedAt.value, "Prerelease"];
      assert bits[1..] == ["Prerelease"];
      assert Join(bits, " · ") == bits[0] + " · " + "Prerelease";
      AppendAssoc(bits[0], " · ", "Prerelease");
    }
  }

  /** Where the context block can be: only right after the link. */
  lemma ContextPlace(first: Block, second: Block, ctx: seq<Block>, ai: seq<Block>, cats: seq<Block>, fallback: seq<Block>)
    requires forall k | 0 <= k < |ai| :: ai[k].Mrkdwn?
    requires forall k | 0 <= k < |cats| :: cats[k].Mrkdwn?
    requires forall k | 0 <= k < |fallback| :: fallback[k].Mrkdwn?
    requires !first.Context? && !second.Context?
    requires |ctx| <= 1
    ensures var b := [first, second] + ctx + ai + cats + fallback + [Divider];
      && ((exists k | 0 <= k < |b| :: b[k].Context?) <==> exists k | 0 <= k < |ctx| :: ctx[k].Context?)
      && (|ctx| == 1 ==> b[2] == ctx[0])
  {
    var rest := ai + cats + fallback + [Divider];
    var b := [first, second] + ctx + ai + cats + fallback + [Divider];
    assert b == [first, second] + ctx + rest;
    assert b[0] == first && b[1] == second;
    assert forall k | 0 <= k < |rest| :: !rest[k].Context?;
    assert forall k | 2 + |ctx| <= k < |b| :: b[k] == rest[k - 2 - |ctx|];
    assert forall k | 2 <= k < 2 + |ctx| :: b[k] == ctx[k - 2];
    if k :| 0 <= k < |b| && b[k].Context? {
      assert 2 <= k < 2 + |ctx| && ctx[k - 2].Context?;
    }
    if k :| 0 <= k < |ctx| && ctx[k].Context? {
      assert b[k + 2].Context?;
    }
  }

  /** There is a context block exactly when the release has a publication
      date or is a prerelease; it is the third block and holds the
      subtitle. */
  lemma ContextIff(product: string, rel: Release, sections: map<Category, seq<string>>,
                   ai: Option<string>, heading: string)
    ensures var b := MessageBlocks(product, rel, sections, ai, heading);
      && ((exists k | 0 <= k < |b| :: b[k].Context?) <==> Truthy(rel.publishedAt) || rel.prerelease)
      && (Truthy(rel.publishedAt) || rel.prerelease ==> b[2] == Context(Subtitle(rel)))
  {
    SubtitleCases(rel);
    PiecesAreBody(rel, sections, ai, heading);
    ContextPlace(Header(Title(product, rel)), Mrkdwn(LinkText(rel)), ContextBlocks(rel), AiBlocks(ai, heading),
                 CategoryBlocks(sections), FallbackBlocks(rel, sections));
  }

  /** The AI block is there exactly when the summary is not blank; it shows
      the stripped summary, cut to its first 2700 characters. */
  lemma AiBlockRule(ai: Option<string>, heading: string)
    ensures AiBlocks(ai, heading) != [] <==> ai.Some? && Strip(ai.value) != []
    ensures AiBlocks(ai, heading) != [] ==>
      exists p :: && AiBlocks(ai, heading) == [Mrkdwn("*" + heading + "*\n" + p)]
                  && |p| <= AiLimit && |p| <= |Strip(ai.value)| && p == Strip(ai.value)[..|p|]
                  && (|Strip(ai.value)| <= AiLimit ==> p == Strip(ai.value))
                  && (|Strip(ai.value)| > AiLimit ==> |p| == AiLimit)
  {
    if ai.Some? && Strip(ai.value) != [] {
      var p := Take(Strip(ai.value), AiLimit);
      assert AiBlocks(ai, heading) == [Mrkdwn("*" + heading + "*\n" + p)];
    }
  }

  lemma {:induction false} LabelledBlocksAt(order: seq<(Category, string)>, sections: map<Category, seq<string>>, i: nat)
    requires i < |order|
    ensures LabelledBlocks(order, sections)[i] == SectionBlock(order[i].1, Get(sections, order[i].0))
  {
    if i < |order| - 1 {
      LabelledBlocksAt(order[..|order| - 1], sections, i);
    }
  }

  lemma {:induction false} CategoryBlocksAsSomes(order: seq<(Category, string)>, sections: map<Category, seq<string>>)
    ensures CategoryBlocksOf(order, sections) == Somes(LabelledBlocks(order, sections))
  {
    if order != [] {
      var init := order[..|order| - 1];
      CategoryBlocksAsSomes(init, sections);
      var xs := LabelledBlocks(order, sections);
      assert xs[..|xs| - 1] == LabelledBlocks(init, sections);
    }
  }

  /** Every present value's position is listed among the sources. */
  lemma {:induction false} SomeSourcesComplete<T>(xs: seq<Option<T>>, i: nat)
    requires i < |xs| && xs[i].Some?
    ensures i in SomeSources(xs)
  {
    if i < |xs| - 1 {
      SomeSourcesComplete(xs[..|xs| - 1], i);
    }
  }

  /** The category blocks are, in the order of `Labelled`, one block for
      each category whose list is not empty, and none for the others. */
  lemma CategoryBlocksInOrder(sections: map<Category, seq<string>>)
    ensures var xs := LabelledBlocks(Labelled, sections);
      && CategoryBlocks(sections) == Somes(xs)
      && Traces(xs, CategoryBlocks(sections), SomeSources(xs))
      && (forall i | 0 <= i < |Labelled| :: i in SomeSources(xs) <==> Get(sections, Labelled[i].0) != [])
      && (forall i | 0 <= i < |Labelled| :: xs[i] == SectionBlock(Labelled[i].1, Get(sections, Labelled[i].0)))
  {
    var xs := LabelledBlocks(Labelled, sections);
    CategoryBlocksAsSomes(Labelled, sections);
    SomesTraced(xs);
    forall i | 0 <= i < |Labelled|
      ensures xs[i] == SectionBlock(Labelled[i].1, Get(sections, Labelled[i].0))
      ensures i in SomeSources(xs) <==> Get(sections, Labelled[i].0) != []
    {
      LabelledBlocksAt(Labelled, sections, i);
      if xs[i].Some? {
        SomeSourcesComplete(xs, i);
      }
      if i in SomeSources(xs) {
        var m :| 0 <= m < |SomeSources(xs)| && SomeSources(xs)[m] == i;
      }
    }
  }

  /** Every category has a place in the message's order ... */
  lemma LabelledCovers(c: Category) returns (i: nat)
    ensures i < |Labelled| && Labelled[i].0 == c
  {
    match c
    case Breaking => i := 0;
    case Deprecated => i := 1;
    case Features => i := 2;
    case BugFixes => i := 3;
    case Dependency => i := 4;
    case Docs => i := 5;
    case Contributors => i := 6;
  }

  /** ... and only one. */
  lemma LabelledDistinct()
    ensures forall i, j | 0 <= i < j < |Labelled| :: Labelled[i].0 != Labelled[j].0
  {
  }

  /** A category block's text is its bold label on one line, then its first
      eight items, one per line: splitting the text into lines gives exactly
      those, provided the label and the items hold no line break and no item
      is empty. */
  lemma SectionTextLines(name: string, items: seq<string>)
    requires items != []
    requires IsLine(name)
    requires forall j | 0 <= j < |items| :: IsLine(items[j]) && items[j] != []
    ensures SplitLines(SectionText(name, items)) == ["*" + name + "*"] + Take(items, MaxBulletsPerSection)
  {
    var shown := Take(items, MaxBulletsPerSection);
    var title := "*" + name + "*";
    assert IsLine(title) by {
      forall k | 0 <= k < |title|
        ensures !IsLineBreak(title[k])
      {
        if 0 < k < |title| - 1 {
          assert title[k] == name[k - 1];
        }
      }
    }
    JoinCons(title, shown, "\n");
    assert SectionText(name, items) == Join([title] + shown, "\n");
    var all := [title] + shown;
    assert forall j | 0 <= j < |all| :: IsLine(all[j]) by {
      forall j | 1 <= j < |all|
        ensures IsLine(all[j])
      {
        assert all[j] == items[j - 1];
      }
    }
    SplitLinesJoin(all);
  }

  lemma {:induction false} CategoryBlocksEmpty(order: seq<(Category, string)>, sections: map<Category, seq<string>>)
    ensures CategoryBlocksOf(order, sections) == [] <==>
      forall i | 0 <= i < |order| :: Get(sections, order[i].0) == []
  {
    if order != [] {
      var init := order[..|order| - 1];
      CategoryBlocksEmpty(init, sections);
      CategoryBlocksLast(order, sections);
      AllEmptyLast(order, sections);
    }
  }

  /** Every category of `order` has an empty list. */
  predicate AllEmpty(order: seq<(Category, string)>, sections: map<Category, seq<string>>) {
    forall i | 0 <= i < |order| :: Get(sections, order[i].0) == []
  }

  /** Every list of a non-empty order is empty exactly when every list of all
      but its last category is, and the last one is. */
  lemma AllEmptyLast(order: seq<(Category, string)>, sections: map<Category, seq<string>>)
    requires order != []
    ensures AllEmpty(order, sections) <==>
      AllEmpty(order[..|order| - 1], sections) && Get(sections, order[|order| - 1].0) == []
  {
    var init := order[..|order| - 1];
    assert forall i | 0 <= i < |init| :: init[i] == order[i];
  }

  /** The blocks of a non-empty order are missing exactly when those of all
      but its last category are, and the last category's list is empty. */
  lemma CategoryBlocksLast(order: seq<(Category, string)>, sections: map<Category, seq<string>>)
    requires order != []
    ensures CategoryBlocksOf(order, sections) == [] <==>
      CategoryBlocksOf(order[..|order| - 1], sections) == [] && Get(sections, order[|order| - 1].0) == []
  {
    var (c, name) := order[|order| - 1];
    SectionBlockAbsent(name, Get(sections, c));
  }

  /** A category contributes no block exactly when its list is empty. */
  lemma SectionBlockAbsent(name: string, items: seq<string>)
    ensures Present(SectionBlock(name, items)) == [] <==> items == []
  {
  }

  /** The category blocks are missing exactly when every list is empty, so
      the excerpt stands in for them and never sits beside them. */
  lemma FallbackReplacesSections(rel: Release, sections: map<Category, seq<string>>)
    ensures CategoryBlocks(sections) == [] <==> !AnySection(sections)
    ensures FallbackBlocks(rel, sections) != [] ==> CategoryBlocks(sections) == []
  {
    CategoryBlocksEmpty(Labelled, sections);
    if AnySection(sections) {
      var c :| c in sections && sections[c] != [];
      var i := LabelledCovers(c);
      assert Get(sections, Labelled[i].0) != [];
    }
  }

  /** Some line has text: it is not all whitespace. */
  predicate HasText(lines: seq<string>) {
    exists j | 0 <= j < |lines| :: Strip(lines[j]) != []
  }

  /** The lines `NonBlank` keeps have text and come from strictly
      increasing indices, in that order. */
  lemma {:induction false} NonBlankTraced(lines: seq<string>)
    ensures var kept, src := NonBlank(lines), NonBlankSources(lines);
      && |src| == |kept|
      && (forall m | 0 <= m < |src| :: src[m] < |lines| && kept[m] == lines[src[m]] && Strip(kept[m]) != [])
      && (forall m, n | 0 <= m < n < |src| :: src[m] < src[n])
  {
    if lines != [] {
      var i := |lines| - 1;
      var init := lines[..i];
      NonBlankTraced(init);
      var kept0, src0 := NonBlank(init), NonBlankSources(init);
      var kept, src := NonBlank(lines), NonBlankSources(lines);
      assert kept == kept0 + (if Strip(lines[i]) != [] then [lines[i]] else []);
      assert src == src0 + (if Strip(lines[i]) != [] then [i] else []);
      forall m | 0 <= m < |src|
        ensures src[m] < |lines| && kept[m] == lines[src[m]] && Strip(kept[m]) != []
      {
        if m < |src0| {
          assert src[m] == src0[m] && kept[m] == kept0[m];
          assert init[src0[m]] == lines[src0[m]];
        }
      }
      forall m, n | 0 <= m < n < |src|
        ensures src[m] < src[n]
      {
        assert src[m] == src0[m] && src0[m] < |init|;
        if n < |src0| {
          assert src[n] == src0[n];
        }
      }
    }
  }

  /** Every line with text has its index among the kept ones. */
  lemma {:induction false} NonBlankComplete(lines: seq<string>)
    ensures forall j | 0 <= j < |lines| && Strip(lines[j]) != [] :: j in NonBlankSources(lines)
  {
    if lines != [] {
      var i := |lines| - 1;
      var init := lines[..i];
      NonBlankComplete(init);
      var src0, src := NonBlankSources(init), NonBlankSources(lines);
      assert src == src0 + (if Strip(lines[i]) != [] then [i] else []);
      forall j | 0 <= j < |lines| && Strip(lines[j]) != []
        ensures j in src
      {
        if j < i {
          assert init[j] == lines[j];
          assert j in src0;
        } else {
          assert src[|src| - 1] == i;
        }
      }
    }
  }

  /** `NonBlank` keeps every line with text and only those, in their order:
      its entries are the lines at strictly increasing indices, and every
      line with text has its index among them. */
  lemma NonBlankLines(lines: seq<string>)
    ensures var kept, src := NonBlank(lines), NonBlankSources(lines);
      && |src| == |kept|
      && (forall m | 0 <= m < |src| :: src[m] < |lines| && kept[m] == lines[src[m]] && Strip(kept[m]) != [])
      && (forall m, n | 0 <= m < n < |src| :: src[m] < src[n])
      && (forall j | 0 <= j < |lines| && Strip(lines[j]) != [] :: j in src)
    ensures NonBlank(lines) == [] <==> !HasText(lines)
  {
    NonBlankTraced(lines);
    NonBlankComplete(lines);
    var src := NonBlankSources(lines);
    if src != [] {
      assert Strip(lines[src[0]]) != [];
    }
    if j :| 0 <= j < |lines| && Strip(lines[j]) != [] {
      assert j in src;
    }
  }

  lemma JoinStartsWithFirst(xs: seq<string>, sep: string)
    requires xs != []
    ensures |xs[0]| <= |Join(xs, sep)| && Join(xs, sep)[..|xs[0]|] == xs[0]
  {
  }

  /** The excerpt is empty exactly when the body has no line with text. */
  lemma ExcerptEmpty(body: string)
    ensures Excerpt(body) == [] <==> !HasText(SplitLines(body))
  {
    var lines := SplitLines(body);
    NonBlankLines(lines);
    var kept := Take(NonBlank(lines), ExcerptLineLimit);
    var joined := Join(kept, "\n");
    assert Excerpt(body) == Strip(joined);
    if NonBlank(lines) != [] {
      assert kept[0] == NonBlank(lines)[0];
      assert Strip(kept[0]) != [];
      JoinNotBlank(kept, "\n");

    } else {
      assert kept == [];
      assert joined == [];
    }
  }

  /** A join whose first piece has text has text. */
  lemma JoinNotBlank(xs: seq<string>, sep: string)
    requires xs != [] && Strip(xs[0]) != []
    ensures Strip(Join(xs, sep)) != []
  {
    var first := xs[0];
    var joined := Join(xs, sep);
    StripEmpty(first);
    var k :| 0 <= k < |first| && !IsSpace(first[k]);
    JoinStartsWithFirst(xs, sep);
    assert joined[k] == first[k];
    StripEmpty(joined);
  }

  /** The first `n` lines with text: they come from strictly increasing
      indices, and a line with text is left out only when `n` earlier ones
      were kept. */
  lemma FirstWithText(lines: seq<string>, n: nat)
    ensures var kept, src := Take(NonBlank(lines), n), Take(NonBlankSources(lines), n);
      && |kept| == |src| <= n
      && (forall m | 0 <= m < |src| :: src[m] < |lines| && kept[m] == lines[src[m]] && Strip(kept[m]) != [])
      && (forall m, k | 0 <= m < k < |src| :: src[m] < src[k])
      && (forall j | 0 <= j < |lines| && Strip(lines[j]) != [] && j !in src ::
            |src| == n && forall m | 0 <= m < |src| :: src[m] < j)
  {
    NonBlankLines(lines);
    var all := NonBlankSources(lines);
    var src := Take(all, n);
    assert forall m | 0 <= m < |src| :: src[m] == all[m];
    forall j | 0 <= j < |lines| && Strip(lines[j]) != [] && j !in src
      ensures |src| == n && forall m | 0 <= m < |src| :: src[m] < j
    {
      assert j in all;
      var k :| 0 <= k < |all| && all[k] == j;
      if k < |src| {
        assert src[k] == j;
      }
    }
  }

  /** The excerpt block appears exactly when no section has bullets and the
      body has a line with text; it shows the first 1200 characters of the
      excerpt in a code span. The excerpt is the stripped join of the first
      eight lines of the body that have text, in their order: a line with
      text is left out only when eight earlier ones were kept. */
  lemma FallbackRule(rel: Release, sections: map<Category, seq<string>>)
    ensures FallbackBlocks(rel, sections) != [] <==>
      !AnySection(sections) && HasText(SplitLines(rel.body))
    ensures FallbackBlocks(rel, sections) != [] ==>
      FallbackBlocks(rel, sections) == [Mrkdwn("*" + ExcerptHeading + "*\n```" + Take(Excerpt(rel.body), ExcerptLimit) + "```")]
    ensures var lines := SplitLines(rel.body);
      var kept, src := Take(NonBlank(lines), ExcerptLineLimit), Take(NonBlankSources(lines), ExcerptLineLimit);
      && Excerpt(rel.body) == Strip(Join(kept, "\n"))
      && |kept| == |src| <= ExcerptLineLimit
      && (forall m | 0 <= m < |src| :: src[m] < |lines| && kept[m] == lines[src[m]] && Strip(kept[m]) != [])
      && (forall m, k | 0 <= m < k < |src| :: src[m] < src[k])
      && (forall j | 0 <= j < |lines| && Strip(lines[j]) != [] && j !in src ::
            |src| == ExcerptLineLimit && forall m | 0 <= m < |src| :: src[m] < j)
  {
    ExcerptEmpty(rel.body);
    FirstWithText(SplitLines(rel.body), ExcerptLineLimit);
  }

  /** Lists produced by the section extractor never exceed the cap, so the
      message shows every bullet it was given. */
  lemma ExtractedSectionsShownWhole(lines: seq<string>, c: Category)
    ensures Take(Get(SectionsSpec(lines), c), MaxBulletsPerSection) == Get(SectionsSpec(lines), c)
  {
    SectionsShape(lines, c);
  }
}

