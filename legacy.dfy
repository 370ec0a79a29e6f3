/**
  The standalone single-file bot carries its own copies of the heading
  table, the version comparator, the flag reader, the section extractor and
  the Slack builder. All but the Slack builder are the same code as the
  modular bot's and are modelled once, in their own modules; the Slack
  builder differs in the title of the AI block only.
 */
module Legacy {
  import opened Wrappers
  import opened StringUtil
  import opened Config
  import opened Models
  import opened Slack

  /** The title of the AI block in the standalone bot. */
  const LegacyAiHeading: string := "AI 요약 (Gemini)"

  /** `slack_blocks_for_release` of the standalone bot. */
  method LegacySlackBlocksForRelease(product: string, rel: Release, sections: map<Category, seq<string>>,
                                     ai: Option<string>) returns (blocks: seq<Block>)
    ensures blocks == MessageBlocks(product, rel, sections, ai, LegacyAiHeading)
  {
    blocks := BuildBlocks(product, rel, sections, ai, LegacyAiHeading);
  }

  /** Two messages built with different AI titles agree block for block,
      except that the AI block, when there is one, carries the other title
      over the same summary text. */
  lemma {:induction false} OnlyAiTitleDiffers(product: string, rel: Release, sections: map<Category, seq<string>>,
                                              ai: Option<string>, h1: string, h2: string)
    ensures var b1 := MessageBlocks(product, rel, sections, ai, h1);
            var b2 := MessageBlocks(product, rel, sections, ai, h2);
            var n := 2 + |ContextBlocks(rel)|;
      && |b1| == |b2|
      && (forall k | 0 <= k < |b1| && k != n :: b1[k] == b2[k])
      && (AiBlocks(ai, h1) == [] ==> b1 == b2)
      && (AiBlocks(ai, h1) != [] ==> exists p :: b1[n] == Mrkdwn("*" + h1 + "*\n" + p) && b2[n] == Mrkdwn("*" + h2 + "*\n" + p))
  {
    var a1, a2 := AiBlocks(ai, h1), AiBlocks(ai, h2);
    SameButAi(Header(Title(product, rel)), Mrkdwn(LinkText(rel)), ContextBlocks(rel), a1, a2,
              CategoryBlocks(sections), FallbackBlocks(rel, sections));
    if a1 != [] {
      var p := Take(Strip(ai.value), AiLimit);
      assert a1 == [Mrkdwn("*" + h1 + "*\n" + p)];
      assert a2 == [Mrkdwn("*" + h2 + "*\n" + p)];
    }
  }

  /** Two messages assembled from the same pieces but for the AI slot. */
  lemma SameButAi(first: Block, second: Block, ctx: seq<Block>, a1: seq<Block>, a2: seq<Block>,
                  cats: seq<Block>, fallback: seq<Block>)
    requires |a1| == |a2| <= 1
    ensures var b1 := [first, second] + ctx + a1 + cats + fallback + [Divider];
            var b2 := [first, second] + ctx + a2 + cats + fallback + [Divider];
            var n := 2 + |ctx|;
      && |b1| == |b2|
      && (forall k | 0 <= k < |b1| && k != n :: b1[k] == b2[k])
      && (|a1| == 1 ==> b1[n] == a1[0] && b2[n] == a2[0])
      && (a1 == [] ==> b1 == b2)
  {
    var pre := [first, second] + ctx;
    var post := cats + fallback + [Divider];
    var b1 := [first, second] + ctx + a1 + cats + fallback + [Divider];
    var b2 := [first, second] + ctx + a2 + cats + fallback + [Divider];
    assert b1 == pre + a1 + post;
    assert b2 == pre + a2 + post;
  }
}
