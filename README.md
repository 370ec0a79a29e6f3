# release-noti-bot, modelled in Dafny

release-noti-bot watches the latest GitHub release of a few repositories. It
announces each new release to Slack. This project models the bot's decision
and formatting logic and proves what that logic promises:

- **Version comparator** (`Semver`): `parse_semver` reads a tag into
  `(major, minor, patch, rest)`. `semver_gt` orders two tags: integer triple
  first, then an empty suffix beats a non-empty one, then suffixes by code
  point. The comparator is shown to be irreflexive, asymmetric, transitive
  and total up to equal parses. A rendered version parses back to itself when
  its suffix is canonical: no `\n` in it and, when it is not empty, no digit
  first and no whitespace at either end.
- **Announcement gate** (`Gate`): a release with a tag is announced when
  nothing is recorded for its repository or its tag is newer than the
  recorded one. Recording the tag blocks repeats and rollbacks.
- **Section extractor** (`Config`, `Regex`, `ReleaseParser`):
  - `extract_sections` splits the release notes into lines.
  - Pass 1 finds each category's heading: the first category in table order
    whose pattern matches claims a line, and the last heading of a category
    wins.
  - Pass 2 collects up to eight normalised bullets under each heading. It
    stops at a heading of the same or a shallower level.
  - The heading patterns are data: a small language of regex atoms,
    interpreted with backtracking semantics.
  - `ConfigExamples` proves which category claims each of these titles:
    `## Breaking Changes`, `### breaking changes` and
    `## :star: New Features` are claimed by their categories, and
    `## Breakingchanges` and `## New Features` by none.
  - `ExtractSections` is an imperative method. It is proved equal to the
    reference definition `SectionsSpec`, and that definition's properties are
    proved as lemmas.
- **Slack builder** (`Slack`): `slack_blocks_for_release` maps a release, its
  sections and an optional AI summary to an ordered list of blocks. It is an
  imperative method proved equal to `MessageBlocks`, whose structural rules
  are proved as lemmas:
  - frame, context block and AI block;
  - category order and labels;
  - the excerpt fallback;
  - truncation limits.
- **Environment helpers** (`Env`):
  - `env_bool` reads a boolean flag.
  - `load_env_file` loads `.env` lines without overriding set variables. It is
    a class `Environment` whose method updates its `vars` map and is proved
    equal to the fold `Loaded`.
- **Standalone copy** (`Legacy`): `scripts/release-notfier.py` carries its
  own copies of the heading table, `env_bool`, `parse_semver`, `semver_gt`,
  `extract_sections` and `slack_blocks_for_release`.
  - All but the Slack builder are the same code as the modular bot's, up to
    indentation and comments. They are modelled once, and the table below
    cites both copies.
  - The Slack builder differs only in the title of the AI block.
    `Legacy.OnlyAiTitleDiffers` proves the two messages agree everywhere
    else.

Strings are `seq<char>`. Python's `str.strip`, the regex `\s` and
`str.splitlines` use Python's full whitespace and line-break sets. `str.lower`,
`\w`, `\d` and case-insensitive matching are ASCII only.

## Model

| member | source | states |
|---|---|---|
| Semver.ParseFallback | scripts/utils.py:69-72 | The parse is `(0, 0, 0, tag)` with the unstripped tag exactly when the stripped tag does not match `^v?\d+...$` (no `[v]digit` start, or a `\n` inside the stripped tag, which `.` does not cross); the standalone copy at release-notfier.py lines 128-131 is the same code. |
| Semver.ParseRestStripped | scripts/utils.py:76 | On the matching path the suffix has no whitespace at either end. |
| Semver.RenderParses | scripts/utils.py:65-77 | Any version whose suffix is canonical, rendered as `major.minor.patch` + suffix, parses back to itself: the three digit groups are read as integers and the rest is the suffix (likewise for the standalone copy, release-notfier.py lines 124-136). |
| Semver.DigitsValueOfNatDigits | scripts/utils.py:73-75 | `int` of the decimal digits of `n` is `n`. |
| Semver.ReadRun | scripts/utils.py:66-73 | A maximal run of digits is read whole as the major part, with its integer value. |
| Semver.ReadDotted | scripts/utils.py:66-75 | `.` followed by a maximal digit run is read as the optional minor or patch group. |
| Semver.SemverGtIrreflexive | scripts/utils.py:79-86 | `semver_gt(a, b)` is false whenever both tags parse to the same tuple, in particular for `a == b` (likewise for the standalone copy, release-notfier.py lines 139-146). |
| Semver.SemverGtAsymmetric | scripts/utils.py:79-91 | `semver_gt(a, b)` and `semver_gt(b, a)` never both hold (likewise for the standalone copy, release-notfier.py lines 139-151). |
| Semver.SemverGtTransitive | scripts/utils.py:79-91 | `semver_gt` is transitive. |
| Semver.SemverGtTotal | scripts/utils.py:79-91 | Two tags that parse differently are ordered one way or the other. |
| Semver.VersionGtIrreflexive | scripts/utils.py:84-86 | On parsed versions the comparison is irreflexive. |
| Semver.VersionGtAsymmetric | scripts/utils.py:82-91 | On parsed versions the comparison is asymmetric. |
| Semver.VersionGtTransitive | scripts/utils.py:82-91 | On parsed versions the comparison is transitive, across the triple, empty-suffix and string-suffix cases. |
| Semver.VersionGtTotal | scripts/utils.py:82-91 | Two distinct parsed versions are ordered one way or the other. |
| Semver.StableBeatsSuffixed | scripts/utils.py:87-90 | With equal triples an empty suffix beats a non-empty one, and not the converse (likewise for the standalone copy, release-notfier.py lines 147-150). |
| SemverExamples.ParseMissingPatch | scripts/utils.py:65-75 | `"3.2"` parses to `(3, 2, 0, "")`. |
| SemverExamples.ParseV1_0 | scripts/utils.py:65-75 | `"v1.0"` parses to `(1, 0, 0, "")`: the lower-case `v` is skipped. |
| SemverExamples.ParseUpperV | scripts/utils.py:69-72 | `"V1.0"` falls back to `(0, 0, 0, "V1.0")`. |
| SemverExamples.ParseNoDigits | scripts/utils.py:69-72 | `"nightly"` falls back to `(0, 0, 0, "nightly")`. |
| SemverExamples.ParseFourParts | scripts/utils.py:65-76 | `"1.2.3.4"` parses to `(1, 2, 3, ".4")`. |
| SemverExamples.ParseDotLetter | scripts/utils.py:65-76 | `"1.x"` parses to `(1, 0, 0, ".x")`. |
| SemverExamples.Parse3_2_0RC1 | scripts/utils.py:65-77 | `"3.2.0-RC1"` parses to `(3, 2, 0, "-RC1")`. |
| SemverExamples.Parse3_10_0 | scripts/utils.py:65-77 | `"3.10.0"` parses to `(3, 10, 0, "")`. |
| SemverExamples.Parse3_9_9 | scripts/utils.py:65-77 | `"3.9.9"` parses to `(3, 9, 9, "")`. |
| SemverExamples.Parse3_2_0 | scripts/utils.py:65-77 | `"3.2.0"` parses to `(3, 2, 0, "")`. |
| SemverExamples.Parse1_0_0 | scripts/utils.py:65-77 | `"1.0.0"` parses to `(1, 0, 0, "")`. |
| SemverExamples.Parse1_0_0Rc2 | scripts/utils.py:65-77 | `"1.0.0-rc.2"` parses to `(1, 0, 0, "-rc.2")`. |
| SemverExamples.Parse1_0_0Rc10 | scripts/utils.py:65-77 | `"1.0.0-rc.10"` parses to `(1, 0, 0, "-rc.10")`. |
| SemverExamples.NumericParts | scripts/utils.py:82-83 | `"3.10.0"` is newer than `"3.9.9"`: parts compare as integers. |
| SemverExamples.ReleaseBeatsCandidate | scripts/utils.py:87-88 | `semver_gt("3.2.0", "3.2.0-RC1")` holds. |
| SemverExamples.CandidateNotNewer | scripts/utils.py:89-90 | `semver_gt("3.2.0-RC1", "3.2.0")` does not hold. |
| SemverExamples.SuffixesByCodePoint | scripts/utils.py:91 | `"1.0.0-rc.2"` is newer than `"1.0.0-rc.10"`: suffixes compare by code point, not by Semantic Versioning 2.0.0 precedence. |
| SemverExamples.SameVersionSpelledTwice | scripts/utils.py:79-86 | `"v1.0"` and `"1.0.0"` are the same version: neither is newer. |
| StringUtil.LexLessIrreflexive | scripts/utils.py:91 | Python's `<` on strings is irreflexive. |
| StringUtil.LexLessAsymmetric | scripts/utils.py:91 | Python's `<` on strings is asymmetric. |
| StringUtil.LexLessTransitive | scripts/utils.py:91 | Python's `<` on strings is transitive. |
| StringUtil.LexLessTotal | scripts/utils.py:91 | Two distinct strings are ordered by Python's `<` one way or the other. |
| StringUtil.Take | scripts/slack_client.py:27 | `s[:n]` is the prefix of length `min(n, len(s))`: the whole of `s` when it fits, otherwise exactly `n` elements. |
| StringUtil.SplitLines | scripts/release_parser.py:8 | `splitlines()` of a string is empty exactly when the string is. |
| StringUtil.StripSlice | scripts/utils.py:14 | `strip()` returns a slice of its input with no whitespace at either end, and only whitespace is cut off around it. |
| StringUtil.StripEmpty | scripts/release_parser.py:37-39 | A stripped line is empty exactly when every character of it is whitespace. |
| StringUtil.StripLower | scripts/utils.py:14 | Stripping and lower-casing commute. |
| StringUtil.SplitLinesNoBreaks | scripts/release_parser.py:8 | No line from `splitlines()` holds a line boundary. |
| StringUtil.SplitLinesJoin | scripts/release_parser.py:8 | `splitlines()` undoes `"\n".join(xs)` when no piece holds a boundary and the last piece is not empty. |
| Gate.Record | scripts/main.py:118 | Recording sets the repository's tag and keeps every other repository's, and the keys afterwards are the old keys plus the repository; the combined-mode loop at line 135 applies the same update per planned tag. |
| Gate.FirstReleaseAnnounced | scripts/main.py:79-83 | A repository with nothing recorded has its first tagged release announced. |
| Gate.NoRepeat | scripts/main.py:82-85 | After a tag is recorded, neither it nor any tag parsing to the same version is announced (the standalone gate at release-notfier.py lines 400-402 is the same code). |
| Gate.NoRollback | scripts/main.py:82-85 | After a tag is recorded, no older tag is announced. |
| Gate.AnnouncementsClimb | scripts/main.py:82-83 | Each announced tag is newer than every earlier announced tag, not only the last. |
| Gate.OneWay | scripts/main.py:82-83 | Of two tags with different versions, exactly one is announced after the other is recorded. |
| Env.EnvBoolDefault | scripts/utils.py:10-14 | An unset variable yields the default; a set one ignores the default, and a value outside the truthy words is false (the standalone copy at release-notfier.py lines 95-99 is the same code). |
| Env.EnvBoolWords | scripts/utils.py:14 | Each of `1`, `true`, `yes`, `y`, `on` is true. |
| Env.EnvBoolNormalised | scripts/utils.py:14 | A value reads the same as its stripped, lower-cased form, so case and surrounding whitespace do not matter. |
| Env.FirstIndexOf | scripts/utils.py:33 | The split position is the first `=` of the line. |
| Env.ParsePlain | scripts/utils.py:28-43 | `KEY=value` assigns `value` to `KEY` when the value is stripped and unquoted. |
| Env.ParseQuoted | scripts/utils.py:33-40 | `KEY="value"` assigns `value`, whatever it holds, with one pair of quotes removed. |
| Env.ParsedKeyIsKey | scripts/utils.py:28-42 | An assigned key is never empty, holds no `=`, has no surrounding whitespace and does not start with `#`. |
| Env.SkippedLines | scripts/utils.py:28-32 | Blank lines, `#` lines and lines without `=` assign nothing. |
| Env.LoadedKeepsExisting | scripts/utils.py:42-43 | Loading never changes a variable that was already set. |
| Env.LoadedNewKey | scripts/utils.py:26-43 | An unset variable is set after loading exactly when some line assigns it, and then to the value on the first such line. |
| Env.LoadedDomain | scripts/utils.py:26-43 | Loading only adds keys, and every added key is a well-formed key. |
| Env.LoadedTwice | scripts/utils.py:16-43 | Loading the same file a second time changes nothing. |
| Env.Environment.LoadEnvFile | scripts/utils.py:26-43 | Looping over the lines leaves `vars` equal to the fold `Loaded` of the lines over the old `vars`. |
| Config.CategoriesComplete | scripts/config.py:14-51 | The category order holds every category exactly once. |
| Config.AnyMatchesExists | scripts/release_parser.py:22 | `any(...)` over the alternatives holds exactly when one alternative matches. |
| Config.HeadingStartsWithHash | scripts/config.py:16-50 | Every alternative is anchored at `^#+`, so only a stripped line starting with `#` can be a heading. |
| Config.AllAnchored | scripts/config.py:16-50 | Every alternative of every category begins with `#+`. |
| Config.ChangesInBehaviorNeedsBackslash | scripts/config.py:19 | The double-escaped alternative matches only text containing a backslash, so `## Changes in Behavior` is never claimed through it; the standalone table repeats it at release-notfier.py line 46. |
| Config.BomUpdatesNeedsBackslash | scripts/config.py:29 | Likewise for the double-escaped `BOM Updates` alternative; the standalone table repeats it at release-notfier.py line 56. |
| Regex.RunLengthRun | scripts/release_parser.py:27 | A greedy run is made of the class and is followed by none of it. |
| Regex.RunLengthUnique | scripts/release_parser.py:27 | A run with those two properties is the greedy run. |
| Regex.MatchStartsWithText | scripts/config.py:16-50 | A pattern starting with a literal matches only where that literal stands, up to ASCII case. |
| Regex.MatchStartsWithPlus | scripts/config.py:16-50 | A pattern starting with `c+` matches only where a `c` stands. |
| Regex.MatchText | scripts/config.py:16-50 | A pattern starting with a literal matches at a position exactly when the literal stands there, up to ASCII case, and the rest of the pattern matches right after it. |
| Regex.MatchHasText | scripts/config.py:16-50 | Every literal of a matching pattern stands somewhere in the text after the start of the match. |
| ConfigExamples.HeadThenText | scripts/config.py:16-50 | On a line of hashes, one space and a title, an alternative `#+\s*lit…` matches exactly when `lit` starts the title and the rest of the alternative matches after it. |
| ConfigExamples.OtherLetter | scripts/config.py:16-50 | Such an alternative fails when the title's first letter differs from the literal's, up to case. |
| ConfigExamples.LiteralAbsent | scripts/config.py:16-50 | An alternative fails on a line holding neither case of the first letter of one of its literals. |
| ConfigExamples.NotBreaking | scripts/config.py:15-20 | A heading without a backslash whose title starts with neither `B` nor `I`, in any case, is not a breaking-changes heading. |
| ConfigExamples.NotDeprecated | scripts/config.py:21-24 | A heading whose title does not start with `D` is not a deprecation heading. |
| ConfigExamples.NotDependency | scripts/config.py:25-30 | A heading without a backslash, without `:` or without `d` in either case, and whose title starts with neither `D` nor `U`, is not a dependency heading. |
| ConfigExamples.NotFeatures | scripts/config.py:31-36 | A heading without `:` whose title starts with none of `F`, `E`, `W` is not a features heading. |
| ConfigExamples.NotBugFixes | scripts/config.py:37-42 | A heading without `:` whose title starts neither with `F` nor with `Bu` is not a bug-fix heading. |
| ConfigExamples.NotDocs | scripts/config.py:43-46 | A heading without `:` whose title does not start with `D` is not a documentation heading. |
| ConfigExamples.NotContributors | scripts/config.py:47-50 | A heading without `:` whose title does not start with `T` is not a contributors heading. |
| ConfigExamples.BreakingChangesAt | scripts/config.py:16 | Any number of hashes, one space and `Breaking Changes` in either case make a breaking-changes heading. |
| ConfigExamples.BreakingFirst | scripts/release_parser.py:21-24 | Breaking changes come first in table order, so a line they match is claimed by them. |
| ConfigExamples.FeaturesFirst | scripts/release_parser.py:21-24 | A line Features matches is claimed by it when Breaking, Deprecated and Dependency do not match it. |
| ConfigExamples.Unclaimed | scripts/release_parser.py:21-24 | A line no category matches is claimed by none. |
| ConfigExamples.BreakingChangesClaimed | scripts/config.py:16 | `## Breaking Changes` is claimed by Breaking. |
| ConfigExamples.LowerCaseClaimed | scripts/config.py:16 | `### breaking changes` is claimed by Breaking: case and the number of hashes do not matter. |
| ConfigExamples.BreakingWordBoundary | scripts/config.py:15-20 | `## Breakingchanges` matches no breaking-changes alternative: `\s+` finds no space and `\b` finds no word boundary after `Breaking`. |
| ConfigExamples.BreakingchangesUnclaimed | scripts/config.py:14-51 | `## Breakingchanges` is claimed by no category. |
| ConfigExamples.NewFeaturesUnclaimed | scripts/config.py:14-51 | `## New Features` is claimed by no category: the emoji alternative needs its colon. |
| ConfigExamples.EmojiFeaturesAt | scripts/config.py:32 | Hashes, a space, a short code of word characters between colons, a space and `New Features` make a features heading. |
| ConfigExamples.EmojiFeaturesMatch | scripts/config.py:32 | `## :star: New Features` matches the first features alternative. |
| ConfigExamples.EmojiFeaturesNotEarlier | scripts/config.py:15-30 | `## :star: New Features` matches no breaking-changes, deprecation or dependency alternative. |
| ConfigExamples.EmojiFeaturesClaimed | scripts/config.py:14-36 | `## :star: New Features` is claimed by Features. |
| ReleaseParser.ClaimIn | scripts/release_parser.py:21-24 | The claimed category matches and no earlier category in table order does; there is no claim exactly when none matches. |
| ReleaseParser.ClaimInFirst | scripts/release_parser.py:21-24 | The first matching category in table order is the one that claims the line. |
| ReleaseParser.ClaimLine | scripts/release_parser.py:21-24 | The loop over the table with `break` returns the claim of the stripped line. |
| ReleaseParser.LastIndex | scripts/release_parser.py:20-23 | The kept index holds the value and no later index does; there is none exactly when the value never occurs. |
| ReleaseParser.LastClaimIsLastHeading | scripts/release_parser.py:20-24 | The heading kept for a category is claimed by it, and no later line is: the last occurrence wins (likewise in the standalone copy, release-notfier.py lines 272-277). |
| ReleaseParser.FindHeadings | scripts/release_parser.py:19-24 | Pass 1 leaves a heading index exactly for the claimed categories, each the last line claimed by it. |
| ReleaseParser.HeadingLevelAtx | scripts/release_parser.py:26-28 | The heading level is the length of the `#` run that `^(#+)\s+` matches, and 0 exactly when the pattern does not match. |
| ReleaseParser.SectionEnd | scripts/release_parser.py:33-36 | A section ends at the first later line with a nonzero level at most the start level, or at the end of the notes. |
| ReleaseParser.LevelZeroRunsToEnd | scripts/release_parser.py:26-35 | A heading without whitespace after its hashes has level 0, and no heading ever closes its section (likewise in the standalone copy, release-notfier.py lines 279-289). |
| ReleaseParser.ListItemNormalised | scripts/release_parser.py:40-42 | A list item loses exactly its marker and the whitespace run after it, and the rest of the text is kept. The removed prefix is either one of `-`, `*`, `+` followed only by whitespace, or a run of digits, a `.` and then only whitespace. The text left does not start with whitespace. |
| ReleaseParser.ListItemDetected | scripts/release_parser.py:40 | Conversely, every line that `^[-*+]\s+` or `^\d+\.\s+` matches has a list marker, so it takes the normalising branch. |
| ReleaseParser.ProseLineRule | scripts/release_parser.py:37-44 | A line without a marker is kept, prefixed with the bullet, exactly when it is at most 120 characters long and has `:`, `removed` or `deprecated`. A blank line is never kept. |
| ReleaseParser.Bullet | scripts/release_parser.py:40-44 | Every collected entry starts with the bullet mark `• `. |
| ReleaseParser.FilterBulletsMarked | scripts/release_parser.py:40-44 | Every collected entry starts with `• `. |
| ReleaseParser.SomesTraced | scripts/release_parser.py:40-44 | The collected values come, in order, from increasing positions. |
| ReleaseParser.SectionTraced | scripts/release_parser.py:33-47 | A section's entries come, in document order and one per line, from lines strictly after its heading and before the line that ends it. |
| ReleaseParser.SectionsShape | scripts/release_parser.py:9-48 | The result has all seven categories, a category that was never claimed has no entries, and every list has at most 8 entries, each starting with `• ` (likewise for the standalone copy, release-notfier.py lines 262-301). |
| ReleaseParser.CollectSection | scripts/release_parser.py:31-48 | The inner loop with `break`/`continue` collects exactly the first 8 bullets of the section's window. |
| ReleaseParser.CollectSections | scripts/release_parser.py:30-48 | Pass 2 replaces the entry of every category with a heading by its section and leaves the others. |
| ReleaseParser.ExtractSections | scripts/release_parser.py:7-50 | `extract_sections(markdown)` equals the reference definition over `splitlines()` of the notes; the standalone copy at release-notfier.py lines 260-303 is the same code. |
| Slack.BuildSubtitle | scripts/slack_client.py:15-20 | The subtitle built by appending the publication date and prerelease mark equals `Subtitle`. |
| Slack.AppendCategoryBlocks | scripts/slack_client.py:47-58 | The loop over labelled categories appends exactly the category blocks. |
| Slack.BuildBlocks | scripts/slack_client.py:14-66 | The block list built by successive appends equals `MessageBlocks`. |
| Slack.SlackBlocksForRelease | scripts/slack_client.py:8-67 | `slack_blocks_for_release` with the `AI 요약` title builds `MessageBlocks`. |
| Slack.MessageFrame | scripts/slack_client.py:14-66 | The first block is the header `{product} 업데이트: {tag}` and the second the link, no later block is a header, and the last block is the only divider (likewise for the standalone builder, release-notfier.py lines 312-364). |
| Slack.SubtitleCases | scripts/slack_client.py:15-20 | The subtitle is the date, `Prerelease`, or both joined with ` · `, and empty when there is neither. |
| Slack.ContextIff | scripts/slack_client.py:15-36 | There is a context block exactly when the release has a publication date or is a prerelease. It is the third block and holds the subtitle. |
| Slack.AiBlockRule | scripts/slack_client.py:37-45 | The AI block is there exactly when the summary is not blank. It shows a prefix of the stripped summary of at most 2700 characters: the whole of it when it fits, otherwise exactly 2700. |
| Slack.CategoryBlocksInOrder | scripts/slack_client.py:47-58 | The category blocks follow the order Breaking, Deprecated, Features, BugFixes, Dependency, Docs, Contributors, one for each non-empty list and none for the others. |
| Slack.LabelledCovers | scripts/slack_client.py:47-55 | Every category has a place in the message order. |
| Slack.LabelledDistinct | scripts/slack_client.py:47-55 | No category appears twice in the message order. |
| Slack.SectionTextLines | scripts/slack_client.py:22-29 | A category block's text is its bold label on one line, then the first 8 items, one per line. |
| Slack.CategoryBlocksEmpty | scripts/slack_client.py:47-58 | There are no category blocks exactly when every list is empty. |
| Slack.FallbackReplacesSections | scripts/slack_client.py:47-60 | The category blocks are missing exactly when no section has entries, so the excerpt never sits beside them. |
| Slack.NonBlankLines | scripts/slack_client.py:61 | The kept body lines are exactly the lines of the body with text, in body order: each kept line is the body line at a strictly increasing position, and every line with text is kept. None are kept exactly when no line has text. |
| Slack.NonBlankTraced | scripts/slack_client.py:61 | Each kept line is the body line at its recorded position, has text, and the positions increase. |
| Slack.NonBlankComplete | scripts/slack_client.py:61 | Every body line with text is kept. |
| Slack.FirstWithText | scripts/slack_client.py:61 | `[...][:n]` keeps the first `n` lines with text, in body order: a line with text that is left out comes after `n` kept lines. |
| Slack.ExcerptEmpty | scripts/slack_client.py:61-63 | The excerpt is empty exactly when no body line has text. |
| Slack.FallbackRule | scripts/slack_client.py:60-64 | The excerpt block appears exactly when no section has entries and some body line has text. It is the bold excerpt heading over `excerpt[:1200]` in a code fence. The excerpt is the stripped `\n`-join of the first 8 body lines with text, taken in body order. |
| Slack.ExtractedSectionsShownWhole | scripts/slack_client.py:27 | Sections from the extractor never exceed 8 entries, so the message shows all of them. |
| Legacy.LegacySlackBlocksForRelease | scripts/release-notfier.py:306-365 | The standalone `slack_blocks_for_release` builds `MessageBlocks` with the `AI 요약 (Gemini)` title. |
| Legacy.OnlyAiTitleDiffers | scripts/release-notfier.py:335-343 | Messages built with the two AI titles have the same length and agree block for block, except the AI block. That block carries the other title over the same text, and the messages are equal when there is no AI block. |
| Legacy.SameButAi | scripts/release-notfier.py:329-365 | Two messages assembled from the same pieces but the AI slot agree everywhere else. |

## Left out

- Network I/O is not modelled. This covers `http_get_json`, `http_post_json`, `fetch_latest_release`, `post_to_slack` and the AI summarizers (`AISummarizer`, `SummarizerFactory` and the Gemini calls). The AI summary enters the model as an `Option<string>` parameter.
- `load_state` and `save_state` are JSON file I/O. The state is a `map<string, string>` parameter of `Gate`.
- The `main()` orchestrators are environment and network plumbing. Only their gate (`is_new` plus the skip for a missing tag) and the state update after sending are modelled, in `Gate`. Two things in `main.py` are not modelled:
  - the undefined `token` and `include_prereleases` it uses;
  - its call of `slack_blocks_for_release` with five arguments, one more than the function takes.
- `Env.Environment.LoadEnvFile`: reading the file is not modelled. The method takes the file's lines, and a missing file is the empty list. The `print` it makes is left out.
- `Env.EnvBool` reads a `map<string, string>` in place of `os.environ`. Platform rules of the real environment are not modelled: keys are case-insensitive on Windows, and `os.environ` rejects NUL characters.
- `str.lower`, `\w`, `\d` and `re.IGNORECASE` are restricted to ASCII. Non-ASCII letters fold differently in Python; the needles `removed`, `deprecated` and the truthy words are unaffected.
- `Semver.ParseSemver` reads a digit run of any length as an integer. Since Python 3.11, `int()` raises `ValueError` on a run of more than 4300 digits by default. That error path is not modelled, for `scripts/utils.py` lines 73-75 and for the standalone copy at release-notfier.py lines 132-134.
- The regex engine is modelled only for the atoms the heading table, `heading_level` and the list-marker patterns use.
- `ReleaseParser.CollectSections` runs pass 2 in table order rather than in the insertion order of `heading_indices`. Each category's list depends only on its own heading, so the result is the same.
- `Slack.BuildBlocks` takes the sections as `map<Category, seq<string>>`. A dictionary with keys outside the seven categories cannot be passed in. Such keys would count for the `any(...)` fallback test but never produce a block.
- The Slack blocks are a datatype holding each block's text. The JSON wrapping (`"type": "mrkdwn"` and so on) is fixed per kind and is not modelled.
- Overlapping sections are modelled but not stated as a lemma. A category heading nested under a shallower one has its lines collected by both.
