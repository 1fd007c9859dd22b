# barepaper theme core, modelled in Dafny

This project models the self-contained logic of the barepaper WordPress theme. The rest of the theme is WordPress glue. Each core source file gets one Dafny module:

- `ContentParser` (`content_parser.dfy`) is the `Content_Parser_Unified` object: its placeholder maps, the heading ids used during one parse, and the order of the passes of `parse`. The passes themselves live in:
  - `ContentShortcodes`: shortcode isolation and restoration;
  - `ContentFences`: fenced code blocks;
  - `ContentBlocks`: tables, task lists, headings, lists, blockquotes and rules;
  - `ContentParagraphs`: paragraphs of plain text;
  - `LineRuns`: the run-grouping loop shared by the block passes;
  - `Placeholders`: the placeholder maps and their round trip.
  All of these model `features/content-parser.php`.
- `Excerpt` and `ExcerptImages` model `features/excerpt.php`: the word-limit setting, the character-budget truncation of `paper_wp_truncate_html`, the image-size test, the image modes and the final link rewriting.
- `Stats` models `features/stats.php`:
  - the seconds formatter and the visitor hash;
  - the online-user table with its throttle, maximum record and batched cleanup;
  - the admin online clock, with its 30-minute and 10-minute rules and its logout;
  - the object-cache memos of the administrators' total online time (300 seconds) and online status (60 seconds).
- `Admin` models `core/admin.php`: the settings sanitizers, the inline `versionCompare` and the active tab.
- `Setup` models `core/setup.php`: `Paper_Settings_Manager` with its option cache, the feature-load predicate, the pagination bar, `paper_wp_format_number` and the relative-time buckets.
- `UserAgent` models `features/user-agent.php`: the ordered operating-system and browser decision lists, with their fallbacks and version suffixes.
- `Shortcodes` models `features/shortcodes.php`:
  - the renderers, with their attribute defaults and clamps;
  - the gallery arity rule and the `src|alt` split;
  - once-per-request playlist rendering.
- `PostEnhancements` models `features/post-enhancements.php`: sticky-first reordering, the recommend toggle, the like counter, comment preprocessing and the comment walker.
- `Performance` models `features/performance.php`: `defer` insertion, the excerpt-length filter, the word count, the transient cache, the bounded operation log and the self-pingback filter.
- `Image` models `features/image.php`: the upload rename, attribute defaults, the special-image test, the medium-size URL and the guards of the content image rewrite.
- `Archive` models `template-archive.php`: the heatmap loop (levels, cells and month labels), the running days, and the year/month grouping with its descending order.
- `Effects` models `js/effects.js`: `formatRuntime`, `updateRuntime` and the `ThemeManager` with its memoized theme.
- `SidebarAlbum` models `js/sidebar-album.js`: the per-album carousel closure, with its wrapped active index, restyling loops, autoplay timer and event handlers.
- `Assets` models `core/assets.php`: the script-tag filters and the view and recommend handlers.
- `Util` holds the shared string, sequence and PHP-conversion helpers.

Code that keeps state is modelled as classes whose methods update fields, with loops carrying their invariants:
- the parser object;
- the settings cache;
- the online table;
- post meta;
- the transient cache and operation log;
- the playlist set;
- the comment walker;
- the theme manager;
- the album.

Two passes follow the corrected behaviour recorded under "## Findings" rather than the source's: the content pipeline renders a blockquote of several paragraphs with each paragraph wrapped, and the excerpt builder counts a text part of `"0"` against its budget. Both source behaviours are modelled beside them, and "## Left out" names the members affected.

Pure code is modelled as functions over datatypes. Each loop method is proved equal to a specification function, and the properties are proved as lemmas about that function.

WordPress calls, regular-expression engines, hashes, clocks and random sources are parameters of the model, with no assumed behaviour. Examples are `esc_*`, `sanitize_*`, `wp_kses_post`, `get_option`, `uniqid`, `time()`, `mt_rand` and `hash`. Three passes of the theme itself are parameters too:
- `codeHtml` in ContentParser and ContentFences stands for `generate_code_block_html`;
- `clean` in ExcerptImages stands for the removal of code-block containers without `<pre` and of `markdown-hr` rules (features/excerpt.php:320-334);
- `tidy` in ExcerptImages stands for the clean-up after the image removal: empty links, empty `p` and `div` wrappers, and repeated or outer `<br>` (features/excerpt.php:345-353).

The doc comment of each member names the parameters it takes.

## Model

| member | source | states |
|---|---|---|
| ContentParser.LeastFree | features/content-parser.php:163-178 | the number of `-k` suffixes `generate_heading_id` tries is at most the number of ids already used, and the candidate it stops at is free unless every one was taken |
| ContentParser.LeastFreeSkips | features/content-parser.php:170-175 | every candidate passed over before the chosen one is already in use |
| ContentParser.HeadingIdFresh | features/content-parser.php:163-178 | a heading id handed out during one parse is never one handed out before in it |
| ContentParser.HeadingIdFirstFree | features/content-parser.php:163-178 | the id is the sanitized title itself when that is free, and otherwise `title-k` with every earlier candidate already taken |
| ContentParser.BodyRowsStep | features/content-parser.php:265-275 | in the body loop of `generate_table_html` the separator row (index 1 of a table with a header) adds nothing and every other row is appended |
| ContentParser.ShortStageFacts | features/content-parser.php:549-563 | shortcode isolation started from an empty map leaves placeholders that all point into the map and are pairwise distinct, and draws `uniqid` values only forwards |
| ContentParser.CodeStageFacts | features/content-parser.php:618-687 | code-block isolation started from an empty map leaves well-formed, pairwise distinct placeholders |
| ContentParser.Parser.constructor | features/content-parser.php:29-39 | a new parser starts with both placeholder maps and the used heading ids empty |
| ContentParser.Parser.ShortStage | features/content-parser.php:549-563 | the shortcode stage of `parse` yields well-formed keys and distinct markers |
| ContentParser.Parser.CodeStage | features/content-parser.php:618-687 | the code-block stage of `parse` yields well-formed keys and distinct markers |
| ContentParser.Parser.Parse | features/content-parser.php:44-79 | an empty content (`""` or `"0"`) is returned unchanged with no state touched; any other content resets both maps and the used ids and goes through the stages in order |
| ContentParser.Parser.IsolateShortcodes | features/content-parser.php:549-563 | the `[code]` pass then both passes of each listed tag, leaving the placeholder map of the specification function |
| ContentParser.Parser.IsolateCodeBlocks | features/content-parser.php:618-687 | the fence scan over the lines, storing an unclosed block as escaped `<pre>`, equals the specification scan |
| ContentParser.Parser.ScanFences | features/content-parser.php:627-676 | the `foreach` over the lines ends in the state the left fold of the per-line step gives |
| ContentParser.Parser.ScanLine | features/content-parser.php:628-675 | one line: an opening fence sets the flags, the matching closing fence stores the block under a fresh placeholder, lines inside are collected and others kept |
| ContentParser.Parser.ReplaceEach | features/content-parser.php:605-610 | `str_replace` of every marker of a map, in map order, is the restoration function |
| ContentParser.Parser.RestoreCodeBlocks | features/content-parser.php:737-742 | code blocks are restored from the code placeholder map |
| ContentParser.Parser.RestoreShortcodes | features/content-parser.php:605-610 | shortcodes are restored from the shortcode placeholder map |
| ContentParser.Parser.GenerateHeadingId | features/content-parser.php:163-178 | the id is fresh, it is the first free candidate of the sanitized title, and it is added to the used ids |
| ContentParser.Parser.ParseHeadings | features/content-parser.php:334-351 | the heading pass equals the specification function over the lines and the used ids |
| ContentParser.Parser.ParseRules | features/content-parser.php:505-518 | the horizontal-rule pass equals its per-line specification |
| ContentParser.Parser.ParseStructureElements | features/content-parser.php:145-158 | the six line passes run in the source's order |
| ContentParser.Parser.CellsHtml | features/content-parser.php:256-259 | each cell of a row is wrapped in the cell tags after inline formatting |
| ContentParser.Parser.GenerateTableHtml | features/content-parser.php:246-278 | the table is the header row followed by the body rows without the separator row |
| ContentParser.Parser.TableBodyHtml | features/content-parser.php:265-275 | the body loop renders exactly the body rows |
| ContentParser.Parser.ProcessLineBreaks | features/content-parser.php:1037-1060 | the non-empty right-trimmed lines joined with `<br>`, and the result has no newline |
| ContentParser.Parser.ProcessTextBlockParagraphs | features/content-parser.php:994-1032 | each kept paragraph goes through the line-break pass, as the specification function states |
| Placeholders.RestoreRoundTrip | features/content-parser.php:605-610 | replacing every placeholder by its stored text, in map order, gives back the text before isolation, provided the placeholders are distinct and none occurs in the restored text |
| Placeholders.RestoreFrom | features/content-parser.php:737-742 | restoring from the `m`-th map entry on, over a text where the earlier entries are already restored, gives the fully restored text |
| Placeholders.RestoredExtend | features/content-parser.php:605-610 | entries added to the map after a text was isolated do not change how that text restores |
| Placeholders.WrapInjective | features/content-parser.php:573 | placeholders built from different `uniqid` values are different |
| Placeholders.WrapWellFormed | features/content-parser.php:657 | a placeholder `<!--HEAD_id-->` with a hexadecimal id is a well-formed marker: one `<` at its start, no other `<` or `>` inside |
| Placeholders.NoWrapWithoutHead | features/content-parser.php:681 | a text without the placeholder head contains no placeholder of that kind |
| LineRuns.GroupLines | features/content-parser.php:356-400 | the line loop with a current run (list type and items) equals the run-grouping specification: each maximal run of lines of one kind becomes one rendered block, other lines are kept |
| LineRuns.RunStartFacts | features/content-parser.php:374-377 | the run being collected is maximal: every line from its start has its kind and the line before does not |
| LineRuns.GroupNoRuns | features/content-parser.php:385-391 | lines that are never in a run come out unchanged |
| LineRuns.GroupOneRun | features/content-parser.php:394-397 | a block of lines all of one kind becomes exactly one rendered block at the end |
| LineRuns.RunThenPlain | features/content-parser.php:385-391 | a plain line closes the current run before it is kept |
| LineRuns.GroupKindChange | features/content-parser.php:374-377 | a change of kind (unordered to ordered list) closes the first run and opens another |
| LineRuns.GroupAppend | features/content-parser.php:356-400 | grouping distributes over two parts when the first ends in a plain line |
| LineRuns.GroupShrinks | features/content-parser.php:356-400 | grouping never yields more lines than it was given |
| ContentBlocks.SpaceThenRest | features/content-parser.php:292 | the regex tail `\s+(.+)$` matches exactly when the text starts with white space and holds more, and the capture is a non-empty proper suffix |
| ContentBlocks.Inline | features/content-parser.php:523-525 | `parse_inline_markdown` returns an empty text (`""` or `"0"`) as it came |
| ContentBlocks.RuleLines | features/content-parser.php:505-518 | the rule pass maps every line on its own, keeping the number of lines |
| ContentBlocks.RuleExample | features/content-parser.php:510 | three or more dashes with blanks around them become the `<hr>` element |
| ContentBlocks.TableRowNeverRule | features/content-parser.php:193 | after trimming, a line is a table row exactly when it holds a `|`: a line of `-`, `*` or `_` never does |
| ContentBlocks.TrimEach | features/content-parser.php:195 | every cell is trimmed and none is lost |
| ContentBlocks.Cells | features/content-parser.php:195 | splitting a row at `|` after trimming the outer bars yields at least one cell |
| ContentBlocks.SeparatorExamples | features/content-parser.php:202 | `---`, `:-:`, `:--` and `-:` are separator cells; `:`, `::`, the empty cell and `a-` are not |
| ContentBlocks.RowsOf | features/content-parser.php:189-196 | one row of cells per table line |
| ContentBlocks.TableMarkup | features/content-parser.php:246-247 | the table HTML is empty exactly when there are no rows |
| ContentBlocks.SeparatorRowIgnored | features/content-parser.php:266 | with a header, the second row's content never reaches the HTML |
| ContentBlocks.NoHeaderAllRows | features/content-parser.php:249-277 | without a header every row is a body row inside `<tbody>` |
| ContentBlocks.TablesPassThrough | features/content-parser.php:220-231 | lines without a `|` leave the table pass unchanged |
| ContentBlocks.OneTable | features/content-parser.php:234-238 | a run of table lines becomes one table |
| ContentBlocks.TaskItem | features/content-parser.php:292 | a task item starts, after trimming, with `-`, `*` or `+` and has at least six characters |
| ContentBlocks.TaskWhen | features/content-parser.php:292-299 | a line of the shape bullet, blanks, `[ ]`/`[x]`/`[X]`, blanks, text is a task whose state is "box not blank" and whose text is the trimmed capture |
| ContentBlocks.TaskOfShape | features/content-parser.php:292-299 | `- [x] text` is a checked task with that text, `- [ ] text` an unchecked one |
| ContentBlocks.OneTaskList | features/content-parser.php:322-326 | a run of task lines becomes one task list |
| ContentBlocks.Heading | features/content-parser.php:339 | a heading has between one and six leading `#`, and its level is their number |
| ContentBlocks.HeadingWhen | features/content-parser.php:339-341 | one to six `#`, white space and text make a heading of that level with the trimmed text |
| ContentBlocks.HeadingOfLevel | features/content-parser.php:339-341 | `#` repeated n times (1 to 6), a blank and a text is a heading of level n |
| ContentBlocks.NoDeepHeading | features/content-parser.php:339 | seven or more `#` are not a heading |
| ContentBlocks.CandidateInjective | features/content-parser.php:170-175 | two different suffix counts give two different heading-id candidates |
| ContentBlocks.ListItem | features/content-parser.php:365-369 | a list item is unordered exactly when its trimmed line starts with `-`, `*` or `+` |
| ContentBlocks.ListWhenUl | features/content-parser.php:365-371 | a bullet, white space and text is an unordered item with the trimmed text |
| ContentBlocks.ListWhenOl | features/content-parser.php:366-371 | digits, `.`, white space and text is an ordered item with the trimmed text |
| ContentBlocks.UnorderedOfShape | features/content-parser.php:365 | `- text` is an unordered item |
| ContentBlocks.OrderedOfShape | features/content-parser.php:366 | `1. text` is an ordered item |
| ContentBlocks.OneList | features/content-parser.php:394-397 | a run of items of one type becomes one list |
| ContentBlocks.ListTypeChange | features/content-parser.php:373-377 | unordered items followed by ordered ones become two lists, the first closed when the type changes |
| ContentBlocks.QuoteLine | features/content-parser.php:422 | a quote line starts with `>` and its capture is the rest after the mark and at most one blank |
| ContentBlocks.StripQuoteMarks | features/content-parser.php:462 | `^>+\s?` leaves a line that does not start with `>` whole, and never lengthens a line |
| ContentBlocks.StripMarksAndBlank | features/content-parser.php:462 | a run of one or more `>` and the one blank after it are removed and nothing more, so `>  x` keeps its second blank |
| ContentBlocks.StripMarksOnly | features/content-parser.php:462 | a run of `>` followed by text that starts with neither `>` nor a blank loses only the marks |
| ContentBlocks.InlineEach | features/content-parser.php:489-492 | every paragraph goes through inline formatting, none is lost |
| ContentBlocks.ParagraphsBlank | features/content-parser.php:472-477 | an empty line ends the current paragraph |
| ContentBlocks.ParagraphsText | features/content-parser.php:478-480 | a text line joins the current paragraph |
| ContentBlocks.ParagraphsTwo | features/content-parser.php:466-486 | text, blank, text gives two paragraphs |
| ContentBlocks.QuoteParagraphsUnbalanced | features/content-parser.php:495-499 | as written, two quote paragraphs come out as `a</p>\n<p>b`, with no opening `<p>` and no closing `</p>`; the corrected content wraps each one |
| ContentBlocks.WrappedEach | features/content-parser.php:497-499 | in the corrected content every paragraph sits between its own `<p>` and `</p>` |
| ContentBlocks.QuoteTexts | features/content-parser.php:427 | one captured text per quote line |
| ContentBlocks.KeptLines | features/content-parser.php:1042-1056 | the line-break pass keeps at most the lines it was given |
| ContentBlocks.LineBreaksNoLineFeed | features/content-parser.php:1037-1060 | the line-break pass leaves no line feed |
| ContentBlocks.LineBreaksOneLine | features/content-parser.php:1043-1050 | a single line comes back right-trimmed, or empty when that is empty |
| ContentBlocks.LineBreaksTwoLines | features/content-parser.php:1037-1060 | `a\n\nb` becomes `a<br>b`: the empty middle line is dropped |
| ContentFences.FenceLang | features/content-parser.php:634 | the language capture `\s*(\w*)$` after a fence exists exactly when the rest after the leading white space is all word characters, and is that rest |
| ContentFences.FenceOpenShape | features/content-parser.php:634-640 | an opening fence is ```` ``` ```` (marker ```` ``` ````) or `" `` ` (marker `"``), followed by a word-character language |
| ContentFences.FenceClosesWithItsMark | features/content-parser.php:726-732 | a block is closed by its own start marker: neither marker is in the end-marker table |
| ContentFences.StepOpens | features/content-parser.php:642-647 | outside a block an opening fence opens one, with an empty body |
| ContentFences.StepCloses | features/content-parser.php:652-666 | the closing marker stores the block HTML (block id from one `uniqid`, placeholder from the next) and emits the placeholder line |
| ContentFences.StepCollects | features/content-parser.php:671-672 | inside a block any other line is appended to the body with a line feed |
| ContentFences.StepPasses | features/content-parser.php:673-674 | outside a block a line that opens nothing is kept |
| ContentFences.IsolateCodeKeys | features/content-parser.php:618-687 | isolation only appends to the map, every placeholder line refers to one new entry, in order, and no block is left open |
| ContentFences.OutsideLinesInOrder | features/content-parser.php:627-676 | the lines kept outside blocks are a subsequence of the input, in order |
| ContentFences.NoFenceUnchanged | features/content-parser.php:618-687 | a text without carriage returns and without opening fences comes back unchanged, with no entry added and no `uniqid` drawn |
| ContentFences.UnclosedBlock | features/content-parser.php:679-684 | a block still open at the end is stored as `<pre><code>` around the escaped body under a fresh placeholder |
| ContentFences.IsolateCodeFresh | features/content-parser.php:657-681 | with distinct `uniqid` values every placeholder added is distinct from all earlier ones |
| ContentFences.RestoreCodeRoundTrip | features/content-parser.php:737-742 | restoring the isolated text gives the text with each block's HTML in place, when no placeholder occurs in that text |
| ContentParagraphs.EndCut | features/content-parser.php:996-1004 | removing the line ending at the end of a block only cuts a suffix |
| ContentParagraphs.EndCutAtFirstFeed | features/content-parser.php:996-1004 | both end patterns cut at the first line feed of the trailing white space, or nowhere when it holds none |
| ContentParagraphs.EndCutLeavesNoFeed | features/content-parser.php:996-1004 | after the cut no line feed is left in the trailing white space |
| ContentParagraphs.Pieces | features/content-parser.php:1015 | cutting at every match of `\n\s*\n+` yields at least one piece |
| ContentParagraphs.PiecesHead | features/content-parser.php:1015 | the first piece is a prefix of the block |
| ContentParagraphs.PiecesNoFeed | features/content-parser.php:1015 | the `\n\s*\n+` replacement finds no break in a block without line feeds |
| ContentParagraphs.Paragraphs | features/content-parser.php:1013-1018 | every break becomes the `<!--PARAGRAPH_BREAK-->` marker and the text is exploded there: at least one paragraph, and none holds the marker |
| Util.Explode | features/content-parser.php:1018 | `explode` yields at least one part |
| Util.ExplodeAbsent | features/content-parser.php:1018 | a text without the separator is exploded into itself alone |
| Util.ExplodeHead | features/content-parser.php:1018 | the first part is a prefix of the text |
| Util.ExplodeFree | features/content-parser.php:1018 | no part holds the separator |
| Util.ExplodeAfterFree | features/content-parser.php:1018 | when the separator's first character does not recur in it, a separator after a separator-free text ends the first part exactly there |
| ContentParagraphs.PiecesNoBlankLine | features/content-parser.php:1015 | no piece holds two line feeds with only white space between them |
| ContentParagraphs.ParagraphHtmlNoLineFeed | features/content-parser.php:1025-1026 | a paragraph's HTML holds no line feed |
| ContentParagraphs.KeptParagraphs | features/content-parser.php:1021-1028 | only paragraphs that are not empty after trimming are kept |
| ContentParagraphs.KeptParagraphsAreHtml | features/content-parser.php:1021-1028 | every kept paragraph is the `<p class="markdown-paragraph">` HTML of one paragraph of the block |
| ContentParagraphs.OneParagraph | features/content-parser.php:994-1032 | a one-line block without the marker is one paragraph of its trimmed text, or nothing when that is empty |
| ContentParagraphs.MarkerSplitsBlock | features/content-parser.php:1013-1031 | a one-line block `a<!--PARAGRAPH_BREAK-->b` gives two paragraphs, of `a` and of `b` |
| ContentParagraphs.BlankBlock | features/content-parser.php:1007-1011 | a block of blanks only gives the empty string |
| ContentParagraphs.TextBlockLines | features/content-parser.php:1013-1031 | the lines of the result are exactly the kept paragraphs' HTML, and the pieces cut at `\n\s*\n+` hold no blank line |
| ContentShortcodes.PassPattern | features/content-parser.php:554-560 | pass 0 is the `[code]` pair; then each of the nine tags, in list order, gets a self-closing pass followed by a closing-tag pass |
| ContentShortcodes.PassesOfTag | features/content-parser.php:582-600 | the two passes of a tag run self-closing first, then with closing tag, after all earlier tags |
| ContentShortcodes.PassesKeep | features/content-parser.php:549-563 | every pass only appends to the map and leaves the restored text unchanged |
| ContentShortcodes.IsolateShortcodesKeeps | features/content-parser.php:549-563 | isolation appends to the map, draws `uniqid` values forwards, and the text with each placeholder's recorded match put back is the original content |
| ContentShortcodes.KindsDiffer | features/content-parser.php:573-586 | a `[code]` placeholder is never equal to a tag placeholder |
| ContentShortcodes.ShortMarkerInjective | features/content-parser.php:573-594 | two placeholders are equal only when their `uniqid` values and kinds are |
| ContentShortcodes.ShortMarkerWellFormed | features/content-parser.php:573-586 | every shortcode placeholder is a well-formed `<!--...-->` marker |
| ContentShortcodes.PassesFresh | features/content-parser.php:572-597 | with distinct `uniqid` values every placeholder recorded is new |
| ContentShortcodes.ShortcodeRoundTrip | features/content-parser.php:549-610 | for a content that holds no `<!--SHORTCODE_`, `restore_shortcodes` after `isolate_shortcodes` gives back the content exactly |
| Excerpt.WordLimit | features/excerpt.php:213-218 | the limit is at least 1; it is the `intval` of the setting when the setting is a PHP numeric string (blanks, sign, fraction and exponent included) with a positive value, and 500 otherwise |
| Excerpt.WordLimitExponent | features/excerpt.php:213-218 | digits, `e` and digits form a setting read with its exponent applied, so `1e3` is a limit of 1000 |
| Excerpt.WordLimitLeadingBlank | features/excerpt.php:213-218 | a positive number after a blank is taken as that number |
| Util.IntValOfNat | features/excerpt.php:214-217 | the decimal rendering of a natural number is numeric and `intval` reads it back as that number |
| Util.IntValOfInt | core/setup.php:375 | the decimal rendering of any integer, sign included, is numeric and reads back as that integer |
| Util.LeadingBlanks | features/excerpt.php:214-217 | leading blanks change neither `is_numeric` nor `intval`: ` 12` is numeric and reads as 12 |
| Util.Scientific | features/excerpt.php:214-217 | digits, `e` and digits form a numeric string whose `intval` applies the exponent: `1e3` reads as 1000 |
| Util.Truncation | features/excerpt.php:214-217 | digits, a point and any digits form a numeric string whose `intval` drops the fraction |
| Excerpt.WordLimitOfNumber | features/excerpt.php:213-218 | a positive number written in decimal is used as the limit as it is |
| Excerpt.ClampLimit | features/excerpt.php:239 | the clamped limit is at least 1 and at least the requested length, and a length of 1 or more is kept |
| Excerpt.TagAtIsTag | features/excerpt.php:254 | a tag recognised at the start of the text is a complete `<...>` with no `>` inside, as `<[^>]+>` demands |
| Excerpt.SplitTagsJoin | features/excerpt.php:254 | splitting the HTML into tags and text loses nothing: the parts concatenate back to the input |
| Excerpt.SplitTagsNonEmpty | features/excerpt.php:254 | no part of the split is empty (`PREG_SPLIT_NO_EMPTY`) |
| Excerpt.DropXmlDeclFree | features/excerpt.php:253 | a text without `?` has no XML declaration and is left unchanged |
| Excerpt.CutAtBudget | features/excerpt.php:268-277 | the counted text before the cut point stays within the limit, and the piece at the cut point would overflow it |
| Excerpt.EmitFits | features/excerpt.php:276-277 | a text piece that fits is emitted whole, untrimmed, and its trimmed length is added to the running length |
| Excerpt.EmitCut | features/excerpt.php:269-274 | the first piece that would overflow contributes at most its first `remaining` trimmed characters and ends the loop |
| Excerpt.EmitSplit | features/excerpt.php:256-279 | the output is the whole pieces before the cut point followed by the cut piece's prefix |
| Excerpt.EmitBudget | features/excerpt.php:256-279 | under any text measure bounded by length, the emitted text never measures more than the budget left |
| Excerpt.ClassifiedFair | features/excerpt.php:257-268 | with a correct emptiness test every piece's counted length is exactly the text it contributes |
| Excerpt.EmitWithinBudget | features/excerpt.php:256-279 | the corrected truncation never emits more text characters than the limit |
| Excerpt.ZeroTextPieces | features/excerpt.php:257-266 | under PHP's `empty`, the part `0 ` is copied as if it were a tag, without being counted |
| Excerpt.ZeroTextOverBudget | features/excerpt.php:263-266 | as written, `<b>0 </b>xy` with limit 1 emits two text characters, one more than the limit |
| Excerpt.ZeroTextDropped | features/excerpt.php:257-259 | as written, a text part `0` is dropped from the output; the corrected truncation keeps it |
| Excerpt.TakePart | features/excerpt.php:257-278 | one loop iteration emits what the specification emits for the next part, keeps the running length within the limit, and stops exactly where the specification stops |
| Excerpt.EmitFrom | features/excerpt.php:256-279 | the specification's output from part `i` on is that part's contribution followed by the rest, or the cut piece alone when it overflows |
| Excerpt.TruncateParts | features/excerpt.php:251-279 | the loop over the parts returns the concatenation of the truncation specification's output |
| Excerpt.TruncateHtml | features/excerpt.php:237-282 | an empty input or one whose stripped, trimmed text fits the clamped limit is returned unchanged; otherwise the declaration-free, split and truncated parts go through the tag-closing step |
| ExcerptImages.FirstAttrIsLeftmost | features/excerpt.php:403-407 | the width value used is the one at the leftmost position where the attribute pattern matches |
| ExcerptImages.FirstAttrNone | features/excerpt.php:403-415 | the pattern fails exactly when it matches at no position of the tag |
| ExcerptImages.FirstAttrUnique | features/excerpt.php:403-415 | the value used is the one at the leftmost match, whichever such position is named |
| ExcerptImages.NoSizeAccepted | features/excerpt.php:419-421 | an image with neither width nor height attribute is large enough |
| ExcerptImages.RejectedBySize | features/excerpt.php:396-422 | an image is rejected exactly when its first width is below 500 or its first height is below 200 |
| ExcerptImages.ImgEndTag | features/excerpt.php:361 | every match of the image pattern is a complete image tag |
| ExcerptImages.ImgTagsAreTags | features/excerpt.php:361 | every image collected from the content is an image tag |
| ExcerptImages.NoImgNoTags | features/excerpt.php:361 | a content with no `<img` (in any case) yields no image |
| ExcerptImages.LargeImagesMembers | features/excerpt.php:369-374 | an image is kept exactly when it is in the list and large enough |
| ExcerptImages.LargeImagesNone | features/excerpt.php:369-379 | when no image is large enough nothing is kept |
| ExcerptImages.LargeImagesFirst | features/excerpt.php:369-383 | the first kept image is the first large-enough image of the list |
| ExcerptImages.FilterLarge | features/excerpt.php:369-374 | the filtering loop keeps, in order, exactly the large-enough images |
| ExcerptImages.ProcessExcerptImages | features/excerpt.php:317-389 | mode `all` returns the cleaned excerpt; mode `none` returns the cleaned excerpt with every figure and image match removed in one pass and then tidied; every mode returns the selection the lemmas below characterise |
| ExcerptImages.MediaEnd | features/excerpt.php:342 | a match of the figure-or-image pattern is never empty and stays inside the text |
| ExcerptImages.MediaEndNeedsOpen | features/excerpt.php:342 | only a `<` starts a figure or image match |
| ExcerptImages.MediaEndImage | features/excerpt.php:342 | at `<img` (any case) the match ends after the first `>` |
| ExcerptImages.MediaSkipsText | features/excerpt.php:342 | text without `<` is copied unchanged and the removal goes on after it |
| ExcerptImages.MediaNoTag | features/excerpt.php:342 | a text without `<` passes the removal unchanged |
| ExcerptImages.MediaRemovesImage | features/excerpt.php:342 | an image tag is removed up to its first `>` |
| ExcerptImages.MediaRemovesFigure | features/excerpt.php:342 | a figure is removed from `<figure` up to the first `</figure>` after its opening tag, in any case |
| ExcerptImages.MediaDropsFirstImage | features/excerpt.php:342 | the text before the first image is kept and that image removed |
| ExcerptImages.StrippedDropsFirstImage | features/excerpt.php:337-357 | the stripped excerpt (what mode `none` returns, by ModeUnknown) tidies the cleaned text with its first image gone and the text before that image kept |
| ExcerptImages.OpenBeforeImage | features/excerpt.php:342 | a `<` right before an image tag is kept while the tag is removed |
| ExcerptImages.RemovalMayJoinTag | features/excerpt.php:342 | the removal is one pass: `<<img>img y>` leaves the complete image tag `<img y>`, so mode `none` can still show an image |
| ExcerptImages.RewriteSkips | features/excerpt.php:342 | a stretch where no match starts is copied by `preg_replace` |
| ExcerptImages.ModeFirst | features/excerpt.php:381-383 | mode `first` puts the first large-enough image of the full content before the stripped excerpt |
| ExcerptImages.ModeRandom | features/excerpt.php:384-386 | mode `random` puts one large-enough image tag of the full content before the stripped excerpt |
| ExcerptImages.ModeNoImage | features/excerpt.php:355-379 | in any mode but `all`, a content without a large-enough image gives the stripped excerpt |
| ExcerptImages.ModeUnknown | features/excerpt.php:355-388 | an unrecognised mode gives the stripped excerpt with no image |
| ExcerptImages.RewriteNoMatch | features/excerpt.php:439-443 | a rewrite with no match left in the text changes nothing |
| ExcerptImages.RewriteKeepsImg | features/excerpt.php:439-443 | removing width, height or style attributes keeps the `<img` at the start of the tag |
| ExcerptImages.FinalizeNoImage | features/excerpt.php:431-458 | a text without `<img` passes through unchanged |
| ExcerptImages.StripSizesKeepsImg | features/excerpt.php:439-443 | the tag stripped of its sizes and style still starts with `<img` |
| ExcerptImages.AddClassPrefix | features/excerpt.php:445-449 | an image without a class gets `class="excerpt-image"` right after `<img` |
| ExcerptImages.LinkImageShape | features/excerpt.php:445-456 | each image becomes an `excerpt-image-link` anchor carrying the post's link and title, with `fetchpriority="high"` first exactly for the first post, otherwise the `excerpt-image` class |
| Stats.BreakdownTruncates | features/stats.php:589-607 | the amount shown never exceeds the real one and misses it by less than one unit of the lower order; seconds are shown below a minute only, and the lower count is less than one main unit |
| Stats.ParseRender | features/stats.php:595-605 | the rendered text reads back to the same count, unit and lower count: the format is unambiguous |
| Stats.UnitAtName | features/stats.php:595-605 | the unit word after a count is recognised at the head of any text |
| Stats.ParseMinorText | features/stats.php:595-603 | the optional lower part reads back to its count, zero when it was left out |
| Stats.FormatSecondsReadsBack | features/stats.php:589-607 | the formatted text of any amount reads back to the breakdown of that amount clamped at 0; amounts of 0 or less read `0秒` |
| Stats.Prefix | features/stats.php:184 | `substr(…, 0, n)` gives the first `min(n, length)` characters |
| Stats.VisitorHash | features/stats.php:175-191 | the key starts with `u` exactly for logged-in users and with `g` exactly for guests, and a guest key is at most 33 characters |
| Stats.UserKeysDistinct | features/stats.php:177-179 | two different logged-in users never share a key |
| Stats.GuestKeyFollowsCookie | features/stats.php:182-185 | a guest with a visitor cookie keeps one key whatever address or browser string comes with it |
| Stats.StaleKeys | features/stats.php:929 | the rows selected for deletion are exactly those last active before the cutoff |
| Stats.Without | features/stats.php:928-932 | deleting rows removes exactly the named keys and leaves every other row as it was |
| Stats.OnlineStats.constructor | features/stats.php:65-85 | a fresh online table is empty, with no throttle entry and a zero maximum record |
| Stats.OnlineStats.UpdateUserOnline | features/stats.php:196-259 | a guest without a cookie gets `vid_` plus random hex when headers are not sent; a throttled update succeeds without writing; otherwise the row of the visitor's key is inserted or refreshed (keeping its creation time) and the throttle set, or nothing changes and the result is false when the query fails |
| Stats.OnlineStats.UpdateMaxIfNeeded | features/stats.php:296-315 | the maximum record becomes the larger of the old one and the current count, with the time of the update only when the count beats it |
| Stats.OnlineStats.OnlineCount | features/stats.php:264-291 | the count is the number of rows active in the last 300 seconds, and a positive count raises the maximum record when it beats it |
| Stats.OnlineStats.Cleanup | features/stats.php:913-950 | the cleanup with a cutoff 900 seconds back deletes only stale rows, at most 5000, and every stale row up to 5000 when no query fails; nothing else changes |
| Stats.DeleteStale | features/stats.php:924-944 | the batch loop removes only stale rows, counts them exactly, leaves the rest untouched, stops at 5000, and removes all stale rows up to 5000 when no batch fails |
| Stats.DeletedWithout | features/stats.php:924-944 | removing a set of stale keys of the right size is a valid outcome of the cleanup |
| Stats.StaleAfter | features/stats.php:927-943 | after a batch the stale rows left are the old ones minus those removed |
| Stats.BatchStep | features/stats.php:927-943 | two successive batches remove the disjoint union of their keys |
| Stats.SubsetOfSize | features/stats.php:929 | a `LIMIT n` delete always has `n` stale rows to pick when there are at least `n` |
| Stats.OnlineSeconds | features/stats.php:529-571 | an administrator with a session counts the saved total plus the session total plus at most 1800 running seconds; without a session, the saved total plus at most 300 seconds since last activity |
| Stats.TotalSecondsBounds | features/stats.php:529-575 | with every administrator in a session, the total lies between the stored seconds and the stored seconds plus 1800 per administrator |
| Stats.SumOnlineTime | features/stats.php:521-580 | the loop over the administrators sums their online seconds, clamps at 0 and formats the result |
| Stats.StatsCache.TotalOnlineTime | features/stats.php:512-583 | a live `admin_total_time` entry is served as it is and kept; otherwise the formatted total is computed and kept for 300 seconds; the status entry is untouched |
| Stats.TotalOnlineTimeTwice | features/stats.php:514-519 | the first call on an expired memo computes the formatted total, and within 300 seconds a second call serves the same text, even when the administrators' times changed |
| Stats.ScanOnlineStatus | features/stats.php:478-497 | the administrators are online exactly when one was active in the last 300 seconds, and the latest time is the greatest last-active time, 0 when none |
| Stats.StatsCache.AdminOnlineStatus | features/stats.php:470-507 | a live `admin_online_status` entry is served as it is and kept; otherwise the status is computed, with online meaning activity in the last 300 seconds and the latest time being the largest positive activity time (0 when none), and kept for 60 seconds; the total entry is untouched |
| Stats.AdminClock.constructor | features/stats.php:379-382 | a clock starts from the stored total, session row and last-active time |
| Stats.AdminClock.Update | features/stats.php:364-465 | without permission nothing changes; otherwise a missing session starts at now, a session idle over 1800 seconds saves 1800 and restarts, a live one grows and is saved and reset once it reaches 600 seconds; an update within 1800 seconds of the last one leaves the online time shown at that instant unchanged |
| Stats.AdminClock.Logout | features/stats.php:1018-1061 | without permission nothing changes; otherwise the session is closed, its seconds (with the running part when under 1800) are saved, and a logout within 1800 seconds of the last update leaves the online time shown unchanged |
| Admin.SanitizeField | core/admin.php:250-274 | a checkbox stores 1 exactly when submitted, else 0; a select stores the cleaned value when it is one of its options and otherwise its first option, so a select with options always stores one of them; an unsubmitted text stores the empty string; a custom field stores nothing |
| Admin.SanitizeAllSnoc | core/admin.php:249-276 | the fields are processed in order, each one overwriting the entry of its id |
| Admin.SanitizeAllKeys | core/admin.php:249-276 | the output holds exactly the ids of the non-custom fields of the configuration |
| Admin.SanitizeAllValue | core/admin.php:249-276 | the stored value of a field is that field's sanitized value when no later field reuses its id |
| Admin.CheckboxSanitize | core/admin.php:245-284 | the nested loop over tabs and fields returns the sanitized map of every configured field |
| Admin.SanitizeTab | core/admin.php:250-274 | the inner loop over one tab's fields extends the map of the earlier tabs to the sanitized map of those fields followed by this tab's |
| Admin.ModuleSettingsSanitize | core/admin.php:286-340 | each module checkbox is present (as 1) exactly when submitted; other existing settings are kept; the word limit is always a valid positive number: the submitted trimmed value when numeric and positive, otherwise 500, or the existing valid value when not submitted; a submitted image mode is kept when it is `all`, `random`, `first` or `none` and otherwise becomes `all`; an unsubmitted one is left as it was |
| Admin.NotModuleCheckboxes | core/admin.php:292-298 | the word limit and image mode are not among the module checkboxes, so the three steps touch different keys |
| Admin.SanitizeModules | core/admin.php:289-332 | the same guarantees as the settings callback, for any list of checkbox ids distinct from the two other keys |
| Admin.ApplyCheckboxes | core/admin.php:299-306 | each listed id is set to 1 when submitted and removed otherwise; every other key is untouched |
| Admin.ApplyWordLimit | core/admin.php:308-321 | the word limit becomes the excerpt word limit of the trimmed input, or the existing valid value, or 500; nothing else changes |
| Admin.ApplyImageMode | core/admin.php:324-332 | a submitted mode is kept when valid and otherwise replaced by `all`; an unsubmitted one leaves the settings unchanged |
| Admin.SetFlags | core/admin.php:344 | each listed flag stores 1 when submitted and 0 otherwise, other keys kept |
| Admin.SetCodes | core/admin.php:345 | each listed code stores its filtered input, or the empty string when missing, other keys kept |
| Admin.AdSettingsSanitize | core/admin.php:342-353 | the output holds exactly the three ad flags and the three ad codes, each flag 1 exactly when submitted and each code its filtered input or empty |
| Admin.AdminSettingsSanitize | core/admin.php:375-387 | the output holds exactly the twelve admin switches, each 1 exactly when submitted |
| Admin.KeptLinksAppend | core/admin.php:358-362 | the links kept from two runs of entries are those of each run, in order |
| Admin.KeptLinksAll | core/admin.php:358-362 | when every entry has a name and a URL, every entry is kept, cleaned, at its own position |
| Admin.KeptLinksNone | core/admin.php:358-362 | when no entry has both a name and a URL, nothing is kept |
| Admin.FriendLinksSanitize | core/admin.php:355-371 | a missing input stores no link; otherwise the loop keeps, in order and cleaned, the entries with a non-empty name and URL |
| Admin.CompareFrom | core/admin.php:550-556 | the comparison is always -1, 0 or 1 |
| Admin.ParseInt | core/admin.php:551-552 | `parseInt` after a `-` never yields a positive number |
| Admin.ParseIntTrims | core/admin.php:551-552 | leading JavaScript white space, the no-break space and the line separators included, is skipped |
| Admin.ParseIntHex | core/admin.php:551-552 | `0x` followed by hexadecimal digits reads in base 16 |
| Admin.HexPartCompares | core/admin.php:547-557 | `versionCompare("0x10", "9")` is 1, because `0x10` reads as 16 |
| Admin.VersionCompare | core/admin.php:547-557 | the loop over the dotted components returns the reference comparison of the two versions |
| Admin.CompareFromAntisymmetric | core/admin.php:550-556 | swapping the versions negates the result |
| Admin.CompareFromReflexive | core/admin.php:550-556 | a version compares equal to itself |
| Admin.CompareFromPadZero | core/admin.php:551-552 | a missing component counts as 0, so appending a 0 component changes no comparison |
| Admin.PadZeroEquals | core/admin.php:547-557 | `v.0` and `v` compare equal both ways |
| Admin.ActiveTab | core/admin.php:669 | the requested tab is shown when it exists in the configuration and `modules` otherwise |
| Setup.FieldOr | core/setup.php:39-42 | a missing or null field gives the default; any other field gives its stored value |
| Setup.EnabledIff | core/setup.php:47-49 | a field is enabled exactly when it is present and not PHP-empty |
| Setup.CachedRead | core/setup.php:29-34 | a cached option is returned from the cache, otherwise the stored option, otherwise the default |
| Setup.CoherentReadIsStored | core/setup.php:29-34 | while the cache agrees with the stored options, a read returns the stored option whatever default is given |
| Setup.CachedIgnoresDefault | core/setup.php:30-33 | once an option is cached, the default of a later read has no effect |
| Setup.SettingsManager.constructor | core/setup.php:24 | the manager starts with an empty cache, which agrees with the stored options |
| Setup.SettingsManager.Get | core/setup.php:29-34 | the read result is cached under its name, the stored options are untouched and a coherent cache stays coherent |
| Setup.SettingsManager.GetField | core/setup.php:39-42 | the field is read from the cached option (default empty), or the default when missing or null |
| Setup.SettingsManager.IsEnabled | core/setup.php:47-49 | the result is true exactly when the cached option holds the key with a non-empty value |
| Setup.SettingsManager.Update | core/setup.php:54-60 | a successful write updates the stored option and the cache alike; a failed one changes neither; coherence is kept |
| Setup.SettingsManager.ClearCache | core/setup.php:65-71 | with no name the whole cache is emptied, with a name only that entry is dropped |
| Setup.SettingsManager.GetMultiple | core/setup.php:76-82 | the result has one entry per name, each the cached read of that option, and all of them end up cached |
| Setup.LoadedFilesIff | core/setup.php:226-243 | a file is loaded exactly when some enabled feature names it, it should load in this context and it exists |
| Setup.AjaxLoadsEveryEnabled | core/setup.php:234-235 | during an AJAX request every enabled feature whose file exists is loaded |
| Setup.DisabledNotLoaded | core/setup.php:228-229 | a file only named by disabled features is never loaded |
| Setup.AdminSkipsFrontendOnly | core/setup.php:231-235 | outside AJAX, a front-end-only feature is not loaded in the admin |
| Setup.ExcerptNotInAdmin | core/setup.php:204-210 | the excerpt feature is not loaded in the admin, but is during an AJAX request |
| Setup.AutoloadFeatures | core/setup.php:140-244 | the loop over the feature table loads exactly the files of the reference selection, in table order |
| Setup.PagedOf | core/setup.php:306 | a zero page variable means page 1; any other is taken as its absolute value |
| Setup.NumberItemsAt | core/setup.php:335-346 | the `k`-th page entry is the entry of page `k + 1` |
| Setup.ItemsShape | core/setup.php:321-354 | the previous link is disabled exactly on page 1 or before, the next link exactly on the last page or after, and page `k` is marked current exactly when it is the current page |
| Setup.OneCurrentPage | core/setup.php:335-346 | at most one entry is marked current, and one is exactly when the current page is within range |
| Setup.CustomPostsPagination | core/setup.php:299-360 | with one page or none the output is empty; otherwise it is the navigation wrapper around the rendered entries, with the default previous and next labels unless given |
| Setup.PagesHtml | core/setup.php:335-346 | the loop over the pages renders the page entries in order |
| Setup.FormatNumber | core/setup.php:371-376 | a non-numeric value is returned as it was, a numeric one becomes a string |
| Setup.FormatNumberIntegral | core/setup.php:375 | with no decimals a numeric value becomes the decimal string of its integer part |
| Setup.RelativeAgo | core/setup.php:381-398 | less than 60 seconds is `just now`; otherwise the count is the whole number of units elapsed, at least 1 |
| Setup.RelativeAgoSpan | core/setup.php:385-397 | each unit is used only within its band: minutes under an hour, hours under a day, days under 30 days, months under a year and at most 12 |
| Setup.RelativeAgoMonotone | core/setup.php:381-398 | an older time never reads as more recent |
| Setup.RelativeTime | core/setup.php:381-398 | the text is `刚刚` exactly when less than 60 seconds have passed |
| Setup.AgoTextInjective | core/setup.php:388-396 | different elapsed counts or units give different texts |
| Setup.CountedTextInjective | core/setup.php:388-396 | a count followed by a unit word reads back to that count and that unit |
| UserAgent.RunLen | features/user-agent.php:207-211 | a character-class run is maximal: every character in it belongs to the class and the next one does not |
| UserAgent.CaptureFromIff | features/user-agent.php:207-211 | a capture succeeds exactly when the word occurs somewhere with the version pattern right after it |
| UserAgent.FoundIff | features/user-agent.php:62-182 | a case-insensitive test succeeds exactly when the word occurs somewhere in the string |
| UserAgent.UnderscoresToDots | features/user-agent.php:118-127 | the macOS version keeps its length and has each `_` turned into `.` |
| UserAgent.WithVersion | features/user-agent.php:195-197 | the title is the base name alone when there is no version and the base, one space and the version otherwise |
| UserAgent.BrowserVersion | features/user-agent.php:205-215 | the version is empty when the pattern after `<title>/` does not match, and otherwise the non-empty captured text |
| UserAgent.Finish | features/user-agent.php:190-199 | the code is the chosen one and the title is the base with the version of the chosen source |
| UserAgent.WindowsChoice | features/user-agent.php:62-95 | any Windows marker gives the `Windows` title with one of the four icon codes, and a fixed version or none |
| UserAgent.MacChoice | features/user-agent.php:106-133 | every Apple system uses the `Apple` code |
| UserAgent.Os | features/user-agent.php:57-200 | the system code is never empty |
| UserAgent.OsWindowsFirst | features/user-agent.php:62 | a Windows marker wins over every later test |
| UserAgent.OsHarmonyBeforeAndroid | features/user-agent.php:97-100 | an Android string that also names HarmonyOS is reported as HarmonyOS, not Android |
| UserAgent.OsFallback | features/user-agent.php:182-192 | `Others` / `Other System` is returned exactly when no system test matches |
| UserAgent.OsOfString | features/user-agent.php:57-200 | on a real string, a Windows marker gives a title starting with `Windows`, and no marker gives `Other System` |
| UserAgent.BrowserChoice | features/user-agent.php:225-416 | the browser code is never empty |
| UserAgent.LaterBrowserChoice | features/user-agent.php:314-416 | the later tests give `Others` exactly for the `Other Browser` fallback, and take any version from after a name |
| UserAgent.Browser | features/user-agent.php:220-427 | the browser code is never empty |
| UserAgent.EdgeBeforeChrome | features/user-agent.php:384-391 | a string with an Edge marker is never reported as Google Chrome |
| UserAgent.BrowserVersionSource | features/user-agent.php:225-416 | a browser version is only ever read after a name, never fixed |
| UserAgent.BrowserFallback | features/user-agent.php:413-420 | `Others` is returned exactly for the `Other Browser` fallback |
| UserAgent.BrowserTitleBare | features/user-agent.php:422-424 | when no version is found the title is the bare browser name |
| UserAgent.UaHtml | features/user-agent.php:21-42 | the markup is empty exactly when the `enable_user_agent` setting is off |
| Shortcodes.Attr | features/shortcodes.php:161-166 | a supplied attribute wins, a missing one takes the shortcode's default |
| Shortcodes.ErrorParagraph | features/shortcodes.php:169 | an error is a paragraph ending in its message |
| Shortcodes.RenderVideo | features/shortcodes.php:160-183 | the error paragraph is returned exactly when `src` is empty; otherwise the player's source is the escaped `src` as MP4 |
| Shortcodes.AlertClass | features/shortcodes.php:198-199 | the class is one of the four known ones, `warning` exactly maps to `alert`, and an unknown type falls back to `info` |
| Shortcodes.AlertContentClass | features/shortcodes.php:201 | the content is centred exactly when there is no title |
| Shortcodes.RenderAlert | features/shortcodes.php:191-210 | a self-closing alert renders nothing; otherwise the box carries the mapped type class and the processed content in its content division |
| Shortcodes.ButtonColor | features/shortcodes.php:227-230 | the colour is always one of the five valid ones, kept when valid and `primary` otherwise |
| Shortcodes.RenderButton | features/shortcodes.php:216-235 | a self-closing button renders nothing; otherwise the link has the validated colour class and ends with the raw content |
| Shortcodes.RenderQuote | features/shortcodes.php:241-251 | a self-closing quote renders nothing; otherwise the blockquote starts with the processed content and has nothing else when there is no author |
| Shortcodes.HeadingLevel | features/shortcodes.php:264 | the level is PHP's `intval` of the attribute (leading blanks, sign, fraction and exponent read as PHP reads them), clamped to 1..6 and kept when already inside |
| Shortcodes.HeadingLevelExponent | features/shortcodes.php:264 | a level written with an exponent is read with it applied, so `level="1e1"` is 10 and gives `h6` |
| Shortcodes.LevelDigit | features/shortcodes.php:266-268 | the level is written as one digit from 1 to 6 |
| Shortcodes.RenderHeading | features/shortcodes.php:257-269 | a self-closing heading renders nothing; otherwise the opening and closing tags use the same clamped level |
| Shortcodes.BookLinkOpen | features/shortcodes.php:333-335 | the opening link is present exactly when the escaped URL is not PHP-empty, and is then an `<a ` tag |
| Shortcodes.BookLinkClose | features/shortcodes.php:362-364 | the closing `</a>` is present exactly when the link was opened |
| Shortcodes.BookCover | features/shortcodes.php:337-340 | the cover is present exactly when an image is given, and is then an `<img ` tag |
| Shortcodes.BookItem | features/shortcodes.php:330-368 | the item opens with a link exactly when there is a URL, otherwise with the cover or the title, and contains the title span |
| Shortcodes.BookItemShape | features/shortcodes.php:330-368 | link, cover, title span and rating in that order open with the link exactly when it is present, else with the cover or the span |
| Shortcodes.RenderBook | features/shortcodes.php:309-373 | an empty title gives `<li class="empty"></li>` and only then; otherwise one list item that opens with a link exactly when the escaped URL is non-empty, and whose whole content is the link opening, the proxied cover, the escaped title's span, the rating markup when a rating is given, and the link closing, in that order |
| Shortcodes.ListItem | features/shortcodes.php:330-370 | a rendered book item is never the empty marker and starts with a link exactly when its body does |
| Shortcodes.IndexOf | features/shortcodes.php:443 | the split point is the first `|`, and there is none exactly when the content has no `|` |
| Shortcodes.SrcAlt | features/shortcodes.php:442-446 | the content splits at its first `|` into trimmed source and alt text, with an empty alt when there is no `|` |
| Shortcodes.SrcAltRoundTrip | features/shortcodes.php:442-446 | writing a trimmed source without `|` and a trimmed alt as `src|alt` reads back to both |
| Shortcodes.CssLength | features/shortcodes.php:474-475 | a width that PHP 8 calls numeric (blanks around it, sign, fraction and exponent allowed) gets `px`, any other is used as written |
| Shortcodes.CssLengthExponent | features/shortcodes.php:474-475 | a width written as digits, `e` and digits, such as `1e2`, is numeric and gains `px` |
| Shortcodes.ImageStyles | features/shortcodes.php:458-477 | the styles always hold the two responsive rules, lead with the trimmed custom style when given and end with the width rule when a width is given |
| Shortcodes.ImageSource | features/shortcodes.php:441-446 | non-empty content overrides `src` and `alt`, otherwise the attributes are used |
| Shortcodes.ImageTag | features/shortcodes.php:455-491 | the image starts with the escaped source and ends with the escaped style list |
| Shortcodes.RenderFullImage | features/shortcodes.php:431-494 | the error paragraph is returned exactly when the source is empty; otherwise the image inside the left-aligned container |
| Shortcodes.ContainerIsNotError | features/shortcodes.php:449-490 | the container markup can never be mistaken for the error paragraph |
| Shortcodes.NonEmpty | features/shortcodes.php:515-519 | the kept URLs are exactly the non-empty ones |
| Shortcodes.NamedUrls | features/shortcodes.php:524-529 | at most `n` named URLs are taken, none of them empty |
| Shortcodes.GalleryUrls | features/shortcodes.php:510-530 | at most ten URLs are collected, none of them empty |
| Shortcodes.GalleryClass | features/shortcodes.php:540-551 | one image uses `gallery-single`, `n` images `gallery-grid-n` |
| Shortcodes.CollectUrls | features/shortcodes.php:510-530 | the two collection loops gather the reference list of URLs |
| Shortcodes.RenderLinks | features/shortcodes.php:554-562 | the loop renders one lightbox link per URL, in order |
| Shortcodes.RenderGallery | features/shortcodes.php:508-567 | the method renders the gallery of the collected URLs |
| Shortcodes.GalleryArity | features/shortcodes.php:532-537 | the error paragraph is returned exactly when fewer than one or more than three URLs are collected |
| Shortcodes.NotGalleryError | features/shortcodes.php:536-552 | a layout division is never the error paragraph |
| Shortcodes.GalleryLayout | features/shortcodes.php:539-566 | one to three URLs open the layout division of their count, and several URLs give the division around their links |
| Shortcodes.GalleryPositionalFirst | features/shortcodes.php:513-530 | positional URLs win when one of the first ten is non-empty; otherwise the named `img1`..`img10` are used |
| Shortcodes.PlaylistSongs | features/shortcodes.php:604-613 | the collected songs are exactly the page's songs of type `playlist` whose non-empty playlist name matches |
| Shortcodes.PlaylistGroups.constructor | features/shortcodes.php:575 | no playlist has been rendered at the start of a request |
| Shortcodes.PlaylistGroups.RenderGroup | features/shortcodes.php:574-624 | a playlist already rendered gives the empty string and changes nothing; otherwise it is rendered and recorded, so afterwards it is always recorded |
| Shortcodes.CollectSongs | features/shortcodes.php:601-613 | the loop over the page's music shortcodes collects the reference list of songs |
| Shortcodes.RenderTwice | features/shortcodes.php:575-585 | a playlist rendered twice gives the empty string the second time, and is recorded once |
| PostEnhancements.CurrentPage | features/post-enhancements.php:187 | an unset page variable counts as page 1 |
| PostEnhancements.Ids | features/post-enhancements.php:201 | the sticky ids are exactly the ids of the sticky posts |
| PostEnhancements.Without | features/post-enhancements.php:202-204 | the normal posts are exactly the posts whose id is not sticky |
| PostEnhancements.ReorderPostsWithSticky | features/post-enhancements.php:186-209 | outside the first page of the main home query, or with no sticky post or no posts, the list is unchanged; otherwise the sticky posts come first, followed by the other posts without the sticky ids |
| PostEnhancements.WithoutDistinct | features/post-enhancements.php:202-204 | filtering keeps the post ids distinct |
| PostEnhancements.ReorderNoDuplicates | features/post-enhancements.php:200-206 | a sticky post that is also in the page is not shown twice: the result has distinct ids |
| PostEnhancements.ReorderMembers | features/post-enhancements.php:200-206 | the reordered page holds exactly the sticky posts and the posts that are not sticky |
| PostEnhancements.ToggledStatus | features/post-enhancements.php:78 | the new status is `0` exactly when the stored one is `1`, so it is always `0` or `1` |
| PostEnhancements.ToggleTwice | features/post-enhancements.php:78 | toggling twice restores a `0` or `1` status |
| PostEnhancements.CheckboxMeta | features/post-enhancements.php:63 | the stored flag is `1` exactly when the checkbox was posted and `0` otherwise |
| PostEnhancements.PostMeta.constructor | features/post-enhancements.php:16-21 | the store starts from the given metadata and cookies, with the recommended cache present |
| PostEnhancements.PostMeta.Get | features/post-enhancements.php:78 | a missing meta value reads as the empty string |
| PostEnhancements.PostMeta.SaveRecommended | features/post-enhancements.php:55-65 | an allowed save stores the checkbox flag and clears the recommended cache; a refused one changes nothing |
| PostEnhancements.PostMeta.SaveSticky | features/post-enhancements.php:143-152 | an allowed save stores the sticky flag; a refused one changes nothing |
| PostEnhancements.PostMeta.ToggleRecommended | features/post-enhancements.php:70-87 | without permission the request fails with no write; otherwise the flag is flipped, stored and returned, and the cache cleared |
| PostEnhancements.PostMeta.Like | features/post-enhancements.php:264-290 | a zero or negative id, or a post already liked by this visitor, fails with no write; otherwise the stored count goes up by one and the post is remembered as liked |
| PostEnhancements.LikeTwice | features/post-enhancements.php:270-274 | a second like of the same post by the same visitor always fails, and the first success leaves its count stored |
| PostEnhancements.PreprocessComment | features/post-enhancements.php:355-360 | a comment is refused exactly when its author name is missing or empty, and otherwise passes unchanged |
| PostEnhancements.ClassNameInjective | features/post-enhancements.php:385-395 | different comment classes have different names |
| PostEnhancements.When | features/post-enhancements.php:387-395 | a class is added exactly when its condition holds |
| PostEnhancements.CommentClasses | features/post-enhancements.php:385-395 | `comment` always comes first; `comment-parent` appears exactly for comments with replies, `comment-child` exactly for replies, exactly one of `comment-odd` and `comment-even` by the id's parity, and `comment-by-author` exactly when the logged-in author wrote it |
| PostEnhancements.CommentClassesUnique | features/post-enhancements.php:385-395 | no class name appears twice |
| PostEnhancements.Names | features/post-enhancements.php:397 | each class is written by its name, in order |
| PostEnhancements.CommentWalker.constructor | features/post-enhancements.php:367 | the walker starts with no output at depth 0 |
| PostEnhancements.CommentWalker.StartLevel | features/post-enhancements.php:368-371 | a level opens the children division and list and sets the depth to one more than given |
| PostEnhancements.CommentWalker.EndLevel | features/post-enhancements.php:373-376 | a level closes the list and division and sets the depth to one more than given |
| PostEnhancements.CommentWalker.StartElement | features/post-enhancements.php:378-397 | the depth it is given goes up by one and becomes the global comment depth; the output gains the comment's opening `li` with its anchor and the classes computed from its children, parent, id and author |
| PostEnhancements.CommentOpenTag | features/post-enhancements.php:396 | the opening tag starts with the `comment-<id>` anchor and the class attribute, and ends the tag |
| PostEnhancements.OpenTagClassesStart | features/post-enhancements.php:382-396 | the class attribute of every comment begins with `comment` |
| PostEnhancements.NestedLevel | features/post-enhancements.php:368-376 | a nested level wraps its inner output in the children markup, balanced |
| Performance.AddDeferToScripts | features/performance.php:271-283 | admin pages, the two jQuery handles, tags already deferred and tags without ` src=` are left as they are; any other tag comes out deferred |
| Performance.DeferIdempotent | features/performance.php:277-282 | applying the filter twice gives the same tag as applying it once |
| Performance.ExcerptLength | features/performance.php:410-417 | the excerpt length is always positive; a length other than 500 is the `intval` of a numeric setting; a non-numeric or non-positive setting gives 500 |
| Performance.ExcerptLengthIsWordLimit | features/performance.php:410-417 | a stored string setting gives the same length as the excerpt builder's word limit for that string |
| Performance.ExcerptLengthDefault | features/performance.php:411-415 | a missing or null setting gives 500 |
| Performance.CjkCount | features/performance.php:439-440 | the CJK count is at most the length and is 0 exactly when the text has no character in U+4E00..U+9FA5 |
| Performance.RunsFrom | features/performance.php:443-444 | there are never more words than characters |
| Performance.RunsFromNone | features/performance.php:443-444 | no word is counted exactly when the text has no word character |
| Performance.TokensNone | features/performance.php:443-444 | the word count is 0 exactly when the text has no letter, digit, apostrophe or hyphen |
| Performance.TokensAdd | features/performance.php:443-444 | the words of two texts joined by a separator are the words of each, added |
| Performance.RunsSplit | features/performance.php:443-444 | a separator ends the current word, so counting splits there |
| Performance.CjkAdd | features/performance.php:439-440 | the CJK count of a concatenation is the sum of the counts |
| Performance.RunOfWordChars | features/performance.php:443 | a run of word characters is one word |
| Performance.CountsWithinLength | features/performance.php:439-446 | CJK characters and words together never exceed the length, since a CJK character is never a word character |
| Performance.TotalWords | features/performance.php:446 | the total is at most the length of the text |
| Performance.PostWordCount | features/performance.php:423-449 | the result always ends in `字`; empty content, or content empty after stripping, gives `0字`; otherwise the formatted total of CJK characters and words |
| Performance.CacheKey | features/performance.php:462 | the key is the group, `_`, then the key |
| Performance.CacheKeyInjective | features/performance.php:462 | for groups without `_`, different groups or keys give different cache keys |
| Performance.CacheKeyCollision | features/performance.php:462 | groups containing `_` can collide: group `a_b` with key `c` and group `a` with key `b_c` share one entry |
| Performance.Duration | features/performance.php:478 | an empty duration means one hour (3600 seconds); any other is used as given |
| Performance.TransientCache.constructor | features/performance.php:461-488 | the cache starts empty |
| Performance.TransientCache.Get | features/performance.php:461-471 | a hit returns the stored value unchanged; a miss without callback returns nothing; a miss with a callback stores its value for an hour and returns it |
| Performance.TransientCache.Set | features/performance.php:476-480 | the value is stored under the group's key with its duration, or an hour |
| Performance.TransientCache.Delete | features/performance.php:485-488 | exactly the group's key is removed |
| Performance.SetThenGet | features/performance.php:461-480 | a get right after a set returns the value set |
| Performance.GetMemoizes | features/performance.php:461-471 | two gets return the same value: the stored one, or the first callback's value, which is then kept |
| Performance.DeleteIsolated | features/performance.php:485-488 | deleting in one group leaves an entry of another group (neither containing `_`) untouched |
| Performance.LogUser | features/performance.php:535 | the user is the display name, or `系统` when it is empty; never empty |
| Performance.Prepended | features/performance.php:539-540 | the new entry comes first, followed by the previous entries, at most 50 in total |
| Performance.Reversed | features/performance.php:539 | the reversal keeps the length and puts the last entry first, the order in which `array_unshift` leaves entries logged one by one |
| Performance.LogAllKeepsRecent | features/performance.php:530-543 | after several operations the log holds the newest 50 entries, newest first |
| Performance.OperationLog.constructor | features/performance.php:538 | the log starts empty and within its bound |
| Performance.OperationLog.Log | features/performance.php:530-543 | the entry, with its user, is prepended and the log kept to 50 |
| Performance.OperationLog.Recent | features/performance.php:548-551 | the first `limit` entries, or all but the last `-limit` for a negative limit, as `array_slice` does |
| Performance.RemoveSelfPings | features/performance.php:158-165 | exactly the links that start with the home URL are removed; the others keep their keys and values |
| Image.LastIndex | features/image.php:75 | the extension separator is the last `.`, and there is none exactly when the name has no `.` |
| Image.LastIndexAt | features/image.php:75 | a `.` followed only by text without `.` is the last one |
| Image.Basename | features/image.php:75 | the base name never contains `/` |
| Image.Extension | features/image.php:75 | an extension never contains `.` or `/` |
| Image.ExtensionSuffix | features/image.php:76 | the suffix is empty, or a `.` followed by the name's non-empty extension |
| Image.RenameUploadedImage | features/image.php:74-84 | only the name of the upload changes: it becomes the timestamp, `_`, the random number and the original extension |
| Image.RenameKeepsExtension | features/image.php:76-80 | the new name keeps the original non-empty extension, and has none when the original had none |
| Image.AltText | features/image.php:107-117 | the alt text is never empty: the stored alt, else the title, else the description, else `网站图片` |
| Image.OptimizeImageAttributes | features/image.php:105-131 | a missing or placeholder alt is replaced by the escaped alt text and any other is kept; `loading` and `decoding` default to `lazy` and `async`; every other attribute is kept |
| Image.OptimizeTwice | features/image.php:105-131 | running the filter again on its own output changes nothing |
| Image.IsSpecialImageQuick | features/image.php:460-479 | the loops report an image as special exactly when its source has a listed keyword or its class a listed class |
| Image.SpecialSourceKeywords | features/image.php:462-467 | the seven keywords reduce to `svg` or `icon`: a source matches one exactly when it contains one of these two |
| Image.SmallImageUrl | features/image.php:499-519 | the URL changes exactly when it is an upload with an attachment whose medium size differs from it, and then it becomes that medium URL |
| Image.ProcessContentImages | features/image.php:153-190 | empty content, admin pages and content without `<img` pass unchanged; without the two options only lightbox links are added; otherwise the DOM rewrite is used unless it fails, is empty or is under half the original length |
| Image.RewriteNeverShrinksBelowHalf | features/image.php:182-189 | the result is the content, its lightbox version, or a rewrite at least half the original length |
| Archive.Level | template-archive.php:30-34 | the level is between 0 and 4, 0 exactly for no posts and 4 exactly for more than six |
| Archive.LevelMonotone | template-archive.php:30-34 | a day with more posts never gets a lighter level |
| Archive.Saturdays | template-archive.php:38-40 | the column count is at most the number of days |
| Archive.SweepOf | template-archive.php:16-41 | the sweep has one cell per day and ends in the column after the last Saturday |
| Archive.HeatmapLoop | template-archive.php:11-41 | the loop over the days builds the cells and month labels of the reference sweep, and ends with its last labelled month and column |
| Archive.HeatmapDay | template-archive.php:17-40 | one pass adds the day's cell and any month label, and moves to the next column after a Saturday |
| Archive.SweepSnoc | template-archive.php:16-41 | the sweep of one more day is one more step of the loop |
| Archive.GenerateHeatmapSvg | template-archive.php:4-59 | the SVG is the opening, the month labels, the weekday labels, the day cells and the legend, in this order |
| Archive.WeekStep | template-archive.php:38-40 | the column grows by one exactly after a Saturday |
| Archive.WeekMonotone | template-archive.php:38-40 | columns never go back |
| Archive.SweepCell | template-archive.php:28-36 | the `k`-th cell is in the column of its week, the row of its weekday, with the day's post count (0 when absent) |
| Archive.SameWeekWeekdays | template-archive.php:17-40 | within one column, consecutive days have consecutive weekdays |
| Archive.CellsDoNotOverlap | template-archive.php:36 | over consecutive days no two cells are drawn at the same position |
| Archive.FromFirstMondayExtends | template-archive.php:21-26 | a label placed on a Monday of a month's first week stays valid as the sweep goes on |
| Archive.HeadingsOnFirstMondays | template-archive.php:21-26 | every month label is placed on a Monday in the first seven days of its month |
| Archive.HeadingsChangeMonth | template-archive.php:22-25 | two successive labels are never for the same month, and the last labelled month is remembered (-1 when none) |
| Archive.RunningDays | template-archive.php:66-71 | the running days are the whole days since the first post, or since today when there are no posts |
| Archive.RunningDaysWithoutPosts | template-archive.php:68-71 | a blog without posts has run 0 days |
| Archive.AddPostWellFormed | template-archive.php:152-158 | adding a post keeps the year, month and item indexes consistent |
| Archive.AddPostYears | template-archive.php:157 | years stay distinct and each has its month index |
| Archive.AddPostMonths | template-archive.php:157 | months within a year stay distinct |
| Archive.AddPostItems | template-archive.php:157 | every item list stays reachable from its year and month |
| Archive.GroupedWellFormed | template-archive.php:151-159 | grouping any list of posts gives consistent indexes |
| Archive.GroupArchives | template-archive.php:140-159 | the loop over the posts builds the reference grouping |
| Archive.MatchingNonEmpty | template-archive.php:157 | a month's list of posts is non-empty exactly when some post falls in it |
| Archive.GroupedItems | template-archive.php:151-159 | a month appears exactly when some post falls in it, with exactly those posts in their original order |
| Archive.GroupedMatching | template-archive.php:151-159 | a month appears exactly when it has posts, listing them in query order |
| Archive.MonthsCollectedDescending | template-archive.php:144-159 | for posts newest first, each year's months are collected newest first and none is older than the last post |
| Archive.AddPostDescending | template-archive.php:152-158 | adding a post no newer than all before it keeps each year's months newest first |
| Archive.InsertDesc | template-archive.php:167 | insertion adds exactly the one month and nothing else |
| Archive.InsertDescSorted | template-archive.php:167 | inserting into a newest-first list keeps it newest first |
| Archive.SortDesc | template-archive.php:167 | `krsort` is a permutation of the months |
| Archive.SortDescSorted | template-archive.php:167 | `krsort` leaves the months newest first |
| Archive.SortDescKeepsSorted | template-archive.php:167 | an already sorted list is left as it is |
| Archive.KrsortNoOp | template-archive.php:164-168 | for posts queried newest first, `krsort` does not change the order of a year's months |
| Archive.MonthsHtmlAppend | template-archive.php:168-173 | the blocks of two runs of months are the first run's blocks followed by the second's |
| Archive.MonthsHtmlFirst | template-archive.php:168-173 | the first month of the list is rendered first, its heading and then its posts |
| Archive.YearMonthOrder | template-archive.php:164-175 | a year's block is its heading, then its months in `krsort` order (a reordering of the year's months, largest first), then the list's closing tag |
| Archive.YearHtmlNewestFirst | template-archive.php:164-175 | for posts queried newest first, a year's months are rendered in the order they were collected, which is strictly descending |
| Archive.ArchivesHtmlAppend | template-archive.php:164-175 | the years' blocks appear in the order of the years |
| Effects.Breakdown | js/effects.js:11-14 | the days, hours, minutes and seconds add back up to the input, with hours under 24 and minutes and seconds under 60 |
| Effects.BreakdownSum | js/effects.js:11-14 | the four parts weigh back to the total seconds |
| Effects.Lead | js/effects.js:17-25 | the first part shown is the first non-zero one among days, hours and minutes, or the seconds alone |
| Effects.FormatRuntime | js/effects.js:10-29 | the text always ends with the seconds under a minute followed by `秒` |
| Effects.FormatRuntimeShown | js/effects.js:10-29 | the text lists the parts from the first non-zero one down to the seconds; they add up to the input |
| Effects.FormatRuntimeText | js/effects.js:16-28 | the text is the shown parts, each as its number and unit |
| Effects.FormatRuntimeInjective | js/effects.js:10-29 | different runtimes never read the same |
| Effects.RenderInjective | js/effects.js:16-28 | two lists of parts with known units render to the same text only when they are equal |
| Effects.UpdateRuntime | js/effects.js:32-53 | nothing is shown without the element; a missing or zero start shows `数据错误`; a start in the future shows `时间异常`; otherwise the formatted seconds since the start |
| Effects.RuntimeNotError | js/effects.js:37-52 | a formatted runtime is never one of the two error texts |
| Effects.ModeOf | js/effects.js:75-92 | the mode is the configured one, or `auto` when it is missing or empty |
| Effects.ResolveTheme | js/effects.js:197-234 | the resolved theme is always `light` or `dark` |
| Effects.Flipped | js/effects.js:251-259 | toggling always gives the other fixed theme |
| Effects.FlippedTwice | js/effects.js:251-259 | toggling twice restores a fixed theme |
| Effects.ButtonFace | js/effects.js:291-306 | the fallback title is used exactly for a theme that is neither `light` nor `dark` |
| Effects.ThemeManager.constructor | js/effects.js:71-92 | the manager starts with the configured mode, the given storage and attribute, no cached theme and no events |
| Effects.ThemeManager.SetTheme | js/effects.js:152-194 | `auto` removes the attribute and any other theme sets it; a save writes storage when it is available; the cache is cleared and one `themechange` event is sent |
| Effects.ThemeManager.GetCurrentTheme | js/effects.js:197-234 | the result is the resolved theme (fixed mode, then a saved choice, then the attribute, then `light`) and is cached; nothing else changes |
| Effects.ThemeManager.ToggleTheme | js/effects.js:237-264 | in a fixed mode nothing changes and the mode is returned; otherwise the flipped current theme is applied, saved and announced |
| Effects.ThemeManager.UpdateButtonEmoji | js/effects.js:291-306 | the button shows the face of the current theme, never the fallback |
| Effects.ThemeManager.Init | js/effects.js:95-149 | a non-`auto` mode clears the saved choice and applies the mode; in `auto` a saved `light` or `dark` is applied, otherwise the system preference when it can be read, and otherwise nothing changes |
| Effects.SavedChoiceWins | js/effects.js:212-218 | outside a fixed mode a saved fixed choice decides the theme |
| Effects.FixedModeWins | js/effects.js:206-210 | a fixed mode decides the theme whatever is saved or set |
| Effects.ToggleTwice | js/effects.js:237-264 | with working storage, toggling twice outside a fixed mode returns to the original theme, through the other one |
| Effects.InitFixed | js/effects.js:115-124 | in a fixed mode, initialising leaves that theme current and no saved choice when storage is available |
| SidebarAlbum.Wrap | js/sidebar-album.js:65-71 | the active index is always a valid item; an index in range is kept, one below zero becomes the last item and one past the end the first |
| SidebarAlbum.PrevNextInverse | js/sidebar-album.js:133-139 | going back undoes going forward and going forward undoes going back |
| SidebarAlbum.NextTimes | js/sidebar-album.js:137-139 | repeated steps forward stay on a valid item |
| SidebarAlbum.NextTimesWraps | js/sidebar-album.js:137-139 | up to a full round of steps forward lands `n` items on, wrapping once past the end |
| SidebarAlbum.NextCycle | js/sidebar-album.js:212-214 | as many autoplay steps as there are items come back to the item shown before |
| SidebarAlbum.Styled | js/sidebar-album.js:80-102 | an item is marked active, visible (`aria-hidden` false) and opaque exactly when it is the active one; its id is kept |
| SidebarAlbum.Marked | js/sidebar-album.js:107-111 | an indicator is selected and focusable exactly when it is the active one; its label is kept |
| SidebarAlbum.StyledIdempotent | js/sidebar-album.js:80-111 | restyling an item or indicator with the same state changes nothing more |
| SidebarAlbum.ItemId | js/sidebar-album.js:56-59 | an item keeps its own id, and one without gets a `sidebar-album-` id |
| SidebarAlbum.GeneratedIdsDistinct | js/sidebar-album.js:57-58 | two items of one album never get the same generated id |
| SidebarAlbum.IntervalOf | js/sidebar-album.js:38 | the autoplay interval is never zero: the parsed value when it is a non-zero number, else 4000 ms |
| SidebarAlbum.KeyStep | js/sidebar-album.js:164-174 | left and up step back, right and down step forward, any other key does nothing |
| SidebarAlbum.Restyle | js/sidebar-album.js:80-103 | every item is restyled, as the active one exactly at the active index |
| SidebarAlbum.Remark | js/sidebar-album.js:105-112 | every indicator is updated, as selected exactly at the active index |
| SidebarAlbum.Album.constructor | js/sidebar-album.js:23-61 | the album has one item per element with its own or a generated id, one indicator per item when it has a container, the first item active, `single` exactly for one item, and the timer running exactly when autoplay is wanted and there is more than one item |
| SidebarAlbum.Album.SetActive | js/sidebar-album.js:63-131 | the wrapped index becomes active, exactly that item is shown and that indicator selected, the hover class follows `forceHover` and a link in the item takes focus when asked |
| SidebarAlbum.Album.PauseAutoPlay | js/sidebar-album.js:200-205 | the timer is stopped and nothing else changes |
| SidebarAlbum.Album.StartAutoPlay | js/sidebar-album.js:207-215 | the timer runs when autoplay is on and there is more than one item, and is otherwise left as it was |
| SidebarAlbum.Album.ResetAutoPlay | js/sidebar-album.js:217-220 | afterwards the timer runs exactly when autoplay is on and there is more than one item |
| SidebarAlbum.Album.NavClick | js/sidebar-album.js:180-198 | the next or previous item becomes active with the hover class set, and the timer is restarted |
| SidebarAlbum.Album.IndicatorClick | js/sidebar-album.js:155-162 | the clicked indicator's item becomes active and the timer is restarted |
| SidebarAlbum.Album.IndicatorKey | js/sidebar-album.js:164-174 | an arrow key moves one item back or forward and restarts the timer; any other key changes nothing |
| SidebarAlbum.Album.Tick | js/sidebar-album.js:212-214 | each autoplay tick shows the next item and keeps the timer running |
| SidebarAlbum.Album.Enter | js/sidebar-album.js:223-242 | hovering or focusing sets the hover class and pauses a running autoplay |
| SidebarAlbum.Album.Leave | js/sidebar-album.js:230-251 | leaving clears the hover class and resumes autoplay, unless focus stays inside the album |
| SidebarAlbum.Album.ReducedMotionChanged | js/sidebar-album.js:253-263 | autoplay is re-derived from the new preference and the timer runs exactly when it is on and there is more than one item |
| SidebarAlbum.NamedItem | js/sidebar-album.js:56-61 | a new item carries its own or its generated id and is visible only at index 0 |
| SidebarAlbum.NamedItems | js/sidebar-album.js:56-61 | every item is named and given its initial `aria-hidden` |
| SidebarAlbum.CreateIndicators | js/sidebar-album.js:141-149 | indicator `i` is labelled with `i + 1` and only the first is selected |
| SidebarAlbum.ForwardAround | js/sidebar-album.js:137-139 | stepping forward once per item returns the album to the item it showed before |
| Assets.ImproveScriptLoading | core/assets.php:142-152 | the jQuery handles and unlisted scripts pass unchanged; a listed theme script gets `defer` after `<script ` |
| Assets.CriticalNeverDeferred | core/assets.php:143-147 | no jQuery handle is on the defer list |
| Assets.NoSecondDefer | core/assets.php:142-152 | once this filter has deferred a theme script, the performance module's `defer` filter leaves the tag as it is |
| Assets.DataAttribute | core/assets.php:65-96 | every attribute written is a `data-` attribute |
| Assets.DataAttributes | core/assets.php:65-96 | the interactions script gets eight `data-` attributes, the AJAX URL first |
| Assets.AddScriptDataAttributes | core/assets.php:61-103 | only the interactions script's tag changes, and then its `<script ` is followed by the attributes starting with the AJAX URL |
| Assets.InsertedStart | core/assets.php:98-100 | the inserted text opens with `<script ` and the AJAX URL attribute |
| Assets.CooldownKeyInjective | core/assets.php:113-120 | two different posts or addresses never share a recommend cooldown |
| Assets.CooldownKeyRest | core/assets.php:113 | after `recommend_` the cooldown key holds the post's digits, `_` and the address |
| Assets.Cooldowns.constructor | core/assets.php:113-120 | the cooldowns start as given |
| Assets.TrackPostViews | core/assets.php:124-134 | a missing, zero or unpublished post is an error and nothing is written; otherwise the stored view count goes up by one and is returned |
| Assets.Recommend | core/assets.php:106-122 | a missing or unknown post, or a second recommend inside the hour from the same address, is an error with no write; otherwise the count goes up by one and a one-hour cooldown starts |
| Assets.RecommendAgain | core/assets.php:106-122 | after a counted recommend, a second one from the same address is refused exactly when it comes within the hour, and counts one more otherwise |

## Left out

- Regular-expression engines are not modelled where the patterns rely on PCRE features such as lazy quantifiers and back-references. Shortcode isolation takes the matcher's cut of the text into plain text and matches as an input. `parse_inline_markdown`, `parse_inline_formats`, the image pass and the text-element pass of the content parser are parameters.
- Nested shortcodes, such as a `[code]` inside an `[alert]`, do not round-trip in the source: the inner placeholder is restored before the outer text brings it back. The round-trip lemmas assume that no placeholder occurs in the restored text.
- `uniqid()` is an input sequence of distinct 13-character hex values. `time()`, `date()`, `mt_rand`, `array_rand`, the SHA-256 digest and the random cookie id are parameters.
- The DOM-based rewriters are not part of this model, because they depend on libxml's parsing:
  - `paper_wp_close_html_tags` is the parameter `closeTags`;
  - `paper_wp_remove_ai_summary`, `render_ai_summary` and `clean_alert_empty_paragraphs` are left out;
  - `process_image_containers` and `process_individual_images` are the parameter `domRewrite`;
  - `process_lightbox_only` is the parameter `lightboxOnly`;
  - `generate_image_srcset` is left out.
- WordPress functions are parameters with no assumed behaviour: `esc_*`, `sanitize_text_field`, `wp_kses_post`, `esc_url_raw`, `wp_strip_all_tags`, `strip_shortcodes`, `do_shortcode`, `get_permalink`, `attachment_url_to_postid`, `wp_create_nonce` and `admin_url`. `strlen` on bytes and `number_format` are parameters too.
- Floating-point arithmetic is left out: the book's star rating, `number_format` with decimals, the cache hit rate of `get_stats`, and the "万字" totals.
- Nonce checks, autosave tests and capability checks are one `allowed` flag or are left out. This covers `check_ajax_referer` and `paper_wp_handle_admin_login`.
- Cookies are a per-visitor set with no expiry. Transients keep their lifetime but never expire on their own; a transient holding PHP `false` is not distinguished from a missing one.
- Cache `flush_group` and `clear_cache`, which match with SQL `LIKE`, are left out, and so are `$wpdb` queries other than the cleanup batches. The online table is a map from visitor hash to row.
- `modify_main_query` is not modelled. The walker's `start_el` is modelled up to the comment's opening tag; the comment body and metadata markup are left out.
- The `music` shortcode dispatch and the music players are inputs of `PlaylistGroups.RenderGroup`. The static `$rendered_playlists` set is a field of one `PlaylistGroups` object per request.
- `pathinfo` is modelled for plain `/`-separated names only; backslashes and trailing slashes are not.
- The uploads directory cache of `generate_small_image_url` is left out; the uploads base URL is a parameter.
- The self-pingback filter keeps the remaining links under their keys. The array's internal order is not modelled.
- For the archive page, the heatmap's date period and the per-day post counts are inputs, and the SVG markup of cells and labels is a renderer parameter of `Archive.HeatmapLoop`. The statistics transient, the total word count and the archive-list transient are left out.
- In the user-agent classifier, the `Windows NT 6.4` test at features/user-agent.php:67 can never fire after the earlier tests and is modelled as written.
- In the browser scripts, these are inputs: `parseInt` of `data-start` and `data-interval`, the clock and `matchMedia`. `setInterval`, the event wiring, `initToggleButton` and the media-query listener are modelled as the methods each event calls.
- For the album:
  - item styles other than opacity, visibility and `z-index` are left out, and so are the transform reset, focus (a flag), and nav and indicator hover;
  - the early return when the page has no album is left out;
  - the first item's active class set at js/sidebar-album.js:14 is subsumed by the `setActive(0)` of the set-up.
- Assets.TrackPostViews: reads the stored view count through `intval` and adds 1. This agrees with the source on the integer strings these handlers write. The source adds 1 to the raw stored value, since `?: 0` only turns an empty value or `"0"` into 0: a count of `5.5` gives 6.5, a leading-numeric one such as `5x` gives 6 with a warning, and a non-numeric one is a TypeError in PHP 8.
- Assets.Recommend: reads the stored count through `intval` and adds 1, as for Assets.TrackPostViews. The source's `$count++` on the raw stored string turns `5.5` into 6.5 and steps a non-numeric string alphanumerically (`abc` becomes `abd`).
- The recommend count of features/post-enhancements.php:277 is read with `(int)`, which `Util.IntVal` follows.
- ExcerptImages.ProcessExcerptImages: what `clean` removes (code-block containers without `<pre`, `markdown-hr` rules) is not stated, in mode `all` or before the other modes, because the container pattern's backtracking through `[^"]*` is a parameter; the clean-up `tidy` after the image removal is a parameter too. The model does not state that mode `none` leaves no image: the source removes matches in one pass, and ExcerptImages.RemovalMayJoinTag shows an image tag that the removal itself forms.
- Util.IntVal: integers are unbounded, so numbers beyond PHP's 64-bit integers and exponents beyond a float's range are not cast as PHP casts them; a fraction is dropped exactly rather than through a float.
- Stats.StatsCache.TotalOnlineTime: an entry is served until its lifetime ends, as a persistent object cache does; WordPress's default cache ignores the lifetime and keeps entries for one request only. The same holds for Stats.StatsCache.AdminOnlineStatus.
- ContentParser.Parser.Parse: blockquotes of several paragraphs are rendered with the corrected wrapping of ContentBlocks.QuoteContent, not with the unbalanced join at features/content-parser.php:495-499 (see Findings); ContentBlocks.QuoteContentAsWritten models that join.
- ContentParser.Parser.ParseStructureElements: its blockquote pass uses the corrected wrapping, as for ContentParser.Parser.Parse.
- Excerpt.TruncateHtml: truncates with the corrected test, under which only empty text is free of the budget, not with PHP `empty`, which also lets a trimmed `"0"` through uncounted (see Findings); Excerpt.ZeroTextOverBudget models the source's test.
- Excerpt.TruncateParts: uses the corrected test, as for Excerpt.TruncateHtml.
- Excerpt.TakePart: uses the corrected test, as for Excerpt.TruncateHtml.
- Assets.ImproveScriptLoading: states that the `defer` form appears, not that every `<script ` occurrence is rewritten.
- Assets.AddScriptDataAttributes: states that the attributes follow a `<script `, not that every occurrence is rewritten.
- Assets.NoSecondDefer: assumes that the performance module's filter runs after this one, which is WordPress's order for the two hooks.
- Shortcodes.RenderVideo: states the `<source>` element the player contains, not the whole player markup.

## Findings

In both rows the as-written member models the source's own expression, and the rest of the model (the content pipeline and the excerpt builder) uses the corrected member; the lines under "## Left out" name the members affected.

| source | as written | input that shows it | evidently intended | confidence | as-written member | corrected member |
|---|---|---|---|---|---|---|
| features/content-parser.php:495-499 | several blockquote paragraphs are joined with `</p>\n<p>` and nothing wraps the whole, so the first paragraph has no `<p>` and the last no `</p>` | the quote lines `> a`, `>`, `> b` | each paragraph inside its own `<p>…</p>` | high, not executed | ContentBlocks.QuoteParagraphsUnbalanced | ContentBlocks.WrappedEach |
| features/excerpt.php:257-266 | a text part whose trimmed form is `"0"` passes PHP `empty()`, so it is copied without being counted against the budget | `<b>0 </b>xy` with limit 1 emits the text `0x`, two characters | only truly empty text is exempt, so the emitted text never exceeds the limit | high, not executed | Excerpt.ZeroTextOverBudget | Excerpt.EmitWithinBudget |
