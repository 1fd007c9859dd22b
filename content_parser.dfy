/**
 * The `Content_Parser_Unified` object of features/content-parser.php:
 * its two placeholder maps, the set of heading ids used during one parse,
 * and the passes of `parse` that work on that state. The recognisers of
 * the single lines live in ContentBlocks, the code-fence scan in
 * ContentFences and the shortcode passes in ContentShortcodes; this
 * module strings them together the way `parse` does.
 *
 * `uniqid()` is the function `uniq`, read at the number of values drawn
 * so far (`issued`). The WordPress and regular-expression helpers the
 * parser calls are constant functions of the object.
 */
module ContentParser {
  import opened Util
  import opened Placeholders
  import opened LineRuns
  import opened ContentBlocks
  import CF = ContentFences
  import CS = ContentShortcodes
  import CP = ContentParagraphs

  // ---------------------------------------------------------------------
  // generate_heading_id

  /**
   * The number of collisions `generate_heading_id` goes through: the first
   * `k` from `from` whose candidate is free. `|used| + 1` candidates are
   * pairwise distinct, so one of the first `|used| + 1` is free.
   */
  function LeastFree(base: string, used: set<string>, from: nat): (k: nat)
    requires from <= |used|
    ensures from <= k <= |used|
    ensures Candidate(base, k) !in used || k == |used|
    decreases |used| - from
  {
    if Candidate(base, from) !in used || from == |used| then from else LeastFree(base, used, from + 1)
  }

  /** The id `generate_heading_id` hands out for a sanitized title `base`. */
  function HeadingId(base: string, used: set<string>): string {
    Candidate(base, LeastFree(base, used, 0))
  }

  lemma {:induction false} LeastFreeSkips(base: string, used: set<string>, from: nat)
    requires from <= |used|
    ensures forall j :: from <= j < LeastFree(base, used, from) ==> Candidate(base, j) in used
    decreases |used| - from
  {
    if Candidate(base, from) in used && from < |used| {
      LeastFreeSkips(base, used, from + 1);
    }
  }

  /** The first `n` candidates. */
  function Candidates(base: string, n: nat): set<string> {
    if n == 0 then {} else Candidates(base, n - 1) + {Candidate(base, n - 1)}
  }

  lemma {:induction false} CandidatesCount(base: string, n: nat)
    ensures |Candidates(base, n)| == n
    ensures forall j :: j >= n ==> Candidate(base, j) !in Candidates(base, n)
  {
    if n > 0 {
      CandidatesCount(base, n - 1);
      forall j | j >= n ensures Candidate(base, j) !in Candidates(base, n) {
        if Candidate(base, j) == Candidate(base, n - 1) {
          CandidateInjective(base, j, n - 1);
        }
      }
    }
  }

  lemma {:induction false} CandidatesWithin(base: string, n: nat, used: set<string>)
    requires forall j :: 0 <= j < n ==> Candidate(base, j) in used
    ensures Candidates(base, n) <= used
  {
    if n > 0 {
      CandidatesWithin(base, n - 1, used);
    }
  }

  lemma {:induction false} SubsetCount(a: set<string>, b: set<string>)
    requires a <= b
    ensures |a| <= |b|
  {
    if a != {} {
      var x :| x in a;
      SubsetCount(a - {x}, b - {x});
    }
  }

  /** `generate_heading_id` never hands out an id already used in the parse. */
  lemma HeadingIdFresh(base: string, used: set<string>)
    ensures HeadingId(base, used) !in used
  {
    var k := LeastFree(base, used, 0);
    if Candidate(base, k) in used {
      LeastFreeSkips(base, used, 0);
      CandidatesWithin(base, k + 1, used);
      CandidatesCount(base, k + 1);
      SubsetCount(Candidates(base, k + 1), used);
      assert false;
    }
  }

  /**
   * The suffixes are tried in order: the id is the title itself when it is
   * free, and otherwise `title-k` with every earlier candidate taken.
   */
  lemma HeadingIdFirstFree(base: string, used: set<string>)
    ensures base !in used ==> HeadingId(base, used) == base
    ensures exists k: nat :: HeadingId(base, used) == Candidate(base, k) &&
                        forall j :: 0 <= j < k ==> Candidate(base, j) in used
  {
    LeastFreeSkips(base, used, 0);
    var k := LeastFree(base, used, 0);
    assert HeadingId(base, used) == Candidate(base, k);
  }

  // ---------------------------------------------------------------------
  // What one parse computes

  /** The text `parse` returns and the state it leaves behind. */
  datatype Outcome = Outcome(text: string, code: seq<Entry>, short: seq<Entry>, used: set<string>, issued: nat)

  /** The number of heading lines. */
  function HeadingCount(lines: seq<string>): (n: nat)
    ensures n <= |lines|
  {
    if lines == [] then 0
    else HeadingCount(lines[..|lines| - 1]) + (if Heading(lines[|lines| - 1]).Some? then 1 else 0)
  }

  /** One more row of `generate_table_html`'s body loop: the separator row adds nothing. */
  lemma BodyRowsStep(rows: seq<seq<string>>, i: nat, header: bool)
    requires i < |rows| && (header ==> i >= 1)
    ensures header && i == 1 ==> BodyRows(rows[..i + 1], header) == []
    ensures !(header && i == 1) ==> BodyRows(rows[..i + 1], header) == BodyRows(rows[..i], header) + [rows[i]]
  {
    if header && i >= 2 {
      assert rows[..i + 1][2..] == rows[..i][2..] + [rows[i]];
    } else if !header {
      assert rows[..i + 1] == rows[..i] + [rows[i]];
    }
  }

  lemma RowsMarkupSnoc(b: seq<seq<string>>, row: seq<string>, inline: string -> string)
    ensures RowsMarkup(b + [row], inline) == RowsMarkup(b, inline) + RowMarkup(row, inline)
  {
    assert (b + [row])[..|b|] == b;
  }

  /** Shortcode isolation from an empty map yields well-formed keys and distinct markers. */
  lemma ShortStageFacts(content: string, issued0: nat, matches: (CS.Pattern, string) -> seq<CS.Chunk>, uniq: nat -> string)
    requires Injective(uniq) && IdValues(uniq) && CS.Segments(matches)
    ensures var st := CS.IsolateShortcodes(content, [], issued0, matches, uniq);
      KeysIn(st.ps, |st.entries|) && DistinctMarkers(st.entries) && issued0 <= st.issued
  {
    CS.IsolateShortcodesKeeps(content, [], issued0, matches, uniq);
    CS.PassesFresh(CS.Iso([Lit(content)], [], issued0), CS.PassCount, matches, uniq);
  }

  /** Code-block isolation from an empty map yields well-formed keys and distinct markers. */
  lemma CodeStageFacts(text: string, issued0: nat, env: CF.Env)
    requires Injective(env.uniq) && IdValues(env.uniq)
    ensures var st := CF.IsolateCode(text, [], issued0, env);
      CF.ItemsIn(st.out, |st.entries|) && DistinctMarkers(st.entries) && issued0 <= st.issued
  {
    CF.IsolateCodeKeys(text, [], issued0, env);
    CF.IsolateCodeFresh(text, [], issued0, env);
  }

  class Parser {
    /** `$this->placeholders`: the code-block map. */
    var placeholders: seq<Entry>
    /** `$this->shortcode_placeholders`. */
    var shortcodePlaceholders: seq<Entry>
    /** `self::$used_heading_ids`. */
    var usedHeadingIds: set<string>
    /** The number of `uniqid()` values drawn so far. */
    var issued: nat

    const uniq: nat -> string
    /** How the shortcode patterns cut a text into matches. */
    const matches: (CS.Pattern, string) -> seq<CS.Chunk>
    /** `generate_code_block_html` (language, body, element id) and `esc_html`. */
    const codeHtml: (string, string, string) -> string
    const escHtml: string -> string
    /** `parse_inline_markdown`, `strip_tags`, `sanitize_title`. */
    const inline: string -> string
    const stripTags: string -> string
    const sanitizeTitle: string -> string
    /** `parse_markdown_images`, `parse_inline_formats`, `parse_text_elements`. */
    const images: string -> string
    const formats: string -> string
    const textElements: string -> string

    /** Distinct `uniqid` values, a matcher that only cuts, and well-formed, distinct markers. */
    ghost predicate Valid()
      reads this
    {
      Injective(uniq) && IdValues(uniq) && CS.Segments(matches) &&
      DistinctMarkers(placeholders) && DistinctMarkers(shortcodePlaceholders)
    }

    constructor(uniq: nat -> string, matches: (CS.Pattern, string) -> seq<CS.Chunk>,
                codeHtml: (string, string, string) -> string, escHtml: string -> string,
                inline: string -> string, stripTags: string -> string, sanitizeTitle: string -> string,
                images: string -> string, formats: string -> string, textElements: string -> string)
      requires Injective(uniq) && IdValues(uniq) && CS.Segments(matches)
      ensures Valid()
      ensures placeholders == [] && shortcodePlaceholders == [] && usedHeadingIds == {} && issued == 0
      ensures this.uniq == uniq && this.matches == matches && this.codeHtml == codeHtml && this.escHtml == escHtml
      ensures this.inline == inline && this.stripTags == stripTags && this.sanitizeTitle == sanitizeTitle
      ensures this.images == images && this.formats == formats && this.textElements == textElements
    {
      this.uniq := uniq;
      this.matches := matches;
      this.codeHtml := codeHtml;
      this.escHtml := escHtml;
      this.inline := inline;
      this.stripTags := stripTags;
      this.sanitizeTitle := sanitizeTitle;
      this.images := images;
      this.formats := formats;
      this.textElements := textElements;
      placeholders := [];
      shortcodePlaceholders := [];
      usedHeadingIds := {};
      issued := 0;
    }

    function FenceEnv(): CF.Env {
      CF.Env(uniq, codeHtml, escHtml)
    }

    /** One line of `parse_headings_from_lines`, with the ids used so far. */
    function HeadingLine(line: string, used: set<string>): (string, set<string>) {
      match Heading(line)
      case None => (line, used)
      case Some(h) =>
        var text := Inline(inline, h.text);
        var id := HeadingId(sanitizeTitle(stripTags(text)), used);
        (HeadingHtml(h.level, id, text), used + {id})
    }

    /** `parse_headings_from_lines`: the lines and the ids used afterwards. */
    function Headings(lines: seq<string>, used: set<string>): (seq<string>, set<string>)
      decreases |lines|
    {
      if lines == [] then ([], used)
      else
        var (out, u) := Headings(lines[..|lines| - 1], used);
        var (l, u') := HeadingLine(lines[|lines| - 1], u);
        (out + [l], u')
    }

    /** `parse_structure_elements`: the six line passes, in order. */
    function Structure(content: string, used: set<string>): (string, set<string>) {
      var lines := TaskLists(Tables(Split(content, '\n'), inline), inline);
      var (headed, u) := Headings(lines, used);
      (Join(RuleLines(Blockquotes(Lists(headed, inline), inline)), "\n"), u)
    }

    /** `isolate_shortcodes` from empty maps: the pieces, the new map and the ids drawn. */
    function ShortStage(content: string, issued0: nat): (st: CS.Iso)
      requires Injective(uniq) && IdValues(uniq) && CS.Segments(matches)
      ensures KeysIn(st.ps, |st.entries|) && DistinctMarkers(st.entries) && issued0 <= st.issued
    {
      ShortStageFacts(content, issued0, matches, uniq);
      CS.IsolateShortcodes(content, [], issued0, matches, uniq)
    }

    /** `isolate_code_blocks` from an empty map. */
    function CodeStage(text: string, issued0: nat): (st: CF.Scan)
      requires Injective(uniq) && IdValues(uniq)
      ensures CF.ItemsIn(st.out, |st.entries|) && DistinctMarkers(st.entries) && issued0 <= st.issued
    {
      CodeStageFacts(text, issued0, FenceEnv());
      CF.IsolateCode(text, [], issued0, FenceEnv())
    }

    /** Every call of `parse` on a non-empty content, from `issued0` values drawn. */
    function Pipeline(content: string, issued0: nat): (o: Outcome)
      requires Injective(uniq) && IdValues(uniq) && CS.Segments(matches)
    {
      var st1 := ShortStage(content, issued0);
      var st2 := CodeStage(CS.IsolatedText(st1), st1.issued);
      var (t4, used) := Structure(images(CF.IsolatedText(st2)), {});
      var t6 := textElements(formats(t4));
      Outcome(RestoreAll(RestoreAll(t6, st2.entries), st1.entries), st2.entries, st1.entries, used, st2.issued)
    }

    /** `Pipeline` stage by stage. */
    lemma PipelineSteps(content: string, issued0: nat)
      requires Injective(uniq) && IdValues(uniq) && CS.Segments(matches)
      ensures var st1 := ShortStage(content, issued0);
        var st2 := CodeStage(CS.IsolatedText(st1), st1.issued);
        var s := Structure(images(CF.IsolatedText(st2)), {});
        Pipeline(content, issued0) ==
          Outcome(RestoreAll(RestoreAll(textElements(formats(s.0)), st2.entries), st1.entries),
                  st2.entries, st1.entries, s.1, st2.issued)
    {
    }

    // -------------------------------------------------------------------
    // The methods

    /**
     * `parse`: an empty content (`""` or `"0"`) comes back untouched and
     * nothing is reset; otherwise both maps and the used ids start afresh
     * and the passes run in order.
     */
    method Parse(content: string) returns (r: string)
      requires Valid()
      modifies this
      ensures Valid()
      ensures EmptyStr(content) ==> r == content && unchanged(this)
      ensures !EmptyStr(content) ==>
        Pipeline(content, old(issued)) == Outcome(r, placeholders, shortcodePlaceholders, usedHeadingIds, issued)
    {
      if EmptyStr(content) {
        return content;
      }
      placeholders := [];
      shortcodePlaceholders := [];
      usedHeadingIds := {};
      ghost var issued0 := issued;
      ghost var st1 := ShortStage(content, issued);
      var c := IsolateShortcodes(content);
      assert shortcodePlaceholders == st1.entries;
      ghost var st2 := CodeStage(c, issued);
      c := IsolateCodeBlocks(c);
      assert placeholders == st2.entries && c == CF.IsolatedText(st2);
      ghost var code, short := placeholders, shortcodePlaceholders;
      c := images(c);
      ghost var s := Structure(c, {});
      c := ParseStructureElements(c);
      assert c == s.0 && usedHeadingIds == s.1;
      c := formats(c);
      c := textElements(c);
      ghost var t6 := c;
      c := RestoreCodeBlocks(c);
      assert c == RestoreAll(t6, code);
      c := RestoreShortcodes(c);
      assert c == RestoreAll(RestoreAll(t6, code), short);
      r := c;
      assert Pipeline(content, issued0) == Outcome(r, placeholders, shortcodePlaceholders, usedHeadingIds, issued) by {
        PipelineSteps(content, issued0);
      }
    }

    /** `isolate_shortcodes`: the `[code]` pass, then both passes of each tag in list order. */
    method IsolateShortcodes(content: string) returns (r: string)
      requires CS.Segments(matches)
      modifies this`shortcodePlaceholders, this`issued
      ensures var st := CS.IsolateShortcodes(content, old(shortcodePlaceholders), old(issued), matches, uniq);
        KeysIn(st.ps, |st.entries|) && shortcodePlaceholders == st.entries && issued == st.issued &&
        r == CS.IsolatedText(st)
    {
      var st0 := CS.Iso([Lit(content)], shortcodePlaceholders, issued);
      var st := CS.RunPass(st0, CS.CodePair, matches, uniq);
      assert st == CS.Passes(st0, 1, matches, uniq);
      var t := 0;
      while t < |CS.Tags|
        invariant 0 <= t <= |CS.Tags|
        invariant st == CS.Passes(st0, 1 + 2 * t, matches, uniq)
      {
        var tag := CS.Tags[t];
        CS.PassesOfTag(st0, t, matches, uniq);
        st := CS.RunPass(st, CS.SelfClosing(tag), matches, uniq);
        st := CS.RunPass(st, CS.WithClosing(tag), matches, uniq);
        t := t + 1;
      }
      assert KeysIn(st.ps, |st.entries|) by {
        CS.IsolateShortcodesKeeps(content, old(shortcodePlaceholders), old(issued), matches, uniq);
      }
      shortcodePlaceholders := st.entries;
      issued := st.issued;
      r := CS.IsolatedText(st);
    }

    /**
     * `isolate_code_blocks`: the lines are scanned with the flags of the open
     * block; one left open at the end is stored as escaped `<pre>`.
     */
    method IsolateCodeBlocks(content: string) returns (r: string)
      modifies this`placeholders, this`issued
      ensures var st := CF.IsolateCode(content, old(placeholders), old(issued), FenceEnv());
        CF.ItemsIn(st.out, |st.entries|) && placeholders == st.entries && issued == st.issued &&
        r == CF.IsolatedText(st)
    {
      var lines := CF.FenceLines(content);
      var processed, inCodeBlock, body, lang, startMarker, entries, n := ScanFences(lines, placeholders, issued);
      if inCodeBlock {
        var html := CF.PlainBlock(escHtml(body));
        processed := processed + [CF.Code(|entries|)];
        entries := entries + [Entry(CF.CodeMarker(uniq(n)), html)];
        n := n + 1;
      }
      placeholders, issued := entries, n;
      assert CF.ItemsIn(processed, |placeholders|) by {
        CF.IsolateCodeKeys(content, old(placeholders), old(issued), FenceEnv());
      }
      r := Join(CF.ShowItems(processed, placeholders, 0), "\n");
    }

    /**
     * The `foreach` of `isolate_code_blocks` over the lines, from the map and
     * `uniqid` count it starts with.
     */
    method ScanFences(lines: seq<string>, entries0: seq<Entry>, n0: nat)
      returns (processed: seq<CF.Item>, inCodeBlock: bool, body: string, lang: string, startMarker: string,
               entries: seq<Entry>, n: nat)
      ensures CF.ScanLines(lines, CF.Scan([], None, "", entries0, n0), FenceEnv()) ==
        CF.Scan(processed, CF.OpenFence(inCodeBlock, startMarker, lang), body, entries, n)
    {
      ghost var st0 := CF.Scan([], None, "", entries0, n0);
      processed, inCodeBlock, body, lang, startMarker, entries, n := [], false, "", "", "", entries0, n0;
      var i := 0;
      while i < |lines|
        invariant 0 <= i <= |lines|
        invariant CF.ScanLines(lines[..i], st0, FenceEnv()) ==
          CF.Scan(processed, CF.OpenFence(inCodeBlock, startMarker, lang), body, entries, n)
      {
        CF.ScanLinesSnoc(lines, i, st0, FenceEnv());
        processed, inCodeBlock, body, lang, startMarker, entries, n :=
          ScanLine(lines[i], processed, inCodeBlock, body, lang, startMarker, entries, n);
        i := i + 1;
      }
      assert lines[..|lines|] == lines;
    }

    /**
     * One line of that `foreach`: an opening fence sets the flags, the
     * matching closing fence stores the block under a fresh placeholder,
     * the lines in between are collected and the others are kept.
     */
    method ScanLine(line: string, processed: seq<CF.Item>, inCodeBlock: bool, body: string, lang: string,
                    startMarker: string, entries: seq<Entry>, n: nat)
      returns (processed': seq<CF.Item>, inCodeBlock': bool, body': string, lang': string, startMarker': string,
               entries': seq<Entry>, n': nat)
      ensures CF.Step(CF.Scan(processed, CF.OpenFence(inCodeBlock, startMarker, lang), body, entries, n), line, FenceEnv()) ==
        CF.Scan(processed', CF.OpenFence(inCodeBlock', startMarker', lang'), body', entries', n')
    {
      ghost var st := CF.Scan(processed, CF.OpenFence(inCodeBlock, startMarker, lang), body, entries, n);
      processed', inCodeBlock', body', lang', startMarker', entries', n' :=
        processed, inCodeBlock, body, lang, startMarker, entries, n;
      var open := CF.FenceOpen(Trim(line));
      if !inCodeBlock && open.Some? {
        CF.StepOpens(st, line, FenceEnv());
        inCodeBlock' := true;
        lang' := open.value.lang;
        startMarker' := open.value.marker;
        body' := "";
      } else if inCodeBlock && Trim(line) == CF.EndMarker(startMarker) {
        CF.StepCloses(st, line, FenceEnv());
        var html := codeHtml(lang, body, CF.BlockId(uniq(n)));
        var placeholder := CF.CodeMarker(uniq(n + 1));
        processed' := processed + [CF.Code(|entries|)];
        entries' := entries + [Entry(placeholder, html)];
        n' := n + 2;
        inCodeBlock' := false;
      } else if inCodeBlock {
        CF.StepCollects(st, line, FenceEnv());
        body' := body + line + "\n";
      } else {
        CF.StepPasses(st, line, FenceEnv());
        processed' := processed + [CF.Line(line)];
      }
    }

    /** `str_replace` of every marker of a map by its text, in map order. */
    method ReplaceEach(content: string, entries: seq<Entry>) returns (r: string)
      ensures r == RestoreAll(content, entries)
    {
      r := content;
      var i := 0;
      while i < |entries|
        invariant 0 <= i <= |entries|
        invariant RestoreAll(r, entries[i..]) == RestoreAll(content, entries)
      {
        assert entries[i..][1..] == entries[i + 1..];
        r := ReplaceAll(r, entries[i].marker, entries[i].text);
        i := i + 1;
      }
    }

    /** `restore_code_blocks`. */
    method RestoreCodeBlocks(content: string) returns (r: string)
      ensures r == RestoreAll(content, placeholders)
    {
      r := ReplaceEach(content, placeholders);
    }

    /** `restore_shortcodes`. */
    method RestoreShortcodes(content: string) returns (r: string)
      ensures r == RestoreAll(content, shortcodePlaceholders)
    {
      r := ReplaceEach(content, shortcodePlaceholders);
    }

    /**
     * `generate_heading_id`: the sanitized title, or the first of `-1`,
     * `-2`, ... appended to it that is not taken yet; the id is then taken.
     */
    method GenerateHeadingId(text: string) returns (id: string)
      modifies this`usedHeadingIds
      ensures id == HeadingId(sanitizeTitle(text), old(usedHeadingIds))
      ensures id !in old(usedHeadingIds)
      ensures usedHeadingIds == old(usedHeadingIds) + {id}
    {
      var base := sanitizeTitle(text);
      id := base;
      var counter := 1;
      while id in usedHeadingIds
        invariant usedHeadingIds == old(usedHeadingIds)
        invariant 1 <= counter <= |usedHeadingIds| + 1
        invariant id == Candidate(base, counter - 1)
        invariant LeastFree(base, usedHeadingIds, counter - 1) == LeastFree(base, usedHeadingIds, 0)
        decreases |usedHeadingIds| + 1 - counter
      {
        HeadingIdFresh(base, usedHeadingIds);
        assert counter - 1 < |usedHeadingIds|;
        assert LeastFree(base, usedHeadingIds, counter - 1) == LeastFree(base, usedHeadingIds, counter);
        id := base + "-" + NatToString(counter);
        counter := counter + 1;
      }
      HeadingIdFresh(base, usedHeadingIds);
      usedHeadingIds := usedHeadingIds + {id};
    }

    /** `parse_headings_from_lines`. */
    method ParseHeadings(lines: seq<string>) returns (out: seq<string>)
      modifies this`usedHeadingIds
      ensures (out, usedHeadingIds) == Headings(lines, old(usedHeadingIds))
    {
      out := [];
      var i := 0;
      while i < |lines|
        invariant 0 <= i <= |lines|
        invariant (out, usedHeadingIds) == Headings(lines[..i], old(usedHeadingIds))
      {
        var line := lines[i];
        assert lines[..i + 1][..i] == lines[..i];
        match Heading(line) {
          case None =>
            out := out + [line];
          case Some(h) =>
            var text := Inline(inline, h.text);
            var id := GenerateHeadingId(stripTags(text));
            out := out + [HeadingHtml(h.level, id, text)];
        }
        i := i + 1;
      }
      assert lines[..|lines|] == lines;
    }

    /** `parse_horizontal_rules_from_lines`. */
    method ParseRules(lines: seq<string>) returns (out: seq<string>)
      ensures out == RuleLines(lines)
    {
      out := [];
      var i := 0;
      while i < |lines|
        invariant 0 <= i <= |lines|
        invariant out == RuleLines(lines[..i])
      {
        assert lines[..i + 1][..i] == lines[..i];
        out := out + [RuleLine(lines[i])];
        i := i + 1;
      }
      assert lines[..|lines|] == lines;
    }

    /** `parse_structure_elements`. */
    method ParseStructureElements(content: string) returns (r: string)
      modifies this`usedHeadingIds
      ensures (r, usedHeadingIds) == Structure(content, old(usedHeadingIds))
    {
      var lines := Split(content, '\n');
      lines := GroupLines(lines, TableKind, TableRender(inline));
      lines := GroupLines(lines, TaskKind, TaskRender(inline));
      lines := ParseHeadings(lines);
      lines := GroupLines(lines, ListKind, ListRender(inline));
      lines := GroupLines(lines, QuoteKind, QuoteRender(inline));
      lines := ParseRules(lines);
      r := Join(lines, "\n");
    }

    /** The cells of a row: `open`, the inline-formatted cell and `close`, for each cell. */
    method CellsHtml(cells: seq<string>, open: string, close: string) returns (html: string)
      ensures html == CellsMarkup(cells, open, close, inline)
    {
      html := "";
      var j := 0;
      while j < |cells|
        invariant 0 <= j <= |cells|
        invariant html == CellsMarkup(cells[..j], open, close, inline)
      {
        assert cells[..j + 1][..j] == cells[..j];
        html := html + open + Inline(inline, cells[j]) + close;
        j := j + 1;
      }
      assert cells[..|cells|] == cells;
    }

    /** `generate_table_html`: the header row, then the body rows without the separator row. */
    method GenerateTableHtml(rows: seq<seq<string>>, hasHeader: bool) returns (html: string)
      ensures html == TableMarkup(rows, hasHeader, inline)
    {
      if rows == [] {
        return "";
      }
      html := "<table class=\"markdown-table\">";
      if hasHeader {
        var head := CellsHtml(rows[0], "<th class=\"markdown-table-header\">", "</th>");
        html := html + ("<thead><tr>" + head + "</tr></thead>");
      }
      var body := TableBodyHtml(rows, hasHeader);
      html := html + "<tbody>" + body + "</tbody></table>";
    }

    /** The `for` loop of `generate_table_html` over the body rows, skipping the separator row. */
    method TableBodyHtml(rows: seq<seq<string>>, hasHeader: bool) returns (html: string)
      ensures html == RowsMarkup(BodyRows(rows, hasHeader), inline)
    {
      html := "";
      var start := if hasHeader then 1 else 0;
      if rows == [] {
        return;
      }
      assert BodyRows(rows[..start], hasHeader) == [];
      var i := start;
      while i < |rows|
        invariant start <= i <= |rows|
        invariant html == RowsMarkup(BodyRows(rows[..i], hasHeader), inline)
      {
        if !(hasHeader && i == 1) {
          var cells := CellsHtml(rows[i], "<td class=\"markdown-table-cell\">", "</td>");
          BodyRowsStep(rows, i, hasHeader);
          RowsMarkupSnoc(BodyRows(rows[..i], hasHeader), rows[i], inline);
          html := html + ("<tr>" + cells + "</tr>");
        } else {
          BodyRowsStep(rows, i, hasHeader);
        }
        i := i + 1;
      }
      assert rows[..|rows|] == rows;
    }

    /** `process_line_breaks`: the loop over the lines, keeping the non-empty right-trimmed ones. */
    method ProcessLineBreaks(text: string) returns (r: string)
      ensures r == LineBreaks(text)
      ensures '\n' !in r
    {
      var lines := Split(text, '\n');
      var processed: seq<string> := [];
      var index := 0;
      while index < |lines|
        invariant 0 <= index <= |lines|
        invariant processed == KeptLines(lines[..index])
      {
        assert lines[..index + 1][..index] == lines[..index];
        var line := TrimRight(lines[index]);
        if EmptyStr(line) && index > 0 && index < |lines| - 1 {
          // an empty line in the middle is dropped
        } else if !EmptyStr(line) {
          processed := processed + [line];
        }
        index := index + 1;
      }
      assert lines[..|lines|] == lines;
      r := Join(processed, "<br>");
      LineBreaksNoLineFeed(text);
    }

    /** `process_text_block_paragraphs`: the kept paragraphs, each through `process_line_breaks`. */
    method ProcessTextBlockParagraphs(textBlock: string) returns (r: string)
      ensures r == CP.TextBlockParagraphs(textBlock)
    {
      var block := TrimLeft(CP.EndCut(textBlock));
      if EmptyStr(block) {
        return "";
      }
      var marked := Join(CP.Pieces(block), CP.ParagraphBreak);
      var paragraphs := Explode(marked, CP.ParagraphBreak);
      var processed: seq<string> := [];
      var i := 0;
      while i < |paragraphs|
        invariant 0 <= i <= |paragraphs|
        invariant processed == CP.KeptParagraphs(paragraphs[..i])
      {
        assert paragraphs[..i + 1][..i] == paragraphs[..i];
        var paragraph := Trim(paragraphs[i]);
        if !EmptyStr(paragraph) {
          var lines := ProcessLineBreaks(paragraph);
          processed := processed + [CP.ParagraphOpen + lines + "</p>"];
        }
        i := i + 1;
      }
      assert paragraphs[..|paragraphs|] == paragraphs;
      r := Join(processed, "\n");
    }
  }
}
