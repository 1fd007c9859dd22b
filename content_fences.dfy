/**
 * Fenced code blocks in `Content_Parser_Unified::isolate_code_blocks`
 * (features/content-parser.php). Carriage returns are dropped and the
 * content is cut into lines. Outside a block, a line whose trimmed text
 * opens a fence starts a block; inside one, the line whose trimmed text
 * is the closing mark ends it, and the whole block becomes one
 * placeholder line whose HTML is recorded in the placeholder map. A
 * block still open at the end becomes a bare `<pre><code>` block.
 * `restore_code_blocks` later puts the HTML back.
 *
 * The line scan is specified as a fold (`ScanLines`); the loop of the
 * parser class is proved equal to it.
 */
module ContentFences {
  import opened Util
  import opened Placeholders
  import opened ContentBlocks

  /** An open fence: the mark that must close it and the language word. */
  datatype Fence = Fence(marker: string, lang: string)

  /** `\w*` */
  predicate AllWord(s: string) {
    forall i :: 0 <= i < |s| ==> WordChar(s[i])
  }

  /** The rest of an opening line, `\s*(\w*)$`: blanks, then only word characters. */
  function FenceLang(rest: string): (r: Option<string>)
    ensures r.Some? <==> AllWord(rest[LeadingSpaces(rest)..])
    ensures r.Some? ==> r.value == rest[LeadingSpaces(rest)..]
  {
    var w := rest[LeadingSpaces(rest)..];
    if AllWord(w) then Some(w) else None
  }

  /** The two opening patterns, tried in order on the trimmed line. */
  function FenceOpen(t: string): (r: Option<Fence>)
  {
    if StartsWith(t, "```") && FenceLang(t[3..]).Some? then Some(Fence("```", FenceLang(t[3..]).value))
    else if StartsWith(t, "\" `") && FenceLang(t[3..]).Some? then Some(Fence("\"`", FenceLang(t[3..]).value))
    else None
  }

  /** What an opening line looks like: one of the two marks, then a word. */
  lemma FenceOpenShape(t: string)
    ensures var r := FenceOpen(t);
      (r.Some? ==>
        (r.value.marker == "```" && StartsWith(t, "```")) || (r.value.marker == "\"`" && StartsWith(t, "\" `"))) &&
      (r.Some? ==> AllWord(r.value.lang)) &&
      (StartsWith(t, "```") && FenceLang(t[3..]).Some? ==> r == Some(Fence("```", FenceLang(t[3..]).value)))
  {
  }

  /** `get_code_block_end_marker`: only `「` closes with a different mark. */
  function EndMarker(start: string): string {
    if start == "「" then "」" else start
  }

  /** Every fence that can open closes with its own opening mark: the `「` entry is never used. */
  lemma FenceClosesWithItsMark(t: string)
    requires FenceOpen(t).Some?
    ensures EndMarker(FenceOpen(t).value.marker) == FenceOpen(t).value.marker
    ensures EndMarker(FenceOpen(t).value.marker) in {"```", "\"`"}
  {
    FenceOpenShape(t);
  }

  /** A line of the output, or the placeholder line of the code block stored under `key`. */
  /** The open fence as the flags of `isolate_code_blocks` record it. */
  function OpenFence(open: bool, marker: string, lang: string): (r: Option<Fence>)
    ensures r.Some? <==> open
  {
    if open then Some(Fence(marker, lang)) else None
  }

  datatype Item = Line(s: string) | Code(key: nat)

  /**
   * The scan state: output so far, the open fence if any, the block body
   * collected so far, the placeholder map, and how many `uniqid` values
   * have been drawn.
   */
  datatype Scan = Scan(out: seq<Item>, fence: Option<Fence>, body: string, entries: seq<Entry>, issued: nat)

  /**
   * What the scan cannot see: the `uniqid` values in the order they are
   * drawn, `generate_code_block_html` (language, body, element id) and `esc_html`.
   */
  datatype Env = Env(uniq: nat -> string, codeHtml: (string, string, string) -> string, escHtml: string -> string)

  const CodeHead := "<!--CODEBLOCK_"

  function CodeMarker(id: string): string {
    Wrap(CodeHead, id)
  }

  /** The element id handed to `generate_code_block_html`. */
  function BlockId(id: string): string {
    "code-block-" + id
  }

  /** The HTML of a block left open at the end, from its escaped body. */
  function PlainBlock(escaped: string): string {
    "<pre><code>" + escaped + "</code></pre>"
  }

  /** The block closed by the current line, with its HTML stored under a fresh placeholder. */
  function Close(st: Scan, f: Fence, env: Env): Scan {
    var html := env.codeHtml(f.lang, st.body, BlockId(env.uniq(st.issued)));
    Scan(st.out + [Code(|st.entries|)], None, st.body,
         st.entries + [Entry(CodeMarker(env.uniq(st.issued + 1)), html)], st.issued + 2)
  }

  /** One iteration of the `foreach` over the lines. */
  function Step(st: Scan, line: string, env: Env): Scan {
    match st.fence
    case None =>
      (match FenceOpen(Trim(line))
       case Some(f) => st.(fence := Some(f), body := "")
       case None => st.(out := st.out + [Line(line)]))
    case Some(f) =>
      if Trim(line) == EndMarker(f.marker) then Close(st, f, env)
      else st.(body := st.body + line + "\n")
  }

  /** The four branches of `Step`, one lemma each. */
  lemma StepOpens(st: Scan, line: string, env: Env)
    requires st.fence.None? && FenceOpen(Trim(line)).Some?
    ensures Step(st, line, env) == st.(fence := FenceOpen(Trim(line)), body := "")
  {
  }

  lemma StepCloses(st: Scan, line: string, env: Env)
    requires st.fence.Some? && Trim(line) == EndMarker(st.fence.value.marker)
    ensures Step(st, line, env) == Close(st, st.fence.value, env)
    ensures Step(st, line, env) ==
      Scan(st.out + [Code(|st.entries|)], None, st.body,
           st.entries + [Entry(CodeMarker(env.uniq(st.issued + 1)),
                               env.codeHtml(st.fence.value.lang, st.body, BlockId(env.uniq(st.issued))))],
           st.issued + 2)
  {
  }

  lemma StepCollects(st: Scan, line: string, env: Env)
    requires st.fence.Some? && Trim(line) != EndMarker(st.fence.value.marker)
    ensures Step(st, line, env) == st.(body := st.body + line + "\n")
  {
  }

  lemma StepPasses(st: Scan, line: string, env: Env)
    requires st.fence.None? && FenceOpen(Trim(line)).None?
    ensures Step(st, line, env) == st.(out := st.out + [Line(line)])
  {
  }

  /** The state after the lines, one `Step` each, from the front. */
  function ScanLines(lines: seq<string>, st0: Scan, env: Env): Scan
    decreases |lines|
  {
    if lines == [] then st0
    else Step(ScanLines(lines[..|lines| - 1], st0, env), lines[|lines| - 1], env)
  }

  /** One more line is one more `Step`. */
  lemma ScanLinesSnoc(lines: seq<string>, i: nat, st0: Scan, env: Env)
    requires i < |lines|
    ensures ScanLines(lines[..i + 1], st0, env) == Step(ScanLines(lines[..i], st0, env), lines[i], env)
  {
    assert lines[..i + 1][..i] == lines[..i];
  }

  /** A block left open at the end becomes `<pre><code>` with its escaped body. */
  function Finish(st: Scan, env: Env): Scan {
    if st.fence.Some? then
      Scan(st.out + [Code(|st.entries|)], None, st.body,
           st.entries + [Entry(CodeMarker(env.uniq(st.issued)), PlainBlock(env.escHtml(st.body)))],
           st.issued + 1)
    else st
  }

  /** `explode("\n", str_replace("\r", "", $content))` */
  function FenceLines(content: string): seq<string> {
    Split(ReplaceAll(content, "\r", ""), '\n')
  }

  /** The whole of `isolate_code_blocks`, from the map and `uniqid` count it starts with. */
  function IsolateCode(content: string, entries: seq<Entry>, issued: nat, env: Env): Scan {
    Finish(ScanLines(FenceLines(content), Scan([], None, "", entries, issued), env), env)
  }

  predicate ItemsIn(items: seq<Item>, n: nat) {
    forall i :: 0 <= i < |items| ==> (items[i].Code? ==> items[i].key < n)
  }

  /** How the items read while the entries before `m` have been put back. */
  function ShowItems(items: seq<Item>, entries: seq<Entry>, m: nat): (r: seq<string>)
    requires ItemsIn(items, |entries|)
    ensures |r| == |items|
    decreases |items|
  {
    if items == [] then []
    else
      var head := match items[0] case Line(s) => s case Code(k) => Show(Hole(k), entries, m);
      [head] + ShowItems(items[1..], entries, m)
  }

  /** The isolated text: `implode("\n", $processed_lines)`. */
  function IsolatedText(st: Scan): string
    requires ItemsIn(st.out, |st.entries|)
  {
    Join(ShowItems(st.out, st.entries, 0), "\n")
  }

  /** The text once every block's HTML is back in place. */
  function RestoredText(st: Scan): string
    requires ItemsIn(st.out, |st.entries|)
  {
    Join(ShowItems(st.out, st.entries, |st.entries|), "\n")
  }

  // ---------------------------------------------------------------------
  // Placeholder keys

  /** The keys of the placeholder lines, in output order. */
  function CodeKeys(items: seq<Item>): seq<nat>
    decreases |items|
  {
    if items == [] then []
    else CodeKeys(items[..|items| - 1]) + (if items[|items| - 1].Code? then [items[|items| - 1].key] else [])
  }

  /** `lo, lo+1, ..., hi-1` */
  function Range(lo: nat, hi: nat): (r: seq<nat>)
    requires lo <= hi
    ensures |r| == hi - lo
    decreases hi - lo
  {
    if lo == hi then [] else Range(lo, hi - 1) + [hi - 1]
  }

  /**
   * What a scan keeps: the map only grows, the new entries are exactly
   * the keys of the new placeholder lines in order, and every
   * placeholder line refers to an entry.
   */
  predicate Extends(st0: Scan, st: Scan) {
    |st0.entries| <= |st.entries| && st.entries[..|st0.entries|] == st0.entries &&
    ItemsIn(st.out, |st.entries|) &&
    CodeKeys(st.out) == CodeKeys(st0.out) + Range(|st0.entries|, |st.entries|) &&
    st0.issued <= st.issued
  }

  lemma CodeKeysAppend(items: seq<Item>, x: Item)
    ensures CodeKeys(items + [x]) == CodeKeys(items) + (if x.Code? then [x.key] else [])
  {
    assert (items + [x])[..|items|] == items;
  }

  lemma StepExtends(st0: Scan, st: Scan, line: string, env: Env)
    requires ItemsIn(st0.out, |st0.entries|) && Extends(st0, st)
    ensures Extends(st0, Step(st, line, env))
  {
    var st' := Step(st, line, env);
    match st.fence
    case None =>
      if FenceOpen(Trim(line)).None? {
        CodeKeysAppend(st.out, Line(line));
      }
    case Some(f) =>
      if Trim(line) == EndMarker(f.marker) {
        CodeKeysAppend(st.out, Code(|st.entries|));
        assert st'.entries[..|st0.entries|] == st.entries[..|st0.entries|];
        assert Range(|st0.entries|, |st'.entries|) == Range(|st0.entries|, |st.entries|) + [|st.entries|];
      }
  }

  lemma {:induction false} ScanExtends(lines: seq<string>, st0: Scan, env: Env)
    requires ItemsIn(st0.out, |st0.entries|)
    ensures Extends(st0, ScanLines(lines, st0, env))
    decreases |lines|
  {
    if lines == [] {
      assert st0.entries[..|st0.entries|] == st0.entries;
      assert CodeKeys(st0.out) + Range(|st0.entries|, |st0.entries|) == CodeKeys(st0.out);
    } else {
      ScanExtends(lines[..|lines| - 1], st0, env);
      StepExtends(st0, ScanLines(lines[..|lines| - 1], st0, env), lines[|lines| - 1], env);
    }
  }

  lemma FinishExtends(st0: Scan, st: Scan, env: Env)
    requires ItemsIn(st0.out, |st0.entries|) && Extends(st0, st)
    ensures Extends(st0, Finish(st, env))
  {
    if st.fence.Some? {
      var st' := Finish(st, env);
      CodeKeysAppend(st.out, Code(|st.entries|));
      assert st'.entries[..|st0.entries|] == st.entries[..|st0.entries|];
      assert Range(|st0.entries|, |st'.entries|) == Range(|st0.entries|, |st.entries|) + [|st.entries|];
    }
  }

  /**
   * Each fenced block, closed or not, becomes exactly one placeholder
   * line, and the placeholder lines refer, in order, to exactly the
   * entries the isolation adds to the map; the earlier entries stay.
   */
  lemma IsolateCodeKeys(content: string, entries: seq<Entry>, issued: nat, env: Env)
    ensures var st := IsolateCode(content, entries, issued, env);
      |entries| <= |st.entries| && st.entries[..|entries|] == entries &&
      ItemsIn(st.out, |st.entries|) &&
      CodeKeys(st.out) == Range(|entries|, |st.entries|) &&
      issued <= st.issued && st.fence.None?
  {
    var st0 := Scan([], None, "", entries, issued);
    ScanExtends(FenceLines(content), st0, env);
    FinishExtends(st0, ScanLines(FenceLines(content), st0, env), env);
  }

  // ---------------------------------------------------------------------
  // Lines outside the fences

  /** The texts of the ordinary lines, in output order. */
  function LineTexts(items: seq<Item>): seq<string>
    decreases |items|
  {
    if items == [] then []
    else LineTexts(items[..|items| - 1]) + (if items[|items| - 1].Line? then [items[|items| - 1].s] else [])
  }

  /** `a` is `b` with some elements left out, the rest in their order. */
  predicate Subsequence(a: seq<string>, b: seq<string>)
    decreases |b|
  {
    a == [] ||
    (b != [] &&
     ((a[|a| - 1] == b[|b| - 1] && Subsequence(a[..|a| - 1], b[..|b| - 1])) || Subsequence(a, b[..|b| - 1])))
  }

  lemma LineTextsAppend(items: seq<Item>, x: Item)
    ensures LineTexts(items + [x]) == LineTexts(items) + (if x.Line? then [x.s] else [])
  {
    assert (items + [x])[..|items|] == items;
  }

  /** The ordinary lines of the output are input lines, kept in their order. */
  lemma {:induction false} OutsideLinesInOrder(lines: seq<string>, entries: seq<Entry>, issued: nat, env: Env)
    ensures Subsequence(LineTexts(ScanLines(lines, Scan([], None, "", entries, issued), env).out), lines)
    decreases |lines|
  {
    var st0 := Scan([], None, "", entries, issued);
    if lines != [] {
      var init := lines[..|lines| - 1];
      var x := lines[|lines| - 1];
      var st := ScanLines(init, st0, env);
      OutsideLinesInOrder(init, entries, issued, env);
      var a := LineTexts(st.out);
      var st' := Step(st, x, env);
      if st.fence.None? && FenceOpen(Trim(x)).None? {
        LineTextsAppend(st.out, Line(x));
        assert LineTexts(st'.out) == a + [x];
        assert (a + [x])[..|a|] == a;
      } else {
        if st.fence.Some? && Trim(x) == EndMarker(st.fence.value.marker) {
          LineTextsAppend(st.out, Code(|st.entries|));
        }
        assert LineTexts(st'.out) == a;
        assert a == [] || Subsequence(a, lines[..|lines| - 1]);
      }
    }
  }

  /** No line opens a fence, stated line by line from the end. */
  predicate NoFenceLines(lines: seq<string>)
    decreases |lines|
  {
    lines == [] || (NoFenceLines(lines[..|lines| - 1]) && FenceOpen(Trim(lines[|lines| - 1])).None?)
  }

  lemma {:induction false} NoFenceLinesOf(lines: seq<string>)
    requires forall i :: 0 <= i < |lines| ==> FenceOpen(Trim(lines[i])).None?
    ensures NoFenceLines(lines)
    decreases |lines|
  {
    if lines != [] {
      var init := lines[..|lines| - 1];
      assert forall i :: 0 <= i < |init| ==> init[i] == lines[i];
      NoFenceLinesOf(init);
    }
  }

  /** Lines none of which opens a fence are copied one by one, and the map is untouched. */
  lemma {:induction false} NoFenceScan(lines: seq<string>, entries: seq<Entry>, issued: nat, env: Env)
    requires NoFenceLines(lines)
    ensures var st := ScanLines(lines, Scan([], None, "", entries, issued), env);
      st.fence.None? && st.entries == entries && st.issued == issued &&
      ItemsIn(st.out, |entries|) && ShowItems(st.out, entries, 0) == lines
    decreases |lines|
  {
    if lines != [] {
      var i := |lines| - 1;
      var st0 := Scan([], None, "", entries, issued);
      NoFenceScan(lines[..i], entries, issued, env);
      var st := ScanLines(lines[..i], st0, env);
      assert ScanLines(lines, st0, env) == st.(out := st.out + [Line(lines[i])]) by {
        ScanLinesSnoc(lines, i, st0, env);
        assert lines[..i + 1] == lines;
        StepPasses(st, lines[i], env);
      }
      ShowItemsAppend(st.out, Line(lines[i]), entries, 0);
      assert ShowItems([Line(lines[i])], entries, 0) == [lines[i]];
      LastSplit(lines);
    }
  }

  lemma LastSplit<T>(s: seq<T>)
    requires s != []
    ensures s == s[..|s| - 1] + [s[|s| - 1]]
  {
  }

  lemma {:induction false} ShowItemsAppend(items: seq<Item>, x: Item, entries: seq<Entry>, m: nat)
    requires ItemsIn(items, |entries|) && (x.Code? ==> x.key < |entries|)
    ensures ItemsIn(items + [x], |entries|)
    ensures ShowItems(items + [x], entries, m) == ShowItems(items, entries, m) + ShowItems([x], entries, m)
    decreases |items|
  {
    if items != [] {
      assert (items + [x])[1..] == items[1..] + [x];
      ShowItemsAppend(items[1..], x, entries, m);
    }
  }

  /** `str_replace("\r", "", $s)` on a text without `\r`. */
  lemma NoCarriageReturn(content: string)
    requires '\r' !in content
    ensures ReplaceAll(content, "\r", "") == content
  {
    forall i | 0 <= i <= |content| ensures !OccursAt(content, "\r", i) {
      if i + 1 <= |content| {
        assert content[i..i + 1][0] == content[i];
      }
    }
    ReplaceAllAbsent(content, "\r", "");
  }

  /** Content without fences and without `\r` is returned as it was, and the map is untouched. */
  lemma NoFenceUnchanged(content: string, entries: seq<Entry>, issued: nat, env: Env)
    requires '\r' !in content
    requires forall i :: 0 <= i < |Split(content, '\n')| ==> FenceOpen(Trim(Split(content, '\n')[i])).None?
    ensures var st := IsolateCode(content, entries, issued, env);
      st.entries == entries && st.issued == issued && ItemsIn(st.out, |st.entries|) && IsolatedText(st) == content
  {
    NoCarriageReturn(content);
    NoFenceLinesOf(Split(content, '\n'));
    NoFenceScan(Split(content, '\n'), entries, issued, env);
    JoinSplit(content, '\n');
  }

  /** A block still open at the end is stored as `<pre><code>` with its escaped body, behind the last line. */
  lemma UnclosedBlock(lines: seq<string>, st0: Scan, env: Env)
    requires ScanLines(lines, st0, env).fence.Some?
    ensures var st := ScanLines(lines, st0, env); var fin := Finish(st, env);
      fin.out == st.out + [Code(|st.entries|)] && |fin.entries| == |st.entries| + 1 &&
      fin.entries[|st.entries|].text == PlainBlock(env.escHtml(st.body)) &&
      fin.entries[|st.entries|].marker == CodeMarker(env.uniq(st.issued))
  {
  }

  // ---------------------------------------------------------------------
  // Fresh, distinct markers

  /** Every marker in the map carries one of the first `hi` ids. */
  ghost predicate Drawn(entries: seq<Entry>, hi: nat, uniq: nat -> string) {
    forall k :: 0 <= k < |entries| ==> DrawnOne(entries[k], hi, uniq)
  }

  /** The entry's marker carries one of the first `hi` ids. */
  ghost predicate DrawnOne(e: Entry, hi: nat, uniq: nat -> string) {
    exists j :: 0 <= j < hi && e.marker == CodeMarker(uniq(j))
  }

  /** Adding the marker of a not yet drawn id keeps the markers distinct and drawn. */
  lemma AddFresh(entries: seq<Entry>, hi: nat, j: nat, html: string, uniq: nat -> string)
    requires Injective(uniq) && IdValues(uniq)
    requires DistinctMarkers(entries) && Drawn(entries, hi, uniq) && hi <= j
    ensures DistinctMarkers(entries + [Entry(CodeMarker(uniq(j)), html)])
    ensures Drawn(entries + [Entry(CodeMarker(uniq(j)), html)], j + 1, uniq)
  {
    var es := entries + [Entry(CodeMarker(uniq(j)), html)];
    assert HexId(uniq(j));
    WrapWellFormed(CodeHead, uniq(j));
    forall k | 0 <= k < |entries| ensures es[k].marker != CodeMarker(uniq(j)) {
      assert DrawnOne(entries[k], hi, uniq);
      var i :| 0 <= i < hi && entries[k].marker == CodeMarker(uniq(i));
      if es[k].marker == CodeMarker(uniq(j)) {
        WrapInjective(CodeHead, uniq(i), uniq(j));
        assert false;
      }
    }
    forall k | 0 <= k < |es| ensures DrawnOne(es[k], j + 1, uniq) {
      if k < |entries| {
        assert es[k] == entries[k];
        assert DrawnOne(entries[k], hi, uniq);
        var i :| 0 <= i < hi && entries[k].marker == CodeMarker(uniq(i));
        assert es[k].marker == CodeMarker(uniq(i));
      } else {
        assert es[k].marker == CodeMarker(uniq(j));
      }
    }
  }

  ghost predicate Fresh(st: Scan, uniq: nat -> string) {
    DistinctMarkers(st.entries) && Drawn(st.entries, st.issued, uniq)
  }

  lemma StepFresh(st: Scan, line: string, env: Env)
    requires Injective(env.uniq) && IdValues(env.uniq) && Fresh(st, env.uniq)
    ensures Fresh(Step(st, line, env), env.uniq)
  {
    if st.fence.Some? && Trim(line) == EndMarker(st.fence.value.marker) {
      CloseFresh(st, line, env);
    } else {
      KeepFresh(st, line, env);
    }
  }

  /** A closing line draws two ids and stores one fresh marker. */
  lemma CloseFresh(st: Scan, line: string, env: Env)
    requires Injective(env.uniq) && IdValues(env.uniq) && Fresh(st, env.uniq)
    requires st.fence.Some? && Trim(line) == EndMarker(st.fence.value.marker)
    ensures Fresh(Step(st, line, env), env.uniq)
  {
    var f := st.fence.value;
    StepCloses(st, line, env);
    AddFresh(st.entries, st.issued, st.issued + 1, env.codeHtml(f.lang, st.body, BlockId(env.uniq(st.issued))), env.uniq);
  }

  /** Any other line leaves the map and the count of drawn ids alone. */
  lemma KeepFresh(st: Scan, line: string, env: Env)
    requires Fresh(st, env.uniq)
    requires !(st.fence.Some? && Trim(line) == EndMarker(st.fence.value.marker))
    ensures Fresh(Step(st, line, env), env.uniq)
  {
    var s := Step(st, line, env);
    assert s.entries == st.entries && s.issued == st.issued by {
      if st.fence.Some? {
        StepCollects(st, line, env);
      } else if FenceOpen(Trim(line)).Some? {
        StepOpens(st, line, env);
      } else {
        StepPasses(st, line, env);
      }
    }
  }

  lemma {:induction false} ScanFresh(lines: seq<string>, st0: Scan, env: Env)
    requires Injective(env.uniq) && IdValues(env.uniq) && Fresh(st0, env.uniq)
    ensures Fresh(ScanLines(lines, st0, env), env.uniq)
    decreases |lines|
  {
    if lines != [] {
      ScanFresh(lines[..|lines| - 1], st0, env);
      StepFresh(ScanLines(lines[..|lines| - 1], st0, env), lines[|lines| - 1], env);
    }
  }

  /** With distinct `uniqid` values, the isolation adds only fresh, distinct, well-formed markers. */
  lemma IsolateCodeFresh(content: string, entries: seq<Entry>, issued: nat, env: Env)
    requires Injective(env.uniq) && IdValues(env.uniq)
    requires DistinctMarkers(entries) && Drawn(entries, issued, env.uniq)
    ensures Fresh(IsolateCode(content, entries, issued, env), env.uniq)
  {
    var st0 := Scan([], None, "", entries, issued);
    ScanFresh(FenceLines(content), st0, env);
    var st := ScanLines(FenceLines(content), st0, env);
    if st.fence.Some? {
      AddFresh(st.entries, st.issued, st.issued, PlainBlock(env.escHtml(st.body)), env.uniq);
    }
  }

  // ---------------------------------------------------------------------
  // Restoring the blocks

  /** The lines as placeholder pieces, with a literal line feed between two lines. */
  function Pieces(items: seq<Item>): seq<Piece>
    decreases |items|
  {
    if items == [] then []
    else
      var p := match items[0] case Line(s) => Lit(s) case Code(k) => Hole(k);
      if |items| == 1 then [p] else [p, Lit("\n")] + Pieces(items[1..])
  }

  lemma {:induction false} PiecesKeys(items: seq<Item>, n: nat)
    requires ItemsIn(items, n)
    ensures KeysIn(Pieces(items), n)
    decreases |items|
  {
    if |items| > 1 {
      PiecesKeys(items[1..], n);
    }
  }

  /** The pieces read as the joined lines, at every stage of the restoring. */
  lemma {:induction false} PiecesShow(items: seq<Item>, entries: seq<Entry>, m: nat)
    requires ItemsIn(items, |entries|)
    ensures KeysIn(Pieces(items), |entries|)
    ensures Partial(Pieces(items), entries, m) == Join(ShowItems(items, entries, m), "\n")
    decreases |items|
  {
    PiecesKeys(items, |entries|);
    if |items| > 1 {
      PiecesShow(items[1..], entries, m);
      var ps := Pieces(items);
      var rest := Pieces(items[1..]);
      assert ps[1..][1..] == rest;
      PartialCons(ps, entries, m);
      PartialCons(ps[1..], entries, m);
    } else if |items| == 1 {
      PartialCons(Pieces(items), entries, m);
    }
  }

  /**
   * `restore_code_blocks` right after `isolate_code_blocks` gives the
   * lines with every block's HTML in place of its placeholder line,
   * provided no marker occurs in that text.
   */
  lemma RestoreCodeRoundTrip(st: Scan)
    requires DistinctMarkers(st.entries) && ItemsIn(st.out, |st.entries|)
    requires forall k :: 0 <= k < |st.entries| ==> !Contains(RestoredText(st), st.entries[k].marker)
    ensures RestoreAll(IsolatedText(st), st.entries) == RestoredText(st)
  {
    PiecesShow(st.out, st.entries, 0);
    PiecesShow(st.out, st.entries, |st.entries|);
    RestoreRoundTrip(Pieces(st.out), st.entries);
  }
}
