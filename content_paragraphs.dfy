/**
 * The paragraph rule for a block of plain text (`process_text_block_paragraphs`
 * in features/content-parser.php): the line ending at the end of the block
 * is cut off, leading blanks are trimmed, the block is split into
 * paragraphs wherever two line feeds stand with only whitespace between
 * them (PCRE `\n\s*\n+`): each such break is replaced by the marker
 * `<!--PARAGRAPH_BREAK-->` and the text is exploded at that marker, so a
 * copy of the marker already in the text splits it too. Every paragraph
 * that is not empty after
 * trimming becomes `<p class="markdown-paragraph">…</p>` with its single
 * line feeds turned into `<br>`. The paragraphs are joined by "\n".
 */
module ContentParagraphs {
  import opened Util
  import opened ContentBlocks

  // ---------------------------------------------------------------------
  // The line ending at the end of the block

  /** Where the run of `\s` at the end of `s` starts. */
  function TrailStart(s: string): (w: nat)
    ensures w <= |s|
    ensures w > 0 ==> !PcreSpace(s[w - 1])
    decreases |s|
  {
    if s != [] && PcreSpace(s[|s| - 1]) then TrailStart(s[..|s| - 1]) else |s|
  }

  lemma {:induction false} TrailAllSpace(s: string)
    ensures forall m :: TrailStart(s) <= m < |s| ==> PcreSpace(s[m])
    decreases |s|
  {
    if s != [] && PcreSpace(s[|s| - 1]) {
      var init := s[..|s| - 1];
      TrailAllSpace(init);
      assert forall m :: TrailStart(s) <= m < |init| ==> s[m] == init[m];
    }
  }

  /** The first line feed in `s[i..]`. */
  function FirstFeed(s: string, i: nat): (k: Option<nat>)
    requires i <= |s|
    ensures k.Some? ==> i <= k.value < |s| && s[k.value] == '\n'
    decreases |s| - i
  {
    if i == |s| then None
    else if s[i] == '\n' then Some(i)
    else FirstFeed(s, i + 1)
  }

  lemma {:induction false} FirstFeedIsFirst(s: string, i: nat)
    requires i <= |s|
    ensures forall m :: i <= m < |s| && (FirstFeed(s, i).None? || m < FirstFeed(s, i).value) ==> s[m] != '\n'
    decreases |s| - i
  {
    if i < |s| && s[i] != '\n' {
      FirstFeedIsFirst(s, i + 1);
    }
  }

  /**
   * Where `/\n\s*\n\s*$/` matches: at the first line feed of the trailing
   * whitespace, when another line feed follows it there.
   */
  function DoubleEnding(s: string): (k: Option<nat>)
    ensures k.Some? ==> k.value < |s|
  {
    match FirstFeed(s, TrailStart(s))
    case None => None
    case Some(k) => if FirstFeed(s, k + 1).Some? then Some(k) else None
  }

  /** Where `/\n\s*$/` matches: at the first line feed of the trailing whitespace. */
  function SingleEnding(s: string): (k: Option<nat>)
    ensures k.Some? ==> k.value < |s|
  {
    FirstFeed(s, TrailStart(s))
  }

  /** The block with its closing line ending removed, as the two `preg_replace` calls do. */
  function EndCut(s: string): (r: string)
    ensures |r| <= |s| && r == s[..|r|]
  {
    if DoubleEnding(s).Some? then s[..DoubleEnding(s).value]
    else if SingleEnding(s).Some? then s[..SingleEnding(s).value]
    else s
  }

  /** Whichever ending matched, the cut is at the first line feed of the trailing whitespace. */
  lemma EndCutAtFirstFeed(s: string)
    ensures EndCut(s) == match FirstFeed(s, TrailStart(s)) case None => s case Some(k) => s[..k]
  {
  }

  /** After the cut, no line feed is left in the whitespace at the end. */
  lemma EndCutLeavesNoFeed(s: string)
    ensures FirstFeed(EndCut(s), TrailStart(EndCut(s))).None?
  {
    var r := EndCut(s);
    var w := TrailStart(s);
    TrailAllSpace(s);
    FirstFeedIsFirst(s, w);
    match FirstFeed(s, w)
    case None =>
      assert r == s;
      FirstFeedIsFirst(s, w);
      NoFeedFrom(s, TrailStart(s));
    case Some(k) =>
      assert r == s[..k];
      // `r` ends in blanks that hold no line feed, after a character that is not blank.
      TrailOfCut(s, k);
      NoFeedFrom(r, TrailStart(r));
  }

  /** Cutting inside the trailing whitespace leaves the same place where it starts. */
  lemma TrailOfCut(s: string, k: nat)
    requires TrailStart(s) <= k <= |s|
    ensures TrailStart(s[..k]) >= TrailStart(s)
    ensures forall m :: TrailStart(s[..k]) <= m < k ==> s[m] == s[..k][m]
  {
    TrailAllSpace(s);
    TrailBound(s[..k], TrailStart(s));
  }

  /** The trailing whitespace cannot start after a blank suffix's start. */
  lemma {:induction false} TrailBound(s: string, w: nat)
    requires w <= |s| && (w > 0 ==> !PcreSpace(s[w - 1]))
    requires forall m :: w <= m < |s| ==> PcreSpace(s[m])
    ensures TrailStart(s) == w
    decreases |s|
  {
    if |s| > w {
      var init := s[..|s| - 1];
      assert forall m :: w <= m < |init| ==> init[m] == s[m];
      assert w > 0 ==> init[w - 1] == s[w - 1];
      TrailBound(init, w);
    }
  }

  lemma NoFeedFrom(s: string, i: nat)
    requires i <= |s|
    requires forall m :: i <= m < |s| ==> s[m] != '\n'
    ensures FirstFeed(s, i).None?
  {
  }

  // ---------------------------------------------------------------------
  // The paragraph breaks

  /** Where the run of `\s` that starts at `i` ends. */
  function SpaceRunEnd(s: string, i: nat): (j: nat)
    requires i <= |s|
    ensures i <= j <= |s|
    decreases |s| - i
  {
    if i < |s| && PcreSpace(s[i]) then SpaceRunEnd(s, i + 1) else i
  }

  /** The last line feed in `s[i..j]`. */
  function LastFeed(s: string, i: nat, j: nat): (k: Option<nat>)
    requires i <= j <= |s|
    ensures k.Some? ==> i <= k.value < j && s[k.value] == '\n'
    decreases j - i
  {
    if j == i then None
    else if s[j - 1] == '\n' then Some(j - 1)
    else LastFeed(s, i, j - 1)
  }

  /**
   * Where a match of `\n\s*\n+` that starts at the front of `s` ends: the
   * greedy `\s*` takes the whole run of blanks after the first line feed
   * and gives back up to its last line feed, which `\n+` then takes.
   */
  function BreakEnd(s: string): (e: Option<nat>)
    ensures e.Some? ==> 2 <= e.value <= |s|
  {
    if s == [] || s[0] != '\n' then None
    else match LastFeed(s, 1, SpaceRunEnd(s, 1))
      case None => None
      case Some(k) => Some(k + 1)
  }

  /**
   * The text cut at every match of `\n\s*\n+`, the matches found from
   * the left and not overlapping.
   */
  function Pieces(s: string): (r: seq<string>)
    ensures |r| >= 1
    decreases |s|
  {
    if s == [] then [""]
    else match BreakEnd(s)
      case Some(e) => [""] + Pieces(s[e..])
      case None =>
        var rest := Pieces(s[1..]);
        [[s[0]] + rest[0]] + rest[1..]
  }

  /** The first paragraph is where the text starts. */
  lemma {:induction false} PiecesHead(s: string)
    ensures |Pieces(s)[0]| <= |s| && Pieces(s)[0] == s[..|Pieces(s)[0]|]
    decreases |s|
  {
    if s != [] && BreakEnd(s).None? {
      PiecesHead(s[1..]);
      var y := Pieces(s[1..])[0];
      assert Pieces(s)[0] == [s[0]] + y;
      assert s[..1 + |y|] == [s[0]] + s[1..][..|y|];
    }
  }

  /** Text without a line feed holds no break. */
  lemma {:induction false} PiecesNoFeed(s: string)
    requires '\n' !in s
    ensures Pieces(s) == [s]
    decreases |s|
  {
    if s != [] {
      PiecesNoFeed(s[1..]);
      assert [s[0]] + s[1..] == s;
    }
  }

  /** The marker `preg_replace` writes at every paragraph break. */
  const ParagraphBreak := "<!--PARAGRAPH_BREAK-->"

  /**
   * The paragraphs: every break replaced by the marker, then the text
   * exploded at the marker. No paragraph holds the marker.
   */
  function Paragraphs(t: string): (r: seq<string>)
    ensures |r| >= 1
    ensures forall k :: 0 <= k < |r| ==> !Contains(r[k], ParagraphBreak)
  {
    var marked := Join(Pieces(t), ParagraphBreak);
    ExplodeFree(marked, ParagraphBreak);
    Explode(marked, ParagraphBreak)
  }

  /** The marker's opening `<` does not come back inside it. */
  lemma MarkerOneOpen()
    ensures forall k :: 1 <= k < |ParagraphBreak| ==> ParagraphBreak[k] != ParagraphBreak[0]
  {
  }

  /** Two line feeds at `p` and `q` with only `\s` between them: a blank line. */
  predicate BlankLine(x: string, p: nat, q: nat) {
    p < q < |x| && x[p] == '\n' && x[q] == '\n' && forall m :: p < m < q ==> PcreSpace(x[m])
  }

  predicate NoBlankLine(x: string) {
    forall p, q :: 0 <= p < q < |x| ==> !BlankLine(x, p, q)
  }

  /** The blank run after `i` reaches past every blank position that follows it without a gap. */
  lemma {:induction false} SpaceRunPast(s: string, i: nat, q: nat)
    requires i <= q < |s| && forall m :: i <= m <= q ==> PcreSpace(s[m])
    ensures SpaceRunEnd(s, i) > q
    decreases q - i
  {
    if i < q {
      SpaceRunPast(s, i + 1, q);
    }
  }

  /** `LastFeed` finds the line feed at `q` or a later one. */
  lemma {:induction false} LastFeedFinds(s: string, i: nat, j: nat, q: nat)
    requires i <= q < j <= |s| && s[q] == '\n'
    ensures LastFeed(s, i, j).Some? && LastFeed(s, i, j).value >= q
    decreases j - i
  {
    if s[j - 1] != '\n' {
      LastFeedFinds(s, i, j - 1, q);
    }
  }

  /** A blank line at the very front of the text is a match of `\n\s*\n+` there. */
  lemma BlankLineBreaks(s: string, q: nat)
    requires BlankLine(s, 0, q)
    ensures BreakEnd(s).Some?
  {
    SpaceRunPast(s, 1, q);
    LastFeedFinds(s, 1, SpaceRunEnd(s, 1), q);
  }

  /** No paragraph holds a blank line: every one of them has become a break. */
  lemma {:induction false} PiecesNoBlankLine(s: string)
    ensures forall k :: 0 <= k < |Pieces(s)| ==> NoBlankLine(Pieces(s)[k])
    decreases |s|
  {
    if s != [] {
      match BreakEnd(s)
      case Some(e) =>
        PiecesNoBlankLine(s[e..]);
        assert NoBlankLine("");
      case None =>
        var rest := Pieces(s[1..]);
        PiecesNoBlankLine(s[1..]);
        PiecesHead(s[1..]);
        HeadNoBlankLine(s, rest[0]);
        assert forall k :: 1 <= k < |Pieces(s)| ==> Pieces(s)[k] == rest[k];
    }
  }

  /** The first paragraph, one character longer, still holds no blank line. */
  lemma HeadNoBlankLine(s: string, y: string)
    requires s != [] && BreakEnd(s).None?
    requires NoBlankLine(y) && |y| <= |s| - 1 && y == s[1..][..|y|]
    ensures NoBlankLine([s[0]] + y)
  {
    var x := [s[0]] + y;
    forall p, q | 0 <= p < q < |x|
      ensures !BlankLine(x, p, q)
    {
      if BlankLine(x, p, q) {
        if p == 0 {
          assert forall m :: 0 <= m <= q ==> x[m] == s[m];
          assert BlankLine(s, 0, q);
          BlankLineBreaks(s, q);
        } else {
          assert forall m :: p - 1 <= m <= q - 1 ==> y[m] == x[m + 1];
          assert BlankLine(y, p - 1, q - 1);
        }
      }
    }
  }

  // ---------------------------------------------------------------------
  // The paragraphs' HTML

  const ParagraphOpen := "<p class=\"markdown-paragraph\">"

  /** One paragraph, its single line feeds turned into `<br>` by `process_line_breaks`. */
  function ParagraphHtml(p: string): (r: string)
  {
    ParagraphOpen + LineBreaks(p) + "</p>"
  }

  lemma ParagraphHtmlNoLineFeed(p: string)
    ensures '\n' !in ParagraphHtml(p)
  {
    LineBreaksNoLineFeed(p);
    assert '\n' !in ParagraphOpen;
  }

  /** The paragraphs kept: trimmed, the empty ones ("" or "0") dropped, the others wrapped. */
  function KeptParagraphs(pieces: seq<string>): (r: seq<string>)
    ensures |r| <= |pieces|
  {
    if pieces == [] then []
    else
      var rest := KeptParagraphs(pieces[..|pieces| - 1]);
      var p := Trim(pieces[|pieces| - 1]);
      if EmptyStr(p) then rest else rest + [ParagraphHtml(p)]
  }

  /** `x` is the HTML of one of the paragraphs, not empty once trimmed. */
  predicate FromPiece(x: string, pieces: seq<string>) {
    exists i :: 0 <= i < |pieces| && !EmptyStr(Trim(pieces[i])) && x == ParagraphHtml(Trim(pieces[i]))
  }

  lemma {:induction false} KeptParagraphsAreHtml(pieces: seq<string>)
    ensures forall k :: 0 <= k < |KeptParagraphs(pieces)| ==> FromPiece(KeptParagraphs(pieces)[k], pieces)
  {
    if pieces != [] {
      var init := pieces[..|pieces| - 1];
      KeptParagraphsAreHtml(init);
      var kept, before := KeptParagraphs(pieces), KeptParagraphs(init);
      forall k | 0 <= k < |kept|
        ensures FromPiece(kept[k], pieces)
      {
        if k < |before| {
          assert FromPiece(before[k], init);
          var i :| 0 <= i < |init| && !EmptyStr(Trim(init[i])) && before[k] == ParagraphHtml(Trim(init[i]));
          assert init[i] == pieces[i] && kept[k] == before[k];
        } else {
          var i := |pieces| - 1;
          assert !EmptyStr(Trim(pieces[i])) && kept[k] == ParagraphHtml(Trim(pieces[i]));
        }
      }
    }
  }

  /** `process_text_block_paragraphs`. */
  function TextBlockParagraphs(block: string): (r: string)
  {
    var t := TrimLeft(EndCut(block));
    if EmptyStr(t) then "" else Join(KeptParagraphs(Paragraphs(t)), "\n")
  }

  /** Text without a line feed or a marker makes one paragraph of its trimmed text, unless that is empty. */
  lemma OneParagraph(block: string)
    requires '\n' !in block && !Contains(block, ParagraphBreak)
    ensures TextBlockParagraphs(block) ==
      if EmptyStr(Trim(block)) then "" else ParagraphOpen + Trim(block) + "</p>"
  {
    assert FirstFeed(block, TrailStart(block)).None? by { NoFeedFrom(block, TrailStart(block)); }
    assert EndCut(block) == block;
    var t := TrimLeft(block);
    TrimLeftSuffix(block);
    assert '\n' !in t;
    assert TrimLeft(t) == t;
    PiecesNoFeed(t);
    assert !Contains(t, ParagraphBreak) by {
      if Contains(t, ParagraphBreak) {
        ContainsSuffix(block, ParagraphBreak, |block| - |t|);
      }
    }
    ExplodeAbsent(t, ParagraphBreak);
    assert Paragraphs(t) == [t];
    assert KeptParagraphs([t]) == KeptParagraphs([]) + (if EmptyStr(Trim(t)) then [] else [ParagraphHtml(Trim(t))]);
    if !EmptyStr(Trim(block)) {
      TrimRightPrefixFree(t);
      LineBreaksOneLine(Trim(block));
      assert TrimRight(Trim(block)) == Trim(block);
    }
  }

  /** A one-line block that starts with a non-blank keeps its whole text as the trimmed text. */
  lemma OneLineUntrimmed(s: string)
    requires '\n' !in s && s != [] && !IsSpace(s[0])
    ensures TrimLeft(EndCut(s)) == s && Pieces(s) == [s]
  {
    assert FirstFeed(s, TrailStart(s)).None? by { NoFeedFrom(s, TrailStart(s)); }
    PiecesNoFeed(s);
  }

  /** A one-line block that starts with a non-blank: its paragraphs are its parts between markers. */
  lemma OneLineParagraphs(s: string)
    requires '\n' !in s && |s| >= 2 && !IsSpace(s[0])
    ensures TextBlockParagraphs(s) == Join(KeptParagraphs(Explode(s, ParagraphBreak)), "\n")
  {
    OneLineUntrimmed(s);
    assert Join([s], ParagraphBreak) == s;
  }

  /** Two parts that are not empty after trimming give two paragraph lines. */
  lemma TwoKept(a: string, b: string)
    requires !EmptyStr(Trim(a)) && !EmptyStr(Trim(b))
    ensures Join(KeptParagraphs([a, b]), "\n") == ParagraphHtml(Trim(a)) + "\n" + ParagraphHtml(Trim(b))
  {
    assert [a, b][..1] == [a];
    assert KeptParagraphs([a]) == [ParagraphHtml(Trim(a))] by {
      assert [a][..0] == [];
    }
  }

  /**
   * A marker already in a one-line block splits it: `a<!--PARAGRAPH_BREAK-->b`
   * gives the paragraph of `a` and the paragraph of `b`.
   */
  lemma MarkerSplitsBlock(a: string, b: string)
    requires '\n' !in a && '\n' !in b
    requires !Contains(a, ParagraphBreak) && !Contains(b, ParagraphBreak)
    requires a != [] && !IsSpace(a[0])
    requires !EmptyStr(Trim(a)) && !EmptyStr(Trim(b))
    ensures TextBlockParagraphs(a + ParagraphBreak + b) == ParagraphHtml(Trim(a)) + "\n" + ParagraphHtml(Trim(b))
  {
    MarkerOneOpen();
    JoinedLine(a, ParagraphBreak, b);
    OneLineParagraphs(a + ParagraphBreak + b);
    TwoKept(a, b);
  }

  /** Two one-line parts around a one-line separator that neither holds. */
  lemma JoinedLine(a: string, m: string, b: string)
    requires '\n' !in a && '\n' !in b && '\n' !in m
    requires m != [] && forall k :: 1 <= k < |m| ==> m[k] != m[0]
    requires !Contains(a, m) && !Contains(b, m)
    requires a != [] && !IsSpace(a[0])
    ensures var s := a + m + b;
      '\n' !in s && |s| >= 2 && !IsSpace(s[0]) && Explode(s, m) == [a, b]
  {
    var s := a + m + b;
    assert s[0] == a[0];
    ExplodeAfterFree(a, m, b);
    ExplodeAbsent(b, m);
  }

  lemma TrimRightPrefixFree(t: string)
    requires '\n' !in t
    ensures '\n' !in TrimRight(t)
  {
    assert forall m :: 0 <= m < |TrimRight(t)| ==> TrimRight(t)[m] == t[m];
  }

  /** A block of blanks only yields nothing. */
  lemma BlankBlock(block: string)
    requires forall m :: 0 <= m < |block| ==> IsSpace(block[m])
    ensures TextBlockParagraphs(block) == ""
  {
    var c := EndCut(block);
    assert forall m :: 0 <= m < |c| ==> IsSpace(c[m]);
    AllBlankTrimLeft(c);
  }

  lemma {:induction false} AllBlankTrimLeft(s: string)
    requires forall m :: 0 <= m < |s| ==> IsSpace(s[m])
    ensures TrimLeft(s) == ""
    decreases |s|
  {
    if s != [] {
      AllBlankTrimLeft(s[1..]);
    }
  }

  /** Splitting the joined lines at the separator gives the lines back. */
  lemma {:induction false} SplitJoin(parts: seq<string>, c: char)
    requires parts != [] && forall k :: 0 <= k < |parts| ==> c !in parts[k]
    ensures Split(Join(parts, [c]), c) == parts
    decreases |parts|
  {
    if |parts| == 1 {
      SplitNoSep(parts[0], c);
    } else {
      SplitJoin(parts[1..], c);
      SplitAt(parts[0], Join(parts[1..], [c]), c);
      assert [parts[0]] + parts[1..] == parts;
    }
  }

  /**
   * Every line of the result is one paragraph element: the text of a
   * paragraph that is not empty, trimmed, in `<p class="markdown-paragraph">`,
   * and no paragraph of the text holds a blank line.
   */
  lemma TextBlockLines(block: string)
    requires TextBlockParagraphs(block) != ""
    ensures var t := TrimLeft(EndCut(block));
      Split(TextBlockParagraphs(block), '\n') == KeptParagraphs(Paragraphs(t)) &&
      (forall k :: 0 <= k < |Pieces(t)| ==> NoBlankLine(Pieces(t)[k]))
  {
    var t := TrimLeft(EndCut(block));
    var ps := Paragraphs(t);
    var kept := KeptParagraphs(ps);
    assert kept != [];
    KeptParagraphsAreHtml(ps);
    forall k | 0 <= k < |kept|
      ensures '\n' !in kept[k]
    {
      assert FromPiece(kept[k], ps);
      var i :| 0 <= i < |ps| && !EmptyStr(Trim(ps[i])) && kept[k] == ParagraphHtml(Trim(ps[i]));
      ParagraphHtmlNoLineFeed(Trim(ps[i]));
    }
    SplitJoin(kept, '\n');
    PiecesNoBlankLine(t);
  }
}
