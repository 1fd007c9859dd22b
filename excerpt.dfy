/**
 * The smart HTML excerpt of features/excerpt.php: the word-limit setting,
 * the character-budget truncation of the post HTML, the choice of the
 * preview image, and the final rewriting of the excerpt's images into
 * links to the post.
 */
module Excerpt {
  import opened Util

  // ---------------------------------------------------------------------
  // The word limit

  /**
   * The `excerpt_word_limit` setting after defaulting: a numeric setting
   * whose integer value is positive is used, anything else gives 500.
   */
  function WordLimit(setting: string): (n: nat)
    ensures n >= 1
    ensures n != 500 ==> IsNumeric(setting) && n == IntVal(setting)
    ensures !IsNumeric(setting) || IntVal(setting) <= 0 ==> n == 500
  {
    if IsNumeric(setting) && IntVal(setting) > 0 then IntVal(setting) else 500
  }

  /** A positive number written in decimal is taken as it is. */
  lemma WordLimitOfNumber(n: nat)
    requires n > 0
    ensures WordLimit(NatToString(n)) == n
  {
    IntValOfNat(n);
  }

  /** PHP reads an exponent in the setting: `1e3` is a limit of 1000. */
  lemma WordLimitExponent(d: nat, e: nat)
    requires Scale(d, e) > 0
    ensures WordLimit(NatToString(d) + "e" + NatToString(e)) == Scale(d, e)
  {
    Scientific(d, e);
  }

  /** Blanks before the number are skipped: ` 12` is a limit of 12. */
  lemma WordLimitLeadingBlank(n: nat)
    requires n > 0
    ensures WordLimit(" " + NatToString(n)) == n
  {
    LeadingBlanks(" ", NatToString(n));
    IntValOfNat(n);
  }

  // ---------------------------------------------------------------------
  // Splitting HTML into tags and text

  /** `max(1, intval($length))`: the character budget of the truncation. */
  function ClampLimit(length: int): (n: nat)
    ensures n >= 1 && n >= length
    ensures length >= 1 ==> n == length
  {
    if length < 1 then 1 else length
  }

  /** The first index at or after `i` holding `c`. */
  function FindFrom(s: string, c: char, i: nat): (r: Option<nat>)
    requires i <= |s|
    ensures r.Some? ==> i <= r.value < |s| && s[r.value] == c
    decreases |s| - i
  {
    if i == |s| then None
    else if s[i] == c then Some(i)
    else FindFrom(s, c, i + 1)
  }

  /** The index found is the first one: `c` does not occur before it. */
  lemma {:induction false} FindFromFirst(s: string, c: char, i: nat, j: nat)
    requires i <= j <= |s|
    requires FindFrom(s, c, i).None? || j <= FindFrom(s, c, i).value
    ensures c !in s[i..j]
    decreases j - i
  {
    if i < j {
      FindFromFirst(s, c, i + 1, j);
      assert s[i..j] == [s[i]] + s[i + 1..j];
    }
  }

  /** Cutting `s` after the index found does not change the search. */
  lemma {:induction false} FindFromPrefix(s: string, c: char, i: nat, n: nat)
    requires i <= |s| && FindFrom(s, c, i).Some? && FindFrom(s, c, i).value < n <= |s|
    ensures FindFrom(s[..n], c, i) == FindFrom(s, c, i)
    decreases |s| - i
  {
    if s[i] != c {
      FindFromPrefix(s, c, i + 1, n);
    }
  }

  /** The regex `^<[^>]+>$`: a part that is one whole tag, whose first `>` is its last character. */
  predicate IsTag(p: string) {
    |p| >= 3 && p[0] == '<' && FindFrom(p, '>', 1) == Some(|p| - 1)
  }

  /** The length of the match of `<[^>]+>` at the front of `s`, 0 when there is none. */
  function TagAt(s: string): (n: nat)
    ensures n == 0 || 3 <= n <= |s|
  {
    if s == [] || s[0] != '<' then 0
    else match FindFrom(s, '>', 1)
      case None => 0
      case Some(k) => if k >= 2 then k + 1 else 0
  }

  /** What `TagAt` finds is a whole tag. */
  lemma TagAtIsTag(s: string)
    requires TagAt(s) > 0
    ensures IsTag(s[..TagAt(s)])
  {
    FindFromPrefix(s, '>', 1, TagAt(s));
  }

  /**
   * `preg_split('/(<[^>]+>)/u', $html, -1, PREG_SPLIT_DELIM_CAPTURE |
   * PREG_SPLIT_NO_EMPTY)`: the tags, and the non-empty text between them.
   */
  function SplitTags(s: string): (parts: seq<string>)
    decreases |s|
  {
    if s == [] then []
    else
      var n := TagAt(s);
      if n > 0 then [s[..n]] + SplitTags(s[n..])
      else
        var rest := SplitTags(s[1..]);
        if rest != [] && TagAt(s[1..]) == 0 then [[s[0]] + rest[0]] + rest[1..]
        else [[s[0]]] + rest
  }

  /** The pieces glued together with nothing between them (`implode('', ...)`, `.=`). */
  function Concat(pieces: seq<string>): (r: string)
    ensures pieces == [] ==> r == []
  {
    if pieces == [] then [] else pieces[0] + Concat(pieces[1..])
  }

  lemma ConcatCons(p: string, rest: seq<string>)
    ensures Concat([p] + rest) == p + Concat(rest)
  {
    assert ([p] + rest)[1..] == rest;
  }

  /** The split loses nothing: gluing the parts back gives the input. */
  lemma {:induction false} SplitTagsJoin(s: string)
    ensures Concat(SplitTags(s)) == s
    decreases |s|
  {
    if s != [] {
      var n := TagAt(s);
      if n > 0 {
        SplitTagsJoin(s[n..]);
        SplitTagsJoinTag(s);
      } else {
        SplitTagsJoin(s[1..]);
        SplitTagsJoinText(s);
      }
    }
  }

  lemma SplitTagsJoinTag(s: string)
    requires s != [] && TagAt(s) > 0
    requires Concat(SplitTags(s[TagAt(s)..])) == s[TagAt(s)..]
    ensures Concat(SplitTags(s)) == s
  {
    var n := TagAt(s);
    ConcatCons(s[..n], SplitTags(s[n..]));
    TakeDrop(s, n);
  }

  lemma SplitTagsJoinText(s: string)
    requires s != [] && TagAt(s) == 0
    requires Concat(SplitTags(s[1..])) == s[1..]
    ensures Concat(SplitTags(s)) == s
  {
    var rest := SplitTags(s[1..]);
    if rest != [] && TagAt(s[1..]) == 0 {
      ConcatCons(rest[0], rest[1..]);
      assert [rest[0]] + rest[1..] == rest;
      ConcatCons([s[0]] + rest[0], rest[1..]);
      ConcatAssoc([s[0]], rest[0], Concat(rest[1..]));
    } else {
      ConcatCons([s[0]], rest);
    }
    TakeDrop(s, 1);
    assert s[..1] == [s[0]];
  }

  /** No part is empty. */
  lemma {:induction false} SplitTagsNonEmpty(s: string)
    ensures forall k :: 0 <= k < |SplitTags(s)| ==> SplitTags(s)[k] != []
    decreases |s|
  {
    if s != [] {
      var n := TagAt(s);
      if n > 0 {
        SplitTagsNonEmpty(s[n..]);
      } else {
        SplitTagsNonEmpty(s[1..]);
      }
    }
  }

  /** `<?xml` at the front of `s`, with the letters in any case. */
  predicate XmlOpen(s: string) {
    |s| >= 5 && s[0] == '<' && s[1] == '?' && Lower(s[2]) == 'x' && Lower(s[3]) == 'm' && Lower(s[4]) == 'l'
  }

  /**
   * `preg_replace('/<\?xml[^>]*\?>/i', '', $html)`: a declaration runs from
   * `<?xml` to the first `>`, which must follow a `?`.
   */
  function DropXmlDecl(s: string): (r: string)
    ensures |r| <= |s|
    decreases |s|
  {
    if s == [] then []
    else if XmlOpen(s) then
      match FindFrom(s, '>', 5)
      case Some(m) =>
        if m >= 6 && s[m - 1] == '?' then DropXmlDecl(s[m + 1..])
        else [s[0]] + DropXmlDecl(s[1..])
      case None => [s[0]] + DropXmlDecl(s[1..])
    else [s[0]] + DropXmlDecl(s[1..])
  }

  /** Text without `<?` has no declaration to drop. */
  lemma {:induction false} DropXmlDeclFree(s: string)
    requires '?' !in s
    ensures DropXmlDecl(s) == s
    decreases |s|
  {
    if s != [] {
      assert !XmlOpen(s) by { if |s| >= 2 { assert s[1] in s; } }
      assert '?' !in s[1..] by { assert forall c :: c in s[1..] ==> c in s; }
      DropXmlDeclFree(s[1..]);
      assert [s[0]] + s[1..] == s;
    }
  }

  // ---------------------------------------------------------------------
  // Truncation

  /**
   * What counts as an empty part. The loop tests with PHP `empty()`, under
   * which "0" is empty too; `EmptyString` is the test the loop evidently
   * means.
   */
  datatype Emptiness = PhpEmpty | EmptyString

  predicate Blank(s: string, e: Emptiness) {
    if e.PhpEmpty? then EmptyStr(s) else s == []
  }

  /**
   * How the truncation loop treats one part: it skips an empty part, copies
   * a tag or blank text whole without counting it, and counts other text
   * by its trimmed form.
   */
  datatype Piece = Skip | Whole(raw: string) | Text(raw: string, trimmed: string)

  function Classify(p: string, e: Emptiness): Piece {
    if Blank(p, e) then Skip
    else if IsTag(p) || Blank(Trim(p), e) then Whole(p)
    else Text(p, Trim(p))
  }

  function Classified(parts: seq<string>, e: Emptiness): (cs: seq<Piece>)
    ensures |cs| == |parts|
  {
    if parts == [] then [] else [Classify(parts[0], e)] + Classified(parts[1..], e)
  }

  /** What one piece adds to the running length. */
  function Spent(c: Piece): nat {
    if c.Text? then |c.trimmed| else 0
  }

  /** The piece that ends the loop: counted text that does not fit in what is left. */
  predicate Overflows(c: Piece, limit: nat, used: nat) {
    c.Text? && used + |c.trimmed| > limit
  }

  /** What a piece that does not overflow adds to the result: the part itself, unless it is skipped. */
  function Lead(c: Piece): seq<string> {
    if c.Skip? then [] else [c.raw]
  }

  /** The first `room` trimmed characters of counted text, when there is room. */
  function CutPiece(c: Piece, room: int): (r: seq<string>)
    ensures |r| <= 1
  {
    if room > 0 && c.Text? then [c.trimmed[..Min(room, |c.trimmed|)]] else []
  }

  /**
   * The pieces the truncation loop appends to `$result`, starting with the
   * running length `used`: skipped parts add nothing, whole parts are
   * copied, counted text is copied and counted, and the first text that
   * would overflow the limit contributes only its first `limit - used`
   * trimmed characters and ends the loop.
   */
  function Emit(cs: seq<Piece>, limit: nat, used: nat): seq<string>
    requires used <= limit
    decreases |cs|
  {
    if cs == [] then []
    else if Overflows(cs[0], limit, used) then CutPiece(cs[0], limit - used)
    else Lead(cs[0]) + Emit(cs[1..], limit, used + Spent(cs[0]))
  }

  /** The output of the loop over the split parts, under an emptiness test. */
  function Truncated(parts: seq<string>, limit: nat, e: Emptiness): seq<string> {
    Emit(Classified(parts, e), limit, 0)
  }

  /** The running length after the given pieces. */
  function Counted(cs: seq<Piece>): nat
  {
    if cs == [] then 0 else Spent(cs[0]) + Counted(cs[1..])
  }

  /** The pieces copied whole: every part that is not skipped, in order. */
  function Kept(cs: seq<Piece>): seq<string>
  {
    if cs == [] then [] else Lead(cs[0]) + Kept(cs[1..])
  }

  /** The index of the first piece that would overflow the limit, or `|cs|`. */
  function CutAt(cs: seq<Piece>, limit: nat, used: nat): (c: nat)
    requires used <= limit
    ensures c <= |cs|
    decreases |cs|
  {
    if cs == [] then 0
    else if Overflows(cs[0], limit, used) then 0
    else 1 + CutAt(cs[1..], limit, used + Spent(cs[0]))
  }

  lemma ConsPrefix<T>(s: seq<T>, c: nat)
    requires 0 < c <= |s|
    ensures s[..c] == [s[0]] + s[1..][..c - 1]
    ensures s[..c][0] == s[0] && s[..c][1..] == s[1..][..c - 1]
  {
  }

  /**
   * The pieces before the cut stay within the limit, and the piece at the
   * cut is the first that would overflow it.
   */
  lemma {:induction false} CutAtBudget(cs: seq<Piece>, limit: nat, used: nat)
    requires used <= limit
    ensures used + Counted(cs[..CutAt(cs, limit, used)]) <= limit
    ensures CutAt(cs, limit, used) < |cs| ==>
      var c := CutAt(cs, limit, used);
      Overflows(cs[c], limit, used + Counted(cs[..c]))
    decreases |cs|
  {
    if cs != [] && !Overflows(cs[0], limit, used) {
      var c := CutAt(cs, limit, used);
      CutAtBudget(cs[1..], limit, used + Spent(cs[0]));
      ConsPrefix(cs, c);
      assert Counted(cs[..c]) == Spent(cs[0]) + Counted(cs[1..][..c - 1]);
    }
  }

  /** A piece that does not overflow is followed by the output of the rest. */
  lemma EmitFits(cs: seq<Piece>, limit: nat, used: nat)
    requires cs != [] && used <= limit && !Overflows(cs[0], limit, used)
    ensures Emit(cs, limit, used) == Lead(cs[0]) + Emit(cs[1..], limit, used + Spent(cs[0]))
  {
  }

  /** A piece that overflows ends the output. */
  lemma EmitCut(cs: seq<Piece>, limit: nat, used: nat)
    requires cs != [] && used <= limit && Overflows(cs[0], limit, used)
    ensures Emit(cs, limit, used) == CutPiece(cs[0], limit - used)
  {
  }

  /** The kept parts before the cut, then the piece cut from the part at the cut. */
  function EmitShape(cs: seq<Piece>, limit: nat, used: nat): seq<string>
    requires used <= limit
  {
    var c := CutAt(cs, limit, used);
    Kept(cs[..c]) + (if c < |cs| then CutPiece(cs[c], limit - used - Counted(cs[..c])) else [])
  }

  /**
   * The shape of the output: every part before the cut that is not
   * skipped, whole and in order (so every tag there is copied verbatim),
   * then, when the limit is not yet reached, the first
   * `limit - used - Counted(...)` trimmed characters of the text at the
   * cut, and nothing after it.
   */
  lemma {:induction false} EmitSplit(cs: seq<Piece>, limit: nat, used: nat)
    requires used <= limit
    ensures Emit(cs, limit, used) == EmitShape(cs, limit, used)
    decreases |cs|
  {
    if cs == [] {
      assert cs[..0] == [];
    } else if Overflows(cs[0], limit, used) {
      EmitSplitCut(cs, limit, used);
    } else {
      EmitSplit(cs[1..], limit, used + Spent(cs[0]));
      EmitSplitFits(cs, limit, used);
    }
  }

  lemma EmitSplitCut(cs: seq<Piece>, limit: nat, used: nat)
    requires cs != [] && used <= limit && Overflows(cs[0], limit, used)
    ensures Emit(cs, limit, used) == EmitShape(cs, limit, used)
  {
    EmitCut(cs, limit, used);
    assert CutAt(cs, limit, used) == 0;
    assert cs[..0] == [];
    assert EmitShape(cs, limit, used) == [] + CutPiece(cs[0], limit - used);
  }

  lemma EmitSplitFits(cs: seq<Piece>, limit: nat, used: nat)
    requires cs != [] && used <= limit && !Overflows(cs[0], limit, used)
    requires Emit(cs[1..], limit, used + Spent(cs[0])) == EmitShape(cs[1..], limit, used + Spent(cs[0]))
    ensures Emit(cs, limit, used) == EmitShape(cs, limit, used)
  {
    var c := CutAt(cs, limit, used);
    var rest := cs[1..];
    var used' := used + Spent(cs[0]);
    ConsPrefix(cs, c);
    assert Kept(cs[..c]) == Lead(cs[0]) + Kept(rest[..c - 1]);
    assert Counted(cs[..c]) + used == Counted(rest[..c - 1]) + used';
    assert c - 1 == CutAt(rest, limit, used');
    var tail := if c < |cs| then CutPiece(cs[c], limit - used - Counted(cs[..c])) else [];
    if c < |cs| {
      assert cs[c] == rest[c - 1];
    }
    assert EmitShape(rest, limit, used') == Kept(rest[..c - 1]) + tail;
    EmitFits(cs, limit, used);
    ConcatAssoc(Lead(cs[0]), Kept(rest[..c - 1]), tail);
  }

  /** The trimmed length of a text piece of the output; tags count nothing. */
  function PieceText(x: string): (n: nat)
    ensures n <= |x|
  {
    if IsTag(x) then 0 else |Trim(x)|
  }

  /** The total of a measure over the pieces of an output. */
  function Measure(out: seq<string>, m: string -> nat): nat
  {
    if out == [] then 0 else m(out[0]) + Measure(out[1..], m)
  }

  /** The trimmed length of the text pieces of an output. */
  function TextSpent(out: seq<string>): nat {
    Measure(out, PieceText)
  }

  lemma MeasureAppend(a: seq<string>, b: seq<string>, m: string -> nat)
    requires |a| <= 1
    ensures Measure(a + b, m) == Measure(a, m) + Measure(b, m)
  {
    if a != [] {
      assert (a + b)[0] == a[0] && (a + b)[1..] == b && a[1..] == [];
    } else {
      assert a + b == b;
    }
  }

  /**
   * A piece that, under the measure `m`, puts into the output exactly what
   * it adds to the running length.
   */
  predicate Fair(c: Piece, m: string -> nat) {
    c.Skip? || m(c.raw) == Spent(c)
  }

  predicate AllFair(cs: seq<Piece>, m: string -> nat) {
    cs == [] || (Fair(cs[0], m) && AllFair(cs[1..], m))
  }

  /** A cut piece measures no more than the room left, under a measure bounded by length. */
  lemma CutPieceMeasure(c: Piece, room: int, m: string -> nat)
    requires forall x :: m(x) <= |x|
    ensures Measure(CutPiece(c, room), m) <= if room > 0 then room else 0
  {
    if room > 0 && c.Text? {
      var x := c.trimmed[..Min(room, |c.trimmed|)];
      assert CutPiece(c, room) == [x];
      assert Measure([x], m) == m(x) + Measure([x][1..], m);
      assert [x][1..] == [];
    }
  }

  /** One step of the budget argument: the first piece, given the bound for the rest. */
  lemma BudgetStep(cs: seq<Piece>, limit: nat, used: nat, m: string -> nat)
    requires cs != [] && used <= limit && Fair(cs[0], m)
    requires forall x :: m(x) <= |x|
    requires !Overflows(cs[0], limit, used) ==>
      Measure(Emit(cs[1..], limit, used + Spent(cs[0])), m) <= limit - used - Spent(cs[0])
    ensures Measure(Emit(cs, limit, used), m) <= limit - used
  {
    var c := cs[0];
    if Overflows(c, limit, used) {
      EmitCut(cs, limit, used);
      CutPieceMeasure(c, limit - used, m);
    } else {
      EmitFits(cs, limit, used);
      LeadMeasure(c, Emit(cs[1..], limit, used + Spent(c)), m);
    }
  }

  /** What a fair piece puts before the rest of the output is what it adds to the running length. */
  lemma LeadMeasure(c: Piece, tail: seq<string>, m: string -> nat)
    requires Fair(c, m)
    ensures Measure(Lead(c) + tail, m) == Spent(c) + Measure(tail, m)
  {
    MeasureAppend(Lead(c), tail, m);
    if !c.Skip? {
      assert Lead(c) == [c.raw] && [c.raw][1..] == [];
    }
  }

  /**
   * The output of fair pieces stays within the budget, under any measure
   * bounded by length.
   */
  lemma {:induction false} EmitBudget(cs: seq<Piece>, limit: nat, used: nat, m: string -> nat)
    requires used <= limit && AllFair(cs, m)
    requires forall x :: m(x) <= |x|
    ensures Measure(Emit(cs, limit, used), m) <= limit - used
    decreases |cs|
  {
    if cs != [] {
      if !Overflows(cs[0], limit, used) {
        EmitBudget(cs[1..], limit, used + Spent(cs[0]), m);
      }
      BudgetStep(cs, limit, used, m);
    }
  }

  /**
   * With the intended test every part is fair under the text measure: a
   * copied tag or blank text has no text, and counted text has its
   * trimmed length.
   */
  lemma {:induction false} ClassifiedFair(parts: seq<string>)
    ensures AllFair(Classified(parts, EmptyString), PieceText)
    decreases |parts|
  {
    if parts != [] {
      var cs := Classified(parts, EmptyString);
      assert cs[0] == Classify(parts[0], EmptyString) && cs[1..] == Classified(parts[1..], EmptyString);
      ClassifiedFair(parts[1..]);
    }
  }

  /** With the intended emptiness test the emitted text stays within the budget. */
  lemma EmitWithinBudget(parts: seq<string>, limit: nat)
    ensures TextSpent(Truncated(parts, limit, EmptyString)) <= limit
  {
    ClassifiedFair(parts);
    EmitBudget(Classified(parts, EmptyString), limit, 0, PieceText);
  }

  /** Under PHP `empty()` the text "0 " is copied whole: its trimmed form "0" is `empty()`. */
  lemma ZeroPieceWhole()
    ensures Classify("0 ", PhpEmpty) == Whole("0 ")
    ensures PieceText("0 ") == 1
  {
    assert "0 "[..1] == "0";
    assert Trim("0 ") == "0";
  }

  /** The pieces of the example parts under PHP `empty()`. */
  lemma ZeroTextPieces()
    ensures Classified(["<b>", "0 ", "</b>", "xy"], PhpEmpty) == [Whole("<b>"), Whole("0 "), Whole("</b>"), Text("xy", "xy")]
  {
    ZeroPieceWhole();
    ZeroTextTags();
    ZeroTextLetters();
  }

  /** The example's tags are copied whole. */
  lemma ZeroTextTags()
    ensures Classify("<b>", PhpEmpty) == Whole("<b>") && Classify("</b>", PhpEmpty) == Whole("</b>")
  {
    assert IsTag("<b>");
    assert IsTag("</b>");
  }

  /** The example's last part is counted text. */
  lemma ZeroTextLetters()
    ensures Classify("xy", PhpEmpty) == Text("xy", "xy")
  {
    assert !IsTag("xy") && Trim("xy") == "xy";
  }

  /**
   * As written, a text part "0 " between tags is copied without being
   * counted, because its trimmed form "0" is `empty()`: with a budget of one
   * character two are emitted.
   */
  lemma ZeroTextOverBudget()
    ensures Truncated(["<b>", "0 ", "</b>", "xy"], 1, PhpEmpty) == ["<b>", "0 ", "</b>", "x"]
    ensures TextSpent(Truncated(["<b>", "0 ", "</b>", "xy"], 1, PhpEmpty)) == 2
  {
    ZeroTextPieces();
    ZeroTextEmit();
    ZeroTextSpent();
  }

  /** The output of the example pieces with a budget of one character. */
  lemma ZeroTextEmit()
    ensures Emit([Whole("<b>"), Whole("0 "), Whole("</b>"), Text("xy", "xy")], 1, 0) == ["<b>", "0 ", "</b>", "x"]
  {
    var cs := [Whole("<b>"), Whole("0 "), Whole("</b>"), Text("xy", "xy")];
    assert cs[1..] == [Whole("0 "), Whole("</b>"), Text("xy", "xy")];
    assert cs[2..] == [Whole("</b>"), Text("xy", "xy")] == cs[1..][1..];
    assert cs[3..] == [Text("xy", "xy")] == cs[2..][1..];
    assert "xy"[..1] == "x";
    EmitCut(cs[3..], 1, 0);
    EmitFits(cs[2..], 1, 0);
    EmitFits(cs[1..], 1, 0);
    EmitFits(cs, 1, 0);
  }

  lemma ZeroTextSpent()
    ensures TextSpent(["<b>", "0 ", "</b>", "x"]) == 2
  {
    ZeroPieceWhole();
    var out := ["<b>", "0 ", "</b>", "x"];
    assert out[1..] == ["0 ", "</b>", "x"] && out[2..] == ["</b>", "x"] && out[3..] == ["x"];
    assert IsTag("<b>") && IsTag("</b>") && !IsTag("x") && Trim("x") == "x";
  }

  /** As written, a text part "0" is dropped as if it were empty. */
  lemma ZeroTextDropped()
    ensures Truncated(["<td>", "0", "</td>"], 1, PhpEmpty) == ["<td>", "</td>"]
    ensures Truncated(["<td>", "0", "</td>"], 1, EmptyString) == ["<td>", "0", "</td>"]
  {
    var parts := ["<td>", "0", "</td>"];
    assert parts[1..] == ["0", "</td>"] && parts[2..] == ["</td>"];
    assert IsTag("<td>") && IsTag("</td>") && !IsTag("0");
    assert Trim("0") == "0";
    assert Classified(parts, PhpEmpty) == [Whole("<td>"), Skip, Whole("</td>")];
    assert Classified(parts, EmptyString) == [Whole("<td>"), Text("0", "0"), Whole("</td>")];
  }

  /**
   * One pass of the truncation loop over `parts[i]` with running length
   * `current`: the text appended to the result, the new running length, and
   * whether the loop stops.
   */
  method TakePart(parts: seq<string>, i: nat, limit: nat, current: nat) returns (out: string, next: nat, stop: bool)
    requires i < |parts| && current <= limit
    ensures next <= limit
    ensures stop ==> Concat(Emit(Classified(parts[i..], EmptyString), limit, current)) == out
    ensures !stop ==>
      Concat(Emit(Classified(parts[i..], EmptyString), limit, current)) == out + Concat(Emit(Classified(parts[i + 1..], EmptyString), limit, next))
  {
    var part := parts[i];
    ghost var rest := Classified(parts[i + 1..], EmptyString);
    ghost var c := Classify(part, EmptyString);
    EmitFrom(parts, i, limit, current);
    out, next, stop := "", current, false;
    if part == "" {
      assert c == Skip;
      assert Lead(c) + Emit(rest, limit, current) == Emit(rest, limit, current);
      assert out + Concat(Emit(rest, limit, current)) == Concat(Emit(rest, limit, current));
      return;
    }
    if IsTag(part) {
      assert c == Whole(part);
      ConcatCons(part, Emit(rest, limit, current));
      out := part;
      return;
    }
    var trimmed := Trim(part);
    if trimmed == "" {
      assert c == Whole(part);
      ConcatCons(part, Emit(rest, limit, current));
      out := part;
      return;
    }
    assert c == Text(part, trimmed);
    if current + |trimmed| > limit {
      var remaining := limit - current;
      if remaining > 0 {
        out := trimmed[..remaining];
        ConcatCons(out, []);
      }
      stop := true;
      return;
    }
    ConcatCons(part, Emit(rest, limit, current + |trimmed|));
    out := part;
    next := current + |trimmed|;
  }

  /** The output from part `i` on, in terms of the piece of part `i` and the pieces after it. */
  lemma EmitFrom(parts: seq<string>, i: nat, limit: nat, used: nat)
    requires i < |parts| && used <= limit
    ensures var c := Classify(parts[i], EmptyString);
      Emit(Classified(parts[i..], EmptyString), limit, used) ==
        if Overflows(c, limit, used) then CutPiece(c, limit - used)
        else Lead(c) + Emit(Classified(parts[i + 1..], EmptyString), limit, used + Spent(c))
  {
    var cs := Classified(parts[i..], EmptyString);
    assert parts[i..][0] == parts[i] && parts[i..][1..] == parts[i + 1..];
    assert cs[0] == Classify(parts[i], EmptyString) && cs[1..] == Classified(parts[i + 1..], EmptyString);
  }

  /** The loop of `paper_wp_truncate_html` over the split parts. */
  method TruncateParts(parts: seq<string>, limit: nat) returns (result: string)
    ensures result == Concat(Truncated(parts, limit, EmptyString))
  {
    result := "";
    var current: nat := 0;
    var i := 0;
    while i < |parts|
      invariant 0 <= i <= |parts| && current <= limit
      invariant result + Concat(Emit(Classified(parts[i..], EmptyString), limit, current)) == Concat(Truncated(parts, limit, EmptyString))
    {
      var out, next, stop := TakePart(parts, i, limit, current);
      ConcatAssoc(result, out, Concat(Emit(Classified(parts[i + 1..], EmptyString), limit, next)));
      result := result + out;
      if stop {
        return;
      }
      current := next;
      i := i + 1;
    }
  }

  /**
   * `paper_wp_truncate_html`: the input when it is empty or its text fits
   * the clamped limit, otherwise the emitted pieces with their tags closed.
   * `stripTags` (`wp_strip_all_tags`) and `closeTags`
   * (`paper_wp_close_html_tags`, a DOM round trip) are parameters.
   */
  method TruncateHtml(html: string, length: int, stripTags: string -> string, closeTags: string -> string)
    returns (r: string)
    ensures EmptyStr(html) || |Trim(stripTags(html))| <= ClampLimit(length) ==> r == html
    ensures !EmptyStr(html) && |Trim(stripTags(html))| > ClampLimit(length) ==>
      r == closeTags(Concat(Truncated(SplitTags(DropXmlDecl(html)), ClampLimit(length), EmptyString)))
  {
    var limit := ClampLimit(length);
    if EmptyStr(html) {
      return html;
    }
    var textLength := |Trim(stripTags(html))|;
    if textLength <= limit {
      return html;
    }
    var result := TruncateParts(SplitTags(DropXmlDecl(html)), limit);
    r := closeTags(result);
  }
}
