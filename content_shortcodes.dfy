/**
 * Shortcode isolation in `Content_Parser_Unified::isolate_shortcodes`
 * (features/content-parser.php). Before any Markdown is parsed, every
 * `[code]...[/code]` shortcode and then, tag by tag, every self-closing
 * and every closed shortcode of nine known tags is swapped for an
 * HTML-comment placeholder, and the matched text is recorded in the
 * shortcode placeholder map. `restore_shortcodes` puts them back.
 *
 * The regular expressions are not modelled: a pass is given by how the
 * matcher cuts a text into unmatched text and matches (`Chunk`s). The
 * matcher is applied to the literal text between the placeholders of
 * earlier passes, so a match never swallows an earlier placeholder.
 */
module ContentShortcodes {
  import opened Util
  import opened Placeholders

  /** The tags isolated after `[code]`, in this order. */
  const Tags: seq<string> := ["alert", "button", "quote", "video", "music", "book", "fullimage", "ai_summary", "heading"]

  /** The patterns of the passes: `[code]...[/code]`, then `[tag ...]` and `[tag ...]...[/tag]` per tag. */
  datatype Pattern = CodePair | SelfClosing(tag: string) | WithClosing(tag: string)

  const PassCount: nat := 1 + 2 * |Tags|

  /** Pass 0 is `[code]`; passes 2t+1 and 2t+2 are the two patterns of tag t. */
  function PassPattern(p: nat): (r: Pattern)
    requires p < PassCount
    ensures p == 0 <==> r.CodePair?
    ensures p > 0 ==> r.tag == Tags[(p - 1) / 2] && (r.SelfClosing? <==> p % 2 == 1)
  {
    if p == 0 then CodePair
    else if p % 2 == 1 then SelfClosing(Tags[(p - 1) / 2])
    else WithClosing(Tags[(p - 1) / 2])
  }

  /** A piece of a matcher's result: unmatched text, or the text of one match. */
  datatype Chunk = Text(s: string) | Found(s: string)

  function ChunkText(c: Chunk): string {
    match c
    case Text(s) => s
    case Found(s) => s
  }

  function Concat(cs: seq<Chunk>): string
    decreases |cs|
  {
    if cs == [] then "" else Concat(cs[..|cs| - 1]) + ChunkText(cs[|cs| - 1])
  }

  /** The matcher cuts every text into chunks that put together give the text back. */
  ghost predicate Segments(matches: (Pattern, string) -> seq<Chunk>) {
    forall pat, t :: Concat(matches(pat, t)) == t
  }

  const CodeShortHead := "<!--SHORTCODE_CODE_"
  const ShortHead := "<!--SHORTCODE_"

  /** The placeholder for a match of a pattern. */
  function ShortMarker(pat: Pattern, id: string): string {
    if pat.CodePair? then Wrap(CodeShortHead, id) else Wrap(ShortHead, id)
  }

  /** The pieces built so far, the shortcode map and the number of `uniqid` values drawn. */
  datatype Iso = Iso(ps: seq<Piece>, entries: seq<Entry>, issued: nat)

  /** `preg_replace_callback` on one literal text: each match is stored under a fresh placeholder. */
  function TakeChunks(st: Iso, cs: seq<Chunk>, pat: Pattern, uniq: nat -> string): Iso
    decreases |cs|
  {
    if cs == [] then st
    else
      var s := TakeChunks(st, cs[..|cs| - 1], pat, uniq);
      match cs[|cs| - 1]
      case Text(t) => s.(ps := s.ps + [Lit(t)])
      case Found(m) =>
        Iso(s.ps + [Hole(|s.entries|)], s.entries + [Entry(ShortMarker(pat, uniq(s.issued)), m)], s.issued + 1)
  }

  /** One pass over the pieces: literal text is matched, earlier placeholders are kept. */
  function PassPieces(st: Iso, ps: seq<Piece>, pat: Pattern, matches: (Pattern, string) -> seq<Chunk>, uniq: nat -> string): Iso
    decreases |ps|
  {
    if ps == [] then st
    else
      var s := PassPieces(st, ps[..|ps| - 1], pat, matches, uniq);
      match ps[|ps| - 1]
      case Hole(k) => s.(ps := s.ps + [Hole(k)])
      case Lit(t) => TakeChunks(s, matches(pat, t), pat, uniq)
  }

  function RunPass(st: Iso, pat: Pattern, matches: (Pattern, string) -> seq<Chunk>, uniq: nat -> string): Iso {
    PassPieces(Iso([], st.entries, st.issued), st.ps, pat, matches, uniq)
  }

  /** The first `n` passes. */
  function Passes(st: Iso, n: nat, matches: (Pattern, string) -> seq<Chunk>, uniq: nat -> string): Iso
    requires n <= PassCount
  {
    if n == 0 then st else RunPass(Passes(st, n - 1, matches, uniq), PassPattern(n - 1), matches, uniq)
  }

  /** The two passes of tag `t` follow the passes before them. */
  lemma PassesOfTag(st: Iso, t: nat, matches: (Pattern, string) -> seq<Chunk>, uniq: nat -> string)
    requires t < |Tags|
    ensures Passes(st, 1 + 2 * (t + 1), matches, uniq) ==
      RunPass(RunPass(Passes(st, 1 + 2 * t, matches, uniq), SelfClosing(Tags[t]), matches, uniq),
              WithClosing(Tags[t]), matches, uniq)
  {
    assert PassPattern(1 + 2 * t) == SelfClosing(Tags[t]);
    assert PassPattern(2 + 2 * t) == WithClosing(Tags[t]);
  }

  /** `isolate_shortcodes` on a content, from the map and `uniqid` count it starts with. */
  function IsolateShortcodes(content: string, entries: seq<Entry>, issued: nat,
                             matches: (Pattern, string) -> seq<Chunk>, uniq: nat -> string): Iso {
    Passes(Iso([Lit(content)], entries, issued), PassCount, matches, uniq)
  }

  /** The text as PHP holds it: every isolated shortcode shows its placeholder. */
  function IsolatedText(st: Iso): string
    requires KeysIn(st.ps, |st.entries|)
  {
    Partial(st.ps, st.entries, 0)
  }

  // ---------------------------------------------------------------------
  // Nothing is lost

  /** `st` grew from `st0`: the map only grows, and restored, the new pieces read as `text`. */
  predicate Grew(st0: Iso, st: Iso, text: string) {
    KeysIn(st0.ps, |st0.entries|) &&
    |st0.entries| <= |st.entries| && st.entries[..|st0.entries|] == st0.entries &&
    st0.issued <= st.issued &&
    KeysIn(st.ps, |st.entries|) && Restored(st.ps, st.entries) == Restored(st0.ps, st0.entries) + text
  }

  lemma GrewLit(st0: Iso, s: Iso, text: string, t: string)
    requires Grew(st0, s, text)
    ensures Grew(st0, s.(ps := s.ps + [Lit(t)]), text + t)
  {
    PartialAppend(s.ps, Lit(t), s.entries, |s.entries|);
  }

  lemma GrewHole(st0: Iso, s: Iso, text: string, k: nat)
    requires Grew(st0, s, text) && k < |s.entries|
    ensures Grew(st0, s.(ps := s.ps + [Hole(k)]), text + s.entries[k].text)
  {
    PartialAppend(s.ps, Hole(k), s.entries, |s.entries|);
  }

  lemma GrewEntry(st0: Iso, s: Iso, text: string, e: Entry)
    requires Grew(st0, s, text)
    ensures Grew(st0, Iso(s.ps + [Hole(|s.entries|)], s.entries + [e], s.issued + 1), text + e.text)
  {
    var es := s.entries + [e];
    RestoredExtend(s.ps, s.entries, es);
    PartialAppend(s.ps, Hole(|s.entries|), es, |es|);
    assert es[..|st0.entries|] == s.entries[..|st0.entries|];
  }

  lemma {:induction false} TakeChunksGrew(st0: Iso, st: Iso, text: string, cs: seq<Chunk>, pat: Pattern, uniq: nat -> string)
    requires Grew(st0, st, text)
    ensures Grew(st0, TakeChunks(st, cs, pat, uniq), text + Concat(cs))
    decreases |cs|
  {
    if cs == [] {
      assert text + "" == text;
    } else {
      var init := cs[..|cs| - 1];
      TakeChunksGrew(st0, st, text, init, pat, uniq);
      var s := TakeChunks(st, init, pat, uniq);
      assert text + Concat(cs) == (text + Concat(init)) + ChunkText(cs[|cs| - 1]);
      match cs[|cs| - 1]
      case Text(t) => GrewLit(st0, s, text + Concat(init), t);
      case Found(m) => GrewEntry(st0, s, text + Concat(init), Entry(ShortMarker(pat, uniq(s.issued)), m));
    }
  }

  lemma {:induction false} PassPiecesGrew(st0: Iso, ps: seq<Piece>, entries: seq<Entry>, pat: Pattern,
                                          matches: (Pattern, string) -> seq<Chunk>, uniq: nat -> string)
    requires Segments(matches) && KeysIn(ps, |st0.entries|) && KeysIn(st0.ps, |st0.entries|)
    requires entries == st0.entries
    ensures Grew(st0, PassPieces(st0, ps, pat, matches, uniq), Partial(ps, entries, |entries|))
    decreases |ps|
  {
    if ps == [] {
      assert st0.entries[..|st0.entries|] == st0.entries;
      assert Restored(st0.ps, st0.entries) + "" == Restored(st0.ps, st0.entries);
    } else {
      var init := ps[..|ps| - 1];
      var x := ps[|ps| - 1];
      assert KeysIn(init, |entries|);
      PassPiecesGrew(st0, init, entries, pat, matches, uniq);
      var s := PassPieces(st0, init, pat, matches, uniq);
      var text := Partial(init, entries, |entries|);
      assert init + [x] == ps;
      PartialAppend(init, x, entries, |entries|);
      match x
      case Hole(k) =>
        assert s.entries[k] == s.entries[..|entries|][k];
        GrewHole(st0, s, text, k);
      case Lit(t) =>
        assert Concat(matches(pat, t)) == t;
        TakeChunksGrew(st0, s, text, matches(pat, t), pat, uniq);
    }
  }

  /** `st'` keeps the map's earlier entries and the restored text of `st`. */
  predicate Kept(st: Iso, st': Iso) {
    KeysIn(st.ps, |st.entries|) && KeysIn(st'.ps, |st'.entries|) && |st.entries| <= |st'.entries| && st'.entries[..|st.entries|] == st.entries &&
    st.issued <= st'.issued && Restored(st'.ps, st'.entries) == Restored(st.ps, st.entries)
  }

  lemma KeptTrans(a: Iso, b: Iso, c: Iso)
    requires Kept(a, b) && Kept(b, c)
    ensures Kept(a, c)
  {
    assert c.entries[..|a.entries|] == c.entries[..|b.entries|][..|a.entries|];
  }

  /** A pass keeps the map's earlier entries and the restored text. */
  lemma RunPassKeeps(st: Iso, pat: Pattern, matches: (Pattern, string) -> seq<Chunk>, uniq: nat -> string)
    requires Segments(matches) && KeysIn(st.ps, |st.entries|)
    ensures Kept(st, RunPass(st, pat, matches, uniq))
  {
    var st0 := Iso([], st.entries, st.issued);
    PassPiecesGrew(st0, st.ps, st.entries, pat, matches, uniq);
  }

  lemma {:induction false} PassesKeep(st: Iso, n: nat, matches: (Pattern, string) -> seq<Chunk>, uniq: nat -> string)
    requires n <= PassCount && Segments(matches) && KeysIn(st.ps, |st.entries|)
    ensures Kept(st, Passes(st, n, matches, uniq))
  {
    if n == 0 {
      assert st.entries[..|st.entries|] == st.entries;
    } else {
      PassesKeep(st, n - 1, matches, uniq);
      var mid := Passes(st, n - 1, matches, uniq);
      RunPassKeeps(mid, PassPattern(n - 1), matches, uniq);
      KeptTrans(st, mid, RunPass(mid, PassPattern(n - 1), matches, uniq));
    }
  }

  /**
   * With the shortcodes isolated, restoring every placeholder (ignoring
   * the map's earlier entries) reads as the original content: every
   * isolated match is recorded with exactly its text.
   */
  lemma IsolateShortcodesKeeps(content: string, entries: seq<Entry>, issued: nat,
                               matches: (Pattern, string) -> seq<Chunk>, uniq: nat -> string)
    requires Segments(matches)
    ensures var st := IsolateShortcodes(content, entries, issued, matches, uniq);
      KeysIn(st.ps, |st.entries|) && |entries| <= |st.entries| && st.entries[..|entries|] == entries &&
      issued <= st.issued && Restored(st.ps, st.entries) == content
  {
    var st0 := Iso([Lit(content)], entries, issued);
    assert Restored(st0.ps, st0.entries) == content by {
      assert [Lit(content)][1..] == [];
      assert Partial([], entries, |entries|) == "";
      assert content + "" == content;
    }
    PassesKeep(st0, PassCount, matches, uniq);
  }

  // ---------------------------------------------------------------------
  // Fresh, distinct markers

  /** The marker carries one of the first `hi` ids. */
  ghost predicate DrawnOne(e: Entry, hi: nat, uniq: nat -> string) {
    exists j, pat :: 0 <= j < hi && e.marker == ShortMarker(pat, uniq(j))
  }

  ghost predicate Fresh(st: Iso, uniq: nat -> string) {
    DistinctMarkers(st.entries) && forall k :: 0 <= k < |st.entries| ==> DrawnOne(st.entries[k], st.issued, uniq)
  }

  /** A `[code]` marker never equals a marker of the other passes. */
  lemma KindsDiffer(a: string, b: string)
    requires HexId(b)
    ensures Wrap(CodeShortHead, a) != Wrap(ShortHead, b)
  {
    assert Wrap(CodeShortHead, a)[14] == 'C';
    assert Wrap(ShortHead, b)[14] == b[0];
    assert HexDigit(b[0]);
  }

  /** Equal shortcode markers come from the same kind of pass and the same id. */
  lemma ShortMarkerInjective(p: Pattern, a: string, q: Pattern, b: string)
    requires HexId(a) && HexId(b)
    ensures ShortMarker(p, a) == ShortMarker(q, b) ==> a == b && p.CodePair? == q.CodePair?
  {
    if p.CodePair? && !q.CodePair? {
      KindsDiffer(a, b);
    } else if !p.CodePair? && q.CodePair? {
      KindsDiffer(b, a);
    } else if ShortMarker(p, a) == ShortMarker(q, b) {
      WrapInjective(if p.CodePair? then CodeShortHead else ShortHead, a, b);
    }
  }

  lemma ShortMarkerWellFormed(pat: Pattern, id: string)
    requires HexId(id)
    ensures Marker(ShortMarker(pat, id))
  {
    if pat.CodePair? {
      WrapWellFormed(CodeShortHead, id);
    } else {
      WrapWellFormed(ShortHead, id);
    }
  }

  lemma AddFresh(s: Iso, e: Entry, pat: Pattern, uniq: nat -> string)
    requires Injective(uniq) && IdValues(uniq) && Fresh(s, uniq)
    requires e.marker == ShortMarker(pat, uniq(s.issued))
    ensures Fresh(Iso(s.ps + [Hole(|s.entries|)], s.entries + [e], s.issued + 1), uniq)
  {
    var es := s.entries + [e];
    assert HexId(uniq(s.issued));
    ShortMarkerWellFormed(pat, uniq(s.issued));
    forall k | 0 <= k < |s.entries| ensures es[k].marker != e.marker {
      assert DrawnOne(s.entries[k], s.issued, uniq);
      var j, q :| 0 <= j < s.issued && s.entries[k].marker == ShortMarker(q, uniq(j));
      assert HexId(uniq(j));
      ShortMarkerInjective(q, uniq(j), pat, uniq(s.issued));
      assert uniq(j) != uniq(s.issued);
    }
    forall k | 0 <= k < |es| ensures DrawnOne(es[k], s.issued + 1, uniq) {
      if k < |s.entries| {
        assert es[k] == s.entries[k];
        assert DrawnOne(s.entries[k], s.issued, uniq);
      } else {
        assert es[k].marker == ShortMarker(pat, uniq(s.issued));
      }
    }
  }

  lemma {:induction false} TakeChunksFresh(st: Iso, cs: seq<Chunk>, pat: Pattern, uniq: nat -> string)
    requires Injective(uniq) && IdValues(uniq) && Fresh(st, uniq)
    ensures Fresh(TakeChunks(st, cs, pat, uniq), uniq)
    decreases |cs|
  {
    if cs != [] {
      TakeChunksFresh(st, cs[..|cs| - 1], pat, uniq);
      var s := TakeChunks(st, cs[..|cs| - 1], pat, uniq);
      if cs[|cs| - 1].Found? {
        AddFresh(s, Entry(ShortMarker(pat, uniq(s.issued)), cs[|cs| - 1].s), pat, uniq);
      }
    }
  }

  lemma {:induction false} PassPiecesFresh(st: Iso, ps: seq<Piece>, pat: Pattern,
                                           matches: (Pattern, string) -> seq<Chunk>, uniq: nat -> string)
    requires Injective(uniq) && IdValues(uniq) && Fresh(st, uniq)
    ensures Fresh(PassPieces(st, ps, pat, matches, uniq), uniq)
    decreases |ps|
  {
    if ps != [] {
      PassPiecesFresh(st, ps[..|ps| - 1], pat, matches, uniq);
      var s := PassPieces(st, ps[..|ps| - 1], pat, matches, uniq);
      if ps[|ps| - 1].Lit? {
        TakeChunksFresh(s, matches(pat, ps[|ps| - 1].s), pat, uniq);
      }
    }
  }

  lemma {:induction false} PassesFresh(st: Iso, n: nat, matches: (Pattern, string) -> seq<Chunk>, uniq: nat -> string)
    requires n <= PassCount && Injective(uniq) && IdValues(uniq) && Fresh(st, uniq)
    ensures Fresh(Passes(st, n, matches, uniq), uniq)
  {
    if n > 0 {
      PassesFresh(st, n - 1, matches, uniq);
      var mid := Passes(st, n - 1, matches, uniq);
      PassPiecesFresh(Iso([], mid.entries, mid.issued), mid.ps, PassPattern(n - 1), matches, uniq);
    }
  }

  /**
   * `restore_shortcodes` right after `isolate_shortcodes`, starting from
   * an empty map, gives back the content, provided the content holds no
   * `<!--SHORTCODE_` text of its own.
   */
  lemma ShortcodeRoundTrip(content: string, issued: nat,
                           matches: (Pattern, string) -> seq<Chunk>, uniq: nat -> string)
    requires Segments(matches) && Injective(uniq) && IdValues(uniq)
    requires !Contains(content, ShortHead)
    ensures var st := IsolateShortcodes(content, [], issued, matches, uniq);
      KeysIn(st.ps, |st.entries|) && DistinctMarkers(st.entries) &&
      RestoreAll(IsolatedText(st), st.entries) == content
  {
    var st := IsolateShortcodes(content, [], issued, matches, uniq);
    IsolateShortcodesKeeps(content, [], issued, matches, uniq);
    PassesFresh(Iso([Lit(content)], [], issued), PassCount, matches, uniq);
    forall k | 0 <= k < |st.entries| ensures !Contains(Restored(st.ps, st.entries), st.entries[k].marker) {
      assert DrawnOne(st.entries[k], st.issued, uniq);
      var j, pat :| 0 <= j < st.issued && st.entries[k].marker == ShortMarker(pat, uniq(j));
      if pat.CodePair? {
        assert CodeShortHead == ShortHead + "CODE_";
        if Contains(content, CodeShortHead) {
          var i :| 0 <= i <= |content| && OccursAt(content, CodeShortHead, i);
          assert content[i..i + |ShortHead|] == CodeShortHead[..|ShortHead|];
          ContainsWitness(content, ShortHead, i);
        }
        NoWrapWithoutHead(content, CodeShortHead, uniq(j));
      } else {
        NoWrapWithoutHead(content, ShortHead, uniq(j));
      }
    }
    RestoreRoundTrip(st.ps, st.entries);
  }
}
