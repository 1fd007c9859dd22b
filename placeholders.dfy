/**
 * The placeholder technique the content parser uses twice: parts of the
 * text are swapped for HTML-comment markers such as
 * `<!--CODEBLOCK_5f1a...-->`, the marker and the text it stands for are
 * recorded in an ordered map, and at the end every marker is put back
 * with `str_replace`, one map entry after the other.
 *
 * The text is described as a list of pieces: literal text, and holes
 * that refer to a map entry by key. `Partial(ps, entries, m)` is the
 * text while the entries before `m` have been put back and the others
 * still show their markers; `Partial(ps, entries, 0)` is the isolated
 * text and `Partial(ps, entries, |entries|)` the fully restored one.
 */
module Placeholders {
  import opened Util

  /** A marker starts with `<`, ends with `>`, and has neither in between. */
  predicate Marker(q: string) {
    |q| >= 2 && q[0] == '<' && q[|q| - 1] == '>' &&
    forall i :: 0 < i < |q| - 1 ==> q[i] != '<' && q[i] != '>'
  }

  /** One entry of the placeholder map: the marker and the text it stands for. */
  datatype Entry = Entry(marker: string, text: string)

  /** The markers are well formed and pairwise distinct. */
  predicate DistinctMarkers(entries: seq<Entry>) {
    (forall k :: 0 <= k < |entries| ==> Marker(entries[k].marker)) &&
    (forall j, k :: 0 <= j < k < |entries| ==> entries[j].marker != entries[k].marker)
  }

  datatype Piece = Lit(s: string) | Hole(key: nat)

  predicate KeysIn(ps: seq<Piece>, n: nat) {
    forall i :: 0 <= i < |ps| ==> (ps[i].Hole? ==> ps[i].key < n)
  }

  /** How one piece reads while the entries before `m` have been put back. */
  function Show(pc: Piece, entries: seq<Entry>, m: nat): string
    requires pc.Hole? ==> pc.key < |entries|
  {
    match pc
    case Lit(s) => s
    case Hole(k) => if k < m then entries[k].text else entries[k].marker
  }

  /** The text with the entries before `m` put back and the later ones still as markers. */
  function Partial(ps: seq<Piece>, entries: seq<Entry>, m: nat): string
    requires KeysIn(ps, |entries|)
    decreases |ps|
  {
    if ps == [] then "" else Show(ps[0], entries, m) + Partial(ps[1..], entries, m)
  }

  /** The fully restored text. */
  function Restored(ps: seq<Piece>, entries: seq<Entry>): string
    requires KeysIn(ps, |entries|)
  {
    Partial(ps, entries, |entries|)
  }

  /** `restore_*`: `str_replace` of every marker by its text, in map order. */
  function RestoreAll(s: string, entries: seq<Entry>): string
    decreases |entries|
  {
    if entries == [] then s
    else RestoreAll(ReplaceAll(s, entries[0].marker, entries[0].text), entries[1..])
  }

  // ---------------------------------------------------------------------
  // How str_replace of a marker acts on text around other markers

  /** A window that does not match lets `str_replace` copy one character and move on. */
  lemma CopyStep(s: string, p: string, t: string)
    requires |p| > 0 && |s| >= |p| && s[..|p|] != p
    ensures ReplaceAll(s, p, t) == [s[0]] + ReplaceAll(s[1..], p, t)
  {
  }

  /** A window that matches is replaced, and the scan goes on after it. */
  lemma MatchStep(s: string, p: string, t: string)
    requires |p| > 0 && |s| >= |p| && s[..|p|] == p
    ensures ReplaceAll(s, p, t) == t + ReplaceAll(s[|p|..], p, t)
  {
  }

  /** Text shorter than the marker is copied as it is. */
  lemma ShortCopy(s: string, p: string, t: string)
    requires |p| > 0 && |s| < |p|
    ensures ReplaceAll(s, p, t) == s
  {
  }

  /** Text that does not start a marker can be copied one character at a time. */
  lemma {:induction false} NoMarkerStartCopies(z: string, r: string, p: string, t: string)
    requires Marker(p) && forall i :: 0 <= i < |z| ==> z[i] != '<'
    ensures ReplaceAll(z + r, p, t) == z + ReplaceAll(r, p, t)
    decreases |z|
  {
    if z == [] {
      assert z + r == r;
    } else if |z + r| < |p| {
      ShortCopy(z + r, p, t);
      ShortCopy(r, p, t);
    } else {
      var s := z + r;
      assert s[..|p|][0] == z[0] != p[0];
      CopyStep(s, p, t);
      assert s[1..] == z[1..] + r;
      NoMarkerStartCopies(z[1..], r, p, t);
      ConcatAssoc([z[0]], z[1..], ReplaceAll(r, p, t));
      assert [z[0]] + z[1..] == z;
    }
  }

  /** Replacing marker `p` in text that begins with marker `q` leaves `q` alone unless it is `p`. */
  lemma MarkerHead(q: string, r: string, p: string, t: string)
    requires Marker(p) && Marker(q)
    ensures ReplaceAll(q + r, p, t) == (if q == p then t else q) + ReplaceAll(r, p, t)
  {
    if q == p {
      SameMarkerHead(q, r, t);
    } else {
      OtherMarkerHead(q, r, p, t);
    }
  }

  lemma SameMarkerHead(p: string, r: string, t: string)
    requires Marker(p)
    ensures ReplaceAll(p + r, p, t) == t + ReplaceAll(r, p, t)
  {
    var s := p + r;
    assert s[..|p|] == p;
    assert s[|p|..] == r;
  }

  lemma OtherMarkerHead(q: string, r: string, p: string, t: string)
    requires Marker(p) && Marker(q) && q != p
    ensures ReplaceAll(q + r, p, t) == q + ReplaceAll(r, p, t)
  {
    var s := q + r;
    if |s| < |p| {
      ShortCopy(s, p, t);
      ShortCopy(r, p, t);
    } else {
      assert s[..|p|] != p by { OtherMarkerWindow(q, r, p); }
      assert s[1..] == q[1..] + r;
      assert ReplaceAll(s[1..], p, t) == q[1..] + ReplaceAll(r, p, t) by {
        NoMarkerStartCopies(q[1..], r, p, t);
      }
      CopyStep(s, p, t);
      ConcatAssoc([q[0]], q[1..], ReplaceAll(r, p, t));
      assert [q[0]] + q[1..] == q;
    }
  }

  /** A marker other than `p` at the front of the text keeps `p` from matching there. */
  lemma OtherMarkerWindow(q: string, r: string, p: string)
    requires Marker(p) && Marker(q) && q != p && |q + r| >= |p|
    ensures (q + r)[..|p|] != p
  {
    var w := (q + r)[..|p|];
    if |q| == |p| {
      assert w == q;
    } else if |q| > |p| {
      assert w[|p| - 1] == q[|p| - 1];
    } else {
      assert w[|q| - 1] == q[|q| - 1];
    }
  }

  /** `str_replace` of a marker distributes over a cut that lies just before a `<`. */
  lemma {:induction false} SplitBeforeMarker(x: string, y: string, p: string, t: string)
    requires Marker(p) && (y == [] || y[0] == '<')
    ensures ReplaceAll(x + y, p, t) == ReplaceAll(x, p, t) + ReplaceAll(y, p, t)
    decreases |x|
  {
    if x == [] {
      assert x + y == y;
    } else if |x + y| < |p| {
      ShortCopy(x + y, p, t);
      ShortCopy(x, p, t);
      ShortCopy(y, p, t);
    } else if |x| >= |p| && x[..|p|] == p {
      SplitBeforeMarker(x[|p|..], y, p, t);
      SplitAfterMatch(x, y, p, t);
    } else {
      SplitBeforeMarker(x[1..], y, p, t);
      SplitAfterCopy(x, y, p, t);
    }
  }

  /** The step of `SplitBeforeMarker` where the marker matches at the front of `x`. */
  lemma SplitAfterMatch(x: string, y: string, p: string, t: string)
    requires |p| > 0 && |x| >= |p| && x[..|p|] == p
    requires ReplaceAll(x[|p|..] + y, p, t) == ReplaceAll(x[|p|..], p, t) + ReplaceAll(y, p, t)
    ensures ReplaceAll(x + y, p, t) == ReplaceAll(x, p, t) + ReplaceAll(y, p, t)
  {
    var s := x + y;
    var a, b := ReplaceAll(x[|p|..], p, t), ReplaceAll(y, p, t);
    assert ReplaceAll(s, p, t) == t + (a + b) by {
      assert s[..|p|] == p;
      assert s[|p|..] == x[|p|..] + y;
      MatchStep(s, p, t);
    }
    assert ReplaceAll(x, p, t) == t + a by { MatchStep(x, p, t); }
    ConcatAssoc(t, a, b);
  }

  /** The step of `SplitBeforeMarker` where the first character of `x` is copied. */
  lemma SplitAfterCopy(x: string, y: string, p: string, t: string)
    requires Marker(p) && (y == [] || y[0] == '<') && x != [] && |x + y| >= |p|
    requires !(|x| >= |p| && x[..|p|] == p)
    requires ReplaceAll(x[1..] + y, p, t) == ReplaceAll(x[1..], p, t) + ReplaceAll(y, p, t)
    ensures ReplaceAll(x + y, p, t) == ReplaceAll(x, p, t) + ReplaceAll(y, p, t)
  {
    CopyFrontJoined(x, y, p, t);
    CopyFrontAlone(x, p, t);
    ConcatAssoc([x[0]], ReplaceAll(x[1..], p, t), ReplaceAll(y, p, t));
  }

  /** Before a cut at a `<`, a front character that does not start the marker is copied. */
  lemma CopyFrontJoined(x: string, y: string, p: string, t: string)
    requires Marker(p) && (y == [] || y[0] == '<') && x != [] && |x + y| >= |p|
    requires !(|x| >= |p| && x[..|p|] == p)
    ensures ReplaceAll(x + y, p, t) == [x[0]] + ReplaceAll(x[1..] + y, p, t)
  {
    var s := x + y;
    assert s[1..] == x[1..] + y;
    if |x| >= |p| {
      assert s[..|p|] == x[..|p|];
    } else {
      // The window at the start reaches into `y`, whose `<` cannot sit inside a marker.
      assert s[..|p|][|x|] == y[0];
    }
    CopyStep(s, p, t);
  }

  lemma CopyFrontAlone(x: string, p: string, t: string)
    requires |p| > 0 && x != [] && !(|x| >= |p| && x[..|p|] == p)
    ensures ReplaceAll(x, p, t) == [x[0]] + ReplaceAll(x[1..], p, t)
  {
    if |x| >= |p| {
      CopyStep(x, p, t);
    } else {
      ShortCopy(x, p, t);
      ShortCopy(x[1..], p, t);
      assert [x[0]] + x[1..] == x;
    }
  }

  // ---------------------------------------------------------------------
  // One restoration step

  lemma NotInPrefix(a: string, b: string, p: string)
    requires !Contains(a + b, p)
    ensures !Contains(a, p)
  {
    if Contains(a, p) {
      var i :| 0 <= i <= |a| && OccursAt(a, p, i);
      assert (a + b)[i..i + |p|] == a[i..i + |p|];
      ContainsWitness(a + b, p, i);
    }
  }

  lemma NotInSuffix(a: string, b: string, p: string)
    requires !Contains(a + b, p)
    ensures !Contains(b, p)
  {
    if Contains(b, p) {
      assert (a + b)[|a|..] == b;
      ContainsSuffix(a + b, p, |a|);
    }
  }

  /** The step when the first piece is a hole whose marker is still in the text. */
  lemma RestoreStepHole(lit: string, ps: seq<Piece>, entries: seq<Entry>, m: nat)
    requires DistinctMarkers(entries) && m < |entries| && KeysIn(ps, |entries|)
    requires ps != [] && ps[0].Hole? && ps[0].key >= m
    requires !Contains(lit + Partial(ps, entries, |entries|), entries[m].marker)
    requires ReplaceAll(Partial(ps[1..], entries, m), entries[m].marker, entries[m].text)
          == Partial(ps[1..], entries, m + 1)
    ensures ReplaceAll(lit + Partial(ps, entries, m), entries[m].marker, entries[m].text)
         == lit + Partial(ps, entries, m + 1)
  {
    var p, t, k := entries[m].marker, entries[m].text, ps[0].key;
    var q := entries[k].marker;
    var rest := Partial(ps[1..], entries, m);
    assert lit + Partial(ps, entries, m) == lit + (q + rest);
    SplitBeforeMarker(lit, q + rest, p, t);
    NotInPrefix(lit, Partial(ps, entries, |entries|), p);
    ReplaceAllAbsent(lit, p, t);
    MarkerHead(q, rest, p, t);
    if k == m {
      assert q == p;
    } else {
      assert q != p;
    }
  }

  lemma PartialCons(ps: seq<Piece>, entries: seq<Entry>, m: nat)
    requires KeysIn(ps, |entries|) && ps != []
    ensures KeysIn(ps[1..], |entries|)
    ensures Partial(ps, entries, m) == Show(ps[0], entries, m) + Partial(ps[1..], entries, m)
  {
  }

  /** A first piece that already shows its final text reads the same before and after step `m`. */
  lemma PartialSettled(lit: string, ps: seq<Piece>, entries: seq<Entry>, m: nat)
    requires m < |entries| && KeysIn(ps, |entries|)
    requires ps != [] && (ps[0].Lit? || ps[0].key < m)
    ensures KeysIn(ps[1..], |entries|)
    ensures lit + Partial(ps, entries, m) == (lit + Show(ps[0], entries, m)) + Partial(ps[1..], entries, m)
    ensures lit + Partial(ps, entries, m + 1) == (lit + Show(ps[0], entries, m)) + Partial(ps[1..], entries, m + 1)
  {
    var hd := Show(ps[0], entries, m);
    PartialCons(ps, entries, m);
    PartialCons(ps, entries, m + 1);
    assert Show(ps[0], entries, m + 1) == hd;
    ConcatAssoc(lit, hd, Partial(ps[1..], entries, m));
    ConcatAssoc(lit, hd, Partial(ps[1..], entries, m + 1));
  }

  lemma ReplaceAllCongruence(a: string, a': string, b: string, b': string, p: string, t: string)
    requires a == a' && b == b' && ReplaceAll(a', p, t) == b'
    ensures ReplaceAll(a, p, t) == b
  {
  }

  lemma {:induction false} RestoreStepFrom(lit: string, ps: seq<Piece>, entries: seq<Entry>, m: nat)
    requires DistinctMarkers(entries) && m < |entries| && KeysIn(ps, |entries|)
    requires !Contains(lit + Partial(ps, entries, |entries|), entries[m].marker)
    ensures ReplaceAll(lit + Partial(ps, entries, m), entries[m].marker, entries[m].text)
         == lit + Partial(ps, entries, m + 1)
    decreases |ps|
  {
    var p, t, n := entries[m].marker, entries[m].text, |entries|;
    if ps == [] {
      assert lit + "" == lit;
      ReplaceAllAbsent(lit, p, t);
    } else {
      PartialCons(ps, entries, n);
      var whole := lit + Partial(ps, entries, n);
      var hd := Show(ps[0], entries, n);
      assert whole == (lit + hd) + Partial(ps[1..], entries, n);
      if ps[0].Lit? || ps[0].key < m {
        assert Show(ps[0], entries, m) == hd;
        RestoreStepFrom(lit + hd, ps[1..], entries, m);
        PartialSettled(lit, ps, entries, m);
        ReplaceAllCongruence(lit + Partial(ps, entries, m), (lit + hd) + Partial(ps[1..], entries, m),
                             lit + Partial(ps, entries, m + 1), (lit + hd) + Partial(ps[1..], entries, m + 1), p, t);
      } else {
        NotInSuffix(lit + hd, Partial(ps[1..], entries, n), p);
        assert "" + Partial(ps[1..], entries, n) == Partial(ps[1..], entries, n);
        RestoreStepFrom("", ps[1..], entries, m);
        assert "" + Partial(ps[1..], entries, m) == Partial(ps[1..], entries, m);
        assert "" + Partial(ps[1..], entries, m + 1) == Partial(ps[1..], entries, m + 1);
        RestoreStepHole(lit, ps, entries, m);
      }
    }
  }

  /**
   * The round trip: restoring every entry, in map order, turns the
   * isolated text into the fully restored text, provided no marker
   * already occurs in the restored text.
   */
  lemma {:induction false} RestoreRoundTrip(ps: seq<Piece>, entries: seq<Entry>)
    requires DistinctMarkers(entries) && KeysIn(ps, |entries|)
    requires forall k :: 0 <= k < |entries| ==> !Contains(Restored(ps, entries), entries[k].marker)
    ensures RestoreAll(Partial(ps, entries, 0), entries) == Restored(ps, entries)
  {
    RestoreFrom(ps, entries, 0);
  }

  lemma {:induction false} RestoreFrom(ps: seq<Piece>, entries: seq<Entry>, m: nat)
    requires DistinctMarkers(entries) && KeysIn(ps, |entries|) && m <= |entries|
    requires forall k :: 0 <= k < |entries| ==> !Contains(Restored(ps, entries), entries[k].marker)
    ensures RestoreAll(Partial(ps, entries, m), entries[m..]) == Restored(ps, entries)
    decreases |entries| - m
  {
    if m < |entries| {
      assert "" + Partial(ps, entries, |entries|) == Restored(ps, entries);
      RestoreStepFrom("", ps, entries, m);
      assert "" + Partial(ps, entries, m) == Partial(ps, entries, m);
      assert "" + Partial(ps, entries, m + 1) == Partial(ps, entries, m + 1);
      assert entries[m..][1..] == entries[m + 1..];
      RestoreFrom(ps, entries, m + 1);
    } else {
      assert entries[m..] == [];
    }
  }

  // ---------------------------------------------------------------------
  // Building the pieces one at a time

  /** Reading the pieces with one more piece at the end. */
  lemma {:induction false} PartialAppend(ps: seq<Piece>, x: Piece, entries: seq<Entry>, m: nat)
    requires KeysIn(ps, |entries|) && (x.Hole? ==> x.key < |entries|)
    ensures KeysIn(ps + [x], |entries|)
    ensures Partial(ps + [x], entries, m) == Partial(ps, entries, m) + Show(x, entries, m)
    decreases |ps|
  {
    if ps == [] {
      assert [] + [x] == [x];
      assert [x][1..] == [];
    } else {
      assert (ps + [x])[1..] == ps[1..] + [x];
      PartialAppend(ps[1..], x, entries, m);
    }
  }

  /** Entries added to the map later do not change how the earlier pieces read once restored. */
  lemma {:induction false} RestoredExtend(ps: seq<Piece>, entries: seq<Entry>, more: seq<Entry>)
    requires KeysIn(ps, |entries|) && |entries| <= |more| && more[..|entries|] == entries
    ensures KeysIn(ps, |more|)
    ensures Restored(ps, more) == Restored(ps, entries)
    ensures Partial(ps, more, 0) == Partial(ps, entries, 0)
    decreases |ps|
  {
    if ps != [] {
      RestoredExtend(ps[1..], entries, more);
      if ps[0].Hole? {
        assert more[ps[0].key] == more[..|entries|][ps[0].key];
      }
      calc {
        Partial(ps, more, |more|);
        Show(ps[0], more, |more|) + Partial(ps[1..], more, |more|);
        Show(ps[0], entries, |entries|) + Partial(ps[1..], entries, |entries|);
      }
    }
  }

  // ---------------------------------------------------------------------
  // `uniqid` values

  /** No two draws of `uniqid` give the same value. */
  ghost predicate Injective(uniq: nat -> string) {
    forall i, j :: i != j ==> uniq(i) != uniq(j)
  }

  /** A `uniqid` value: lower-case hexadecimal digits. */
  predicate HexId(id: string) {
    |id| > 0 && forall i :: 0 <= i < |id| ==> HexDigit(id[i])
  }

  predicate HexDigit(c: char) {
    '0' <= c <= '9' || 'a' <= c <= 'f'
  }

  ghost predicate IdValues(uniq: nat -> string) {
    forall n :: HexId(uniq(n))
  }

  /** A marker made of a fixed head, an id and `-->`. */
  function Wrap(head: string, id: string): string {
    head + id + "-->"
  }

  /** With the head fixed, the marker gives back its id. */
  lemma WrapInjective(head: string, a: string, b: string)
    requires Wrap(head, a) == Wrap(head, b)
    ensures a == b
  {
    assert a == Wrap(head, a)[|head|..|Wrap(head, a)| - 3];
    assert b == Wrap(head, b)[|head|..|Wrap(head, b)| - 3];
  }

  /** A head that starts with `<` and holds no other angle bracket gives well-formed markers. */
  lemma WrapWellFormed(head: string, id: string)
    requires |head| >= 1 && head[0] == '<' && forall i :: 0 < i < |head| ==> head[i] != '<' && head[i] != '>'
    requires HexId(id)
    ensures Marker(Wrap(head, id))
  {
    var q := Wrap(head, id);
    forall i | 0 < i < |q| - 1 ensures q[i] != '<' && q[i] != '>' {
      if i < |head| {
        assert q[i] == head[i];
      } else if i < |head| + |id| {
        assert q[i] == id[i - |head|];
      }
    }
  }

  /** A text without the head of the markers contains none of them. */
  lemma NoWrapWithoutHead(s: string, head: string, id: string)
    requires !Contains(s, head)
    ensures !Contains(s, Wrap(head, id))
  {
    if Contains(s, Wrap(head, id)) {
      var i :| 0 <= i <= |s| && OccursAt(s, Wrap(head, id), i);
      assert s[i..i + |head|] == Wrap(head, id)[..|head|];
      ContainsWitness(s, head, i);
    }
  }
}
