/**
 * The shape shared by the content parser's table, task-list, list and
 * blockquote passes: walk the lines, collect each maximal run of
 * consecutive lines of one kind, emit the run as one rendered line when
 * it ends, and copy every other line as it is.
 *
 * `Group` states the result declaratively, from the end of the text:
 * a last line without a kind is copied after the grouping of the lines
 * before it; a last line of kind `k` closes the maximal run of kind `k`
 * that ends there. `GroupLines` is the left-to-right loop the parser runs.
 */
module LineRuns {
  import opened Util

  /** Where the maximal run of kind `k` at the end of `lines` starts. */
  function RunStart<K(==)>(lines: seq<string>, kind: string -> Option<K>, k: K): (s: nat)
    ensures s <= |lines|
    ensures lines != [] && kind(lines[|lines| - 1]) == Some(k) ==> s < |lines|
    decreases |lines|
  {
    if lines != [] && kind(lines[|lines| - 1]) == Some(k) then RunStart(lines[..|lines| - 1], kind, k)
    else |lines|
  }

  /** The run `RunStart` finds is all of kind `k`, and maximal. */
  lemma {:induction false} RunStartFacts<K>(lines: seq<string>, kind: string -> Option<K>, k: K)
    ensures RunStart(lines, kind, k) <= |lines|
    ensures forall i :: RunStart(lines, kind, k) <= i < |lines| ==> kind(lines[i]) == Some(k)
    ensures RunStart(lines, kind, k) > 0 ==> kind(lines[RunStart(lines, kind, k) - 1]) != Some(k)
    decreases |lines|
  {
    if lines != [] && kind(lines[|lines| - 1]) == Some(k) {
      var init := lines[..|lines| - 1];
      RunStartFacts(init, kind, k);
      var s := RunStart(init, kind, k);
      assert forall i :: s <= i < |init| ==> lines[i] == init[i];
      assert s > 0 ==> lines[s - 1] == init[s - 1];
    }
  }

  /** The lines after grouping: each maximal run of one kind becomes `render(kind, run)`. */
  function Group<K(==)>(lines: seq<string>, kind: string -> Option<K>, render: (K, seq<string>) -> string): seq<string>
    decreases |lines|
  {
    if lines == [] then []
    else
      var last := lines[|lines| - 1];
      match kind(last)
      case None => Group(lines[..|lines| - 1], kind, render) + [last]
      case Some(k) =>
        var s := RunStart(lines, kind, k);
        Group(lines[..s], kind, render) + [render(k, lines[s..])]
  }

  /** A run of kind `k` starting at `start` and reaching the end is where `RunStart` says. */
  lemma {:induction false} RunStartAt<K>(lines: seq<string>, kind: string -> Option<K>, k: K, start: nat)
    requires start <= |lines|
    requires forall i :: start <= i < |lines| ==> kind(lines[i]) == Some(k)
    requires start > 0 ==> kind(lines[start - 1]) != Some(k)
    ensures RunStart(lines, kind, k) == start
    decreases |lines|
  {
    if |lines| > start {
      var init := lines[..|lines| - 1];
      assert forall i :: start <= i < |init| ==> init[i] == lines[i];
      assert start > 0 ==> init[start - 1] == lines[start - 1];
      RunStartAt(init, kind, k, start);
    }
  }

  /** Closing a maximal run appends its rendering to the grouping of the lines before it. */
  lemma GroupRun<K>(lines: seq<string>, kind: string -> Option<K>, render: (K, seq<string>) -> string, k: K, start: nat)
    requires start < |lines|
    requires forall i :: start <= i < |lines| ==> kind(lines[i]) == Some(k)
    requires start > 0 ==> kind(lines[start - 1]) != Some(k)
    ensures Group(lines, kind, render) == Group(lines[..start], kind, render) + [render(k, lines[start..])]
  {
    RunStartAt(lines, kind, k, start);
  }

  /** A last line of no kind is copied after the grouping of the lines before it. */
  lemma GroupLastPlain<K>(lines: seq<string>, kind: string -> Option<K>, render: (K, seq<string>) -> string)
    requires lines != [] && kind(lines[|lines| - 1]).None?
    ensures Group(lines, kind, render) == Group(lines[..|lines| - 1], kind, render) + [lines[|lines| - 1]]
  {
  }

  /** `parse_*_from_lines`: one pass over the lines with the pending run in `run`. */
  method GroupLines<K(==)>(lines: seq<string>, kind: string -> Option<K>, render: (K, seq<string>) -> string)
    returns (out: seq<string>)
    ensures out == Group(lines, kind, render)
  {
    out := [];
    var run: seq<string> := [];
    var current: Option<K> := None;
    ghost var start := 0;
    var i := 0;
    while i < |lines|
      invariant 0 <= start <= i <= |lines|
      invariant run == lines[start..i]
      invariant current.None? <==> start == i
      invariant current.Some? ==> OfKind(lines, kind, start, i, current.value)
      invariant current.Some? && start > 0 ==> kind(lines[start - 1]) != current
      invariant current.None? && start > 0 ==> kind(lines[start - 1]).None?
      invariant out == Group(lines[..start], kind, render)
    {
      var line := lines[i];
      var c := kind(line);
      if c.Some? && current == c {
        assert lines[start..i + 1] == lines[start..i] + [line];
        run := run + [line];
      } else {
        if current.Some? {
          // the line ends the pending run
          assert out + [render(current.value, run)] == Group(lines[..i], kind, render) by {
            CloseRun(lines, kind, render, current.value, start, i);
          }
          out := out + [render(current.value, run)];
          start := i;
        }
        if c.Some? {
          assert lines[i..i + 1] == [line];
          current := c;
          run := [line];
        } else {
          assert out + [line] == Group(lines[..i + 1], kind, render) by {
            PlainStep(lines, kind, render, i);
          }
          out := out + [line];
          run := [];
          current := None;
          start := i + 1;
        }
      }
      i := i + 1;
    }
    assert lines[..|lines|] == lines;
    if current.Some? {
      assert out + [render(current.value, run)] == Group(lines, kind, render) by {
        CloseRun(lines, kind, render, current.value, start, |lines|);
      }
      out := out + [render(current.value, run)];
    }
  }

  /** Copying a line of no kind. */
  lemma PlainStep<K>(lines: seq<string>, kind: string -> Option<K>, render: (K, seq<string>) -> string, i: nat)
    requires i < |lines| && kind(lines[i]).None?
    ensures Group(lines[..i + 1], kind, render) == Group(lines[..i], kind, render) + [lines[i]]
  {
    var pre := lines[..i + 1];
    assert pre[i] == lines[i];
    assert pre[..i] == lines[..i];
    GroupLastPlain(pre, kind, render);
  }

  /** Every line in `lines[lo..hi]` is of kind `k`. */
  predicate OfKind<K(==)>(lines: seq<string>, kind: string -> Option<K>, lo: nat, hi: nat, k: K) {
    forall j :: lo <= j < hi && j < |lines| ==> kind(lines[j]) == Some(k)
  }

  /** Closing the pending run `lines[start..i]` of kind `k`. */
  lemma CloseRun<K>(lines: seq<string>, kind: string -> Option<K>, render: (K, seq<string>) -> string, k: K, start: nat, i: nat)
    requires start < i <= |lines|
    requires OfKind(lines, kind, start, i, k)
    requires start > 0 ==> kind(lines[start - 1]) != Some(k)
    ensures Group(lines[..i], kind, render) == Group(lines[..start], kind, render) + [render(k, lines[start..i])]
  {
    var pre := lines[..i];
    assert forall j :: start <= j < |pre| ==> pre[j] == lines[j];
    assert start > 0 ==> pre[start - 1] == lines[start - 1];
    GroupRun(pre, kind, render, k, start);
    assert pre[..start] == lines[..start];
    assert pre[start..] == lines[start..i];
  }

  // ---------------------------------------------------------------------
  // What the grouping does

  /** Lines of no kind are copied: text without any run comes out unchanged. */
  lemma {:induction false} GroupNoRuns<K>(lines: seq<string>, kind: string -> Option<K>, render: (K, seq<string>) -> string)
    requires forall i :: 0 <= i < |lines| ==> kind(lines[i]).None?
    ensures Group(lines, kind, render) == lines
    decreases |lines|
  {
    if lines != [] {
      GroupNoRuns(lines[..|lines| - 1], kind, render);
    }
  }

  /** A text that is one run of one kind becomes exactly one rendered line. */
  lemma GroupOneRun<K>(run: seq<string>, kind: string -> Option<K>, render: (K, seq<string>) -> string, k: K)
    requires run != []
    requires forall i :: 0 <= i < |run| ==> kind(run[i]) == Some(k)
    ensures Group(run, kind, render) == [render(k, run)]
  {
    GroupRun(run, kind, render, k, 0);
  }

  /** A run closed by a line of no kind: the run's rendering, that line, then the rest. */
  lemma RunThenPlain<K>(run: seq<string>, x: string, rest: seq<string>, kind: string -> Option<K>, render: (K, seq<string>) -> string, k: K)
    requires run != [] && forall i :: 0 <= i < |run| ==> kind(run[i]) == Some(k)
    requires kind(x).None?
    ensures Group(run + [x] + rest, kind, render) == [render(k, run), x] + Group(rest, kind, render)
  {
    var a := run + [x];
    GroupAppend(a, rest, kind, render);
    assert a[|a| - 1] == x && a[..|a| - 1] == run;
    GroupLastPlain(a, kind, render);
    GroupOneRun(run, kind, render, k);
  }

  /** Runs never reach across a line of no kind, so the text can be grouped piecewise there. */
  lemma {:induction false} GroupAppend<K>(a: seq<string>, b: seq<string>, kind: string -> Option<K>, render: (K, seq<string>) -> string)
    requires a == [] || kind(a[|a| - 1]).None?
    ensures Group(a + b, kind, render) == Group(a, kind, render) + Group(b, kind, render)
    decreases |b|
  {
    if b == [] {
      assert a + b == a;
    } else if kind(b[|b| - 1]).None? {
      GroupAppend(a, b[..|b| - 1], kind, render);
      AppendPlainStep(a, b, kind, render);
    } else {
      var k := kind(b[|b| - 1]).value;
      var s := RunStart(b, kind, k);
      GroupAppend(a, b[..s], kind, render);
      AppendRunStep(a, b, kind, render, k, s);
    }
  }

  lemma AppendPlainStep<K>(a: seq<string>, b: seq<string>, kind: string -> Option<K>, render: (K, seq<string>) -> string)
    requires b != [] && kind(b[|b| - 1]).None?
    requires Group(a + b[..|b| - 1], kind, render) == Group(a, kind, render) + Group(b[..|b| - 1], kind, render)
    ensures Group(a + b, kind, render) == Group(a, kind, render) + Group(b, kind, render)
  {
    var x := b[|b| - 1];
    var ab := a + b;
    assert Group(ab, kind, render) == Group(a + b[..|b| - 1], kind, render) + [x] by {
      assert ab[|ab| - 1] == x;
      assert ab[..|ab| - 1] == a + b[..|b| - 1];
      GroupLastPlain(ab, kind, render);
    }
    assert Group(b, kind, render) == Group(b[..|b| - 1], kind, render) + [x] by {
      GroupLastPlain(b, kind, render);
    }
    ConcatAssoc(Group(a, kind, render), Group(b[..|b| - 1], kind, render), [x]);
  }

  lemma AppendRunStep<K>(a: seq<string>, b: seq<string>, kind: string -> Option<K>, render: (K, seq<string>) -> string, k: K, s: nat)
    requires a == [] || kind(a[|a| - 1]).None?
    requires s < |b| && s == RunStart(b, kind, k) && kind(b[|b| - 1]) == Some(k)
    requires Group(a + b[..s], kind, render) == Group(a, kind, render) + Group(b[..s], kind, render)
    ensures Group(a + b, kind, render) == Group(a, kind, render) + Group(b, kind, render)
  {
    RunStartFacts(b, kind, k);
    GroupRun(b, kind, render, k, s);
    AppendRunSplit(a, b, kind, render, k, s);
    AppendRunSlices(a, b, kind, render, k, s);
    ConcatAssoc(Group(a, kind, render), Group(b[..s], kind, render), [render(k, b[s..])]);
  }

  /** The run that ends `b` is also the run that ends `a + b`. */
  lemma AppendRunSplit<K>(a: seq<string>, b: seq<string>, kind: string -> Option<K>, render: (K, seq<string>) -> string, k: K, s: nat)
    requires a == [] || kind(a[|a| - 1]).None?
    requires s < |b|
    requires forall i :: s <= i < |b| ==> kind(b[i]) == Some(k)
    requires s > 0 ==> kind(b[s - 1]) != Some(k)
    ensures Group(a + b, kind, render) == Group((a + b)[..|a| + s], kind, render) + [render(k, (a + b)[|a| + s..])]
  {
    var ab := a + b;
    forall i | |a| + s <= i < |ab| ensures kind(ab[i]) == Some(k) {
      assert ab[i] == b[i - |a|];
    }
    if s > 0 {
      assert ab[|a| + s - 1] == b[s - 1];
    } else if a != [] {
      assert ab[|a| - 1] == a[|a| - 1];
    }
    GroupRun(ab, kind, render, k, |a| + s);
  }

  lemma AppendRunSlices<K>(a: seq<string>, b: seq<string>, kind: string -> Option<K>, render: (K, seq<string>) -> string, k: K, s: nat)
    requires s < |b|
    requires Group(a + b, kind, render) == Group((a + b)[..|a| + s], kind, render) + [render(k, (a + b)[|a| + s..])]
    ensures Group(a + b, kind, render) == Group(a + b[..s], kind, render) + [render(k, b[s..])]
  {
    var ab := a + b;
    assert ab[|a| + s..] == b[s..];
    assert ab[..|a| + s] == a + b[..s];
  }

  /** Two adjacent runs of different kinds are rendered separately, in order. */
  lemma GroupKindChange<K>(r1: seq<string>, r2: seq<string>, kind: string -> Option<K>, render: (K, seq<string>) -> string, k1: K, k2: K)
    requires r1 != [] && r2 != [] && k1 != k2
    requires forall i :: 0 <= i < |r1| ==> kind(r1[i]) == Some(k1)
    requires forall i :: 0 <= i < |r2| ==> kind(r2[i]) == Some(k2)
    ensures Group(r1 + r2, kind, render) == [render(k1, r1), render(k2, r2)]
  {
    var ab := r1 + r2;
    assert forall i :: |r1| <= i < |ab| ==> ab[i] == r2[i - |r1|];
    assert ab[|r1| - 1] == r1[|r1| - 1];
    GroupRun(ab, kind, render, k2, |r1|);
    assert ab[..|r1|] == r1;
    assert ab[|r1|..] == r2;
    GroupOneRun(r1, kind, render, k1);
  }

  /** Grouping never makes the text longer. */
  lemma {:induction false} GroupShrinks<K>(lines: seq<string>, kind: string -> Option<K>, render: (K, seq<string>) -> string)
    ensures |Group(lines, kind, render)| <= |lines|
    decreases |lines|
  {
    if lines != [] {
      var last := lines[|lines| - 1];
      match kind(last)
      case None => GroupShrinks(lines[..|lines| - 1], kind, render);
      case Some(k) =>
        var s := RunStart(lines, kind, k);
        GroupShrinks(lines[..s], kind, render);
    }
  }
}
