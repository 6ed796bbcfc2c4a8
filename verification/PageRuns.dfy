/** Runs of free pages: the set they stand for and why its sorted maximal form is unique. */
module PageRuns {

  datatype Run = Run(start: int, len: int)

  function End(r: Run): int {
    r.start + r.len
  }

  /** Sorted, not empty, and with at least one used page between two of them. */
  ghost predicate Maximal(runs: seq<Run>) {
    && (forall i :: 0 <= i < |runs| ==> runs[i].start > 0 && runs[i].len > 0)
    && (forall i, j :: 0 <= i < j < |runs| ==> End(runs[i]) < runs[j].start)
  }

  ghost predicate Free(runs: seq<Run>, p: int) {
    exists i :: 0 <= i < |runs| && runs[i].start <= p < End(runs[i])
  }

  /** Pages q to q + n are all free. */
  ghost predicate Fits(runs: seq<Run>, q: int, n: int) {
    forall p {:trigger Free(runs, p)} :: q <= p < q + n ==> Free(runs, p)
  }

  /** q is the lowest place with n free pages. */
  ghost predicate LowestFit(runs: seq<Run>, q: int, n: int) {
    Fits(runs, q, n) && forall r :: r < q ==> !Fits(runs, r, n)
  }

  /** No page of the range is free. */
  ghost predicate Used(runs: seq<Run>, q: int, n: int) {
    forall p {:trigger Free(runs, p)} :: q <= p < q + n ==> !Free(runs, p)
  }

  lemma Apart(runs: seq<Run>, i: nat, j: nat)
    requires Maximal(runs) && i < |runs| && j < |runs|
    ensures runs[i].len > 0 && runs[j].len > 0
    ensures i < j ==> End(runs[i]) < runs[j].start
    ensures j < i ==> End(runs[j]) < runs[i].start
  {
  }

  /** Contiguous free pages lie inside one run. */
  lemma {:induction false} InOneRun(runs: seq<Run>, q: int, n: int) returns (i: nat)
    requires Maximal(runs) && n > 0 && Fits(runs, q, n)
    ensures i < |runs| && runs[i].start <= q && q + n <= End(runs[i])
    decreases n
  {
    if n == 1 {
      assert Free(runs, q);
      i :| 0 <= i < |runs| && runs[i].start <= q < End(runs[i]);
    } else {
      i := InOneRun(runs, q, n - 1);
      assert Free(runs, q + n - 1);
      var j :| 0 <= j < |runs| && runs[j].start <= q + n - 1 < End(runs[j]);
      assert runs[i].start <= q + n - 2 < End(runs[i]);
      Apart(runs, i, j);
    }
  }

  lemma RunFits(runs: seq<Run>, i: nat, q: int, n: int)
    requires i < |runs| && runs[i].start <= q && q + n <= End(runs[i])
    ensures Fits(runs, q, n)
  {
  }

  ghost predicate SamePages(a: seq<Run>, b: seq<Run>) {
    forall p {:trigger Free(a, p)} {:trigger Free(b, p)} :: Free(a, p) <==> Free(b, p)
  }

  /** The first runs of two lists that stand for the same set are the same. */
  lemma FirstRunSame(a: seq<Run>, b: seq<Run>)
    requires Maximal(a) && Maximal(b) && SamePages(a, b) && a != []
    ensures b != [] && a[0] == b[0]
  {
    RunFits(a, 0, a[0].start, a[0].len);
    forall p | a[0].start <= p < End(a[0])
      ensures Free(b, p)
    {
      assert Free(a, p);
    }
    var i := InOneRun(b, a[0].start, a[0].len);
    RunFits(b, 0, b[0].start, b[0].len);
    forall p | b[0].start <= p < End(b[0])
      ensures Free(a, p)
    {
      assert Free(b, p);
    }
    var j := InOneRun(a, b[0].start, b[0].len);
    Apart(b, 0, i);
    Apart(a, 0, j);
  }

  lemma TailFree(a: seq<Run>, p: int)
    requires Maximal(a) && a != []
    ensures Maximal(a[1..]) && (Free(a[1..], p) <==> Free(a, p) && p >= End(a[0]))
  {
    if Free(a, p) {
      var i :| 0 <= i < |a| && a[i].start <= p < End(a[i]);
      assert i > 0 ==> a[1..][i - 1] == a[i] && End(a[0]) < a[i].start;
    }
    if Free(a[1..], p) {
      var i :| 0 <= i < |a[1..]| && a[1..][i].start <= p < End(a[1..][i]);
      assert a[i + 1] == a[1..][i];
    }
  }

  /** There is one sorted list of maximal runs for each set of free pages. */
  lemma {:induction false} Canonical(a: seq<Run>, b: seq<Run>)
    requires Maximal(a) && Maximal(b) && SamePages(a, b)
    ensures a == b
    decreases |a|
  {
    if a == [] {
      if b != [] { FirstRunSame(b, a); }
    } else {
      FirstRunSame(a, b);
      forall p
        ensures Free(a[1..], p) <==> Free(b[1..], p)
      {
        TailFree(a, p);
        TailFree(b, p);
        assert Free(a, p) <==> Free(b, p);
      }
      TailFree(a, 0);
      TailFree(b, 0);
      Canonical(a[1..], b[1..]);
      assert a == [a[0]] + a[1..] && b == [b[0]] + b[1..];
    }
  }

  /** When every run is too short nothing fits. */
  lemma NoneFits(runs: seq<Run>, n: nat, q: int)
    requires Maximal(runs) && n > 0 && forall k :: 0 <= k < |runs| ==> runs[k].len < n
    ensures !Fits(runs, q, n)
  {
    if Fits(runs, q, n) {
      var i := InOneRun(runs, q, n);
      assert false;
    }
  }

  // ------------------------------------------------------------ replacing one run

  lemma FreeJoin(a: seq<Run>, b: seq<Run>, p: int)
    ensures Free(a + b, p) <==> Free(a, p) || Free(b, p)
  {
    var r := a + b;
    if Free(a, p) {
      var k :| 0 <= k < |a| && a[k].start <= p < End(a[k]);
      assert r[k] == a[k];
    }
    if Free(b, p) {
      var k :| 0 <= k < |b| && b[k].start <= p < End(b[k]);
      assert r[|a| + k] == b[k];
    }
  }

  lemma FreeOne(r: Run, p: int)
    ensures Free([r], p) <==> r.start <= p < End(r)
  {
    assert [r][0] == r;
  }

  /** Page p seen from position i: before it, in it, or behind it. */
  lemma Around(runs: seq<Run>, i: nat, p: int)
    requires Maximal(runs) && i < |runs|
    ensures Free(runs, p) <==> Free(runs[..i], p) || runs[i].start <= p < End(runs[i]) || Free(runs[i + 1..], p)
    ensures Free(runs[..i], p) ==> p < runs[i].start
    ensures Free(runs[i + 1..], p) ==> p > End(runs[i])
  {
    FreeJoin(runs[..i], [runs[i]], p);
    FreeOne(runs[i], p);
    FreeJoin(runs[..i] + [runs[i]], runs[i + 1..], p);
    assert runs[..i] + [runs[i]] + runs[i + 1..] == runs;
  }

  lemma Parts(runs: seq<Run>, i: nat)
    requires Maximal(runs) && i <= |runs|
    ensures Maximal(runs[..i]) && Maximal(runs[i..])
  {
  }

  lemma MaximalJoin(a: seq<Run>, b: seq<Run>)
    requires Maximal(a) && Maximal(b) && (a != [] && b != [] ==> End(a[|a| - 1]) < b[0].start)
    ensures Maximal(a + b)
  {
    forall i, j | 0 <= i < j < |a + b|
      ensures End((a + b)[i]) < (a + b)[j].start
    {
      if i < |a| <= j {
        Apart(a, i, |a| - 1);
        Apart(b, 0, j - |a|);
      }
    }
  }

  /** Runs i to j give way to run x, which fits in between. */
  lemma Splice(runs: seq<Run>, i: nat, j: nat, x: Run)
    requires Maximal(runs) && i <= j <= |runs| && x.len > 0 && x.start > 0
    requires i > 0 ==> End(runs[i - 1]) < x.start
    requires j < |runs| ==> End(x) < runs[j].start
    ensures Maximal(runs[..i] + [x] + runs[j..])
  {
    Parts(runs, i);
    Parts(runs, j);
    MaximalJoin(runs[..i], [x]);
    MaximalJoin(runs[..i] + [x], runs[j..]);
  }

  lemma SpliceFree(a: seq<Run>, x: Run, b: seq<Run>, p: int)
    ensures Free(a + [x] + b, p) <==> Free(a, p) || x.start <= p < End(x) || Free(b, p)
  {
    FreeJoin(a, [x], p);
    FreeOne(x, p);
    FreeJoin(a + [x], b, p);
  }

  // ------------------------------------------------------ taking pages off the front of run i

  /** r has the pages of runs without the range. */
  ghost predicate Removed(runs: seq<Run>, r: seq<Run>, a: int, n: int) {
    forall p {:trigger Free(r, p)} {:trigger Free(runs, p)} :: Free(r, p) <==> Free(runs, p) && !(a <= p < a + n)
  }

  function TakeFront(runs: seq<Run>, i: nat, n: int): seq<Run>
    requires i < |runs|
  {
    runs[..i] + (if runs[i].len > n then [Run(runs[i].start + n, runs[i].len - n)] else []) + runs[i + 1..]
  }

  lemma TakeFrontPages(runs: seq<Run>, i: nat, n: nat)
    requires Maximal(runs) && i < |runs| && 0 < n <= runs[i].len
    ensures Maximal(TakeFront(runs, i, n)) && Fits(runs, runs[i].start, n)
    ensures Removed(runs, TakeFront(runs, i, n), runs[i].start, n)
  {
    var r, x := TakeFront(runs, i, n), Run(runs[i].start + n, runs[i].len - n);
    RunFits(runs, i, runs[i].start, n);
    if runs[i].len > n {
      Splice(runs, i, i + 1, x);
    } else {
      Parts(runs, i);
      Parts(runs, i + 1);
      assert r == runs[..i] + runs[i + 1..];
      MaximalJoin(runs[..i], runs[i + 1..]);
    }
    forall p
      ensures Free(r, p) <==> Free(runs, p) && !(runs[i].start <= p < runs[i].start + n)
    {
      Around(runs, i, p);
      SpliceFree(runs[..i], x, runs[i + 1..], p);
      FreeJoin(runs[..i], runs[i + 1..], p);
    }
  }

  // ------------------------------------------------------------------- giving pages back

  /** r has the pages of runs and the range, nothing else. */
  ghost predicate Added(runs: seq<Run>, r: seq<Run>, a: int, n: int) {
    forall p {:trigger Free(r, p)} {:trigger Free(runs, p)} :: Free(r, p) <==> Free(runs, p) || a <= p < a + n
  }

  /** Run i ends where the range starts: it grows, and takes in the next run if it now reaches it. */
  function GrowRun(runs: seq<Run>, i: nat, n: int): seq<Run>
    requires i < |runs|
  {
    var x := Run(runs[i].start, runs[i].len + n);
    if i + 1 < |runs| && End(x) == runs[i + 1].start then
        runs[..i] + [Run(x.start, x.len + runs[i + 1].len)] + runs[i + 2..]
    else runs[..i] + [x] + runs[i + 1..]
  }

  lemma GrowPlain(runs: seq<Run>, i: nat, n: nat)
    requires Maximal(runs) && i < |runs| && n > 0 && (i + 1 < |runs| ==> End(runs[i]) + n < runs[i + 1].start)
    ensures var r := runs[..i] + [Run(runs[i].start, runs[i].len + n)] + runs[i + 1..];
            Maximal(r) && Added(runs, r, End(runs[i]), n)
  {
    hide Maximal;
    var x := Run(runs[i].start, runs[i].len + n);
    var r := runs[..i] + [x] + runs[i + 1..];
    RunOrder(runs, i);
    Splice(runs, i, i + 1, x);
    forall p
      ensures Free(r, p) <==> Free(runs, p) || End(runs[i]) <= p < End(runs[i]) + n
    {
      Around(runs, i, p);
      SpliceFree(runs[..i], x, runs[i + 1..], p);
    }
  }

  lemma GrowMerging(runs: seq<Run>, i: nat, n: nat)
    requires Maximal(runs) && i + 1 < |runs| && n > 0 && End(runs[i]) + n == runs[i + 1].start
    ensures var r := runs[..i] + [Run(runs[i].start, runs[i].len + n + runs[i + 1].len)] + runs[i + 2..];
            Maximal(r) && Added(runs, r, End(runs[i]), n)
  {
    hide Maximal;
    var x := Run(runs[i].start, runs[i].len + n + runs[i + 1].len);
    var r, behind := runs[..i] + [x] + runs[i + 2..], runs[i + 1..];
    RunOrder(runs, i);
    RunOrder(runs, i + 1);
    Splice(runs, i, i + 2, x);
    Parts(runs, i + 1);
    assert behind[..0] == [] && behind[1..] == runs[i + 2..];
    forall p
      ensures Free(r, p) <==> Free(runs, p) || End(runs[i]) <= p < End(runs[i]) + n
    {
      Around(runs, i, p);
      Around(behind, 0, p);
      SpliceFree(runs[..i], x, runs[i + 2..], p);
    }
  }

  lemma RunOrder(runs: seq<Run>, i: nat)
    requires Maximal(runs) && i < |runs|
    ensures runs[i].start > 0 && runs[i].len > 0
    ensures i > 0 ==> End(runs[i - 1]) < runs[i].start
    ensures i + 1 < |runs| ==> End(runs[i]) < runs[i + 1].start
  {
  }

  lemma GrowRunPages(runs: seq<Run>, i: nat, n: nat)
    requires Maximal(runs) && i < |runs| && n > 0 && Used(runs, End(runs[i]), n)
    ensures Maximal(GrowRun(runs, i, n)) && Added(runs, GrowRun(runs, i, n), End(runs[i]), n)
  {
    hide Maximal, Added;
    RunOrder(runs, i);
    if i + 1 < |runs| { BehindRange(runs, i + 1, End(runs[i]), n); }
    if i + 1 < |runs| && End(runs[i]) + n == runs[i + 1].start {
      GrowMerging(runs, i, n);
    } else {
      GrowPlain(runs, i, n);
    }
  }

  /** A run that starts behind the start of a used range starts behind its end. */
  lemma BehindRange(runs: seq<Run>, k: nat, a: int, n: nat)
    requires Maximal(runs) && k < |runs| && Used(runs, a, n) && runs[k].start >= a
    ensures runs[k].start >= a + n
  {
    assert Free(runs, runs[k].start);
  }

  /** The range ends where run i starts: the run starts earlier. */
  lemma ExtendDownPages(runs: seq<Run>, i: nat, a: int, n: nat)
    requires Maximal(runs) && i < |runs| && n > 0 && a > 0 && Used(runs, a, n)
    requires a + n == runs[i].start && (i > 0 ==> End(runs[i - 1]) < a)
    ensures var r := runs[..i] + [Run(a, runs[i].len + n)] + runs[i + 1..]; Maximal(r) && Added(runs, r, a, n)
  {
    var x := Run(a, runs[i].len + n);
    var r := runs[..i] + [x] + runs[i + 1..];
    Splice(runs, i, i + 1, x);
    forall p
      ensures Free(r, p) <==> Free(runs, p) || a <= p < a + n
    {
      Around(runs, i, p);
      SpliceFree(runs[..i], x, runs[i + 1..], p);
    }
  }

  /** The range touches no run: it becomes one. */
  lemma InsertPages(runs: seq<Run>, i: nat, a: int, n: nat)
    requires Maximal(runs) && i <= |runs| && n > 0 && a > 0
    requires (i > 0 ==> End(runs[i - 1]) < a) && (i < |runs| ==> a + n < runs[i].start)
    ensures var r := runs[..i] + [Run(a, n)] + runs[i..]; Maximal(r) && Added(runs, r, a, n)
  {
    var x := Run(a, n);
    var r := runs[..i] + [x] + runs[i..];
    Splice(runs, i, i, x);
    var before, behind := runs[..i], runs[i..];
    assert before + behind == runs;
    forall p
      ensures Free(r, p) <==> Free(runs, p) || a <= p < a + n
    {
      SpliceFree(before, x, behind, p);
      FreeJoin(before, behind, p);
    }
  }

  /** The first run that is long enough holds the lowest place where n pages fit. */
  lemma FirstFitLowest(runs: seq<Run>, i: nat, n: nat, q: int)
    requires Maximal(runs) && i < |runs| && n > 0 && (forall k :: 0 <= k < i ==> runs[k].len < n) && q < runs[i].start
    ensures !Fits(runs, q, n)
  {
    if Fits(runs, q, n) {
      var j := InOneRun(runs, q, n);
      Apart(runs, i, j);
      assert false;
    }
  }
}
