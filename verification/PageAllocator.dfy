/** slab.c: the page allocator, a linked list of runs of free pages. Addresses are page numbers. */
module PageAllocator {
  import opened Chains
  import opened PageRuns

  function Starts(runs: seq<Run>): (r: seq<int>)
    ensures |r| == |runs| && forall i :: 0 <= i < |r| ==> r[i] == runs[i].start
  {
    if runs == [] then [] else [runs[0].start] + Starts(runs[1..])
  }

  lemma StartsJoin(a: seq<Run>, b: seq<Run>)
    ensures Starts(a + b) == Starts(a) + Starts(b)
  {
  }

  /** The page count of every listed run is stored at its first page. */
  ghost predicate Counted(runs: seq<Run>, page: map<int, int>) {
    forall i {:trigger runs[i]} :: 0 <= i < |runs| ==> runs[i].start in page && page[runs[i].start] == runs[i].len
  }

  lemma SpliceStarts(runs: seq<Run>, i: nat, j: nat, m: seq<Run>)
    requires i <= j <= |runs|
    ensures Starts(runs[..i] + m + runs[j..]) == Starts(runs)[..i] + Starts(m) + Starts(runs)[j..]
  {
    hide Starts;
    StartsJoin(runs[..i], m);
    StartsJoin(runs[..i] + m, runs[j..]);
    assert Starts(runs[..i]) == Starts(runs)[..i];
    assert Starts(runs[j..]) == Starts(runs)[j..];
  }

  lemma Elsewhere(runs: seq<Run>, i: nat, j: nat, m: seq<Run>, k: nat)
    requires Maximal(runs) && i <= j <= |runs| && k < |runs| && (k + 1 < i || j <= k)
    requires m != [] && j < |runs| ==> m[0].start < runs[j].start
    requires m != [] && i > 0 ==> runs[i - 1].start < m[0].start
    ensures (m == [] || runs[k].start != m[0].start) && (i == 0 || runs[k].start != runs[i - 1].start)
  {
    hide Maximal;
    if i > 0 { Apart(runs, k, i - 1); }
    if j < |runs| { Apart(runs, k, j); }
  }

  /** The link fields after runs i to j gave way to m: only the link into m and m's own changed. */
  lemma SpliceLinks(next: map<int, int>, next': map<int, int>, p: int, p': int, runs: seq<Run>, i: nat, j: nat,
      m: seq<Run>)
    requires Maximal(runs) && Chained(next, p, Starts(runs)) && i <= j <= |runs| && |m| <= 1
    requires m != [] && j < |runs| ==> m[0].start < runs[j].start
    requires m != [] && i > 0 ==> runs[i - 1].start < m[0].start
    requires m != [] ==> m[0].start > 0 && m[0].start in next' && next'[m[0].start] == Succ(Starts(runs), j)
    requires var x := if m != [] then m[0].start else Succ(Starts(runs), j);
             if i == 0 then p' == x else p' == p && runs[i - 1].start in next' && next'[runs[i - 1].start] == x
    requires forall x :: x in next && (m == [] || x != m[0].start) && (i == 0 || x != runs[i - 1].start) ==>
             x in next' && next'[x] == next[x]
    ensures Chained(next', p', Starts(runs[..i] + m + runs[j..]))
  {
    hide Chained, Starts, Maximal;
    var s := Starts(runs);
    forall k | 0 <= k < |s| && (k + 1 < i || j <= k) && s[k] in next
      ensures s[k] in next' && next'[s[k]] == next[s[k]]
    {
      Elsewhere(runs, i, j, m, k);
    }
    ChainSplice(next, next', p, p', s, i, j, Starts(m));
    SpliceStarts(runs, i, j, m);
  }

  lemma SpliceCounted(runs: seq<Run>, page: map<int, int>, page': map<int, int>, i: nat, j: nat, m: seq<Run>)
    requires Maximal(runs) && Counted(runs, page) && i <= j <= |runs| && |m| <= 1
    requires m != [] ==>
               m[0].start in page' && page' == page[m[0].start := page'[m[0].start]]
               && page'[m[0].start] == m[0].len
    requires m != [] && j < |runs| ==> m[0].start < runs[j].start
    requires m != [] && i > 0 ==> runs[i - 1].start < m[0].start
    requires m == [] ==> page' == page
    ensures Counted(runs[..i] + m + runs[j..], page')
  {
    var r := runs[..i] + m + runs[j..];
    forall k | 0 <= k < |r|
      ensures r[k].start in page' && page'[r[k].start] == r[k].len
    {
      if k < i {
        assert r[k] == runs[k];
        Apart(runs, k, i - 1);
      } else if k >= i + |m| {
        var k' := k - i - |m| + j;
        assert r[k] == runs[k'];
        Apart(runs, j, k');
      }
    }
  }

  /** What the memory says about run i and its neighbours. */
  lemma RunAt(runs: seq<Run>, next: map<int, int>, list: int, page: map<int, int>, i: nat)
    requires Maximal(runs) && Chained(next, list, Starts(runs)) && Counted(runs, page) && i < |runs|
    ensures var b := runs[i].start;
            b > 0 && runs[i].len > 0 && b in next && next[b] == Succ(Starts(runs), i + 1) && b in page
                && page[b] == runs[i].len
    ensures i == 0 ==> list == runs[i].start
    ensures i > 0 ==> var q := runs[i - 1];
                      0 < q.start < End(q) < runs[i].start && q.start in next && next[q.start] == runs[i].start
    ensures i + 1 < |runs| ==> End(runs[i]) < runs[i + 1].start && Succ(Starts(runs), i + 1) == runs[i + 1].start
    ensures i + 1 >= |runs| ==> Succ(Starts(runs), i + 1) == RT_NULL
  {
    assert ChainedAt(next, Starts(runs), i);
    if i > 0 {
      Apart(runs, i - 1, i);
      assert ChainedAt(next, Starts(runs), i - 1);
    }
    if i + 1 < |runs| { Apart(runs, i, i + 1); }
  }

  class PageAllocator {
    var list: int             // rt_page_list
    var next: map<int, int>
    var page: map<int, int>

    ghost var runs: seq<Run>

    ghost predicate Valid()
      reads this
    {
      Maximal(runs) && Chained(next, list, Starts(runs)) && Counted(runs, page)
    }

    /** rt_page_init */
    constructor (addr: int, npages: nat)
      requires addr > 0 && npages > 0
      ensures Valid() && runs == [Run(addr, npages)]
    {
      list, next, page := RT_NULL, map[], map[];
      runs := [];
      new;
      assert Chained(next, list, Starts([]));
      Free(addr, npages);
      FreeOne(Run(addr, npages), addr);
      assert forall p :: !PageRuns.Free([], p);
      forall p
        ensures PageRuns.Free(runs, p) <==> PageRuns.Free([Run(addr, npages)], p)
      {
        FreeOne(Run(addr, npages), p);
      }
      Canonical(runs, [Run(addr, npages)]);
    }

    /** *prev = x, where prev is the list head or the next field of a node */
    method Link(prev: int, x: int)
      modifies `list, `next
      ensures if prev == RT_NULL then list == x && next == old(next)
              else list == old(list) && next == old(next)[prev := x]
    {
      if prev == RT_NULL { list := x; } else { next := next[prev := x]; }
    }

    /** rt_page_alloc */
    method Alloc(npages: nat) returns (b: int)
      requires Valid()
      modifies this
      ensures Valid()
      ensures npages == 0 ==> b == RT_NULL
      ensures b == RT_NULL ==> runs == old(runs) && (npages > 0 ==> forall q :: !Fits(runs, q, npages))
      ensures b != RT_NULL ==> Fits(old(runs), b, npages) && forall q :: q < b ==> !Fits(old(runs), q, npages)
      ensures b != RT_NULL ==> Removed(old(runs), runs, b, npages)
    {
      hide Maximal, Chained, Counted, Starts, Fits;
      if npages == 0 { return RT_NULL; }
      var prev := RT_NULL;
      ghost var i := 0;
      b := list;
      ListHead(runs, next, list);
      while b != RT_NULL
        invariant Valid() && runs == old(runs)
        invariant i <= |runs| && b == Succ(Starts(runs), i) && prev == (if i == 0 then RT_NULL else runs[i - 1].start)
        invariant forall k :: 0 <= k < i ==> runs[k].len < npages
        decreases |runs| - i
      {
        SuccNull(runs, i);
        RunAt(runs, next, list, page, i);
        if page[b] >= npages {
          TakeAt(prev, b, npages, i);
          return;
        }
        prev := b;
        b := next[b];
        i := i + 1;
      }
      SuccNull(runs, i);
      forall q
        ensures !Fits(runs, q, npages)
      {
        NoneFits(runs, npages, q);
      }
    }

    /** Split the run at b, or unlink it when it is used up. */
    method TakeAt(prev: int, b: int, npages: nat, ghost i: nat)
      requires Valid() && npages > 0 && i < |runs| && b == runs[i].start && runs[i].len >= npages
      requires prev == if i == 0 then RT_NULL else runs[i - 1].start
      requires forall k :: 0 <= k < i ==> runs[k].len < npages
      modifies this
      ensures Valid() && runs == TakeFront(old(runs), i, npages)
      ensures Fits(old(runs), b, npages) && forall q :: q < b ==> !Fits(old(runs), q, npages)
      ensures Removed(old(runs), runs, b, npages)
    {
      hide Maximal, Chained, Counted, Starts;
      TakeFrontPages(runs, i, npages);
      forall q | q < b
        ensures !Fits(runs, q, npages)
      {
        FirstFitLowest(runs, i, npages, q);
      }
      ghost var r, l, nx, pg := runs, list, next, page;
      RunAt(r, next, list, page, i);
      if page[b] > npages {
        var n := b + npages;
        next := next[n := next[b]];
        page := page[n := page[b] - npages];
        Link(prev, n);
        SpliceLinks(nx, next, l, list, r, i, i + 1, [Run(n, page[n])]);
        SpliceCounted(r, pg, page, i, i + 1, [Run(n, page[n])]);
      } else {
        Link(prev, next[b]);
        SpliceLinks(nx, next, l, list, r, i, i + 1, []);
        SpliceCounted(r, pg, page, i, i + 1, []);
      }
      runs := TakeFront(runs, i, npages);
    }

    /** rt_page_free of pages that are in use */
    method Free(addr: int, npages: nat)
      requires Valid() && addr > 0 && npages > 0 && Used(runs, addr, npages)
      modifies this
      ensures Valid() && Added(old(runs), runs, addr, npages)
    {
      hide Maximal, Chained, Counted, Starts, Used, Added;
      var n := addr;
      var prev := RT_NULL;
      ghost var i := 0;
      var b := list;
      ListHead(runs, next, list);
      while b != RT_NULL
        invariant Valid() && runs == old(runs)
        invariant i <= |runs| && b == Succ(Starts(runs), i) && prev == (if i == 0 then RT_NULL else runs[i - 1].start)
        invariant i > 0 ==> End(runs[i - 1]) < n
        decreases |runs| - i
      {
        SuccNull(runs, i);
        RunAt(runs, next, list, page, i);
        if b + page[b] == n {
          GrowAt(b, npages, i);
          return;
        }
        if b == n + npages {
          ExtendDown(prev, b, n, npages, i);
          return;
        }
        if b > n + npages { break; }
        NotInside(runs, i, n, npages);
        prev := b;
        b := next[b];
        i := i + 1;
      }
      SuccNull(runs, i);
      InsertAt(prev, b, n, npages, i);
    }

    /** The run at b grows by npages and takes in the next one when it reaches it. */
    method GrowAt(b: int, npages: nat, ghost i: nat)
      requires Valid() && npages > 0 && i < |runs| && b == runs[i].start && Used(runs, End(runs[i]), npages)
      modifies this
      ensures Valid() && runs == GrowRun(old(runs), i, npages)
      ensures Added(old(runs), runs, End(old(runs)[i]), npages)
    {
      hide Maximal, Chained, Counted, Starts;
      ghost var r, l, nx, pg := runs, list, next, page;
      GrowRunPages(r, i, npages);
      RunAt(r, next, list, page, i);
      if i + 1 < |r| { RunAt(r, next, list, page, i + 1); }
      page := page[b := page[b] + npages];
      if b + page[b] == next[b] {
        if i + 2 < |r| { RunAt(r, nx, l, pg, i + 2); }
        page := page[b := page[b] + page[next[b]]];
        next := next[b := next[next[b]]];
        SpliceLinks(nx, next, l, list, r, i, i + 2, [Run(b, page[b])]);
        SpliceCounted(r, pg, page, i, i + 2, [Run(b, page[b])]);
      } else {
        SpliceLinks(nx, next, l, list, r, i, i + 1, [Run(b, page[b])]);
        SpliceCounted(r, pg, page, i, i + 1, [Run(b, page[b])]);
      }
      runs := GrowRun(r, i, npages);
    }

    /** The run at b now starts at n, right before it. */
    method ExtendDown(prev: int, b: int, n: int, npages: nat, ghost i: nat)
      requires Valid() && npages > 0 && n > 0 && i < |runs| && b == runs[i].start && b == n + npages
               && Used(runs, n, npages)
      requires prev == (if i == 0 then RT_NULL else runs[i - 1].start) && (i > 0 ==> End(runs[i - 1]) < n)
      modifies this
      ensures Valid() && Added(old(runs), runs, n, npages)
    {
      hide Maximal, Chained, Counted, Starts;
      ghost var r, l, nx, pg := runs, list, next, page;
      ExtendDownPages(r, i, n, npages);
      RunAt(r, next, list, page, i);
      if i > 0 { RunAt(r, next, list, page, i - 1); }
      page := page[n := page[b] + npages];
      next := next[n := next[b]];
      Link(prev, n);
      SpliceLinks(nx, next, l, list, r, i, i + 1, [Run(n, page[n])]);
      SpliceCounted(r, pg, page, i, i + 1, [Run(n, page[n])]);
      runs := r[..i] + [Run(n, r[i].len + npages)] + r[i + 1..];
    }

    /** A new run at n, between prev and b. */
    method InsertAt(prev: int, b: int, n: int, npages: nat, ghost i: nat)
      requires Valid() && npages > 0 && n > 0 && i <= |runs| && b == Succ(Starts(runs), i)
      requires prev == (if i == 0 then RT_NULL else runs[i - 1].start)
      requires (i > 0 ==> End(runs[i - 1]) < n) && (i < |runs| ==> n + npages < runs[i].start)
      modifies this
      ensures Valid() && Added(old(runs), runs, n, npages)
    {
      ghost var r, s, nx, pg, l := runs, Starts(runs), next, page, list;
      InsertPages(r, i, n, npages);
      page := page[n := npages];
      next := next[n := b];
      Link(prev, n);
      SpliceLinks(nx, next, l, list, r, i, i, [Run(n, npages)]);
      SpliceCounted(r, pg, page, i, i, [Run(n, npages)]);
      runs := r[..i] + [Run(n, npages)] + r[i..];
    }
  }

  lemma ListHead(runs: seq<Run>, next: map<int, int>, list: int)
    requires Chained(next, list, Starts(runs))
    ensures list == Succ(Starts(runs), 0)
  {
  }

  lemma SuccNull(runs: seq<Run>, i: nat)
    requires Maximal(runs) && i <= |runs|
    ensures Succ(Starts(runs), i) == (if i < |runs| then runs[i].start else RT_NULL)
    ensures i < |runs| ==> runs[i].start != RT_NULL
  {
  }

  /** Neither touching nor behind the range, run i ends before it. */
  lemma NotInside(runs: seq<Run>, i: nat, a: int, n: nat)
    requires Maximal(runs) && i < |runs| && Used(runs, a, n) && n > 0
    requires End(runs[i]) != a && runs[i].start != a + n && runs[i].start <= a + n
    ensures End(runs[i]) < a
  {
    assert PageRuns.Free(runs, if runs[i].start >= a then runs[i].start else a) || End(runs[i]) < a;
  }
}
