/** What the operations of a memory heap promise over whole runs. */
module MemHeapLaws {
  import opened Options
  import opened Rings
  import opened Tiling
  import opened MemHeapSpec
  import opened MemHeapOps

  /** The heap right after rt_memheap_init. */
  function Fresh(start: int, pool: int): Heap {
    var tail := start + pool - HDR;
    Heap(start, tail, map[start := false, tail := true], map[start := tail, tail := start],
        map[start := tail, tail := start],
         [start], pool - 2 * HDR, 2 * HDR)
  }

  lemma FreshWellFormed(start: int, pool: int)
    requires pool >= 2 * HDR
    ensures WellFormed(Fresh(start, pool))
  {
    var h := Fresh(start, pool);
    forall x | x in h.next
      ensures Step(h.next, HDR, h.tail, x) && Doubly(h, x) && (x != h.tail ==> Apart(h, x))
    {
    }
    assert Total(h.free, h.next, HDR) == h.next[start] - start - HDR + Total(h.free[1..], h.next, HDR);
  }

  // ---------------------------------------------------------------- whole runs

  datatype Op = AllocOp(size: nat) | FreeOp(block: int) | ReallocOp(block: int, size: nat)

  /** Callers release and resize only blocks that are handed out. */
  ghost predicate Legal(h: Heap, op: Op) {
    op.AllocOp? || Live(h, op.block)
  }

  ghost function Do(h: Heap, op: Op): (h': Heap)
    requires WellFormed(h) && Legal(h, op)
    ensures WellFormed(h') && h'.start == h.start && h'.tail == h.tail
  {
    match op
    case AllocOp(size) => AllocKeeps(h, size); Alloc(h, size).0
    case FreeOp(a) => FreeKeeps(h, a); Free(h, a)
    case ReallocOp(a, size) =>
      FreeKeeps(h, a);
      ReallocMoves(h, a, size);
      if size == 0 then Free(h, a) else Realloc(h, a, size).0
  }

  ghost predicate Run(h: Heap, ops: seq<Op>, h': Heap)
    requires WellFormed(h)
    decreases ops
  {
    if ops == [] then h' == h
    else Legal(h, ops[0]) && Run(Do(h, ops[0]), ops[1..], h')
  }

  /** Every heap reached from initialisation by any sequence of operations is well formed. */
  lemma {:induction false} RunsKeep(h: Heap, ops: seq<Op>, h': Heap)
    requires WellFormed(h) && Run(h, ops, h')
    ensures WellFormed(h') && h'.start == h.start && h'.tail == h.tail
    decreases |ops|
  {
    if ops != [] {
      RunsKeep(Do(h, ops[0]), ops[1..], h');
    }
  }

  // ------------------------------------------------------------- completeness

  /** A request is refused exactly when it is not below the free total or no free block is large enough. */
  lemma AllocComplete(h: Heap, size: nat)
    requires WellFormed(h)
    ensures Alloc(h, size).1 == None <==>
            (Rounded(size) >= h.available || forall a :: a in h.next && a in h.used && !h.used[a] ==>
                Size(h.next, a) < Rounded(size))
  {
    var n := Rounded(size);
    var k := FirstFit(h.free, h.next, n);
    if k < |h.free| {
      assert h.free[k] in h.free;
    } else {
      forall a | a in h.next && a in h.used && !h.used[a]
        ensures Size(h.next, a) < n
      {
        assert a in h.free;
      }
    }
  }

  // ---------------------------------------------------------- free undoes alloc

  lemma FreeUndoesTake(h: Heap, a: int)
    requires WellFormed(h) && a in h.free && a in h.next
    requires var t := Bump(Take(h, a)); WellFormed(t) && Live(t, a)
    ensures var f := Free(Bump(Take(h, a)), a);
              f.used == h.used && f.next == h.next && f.prev == h.prev
              && f.available == h.available
  {
    var t := Bump(Take(h, a));
    TakeKeeps(h, Take(h, a), a);
    assert Doubly(h, a) && Doubly(t, a) && Doubly(h, h.prev[a]);
    assert h.prev[a] != h.tail ==> Apart(h, h.prev[a]);
    assert Free(t, a) == PutFree(t, a);
  }

  /** Cutting block a at m and joining the pieces again, on the bare maps. */
  lemma JoinedAgain(h: Heap, a: int, m: int)
    requires a in h.free && a in h.next && h.next[a] in h.next && m !in h.next && a != m
    requires h.used.Keys == h.next.Keys && h.prev.Keys == h.next.Keys && !h.used[a] && h.prev[h.next[a]] == a
    requires h.next[a] != a
    ensures var p := PutFree(Bump(CutFree(Take(h, a), a, m)), a);
            p.next[a] == m && m in p.free && m in p.next && !p.used[m]
            && (var f := Merge(p, a);
                f.used == h.used && f.next == h.next && f.prev == h.prev
                && f.available == h.available)
  {
    var p := PutFree(Bump(CutFree(Take(h, a), a, m)), a);
    assert p.free[1] == m;
  }

  lemma FreeUndoesCut(h: Heap, a: int, m: int)
    requires WellFormed(h) && a in h.free && a in h.next && a + HDR <= m && m + HDR <= h.next[a]
    requires var c := Bump(CutFree(Take(h, a), a, m)); WellFormed(c) && Live(c, a)
    ensures var f := Free(Bump(CutFree(Take(h, a), a, m)), a);
            f.used == h.used && f.next == h.next && f.prev == h.prev && f.available == h.available
  {
    var c := Bump(CutFree(Take(h, a), a, m));
    assert Doubly(h, a) && Doubly(c, a) && Doubly(h, h.prev[a]);
    assert h.prev[a] != h.tail ==> Apart(h, h.prev[a]);
    assert m !in h.next by { CutShape(h, CutAt(h, a, m), a, m); }
    JoinedAgain(h, a, m);
  }

  /** Releasing a block right after a successful request gives back the same blocks and count. */
  lemma FreeUndoesAlloc(h: Heap, size: nat)
    requires WellFormed(h) && Alloc(h, size).1.Some?
    ensures var (h', p) := Alloc(h, size);
            WellFormed(h') && Live(h', p.value)
            && (var f := Free(h', p.value);
                f.used == h.used && f.next == h.next && f.prev == h.prev
                && f.available == h.available)
  {
    hide Free, Shape, Separated;
    var n := Rounded(size);
    AllocKeeps(h, size);
    var a := h.free[FirstFit(h.free, h.next, n)];
    assert a in h.free;
    if Size(h.next, a) >= n + HDR + MINIALLOC {
      FreeUndoesCut(h, a, a + HDR + n);
    } else {
      FreeUndoesTake(h, a);
    }
  }

  // ------------------------------------------------------- everything released

  /** With no block handed out the heap is one free block between the two headers. */
  lemma NothingLive(h: Heap)
    requires WellFormed(h) && Lives(h) == map[]
    ensures h.next == map[h.start := h.tail, h.tail := h.start]
    ensures h.free == [h.start] && h.available == Pool(h) - 2 * HDR
  {
    forall a | a in h.next && a != h.tail
      ensures !h.used[a] && h.next[a] == h.tail
    {
      assert Apart(h, a) && Doubly(h, a) && Step(h.next, HDR, h.tail, a);
      assert a !in Lives(h) && h.next[a] !in Lives(h);
    }
    assert Doubly(h, h.tail);
    forall a | a in h.next
      ensures a == h.start || a == h.tail
    {
      assert h.start < a ==> h.next[h.start] <= a;
    }
    assert forall a :: a in h.free <==> a == h.start;
    assert h.start in h.next && h.start in h.free && h.start != h.tail;
    OneElement(h.free, h.start);
    assert FreeBytes(h.free, h.next) == Size(h.next, h.free[0]) + FreeBytes(h.free[1..], h.next);
  }

  /** Releasing all live blocks, in any order. */
  lemma {:induction false} FreeingEverything(h: Heap, order: seq<int>, h': Heap)
    requires WellFormed(h) && NoDup(order) && (forall a :: a in order <==> a in Lives(h))
    requires Run(h, Frees(order), h')
    ensures h'.next == map[h.start := h.tail, h.tail := h.start]
    ensures h'.free == [h.start] && h'.available == Pool(h) - 2 * HDR
    decreases |order|
  {
    if order == [] {
      assert Lives(h) == map[];
      NothingLive(h);
    } else {
      var a := order[0];
      var f := Do(h, FreeOp(a));
      assert Frees(order)[0] == FreeOp(a) && Frees(order)[1..] == Frees(order[1..]);
      FreeLives(h, a);
      forall x
        ensures x in order[1..] <==> x in Lives(f)
      {
        if x in order && x != a {
          var i :| 0 <= i < |order| && order[i] == x;
          assert order[1..][i - 1] == x;
        }
      }
      FreeingEverything(f, order[1..], h');
    }
  }

  function Frees(order: seq<int>): (r: seq<Op>)
    ensures |r| == |order|
  {
    if order == [] then [] else [FreeOp(order[0])] + Frees(order[1..])
  }

  // ------------------------------------------------------------------ payloads

  /** Live payloads lie in the pool and none overlaps another live block, header included. */
  lemma LivePayloads(h: Heap, a: int, b: int)
    requires WellFormed(h) && a in Lives(h) && b in Lives(h) && a != b
    ensures h.start <= a < a + HDR <= Lives(h)[a] <= h.tail
    ensures Lives(h)[a] <= b || Lives(h)[b] <= a
  {
    assert Step(h.next, HDR, h.tail, a) && Step(h.next, HDR, h.tail, b);
  }
}
