/** mem.c over whole runs. */
module SmallMemLaws {
  import opened Options
  import opened Rings
  import opened Tiling
  import opened SmallMemBlocks
  import opened SmallMemOps

  /** The heap rt_system_heap_init leaves. */
  function Fresh(memSize: nat): Heap {
    var end := memSize + HDR;
    Heap(end, map[0 := false, end := true], map[0 := end, end := end], map[0 := 0, end := end], [], 0)
  }

  lemma FreshKeeps(memSize: nat)
    ensures Blocks(Fresh(memSize)) && Lives(Fresh(memSize)) == map[] && Lowest(Fresh(memSize), 0)
  {
    var h := Fresh(memSize);
    assert Step(h.next, HDR, h.end, 0) && Step(h.next, HDR, h.end, h.end);
    assert Backed(h, 0) && Apart(h, 0);
  }

  /** One call of rt_malloc, rt_free or rt_realloc on a pointer that is handed out. */
  ghost predicate Call(h: Heap, h': Heap)
    requires Blocks(h)
  {
    || (exists size, p :: Granted(h, size, h', p))
    || (exists a :: a in Lives(h) && h' == Free(h, a))
    || (exists a, size, p :: a in Lives(h) && Reallocated(h, a, size, h', p))
  }

  ghost predicate Run(run: seq<Heap>, memSize: nat) {
    && |run| > 0 && run[0] == Fresh(memSize)
    && forall i :: 0 <= i < |run| - 1 ==> Blocks(run[i]) && Call(run[i], run[i + 1])
  }

  lemma CallKeeps(h: Heap, h': Heap)
    requires Blocks(h) && Call(h, h')
    ensures Blocks(h') && h'.end == h.end
  {
    hide Blocks, Granted, Reallocated, Lives, Free;
    if size, p :| Granted(h, size, h', p) {
      GrantedLives(h, size, h', p);
    } else if a :| a in Lives(h) && h' == Free(h, a) {
      FreeKeeps(h, a);
    } else {
      var a, size, p :| a in Lives(h) && Reallocated(h, a, size, h', p);
      ReallocatedLives(h, a, size, h', p);
    }
  }

  /** Every heap of every run is well formed, and its length never changes. */
  lemma {:induction false} RunsKeep(run: seq<Heap>, memSize: nat, i: nat)
    requires Run(run, memSize) && i < |run|
    ensures Blocks(run[i]) && run[i].end == memSize + HDR
  {
    hide Blocks, Call, Fresh;
    if i == 0 {
      FreshKeeps(memSize);
      FreshEnd(memSize);
    } else {
      RunsKeep(run, memSize, i - 1);
      CallKeeps(run[i - 1], run[i]);
    }
  }

  lemma FreshEnd(memSize: nat)
    ensures Fresh(memSize).end == memSize + HDR
  {
  }

  // ----------------------------------------------------------- free and alloc

  /** Everything that is ever read again agrees; only the prev field of heap_end may differ. */
  ghost predicate SameHeap(h: Heap, g: Heap) {
    g.end == h.end && g.used == h.used && g.next == h.next && g.order == h.order && g.usedMem == h.usedMem
    && g.prev - {h.end} == h.prev - {h.end}
  }

  /** rt_free of a block just allocated gives back the heap from before. */
  lemma FreeUndoesAlloc(h: Heap, a: int, n: nat)
    requires Blocks(h) && Suits(h, n, a)
    ensures Blocks(Alloc(h, a, n)) && a in Lives(Alloc(h, a, n))
    ensures SameHeap(h, Free(Alloc(h, a, n), a))
  {
    hide Blocks, Hole, SameHeap, CutOnly, Alloc, Lives, Plug, CutFree;
    AllocKeeps(h, a, n);
    FreeHole(Alloc(h, a, n), a);
    ReleaseUndoesAlloc(h, a, n);
    var r := Release(Alloc(h, a, n), a);
    if Size(h.next, a) >= n + HDR + MIN_SIZE {
      PlugUndoesCut(h, a, a + HDR + n, r);
    } else {
      PlugOfNothing(h, a);
    }
  }

  /** h with block a cut at m when that is done. */
  function CutOnly(h: Heap, a: int, m: int): Heap
    requires a in h.next
  {
    CutFree(h, a, m).(usedMem := h.usedMem)
  }

  lemma ReleaseUndoesAlloc(h: Heap, a: int, n: nat)
    requires Blocks(h) && Suits(h, n, a) && a in Alloc(h, a, n).order && a in Alloc(h, a, n).next
    ensures Release(Alloc(h, a, n), a) == if Size(h.next, a) >= n + HDR + MIN_SIZE then CutOnly(h, a, a + HDR + n)
            else h
  {
    var m := a + HDR + n;
    var r := Release(Alloc(h, a, n), a);
    assert Drop([a] + h.order, a) == h.order;
    if Size(h.next, a) >= n + HDR + MIN_SIZE {
      assert r.used == h.used[m := false];
    } else {
      assert r.used == h.used;
    }
  }

  lemma PlugUndoesCut(h: Heap, a: int, m: int, r: Heap)
    requires Blocks(h) && a in h.next && !h.used[a] && a + HDR <= m && m + HDR <= h.next[a] && Hole(r, a)
             && r == CutOnly(h, a, m)
    ensures SameHeap(h, Plug(r, a))
  {
    hide Separated, Accounts, CutFree;
    AroundFree(h, a);
    CutShape(h, a, m);
    CutFields(h, a, m);
    if h.next[a] != h.end { OnlyPrev(h, a, h.next[a]); }
    PrevKeys(h);
    PlugForwardKeeps(r, a);
    hide Blocks, Hole, HalfPlugged, CutOnly, CutFree;
    var f := PlugForward(r, a);
    JoinUndoesCut(h.next, a, m);
    assert f.used == h.used && f.next == h.next;
    BackwardFacts(f, a);
    assert PlugBackward(f, a) == f;
  }

  lemma PrevKeys(h: Heap)
    requires Blocks(h)
    ensures h.prev.Keys == h.next.Keys
  {
  }

  lemma CutFields(h: Heap, a: int, m: int)
    requires a in h.next && m !in h.next && m != a && h.next[a] != m && m !in h.prev && h.next[a] in h.used
    ensures var r, e := CutOnly(h, a, m), h.next[a];
            && r.used == h.used[m := false] && r.next == Cut(h.next, a, m) && r.order == h.order
                && r.usedMem == h.usedMem && r.end == h.end
            && r.next[a] == m && r.next[m] == e
            && (a in h.prev && a != e ==> a in r.prev && r.prev[a] == h.prev[a])
            && m in r.prev && (r.prev - {m})[e := a] - {h.end} == h.prev[e := a] - {h.end}
  {
  }

  lemma PlugOfNothing(h: Heap, a: int)
    requires Blocks(h) && a in h.next && !h.used[a] && Hole(h, a)
    ensures Plug(h, a) == h && SameHeap(h, h)
  {
    AroundFree(h, a);
    PlugForwardKeeps(h, a);
    BackwardFacts(h, a);
  }

  /** The neighbours of a free block are used. */
  lemma AroundFree(h: Heap, a: int)
    requires Blocks(h) && a in h.next && !h.used[a]
    ensures a != h.end && h.next[a] in h.used && h.used[h.next[a]] && a in h.prev
    ensures h.prev[a] != a ==> h.prev[a] in h.used && h.used[h.prev[a]]
  {
    assert Apart(h, a) && Backed(h, a);
    if a != 0 { assert Apart(h, h.prev[a]); }
  }

  /** When everything has been freed, one free block spans the heap and nothing counts as used. */
  lemma NothingLive(h: Heap)
    requires Blocks(h) && Lives(h) == map[]
    ensures h.next == map[0 := h.end, h.end := h.end] && h.used == map[0 := false, h.end := true] && h.usedMem == 0
  {
    assert Step(h.next, HDR, h.end, 0);
    AllFree(h, 0);
    AroundFree(h, 0);
    if h.next[0] != h.end { AllFree(h, h.next[0]); }
    forall x | x in h.next
      ensures x == 0 || x == h.end
    {
      InOrder(h.next, h.end, 0, x);
    }
    if h.order != [] { OrderLive(h); }
  }

  lemma OrderLive(h: Heap)
    requires Blocks(h) && h.order != []
    ensures h.order[0] in Lives(h)
  {
  }

  lemma AllFree(h: Heap, a: int)
    requires Blocks(h) && Lives(h) == map[] && a in h.next && a != h.end
    ensures !h.used[a]
  {
    assert h.used[a] ==> a in Lives(h);
  }

  // ------------------------------------------------------- when rt_malloc fails

  /** A free block with room is refused exactly when the request fits it to the last byte and
      heap_end follows. */
  lemma RefusedFit(h: Heap, n: nat, a: int)
    requires Blocks(h) && a in h.next && !h.used[a] && Size(h.next, a) >= n
    ensures Suits(h, n, a) <==> a + HDR + n != h.end
  {
    AroundFree(h, a);
    assert Step(h.next, HDR, h.end, a);
  }

  /** rt_malloc returns null although a free block has room exactly when the only such block is
      the last one and the request fits it to the last byte. */
  lemma NullDespiteRoom(h: Heap, size: nat, h': Heap, p: Option<int>)
    requires Blocks(h) && Granted(h, size, h', p) && 0 < size && Align4(size) <= h.end - HDR
    ensures var n := Request(size);
            p.None? && (exists a :: Room(h, n, a))
            <==> Room(h, n, h.end - HDR - n) && forall a :: Room(h, n, a) ==> a == h.end - HDR - n
  {
    var n := Request(size);
    var last := h.end - HDR - n;
    forall a | Room(h, n, a)
      ensures Suits(h, n, a) <==> a != last
    {
      RefusedFit(h, n, a);
    }
    if p.Some? {
      assert Suits(h, n, p.value - HDR) && Room(h, n, p.value - HDR);
    } else if a :| Room(h, n, a) {
      assert !Suits(h, n, a);
    }
  }

  ghost predicate Room(h: Heap, n: nat, a: int) {
    a in h.next && a in h.used && !h.used[a] && Size(h.next, a) >= n
  }

  /** A fresh heap refuses a request for exactly the bytes it has. */
  lemma WholeHeapRefused(memSize: nat, h': Heap, p: Option<int>)
    requires memSize >= MIN_SIZE && memSize % 4 == 0 && Granted(Fresh(memSize), memSize, h', p)
    ensures Room(Fresh(memSize), Request(memSize), 0) && p.None?
  {
    FreshKeeps(memSize);
  }
}
