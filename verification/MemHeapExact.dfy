/** memheap.c: what each operation does, told by the blocks that are live and by the fields before the call. */
module MemHeapExact {
  import opened Options
  import opened Rings
  import opened Tiling
  import opened MemHeapSpec
  import opened MemHeapOps
  import opened MemHeapLaws

  // --------------------------------------------- the live blocks decide the rest

  /** From block a on, two heaps with the same live blocks have the same blocks. */
  lemma {:induction false} SameFrom(h: Heap, g: Heap, a: int)
    requires WellFormed(h) && WellFormed(g) && h.start == g.start && h.tail == g.tail && Lives(h) == Lives(g)
    requires a in h.next && a in g.next
    ensures forall b :: a <= b && b in h.next ==>
              b in g.next && h.next[b] == g.next[b] && b in h.used && b in g.used && h.used[b] == g.used[b]
    decreases h.tail - a
  {
    assert Step(h.next, HDR, h.tail, a) && Step(g.next, HDR, g.tail, a);
    SameBlock(h, g, a);
    if a != h.tail {
      SameFrom(h, g, h.next[a]);
      forall b | a < b && b in h.next
        ensures h.next[a] <= b
      {
      }
    } else {
      assert forall b :: a <= b && b in h.next ==> b == a;
    }
  }

  /** A free block ends where the next live block or the tail begins. */
  lemma SameBlock(h: Heap, g: Heap, a: int)
    requires WellFormed(h) && WellFormed(g) && h.start == g.start && h.tail == g.tail && Lives(h) == Lives(g)
    requires a in h.next && a in g.next
    ensures h.next[a] == g.next[a] && a in h.used && a in g.used && h.used[a] == g.used[a]
  {
    if a in Lives(h) {
      assert Lives(h)[a] == h.next[a] && Lives(g)[a] == g.next[a];
    } else if a != h.tail {
      EndsAtLive(h, a);
      EndsAtLive(g, a);
    }
  }

  lemma EndsAtLive(h: Heap, a: int)
    requires WellFormed(h) && a in h.next && a != h.tail && a !in Lives(h)
    ensures a in h.used && !h.used[a] && a < h.next[a] <= h.tail && (h.next[a] == h.tail || h.next[a] in Lives(h))
    ensures forall b :: b in h.next && a < b ==> h.next[a] <= b
  {
    assert Apart(h, a) && Step(h.next, HDR, h.tail, a);
  }

  /** A well-formed heap is known by its live blocks: where the blocks are, which are free, all links of the block
      ring and the count of free bytes follow from them. */
  lemma LivesDecide(h: Heap, g: Heap)
    requires WellFormed(h) && WellFormed(g) && h.start == g.start && h.tail == g.tail && Lives(h) == Lives(g)
    ensures h.next == g.next && h.used == g.used && h.prev == g.prev && h.available == g.available
    ensures forall a :: a in h.free <==> a in g.free
  {
    SameBlocks(h, g);
    SamePrev(h, g);
    hide WellFormed, Lives;
    Known(h);
    Known(g);
    assert forall a :: a in h.free <==> a in g.free;
    TotalSame(h.free, g.free, h.next, HDR);
  }

  lemma Known(h: Heap)
    requires WellFormed(h)
    ensures NoDup(h.free) && (forall a :: a in h.free <==> a in h.next && a in h.used && !h.used[a])
    ensures h.available == FreeBytes(h.free, h.next)
  {
  }

  lemma SameBlocks(h: Heap, g: Heap)
    requires WellFormed(h) && WellFormed(g) && h.start == g.start && h.tail == g.tail && Lives(h) == Lives(g)
    ensures h.next == g.next && h.used == g.used
  {
    hide WellFormed, Lives;
    FromStart(h);
    FromStart(g);
    SameFrom(h, g, h.start);
    SameFrom(g, h, h.start);
    assert forall b :: b in h.next ==> h.start <= b && b in g.next;
    assert forall b :: b in g.next ==> g.start <= b && b in h.next;
    assert h.next.Keys == g.next.Keys && h.used.Keys == g.used.Keys;
    assert h.next == g.next && h.used == g.used;
  }

  lemma FromStart(h: Heap)
    requires WellFormed(h)
    ensures h.start in h.next && h.used.Keys == h.next.Keys && forall b :: b in h.next ==> h.start <= b
  {
  }

  lemma SamePrev(h: Heap, g: Heap)
    requires WellFormed(h) && WellFormed(g) && h.next == g.next
    ensures h.prev == g.prev
  {
    forall x | x in h.next
      ensures x in h.prev && x in g.prev && h.prev[x] == g.prev[x]
    {
      assert Doubly(h, x) && Doubly(g, x) && Doubly(g, h.prev[x]);
    }
    assert h.prev.Keys == g.prev.Keys;
  }

  // ------------------------------------------------------------ the conditions

  /** The request is rounded up to the next multiple of 4, and to 12 at least. */
  lemma RoundedLeast(size: nat)
    ensures var n := Rounded(size);
              n % 4 == 0 && n >= size && n >= 12
              && forall m :: m % 4 == 0 && m >= size && m >= 12 ==> n <= m
  {
  }

  /** The request is not below the free total, or no free block is large enough. */
  ghost predicate NoFit(h: Heap, n: int) {
    n >= h.available || forall a :: a in h.next && a in h.used && !h.used[a] ==> Size(h.next, a) < n
  }

  /** The block behind a is free, and the two together are large enough. */
  ghost predicate CanGrow(h: Heap, a: int, n: int) {
    && a in h.next && h.next[a] in h.next && h.next[a] in h.used && !h.used[h.next[a]]
    && Size(h.next, h.next[a]) + Size(h.next, a) > n + 12
  }

  /** Block a is too small for n bytes, and cannot grow. */
  ghost predicate Stuck(h: Heap, a: int, n: int) {
    a in h.next && Size(h.next, a) < n && !CanGrow(h, a, n)
  }

  /** Block a, found at place k of the free list, is the first on it that is large enough. */
  ghost predicate FirstOnList(h: Heap, a: int, n: int) {
    exists k ::
      && 0 <= k < |h.free| && h.free[k] == a && a in h.next && Size(h.next, a) >= n
      && forall i :: 0 <= i < k ==> h.free[i] in h.next && Size(h.next, h.free[i]) < n
  }

  // ------------------------------------------------------------------ requests

  /** rt_memheap_alloc: refused exactly when there is no fit, and then nothing changes. Otherwise the first block on
      the free list that is large enough is live. It ends behind the rounded size when 36 bytes or more are left,
      which go to the head of the free list, and keeps its end otherwise. */
  lemma AllocExact(h: Heap, size: nat)
    requires WellFormed(h)
    ensures var (h', p) := Alloc(h, size);
            var n := Rounded(size);
            && (p.None? <==> NoFit(h, n)) && (p.None? ==> h' == h)
            && (p.Some? ==>
                  var a := p.value;
                  && FirstOnList(h, a, n) && a in h.next && a in h.free
                  && (if Size(h.next, a) >= n + 36 then
                        && Lives(h') == Lives(h)[a := a + 24 + n] && h'.available == h.available - n - 24
                        && h'.free == [a + 24 + n] + Drop(h.free, a)
                      else
                        && Lives(h') == Lives(h)[a := h.next[a]] && h'.available == h.available - Size(h.next, a)
                        && h'.free == Drop(h.free, a))
                  && h'.maxUsed == Max(h.maxUsed, Pool(h) - h'.available))
  {
    AllocComplete(h, size);
    AllocLives(h, size);
    Listed(h);
    hide WellFormed, Place, Lives;
    var n := Rounded(size);
    var k := FirstFit(h.free, h.next, n);
    if n < h.available && k < |h.free| {
      var a := h.free[k];
      assert a in h.free;
      assert FirstOnList(h, a, n);
      PlaceFields(h, a, n);
    }
  }

  lemma Listed(h: Heap)
    requires WellFormed(h)
    ensures Counted(h) && forall a :: a in h.free ==> a in h.next
  {
  }

  lemma PlaceFields(h: Heap, a: int, n: nat)
    requires WellFormed(h) && a in h.free && a in h.next
    ensures var h' := Place(h, a, n);
            && (if Size(h.next, a) >= n + 36 then
                  && a in h'.next && h'.next[a] == a + 24 + n && h'.available == h.available - n - 24
                  && h'.free == [a + 24 + n] + Drop(h.free, a)
                else
                  && a in h'.next && h'.next[a] == h.next[a] && h'.available == h.available - Size(h.next, a)
                  && h'.free == Drop(h.free, a))
            && h'.maxUsed == Max(h.maxUsed, Pool(h) - h'.available)
  {
    assert Doubly(h, a) && Step(h.next, HDR, h.tail, a);
  }

  // ------------------------------------------------------------------ releases

  /** rt_memheap_free: the block is not live any more, and the free bytes are its own and one header for each
      neighbour it joins. */
  lemma FreeExact(h: Heap, a: int)
    requires WellFormed(h) && Live(h, a)
    ensures a in h.next && a in h.prev && h.prev[a] in h.used && h.next[a] in h.used
    ensures var h', left, right := Free(h, a), !h.used[h.prev[a]], !h.used[h.next[a]];
            && Lives(h') == Lives(h) - {a} && h'.maxUsed == h.maxUsed
            && h'.available == h.available + Size(h.next, a) + (if left then 24 else 0) + (if right then 24 else 0)
  {
    assert Doubly(h, a) && Doubly(h, h.prev[a]) && Doubly(h, h.next[a]);
    assert Step(h.next, HDR, h.tail, a);
    FreeLives(h, a);
    hide Lives;
  }

  // ------------------------------------------------------------------- resizes

  /** rt_memheap_realloc to n > 0 rounded bytes, by the fields before the call. It is refused exactly when the block is
      too small, cannot grow and nothing else fits. It stays in place exactly when it is large enough or can grow. */
  lemma ReallocExact(h: Heap, a: int, size: nat)
    requires WellFormed(h) && Live(h, a)
    ensures a in h.next && h.next[a] in h.next && h.next[a] in h.used
    ensures var (h', p) := Realloc(h, a, size);
            var n, had, behind := Rounded(size), Size(h.next, a), h.next[a];
            && (p.None? <==> n > had && !CanGrow(h, a, n) && NoFit(h, n))
            && (p.None? ==> h' == h)
            && (n <= had || CanGrow(h, a, n) <==> p == Some(a))
            && (n > had && CanGrow(h, a, n) ==>
                  && Lives(h') == Lives(h)[a := a + 24 + n] && h'.available == h.available - (n - had)
                  && h'.maxUsed == Max(h.maxUsed, Pool(h) - h'.available))
            && (n + 36 < had ==>
                  && Lives(h') == Lives(h)[a := a + 24 + n] && h'.maxUsed == h.maxUsed
                  && h'.available == h.available + (had - n) - (if h.used[behind] then 24 else 0))
            && (n <= had <= n + 36 ==> h' == h)
  {
    Behind(h, a);
    Branches(h, a, size);
    hide WellFormed, Lives, Grow, Shrink, Rounded, Realloc, Free, Alloc;
    var n, had := Rounded(size), Size(h.next, a);
    if n > had && CanGrow(h, a, n) {
      GrowLives(h, a, n);
      GrowFields(h, a, n);
    } else if n > had {
      MoveCase(h, a, size);
    } else if n + 36 < had {
      ShrinkLives(h, a, n);
      ShrinkFields(h, a, n);
    }
  }

  /** The same in short. */
  lemma ReallocStays(h: Heap, a: int, size: nat)
    requires WellFormed(h) && Live(h, a)
    ensures var p, n := Realloc(h, a, size).1, Rounded(size);
            && (p.None? <==> Stuck(h, a, n) && NoFit(h, n))
            && (p == Some(a) <==> !Stuck(h, a, n))
  {
    ReallocExact(h, a, size);
    hide WellFormed, Live, Realloc, CanGrow, NoFit, Rounded;
  }

  lemma Behind(h: Heap, a: int)
    requires WellFormed(h) && Live(h, a)
    ensures a in h.next && h.next[a] in h.next && h.next[a] in h.used
  {
    assert Doubly(h, a);
  }

  lemma Branches(h: Heap, a: int, size: nat)
    requires WellFormed(h) && Live(h, a)
    ensures a in h.next
    ensures var n, had, r := Rounded(size), Size(h.next, a), Realloc(h, a, size);
            && (n > had && CanGrow(h, a, n) ==>
                  h.next[a] in h.next && h.next[a] in h.free && r == (Grow(h, a, n), Some(a)))
            && (n + 36 < had ==> r == (Shrink(h, a, n), Some(a)))
            && (n <= had <= n + 36 ==> r == (h, Some(a)))
  {
    assert Doubly(h, a);
    hide Rounded;
  }

  lemma MoveCase(h: Heap, a: int, size: nat)
    requires WellFormed(h) && Live(h, a) && a in h.next && Rounded(size) > Size(h.next, a)
             && !CanGrow(h, a, Rounded(size))
    ensures var (h', p) := Realloc(h, a, size);
            && (p.None? <==> NoFit(h, Rounded(size))) && (p.None? ==> h' == h) && p != Some(a)
  {
    AllocExact(h, Rounded(size));
    AllocLives(h, Rounded(size));
    RoundedTwice(size);
    StillLive(h, a);
    Behind(h, a);
    hide WellFormed, Lives, Grow, Shrink, Rounded, Free, Alloc;
  }

  lemma StillLive(h: Heap, a: int)
    requires Live(h, a)
    ensures a in Lives(h)
  {
  }

  /** A resize that moves the block is a request for the new size followed by the release of the old block. */
  lemma ReallocMovesAway(h: Heap, a: int, size: nat)
    requires WellFormed(h) && Live(h, a)
    ensures var (h', p) := Realloc(h, a, size);
            p.Some? && p != Some(a) ==>
              var (g, q) := Alloc(h, Rounded(size));
              p == q && WellFormed(g) && Live(g, a) && h' == Free(g, a)
  {
    ReallocExact(h, a, size);
    MovedLives(h, a, Rounded(size));
    assert Doubly(h, a);
  }

  lemma RoundedTwice(size: nat)
    ensures Rounded(Rounded(size)) == Rounded(size)
  {
  }

  lemma GrowFields(h: Heap, a: int, n: nat)
    requires WellFormed(h) && Live(h, a) && Size(h.next, a) < n && CanGrow(h, a, n)
    ensures h.next[a] in h.free
    ensures var h' := Grow(h, a, n);
            && h'.available == h.available - (n - Size(h.next, a))
            && h'.maxUsed == Max(h.maxUsed, Pool(h) - h'.available)
  {
    FreeIsListed(h, h.next[a]);
    assert Doubly(h, a) && Doubly(h, h.next[a]);
    assert Step(h.next, HDR, h.tail, a) && Step(h.next, HDR, h.tail, h.next[a]);
  }

  lemma ShrinkFields(h: Heap, a: int, n: nat)
    requires WellFormed(h) && Live(h, a) && n + 36 < Size(h.next, a)
    ensures h.next[a] in h.used
    ensures var h' := Shrink(h, a, n);
            && h'.maxUsed == h.maxUsed
            && h'.available == h.available + Size(h.next, a) - n - (if h.used[h.next[a]] then 24 else 0)
  {
    assert Doubly(h, a) && Step(h.next, HDR, h.tail, a);
    CutFreeKeeps(h, CutFree(h, a, a + HDR + n), a, a + HDR + n);
  }

  // ----------------------------------------------------------------- alignment

  /** Every block begins at a multiple of 4 from the start of the pool. */
  ghost predicate Aligned(h: Heap) {
    forall a :: a in h.next ==> (a - h.start) % 4 == 0
  }

  lemma AlignedCut(h: Heap, h': Heap, a: int, n: nat)
    requires Aligned(h) && a in h.next && n % 4 == 0 && h'.start == h.start
    requires forall x :: x in h'.next ==> x in h.next || x == a + HDR + n
    ensures Aligned(h')
  {
  }

  lemma AllocAligned(h: Heap, size: nat)
    requires WellFormed(h) && Aligned(h)
    ensures Aligned(Alloc(h, size).0)
  {
    var n := Rounded(size);
    RoundedLeast(size);
    var k := FirstFit(h.free, h.next, n);
    if n < h.available && k < |h.free| {
      assert h.free[k] in h.free;
      AlignedCut(h, Place(h, h.free[k], n), h.free[k], n);
    }
  }

  lemma Linked(h: Heap, a: int)
    requires WellFormed(h) && a in h.next
    ensures Doubly(h, a) && Doubly(h, h.prev[a])
  {
    assert Doubly(h, a) && Doubly(h, h.prev[a]);
  }

  lemma FreeAligned(h: Heap, a: int)
    requires WellFormed(h) && Live(h, a) && Aligned(h)
    ensures Aligned(Free(h, a))
  {
    hide WellFormed, Aligned, Drop;
    Linked(h, a);
    assert Free(h, a).next.Keys <= h.next.Keys;
    AlignedPart(h, Free(h, a));
  }

  lemma AlignedPart(h: Heap, h': Heap)
    requires Aligned(h) && h'.start == h.start && h'.next.Keys <= h.next.Keys
    ensures Aligned(h')
  {
    assert forall a :: a in h'.next ==> a in h.next;
  }

  lemma ReallocAligned(h: Heap, a: int, size: nat)
    requires WellFormed(h) && Live(h, a) && Aligned(h)
    ensures Aligned(Realloc(h, a, size).0)
  {
    var n, had := Rounded(size), Size(h.next, a);
    assert Doubly(h, a);
    RoundedLeast(size);
    ReallocExact(h, a, size);
    if n > had && CanGrow(h, a, n) {
      GrowFields(h, a, n);
      AlignedCut(h, Grow(h, a, n), a, n);
    } else if n > had {
      AllocAligned(h, n);
      ReallocMovesAway(h, a, size);
      if Realloc(h, a, size).1.Some? { FreeAligned(Alloc(h, n).0, a); }
    } else if n + 36 < had {
      AlignedCut(h, Shrink(h, a, n), a, n);
    }
  }

  /** In every run from initialisation all blocks, and so all pointers, are multiples of 4 when the pool is. */
  lemma {:induction false} RunsAligned(h: Heap, ops: seq<Op>, h': Heap)
    requires WellFormed(h) && Aligned(h) && Run(h, ops, h')
    ensures Aligned(h')
    decreases |ops|
  {
    if ops != [] {
      match ops[0] {
        case AllocOp(size) => AllocAligned(h, size);
        case FreeOp(a) => FreeAligned(h, a);
        case ReallocOp(a, size) => FreeAligned(h, a); ReallocAligned(h, a, size);
      }
      RunsAligned(Do(h, ops[0]), ops[1..], h');
    }
  }

  lemma FreshAligned(start: int, pool: int)
    requires pool % 4 == 0
    ensures Aligned(Fresh(start, pool))
  {
  }
}
