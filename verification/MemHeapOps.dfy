/** The public operations of a memory heap as changes of its blocks, and what holds of them. */
module MemHeapOps {
  import opened Options
  import opened MemHeapSpec

  /** The request after alignment and the minimum. */
  function Rounded(size: nat): nat {
    Max(Align4(size), MINIALLOC)
  }

  function FirstFit(free: seq<int>, next: map<int, int>, n: int): (k: nat)
    requires forall a :: a in free ==> a in next
    ensures k <= |free|
    ensures forall i :: 0 <= i < k ==> Size(next, free[i]) < n
    ensures k < |free| ==> Size(next, free[k]) >= n
  {
    if free == [] then 0
    else if Size(next, free[0]) >= n then 0
    else 1 + FirstFit(free[1..], next, n)
  }

  /** n bytes are cut out of free block a, or all of it when the rest would be too small. */
  function Place(h: Heap, a: int, n: int): Heap
    requires a in h.free && a in h.next
  {
    var t := Take(h, a);
    Bump(if Size(h.next, a) >= n + HDR + MINIALLOC then CutFree(t, a, a + HDR + n) else t)
  }

  function Alloc(h: Heap, size: nat): (r: (Heap, Option<int>))
    requires Counted(h)
    ensures r.0.start == h.start && r.0.tail == h.tail
  {
    var n := Rounded(size);
    var k := FirstFit(h.free, h.next, n);
    if n < h.available && k < |h.free| then (Place(h, h.free[k], n), Some(h.free[k])) else (h, None)
  }

  function Free(h: Heap, a: int): (r: Heap)
    requires WellFormed(h) && Live(h, a)
    ensures r.start == h.start && r.tail == h.tail
  {
    assert Doubly(h, a) && Doubly(h, h.prev[a]);
    if h.used[h.prev[a]] then
      PutFreeKeeps(h, PutFree(h, a), a);
      CoalesceKeeps(PutFree(h, a), a);
      Coalesce(PutFree(h, a), a)
    else
      MergeLeftKeeps(h, MergeLeft(h, h.prev[a]), a, h.prev[a]);
      CoalesceKeeps(MergeLeft(h, h.prev[a]), h.prev[a]);
      Coalesce(MergeLeft(h, h.prev[a]), h.prev[a])
  }

  /** Used block a grows into the free block behind it. */
  function Grow(h: Heap, a: int, n: int): Heap
    requires a in h.next && h.next[a] in h.next && h.next[a] in h.free
  {
    Bump(CutFree(Swallow(h, a), a, a + HDR + n))
  }

  /** Used block a gives up what is behind its first n bytes. */
  function Shrink(h: Heap, a: int, n: nat): Heap
    requires WellFormed(h) && Live(h, a) && n + HDR + MINIALLOC < Size(h.next, a)
  {
    var c := CutFree(h, a, a + HDR + n);
    CutFreeKeeps(h, c, a, a + HDR + n);
    CountedGrows(h, c);
    CoalesceKeeps(c, a + HDR + n);
    Coalesce(c, a + HDR + n)
  }

  lemma CountedGrows(h: Heap, c: Heap)
    requires Counted(h) && Counted(Bump(c)) && Pool(c) == Pool(h) && c.available >= h.available
             && c.maxUsed == h.maxUsed
    ensures Counted(c)
  {
  }

  // ------------------------------------------------ every operation keeps the heap

  /** A cut-off piece m whose neighbour is used leaves no two free blocks side by side. */
  lemma SeparatedAgain(c: Heap, m: int)
    requires Shape(c) && Separated(c, m) && m in c.next && c.next[m] in c.used && c.used[c.next[m]]
    ensures Separated(c, c.tail)
  {
    assert Doubly(c, m);
    forall x | x in c.next && x != c.tail
      ensures Apart(c, x)
    {
      assert x != m ==> Apart(c, x);
    }
  }

  lemma BumpKeeps(c: Heap)
    requires Shape(c) && Counted(Bump(c)) && Separated(c, c.tail)
    ensures WellFormed(Bump(c))
  {
    var b := Bump(c);
    forall x | x in b.next
      ensures Doubly(b, x) && (x != b.tail ==> Apart(b, x))
    {
      assert Doubly(c, x) && (x != c.tail ==> Apart(c, x));
    }
  }

  lemma CutFreeBumped(t: Heap, a: int, m: int)
    requires Shape(t) && Separated(t, t.tail) && Counted(Bump(t)) && Live(t, a)
    requires a + HDR <= m && m + HDR <= t.next[a] && t.next[a] in t.used && t.used[t.next[a]]
    ensures m !in t.next && WellFormed(Bump(CutFree(t, a, m)))
  {
    var c := CutFree(t, a, m);
    CutFreeKeeps(t, c, a, m);
    SeparatedAgain(c, m);
    BumpKeeps(c);
  }

  lemma PlaceKeeps(h: Heap, a: int, n: int)
    requires WellFormed(h) && a in h.free && a in h.next && 0 <= n <= Size(h.next, a)
    ensures WellFormed(Place(h, a, n)) && Live(Place(h, a, n), a)
    ensures n <= Size(Place(h, a, n).next, a) <= Size(h.next, a)
  {
    hide Separated, Counted, Shape;
    var t := Take(h, a);
    TakeKeeps(h, t, a);
    if Size(h.next, a) >= n + HDR + MINIALLOC {
      CutFreeBumped(t, a, a + HDR + n);
    } else {
      BumpKeeps(t);
    }
  }

  lemma AllocKeeps(h: Heap, size: nat)
    requires WellFormed(h)
    ensures WellFormed(Alloc(h, size).0)
    ensures var (h', p) := Alloc(h, size);
            p.Some? ==> Live(h', p.value) && !Live(h, p.value) && Size(h'.next, p.value) >= Rounded(size)
  {
    var n := Rounded(size);
    var k := FirstFit(h.free, h.next, n);
    if n < h.available && k < |h.free| {
      assert h.free[k] in h.free;
      PlaceKeeps(h, h.free[k], n);
    }
  }

  lemma FreeKeeps(h: Heap, a: int)
    requires WellFormed(h) && Live(h, a)
    ensures WellFormed(Free(h, a))
  {
    assert Doubly(h, a) && Doubly(h, h.prev[a]);
    if h.used[h.prev[a]] {
      PutFreeKeeps(h, PutFree(h, a), a);
      CoalesceKeeps(PutFree(h, a), a);
    } else {
      MergeLeftKeeps(h, MergeLeft(h, h.prev[a]), a, h.prev[a]);
      CoalesceKeeps(MergeLeft(h, h.prev[a]), h.prev[a]);
    }
  }

  lemma GrowKeeps(h: Heap, a: int, n: nat)
    requires WellFormed(h) && Live(h, a) && Size(h.next, a) < n
    requires h.next[a] in h.next && h.next[a] in h.used && !h.used[h.next[a]]
    requires Size(h.next, h.next[a]) + Size(h.next, a) > n + MINIALLOC
    ensures h.next[a] in h.free && WellFormed(Grow(h, a, n))
    ensures Live(Grow(h, a, n), a) && Size(Grow(h, a, n).next, a) == n
  {
    hide Separated, Counted, Shape, Lives;
    FreeIsListed(h, h.next[a]);
    var s := Swallow(h, a);
    SwallowKeeps(h, s, a);
    CutFreeBumped(s, a, a + HDR + n);
  }

  lemma ShrinkKeeps(h: Heap, a: int, n: nat)
    requires WellFormed(h) && Live(h, a) && n + HDR + MINIALLOC < Size(h.next, a)
    ensures WellFormed(Shrink(h, a, n))
    ensures Live(Shrink(h, a, n), a) && Size(Shrink(h, a, n).next, a) == n
  {
    var c := CutFree(h, a, a + HDR + n);
    CutFreeKeeps(h, c, a, a + HDR + n);
    CountedGrows(h, c);
    CoalesceKeeps(c, a + HDR + n);
  }

  /** rt_memheap_realloc of a live block to size > 0 bytes. */
  function Realloc(h: Heap, a: int, size: nat): (r: (Heap, Option<int>))
    requires WellFormed(h) && Live(h, a)
    ensures r.0.start == h.start && r.0.tail == h.tail
  {
    var n := Rounded(size);
    var had := Size(h.next, a);
    assert Doubly(h, a);
    if n > had then
      if !h.used[h.next[a]] && Size(h.next, h.next[a]) + had > n + MINIALLOC then (Grow(h, a, n), Some(a))
      else
        var (h', p) := Alloc(h, n);
        AllocKeeps(h, n);
        AllocLives(h, n);
        assert a in Lives(h) && a in Lives(h');
        if p.Some? then (Free(h', a), p) else (h', None)
    else if n + HDR + MINIALLOC >= had then (h, Some(a))
    else (Shrink(h, a, n), Some(a))
  }

  // ------------------------------------------------ what happens to the live blocks

  lemma CutLives(t: Heap, a: int, m: int)
    requires Shape(t) && Separated(t, t.tail) && Counted(Bump(t)) && Live(t, a)
    requires a + HDR <= m && m + HDR <= t.next[a]
    ensures m !in t.next && Lives(Bump(CutFree(t, a, m))) == Lives(t)[a := m]
  {
    CutFreeKeeps(t, CutFree(t, a, m), a, m);
    CutFreeLives(t, a, m);
    assert Lives(Bump(CutFree(t, a, m))) == Lives(CutFree(t, a, m));
  }

  lemma BumpLives(t: Heap)
    ensures Lives(Bump(t)) == Lives(t)
  {
  }

  lemma Unlived(h: Heap, a: int)
    requires WellFormed(h) && a in h.free
    ensures a !in Lives(h) && a != h.tail
  {
  }

  lemma PlaceLives(h: Heap, a: int, n: int)
    requires WellFormed(h) && a in h.free && a in h.next && 0 <= n <= Size(h.next, a)
    ensures a !in Lives(h) && a in Place(h, a, n).next
    ensures Lives(Place(h, a, n)) == Lives(h)[a := Place(h, a, n).next[a]]
  {
    hide Separated, Counted, Shape, Lives;
    var t := Take(h, a);
    TakeKeeps(h, t, a);
    Unlived(h, a);
    TakeLives(h, a);
    if Size(h.next, a) >= n + HDR + MINIALLOC {
      CutLives(t, a, a + HDR + n);
    } else {
      BumpLives(t);
    }
  }

  /** A successful request adds one block; nothing else that is live moves or changes size. */
  lemma AllocLives(h: Heap, size: nat)
    requires WellFormed(h)
    ensures var (h', p) := Alloc(h, size);
            match p
            case None => h' == h
            case Some(a) => a !in Lives(h) && a in h'.next && Lives(h') == Lives(h)[a := h'.next[a]]
  {
    var n := Rounded(size);
    var k := FirstFit(h.free, h.next, n);
    if n < h.available && k < |h.free| {
      assert h.free[k] in h.free;
      PlaceLives(h, h.free[k], n);
    }
  }

  lemma CoalesceLives(h: Heap, a: int)
    requires Shape(h) && Counted(h) && Separated(h, a) && a in h.free && a in h.next
    ensures h.next[a] in h.next && (!h.used[h.next[a]] ==> h.next[a] in h.free)
    ensures Lives(Coalesce(h, a)) == Lives(h)
  {
    CoalesceKeeps(h, a);
    if !h.used[h.next[a]] { MergeLives(h, a); }
  }

  /** Releasing a block removes it and nothing else. */
  lemma FreeLives(h: Heap, a: int)
    requires WellFormed(h) && Live(h, a)
    ensures Lives(Free(h, a)) == Lives(h) - {a}
  {
    assert Doubly(h, a) && Doubly(h, h.prev[a]);
    if h.used[h.prev[a]] {
      PutFreeKeeps(h, PutFree(h, a), a);
      PutFreeLives(h, a);
      CoalesceLives(PutFree(h, a), a);
    } else {
      var l := h.prev[a];
      MergeLeftKeeps(h, MergeLeft(h, l), a, l);
      MergeLeftLives(h, l);
      CoalesceLives(MergeLeft(h, l), l);
    }
  }

  lemma GrowLives(h: Heap, a: int, n: nat)
    requires WellFormed(h) && Live(h, a) && Size(h.next, a) < n
    requires h.next[a] in h.next && h.next[a] in h.used && !h.used[h.next[a]]
    requires Size(h.next, h.next[a]) + Size(h.next, a) > n + MINIALLOC
    ensures h.next[a] in h.free && Lives(Grow(h, a, n)) == Lives(h)[a := a + HDR + n]
  {
    hide Separated, Counted, Shape, Lives;
    FreeIsListed(h, h.next[a]);
    var s := Swallow(h, a);
    SwallowKeeps(h, s, a);
    SwallowLives(h, a);
    CutLives(s, a, a + HDR + n);
  }

  lemma ShrinkLives(h: Heap, a: int, n: nat)
    requires WellFormed(h) && Live(h, a) && n + HDR + MINIALLOC < Size(h.next, a)
    ensures Lives(Shrink(h, a, n)) == Lives(h)[a := a + HDR + n]
  {
    hide Separated, Shape;
    var c := CutFree(h, a, a + HDR + n);
    CutFreeKeeps(h, c, a, a + HDR + n);
    CountedGrows(h, c);
    CutFreeLives(h, a, a + HDR + n);
    CoalesceLives(c, a + HDR + n);
  }

  ghost predicate Moved(h: Heap, a: int, n: nat, h': Heap, p: Option<int>) {
    match p
    case None => h' == h
    case Some(b) => Live(h', b) && Size(h'.next, b) >= n
                    && (b != a ==> b !in Lives(h))
                    && Lives(h') == (Lives(h) - {a})[b := h'.next[b]]
  }

  lemma FreeKeepsOther(h: Heap, a: int, b: int)
    requires WellFormed(h) && Live(h, a) && Live(h, b) && a != b
    ensures WellFormed(Free(h, a)) && Live(Free(h, a), b) && Free(h, a).next[b] == h.next[b]
    ensures Lives(Free(h, a)) == Lives(h) - {a}
  {
    FreeKeeps(h, a);
    FreeLives(h, a);
    assert b in Lives(h) - {a};
    assert b in Lives(Free(h, a));
  }

  lemma MovedAway(h: Heap, h': Heap, a: int, b: int, n: nat, f: Heap)
    requires a in Lives(h) && b !in Lives(h) && b in h'.next && Lives(h') == Lives(h)[b := h'.next[b]]
    requires Live(f, b) && f.next[b] == h'.next[b] && Lives(f) == Lives(h') - {a} && Size(f.next, b) >= n
    ensures Moved(h, a, n, f, Some(b))
  {
    assert Lives(h)[b := h'.next[b]] - {a} == (Lives(h) - {a})[b := h'.next[b]];
  }

  lemma MovedLives(h: Heap, a: int, n: nat)
    requires WellFormed(h) && Live(h, a)
    ensures var (h', p) := Alloc(h, n);
            match p
            case None => h' == h
            case Some(b) =>
                WellFormed(h') && Live(h', a) && b != a && WellFormed(Free(h', a))
                && Moved(h, a, Rounded(n), Free(h', a), p)
  {
    var (h', p) := Alloc(h, n);
    AllocKeeps(h, n);
    AllocLives(h, n);
    assert a in Lives(h);
    if p.Some? {
      assert a in Lives(h');
      FreeKeepsOther(h', a, p.value);
      MovedAway(h, h', a, p.value, Rounded(n), Free(h', a));
    }
  }

  /** A block resized in place, seen from the live blocks. */
  lemma MovedInPlace(h: Heap, a: int, n: nat, h': Heap)
    requires Live(h, a) && Live(h', a) && Size(h'.next, a) >= n
    requires Lives(h') == Lives(h)[a := h'.next[a]]
    ensures Moved(h, a, n, h', Some(a))
  {
    assert (Lives(h) - {a})[a := h'.next[a]] == Lives(h)[a := h'.next[a]];
  }

  lemma GrowMoved(h: Heap, a: int, n: nat)
    requires WellFormed(h) && Live(h, a) && Size(h.next, a) < n
    requires h.next[a] in h.next && h.next[a] in h.used && !h.used[h.next[a]]
    requires Size(h.next, h.next[a]) + Size(h.next, a) > n + MINIALLOC
    ensures h.next[a] in h.free && WellFormed(Grow(h, a, n)) && Moved(h, a, n, Grow(h, a, n), Some(a))
  {
    GrowKeeps(h, a, n);
    GrowLives(h, a, n);
    MovedInPlace(h, a, n, Grow(h, a, n));
  }

  lemma ShrinkMoved(h: Heap, a: int, n: nat)
    requires WellFormed(h) && Live(h, a) && n + HDR + MINIALLOC < Size(h.next, a)
    ensures WellFormed(Shrink(h, a, n)) && Moved(h, a, n, Shrink(h, a, n), Some(a))
  {
    ShrinkKeeps(h, a, n);
    ShrinkLives(h, a, n);
    MovedInPlace(h, a, n, Shrink(h, a, n));
  }

  /** Resizing: a failed one changes nothing, a block that stays in place keeps every other
      live block, a block that moves leaves its old place. The new block is large enough. */
  lemma ReallocMoves(h: Heap, a: int, size: nat)
    requires WellFormed(h) && Live(h, a)
    ensures WellFormed(Realloc(h, a, size).0)
    ensures Moved(h, a, Rounded(size), Realloc(h, a, size).0, Realloc(h, a, size).1)
  {
    var n := Rounded(size);
    var had := Size(h.next, a);
    assert Doubly(h, a);
    if n > had {
      if !h.used[h.next[a]] && Size(h.next, h.next[a]) + had > n + MINIALLOC {
        GrowMoved(h, a, n);
      } else {
        MovedLives(h, a, n);
      }
    } else if n + HDR + MINIALLOC < had {
      ShrinkMoved(h, a, n);
    } else {
      MovedInPlace(h, a, n, h);
    }
  }
}
