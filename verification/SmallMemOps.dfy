/** mem.c: rt_malloc, rt_free and rt_realloc as functions on the blocks. */
module SmallMemOps {
  import opened Options
  import opened Tiling
  import opened SmallMemBlocks

  /** The payload size rt_malloc looks for. */
  function Request(size: nat): nat {
    Max(Align4(size), MIN_SIZE)
  }

  /** The first-fit scan stops at block a. The scan only looks at offsets below memSize - n,
      where memSize = end - HDR. */
  ghost predicate Suits(h: Heap, n: nat, a: int) {
    a in h.next && a in h.used && !h.used[a] && Size(h.next, a) >= n && a < h.end - HDR - n
  }

  ghost predicate FirstSuit(h: Heap, n: nat, a: int) {
    Suits(h, n, a) && forall b :: Suits(h, n, b) ==> a <= b
  }

  /** Free block a gives n bytes, or all it has when the rest would be too small. */
  function Alloc(h: Heap, a: int, n: nat): Heap
    requires a in h.next
  {
    if Size(h.next, a) >= n + HDR + MIN_SIZE then CutFree(Take(h, a), a, a + HDR + n) else Take(h, a)
  }

  /** rt_malloc(size) leads from h to h' and returns p: nothing, exactly when the request is empty
      or too large or no block suits; otherwise the first block that suits. */
  ghost predicate Granted(h: Heap, size: nat, h': Heap, p: Option<int>) {
    if size == 0 || Align4(size) > h.end - HDR || (forall a :: !Suits(h, Request(size), a)) then
      p == None && h' == h
    else
      p.Some? && FirstSuit(h, Request(size), p.value - HDR) && h' == Alloc(h, p.value - HDR, Request(size))
  }

  function PlugForward(h: Heap, m: int): Heap
    requires m in h.next && h.next[m] in h.next && h.next[m] in h.used && h.next[h.next[m]] in h.next
  {
    if m != h.next[m] && !h.used[h.next[m]] && h.next[m] != h.end then Merge(h, m) else h
  }

  function PlugBackward(h: Heap, m: int): Heap
    requires m in h.prev && h.prev[m] in h.used && h.prev[m] in h.next && h.next[h.prev[m]] in h.next
  {
    if h.prev[m] != m && !h.used[h.prev[m]] then Merge(h, h.prev[m]) else h
  }

  /** What plug_holes needs: m is free, and only m and its predecessor may have a free neighbour. */
  ghost predicate Hole(h: Heap, m: int) {
    && Shape(h) && Accounts(h) && m in h.next && m != h.end && !h.used[m]
    && Backed(h, m) && Separated(h, m, h.prev[m])
  }

  /** What is left after the forward half. */
  ghost predicate HalfPlugged(h: Heap, m: int) {
    && Shape(h) && Accounts(h) && m in h.next && m != h.end && !h.used[m]
    && Backed(h, m) && Apart(h, m) && Separated(h, h.prev[m], h.prev[m])
  }

  lemma ForwardFacts(h: Heap, m: int)
    requires Hole(h, m)
    ensures m in h.next && h.next[m] in h.next && h.next[m] in h.used && h.next[h.next[m]] in h.next
    ensures m in h.used && h.used.Keys == h.next.Keys && m < h.next[m] && (!h.used[h.next[m]] ==> h.next[m] != h.end)
    ensures !h.used[h.next[m]] ==> h.next[m] < h.next[h.next[m]]
  {
    assert Step(h.next, HDR, h.end, m) && Step(h.next, HDR, h.end, h.next[m]);
  }

  lemma BackwardFacts(h: Heap, m: int)
    requires HalfPlugged(h, m)
    ensures m in h.prev && m in h.next && m in h.used && h.prev[m] in h.next && h.prev[m] in h.used
    ensures h.next[h.prev[m]] in h.next && h.prev[m] != h.end && (h.prev[m] != m ==> h.next[h.prev[m]] == m)
  {
    assert Step(h.next, HDR, h.end, h.prev[m]);
  }

  lemma PlugForwardKeeps(h: Heap, m: int)
    requires Hole(h, m)
    ensures m in h.next && h.next[m] in h.next && h.next[m] in h.used && h.next[h.next[m]] in h.next
    ensures HalfPlugged(PlugForward(h, m), m) && Lives(PlugForward(h, m)) == Lives(h)
  {
    ForwardFacts(h, m);
    var p := h.prev[m];
    assert Step(h.next, HDR, h.end, p);
    var g := PlugForward(h, m);
    if !h.used[h.next[m]] {
      MergeKeeps(h, m, if p == m then h.end else p);
      assert Backed(g, m);
      assert Apart(h, h.next[m]);
    }
  }

  lemma PlugBackwardKeeps(h: Heap, m: int)
    requires HalfPlugged(h, m)
    ensures m in h.prev && m in h.next && h.prev[m] in h.next && h.prev[m] in h.used && h.next[h.prev[m]] in h.next
    ensures Blocks(PlugBackward(h, m)) && Lives(PlugBackward(h, m)) == Lives(h)
  {
    BackwardFacts(h, m);
    var p := h.prev[m];
    if p != m && !h.used[p] {
      assert Separated(h, p, h.end);
      assert Step(h.next, HDR, h.end, m);
      MergeKeeps(h, p, h.end);
    }
  }

  // -------------------------------------------------------------- operations

  /** plug_holes */
  function Plug(h: Heap, m: int): Heap
    requires Hole(h, m)
  {
    PlugForwardKeeps(h, m);
    BackwardFacts(PlugForward(h, m), m);
    PlugBackward(PlugForward(h, m), m)
  }

  /** rt_free of block a */
  function Free(h: Heap, a: int): Heap
    requires Blocks(h) && a in Lives(h)
  {
    FreeHole(h, a);
    Plug(Release(h, a), a)
  }

  /** rt_realloc of block a to far fewer bytes */
  function Shrink(h: Heap, a: int, n: nat): Heap
    requires Blocks(h) && a in Lives(h) && n + HDR + MIN_SIZE < Size(h.next, a)
  {
    ShrinkHole(h, a, n);
    Plug(CutFree(h, a, a + HDR + n), a + HDR + n)
  }

  lemma PlugKeeps(h: Heap, m: int)
    requires Hole(h, m)
    ensures Blocks(Plug(h, m)) && Lives(Plug(h, m)) == Lives(h) && Plug(h, m).end == h.end
  {
    PlugForwardKeeps(h, m);
    PlugBackwardKeeps(PlugForward(h, m), m);
  }

  lemma FreeHole(h: Heap, a: int)
    requires Blocks(h) && a in Lives(h)
    ensures a in h.order && Hole(Release(h, a), a) && Lives(Release(h, a)) == Lives(h) - {a}
  {
    ReleaseKeeps(h, a);
    assert Backed(Release(h, a), a);
  }

  lemma ShrinkHole(h: Heap, a: int, n: nat)
    requires Blocks(h) && a in Lives(h) && n + HDR + MIN_SIZE < Size(h.next, a)
    ensures h.next[a] in h.next && a + HDR + n !in h.next
    ensures Hole(CutFree(h, a, a + HDR + n), a + HDR + n)
    ensures Lives(CutFree(h, a, a + HDR + n)) == Lives(h)[a := a + HDR + n]
  {
    var m := a + HDR + n;
    CutFreeKeeps(h, a, m);
    assert Step(h.next, HDR, h.end, a);
    var c := CutFree(h, a, m);
    assert Backed(c, m);
    hide Blocks, Shape, Accounts;
    assert Separated(c, m, a);
  }

  /** Only block a disappears from the blocks handed out. */
  lemma FreeKeeps(h: Heap, a: int)
    requires Blocks(h) && a in Lives(h)
    ensures Blocks(Free(h, a)) && Lives(Free(h, a)) == Lives(h) - {a} && Free(h, a).end == h.end
  {
    FreeHole(h, a);
    PlugKeeps(Release(h, a), a);
  }

  lemma ShrinkKeeps(h: Heap, a: int, n: nat)
    requires Blocks(h) && a in Lives(h) && n + HDR + MIN_SIZE < Size(h.next, a)
    ensures Blocks(Shrink(h, a, n)) && Lives(Shrink(h, a, n)) == Lives(h)[a := a + HDR + n]
            && Shrink(h, a, n).end == h.end
  {
    ShrinkHole(h, a, n);
    PlugKeeps(CutFree(h, a, a + HDR + n), a + HDR + n);
  }

  /** Only block a is new; it has at least n bytes, and every other block keeps its place and size. */
  lemma AllocKeeps(h: Heap, a: int, n: nat)
    requires Blocks(h) && Suits(h, n, a)
    ensures Alloc(h, a, n).end == h.end
    ensures Blocks(Alloc(h, a, n)) && a in Lives(Alloc(h, a, n)) && Lives(Alloc(h, a, n))[a] >= a + HDR + n
    ensures Lives(Alloc(h, a, n)) == Lives(h)[a := Lives(Alloc(h, a, n))[a]]
  {
    hide Blocks;
    var t := Take(h, a);
    TakeKeeps(h, a);
    assert a in Lives(t);
    if Size(h.next, a) >= n + HDR + MIN_SIZE {
      CutBeforeUsed(t, a, a + HDR + n);
      hide Lives;
    }
  }

  /** The block behind the cut-off piece is used. */
  lemma CutBeforeUsed(t: Heap, a: int, m: int)
    requires Blocks(t) && a in t.next && a in t.used && t.used[a] && a != t.end && a + HDR <= m && m + HDR <= t.next[a]
    requires t.next[a] in t.used && t.used[t.next[a]]
    ensures t.next[a] in t.next && Blocks(CutFree(t, a, m)) && Lives(CutFree(t, a, m)) == Lives(t)[a := m]
    ensures m !in t.next
  {
    CutFreeKeeps(t, a, m);
    LastApart(CutFree(t, a, m), m);
  }

  lemma LastApart(c: Heap, m: int)
    requires Separated(c, m, m) && m in c.used && m in c.next && c.next[m] in c.used && c.used[c.next[m]]
    ensures Separated(c, c.end, c.end)
  {
    assert Apart(c, m);
  }

  /** Among the blocks handed out, block a has given way to block b, which reaches at least to end.
      All others keep their place and size. */
  ghost predicate Replaced(lives: map<int, int>, lives': map<int, int>, a: int, b: int, end: int) {
    b in lives' && lives'[b] >= end && (b == a || b !in lives) && lives' - {b} == lives - {a}
  }

  ghost predicate Gained(lives: map<int, int>, lives': map<int, int>, b: int, end: int) {
    b in lives' && lives'[b] >= end && b !in lives && lives' - {b} == lives
  }

  /** A new block p of at least size bytes, or no change. */
  lemma GrantedLives(h: Heap, size: nat, h': Heap, p: Option<int>)
    requires Blocks(h) && Granted(h, size, h', p)
    ensures Blocks(h') && h'.end == h.end && (p.None? ==> h' == h)
    ensures p.Some? ==> Gained(Lives(h), Lives(h'), p.value - HDR, p.value + Align4(size))
  {
    if p.Some? {
      hide Blocks;
      AllocKeeps(h, p.value - HDR, Request(size));
      assert p.value - HDR !in Lives(h);
      hide Lives, Blocks, Alloc, Suits;
    }
  }

  lemma GainThenFree(l: map<int, int>, g: map<int, int>, l': map<int, int>, a: int, b: int, end: int)
    requires Gained(l, g, b, end) && a in l && l' == g - {a}
    ensures Replaced(l, l', a, b, end)
  {
    assert l' - {b} == (g - {b}) - {a};
  }

  /** rt_realloc of block a to a block that a cannot hold or would waste: a new block first. */
  ghost predicate Moved(h: Heap, a: int, n: nat, h': Heap, p: Option<int>)
    requires Blocks(h) && a in Lives(h)
  {
    exists g ::
      && Granted(h, n, g, p)
      && (if p.None? then h' == h else Blocks(g) && a in Lives(g) && h' == Free(g, a))
  }

  /** rt_realloc of block a leads from h to h' and returns p. */
  ghost predicate Reallocated(h: Heap, a: int, newsize: nat, h': Heap, p: Option<int>)
    requires Blocks(h) && a in Lives(h)
  {
    var n, size := Align4(newsize), Size(h.next, a);
    if n > h.end - HDR then p == None && h' == h
    else if n == 0 then p == None && h' == Free(h, a)
    else if n == size then p == Some(a + HDR) && h' == h
    else if n + HDR + MIN_SIZE < size then p == Some(a + HDR) && h' == Shrink(h, a, n)
    else Moved(h, a, n, h', p)
  }

  lemma ReplacedBySelf(l: map<int, int>, l': map<int, int>, a: int, e: int, end: int)
    requires a in l && l' == l[a := e] && e >= end
    ensures Replaced(l, l', a, a, end)
  {
  }

  lemma ReplacedLess(l: map<int, int>, l': map<int, int>, a: int, b: int, end: int, end': int)
    requires Replaced(l, l', a, b, end) && end' <= end
    ensures Replaced(l, l', a, b, end')
  {
  }

  /** After a successful rt_realloc, block a has given way to a block of at least the new size;
      after a failed one nothing has changed. No other block is touched either way. */
  lemma ReallocatedLives(h: Heap, a: int, newsize: nat, h': Heap, p: Option<int>)
    requires Blocks(h) && a in Lives(h) && Reallocated(h, a, newsize, h', p)
    ensures Blocks(h') && h'.end == h.end
    ensures newsize == 0 ==> p.None? && Lives(h') == Lives(h) - {a}
    ensures newsize > 0 && p.None? ==> h' == h
    ensures p.Some? ==> Replaced(Lives(h), Lives(h'), a, p.value - HDR, p.value + newsize)
  {
    var n := Align4(newsize);
    hide Blocks, Moved, Lives, Align4, Replaced, Shrink, Free;
    LiveExtent(h, a);
    AlignUp(newsize);
    if n > h.end - HDR {
    } else if n == 0 {
      FreeKeeps(h, a);
    } else if n == Size(h.next, a) {
      assert Lives(h) == Lives(h)[a := a + HDR + n];
      ReplacedBySelf(Lives(h), Lives(h), a, a + HDR + n, a + HDR + newsize);
    } else if n + HDR + MIN_SIZE < Size(h.next, a) {
      ShrinkKeeps(h, a, n);
      ReplacedBySelf(Lives(h), Lives(h'), a, a + HDR + n, a + HDR + newsize);
    } else {
      MovedLives(h, a, n, h', p);
      AlignUp(n);
      if p.Some? { ReplacedLess(Lives(h), Lives(h'), a, p.value - HDR, p.value + Align4(n), p.value + newsize); }
    }
  }

  lemma LiveExtent(h: Heap, a: int)
    requires Blocks(h) && a in Lives(h)
    ensures a in h.next && Lives(h)[a] == a + HDR + Size(h.next, a) && h.end >= HDR
  {
    assert Step(h.next, HDR, h.end, a);
  }

  lemma AlignUp(n: nat)
    ensures Align4(n) >= n && (n == 0 ==> Align4(n) == 0)
  {
  }

  lemma MovedLives(h: Heap, a: int, n: nat, h': Heap, p: Option<int>)
    requires Blocks(h) && a in Lives(h) && Moved(h, a, n, h', p)
    ensures Blocks(h') && h'.end == h.end && (p.None? ==> h' == h)
    ensures p.Some? ==> Replaced(Lives(h), Lives(h'), a, p.value - HDR, p.value + Align4(n))
  {
    hide Granted, Blocks, Lives, Free, Replaced, Gained;
    var g :| Granted(h, n, g, p) && (if p.None? then h' == h else Blocks(g) && a in Lives(g) && h' == Free(g, a));
    GrantedLives(h, n, g, p);
    if p.Some? {
      FreeKeeps(g, a);
      GainThenFree(Lives(h), Lives(g), Lives(h'), a, p.value - HDR, p.value + Align4(n));
    }
  }

  // ------------------------------------------------------------------- lfree

  lemma AllocLowest(h: Heap, l: int, a: int, n: nat)
    requires Blocks(h) && Suits(h, n, a) && Lowest(h, l)
    ensures var h' := Alloc(h, a, n); l in h'.next && UsedBelow(h', l) && (a != l ==> Lowest(h', l))
  {
    assert Step(h.next, HDR, h.end, a);
  }

  lemma ReleaseLowest(h: Heap, l: int, a: int)
    requires Blocks(h) && Lowest(h, l) && a in Lives(h) && a in h.order
    ensures Lowest(Release(h, a), if a < l then a else l)
  {
  }

  lemma CutLowest(h: Heap, l: int, a: int, m: int)
    requires Blocks(h) && Lowest(h, l) && a in Lives(h) && h.next[a] in h.next && m !in h.next
    ensures Lowest(CutFree(h, a, m), if m < l then m else l)
  {
  }

  lemma MergeLowest(h: Heap, l: int, a: int)
    requires Shape(h) && Lowest(h, l) && a in h.next && !h.used[a] && h.next[a] in h.next && !h.used[h.next[a]]
    ensures h.next[h.next[a]] in h.next && Lowest(Merge(h, a), if l == h.next[a] then a else l)
  {
    assert Step(h.next, HDR, h.end, a);
    assert Step(h.next, HDR, h.end, h.next[a]);
  }

  /** Moving lfree past a used block. */
  lemma LowestStep(h: Heap, l: int)
    requires Shape(h) && l in h.next && l != h.end && h.used[l] && UsedBelow(h, l)
    ensures h.next[l] in h.next && l < h.next[l] && UsedBelow(h, h.next[l])
  {
    assert Step(h.next, HDR, h.end, l);
    forall x | x in h.next && x in h.used && x < h.next[l]
      ensures h.used[x]
    {
      InOrder(h.next, h.end, l, x);
    }
  }
}
