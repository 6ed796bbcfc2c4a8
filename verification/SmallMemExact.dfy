/** mem.c: what each call does, told by the blocks that are live and by the fields before the call. */
module SmallMemExact {
  import opened Options
  import opened Rings
  import opened Tiling
  import opened SmallMemBlocks
  import opened SmallMemOps
  import opened SmallMemLaws

  // --------------------------------------------- the live blocks decide the rest

  lemma EndsAtLive(h: Heap, a: int)
    requires Blocks(h) && a in h.next && a != h.end && a !in Lives(h)
    ensures a in h.used && !h.used[a] && a < h.next[a] <= h.end && (h.next[a] == h.end || h.next[a] in Lives(h))
    ensures forall b :: b in h.next && a < b ==> h.next[a] <= b
  {
    assert Apart(h, a) && Step(h.next, HDR, h.end, a);
  }

  /** A free block ends where the next live block or heap_end begins. */
  lemma SameBlock(h: Heap, g: Heap, a: int)
    requires Blocks(h) && Blocks(g) && h.end == g.end && Lives(h) == Lives(g) && a in h.next && a in g.next
    ensures h.next[a] == g.next[a] && a in h.used && a in g.used && h.used[a] == g.used[a]
  {
    if a in Lives(h) {
      assert Lives(h)[a] == h.next[a] && Lives(g)[a] == g.next[a];
    } else if a != h.end {
      EndsAtLive(h, a);
      EndsAtLive(g, a);
    }
  }

  lemma {:induction false} SameFrom(h: Heap, g: Heap, a: int)
    requires Blocks(h) && Blocks(g) && h.end == g.end && Lives(h) == Lives(g) && a in h.next && a in g.next
             && a <= h.end
    ensures forall b :: a <= b && b in h.next ==>
              b in g.next && h.next[b] == g.next[b] && b in h.used && b in g.used && h.used[b] == g.used[b]
    decreases h.end - a
  {
    SameBlock(h, g, a);
    NextStands(h, a);
    NextStands(g, a);
    hide Blocks, Lives;
    if a != h.end { SameFrom(h, g, h.next[a]); }
  }

  lemma NextStands(h: Heap, a: int)
    requires Blocks(h) && a in h.next
    ensures a != h.end ==> h.next[a] in h.next && a < h.next[a] <= h.end
    ensures forall b :: a <= b && b in h.next ==> b == a || (a != h.end && h.next[a] <= b)
  {
    assert Step(h.next, HDR, h.end, a);
  }

  /** A heap is known by its live blocks: where the blocks are, which are free, and used_mem follow from them. */
  lemma LivesDecide(h: Heap, g: Heap)
    requires Blocks(h) && Blocks(g) && h.end == g.end && Lives(h) == Lives(g)
    ensures h.next == g.next && h.used == g.used && h.usedMem == g.usedMem
  {
    hide Blocks, Lives;
    FromStart(h);
    FromStart(g);
    SameFrom(h, g, 0);
    SameFrom(g, h, 0);
    assert forall b :: b in h.next ==> 0 <= b && b in g.next;
    assert forall b :: b in g.next ==> 0 <= b && b in h.next;
    assert h.next.Keys == g.next.Keys && h.used.Keys == g.used.Keys;
    assert h.next == g.next && h.used == g.used;
    assert forall a :: a in h.order <==> a in g.order;
    TotalSame(h.order, g.order, h.next, 0);
  }

  lemma FromStart(h: Heap)
    requires Blocks(h)
    ensures 0 in h.next && 0 <= h.end && h.used.Keys == h.next.Keys && forall b :: b in h.next ==> 0 <= b
    ensures NoDup(h.order) && (forall a :: a in h.order <==> a in h.next && a in h.used && h.used[a] && a != h.end)
    ensures (forall a :: a in h.order ==> a in h.next) && h.usedMem == Total(h.order, h.next, 0)
  {
  }

  // ------------------------------------------------------------------ requests

  /** Free block a has room for n bytes and begins below the limit of the scan. */
  ghost predicate HasRoom(h: Heap, a: int, n: int) {
    a in h.next && a in h.used && !h.used[a] && h.next[a] - a - 12 >= n && a < h.end - 12 - n
  }

  /** rt_malloc: the size is rounded up to a multiple of 4, and to 12 at least. Null exactly when the size is 0 or too
      large or no block has room, and then nothing changes. Otherwise the lowest block with room is live: it ends
      behind the rounded size when 24 bytes or more are left, and keeps its end otherwise. */
  lemma MallocExact(h: Heap, size: nat, h': Heap, p: Option<int>)
    requires Blocks(h) && Granted(h, size, h', p)
    ensures var n := Max(Align4(size), 12);
            && (p.None? <==> size == 0 || Align4(size) > h.end - 12 || forall a :: !HasRoom(h, a, n))
            && (p.None? ==> h' == h)
            && (p.Some? ==>
                  var a := p.value - 12;
                  && HasRoom(h, a, n) && (forall b :: HasRoom(h, b, n) ==> a <= b)
                  && var e := if h.next[a] - a >= n + 36 then a + 12 + n else h.next[a];
                     Lives(h') == Lives(h)[a := e] && h'.usedMem == h.usedMem + e - a)
  {
    var n := Request(size);
    assert forall a :: HasRoom(h, a, n) <==> Suits(h, n, a);
    if p.Some? {
      var a := p.value - HDR;
      assert Suits(h, n, a);
      AllocFields(h, a, n);
    }
  }

  lemma AllocFields(h: Heap, a: int, n: nat)
    requires Blocks(h) && Suits(h, n, a)
    ensures var e := if h.next[a] - a >= n + 36 then a + 12 + n else h.next[a];
              Lives(Alloc(h, a, n)) == Lives(h)[a := e] && Alloc(h, a, n).usedMem == h.usedMem + e - a
  {
    AllocKeeps(h, a, n);
    assert Step(h.next, HDR, h.end, a);
  }

  /** The request is rounded up to the next multiple of 4. */
  lemma AlignLeast(size: nat)
    ensures Align4(size) % 4 == 0 && Align4(size) >= size
    ensures forall m :: m % 4 == 0 && m >= size ==> Align4(size) <= m
  {
  }

  /** rt_free: the block is not live any more, and used_mem is less by its extent. */
  lemma FreeExact(h: Heap, a: int)
    requires Blocks(h) && a in Lives(h)
    ensures Blocks(Free(h, a)) && Lives(Free(h, a)) == Lives(h) - {a}
    ensures Free(h, a).usedMem == h.usedMem - (Lives(h)[a] - a)
  {
    FreeKeeps(h, a);
    FreeHole(h, a);
    PlugFields(Release(h, a), a);
    hide Blocks, Plug;
  }

  lemma PlugFields(h: Heap, m: int)
    requires Hole(h, m)
    ensures Plug(h, m).usedMem == h.usedMem
  {
    PlugForwardKeeps(h, m);
    BackwardFacts(PlugForward(h, m), m);
  }

  lemma ShrinkExact(h: Heap, a: int, n: nat)
    requires Blocks(h) && a in Lives(h) && n + HDR + MIN_SIZE < Size(h.next, a)
    ensures Blocks(Shrink(h, a, n)) && Lives(Shrink(h, a, n)) == Lives(h)[a := a + HDR + n]
    ensures Shrink(h, a, n).usedMem == h.usedMem - (Lives(h)[a] - (a + HDR + n))
  {
    ShrinkKeeps(h, a, n);
    ShrinkHole(h, a, n);
    PlugFields(CutFree(h, a, a + HDR + n), a + HDR + n);
    hide Blocks, Plug;
  }

  /** Null and nothing else when no block has room; otherwise a new block, and block a is not live any more. */
  ghost predicate Moves(h: Heap, a: int, n: nat, h': Heap, p: Option<int>) {
    && (p.None? <==> forall b :: !HasRoom(h, b, Max(n, 12))) && (p.None? ==> h' == h) && p != Some(a + 12)
    && (p.Some? ==> exists g :: Granted(h, n, g, p) && Blocks(g) && a in Lives(g) && Lives(h') == Lives(g) - {a})
  }

  /** rt_realloc of a live block, by the size it has and the aligned size n it is to have: too large and 0 as for
      rt_malloc and rt_free; nothing when the size is the same; the end moves when more than 24 bytes would be left;
      otherwise the block moves, even to become smaller, or stays as it is with null when no block has room. */
  lemma ReallocExact(h: Heap, a: int, newsize: nat, h': Heap, p: Option<int>)
    requires Blocks(h) && a in Lives(h) && Reallocated(h, a, newsize, h', p)
    ensures var n, size := Align4(newsize), Lives(h)[a] - a - 12;
            if n > h.end - 12 then p == None && h' == h
            else if n == 0 then p == None && Lives(h') == Lives(h) - {a}
            else if n == size then p == Some(a + 12) && h' == h
            else if n + 24 < size then p == Some(a + 12) && Lives(h') == Lives(h)[a := a + 12 + n]
            else Moves(h, a, n, h', p)
  {
    hide Lives, Blocks, Shrink, Free, Align4, Granted, HasRoom, Moved, Moves, Reallocated;
    LiveEnd(h, a);
    var n, size := Align4(newsize), Lives(h)[a] - a - 12;
    if n > h.end - 12 {
      InPlace(h, a, newsize, h', p);
    } else if n == 0 {
      Released(h, a, newsize, h', p);
    } else if n == size {
      InPlace(h, a, newsize, h', p);
    } else if n + 24 < size {
      Cut(h, a, newsize, h', p);
    } else {
      MovedOnly(h, a, newsize, h', p);
      MoveExact(h, a, newsize, h', p);
    }
  }

  lemma InPlace(h: Heap, a: int, newsize: nat, h': Heap, p: Option<int>)
    requires Blocks(h) && a in Lives(h) && Reallocated(h, a, newsize, h', p) && a in h.next
    requires Align4(newsize) > h.end - HDR || (Align4(newsize) > 0 && Align4(newsize) == Size(h.next, a))
    ensures h' == h && p == if Align4(newsize) > h.end - HDR then None else Some(a + HDR)
  {
    hide Lives, Blocks, Shrink, Free, Align4, Moved;
  }

  lemma Released(h: Heap, a: int, newsize: nat, h': Heap, p: Option<int>)
    requires Blocks(h) && a in Lives(h) && Reallocated(h, a, newsize, h', p) && 0 == Align4(newsize) <= h.end - HDR
    ensures p == None && Lives(h') == Lives(h) - {a}
  {
    FreeExact(h, a);
    hide Lives, Blocks, Shrink, Free, Align4, Moved;
  }

  lemma Cut(h: Heap, a: int, newsize: nat, h': Heap, p: Option<int>)
    requires Blocks(h) && a in Lives(h) && Reallocated(h, a, newsize, h', p) && a in h.next
    requires 0 < Align4(newsize) <= h.end - HDR && Align4(newsize) + HDR + MIN_SIZE < Size(h.next, a)
    ensures p == Some(a + HDR) && Lives(h') == Lives(h)[a := a + HDR + Align4(newsize)]
  {
    hide Lives, Blocks, Shrink, Free, Align4, Moved;
    ShrinkExact(h, a, Align4(newsize));
  }

  lemma MovedOnly(h: Heap, a: int, newsize: nat, h': Heap, p: Option<int>)
    requires Blocks(h) && a in Lives(h) && Reallocated(h, a, newsize, h', p) && a in h.next
    requires 0 < Align4(newsize) <= h.end - HDR
    requires Align4(newsize) != Size(h.next, a) && Align4(newsize) + HDR + MIN_SIZE >= Size(h.next, a)
    ensures Moved(h, a, Align4(newsize), h', p)
  {
    hide Lives, Blocks, Shrink, Free, Align4, Moved;
  }

  lemma LiveEnd(h: Heap, a: int)
    requires a in Lives(h)
    ensures a in h.next && Lives(h)[a] == h.next[a]
  {
  }

  lemma MoveExact(h: Heap, a: int, newsize: nat, h': Heap, p: Option<int>)
    requires Blocks(h) && a in Lives(h) && 0 < Align4(newsize) <= h.end - HDR && Moved(h, a, Align4(newsize), h', p)
    ensures var n := Align4(newsize);
            Moves(h, a, n, h', p)
  {
    hide Blocks, Lives, Granted, Free, HasRoom, Align4;
    var n := Align4(newsize);
    var g :| Granted(h, n, g, p) && (if p.None? then h' == h else Blocks(g) && a in Lives(g) && h' == Free(g, a));
    AlignedTwice(newsize);
    MallocExact(h, n, g, p);
    Unused(h, a, n);
    if p.Some? { FreeExact(g, a); }
  }

  lemma AlignedTwice(n: nat)
    ensures Align4(Align4(n)) == Align4(n)
  {
  }

  lemma Unused(h: Heap, a: int, n: nat)
    requires a in Lives(h)
    ensures !HasRoom(h, a, Max(n, 12))
  {
  }

  // ----------------------------------------------------------------- alignment

  /** Every block begins at a multiple of 4, so every pointer is one as well. */
  ghost predicate Aligned(h: Heap) {
    h.end % 4 == 0 && forall a :: a in Lives(h) ==> a % 4 == 0 && Lives(h)[a] % 4 == 0
  }

  /** With all live blocks at multiples of 4, so are the free ones. */
  lemma FreeAligned(h: Heap, a: int)
    requires Blocks(h) && Aligned(h) && a in h.next
    ensures a % 4 == 0
  {
    if a != 0 && a != h.end {
      assert Backed(h, a) && Step(h.next, HDR, h.end, h.prev[a]);
      var b := h.prev[a];
      assert Apart(h, b);
      assert a in Lives(h) || (b in Lives(h) && Lives(h)[b] == a);
    }
  }

  lemma CallAligned(h: Heap, h': Heap)
    requires Blocks(h) && Aligned(h) && Call(h, h')
    ensures Aligned(h')
  {
    CallKeeps(h, h');
    if size, p :| Granted(h, size, h', p) {
      GrantAligned(h, size, h', p);
    } else if a :| a in Lives(h) && h' == Free(h, a) {
      FreeExact(h, a);
    } else {
      var a, size, p :| a in Lives(h) && Reallocated(h, a, size, h', p);
      ReallocAligned(h, a, size, h', p);
    }
  }

  lemma GrantAligned(h: Heap, size: nat, h': Heap, p: Option<int>)
    requires Blocks(h) && Aligned(h) && Granted(h, size, h', p)
    ensures Aligned(h')
  {
    hide Blocks, Lives, Granted, Align4, HasRoom, Aligned;
    MallocExact(h, size, h', p);
    GrantedLives(h, size, h', p);
    if p.Some? {
      RoomFacts(h, p.value - 12, Max(Align4(size), 12));
      FreeAligned(h, p.value - 12);
      FreeAligned(h, h.next[p.value - 12]);
      Fours(p.value - 12, size);
      AddAligned(h, h', p.value - 12, Lives(h')[p.value - 12]);
    }
  }

  lemma RoomFacts(h: Heap, a: int, n: int)
    requires Blocks(h) && HasRoom(h, a, n) && n >= 12
    ensures a in h.next && h.next[a] in h.next && a != h.end
  {
    NextStands(h, a);
  }

  lemma Fours(a: int, size: nat)
    requires a % 4 == 0
    ensures (a + 12 + Max(Align4(size), 12)) % 4 == 0 && (a + 12 + Align4(size)) % 4 == 0
  {
    AlignLeast(size);
    hide Align4;
  }

  lemma AddAligned(h: Heap, h': Heap, a: int, e: int)
    requires Aligned(h) && h'.end == h.end && Lives(h') == Lives(h)[a := e] && a % 4 == 0 && e % 4 == 0
    ensures Aligned(h')
  {
    hide Lives;
  }

  lemma LessAligned(h: Heap, h': Heap, a: int)
    requires Aligned(h) && h'.end == h.end && Lives(h') == Lives(h) - {a}
    ensures Aligned(h')
  {
    hide Lives;
  }

  lemma ReallocAligned(h: Heap, a: int, newsize: nat, h': Heap, p: Option<int>)
    requires Blocks(h) && Aligned(h) && a in Lives(h) && Reallocated(h, a, newsize, h', p)
    ensures Aligned(h')
  {
    hide Blocks, Lives, Granted, Align4, HasRoom, Reallocated, Aligned;
    var n := Align4(newsize);
    ReallocExact(h, a, newsize, h', p);
    ReallocatedLives(h, a, newsize, h', p);
    LiveAligned(h, a);
    Fours(a, newsize);
    if p.Some? && p != Some(a + 12) {
      var g :| Granted(h, n, g, p) && Blocks(g) && a in Lives(g) && Lives(h') == Lives(g) - {a};
      GrantAligned(h, n, g, p);
      GrantedLives(h, n, g, p);
      LessAligned(g, h', a);
    } else if n == 0 && h' != h {
      LessAligned(h, h', a);
    } else if p.Some? && h' != h {
      AddAligned(h, h', a, a + 12 + n);
    }
  }

  lemma LiveAligned(h: Heap, a: int)
    requires Aligned(h) && a in Lives(h)
    ensures a % 4 == 0
  {
  }

  /** All blocks of all runs begin at multiples of 4 when the heap has a multiple of 4 bytes. */
  lemma {:induction false} RunsAligned(run: seq<Heap>, memSize: nat, i: nat, a: int)
    requires Run(run, memSize) && i < |run| && memSize % 4 == 0 && a in run[i].next
    ensures a % 4 == 0
  {
    RunAligned(run, memSize, i);
    RunsKeep(run, memSize, i);
    FreeAligned(run[i], a);
  }

  lemma FreshAligned(memSize: nat)
    requires memSize % 4 == 0
    ensures Aligned(Fresh(memSize))
  {
    FreshKeeps(memSize);
  }

  lemma {:induction false} RunAligned(run: seq<Heap>, memSize: nat, i: nat)
    requires Run(run, memSize) && i < |run| && memSize % 4 == 0
    ensures Aligned(run[i])
  {
    hide Blocks, Aligned, Call, Fresh;
    if i == 0 {
      FreshAligned(memSize);
    } else {
      RunAligned(run, memSize, i - 1);
      RunsKeep(run, memSize, i - 1);
      CallAligned(run[i - 1], run[i]);
    }
  }
}
