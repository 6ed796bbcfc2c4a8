/** mem.c: the lowest-free heap. Block headers are kept by their offset from heap_ptr, one map
    for each header field; a header that a merge swallows leaves the maps, so a later read
    through it would not verify. A pointer to a payload is the offset behind its header. `data`
    holds the bytes written by the users of the heap; a new header destroys those it covers. */
module SmallMem {
  import opened Options
  import opened Rings
  import opened Tiling
  import opened Payloads
  import opened SmallMemBlocks
  import opened SmallMemOps

  lemma WalkFacts(h: Heap, p: int)
    requires Blocks(h) && p in h.next && p != h.end
    ensures h.next[p] in h.next && p < h.next[p] <= h.end && p in h.used && h.used.Keys == h.next.Keys
    ensures forall b :: b in h.next && b < h.next[p] ==> b <= p
  {
    assert Step(h.next, HDR, h.end, p);
    forall b | b in h.next && b < h.next[p]
      ensures b <= p
    {
      InOrder(h.next, h.end, p, b);
    }
  }

  lemma LiveFacts(h: Heap, a: int)
    requires Blocks(h) && a in Lives(h)
    ensures a in h.next && a in h.used && h.used[a] && a != h.end && h.next[a] in h.next && a + HDR <= h.next[a]
            && a in h.order && a in h.prev
    ensures Lives(h)[a] == h.next[a]
  {
    assert Step(h.next, HDR, h.end, a);
    assert Backed(h, a);
  }

  /** A header at m inside block a is clear of every other live block. */
  lemma HeaderClear(h: Heap, a: int, m: int)
    requires Blocks(h) && a in h.next && a != h.end && a + HDR <= m && m + HDR <= h.next[a]
    ensures forall b :: b in Lives(h) && b != a ==> m + HDR <= b + HDR || Lives(h)[b] <= m
  {
    forall b | b in Lives(h) && b != a
      ensures m + HDR <= b + HDR || Lives(h)[b] <= m
    {
      assert if a < b then h.next[a] <= b else h.next[b] <= a;
    }
  }

  /** A block that suits has room, and is not live. */
  lemma SuitsClear(h: Heap, a: int, n: nat)
    requires Blocks(h) && Suits(h, n, a)
    ensures a !in Lives(h)
    ensures Size(h.next, a) >= n + HDR + MIN_SIZE ==>
              forall b :: b in Lives(h) ==> a + HDR + n + HDR <= b + HDR || Lives(h)[b] <= a + HDR + n
  {
    if Size(h.next, a) >= n + HDR + MIN_SIZE { HeaderClear(h, a, a + HDR + n); }
  }

  /** The new block is clear of every block that was live. */
  lemma GrantedClear(h: Heap, size: nat, h': Heap, p: Option<int>)
    requires Blocks(h) && Granted(h, size, h', p) && p.Some?
    ensures forall x :: x in Lives(h) ==> p.value + size <= x + HDR || Lives(h)[x] <= p.value
  {
    var a := p.value - HDR;
    assert Align4(size) >= size;
    assert Suits(h, Request(size), a) && Step(h.next, HDR, h.end, a);
    forall x | x in Lives(h)
      ensures p.value + size <= x + HDR || Lives(h)[x] <= p.value
    {
      assert if a < x then h.next[a] <= x else h.next[x] <= a;
    }
  }

  /** An empty or too large request is refused. */
  lemma NothingGranted(h: Heap, n: nat)
    ensures n == 0 || n > h.end - HDR ==> Granted(h, n, h, None)
  {
    AlignUp(n);
  }

  lemma StillLive(h: Heap, n: nat, g: Heap, p: Option<int>, m: int)
    requires Blocks(h) && Granted(h, n, g, p) && m in Lives(h)
    ensures Blocks(g) && m in Lives(g)
  {
    GrantedLives(h, n, g, p);
    if p.Some? { assert Gained(Lives(h), Lives(g), p.value - HDR, p.value + Align4(n)); }
  }

  lemma IsMoved(h: Heap, m: int, n: nat, g: Heap, h': Heap, p: Option<int>)
    requires Blocks(h) && m in Lives(h) && Granted(h, n, g, p)
    requires if p.None? then h' == g else Blocks(g) && m in Lives(g) && h' == SmallMemOps.Free(g, m)
    ensures Moved(h, m, n, h', p)
  {
    hide Blocks, Lives, SmallMemOps.Free, Alloc, Suits;
  }

  class SmallMem {
    const memSize: int
    var used: map<int, bool>
    var next: map<int, int>
    var prev: map<int, int>
    var lfree: int
    var usedMem: int
    var maxMem: int
    var data: Bytes
    ghost var order: seq<int>

    ghost function Abs(): Heap
      reads this
    {
      Heap(memSize + HDR, used, next, prev, order, usedMem)
    }

    ghost predicate Valid()
      reads this
    {
      Blocks(Abs()) && Lowest(Abs(), lfree) && memSize >= MIN_SIZE && usedMem <= maxMem
    }

    /** rt_system_heap_init for a range that leaves memSize bytes between two headers */
    constructor (memSize: int)
      requires memSize >= MIN_SIZE
      ensures Valid() && this.memSize == memSize && Lives(Abs()) == map[] && lfree == 0
      ensures next == map[0 := memSize + HDR, memSize + HDR := memSize + HDR] && usedMem == 0
    {
      var end := memSize + HDR;
      this.memSize := memSize;
      used := map[0 := false, end := true];
      next := map[0 := end, end := end];
      prev := map[0 := 0, end := end];
      lfree, usedMem, maxMem, order := 0, 0, 0, [];
      data := map[];
    }

    /** A new free block starts at ptr2 inside block ptr. */
    method Split(ptr: int, ptr2: int)
      requires ptr in next && next[ptr] in next && ptr < ptr2 < next[ptr] && ptr2 !in next
      modifies `used, `next, `prev, `data
      ensures next == Cut(old(next), ptr, ptr2) && used == old(used)[ptr2 := false]
      ensures data == Erase(old(data), ptr2, HDR)
      ensures prev == if old(next)[ptr] != memSize + HDR then old(prev)[ptr2 := ptr][old(next)[ptr] := ptr2]
              else old(prev)[ptr2 := ptr]
    {
      data := Erase(data, ptr2, HDR);
      used := used[ptr2 := false];
      next := next[ptr2 := next[ptr]];
      prev := prev[ptr2 := ptr];
      next := next[ptr := ptr2];
      if next[ptr2] != memSize + HDR {
        prev := prev[next[ptr2] := ptr2];
      }
    }

    /** Block ptr is taken for n bytes. */
    method Take(ptr: int, n: nat)
      requires Valid() && Suits(Abs(), n, ptr)
      modifies `used, `next, `prev, `usedMem, `maxMem, `data, `order
      ensures Abs() == Alloc(old(Abs()), ptr, n) && maxMem == Max(old(maxMem), usedMem)
      ensures OthersKept(Lives(old(Abs())), HDR, {}, old(data), data)
    {
      WalkFacts(Abs(), ptr);
      SuitsClear(Abs(), ptr, n);
      SameKept(Lives(Abs()), HDR, {}, data);
      hide Blocks, Lives, OthersKept, Lowest;
      ghost var h := Abs();
      if next[ptr] - (ptr + HDR) >= n + HDR + MIN_SIZE {
        EraseKeeps(Lives(h), HDR, ptr + HDR + n, data, {});
        TakeFront(ptr, n);
      } else {
        used := used[ptr := true];
        usedMem := usedMem + next[ptr] - ptr;
      }
      if maxMem < usedMem { maxMem := usedMem; }
      order := [ptr] + order;
    }

    /** Block ptr is cut behind n bytes, and used. */
    method TakeFront(ptr: int, n: nat)
      requires ptr in next && next[ptr] in next && ptr + HDR + n < next[ptr] && ptr + HDR + n !in next
      modifies `used, `next, `prev, `usedMem, `data
      ensures data == Erase(old(data), ptr + HDR + n, HDR)
      ensures var h := old(Abs());
              Abs() == CutFree(SmallMemBlocks.Take(h, ptr), ptr, ptr + HDR + n).(order := h.order)
    {
      ghost var h := Abs();
      var ptr2 := ptr + HDR + n;
      Split(ptr, ptr2);
      used := used[ptr := true];
      usedMem := usedMem + n + HDR;
      assert used == h.used[ptr := true][ptr2 := false];
    }

    /** The scan has stopped at block ptr. */
    method Found(ptr: int, n: nat)
      requires Valid() && Suits(Abs(), n, ptr)
      modifies `used, `next, `prev, `lfree, `usedMem, `maxMem, `data, `order
      ensures Valid() && Abs() == Alloc(old(Abs()), ptr, n) && maxMem == Max(old(maxMem), usedMem)
      ensures OthersKept(Lives(old(Abs())), HDR, {}, old(data), data)
    {
      hide Blocks, Lowest, Suits, Alloc, UsedBelow, Lives, OthersKept;
      ghost var h := Abs();
      AllocKeeps(h, ptr, n);
      AllocLowest(h, lfree, ptr, n);
      Take(ptr, n);
      if ptr == lfree {
        UsedKeys(Abs());
        AdvanceFree();
      }
    }

    /** lfree walks on to the next free block. */
    method AdvanceFree()
      requires Blocks(Abs()) && lfree in next && lfree in used && UsedBelow(Abs(), lfree)
      modifies `lfree
      ensures Lowest(Abs(), lfree)
    {
      hide Blocks, UsedBelow;
      WalkShape(Abs(), lfree);
      while used[lfree] && lfree != memSize + HDR
        invariant lfree in next && lfree in used && UsedBelow(Abs(), lfree) && lfree <= memSize + HDR
        decreases memSize + HDR - lfree
      {
        WalkShape(Abs(), lfree);
        lfree := next[lfree];
      }
    }

    lemma WalkShape(h: Heap, l: int)
      requires Blocks(h) && l in h.next && UsedBelow(h, l)
      ensures l <= h.end
      ensures l in h.used && l != h.end && h.used[l] ==>
                l < h.next[l] <= h.end && h.next[l] in h.next
                && h.next[l] in h.used && UsedBelow(h, h.next[l])
    {
      if l in h.used && l != h.end && h.used[l] { LowestStep(h, l); }
    }

    /** rt_malloc: the first block with room below the scan limit, or nothing when there is none. */
    method Malloc(size: nat) returns (p: Option<int>)
      requires Valid()
      modifies `used, `next, `prev, `lfree, `usedMem, `maxMem, `data, `order
      ensures Valid()
      ensures Granted(old(Abs()), size, Abs(), p)
      ensures p.None? ==> lfree == old(lfree) && data == old(data)
      ensures maxMem == Max(old(maxMem), usedMem)
      ensures OthersKept(Lives(old(Abs())), HDR, {}, old(data), data)
    {
      hide Blocks, Lowest, Alloc, Suits, Lives, OthersKept;
      SameKept(Lives(Abs()), HDR, {}, data);
      if size == 0 { return None; }
      var n := Align4(size);
      if n > memSize { return None; }
      if n < MIN_SIZE { n := MIN_SIZE; }
      assert n == Request(size);
      hide Request, Align4;
      p := Scan(n);
    }

    /** First fit from lfree on. */
    method Scan(n: nat) returns (p: Option<int>)
      requires Valid()
      modifies `used, `next, `prev, `lfree, `usedMem, `maxMem, `data, `order
      ensures Valid()
      ensures OthersKept(Lives(old(Abs())), HDR, {}, old(data), data)
      ensures p.None? ==> data == old(data)
      ensures maxMem == Max(old(maxMem), usedMem)
      ensures p.None? ==> Abs() == old(Abs()) && lfree == old(lfree) && forall a :: !Suits(old(Abs()), n, a)
      ensures p.Some? ==> FirstSuit(old(Abs()), n, p.value - HDR) && Abs() == Alloc(old(Abs()), p.value - HDR, n)
    {
      ghost var h := Abs();
      var ptr := lfree;
      hide Blocks, Alloc, Lives, OthersKept;
      SameKept(Lives(h), HDR, {}, data);
      while ptr < memSize - n
        invariant data == old(data) && maxMem == old(maxMem)
        invariant Valid() && Abs() == h && ptr in next && lfree == old(lfree) && lfree <= ptr
        invariant forall b :: b < ptr ==> !Suits(h, n, b)
        decreases memSize - ptr
      {
        WalkFacts(h, ptr);
        if !used[ptr] && next[ptr] - (ptr + HDR) >= n {
          Found(ptr, n);
          return Some(ptr + HDR);
        }
        ptr := next[ptr];
      }
      return None;
    }

    lemma UsedKeys(h: Heap)
      requires Blocks(h)
      ensures h.used.Keys == h.next.Keys
    {
    }

    /** Block a swallows the block behind it, whose header is no header any more. */
    method Swallow(a: int)
      requires a in next && next[a] in next && next[a] != a && next[next[a]] != next[a]
      modifies `used, `next, `prev
      ensures Abs() == Merge(old(Abs()), a)
    {
      var n := next[a];
      next := next[a := next[n]];
      prev := prev[next[n] := a];
      used, next, prev := used - {n}, next - {n}, prev - {n};
      assert next == Join(old(next), a);
    }

    /** plug_holes, when only the new free block m and its predecessor can have a free neighbour */
    method PlugHoles(m: int)
      requires Hole(Abs(), m) && Lowest(Abs(), lfree)
      modifies `used, `next, `prev, `lfree
      ensures Abs() == Plug(old(Abs()), m) && Lowest(Abs(), lfree) && Blocks(Abs())
    {
      hide Blocks, Hole, HalfPlugged, Lowest, Merge;
      ghost var h := Abs();
      ForwardFacts(h, m);
      PlugKeeps(h, m);
      PlugForwardKeeps(h, m);
      PlugLowest(h, lfree, m);
      var n := next[m];
      if m != n && !used[n] && n != memSize + HDR {
        if lfree == n { lfree := m; }
        Swallow(m);
      }
      assert Abs() == PlugForward(h, m);
      BackwardFacts(Abs(), m);
      PlugBackLowest(Abs(), lfree, m);
      var p := prev[m];
      if p != m && !used[p] {
        if lfree == m { lfree := p; }
        Swallow(p);
      }
    }

    lemma PlugLowest(h: Heap, l: int, m: int)
      requires Hole(h, m) && Lowest(h, l)
      ensures m in h.next && h.next[m] in h.next && h.next[m] in h.used && h.next[h.next[m]] in h.next
      ensures var g := PlugForward(h, m);
              var l' := if !h.used[h.next[m]] && l == h.next[m] then m else l;
              Lowest(g, l')
    {
      ForwardFacts(h, m);
      if !h.used[h.next[m]] { MergeLowest(h, l, m); }
    }

    lemma PlugBackLowest(h: Heap, l: int, m: int)
      requires HalfPlugged(h, m) && Lowest(h, l)
      ensures m in h.prev && h.prev[m] in h.next && h.prev[m] in h.used && h.next[h.prev[m]] in h.next
              && h.next[m] in h.next
      ensures h.prev[m] != m ==> h.next[h.prev[m]] == m && h.next[m] != m
      ensures var l' := if h.prev[m] != m && !h.used[h.prev[m]] && l == m then h.prev[m] else l;
              Lowest(PlugBackward(h, m), l')
    {
      BackwardFacts(h, m);
      assert Step(h.next, HDR, h.end, m);
      if h.prev[m] != m && !h.used[h.prev[m]] { MergeLowest(h, l, h.prev[m]); }
    }

    /** Used block m is marked free; lfree never lies above a free block. */
    method MarkFree(m: int)
      requires Valid() && m in Lives(Abs())
      modifies `used, `lfree, `usedMem, `order
      ensures m in old(next) && m in old(order) && Abs() == Release(old(Abs()), m) && Lowest(Abs(), lfree)
      ensures usedMem <= maxMem
    {
      LiveFacts(Abs(), m);
      ReleaseLowest(Abs(), lfree, m);
      hide Blocks, Lowest, Lives;
      used := used[m := false];
      if m < lfree { lfree := m; }
      usedMem := usedMem - (next[m] - m);
      order := Drop(order, m);
    }

    /** rt_free */
    method Free(ptr: Option<int>)
      requires Valid() && (ptr.Some? ==> ptr.value - HDR in Lives(Abs()))
      modifies `used, `next, `prev, `lfree, `usedMem, `order
      ensures Valid()
      ensures ptr.None? ==> Abs() == old(Abs()) && lfree == old(lfree)
      ensures ptr.Some? ==> Abs() == SmallMemOps.Free(old(Abs()), ptr.value - HDR)
    {
      hide Blocks, Hole, Lowest, Lives, Plug, Release;
      if ptr.Some? {
        FreeHole(Abs(), ptr.value - HDR);
        MarkFree(ptr.value - HDR);
        PlugHoles(ptr.value - HDR);
      }
    }

    /** The tail of block m becomes free. */
    method ShrinkTo(m: int, newsize: nat)
      requires Valid() && m in Lives(Abs()) && newsize + HDR + MIN_SIZE < Size(next, m)
      modifies `used, `next, `prev, `lfree, `usedMem, `data
      ensures Valid() && Abs() == Shrink(old(Abs()), m, newsize)
      ensures OthersKept(Lives(old(Abs())), HDR, {m}, old(data), data)
      ensures PayloadKept(HDR, old(data), m, data, m, newsize)
    {
      ghost var h := Abs();
      hide Blocks, Hole, Lowest, Plug, OthersKept, PayloadKept;
      LiveFacts(h, m);
      HeaderClear(h, m, m + HDR + newsize);
      EraseKeeps(Lives(h), HDR, m + HDR + newsize, data, {m});
      EraseBehind(HDR, data, m, m + HDR + newsize, newsize);
      ShrinkHole(h, m, newsize);
      var ptr2 := m + HDR + newsize;
      CutLowest(h, lfree, m, ptr2);
      hide Lives;
      usedMem := usedMem - (next[m] - m - HDR - newsize);
      Split(m, ptr2);
      assert Abs() == CutFree(h, m, ptr2);
      if ptr2 < lfree { lfree := ptr2; }
      PlugHoles(ptr2);
    }

    /** The block moves: a new block first, then the old one is released. */
    method Move(m: int, n: nat) returns (p: Option<int>)
      requires Valid() && m in Lives(Abs()) && n > 0
      modifies `used, `next, `prev, `lfree, `usedMem, `maxMem, `data, `order
      ensures Valid()
      ensures Moved(old(Abs()), m, n, Abs(), p)
      ensures OthersKept(Lives(old(Abs())), HDR, {m}, old(data), data)
      ensures p.None? ==> data == old(data)
      ensures p.Some? ==>
                m in old(next) && PayloadKept(HDR, old(data), m, data, p.value - HDR, Min(Size(old(next), m), n))
    {
      hide Blocks, Lowest, Granted, Lives, Moved, SmallMemOps.Free, OthersKept, PayloadKept;
      ghost var h := Abs();
      SameKept(Lives(h), HDR, {m}, data);
      var size := PayloadSize(m);
      p := Malloc(n);
      ghost var g := Abs();
      if p.Some? {
        StillLive(h, n, g, p, m);
        GrantedClear(h, n, g, p);
        Copy(h, m, p.value - HDR, size, n, old(data));
        Free(Some(m + HDR));
      }
      IsMoved(h, m, n, g, Abs(), p);
    }

    method PayloadSize(m: int) returns (size: nat)
      requires Valid() && m in Lives(Abs())
      ensures m in next && size == Size(next, m) && m in Lives(Abs()) && Lives(Abs())[m] == m + HDR + size
    {
      LiveFacts(Abs(), m);
      size := next[m] - m - HDR;
    }

    /** The new block b takes over the first bytes of block m, which had size; d are the bytes before the request. */
    method Copy(ghost h: Heap, m: int, b: int, size: nat, n: nat, ghost d: Bytes)
      requires OthersKept(Lives(h), HDR, {}, d, data) && m in Lives(h) && Lives(h)[m] == m + HDR + size
      requires forall x :: x in Lives(h) ==> b + HDR + n <= x + HDR || Lives(h)[x] <= b + HDR
      modifies `data
      ensures OthersKept(Lives(h), HDR, {m}, d, data) && PayloadKept(HDR, d, m, data, b, Min(size, n))
    {
      hide OthersKept, PayloadKept;
      var k := if size < n then size else n;
      Untouched(Lives(h), HDR, m, d, data);
      FewerKept(HDR, d, m, data, m, size, k);
      CopyKeeps(Lives(h), HDR, {m}, b, d, data, data, m + HDR, k);
      CopyHas(HDR, d, data, data, m, b, k);
      data := Copied(data, data, b + HDR, m + HDR, k);
    }

    /** rt_realloc */
    method Realloc(rmem: Option<int>, newsize: nat) returns (p: Option<int>)
      requires Valid() && (rmem.Some? ==> rmem.value - HDR in Lives(Abs()))
      modifies `used, `next, `prev, `lfree, `usedMem, `maxMem, `data, `order
      ensures Valid()
      ensures rmem.None? ==> Granted(old(Abs()), Align4(newsize), Abs(), p)
      ensures rmem.Some? ==> Reallocated(old(Abs()), rmem.value - HDR, newsize, Abs(), p)
      ensures OthersKept(Lives(old(Abs())), HDR, if rmem.None? then {} else {rmem.value - HDR}, old(data), data)
      ensures rmem.Some? && p.Some? ==>
                var m := rmem.value - HDR;
                m in old(next) && PayloadKept(HDR, old(data), m, data, p.value - HDR, Min(Size(old(next), m), newsize))
      ensures p.None? ==> data == old(data)
    {
      hide Blocks, Lowest, Lives, SmallMemOps.Free, Granted, Moved, Shrink, OthersKept, PayloadKept, Align4;
      var n := Align4(newsize);
      AlignUp(newsize);
      NothingGranted(Abs(), n);
      SameKept(Lives(Abs()), HDR, if rmem.None? then {} else {rmem.value - HDR}, data);
      if n > memSize { return None; }
      if n == 0 {
        Free(rmem);
        return None;
      }
      if rmem.None? {
        p := Malloc(n);
        return;
      }
      p := Resize(rmem.value - HDR, n, newsize);
    }

    /** The rest of rt_realloc: block m is to have newsize bytes, rounded up to n. */
    method Resize(m: int, n: nat, ghost newsize: nat) returns (p: Option<int>)
      requires Valid() && m in Lives(Abs()) && n == Align4(newsize) && 0 < n <= memSize && newsize <= n
      modifies `used, `next, `prev, `lfree, `usedMem, `maxMem, `data, `order
      ensures Valid()
      ensures Reallocated(old(Abs()), m, newsize, Abs(), p)
      ensures OthersKept(Lives(old(Abs())), HDR, {m}, old(data), data)
      ensures p.Some? ==>
                m in old(next) && PayloadKept(HDR, old(data), m, data, p.value - HDR, Min(Size(old(next), m), newsize))
      ensures p.None? ==> data == old(data)
    {
      hide Blocks, Lowest, Lives, Granted, Moved, Shrink, OthersKept, PayloadKept, Align4;
      SameKept(Lives(Abs()), HDR, {m}, data);
      var size := PayloadSize(m);
      if size == n {
        AllKept(HDR, data, m, newsize);
        return Some(m + HDR);
      }
      if n + HDR + MIN_SIZE < size {
        ShrinkTo(m, n);
        FewerKept(HDR, old(data), m, data, m, n, newsize);
        return Some(m + HDR);
      }
      p := Move(m, n);
      if p.Some? { FewerKept(HDR, old(data), m, data, p.value - HDR, Min(size, n), Min(size, newsize)); }
    }
  }
}
