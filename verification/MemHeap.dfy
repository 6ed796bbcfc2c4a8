/** memheap.c: the boundary-tag heap over raw memory.

    Every header field is a map from header addresses, so a store through a pointer is an
    update of one map. A header that has been merged away is taken out of the maps: a later
    read through it would not verify. `data` holds the bytes written by the users of the heap;
    storing a new header destroys the bytes it covers. */
module MemHeap {
  import opened Options
  import opened Rings
  import opened Tiling
  import opened Payloads
  import opened MemHeapSpec
  import opened MemHeapOps
  import opened MemHeapLaws
  import opened MemHeapExact

  const RT_NULL := 0

  /** The pointer handed out for a block. */
  function Ptr(block: Option<int>): Option<int> {
    match block case None => None case Some(a) => Some(a + HDR)
  }

  /** There is room for a header at m inside block a, clear of every other live block. */
  lemma Room(h: Heap, a: int, m: int)
    requires Shape(h) && a in h.next && a != h.tail && a + HDR <= m && m + HDR <= h.next[a]
    ensures m !in h.next && h.start < m < h.tail
    ensures forall b :: b in Lives(h) && b != a ==> m + HDR <= b + HDR || Lives(h)[b] <= m
  {
    CutShape(h, CutAt(h, a, m), a, m);
    assert Step(h.next, HDR, h.tail, a);
    forall b | b in Lives(h) && b != a
      ensures m + HDR <= b + HDR || Lives(h)[b] <= m
    {
      assert if a < b then h.next[a] <= b else h.next[b] <= a;
    }
  }

  lemma FreeInNext(h: Heap)
    requires WellFormed(h)
    ensures Counted(h) && forall a :: a in h.free ==> a in h.next
  {
  }

  /** What the code of rt_memheap_free reads is there to be read. */
  lemma FreeFacts(h: Heap, a: int)
    requires WellFormed(h) && Live(h, a)
    ensures WellFormed(MemHeapOps.Free(h, a)) && a !in h.free && h.used.Keys == h.next.Keys
    ensures a in h.next && a in h.prev && h.prev[a] in h.used && h.prev[a] in h.next && h.next[a] in h.used
            && h.next[a] in h.next && h.next[a] in h.prev
    ensures h.prev[a] != a && h.next[a] != a && h.next[h.prev[a]] == a
            && (!h.used[h.prev[a]] ==> h.prev[a] != h.next[a])
    ensures !h.used[h.next[a]] ==> h.next[a] in h.free && h.next[h.next[a]] != h.next[a] && h.next[h.next[a]] != a
  {
    FreeKeeps(h, a);
    assert Doubly(h, a) && Doubly(h, h.prev[a]) && Doubly(h, h.next[a]);
    assert Step(h.next, HDR, h.tail, a) && Step(h.next, HDR, h.tail, h.next[a]);
  }

  lemma GrowFacts(h: Heap, a: int, n: nat)
    requires WellFormed(h) && Live(h, a) && Size(h.next, a) < n
    requires h.next[a] in h.next && h.next[a] in h.used && !h.used[h.next[a]]
    requires Size(h.next, h.next[a]) + Size(h.next, a) > n + MINIALLOC
    ensures h.next[a] in h.free && WellFormed(Grow(h, a, n))
    ensures h.next[a] in h.prev && a != h.next[a] && h.next[h.next[a]] != h.next[a]
    ensures var m := a + HDR + n;
            m !in Drop(h.free, h.next[a]) && m !in Join(h.next, a) && m != h.next[h.next[a]] && h.start < m < h.tail
            && forall b :: b in Lives(h) && b != a ==> m + HDR <= b + HDR || Lives(h)[b] <= m
  {
    GrowKeeps(h, a, n);
    var m, s := a + HDR + n, Swallow(h, a);
    SwallowKeeps(h, s, a);
    SwallowLives(h, a);
    Room(s, a, m);
    assert Step(h.next, HDR, h.tail, a) && Step(h.next, HDR, h.tail, h.next[a]) && Doubly(h, a);
    assert forall b :: b in Lives(h) && b != a ==> b in Lives(s);
  }

  lemma ShrinkFacts(h: Heap, a: int, n: nat)
    requires WellFormed(h) && Live(h, a) && n + HDR + MINIALLOC < Size(h.next, a)
    ensures WellFormed(Shrink(h, a, n))
    ensures var m := a + n + HDR; var r := h.next[a];
            m !in h.next && m !in h.free && h.start < m < h.tail && m != r
            && r in h.next && r in h.used && r in h.prev && (!h.used[r] ==> r in h.free && h.next[r] != r)
            && (forall b :: b in Lives(h) && b != a ==> m + HDR <= b + HDR || Lives(h)[b] <= m)
            && CutFree(h, a, m).used.Keys == CutFree(h, a, m).next.Keys
  {
    ShrinkKeeps(h, a, n);
    Room(h, a, a + n + HDR);
    assert Doubly(h, a) && Step(h.next, HDR, h.tail, a) && Doubly(h, h.next[a]) && Step(h.next, HDR, h.tail, h.next[a]);
  }

  lemma ReallocFacts(h: Heap, a: int, size: nat)
    requires WellFormed(h) && Live(h, a)
    ensures a in h.next && h.next[a] in h.next && h.next[a] in h.used
    ensures WellFormed(MemHeapOps.Realloc(h, a, size).0)
  {
    assert Doubly(h, a);
    ReallocMoves(h, a, size);
  }

  lemma MoveFacts(h: Heap, a: int, n: nat)
    requires WellFormed(h) && Live(h, a) && n > Size(h.next, a) && n == Rounded(n)
    ensures 0 <= Size(h.next, a) && a in Lives(h) && Lives(h)[a] == h.next[a]
    ensures var (h', p) := MemHeapOps.Alloc(h, n);
            match p
            case None => h' == h
            case Some(b) =>
              WellFormed(h') && Live(h', a) && b !in Lives(h)
              && (forall x :: x in Lives(h) ==> b + HDR + n <= x || Lives(h)[x] <= b)
  {
    var (h', p) := MemHeapOps.Alloc(h, n);
    AllocKeeps(h, n);
    AllocLives(h, n);
    assert Step(h.next, HDR, h.tail, a);
    assert a in Lives(h);
    if p.Some? {
      var b := p.value;
      assert a in Lives(h') && b in Lives(h');
      forall x | x in Lives(h)
        ensures b + HDR + n <= x || Lives(h)[x] <= b
      {
        assert x in Lives(h');
        LivePayloads(h', b, x);
      }
    }
  }

  /** What rt_memheap_realloc makes of a heap and which pointer it returns. */
  ghost function ReallocPtr(h: Heap, ptr: Option<int>, size: nat): (Heap, Option<int>)
    requires WellFormed(h) && (ptr.Some? ==> Live(h, ptr.value - HDR))
  {
    if size == 0 then (if ptr.None? then h else MemHeapOps.Free(h, ptr.value - HDR), None)
    else
      var (h', b) := if ptr.None? then MemHeapOps.Alloc(h, Rounded(size))
          else MemHeapOps.Realloc(h, ptr.value - HDR, size);
      (h', Ptr(b))
  }

  lemma CarveFacts(h: Heap, a: int, n: nat)
    requires WellFormed(h) && a in h.free && a in h.next && n <= Size(h.next, a)
    ensures WellFormed(Place(h, a, n))
    ensures a in h.used && a in h.prev && h.next[a] in h.prev && a != h.next[a]
    ensures forall b :: b in Lives(h) ==> b != a
    ensures forall b :: b in Drop(h.free, a) <==> b in h.free && b != a
    ensures Size(h.next, a) >= n + HDR + MINIALLOC ==>
              var m := a + n + HDR;
              m !in h.next && m !in h.free && h.start < m < h.tail &&
              forall b :: b in Lives(h) ==> m + HDR <= b + HDR || Lives(h)[b] <= m
  {
    PlaceKeeps(h, a, n);
    assert Doubly(h, a) && Step(h.next, HDR, h.tail, a);
    DropElements(h.free, a);
    if Size(h.next, a) >= n + HDR + MINIALLOC {
      Room(h, a, a + n + HDR);
    }
  }

  lemma Conditions(h: Heap, ptr: Option<int>, size: nat)
    requires WellFormed(h) && (ptr.Some? ==> Live(h, ptr.value - HDR))
    ensures ptr.Some? && size > 0 ==>
              var a, n, p := ptr.value - HDR, Rounded(size), ReallocPtr(h, ptr, size).1;
              && (p.None? <==> Stuck(h, a, n) && NoFit(h, n))
              && (p == ptr <==> !Stuck(h, a, n))
    ensures ptr.None? && size > 0 ==> (ReallocPtr(h, ptr, size).1.None? <==> NoFit(h, Rounded(size)))
  {
    hide WellFormed, Live, MemHeapOps.Realloc, MemHeapOps.Alloc, MemHeapOps.Free, Stuck, NoFit, Rounded, Lives;
    if ptr.Some? {
      ReallocStays(h, ptr.value - HDR, size);
    } else {
      RoundedTwice(size);
      AllocExact(h, Rounded(size));
    }
  }

  class MemHeap {
    const start: int
    const tail: int
    const head: int  // address of the free list header, outside the pool

    var used: map<int, bool>
    var next: map<int, int>
    var prev: map<int, int>
    var nextFree: map<int, int>
    var prevFree: map<int, int>
    var data: Bytes
    var availableSize: int
    var maxUsedSize: int

    ghost var free: seq<int>

    ghost function Abs(): Heap
      reads this
    {
      Heap(start, tail, used, next, prev, free, availableSize, maxUsedSize)
    }

    ghost predicate Valid()
      reads this
    {
      && WellFormed(Abs())
      && Ring(nextFree, prevFree, head, free)
      && head !in next
      && (head < start || tail < head)
    }

    constructor (startAddr: int, size: nat, header: int)
      requires size / 4 * 4 >= 2 * HDR
      requires header < startAddr || startAddr + size <= header
      ensures Valid() && Abs() == Fresh(startAddr, size / 4 * 4)
    {
      var pool := size / 4 * 4;
      start, tail, head := startAddr, startAddr + pool - HDR, header;
      availableSize := pool - 2 * HDR;
      maxUsedSize := 2 * HDR;
      data := map[];
      // the first big block and the tailer that stops merging
      var t := startAddr + (pool - 2 * HDR) + HDR;
      used := map[startAddr := false, t := true];
      next := map[startAddr := t, t := startAddr];
      prev := map[startAddr := t, t := startAddr];
      nextFree := map[header := startAddr, startAddr := header, t := RT_NULL];
      prevFree := map[header := startAddr, startAddr := header, t := RT_NULL];
      free := [startAddr];
      new;
      FreshWellFormed(startAddr, pool);
      var p := Path(header, [startAddr]);
      assert p == [header, startAddr, header];
    }

    /** Insert a at the head of the free list. */
    method LinkFree(a: int)
      requires Ring(nextFree, prevFree, head, free) && a != head && a !in free
      modifies `nextFree, `prevFree, `free
      ensures free == [a] + old(free) && Ring(nextFree, prevFree, head, free)
    {
      RingStep(nextFree, prevFree, head, free, 0);
      RingNodes(nextFree, prevFree, head, free);
      ghost var n, p := nextFree, prevFree;
      nextFree := nextFree[a := nextFree[head]];
      prevFree := prevFree[a := head];
      prevFree := prevFree[nextFree[head] := a];
      nextFree := nextFree[head := a];
      assert nextFree == n[head := a][a := At(head, free, 0)];
      RingInsert(n, p, nextFree, prevFree, head, free, 0, a);
      free := free[..0] + [a] + free[0..];
    }

    /** Take a off the free list. */
    method UnlinkFree(a: int)
      requires Ring(nextFree, prevFree, head, free) && a in free
      modifies `nextFree, `prevFree, `free
      ensures free == Drop(old(free), a) && Ring(nextFree, prevFree, head, free)
    {
      ghost var k := Index(free, a);
      RingStep(nextFree, prevFree, head, free, k);
      RingStep(nextFree, prevFree, head, free, k + 1);
      RingNodes(nextFree, prevFree, head, free);
      ghost var n, p := nextFree, prevFree;
      prevFree := prevFree[nextFree[a] := prevFree[a]];
      nextFree := nextFree[prevFree[a] := nextFree[a]];
      RingRemove(n, p, nextFree, prevFree, head, free, k);
      free := Without(free, k);
    }

    method ClearLinks(a: int)
      requires Ring(nextFree, prevFree, head, free) && a != head && a !in free
      modifies `nextFree, `prevFree
      ensures Ring(nextFree, prevFree, head, free)
    {
      ghost var n, p := nextFree, prevFree;
      RingNodes(nextFree, prevFree, head, free);
      nextFree, prevFree := nextFree[a := RT_NULL], prevFree[a := RT_NULL];
      RingFrame(n, p, nextFree, prevFree, head, free);
    }

    /** Store a header at m and put the new block into the block ring behind a. */
    method SplitBlock(a: int, m: int)
      requires a in next && m !in next && a != m && next[a] != m
      modifies `used, `next, `prev, `data
      ensures used == old(used)[m := false] && next == Cut(old(next), a, m)
      ensures prev == old(prev)[old(next)[a] := m][m := a]
      ensures data == Erase(old(data), m, HDR)
    {
      data := Erase(data, m, HDR);
      used := used[m := false];
      prev := prev[m := a];
      next := next[m := next[a]];
      prev := prev[next[a] := m];
      next := next[a := m];
    }

    method CountUse()
      modifies `maxUsedSize
      ensures maxUsedSize == Max(old(maxUsedSize), Pool(Abs()) - availableSize)
    {
      if tail + HDR - start - availableSize > maxUsedSize {
        maxUsedSize := tail + HDR - start - availableSize;
      }
    }

    /** The front of free block a is handed out, the rest from m on is a free block. */
    method CutOff(a: int, m: int)
      requires Ring(nextFree, prevFree, head, free) && a in free && a in next && a in used && a != head
      requires a !in Drop(free, a) && m !in Drop(free, a) && m !in next && m != head && a != m && next[a] != m
               && next[a] in prev
      modifies this
      ensures Ring(nextFree, prevFree, head, free) && data == Erase(old(data), m, HDR)
      ensures Abs() == Bump(CutFree(MemHeapSpec.Take(old(Abs()), a), a, m))
    {
      hide Ring;
      ghost var h := Abs();
      SplitBlock(a, m);
      FreeList(a, m);
      availableSize := availableSize + a - m;
      CountUse();
      used := used[a := true];
      assert used == h.used[a := true][m := false];
    }

    /** On the free list block m stands for block a. */
    method FreeList(a: int, m: int)
      requires Ring(nextFree, prevFree, head, free) && a in free && a != head && m != head
      requires a !in Drop(free, a) && m !in Drop(free, a)
      modifies `nextFree, `prevFree, `free
      ensures Ring(nextFree, prevFree, head, free) && free == [m] + Drop(old(free), a)
    {
      hide Ring;
      OffList(a);
      LinkFree(m);
    }

    /** Block a leaves the free list, and its links are cleared. */
    method OffList(a: int)
      requires Ring(nextFree, prevFree, head, free) && a in free && a != head && a !in Drop(free, a)
      modifies `nextFree, `prevFree, `free
      ensures Ring(nextFree, prevFree, head, free) && free == Drop(old(free), a)
    {
      hide Ring;
      UnlinkFree(a);
      ClearLinks(a);
    }

    /** Hand out free block a for n bytes. */
    method Carve(a: int, n: nat, freeSize: int)
      requires Valid() && a in free && a in next && freeSize == Size(next, a) && n <= freeSize
      modifies this
      ensures Valid() && Abs() == Place(old(Abs()), a, n)
      ensures OthersKept(Lives(old(Abs())), HDR, {}, old(data), data)
    {
      hide WellFormed, Ring;
      ghost var h := Abs();
      CarveFacts(h, a, n);
      if freeSize >= n + HDR + MINIALLOC {
        EraseKeeps(Lives(h), HDR, a + n + HDR, data, {});
        CutOff(a, a + n + HDR);
      } else {
        availableSize := availableSize - freeSize;
        CountUse();
        OffList(a);
        used := used[a := true];
        SameKept(Lives(h), HDR, {}, data);
      }
      assert Abs() == Place(h, a, n);
    }

    /** The first free block of at least n bytes, if any. */
    method Search(n: int) returns (item: int, freeSize: int)
      requires n > 0 && Ring(nextFree, prevFree, head, free) && forall a :: a in free ==> a in next
      ensures var k := FirstFit(free, next, n);
              if k < |free| then item == free[k] && freeSize == Size(next, item) else item == head && freeSize < n
    {
      freeSize := 0;
      ghost var k := 0;
      RingStep(nextFree, prevFree, head, free, 0);
      item := nextFree[head];
      while item != head && freeSize < n
        invariant k <= |free| && item == At(head, free, k)
        invariant forall i :: 0 <= i < k ==> Size(next, free[i]) < n
        invariant freeSize >= n ==> k < |free| && freeSize == Size(next, free[k])
        decreases |free| - k, n - freeSize
      {
        freeSize := next[item] - item - HDR;
        if freeSize < n {
          RingStep(nextFree, prevFree, head, free, k + 1);
          item := nextFree[item];
          k := k + 1;
        }
      }
    }

    /** rt_memheap_alloc */
    method Alloc(size: nat) returns (p: Option<int>)
      requires Valid()
      modifies this
      ensures Valid()
      ensures Abs() == MemHeapOps.Alloc(old(Abs()), size).0
      ensures p == Ptr(MemHeapOps.Alloc(old(Abs()), size).1)
      ensures OthersKept(Lives(old(Abs())), HDR, {}, old(data), data)
      ensures p.None? ==> data == old(data)
    {
      hide WellFormed, Ring;
      var n := Rounded(size);
      p := None;
      FreeInNext(Abs());
      SameKept(Lives(Abs()), HDR, {}, data);
      if n < availableSize {
        var item, freeSize := Search(n);
        if freeSize >= n {
          assert item in free;
          Carve(item, n, freeSize);
          p := Some(item + HDR);
        }
      }
    }

    /** Block l takes in the block behind it, whose header is forgotten. */
    method Absorb(l: int)
      requires l in next && next[l] in next && next[l] in used && next[l] in prev && l != next[l]
      requires next[next[l]] != next[l]
      modifies `used, `next, `prev
      ensures used == old(used) - {old(next)[l]} && next == Join(old(next), l)
      ensures prev == (old(prev) - {old(next)[l]})[old(next)[old(next)[l]] := l]
    {
      var r := next[l];
      prev := prev[next[r] := l];
      next := next[l := next[r]];
      used, next, prev := used - {r}, next - {r}, prev - {r};
    }

    /** Block l takes in the free block behind it. */
    method AbsorbFree(l: int)
      requires l in next && next[l] in next && next[l] in used && next[l] in prev && l != next[l]
      requires next[next[l]] != next[l] && next[l] in free && Ring(nextFree, prevFree, head, free)
      modifies `used, `next, `prev, `nextFree, `prevFree, `free
      ensures Ring(nextFree, prevFree, head, free) && free == Drop(old(free), old(next)[l])
      ensures Abs() == JoinAt(old(Abs()), l).(free := free)
    {
      var right := next[l];
      Absorb(l);
      UnlinkFree(right);
    }

    /** Mark block a free and let a free block before it take it in; item is the free block then. */
    method Release(a: int) returns (item: int, insertHeader: bool)
      requires Valid() && Live(Abs(), a)
      modifies `used, `next, `prev, `availableSize
      ensures a in old(used) && a in old(prev) && old(prev)[a] in old(used) && a in old(next)
      ensures insertHeader == old(used)[old(prev)[a]]
      ensures insertHeader ==> item == a && Abs() == PutFree(old(Abs()), a).(free := free)
      ensures !insertHeader ==>
                item == old(prev)[a] && item in old(next) && old(next)[item] == a
                && Abs() == MergeLeft(old(Abs()), item)
    {
      hide WellFormed, Ring;
      FreeFacts(Abs(), a);
      item, insertHeader := a, true;
      used := used[item := false];
      availableSize := availableSize + (next[item] - item - HDR);
      if !used[prev[item]] {
        availableSize := availableSize + HDR;
        item := prev[item];
        Absorb(item);
        insertHeader := false;
      }
    }

    /** Block a becomes free and joins its free neighbours. */
    method FreeBlock(a: int)
      requires Valid() && Live(Abs(), a)
      modifies this
      ensures Valid() && data == old(data) && Abs() == MemHeapOps.Free(old(Abs()), a)
    {
      hide WellFormed, Ring;
      ghost var h := Abs();
      FreeFacts(h, a);
      var item, insertHeader := Release(a);
      JoinNeighbour(item, insertHeader);
      assert Abs() == Coalesce(if insertHeader then PutFree(h, a) else MergeLeft(h, item), item);
    }

    /** A released block takes in a free block behind it, and goes on the free list if it is not there yet. */
    method JoinNeighbour(item: int, insertHeader: bool)
      requires Ring(nextFree, prevFree, head, free) && item in next && used.Keys == next.Keys
      requires insertHeader ==> item !in free && item != head
      requires next[item] in next && next[item] in prev && next[item] != item
      requires !used[next[item]] ==> next[item] in free && next[next[item]] != next[item]
      modifies `used, `next, `prev, `nextFree, `prevFree, `free, `availableSize
      ensures Ring(nextFree, prevFree, head, free)
      ensures var h := old(Abs()); Abs() == Coalesce(if insertHeader then h.(free := [item] + h.free) else h, item)
    {
      hide Ring;
      if !used[next[item]] {
        availableSize := availableSize + HDR;
        if insertHeader { DropFromTail(item, free, next[item]); }
        AbsorbFree(item);
      }
      if insertHeader { LinkFree(item); }
    }

    /** rt_memheap_free */
    method Free(ptr: Option<int>)
      requires Valid() && (ptr.Some? ==> Live(Abs(), ptr.value - HDR))
      modifies this
      ensures Valid() && data == old(data)
      ensures Abs() == if ptr.None? then old(Abs()) else MemHeapOps.Free(old(Abs()), ptr.value - HDR)
    {
      hide WellFormed, Ring;
      if ptr.Some? { FreeBlock(ptr.value - HDR); }
    }

    /** The block behind a is free and large enough: a grows to n bytes, the rest is free again. */
    method GrowInPlace(a: int, n: nat)
      requires Valid() && Live(Abs(), a) && next[a] in used && !used[next[a]] && next[a] in next
      requires Size(next, a) < n && Size(next, next[a]) + Size(next, a) > n + MINIALLOC
      modifies this
      ensures Valid() && old(next)[a] in old(free) && Abs() == Grow(old(Abs()), a, n)
      ensures OthersKept(Lives(old(Abs())), HDR, {a}, old(data), data)
      ensures PayloadKept(HDR, old(data), a, data, a, Size(old(next), a))
    {
      hide WellFormed, Ring, OthersKept, PayloadKept;
      ghost var h := Abs();
      GrowFacts(h, a, n);
      availableSize := availableSize - (n - (next[a] - a - HDR));
      CountUse();
      var m := a + HDR + n;
      EraseKeeps(Lives(h), HDR, m, data, {a});
      EraseBehind(HDR, data, a, m, Size(h.next, a));
      MoveEnd(a, m);
    }

    /** Block a takes in the free block behind it, and what is left of the two from m on is free. */
    method MoveEnd(a: int, m: int)
      requires a in next && next[a] in next && next[a] in used && next[a] in prev && a != next[a]
      requires next[next[a]] != next[a] && next[a] in free && Ring(nextFree, prevFree, head, free)
      requires m !in Drop(free, next[a]) && m !in Join(next, a) && m != next[next[a]] && m != a && m != head
      modifies `used, `next, `prev, `nextFree, `prevFree, `free, `data
      ensures Ring(nextFree, prevFree, head, free) && data == Erase(old(data), m, HDR)
      ensures var h := old(Abs());
              Abs() == CutAt(JoinAt(h, a), a, m).(free := [m] + Drop(h.free, h.next[a]))
    {
      hide Ring;
      AbsorbFree(a);
      SplitBlock(a, m);
      LinkFree(m);
    }

    /** New block m joins a free block behind it and goes on the free list. */
    method JoinBehind(m: int)
      requires Ring(nextFree, prevFree, head, free) && m !in free && m != head && m in next && used.Keys == next.Keys
      requires next[m] in next && next[m] in prev && next[m] != m
      requires !used[next[m]] ==> next[m] in free && next[next[m]] != next[m]
      modifies `used, `next, `prev, `nextFree, `prevFree, `free, `availableSize
      ensures Ring(nextFree, prevFree, head, free)
      ensures var h := old(Abs());
              var c := h.(free := [m] + h.free, available := h.available + Size(h.next, m));
              Abs() == Coalesce(c, m)
    {
      hide Ring;
      if !used[next[m]] {
        availableSize := availableSize - (next[next[m]] - next[m] - HDR);
        DropFromTail(m, free, next[m]);
        AbsorbFree(m);
      }
      LinkFree(m);
      availableSize := availableSize + (next[m] - m - HDR);
    }

    /** a keeps n bytes; the rest becomes free and joins a free block behind it. */
    method ShrinkTo(a: int, n: nat)
      requires Valid() && Live(Abs(), a) && n + HDR + MINIALLOC < Size(next, a)
      modifies this
      ensures Valid() && Abs() == Shrink(old(Abs()), a, n)
      ensures OthersKept(Lives(old(Abs())), HDR, {a}, old(data), data)
      ensures PayloadKept(HDR, old(data), a, data, a, n)
    {
      hide WellFormed, Ring;
      ghost var h := Abs();
      var m := a + n + HDR;
      ShrinkFacts(h, a, n);
      EraseKeeps(Lives(h), HDR, m, data, {a});
      EraseBehind(HDR, data, a, m, n);
      SplitBlock(a, m);
      JoinBehind(m);
      assert Abs() == Coalesce(CutFree(h, a, m), m);
    }

    /** A new block takes over the first bytes of block a, which is then released. */
    method Move(a: int, n: nat) returns (p: Option<int>)
      requires Valid() && Live(Abs(), a) && n == Rounded(n) && n > Size(next, a)
      modifies this
      ensures Valid()
      ensures var (h', b) := MemHeapOps.Alloc(old(Abs()), n);
              p == Ptr(b) && (if b.None? then Abs() == old(Abs()) && data == old(data)
                              else WellFormed(h') && Live(h', a) && Abs() == MemHeapOps.Free(h', a))
      ensures OthersKept(Lives(old(Abs())), HDR, {a}, old(data), data)
      ensures p.Some? ==> PayloadKept(HDR, old(data), a, data, p.value - HDR, Size(old(next), a))
    {
      hide WellFormed, Ring, OthersKept, PayloadKept, MemHeapOps.Alloc, MemHeapOps.Free;
      ghost var h := Abs();
      SameKept(Lives(h), HDR, {a}, data);
      MoveFacts(h, a, n);
      var oldsize := next[a] - a - HDR;
      p := Alloc(n);
      if p.Some? {
        ghost var b := p.value - HDR;
        Untouched(Lives(h), HDR, a, old(data), data);
        CopyKeeps(Lives(h), HDR, {a}, b, old(data), data, data, a + HDR, oldsize);
        CopyHas(HDR, old(data), data, data, a, b, oldsize);
        data := Copied(data, data, p.value, a + HDR, Min(oldsize, n));
        Free(Some(a + HDR));
      }
    }

    /** rt_memheap_realloc of a live block to a nonzero size. */
    method Resize(a: int, size: nat) returns (p: Option<int>)
      requires Valid() && Live(Abs(), a) && size > 0
      modifies this
      ensures Valid()
      ensures var (h', b) := MemHeapOps.Realloc(old(Abs()), a, size); Abs() == h' && p == Ptr(b)
      ensures OthersKept(Lives(old(Abs())), HDR, {a}, old(data), data)
      ensures p.Some? ==>
                a in old(next)
                && PayloadKept(HDR, old(data), a, data, p.value - HDR, Min(Size(old(next), a), Rounded(size)))
      ensures p.None? ==> data == old(data)
    {
      hide WellFormed, Ring, PayloadKept, OthersKept, Live, Lives, Place, Grow, Shrink, MemHeapOps.Free;
      var n := Rounded(size);
      ReallocFacts(Abs(), a, size);
      SameKept(Lives(Abs()), HDR, {a}, data);
      var oldsize := next[a] - a - HDR;
      if n > oldsize {
        if !used[next[a]] && (next[next[a]] - next[a] - HDR) + oldsize > n + MINIALLOC {
          GrowInPlace(a, n);
          p := Some(a + HDR);
        } else {
          p := Move(a, n);
        }
      } else if n + HDR + MINIALLOC >= oldsize {
        p := Some(a + HDR);
        AllKept(HDR, data, a, n);
      } else {
        ShrinkTo(a, n);
        p := Some(a + HDR);
      }
    }

    /** rt_memheap_realloc: a block is refused a new size exactly when it is stuck and nothing else fits, and stays
        where it is exactly when it is not stuck. */
    method Realloc(ptr: Option<int>, size: nat) returns (p: Option<int>)
      requires Valid() && (ptr.Some? ==> Live(Abs(), ptr.value - HDR))
      modifies this
      ensures Valid()
      ensures (Abs(), p) == ReallocPtr(old(Abs()), ptr, size)
      ensures OthersKept(Lives(old(Abs())), HDR, if ptr.None? then {} else {ptr.value - HDR}, old(data), data)
      ensures ptr.Some? && p.Some? ==>
                var a := ptr.value - HDR;
                a in old(next) && PayloadKept(HDR, old(data), a, data, p.value - HDR,
                    Min(Size(old(next), a), Rounded(size)))
      ensures p.None? ==> data == old(data)
      ensures ptr.Some? && size > 0 ==>
                var a, n := ptr.value - HDR, Rounded(size);
                && (p.None? <==> Stuck(old(Abs()), a, n) && NoFit(old(Abs()), n))
                && (p == ptr <==> !Stuck(old(Abs()), a, n))
      ensures ptr.None? && size > 0 ==> (p.None? <==> NoFit(old(Abs()), Rounded(size)))
    {
      hide WellFormed, Ring, OthersKept, PayloadKept, MemHeapOps.Alloc, MemHeapOps.Free, MemHeapOps.Realloc;
      SameKept(Lives(Abs()), HDR, if ptr.None? then {} else {ptr.value - HDR}, data);
      Conditions(Abs(), ptr, size);
      if size == 0 {
        Free(ptr);
        return None;
      }
      if ptr.None? {
        p := Alloc(Rounded(size));
      } else {
        p := Resize(ptr.value - HDR, size);
      }
    }
  }
}
