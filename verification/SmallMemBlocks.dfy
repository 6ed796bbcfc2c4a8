/** mem.c: the blocks of the lowest-free heap. Offsets count from the start of the heap. */
module SmallMemBlocks {
  import opened Rings
  import opened Tiling

  const HDR := 12       // SIZEOF_STRUCT_MEM on a 32-bit target
  const MIN_SIZE := 12

  /** end is the offset of heap_end; order lists the used blocks before it. */
  datatype Heap = Heap(end: int, used: map<int, bool>, next: map<int, int>, prev: map<int, int>, order: seq<int>,
      usedMem: int)

  function Size(next: map<int, int>, a: int): int
    requires a in next
  {
    next[a] - a - HDR
  }

  /** prev is right for every block except heap_end; the first block is its own predecessor. */
  ghost predicate Backed(h: Heap, a: int) {
    a in h.next && a in h.prev
        && (if a == 0 then h.prev[a] == 0 else h.prev[a] in h.next && h.prev[a] != h.end && h.next[h.prev[a]] == a)
  }

  ghost predicate Shape(h: Heap) {
    && Tiled(h.next, HDR, 0, h.end) && h.end > 0
    && h.used.Keys == h.next.Keys && h.prev.Keys == h.next.Keys && h.used[h.end] && h.next[h.end] == h.end
    && (forall a {:trigger Backed(h, a)} :: a in h.next && a != h.end ==> Backed(h, a))
  }

  /** used_mem is the total extent of the used blocks. */
  ghost predicate Accounts(h: Heap) {
    && h.used.Keys == h.next.Keys
    && NoDup(h.order)
    && (forall a :: a in h.order <==> a in h.next && h.used[a] && a != h.end)
    && h.usedMem == Total(h.order, h.next, 0)
  }

  /** No free block starts before offset low. */
  ghost predicate UsedBelow(h: Heap, low: int) {
    forall a :: a in h.next && a in h.used && a < low ==> h.used[a]
  }

  /** lfree is the lowest free block, or heap_end when there is none. */
  ghost predicate Lowest(h: Heap, lfree: int) {
    && lfree in h.next && lfree in h.used && (lfree == h.end || !h.used[lfree])
    && UsedBelow(h, lfree)
  }

  ghost predicate Apart(h: Heap, a: int) {
    a in h.used && a in h.next && h.next[a] in h.used && (h.used[a] || h.used[h.next[a]])
  }

  /** No two free neighbours, except perhaps the pairs that start at b or c. */
  ghost predicate Separated(h: Heap, b: int, c: int) {
    forall a {:trigger Apart(h, a)} :: a in h.next && a != h.end && a != b && a != c ==> Apart(h, a)
  }

  ghost predicate Blocks(h: Heap) {
    Shape(h) && Accounts(h) && Separated(h, h.end, h.end)
  }

  /** The blocks handed out, each with the offset where it ends. */
  ghost function Lives(h: Heap): map<int, int> {
    map a | a in h.next && a in h.used && h.used[a] && a != h.end :: h.next[a]
  }

  // ------------------------------------------------------- elementary changes

  /** Free block a becomes used. */
  function Take(h: Heap, a: int): Heap
    requires a in h.next
  {
    h.(used := h.used[a := true], order := [a] + h.order, usedMem := h.usedMem + h.next[a] - a)
  }

  /** Used block a is cut at m; what is behind m is free. */
  function CutFree(h: Heap, a: int, m: int): Heap
    requires a in h.next
  {
    var r := h.next[a];
    h.(used := h.used[m := false], next := Cut(h.next, a, m),
       prev := if r != h.end then h.prev[m := a][r := m] else h.prev[m := a],
       usedMem := h.usedMem - (r - m))
  }

  /** Used block a becomes free. */
  function Release(h: Heap, a: int): Heap
    requires a in h.next && a in h.order
  {
    h.(used := h.used[a := false], order := Drop(h.order, a), usedMem := h.usedMem - (h.next[a] - a))
  }

  /** Free block a takes in the free block behind it. */
  function Merge(h: Heap, a: int): Heap
    requires a in h.next && h.next[a] in h.next
  {
    var r := h.next[a];
    h.(used := h.used - {r}, next := Join(h.next, a), prev := (h.prev - {r})[h.next[r] := a])
  }

  // ---------------------------------------------------- elementary invariants

  lemma TakeShape(h: Heap, a: int)
    requires Shape(h) && a in h.next && !h.used[a]
    ensures a != h.end && h.next[a] in h.next && Shape(Take(h, a))
  {
    var t := Take(h, a);
    assert Step(h.next, HDR, h.end, a);
    forall x | x in t.next && x != h.end
      ensures Backed(t, x)
    {
      assert Backed(h, x);
    }
  }

  lemma TakeSeparated(h: Heap, a: int)
    requires h.used.Keys == h.next.Keys && Separated(h, h.end, h.end) && a in h.next && a != h.end && !h.used[a]
             && h.next[a] in h.used
    ensures h.used[h.next[a]] && Separated(Take(h, a), h.end, h.end)
  {
    var t := Take(h, a);
    assert Apart(h, a);
    forall x | x in t.next && x != h.end
      ensures Apart(t, x)
    {
      assert Apart(h, x);
    }
  }

  lemma TakeKeeps(h: Heap, a: int)
    requires Blocks(h) && a in h.next && !h.used[a]
    ensures a != h.end && h.next[a] in h.next && h.next[a] in h.used && h.used[h.next[a]]
    ensures Blocks(Take(h, a))
    ensures Lives(Take(h, a)) == Lives(h)[a := h.next[a]]
  {
    TakeShape(h, a);
    TakeSeparated(h, a);
    TakeAccounts(h, a);
    hide Shape, Accounts, Separated;
  }

  lemma TakeAccounts(h: Heap, a: int)
    requires Accounts(h) && a in h.next && !h.used[a] && a != h.end
    ensures Accounts(Take(h, a))
  {
    assert ([a] + h.order)[1..] == h.order;
  }

  lemma CutShape(h: Heap, a: int, m: int)
    requires Shape(h) && a in h.next && a != h.end && a + HDR <= m && m + HDR <= h.next[a]
    ensures m !in h.next && Shape(CutFree(h, a, m))
  {
    hide Backed;
    var c := CutFree(h, a, m);
    CutTiles(h.next, c.next, HDR, 0, h.end, a, m);
    assert Step(h.next, HDR, h.end, a);
    forall x | x in c.next && x != h.end
      ensures Backed(c, x)
    {
      if x == m { CutBackedNew(h, a, m); } else { CutBacked(h, a, m, x); }
    }
  }

  lemma CutBackedNew(h: Heap, a: int, m: int)
    requires a in h.next && a != h.end && 0 <= a < m && m != h.next[a]
    ensures Backed(CutFree(h, a, m), m)
  {
  }

  lemma CutBacked(h: Heap, a: int, m: int, x: int)
    requires Shape(h) && a in h.next && a != h.end && a < m < h.next[a] && m !in h.next && x in h.next && x != h.end
    ensures Backed(CutFree(h, a, m), x)
  {
    assert Backed(h, x) && Backed(h, a);
    if x != h.next[a] && x != 0 { PrevUnique(h, x, a); }
  }

  /** Block a is the predecessor of its neighbour only. */
  lemma PrevUnique(h: Heap, x: int, a: int)
    requires Shape(h) && x in h.next && x != h.end && x != 0 && a in h.next && a != h.end && h.next[a] != x
    ensures x in h.prev && h.prev[x] != a
  {
    assert Backed(h, x);
  }

  lemma CutAccounts(h: Heap, a: int, m: int)
    requires Accounts(h) && a in h.next && h.used[a] && a != h.end && m !in h.next && m != h.end && h.next[a] in h.next
    ensures Accounts(CutFree(h, a, m))
  {
    var c := CutFree(h, a, m);
    TotalResize(h.order, h.next, c.next, a, 0);
  }

  /** Cutting used block a. Only the new piece may have a free neighbour. */
  lemma CutFreeKeeps(h: Heap, a: int, m: int)
    requires Blocks(h) && a in h.next && h.used[a] && a != h.end && a + HDR <= m && m + HDR <= h.next[a]
    ensures m !in h.next && h.next[a] in h.next
    ensures var c := CutFree(h, a, m);
            Shape(c) && Accounts(c) && Separated(c, m, m) && !c.used[m] && c.used[a] && c.next[m] == h.next[a]
                && c.next[a] == m
            && m in c.prev && c.prev[m] == a
            && Lives(c) == Lives(h)[a := m]
  {
    var c := CutFree(h, a, m);
    assert Step(h.next, HDR, h.end, a);
    CutShape(h, a, m);
    CutAccounts(h, a, m);
    forall x | x in c.next && x != h.end && x != m
      ensures Apart(c, x)
    {
      assert Apart(h, x);
    }
  }

  lemma ReleaseAccounts(h: Heap, a: int)
    requires Accounts(h) && a in h.next && h.used[a] && a != h.end
    ensures a in h.order && Accounts(Release(h, a))
  {
    DropElements(h.order, a);
    TotalDrop(h.order, h.next, a, 0);
  }

  lemma ReleaseShape(h: Heap, a: int)
    requires Shape(h) && a in h.next && h.used[a] && a != h.end && a in h.order
    ensures Backed(h, a) && Shape(Release(h, a))
  {
    var r := Release(h, a);
    assert Backed(h, a);
    forall x | x in r.next && x != h.end
      ensures Backed(r, x)
    {
      assert Backed(h, x);
    }
  }

  lemma ReleaseSeparated(h: Heap, a: int)
    requires Shape(h) && Separated(h, h.end, h.end) && a in h.next && h.used[a] && a != h.end && a in h.order
             && Backed(h, a)
    ensures Separated(Release(h, a), a, h.prev[a])
  {
    var r := Release(h, a);
    forall x | x in r.next && x != h.end && x != a && x != h.prev[a]
      ensures Apart(r, x)
    {
      assert Apart(h, x);
      if h.next[x] == a { OnlyPrev(h, x, a); }
    }
  }

  lemma ReleaseKeeps(h: Heap, a: int)
    requires Blocks(h) && a in h.next && h.used[a] && a != h.end
    ensures a in h.order && Backed(h, a)
    ensures var r := Release(h, a); Shape(r) && Accounts(r) && Separated(r, a, h.prev[a]) && Lives(r) == Lives(h) - {a}
  {
    ReleaseAccounts(h, a);
    ReleaseShape(h, a);
    ReleaseSeparated(h, a);
    ReleaseLives(h, a);
    hide Shape, Accounts, Separated, Lives;
  }

  lemma ReleaseLives(h: Heap, a: int)
    requires a in h.next && a in h.used && h.used[a] && a in h.order
    ensures Lives(Release(h, a)) == Lives(h) - {a}
  {
  }

  /** The block before a is prev[a]. */
  lemma OnlyPrev(h: Heap, x: int, a: int)
    requires Shape(h) && x in h.next && x != h.end && a in h.next && a != h.end && h.next[x] == a
    ensures a != 0 && a in h.prev && h.prev[a] == x
  {
    assert Backed(h, a) && Step(h.next, HDR, h.end, x);
    Ordered(h.next, h.end, h.prev[a], x);
  }

  lemma Ordered(next: map<int, int>, tail: int, p: int, x: int)
    requires Tiled(next, HDR, 0, tail) && p in next && x in next && p != tail && x != tail && next[p] == next[x]
    ensures p == x
  {
    assert Step(next, HDR, tail, x) && Step(next, HDR, tail, p);
    InOrder(next, tail, p, x);
    InOrder(next, tail, x, p);
  }

  lemma InOrder(next: map<int, int>, tail: int, p: int, x: int)
    requires Tiled(next, HDR, 0, tail) && p in next && x in next
    ensures p < x ==> next[p] <= x
  {
  }

  lemma MergeShape(h: Heap, a: int)
    requires Shape(h) && a in h.next && a != h.end && h.next[a] in h.next && h.next[a] != h.end
    ensures Shape(Merge(h, a)) && a < h.next[a] && h.next[h.next[a]] in h.next
  {
    var g, r := Merge(h, a), h.next[a];
    JoinTiles(h.next, g.next, HDR, 0, h.end, a);
    assert Step(h.next, HDR, h.end, r) && Step(h.next, HDR, h.end, a);
    forall x | x in g.next && x != h.end
      ensures Backed(g, x)
    {
      assert Backed(h, x);
      if x != 0 && x != h.next[r] { PrevUnique(h, x, r); }
    }
  }

  lemma MergeAccounts(h: Heap, a: int)
    requires Accounts(h) && a in h.next && !h.used[a] && h.next[a] in h.next && !h.used[h.next[a]] && h.next[a] != a
    ensures Accounts(Merge(h, a))
  {
    TotalFrame(h.order, h.next, Merge(h, a).next, 0);
  }

  /** Merging the free blocks a and next[a] leaves at most the pair at b unseparated. */
  lemma MergeKeeps(h: Heap, a: int, b: int)
    requires Shape(h) && Accounts(h) && Separated(h, a, b)
    requires a in h.next && h.next[a] in h.next && !h.used[a] && !h.used[h.next[a]] && b != h.next[a]
    ensures var g := Merge(h, a);
            Shape(g) && Accounts(g) && Separated(g, b, b) && Lives(g) == Lives(h) && !g.used[a]
            && g.next[a] == h.next[h.next[a]]
  {
    var g, r := Merge(h, a), h.next[a];
    MergeShape(h, a);
    MergeAccounts(h, a);
    assert Apart(h, r);
    forall x | x in g.next && x != h.end && x != b
      ensures Apart(g, x)
    {
      assert x != a ==> Apart(h, x);
      if x != a && h.next[x] == r { OnlyPrev(h, x, r); OnlyPrev(h, a, r); }
    }
  }
}
