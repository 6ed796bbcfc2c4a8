/** What the operations of a memory heap do to its blocks, without the free-list links. */
module MemHeapSpec {
  import opened Options
  import opened Rings
  import opened Tiling

  const HDR := 24      // RT_MEMHEAP_SIZE: six 32-bit words
  const MINIALLOC := 12

  /** next and prev are the block ring; free is the free list from its head. */
  datatype Heap = Heap(
    start: int, tail: int,
    used: map<int, bool>, next: map<int, int>, prev: map<int, int>,
    free: seq<int>, available: int, maxUsed: int)

  function Pool(h: Heap): int {
    h.tail + HDR - h.start
  }

  /** MEMITEM_SIZE */
  function Size(next: map<int, int>, a: int): int
    requires a in next
  {
    next[a] - a - HDR
  }

  ghost predicate Live(h: Heap, a: int) {
    a in h.next && a in h.used && h.used[a] && a != h.tail
  }

  /** The blocks handed out, each with the address where it ends. */
  ghost function Lives(h: Heap): map<int, int> {
    map b | b in h.next && b in h.used && h.used[b] && b != h.tail :: h.next[b]
  }

  // ---------------------------------------------------------------- invariant

  ghost function FreeBytes(free: seq<int>, next: map<int, int>): int
    requires forall a :: a in free ==> a in next
  {
    Total(free, next, HDR)
  }

  /** next and prev are inverse at block a. */
  ghost predicate Doubly(h: Heap, a: int) {
    && a in h.next && h.next[a] in h.prev && h.prev[h.next[a]] == a
    && a in h.prev && h.prev[a] in h.next && h.next[h.prev[a]] == a
  }

  /** The ring: blocks tile the pool, next and prev are inverse, the tail is used. */
  ghost predicate Shape(h: Heap) {
    && Tiled(h.next, HDR, h.start, h.tail)
    && h.used.Keys == h.next.Keys && h.prev.Keys == h.next.Keys
    && h.start < h.tail && h.used[h.tail]
    && h.next[h.tail] == h.start
    && (forall a {:trigger Doubly(h, a)} :: a in h.next ==> Doubly(h, a))
  }

  /** The free list holds the free blocks once each and the counters agree. */
  ghost predicate Counted(h: Heap) {
    && h.used.Keys == h.next.Keys
    && NoDup(h.free)
    && (forall a :: a in h.free <==> a in h.next && !h.used[a])
    && h.available == FreeBytes(h.free, h.next)
    && h.maxUsed >= Pool(h) - h.available
  }

  ghost predicate Apart(h: Heap, a: int) {
    && a in h.used && a in h.next && h.next[a] in h.used
    && (h.used[a] || h.used[h.next[a]])
  }

  /** No two neighbours are free, except perhaps the pair that starts at b. */
  ghost predicate Separated(h: Heap, b: int) {
    forall a {:trigger Apart(h, a)} :: a in h.next && a != b ==> Apart(h, a)
  }

  ghost predicate WellFormed(h: Heap) {
    Shape(h) && Counted(h) && Separated(h, h.tail)
  }

  // ------------------------------------------------------- elementary changes

  function CutAt(h: Heap, a: int, m: int): Heap
    requires a in h.next
  {
    h.(used := h.used[m := false],
       next := Cut(h.next, a, m),
       prev := h.prev[h.next[a] := m][m := a])
  }

  function JoinAt(h: Heap, a: int): Heap
    requires a in h.next && h.next[a] in h.next
  {
    h.(used := h.used - {h.next[a]},
       next := Join(h.next, a),
       prev := (h.prev - {h.next[a]})[h.next[h.next[a]] := a])
  }

  function Bump(h: Heap): Heap {
    h.(maxUsed := Max(h.maxUsed, Pool(h) - h.available))
  }

  /** Free block a is handed out. */
  function Take(h: Heap, a: int): Heap
    requires a in h.free && a in h.next
  {
    h.(used := h.used[a := true], free := Drop(h.free, a), available := h.available - Size(h.next, a))
  }

  /** The part of block a from m on becomes a free block at the head of the free list. */
  function CutFree(h: Heap, a: int, m: int): Heap
    requires a in h.next
  {
    var c := CutAt(h, a, m);
    c.(free := [m] + h.free, available := h.available + h.next[a] - m - HDR)
  }

  /** Used block a takes in the free block behind it. */
  function Swallow(h: Heap, a: int): Heap
    requires a in h.next && h.next[a] in h.next && h.next[a] in h.free
  {
    JoinAt(h, a).(free := Drop(h.free, h.next[a]), available := h.available - Size(h.next, h.next[a]))
  }

  /** Free block a takes in the free block behind it. */
  function Merge(h: Heap, a: int): Heap
    requires a in h.next && h.next[a] in h.next && h.next[a] in h.free
  {
    JoinAt(h, a).(free := Drop(h.free, h.next[a]), available := h.available + HDR)
  }

  /** The used block behind free block l joins it. */
  function MergeLeft(h: Heap, l: int): Heap
    requires l in h.next && h.next[l] in h.next
  {
    JoinAt(h, l).(available := h.available + Size(h.next, h.next[l]) + HDR)
  }

  function PutFree(h: Heap, a: int): Heap
    requires a in h.next
  {
    h.(used := h.used[a := false], free := [a] + h.free, available := h.available + Size(h.next, a))
  }

  function Coalesce(h: Heap, a: int): Heap
    requires a in h.next && h.next[a] in h.next && h.used.Keys == h.next.Keys
    requires !h.used[h.next[a]] ==> h.next[a] in h.free
  {
    if h.used[h.next[a]] then h else Merge(h, a)
  }

  // ---------------------------------------------------- elementary invariants

  lemma CutDoubly(h: Heap, h': Heap, a: int, m: int, x: int)
    requires a in h.next && Doubly(h, a) && m !in h.next && m !in h.prev && h' == CutAt(h, a, m)
    requires x == m || Doubly(h, x)
    ensures Doubly(h', x) && h'.prev.Keys == h.prev.Keys + {m}
  {
  }

  lemma CutShape(h: Heap, h': Heap, a: int, m: int)
    requires Shape(h) && a in h.next && a != h.tail
    requires a + HDR <= m && m + HDR <= h.next[a]
    requires h' == CutAt(h, a, m)
    ensures m !in h.next && Shape(h')
  {
    hide Doubly;
    CutTiles(h.next, h'.next, HDR, h.start, h.tail, a, m);
    assert Doubly(h, a);
    CutDoubly(h, h', a, m, m);
    forall x | x in h'.next
      ensures Doubly(h', x)
    {
      assert x != m ==> Doubly(h, x);
      CutDoubly(h, h', a, m, x);
    }
  }

  lemma JoinDoubly(h: Heap, h': Heap, a: int, x: int)
    requires Doubly(h, a) && Doubly(h, h.next[a]) && Doubly(h, x) && a != h.next[a] && x != h.next[a]
    requires h' == JoinAt(h, a)
    ensures Doubly(h', x) && h'.prev.Keys == h.prev.Keys - {h.next[a]}
  {
  }

  lemma JoinShape(h: Heap, h': Heap, a: int)
    requires Shape(h) && a in h.next && a != h.tail && h.next[a] in h.next && h.next[a] != h.tail
    requires h' == JoinAt(h, a)
    ensures Shape(h')
    ensures a < h.next[a]
  {
    hide Doubly;
    JoinTiles(h.next, h'.next, HDR, h.start, h.tail, a);
    assert Doubly(h, a) && Doubly(h, h.next[a]);
    JoinDoubly(h, h', a, a);
    forall x | x in h'.next
      ensures Doubly(h', x)
    {
      assert Doubly(h, x);
      JoinDoubly(h, h', a, x);
    }
  }

  lemma TakeCounts(h: Heap, h': Heap, a: int)
    requires Counted(h) && a in h.free && a in h.next && h' == Take(h, a)
    ensures Counted(Bump(h'))
  {
    DropElements(h.free, a);
    TotalDrop(h.free, h.next, a, HDR);
  }

  lemma TakeKeeps(h: Heap, h': Heap, a: int)
    requires WellFormed(h) && a in h.free && a in h.next && h' == Take(h, a)
    ensures Live(h', a) && Doubly(h, a) && h.used[h.next[a]]
    ensures Shape(h') && Separated(h', h.tail) && Counted(Bump(h'))
  {
    TakeCounts(h, h', a);
    assert Doubly(h, a) && Apart(h, a);
    forall x | x in h'.next
      ensures Doubly(h', x) && (x != h.tail ==> Apart(h', x))
    {
      assert Doubly(h, x) && (x != h.tail ==> Apart(h, x));
    }
  }

  lemma CutFreeCounts(h: Heap, c: Heap, a: int, m: int)
    requires Counted(Bump(h)) && Live(h, a) && m !in h.next && h.next[a] in h.next && c == CutFree(h, a, m)
    ensures Counted(Bump(c)) && m in c.free
  {
    assert c.free[0] == m && c.free[1..] == h.free;
    TotalFrame(h.free, h.next, c.next, HDR);
  }

  lemma CutFreeKeeps(h: Heap, c: Heap, a: int, m: int)
    requires Shape(h) && Separated(h, h.tail) && Counted(Bump(h)) && Live(h, a)
    requires a + HDR <= m && m + HDR <= h.next[a] && c == CutFree(h, a, m)
    ensures m !in h.next && Doubly(h, a)
    ensures Shape(c) && Separated(c, m) && Counted(Bump(c)) && Live(c, a) && c.next[a] == m && c.next[m] == h.next[a]
    ensures m in c.free && !c.used[m]
  {
    var b := CutAt(h, a, m);
    CutShape(h, b, a, m);
    assert Doubly(h, a);
    CutFreeCounts(h, c, a, m);
    forall x | x in c.next
      ensures Doubly(c, x) && (x != m ==> Apart(c, x))
    {
      assert Doubly(b, x);
      assert x in h.next && x != h.tail ==> Apart(h, x);
      assert Doubly(b, h.tail);
    }
  }

  lemma FreeIsListed(h: Heap, a: int)
    requires Counted(h) && a in h.next && a in h.used && !h.used[a]
    ensures a in h.free
  {
  }

  /** A free block that leaves the ring leaves the free list. */
  lemma LeavesList(h: Heap, s: Heap, r: int)
    requires Counted(h) && r in h.free && s.used == h.used - {r} && s.next.Keys == h.next.Keys - {r}
    requires s.free == Drop(h.free, r)
    ensures s.used.Keys == s.next.Keys && NoDup(s.free)
    ensures forall a :: a in s.free <==> a in s.next && !s.used[a]
    ensures forall a :: a in s.free <==> a in h.free && a != r
  {
    DropElements(h.free, r);
  }

  lemma SwallowCounts(h: Heap, s: Heap, a: int)
    requires Counted(h) && Live(h, a) && h.next[a] in h.next && h.next[a] in h.free && s == Swallow(h, a)
    ensures Counted(Bump(s))
  {
    hide NoDup;
    var r := h.next[a];
    LeavesList(h, s, r);
    TotalDrop(h.free, h.next, r, HDR);
    TotalFrame(s.free, h.next, s.next, HDR);
  }

  lemma SwallowKeeps(h: Heap, s: Heap, a: int)
    requires WellFormed(h) && Live(h, a) && h.next[a] in h.next && !h.used[h.next[a]]
    requires h.next[a] in h.free && s == Swallow(h, a)
    ensures Shape(s) && Separated(s, h.tail) && Counted(Bump(s)) && Live(s, a)
    ensures var r := h.next[a]; Doubly(h, r) && s.next[a] == h.next[r] && h.used[h.next[r]]
  {
    var r := h.next[a];
    var b := JoinAt(h, a);
    JoinShape(h, b, a);
    SwallowCounts(h, s, a);
    assert Doubly(h, r) && Apart(h, r);
    forall x | x in s.next
      ensures Doubly(s, x) && (x != h.tail ==> Apart(s, x))
    {
      assert Doubly(b, x);
      assert x != h.tail ==> Apart(h, x);
    }
  }

  lemma MergeCounts(h: Heap, s: Heap, a: int)
    requires Counted(h) && a in h.free && h.next[a] in h.free && h.next[a] != a && s == Merge(h, a)
    ensures Counted(s)
  {
    hide NoDup;
    var r := h.next[a];
    LeavesList(h, s, r);
    TotalDrop(h.free, h.next, r, HDR);
    TotalResize(s.free, h.next, s.next, a, HDR);
  }

  lemma MergeKeeps(h: Heap, s: Heap, a: int)
    requires Shape(h) && Counted(h) && Separated(h, a)
    requires a in h.free && h.next[a] in h.free && s == Merge(h, a)
    ensures WellFormed(s)
  {
    var r := h.next[a];
    var b := JoinAt(h, a);
    JoinShape(h, b, a);
    MergeCounts(h, s, a);
    assert Doubly(h, r) && Apart(h, r) && Doubly(h, h.tail);
    forall x | x in s.next
      ensures Doubly(s, x) && (x != h.tail ==> Apart(s, x))
    {
      assert Doubly(b, x) && Doubly(h, x);
      assert x != a ==> Apart(h, x);
    }
  }

  lemma CoalesceKeeps(h: Heap, a: int)
    requires Shape(h) && Counted(h) && Separated(h, a) && a in h.free && a in h.next
    ensures h.next[a] in h.next && (!h.used[h.next[a]] ==> h.next[a] in h.free)
    ensures WellFormed(Coalesce(h, a))
  {
    assert Doubly(h, a);
    if h.used[h.next[a]] {
      forall x | x in h.next && x != h.tail
        ensures Apart(h, x)
      {
        assert x != a ==> Apart(h, x);
      }
    } else {
      MergeKeeps(h, Merge(h, a), a);
    }
  }

  lemma MergeLeftCounts(h: Heap, s: Heap, a: int, l: int)
    requires Counted(h) && Live(h, a) && Size(h.next, a) >= 0 && l in h.next && l != a
    requires h.next[l] == a && !h.used[l] && s == MergeLeft(h, l)
    ensures Counted(s) && l in s.free
  {
    assert l in h.free;
    TotalResize(h.free, h.next, s.next, l, HDR);
  }

  /** The used block behind a free one gives up its header and its bytes to it. */
  lemma MergeLeftKeeps(h: Heap, s: Heap, a: int, l: int)
    requires WellFormed(h) && Live(h, a)
    requires l in h.next && h.next[l] == a && !h.used[l] && s == MergeLeft(h, l)
    ensures Shape(s) && Counted(s) && Separated(s, l) && l in s.free && s.next[l] == h.next[a]
  {
    var b := JoinAt(h, l);
    JoinShape(h, b, l);
    assert Step(h.next, HDR, h.tail, a);
    MergeLeftCounts(h, s, a, l);
    assert Doubly(h, a) && Doubly(h, l);
    forall x | x in s.next
      ensures Doubly(s, x) && (x != l ==> Apart(s, x))
    {
      assert Doubly(b, x) && Doubly(h, x);
      assert x != h.tail ==> Apart(h, x);
    }
  }

  lemma PutFreeCounts(h: Heap, s: Heap, a: int)
    requires Counted(h) && Live(h, a) && Size(h.next, a) >= 0 && s == PutFree(h, a)
    ensures Counted(s) && a in s.free
  {
    assert s.free[1..] == h.free;
    assert s.free[0] == a;
  }

  lemma PutFreeKeeps(h: Heap, s: Heap, a: int)
    requires WellFormed(h) && Live(h, a) && Doubly(h, a) && h.used[h.prev[a]] && s == PutFree(h, a)
    ensures Shape(s) && Counted(s) && Separated(s, a) && a in s.free
  {
    assert Step(h.next, HDR, h.tail, a);
    PutFreeCounts(h, s, a);
    forall x | x in s.next
      ensures Doubly(s, x) && (x != a ==> Apart(s, x))
    {
      assert Doubly(h, x);
      assert x != h.tail ==> Apart(h, x);
    }
  }

  // ------------------------------------------- elementary changes of the live blocks

  lemma TakeLives(h: Heap, a: int)
    requires a in h.free && a in h.next && a != h.tail
    ensures Lives(Take(h, a)) == Lives(h)[a := h.next[a]]
  {
  }

  lemma CutFreeLives(h: Heap, a: int, m: int)
    requires Live(h, a) && m !in h.next
    ensures Lives(CutFree(h, a, m)) == Lives(h)[a := m]
  {
  }

  lemma SwallowLives(h: Heap, a: int)
    requires Counted(h) && Live(h, a) && h.next[a] in h.next && h.next[a] in h.free
    ensures Lives(Swallow(h, a)) == Lives(h)[a := h.next[h.next[a]]]
  {
  }

  lemma MergeLives(h: Heap, a: int)
    requires Counted(h) && a in h.free && h.next[a] in h.next && h.next[a] in h.free
    ensures Lives(Merge(h, a)) == Lives(h)
  {
  }

  lemma MergeLeftLives(h: Heap, l: int)
    requires h.used.Keys == h.next.Keys && l in h.next && !h.used[l] && Live(h, h.next[l])
    ensures Lives(MergeLeft(h, l)) == Lives(h) - {h.next[l]}
  {
  }

  lemma PutFreeLives(h: Heap, a: int)
    requires Live(h, a)
    ensures Lives(PutFree(h, a)) == Lives(h) - {a}
  {
  }
}
