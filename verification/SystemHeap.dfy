/** memheap.c as the system heap: rt_malloc asks the default heap first and then the others, and rt_realloc
    moves a block to another heap when its own has no room. */
module SystemHeap {
  import opened Options
  import opened Tiling
  import opened Payloads
  import opened MemHeapSpec
  import MemHeapOps
  import opened MemHeapLaws
  import opened MemHeapExact
  import opened MemHeap

  ghost predicate Ok(h: MemHeap)
    reads h
  {
    h.Valid()
  }

  /** The blocks of a heap and the bytes in them */
  ghost function StateOf(h: MemHeap): (Heap, Bytes)
    reads h
  {
    (h.Abs(), h.data)
  }

  /** A heap with blocks s has no room for the request. */
  ghost predicate Refuses(s: Heap, size: nat) {
    NoFit(s, MemHeapOps.Rounded(size))
  }

  /** Block a of a heap with blocks s can neither stay nor grow. */
  ghost predicate Caught(s: Heap, a: int, size: nat) {
    Stuck(s, a, MemHeapOps.Rounded(size))
  }

  /** Blocks s become t by a request that is given p. */
  ghost predicate Placed(s: Heap, size: nat, t: Heap, p: int) {
    Counted(s) && MemHeapOps.Alloc(s, size) == (t, Some(p - HDR))
  }

  /** Blocks s become t when block a is resized inside its heap, to p. */
  ghost predicate Resized(s: Heap, a: int, size: nat, t: Heap, p: int) {
    WellFormed(s) && Live(s, a) && MemHeapOps.Realloc(s, a, size) == (t, Some(p - HDR))
  }

  /** Blocks s become t when block a is released. */
  ghost predicate Freed(s: Heap, a: int, t: Heap) {
    WellFormed(s) && Live(s, a) && t == MemHeapOps.Free(s, a)
  }

  /** A heap goes from s to t and gives p: the blocks are those of rt_memheap_alloc, no payload that was live has
      changed, and the new payload lies clear of them. */
  ghost predicate Gives(s: (Heap, Bytes), size: nat, t: (Heap, Bytes), p: int) {
    && Placed(s.0, size, t.0, p)
    && Keeps(s, {}, t)
    && Clear(s.0, p, size)
  }

  /** No byte of a payload that was live changes, the blocks in but excepted. */
  ghost predicate Keeps(s: (Heap, Bytes), but: set<int>, t: (Heap, Bytes)) {
    OthersKept(Lives(s.0), HDR, but, s.1, t.1)
  }

  ghost predicate Clear(h: Heap, p: int, size: nat) {
    forall x :: x in Lives(h) ==> p + size <= x || Lives(h)[x] <= p - HDR
  }

  lemma NewClear(h: Heap, size: nat)
    requires WellFormed(h)
    ensures Counted(h) && (MemHeapOps.Alloc(h, size).1.None? <==> Refuses(h, size))
    ensures MemHeapOps.Alloc(h, size).1.None? ==> MemHeapOps.Alloc(h, size).0 == h
    ensures MemHeapOps.Alloc(h, size).1.Some? ==> Clear(h, MemHeapOps.Alloc(h, size).1.value + HDR, size)
  {
    var (h', p) := MemHeapOps.Alloc(h, size);
    AllocComplete(h, size);
    MemHeapOps.AllocKeeps(h, size);
    MemHeapOps.AllocLives(h, size);
    if p.Some? {
      forall x | x in Lives(h)
        ensures p.value + HDR + size <= x || Lives(h)[x] <= p.value
      {
        LivePayloads(h', p.value, x);
      }
    }
  }

  /** One rt_memheap_alloc */
  method Ask(h: MemHeap, size: nat) returns (p: Option<int>)
    requires Ok(h)
    modifies h
    ensures Ok(h)
    ensures p.None? <==> Refuses(old(StateOf(h)).0, size)
    ensures p.None? ==> StateOf(h) == old(StateOf(h))
    ensures p.Some? ==> Gives(old(StateOf(h)), size, StateOf(h), p.value)
  {
    NewClear(h.Abs(), size);
    hide WellFormed, Counted, Clear, Refuses, NoFit, MemHeapOps.Alloc;
    p := h.Alloc(size);
  }

  /** rt_malloc: memory from the first heap that has it, and none exactly when no heap has it. The list of heap
      objects holds the default heap too; k - 1 is the place of the heap that gives, 0 stands for the default. */
  method Malloc(first: MemHeap, list: seq<MemHeap>, size: nat) returns (p: Option<int>, k: nat)
    requires Ok(first) && forall i :: 0 <= i < |list| ==> Ok(list[i])
    modifies first, list
    ensures Ok(first) && forall i :: 0 <= i < |list| ==> Ok(list[i])
    ensures p.None? ==>
              && Refuses(old(StateOf(first)).0, size) && StateOf(first) == old(StateOf(first))
              && forall i :: 0 <= i < |list| ==>
                   Refuses(old(StateOf(list[i])).0, size) && StateOf(list[i]) == old(StateOf(list[i]))
    ensures p.Some? ==> k <= |list|
    ensures p.Some? ==>
              var giver := if k == 0 then first else list[k - 1];
              && Gives(old(StateOf(giver)), size, StateOf(giver), p.value) && !Refuses(old(StateOf(giver)).0, size)
              && (k > 0 ==> Refuses(old(StateOf(first)).0, size))
              && (forall i :: 0 <= i < k - 1 ==> Refuses(old(StateOf(list[i])).0, size))
              && (first != giver ==> StateOf(first) == old(StateOf(first)))
              && (forall i :: 0 <= i < |list| && list[i] != giver ==> StateOf(list[i]) == old(StateOf(list[i])))
  {
    hide Ok, StateOf, Refuses, Gives;
    k := 0;
    p := Ask(first, size);
    if p.Some? { return; }
    var i := 0;
    while i < |list|
      invariant i <= |list| && Ok(first) && forall j :: 0 <= j < |list| ==> Ok(list[j])
      invariant StateOf(first) == old(StateOf(first)) && Refuses(old(StateOf(first)).0, size)
      invariant forall j :: 0 <= j < |list| ==> StateOf(list[j]) == old(StateOf(list[j]))
      invariant forall j :: 0 <= j < i ==> Refuses(old(StateOf(list[j])).0, size)
    {
      if list[i] != first {
        p := Ask(list[i], size);
        if p.Some? {
          k := i + 1;
          return;
        }
      }
      i := i + 1;
    }
    p := None;
  }

  // -------------------------------------------------------------- rt_realloc

  /** No heap has room for the request. */
  ghost predicate NobodyGives(first: MemHeap, list: seq<MemHeap>, size: nat)
    reads first, list
  {
    Refuses(StateOf(first).0, size) && forall i :: 0 <= i < |list| ==> Refuses(StateOf(list[i]).0, size)
  }

  /** Heap giver comes first, in the order of the search, of those that have room. */
  ghost predicate FirstWithRoom(first: MemHeap, list: seq<MemHeap>, giver: MemHeap, size: nat)
    reads first, list, giver
  {
    && !Refuses(StateOf(giver).0, size)
    && (giver == first
        || (Refuses(StateOf(first).0, size)
            && exists k :: 0 <= k < |list| && list[k] == giver
                 && forall i :: 0 <= i < k ==> Refuses(StateOf(list[i]).0, size)))
  }

  /** The payload size of block a */
  ghost function SizeIn(h: Heap, a: int): int
    requires a in h.next
  {
    Size(h.next, a)
  }

  /** The first min(old, new) bytes of block a of a heap in state s are behind p in a heap in state t. */
  ghost predicate Carried(s: (Heap, Bytes), a: int, t: (Heap, Bytes), p: int, size: nat) {
    a in s.0.next && PayloadKept(HDR, s.1, a, t.1, p - HDR, Min(SizeIn(s.0, a), size))
  }

  /** rt_memheap_realloc of block a goes from s to t and returns p. */
  lemma Answered(s: Heap, a: int, size: nat, t: Heap, p: Option<int>)
    requires WellFormed(s) && Live(s, a) && size > 0 && (t, p) == ReallocPtr(s, Some(a + HDR), size)
    ensures p.Some? ==> Resized(s, a, size, t, p.value)
    ensures p.None? ==> t == s
    ensures p.None? <==> Caught(s, a, size) && Refuses(s, size)
    ensures p == Some(a + HDR) <==> !Caught(s, a, size)
  {
    hide WellFormed, Live, MemHeapOps.Realloc, MemHeapOps.Alloc, MemHeapOps.Free, NoFit, Stuck, MemHeapOps.Rounded;
    ReallocStays(s, a, size);
    if p.None? { Refused(s, a, size); }
    assert a + HDR - HDR == a;
  }

  lemma Refused(h: Heap, a: int, size: nat)
    requires WellFormed(h) && Live(h, a) && MemHeapOps.Realloc(h, a, size).1.None?
    ensures MemHeapOps.Realloc(h, a, size).0 == h
  {
    ReallocExact(h, a, size);
    hide WellFormed, Live, MemHeapOps.Realloc;
  }

  /** What holds of the rounded size holds of the size. */
  lemma KeptLess(s: (Heap, Bytes), a: int, t: (Heap, Bytes), p: int, size: nat)
    requires a in s.0.next
             && PayloadKept(HDR, s.1, a, t.1, p - HDR, Min(Size(s.0.next, a), MemHeapOps.Rounded(size)))
    ensures Carried(s, a, t, p, size)
  {
    assert MemHeapOps.Rounded(size) >= size;
    hide MemHeapOps.Rounded, ByteKept;
  }

  /** One rt_memheap_realloc of block a to a size that is not zero */
  method AskAgain(h: MemHeap, a: int, size: nat) returns (p: Option<int>)
    requires Ok(h) && Live(StateOf(h).0, a) && size > 0
    modifies h
    ensures Ok(h)
    ensures p.None? ==> StateOf(h) == old(StateOf(h))
    ensures p.None? <==> Caught(old(StateOf(h)).0, a, size) && Refuses(old(StateOf(h)).0, size)
    ensures p == Some(a + HDR) <==> !Caught(old(StateOf(h)).0, a, size)
    ensures Keeps(old(StateOf(h)), {a}, StateOf(h))
    ensures p.Some? ==> Carried(old(StateOf(h)), a, StateOf(h), p.value, size)
    ensures p.Some? ==> Resized(old(StateOf(h)).0, a, size, StateOf(h).0, p.value)
  {
    hide Live, Refuses, Caught, OthersKept, PayloadKept, Carried, Resized, ReallocPtr, Stuck, NoFit;
    ghost var s := StateOf(h);
    p := h.Realloc(Some(a + HDR), size);
    Answered(s.0, a, size, StateOf(h).0, p);
    if p.Some? { KeptLess(s, a, StateOf(h), p.value, size); }
  }

  /** rt_memcpy from block a of one heap to the new block behind p of another */
  method CopyAcross(pool: MemHeap, a: int, giver: MemHeap, p: int, n: nat)
    requires pool != giver && Ok(giver)
    modifies giver
    ensures Ok(giver)
    ensures StateOf(giver) == (old(StateOf(giver)).0, Copied(old(StateOf(giver)).1, StateOf(pool).1, p, a + HDR, n))
  {
    hide WellFormed;
    giver.data := Copied(giver.data, pool.data, p, a + HDR, n);
  }

  /** The copy reaches no payload that was live, and has the bytes of block a. */
  lemma CrossKeeps(s: (Heap, Bytes), size: nat, t: (Heap, Bytes), p: int, src: Bytes, a: int, n: nat)
    requires Gives(s, size, t, p) && n <= size
    ensures OthersKept(Lives(s.0), HDR, {}, s.1, Copied(t.1, src, p, a + HDR, n))
    ensures PayloadKept(HDR, src, a, Copied(t.1, src, p, a + HDR, n), p - HDR, n)
  {
    CopyKeeps(Lives(s.0), HDR, {}, p - HDR, s.1, t.1, src, a + HDR, n);
    AllKept(HDR, src, a, n);
    CopyHas(HDR, src, t.1, src, a, p - HDR, n);
  }

  /** rt_free */
  method Release(h: MemHeap, a: int)
    requires Ok(h) && Live(StateOf(h).0, a)
    modifies h
    ensures Ok(h) && StateOf(h).1 == old(StateOf(h)).1
    ensures Freed(old(StateOf(h)).0, a, StateOf(h).0)
  {
    hide WellFormed;
    h.Free(Some(a + HDR));
  }

  lemma OkWellFormed(h: MemHeap)
    requires Ok(h)
    ensures WellFormed(StateOf(h).0)
  {
  }

  lemma LiveSize(h: Heap, a: int)
    requires WellFormed(h) && Live(h, a)
    ensures a in h.next && SizeIn(h, a) >= 0
  {
    assert Step(h.next, HDR, h.tail, a);
  }

  /** The heap pool has refused: the block moves to the first heap with room, if there is one. */
  method MoveAway(first: MemHeap, list: seq<MemHeap>, pool: MemHeap, a: int, size: nat)
    returns (p: Option<int>, giver: MemHeap)
    requires Ok(first) && forall i :: 0 <= i < |list| ==> Ok(list[i])
    requires (pool == first || pool in list) && Live(StateOf(pool).0, a) && Refuses(StateOf(pool).0, size)
    modifies first, list
    ensures Ok(first) && forall i :: 0 <= i < |list| ==> Ok(list[i])
    ensures giver == first || giver in list
    ensures p.Some? ==> Carried(old(StateOf(pool)), a, StateOf(giver), p.value, size)
    ensures p.Some? ==> Keeps(old(StateOf(pool)), {a}, StateOf(pool))
    ensures p.Some? && giver != pool ==> Keeps(old(StateOf(giver)), {}, StateOf(giver))
    ensures forall i :: 0 <= i < |list| && list[i] != pool && (p.None? || list[i] != giver) ==>
                          StateOf(list[i]) == old(StateOf(list[i]))
    ensures first != pool && (p.None? || first != giver) ==> StateOf(first) == old(StateOf(first))
    ensures p.None? ==> StateOf(pool) == old(StateOf(pool))
    ensures p.Some? ==> giver != pool && Freed(old(StateOf(pool)).0, a, StateOf(pool).0)
    ensures p.Some? ==> Placed(old(StateOf(giver)).0, size, StateOf(giver).0, p.value)
    ensures p.None? <==> old(NobodyGives(first, list, size))
    ensures p.Some? ==> old(FirstWithRoom(first, list, giver, size))
  {
    hide Ok, StateOf, Refuses, Gives, Keeps, Carried, WellFormed, Live, Freed, Placed;
    var k;
    p, k := Malloc(first, list, size);
    giver := if k == 0 || p.None? then first else list[k - 1];
    if p.Some? {
      Move(pool, a, giver, p.value, size, old(StateOf(giver)));
    }
  }

  /** rt_realloc of block a, whose header names the heap pool, to a size that is not zero. The first
      min(old, new) bytes are found at the pointer returned, in whichever heap; no other payload that is live
      in any heap changes. Every heap refuses exactly when null is returned, and then nothing has changed. */
  method Resize(first: MemHeap, list: seq<MemHeap>, pool: MemHeap, a: int, size: nat)
    returns (p: Option<int>, giver: MemHeap)
    requires Ok(first) && forall i :: 0 <= i < |list| ==> Ok(list[i])
    requires (pool == first || pool in list) && Live(StateOf(pool).0, a) && size > 0
    modifies first, list
    ensures Ok(first) && forall i :: 0 <= i < |list| ==> Ok(list[i])
    ensures giver == first || giver in list
    ensures p.Some? ==> Carried(old(StateOf(pool)), a, StateOf(giver), p.value, size)
    ensures p.Some? ==> Keeps(old(StateOf(pool)), {a}, StateOf(pool))
    ensures p.Some? && giver != pool ==> Keeps(old(StateOf(giver)), {}, StateOf(giver))
    ensures forall i :: 0 <= i < |list| && list[i] != pool && (p.None? || list[i] != giver) ==>
                          StateOf(list[i]) == old(StateOf(list[i]))
    ensures first != pool && (p.None? || first != giver) ==> StateOf(first) == old(StateOf(first))
    ensures p.None? ==> StateOf(pool) == old(StateOf(pool))
    ensures p.Some? ==>
              if giver == pool then Resized(old(StateOf(pool)).0, a, size, StateOf(pool).0, p.value)
              else
                && Freed(old(StateOf(pool)).0, a, StateOf(pool).0)
                && Placed(old(StateOf(giver)).0, size, StateOf(giver).0, p.value)
    ensures p.None? <==>
              && Caught(old(StateOf(pool)).0, a, size)
              && old(NobodyGives(first, list, size))
    ensures p.Some? && giver != pool ==> old(FirstWithRoom(first, list, giver, size))
    ensures p == Some(a + HDR) && giver == pool <==> !Caught(old(StateOf(pool)).0, a, size)
  {
    hide Ok, StateOf, Refuses, Caught, Gives, Keeps, Carried, WellFormed, Live, Freed, Placed, Resized;
    giver := pool;
    p := AskAgain(pool, a, size);
    if p.None? { p, giver := MoveAway(first, list, pool, a, size); }
  }

  /** rt_realloc: a null pointer asks for new memory, size 0 releases the block, anything else resizes it. */
  method Realloc(first: MemHeap, list: seq<MemHeap>, pool: MemHeap, ptr: Option<int>, size: nat)
    returns (p: Option<int>, giver: MemHeap)
    requires Ok(first) && forall i :: 0 <= i < |list| ==> Ok(list[i])
    requires pool == first || pool in list
    requires ptr.Some? ==> Live(StateOf(pool).0, ptr.value - HDR)
    modifies first, list
    ensures Ok(first) && forall i :: 0 <= i < |list| ==> Ok(list[i])
    ensures giver == first || giver in list
    ensures first != pool && (p.None? || first != giver) ==> StateOf(first) == old(StateOf(first))
    ensures forall i :: 0 <= i < |list| && list[i] != pool && (p.None? || list[i] != giver) ==>
                          StateOf(list[i]) == old(StateOf(list[i]))
    ensures ptr.None? && (p.None? || pool != giver) ==> StateOf(pool) == old(StateOf(pool))
    ensures ptr.None? && p.Some? ==> Gives(old(StateOf(giver)), size, StateOf(giver), p.value)
    ensures ptr.Some? && size == 0 ==>
              p.None? && StateOf(pool).1 == old(StateOf(pool)).1
              && Freed(old(StateOf(pool)).0, ptr.value - HDR, StateOf(pool).0)
    ensures ptr.Some? && p.Some? ==>
              && Carried(old(StateOf(pool)), ptr.value - HDR, StateOf(giver), p.value, size)
              && Keeps(old(StateOf(pool)), {ptr.value - HDR}, StateOf(pool))
              && if giver == pool then
                   Resized(old(StateOf(pool)).0, ptr.value - HDR, size, StateOf(pool).0, p.value)
                 else
                   && Freed(old(StateOf(pool)).0, ptr.value - HDR, StateOf(pool).0)
                   && Placed(old(StateOf(giver)).0, size, StateOf(giver).0, p.value)
                   && Keeps(old(StateOf(giver)), {}, StateOf(giver))
    ensures ptr.Some? && size > 0 && p.None? ==> StateOf(pool) == old(StateOf(pool))
    ensures ptr.None? ==> (p.None? <==> old(NobodyGives(first, list, size)))
    ensures ptr.Some? && size > 0 ==>
              && (p.None? <==>
                    Caught(old(StateOf(pool)).0, ptr.value - HDR, size) && old(NobodyGives(first, list, size)))
              && (p == ptr && giver == pool <==> !Caught(old(StateOf(pool)).0, ptr.value - HDR, size))
    ensures p.Some? && (ptr.None? || giver != pool) ==> old(FirstWithRoom(first, list, giver, size))
  {
    hide Ok, StateOf, Refuses, Caught, Gives, Keeps, Carried, WellFormed, Live, Freed, Placed, Resized;
    giver := pool;
    if ptr.None? {
      var k;
      p, k := Malloc(first, list, size);
      if p.Some? { giver := if k == 0 then first else list[k - 1]; }
    } else if size == 0 {
      Release(pool, ptr.value - HDR);
      p := None;
    } else {
      p, giver := Resize(first, list, pool, ptr.value - HDR, size);
    }
  }

  /** The rest of rt_realloc, when the new block is behind p in the heap giver, which was in state s: copy and
      release. */
  method Move(pool: MemHeap, a: int, giver: MemHeap, p: int, size: nat, ghost s: (Heap, Bytes))
    requires pool != giver && Ok(pool) && Ok(giver) && Live(StateOf(pool).0, a) && Gives(s, size, StateOf(giver), p)
    modifies pool, giver
    ensures Ok(pool) && Ok(giver) && Carried(old(StateOf(pool)), a, StateOf(giver), p, size)
    ensures Keeps(s, {}, StateOf(giver))
    ensures Keeps(old(StateOf(pool)), {a}, StateOf(pool))
    ensures Freed(old(StateOf(pool)).0, a, StateOf(pool).0) && Placed(s.0, size, StateOf(giver).0, p)
  {
    OkWellFormed(pool);
    LiveSize(StateOf(pool).0, a);
    SameKept(Lives(StateOf(pool).0), HDR, {a}, StateOf(pool).1);
    var oldsize := PayloadSize(pool, a);
    var n := if size > oldsize then oldsize else size;
    CrossKeeps(s, size, StateOf(giver), p, StateOf(pool).1, a, n);
    hide Ok, StateOf, Gives, OthersKept, PayloadKept, WellFormed, Live, SizeIn, Freed, Placed;
    CopyAcross(pool, a, giver, p, n);
    Release(pool, a);
  }

  /** MEMITEM_SIZE of a live block */
  method PayloadSize(h: MemHeap, a: int) returns (size: nat)
    requires Ok(h) && Live(StateOf(h).0, a)
    ensures a in StateOf(h).0.next && size == SizeIn(StateOf(h).0, a)
  {
    OkWellFormed(h);
    LiveSize(StateOf(h).0, a);
    size := h.next[a] - a - HDR;
  }
}
