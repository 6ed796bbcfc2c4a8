/** mempool.c: the pools. The first word of a block is raw memory: while the block is free it holds
    the next free block, while it is handed out the address of its pool. */
module MemPool {
  import opened Options
  import opened Arithmetic
  import opened Rings
  import opened Chains
  import opened MemPoolProtocol

  const LINK_SIZE := 4

  /** The k-th block of a pool */
  function Block(start: int, stride: nat, k: nat): int {
    start + k * stride
  }

  lemma {:induction false} BlockOrder(start: int, stride: nat, j: nat, k: nat)
    requires stride > 0 && j < k
    ensures Block(start, stride, j) < Block(start, stride, k)
    decreases k
  {
    NextBlock(start, stride, k - 1);
    hide Block;
    if j < k - 1 { BlockOrder(start, stride, j, k - 1); }
  }

  lemma NextBlock(start: int, stride: nat, k: nat)
    ensures Block(start, stride, k + 1) == Block(start, stride, k) + stride
    ensures Block(start, stride, 0) == start
  {
    assert (k + 1) * stride == k * stride + stride;
  }

  function Blocks(start: int, stride: nat, n: nat): (r: seq<int>)
    ensures |r| == n
  {
    seq(n, k requires 0 <= k < n => Block(start, stride, k))
  }

  function NewPool(s: Mp, mp: int, blocks: seq<int>): Mp {
    var all := s.home.Keys + (set k | 0 <= k < |blocks| :: blocks[k]);
    s.(home := map b | b in all :: if b in s.home then s.home[b] else mp,
       free := s.free[mp := blocks], waiters := s.waiters[mp := []])
  }

  lemma NewPoolKeeps(s: Mp, mp: int, blocks: seq<int>)
    requires Inv(s) && mp !in s.free && NoDup(blocks) && forall k :: 0 <= k < |blocks| ==> blocks[k] !in s.home
    ensures Inv(NewPool(s, mp, blocks))
    ensures var s' := NewPool(s, mp, blocks);
            && s'.free == s.free[mp := blocks] && s'.waiters == s.waiters[mp := []] && s'.out == s.out && s'.pc == s.pc
            && (forall b :: b in s.home ==> b in s'.home && s'.home[b] == s.home[b])
            && (forall b :: b in s'.home ==> b in s.home || b in blocks)
            && (forall b :: b in s.home ==> b !in blocks) && s.out <= s.home.Keys
  {
    var s' := NewPool(s, mp, blocks);
    forall b | b in s'.home
      ensures InPlace(s', b)
    {
      if b in s.home { assert InPlace(s, b); }
    }
    forall q | q in s'.free
      ensures PoolOk(s', q) && Awake(s', q)
    {
      if q != mp { assert PoolOk(s, q) && Awake(s, q); }
    }
    forall t | t in s'.pc
      ensures Parked(s', t)
    {
      assert Parked(s, t);
    }
  }

  /** Writing the first word of the first free block of pool mp leaves the other free lists alone. */
  lemma GrantFrame(s: Mp, h: map<int, int>, mp: int, q: int, p: int)
    requires Inv(s) && mp in s.free && s.free[mp] != [] && q in s.free && Chained(h, p, s.free[q])
    ensures if q == mp then p in h
            && Chained(h[s.free[mp][0] := mp], h[p], s.free[mp][1..])
            else Chained(h[s.free[mp][0] := mp], p, s.free[q])
  {
    var b := s.free[mp][0];
    assert PoolOk(s, mp) && PoolOk(s, q);
    HeadGone(s.free[mp]);
    if q == mp {
      ChainTail(h, p, s.free[mp]);
      ChainFrame(h, h[b := mp], h[p], s.free[mp][1..]);
    } else {
      assert b !in s.free[q];
      ChainFrame(h, h[b := mp], p, s.free[q]);
    }
  }

  lemma HomeKnown(s: Mp, b: int)
    requires Inv(s) && b in s.out
    ensures b in s.home && s.home[b] in s.free && s.home[b] in s.waiters && b !in s.free[s.home[b]]
  {
    assert InPlace(s, b);
  }

  /** Writing the first word of a block that comes back leaves the other free lists alone. */
  lemma ReleaseFrame(s: Mp, h: map<int, int>, b: int, q: int, p: int, first: int)
    requires Inv(s) && b in s.out && b != RT_NULL && q in s.free && Chained(h, p, s.free[q])
    requires b in s.home && (q == s.home[b] ==> first == p)
    ensures if q == s.home[b] then Chained(h[b := first], b, [b] + s.free[q]) else Chained(h[b := first], p, s.free[q])
  {
    HomeKnown(s, b);
    assert PoolOk(s, q);
    if q == s.home[b] {
      ChainPush(h, p, s.free[q], b);
    } else {
      ChainFrame(h, h[b := first], p, s.free[q]);
    }
  }

  lemma ReleaseFields(s: Mp, b: int)
    requires Inv(s) && b in s.out
    ensures b in s.home && s.home[b] in s.free && s.home[b] in s.waiters && Enabled(s, Release(b))
    ensures var s', mp := Do(s, Release(b)), s.home[b];
            && s'.home == s.home && s'.out == s.out - {b} && s'.free == s.free[mp := [b] + s.free[mp]]
            && s'.waiters == (if s.waiters[mp] == [] then s.waiters else s.waiters[mp := s.waiters[mp][1..]])
            && s'.pc == (if s.waiters[mp] == [] then s.pc else s.pc[s.waiters[mp][0] := Woken(mp)])
  {
    assert InPlace(s, b) && PoolOk(s, s.home[b]);
  }

  datatype Outcome = Granted(block: int) | TimeOut | Suspended

  class MemPools {
    var header: map<int, int>          // first words
    var blockList: map<int, int>       // by pool
    var blockFreeCount: map<int, nat>
    var blockTotalCount: map<int, nat>
    var suspendThread: map<int, seq<int>>
    var phase: map<int, Pc>            // where the threads are in rt_mp_alloc

    ghost var st: Mp

    /** The fields of a pool agree with its free list. */
    ghost predicate Listed(mp: int)
      requires mp in st.free
      reads this
    {
      && mp in blockList && mp in blockFreeCount && mp != RT_NULL
      && blockFreeCount[mp] == |st.free[mp]| && Chained(header, blockList[mp], st.free[mp])
    }

    /** A block that is handed out names its pool. */
    ghost predicate Named(b: int)
      reads this
    {
      b in header && b in st.home && header[b] == st.home[b]
    }

    ghost predicate Valid()
      reads this
    {
      && Inv(st) && st.waiters == suspendThread && st.pc == phase
      && (forall mp {:trigger Listed(mp)} :: mp in st.free ==> Listed(mp))
      && (forall b {:trigger Named(b)} :: b in st.out ==> Named(b))
      && RT_NULL !in st.home
    }

    constructor (threads: set<int>)
      ensures Valid() && st == Mp(map[], {}, map[], map[], map t | t in threads :: Idle)
    {
      header, blockList, blockFreeCount, blockTotalCount, suspendThread := map[], map[], map[], map[], map[];
      phase := map t | t in threads :: Idle;
      st := Mp(map[], {}, map[], map[], map t | t in threads :: Idle);
    }

    /** rt_mp_init of a pool with room for at least one block */
    method Init(mp: int, start: int, size: nat, blockSize: nat)
      requires Valid() && mp != RT_NULL && mp !in st.free && start > 0 && blockSize > 0
      requires size / 4 * 4 >= Align4(blockSize) + LINK_SIZE
      requires forall b :: b in st.home ==> b < start || start + size <= b
      modifies this
      ensures Valid()
      ensures mp in blockTotalCount && blockTotalCount[mp] == size / 4 * 4 / (Align4(blockSize) + LINK_SIZE)
      ensures st == NewPool(old(st), mp, Blocks(start, Align4(blockSize) + LINK_SIZE, blockTotalCount[mp]))
    {
      var stride := Align4(blockSize) + LINK_SIZE;
      var total := size / 4 * 4 / stride;
      BlocksFit(start, size, stride, total);
      Register(mp, start, stride, total);
    }

    /** The pool has its blocks threaded, and nobody waits. */
    method Register(mp: int, start: int, stride: nat, total: nat)
      requires Valid() && mp != RT_NULL && mp !in st.free && start > 0 && stride > 0 && total > 0
      requires NoDup(Blocks(start, stride, total))
      requires forall k :: 0 <= k < total ==>
                 Blocks(start, stride, total)[k] !in st.home
                 && Blocks(start, stride, total)[k] != RT_NULL
      modifies this
      ensures Valid()
      ensures blockTotalCount == old(blockTotalCount)[mp := total]
              && st == NewPool(old(st), mp, Blocks(start, stride, total))
    {
      ghost var blocks := Blocks(start, stride, total);
      hide Inv, NewPool, Blocks, Chained, NoDup;
      NewPoolKeeps(st, mp, blocks);
      ghost var s := st;
      SetPool(mp, start, stride, total);
      st := NewPool(st, mp, blocks);
      forall q | q in st.free
        ensures Listed(q)
      {
        if q != mp {
          assert old(Listed(q));
          OldPool(s, q, old(header), header, blocks, blockList[q]);
        }
      }
      forall b | b in st.out
        ensures Named(b)
      {
        assert old(Named(b));
      }
    }

    /** The fields of a new pool, and its threaded blocks */
    method SetPool(mp: int, start: int, stride: nat, total: nat)
      requires start > 0 && stride > 0 && total > 0
      modifies `header, `blockList, `blockFreeCount, `blockTotalCount, `suspendThread
      ensures Chained(header, start, Blocks(start, stride, total))
      ensures forall x :: x in old(header) && x !in Blocks(start, stride, total) ==>
                x in header
                && header[x] == old(header)[x]
      ensures blockTotalCount == old(blockTotalCount)[mp := total]
              && blockFreeCount == old(blockFreeCount)[mp := total]
      ensures suspendThread == old(suspendThread)[mp := []] && blockList == old(blockList)[mp := start]
    {
      hide Chained, Blocks;
      ThreadBlocks(start, stride, total);
      blockTotalCount := blockTotalCount[mp := total];
      blockFreeCount := blockFreeCount[mp := total];
      suspendThread := suspendThread[mp := []];
      blockList := blockList[mp := start];
    }

    lemma OldPool(s: Mp, q: int, h: map<int, int>, h': map<int, int>, blocks: seq<int>, p: int)
      requires Inv(s) && q in s.free && forall b :: b in s.home ==> b !in blocks
      requires forall x :: x in h && x !in blocks ==> x in h' && h'[x] == h[x]
      requires Chained(h, p, s.free[q])
      ensures Chained(h', p, s.free[q])
    {
      assert PoolOk(s, q);
      ChainFrame(h, h', p, s.free[q]);
    }

    lemma ListedFacts(mp: int)
      requires Valid() && mp in st.free
      ensures mp in blockList && mp in blockFreeCount && mp != RT_NULL && mp in suspendThread
              && blockFreeCount[mp] == |st.free[mp]|
      ensures Chained(header, blockList[mp], st.free[mp])
    {
      assert Listed(mp);
    }

    /** One turn of the loop of rt_mp_alloc: a block, nothing, or the thread is suspended. */
    method AllocSection(thread: int, mp: int, time: int) returns (r: Outcome)
      requires Valid() && Enabled(st, Alloc(thread, mp, time != 0))
      modifies this
      ensures Valid() && st == Do(old(st), Alloc(thread, mp, time != 0))
      ensures r == if old(st).free[mp] != [] then Granted(old(st).free[mp][0] + LINK_SIZE) else if time == 0 then
              TimeOut else Suspended
      ensures r.Granted? ==>
                r.block - LINK_SIZE !in old(st).out && r.block - LINK_SIZE in st.home
                && st.home[r.block - LINK_SIZE] == mp
    {
      ghost var a := Alloc(thread, mp, time != 0);
      StepKeeps(st, a);
      ListedFacts(mp);
      hide Inv, Chained;
      ghost var s' := Do(st, a);
      if blockFreeCount[mp] == 0 {
        if time == 0 {
          phase := phase[thread := Idle];
          r := TimeOut;
        } else {
          suspendThread := suspendThread[mp := [thread] + suspendThread[mp]];
          phase := phase[thread := Blocked(mp)];
          r := Suspended;
        }
        st := s';
        forall q | q in st.free
          ensures Listed(q)
        {
          assert old(Listed(q));
        }
        forall b | b in st.out
          ensures Named(b)
        {
          assert old(Named(b));
        }
      } else {
        r := Grant(thread, mp, time);
      }
    }

    /** The thread takes the first free block, whose first word names the pool from now on. */
    method Grant(thread: int, mp: int, time: int) returns (r: Outcome)
      requires Valid() && Enabled(st, Alloc(thread, mp, time != 0)) && st.free[mp] != []
      modifies this
      ensures Valid() && st == Do(old(st), Alloc(thread, mp, time != 0))
      ensures r == Granted(old(st).free[mp][0] + LINK_SIZE)
      ensures var b := old(st).free[mp][0]; b !in old(st).out && b in st.home && st.home[b] == mp
    {
      ghost var s := st;
      ghost var a := Alloc(thread, mp, time != 0);
      StepKeeps(s, a);
      ListedFacts(mp);
      GrantKeeps(s, thread, mp, time != 0);
      ChainTail(header, blockList[mp], s.free[mp]);
      hide Inv, Chained;
      blockFreeCount := blockFreeCount[mp := blockFreeCount[mp] - 1];
      var blockPtr := blockList[mp];
      blockList := blockList[mp := header[blockPtr]];
      header := header[blockPtr := mp];
      phase := phase[thread := Idle];
      st := Do(s, a);
      forall q | q in st.free
        ensures Listed(q)
      {
        assert old(Listed(q));
        GrantFrame(s, old(header), mp, q, old(blockList)[q]);
      }
      forall b | b in st.out
        ensures Named(b)
      {
        assert b != blockPtr ==> old(Named(b));
      }
      r := Granted(blockPtr + LINK_SIZE);
    }

    /** rt_mp_free: the block returns to the pool its first word names. */
    method Free(block: Option<int>) returns (needSchedule: bool)
      requires Valid() && (block.Some? ==> block.value - LINK_SIZE in st.out)
      modifies this
      ensures Valid()
      ensures block.None? ==> st == old(st)
      ensures block.Some? ==>
                Enabled(old(st), Release(block.value - LINK_SIZE))
                && st == Do(old(st), Release(block.value - LINK_SIZE))
    {
      hide Inv, Chained, Do, Enabled;
      if block.None? { return false; }
      var blockPtr := block.value - LINK_SIZE;
      ghost var s := st;
      StepKeeps(s, Release(blockPtr));
      assert Named(blockPtr);
      var mp := header[blockPtr];
      HomeKnown(s, blockPtr);
      ReleaseFields(s, blockPtr);
      ListedFacts(mp);
      blockFreeCount := blockFreeCount[mp := blockFreeCount[mp] + 1];
      header := header[blockPtr := blockList[mp]];
      blockList := blockList[mp := blockPtr];
      needSchedule := WakeFirst(mp);
      st := Do(s, Release(blockPtr));
      forall q | q in st.free
        ensures Listed(q)
      {
        assert old(Listed(q));
        ReleaseFrame(s, old(header), blockPtr, q, old(blockList)[q], old(blockList)[mp]);
      }
      forall b | b in st.out
        ensures Named(b)
      {
        assert old(Named(b));
      }
    }

    /** The first thread that waits for a block of pool mp is resumed. */
    method WakeFirst(mp: int) returns (needSchedule: bool)
      requires mp in suspendThread
      modifies `suspendThread, `phase
      ensures mp in old(suspendThread) && needSchedule == (old(suspendThread)[mp] != [])
      ensures !needSchedule ==> suspendThread == old(suspendThread) && phase == old(phase)
      ensures needSchedule ==>
                var list := old(suspendThread)[mp];
                suspendThread == old(suspendThread)[mp := list[1..]] && phase == old(phase)[list[0] := Woken(mp)]
    {
      needSchedule := suspendThread[mp] != [];
      if needSchedule {
        var thread := suspendThread[mp][0];
        suspendThread := suspendThread[mp := suspendThread[mp][1..]];
        phase := phase[thread := Woken(mp)];
      }
    }

    /** The thread timer takes a waiter off the list. */
    method TimeoutSection(thread: int)
      requires Valid() && Enabled(st, Timeout(thread))
      modifies this
      ensures Valid() && st == Do(old(st), Timeout(thread))
    {
      StepKeeps(st, Timeout(thread));
      assert Parked(st, thread);
      hide Inv, Chained;
      var mp := phase[thread].mp;
      suspendThread := suspendThread[mp := Drop(suspendThread[mp], thread)];
      phase := phase[thread := Idle];
      st := Do(st, Timeout(thread));
      forall q | q in st.free
        ensures Listed(q)
      {
        assert old(Listed(q));
      }
      forall b | b in st.out
        ensures Named(b)
      {
        assert old(Named(b));
      }
    }

    /** Every block of a new pool gets a link to the next, the last one none. */
    method ThreadBlocks(start: int, stride: nat, total: nat)
      requires start > 0 && stride > 0 && total > 0
      modifies `header
      ensures Chained(header, start, Blocks(start, stride, total))
      ensures forall x :: x in old(header) && x !in Blocks(start, stride, total) ==>
                x in header
                && header[x] == old(header)[x]
    {
      ghost var blocks := Blocks(start, stride, total);
      BlocksApart(start, stride, total);
      NextBlock(start, stride, 0);
      hide Block;
      var offset := 0;
      while offset < total
        invariant offset <= total
        invariant forall k :: 0 <= k < offset ==> LinkedTo(header, blocks[k], Block(start, stride, k + 1))
        invariant forall x :: x in old(header) && x !in blocks ==> x in header && header[x] == old(header)[x]
      {
        assert blocks[offset] == Block(start, stride, offset);
        header := header[Block(start, stride, offset) := Block(start, stride, offset + 1)];
        offset := offset + 1;
      }
      assert blocks[total - 1] == Block(start, stride, offset - 1);
      header := header[Block(start, stride, offset - 1) := RT_NULL];
      forall i
        ensures ChainedAt(header, blocks, i)
      {
      }
    }
  }

  lemma BlocksApart(start: int, stride: nat, total: nat)
    requires start > 0 && stride > 0
    ensures NoDup(Blocks(start, stride, total)) && forall k :: 0 <= k < total ==> Blocks(start, stride, total)[k] > 0
  {
    var blocks := Blocks(start, stride, total);
    NextBlock(start, stride, 0);
    forall i, j | 0 <= i < j < total
      ensures blocks[i] != blocks[j]
    {
      BlockOrder(start, stride, i, j);
    }
    forall k | 0 <= k < total
      ensures blocks[k] > 0
    {
      if k > 0 { BlockOrder(start, stride, 0, k); }
    }
  }

  ghost predicate LinkedTo(header: map<int, int>, b: int, to: int) {
    b in header && header[b] == to
  }

  lemma BlocksFit(start: int, size: nat, stride: nat, total: nat)
    requires start > 0 && 0 < stride <= size / 4 * 4 && total == size / 4 * 4 / stride
    ensures total > 0 && NoDup(Blocks(start, stride, total))
    ensures forall k :: 0 <= k < total ==> start <= Blocks(start, stride, total)[k] < start + size
  {
    var blocks, room := Blocks(start, stride, total), size / 4 * 4;
    assert room <= size;
    BlocksApart(start, stride, total);
    DivBounds(room, stride);
    DivAtLeast(room, stride, 1);
    forall k | 0 <= k < total
      ensures start <= blocks[k] < start + size
    {
      LastBlock(stride, k, total, room);
    }
  }

  /** The payload behind the first word of a block is as large as was asked for, lies in the memory of the pool, and
      is clear of every other block, first word included; it begins at a multiple of 4 when the memory does. */
  lemma PayloadsApart(start: int, size: nat, blockSize: nat, j: nat, k: nat)
    requires start > 0 && size / 4 * 4 >= Align4(blockSize) + LINK_SIZE
    requires var stride := Align4(blockSize) + LINK_SIZE; j < k < size / 4 * 4 / stride
    ensures var stride := Align4(blockSize) + LINK_SIZE;
            var blocks := Blocks(start, stride, size / 4 * 4 / stride);
            && start <= blocks[j] && blocks[j] + 4 + blockSize <= blocks[k] && blocks[k] + 4 + blockSize <= start + size
            && (start % 4 == 0 ==> (blocks[j] + 4) % 4 == 0 && (blocks[k] + 4) % 4 == 0)
  {
    var stride, room := Align4(blockSize) + LINK_SIZE, size / 4 * 4;
    var total := room / stride;
    RoomFor(blockSize, size);
    DivBounds(room, stride);
    Strides(stride, j, k, total, room);
    Fours(start, stride, j);
    Fours(start, stride, k);
    hide Align4;
  }

  lemma RoomFor(blockSize: nat, size: nat)
    ensures Align4(blockSize) >= blockSize && Align4(blockSize) % 4 == 0 && size / 4 * 4 <= size
  {
  }

  lemma Strides(stride: nat, j: nat, k: nat, total: nat, room: nat)
    requires stride > 0 && j < k < total && total * stride <= room
    ensures 0 <= j * stride && j * stride + stride <= k * stride && k * stride + stride <= room
  {
    MulMono(j + 1, k, stride);
    MulMono(k + 1, total, stride);
    assert (j + 1) * stride == j * stride + stride && (k + 1) * stride == k * stride + stride;
  }

  lemma Fours(start: int, stride: nat, k: nat)
    requires stride % 4 == 0
    ensures start % 4 == 0 ==> (Block(start, stride, k) + 4) % 4 == 0
  {
    var q := stride / 4;
    assert stride == 4 * q;
    assert k * stride == 4 * (k * q);
  }

  lemma LastBlock(stride: nat, k: nat, total: nat, room: nat)
    requires stride > 0 && k < total && total * stride <= room
    ensures 0 <= k * stride < room
  {
    BlockOrder(0, stride, k, total);
  }
}
