/** mempool.c over whole runs. */
module MemPoolLaws {
  import opened Rings
  import opened Threads
  import opened MemPoolProtocol

  function Fresh(threads: set<int>): Mp {
    Mp(map[], {}, map[], map[], map t | t in threads :: Idle)
  }

  lemma FreshInv(threads: set<int>)
    ensures Inv(Fresh(threads))
  {
  }

  ghost predicate Run(s: Mp, steps: seq<Step>, s': Mp)
    requires Inv(s)
    decreases |steps|
  {
    if steps == [] then s' == s
    else Enabled(s, steps[0]) && (StepKeeps(s, steps[0]); Run(Do(s, steps[0]), steps[1..], s'))
  }

  ghost function BlocksOf(s: Mp, mp: int): set<int> {
    set b | b in s.home && s.home[b] == mp
  }

  ghost function OutOf(s: Mp, mp: int): set<int> {
    set b | b in s.home && s.home[b] == mp && b in s.out
  }

  /** Over every interleaving of allocations, releases and timeouts, no block is lost or handed out
      twice, and no thread waits while enough blocks for it are left over. */
  lemma {:induction false} RunsKeep(s: Mp, steps: seq<Step>, s': Mp, mp: int)
    requires Inv(s) && Run(s, steps, s') && mp in s.free
    ensures Inv(s') && s'.home == s.home && mp in s'.free && mp in s'.waiters
    ensures |s'.free[mp]| + |OutOf(s', mp)| == |BlocksOf(s, mp)|
    ensures s'.waiters[mp] != [] ==> |s'.free[mp]| <= |In(s'.pc, Woken(mp))|
    decreases |steps|
  {
    hide Inv, Do, Enabled;
    if steps != [] {
      StepKeeps(s, steps[0]);
      SameHome(s, steps[0]);
      RunsKeep(Do(s, steps[0]), steps[1..], s', mp);
    } else {
      Conserved(s, mp);
    }
  }

  lemma SameHome(s: Mp, a: Step)
    requires Inv(s) && Enabled(s, a)
    ensures Do(s, a).home == s.home && Do(s, a).free.Keys == s.free.Keys
  {
    if a.Release? { assert InPlace(s, a.b) && PoolOk(s, s.home[a.b]); }
    if a.Timeout? { assert Parked(s, a.t); }
  }

  /** The blocks of a pool are those on its free list and those handed out. */
  lemma Conserved(s: Mp, mp: int)
    requires Inv(s) && mp in s.free
    ensures mp in s.waiters && (s.waiters[mp] != [] ==> |s.free[mp]| <= |In(s.pc, Woken(mp))|)
    ensures |s.free[mp]| + |OutOf(s, mp)| == |BlocksOf(s, mp)|
  {
    assert PoolOk(s, mp) && Awake(s, mp);
    var f := Elements(s.free[mp]);
    ElementCount(s.free[mp]);
    forall b
      ensures b in BlocksOf(s, mp) <==> b in f || b in OutOf(s, mp)
      ensures !(b in f && b in OutOf(s, mp))
    {
      if b in s.home { assert InPlace(s, b); }
      if b in f { assert s.free[mp][Index(s.free[mp], b)] == b; }
    }
    assert BlocksOf(s, mp) == f + OutOf(s, mp);
  }

  /** The block that a thread is granted belongs to the pool it asked and was not handed out; nothing else
      that is out changes. */
  lemma GrantedBlock(s: Mp, t: int, mp: int, wait: bool)
    requires Inv(s) && Enabled(s, Alloc(t, mp, wait)) && s.free[mp] != []
    ensures var b, s' := s.free[mp][0], Do(s, Alloc(t, mp, wait));
            b in s.home && s.home[b] == mp && b !in s.out && s'.out == s.out + {b} && forall x :: x in s.out ==>
                x in s'.out && x != b
  {
    GrantKeeps(s, t, mp, wait);
  }

  /** Freeing the block just granted gives back the pool as it was. */
  lemma ReleaseUndoesAlloc(s: Mp, t: int, mp: int, wait: bool)
    requires Inv(s) && Enabled(s, Alloc(t, mp, wait)) && s.free[mp] != [] && s.pc[t] == Idle && mp in s.waiters
             && s.waiters[mp] == []
    ensures var b, s1 := s.free[mp][0], Do(s, Alloc(t, mp, wait));
            Inv(s1) && Enabled(s1, Release(b)) && Do(s1, Release(b)) == s
  {
    GrantKeeps(s, t, mp, wait);
    var b := s.free[mp][0];
    assert [b] + s.free[mp][1..] == s.free[mp];
    assert s.out + {b} - {b} == s.out;
    assert s.pc[t := Idle] == s.pc;
  }

  /** When no block is out, all blocks of a pool are on its free list. */
  lemma NothingOut(s: Mp, mp: int)
    requires Inv(s) && mp in s.free && s.out == {}
    ensures |s.free[mp]| == |BlocksOf(s, mp)| && forall b :: b in BlocksOf(s, mp) <==> b in s.free[mp]
  {
    Conserved(s, mp);
    assert OutOf(s, mp) == {};
    assert PoolOk(s, mp);
    forall b
      ensures b in BlocksOf(s, mp) <==> b in s.free[mp]
    {
      if b in s.home { assert InPlace(s, b); }
      if b in s.free[mp] { assert s.free[mp][Index(s.free[mp], b)] == b; }
    }
  }

  // ------------------------------------------------------------- what steps do

  /** One turn of rt_mp_alloc: the first block of the free list if there is one, a failure without one and without
      time to wait, and otherwise the thread is first in the list of the pool, before those that waited earlier. */
  lemma AllocExact(s: Mp, t: int, mp: int, wait: bool)
    requires Inv(s) && Enabled(s, Alloc(t, mp, wait))
    ensures mp in s.waiters
    ensures var s' := Do(s, Alloc(t, mp, wait));
            && s'.home == s.home
            && (s.free[mp] != [] ==>
                  && s'.free == s.free[mp := s.free[mp][1..]] && s'.out == s.out + {s.free[mp][0]}
                  && s'.waiters == s.waiters && s'.pc == s.pc[t := Idle])
            && (s.free[mp] == [] ==> s'.free == s.free && s'.out == s.out)
            && (s.free[mp] == [] && !wait ==> s'.waiters == s.waiters && s'.pc == s.pc[t := Idle])
            && (s.free[mp] == [] && wait ==>
                  s'.waiters == s.waiters[mp := [t] + s.waiters[mp]] && s'.pc == s.pc[t := Blocked(mp)])
  {
  }

  /** rt_mp_free: the block is the first of the free list of its own pool, and the thread that is first in the list of
      that pool is resumed; no other pool is touched. */
  lemma ReleaseExact(s: Mp, b: int)
    requires Inv(s) && Enabled(s, Release(b))
    ensures b in s.home && s.home[b] in s.free && s.home[b] in s.waiters
    ensures var s', mp := Do(s, Release(b)), s.home[b];
            && s'.home == s.home && s'.out == s.out - {b} && s'.free == s.free[mp := [b] + s.free[mp]]
            && (s.waiters[mp] == [] ==> s'.waiters == s.waiters && s'.pc == s.pc)
            && (s.waiters[mp] != [] ==>
                  s'.waiters == s.waiters[mp := s.waiters[mp][1..]] && s'.pc == s.pc[s.waiters[mp][0] := Woken(mp)])
  {
    assert InPlace(s, b) && PoolOk(s, s.home[b]);
  }

  /** A timeout takes one thread off the list of the pool it waits for. */
  lemma TimeoutExact(s: Mp, t: int)
    requires Inv(s) && Enabled(s, Timeout(t))
    ensures var s', mp := Do(s, Timeout(t)), s.pc[t].mp;
            && mp in s.waiters && t in s.waiters[mp] && s'.home == s.home && s'.free == s.free && s'.out == s.out
            && s'.waiters == s.waiters[mp := Drop(s.waiters[mp], t)] && s'.pc == s.pc[t := Idle]
  {
    assert Parked(s, t);
  }
}
