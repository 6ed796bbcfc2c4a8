/** mempool.c: all memory pools as one protocol. Each step is one section of rt_mp_alloc or
    rt_mp_free with interrupts off; any thread may take the next step. */
module MemPoolProtocol {
  import opened Rings
  import opened Threads

  /** Woken threads were resumed by a free and are not yet back in their loop. */
  datatype Pc = Idle | Blocked(mp: int) | Woken(mp: int)

  /** home says to which pool a block belongs, out are the blocks handed out. */
  datatype Mp = Mp(home: map<int, int>, out: set<int>, free: map<int, seq<int>>, waiters: map<int, seq<int>>,
      pc: map<int, Pc>)

  // ---------------------------------------------------------------- invariant

  /** A block is either handed out or on the free list of its own pool. */
  ghost predicate InPlace(s: Mp, b: int) {
    && b in s.home && s.home[b] in s.free
    && (b in s.free[s.home[b]] <==> b !in s.out)
  }

  ghost predicate PoolOk(s: Mp, mp: int) {
    && mp in s.free && mp in s.waiters
    && NoDup(s.free[mp]) && NoDup(s.waiters[mp])
    && (forall i :: 0 <= i < |s.free[mp]| ==> s.free[mp][i] in s.home && s.home[s.free[mp][i]] == mp)
    && (forall i :: 0 <= i < |s.waiters[mp]| ==> s.waiters[mp][i] in s.pc && s.pc[s.waiters[mp][i]] == Blocked(mp))
  }

  /** No wake-up is lost: while a thread waits, there are no more free blocks than threads on their
      way to take one. */
  ghost predicate Awake(s: Mp, mp: int)
    requires mp in s.free && mp in s.waiters
  {
    s.waiters[mp] != [] ==> |s.free[mp]| <= |In(s.pc, Woken(mp))|
  }

  ghost predicate Parked(s: Mp, t: int) {
    t in s.pc && (s.pc[t].Blocked? ==> s.pc[t].mp in s.waiters && t in s.waiters[s.pc[t].mp])
  }

  ghost predicate Inv(s: Mp) {
    && s.free.Keys == s.waiters.Keys && s.out <= s.home.Keys
    && (forall b {:trigger InPlace(s, b)} :: b in s.home ==> InPlace(s, b))
    && (forall mp {:trigger PoolOk(s, mp)} :: mp in s.free ==> PoolOk(s, mp))
    && (forall mp {:trigger Awake(s, mp)} :: mp in s.free ==> Awake(s, mp))
    && (forall t {:trigger Parked(s, t)} :: t in s.pc ==> Parked(s, t))
  }

  // -------------------------------------------------------------------- steps

  datatype Step =
    | Alloc(t: int, mp: int, wait: bool)   // one turn of the loop of rt_mp_alloc
    | Release(b: int)                      // rt_mp_free
    | Timeout(t: int)

  /** A suspended thread does nothing until it is resumed; a resumed one goes on with its pool. Only
      a block that is handed out is freed. */
  ghost predicate Enabled(s: Mp, a: Step) {
    match a
    case Alloc(t, mp, wait) => mp in s.free && t in s.pc && (s.pc[t] == Idle || s.pc[t] == Woken(mp))
    case Release(b) => b in s.out
    case Timeout(t) => t in s.pc && s.pc[t].Blocked?
  }

  function Do(s: Mp, a: Step): Mp
    requires Inv(s) && Enabled(s, a)
  {
    match a
    case Alloc(t, mp, wait) =>
      if s.free[mp] != [] then
        s.(free := s.free[mp := s.free[mp][1..]], out := s.out + {s.free[mp][0]}, pc := s.pc[t := Idle])
      else if !wait then s.(pc := s.pc[t := Idle])
      else s.(waiters := s.waiters[mp := [t] + s.waiters[mp]], pc := s.pc[t := Blocked(mp)])
    case Release(b) =>
      assert InPlace(s, b) && PoolOk(s, s.home[b]);
      var mp := s.home[b];
      var s' := s.(free := s.free[mp := [b] + s.free[mp]], out := s.out - {b});
      if s.waiters[mp] == [] then s'
      else s'.(waiters := s.waiters[mp := s.waiters[mp][1..]], pc := s.pc[s.waiters[mp][0] := Woken(mp)])
    case Timeout(t) =>
      assert Parked(s, t);
      var mp := s.pc[t].mp;
      s.(waiters := s.waiters[mp := Drop(s.waiters[mp], t)], pc := s.pc[t := Idle])
  }

  // -------------------------------------------------- the invariant is inductive

  lemma GrantKeeps(s: Mp, t: int, mp: int, wait: bool)
    requires Inv(s) && Enabled(s, Alloc(t, mp, wait)) && s.free[mp] != []
    ensures var b := s.free[mp][0]; b in s.home && s.home[b] == mp && b !in s.out
    ensures Inv(Do(s, Alloc(t, mp, wait)))
  {
    var s', b := Do(s, Alloc(t, mp, wait)), s.free[mp][0];
    assert PoolOk(s, mp) && InPlace(s, b);
    HeadGone(s.free[mp]);
    forall x | x in s'.home
      ensures InPlace(s', x)
    {
      assert InPlace(s, x);
    }
    forall q | q in s'.free
      ensures PoolOk(s', q) && Awake(s', q)
    {
      assert PoolOk(s, q) && Awake(s, q);
      InUpdate(s.pc, t, Idle, Woken(q));
    }
    forall x | x in s'.pc
      ensures Parked(s', x)
    {
      assert Parked(s, x);
    }
  }

  lemma BlockKeeps(s: Mp, t: int, mp: int, wait: bool)
    requires Inv(s) && Enabled(s, Alloc(t, mp, wait)) && s.free[mp] == []
    ensures Inv(Do(s, Alloc(t, mp, wait)))
  {
    var s' := Do(s, Alloc(t, mp, wait));
    assert PoolOk(s, mp);
    forall x | x in s'.home
      ensures InPlace(s', x)
    {
      assert InPlace(s, x);
    }
    forall q | q in s'.free
      ensures PoolOk(s', q) && Awake(s', q)
    {
      assert PoolOk(s, q) && Awake(s, q);
      InUpdate(s.pc, t, s'.pc[t], Woken(q));
    }
    forall x | x in s'.pc
      ensures Parked(s', x)
    {
      assert Parked(s, x);
    }
  }

  lemma ReleaseKeeps(s: Mp, b: int)
    requires Inv(s) && Enabled(s, Release(b))
    ensures b in s.home && Inv(Do(s, Release(b)))
  {
    assert InPlace(s, b);
    var s', mp := Do(s, Release(b)), s.home[b];
    assert PoolOk(s, mp) && Awake(s, mp);
    if s.waiters[mp] != [] { HeadGone(s.waiters[mp]); }
    forall x | x in s'.home
      ensures InPlace(s', x)
    {
      assert InPlace(s, x);
    }
    forall q | q in s'.free
      ensures PoolOk(s', q) && Awake(s', q)
    {
      assert PoolOk(s, q) && Awake(s, q);
      if s.waiters[mp] != [] { InUpdate(s.pc, s.waiters[mp][0], Woken(mp), Woken(q)); }
    }
    forall x | x in s'.pc
      ensures Parked(s', x)
    {
      assert Parked(s, x);
    }
  }

  lemma TimeoutKeeps(s: Mp, t: int)
    requires Inv(s) && Enabled(s, Timeout(t))
    ensures Inv(Do(s, Timeout(t)))
  {
    assert Parked(s, t);
    var s', mp := Do(s, Timeout(t)), s.pc[t].mp;
    assert PoolOk(s, mp);
    DropElements(s.waiters[mp], t);
    forall x | x in s'.home
      ensures InPlace(s', x)
    {
      assert InPlace(s, x);
    }
    forall q | q in s'.free
      ensures PoolOk(s', q) && Awake(s', q)
    {
      assert PoolOk(s, q) && Awake(s, q);
      InUpdate(s.pc, t, Idle, Woken(q));
    }
    forall x | x in s'.pc
      ensures Parked(s', x)
    {
      assert Parked(s, x);
    }
  }

  lemma StepKeeps(s: Mp, a: Step)
    requires Inv(s) && Enabled(s, a)
    ensures Inv(Do(s, a))
  {
    match a {
      case Alloc(t, mp, wait) =>
        if s.free[mp] != [] { GrantKeeps(s, t, mp, wait); } else { BlockKeeps(s, t, mp, wait); }
      case Release(b) => ReleaseKeeps(s, b);
      case Timeout(t) => TimeoutKeeps(s, t);
    }
  }
}
