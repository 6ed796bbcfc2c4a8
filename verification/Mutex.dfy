/** ipc.c: the mutex with priority inheritance, created with RT_IPC_FLAG_PRIO.
    A smaller number is a more urgent priority. */
module Mutex {
  import opened Options
  import opened Rings
  import opened IpcLists

  const HOLD_LIMIT := 255   // hold is an 8-bit counter

  /** base is the priority of a thread when it holds nothing, depth how often it has been granted
      the mutex and not released it, arrived when it began to wait; waited are those that began to wait since the
      owner acquired it. */
  datatype Mx = Mx(
    value: nat, owner: Option<int>, original: nat, hold: nat, waiters: seq<int>,
    prio: map<int, nat>, base: map<int, nat>, depth: map<int, nat>, arrived: map<int, nat>, clock: nat,
    waited: set<int>)

  // ---------------------------------------------------------------- invariant

  /** Free, unowned and not held are the same; nobody waits for a free mutex. */
  ghost predicate Consistent(s: Mx) {
    && (s.value == 1 <==> s.owner == None) && (s.hold == 0 <==> s.owner == None) && s.value <= 1
    && (s.waiters != [] ==> s.owner.Some?)
    && (s.owner.None? ==> s.original == 255)
    && s.hold <= HOLD_LIMIT
  }

  /** At most one thread is inside, as deep as hold says. */
  ghost predicate Exclusive(s: Mx) {
    forall t :: t in s.depth ==> s.depth[t] == (if s.owner == Some(t) then s.hold else 0)
  }

  /** Only the owner may run at another priority than its own, and then at a more urgent one. */
  ghost predicate Inherited(s: Mx) {
    && (forall t :: t in s.prio ==> t in s.base && (s.owner != Some(t) ==> s.prio[t] == s.base[t]))
    && (s.owner.Some? ==> s.owner.value in s.prio && s.prio[s.owner.value] <= s.original == s.base[s.owner.value])
    && (s.owner.Some? ==> forall w :: w in s.waiters ==> s.prio[s.owner.value] <= PriorityOf(s.prio, w))
  }

  /** p is the most urgent priority of own and of the threads in ts. */
  ghost predicate MostUrgent(base: map<int, nat>, own: nat, ts: set<int>, p: nat) {
    && p <= own && (forall w :: w in ts && w in base ==> p <= base[w])
    && (p == own || exists w :: w in ts && w in base && p == base[w])
  }

  /** The owner runs at the most urgent of its own priority and those of all that began to wait since it acquired
      the mutex. */
  ghost predicate Boosted(s: Mx) {
    s.owner.Some? ==>
      && s.owner.value in s.prio && s.owner.value in s.base
      && s.waited <= s.base.Keys
      && MostUrgent(s.base, s.base[s.owner.value], s.waited, s.prio[s.owner.value])
  }

  ghost predicate Before(s: Mx, a: int, b: int) {
    && a in s.arrived && b in s.arrived
    && (PriorityOf(s.prio, a) < PriorityOf(s.prio, b)
        || (PriorityOf(s.prio, a) == PriorityOf(s.prio, b) && s.arrived[a] < s.arrived[b]))
  }

  /** Waiters are queued by priority, first come first served within one priority. */
  ghost predicate Queued(s: Mx) {
    && NoDup(s.waiters)
    && (forall i :: 0 <= i < |s.waiters| ==> var w := s.waiters[i];
        w in s.prio && w in s.arrived
        && s.arrived[w] < s.clock && s.owner != Some(w))
    && forall i, j :: 0 <= i < j < |s.waiters| ==> Before(s, s.waiters[i], s.waiters[j])
  }

  ghost predicate Inv(s: Mx) {
    && s.depth.Keys == s.prio.Keys
    && Consistent(s) && Exclusive(s) && Inherited(s) && Queued(s) && Boosted(s)
  }

  // -------------------------------------------------------------------- steps

  datatype Step = TryTake(t: int) | Take(t: int, at: nat) | Release(t: int) | Timeout(t: int)

  /** A waiting thread does nothing until it is woken; a caller keeps hold below its limit. */
  ghost predicate Enabled(s: Mx, a: Step) {
    && a.t in s.prio
    && (a.Timeout? <==> a.t in s.waiters)
    && ((a.TryTake? || a.Take?) && s.owner == Some(a.t) ==> s.hold < HOLD_LIMIT)
    && (a.Take? && s.owner != Some(a.t) && s.value == 0 ==> Position(s.waiters, a.t, Prio, s.prio, a.at))
  }

  function Grant(s: Mx, t: int): Mx
    requires t in s.prio
  {
    s.(owner := Some(t), original := s.prio[t], hold := s.hold + 1,
       depth := s.depth[t := 1], waited := {})
  }

  function Do(s: Mx, a: Step): Mx
    requires Inv(s) && Enabled(s, a)
  {
    match a
    case TryTake(t) =>
      if s.owner == Some(t) then s.(hold := s.hold + 1, depth := s.depth[t := s.hold + 1])
      else if s.value > 0 then Grant(s.(value := s.value - 1), t)
      else s
    case Take(t, at) =>
      if s.owner == Some(t) then s.(hold := s.hold + 1, depth := s.depth[t := s.hold + 1])
      else if s.value > 0 then Grant(s.(value := s.value - 1), t)
      else
        var o := s.owner.value;
        s.(prio := if s.prio[t] < s.prio[o] then s.prio[o := s.prio[t]] else s.prio,
           waiters := InsertAt(s.waiters, at, t), arrived := s.arrived[t := s.clock], clock := s.clock + 1,
           waited := s.waited + {t})
    case Release(t) =>
      if s.owner != Some(t) then s
      else if s.hold > 1 then s.(hold := s.hold - 1, depth := s.depth[t := s.hold - 1])
      else
        var r := s.(hold := 0, prio := s.prio[t := s.original], depth := s.depth[t := 0]);
        if s.waiters == [] then r.(value := s.value + 1, owner := None, original := 255)
        else Grant(r.(waiters := s.waiters[1..]), s.waiters[0])
    case Timeout(t) => s.(waiters := Drop(s.waiters, t))
  }

  // -------------------------------------------------- the invariant is inductive

  /** The new waiter stands behind those at least as urgent and before the others. */
  lemma WaitOrder(s: Mx, s': Mx, t: int, at: nat)
    requires Queued(s) && t !in s.waiters && t in s.prio && Position(s.waiters, t, Prio, s.prio, at)
    requires s'.waiters == InsertAt(s.waiters, at, t) && s'.arrived == s.arrived[t := s.clock]
    requires forall x :: x == t || x in s.waiters ==> PriorityOf(s'.prio, x) == PriorityOf(s.prio, x)
    ensures forall i, j :: 0 <= i < j < |s'.waiters| ==> Before(s', s'.waiters[i], s'.waiters[j])
  {
    var w' := s'.waiters;
    forall i, j | 0 <= i < j < |w'|
      ensures Before(s', w'[i], w'[j])
    {
      PairInOrder(s, s', t, at, i, j);
    }
  }

  lemma StillBefore(s: Mx, s': Mx, t: int, a: int, b: int)
    requires Before(s, a, b) && s'.arrived == s.arrived[t := s.clock] && a != t && b != t
    requires PriorityOf(s'.prio, a) == PriorityOf(s.prio, a) && PriorityOf(s'.prio, b) == PriorityOf(s.prio, b)
    ensures Before(s', a, b)
  {
  }

  /** The new waiter comes behind waiter i, which is at least as urgent. */
  lemma BehindOlder(s: Mx, s': Mx, t: int, i: int)
    requires Queued(s) && t !in s.waiters && 0 <= i < |s.waiters| && s'.arrived == s.arrived[t := s.clock]
    requires PriorityOf(s.prio, s.waiters[i]) <= PriorityOf(s.prio, t)
    requires forall x :: x == t || x in s.waiters ==> PriorityOf(s'.prio, x) == PriorityOf(s.prio, x)
    ensures Before(s', s.waiters[i], t)
  {
    assert s.waiters[i] in s.waiters;
  }

  /** The new waiter comes before waiter i, as it is more urgent than waiter at, who is not behind i. */
  lemma BeforeLater(s: Mx, s': Mx, t: int, at: nat, i: int)
    requires Queued(s) && t !in s.waiters && at <= i < |s.waiters| && s'.arrived == s.arrived[t := s.clock]
    requires PriorityOf(s.prio, t) < PriorityOf(s.prio, s.waiters[at])
    requires forall x :: x == t || x in s.waiters ==> PriorityOf(s'.prio, x) == PriorityOf(s.prio, x)
    ensures Before(s', t, s.waiters[i])
  {
    assert s.waiters[i] in s.waiters && s.waiters[at] in s.waiters;
    if at < i { assert Before(s, s.waiters[at], s.waiters[i]); }
  }

  /** Two places of the longer list, in order */
  lemma PairInOrder(s: Mx, s': Mx, t: int, at: nat, i: int, j: int)
    requires Queued(s) && t !in s.waiters && t in s.prio && Position(s.waiters, t, Prio, s.prio, at)
    requires s'.waiters == InsertAt(s.waiters, at, t) && s'.arrived == s.arrived[t := s.clock]
    requires forall x :: x == t || x in s.waiters ==> PriorityOf(s'.prio, x) == PriorityOf(s.prio, x)
    requires 0 <= i < j < |s'.waiters|
    ensures Before(s', s'.waiters[i], s'.waiters[j])
  {
    hide Before;
    var w := s.waiters;
    if j == at {
      BehindOlder(s, s', t, i);
    } else if i == at {
      BeforeLater(s, s', t, at, j - 1);
    } else {
      var i0, j0 := if i < at then i else i - 1, if j < at then j else j - 1;
      assert w[i0] in w && w[j0] in w;
      StillBefore(s, s', t, w[i0], w[j0]);
    }
  }

  lemma WaitKeeps(s: Mx, t: int, at: nat)
    requires Inv(s) && Enabled(s, Take(t, at)) && s.owner != Some(t) && s.value == 0
    ensures Inv(Do(s, Take(t, at)))
  {
    hide Before, Position;
    var s', o := Do(s, Take(t, at)), s.owner.value;
    PositionInside(s, t, at);
    InsertNoDup(s.waiters, at, t);
    assert forall x :: x == t || x in s.waiters ==> PriorityOf(s'.prio, x) == PriorityOf(s.prio, x);
    WaitOrder(s, s', t, at);
  }

  lemma PositionInside(s: Mx, t: int, at: nat)
    requires Position(s.waiters, t, Prio, s.prio, at)
    ensures at <= |s.waiters|
  {
  }

  lemma HandOverKeeps(s: Mx, t: int)
    requires Inv(s) && Enabled(s, Release(t)) && s.owner == Some(t) && s.hold == 1 && s.waiters != []
    ensures Inv(Do(s, Release(t)))
  {
    var s', n := Do(s, Release(t)), s.waiters[0];
    HeadGone(s.waiters);
    assert n in s.waiters;
    assert forall x :: x in s.waiters ==> PriorityOf(s'.prio, x) == PriorityOf(s.prio, x);
    forall i, j | 0 <= i < j < |s'.waiters|
      ensures Before(s', s'.waiters[i], s'.waiters[j])
    {
      assert Before(s, s.waiters[i + 1], s.waiters[j + 1]);
      assert s.waiters[i + 1] in s.waiters && s.waiters[j + 1] in s.waiters;
    }
    forall x | x in s'.waiters
      ensures s'.prio[n] <= PriorityOf(s'.prio, x)
    {
      var j :| 0 <= j < |s'.waiters| && s'.waiters[j] == x;
      assert Before(s, s.waiters[0], s.waiters[j + 1]);
    }
  }

  lemma TimeoutKeeps(s: Mx, t: int)
    requires Inv(s) && Enabled(s, Timeout(t))
    ensures Inv(Do(s, Timeout(t)))
  {
    var s', k := Do(s, Timeout(t)), Index(s.waiters, t);
    DropElements(s.waiters, t);
    forall i, j | 0 <= i < j < |s'.waiters|
      ensures Before(s', s'.waiters[i], s'.waiters[j])
    {
      assert Before(s, s.waiters[if i < k then i else i + 1], s.waiters[if j < k then j else j + 1]);
    }
  }

  lemma StepKeeps(s: Mx, a: Step)
    requires Inv(s) && Enabled(s, a)
    ensures Inv(Do(s, a))
  {
    if a.Take? && s.owner != Some(a.t) && s.value == 0 {
      WaitKeeps(s, a.t, a.at);
    } else if a.Release? && s.owner == Some(a.t) && s.hold == 1 && s.waiters != [] {
      HandOverKeeps(s, a.t);
    } else if a.Timeout? {
      TimeoutKeeps(s, a.t);
    } else {
      SimpleKeeps(s, a);
    }
  }

  lemma SimpleKeeps(s: Mx, a: Step)
    requires Inv(s) && Enabled(s, a) && !a.Timeout?
    requires a.Take? ==> s.owner == Some(a.t) || s.value > 0
    requires a.Release? && s.owner == Some(a.t) && s.hold == 1 ==> s.waiters == []
    ensures Inv(Do(s, a))
  {
    var s' := Do(s, a);
    forall i, j | 0 <= i < j < |s'.waiters|
      ensures Before(s', s'.waiters[i], s'.waiters[j])
    {
      assert Before(s, s'.waiters[i], s'.waiters[j]);
    }
  }

  // --------------------------------------------------------------- whole runs

  function Fresh(base: map<int, nat>): Mx {
    Mx(1, None, 255, 0, [], base, base, map t | t in base :: 0, map[], 0, {})
  }

  ghost predicate Run(s: Mx, steps: seq<Step>, s': Mx)
    requires Inv(s)
    decreases |steps|
  {
    if steps == [] then s' == s
    else Enabled(s, steps[0]) && (StepKeeps(s, steps[0]); Run(Do(s, steps[0]), steps[1..], s'))
  }

  /** From initialisation on, over every interleaving: at most one thread is inside, a waiter never waits for a
      less urgent owner, whoever holds nothing runs at its own priority, and the owner at the most urgent of its
      own and those of all that began to wait since it acquired the mutex. */
  lemma {:induction false} RunsKeep(s: Mx, steps: seq<Step>, s': Mx)
    requires Inv(s) && Run(s, steps, s')
    ensures Inv(s') && s'.base == s.base && s'.prio.Keys == s.prio.Keys
    ensures forall t, u :: t in s'.depth && u in s'.depth && s'.depth[t] > 0 && s'.depth[u] > 0 ==> t == u
    ensures forall t :: t in s'.prio && t in s'.depth && s'.depth[t] == 0 ==> s'.prio[t] == s.base[t]
    ensures s'.owner.Some? ==> forall w :: w in s'.waiters ==> s'.prio[s'.owner.value] <= s'.prio[w]
    ensures Boosted(s')
    decreases |steps|
  {
    hide Inv, Do, Enabled;
    InvMeans(s);
    if steps != [] {
      StepKeeps(s, steps[0]);
      SameThreads(s, steps[0]);
      RunsKeep(Do(s, steps[0]), steps[1..], s');
    }
  }

  lemma InvMeans(s: Mx)
    requires Inv(s)
    ensures Boosted(s) && s.depth.Keys == s.prio.Keys
    ensures forall t, u :: t in s.depth && u in s.depth && s.depth[t] > 0 && s.depth[u] > 0 ==> t == u
    ensures forall t :: t in s.prio && t in s.depth && s.depth[t] == 0 ==> t in s.base && s.prio[t] == s.base[t]
    ensures s.owner.Some? ==>
              && s.owner.value in s.prio
              && forall w :: w in s.waiters ==> w in s.prio && s.prio[s.owner.value] <= s.prio[w]
  {
    hide Boosted;
  }

  lemma SameThreads(s: Mx, a: Step)
    requires Inv(s) && Enabled(s, a)
    ensures Do(s, a).base == s.base && Do(s, a).prio.Keys == s.prio.Keys
  {
    hide Inv;
    OwnerKnown(s);
  }

  /** The owner keeps the priority of a waiter that has timed out: its priority is the most urgent of its own and
      those that wait now exactly when nobody that waited since was more urgent than all of these. */
  lemma BoostCurrent(s: Mx)
    requires Inv(s) && s.owner.Some?
    ensures var o, waiting := s.owner.value, (set w | w in s.waiters);
            && o in s.prio && o in s.base
            && (MostUrgent(s.base, s.base[o], waiting, s.prio[o])
                <==> forall w :: w in s.waited && w in s.base ==>
                       s.base[o] <= s.base[w] || exists x :: x in s.waiters && x in s.base && s.base[x] <= s.base[w])
  {
    var o := s.owner.value;
    assert forall x :: x in s.waiters ==> x in s.prio && x in s.base && s.prio[x] == s.base[x];
  }

  /** Thread 1 at priority 10 takes the mutex, thread 2 at priority 5 waits for it and times out: thread 1 goes on
      at priority 5, and nobody waits. */
  lemma BoostStays()
    ensures var s := Fresh(map[1 := 10, 2 := 5]);
            Inv(s)
            && exists s' :: Run(s, [Take(1, 0), Take(2, 0), Timeout(2)], s')
                 && s'.owner == Some(1) && s'.waiters == [] && 1 in s'.prio && s'.prio[1] == 5
  {
    var base: map<int, nat> := map[1 := 10, 2 := 5];
    var s := Fresh(base);
    FreshInv(base);
    StepKeeps(s, Take(1, 0));
    var s1 := Do(s, Take(1, 0));
    StepKeeps(s1, Take(2, 0));
    var s2 := Do(s1, Take(2, 0));
    assert s2.waiters == [2];
    StepKeeps(s2, Timeout(2));
    var s3 := Do(s2, Timeout(2));
    assert Drop([2], 2) == [];
    RunOfThree(s, s1, s2, s3);
  }

  lemma RunOfThree(s: Mx, s1: Mx, s2: Mx, s3: Mx)
    requires Inv(s) && Enabled(s, Take(1, 0)) && Do(s, Take(1, 0)) == s1
    requires Inv(s1) && Enabled(s1, Take(2, 0)) && Do(s1, Take(2, 0)) == s2
    requires Inv(s2) && Enabled(s2, Timeout(2)) && Do(s2, Timeout(2)) == s3 && Inv(s3)
    ensures Run(s, [Take(1, 0), Take(2, 0), Timeout(2)], s3)
  {
    hide Inv, Do, Enabled;
    var a := [Take(1, 0), Take(2, 0), Timeout(2)];
    assert a[1..] == [Take(2, 0), Timeout(2)] && a[1..][1..] == [Timeout(2)] && a[1..][1..][1..] == [];
    assert Run(s3, [], s3);
    assert Run(s2, [Timeout(2)], s3);
    assert Run(s1, [Take(2, 0), Timeout(2)], s3);
  }

  lemma FreshInv(base: map<int, nat>)
    ensures Inv(Fresh(base))
  {
  }

  /** The final release restores the priority held at acquisition and hands the mutex to the most
      urgent waiter, the one that waited longest among equals. */
  lemma FinalRelease(s: Mx, t: int)
    requires Inv(s) && Enabled(s, Release(t)) && s.owner == Some(t) && s.hold == 1
    ensures var s' := Do(s, Release(t));
            s'.prio[t] == s.original == s.base[t] && s'.depth[t] == 0
            && (s.waiters == [] ==> s'.owner == None)
            && (s.waiters != [] ==> s'.owner == Some(s.waiters[0]) && forall w :: w in s'.waiters ==>
                Before(s, s.waiters[0], w))
  {
    var s' := Do(s, Release(t));
    forall w | s.waiters != [] && w in s'.waiters
      ensures Before(s, s.waiters[0], w)
    {
      var j :| 0 <= j < |s'.waiters| && s'.waiters[j] == w;
      assert Before(s, s.waiters[0], s.waiters[j + 1]);
    }
  }

  // ------------------------------------------------------------- counting steps

  /** By how much step a changes what thread t still has to release. */
  function Change(a: Step, t: int): int {
    if a.t != t then 0 else if a.TryTake? || a.Take? then 1 else if a.Release? then -1 else 0
  }

  /** Thread t, which has to make before releases, always has at least one left to make. */
  predicate Owes(steps: seq<Step>, t: int, before: int) {
    before > 0 && (steps == [] || Owes(steps[1..], t, before + Change(steps[0], t)))
  }

  /** Its last release is the last of the steps. */
  predicate PaidOff(steps: seq<Step>, t: int, before: int) {
    && before > 0 && steps != []
    && var left := before + Change(steps[0], t);
       if |steps| == 1 then left == 0 else PaidOff(steps[1..], t, left)
  }

  /** A thread that has just been granted the mutex, by taking it or by a hand-over, is the owner until it has made
      one release more than it has taken the mutex again since, and no longer. */
  lemma OwnerUntilReleased(s: Mx, a: Step, t: int, steps: seq<Step>, s': Mx)
    requires Inv(s) && Enabled(s, a) && s.owner != Some(t) && Do(s, a).owner == Some(t)
    requires Inv(Do(s, a)) && Run(Do(s, a), steps, s')
    ensures Owes(steps, t, 1) ==> s'.owner == Some(t)
    ensures PaidOff(steps, t, 1) ==> s'.owner != Some(t)
  {
    GrantedOnce(s, a, t);
    hide Inv, Do, Enabled, Run;
    OwnerCounts(Do(s, a), t, steps, s');
  }

  lemma GrantedOnce(s: Mx, a: Step, t: int)
    requires Inv(s) && Enabled(s, a) && s.owner != Some(t) && Do(s, a).owner == Some(t)
    ensures Do(s, a).hold == 1
  {
    OwnerKnown(s);
    hide Queued, Inherited, Boosted, Exclusive;
  }

  lemma StepCounts(s: Mx, a: Step, t: int)
    requires Inv(s) && Enabled(s, a) && s.owner == Some(t) && s.hold > 0
    ensures var s', n := Do(s, a), s.hold + Change(a, t);
              if n > 0 then s'.owner == Some(t) && s'.hold == n else s'.owner != Some(t)
  {
    OwnerKnown(s);
    if s.waiters != [] { FirstWaiter(s); }
    hide Queued, Inherited, Boosted, Exclusive;
  }

  lemma Held(s: Mx)
    requires Inv(s) && s.owner.Some?
    ensures s.hold > 0
  {
  }

  lemma {:induction false} OwnerCounts(s: Mx, t: int, steps: seq<Step>, s': Mx)
    requires Inv(s) && s.owner == Some(t) && Run(s, steps, s')
    ensures Owes(steps, t, s.hold) ==> s'.owner == Some(t)
    ensures PaidOff(steps, t, s.hold) ==> s'.owner != Some(t)
    decreases |steps|
  {
    hide Inv, Do, Enabled;
    Held(s);
    if steps != [] {
      StepKeeps(s, steps[0]);
      StepCounts(s, steps[0], t);
      var left := s.hold + Change(steps[0], t);
      if left > 0 {
        OwnerCounts(Do(s, steps[0]), t, steps[1..], s');
      } else if |steps| > 1 {
        assert !Owes(steps[1..], t, left) && !PaidOff(steps[1..], t, left);
      } else {
        assert !Owes(steps[1..], t, left);
        assert Run(Do(s, steps[0]), [], s') && steps[1..] == [];
      }
    }
  }

  /** Two takes and one release: the thread still owns the mutex, whoever takes it then. */
  lemma TwoTakesOneRelease(base: map<int, nat>, t: int, u: int, at: nat, s': Mx)
    requires t in base && t != u && Inv(Fresh(base))
    requires Run(Fresh(base), [TryTake(t), TryTake(t), Release(t), Take(u, at)], s')
    ensures s'.owner == Some(t)
  {
    var s, rest := Fresh(base), [TryTake(t), Release(t), Take(u, at)];
    assert [TryTake(t), TryTake(t), Release(t), Take(u, at)][1..] == rest;
    var two, one := [Release(t), Take(u, at)], [Take(u, at)];
    assert rest[1..] == two && two[1..] == one && one[1..] == [];
    assert Change(rest[0], t) == 1 && Change(two[0], t) == -1 && Change(one[0], t) == 0;
    assert Owes([], t, 1);
    assert Owes(one, t, 1);
    assert Owes(two, t, 2);
    assert Owes(rest, t, 1);
    StepKeeps(s, TryTake(t));
    FirstTake(s, t);
    hide Inv, Do, Enabled;
    OwnerUntilReleased(s, TryTake(t), t, rest, s');
  }

  lemma FirstTake(s: Mx, t: int)
    requires Inv(s) && t in s.prio && s.owner == None
    ensures Enabled(s, TryTake(t)) && Do(s, TryTake(t)).owner == Some(t)
  {
  }

  // ---------------------------------------------------------------- the object

  datatype Outcome = Failed | Suspended | Taken

  class Mutex {
    var value: nat
    var owner: Option<int>
    var originalPriority: nat
    var hold: nat
    var suspendThread: seq<int>
    var currentPriority: map<int, nat>   // of all threads

    ghost var st: Mx

    ghost predicate Valid()
      reads this
    {
      && Inv(st)
      && st.value == value && st.owner == owner && st.original == originalPriority && st.hold == hold
      && st.waiters == suspendThread && st.prio == currentPriority
    }

    /** rt_mutex_init, with the threads that will use the mutex. */
    constructor (threads: map<int, nat>)
      ensures st == Fresh(threads)
      ensures Valid()
    {
      value, owner, originalPriority, hold, suspendThread := 1, None, 255, 0, [];
      currentPriority := threads;
      st := Fresh(threads);
      FreshInv(threads);
    }

    /** The section of rt_mutex_take with interrupts off. */
    method TakeSection(thread: int, time: int) returns (r: Outcome)
      requires Valid() && Enabled(st, TryTake(thread))
      modifies this
      ensures r == if old(st.owner) == Some(thread) || old(st.value) > 0 then Taken
                   else if time == 0 then Failed else Suspended
      ensures old(owner) == Some(thread) ==>
                && hold == old(hold) + 1 && owner == old(owner) && value == old(value)
                && originalPriority == old(originalPriority) && suspendThread == old(suspendThread)
                && currentPriority == old(currentPriority)
      ensures old(owner) != Some(thread) && old(value) > 0 ==>
                && hold == old(hold) + 1 && owner == Some(thread) && value == old(value) - 1
                && thread in currentPriority && originalPriority == currentPriority[thread]
                && suspendThread == old(suspendThread) && currentPriority == old(currentPriority)
      ensures !r.Taken? ==>
                && hold == old(hold) && owner == old(owner) && value == old(value) && owner.Some?
                && originalPriority == old(originalPriority)
      ensures r.Failed? ==> suspendThread == old(suspendThread) && currentPriority == old(currentPriority)
      ensures r.Suspended? ==>
                var o, prio := owner.value, old(currentPriority);
                && o in prio && thread in prio
                && currentPriority == (if prio[thread] < prio[o] then prio[o := prio[thread]] else prio)
                && exists at: nat :: at <= |old(suspendThread)| && Position(old(suspendThread), thread, Prio, prio, at)
                     && suspendThread == InsertAt(old(suspendThread), at, thread)
      ensures if r.Suspended? then exists at ::
                Enabled(old(st), Take(thread, at))
                && st == Do(old(st), Take(thread, at))
              else st == Do(old(st), TryTake(thread))
      ensures Valid()
    {
      hide Queued, Inherited, Exclusive;
      StepKeeps(st, TryTake(thread));
      if owner == Some(thread) {
        hold := hold + 1;
        st := Do(st, TryTake(thread));
        return Taken;
      }
      if value > 0 {
        value := value - 1;
        owner := Some(thread);
        originalPriority := currentPriority[thread];
        hold := hold + 1;
        st := Do(st, TryTake(thread));
        return Taken;
      }
      if time == 0 {
        return Failed;
      }
      OwnerKnown(st);
      ghost var prio := currentPriority;
      if currentPriority[thread] < currentPriority[owner.value] {
        currentPriority := currentPriority[owner.value := currentPriority[thread]];
      }
      ghost var at;
      suspendThread, at := ListSuspend(suspendThread, thread, Prio, currentPriority);
      PositionBefore(st, thread, currentPriority, at);
      StepKeeps(st, Take(thread, at));
      st := Do(st, Take(thread, at));
      return Suspended;
    }

    /** The section of rt_mutex_release with interrupts off; woken says whether a waiter was resumed. */
    method ReleaseSection(thread: int) returns (ok: bool, woken: bool)
      requires Valid() && Enabled(st, Release(thread))
      modifies this
      ensures ok <==> old(owner) == Some(thread)
      ensures woken <==> ok && old(hold) == 1 && old(suspendThread) != []
      ensures !ok || old(hold) > 1 ==>
                && owner == old(owner) && value == old(value) && originalPriority == old(originalPriority)
                && suspendThread == old(suspendThread) && currentPriority == old(currentPriority)
                && hold == old(hold) - (if ok then 1 else 0)
      ensures ok && old(hold) == 1 ==> currentPriority == old(currentPriority)[thread := old(originalPriority)]
      ensures ok && old(hold) == 1 && old(suspendThread) == [] ==>
                owner == None && hold == 0 && value == old(value) + 1 && suspendThread == [] && originalPriority == 255
      ensures woken ==>
                var next := old(suspendThread)[0];
                && owner == Some(next) && hold == 1 && value == old(value) && suspendThread == old(suspendThread)[1..]
                && next in currentPriority && originalPriority == currentPriority[next]
      ensures st == Do(old(st), Release(thread))
      ensures Valid()
    {
      hide Queued, Inherited, Exclusive;
      StepKeeps(st, Release(thread));
      OwnerKnown(st);
      ghost var s := st;
      st := Do(st, Release(thread));
      if owner != Some(thread) {
        return false, false;
      }
      hold := hold - 1;
      woken := false;
      if hold == 0 {
        if originalPriority != currentPriority[thread] {
          currentPriority := currentPriority[thread := originalPriority];
        }
        if suspendThread != [] {
          FirstWaiter(s);
          var next := suspendThread[0];
          owner := Some(next);
          originalPriority := currentPriority[next];
          hold := hold + 1;
          suspendThread := suspendThread[1..];
          woken := true;
        } else {
          value := value + 1;
          owner := None;
          originalPriority := 255;
        }
      }
      return true, woken;
    }

    /** The thread timer takes a waiter off the list; the owner keeps the inherited priority. */
    method TimeoutSection(thread: int)
      requires Valid() && Enabled(st, Timeout(thread))
      modifies this
      ensures st == Do(old(st), Timeout(thread))
      ensures thread in old(suspendThread) && suspendThread == Drop(old(suspendThread), thread)
      ensures owner == old(owner) && hold == old(hold) && value == old(value)
      ensures originalPriority == old(originalPriority) && currentPriority == old(currentPriority)
      ensures Valid()
    {
      hide Queued, Inherited, Exclusive;
      StepKeeps(st, Timeout(thread));
      suspendThread := Drop(suspendThread, thread);
      st := Do(st, Timeout(thread));
    }
  }

  lemma OwnerKnown(s: Mx)
    requires Inv(s)
    ensures s.owner.Some? ==> s.owner.value in s.prio && s.owner.value !in s.waiters
    ensures s.value == 0 ==> s.owner.Some?
  {
  }

  lemma FirstWaiter(s: Mx)
    requires Inv(s) && s.waiters != []
    ensures s.waiters[0] in s.prio && s.owner != Some(s.waiters[0])
  {
    assert s.waiters[0] in s.waiters;
  }

  /** Raising the owner's priority does not move the place where a waiter is queued. */
  lemma PositionBefore(s: Mx, t: int, prio: map<int, nat>, at: nat)
    requires Inv(s) && s.owner.Some? && s.owner.value != t
    requires t in s.prio && s.owner.value in prio && prio == s.prio[s.owner.value := prio[s.owner.value]]
    requires Position(s.waiters, t, Prio, prio, at)
    ensures Position(s.waiters, t, Prio, s.prio, at)
  {
    assert forall i :: 0 <= i < |s.waiters| ==> s.waiters[i] in s.waiters && s.waiters[i] != s.owner.value;
  }
}
