/** A mutex and the scheduler together: what priority inheritance is for. */
module Inheritance {
  import opened Options
  import opened Rings
  import S = Schedule
  import L = ScheduleLaws
  import M = Mutex

  datatype Joint = Joint(s: S.Sched, m: M.Mx)

  // ---------------------------------------------------------------- invariant

  ghost predicate Asleep(s: S.Sched, w: int) {
    w in s.stat && s.stat[w] == S.Suspend
  }

  /** Both sides know the same priorities; those that wait for the mutex are suspended. */
  ghost predicate Linked(j: Joint) {
    && j.s.prio == j.m.prio && j.s.init == j.m.base
    && (forall w {:trigger Asleep(j.s, w)} :: w in j.m.waiters ==> Asleep(j.s, w))
    && (j.m.owner.Some? ==> j.m.owner.value in j.s.stat && j.s.stat[j.m.owner.value] != S.Init)
  }

  ghost predicate Inv(j: Joint) {
    S.Inv(j.s) && M.Inv(j.m) && Linked(j)
  }

  // -------------------------------------------------------------------- steps

  /** A scheduler step of any thread or interrupt; a section of rt_mutex_take or rt_mutex_release of the
      running thread; the timeout of a waiter. */
  datatype Step = Sched(a: S.Step) | TryTake | Take(at: nat) | Release | Timeout(w: int)

  ghost predicate Runs(s: S.Sched) {
    s.current.Some? && s.current.value in s.stat && s.stat[s.current.value] == S.Running
  }

  /** Nobody else changes a priority or wakes a thread that waits for the mutex. */
  ghost predicate Enabled(j: Joint, a: Step) {
    match a
    case Sched(b) => S.Enabled(j.s, b) && !b.SetPriority? && (b.Resume? ==> b.t !in j.m.waiters)
    case TryTake => Runs(j.s) && M.Enabled(j.m, M.TryTake(j.s.current.value))
    case Take(at) => Runs(j.s) && M.Enabled(j.m, M.Take(j.s.current.value, at))
    case Release => Runs(j.s) && M.Enabled(j.m, M.Release(j.s.current.value))
    case Timeout(w) => M.Enabled(j.m, M.Timeout(w))
  }

  /** The owner inherits the priority of thread c when that is more urgent. */
  function Boosted(s: S.Sched, o: int, c: int): S.Sched
    requires S.Inv(s) && o in s.stat && c in s.stat
  {
    assert S.Filed(s, o) && S.Filed(s, c);
    if s.prio[c] < s.prio[o] then S.Do(s, S.SetPriority(o, s.prio[c])) else s
  }

  /** What a section of rt_mutex_take does to the threads when the mutex is not to be had */
  function Blocked(s: S.Sched, o: int, c: int): S.Sched
    requires S.Inv(s) && o in s.stat && c in s.stat
  {
    BoostKeeps(s, o, c);
    S.Do(Boosted(s, o, c), S.Suspend_(c))
  }

  /** What the final release does to the threads: c gets its own priority back, and the first waiter is resumed. */
  function Freed(s: S.Sched, c: int, original: nat, waiters: seq<int>): S.Sched
    requires S.Inv(s) && c in s.stat && original < |s.queues| && (waiters != [] ==> waiters[0] in s.stat)
  {
    S.StepKeeps(s, S.SetPriority(c, original));
    StatKept(s, c, original);
    assert S.Filed(s, c);
    var s1 := if original != s.prio[c] then S.Do(s, S.SetPriority(c, original)) else s;
    if waiters == [] then s1 else S.Do(s1, S.Resume(waiters[0]))
  }

  function Do(j: Joint, a: Step): Joint
    requires Inv(j) && Enabled(j, a)
  {
    var c := if j.s.current.Some? then j.s.current.value else 0;
    match a
    case Sched(b) => j.(s := S.Do(j.s, b))
    case TryTake => j.(m := M.Do(j.m, M.TryTake(c)))
    case Take(at) =>
      var waits := j.m.owner != Some(c) && j.m.value == 0;
      OwnerKnown(j);
      Joint(if waits then Blocked(j.s, j.m.owner.value, c) else j.s, M.Do(j.m, M.Take(c, at)))
    case Release =>
      var final := j.m.owner == Some(c) && j.m.hold == 1;
      OwnerKnown(j);
      Joint(if final then Freed(j.s, c, j.m.original, j.m.waiters) else j.s, M.Do(j.m, M.Release(c)))
    case Timeout(w) =>
      assert Asleep(j.s, w);
      Joint(S.Do(j.s, S.Resume(w)), M.Do(j.m, M.Timeout(w)))
  }

  // ---------------------------------------------------- what a step of threads does

  lemma BoostKeeps(s: S.Sched, o: int, c: int)
    requires S.Inv(s) && o in s.stat && c in s.stat
    ensures S.Inv(Boosted(s, o, c)) && Boosted(s, o, c).stat == s.stat && Boosted(s, o, c).init == s.init
    ensures c in s.prio && o in s.prio
    ensures Boosted(s, o, c).prio == if s.prio[c] < s.prio[o] then s.prio[o := s.prio[c]] else s.prio
    ensures Boosted(s, o, c).current == s.current
  {
    assert S.Filed(s, o) && S.Filed(s, c);
    if s.prio[c] < s.prio[o] {
      S.StepKeeps(s, S.SetPriority(o, s.prio[c]));
      StatKept(s, o, s.prio[c]);
    }
  }

  /** Changing a priority changes nothing else about the threads. */
  lemma StatKept(s: S.Sched, t: int, p: nat)
    requires S.Inv(s) && t in s.stat && p < |s.queues|
    ensures var s' := S.Do(s, S.SetPriority(t, p));
            s'.stat == s.stat && s'.prio == s.prio[t := p] && s'.init == s.init && s'.current == s.current
                && |s'.queues| == |s.queues|
  {
    assert S.Filed(s, t);
    if s.stat[t] == S.Ready { assert s.stat[t := S.Ready] == s.stat; }
  }

  lemma OwnerKnown(j: Joint)
    requires Inv(j)
    ensures j.m.value == 0 ==> j.m.owner.Some?
    ensures j.m.owner.Some? ==> j.m.owner.value in j.s.stat && j.m.original < |j.s.queues|
    ensures j.m.waiters != [] ==> Asleep(j.s, j.m.waiters[0])
  {
    if j.m.owner.Some? { assert S.Filed(j.s, j.m.owner.value); }
    if j.m.waiters != [] { assert j.m.waiters[0] in j.m.waiters; }
  }

  /** From s to s' step b wakes no suspended thread that it does not resume, and touches the priority of a
      thread only to set it to the initial one when it starts the thread. */
  ghost predicate Follows(s: S.Sched, b: S.Step, s': S.Sched) {
    && s'.init == s.init && s'.stat.Keys == s.stat.Keys
    && (forall t :: Asleep(s, t) && b != S.Resume(t) ==> Asleep(s', t))
    && (forall t :: t in s.stat && s.stat[t] != S.Init ==> t in s'.stat && s'.stat[t] != S.Init)
    && s'.prio == (if b.Startup? && b.t in s.init then s.prio[b.t := s.init[b.t]] else s.prio)
  }

  lemma SchedSteps(s: S.Sched, b: S.Step)
    requires S.Inv(s) && S.Enabled(s, b) && !b.SetPriority?
    ensures Follows(s, b, S.Do(s, b))
  {
    hide S.Inv, S.Reschedule, Follows;
    match b
    case Schedule => RescheduleSteps(s, b, s);
    case Yield => S.SliceOverKeeps(s); RescheduleSteps(s, b, S.SliceOver(s));
    case Exit => ExitSteps(s);
    case _ => ThreadSteps(s, b);
  }

  lemma ThreadSteps(s: S.Sched, b: S.Step)
    requires S.Inv(s) && S.Enabled(s, b) && !b.SetPriority? && !b.Schedule? && !b.Yield? && !b.Exit?
    ensures Follows(s, b, S.Do(s, b))
  {
    if b.Start? { S.TopReady(s); S.FirstReady(s, S.Top(s)); }
    if b.Startup? { assert S.Filed(s, b.t); }
  }

  lemma ExitSteps(s: S.Sched)
    requires S.Inv(s)
    ensures Follows(s, S.Exit, S.Do(s, S.Exit))
  {
    hide S.Reschedule, S.Inv;
    var lock := if s.lock <= 1 then 0 else s.lock - 1;
    S.LockKeeps(s, lock);
    if s.current.Some? { RescheduleSteps(s, S.Exit, s.(lock := lock)); }
  }

  /** What holds of a reschedule in state r holds seen from a state s with the same threads. */
  lemma RescheduleSteps(s: S.Sched, b: S.Step, r: S.Sched)
    requires S.Inv(r) && r.current.Some? && r.stat == s.stat && r.prio == s.prio && r.init == s.init && !b.Startup?
    ensures Follows(s, b, S.Reschedule(r))
  {
    S.TopReady(r);
    if S.AnyReady(r) { S.FirstReady(r, S.Top(r)); }
  }

  // -------------------------------------------------- the invariant is inductive

  lemma SchedKeeps(j: Joint, b: S.Step)
    requires Inv(j) && Enabled(j, Sched(b))
    ensures Inv(Do(j, Sched(b)))
  {
    hide S.Inv, M.Inv, S.Do, Linked;
    S.StepKeeps(j.s, b);
    SchedLinks(j, b);
    var j' := Do(j, Sched(b));
    assert S.Inv(j'.s) && j'.m == j.m;
    assert M.Inv(j'.m);
    assert Linked(j');
  }

  lemma SchedLinks(j: Joint, b: S.Step)
    requires Inv(j) && Enabled(j, Sched(b))
    ensures Linked(Do(j, Sched(b)))
  {
    hide S.Inv, M.Inv, S.Do;
    SchedSteps(j.s, b);
    StartsAtOwn(j, b);
    var j' := Do(j, Sched(b));
    assert j'.s == S.Do(j.s, b) && j'.m == j.m;
    forall w | w in j.m.waiters
      ensures Asleep(j'.s, w)
    {
      assert Asleep(j.s, w);
    }
    if j.m.owner.Some? {
      var o := j.m.owner.value;
      assert o in j.s.stat && j.s.stat[o] != S.Init;
    }
  }

  /** A thread that is started has its initial priority already: it cannot be the owner. */
  lemma StartsAtOwn(j: Joint, b: S.Step)
    requires Inv(j) && S.Enabled(j.s, b)
    ensures b.Startup? ==> b.t in j.s.init && b.t in j.s.prio && j.s.prio[b.t := j.s.init[b.t]] == j.s.prio
  {
    if b.Startup? { assert S.Filed(j.s, b.t); }
  }

  lemma MutexKeeps(j: Joint, b: M.Step)
    requires M.Inv(j.m) && M.Enabled(j.m, b)
    ensures M.Inv(M.Do(j.m, b)) && M.Do(j.m, b).base == j.m.base
  {
    M.StepKeeps(j.m, b);
  }

  lemma TryTakeKeeps(j: Joint)
    requires Inv(j) && Enabled(j, TryTake)
    ensures Inv(Do(j, TryTake))
  {
    MutexKeeps(j, M.TryTake(j.s.current.value));
    hide S.Inv, M.Inv;
  }

  lemma TakeKeeps(j: Joint, at: nat)
    requires Inv(j) && Enabled(j, Take(at))
    ensures Inv(Do(j, Take(at)))
  {
    var c := j.s.current.value;
    MutexKeeps(j, M.Take(c, at));
    OwnerKnown(j);
    if j.m.owner != Some(c) && j.m.value == 0 {
      var o := j.m.owner.value;
      BoostKeeps(j.s, o, c);
      var s1 := Boosted(j.s, o, c);
      S.StepKeeps(s1, S.Suspend_(c));
      AfterSuspend(s1, c);
      WaiterAdded(j.m, c, at);
      hide S.Inv, M.Inv, S.Do, Boosted;
      forall w | w in M.Do(j.m, M.Take(c, at)).waiters
        ensures Asleep(S.Do(s1, S.Suspend_(c)), w)
      {
        assert w == c || Asleep(j.s, w);
      }
    } else {
      hide S.Inv, M.Inv;
    }
  }

  lemma AfterSuspend(s: S.Sched, c: int)
    requires S.Inv(s) && c in s.stat && s.stat[c] == S.Running
    ensures var s' := S.Do(s, S.Suspend_(c));
            s'.stat == s.stat[c := S.Suspend] && s'.prio == s.prio && s'.init == s.init
  {
    assert S.Filed(s, c);
  }

  lemma WaiterAdded(m: M.Mx, c: int, at: nat)
    requires M.Inv(m) && M.Enabled(m, M.Take(c, at)) && m.owner != Some(c) && m.value == 0
    ensures var m' := M.Do(m, M.Take(c, at));
            && m'.owner == m.owner && m.owner.Some? && c in m.prio && m.owner.value in m.prio
            && (forall w :: w in m'.waiters ==> w == c || w in m.waiters)
            && m'.prio == if m.prio[c] < m.prio[m.owner.value] then m.prio[m.owner.value := m.prio[c]] else m.prio
  {
    M.OwnerKnown(m);
    M.PositionInside(m, c, at);
    InsertNoDup(m.waiters, at, c);
  }

  lemma ReleaseKeeps(j: Joint)
    requires Inv(j) && Enabled(j, Release)
    ensures Inv(Do(j, Release))
  {
    var c := j.s.current.value;
    MutexKeeps(j, M.Release(c));
    OwnerKnown(j);
    if j.m.owner == Some(c) && j.m.hold == 1 {
      FreedSteps(j.s, c, j.m.original, j.m.waiters);
      HandedOver(j.m, c);
      hide S.Inv, M.Inv, S.Do, Freed;
      forall w | w in M.Do(j.m, M.Release(c)).waiters
        ensures Asleep(Freed(j.s, c, j.m.original, j.m.waiters), w)
      {
        assert Asleep(j.s, w);
      }
    } else {
      NotFinal(j.m, c);
      hide S.Inv, M.Inv, M.Do;
    }
  }

  lemma NotFinal(m: M.Mx, c: int)
    requires M.Inv(m) && M.Enabled(m, M.Release(c)) && !(m.owner == Some(c) && m.hold == 1)
    ensures var m' := M.Do(m, M.Release(c)); m'.prio == m.prio && m'.owner == m.owner && m'.waiters == m.waiters
  {
  }

  lemma HandedOver(m: M.Mx, c: int)
    requires M.Inv(m) && M.Enabled(m, M.Release(c)) && m.owner == Some(c) && m.hold == 1
    ensures var m' := M.Do(m, M.Release(c));
            && m'.prio == m.prio[c := m.original]
            && m'.owner == (if m.waiters == [] then None else Some(m.waiters[0]))
            && forall w :: w in m'.waiters ==> w in m.waiters && w != m.waiters[0]
  {
    if m.waiters != [] {
      M.FirstWaiter(m);
      HeadGone(m.waiters);
    }
  }

  lemma FreedSteps(s: S.Sched, c: int, original: nat, waiters: seq<int>)
    requires S.Inv(s) && c in s.stat && s.stat[c] == S.Running && original < |s.queues|
    requires waiters != [] ==> Asleep(s, waiters[0])
    ensures var s' := Freed(s, c, original, waiters);
            && S.Inv(s') && s'.prio == s.prio[c := original] && s'.init == s.init && s'.stat.Keys == s.stat.Keys
            && (forall t :: t in s.stat && s.stat[t] != S.Init ==> s'.stat[t] != S.Init)
            && (forall t :: Asleep(s, t) && (waiters == [] || t != waiters[0]) ==> Asleep(s', t))
  {
    assert S.Filed(s, c);
    S.StepKeeps(s, S.SetPriority(c, original));
    StatKept(s, c, original);
    var s1 := if original != s.prio[c] then S.Do(s, S.SetPriority(c, original)) else s;
    assert s1.prio == s.prio[c := original] && s1.stat == s.stat;
    if waiters != [] {
      S.StepKeeps(s1, S.Resume(waiters[0]));
      SchedSteps(s1, S.Resume(waiters[0]));
      hide S.Inv, S.Do;
    }
  }

  lemma TimeoutKeeps(j: Joint, w: int)
    requires Inv(j) && Enabled(j, Timeout(w))
    ensures Inv(Do(j, Timeout(w)))
  {
    MutexKeeps(j, M.Timeout(w));
    assert Asleep(j.s, w);
    S.StepKeeps(j.s, S.Resume(w));
    SchedSteps(j.s, S.Resume(w));
    TakenOff(j.m, w);
    hide S.Inv, M.Inv, S.Do;
    forall x | x in M.Do(j.m, M.Timeout(w)).waiters
      ensures Asleep(S.Do(j.s, S.Resume(w)), x)
    {
      assert Asleep(j.s, x);
    }
  }

  lemma TakenOff(m: M.Mx, w: int)
    requires M.Inv(m) && M.Enabled(m, M.Timeout(w))
    ensures var m' := M.Do(m, M.Timeout(w));
            m'.prio == m.prio && m'.owner == m.owner && forall x :: x in m'.waiters ==> x in m.waiters && x != w
  {
    DropElements(m.waiters, w);
  }

  lemma StepKeeps(j: Joint, a: Step)
    requires Inv(j) && Enabled(j, a)
    ensures Inv(Do(j, a))
  {
    hide Inv, Do;
    match a {
      case Sched(b) => SchedKeeps(j, b);
      case TryTake => TryTakeKeeps(j);
      case Take(at) => TakeKeeps(j, at);
      case Release => ReleaseKeeps(j);
      case Timeout(w) => TimeoutKeeps(j, w);
    }
  }

  // --------------------------------------------------------------- whole runs

  function Fresh(levels: nat, base: map<int, nat>): Joint {
    Joint(L.Fresh(levels, base), M.Fresh(base))
  }

  lemma FreshInv(levels: nat, base: map<int, nat>)
    requires forall t :: t in base ==> base[t] < levels
    ensures Inv(Fresh(levels, base))
  {
    L.FreshInv(levels, base);
    M.FreshInv(base);
  }

  ghost predicate Run(j: Joint, steps: seq<Step>, j': Joint)
    requires Inv(j)
    decreases |steps|
  {
    if steps == [] then j' == j
    else Enabled(j, steps[0]) && (StepKeeps(j, steps[0]); Run(Do(j, steps[0]), steps[1..], j'))
  }

  lemma {:induction false} RunsInv(j: Joint, steps: seq<Step>, j': Joint)
    requires Inv(j) && Run(j, steps, j')
    ensures Inv(j')
    decreases |steps|
  {
    hide Inv, Do, Enabled;
    if steps != [] {
      StepKeeps(j, steps[0]);
      RunsInv(Do(j, steps[0]), steps[1..], j');
    }
  }

  /** After an unlocked rt_schedule, while the owner of the mutex is ready or running and thread w waits for it,
      nothing less urgent than w runs. */
  lemma NoInversion(j: Joint, w: int)
    requires Inv(j) && j.s.current.Some? && j.s.lock == 0 && w in j.m.waiters
    requires var s' := S.Reschedule(j.s);
             j.m.owner.Some? ==> j.m.owner.value in s'.stat && s'.stat[j.m.owner.value] in {S.Ready, S.Running}
    ensures var s' := S.Reschedule(j.s);
            && Runs(s') && s'.current.value in s'.prio && w in s'.prio
            && s'.prio[s'.current.value] <= s'.prio[w]
  {
    var s', o := S.Reschedule(j.s), j.m.owner.value;
    RescheduleSteps(j.s, S.Schedule, j.s);
    S.RescheduleKeeps(j.s);
    OwnerUrgent(j, w);
    assert S.Filed(s', o);
    S.TopReady(j.s);
    if S.AnyReady(j.s) {
      L.MostUrgentRuns(j.s);
    } else {
      assert S.Filed(j.s, o);
    }
  }

  lemma OwnerUrgent(j: Joint, w: int)
    requires Inv(j) && w in j.m.waiters
    ensures j.m.owner.Some? && j.m.owner.value in j.s.prio && w in j.s.prio && j.s.prio[j.m.owner.value] <= j.s.prio[w]
  {
    assert j.m.waiters[Index(j.m.waiters, w)] == w;
  }

  /** The same over all joint runs of threads that schedule, wait, time out and release in any order. */
  lemma NoInversionInRuns(levels: nat, base: map<int, nat>, steps: seq<Step>, j: Joint, w: int)
    requires (forall t :: t in base ==> base[t] < levels) && Inv(Fresh(levels, base))
             && Run(Fresh(levels, base), steps, j)
    ensures Inv(j)
    ensures j.s.current.Some? && j.s.lock == 0 && w in j.m.waiters ==>
              var s' := S.Reschedule(j.s);
              j.m.owner.Some? && j.m.owner.value in s'.stat
              && (s'.stat[j.m.owner.value] in {S.Ready, S.Running} ==>
                    && Runs(s') && s'.current.value in s'.prio && w in s'.prio
                    && s'.prio[s'.current.value] <= s'.prio[w])
  {
    RunsInv(Fresh(levels, base), steps, j);
    if j.s.current.Some? && j.s.lock == 0 && w in j.m.waiters {
      OwnerUrgent(j, w);
      RescheduleSteps(j.s, S.Schedule, j.s);
      OwnerKnown(j);
      if S.Reschedule(j.s).stat[j.m.owner.value] in {S.Ready, S.Running} { NoInversion(j, w); }
    }
  }
}
