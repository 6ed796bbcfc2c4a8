/** What scheduling guarantees over whole runs. */
module ScheduleLaws {
  import opened Options
  import opened Rings
  import opened Schedule

  function Fresh(levels: nat, prio: map<int, nat>): Sched {
    Sched(seq(levels, p => []), None, map t | t in prio :: Init, map t | t in prio :: false, prio, prio, 0)
  }

  lemma FreshInv(levels: nat, prio: map<int, nat>)
    requires forall t :: t in prio ==> prio[t] < levels
    ensures Inv(Fresh(levels, prio))
  {
    var s := Fresh(levels, prio);
    forall t | t in s.stat
      ensures Filed(s, t)
    {
    }
  }

  ghost predicate Run(s: Sched, steps: seq<Step>, s': Sched)
    requires Inv(s)
    decreases |steps|
  {
    if steps == [] then s' == s
    else Enabled(s, steps[0]) && (StepKeeps(s, steps[0]); Run(Do(s, steps[0]), steps[1..], s'))
  }

  /** In every reachable state a thread is on the ready queue of its priority exactly when it is
      ready, the current thread is on none, and no other thread is running. */
  lemma {:induction false} RunsKeep(s: Sched, steps: seq<Step>, s': Sched)
    requires Inv(s) && Run(s, steps, s')
    ensures Inv(s')
    ensures s'.current.Some? ==> forall p: nat :: p < |s'.queues| ==> s'.current.value !in s'.queues[p]
    decreases |steps|
  {
    hide Inv, Do, Enabled;
    if steps != [] {
      StepKeeps(s, steps[0]);
      RunsKeep(Do(s, steps[0]), steps[1..], s');
    } else {
      CurrentNotQueued(s);
    }
  }

  lemma CurrentNotQueued(s: Sched)
    requires Inv(s)
    ensures s.current.Some? ==> forall p: nat :: p < |s.queues| ==> s.current.value !in s.queues[p]
  {
    if s.current.Some? {
      forall p: nat | p < |s.queues|
        ensures s.current.value !in s.queues[p]
      {
        NotQueued(s, s.current.value, p);
      }
    }
  }

  /** As long as the scheduler stays locked, the processor stays with the same thread. */
  lemma {:induction false} NoSwitchWhileLocked(s: Sched, steps: seq<Step>, s': Sched)
    requires Inv(s) && Run(s, steps, s') && s.current.Some? && s.lock > 0
    requires forall i :: 0 <= i < |steps| && steps[i] == Exit ==> LockAt(s, steps, i) > 1
    ensures s'.current == s.current && s'.lock > 0
    decreases |steps|
  {
    if steps != [] {
      StepKeeps(s, steps[0]);
      LockedStep(s, steps[0]);
      assert LockAt(s, steps, 0) == s.lock;
      forall i | 0 <= i < |steps| - 1 && steps[1..][i] == Exit
        ensures LockAt(Do(s, steps[0]), steps[1..], i) > 1
      {
        assert steps[i + 1] == Exit;
        assert LockAt(s, steps, i + 1) > 1;
        LockLater(s, steps, i);
      }
      NoSwitchWhileLocked(Do(s, steps[0]), steps[1..], s');
    }
  }

  /** rt_scheduler_lock_nest before step i */
  function LockAt(s: Sched, steps: seq<Step>, i: nat): nat
    requires i <= |steps|
  {
    LockFrom(s.lock, steps[..i])
  }

  function LockFrom(lock: nat, steps: seq<Step>): nat
    decreases |steps|
  {
    if steps == [] then lock
    else
      var next := if steps[0] == Enter then lock + 1 else if steps[0] == Exit && lock > 0 then lock - 1 else lock;
      LockFrom(next, steps[1..])
  }

  lemma LockLater(s: Sched, steps: seq<Step>, i: nat)
    requires Inv(s) && steps != [] && Enabled(s, steps[0]) && s.lock > 0 && i < |steps|
    ensures LockAt(s, steps, i + 1) == LockAt(Do(s, steps[0]), steps[1..], i)
  {
    LockStep(s, steps[0]);
    assert steps[..i + 1][1..] == steps[1..][..i];
  }

  lemma LockStep(s: Sched, a: Step)
    requires Inv(s) && Enabled(s, a)
    ensures Do(s, a).lock == if a == Enter then s.lock + 1 else if a == Exit && s.lock > 0 then s.lock - 1 else s.lock
  {
    hide Reschedule, Inv;
    if s.current.Some? {
      var lock := if s.lock <= 1 then 0 else s.lock - 1;
      SliceOverKeeps(s);
      LockKeeps(s, lock);
      SameLock(s);
      SameLock(SliceOver(s));
      SameLock(s.(lock := lock));
    }
  }

  lemma SameLock(s: Sched)
    requires Inv(s) && s.current.Some?
    ensures Reschedule(s).lock == s.lock
  {
  }

  lemma LockedStep(s: Sched, a: Step)
    requires Inv(s) && Enabled(s, a) && s.lock > 0 && s.current.Some? && (a == Exit ==> s.lock > 1)
    ensures Do(s, a).current == s.current && Do(s, a).lock > 0
  {
  }

  // ------------------------------------------------------------ one rt_schedule

  /** After an unlocked rt_schedule with a thread ready, the current thread is running and no ready
      thread is more urgent. */
  lemma MostUrgentRuns(s: Sched)
    requires Inv(s) && s.current.Some? && s.lock == 0 && AnyReady(s)
    ensures var s' := Reschedule(s);
            && s'.current.Some? && s'.current.value in s'.stat && s'.stat[s'.current.value] == Running
            && s'.current.value in s'.prio
            && forall t :: t in s'.stat && s'.stat[t] == Ready ==>
                t in s'.prio
                && s'.prio[s'.current.value] <= s'.prio[t]
  {
    TopReady(s);
    var c, p, s' := s.current.value, Top(s), Reschedule(s);
    FirstReady(s, p);
    var to := s.queues[p][0];
    SwitchKeeps(s, c, to);
    assert Filed(s, c);
    forall t | t in s'.stat && s'.stat[t] == Ready
      ensures t in s'.prio && s'.prio[s'.current.value] <= s'.prio[t]
    {
      assert Filed(s, t);
      if s.stat[t] == Ready { assert s.queues[s.prio[t]] != []; }
    }
  }

  /** Exactly when rt_schedule takes the processor from a running thread: a more urgent thread is
      ready, or one as urgent and the YIELD bit is set. */
  lemma PreemptedWhen(s: Sched)
    requires Inv(s) && s.current.Some? && s.lock == 0 && s.current.value in s.stat && s.stat[s.current.value] == Running
    ensures var c := s.current.value;
            c in s.prio && c in s.yielding
            && (Reschedule(s).current != s.current
                <==> exists t :: Challenges(s, t, s.prio[c], s.yielding[c]))
  {
    var c := s.current.value;
    assert Filed(s, c);
    TopReady(s);
    if AnyReady(s) {
      var p := Top(s);
      FirstReady(s, p);
      var to := s.queues[p][0];
      if !GoesOn(s, c, p) {
        assert Challenges(s, to, s.prio[c], s.yielding[c]);
      }
    }
    forall t | Challenges(s, t, s.prio[c], s.yielding[c])
      ensures AnyReady(s) && Top(s) <= s.prio[t]
    {
      assert Filed(s, t);
      assert s.queues[s.prio[t]] != [];
    }
  }

  ghost predicate Challenges(s: Sched, t: int, prio: nat, yielding: bool) {
    t in s.stat && t in s.prio && s.stat[t] == Ready && (s.prio[t] < prio || (s.prio[t] == prio && yielding))
  }

  /** rt_thread_yield only calls rt_schedule: among threads of the same priority it gives up the
      processor exactly when the time slice has set the YIELD bit before. */
  lemma YieldNeedsTheBit(s: Sched)
    requires Inv(s) && s.current.Some? && s.lock == 0 && s.current.value in s.stat && s.stat[s.current.value] == Running
    requires AnyReady(s) && s.current.value in s.prio && Top(s) == s.prio[s.current.value]
    ensures s.current.value in s.yielding
    ensures Reschedule(s).current != s.current <==> s.yielding[s.current.value]
  {
    TopReady(s);
    FirstReady(s, Top(s));
    assert Filed(s, s.current.value);
  }

  /** Threads 1 and 2 have priority 5; 1 runs and 2 is ready. */
  function Pair(): Sched {
    var prio := map[1 := 5, 2 := 5];
    Sched(seq(32, p => if p == 5 then [2] else []), Some(1), map[1 := Running, 2 := Ready],
          map[1 := false, 2 := false], prio, prio, 0)
  }

  /** The state is reached by starting both and then the scheduler; in it a yield changes nothing. */
  lemma YieldKeepsRunning()
    ensures var s := Fresh(32, map[1 := 5, 2 := 5]);
            Inv(s) && Run(s, [Startup(1), Startup(2), Start], Pair())
    ensures Inv(Pair()) && Reschedule(Pair()) == Pair()
  {
    hide Inv, Enabled, Do, Reschedule;
    PairReached();
    PairStays();
  }

  lemma PairStays()
    requires Inv(Pair())
    ensures Reschedule(Pair()) == Pair()
  {
    TopIs(Pair(), 5);
  }

  lemma PairReached()
    ensures var s := Fresh(32, map[1 := 5, 2 := 5]);
            Inv(s) && Run(s, [Startup(1), Startup(2), Start], Pair())
    ensures Inv(Pair())
  {
    hide Inv, Enabled, Do, Run;
    var prio: map<int, nat> := map[1 := 5, 2 := 5];
    var s0, s1 := Fresh(32, prio), Waiting([1], map[1 := Ready, 2 := Init]);
    var s2 := Waiting([1, 2], map[1 := Ready, 2 := Ready]);
    FreshInv(32, prio);
    FirstStarted(s0, s1);
    StepKeeps(s0, Startup(1));
    SecondStarted(s1, s2);
    StepKeeps(s1, Startup(2));
    FirstRuns(s2);
    StepKeeps(s2, Start);
    RunOfThree(s0, s1, s2);
  }

  lemma FirstStarted(s0: Sched, s1: Sched)
    requires s0 == Fresh(32, map[1 := 5, 2 := 5]) && Inv(s0) && s1 == Waiting([1], map[1 := Ready, 2 := Init])
    ensures Enabled(s0, Startup(1)) && Do(s0, Startup(1)) == s1
  {
    hide Inv;
    var s := Do(s0, Startup(1));
    assert s0.queues[5] + [1] == [1];
    assert s.queues == s1.queues && s.stat == s1.stat && s.yielding == s1.yielding && s.prio == s1.prio;
  }

  lemma SecondStarted(s1: Sched, s2: Sched)
    requires s1 == Waiting([1], map[1 := Ready, 2 := Init]) && Inv(s1)
             && s2 == Waiting([1, 2], map[1 := Ready, 2 := Ready])
    ensures Enabled(s1, Startup(2)) && Do(s1, Startup(2)) == s2
  {
    hide Inv;
    var s := Do(s1, Startup(2));
    assert s1.queues[5] + [2] == [1, 2];
    assert s.queues == s2.queues && s.stat == s2.stat && s.prio == s2.prio;
  }

  lemma FirstRuns(s2: Sched)
    requires s2 == Waiting([1, 2], map[1 := Ready, 2 := Ready]) && Inv(s2)
    ensures Enabled(s2, Start) && Do(s2, Start) == Pair()
  {
    hide Inv;
    TopIs(s2, 5);
    assert s2.queues[5] == [1, 2] && Drop([1, 2], 1) == [2];
    var s := Do(s2, Start);
    assert s.queues == Pair().queues && s.stat == Pair().stat;
  }

  /** Before the scheduler starts */
  function Waiting(q: seq<int>, stat: map<int, Stat>): Sched {
    var prio := map[1 := 5, 2 := 5];
    Sched(seq(32, p => if p == 5 then q else []), None, stat, map[1 := false, 2 := false], prio, prio, 0)
  }

  lemma RunOfThree(s0: Sched, s1: Sched, s2: Sched)
    requires Inv(s0) && Enabled(s0, Startup(1)) && Do(s0, Startup(1)) == s1
    requires Inv(s1) && Enabled(s1, Startup(2)) && Do(s1, Startup(2)) == s2
    requires Inv(s2) && Enabled(s2, Start) && Inv(Do(s2, Start))
    ensures Run(s0, [Startup(1), Startup(2), Start], Do(s2, Start))
  {
    hide Inv, Do, Enabled;
    assert Run(Do(s2, Start), [], Do(s2, Start));
    assert [Startup(1), Startup(2), Start][1..] == [Startup(2), Start];
    assert [Startup(2), Start][1..] == [Start] && [Start][1..] == [];
    assert Run(s2, [Start], Do(s2, Start));
    assert Run(s1, [Startup(2), Start], Do(s2, Start));
  }

  /** A running thread that loses the processor goes to the tail of its level, with the YIELD bit
      cleared; the thread that gets it was the head of the most urgent level. */
  lemma DisplacedToTail(s: Sched)
    requires Inv(s) && s.current.Some? && s.current.value in s.stat && s.stat[s.current.value] == Running
    requires Reschedule(s).current != s.current
    ensures var c, p, s' := s.current.value, Top(s), Reschedule(s);
            && c in s.prio && s.prio[c] < |s.queues| == |s'.queues| && p < |s.queues| && s.queues[p] != []
            && s'.current == Some(s.queues[p][0])
            && s'.stat[c] == Ready && !s'.yielding[c]
            && s'.queues[s.prio[c]] == (if s.prio[c] == p then s.queues[p][1..] else s.queues[s.prio[c]]) + [c]
            && forall q: nat :: q < |s.queues| && q != s.prio[c] ==>
                 q < |s'.queues| && s'.queues[q] == (if q == p then s.queues[q][1..] else s.queues[q])
  {
    var c, p := s.current.value, Top(s);
    TopReady(s);
    FirstReady(s, p);
    assert Filed(s, c) && Queued(s, p);
    var to := s.queues[p][0];
    NotQueued(s, c, p);
    IndexUnique(s.queues[p], to, 0);
    if s.prio[c] == p {
      var q := s.queues[p] + [c];
      assert q[0] == to && q[1..] == s.queues[p][1..] + [c];
      assert Drop(q, to) == q[1..];
    } else {
      assert Drop(s.queues[p], to) == s.queues[p][1..];
    }
  }

  // --------------------------------------------------------------- round robin

  /** The current thread and the others of its level, in the order they will run. */
  function Round(s: Sched): seq<int>
    requires s.current.Some? && s.current.value in s.prio && s.prio[s.current.value] < |s.queues|
  {
    [s.current.value] + s.queues[s.prio[s.current.value]]
  }

  /** The current thread runs unlocked, and its level is the most urgent one and not empty. */
  ghost predicate RoundRobin(s: Sched, r: seq<int>) {
    && Inv(s) && s.lock == 0 && |r| > 1 && s.current == Some(r[0]) && s.stat[r[0]] == Running
    && s.prio[r[0]] < |s.queues| && r == Round(s) && Top(s) == s.prio[r[0]]
  }

  function Rotated(r: seq<int>): seq<int>
    requires r != []
  {
    r[1..] + [r[0]]
  }

  /** No YIELD bit is left over for the threads that were displaced. */
  function Cleared(yielding: map<int, bool>, gone: seq<int>): map<int, bool> {
    map t | t in yielding :: yielding[t] && t !in gone
  }

  /** s with the threads of the round in another order, after those in gone were displaced */
  function Ordered(s: Sched, r: seq<int>, gone: seq<int>): Sched
    requires s.current.Some? && s.current.value in s.prio && s.prio[s.current.value] < |s.queues| && |r| > 1
  {
    s.(current := Some(r[0]), queues := s.queues[s.prio[s.current.value] := r[1..]],
       stat := map t | t in s.stat :: if t == r[0] then Running else if t in r then Ready else s.stat[t],
       yielding := Cleared(s.yielding, gone))
  }

  function YieldTimes(s: Sched, k: nat): Sched
    requires Inv(s) && s.current.Some?
    ensures Inv(YieldTimes(s, k)) && YieldTimes(s, k).current.Some?
  {
    if k == 0 then s
    else
      var s1 := YieldTimes(s, k - 1);
      StepKeeps(s1, Yield);
      Do(s1, Yield)
  }

  /** The round after k yields. */
  function Turned(r: seq<int>, k: nat): seq<int>
    requires k <= |r|
  {
    r[k..] + r[..k]
  }

  lemma TopIs(s: Sched, p: nat)
    requires p < |s.queues| && s.queues[p] != [] && forall q: nat :: q < p ==> s.queues[q] == []
    ensures Top(s) == p
  {
    TopReady(s);
  }

  lemma RoundFacts(s: Sched, r: seq<int>)
    requires RoundRobin(s, r)
    ensures NoDup(r) && forall i :: 0 <= i < |r| ==> r[i] in s.stat && r[i] in s.prio && s.prio[r[i]] == s.prio[r[0]]
    ensures forall i :: 0 <= i < |r| ==> r[i] in s.yielding
    ensures forall i :: 0 < i < |r| ==> r[i] in s.stat && s.stat[r[i]] == Ready
    ensures r[1..] == s.queues[s.prio[r[0]]]
  {
    var p := s.prio[r[0]];
    assert Queued(s, p) && Filed(s, r[0]);
    NotQueued(s, r[0], p);
    forall i | 0 < i < |r|
      ensures r[i] in s.stat && s.stat[r[i]] == Ready && r[i] in s.prio && s.prio[r[i]] == p && r[i] != r[0]
    {
      assert r[i] == s.queues[p][i - 1];
      assert Filed(s, r[i]);
    }
    forall i, j | 0 <= i < j < |r|
      ensures r[i] != r[j]
    {
      if i > 0 { assert s.queues[p][i - 1] != s.queues[p][j - 1]; }
    }
  }

  lemma YieldOnce(s: Sched, r: seq<int>)
    requires RoundRobin(s, r)
    ensures Inv(s) && Enabled(s, Yield) && s.current.value in s.prio && s.prio[s.current.value] < |s.queues|
    ensures Do(s, Yield) == Ordered(s, Rotated(r), [r[0]])
  {
    RoundFacts(s, r);
    var c, to, p, s0 := r[0], r[1], s.prio[r[0]], SliceOver(s);
    SliceOverKeeps(s);
    TopReady(s);
    TopReady(s0);
    assert s0.queues[p][0] == to;
    assert Do(s, Yield) == Switch(s0, c, to);
    IndexUnique(s.queues[p] + [c], to, 0);
    assert Drop(s.queues[p] + [c], to) == Rotated(r)[1..];
    assert s0.yielding[c := false] == Cleared(s.yielding, [c]);
    var s' := Switch(s0, c, to);
    assert s'.stat == s.stat[c := Ready][to := Running];
    StatRotated(s, r);
  }

  lemma StatRotated(s: Sched, r: seq<int>)
    requires |r| > 1 && NoDup(r) && forall i :: 0 <= i < |r| ==> r[i] in s.stat
    requires forall i :: 0 < i < |r| ==> s.stat[r[i]] == Ready
    requires s.current.Some? && s.current.value in s.prio && s.prio[s.current.value] < |s.queues|
    ensures Ordered(s, Rotated(r), [r[0]]).stat == s.stat[r[0] := Ready][r[1] := Running]
  {
    var q, m := Rotated(r), s.stat[r[0] := Ready][r[1] := Running];
    forall t | t in s.stat
      ensures t in q <==> t in r
    {
      assert r == [r[0]] + r[1..];
    }
    forall t | t in s.stat
      ensures Ordered(s, q, [r[0]]).stat[t] == m[t]
    {
      if t in r { assert r[Index(r, t)] == t; }
    }
  }

  lemma StillRoundRobin(s: Sched, r: seq<int>)
    requires RoundRobin(s, r) && Do(s, Yield) == Ordered(s, Rotated(r), [r[0]])
    ensures RoundRobin(Ordered(s, Rotated(r), [r[0]]), Rotated(r))
  {
    hide Inv, Do;
    RoundFacts(s, r);
    StepKeeps(s, Yield);
    var s', p, q := Ordered(s, Rotated(r), [r[0]]), s.prio[r[0]], Rotated(r);
    TopReady(s);
    TopIs(s', p);
    assert q == Round(s');
  }

  /** Ordering twice is ordering once. */
  lemma OrderedTwice(s: Sched, a: seq<int>, b: seq<int>, d: seq<int>, e: seq<int>)
    requires s.current.Some? && s.current.value in s.prio && s.prio[s.current.value] < |s.queues|
    requires |a| > 1 && |b| > 1 && a[0] in s.prio && s.prio[a[0]] == s.prio[s.current.value]
    requires forall t :: t in a <==> t in b
    ensures Ordered(Ordered(s, a, d), b, e) == Ordered(s, b, d + e)
  {
  }

  lemma TurnedNext(r: seq<int>, k: nat)
    requires k < |r| && r != []
    ensures |Turned(r, k)| == |Turned(r, k + 1)| == |r| && Turned(r, k)[0] == r[k]
            && Turned(r, k + 1) == Rotated(Turned(r, k))
    ensures forall t :: t in Turned(r, k) <==> t in r
  {
    assert r == r[..k] + r[k..];
    var t := Turned(r, k);
    assert t[1..] + [t[0]] == r[k..][1..] + r[..k] + [r[k]];
    assert r[..k + 1] == r[..k] + [r[k]];
  }

  /** n + 1 threads of the most urgent level take turns, whatever YIELD bits are left over: the k-th yield gives
      the processor to the k-th of them, only the bits of those displaced are cleared, and the other threads are
      not touched. */
  lemma {:induction false} RoundRobinTurns(s: Sched, r: seq<int>, k: nat)
    requires RoundRobin(s, r) && k <= |r|
    ensures s.current.Some? && s.current.value in s.prio && s.prio[s.current.value] < |s.queues|
    ensures YieldTimes(s, k) == Ordered(s, Turned(r, k), r[..k]) && RoundRobin(YieldTimes(s, k), Turned(r, k))
    ensures NoDup(r) && (k < |r| ==> YieldTimes(s, k).current == Some(r[k]))
  {
    hide RoundRobin, Ordered, Inv, Do, Turned;
    RoundKnown(s, r);
    if k == 0 {
      TurnedEnds(r);
      OrderedAlready(s, r);
      assert r[..0] == [];
    } else {
      RoundRobinTurns(s, r, k - 1);
      NextTurn(s, r, k - 1, YieldTimes(s, k - 1));
    }
    FirstOfRound(YieldTimes(s, k), r, k);
  }

  lemma RoundKnown(s: Sched, r: seq<int>)
    requires RoundRobin(s, r)
    ensures Inv(s) && NoDup(r) && |r| > 1
    ensures s.current.Some? && s.current.value in s.prio && s.prio[s.current.value] < |s.queues|
  {
    RoundFacts(s, r);
  }

  lemma SameLevel(s: Sched, r: seq<int>, k: nat)
    requires RoundRobin(s, r) && k < |r| && s.current.Some? && s.current.value in s.prio
    ensures r[k] in s.prio && s.prio[r[k]] == s.prio[s.current.value]
  {
    RoundFacts(s, r);
  }

  lemma FirstOfRound(s: Sched, r: seq<int>, k: nat)
    requires k <= |r| && RoundRobin(s, Turned(r, k))
    ensures k < |r| ==> s.current == Some(r[k])
  {
  }

  lemma TurnedEnds(r: seq<int>)
    ensures Turned(r, 0) == r && Turned(r, |r|) == r
  {
  }

  lemma NextTurn(s: Sched, r: seq<int>, k: nat, s1: Sched)
    requires RoundRobin(s, r) && k < |r|
    requires s.current.Some? && s.current.value in s.prio && s.prio[s.current.value] < |s.queues|
    requires s1 == Ordered(s, Turned(r, k), r[..k]) && RoundRobin(s1, Turned(r, k))
    ensures Inv(s1) && Enabled(s1, Yield) && |Turned(r, k + 1)| == |r| > 1
    ensures Do(s1, Yield) == Ordered(s, Turned(r, k + 1), r[..k + 1]) && RoundRobin(Do(s1, Yield), Turned(r, k + 1))
  {
    hide RoundRobin, Inv, Do, Turned, Rotated, Ordered;
    var a, b := Turned(r, k), Turned(r, k + 1);
    RoundKnown(s, r);
    SameLevel(s, r, k);
    TurnedNext(r, k);
    YieldOnce(s1, a);
    StillRoundRobin(s1, a);
    InRound(r, k);
    OrderedTwice(s, a, b, r[..k], [r[k]]);
    assert r[..k + 1] == r[..k] + [r[k]];
  }

  /** After a full round each of the threads has run once and everything is as before, except that no YIELD bit
      of the round is set: the whole state is the same exactly when none was. */
  lemma FullRound(s: Sched, r: seq<int>)
    requires RoundRobin(s, r)
    ensures YieldTimes(s, |r|) == s.(yielding := Cleared(s.yielding, r))
    ensures forall i :: 0 <= i < |r| ==> r[i] in s.yielding
    ensures YieldTimes(s, |r|) == s <==> forall i :: 0 <= i < |r| ==> !s.yielding[r[i]]
  {
    hide RoundRobin, Inv, Do, Ordered, YieldTimes, Turned, Cleared;
    RoundKnown(s, r);
    BitsKnown(s, r);
    RoundRobinTurns(s, r, |r|);
    OrderedAlready(s, r);
    TurnedEnds(r);
    assert r[..|r|] == r;
    ClearedSame(s.yielding, r);
  }

  lemma BitsKnown(s: Sched, r: seq<int>)
    requires RoundRobin(s, r)
    ensures forall i :: 0 <= i < |r| ==> r[i] in s.yielding
  {
    RoundFacts(s, r);
  }

  lemma ClearedSame(yielding: map<int, bool>, r: seq<int>)
    requires forall i :: 0 <= i < |r| ==> r[i] in yielding
    ensures Cleared(yielding, r) == yielding <==> forall i :: 0 <= i < |r| ==> !yielding[r[i]]
  {
    var c := Cleared(yielding, r);
    if forall i :: 0 <= i < |r| ==> !yielding[r[i]] {
      assert c == yielding;
    } else {
      var i :| 0 <= i < |r| && yielding[r[i]];
      assert !c[r[i]];
    }
  }

  lemma InRound(r: seq<int>, k: nat)
    requires k < |r|
    ensures forall t :: t in Turned(r, k) <==> t in Turned(r, k + 1)
    ensures Turned(r, k)[0] == r[k]
  {
    assert r == r[..k] + r[k..] == r[..k + 1] + r[k + 1..];
  }

  lemma OrderedAlready(s: Sched, r: seq<int>)
    requires RoundRobin(s, r)
    ensures s.current.Some? && s.current.value in s.prio && s.prio[s.current.value] < |s.queues|
    ensures forall gone :: Ordered(s, r, gone) == s.(yielding := Cleared(s.yielding, gone))
    ensures Ordered(s, r, []) == s
  {
    RoundFacts(s, r);
    forall t | t in s.stat
      ensures Ordered(s, r, []).stat[t] == s.stat[t]
    {
      if t in r { assert r[Index(r, t)] == t; }
    }
    assert Ordered(s, r, []).stat == s.stat && Cleared(s.yielding, []) == s.yielding;
  }

  /** A thread that is alone on its level keeps its YIELD bit when its slice is over. With thread 2 started then,
      the bit is left over in a round: two yields clear it. */
  lemma LeftoverBit()
    ensures var s, late := Fresh(32, map[1 := 5, 2 := 5]), Pair().(yielding := map[1 := true, 2 := false]);
            && Inv(s) && Run(s, [Startup(1), Start, Yield, Startup(2)], late)
            && RoundRobin(late, [1, 2]) && YieldTimes(late, 2) == Pair()
  {
    hide Do, Inv, YieldTimes, Run;
    LateReached();
    LateRound();
  }

  lemma LateRound()
    requires Inv(Pair().(yielding := map[1 := true, 2 := false]))
    ensures var late := Pair().(yielding := map[1 := true, 2 := false]);
            RoundRobin(late, [1, 2]) && YieldTimes(late, 2) == Pair()
  {
    hide Do, Inv, YieldTimes;
    var late := Pair().(yielding := map[1 := true, 2 := false]);
    TopIs(late, 5);
    FullRound(late, [1, 2]);
    assert Cleared(late.yielding, [1, 2]) == map[1 := false, 2 := false];
  }

  lemma LateReached()
    ensures var s, late := Fresh(32, map[1 := 5, 2 := 5]), Pair().(yielding := map[1 := true, 2 := false]);
            Inv(s) && Run(s, [Startup(1), Start, Yield, Startup(2)], late) && Inv(late)
  {
    hide Inv, Enabled, Do, Run;
    var prio: map<int, nat> := map[1 := 5, 2 := 5];
    var s0, s1 := Fresh(32, prio), Waiting([1], map[1 := Ready, 2 := Init]);
    var late := Pair().(yielding := map[1 := true, 2 := false]);
    FreshInv(32, prio);
    FirstStarted(s0, s1);
    StepKeeps(s0, Startup(1));
    StartsAlone(s1);
    StepKeeps(s1, Start);
    SliceOfOne(Alone(false));
    StepKeeps(Alone(false), Yield);
    JoinsLate(Alone(true), late);
    StepKeeps(Alone(true), Startup(2));
    RunOfFour(s0, s1, late);
  }

  /** Thread 1 runs, with or without its YIELD bit, and thread 2 is not started. */
  function Alone(bit: bool): Sched {
    var prio := map[1 := 5, 2 := 5];
    Sched(seq(32, p => []), Some(1), map[1 := Running, 2 := Init], map[1 := bit, 2 := false], prio, prio, 0)
  }

  lemma StartsAlone(s1: Sched)
    requires s1 == Waiting([1], map[1 := Ready, 2 := Init]) && Inv(s1)
    ensures Enabled(s1, Start) && Do(s1, Start) == Alone(false)
  {
    hide Inv;
    TopIs(s1, 5);
    assert s1.queues[5] == [1] && Drop([1], 1) == [];
    var s := Do(s1, Start);
    assert s.queues == Alone(false).queues && s.stat == Alone(false).stat;
  }

  lemma SliceOfOne(s: Sched)
    requires s == Alone(false) && Inv(s)
    ensures Enabled(s, Yield) && Do(s, Yield) == Alone(true)
  {
    assert !AnyReady(s) && !AnyReady(SliceOver(s));
    SliceOverKeeps(s);
  }

  lemma JoinsLate(s: Sched, late: Sched)
    requires s == Alone(true) && Inv(s) && late == Pair().(yielding := map[1 := true, 2 := false])
    ensures Enabled(s, Startup(2)) && Do(s, Startup(2)) == late
  {
    hide Inv;
    var s' := Do(s, Startup(2));
    assert s.queues[5] + [2] == [2];
    assert s'.queues == late.queues && s'.stat == late.stat && s'.prio == late.prio;
  }

  lemma RunOfFour(s0: Sched, s1: Sched, late: Sched)
    requires Inv(s0) && Enabled(s0, Startup(1)) && Do(s0, Startup(1)) == s1
    requires Inv(s1) && Enabled(s1, Start) && Do(s1, Start) == Alone(false)
    requires Inv(Alone(false)) && Enabled(Alone(false), Yield) && Do(Alone(false), Yield) == Alone(true)
    requires Inv(Alone(true)) && Enabled(Alone(true), Startup(2)) && Do(Alone(true), Startup(2)) == late && Inv(late)
    ensures Run(s0, [Startup(1), Start, Yield, Startup(2)], late)
  {
    hide Inv, Do, Enabled;
    var a := [Startup(1), Start, Yield, Startup(2)];
    assert a[1..] == [Start, Yield, Startup(2)] && a[1..][1..] == [Yield, Startup(2)];
    assert a[1..][1..][1..] == [Startup(2)] && a[1..][1..][1..][1..] == [];
    assert Run(late, [], late);
    assert Run(Alone(true), [Startup(2)], late);
    assert Run(Alone(false), [Yield, Startup(2)], late);
    assert Run(s1, [Start, Yield, Startup(2)], late);
  }
}
