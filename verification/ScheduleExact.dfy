/** scheduler.c, thread.c: what each step does to the threads, told by the state before it. */
module ScheduleExact {
  import opened Options
  import opened Rings
  import opened Schedule
  import opened ScheduleLaws

  /** p is the most urgent level with a ready thread. */
  ghost predicate Least(queues: seq<seq<int>>, p: nat) {
    p < |queues| && queues[p] != [] && forall q: nat :: q < p && q < |queues| ==> queues[q] == []
  }

  /** The current thread runs, and no ready thread is more urgent. */
  ghost predicate Served(s: Sched) {
    && s.current.Some? && s.current.value in s.stat && s.stat[s.current.value] == Running && s.current.value in s.prio
    && forall t :: t in s.stat && s.stat[t] == Ready ==> t in s.prio && s.prio[s.current.value] <= s.prio[t]
  }

  /** The current thread runs, and no ready thread may take the processor from it. */
  ghost predicate Unchallenged(s: Sched, c: int) {
    && c in s.stat && s.stat[c] == Running && c in s.prio && c in s.yielding
    && forall t :: !Challenges(s, t, s.prio[c], s.yielding[c])
  }

  /** From s the processor goes to the first thread of level p; a thread c that was running is ready from now on, as the
      last of its level, and has lost its YIELD bit. */
  ghost predicate HandsOver(s: Sched, c: int, p: nat, s': Sched) {
    && p < |s.queues| && s.queues[p] != [] && c in s.stat && c in s.prio && s.prio[c] < |s.queues|
    && var to := s.queues[p][0];
       var rest := s.queues[p := s.queues[p][1..]];
       if s.stat[c] == Running then
         s' == s.(current := Some(to), stat := s.stat[c := Ready][to := Running], yielding := s.yielding[c := false],
                  queues := rest[s.prio[c] := rest[s.prio[c]] + [c]])
       else
         s' == s.(current := Some(to), stat := s.stat[to := Running], queues := rest)
  }

  /** rt_schedule, entirely: nothing happens while the scheduler is locked, when nothing is ready, or when the running
      thread is not challenged. Otherwise the first thread of the most urgent level gets the processor. */
  lemma RescheduleExact(s: Sched)
    requires Inv(s) && s.current.Some?
    ensures var c, s' := s.current.value, Reschedule(s);
            if s.lock > 0 || (forall q: nat :: q < |s.queues| ==> s.queues[q] == []) || Unchallenged(s, c) then s' == s
            else exists p: nat :: Least(s.queues, p) && HandsOver(s, c, p, s')
  {
    var c := s.current.value;
    assert AnyReady(s) <==> !(forall q: nat :: q < |s.queues| ==> s.queues[q] == []);
    if s.lock == 0 && AnyReady(s) {
      CurrentKnown(s);
      TopReady(s);
      var p := Top(s);
      FirstReady(s, p);
      GoesOnWhen(s, c, p);
      if !GoesOn(s, c, p) {
        assert Least(s.queues, p);
        SwitchFields(s, c, p);
      }
    }
  }

  lemma CurrentKnown(s: Sched)
    requires Inv(s) && s.current.Some?
    ensures var c := s.current.value;
            c in s.stat && s.stat[c] != Ready && c in s.prio && s.prio[c] < |s.queues| && c in s.yielding
  {
    assert Filed(s, s.current.value);
  }

  lemma GoesOnWhen(s: Sched, c: int, p: nat)
    requires Inv(s) && s.current == Some(c) && Least(s.queues, p) && c in s.stat && c in s.prio && c in s.yielding
    ensures GoesOn(s, c, p) <==> Unchallenged(s, c)
  {
    var to := s.queues[p][0];
    FirstReady(s, p);
    if s.stat[c] == Running {
      if !GoesOn(s, c, p) { assert Challenges(s, to, s.prio[c], s.yielding[c]); }
      forall t | Challenges(s, t, s.prio[c], s.yielding[c])
        ensures p <= s.prio[t]
      {
        assert Filed(s, t);
        assert s.queues[s.prio[t]] != [];
      }
    }
  }

  lemma SwitchFields(s: Sched, c: int, p: nat)
    requires Inv(s) && s.current == Some(c) && p < |s.queues| && s.queues[p] != []
    requires c in s.stat && c in s.prio && s.prio[c] < |s.queues| && s.stat[c] != Ready
    requires var to := s.queues[p][0]; to in s.stat && to in s.prio && s.prio[to] == p && to != c
    ensures HandsOver(s, c, p, Switch(s, c, s.queues[p][0]))
  {
    var q, to := s.queues[p], s.queues[p][0];
    assert Queued(s, p);
    hide Inv;
    IndexUnique(q, to, 0);
    assert Drop(q, to) == q[1..];
    FirstDropped(q, c);
  }

  lemma FirstDropped(q: seq<int>, c: int)
    requires q != []
    ensures q[0] in q + [c] && Drop(q + [c], q[0]) == q[1..] + [c]
  {
    assert (q + [c])[0] == q[0];
  }

  // -------------------------------------------------------- critical sections

  /** rt_exit_critical of the last lock is a reschedule: with something ready the current thread runs afterwards and
      none that is ready is more urgent. A running thread that is not challenged goes on. */
  lemma LastExit(s: Sched)
    requires Inv(s) && s.lock <= 1 && s.current.Some?
    ensures var s' := Do(s, Exit);
            && s'.lock == 0
            && ((exists q: nat :: q < |s.queues| && s.queues[q] != []) ==> Served(s'))
            && ((forall q: nat :: q < |s.queues| ==> s.queues[q] == []) || Unchallenged(s, s.current.value) ==>
                  s' == s.(lock := 0))
            && (!(forall q: nat :: q < |s.queues| ==> s.queues[q] == []) && !Unchallenged(s, s.current.value) ==>
                  exists p: nat :: Least(s.queues, p) && HandsOver(s.(lock := 0), s.current.value, p, s'))
  {
    var s0 := s.(lock := 0);
    LockKeeps(s, 0);
    RescheduleExact(s0);
    if AnyReady(s0) { MostUrgentRuns(s0); }
    assert AnyReady(s0) <==> AnyReady(s);
    SameChallenges(s, s0);
    hide Inv, Reschedule, HandsOver, Unchallenged;
  }

  lemma SameChallenges(s: Sched, s0: Sched)
    requires s.current.Some? && s0 == s.(lock := 0)
    ensures Unchallenged(s, s.current.value) <==> Unchallenged(s0, s.current.value)
  {
    assert forall t, p: nat, b: bool :: Challenges(s0, t, p, b) <==> Challenges(s, t, p, b);
  }

  /** From a deeper lock only the counter changes. */
  lemma InnerExit(s: Sched)
    requires Inv(s) && (s.lock > 1 || s.current.None?)
    ensures Do(s, Exit) == s.(lock := if s.lock > 1 then s.lock - 1 else 0)
  {
  }

  lemma EnterExact(s: Sched)
    requires Inv(s) && Enabled(s, Enter)
    ensures Do(s, Enter) == s.(lock := s.lock + 1)
  {
  }

  /** rt_system_scheduler_start: the head of the most urgent level runs, and nothing else changes. */
  lemma StartExact(s: Sched)
    requires Inv(s) && Enabled(s, Start)
    ensures exists p: nat ::
              Least(s.queues, p)
              && var to := s.queues[p][0];
                 && Do(s, Start) == s.(current := Some(to), stat := s.stat[to := Running],
                                       queues := s.queues[p := s.queues[p][1..]])
                 && to in s.prio && s.prio[to] == p
    ensures Served(Do(s, Start))
  {
    TopReady(s);
    var p := Top(s);
    FirstReady(s, p);
    assert Least(s.queues, p) && Queued(s, p);
    var q, to, s' := s.queues[p], s.queues[p][0], Do(s, Start);
    IndexUnique(q, to, 0);
    assert Drop(q, to) == q[1..];
    forall t | t in s'.stat && s'.stat[t] == Ready
      ensures t in s.prio && p <= s.prio[t]
    {
      assert Filed(s, t);
      assert s.queues[s.prio[t]] != [];
    }
  }

  // ----------------------------------------------------------------- threads

  /** The queues without thread t */
  ghost predicate Left(q: seq<seq<int>>, t: int, p: nat, q': seq<seq<int>>) {
    p < |q| && if t in q[p] then q' == q[p := Drop(q[p], t)] else q' == q
  }

  /** rt_thread_suspend: a ready or running thread is suspended and on no queue; others are left as they are. */
  lemma SuspendExact(s: Sched, t: int)
    requires Inv(s) && t in s.stat
    ensures t in s.prio
    ensures var s' := Do(s, Suspend_(t));
            if s.stat[t] in {Ready, Running} then
              && s' == s.(stat := s.stat[t := Suspend], queues := s'.queues) && Left(s.queues, t, s.prio[t], s'.queues)
              && forall q: nat :: q < |s'.queues| ==> t !in s'.queues[q]
            else s' == s
  {
    assert Filed(s, t);
    var s' := Do(s, Suspend_(t));
    StepKeeps(s, Suspend_(t));
    if s.stat[t] in {Ready, Running} {
      forall q: nat | q < |s'.queues|
        ensures t !in s'.queues[q]
      {
        NotQueued(s', t, q);
      }
    }
  }

  /** Thread t becomes ready, last of its level; the current thread goes on instead. */
  ghost predicate Joins(s: Sched, t: int, s': Sched) {
    && t in s.prio && s.prio[t] < |s.queues|
    && if s.current == Some(t) then s' == s.(stat := s.stat[t := Running])
       else
         s' == s.(stat := s.stat[t := Ready], queues := s.queues[s.prio[t] := s.queues[s.prio[t]] + [t]])
  }

  /** rt_thread_resume: a suspended thread joins its level; others are left as they are. */
  lemma ResumeExact(s: Sched, t: int)
    requires Inv(s) && t in s.stat
    ensures if s.stat[t] == Suspend then Joins(s, t, Do(s, Resume(t))) else Do(s, Resume(t)) == s
  {
    assert Filed(s, t);
  }

  /** rt_thread_startup: an initialised thread joins the level of its initial priority. */
  lemma StartupExact(s: Sched, t: int)
    requires Inv(s) && t in s.stat && s.stat[t] == Init
    ensures t in s.init && Joins(s.(prio := s.prio[t := s.init[t]]), t, Do(s, Startup(t)))
  {
    assert Filed(s, t);
    assert s.stat[t := Suspend][t := Ready] == s.stat[t := Ready];
    assert s.stat[t := Suspend][t := Running] == s.stat[t := Running];
  }

  /** A changed priority: a ready thread leaves its level and is the last of the new one; any other thread keeps its
      place, if it has one. */
  lemma PriorityExact(s: Sched, t: int, p: nat)
    requires Inv(s) && Enabled(s, SetPriority(t, p))
    ensures t in s.prio && s.prio[t] < |s.queues|
    ensures var s' := Do(s, SetPriority(t, p));
            && s' == s.(prio := s.prio[t := p], queues := s'.queues)
            && if s.stat[t] == Ready then
                 t in s.queues[s.prio[t]]
                 && (var q := s.queues[s.prio[t] := Drop(s.queues[s.prio[t]], t)]; s'.queues == q[p := q[p] + [t]])
               else s'.queues == s.queues
  {
    assert Filed(s, t);
    if s.stat[t] == Ready { assert s.stat[t := Ready] == s.stat; }
  }

  /** The running thread ends: it is closed, and nothing else changes. */
  lemma QuitExact(s: Sched)
    requires Inv(s) && Enabled(s, Quit)
    ensures Do(s, Quit) == s.(stat := s.stat[s.current.value := Close])
  {
    var c := s.current.value;
    assert Filed(s, c);
  }

  /** The slice of the current thread is over: its YIELD bit is set before rt_schedule. */
  lemma YieldExact(s: Sched)
    requires Inv(s) && s.current.Some?
    ensures var c := s.current.value;
            var s0 := s.(yielding := s.yielding[c := true]);
            if s.lock > 0 || (forall q: nat :: q < |s.queues| ==> s.queues[q] == []) || Unchallenged(s0, c) then
              Do(s, Yield) == s0
            else exists p: nat :: Least(s.queues, p) && HandsOver(s0, c, p, Do(s, Yield))
  {
    SliceOverKeeps(s);
    RescheduleExact(SliceOver(s));
    hide Inv, Reschedule, HandsOver, Unchallenged;
  }
}
