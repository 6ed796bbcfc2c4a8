/** scheduler.c and thread.c: the single-core scheduler as a state machine. A smaller number is a
    more urgent priority. */
module Schedule {
  import opened Options
  import opened Rings

  datatype Stat = Init | Ready | Suspend | Running | Close

  /** queues holds the ready threads of each level; yielding is the YIELD bit of stat, prio current_priority
      and init init_priority. */
  datatype Sched = Sched(
    queues: seq<seq<int>>, current: Option<int>,
    stat: map<int, Stat>, yielding: map<int, bool>, prio: map<int, nat>, init: map<int, nat>, lock: nat)

  // ---------------------------------------------------------------- invariant

  /** Thread t is on the queue of its priority exactly when it is ready. */
  ghost predicate Filed(s: Sched, t: int) {
    && t in s.stat && t in s.yielding && t in s.prio && s.prio[t] < |s.queues|
    && t in s.init && s.init[t] < |s.queues|
    && (s.stat[t] == Ready <==> t in s.queues[s.prio[t]])
  }

  ghost predicate Queued(s: Sched, p: nat)
    requires p < |s.queues|
  {
    && NoDup(s.queues[p])
    && forall i :: 0 <= i < |s.queues[p]| ==> var t := s.queues[p][i]; t in s.stat && t in s.prio && s.prio[t] == p
  }

  ghost predicate Files(s: Sched) {
    && s.stat.Keys == s.prio.Keys && s.yielding.Keys == s.prio.Keys
    && (forall t {:trigger Filed(s, t)} :: t in s.stat ==> Filed(s, t))
    && (forall p: nat :: p < |s.queues| ==> Queued(s, p))
  }

  /** Only the current thread runs, and it is on no queue. */
  ghost predicate OneRuns(s: Sched) {
    && (s.current.Some? ==> s.current.value in s.stat && s.stat[s.current.value] != Ready)
    && (forall t :: t in s.stat && s.stat[t] == Running ==> s.current == Some(t))
  }

  ghost predicate Inv(s: Sched) {
    Files(s) && OneRuns(s)
  }

  // --------------------------------------------------------------- operations

  predicate AnyReady(s: Sched) {
    exists p: nat :: p < |s.queues| && s.queues[p] != []
  }

  /** The most urgent level with a ready thread, looking from level p on. */
  function TopFrom(queues: seq<seq<int>>, p: nat): nat
    decreases |queues| - p
  {
    if p >= |queues| || queues[p] != [] then p else TopFrom(queues, p + 1)
  }

  function Top(s: Sched): nat {
    TopFrom(s.queues, 0)
  }

  /** rt_schedule_insert_thread: last of its level, but never the current thread */
  function Insert(s: Sched, t: int): Sched
    requires t in s.prio && s.prio[t] < |s.queues|
  {
    if s.current == Some(t) then s.(stat := s.stat[t := Running])
    else
      var p := s.prio[t];
      s.(stat := s.stat[t := Ready], queues := s.queues[p := s.queues[p] + [t]])
  }

  /** rt_schedule_remove_thread, and the new state of the thread */
  function Take(s: Sched, t: int, stat: Stat): Sched
    requires t in s.prio && s.prio[t] < |s.queues|
  {
    var p := s.prio[t];
    s.(stat := s.stat[t := stat], queues := if t in s.queues[p] then s.queues[p := Drop(s.queues[p], t)] else s.queues)
  }

  /** Whether rt_schedule lets the running thread c go on when level p is the most urgent one ready. */
  predicate GoesOn(s: Sched, c: int, p: nat)
    requires c in s.stat && c in s.prio && c in s.yielding
  {
    s.stat[c] == Running && (s.prio[c] < p || (s.prio[c] == p && !s.yielding[c]))
  }

  /** The current thread c makes way for thread to; a running c is ready from now on. */
  function Switch(s: Sched, c: int, to: int): Sched
    requires c in s.prio && s.prio[c] < |s.queues| && to in s.prio && s.prio[to] < |s.queues| && c in s.stat
  {
    var s1 := s.(current := Some(to));
    var s2 := if s.stat[c] == Running then Insert(s1.(yielding := s.yielding[c := false]), c) else s1;
    Take(s2, to, Running)
  }

  /** rt_schedule */
  function Reschedule(s: Sched): Sched
    requires Inv(s) && s.current.Some?
  {
    if s.lock > 0 || !AnyReady(s) then s
    else
      TopReady(s);
      var c, p := s.current.value, Top(s);
      assert Filed(s, c) && Queued(s, p);
      var to := s.queues[p][0];
      if GoesOn(s, c, p) then s else Switch(s, c, to)
  }

  lemma {:induction false} TopFromReady(queues: seq<seq<int>>, p: nat)
    ensures var q := TopFrom(queues, p);
              p <= q && (p <= |queues| ==> q <= |queues|)
              && (q < |queues| ==> queues[q] != [])
    ensures forall r: nat :: p <= r < TopFrom(queues, p) && r < |queues| ==> queues[r] == []
    decreases |queues| - p
  {
    if p < |queues| && queues[p] == [] { TopFromReady(queues, p + 1); }
  }

  /** Top is the least level with a ready thread. */
  lemma TopReady(s: Sched)
    ensures AnyReady(s) <==> Top(s) < |s.queues|
    ensures Top(s) < |s.queues| ==> s.queues[Top(s)] != []
    ensures forall r: nat :: r < Top(s) && r < |s.queues| ==> s.queues[r] == []
  {
    TopFromReady(s.queues, 0);
  }

  // -------------------------------------------------------------------- steps

  datatype Step =
    | Schedule | Yield
    | Suspend_(t: int) | Resume(t: int) | Startup(t: int)
    | SetPriority(t: int, p: nat)
    | Enter | Exit | Start | Quit

  /** A thread suspends only itself or a ready thread; the lock counter stays in its 16 bits. */
  ghost predicate Enabled(s: Sched, a: Step) {
    match a
    case Schedule => s.current.Some?
    case Yield => s.current.Some?
    case Suspend_(t) => t in s.stat
    case Resume(t) => t in s.stat
    case Startup(t) => t in s.stat && s.stat[t] == Init
    case SetPriority(t, p) => t in s.stat && p < |s.queues|
    case Enter => s.lock < 0x7fff
    case Exit => true
    case Start => s.current.None? && AnyReady(s)
    case Quit => s.current.Some? && s.current.value in s.stat && s.stat[s.current.value] == Running
  }

  /** rt_tick_increase sets the YIELD bit when the time slice is used up, before it yields. */
  function SliceOver(s: Sched): Sched
    requires s.current.Some?
  {
    s.(yielding := s.yielding[s.current.value := true])
  }

  function Do(s: Sched, a: Step): Sched
    requires Inv(s) && Enabled(s, a)
  {
    match a
    case Schedule => Reschedule(s)
    case Yield => (SliceOverKeeps(s); Reschedule(SliceOver(s)))
    case Suspend_(t) =>
      assert Filed(s, t);
      if s.stat[t] == Ready || s.stat[t] == Running then Take(s, t, Suspend) else s
    case Resume(t) => (assert Filed(s, t); if s.stat[t] == Suspend then Insert(s, t) else s)
    case Startup(t) => (assert Filed(s, t); Insert(s.(stat := s.stat[t := Suspend], prio := s.prio[t := s.init[t]]), t))
    case SetPriority(t, p) =>
      assert Filed(s, t);
      if s.stat[t] == Ready then Insert(Take(s, t, Ready).(prio := s.prio[t := p]), t) else s.(prio := s.prio[t := p])
    case Enter => s.(lock := s.lock + 1)
    case Exit =>
      var s' := s.(lock := if s.lock <= 1 then 0 else s.lock - 1);
      LockKeeps(s, s'.lock);
      if s.lock <= 1 && s.current.Some? then Reschedule(s') else s'
    case Start =>
      TopReady(s);
      assert Queued(s, Top(s));
      var to := s.queues[Top(s)][0];
      Take(s.(current := Some(to)), to, Running)
    case Quit => (assert Filed(s, s.current.value); Take(s, s.current.value, Close))
  }

  // -------------------------------------------------- the invariant is inductive

  lemma LockKeeps(s: Sched, lock: nat)
    requires Inv(s)
    ensures Inv(s.(lock := lock))
  {
    var s' := s.(lock := lock);
    forall t | t in s'.stat
      ensures Filed(s', t)
    {
      assert Filed(s, t);
    }
    assert forall p: nat :: p < |s.queues| ==> Queued(s, p) ==> Queued(s', p);
  }

  lemma SliceOverKeeps(s: Sched)
    requires Inv(s) && s.current.Some?
    ensures Inv(SliceOver(s))
  {
    var s' := SliceOver(s);
    forall t | t in s'.stat
      ensures Filed(s', t)
    {
      assert Filed(s, t);
    }
    assert forall p: nat :: p < |s.queues| ==> Queued(s, p) ==> Queued(s', p);
  }

  /** A thread that was not ready is last of its level. */
  lemma InsertFiles(s: Sched, t: int)
    requires Files(s) && t in s.stat && s.stat[t] != Ready
    ensures t in s.prio && s.prio[t] < |s.queues| && Files(Insert(s, t))
  {
    assert Filed(s, t);
    var s', p := Insert(s, t), s.prio[t];
    assert Queued(s, p);
    forall x | x in s'.stat
      ensures Filed(s', x)
    {
      assert Filed(s, x);
    }
    forall q: nat | q < |s'.queues|
      ensures Queued(s', q)
    {
      assert Queued(s, q);
      assert q == p && s.current != Some(t) ==> NoDup(s'.queues[q]) by { AppendOne(s.queues[p], t); }
    }
  }

  lemma AppendOne(q: seq<int>, t: int)
    requires NoDup(q)
    ensures t !in q ==> NoDup(q + [t])
  {
  }

  lemma TakeFiles(s: Sched, t: int, stat: Stat)
    requires Files(s) && t in s.stat && stat != Ready
    ensures t in s.prio && s.prio[t] < |s.queues| && Files(Take(s, t, stat))
  {
    assert Filed(s, t);
    var s', p := Take(s, t, stat), s.prio[t];
    assert Queued(s, p);
    if t in s.queues[p] { DropElements(s.queues[p], t); }
    forall x | x in s'.stat
      ensures Filed(s', x)
    {
      assert Filed(s, x);
    }
    forall q: nat | q < |s'.queues|
      ensures Queued(s', q)
    {
      assert Queued(s, q);
      if q == p && t in s.queues[p] { DropQueued(s, s', p, t); }
    }
  }

  lemma DropQueued(s: Sched, s': Sched, p: nat, t: int)
    requires p < |s.queues| && p < |s'.queues| && Queued(s, p) && t in s.queues[p]
             && s'.queues[p] == Drop(s.queues[p], t)
    requires s.stat.Keys <= s'.stat.Keys && s'.prio == s.prio
    ensures Queued(s', p)
  {
    DropElements(s.queues[p], t);
    var q := s'.queues[p];
    forall i | 0 <= i < |q|
      ensures q[i] in s'.stat && q[i] in s'.prio && s'.prio[q[i]] == p
    {
      assert q[i] in s.queues[p];
      var j := Index(s.queues[p], q[i]);
      assert s.queues[p][j] == q[i];
    }
  }

  lemma SameFiles(s: Sched, s': Sched)
    requires Files(s) && s'.queues == s.queues && s'.prio == s.prio && s'.init == s.init
             && s'.yielding.Keys == s.yielding.Keys && s'.stat == s.stat
    ensures Files(s')
  {
    forall t | t in s'.stat
      ensures Filed(s', t)
    {
      assert Filed(s, t);
    }
    forall p: nat | p < |s'.queues|
      ensures Queued(s', p)
    {
      assert Queued(s, p);
    }
  }

  lemma SwitchKeeps(s: Sched, c: int, to: int)
    requires Inv(s) && s.current == Some(c) && to in s.stat && s.stat[to] == Ready
    ensures c in s.prio && s.prio[c] < |s.queues| && to in s.prio && s.prio[to] < |s.queues| && c in s.stat
    ensures Inv(Switch(s, c, to)) && Switch(s, c, to).stat[to] == Running
  {
    assert Filed(s, c) && Filed(s, to);
    var s1 := s.(current := Some(to));
    if s.stat[c] == Running {
      var s2 := s1.(yielding := s.yielding[c := false]);
      SameFiles(s, s2);
      InsertFiles(s2, c);
      TakeFiles(Insert(s2, c), to, Running);
    } else {
      SameFiles(s, s1);
      TakeFiles(s1, to, Running);
    }
    hide Files;
  }

  lemma FirstReady(s: Sched, p: nat)
    requires Inv(s) && p < |s.queues| && s.queues[p] != []
    ensures var t := s.queues[p][0];
              t in s.stat && s.stat[t] == Ready && t in s.prio && s.prio[t] == p
              && s.current != Some(t)
  {
    assert Queued(s, p);
    var t := s.queues[p][0];
    assert Filed(s, t);
  }

  lemma RescheduleKeeps(s: Sched)
    requires Inv(s) && s.current.Some?
    ensures Inv(Reschedule(s))
  {
    TopReady(s);
    if AnyReady(s) {
      FirstReady(s, Top(s));
      SwitchKeeps(s, s.current.value, s.queues[Top(s)][0]);
    }
    hide Inv;
  }

  lemma SetPriorityKeeps(s: Sched, t: int, p: nat)
    requires Inv(s) && t in s.stat && p < |s.queues|
    ensures Inv(Do(s, SetPriority(t, p)))
  {
    assert Filed(s, t);
    if s.stat[t] == Ready {
      var s1 := Take(s, t, Suspend);
      TakeFiles(s, t, Suspend);
      Moved(s1, t, p);
      InsertFiles(s1.(prio := s.prio[t := p]), t);
      assert s1.stat[t := Ready] == Take(s, t, Ready).stat[t := Ready];
      assert Do(s, SetPriority(t, p)) == Insert(s1.(prio := s.prio[t := p]), t);
    } else {
      Moved(s, t, p);
    }
  }

  /** A thread that is on no queue may change its priority. */
  lemma Moved(s: Sched, t: int, p: nat)
    requires Files(s) && t in s.stat && s.stat[t] != Ready && p < |s.queues|
    ensures Files(s.(prio := s.prio[t := p]))
  {
    var s' := s.(prio := s.prio[t := p]);
    assert Filed(s, t);
    assert Queued(s, s.prio[t]);
    assert Queued(s, p);
    forall x | x in s'.stat
      ensures Filed(s', x)
    {
      assert Filed(s, x);
      if x == t { NotQueued(s, t, p); }
    }
    forall q: nat | q < |s'.queues|
      ensures Queued(s', q)
    {
      assert Queued(s, q);
      NotQueued(s, t, q);
    }
  }

  lemma NotQueued(s: Sched, t: int, p: nat)
    requires Files(s) && t in s.stat && s.stat[t] != Ready && p < |s.queues|
    ensures t !in s.queues[p]
  {
    assert Filed(s, t);
    assert Queued(s, p);
  }

  lemma StepKeeps(s: Sched, a: Step)
    requires Inv(s) && Enabled(s, a)
    ensures Inv(Do(s, a))
  {
    match a {
      case Schedule => RescheduleKeeps(s);
      case Yield => SliceOverKeeps(s); RescheduleKeeps(SliceOver(s));
      case Suspend_(t) => TakeFiles(s, t, Suspend);
      case Resume(t) => if s.stat[t] == Suspend { InsertFiles(s, t); }
      case Startup(t) => StartupFiles(s, t);
      case SetPriority(t, p) => SetPriorityKeeps(s, t, p);
      case Enter => LockKeeps(s, s.lock + 1);
      case Exit => ExitKeeps(s);
      case Start => StartKeeps(s);
      case Quit => TakeFiles(s, s.current.value, Close);
    }
  }

  lemma StartupFiles(s: Sched, t: int)
    requires Inv(s) && t in s.stat && s.stat[t] == Init
    ensures Inv(Do(s, Startup(t)))
  {
    TakeFiles(s, t, Suspend);
    assert Filed(s, t);
    var s1 := s.(stat := s.stat[t := Suspend]);
    assert Take(s, t, Suspend) == s1;
    Moved(s1, t, s.init[t]);
    InsertFiles(s1.(prio := s.prio[t := s.init[t]]), t);
  }

  lemma ExitKeeps(s: Sched)
    requires Inv(s)
    ensures Inv(Do(s, Exit))
  {
    var lock := if s.lock <= 1 then 0 else s.lock - 1;
    LockKeeps(s, lock);
    if s.lock <= 1 && s.current.Some? { RescheduleKeeps(s.(lock := lock)); }
  }

  lemma StartKeeps(s: Sched)
    requires Inv(s) && Enabled(s, Start)
    ensures Inv(Do(s, Start))
  {
    TopReady(s);
    FirstReady(s, Top(s));
    var to := s.queues[Top(s)][0];
    SameFiles(s, s.(current := Some(to)));
    TakeFiles(s.(current := Some(to)), to, Running);
  }
}
