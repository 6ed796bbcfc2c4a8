/** scheduler.c, thread.c: the scheduler on the kernel lists and the ready bitmap. */
module Scheduler {
  import opened Options
  import opened Rings
  import opened KernelLists
  import opened ReadyBitmap
  import opened Schedule
  import opened ScheduleLaws
  import opened IpcLists

  /** The heads of the ready queues and of the wait lists of IPC objects, and the tlist node of a thread. */
  datatype Node = Level(p: nat) | Waiting(o: int) | Thread(t: int)

  function Nodes(q: seq<int>): seq<Node> {
    seq(|q|, i requires 0 <= i < |q| => Thread(q[i]))
  }

  lemma NodesIn(q: seq<int>, t: int)
    ensures t in q <==> Thread(t) in Nodes(q)
  {
    if t in q { assert Nodes(q)[Index(q, t)] == Thread(t); }
  }

  lemma NodesEdit(q: seq<int>, t: int)
    ensures InsertAt(Nodes(q), |q|, Thread(t)) == Nodes(q + [t])
    ensures t in q ==> Thread(t) in Nodes(q) && Drop(Nodes(q), Thread(t)) == Nodes(Drop(q, t))
  {
    if t in q {
      NodesIn(q, t);
      IndexNodes(q, t);
    }
  }

  lemma {:induction false} IndexNodes(q: seq<int>, t: int)
    requires t in q && Thread(t) in Nodes(q)
    ensures Index(Nodes(q), Thread(t)) == Index(q, t)
  {
    if q[0] != t {
      assert Nodes(q)[1..] == Nodes(q[1..]);
      NodesIn(q[1..], t);
      IndexNodes(q[1..], t);
    }
  }

  ghost predicate SameWaits(lists: map<Node, seq<Node>>, lists': map<Node, seq<Node>>) {
    forall o {:trigger Waiting(o)} :: Waiting(o) in lists ==>
        Waiting(o) in lists'
        && lists'[Waiting(o)] == lists[Waiting(o)]
  }

  /** A thread is on the list of a level exactly when it is on the queue. */
  lemma OnLevel(table: Lists<Node>, level: Node, q: seq<int>, t: int)
    requires table.Valid() && level in table.lists && table.lists[level] == Nodes(q)
    ensures t in q <==> Thread(t) in table.on && table.on[Thread(t)] == level
    ensures NoDup(q)
  {
    NodesIn(q, t);
    NodesKnown(table.next, table.prev, table.lists, table.on, Thread(t));
    assert Placed(table.next, table.prev, table.lists, table.on, level);
    if t in q { assert table.lists[level][Index(q, t)] == Thread(t); }
    forall i, j | 0 <= i < j < |q|
      ensures q[i] != q[j]
    {
      assert table.lists[level][i] != table.lists[level][j];
    }
  }

  /** The empty ready queues of all levels */
  method InitTable(levels: nat) returns (t: Lists<Node>)
    ensures fresh(t) && t.Valid()
    ensures forall p: nat :: p < levels ==> Level(p) in t.lists && t.lists[Level(p)] == []
    ensures forall n :: n in t.lists ==> n.Level? && n.p < levels
  {
    hide Wf;
    t := new Lists<Node>();
    var offset := 0;
    while offset < levels
      invariant offset <= levels && t.Valid() && fresh(t)
      invariant forall n :: n in t.next ==> n in t.lists
      invariant forall n :: n in t.lists ==> n.Level? && n.p < offset
      invariant forall p: nat :: p < offset ==> Level(p) in t.lists && t.lists[Level(p)] == []
    {
      t.InitHead(Level(offset));
      offset := offset + 1;
    }
  }

  const RT_ETIMEOUT := 2

  class Scheduler {
    const levels: nat
    const table: Lists<Node>        // rt_thread_priority_table and the wait lists
    const ready: ReadyBitmap
    var current: Option<int>
    var stat: map<int, Stat>
    var yielding: map<int, bool>
    var prio: map<int, nat>           // current_priority
    var initPriority: map<int, nat>
    var error: map<int, int>
    var lockNest: nat
    ghost var queues: seq<seq<int>>

    ghost function Abs(): Sched
      reads this
    {
      Sched(queues, current, stat, yielding, prio, initPriority, lockNest)
    }

    /** The lists and the bitmap agree with the queues. */
    ghost predicate Tied()
      reads this, table, ready
    {
      && table.Valid() && ready.Valid() && ready.levels == levels == |queues|
      && (forall p: nat :: p < levels ==> Level(p) in table.lists && table.lists[Level(p)] == Nodes(queues[p]))
      && (forall n :: n in table.lists ==> !n.Thread? && (n.Level? ==> n.p < levels))
      && (forall t :: t in stat ==> Thread(t) in table.next)
      && ready.Marks() == set p: nat | p < levels && queues[p] != []
    }

    /** Only suspended threads are on the wait lists. */
    ghost predicate Waits()
      reads this, table
    {
      forall t {:trigger Thread(t)} :: t in stat && Thread(t) in table.on && table.on[Thread(t)].Waiting? ==>
          stat[t] == Suspend
    }

    ghost predicate Valid()
      reads this, table, ready
    {
      Tied() && Inv(Abs()) && Waits()
    }

    /** rt_system_scheduler_init */
    constructor (levels: nat)
      requires levels <= 256
      ensures Valid() && this.levels == levels && Abs() == Fresh(levels, map[]) && fresh(table) && fresh(ready)
    {
      hide Wf;
      var t := InitTable(levels);
      var r := new ReadyBitmap(levels);
      this.levels := levels;
      table, ready := t, r;
      current, stat, yielding, prio, initPriority, error, lockNest := None, map[], map[], map[], map[], map[], 0;
      queues := seq(levels, p => []);
    }

    /** rt_schedule_remove_thread: the last thread of a level takes the bits with it. */
    method RemoveThread(thread: int)
      requires Tied() && thread in stat && thread in prio && prio[thread] < levels
      requires Thread(thread) in table.on ==> table.on[Thread(thread)] == Level(prio[thread])
      modifies `queues, table, ready
      ensures Tied() && Thread(thread) !in table.on && table.on == old(table.on) - {Thread(thread)}
      ensures SameWaits(old(table.lists), table.lists)
      ensures var p, q := prio[thread], old(queues);
              queues == if thread in q[p] then q[p := Drop(q[p], thread)] else q
    {
      var p := prio[thread];
      ghost var q := queues[p];
      OnLevel(table, Level(p), q, thread);
      hide Wf;
      NodesIn(q, thread);
      NodesEdit(q, thread);
      table.Remove(Thread(thread));
      if thread in q { queues := queues[p := Drop(q, thread)]; }
      var empty := table.IsEmpty(Level(p));
      if empty { ready.Unmark(p); }
    }

    /** A thread on no list joins the tail of the ready queue of its level. */
    method Enqueue(thread: int)
      requires Tied() && thread in stat && thread in prio && prio[thread] < levels && Thread(thread) !in table.on
      modifies `queues, table, ready
      ensures Tied() && queues == old(queues)[prio[thread] := old(queues)[prio[thread]] + [thread]]
      ensures table.on == old(table.on)[Thread(thread) := Level(prio[thread])]
    {
      hide Wf;
      var p := prio[thread];
      NodesEdit(queues[p], thread);
      table.InsertBefore(Level(p), Thread(thread), Level(p), |queues[p]|);
      queues := queues[p := queues[p] + [thread]];
      ready.Mark(p);
    }

    /** rt_schedule_insert_thread: last of its level, unless it is the current thread. */
    method InsertThread(thread: int)
      requires Tied() && Waits() && thread in stat && thread in prio && prio[thread] < levels
               && Thread(thread) !in table.on
      modifies `stat, `queues, table, ready
      ensures Tied() && Waits() && Abs() == Insert(old(Abs()), thread)
      ensures table.on == if current == Some(thread) then old(table.on)
              else old(table.on)[Thread(thread) := Level(prio[thread])]
    {
      hide Wf;
      if current == Some(thread) {
        stat := stat[thread := Running];
      } else {
        stat := stat[thread := Ready];
        Enqueue(thread);
      }
    }

    /** Where the tlist node of a thread is. */
    lemma Where(t: int)
      requires Valid() && t in stat
      ensures t in prio && t in yielding && prio[t] < levels && Thread(t) in table.next && Thread(t) !in table.lists
      ensures stat[t] == Ready ==> Thread(t) in table.on && table.on[Thread(t)] == Level(prio[t])
      ensures stat[t] != Ready && stat[t] != Suspend ==> Thread(t) !in table.on
      ensures stat[t] == Suspend && Thread(t) in table.on ==> table.on[Thread(t)].Waiting?
    {
      assert Filed(Abs(), t);
      OnLevel(table, Level(prio[t]), queues[prio[t]], t);
      NodesKnown(table.next, table.prev, table.lists, table.on, Thread(t));
      if Thread(t) in table.on && stat[t] != Ready && table.on[Thread(t)].Level? {
        var p := table.on[Thread(t)].p;
        OnLevel(table, Level(p), queues[p], t);
        NotQueued(Abs(), t, p);
      }
    }

    /** _get_highest_priority_thread: the head of the most urgent queue */
    method HighestPriorityThread() returns (thread: int, p: nat)
      requires Tied() && AnyReady(Abs())
      ensures p == Top(Abs()) && p < levels && queues[p] != [] && thread == queues[p][0]
    {
      hide Wf;
      TopReady(Abs());
      assert Top(Abs()) in ready.Marks();
      p := ready.Highest();
      var node := table.First(Level(p));
      thread := node.t;
    }

    /** A thread leaves the ready queues, if it is on one, for another state. */
    method TakeThread(thread: int, state: Stat)
      requires Tied() && Waits() && thread in stat && thread in prio && prio[thread] < levels
      requires Thread(thread) in table.on ==> table.on[Thread(thread)] == Level(prio[thread])
      modifies `stat, `queues, table, ready
      ensures Tied() && Waits() && Thread(thread) !in table.on && table.on == old(table.on) - {Thread(thread)}
      ensures Abs() == Take(old(Abs()), thread, state)
      ensures SameWaits(old(table.lists), table.lists)
    {
      hide Wf;
      RemoveThread(thread);
      stat := stat[thread := state];
    }

    /** The processor goes to the ready thread to; a running thread that loses it is ready from now on. */
    method SwitchTo(to: int)
      requires Valid() && current.Some? && to in stat && stat[to] == Ready
      modifies `current, `stat, `yielding, `queues, table, ready
      ensures current.Some? && Valid()
      ensures var s, c := old(Abs()), old(current).value;
              c in s.prio && s.prio[c] < |s.queues| && to in s.prio && s.prio[to] < |s.queues| && c in s.stat
                  && Abs() == Switch(s, c, to)
    {
      var from := current.value;
      SwitchKeeps(Abs(), from, to);
      CurrentKnown(Abs());
      Where(from);
      Where(to);
      hide Wf, Inv, Insert, Take;
      Displace(from, to);
      TakeThread(to, Running);
    }

    /** The first half of a switch. */
    method Displace(from: int, to: int)
      requires Tied() && Waits() && from in stat && from in prio && prio[from] < levels && Thread(from) in table.next
               && from != to
      requires stat[from] == Running ==> Thread(from) !in table.on
      modifies `current, `stat, `yielding, `queues, table, ready
      ensures var s := old(Abs());
              && from in s.prio && s.prio[from] < |s.queues| && from in s.stat
              && Abs() == (var s1 := s.(current := Some(to));
                           if s.stat[from] == Running then Insert(s1.(yielding := s.yielding[from := false]), from)
                               else s1)
      ensures Tied() && Waits()
      ensures table.on == if old(stat)[from] == Running then old(table.on)[Thread(from) := Level(prio[from])]
              else old(table.on)
    {
      hide Wf;
      current := Some(to);
      if stat[from] == Running {
        yielding := yielding[from := false];
        InsertThread(from);
      }
    }

    lemma CurrentKnown(s: Sched)
      requires Inv(s) && s.current.Some?
      ensures s.current.value in s.stat && s.stat[s.current.value] != Ready
    {
    }

    /** The current thread goes on: taking it from the ready queues finds it on none. */
    method GoOn()
      requires Valid() && current.Some? && current.value in stat && stat[current.value] == Running
      modifies `stat, `queues, table, ready
      ensures Valid() && Abs() == old(Abs())
    {
      Where(current.value);
      NotQueued(Abs(), current.value, prio[current.value]);
      hide Wf, Inv;
      TakeThread(current.value, Running);
      assert Abs() == old(Abs());
    }

    /** rt_schedule */
    method RtSchedule()
      requires Valid() && current.Some?
      modifies `current, `stat, `yielding, `queues, table, ready
      ensures Valid() && Abs() == Reschedule(old(Abs()))
    {
      hide Wf, Inv, Switch;
      TopReady(Abs());
      CurrentKnown(Abs());
      ready.AnyMarked();
      ReadyMarks();
      if lockNest == 0 && ready.Any() {
        var to, p := HighestPriorityThread();
        FirstReady(Abs(), p);
        var c := current.value;
        Where(c);
        if stat[c] == Running && (prio[c] < p || (prio[c] == p && !yielding[c])) {
          GoOn();
        } else {
          SwitchTo(to);
        }
      }
    }

    lemma ReadyMarks()
      requires Tied()
      ensures ready.Marks() != {} <==> AnyReady(Abs())
    {
      if AnyReady(Abs()) {
        var p: nat :| p < |queues| && queues[p] != [];
        assert p in ready.Marks();
      } else {
        assert forall p :: p !in ready.Marks();
      }
    }

    /** rt_thread_init: the thread is known, with a list node of its own, but not started. */
    method ThreadInit(thread: int, priority: nat)
      requires Valid() && thread !in stat && priority < levels && Thread(thread) !in table.next
      modifies `stat, `yielding, `prio, `initPriority, table
      ensures Valid() && Abs() == WithThread(old(Abs()), thread, priority)
      ensures stat == old(stat)[thread := Init] && prio == old(prio)[thread := priority]
      ensures initPriority == old(initPriority)[thread := priority] && yielding == old(yielding)[thread := false]
      ensures queues == old(queues) && current == old(current) && lockNest == old(lockNest)
    {
      NewThread(Abs(), thread, priority);
      hide Wf, Inv;
      AddNode(thread);
      SetThread(thread, priority);
    }

    method SetThread(thread: int, priority: nat)
      requires Tied() && Waits() && Thread(thread) in table.next && Thread(thread) !in table.on
      modifies `stat, `yielding, `prio, `initPriority
      ensures Tied() && Waits() && Abs() == WithThread(old(Abs()), thread, priority)
    {
      hide Wf;
      stat := stat[thread := Init];
      yielding := yielding[thread := false];
      initPriority := initPriority[thread := priority];
      prio := prio[thread := priority];
    }

    /** The list node of a thread that is not known yet */
    method AddNode(thread: int)
      requires Tied() && Waits() && thread !in stat && Thread(thread) !in table.next
      modifies table
      ensures Tied() && Waits() && Thread(thread) in table.next && Thread(thread) !in table.on
    {
      Unlisted(thread);
      hide Wf;
      table.InitNode(Thread(thread));
    }

    lemma Unlisted(t: int)
      requires table.Valid() && Thread(t) !in table.next
      ensures Thread(t) !in table.on
    {
      NodesKnown(table.next, table.prev, table.lists, table.on, Thread(t));
    }

    /** rt_thread_suspend */
    method SuspendThread(thread: int) returns (ok: bool)
      requires Valid() && thread in stat
      modifies `stat, `queues, table, ready
      ensures Valid() && Abs() == Do(old(Abs()), Suspend_(thread))
      ensures ok <==> old(stat)[thread] == Ready || old(stat)[thread] == Running
      ensures ok ==> Thread(thread) !in table.on
      ensures SameWaits(old(table.lists), table.lists)
    {
      StepKeeps(Abs(), Suspend_(thread));
      Where(thread);
      hide Wf, Inv;
      if stat[thread] != Ready && stat[thread] != Running { return false; }
      TakeThread(thread, Suspend);
      return true;
    }

    /** rt_ipc_list_suspend, where q is what waits for the object: the thread is queued last, or before
        the first less urgent one. */
    method IpcListSuspend(o: int, thread: int, flag: Flag, ghost q: seq<int>) returns (ghost at: nat)
      requires Valid() && thread in stat && (stat[thread] == Ready || stat[thread] == Running)
      requires Waiting(o) in table.lists && table.lists[Waiting(o)] == Nodes(q)
      modifies `stat, `queues, table, ready
      ensures Valid() && Abs() == Do(old(Abs()), Suspend_(thread))
      ensures Position(q, thread, flag, prio, at)
      ensures Waiting(o) in table.lists && table.lists[Waiting(o)] == Nodes(InsertAt(q, at, thread))
    {
      hide Wf, Inv, Position;
      var ok := SuspendThread(thread);
      var n;
      n, at := FindPlace(o, thread, flag, q);
      QueueUp(n, thread, o, q, at);
    }

    /** A suspended thread that is on no list joins a wait list. */
    method QueueUp(n: Node, thread: int, o: int, ghost q: seq<int>, ghost at: nat)
      requires Tied() && Waits() && thread in stat && stat[thread] == Suspend && Thread(thread) !in table.on
      requires Waiting(o) in table.lists && table.lists[Waiting(o)] == Nodes(q) && at <= |q|
               && n == At(Waiting(o), Nodes(q), at)
      modifies table
      ensures Tied() && Waits()
      ensures Waiting(o) in table.lists && table.lists[Waiting(o)] == Nodes(InsertAt(q, at, thread))
    {
      hide Wf;
      NodesInsert(q, at, thread);
      table.InsertBefore(n, Thread(thread), Waiting(o), at);
    }

    method FindPlace(o: int, thread: int, flag: Flag, ghost q: seq<int>) returns (n: Node, ghost at: nat)
      requires table.Valid() && Waiting(o) in table.lists && table.lists[Waiting(o)] == Nodes(q)
      ensures at <= |q| && Position(q, thread, flag, prio, at) && n == At(Waiting(o), Nodes(q), at)
    {
      hide Wf;
      at := |q|;
      n := Waiting(o);
      if flag == Prio {
        at := 0;
        Reach(o, q, 0);
        n := table.next[Waiting(o)];
        while n != Waiting(o) && !(PriorityOf(prio, thread) < PriorityOf(prio, n.t))
          invariant at <= |q| && n == At(Waiting(o), Nodes(q), at)
          invariant forall i :: 0 <= i < at ==> PriorityOf(prio, q[i]) <= PriorityOf(prio, thread)
          decreases |q| - at
        {
          at := at + 1;
          Reach(o, q, at);
          n := table.next[n];
        }
      }
    }

    /** The node behind place k of a wait list */
    lemma Reach(o: int, q: seq<int>, k: nat)
      requires table.Valid() && Waiting(o) in table.lists && table.lists[Waiting(o)] == Nodes(q) && k <= |q|
      ensures var b := Rings.Before(Waiting(o), Nodes(q), k);
                b in table.next
                && table.next[b] == At(Waiting(o), Nodes(q), k)
    {
      Neighbours(table.next, table.prev, table.lists, table.on, Waiting(o), k);
    }

    lemma NodesInsert(q: seq<int>, at: nat, t: int)
      requires at <= |q|
      ensures InsertAt(Nodes(q), at, Thread(t)) == Nodes(InsertAt(q, at, t))
    {
    }

    /** A thread that is not on a ready queue leaves the wait list it is on, if any. */
    method Detach(thread: int)
      requires Tied() && Waits() && Thread(thread) in table.next && Thread(thread) !in table.lists
      requires Thread(thread) in table.on ==> table.on[Thread(thread)].Waiting?
      modifies table
      ensures Tied() && Waits() && Thread(thread) !in table.on
    {
      hide Wf;
      table.Remove(Thread(thread));
    }

    /** rt_thread_resume: the thread leaves the wait list it is on, whichever that is. */
    method ResumeThread(thread: int) returns (ok: bool)
      requires Valid() && thread in stat
      modifies `stat, `queues, table, ready
      ensures Valid() && Abs() == Do(old(Abs()), Resume(thread))
      ensures ok <==> old(stat)[thread] == Suspend
    {
      StepKeeps(Abs(), Resume(thread));
      Where(thread);
      hide Wf, Inv;
      if stat[thread] != Suspend { return false; }
      Detach(thread);
      InsertThread(thread);
      return true;
    }

    /** rt_thread_timeout */
    method TimeoutThread(thread: int)
      requires Valid() && thread in stat && stat[thread] == Suspend && current.Some?
      modifies `current, `stat, `yielding, `queues, `error, table, ready
      ensures error == old(error)[thread := -RT_ETIMEOUT]
      ensures Valid()
      ensures var s := old(Abs()); Inv(s) && Enabled(s, Resume(thread)) && Inv(Do(s, Resume(thread)))
                                   && Abs() == Reschedule(Do(s, Resume(thread)))
    {
      StepKeeps(Abs(), Resume(thread));
      hide Inv;
      error := error[thread := -RT_ETIMEOUT];
      var ok := ResumeThread(thread);
      RtSchedule();
    }

    lemma InitKnown(s: Sched, t: int)
      requires Inv(s) && t in s.stat
      ensures t in s.init && s.init[t] < |s.queues|
    {
      assert Filed(s, t);
    }

    /** A thread that was never started gets its initial priority, and is suspended for the moment. */
    method Prepare(thread: int)
      requires Tied() && Waits() && Thread(thread) in table.next && Thread(thread) !in table.lists
      requires Thread(thread) !in table.on && thread in stat && thread in initPriority
      modifies `stat, `prio, table
      ensures Tied() && Waits() && Thread(thread) !in table.on && initPriority == old(initPriority)
      ensures Abs() == (var s := old(Abs()); s.(stat := s.stat[thread := Suspend],
                                                prio := s.prio[thread := initPriority[thread]]))
    {
      hide Wf;
      prio := prio[thread := initPriority[thread]];
      stat := stat[thread := Suspend];
      Detach(thread);
    }

    /** rt_thread_startup, up to its call of rt_schedule: at its initial priority */
    method StartupThread(thread: int)
      requires Valid() && thread in stat && stat[thread] == Init
      modifies `stat, `prio, `queues, table, ready
      ensures Valid() && Abs() == Do(old(Abs()), Startup(thread))
    {
      StepKeeps(Abs(), Startup(thread));
      Where(thread);
      InitKnown(Abs(), thread);
      hide Wf, Inv;
      Prepare(thread);
      InsertThread(thread);
    }

    /** A ready thread moves to the tail of another level. */
    method Requeue(thread: int, priority: nat)
      requires Tied() && Waits() && thread in stat && thread in prio && prio[thread] < levels && priority < levels
      requires stat[thread] == Ready && current != Some(thread)
      requires Thread(thread) in table.on && table.on[Thread(thread)] == Level(prio[thread])
      modifies `stat, `queues, `prio, table, ready
      ensures Tied() && Waits()
      ensures var s := old(Abs()); thread in s.prio && s.prio[thread] < |s.queues| && priority < |s.queues|
                                   && Abs() == Insert(Take(s, thread, Ready).(prio := s.prio[thread := priority]),
                                       thread)
    {
      hide Wf;
      RemoveThread(thread);
      prio := prio[thread := priority];
      InsertThread(thread);
      assert old(stat)[thread := Ready] == old(stat);
    }

    lemma NotCurrent(s: Sched, t: int)
      requires Inv(s) && t in s.stat && s.stat[t] == Ready
      ensures s.current != Some(t)
    {
    }

    /** rt_thread_control with RT_THREAD_CTRL_CHANGE_PRIORITY */
    method ChangePriority(thread: int, priority: nat)
      requires Valid() && thread in stat && priority < levels
      modifies `stat, `queues, `prio, table, ready
      ensures Valid() && Abs() == Do(old(Abs()), SetPriority(thread, priority))
    {
      StepKeeps(Abs(), SetPriority(thread, priority));
      Where(thread);
      if stat[thread] == Ready { NotCurrent(Abs(), thread); }
      hide Wf, Inv, Insert, Take;
      if stat[thread] == Ready {
        Requeue(thread, priority);
      } else {
        prio := prio[thread := priority];
      }
    }

    /** rt_tick_increase when the time slice of the current thread is over */
    method SliceUp()
      requires Valid() && current.Some?
      modifies `current, `stat, `yielding, `queues, table, ready
      ensures Valid() && Abs() == Do(old(Abs()), Yield)
    {
      SliceOverKeeps(Abs());
      hide Inv;
      yielding := yielding[current.value := true];
      RtSchedule();
    }

    /** rt_enter_critical */
    method EnterCritical()
      requires Valid() && lockNest < 0x7fff
      modifies `lockNest
      ensures Valid() && Abs() == Do(old(Abs()), Enter)
    {
      StepKeeps(Abs(), Enter);
      lockNest := lockNest + 1;
    }

    /** rt_exit_critical */
    method ExitCritical()
      requires Valid()
      modifies `lockNest, `current, `stat, `yielding, `queues, table, ready
      ensures Valid() && Abs() == Do(old(Abs()), Exit)
    {
      LockKeeps(Abs(), if lockNest <= 1 then 0 else lockNest - 1);
      hide Inv;
      var nest: int := lockNest - 1;
      if nest <= 0 {
        lockNest := 0;
        if current.Some? { RtSchedule(); }
      } else {
        lockNest := nest;
      }
    }

    /** The first thread gets the processor. */
    method TakeOver(to: int)
      requires Tied() && Waits() && to in stat && to in prio && prio[to] < levels
      requires Thread(to) in table.on ==> table.on[Thread(to)] == Level(prio[to])
      modifies `current, `stat, `queues, table, ready
      ensures Tied() && Waits() && Abs() == Take(old(Abs()).(current := Some(to)), to, Running)
    {
      hide Wf;
      current := Some(to);
      TakeThread(to, Running);
    }

    /** rt_system_scheduler_start */
    method StartScheduler()
      requires Valid() && current.None? && AnyReady(Abs())
      modifies `current, `stat, `queues, table, ready
      ensures Valid() && Abs() == Do(old(Abs()), Start)
    {
      StepKeeps(Abs(), Start);
      TopReady(Abs());
      var to, p := HighestPriorityThread();
      FirstReady(Abs(), p);
      Where(to);
      hide Wf, Inv;
      TakeOver(to);
    }

    /** rt_thread_exit, up to its call of rt_schedule */
    method ThreadExit()
      requires Valid() && current.Some? && current.value in stat && stat[current.value] == Running
      modifies `stat, `queues, table, ready
      ensures Valid() && Abs() == Do(old(Abs()), Quit)
    {
      StepKeeps(Abs(), Quit);
      Where(current.value);
      hide Wf, Inv;
      TakeThread(current.value, Close);
    }
  }

  function WithThread(s: Sched, t: int, p: nat): Sched {
    s.(stat := s.stat[t := Init], yielding := s.yielding[t := false], prio := s.prio[t := p], init := s.init[t := p])
  }

  lemma NewThread(s: Sched, t: int, p: nat)
    requires Inv(s) && t !in s.stat && p < |s.queues|
    ensures Inv(WithThread(s, t, p))
  {
    var s' := WithThread(s, t, p);
    assert Queued(s, p);
    forall x | x in s'.stat
      ensures Filed(s', x)
    {
      assert x != t ==> Filed(s, x);
    }
    forall q: nat | q < |s'.queues|
      ensures Queued(s', q)
    {
      assert Queued(s, q);
    }
  }
}
