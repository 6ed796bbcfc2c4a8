/** ipc.c: the event object. */
module Event {
  import opened Rings
  import opened Words
  import opened IpcLists
  import opened EventTurns
  import opened EventProtocol

  datatype Outcome = Error | TimeOut | Suspended | Received(recved: bv32)

  class Event {
    const flag: Flag
    var eventSet: bv32
    var suspendThread: seq<int>
    var threadWish: map<int, Wish>    // event_set and event_info of the threads
    var threadPhase: map<int, Phase>
    var priority: map<int, nat>

    ghost var st: Ev

    ghost predicate Valid()
      reads this
    {
      && Inv(st)
      && st.bits == eventSet && st.waiters == suspendThread && st.wish == threadWish && st.phase == threadPhase
    }

    /** rt_event_init */
    constructor (flag: Flag, threads: set<int>, priority: map<int, nat>)
      ensures Valid() && st == Fresh(threads) && this.flag == flag && this.priority == priority
    {
      this.flag := flag;
      this.priority := priority;
      eventSet, suspendThread, threadWish := 0, [], map[];
      threadPhase := map t | t in threads :: Idle;
      st := Fresh(threads);
    }

    /** The thread at place n of the list records its report, clears its bits and is resumed. */
    method Wake(n: nat, thread: int)
      requires n < |suspendThread| && suspendThread[n] == thread && thread in threadWish
      modifies `eventSet, `suspendThread, `threadWish, `threadPhase
      ensures var wish := old(threadWish)[thread];
              && threadWish == old(threadWish)[thread := wish.(mask := Report(old(eventSet), wish))]
              && eventSet == Minus(old(eventSet), Cleared(old(eventSet), wish))
      ensures threadPhase == old(threadPhase)[thread := Resumed(Ok)]
      ensures suspendThread == old(suspendThread)[..n] + old(suspendThread)[n + 1..]
    {
      hide Satisfied, Cleared, Report, Minus;
      var wish := threadWish[thread];
      threadWish := threadWish[thread := wish.(mask := Report(eventSet, wish))];
      eventSet := Minus(eventSet, Cleared(eventSet, wish));
      suspendThread := suspendThread[..n] + suspendThread[n + 1..];
      threadPhase := threadPhase[thread := Resumed(Ok)];
    }

    /** The section of rt_event_send with interrupts off. */
    method SendSection(set_: bv32) returns (needSchedule: bool)
      requires Valid() && set_ != 0
      modifies this
      ensures st == Do(old(st), Send(set_))
      ensures needSchedule <==> SomeLeft(old(suspendThread), suspendThread)
      ensures SentTo(With(old(eventSet), set_), old(suspendThread), old(threadWish), old(threadPhase),
                  eventSet, suspendThread, threadWish, threadPhase)
      ensures priority == old(priority)
      ensures Valid()
    {
      hide Inv, Do, Midway, Turn, Turns, Satisfied, Union, Cleared, Report, Minus, Sent, SentTo, SomeLeft, With;
      ghost var s := st;
      StepKeeps(s, Send(set_));
      eventSet := Union(eventSet, set_);
      needSchedule := false;
      ghost var k, w := 0, Walk(eventSet, [], [], map[]);
      var n := 0;
      Start(s, eventSet);
      while n < |suspendThread|
        invariant Midway(s, Union(s.bits, set_), k, w, eventSet, suspendThread, n, threadWish, threadPhase)
        invariant needSchedule <==> w.woken != []
        invariant st == s && priority == old(priority)
        decreases |s.waiters| - k
      {
        var thread := suspendThread[n];
        Round(s, Union(s.bits, set_), k, w, eventSet, suspendThread, n, threadWish, threadPhase);
        w := Turn(w, s.wish, thread);
        k := k + 1;
        if Satisfied(eventSet, threadWish[thread]) {
          Wake(n, thread);
          needSchedule := true;
        } else {
          n := n + 1;
        }
      }
      Finish(s, set_, k, w, eventSet, suspendThread, n, threadWish, threadPhase);
      st := Do(st, Send(set_));
      SendEffects(s, set_);
    }

    /** rt_event_send: no bits is an error and changes nothing. */
    method SendBits(set_: bv32) returns (ok: bool, needSchedule: bool)
      requires Valid()
      modifies this
      ensures ok <==> set_ != 0
      ensures st == Do(old(st), Send(set_)) && Valid()
    {
      hide Inv, Sent;
      if set_ == 0 { return false, false; }
      needSchedule := SendSection(set_);
      return true, needSchedule;
    }

    /** The first section of rt_event_recv with interrupts off. */
    method RecvSection(thread: int, mask: bv32, option: bv8, timeout: int) returns (r: Outcome)
      requires Valid() && thread in threadPhase && threadPhase[thread] == Idle && Mode(option)
      modifies this
      ensures exists at :: Enabled(old(st), Recv(thread, mask, option, timeout != 0, at))
                           && st == Do(old(st), Recv(thread, mask, option, timeout != 0, at))
                           && Position(old(st).waiters, thread, flag, priority, at)
      ensures r == if mask == 0 then Error
                   else if Hit(old(eventSet), mask, option) then Received(Found(old(eventSet), mask))
                   else if timeout == 0 then TimeOut else Suspended
      ensures eventSet == if r.Received? then Uncleared(old(eventSet), mask, option) else old(eventSet)
      ensures !r.Suspended? ==>
                && suspendThread == old(suspendThread) && threadWish == old(threadWish)
                && threadPhase == old(threadPhase)
      ensures r.Suspended? ==>
                && threadWish == old(threadWish)[thread := Wish(mask, option)]
                && threadPhase == old(threadPhase)[thread := Waiting]
                && exists at: nat :: at <= |old(suspendThread)|
                     && Position(old(suspendThread), thread, flag, old(priority), at)
                     && suspendThread == InsertAt(old(suspendThread), at, thread)
      ensures priority == old(priority)
      ensures Valid()
    {
      hide Inv, Has, Minus, Both, Satisfied, Hit, Found, Uncleared;
      RecvBits(eventSet, mask, option);
      var suspended, at := ListSuspend(suspendThread, thread, flag, priority);
      ghost var a := Recv(thread, mask, option, timeout != 0, at);
      assert Enabled(st, a);
      StepKeeps(st, a);
      ghost var s' := Do(st, a);
      var wish := Wish(mask, option);
      if mask == 0 {
        r := Error;
      } else if Satisfied(eventSet, wish) {
        r := Received(Both(eventSet, mask));
        if Has(option, CLEAR) { eventSet := Minus(eventSet, mask); }
      } else if timeout == 0 {
        r := TimeOut;
      } else {
        threadWish := threadWish[thread := wish];
        suspendThread := suspended;
        threadPhase := threadPhase[thread := Waiting];
        r := Suspended;
      }
      st := s';
      assert Enabled(old(st), a) && st == Do(old(st), a) && Position(old(st).waiters, thread, flag, priority, at);
    }

    /** The last section of rt_event_recv, after the thread was resumed: a woken thread returns what
        the send told it. */
    method ReturnSection(thread: int) returns (r: Outcome)
      requires Valid() && thread in threadPhase && threadPhase[thread].Resumed?
      modifies this
      ensures st == Do(old(st), Return(thread))
      ensures threadPhase == old(threadPhase)[thread := Idle] && eventSet == old(eventSet)
      ensures suspendThread == old(suspendThread) && threadWish == old(threadWish)
      ensures match old(st).phase[thread].error
              case Ok => thread in old(st).reported && r == Received(old(st).reported[thread])
              case Failed => r == Error
              case TimedOut => r == TimeOut
      ensures Valid()
    {
      if threadPhase[thread].error == Ok { ToldNow(st, thread); }
      StepKeeps(st, Return(thread));
      hide Inv;
      match threadPhase[thread].error {
        case Ok => r := Received(threadWish[thread].mask);
        case Failed => r := Error;
        case TimedOut => r := TimeOut;
      }
      threadPhase := threadPhase[thread := Idle];
      st := Do(st, Return(thread));
    }

    /** The thread timer takes a waiter off the list. */
    method TimeoutSection(thread: int)
      requires Valid() && thread in suspendThread
      modifies this
      ensures st == Do(old(st), Timeout(thread)) && Valid()
      ensures thread in old(suspendThread) && suspendThread == Drop(old(suspendThread), thread)
      ensures threadPhase == old(threadPhase)[thread := Resumed(TimedOut)]
      ensures eventSet == old(eventSet) && threadWish == old(threadWish)
    {
      StepKeeps(st, Timeout(thread));
      hide Inv;
      suspendThread := Drop(suspendThread, thread);
      threadPhase := threadPhase[thread := Resumed(TimedOut)];
      st := Do(st, Timeout(thread));
    }

    /** rt_event_control with RT_IPC_CMD_RESET: everybody is resumed with an error, one by one. */
    method ResetSection()
      requires Valid()
      modifies this
      ensures st == Do(old(st), Reset) && Valid() && suspendThread == [] && eventSet == 0
      ensures threadWish == old(threadWish) && threadPhase.Keys == old(threadPhase).Keys
      ensures forall t :: t in threadPhase ==>
                threadPhase[t] == if t in old(suspendThread) then Resumed(Failed) else old(threadPhase)[t]
    {
      StepKeeps(st, Reset);
      hide Inv;
      WaitersKnown(st);
      ghost var k := 0;
      while suspendThread != []
        invariant k <= |st.waiters| && suspendThread == st.waiters[k..]
        invariant threadPhase == AllFailed(st.phase, st.waiters[..k])
        invariant st == old(st) && threadWish == old(threadWish)
        decreases |suspendThread|
      {
        var thread := suspendThread[0];
        assert st.waiters[..k + 1] == st.waiters[..k] + [thread];
        threadPhase := threadPhase[thread := Resumed(Failed)];
        suspendThread := suspendThread[1..];
        k := k + 1;
      }
      assert st.waiters[..k] == st.waiters;
      eventSet := 0;
      st := Do(st, Reset);
    }
  }

  lemma RecvBits(bits: bv32, mask: bv32, option: bv8)
    ensures Satisfied(bits, Wish(mask, option)) <==> Hit(bits, mask, option)
    ensures Both(bits, mask) == Found(bits, mask)
    ensures Uncleared(bits, mask, option) == if Has(option, CLEAR) then Minus(bits, mask) else bits
  {
    SatisfiedBits(bits, Wish(mask, option));
    ModeBits(option);
    hide Satisfied, Hit;
  }

  /** What a send does to thread k of the list, by the bits it met: woken, it has its report and is off the list;
      otherwise nothing has happened to it. */
  ghost predicate WakesUp(start: bv32, wish: map<int, Wish>, list: seq<int>, k: nat, list': seq<int>,
      wish': map<int, Wish>, phase': map<int, Phase>)
    requires k < |list|
  {
    var t, now := list[k], AtTurn(start, wish, list, k);
    && t in wish && t in wish' && t in phase' && wish'[t].option == wish[t].option
    && if Hit(now, wish[t].mask, wish[t].option) then
         t !in list' && phase'[t] == Resumed(Ok) && wish'[t].mask == Found(now, wish[t].mask)
       else
         t in list' && phase'[t] == Waiting && wish'[t] == wish[t]
  }

  ghost predicate SomeLeft(list: seq<int>, list': seq<int>) {
    exists t :: t in list && t !in list'
  }

  /** What a send that starts with the bits start does to all threads: each of the list is woken or left waiting by the
      bits it met, those that stay keep their order, and nobody else is touched. */
  ghost predicate SentTo(start: bv32, list: seq<int>, wish: map<int, Wish>, phase: map<int, Phase>,
      bits': bv32, list': seq<int>, wish': map<int, Wish>, phase': map<int, Phase>) {
    && bits' == AtTurn(start, wish, list, |list|)
    && (forall k: nat {:trigger list[k]} :: k < |list| ==> WakesUp(start, wish, list, k, list', wish', phase'))
    && (forall t :: t !in list ==>
          && (t in phase' <==> t in phase) && (t in phase' ==> phase'[t] == phase[t])
          && (t in wish' <==> t in wish) && (t in wish' ==> wish'[t] == wish[t]))
    && (forall i, j :: 0 <= i < j < |list'| ==> InOrder(list, list'[i], list'[j]))
  }

  predicate InOrder(list: seq<int>, x: int, y: int) {
    x in list && y in list && Index(list, x) < Index(list, y)
  }

  lemma SendEffects(s: Ev, set_: bv32)
    requires Inv(s) && set_ != 0
    ensures var s' := Do(s, Send(set_));
              SentTo(With(s.bits, set_), s.waiters, s.wish, s.phase, s'.bits, s'.waiters, s'.wish, s'.phase)
              && (Sent(s, set_).woken != [] <==> SomeLeft(s.waiters, s'.waiters))
  {
    hide Satisfied, Turns, Hit, Found, Report;
    var s', w, start := Do(s, Send(set_)), Sent(s, set_), Union(s.bits, set_);
    assert With(s.bits, set_) == start;
    assert s.waiters[..|s.waiters|] == s.waiters;
    WalkParts(start, s.wish, s.waiters);
    forall k: nat | k < |s.waiters|
      ensures WakesUp(start, s.wish, s.waiters, k, s'.waiters, s'.wish, s'.phase)
    {
      assert Waits(s, s.waiters[k]);
      WokenBits(start, s.wish, s.waiters, k);
    }
    forall i, j | 0 <= i < j < |s'.waiters|
      ensures InOrder(s.waiters, s'.waiters[i], s'.waiters[j])
    {
      KeptInOrder(start, s.wish, s.waiters, i, j);
    }
    Leaving(w.woken, w.kept, s.waiters);
  }

  lemma Leaving(woken: seq<int>, kept: seq<int>, list: seq<int>)
    requires (forall t :: t in list <==> t in kept || t in woken) && forall t :: t in kept ==> t !in woken
    ensures woken != [] <==> SomeLeft(list, kept)
  {
    if woken != [] {
      var x := woken[0];
      assert x in woken;
      assert x in list;
      assert x !in kept;
    }
    if t :| t in list && t !in kept { assert t in woken; }
  }

  lemma WaitersKnown(s: Ev)
    requires Inv(s)
    ensures forall i :: 0 <= i < |s.waiters| ==> s.waiters[i] in s.phase
    ensures AllFailed(s.phase, s.waiters[..0]) == s.phase
  {
    assert forall i :: 0 <= i < |s.waiters| ==> Waits(s, s.waiters[i]);
  }

  /** rt_event_send after k threads: the list holds those that stay and those still to be looked at,
      and n stands between them. */
  ghost predicate Midway(s: Ev, start: bv32, k: nat, w: Walk, bits: bv32, list: seq<int>, n: nat,
      wish: map<int, Wish>, phase: map<int, Phase>) {
    && k <= |s.waiters| && w == Turns(start, s.wish, s.waiters[..k])
    && bits == w.bits && n == |w.kept| && list == w.kept + s.waiters[k..]
    && wish == Recorded(s.wish, w.reports) && phase == ResumedBy(s.phase, w.reports)
  }

  lemma Start(s: Ev, start: bv32)
    ensures Midway(s, start, 0, Walk(start, [], [], map[]), start, s.waiters, 0, s.wish, s.phase)
  {
    assert Recorded(s.wish, map[]) == s.wish && ResumedBy(s.phase, map[]) == s.phase;
  }

  /** The thread at place n is thread k of the list at the beginning, still untouched. */
  lemma NextThread(s: Ev, start: bv32, k: nat, w: Walk, bits: bv32, list: seq<int>, n: nat, wish: map<int, Wish>,
      phase: map<int, Phase>)
    requires Inv(s) && Midway(s, start, k, w, bits, list, n, wish, phase) && n < |list|
    ensures k < |s.waiters| && list[n] == s.waiters[k] && list[n] in s.phase
    ensures list[n] in wish && list[n] in s.wish && wish[list[n]] == s.wish[list[n]] && list[n] !in w.reports
    ensures Turns(start, s.wish, s.waiters[..k + 1]) == Turn(w, s.wish, list[n])
    ensures list[..n] == w.kept && list[n + 1..] == s.waiters[k + 1..]
    ensures list == w.kept + [list[n]] + s.waiters[k + 1..]
  {
    hide Turn, Satisfied;
    var t := list[n];
    assert t == s.waiters[k];
    assert Waits(s, s.waiters[k]);
    var front := s.waiters[..k];
    assert s.waiters[..k + 1][..k] == front;
    WalkParts(start, s.wish, front);
    assert t !in front;
  }

  /** One round of the loop, for the walk and for the fields of the threads. */
  lemma TurnCases(s: Ev, w: Walk, t: int, wish: map<int, Wish>, phase: map<int, Phase>)
    requires t in s.wish && t in wish && wish[t] == s.wish[t] && t in s.phase
    requires wish == Recorded(s.wish, w.reports) && phase == ResumedBy(s.phase, w.reports)
    ensures var w', r := Turn(w, s.wish, t), Report(w.bits, wish[t]);
            if Satisfied(w.bits, wish[t]) then
              && w'.bits == Minus(w.bits, Cleared(w.bits, wish[t])) && w'.kept == w.kept && w'.woken == w.woken + [t]
              && Recorded(s.wish, w'.reports) == wish[t := wish[t].(mask := r)]
              && ResumedBy(s.phase, w'.reports) == phase[t := Resumed(Ok)]
            else
              w'.bits == w.bits && w'.kept == w.kept + [t] && w'.woken == w.woken && w'.reports == w.reports
  {
    hide Satisfied, Report, Cleared, Minus;
  }

  lemma Round(s: Ev, start: bv32, k: nat, w: Walk, bits: bv32, list: seq<int>, n: nat, wish: map<int, Wish>,
      phase: map<int, Phase>)
    requires Inv(s) && Midway(s, start, k, w, bits, list, n, wish, phase) && n < |list|
    ensures k < |s.waiters| && list[n] in wish
    ensures var t, w' := list[n], Turn(w, s.wish, list[n]);
            if Satisfied(bits, wish[t]) then
              w'.woken != []
              && Midway(s, start, k + 1, w', Minus(bits, Cleared(bits, wish[t])), list[..n] + list[n + 1..], n,
                        wish[t := wish[t].(mask := Report(bits, wish[t]))], phase[t := Resumed(Ok)])
            else
              w'.woken == w.woken && Midway(s, start, k + 1, w', bits, list, n + 1, wish, phase)
  {
    NextThread(s, start, k, w, bits, list, n, wish, phase);
    TurnCases(s, w, list[n], wish, phase);
    hide Inv, Turn, Turns, Satisfied, Report, Cleared, Minus, Recorded, ResumedBy;
  }

  lemma Finish(s: Ev, set_: bv32, k: nat, w: Walk, bits: bv32, list: seq<int>, n: nat, wish: map<int, Wish>,
      phase: map<int, Phase>)
    requires Midway(s, Union(s.bits, set_), k, w, bits, list, n, wish, phase) && n >= |list| && set_ != 0
    ensures Enabled(s, Send(set_)) && w == Sent(s, set_)
    ensures var s' := Do(s, Send(set_)); s'.bits == bits && s'.waiters == list && s'.wish == wish && s'.phase == phase
  {
    hide Turns, Recorded, ResumedBy, Union;
    assert s.waiters[..k] == s.waiters;
  }
}
