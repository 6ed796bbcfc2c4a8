/** ipc.c: the event object as a state machine over the sections that run with interrupts off. */
module EventProtocol {
  import opened Rings
  import opened Words
  import opened EventTurns

  /** Why a suspended thread runs again: thread->error */
  datatype Error = Ok | Failed | TimedOut

  datatype Phase = Idle | Waiting | Resumed(error: Error)

  /** wish holds event_set and event_info of the threads; reported what the last send told each thread. */
  datatype Ev = Ev(bits: bv32, waiters: seq<int>, wish: map<int, Wish>, phase: map<int, Phase>,
      reported: map<int, bv32>)

  datatype Step =
    | Send(set_: bv32)
    | Recv(t: int, mask: bv32, option: bv8, wait: bool, at: nat)
    | Timeout(t: int)
    | Reset
    | Return(t: int)

  predicate Mode(option: bv8) {
    Has(option, AND) || Has(option, OR)
  }

  // ---------------------------------------------------------------- invariant

  /** A suspended thread waits for something, and its condition does not hold. */
  ghost predicate Waits(s: Ev, t: int) {
    && t in s.phase && s.phase[t] == Waiting
    && t in s.wish && s.wish[t].mask != 0 && Mode(s.wish[t].option) && !Satisfied(s.bits, s.wish[t])
  }

  /** A thread woken by a send still has what that send told it: at least one bit. */
  ghost predicate Told(s: Ev, t: int) {
    t in s.reported && t in s.wish && s.wish[t].mask == s.reported[t] && s.reported[t] != 0
  }

  ghost predicate Inv(s: Ev) {
    && NoDup(s.waiters)
    && (forall i :: 0 <= i < |s.waiters| ==> Waits(s, s.waiters[i]))
    && (forall t :: t in s.phase && s.phase[t] == Waiting ==> t in s.waiters)
    && (forall t :: t in s.phase && s.phase[t] == Resumed(Ok) ==> Told(s, t))
  }

  // -------------------------------------------------------------------- steps

  /** A suspended thread does nothing until it is resumed; one of the two modes is given. */
  ghost predicate Enabled(s: Ev, a: Step) {
    match a
    case Send(_) => true
    case Recv(t, mask, option, wait, at) => t in s.phase && s.phase[t] == Idle && Mode(option) && at <= |s.waiters|
    case Timeout(t) => t in s.waiters
    case Reset => true
    case Return(t) => t in s.phase && s.phase[t].Resumed?
  }

  /** A woken thread keeps its report in event_set. */
  function Recorded(wish: map<int, Wish>, reports: map<int, bv32>): map<int, Wish> {
    map t | t in wish :: if t in reports then wish[t].(mask := reports[t]) else wish[t]
  }

  function ResumedBy(phase: map<int, Phase>, reports: map<int, bv32>): map<int, Phase> {
    map t | t in phase :: if t in reports then Resumed(Ok) else phase[t]
  }

  function AllFailed(phase: map<int, Phase>, waiters: seq<int>): map<int, Phase> {
    map t | t in phase :: if t in waiters then Resumed(Failed) else phase[t]
  }

  function Sent(s: Ev, set_: bv32): Walk {
    Turns(Union(s.bits, set_), s.wish, s.waiters)
  }

  function Do(s: Ev, a: Step): Ev
    requires Enabled(s, a)
  {
    match a
    case Send(set_) =>
      if set_ == 0 then s
      else
        var w := Sent(s, set_);
        Ev(w.bits, w.kept, Recorded(s.wish, w.reports), ResumedBy(s.phase, w.reports), s.reported + w.reports)
    case Recv(t, mask, option, wait, at) =>
      var w := Wish(mask, option);
      if mask == 0 then s
      else if Satisfied(s.bits, w) then
        if Has(option, CLEAR) then s.(bits := Minus(s.bits, mask)) else s
      else if !wait then s
      else s.(waiters := InsertAt(s.waiters, at, t), wish := s.wish[t := w], phase := s.phase[t := Waiting])
    case Timeout(t) =>
      s.(waiters := Drop(s.waiters, t), phase := s.phase[t := Resumed(TimedOut)])
    case Reset =>
      s.(waiters := [], phase := AllFailed(s.phase, s.waiters), bits := 0)
    case Return(t) =>
      s.(phase := s.phase[t := Idle])
  }

  // -------------------------------------------------- the invariant is inductive

  lemma KeptWaits(s: Ev, set_: bv32, t: int)
    requires Inv(s) && t in Sent(s, set_).kept
    ensures t in s.waiters && t !in Sent(s, set_).reports && Waits(s, t)
    ensures t in s.wish && !Satisfied(Sent(s, set_).bits, s.wish[t])
  {
    hide Satisfied, Turns;
    WalkParts(Union(s.bits, set_), s.wish, s.waiters);
    assert t in s.waiters;
    var k := Index(s.waiters, t);
    assert Waits(s, s.waiters[k]);
    KeptUnsatisfied(Union(s.bits, set_), s.wish, s.waiters, k);
  }

  lemma WokenTold(s: Ev, set_: bv32, t: int)
    requires Inv(s) && t in Sent(s, set_).reports
    ensures t in s.waiters && t in s.wish && Sent(s, set_).reports[t] != 0 && Waits(s, t)
  {
    hide Satisfied, Turns, Report;
    var b := Union(s.bits, set_);
    WalkParts(b, s.wish, s.waiters);
    assert t in s.waiters;
    var k := Index(s.waiters, t);
    assert Waits(s, s.waiters[k]);
    WokenAtTurn(b, s.wish, s.waiters, k);
    ReportExact(AtTurn(b, s.wish, s.waiters, k), s.wish[t]);
  }

  lemma SendKeeps(s: Ev, set_: bv32)
    requires Inv(s) && set_ != 0
    ensures Inv(Do(s, Send(set_)))
  {
    hide Satisfied, Sent;
    var w, s' := Sent(s, set_), Do(s, Send(set_));
    SentParts(s, set_);
    forall i | 0 <= i < |s'.waiters|
      ensures Waits(s', s'.waiters[i])
    {
      KeptWaits(s, set_, s'.waiters[i]);
    }
    forall t | t in s'.phase && s'.phase[t] == Resumed(Ok)
      ensures Told(s', t)
    {
      if t in w.reports {
        WokenTold(s, set_, t);
      } else {
        assert Told(s, t);
      }
    }
  }

  lemma SentParts(s: Ev, set_: bv32)
    requires NoDup(s.waiters)
    ensures var w := Sent(s, set_); NoDup(w.kept) && forall t :: t in s.waiters ==> t in w.kept || t in w.reports
  {
    WalkParts(Union(s.bits, set_), s.wish, s.waiters);
  }

  lemma ListedWaits(s: Ev, t: int)
    requires Inv(s)
    ensures t in s.waiters ==> Waits(s, t)
  {
    if t in s.waiters { assert Waits(s, s.waiters[Index(s.waiters, t)]); }
  }

  lemma RecvKeeps(s: Ev, t: int, mask: bv32, option: bv8, wait: bool, at: nat)
    requires Inv(s) && Enabled(s, Recv(t, mask, option, wait, at))
    ensures Inv(Do(s, Recv(t, mask, option, wait, at)))
  {
    hide Satisfied, Has, Minus;
    var s' := Do(s, Recv(t, mask, option, wait, at));
    if mask != 0 && Satisfied(s.bits, Wish(mask, option)) && Has(option, CLEAR) {
      MinusWithin(s.bits, mask);
      forall i | 0 <= i < |s'.waiters|
        ensures Waits(s', s'.waiters[i])
      {
        assert Waits(s, s.waiters[i]);
        FewerBits(s.bits, s'.bits, s.wish[s.waiters[i]]);
      }
      assert forall x :: Told(s, x) ==> Told(s', x);
    } else if mask != 0 && !Satisfied(s.bits, Wish(mask, option)) && wait {
      ListedWaits(s, t);
      InsertNoDup(s.waiters, at, t);
      SuspendKeeps(s, s', t, at);
    }
  }

  lemma SuspendKeeps(s: Ev, s': Ev, t: int, at: nat)
    requires Inv(s) && t !in s.waiters && at <= |s.waiters| && s'.waiters == InsertAt(s.waiters, at, t)
             && NoDup(s'.waiters)
    requires s'.bits == s.bits && s'.reported == s.reported && s'.phase == s.phase[t := Waiting]
    requires t in s'.wish && s'.wish == s.wish[t := s'.wish[t]] && Waits(s', t)
    ensures Inv(s')
  {
    hide Satisfied, Mode;
    forall i | 0 <= i < |s'.waiters|
      ensures Waits(s', s'.waiters[i])
    {
      if i != at {
        var j := if i < at then i else i - 1;
        assert s'.waiters[i] == s.waiters[j];
        assert Waits(s, s.waiters[j]);
      }
    }
    forall x | x in s'.phase && s'.phase[x] == Waiting
      ensures x in s'.waiters
    {
      if x != t {
        var j := Index(s.waiters, x);
        assert s'.waiters[if j < at then j else j + 1] == x;
      } else {
        assert s'.waiters[at] == t;
      }
    }
    forall x | x in s'.phase && s'.phase[x] == Resumed(Ok)
      ensures Told(s', x)
    {
      assert Told(s, x);
    }
  }

  lemma OthersKeep(s: Ev, a: Step)
    requires Inv(s) && Enabled(s, a) && (a.Timeout? || a.Reset? || a.Return?)
    ensures Inv(Do(s, a))
  {
    hide Satisfied, Mode;
    var s' := Do(s, a);
    if a.Timeout? { DropElements(s.waiters, a.t); }
    forall i | 0 <= i < |s'.waiters|
      ensures Waits(s', s'.waiters[i])
    {
      var t := s'.waiters[i];
      assert t in s.waiters;
      assert Waits(s, s.waiters[Index(s.waiters, t)]);
    }
    forall t | t in s'.phase && s'.phase[t] == Resumed(Ok)
      ensures Told(s', t)
    {
      assert Told(s, t);
    }
  }

  lemma StepKeeps(s: Ev, a: Step)
    requires Inv(s) && Enabled(s, a)
    ensures Inv(Do(s, a))
  {
    hide Inv;
    match a {
      case Send(set_) => if set_ != 0 { SendKeeps(s, set_); }
      case Recv(t, mask, option, wait, at) => RecvKeeps(s, t, mask, option, wait, at);
      case _ => OthersKeep(s, a);
    }
  }

  // --------------------------------------------------------------- whole runs

  function Fresh(threads: set<int>): Ev {
    Ev(0, [], map[], map t | t in threads :: Idle, map[])
  }

  ghost predicate Run(s: Ev, steps: seq<Step>, s': Ev)
    decreases |steps|
  {
    if steps == [] then s' == s
    else Enabled(s, steps[0]) && Run(Do(s, steps[0]), steps[1..], s')
  }

  lemma {:induction false} RunsInv(s: Ev, steps: seq<Step>, s': Ev)
    requires Inv(s) && Run(s, steps, s')
    ensures Inv(s')
    decreases |steps|
  {
    hide Inv, Do, Enabled;
    if steps != [] {
      StepKeeps(s, steps[0]);
      RunsInv(Do(s, steps[0]), steps[1..], s');
    }
  }

  /** In every state that any interleaving reaches, no suspended thread has a satisfied condition. */
  lemma NobodyWaitsInVain(threads: set<int>, steps: seq<Step>, s: Ev, t: int)
    requires Run(Fresh(threads), steps, s) && t in s.phase && s.phase[t] == Waiting
    ensures t in s.wish
    ensures Missing(s.bits, s.wish[t].mask, s.wish[t].option)
  {
    RunsInv(Fresh(threads), steps, s);
    hide Satisfied, Run, Mode, Hit, Missing;
    ListedWaits(s, t);
    WishBits(s.bits, s.wish[t]);
    Unhit(s.bits, s.wish[t].mask, s.wish[t].option);
  }

  /** What a thread waits for, in bits, is not there: not all bits with AND, none with OR alone. */
  predicate Missing(bits: bv32, mask: bv32, option: bv8) {
    && mask != 0 && option & 3 != 0
    && (option & 1 != 0 ==> mask & bits != mask) && (option & 1 == 0 ==> mask & bits == 0)
  }

  lemma Unhit(bits: bv32, mask: bv32, option: bv8)
    requires !Hit(bits, mask, option) && Mode(option) && mask != 0
    ensures Missing(bits, mask, option)
  {
    ModeIs(option);
    hide Mode;
  }

  lemma ModeIs(option: bv8)
    ensures Mode(option) <==> option & 3 != 0
    ensures option & 3 != 0 && option & 1 == 0 ==> option & 2 != 0
  {
    ModeBits(option);
    hide Has;
  }

  /** From a send that wakes t until t returns, no step of any other thread changes what t reports. */
  lemma {:induction false} ReportStays(s: Ev, steps: seq<Step>, s': Ev, t: int)
    requires Inv(s) && Run(s, steps, s') && t in s.phase && s.phase[t] == Resumed(Ok)
    requires Return(t) !in steps
    ensures t in s.wish && t in s'.wish && s'.wish[t] == s.wish[t]
    ensures t in s'.phase && s'.phase[t] == Resumed(Ok)
    decreases |steps|
  {
    hide Inv;
    ToldNow(s, t);
    if steps != [] {
      StepKeeps(s, steps[0]);
      assert steps[0] != Return(t);
      ReportStep(s, steps[0], t);
      ReportStays(Do(s, steps[0]), steps[1..], s', t);
    }
  }

  lemma ToldNow(s: Ev, t: int)
    requires Inv(s) && t in s.phase && s.phase[t] == Resumed(Ok)
    ensures Told(s, t) && t in s.wish && t !in s.waiters
  {
    ListedWaits(s, t);
  }

  lemma ReportStep(s: Ev, a: Step, t: int)
    requires Inv(s) && Enabled(s, a) && t in s.phase && s.phase[t] == Resumed(Ok) && a != Return(t)
    ensures var s' := Do(s, a);
              t in s.wish && t in s'.wish && s'.wish[t] == s.wish[t] && t in s'.phase
              && s'.phase[t] == Resumed(Ok)
  {
    hide Satisfied, Turns;
    ToldNow(s, t);
    if a.Send? && t in Sent(s, a.set_).reports { WokenTold(s, a.set_, t); }
  }
}
