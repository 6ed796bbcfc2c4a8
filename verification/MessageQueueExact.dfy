/** ipc.c: what each section on a message queue does to messages, nodes and threads. */
module MessageQueueExact {
  import opened Options
  import opened Rings
  import opened MessageQueueProtocol
  import opened MessageQueueLaws

  // ------------------------------------------------------------------ messages

  /** Filling a node writes the bytes of the buffer at its beginning, and nothing else anywhere. */
  lemma FillExact(s: Mq, t: int, b: Bytes)
    requires Inv(s) && Enabled(s, Fill(t, b))
    ensures var s', n := Do(s, Fill(t, b)), s.pc[t].node;
            && n in s.slot && |s.slot[n]| == s.msgSize
            && s'.slot.Keys == s.slot.Keys && s'.slot[n][..|b|] == b && s'.slot[n][|b|..] == s.slot[n][|b|..]
            && (forall x :: x in s.slot && x != n ==> s'.slot[x] == s.slot[x])
            && PcOf(s', t) == Sending(n, s.pc[t].urgent, Some(b))
            && s'.queue == s.queue && s'.free == s.free && s'.msgs == s.msgs && s'.delivered == s.delivered
  {
    hide Listed, Awake, OnceEach, Content;
    assert HeldNode(s.pc[t]) == Some(s.pc[t].node) && NodeInPlace(s, s.pc[t].node);
  }

  /** Linking sends what was filled in, under the next ticket: at the head of the queue when it is urgent, at its end
      otherwise. The receiver that is first in the list is resumed. */
  lemma LinkExact(s: Mq, t: int)
    requires Inv(s) && Enabled(s, Link(t))
    ensures var s', p := Do(s, Link(t)), s.pc[t];
            var e := Entry(p.node, |s.msgs|);
            && s'.msgs == s.msgs + [p.filled.value]
            && s'.queue == (if p.urgent then [e] + s.queue else s.queue + [e])
            && s'.slot == s.slot && s'.free == s.free && s'.delivered == s.delivered && s'.dropped == s.dropped
            && s'.sendWait == s.sendWait
            && (s.recvWait == [] ==> s'.recvWait == [] && s'.pc == s.pc[t := Idle])
            && (s.recvWait != [] ==>
                  s'.recvWait == s.recvWait[1..] && s'.pc == s.pc[t := Idle][s.recvWait[0] := RecvWoken])
  {
    hide Inv;
  }

  /** An urgent message is the next one received. */
  lemma UrgentIsNext(s: Mq, t: int, u: int)
    requires Inv(s) && Enabled(s, Link(t)) && s.pc[t].urgent
    requires var s' := Do(s, Link(t)); Inv(s') && Enabled(s', RecvTake(u))
    ensures PcOf(Do(Do(s, Link(t)), RecvTake(u)), u) == Receiving(s.pc[t].node, |s.msgs|)
  {
    LinkExact(s, t);
    TakeExact(Do(s, Link(t)), u);
    hide Inv, Do;
  }

  /** Receiving takes the head of the queue, and counts its ticket as delivered. */
  lemma TakeExact(s: Mq, t: int)
    requires Inv(s) && Enabled(s, RecvTake(t))
    ensures var s', e := Do(s, RecvTake(t)), s.queue[0];
            && s'.queue == s.queue[1..] && s'.delivered == s.delivered + [e.ticket]
            && s'.pc == s.pc[t := Receiving(e.node, e.ticket)] && s'.slot == s.slot && s'.msgs == s.msgs
            && s'.free == s.free && s'.recvWait == s.recvWait && s'.sendWait == s.sendWait && s'.dropped == s.dropped
  {
    hide Inv;
  }

  /** What a thread has filled in stays as it is until the thread links it, whatever the other threads do. */
  lemma {:induction false} FilledStays(s: Mq, t: int, steps: seq<Step>, s': Mq)
    requires Inv(s) && Run(s, steps, s') && PcOf(s, t).Sending? && forall a :: a in steps ==> a.Reset? || a.t != t
    ensures PcOf(s', t) == PcOf(s, t)
    decreases |steps|
  {
    hide Inv, Do, Enabled;
    if steps != [] {
      StepKeeps(s, steps[0]);
      assert steps[0] in steps && (forall a :: a in steps[1..] ==> a in steps);
      OtherStep(s, steps[0], t);
      FilledStays(Do(s, steps[0]), t, steps[1..], s');
    }
  }

  lemma OtherStep(s: Mq, a: Step, t: int)
    requires Inv(s) && Enabled(s, a) && PcOf(s, t).Sending? && (a.Reset? || a.t != t)
    ensures PcOf(Do(s, a), t) == PcOf(s, t)
  {
    hide Partitioned, Awake, OnceEach, Content;
    if s.recvWait != [] { assert s.recvWait[0] in s.recvWait; }
    if s.sendWait != [] { assert s.sendWait[0] in s.sendWait; }
  }

  /** The bytes handed to a send are the message that is recorded when it is linked, whatever happens in between. */
  lemma SentAsGiven(s: Mq, t: int, b: Bytes, steps: seq<Step>, s': Mq)
    requires Inv(s) && Enabled(s, Fill(t, b)) && Inv(Do(s, Fill(t, b))) && Run(Do(s, Fill(t, b)), steps, s')
    requires Inv(s') && Enabled(s', Link(t)) && forall a :: a in steps ==> a.Reset? || a.t != t
    ensures Do(s', Link(t)).msgs == s'.msgs + [b]
  {
    FillExact(s, t, b);
    FilledStays(Do(s, Fill(t, b)), t, steps, s');
    LinkExact(s', t);
    hide Inv, Do, Enabled;
  }

  /** From there on, whoever receives that ticket copies these bytes, after any run. */
  lemma ReceivedAsGiven(s: Mq, t: int, b: Bytes, steps: seq<Step>, s': Mq, u: int, size: nat)
    requires Inv(s) && Enabled(s, Link(t)) && s.pc[t].filled == Some(b)
    requires Inv(Do(s, Link(t))) && Run(Do(s, Link(t)), steps, s')
    requires PcOf(s', u).Receiving? && PcOf(s', u).ticket == |s.msgs|
    ensures var n := PcOf(s', u).node; n in s'.slot && |b| <= |s'.slot[n]|
                                       && s'.slot[n][..Min(size, |b|)] == b[..Min(size, |b|)]
  {
    LinkExact(s, t);
    RunsKeep(Do(s, Link(t)), steps, s');
    ReceivedIsSent(s', u, size);
    assert s'.msgs[|s.msgs|] == b;
    hide Inv, Do, Enabled;
  }

  // --------------------------------------------------------------- nodes, threads

  /** A sender takes the first free node. */
  lemma GrabExact(s: Mq, t: int, urgent: bool)
    requires Inv(s) && Enabled(s, Grab(t, urgent))
    ensures var s' := Do(s, Grab(t, urgent));
            && s'.free == s.free[1..] && s'.pc == s.pc[t := Sending(s.free[0], urgent, None)] && s'.queue == s.queue
            && s'.recvWait == s.recvWait && s'.sendWait == s.sendWait && s'.msgs == s.msgs && s'.slot == s.slot
            && s'.delivered == s.delivered && s'.dropped == s.dropped
  {
    hide Inv;
  }

  /** A receiver gives its node back to the head of the free list, and the sender that is first in the list is
      resumed. */
  lemma PutExact(s: Mq, t: int)
    requires Inv(s) && Enabled(s, RecvPut(t))
    ensures var s' := Do(s, RecvPut(t));
            && s'.free == [s.pc[t].node] + s.free && s'.queue == s.queue && s'.msgs == s.msgs && s'.slot == s.slot
            && s'.delivered == s.delivered && s'.dropped == s.dropped && s'.recvWait == s.recvWait
            && (s.sendWait == [] ==> s'.sendWait == [] && s'.pc == s.pc[t := Idle])
            && (s.sendWait != [] ==>
                  s'.sendWait == s.sendWait[1..] && s'.pc == s.pc[t := Idle][s.sendWait[0] := SendWoken])
  {
    hide Inv;
  }

  /** Waiting, giving up and timing out touch one list and the thread that does it. */
  lemma WaitExact(s: Mq, a: Step)
    requires Inv(s) && Enabled(s, a)
    requires a.RecvWait? || a.SendWait? || a.RecvGiveUp? || a.SendGiveUp? || a.Timeout?
    ensures var s' := Do(s, a);
            && s'.free == s.free && s'.queue == s.queue && s'.msgs == s.msgs && s'.slot == s.slot
            && s'.delivered == s.delivered && s'.dropped == s.dropped && s'.holder == s.holder
            && s'.pc == s.pc[a.t := if a.RecvWait? then RecvBlocked else if a.SendWait? then SendBlocked else Idle]
            && s'.recvWait == (if a.RecvWait? then InsertAt(s.recvWait, a.at, a.t)
                               else if a.Timeout? && a.t in s.recvWait then Drop(s.recvWait, a.t) else s.recvWait)
            && s'.sendWait == (if a.SendWait? then InsertAt(s.sendWait, a.at, a.t)
                               else if a.Timeout? && a.t in s.sendWait then Drop(s.sendWait, a.t) else s.sendWait)
  {
    hide Partitioned, Awake, OnceEach, Content;
  }

  /** A reset sends everybody home who waits, and nobody else; the nodes of the queue are free, and its messages
      lost. */
  lemma ResetExact(s: Mq)
    requires Inv(s)
    ensures var s' := Do(s, Reset);
            && s'.queue == [] && s'.recvWait == [] && s'.sendWait == [] && s'.pc.Keys == s.pc.Keys
            && (forall t :: t in s.pc ==> s'.pc[t] == if t in s.recvWait || t in s.sendWait then Idle else s.pc[t])
            && (forall n :: n in s'.free <==> n in s.free || n in Nodes(s.queue))
            && |s'.free| == |s.free| + |s.queue|
            && s'.dropped == s.dropped + multiset(Tickets(s.queue)) && s'.delivered == s.delivered && s'.msgs == s.msgs
            && s'.slot == s.slot && s'.holder == s.holder
  {
    hide Inv;
    ReversedElements(Nodes(s.queue));
  }

  lemma {:induction false} ReversedElements(s: seq<int>)
    ensures |Reversed(s)| == |s| && forall x :: x in Reversed(s) <==> x in s
  {
    if s != [] {
      ReversedElements(s[1..]);
      assert s == [s[0]] + s[1..];
    }
  }
}
