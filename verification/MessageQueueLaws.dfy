/** What holds of a message queue after any interleaving of its users. */
module MessageQueueLaws {
  import opened Options
  import opened Rings
  import opened Threads
  import opened MessageQueueProtocol

  /** A queue right after rt_mq_init or rt_mq_create. */
  function Fresh(msgSize: nat, slot: map<int, Bytes>, free: seq<int>): Mq {
    Mq(msgSize, slot, free, [], map[], [], [], map[], [], [], multiset{})
  }

  lemma FreshInv(msgSize: nat, slot: map<int, Bytes>, free: seq<int>)
    requires NoDup(free) && (forall n :: n in free <==> n in slot) && forall n :: n in slot ==> |slot[n]| == msgSize
    ensures Inv(Fresh(msgSize, slot, free))
  {
    var s := Fresh(msgSize, slot, free);
    forall n
      ensures NodeInPlace(s, n)
    {
    }
  }

  ghost predicate Run(s: Mq, steps: seq<Step>, s': Mq)
    requires Inv(s)
    decreases |steps|
  {
    if steps == [] then s' == s
    else Enabled(s, steps[0]) && (StepKeeps(s, steps[0]); Run(Do(s, steps[0]), steps[1..], s'))
  }

  /** Over every interleaving: the nodes stay partitioned, every message stays accounted for,
      and no waiter sleeps past what the woken threads leave over. */
  lemma {:induction false} RunsKeep(s: Mq, steps: seq<Step>, s': Mq)
    requires Inv(s) && Run(s, steps, s')
    ensures Inv(s') && s'.slot.Keys == s.slot.Keys && s.msgs <= s'.msgs && s.delivered <= s'.delivered
    decreases |steps|
  {
    hide Inv, Enabled;
    if steps != [] {
      StepKeeps(s, steps[0]);
      Monotone(s, steps[0]);
      RunsKeep(Do(s, steps[0]), steps[1..], s');
    }
  }

  /** No step adds or loses a node, rewrites a sent message or takes back a delivery. */
  lemma Monotone(s: Mq, a: Step)
    requires Inv(s) && Enabled(s, a)
    ensures var s' := Do(s, a); s'.slot.Keys == s.slot.Keys && s.msgs <= s'.msgs && s.delivered <= s'.delivered
  {
    hide Listed, Awake, OnceEach, Content;
    if a.Fill? { assert HeldNode(s.pc[a.t]) == Some(s.pc[a.t].node) && NodeInPlace(s, s.pc[a.t].node); }
  }

  // -------------------------------------------------------------- exactly once

  lemma {:induction false} UptoCounts(n: nat, k: nat)
    ensures Upto(n)[k] == if k < n then 1 else 0
  {
    if n > 0 { UptoCounts(n - 1, k); }
  }

  /** A message is in exactly one of three places, and there once. */
  lemma ReceivedOnce(s: Mq, k: nat)
    requires Inv(s)
    ensures multiset(s.delivered)[k] + s.dropped[k] + multiset(Tickets(s.queue))[k] == if k < |s.msgs| then 1 else 0
  {
    UptoCounts(|s.msgs|, k);
    assert (multiset(s.delivered) + s.dropped + multiset(Tickets(s.queue)))[k] == Upto(|s.msgs|)[k];
  }

  /** A receiver that copies its node gets the bytes that were sent under its ticket. */
  lemma ReceivedIsSent(s: Mq, t: int, size: nat)
    requires Inv(s) && PcOf(s, t).Receiving?
    ensures var n, k := PcOf(s, t).node, PcOf(s, t).ticket;
            n in s.slot && |s.slot[n]| == s.msgSize && k < |s.msgs| && |s.msgs[k]| <= s.msgSize
            && s.slot[n][..Min(size, |s.msgs[k]|)] == s.msgs[k][..Min(size, |s.msgs[k]|)]
  {
    assert ThreadContent(s, t);
    assert NodeInPlace(s, s.pc[t].node);
  }

  // ---------------------------------------------------------------- wake-ups

  /** While a receiver sleeps there are at most as many messages as woken receivers, and so for senders and free
      nodes: a receiver that sleeps on a non-empty queue has another one woken for it. */
  lemma NoLostWakeUp(s: Mq)
    requires Inv(s)
    ensures s.recvWait != [] ==> |s.queue| <= |In(s.pc, RecvWoken)|
    ensures s.sendWait != [] ==> |s.free| <= |In(s.pc, SendWoken)|
    ensures s.recvWait != [] && s.queue != [] ==> exists t :: t in s.pc && s.pc[t] == RecvWoken
    ensures s.sendWait != [] && s.free != [] ==> exists t :: t in s.pc && s.pc[t] == SendWoken
  {
    hide Partitioned, Listed, Content, OnceEach;
    if s.recvWait != [] && s.queue != [] { SomeIn(s.pc, RecvWoken); }
    if s.sendWait != [] && s.free != [] { SomeIn(s.pc, SendWoken); }
  }

  lemma NodesSomewhere(s: Mq)
    requires Partitioned(s) && s.slot != map[] && s.holder == map[]
    ensures s.free != [] || s.queue != []
  {
    assert (forall n :: n !in s.slot) ==> s.slot == map[];
    var n :| n in s.slot;
    assert NodeInPlace(s, n);
    assert Nodes([]) == [];
  }

  /** With nobody on the way, receivers and senders are never asleep at the same time. */
  lemma NoDeadlock(s: Mq)
    requires Inv(s) && s.slot != map[] && s.holder == map[]
    requires forall t :: t in s.pc ==> s.pc[t] != RecvWoken && s.pc[t] != SendWoken
    ensures s.recvWait == [] || s.sendWait == []
  {
    hide Partitioned, Listed, Content, OnceEach;
    NodesSomewhere(s);
    NoLostWakeUp(s);
  }

  // -------------------------------------------------------------------- order

  ghost predicate Ascending(s: seq<nat>) {
    forall i, j :: 0 <= i < j < |s| ==> s[i] < s[j]
  }

  ghost predicate Fifo(s: Mq) {
    && Ascending(s.delivered + Tickets(s.queue))
    && (forall k :: k in s.delivered + Tickets(s.queue) ==> k < |s.msgs|)
    && (forall t :: t in s.pc && s.pc[t].Sending? ==> !s.pc[t].urgent)
  }

  lemma FifoTake(s: Mq, t: int)
    requires Inv(s) && Enabled(s, RecvTake(t)) && Fifo(s)
    ensures Fifo(Do(s, RecvTake(t)))
  {
    hide Partitioned, Awake, Content, OnceEach, Listed, Ascending, Tickets;
    HeadDelivered(s.delivered, s.queue);
  }

  /** The first ticket of the queue moves behind those that were delivered. */
  lemma HeadDelivered(d: seq<nat>, q: seq<Entry>)
    requires q != []
    ensures d + [q[0].ticket] + Tickets(q[1..]) == d + Tickets(q)
  {
    assert Tickets(q) == [q[0].ticket] + Tickets(q[1..]);
  }

  lemma FifoLink(s: Mq, t: int)
    requires Inv(s) && Enabled(s, Link(t)) && Fifo(s)
    ensures Fifo(Do(s, Link(t)))
  {
    hide Partitioned, Awake, Content, OnceEach, Listed;
    var s' := Do(s, Link(t));
    NodesAdded(s.queue, Entry(s.pc[t].node, |s.msgs|));
    assert s'.delivered + Tickets(s'.queue) == s.delivered + Tickets(s.queue) + [|s.msgs|];
    assert forall i :: 0 <= i < |s.delivered + Tickets(s.queue)| ==>
           (s.delivered + Tickets(s.queue))[i] in s.delivered + Tickets(s.queue);
  }

  lemma FifoReset(s: Mq)
    requires Inv(s) && Fifo(s)
    ensures Fifo(Do(s, Reset))
  {
    hide Partitioned, Awake, Content, OnceEach, Listed;
    var o, o' := s.delivered + Tickets(s.queue), s.delivered + Tickets([]);
    assert forall i :: 0 <= i < |o'| ==> o'[i] == o[i];
    assert forall k :: k in o' ==> k in o;
  }

  /** Without urgent messages every message is received in the order of linking. */
  lemma FifoStep(s: Mq, a: Step)
    requires Inv(s) && Enabled(s, a) && Fifo(s) && (a.Grab? ==> !a.urgent)
    ensures Fifo(Do(s, a))
  {
    hide Partitioned, Awake, Content, OnceEach, Listed, Ascending;
    match a
    case RecvTake(t) => FifoTake(s, t);
    case Link(t) => FifoLink(s, t);
    case Reset => FifoReset(s);
    case _ =>
      var s' := Do(s, a);
      assert s'.delivered == s.delivered && s'.queue == s.queue && s'.msgs == s.msgs;
  }

  lemma {:induction false} FifoRuns(s: Mq, steps: seq<Step>, s': Mq)
    requires Inv(s) && Fifo(s) && Run(s, steps, s')
    requires forall a :: a in steps && a.Grab? ==> !a.urgent
    ensures Ascending(s'.delivered)
    decreases |steps|
  {
    hide Inv, Enabled;
    if steps != [] {
      assert steps[0] in steps && (forall a :: a in steps[1..] ==> a in steps);
      StepKeeps(s, steps[0]);
      FifoStep(s, steps[0]);
      FifoRuns(Do(s, steps[0]), steps[1..], s');
    } else {
      var d := s.delivered;
      assert forall i :: 0 <= i < |d| ==> d[i] == (d + Tickets(s.queue))[i];
    }
  }
}
