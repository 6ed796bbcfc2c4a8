/** The message queue of ipc.c as a protocol.

    Each step is one section of rt_mq_send_wait, rt_mq_urgent, rt_mq_recv or rt_mq_control
    that runs with interrupts off, or the copy between two of them; any thread may take the
    next step. Between its two sections a thread holds one node of the pool for itself. */
module MessageQueueProtocol {
  import opened Options
  import opened Rings
  import opened Threads

  type Bytes = seq<bv8>

  /** What a thread is doing with the queue. */
  datatype Pc =
    | Idle
    | RecvBlocked                                  // in the list of suspended receivers
    | RecvWoken                                    // resumed without error, not yet back in its loop
    | Receiving(node: int, ticket: nat)            // has unlinked a message
    | SendBlocked
    | SendWoken
    | Sending(node: int, urgent: bool, filled: Option<Bytes>)  // has taken a free node

  datatype Entry = Entry(node: int, ticket: nat)

  /** holder names the thread that privately holds a node. Every message that is linked gets
      the next ticket: msgs[ticket] is what was sent. */
  datatype Mq = Mq(
    msgSize: nat, slot: map<int, Bytes>,
    free: seq<int>, queue: seq<Entry>, holder: map<int, int>,
    recvWait: seq<int>, sendWait: seq<int>, pc: map<int, Pc>,
    msgs: seq<Bytes>, delivered: seq<nat>, dropped: multiset<nat>)

  function Nodes(q: seq<Entry>): (r: seq<int>)
    ensures |r| == |q| && forall i :: 0 <= i < |q| ==> r[i] == q[i].node
  {
    if q == [] then [] else [q[0].node] + Nodes(q[1..])
  }

  function Tickets(q: seq<Entry>): (r: seq<nat>)
    ensures |r| == |q| && forall i :: 0 <= i < |q| ==> r[i] == q[i].ticket
  {
    if q == [] then [] else [q[0].ticket] + Tickets(q[1..])
  }

  ghost function Upto(n: nat): multiset<nat> {
    if n == 0 then multiset{} else Upto(n - 1) + multiset{n - 1}
  }

  // ---------------------------------------------------------------- invariant

  function HeldNode(p: Pc): Option<int> {
    match p
    case Receiving(n, _) => Some(n)
    case Sending(n, _, _) => Some(n)
    case _ => None
  }

  /** Free, queued and privately held nodes partition the pool. */
  ghost predicate NodeInPlace(s: Mq, n: int) {
    if n in s.slot then
      && |s.slot[n]| == s.msgSize
      && (n in s.holder ==>
          n !in s.free && n !in Nodes(s.queue) && s.holder[n] in s.pc
          && HeldNode(s.pc[s.holder[n]]) == Some(n))
      && (n !in s.holder ==> n in s.free || n in Nodes(s.queue))
      && !(n in s.free && n in Nodes(s.queue))
    else n !in s.holder && n !in s.free && n !in Nodes(s.queue)
  }

  ghost predicate Partitioned(s: Mq) {
    && NoDup(s.free) && NoDup(Nodes(s.queue))
    && (forall n {:trigger NodeInPlace(s, n)} :: NodeInPlace(s, n))
    && (forall t {:trigger HeldNode(s.pc[t])} :: t in s.pc && HeldNode(s.pc[t]).Some? ==>
          HeldNode(s.pc[t]).value in s.holder && s.holder[HeldNode(s.pc[t]).value] == t)
  }

  /** The lists hold exactly the blocked threads. */
  ghost predicate Listed(s: Mq) {
    && NoDup(s.recvWait) && NoDup(s.sendWait)
    && (forall t :: t in s.recvWait <==> t in s.pc && s.pc[t] == RecvBlocked)
    && (forall t :: t in s.sendWait <==> t in s.pc && s.pc[t] == SendBlocked)
  }

  /** No lost wake-up: a waiter sleeps only while the woken threads cover what is there. */
  ghost predicate Awake(s: Mq) {
    && (s.recvWait != [] ==> |s.queue| <= |In(s.pc, RecvWoken)|)
    && (s.sendWait != [] ==> |s.free| <= |In(s.pc, SendWoken)|)
  }

  /** Every linked message is delivered once, dropped by a reset, or still queued. */
  ghost predicate OnceEach(s: Mq) {
    multiset(s.delivered) + s.dropped + multiset(Tickets(s.queue)) == Upto(|s.msgs|)
  }

  ghost predicate Holds(s: Mq, n: int, ticket: nat) {
    n in s.slot && ticket < |s.msgs| && s.msgs[ticket] <= s.slot[n]
  }

  ghost predicate ThreadContent(s: Mq, t: int) {
    t in s.pc ==>
      match s.pc[t]
      case Receiving(n, k) => Holds(s, n, k)
      case Sending(n, _, Some(m)) => n in s.slot && m <= s.slot[n]
      case _ => true
  }

  /** The slot of a queued or just unlinked node still holds what was sent. */
  ghost predicate Content(s: Mq) {
    && (forall e :: e in s.queue ==> Holds(s, e.node, e.ticket))
    && (forall t {:trigger ThreadContent(s, t)} :: ThreadContent(s, t))
  }

  ghost predicate Inv(s: Mq) {
    Partitioned(s) && Listed(s) && Awake(s) && OnceEach(s) && Content(s)
  }

  // -------------------------------------------------------------------- steps

  datatype Step =
    | RecvWait(t: int, at: nat)      // queue empty: suspend
    | RecvGiveUp(t: int)             // queue empty, no time left after a wake-up
    | RecvTake(t: int)
    | RecvPut(t: int)
    | SendWait(t: int, at: nat)
    | SendGiveUp(t: int)
    | Grab(t: int, urgent: bool)
    | Fill(t: int, buffer: Bytes)
    | Link(t: int)
    | Timeout(t: int)
    | Reset

  function PcOf(s: Mq, t: int): Pc {
    if t in s.pc then s.pc[t] else Idle
  }

  ghost predicate Enabled(s: Mq, a: Step) {
    match a
    case RecvWait(t, at) => (PcOf(s, t) == Idle || PcOf(s, t) == RecvWoken) && s.queue == [] && at <= |s.recvWait|
    case RecvGiveUp(t) => PcOf(s, t) == RecvWoken && s.queue == []
    case RecvTake(t) => (PcOf(s, t) == Idle || PcOf(s, t) == RecvWoken) && s.queue != []
    case RecvPut(t) => PcOf(s, t).Receiving?
    case SendWait(t, at) => (PcOf(s, t) == Idle || PcOf(s, t) == SendWoken) && s.free == [] && at <= |s.sendWait|
    case SendGiveUp(t) => PcOf(s, t) == SendWoken && s.free == []
    case Grab(t, urgent) => (PcOf(s, t) == Idle || (PcOf(s, t) == SendWoken && !urgent)) && s.free != []
    case Fill(t, buffer) => PcOf(s, t).Sending? && PcOf(s, t).filled == None && |buffer| <= s.msgSize
    case Link(t) => PcOf(s, t).Sending? && PcOf(s, t).filled.Some?
    case Timeout(t) => PcOf(s, t) == RecvBlocked || PcOf(s, t) == SendBlocked
    case Reset => true
  }

  /** rt_ipc_list_resume on the list of receivers. */
  function WakeRecv(s: Mq): Mq {
    if s.recvWait == [] then s else s.(recvWait := s.recvWait[1..], pc := s.pc[s.recvWait[0] := RecvWoken])
  }

  function WakeSend(s: Mq): Mq {
    if s.sendWait == [] then s else s.(sendWait := s.sendWait[1..], pc := s.pc[s.sendWait[0] := SendWoken])
  }

  /** rt_ipc_list_resume_all: the threads return with an error. */
  function Dismissed(pc: map<int, Pc>, list: seq<int>): map<int, Pc> {
    map t | t in pc :: if t in list then Idle else pc[t]
  }

  function Reversed(s: seq<int>): (r: seq<int>)
    ensures |r| == |s|
  {
    if s == [] then [] else Reversed(s[1..]) + [s[0]]
  }

  function Do(s: Mq, a: Step): Mq
    requires Inv(s) && Enabled(s, a)
  {
    match a
    case RecvWait(t, at) => s.(recvWait := InsertAt(s.recvWait, at, t), pc := s.pc[t := RecvBlocked])
    case RecvGiveUp(t) => s.(pc := s.pc[t := Idle])
    case RecvTake(t) =>
      var e := s.queue[0];
      s.(queue := s.queue[1..], holder := s.holder[e.node := t], pc := s.pc[t := Receiving(e.node, e.ticket)],
         delivered := s.delivered + [e.ticket])
    case RecvPut(t) =>
      var n := s.pc[t].node;
      WakeSend(s.(free := [n] + s.free, holder := s.holder - {n}, pc := s.pc[t := Idle]))
    case SendWait(t, at) => s.(sendWait := InsertAt(s.sendWait, at, t), pc := s.pc[t := SendBlocked])
    case SendGiveUp(t) => s.(pc := s.pc[t := Idle])
    case Grab(t, urgent) =>
      s.(free := s.free[1..], holder := s.holder[s.free[0] := t], pc := s.pc[t := Sending(s.free[0], urgent, None)])
    case Fill(t, buffer) =>
      var n := s.pc[t].node;
      assert HeldNode(s.pc[t]) == Some(n) && NodeInPlace(s, n);
      s.(slot := s.slot[n := buffer + s.slot[n][|buffer|..]], pc := s.pc[t := Sending(n, s.pc[t].urgent, Some(buffer))])
    case Link(t) =>
      var p := s.pc[t];
      var e := Entry(p.node, |s.msgs|);
      WakeRecv(s.(queue := if p.urgent then [e] + s.queue else s.queue + [e], holder := s.holder - {p.node},
                  msgs := s.msgs + [p.filled.value], pc := s.pc[t := Idle]))
    case Timeout(t) =>
      if s.pc[t] == RecvBlocked then s.(recvWait := Drop(s.recvWait, t), pc := s.pc[t := Idle])
      else s.(sendWait := Drop(s.sendWait, t), pc := s.pc[t := Idle])
    case Reset =>
      s.(recvWait := [], sendWait := [], pc := Dismissed(s.pc, s.recvWait + s.sendWait),
         free := Reversed(Nodes(s.queue)) + s.free, queue := [], dropped := s.dropped + multiset(Tickets(s.queue)))
  }

  // -------------------------------------------------- the invariant is inductive

  /** Threads that hold no node come and go without touching nodes or messages. */
  ghost predicate SameHolders(s: Mq, s': Mq) {
    && s'.msgSize == s.msgSize && s'.slot == s.slot && s'.free == s.free && s'.queue == s.queue && s'.holder == s.holder
    && s'.msgs == s.msgs && s'.delivered == s.delivered && s'.dropped == s.dropped
    && (forall t :: t in s'.pc ==> (t in s.pc && s'.pc[t] == s.pc[t]) || HeldNode(s'.pc[t]) == None)
    && (forall t :: t in s.pc && HeldNode(s.pc[t]).Some? ==> t in s'.pc && s'.pc[t] == s.pc[t])
  }

  lemma SameHoldersPartition(s: Mq, s': Mq)
    requires SameHolders(s, s') && Partitioned(s)
    ensures Partitioned(s')
  {
    forall n
      ensures NodeInPlace(s', n)
    {
      assert NodeInPlace(s, n);
      if n in s.slot && n in s.holder {
        var t := s.holder[n];
        assert HeldNode(s.pc[t]).Some?;
        assert t in s'.pc && s'.pc[t] == s.pc[t];
      }
    }
    forall t | t in s'.pc && HeldNode(s'.pc[t]).Some?
      ensures HeldNode(s'.pc[t]).value in s'.holder && s'.holder[HeldNode(s'.pc[t]).value] == t
    {
      assert t in s.pc && s'.pc[t] == s.pc[t];
    }
  }

  lemma SameHoldersContent(s: Mq, s': Mq)
    requires SameHolders(s, s') && Content(s)
    ensures Content(s')
  {
    forall t
      ensures ThreadContent(s', t)
    {
      assert ThreadContent(s, t);
    }
  }

  lemma SameHoldersKeep(s: Mq, s': Mq)
    requires SameHolders(s, s') && Partitioned(s) && OnceEach(s) && Content(s)
    ensures Partitioned(s') && OnceEach(s') && Content(s')
  {
    SameHoldersPartition(s, s');
    SameHoldersContent(s, s');
  }

  lemma WaitListed(s: Mq, a: Step)
    requires Inv(s) && Enabled(s, a) && (a.RecvWait? || a.SendWait? || a.RecvGiveUp? || a.SendGiveUp?)
    ensures Listed(Do(s, a))
  {
    hide Partitioned, OnceEach, Content, Awake;
    match a
    case RecvWait(t, at) => InsertNoDup(s.recvWait, at, t);
    case SendWait(t, at) => InsertNoDup(s.sendWait, at, t);
    case _ =>
  }

  lemma WaitKeeps(s: Mq, a: Step)
    requires Inv(s) && Enabled(s, a) && (a.RecvWait? || a.SendWait? || a.RecvGiveUp? || a.SendGiveUp?)
    ensures Inv(Do(s, a))
  {
    hide Partitioned, OnceEach, Content, Listed;
    var s' := Do(s, a);
    WaitListed(s, a);
    SameHoldersKeep(s, s');
    InUpdate(s.pc, a.t, s'.pc[a.t], RecvWoken);
    InUpdate(s.pc, a.t, s'.pc[a.t], SendWoken);
  }

  lemma TimeoutKeeps(s: Mq, a: Step)
    requires Inv(s) && Enabled(s, a) && a.Timeout?
    ensures Inv(Do(s, a))
  {
    hide Partitioned, OnceEach, Content;
    var s' := Do(s, a);
    SameHoldersKeep(s, s');
    InUpdate(s.pc, a.t, Idle, RecvWoken);
    InUpdate(s.pc, a.t, Idle, SendWoken);
    if s.pc[a.t] == RecvBlocked { DropElements(s.recvWait, a.t); } else { DropElements(s.sendWait, a.t); }
  }

  /** Waking the first receiver makes up for one message that was just queued. */
  lemma WakeRecvKeeps(s: Mq)
    requires Partitioned(s) && Listed(s) && OnceEach(s) && Content(s)
    requires s.recvWait != [] ==> |s.queue| <= |In(s.pc, RecvWoken)| + 1
    requires s.sendWait != [] ==> |s.free| <= |In(s.pc, SendWoken)|
    ensures Inv(WakeRecv(s))
  {
    hide Partitioned, OnceEach, Content;
    if s.recvWait != [] {
      var s', t := WakeRecv(s), s.recvWait[0];
      assert t in s.recvWait;
      SameHoldersKeep(s, s');
      InUpdate(s.pc, t, RecvWoken, RecvWoken);
      InUpdate(s.pc, t, RecvWoken, SendWoken);
      HeadGone(s.recvWait);
    }
  }

  lemma WakeSendKeeps(s: Mq)
    requires Partitioned(s) && Listed(s) && OnceEach(s) && Content(s)
    requires s.sendWait != [] ==> |s.free| <= |In(s.pc, SendWoken)| + 1
    requires s.recvWait != [] ==> |s.queue| <= |In(s.pc, RecvWoken)|
    ensures Inv(WakeSend(s))
  {
    hide Partitioned, OnceEach, Content;
    if s.sendWait != [] {
      var s', t := WakeSend(s), s.sendWait[0];
      assert t in s.sendWait;
      SameHoldersKeep(s, s');
      InUpdate(s.pc, t, SendWoken, RecvWoken);
      InUpdate(s.pc, t, SendWoken, SendWoken);
      HeadGone(s.sendWait);
    }
  }

  lemma TakePartition(s: Mq, t: int)
    requires Inv(s) && Enabled(s, RecvTake(t))
    ensures Partitioned(Do(s, RecvTake(t)))
  {
    hide Awake, OnceEach, Content;
    var s' := Do(s, RecvTake(t));
    var e := s.queue[0];
    assert Nodes(s'.queue) == Nodes(s.queue)[1..];
    HeadGone(Nodes(s.queue));
    assert Nodes(s.queue)[0] == e.node;
    HoldAlone(s, t, e.node);
    forall n
      ensures NodeInPlace(s', n)
    {
      assert NodeInPlace(s, n);
    }
  }

  /** A thread without a node is the holder of none, and a node in the pool's lists has no holder. */
  lemma HoldAlone(s: Mq, t: int, n: int)
    requires Partitioned(s) && (n in s.free || n in Nodes(s.queue)) && HeldNode(PcOf(s, t)) == None
    ensures n in s.slot && n !in s.holder && forall m :: m in s.holder ==> m != n && s.holder[m] != t
    ensures !(n in s.free && n in Nodes(s.queue))
  {
    assert NodeInPlace(s, n);
    forall m | m in s.holder
      ensures s.holder[m] != t
    {
      assert NodeInPlace(s, m);
    }
  }

  lemma TakeOnce(s: Mq, t: int)
    requires Inv(s) && Enabled(s, RecvTake(t))
    ensures OnceEach(Do(s, RecvTake(t)))
  {
    hide Partitioned, Awake, Content, Listed;
    var s' := Do(s, RecvTake(t));
    assert Tickets(s.queue) == [s.queue[0].ticket] + Tickets(s'.queue);
  }

  lemma TakeRest(s: Mq, t: int)
    requires Inv(s) && Enabled(s, RecvTake(t))
    ensures var s' := Do(s, RecvTake(t)); Listed(s') && Awake(s') && Content(s')
  {
    hide Partitioned, OnceEach;
    var s' := Do(s, RecvTake(t));
    InUpdate(s.pc, t, s'.pc[t], RecvWoken);
    InUpdate(s.pc, t, s'.pc[t], SendWoken);
    assert s.queue[0] in s.queue;
    forall u
      ensures ThreadContent(s', u)
    {
      assert ThreadContent(s, u);
    }
  }

  lemma GrabPartition(s: Mq, t: int, urgent: bool)
    requires Inv(s) && Enabled(s, Grab(t, urgent))
    ensures Partitioned(Do(s, Grab(t, urgent)))
  {
    hide Awake, OnceEach, Content;
    var s' := Do(s, Grab(t, urgent));
    HeadGone(s.free);
    HoldAlone(s, t, s.free[0]);
    forall n
      ensures NodeInPlace(s', n)
    {
      assert NodeInPlace(s, n);
    }
  }

  lemma GrabRest(s: Mq, t: int, urgent: bool)
    requires Inv(s) && Enabled(s, Grab(t, urgent))
    ensures var s' := Do(s, Grab(t, urgent)); Listed(s') && Awake(s') && OnceEach(s') && Content(s')
  {
    hide Partitioned, Content, OnceEach;
    var s' := Do(s, Grab(t, urgent));
    InUpdate(s.pc, t, s'.pc[t], RecvWoken);
    InUpdate(s.pc, t, s'.pc[t], SendWoken);
    OnceFrame(s, s');
    GrabContent(s, t, urgent);
  }

  lemma GrabContent(s: Mq, t: int, urgent: bool)
    requires Inv(s) && Enabled(s, Grab(t, urgent))
    ensures Content(Do(s, Grab(t, urgent)))
  {
    hide Partitioned, Listed, Awake, OnceEach;
    var s' := Do(s, Grab(t, urgent));
    forall u
      ensures ThreadContent(s', u)
    {
      assert ThreadContent(s, u);
    }
  }

  lemma OnceFrame(s: Mq, s': Mq)
    requires OnceEach(s) && s'.delivered == s.delivered && s'.dropped == s.dropped && s'.queue == s.queue
             && |s'.msgs| == |s.msgs|
    ensures OnceEach(s')
  {
  }

  /** The copy into a privately held node disturbs no other message. */
  lemma FillKeeps(s: Mq, t: int, buffer: Bytes)
    requires Inv(s) && Enabled(s, Fill(t, buffer))
    ensures Inv(Do(s, Fill(t, buffer)))
  {
    hide OnceEach;
    var s' := Do(s, Fill(t, buffer));
    var n := s.pc[t].node;
    InUpdate(s.pc, t, s'.pc[t], RecvWoken);
    InUpdate(s.pc, t, s'.pc[t], SendWoken);
    OnceFrame(s, s');
    assert HeldNode(s.pc[t]) == Some(n) && NodeInPlace(s, n);
    forall m
      ensures NodeInPlace(s', m)
    {
      assert NodeInPlace(s, m);
    }
    assert Partitioned(s');
    forall e | e in s'.queue
      ensures Holds(s', e.node, e.ticket)
    {
      var i :| 0 <= i < |s.queue| && s.queue[i] == e;
      assert Nodes(s.queue)[i] == e.node;
    }
    forall u
      ensures ThreadContent(s', u)
    {
      assert ThreadContent(s, u);
      if u != t && u in s.pc { assert HeldNode(s.pc[u]) != Some(n); }
    }
  }

  /** RecvPut before a sender is woken. */
  ghost function Returned(s: Mq, t: int): Mq
    requires PcOf(s, t).Receiving?
  {
    var n := PcOf(s, t).node;
    s.(free := [n] + s.free, holder := s.holder - {n}, pc := s.pc[t := Idle])
  }

  lemma ReturnedPartition(s: Mq, t: int)
    requires Inv(s) && Enabled(s, RecvPut(t))
    ensures Partitioned(Returned(s, t))
  {
    hide Awake, OnceEach, Content;
    var s', n := Returned(s, t), s.pc[t].node;
    assert HeldNode(s.pc[t]) == Some(n) && NodeInPlace(s, n);
    assert s'.free[0] == n && s'.free[1..] == s.free;
    forall m
      ensures NodeInPlace(s', m)
    {
      assert NodeInPlace(s, m);
    }
  }

  lemma PutKeeps(s: Mq, t: int)
    requires Inv(s) && Enabled(s, RecvPut(t))
    ensures Inv(Do(s, RecvPut(t)))
  {
    hide Partitioned, OnceEach;
    var s' := Returned(s, t);
    ReturnedPartition(s, t);
    OnceFrame(s, s');
    InUpdate(s.pc, t, Idle, RecvWoken);
    InUpdate(s.pc, t, Idle, SendWoken);
    forall u
      ensures ThreadContent(s', u)
    {
      assert ThreadContent(s, u);
    }
    WakeSendKeeps(s');
  }

  /** Link before a receiver is woken. */
  ghost function Linked(s: Mq, t: int): Mq
    requires PcOf(s, t).Sending? && PcOf(s, t).filled.Some?
  {
    var p := PcOf(s, t);
    var e := Entry(p.node, |s.msgs|);
    s.(queue := if p.urgent then [e] + s.queue else s.queue + [e], holder := s.holder - {p.node},
       msgs := s.msgs + [p.filled.value], pc := s.pc[t := Idle])
  }

  lemma NodesAdded(q: seq<Entry>, e: Entry)
    ensures Nodes([e] + q) == [e.node] + Nodes(q) && Nodes(q + [e]) == Nodes(q) + [e.node]
    ensures Tickets([e] + q) == [e.ticket] + Tickets(q) && Tickets(q + [e]) == Tickets(q) + [e.ticket]
  {
  }

  lemma NodeAdded(q: seq<int>, q': seq<int>, n: int)
    requires NoDup(q) && n !in q && (q' == [n] + q || q' == q + [n])
    ensures NoDup(q') && forall x :: x in q' <==> x in q || x == n
  {
  }

  lemma LinkedPartition(s: Mq, t: int)
    requires Inv(s) && Enabled(s, Link(t))
    ensures Partitioned(Linked(s, t))
  {
    hide Awake, OnceEach, Content, Listed, Nodes;
    var s', n := Linked(s, t), s.pc[t].node;
    assert HeldNode(s.pc[t]) == Some(n) && NodeInPlace(s, n);
    NodesAdded(s.queue, Entry(n, |s.msgs|));
    var q, q' := Nodes(s.queue), Nodes(s'.queue);
    NodeAdded(q, q', n);
    forall m
      ensures NodeInPlace(s', m)
    {
      assert NodeInPlace(s, m);
    }
  }

  lemma LinkedOnce(s: Mq, t: int)
    requires Inv(s) && Enabled(s, Link(t))
    ensures OnceEach(Linked(s, t))
  {
    hide Partitioned, Awake, Content, Listed, Upto, Tickets;
    var s', p, n := Linked(s, t), s.pc[t], |s.msgs|;
    var before := Tickets(s.queue);
    NodesAdded(s.queue, Entry(p.node, n));
    OneMore(multiset(s.delivered) + s.dropped, before, n);
    assert Tickets(s'.queue) == if p.urgent then [n] + before else before + [n];
    assert |s'.msgs| == n + 1;
    hide Linked, Enabled;
  }

  lemma OneMore(gone: multiset<nat>, queued: seq<nat>, n: nat)
    requires gone + multiset(queued) == Upto(n)
    ensures gone + multiset([n] + queued) == Upto(n + 1) && gone + multiset(queued + [n]) == Upto(n + 1)
  {
  }

  lemma LinkedContent(s: Mq, t: int)
    requires Inv(s) && Enabled(s, Link(t))
    ensures Content(Linked(s, t))
  {
    hide Partitioned, Awake, OnceEach, Listed;
    var s' := Linked(s, t);
    assert ThreadContent(s, t);
    forall u
      ensures ThreadContent(s', u)
    {
      assert ThreadContent(s, u);
    }
  }

  lemma LinkKeeps(s: Mq, t: int)
    requires Inv(s) && Enabled(s, Link(t))
    ensures Inv(Do(s, Link(t)))
  {
    hide Partitioned, OnceEach, Content;
    var s' := Linked(s, t);
    LinkedPartition(s, t);
    LinkedOnce(s, t);
    LinkedContent(s, t);
    InUpdate(s.pc, t, Idle, RecvWoken);
    InUpdate(s.pc, t, Idle, SendWoken);
    WakeRecvKeeps(s');
  }

  // -------------------------------------------------------------------- reset

  lemma {:induction false} ReversedElements(s: seq<int>)
    requires NoDup(s)
    ensures NoDup(Reversed(s)) && forall x :: x in Reversed(s) <==> x in s
  {
    if s != [] {
      HeadGone(s);
      ReversedElements(s[1..]);
      AppendNoDup(Reversed(s[1..]), [s[0]]);
    }
  }

  lemma ResetPartition(s: Mq)
    requires Inv(s)
    ensures Partitioned(Do(s, Reset))
  {
    hide Awake, OnceEach, Content;
    var s' := Do(s, Reset);
    var q := Nodes(s.queue);
    ReversedElements(q);
    assert Nodes(s'.queue) == [];
    forall x | x in Reversed(q)
      ensures x !in s.free
    {
      assert x in q && NodeInPlace(s, x);
    }
    AppendNoDup(Reversed(q), s.free);
    assert s'.free == Reversed(q) + s.free;
    forall m
      ensures NodeInPlace(s', m)
    {
      assert NodeInPlace(s, m);
      if m in s.holder && m in s.slot {
        var t := s.holder[m];
        assert s.pc[t] != RecvBlocked && s.pc[t] != SendBlocked;
        assert t !in s.recvWait && t !in s.sendWait;
        assert s'.pc[t] == s.pc[t];
      }
      assert (m in Reversed(q) <==> m in q) && (m in s'.free <==> m in Reversed(q) || m in s.free);
    }
  }

  lemma ResetRest(s: Mq)
    requires Inv(s)
    ensures var s' := Do(s, Reset); Listed(s') && Awake(s') && OnceEach(s') && Content(s')
  {
    hide Partitioned, Content, OnceEach, Listed;
    ResetContent(s);
    ResetOnce(s);
    ResetListed(s);
  }

  lemma ResetListed(s: Mq)
    requires Inv(s)
    ensures Listed(Do(s, Reset))
  {
    hide Partitioned, Content, OnceEach, Awake, Tickets;
  }

  lemma ResetOnce(s: Mq)
    requires Inv(s)
    ensures OnceEach(Do(s, Reset))
  {
    hide Partitioned, Content, Listed, Awake;
    assert Tickets([]) == [];
  }

  lemma ResetContent(s: Mq)
    requires Inv(s)
    ensures Content(Do(s, Reset))
  {
    hide Partitioned, Awake, OnceEach;
    var s' := Do(s, Reset);
    forall u
      ensures ThreadContent(s', u)
    {
      assert ThreadContent(s, u);
    }
  }

  /** Every step of every thread keeps the invariant. */
  lemma StepKeeps(s: Mq, a: Step)
    requires Inv(s) && Enabled(s, a)
    ensures Inv(Do(s, a))
  {
    hide Partitioned, OnceEach, Content, Awake, Listed;
    match a
    case RecvWait(_, _) => WaitKeeps(s, a);
    case RecvGiveUp(_) => WaitKeeps(s, a);
    case SendWait(_, _) => WaitKeeps(s, a);
    case SendGiveUp(_) => WaitKeeps(s, a);
    case RecvTake(t) => TakePartition(s, t); TakeOnce(s, t); TakeRest(s, t);
    case RecvPut(t) => PutKeeps(s, t);
    case Grab(t, u) => GrabPartition(s, t, u); GrabRest(s, t, u);
    case Fill(t, b) => FillKeeps(s, t, b);
    case Link(t) => LinkKeeps(s, t);
    case Timeout(_) => TimeoutKeeps(s, a);
    case Reset => ResetPartition(s); ResetRest(s);
  }
}
