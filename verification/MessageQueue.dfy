/** ipc.c: the message queue, its linked lists of messages and its sections with interrupts off. */
module MessageQueue {
  import opened Options
  import opened Arithmetic
  import opened Rings
  import opened Chains
  import opened IpcLists
  import opened MessageQueueProtocol
  import opened MessageQueueLaws

  /** A node that a sender has filled but not linked ends the list it will be appended to. */
  ghost predicate Ended(pc: map<int, Pc>, next: map<int, int>, t: int) {
    t in pc && pc[t].Sending? && !pc[t].urgent && pc[t].filled.Some? ==>
        pc[t].node in next
        && next[pc[t].node] == RT_NULL
  }

  ghost predicate AllEnded(pc: map<int, Pc>, next: map<int, int>) {
    forall t {:trigger Ended(pc, next, t)} :: Ended(pc, next, t)
  }

  lemma EndedKeeps(pc: map<int, Pc>, next: map<int, int>, pc': map<int, Pc>, next': map<int, int>)
    requires AllEnded(pc, next)
    requires forall t :: t in pc' && pc'[t].Sending? && !pc'[t].urgent && pc'[t].filled.Some? ==>
                           t in pc && pc[t] == pc'[t]
                               && (pc[t].node in next ==>
                                   pc[t].node in next'
                                   && next'[pc[t].node] == next[pc[t].node])
    ensures AllEnded(pc', next')
  {
    forall t
      ensures Ended(pc', next', t)
    {
      assert Ended(pc, next, t);
    }
  }

  /** A thread takes up a state other than that of a sender about to link. */
  lemma EndedStays(pc: map<int, Pc>, next: map<int, int>, t: int, p: Pc)
    requires AllEnded(pc, next) && !(p.Sending? && p.filled.Some?)
    ensures AllEnded(pc[t := p], next)
  {
    EndedKeeps(pc, next, pc[t := p], next);
  }

  /** The k-th node of the pool: a link of 4 bytes and a message of msgSize bytes */
  function NodeAt(pool: int, msgSize: nat, k: int): int {
    pool + k * (msgSize + 4)
  }

  lemma NextNode(pool: int, msgSize: nat, k: nat)
    ensures NodeAt(pool, msgSize, k + 1) == NodeAt(pool, msgSize, k) + msgSize + 4 && NodeAt(pool, msgSize, 0) == pool
  {
    assert (k + 1) * (msgSize + 4) == k * (msgSize + 4) + (msgSize + 4);
  }

  /** The messages of all nodes lie in the pool, as large as was asked for, and clear of each other and of all links. */
  lemma NodesApart(pool: int, size: nat, poolSize: nat, j: nat, k: nat)
    requires var m := Align4(size); j < k < poolSize / (m + 4)
    ensures var m := Align4(size);
            && pool <= NodeAt(pool, m, j) && NodeAt(pool, m, j) + 4 + size <= NodeAt(pool, m, k)
            && NodeAt(pool, m, k) + 4 + size <= pool + poolSize
            && (pool % 4 == 0 ==> (NodeAt(pool, m, j) + 4) % 4 == 0 && (NodeAt(pool, m, k) + 4) % 4 == 0)
  {
    var m := Align4(size);
    var stride, total := m + 4, poolSize / (m + 4);
    assert m >= size && m % 4 == 0;
    hide Align4;
    DivBounds(poolSize, stride);
    MulMono(j + 1, k, stride);
    MulMono(k + 1, total, stride);
    assert (j + 1) * stride == j * stride + stride && (k + 1) * stride == k * stride + stride;
    NodeAligned(pool, m, j);
    NodeAligned(pool, m, k);
  }

  lemma NodeAligned(pool: int, m: nat, k: nat)
    requires m % 4 == 0
    ensures pool % 4 == 0 ==> (NodeAt(pool, m, k) + 4) % 4 == 0
  {
    var q := (m + 4) / 4;
    assert m + 4 == 4 * q;
    assert k * (m + 4) == 4 * (k * q);
  }

  datatype Outcome = Failed | Suspended | Got(node: int)

  class MessageQueue {
    const msgSize: nat
    var head: int        // msg_queue_head
    var tail: int        // msg_queue_tail
    var freeHead: int    // msg_queue_free
    var entry: nat
    var next: map<int, int>
    var slot: map<int, Bytes>
    var recvWait: seq<int>
    var sendWait: seq<int>

    ghost var st: Mq     // the protocol state this object is in

    ghost predicate Valid()
      reads this
    {
      && Inv(st)
      && st.msgSize == msgSize && st.slot == slot && st.recvWait == recvWait && st.sendWait == sendWait
      && Chained(next, freeHead, st.free)
      && Chained(next, head, Nodes(st.queue))
      && tail == (if st.queue == [] then RT_NULL else st.queue[|st.queue| - 1].node)
      && entry == |st.queue|
      && RT_NULL !in slot
      && AllEnded(st.pc, next)
    }

    /** rt_mq_init: thread the pool's nodes onto the free list, the last one first. */
    constructor (pool: int, size: nat, poolSize: nat)
      requires pool > 0
      ensures Valid() && msgSize == Align4(size)
      ensures st == Fresh(msgSize, st.slot, st.free) && |st.free| == poolSize / (Align4(size) + 4)
      ensures forall k :: 0 <= k < |st.free| ==> st.free[k] == NodeAt(pool, Align4(size), |st.free| - 1 - k)
    {
      msgSize := Align4(size);
      head, tail, freeHead, entry := RT_NULL, RT_NULL, RT_NULL, 0;
      next, slot, recvWait, sendWait := map[], map[], [], [];
      st := Fresh(Align4(size), map[], []);
      new;
      hide Inv, Chained, NodeAt;
      var maxMsgs := poolSize / (msgSize + 4);
      var node := pool;
      ghost var free: seq<int> := [];
      ChainEmpty(next);
      assert Nodes([]) == [];
      NextNode(pool, msgSize, 0);
      for temp := 0 to maxMsgs
        invariant node == NodeAt(pool, msgSize, temp)
        invariant forall k :: 0 <= k < |free| ==> free[k] == NodeAt(pool, msgSize, temp - 1 - k)
        invariant |free| == temp && 0 < node && NoDup(free) && Chained(next, freeHead, free)
        invariant forall n :: n in free ==> 0 < n < node
        invariant forall n :: n in free <==> n in slot
        invariant forall n :: n in slot ==> |slot[n]| == msgSize
        invariant head == tail == RT_NULL && entry == 0 && recvWait == [] && sendWait == []
      {
        ChainPush(next, freeHead, free, node);
        slot := slot[node := seq(msgSize, _ => 0)];
        next := next[node := freeHead];
        freeHead := node;
        free := [node] + free;
        NextNode(pool, msgSize, temp);
        node := node + msgSize + 4;
      }
      assert Nodes([]) == [];
      ChainEmpty(next);
      FreshInv(msgSize, slot, free);
      st := Fresh(msgSize, slot, free);
    }

    method UnlinkHead(t: int) returns (msg: int)
      requires Valid() && Enabled(st, RecvTake(t))
      modifies this
      ensures old(st.queue) != [] && msg == old(st.queue)[0].node
      ensures st == Do(old(st), RecvTake(t))
      ensures Valid()
    {
      hide Inv, Chained, AllEnded, Nodes, Do, Enabled;
      TakeFacts(st, t);
      ghost var s' := Do(st, RecvTake(t));
      ChainTail(next, head, Nodes(st.queue));
      EndedStays(st.pc, next, t, s'.pc[t]);
      msg := head;
      head := next[msg];
      if tail == msg {
        tail := RT_NULL;
      }
      entry := entry - 1;
      st := s';
    }

    /** One pass of rt_mq_recv with interrupts off. */
    method RecvSection(t: int, timeout: int, flag: Flag, prio: map<int, nat>) returns (r: Outcome)
      requires Valid() && (PcOf(st, t) == Idle || PcOf(st, t) == RecvWoken)
      modifies this
      ensures Valid()
      ensures r.Failed? <==> old(st.queue) == [] && timeout == 0
      ensures r.Suspended? <==> old(st.queue) == [] && timeout != 0
      ensures match r
              case Failed => st == (if PcOf(old(st), t) == RecvWoken then Do(old(st), RecvGiveUp(t)) else old(st))
              case Suspended =>
                exists at :: Position(old(recvWait), t, flag, prio, at) && Enabled(old(st), RecvWait(t, at))
                    && st == Do(old(st), RecvWait(t, at))
              case Got(n) =>
                  Enabled(old(st), RecvTake(t)) && st == Do(old(st), RecvTake(t))
                  && n == old(st.queue)[0].node
    {
      hide Inv, Chained, AllEnded;
      ghost var s := st;
      if entry == 0 {
        if timeout == 0 {
          if PcOf(s, t) == RecvWoken {
            StepKeeps(s, RecvGiveUp(t));
            EndedStays(st.pc, next, t, Idle);
            st := Do(s, RecvGiveUp(t));
          }
          return Failed;
        }
        ghost var at;
        recvWait, at := ListSuspend(recvWait, t, flag, prio);
        StepKeeps(s, RecvWait(t, at));
        EndedStays(st.pc, next, t, RecvBlocked);
        st := Do(s, RecvWait(t, at));
        return Suspended;
      }
      var msg := UnlinkHead(t);
      return Got(msg);
    }

    /** Take the first free node. */
    method UnlinkFree(t: int, urgent: bool) returns (msg: int)
      requires Valid() && Enabled(st, Grab(t, urgent))
      modifies this
      ensures old(st.free) != [] && msg == old(st.free)[0]
      ensures st == Do(old(st), Grab(t, urgent))
      ensures Valid()
    {
      hide Inv, Chained, AllEnded, Nodes, Do;
      GrabFacts(st, t, urgent);
      ghost var s' := Do(st, Grab(t, urgent));
      ChainTail(next, freeHead, st.free);
      EndedStays(st.pc, next, t, s'.pc[t]);
      msg := freeHead;
      freeHead := next[msg];
      st := s';
    }

    /** One pass of the first section of rt_mq_send_wait. */
    method SendSection(t: int, size: nat, timeout: int, flag: Flag, prio: map<int, nat>) returns (r: Outcome)
      requires Valid() && (PcOf(st, t) == Idle || (PcOf(st, t) == SendWoken && size <= msgSize))
      modifies this
      ensures Valid()
      ensures r.Failed? <==> size > msgSize || (old(st.free) == [] && timeout == 0)
      ensures r.Got? <==> size <= msgSize && old(st.free) != []
      ensures match r
              case Failed =>
                if PcOf(old(st), t) == SendWoken then
                  Enabled(old(st), SendGiveUp(t)) && st == Do(old(st), SendGiveUp(t))
                else st == old(st)
              case Suspended =>
                exists at :: Position(old(sendWait), t, flag, prio, at) && Enabled(old(st), SendWait(t, at))
                    && st == Do(old(st), SendWait(t, at))
              case Got(n) =>
                  Enabled(old(st), Grab(t, false)) && st == Do(old(st), Grab(t, false))
                  && n == old(st.free)[0]
    {
      hide Inv, Chained, AllEnded;
      ghost var s := st;
      if size > msgSize { return Failed; }
      ChainNull(next, freeHead, st.free);
      if freeHead == RT_NULL {
        if timeout == 0 {
          if PcOf(s, t) == SendWoken {
            StepKeeps(s, SendGiveUp(t));
            EndedStays(st.pc, next, t, Idle);
            st := Do(s, SendGiveUp(t));
          }
          return Failed;
        }
        ghost var at;
        sendWait, at := ListSuspend(sendWait, t, flag, prio);
        StepKeeps(s, SendWait(t, at));
        EndedStays(st.pc, next, t, SendBlocked);
        st := Do(s, SendWait(t, at));
        return Suspended;
      }
      var msg := UnlinkFree(t, false);
      return Got(msg);
    }

    /** The first section of rt_mq_urgent. */
    method UrgentSection(t: int, size: nat) returns (r: Outcome)
      requires Valid() && PcOf(st, t) == Idle
      modifies this
      ensures Valid()
      ensures r == if size > msgSize || old(st.free) == [] then Failed else Got(old(st.free)[0])
      ensures if r.Failed? then st == old(st) else Enabled(old(st), Grab(t, true)) && st == Do(old(st), Grab(t, true))
    {
      hide Inv, Chained, AllEnded;
      if size > msgSize { return Failed; }
      ChainNull(next, freeHead, st.free);
      if freeHead == RT_NULL { return Failed; }
      var msg := UnlinkFree(t, true);
      return Got(msg);
    }

    /** With interrupts on: end the list at the node (sends only) and copy the buffer into it. */
    method Fill(t: int, msg: int, urgent: bool, buffer: Bytes)
      requires Valid() && Enabled(st, MessageQueueProtocol.Step.Fill(t, buffer))
               && st.pc[t] == Sending(msg, urgent, None)
      modifies this
      ensures st == Do(old(st), MessageQueueProtocol.Step.Fill(t, buffer))
      ensures Valid()
    {
      hide Inv, Chained, AllEnded, Nodes, Do;
      FillFacts(st, t, buffer);
      ghost var s' := Do(st, MessageQueueProtocol.Step.Fill(t, buffer));
      ChainFrame(next, next[msg := RT_NULL], freeHead, st.free);
      ChainFrame(next, next[msg := RT_NULL], head, Nodes(st.queue));
      EndedFilled(st, next, t, s'.pc, if urgent then next else next[msg := RT_NULL]);
      if !urgent {
        next := next[msg := RT_NULL];
      }
      slot := slot[msg := buffer + slot[msg][|buffer|..]];
      st := s';
    }

    /** The second section of rt_mq_send_wait: append the node and wake a receiver. */
    method LinkSend(t: int, msg: int)
      requires Valid() && Enabled(st, Link(t)) && st.pc[t].node == msg && !st.pc[t].urgent
      modifies this
      ensures st == Do(old(st), Link(t))
      ensures Valid()
    {
      hide Inv, Chained, Nodes, Do, AllEnded, Enabled;
      ghost var s' := Do(st, Link(t));
      LinkFacts(st, t, next);
      TailNull(st, tail);
      AppendFacts(st, next, head, tail, freeHead, msg);
      EndedLinked(st, t, next, if tail != RT_NULL then tail else msg,
                  if tail != RT_NULL then next[tail := msg] else next);
      if tail != RT_NULL {
        next := next[tail := msg];
      }
      tail := msg;
      if head == RT_NULL {
        head := msg;
      }
      entry := entry + 1;
      if recvWait != [] {
        recvWait := recvWait[1..];
      }
      st := s';
    }

    /** The second section of rt_mq_urgent: put the node in front and wake a receiver. */
    method LinkUrgent(t: int, msg: int)
      requires Valid() && Enabled(st, Link(t)) && st.pc[t].node == msg && st.pc[t].urgent
      modifies this
      ensures st == Do(old(st), Link(t))
      ensures Valid()
    {
      hide Inv, Chained, Nodes, Do, AllEnded, Enabled;
      ghost var s' := Do(st, Link(t));
      LinkFacts(st, t, next);
      TailNull(st, tail);
      ChainPush(next, head, Nodes(st.queue), msg);
      ChainFrame(next, next[msg := head], freeHead, st.free);
      EndedLinked(st, t, next, msg, next[msg := head]);
      next := next[msg := head];
      head := msg;
      if tail == RT_NULL {
        tail := msg;
      }
      entry := entry + 1;
      if recvWait != [] {
        recvWait := recvWait[1..];
      }
      st := s';
    }

    /** With interrupts on: copy out of the node into a buffer of size bytes. */
    method CopyOut(t: int, msg: int, size: nat) returns (buffer: Bytes)
      requires Valid() && PcOf(st, t).Receiving? && st.pc[t].node == msg
      ensures |buffer| == Min(size, msgSize)
      ensures var k := st.pc[t].ticket;
              k < |st.msgs| && |st.msgs[k]| <= msgSize
              && buffer[..Min(size, |st.msgs[k]|)] == st.msgs[k][..Min(size, |st.msgs[k]|)]
    {
      hide Inv, Chained, AllEnded, Nodes;
      ReceivedIsSent(st, t, size);
      buffer := slot[msg][..if size > msgSize then msgSize else size];
    }

    /** The last section of rt_mq_recv: the node goes back to the free list and wakes a sender. */
    method PutFree(t: int, msg: int)
      requires Valid() && Enabled(st, RecvPut(t)) && st.pc[t].node == msg
      modifies this
      ensures st == Do(old(st), RecvPut(t))
      ensures Valid()
    {
      hide Inv, Chained, Nodes, Do, AllEnded, Enabled;
      ghost var s' := Do(st, RecvPut(t));
      PutFacts(st, t, next, next[msg := freeHead]);
      ChainPush(next, freeHead, st.free, msg);
      ChainFrame(next, next[msg := freeHead], head, Nodes(st.queue));
      next := next[msg := freeHead];
      freeHead := msg;
      if sendWait != [] {
        sendWait := sendWait[1..];
      }
      st := s';
    }

    /** The thread timer takes t off the list it sleeps in. */
    method TimeoutSection(t: int)
      requires Valid() && Enabled(st, Timeout(t))
      modifies this
      ensures st == Do(old(st), Timeout(t))
      ensures Valid()
    {
      hide Inv, Chained, Nodes, AllEnded;
      ghost var s' := Do(st, Timeout(t));
      StepKeeps(st, Timeout(t));
      EndedStays(st.pc, next, t, Idle);
      TimeoutLists(st, t);
      if t in recvWait {
        recvWait := Drop(recvWait, t);
      } else {
        sendWait := Drop(sendWait, t);
      }
      st := s';
    }

    /** rt_mq_control with RT_IPC_CMD_RESET */
    method ResetSection()
      requires Valid()
      modifies this
      ensures st == Do(old(st), Reset)
      ensures Valid()
    {
      hide Inv, Chained, Nodes, Do, AllEnded, Reversed;
      ghost var s := st;
      ghost var q, taken := Nodes(s.queue), 0;
      ResetFacts(s);
      recvWait, sendWait := [], [];
      assert q[..0] == [] && Reversed(q[..0]) + s.free == s.free && q[0..] == q;
      while head != RT_NULL
        invariant taken <= |q| && q == Nodes(s.queue) && st == s && slot == s.slot
        invariant recvWait == [] && sendWait == []
        invariant Chained(next, head, q[taken..]) && Chained(next, freeHead, Reversed(q[..taken]) + s.free)
        invariant tail == if taken == |q| then RT_NULL else q[|q| - 1]
        invariant forall x :: x !in q ==> (x in next <==> x in old(next)) && (x in next ==> next[x] == old(next)[x])
        decreases |q| - taken
      {
        ChainNull(next, head, q[taken..]);
        ChainTail(next, head, q[taken..]);
        ResetMove(s, taken);
        var msg := head;
        head := next[msg];
        if tail == msg {
          tail := RT_NULL;
        }
        ChainPush(next, freeHead, Reversed(q[..taken]) + s.free, msg);
        ChainFrame(next, next[msg := freeHead], head, q[taken + 1..]);
        next := next[msg := freeHead];
        freeHead := msg;
        taken := taken + 1;
      }
      ChainNull(next, head, q[taken..]);
      entry := 0;
      st := Do(s, Reset);
      assert q[..taken] == q;
      EndedReset(s, old(next), next);
    }
  }

  lemma LinkFacts(s: Mq, t: int, next: map<int, int>)
    requires Inv(s) && Enabled(s, Link(t)) && AllEnded(s.pc, next)
    ensures var s' := Do(s, Link(t)); var p := s.pc[t]; var n := p.node;
            |s'.queue| == |s.queue| + 1
            && s'.queue[|s.queue|].node == (if p.urgent && s.queue != [] then s.queue[|s.queue| - 1].node else n)
            && s'.recvWait == (if s.recvWait == [] then [] else s.recvWait[1..])
            && s' == s.(queue := s'.queue, holder := s'.holder, msgs := s'.msgs, pc := s'.pc, recvWait := s'.recvWait)
            && n in s.slot && n !in s.free && n !in Nodes(s.queue)
            && Nodes(s'.queue) == (if p.urgent then [n] + Nodes(s.queue) else Nodes(s.queue) + [n])
            && (!p.urgent ==> n in next && next[n] == RT_NULL)
    ensures Inv(Do(s, Link(t)))
  {
    hide Listed, Awake, OnceEach, Content;
    var n := s.pc[t].node;
    HeldApart(s, t, n);
    StepKeeps(s, Link(t));
    NodesAdded(s.queue, Entry(n, |s.msgs|));
    assert Ended(s.pc, next, t);
  }

  lemma HeldElsewhere(s: Mq, t: int, x: int, u: int)
    requires Partitioned(s) && HeldNode(PcOf(s, t)).Some? && (HeldNode(PcOf(s, t)) == Some(x) || x in Nodes(s.queue))
    requires u in s.pc && u != t
    ensures HeldNode(s.pc[u]) != Some(x)
  {
    HeldApart(s, t, HeldNode(s.pc[t]).value);
    if HeldNode(s.pc[u]) == Some(x) { HeldApart(s, u, x); }
  }

  lemma EndedLinked(s: Mq, t: int, next: map<int, int>, x: int, next': map<int, int>)
    requires Inv(s) && Enabled(s, Link(t)) && AllEnded(s.pc, next) && (x == s.pc[t].node || x in Nodes(s.queue))
    requires x in next' && next' == next[x := next'[x]]
    ensures AllEnded(Do(s, Link(t)).pc, next')
  {
    hide Listed, Awake, OnceEach, Content, Partitioned, AllEnded, Nodes;
    var pc' := Do(s, Link(t)).pc;
    forall u | u in pc' && pc'[u].Sending? && !pc'[u].urgent && pc'[u].filled.Some?
      ensures u in s.pc && pc'[u] == s.pc[u]
      ensures s.pc[u].node in next ==> s.pc[u].node in next' && next'[s.pc[u].node] == next[s.pc[u].node]
    {
      HeldElsewhere(s, t, x, u);
    }
    EndedKeeps(s.pc, next, pc', next');
  }

  lemma TailNull(s: Mq, tail: int)
    requires Inv(s) && RT_NULL !in s.slot && tail == if s.queue == [] then RT_NULL else s.queue[|s.queue| - 1].node
    ensures tail == RT_NULL <==> s.queue == []
    ensures tail != RT_NULL ==> tail in Nodes(s.queue)
  {
    var q := Nodes(s.queue);
    assert s.queue != [] ==> q[|q| - 1] == tail && tail in q;
    assert NodeInPlace(s, tail);
  }

  /** The lists after msg has been appended to the queue. */
  lemma AppendFacts(s: Mq, next: map<int, int>, head: int, tail: int, freeHead: int, msg: int)
    requires Inv(s) && Chained(next, head, Nodes(s.queue)) && Chained(next, freeHead, s.free)
    requires tail == if s.queue == [] then RT_NULL else s.queue[|s.queue| - 1].node
    requires msg in next && next[msg] == RT_NULL && msg in s.slot && RT_NULL !in s.slot && msg !in s.free
             && msg !in Nodes(s.queue)
    ensures (head == RT_NULL <==> s.queue == [])
    ensures s.queue == [] ==> Chained(next, msg, Nodes(s.queue) + [msg]) && next[msg := RT_NULL] == next
    ensures s.queue != [] ==>
              Chained(next[tail := msg], head, Nodes(s.queue) + [msg])
              && Chained(next[tail := msg], freeHead, s.free)
  {
    hide Listed, Awake, OnceEach, Content;
    var q := Nodes(s.queue);
    ChainNull(next, head, q);
    if q == [] {
      forall i
        ensures ChainedAt(next, q + [msg], i)
      {
      }
    } else {
      assert q[|q| - 1] == tail && tail in q && NodeInPlace(s, tail);
      ChainAppend(next, head, q, msg);
      ChainFrame(next, next[tail := msg], freeHead, s.free);
    }
  }

  lemma PutFacts(s: Mq, t: int, next: map<int, int>, next': map<int, int>)
    requires Inv(s) && Enabled(s, RecvPut(t)) && AllEnded(s.pc, next)
    requires var n := s.pc[t].node; n in next' && next' == next[n := next'[n]]
    ensures var s' := Do(s, RecvPut(t)); var n := s.pc[t].node;
            s'.free == [n] + s.free && s'.queue == s.queue && s'.slot == s.slot && s'.msgSize == s.msgSize
            && s'.recvWait == s.recvWait && s'.sendWait == (if s.sendWait == [] then [] else s.sendWait[1..])
            && n in s.slot && n !in s.free && n !in Nodes(s.queue)
            && Inv(s') && AllEnded(s'.pc, next')
  {
    hide Awake, OnceEach, Content;
    var n, s' := s.pc[t].node, Do(s, RecvPut(t));
    StepKeeps(s, RecvPut(t));
    HeldApart(s, t, n);
    forall u
      ensures Ended(s'.pc, next', u)
    {
      assert Ended(s.pc, next, u);
      assert u in s.pc && u != t ==> HeldNode(s.pc[u]) != Some(n);
    }
  }

  lemma TimeoutLists(s: Mq, t: int)
    requires Inv(s) && Enabled(s, Timeout(t))
    ensures t in s.recvWait <==> s.pc[t] == RecvBlocked
    ensures t in s.sendWait <==> s.pc[t] == SendBlocked
  {
    hide Partitioned, Awake, OnceEach, Content;
  }

  lemma ResetFacts(s: Mq)
    requires Inv(s)
    ensures var s' := Do(s, Reset);
            Inv(s') && s'.queue == [] && s'.slot == s.slot && s'.msgSize == s.msgSize && s'.recvWait == []
                && s'.sendWait == []
            && s'.free == Reversed(Nodes(s.queue)) + s.free
    ensures Reversed([]) == [] && Nodes([]) == []
  {
    hide Partitioned, Awake, OnceEach, Content;
    StepKeeps(s, Reset);
  }

  /** Moving one more node from the queue to the free list. */
  lemma ResetMove(s: Mq, k: nat)
    requires Inv(s) && k < |Nodes(s.queue)|
    ensures var q := Nodes(s.queue); var f := Reversed(q[..k]) + s.free;
            q[k] !in f && q[k] !in q[k + 1..] && q[k..][1..] == q[k + 1..] && q[k] in q
            && Reversed(q[..k + 1]) + s.free == [q[k]] + f && (q[|q| - 1] == q[k] <==> k + 1 == |q|)
  {
    hide Awake, OnceEach, Content, Listed;
    var q := Nodes(s.queue);
    ReversedPush(q[..k], q[k]);
    assert q[..k + 1] == q[..k] + [q[k]];
    ReversedSame(q[..k], q[k]);
    assert q[k] in q && NodeInPlace(s, q[k]);
  }

  lemma {:induction false} ReversedPush(s: seq<int>, x: int)
    ensures Reversed(s + [x]) == [x] + Reversed(s)
  {
    if s != [] {
      ReversedPush(s[1..], x);
      assert (s + [x])[1..] == s[1..] + [x];
    }
  }

  lemma {:induction false} ReversedSame(s: seq<int>, x: int)
    ensures x in Reversed(s) <==> x in s
  {
    if s != [] {
      ReversedSame(s[1..], x);
      assert s == [s[0]] + s[1..];
    }
  }

  lemma EndedReset(s: Mq, next: map<int, int>, next': map<int, int>)
    requires Inv(s) && AllEnded(s.pc, next)
    requires forall x :: x !in Nodes(s.queue) ==> (x in next' <==> x in next) && (x in next' ==> next'[x] == next[x])
    ensures AllEnded(Do(s, Reset).pc, next')
  {
    hide Awake, OnceEach, Content;
    var pc' := Do(s, Reset).pc;
    forall u
      ensures Ended(pc', next', u)
    {
      assert Ended(s.pc, next, u);
      if u in s.pc && s.pc[u].Sending? { HeldApart(s, u, s.pc[u].node); }
    }
  }

  lemma GrabFacts(s: Mq, t: int, urgent: bool)
    requires Inv(s) && Enabled(s, Grab(t, urgent))
    ensures var s' := Do(s, Grab(t, urgent));
            s'.free == s.free[1..] && t in s'.pc && s'.pc == s.pc[t := s'.pc[t]]
                && s'.pc[t] == Sending(s.free[0], urgent, None)
            && s' == s.(free := s'.free, holder := s'.holder, pc := s'.pc)
    ensures Inv(Do(s, Grab(t, urgent)))
  {
    hide Listed, Awake, OnceEach, Content, Partitioned;
    StepKeeps(s, Grab(t, urgent));
  }

  /** A node held by t is in no list and held by nobody else. */
  lemma HeldApart(s: Mq, t: int, n: int)
    requires Partitioned(s) && HeldNode(PcOf(s, t)) == Some(n)
    ensures n in s.slot && |s.slot[n]| == s.msgSize && n !in s.free && n !in Nodes(s.queue)
    ensures forall u :: u in s.pc && u != t ==> HeldNode(s.pc[u]) != Some(n)
  {
    assert HeldNode(s.pc[t]) == Some(n) && NodeInPlace(s, n);
  }

  lemma FillFacts(s: Mq, t: int, buffer: Bytes)
    requires Inv(s) && Enabled(s, MessageQueueProtocol.Step.Fill(t, buffer))
    ensures var s' := Do(s, MessageQueueProtocol.Step.Fill(t, buffer)); var n := s.pc[t].node;
            n in s.slot && |buffer| <= |s.slot[n]| && n !in s.free && n !in Nodes(s.queue)
            && t in s'.pc && s'.pc == s.pc[t := s'.pc[t]] && s'.pc[t] == Sending(n, s.pc[t].urgent, Some(buffer))
            && s' == s.(slot := s.slot[n := buffer + s.slot[n][|buffer|..]], pc := s'.pc)
    ensures Inv(Do(s, MessageQueueProtocol.Step.Fill(t, buffer)))
  {
    hide Listed, Awake, OnceEach, Content;
    HeldApart(s, t, s.pc[t].node);
    StepKeeps(s, MessageQueueProtocol.Step.Fill(t, buffer));
  }

  /** Ending the list at t's own node does not disturb the other senders. */
  lemma EndedFilled(s: Mq, next: map<int, int>, t: int, pc': map<int, Pc>, next': map<int, int>)
    requires Inv(s) && AllEnded(s.pc, next) && t in s.pc && s.pc[t].Sending? && t in pc' && pc' == s.pc[t := pc'[t]]
    requires pc'[t].Sending? && pc'[t].node == s.pc[t].node && pc'[t].urgent == s.pc[t].urgent
    requires next' == if s.pc[t].urgent then next else next[s.pc[t].node := RT_NULL]
    ensures AllEnded(pc', next')
  {
    hide Listed, Awake, OnceEach, Content;
    var n := s.pc[t].node;
    HeldApart(s, t, n);
    forall u
      ensures Ended(pc', next', u)
    {
      assert Ended(s.pc, next, u);
      assert u in s.pc && u != t ==> HeldNode(s.pc[u]) != Some(n);
    }
  }

  lemma TakeFacts(s: Mq, t: int)
    requires Inv(s) && Enabled(s, RecvTake(t))
    ensures s.queue[|s.queue| - 1].node == s.queue[0].node <==> |s.queue| == 1
    ensures Nodes(s.queue) != [] && Nodes(s.queue)[0] == s.queue[0].node && Nodes(s.queue)[1..] == Nodes(s.queue[1..])
    ensures var s' := Do(s, RecvTake(t));
            s'.queue == s.queue[1..] && t in s'.pc && s'.pc == s.pc[t := s'.pc[t]] && s'.pc[t].Receiving?
            && s' == s.(queue := s'.queue, holder := s'.holder, pc := s'.pc, delivered := s'.delivered)
    ensures Inv(Do(s, RecvTake(t)))
  {
    hide Listed, Awake, OnceEach, Content;
    var q := Nodes(s.queue);
    assert q[0] == s.queue[0].node && q[|q| - 1] == s.queue[|q| - 1].node;
    StepKeeps(s, RecvTake(t));
  }
}
