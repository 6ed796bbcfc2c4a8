/** ipc.c: the mailbox, a ring buffer of words with two lists of suspended threads. */
module Mailbox {
  import opened Rings
  import opened Threads
  import opened IpcLists

  datatype Pc = Idle | RecvBlocked | RecvWoken | SendBlocked | SendWoken

  /** sent and got record the mails that went in and came out since the last reset. */
  datatype Mb = Mb(size: nat, mails: seq<int>, recvWait: seq<int>, sendWait: seq<int>, pc: map<int, Pc>,
                   sent: seq<int>, got: seq<int>)

  ghost predicate Listed(s: Mb) {
    && NoDup(s.recvWait) && NoDup(s.sendWait)
    && (forall t :: t in s.recvWait <==> t in s.pc && s.pc[t] == RecvBlocked)
    && (forall t :: t in s.sendWait <==> t in s.pc && s.pc[t] == SendBlocked)
  }

  /** No lost wake-up, in both directions. */
  ghost predicate Awake(s: Mb) {
    && (s.recvWait != [] ==> |s.mails| <= |In(s.pc, RecvWoken)|)
    && (s.sendWait != [] ==> s.size - |s.mails| <= |In(s.pc, SendWoken)|)
  }

  ghost predicate Inv(s: Mb) {
    |s.mails| <= s.size && Listed(s) && Awake(s) && s.sent == s.got + s.mails
  }

  datatype Step =
    | RecvWait(t: int, at: nat)
    | RecvGiveUp(t: int)
    | Recv(t: int)
    | SendWait(t: int, at: nat)
    | SendGiveUp(t: int)
    | Send(t: int, mail: int)
    | Timeout(t: int)
    | Reset

  function PcOf(s: Mb, t: int): Pc {
    if t in s.pc then s.pc[t] else Idle
  }

  ghost predicate Enabled(s: Mb, a: Step) {
    match a
    case RecvWait(t, at) => (PcOf(s, t) == Idle || PcOf(s, t) == RecvWoken) && s.mails == [] && at <= |s.recvWait|
    case RecvGiveUp(t) => PcOf(s, t) == RecvWoken && s.mails == []
    case Recv(t) => (PcOf(s, t) == Idle || PcOf(s, t) == RecvWoken) && s.mails != []
    case SendWait(t, at) => (PcOf(s, t) == Idle || PcOf(s, t) == SendWoken) && |s.mails| == s.size && at <= |s.sendWait|
    case SendGiveUp(t) => PcOf(s, t) == SendWoken && |s.mails| == s.size
    case Send(t, mail) => (PcOf(s, t) == Idle || PcOf(s, t) == SendWoken) && |s.mails| < s.size
    case Timeout(t) => PcOf(s, t) == RecvBlocked || PcOf(s, t) == SendBlocked
    case Reset => true
  }

  function WakeRecv(s: Mb): Mb {
    if s.recvWait == [] then s else s.(recvWait := s.recvWait[1..], pc := s.pc[s.recvWait[0] := RecvWoken])
  }

  function WakeSend(s: Mb): Mb {
    if s.sendWait == [] then s else s.(sendWait := s.sendWait[1..], pc := s.pc[s.sendWait[0] := SendWoken])
  }

  function Do(s: Mb, a: Step): Mb
    requires Inv(s) && Enabled(s, a)
  {
    match a
    case RecvWait(t, at) => s.(recvWait := InsertAt(s.recvWait, at, t), pc := s.pc[t := RecvBlocked])
    case RecvGiveUp(t) => s.(pc := s.pc[t := Idle])
    case Recv(t) => WakeSend(s.(mails := s.mails[1..], got := s.got + [s.mails[0]], pc := s.pc[t := Idle]))
    case SendWait(t, at) => s.(sendWait := InsertAt(s.sendWait, at, t), pc := s.pc[t := SendBlocked])
    case SendGiveUp(t) => s.(pc := s.pc[t := Idle])
    case Send(t, mail) => WakeRecv(s.(mails := s.mails + [mail], sent := s.sent + [mail], pc := s.pc[t := Idle]))
    case Timeout(t) =>
      if s.pc[t] == RecvBlocked then s.(recvWait := Drop(s.recvWait, t), pc := s.pc[t := Idle])
      else s.(sendWait := Drop(s.sendWait, t), pc := s.pc[t := Idle])
    case Reset =>
      s.(mails := [], recvWait := [], sendWait := [], sent := [], got := [],
         pc := map t | t in s.pc :: if t in s.recvWait + s.sendWait then Idle else s.pc[t])
  }

  lemma WaitKeeps(s: Mb, a: Step)
    requires Inv(s) && Enabled(s, a) && (a.RecvWait? || a.SendWait? || a.RecvGiveUp? || a.SendGiveUp? || a.Timeout?)
    ensures Inv(Do(s, a))
  {
    var s' := Do(s, a);
    InUpdate(s.pc, a.t, s'.pc[a.t], RecvWoken);
    InUpdate(s.pc, a.t, s'.pc[a.t], SendWoken);
    match a
    case RecvWait(t, at) => InsertNoDup(s.recvWait, at, t);
    case SendWait(t, at) => InsertNoDup(s.sendWait, at, t);
    case Timeout(t) => if s.pc[t] == RecvBlocked { DropElements(s.recvWait, t); } else { DropElements(s.sendWait, t); }
    case _ =>
  }

  lemma WakeRecvKeeps(s: Mb)
    requires Listed(s) && |s.mails| <= s.size && s.sent == s.got + s.mails
    requires s.recvWait != [] ==> |s.mails| <= |In(s.pc, RecvWoken)| + 1
    requires s.sendWait != [] ==> s.size - |s.mails| <= |In(s.pc, SendWoken)|
    ensures Inv(WakeRecv(s))
  {
    if s.recvWait != [] {
      var t := s.recvWait[0];
      assert t in s.recvWait;
      InUpdate(s.pc, t, RecvWoken, RecvWoken);
      InUpdate(s.pc, t, RecvWoken, SendWoken);
      HeadGone(s.recvWait);
    }
  }

  lemma WakeSendKeeps(s: Mb)
    requires Listed(s) && |s.mails| <= s.size && s.sent == s.got + s.mails
    requires s.recvWait != [] ==> |s.mails| <= |In(s.pc, RecvWoken)|
    requires s.sendWait != [] ==> s.size - |s.mails| <= |In(s.pc, SendWoken)| + 1
    ensures Inv(WakeSend(s))
  {
    if s.sendWait != [] {
      var t := s.sendWait[0];
      assert t in s.sendWait;
      InUpdate(s.pc, t, SendWoken, RecvWoken);
      InUpdate(s.pc, t, SendWoken, SendWoken);
      HeadGone(s.sendWait);
    }
  }

  lemma StepKeeps(s: Mb, a: Step)
    requires Inv(s) && Enabled(s, a)
    ensures Inv(Do(s, a))
  {
    match a
    case Recv(t) =>
      InUpdate(s.pc, t, Idle, RecvWoken);
      InUpdate(s.pc, t, Idle, SendWoken);
      WakeSendKeeps(s.(mails := s.mails[1..], got := s.got + [s.mails[0]], pc := s.pc[t := Idle]));
    case Send(t, mail) =>
      InUpdate(s.pc, t, Idle, RecvWoken);
      InUpdate(s.pc, t, Idle, SendWoken);
      WakeRecvKeeps(s.(mails := s.mails + [mail], sent := s.sent + [mail], pc := s.pc[t := Idle]));
    case Reset =>
    case _ => WaitKeeps(s, a);
  }

  function Fresh(size: nat): Mb {
    Mb(size, [], [], [], map[], [], [])
  }

  ghost predicate Run(s: Mb, steps: seq<Step>, s': Mb)
    requires Inv(s)
    decreases |steps|
  {
    if steps == [] then s' == s
    else Enabled(s, steps[0]) && (StepKeeps(s, steps[0]); Run(Do(s, steps[0]), steps[1..], s'))
  }

  /** Over every interleaving mails come out in the order they went in, none lost or doubled, and
      nobody sleeps while there is something to do that no woken thread is on its way to do. */
  lemma {:induction false} RunsKeep(s: Mb, steps: seq<Step>, s': Mb)
    requires Inv(s) && Run(s, steps, s')
    ensures s'.sent == s'.got + s'.mails && s'.size == s.size
    ensures s'.recvWait != [] ==> |s'.mails| <= |In(s'.pc, RecvWoken)|
    ensures s'.sendWait != [] ==> s'.size - |s'.mails| <= |In(s'.pc, SendWoken)|
    ensures s'.recvWait != [] && s'.mails != [] ==> exists t :: t in s'.pc && s'.pc[t] == RecvWoken
    ensures s'.sendWait != [] && |s'.mails| < s'.size ==> exists t :: t in s'.pc && s'.pc[t] == SendWoken
    decreases |steps|
  {
    if steps != [] {
      StepKeeps(s, steps[0]);
      RunsKeep(Do(s, steps[0]), steps[1..], s');
    } else {
      if s.recvWait != [] && s.mails != [] { SomeIn(s.pc, RecvWoken); }
      if s.sendWait != [] && |s.mails| < s.size { SomeIn(s.pc, SendWoken); }
    }
  }

  // ------------------------------------------------------------ the ring buffer

  /** Slot k of the entries that start at offset out. */
  function Slot(size: nat, out: nat, k: nat): nat {
    if out + k < size then out + k else out + k - size
  }

  datatype Outcome = Failed | Suspended | Done(mail: int)

  class Mailbox {
    const pool: array<int>
    var entry: nat
    var inOffset: nat
    var outOffset: nat
    var recvWait: seq<int>
    var sendWait: seq<int>

    ghost var st: Mb

    /** The offsets are inside the pool, as far apart as there are mails. */
    ghost predicate Placed()
      requires pool.Length > 0
      reads this
    {
      && inOffset < pool.Length && outOffset < pool.Length && entry <= pool.Length
      && inOffset == Slot(pool.Length, outOffset, if entry == pool.Length then 0 else entry)
    }

    ghost predicate Valid()
      reads this, pool
    {
      && Inv(st) && st.size == pool.Length && st.recvWait == recvWait && st.sendWait == sendWait
      && entry == |st.mails|
      && (if pool.Length == 0 then inOffset == outOffset == 0 else Placed())
      && forall k :: 0 <= k < entry ==> pool[Slot(pool.Length, outOffset, k)] == st.mails[k]
    }

    /** rt_mb_init */
    constructor (size: nat)
      ensures Valid() && st == Fresh(size) && fresh(pool)
    {
      pool := new int[size];
      entry, inOffset, outOffset, recvWait, sendWait := 0, 0, 0, [], [];
      st := Fresh(size);
    }

    /** One pass of rt_mb_send_wait with interrupts off. */
    method SendSection(t: int, value: int, timeout: int, flag: Flag, prio: map<int, nat>) returns (r: Outcome)
      requires Valid() && (PcOf(st, t) == Idle || PcOf(st, t) == SendWoken)
      modifies this, pool
      ensures Valid()
      ensures r.Failed? <==> |old(st).mails| == old(st).size && timeout == 0
      ensures r.Suspended? <==> |old(st).mails| == old(st).size && timeout != 0
      ensures match r
              case Failed => st == (if PcOf(old(st), t) == SendWoken then Do(old(st), SendGiveUp(t)) else old(st))
              case Suspended =>
                exists at :: Position(old(sendWait), t, flag, prio, at) && Enabled(old(st), SendWait(t, at))
                    && st == Do(old(st), SendWait(t, at))
              case Done(_) => Enabled(old(st), Send(t, value)) && st == Do(old(st), Send(t, value))
    {
      hide Inv;
      ghost var s := st;
      Bounds(s);
      if entry == pool.Length {
        if timeout == 0 {
          if PcOf(s, t) == SendWoken {
            StepKeeps(s, SendGiveUp(t));
            st := Do(s, SendGiveUp(t));
          }
          return Failed;
        }
        ghost var at;
        sendWait, at := ListSuspend(sendWait, t, flag, prio);
        StepKeeps(s, SendWait(t, at));
        st := Do(s, SendWait(t, at));
        return Suspended;
      }
      StepKeeps(s, Send(t, value));
      pool[inOffset] := value;
      inOffset := inOffset + 1;
      if inOffset >= pool.Length {
        inOffset := 0;
      }
      entry := entry + 1;
      if recvWait != [] {
        recvWait := recvWait[1..];
      }
      st := Do(s, Send(t, value));
      return Done(value);
    }

    /** One pass of rt_mb_recv with interrupts off. */
    method RecvSection(t: int, timeout: int, flag: Flag, prio: map<int, nat>) returns (r: Outcome)
      requires Valid() && (PcOf(st, t) == Idle || PcOf(st, t) == RecvWoken)
      modifies this
      ensures Valid()
      ensures r.Failed? <==> old(st).mails == [] && timeout == 0
      ensures r.Suspended? <==> old(st).mails == [] && timeout != 0
      ensures match r
              case Failed => st == (if PcOf(old(st), t) == RecvWoken then Do(old(st), RecvGiveUp(t)) else old(st))
              case Suspended =>
                exists at :: Position(old(recvWait), t, flag, prio, at) && Enabled(old(st), RecvWait(t, at))
                    && st == Do(old(st), RecvWait(t, at))
              case Done(mail) => Enabled(old(st), Recv(t)) && st == Do(old(st), Recv(t)) && mail == old(st).mails[0]
    {
      hide Inv;
      ghost var s := st;
      Bounds(s);
      if entry == 0 {
        if timeout == 0 {
          if PcOf(s, t) == RecvWoken {
            StepKeeps(s, RecvGiveUp(t));
            st := Do(s, RecvGiveUp(t));
          }
          return Failed;
        }
        ghost var at;
        recvWait, at := ListSuspend(recvWait, t, flag, prio);
        StepKeeps(s, RecvWait(t, at));
        st := Do(s, RecvWait(t, at));
        return Suspended;
      }
      var mail := TakeMail(t);
      return Done(mail);
    }

    /** The oldest mail leaves the buffer, and the first suspended sender is resumed. */
    method TakeMail(t: int) returns (value: int)
      requires Valid() && Enabled(st, Recv(t))
      modifies this
      ensures Valid() && old(st).mails != [] && st == Do(old(st), Recv(t)) && value == old(st).mails[0]
    {
      hide Inv;
      ghost var s := st;
      Bounds(s);
      StepKeeps(s, Recv(t));
      assert Slot(pool.Length, outOffset, 0) == outOffset;
      value := pool[outOffset];
      outOffset := outOffset + 1;
      if outOffset >= pool.Length {
        outOffset := 0;
      }
      entry := entry - 1;
      if sendWait != [] {
        sendWait := sendWait[1..];
      }
      st := Do(s, Recv(t));
    }

    /** rt_mb_control with RT_IPC_CMD_RESET */
    method ResetSection()
      requires Valid()
      modifies this
      ensures st == Do(old(st), Reset)
      ensures Valid()
    {
      hide Inv;
      StepKeeps(st, Reset);
      recvWait, sendWait := [], [];
      entry, inOffset, outOffset := 0, 0, 0;
      st := Do(st, Reset);
    }

    /** The thread timer takes t off the list it sleeps in. */
    method TimeoutSection(t: int)
      requires Valid() && Enabled(st, Timeout(t))
      modifies this
      ensures st == Do(old(st), Timeout(t))
      ensures Valid()
    {
      StepKeeps(st, Timeout(t));
      if t in recvWait {
        recvWait := Drop(recvWait, t);
      } else {
        sendWait := Drop(sendWait, t);
      }
      st := Do(st, Timeout(t));
    }
  }

  lemma Bounds(s: Mb)
    requires Inv(s)
    ensures |s.mails| <= s.size
  {
  }
}
