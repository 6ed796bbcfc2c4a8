/** ipc.c: what the steps on a mailbox do, and what comes out of it over whole runs. */
module MailboxLaws {
  import opened Rings
  import opened Mailbox

  /** The mails given to the sends since the last reset, in their order */
  function SentBy(steps: seq<Step>, before: seq<int>): seq<int> {
    if steps == [] then before
    else
      var a := steps[0];
      SentBy(steps[1..], if a.Reset? then [] else if a.Send? then before + [a.mail] else before)
  }

  /** How often a mail was taken out since the last reset */
  function Taken(steps: seq<Step>, before: nat): nat {
    if steps == [] then before
    else
      var a := steps[0];
      Taken(steps[1..], if a.Reset? then 0 else if a.Recv? then before + 1 else before)
  }

  /** Over every run the mailbox holds the mails that were sent, in that order, without those taken out: the next
      receive gives the oldest one left, each is given once, and no other value ever is. */
  lemma FirstInFirstOut(size: nat, steps: seq<Step>, s: Mb)
    requires Inv(Fresh(size)) && Run(Fresh(size), steps, s)
    ensures var sent, k := SentBy(steps, []), Taken(steps, 0); k <= |sent| && s.mails == sent[k..] && |s.mails| <= size
  {
    Holds(Fresh(size), steps, s, []);
  }

  lemma {:induction false} Holds(s: Mb, steps: seq<Step>, s': Mb, gone: seq<int>)
    requires Inv(s) && Run(s, steps, s')
    ensures var sent, k := SentBy(steps, gone + s.mails), Taken(steps, |gone|);
              k <= |sent| && s'.mails == sent[k..] && |s'.mails| <= s.size
    decreases |steps|
  {
    hide Inv, Do, Enabled;
    Bounds(s);
    if steps == [] {
      assert (gone + s.mails)[|gone|..] == s.mails;
    } else {
      var a, s1 := steps[0], Do(s, steps[0]);
      StepKeeps(s, a);
      MailsStep(s, a);
      if a.Reset? {
        Holds(s1, steps[1..], s', []);
        assert [] + s1.mails == [];
      } else if a.Recv? {
        assert gone + s.mails == gone + [s.mails[0]] + s1.mails;
        Holds(s1, steps[1..], s', gone + [s.mails[0]]);
      } else {
        assert a.Send? ==> gone + s1.mails == gone + s.mails + [a.mail];
        Holds(s1, steps[1..], s', gone);
      }
    }
  }

  lemma MailsStep(s: Mb, a: Step)
    requires Inv(s) && Enabled(s, a)
    ensures a.Recv? ==> s.mails != []
    ensures var s' := Do(s, a);
            s'.size == s.size && s'.mails == match a
              case Send(_, mail) => s.mails + [mail]
              case Recv(_) => s.mails[1..]
              case Reset => []
              case _ => s.mails
  {
  }

  // ------------------------------------------------------------------- threads

  /** A send wakes the receiver that is first in the list, if there is one; a receive the first sender. */
  lemma FirstIsWoken(s: Mb, a: Step)
    requires Inv(s) && Enabled(s, a) && (a.Send? || a.Recv?)
    ensures var s', list := Do(s, a), if a.Send? then s.recvWait else s.sendWait;
            && (if a.Send? then s'.sendWait == s.sendWait else s'.recvWait == s.recvWait)
            && (list == [] ==> s'.recvWait == s.recvWait && s'.sendWait == s.sendWait && s'.pc == s.pc[a.t := Idle])
            && (list != [] ==>
                  && (if a.Send? then s'.recvWait else s'.sendWait) == list[1..]
                  && s'.pc == s.pc[a.t := Idle][list[0] := if a.Send? then RecvWoken else SendWoken])
  {
  }

  /** A thread that waits stands at its place in one list; nobody else is touched, and no mail. */
  lemma WaitsOnly(s: Mb, a: Step)
    requires Inv(s) && Enabled(s, a) && (a.RecvWait? || a.SendWait?)
    ensures var s' := Do(s, a);
            && s'.mails == s.mails
            && (a.RecvWait? ==> s'.recvWait == InsertAt(s.recvWait, a.at, a.t) && s'.sendWait == s.sendWait)
            && (a.SendWait? ==> s'.sendWait == InsertAt(s.sendWait, a.at, a.t) && s'.recvWait == s.recvWait)
            && s'.pc == s.pc[a.t := if a.RecvWait? then RecvBlocked else SendBlocked]
  {
  }

  /** A timeout takes one thread off the list it is in; a thread that gives up is in none. */
  lemma LeavesOnly(s: Mb, a: Step)
    requires Inv(s) && Enabled(s, a) && (a.Timeout? || a.RecvGiveUp? || a.SendGiveUp?)
    ensures var s' := Do(s, a);
            && s'.mails == s.mails && s'.pc == s.pc[a.t := Idle]
            && s'.recvWait == (if a.t in s.recvWait then Drop(s.recvWait, a.t) else s.recvWait)
            && s'.sendWait == (if a.t in s.sendWait then Drop(s.sendWait, a.t) else s.sendWait)
  {
  }

  /** A reset sends everybody home who waits, and nobody else. */
  lemma ResetOnly(s: Mb)
    requires Inv(s)
    ensures var s' := Do(s, Reset);
            && s'.mails == [] && s'.recvWait == [] && s'.sendWait == [] && s'.pc.Keys == s.pc.Keys
            && forall t :: t in s.pc ==> s'.pc[t] == if t in s.recvWait || t in s.sendWait then Idle else s.pc[t]
  {
  }
}
