/** The lists of suspended threads of the IPC objects (ipc.c), as sequences of threads.
    KernelLists shows that the kernel's rings behave as such sequences, and Scheduler.IpcListSuspend
    searches and links the ring itself. */
module IpcLists {
  import opened Rings

  /** RT_IPC_FLAG_FIFO and RT_IPC_FLAG_PRIO */
  datatype Flag = Fifo | Prio

  function PriorityOf(prio: map<int, nat>, t: int): nat {
    if t in prio then prio[t] else 0
  }

  ghost predicate Sorted(list: seq<int>, prio: map<int, nat>) {
    forall i, j :: 0 <= i < j < |list| ==> PriorityOf(prio, list[i]) <= PriorityOf(prio, list[j])
  }

  /** Where rt_ipc_list_suspend puts a thread: last, or before the first less urgent one. */
  ghost predicate Position(list: seq<int>, thread: int, flag: Flag, prio: map<int, nat>, at: nat) {
    && at <= |list|
    && (flag == Fifo ==> at == |list|)
    && (flag == Prio ==> (forall i :: 0 <= i < at ==> PriorityOf(prio, list[i]) <= PriorityOf(prio, thread))
                         && (at < |list| ==> PriorityOf(prio, thread) < PriorityOf(prio, list[at])))
  }

  /** rt_ipc_list_suspend */
  method ListSuspend(list: seq<int>, thread: int, flag: Flag, prio: map<int, nat>)
      returns (list': seq<int>, ghost at: nat)
    ensures Position(list, thread, flag, prio, at) && list' == InsertAt(list, at, thread)
  {
    match flag
    case Fifo =>
      at := |list|;
      list' := list + [thread];
    case Prio =>
      var n := 0;
      while n < |list| && PriorityOf(prio, list[n]) <= PriorityOf(prio, thread)
        invariant n <= |list|
        invariant forall i :: 0 <= i < n ==> PriorityOf(prio, list[i]) <= PriorityOf(prio, thread)
      {
        n := n + 1;
      }
      at := n;
      list' := list[..n] + [thread] + list[n..];
  }

  /** There is one place for a thread: the end of the list with FIFO; in a sorted list with PRIO the place behind all
      that are as urgent or more. */
  lemma PlaceExact(list: seq<int>, thread: int, prio: map<int, nat>, at: nat)
    requires at <= |list|
    ensures Position(list, thread, Fifo, prio, at) <==> at == |list|
    ensures Sorted(list, prio) ==>
              (Position(list, thread, Prio, prio, at)
               <==> forall i :: 0 <= i < |list| ==> (i < at <==> PriorityOf(prio, list[i]) <= PriorityOf(prio, thread)))
  {
  }

  /** A priority list stays sorted, and threads of one priority stay in the order they came. */
  lemma SuspendSorted(list: seq<int>, thread: int, prio: map<int, nat>, at: nat)
    requires Sorted(list, prio) && Position(list, thread, Prio, prio, at)
    ensures Sorted(InsertAt(list, at, thread), prio)
    ensures forall i :: at < i <= |list| ==> PriorityOf(prio, InsertAt(list, at, thread)[i]) > PriorityOf(prio, thread)
  {
    var r := InsertAt(list, at, thread);
    assert forall i :: 0 <= i < |r| ==> r[i] == (if i < at then list[i] else if i == at then thread else list[i - 1]);
  }
}
