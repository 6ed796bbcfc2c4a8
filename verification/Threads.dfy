/** Counting the threads that are at one point of a protocol. */
module Threads {

  ghost function In<P>(pc: map<int, P>, p: P): set<int> {
    set t | t in pc && pc[t] == p
  }

  lemma InUpdate<P>(pc: map<int, P>, t: int, p: P, q: P)
    ensures |In(pc[t := p], q)| == |In(pc, q)| + (if p == q then 1 else 0) - (if t in pc && pc[t] == q then 1 else 0)
  {
    var i, i' := In(pc, q), In(pc[t := p], q);
    if p == q {
      assert i' == i + {t};
    } else {
      assert i' == i - {t};
    }
  }

  lemma SomeIn<P>(pc: map<int, P>, p: P)
    requires |In(pc, p)| > 0
    ensures exists t :: t in pc && pc[t] == p
  {
    var i := In(pc, p);
    assert (forall t :: t !in i) ==> i == {};
    var t :| t in i;
    assert t in pc;
  }
}
