/** Doubly linked rings as raw memory: one map per link field.

    A ring is a head node followed by the nodes of a sequence and then the head
    again; every two neighbours on that closed path point at each other. All
    lists of the kernel (rt_list_t, and the free list of a memory heap) are such
    rings, and the lemmas below say what the two pointer edits do to them. */
module Rings {

  /** The closed path that starts and ends at the head. */
  ghost function Path<T>(head: T, s: seq<T>): (p: seq<T>)
    ensures |p| == |s| + 2
  {
    [head] + s + [head]
  }

  ghost predicate NoDup<T>(s: seq<T>) {
    forall i, j :: 0 <= i < j < |s| ==> s[i] != s[j]
  }

  ghost predicate Linked<T>(next: map<T, T>, prev: map<T, T>, a: T, b: T) {
    a in next && b in prev && next[a] == b && prev[b] == a
  }

  ghost predicate Ring<T>(next: map<T, T>, prev: map<T, T>, head: T, s: seq<T>) {
    && NoDup(s)
    && head !in s
    && forall i {:trigger Path(head, s)[i]} :: 0 <= i <= |s| ==>
        Linked(next, prev, Path(head, s)[i], Path(head, s)[i + 1])
  }

  function Index<T(==)>(s: seq<T>, x: T): (k: nat)
    requires x in s
    ensures k < |s| && s[k] == x
  {
    if s[0] == x then 0 else 1 + Index(s[1..], x)
  }

  lemma {:induction false} IndexFirst<T>(s: seq<T>, x: T, k: nat)
    requires x in s && k < |s| && s[k] == x
    ensures Index(s, x) <= k
  {
    if s[0] != x { IndexFirst(s[1..], x, k - 1); }
  }

  function Without<T>(s: seq<T>, k: nat): (r: seq<T>)
    requires k < |s|
  {
    s[..k] + s[k + 1..]
  }

  function Drop<T(==)>(s: seq<T>, x: T): (r: seq<T>)
    requires x in s
    ensures |r| == |s| - 1
  {
    Without(s, Index(s, x))
  }

  function InsertAt<T>(s: seq<T>, at: nat, x: T): seq<T>
    requires at <= |s|
  {
    s[..at] + [x] + s[at..]
  }

  lemma InsertNoDup<T>(s: seq<T>, at: nat, x: T)
    requires NoDup(s) && x !in s && at <= |s|
    ensures NoDup(InsertAt(s, at, x))
    ensures forall y :: y in InsertAt(s, at, x) <==> y in s || y == x
  {
    var r := InsertAt(s, at, x);
    assert forall i :: 0 <= i < |r| ==> r[i] == (if i < at then s[i] else if i == at then x else s[i - 1]);
    forall y | y in s || y == x
      ensures y in r
    {
      if y in s {
        var i :| 0 <= i < |s| && s[i] == y;
        assert r[if i < at then i else i + 1] == y;
      } else {
        assert r[at] == x;
      }
    }
  }

  lemma HeadGone<T>(s: seq<T>)
    requires NoDup(s) && s != []
    ensures NoDup(s[1..]) && forall x :: x in s[1..] <==> x in s && x != s[0]
  {
    assert s == [s[0]] + s[1..];
  }

  lemma IndexUnique<T>(s: seq<T>, x: T, k: nat)
    requires NoDup(s) && k < |s| && s[k] == x
    ensures Index(s, x) == k
  {
    var i := Index(s, x);
    assert s[i] == x;
  }

  lemma DropKeeps<T>(s: seq<T>, x: T, y: T)
    requires x in s && y in s && y != x
    ensures y in Drop(s, x)
  {
    var k := Index(s, x);
    var i :| 0 <= i < |s| && s[i] == y;
    assert Drop(s, x)[if i < k then i else i - 1] == y;
  }

  lemma OneElement<T>(s: seq<T>, x: T)
    requires NoDup(s) && x in s && forall y :: y in s ==> y == x
    ensures s == [x]
  {
    assert s[0] in s && s[|s| - 1] in s;
    IndexUnique(s, x, 0);
    IndexUnique(s, x, |s| - 1);
  }

  lemma AppendNoDup<T>(a: seq<T>, b: seq<T>)
    requires NoDup(a) && NoDup(b) && forall x :: x in a ==> x !in b
    ensures NoDup(a + b) && forall x :: x in a + b <==> x in a || x in b
  {
    forall i, j | 0 <= i < j < |a + b|
      ensures (a + b)[i] != (a + b)[j]
    {
      if i < |a| { assert (a + b)[i] in a; }
      if j >= |a| { assert (a + b)[j] in b; }
    }
  }

  lemma DropFromTail<T>(a: T, s: seq<T>, x: T)
    requires x in s && x != a
    ensures Drop([a] + s, x) == [a] + Drop(s, x)
  {
    assert ([a] + s)[1..] == s;
  }

  /** Dropping an element of a duplicate-free sequence removes exactly that element. */
  lemma DropElements<T>(s: seq<T>, x: T)
    requires NoDup(s) && x in s
    ensures NoDup(Drop(s, x))
    ensures forall y :: y in Drop(s, x) <==> y in s && y != x
  {
    var k, d := Index(s, x), Drop(s, x);
    assert forall i :: 0 <= i < |d| ==> d[i] == s[if i < k then i else i + 1];
    forall y | y in s && y != x
      ensures y in d
    {
      DropKeeps(s, x, y);
    }
  }

  ghost function Elements<T>(q: seq<T>): set<T> {
    set x | x in q
  }

  lemma {:induction false} ElementCount<T>(q: seq<T>)
    requires NoDup(q)
    ensures |Elements(q)| == |q|
  {
    if q != [] {
      ElementCount(q[1..]);
      assert q == [q[0]] + q[1..];
      assert q[0] !in q[1..];
      assert Elements(q) == Elements(q[1..]) + {q[0]};
    }
  }

  /** A subset with as many elements is the whole set. */
  lemma {:induction false} SameSize<T>(a: set<T>, b: set<T>)
    requires a <= b && |a| == |b|
    ensures a == b
    decreases b
  {
    if a != b {
      var x :| x in b && x !in a;
      assert a <= b - {x};
      SubsetSize(a, b - {x});
    }
  }

  lemma {:induction false} SubsetSize<T>(a: set<T>, b: set<T>)
    requires a <= b
    ensures |a| <= |b|
    decreases a
  {
    if a != {} {
      var x :| x in a;
      SubsetSize(a - {x}, b - {x});
    }
  }

  /** The node before position k of the contents (the head for k = 0). */
  ghost function Before<T>(head: T, s: seq<T>, k: nat): T
    requires k <= |s|
  {
    if k == 0 then head else s[k - 1]
  }

  /** The node at position k of the contents (the head for k = |s|). */
  ghost function At<T>(head: T, s: seq<T>, k: nat): T
    requires k <= |s|
  {
    if k == |s| then head else s[k]
  }

  lemma RingStep<T>(next: map<T, T>, prev: map<T, T>, head: T, s: seq<T>, k: nat)
    requires Ring(next, prev, head, s) && k <= |s|
    ensures Linked(next, prev, Before(head, s, k), At(head, s, k))
  {
    assert Path(head, s)[k] == Before(head, s, k);
    assert Path(head, s)[k + 1] == At(head, s, k);
  }

  /** Pointer edits to nodes that are not on the ring leave it alone. */
  lemma RingFrame<T>(next: map<T, T>, prev: map<T, T>, next': map<T, T>, prev': map<T, T>, head: T, s: seq<T>)
    requires Ring(next, prev, head, s)
    requires forall x :: x == head || x in s ==> x in next' && x in prev'
    requires forall x :: x == head || x in s ==> x in next && next'[x] == next[x]
    requires forall x :: x == head || x in s ==> x in prev && prev'[x] == prev[x]
    ensures Ring(next', prev', head, s)
  {
    var p := Path(head, s);
    forall i {:trigger p[i]} | 0 <= i <= |s|
      ensures Linked(next', prev', p[i], p[i + 1])
    {
      assert Linked(next, prev, p[i], p[i + 1]);
      assert (p[i] == head || p[i] in s) && (p[i + 1] == head || p[i + 1] in s);
    }
  }

  lemma RingNodes<T>(next: map<T, T>, prev: map<T, T>, head: T, s: seq<T>)
    requires Ring(next, prev, head, s)
    ensures forall x :: x == head || x in s ==> x in next && x in prev
  {
    forall x | x == head || x in s
      ensures x in next && x in prev
    {
      if x == head {
        RingStep(next, prev, head, s, 0);
        RingStep(next, prev, head, s, |s|);
      } else {
        var k :| 0 <= k < |s| && s[k] == x;
        RingStep(next, prev, head, s, k);
        RingStep(next, prev, head, s, k + 1);
      }
    }
  }

  /** Linking a fresh node n in before position k makes it element k. */
  lemma RingInsert<T>(next: map<T, T>, prev: map<T, T>, next': map<T, T>, prev': map<T, T>,
                      head: T, s: seq<T>, k: nat, n: T)
    requires Ring(next, prev, head, s) && k <= |s|
    requires n != head && n !in s
    requires next' == next[Before(head, s, k) := n][n := At(head, s, k)]
    requires prev' == prev[At(head, s, k) := n][n := Before(head, s, k)]
    ensures Ring(next', prev', head, InsertAt(s, k, n))
  {
    var s' := InsertAt(s, k, n);
    var p, p' := Path(head, s), Path(head, s');
    forall i {:trigger p'[i]} | 0 <= i <= |s'|
      ensures Linked(next', prev', p'[i], p'[i + 1])
    {
      if i < k {
        assert p'[i] == p[i] && p'[i + 1] == p[i + 1];
        assert Linked(next, prev, p[i], p[i + 1]);
        assert p[i] != Before(head, s, k);
        assert p[i + 1] != At(head, s, k);
      } else if i == k {
        assert p'[i] == Before(head, s, k) && p'[i + 1] == n;
      } else if i == k + 1 {
        assert p'[i] == n && p'[i + 1] == At(head, s, k);
      } else {
        assert p'[i] == p[i - 1] && p'[i + 1] == p[i];
        assert Linked(next, prev, p[i - 1], p[i]);
        assert p[i - 1] != Before(head, s, k);
        assert p[i] != At(head, s, k);
      }
    }
  }

  /** Linking the neighbours of element k to each other takes it off the ring. */
  lemma RingRemove<T>(next: map<T, T>, prev: map<T, T>, next': map<T, T>, prev': map<T, T>,
                      head: T, s: seq<T>, k: nat)
    requires Ring(next, prev, head, s) && k < |s|
    requires forall x :: (x == head || x in s) && x != s[k] ==> x in next' && x in prev'
    requires forall x :: (x == head || x in s) && x != s[k] ==>
                           next'[x] == (if x == Before(head, s, k) then At(head, s, k + 1)
                                       else if x in next then next[x] else x)
    requires forall x :: (x == head || x in s) && x != s[k] ==>
                           prev'[x] == (if x == At(head, s, k + 1) then Before(head, s, k)
                                       else if x in prev then prev[x] else x)
    ensures Ring(next', prev', head, Without(s, k))
  {
    var s' := Without(s, k);
    var p, p' := Path(head, s), Path(head, s');
    forall i {:trigger p'[i]} | 0 <= i <= |s'|
      ensures Linked(next', prev', p'[i], p'[i + 1])
    {
      if i < k {
        assert p'[i] == p[i] && p'[i + 1] == p[i + 1];
        assert Linked(next, prev, p[i], p[i + 1]);
        assert p[i] != Before(head, s, k);
        assert p[i + 1] != At(head, s, k + 1);
      } else if i == k {
        assert p'[i] == Before(head, s, k) && p'[i + 1] == At(head, s, k + 1);
      } else {
        assert p'[i] == p[i + 1] && p'[i + 1] == p[i + 2];
        assert Linked(next, prev, p[i + 1], p[i + 2]);
        assert p[i + 1] != Before(head, s, k);
        assert p[i + 2] != At(head, s, k + 1);
      }
    }
  }
}
