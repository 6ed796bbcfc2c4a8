/** rtservice.h: the doubly linked lists of the kernel, and that they behave as sequences. */
module KernelLists {
  import opened Rings

  /** lists gives the contents of every list by its head, on the list every node is on. A node
      that is on no list points to itself. */
  ghost predicate Placed<T(!new)>(next: map<T, T>, prev: map<T, T>, lists: map<T, seq<T>>, on: map<T, T>, h: T) {
    && h in lists && h in next && h in prev && h !in on
    && Ring(next, prev, h, lists[h])
    && forall i :: 0 <= i < |lists[h]| ==> var x := lists[h][i]; x in next && x in prev && x in on && on[x] == h
  }

  ghost predicate Loose<T>(next: map<T, T>, prev: map<T, T>, lists: map<T, seq<T>>, on: map<T, T>, n: T) {
    n in next && n in prev && n !in lists && n !in on && next[n] == n && prev[n] == n
  }

  ghost predicate Wf<T(!new)>(next: map<T, T>, prev: map<T, T>, lists: map<T, seq<T>>, on: map<T, T>) {
    && (forall h {:trigger Placed(next, prev, lists, on, h)} :: h in lists ==> Placed(next, prev, lists, on, h))
    && (forall n :: n in on ==> on[n] in lists && n in lists[on[n]])
    && (forall n {:trigger Loose(next, prev, lists, on, n)} :: n in next && n !in lists && n !in on ==>
        Loose(next, prev, lists, on, n))
  }

  /** An edit of the ring of h leaves the others alone. */
  lemma OtherRings<T(!new)>(next: map<T, T>, prev: map<T, T>, lists: map<T, seq<T>>, on: map<T, T>,
                            next': map<T, T>, prev': map<T, T>, lists': map<T, seq<T>>, on': map<T, T>, g: T)
    requires Placed(next, prev, lists, on, g) && g in lists' && lists'[g] == lists[g]
    requires next.Keys <= next'.Keys && prev.Keys <= prev'.Keys && g !in on'
    requires forall x :: x in on && on[x] == g ==> x in on' && on'[x] == g
    requires forall x :: x in next && x in prev && (x == g || (x in on && on[x] == g)) ==>
               next'[x] == next[x]
               && prev'[x] == prev[x]
    ensures Placed(next', prev', lists', on', g)
  {
    var s := lists[g];
    forall x | x == g || x in s
      ensures x in next && x in prev && x in next' && x in prev' && next'[x] == next[x] && prev'[x] == prev[x]
      ensures x != g ==> x in on && on[x] == g
    {
      if x != g { var i := Index(s, x); assert s[i] == x; }
    }
    RingFrame(next, prev, next', prev', g, s);
    forall i | 0 <= i < |s|
      ensures s[i] in on' && on'[s[i]] == g && s[i] in next' && s[i] in prev'
    {
      assert s[i] in s;
    }
  }

  lemma NewHead<T(!new)>(next: map<T, T>, prev: map<T, T>, lists: map<T, seq<T>>, on: map<T, T>, l: T)
    requires Wf(next, prev, lists, on) && l !in next
    ensures Wf(next[l := l], prev[l := l], lists[l := []], on)
  {
    var next', prev', lists' := next[l := l], prev[l := l], lists[l := []];
    assert l !in lists && l !in on by { NodesKnown(next, prev, lists, on, l); }
    forall g | g in lists'
      ensures Placed(next', prev', lists', on, g)
    {
      if g != l {
        assert Placed(next, prev, lists, on, g);
        OtherRings(next, prev, lists, on, next', prev', lists', on, g);
      }
    }
    forall n | n in next' && n !in lists' && n !in on
      ensures Loose(next', prev', lists', on, n)
    {
      assert Loose(next, prev, lists, on, n);
    }
  }

  lemma NodesKnown<T(!new)>(next: map<T, T>, prev: map<T, T>, lists: map<T, seq<T>>, on: map<T, T>, n: T)
    requires Wf(next, prev, lists, on)
    ensures n in lists || n in on ==> n in next && n in prev
    ensures n in on ==> on[n] in lists && n in lists[on[n]]
    ensures n in lists ==> n !in on
  {
    if n in lists { assert Placed(next, prev, lists, on, n); }
    if n in on {
      var h := on[n];
      assert Placed(next, prev, lists, on, h);
      assert lists[h][Index(lists[h], n)] == n;
    }
  }

  /** What the neighbours at place k of a list are, and on which list they are. */
  lemma Neighbours<T(!new)>(next: map<T, T>, prev: map<T, T>, lists: map<T, seq<T>>, on: map<T, T>, h: T, k: nat)
    requires Wf(next, prev, lists, on) && h in lists && k <= |lists[h]|
    ensures var b, a := Rings.Before(h, lists[h], k), At(h, lists[h], k);
            && b in next && a in prev && next[b] == a && prev[a] == b
            && b in prev && a in next
            && (b != h ==> b in on && on[b] == h) && (a != h ==> a in on && on[a] == h)
  {
    assert Placed(next, prev, lists, on, h);
    RingStep(next, prev, h, lists[h], k);
    RingNodes(next, prev, h, lists[h]);
  }

  lemma InsertKeeps<T(!new)>(next: map<T, T>, prev: map<T, T>, lists: map<T, seq<T>>, on: map<T, T>,
                             next': map<T, T>, prev': map<T, T>, lists': map<T, seq<T>>, on': map<T, T>, h: T,
                                 k: nat, n: T)
    requires Wf(next, prev, lists, on) && h in lists && k <= |lists[h]| && Loose(next, prev, lists, on, n)
    requires next' == next[Rings.Before(h, lists[h], k) := n][n := At(h, lists[h], k)]
    requires prev' == prev[At(h, lists[h], k) := n][n := Rings.Before(h, lists[h], k)]
    requires lists' == lists[h := InsertAt(lists[h], k, n)] && on' == on[n := h]
    ensures Wf(next', prev', lists', on')
  {
    var s, s' := lists[h], lists'[h];
    Neighbours(next, prev, lists, on, h, k);
    assert Placed(next, prev, lists, on, h);
    assert forall i :: 0 <= i < |s| ==> s[i] in on;
    RingInsert(next, prev, next', prev', h, s, k, n);
    InsertNoDup(s, k, n);
    forall i | 0 <= i < |s'|
      ensures s'[i] in next' && s'[i] in prev' && s'[i] in on' && on'[s'[i]] == h
    {
      if i != k { assert s'[i] == s[if i < k then i else i - 1]; }
    }
    forall g | g in lists'
      ensures Placed(next', prev', lists', on', g)
    {
      if g != h {
        assert Placed(next, prev, lists, on, g);
        OtherRings(next, prev, lists, on, next', prev', lists', on', g);
      }
    }
    forall x | x in next' && x !in lists' && x !in on'
      ensures Loose(next', prev', lists', on', x)
    {
      assert Loose(next, prev, lists, on, x);
    }
  }

  lemma RemoveKeeps<T(!new)>(next: map<T, T>, prev: map<T, T>, lists: map<T, seq<T>>, on: map<T, T>,
                             next': map<T, T>, prev': map<T, T>, lists': map<T, seq<T>>, on': map<T, T>, h: T,
                                 k: nat, n: T)
    requires Wf(next, prev, lists, on) && h in lists && k < |lists[h]| && n == lists[h][k]
    requires next' == next[Rings.Before(h, lists[h], k) := At(h, lists[h], k + 1)][n := n]
    requires prev' == prev[At(h, lists[h], k + 1) := Rings.Before(h, lists[h], k)][n := n]
    requires lists' == lists[h := Without(lists[h], k)] && on' == on - {n}
    ensures Wf(next', prev', lists', on')
  {
    var s, s' := lists[h], lists'[h];
    Neighbours(next, prev, lists, on, h, k);
    Neighbours(next, prev, lists, on, h, k + 1);
    assert Placed(next, prev, lists, on, h);
    RingNodes(next, prev, h, s);
    RingRemove(next, prev, next', prev', h, s, k);
    forall i | 0 <= i < |s'|
      ensures s'[i] in next' && s'[i] in prev' && s'[i] in on' && on'[s'[i]] == h
    {
      assert s'[i] == s[if i < k then i else i + 1];
    }
    forall x | x in on'
      ensures on'[x] in lists' && x in lists'[on'[x]]
    {
      if on[x] == h {
        var j := Index(s, x);
        assert s'[if j < k then j else j - 1] == x;
      }
    }
    forall g | g in lists'
      ensures Placed(next', prev', lists', on', g)
    {
      if g != h {
        assert Placed(next, prev, lists, on, g);
        OtherRings(next, prev, lists, on, next', prev', lists', on', g);
      }
    }
    forall x | x in next' && x !in lists' && x !in on'
      ensures Loose(next', prev', lists', on', x)
    {
      assert x != n ==> Loose(next, prev, lists, on, x);
    }
  }

  class Lists<T(==,!new)> {
    var next: map<T, T>
    var prev: map<T, T>
    ghost var lists: map<T, seq<T>>
    ghost var on: map<T, T>

    ghost predicate Valid()
      reads this
    {
      Wf(next, prev, lists, on)
    }

    constructor ()
      ensures Valid() && lists == map[] && next == map[]
    {
      next, prev, lists, on := map[], map[], map[], map[];
    }

    /** rt_list_init of a list head */
    method InitHead(l: T)
      requires Valid() && l !in next
      modifies this
      ensures Valid() && lists == old(lists)[l := []] && next.Keys == old(next).Keys + {l} && on == old(on)
    {
      NewHead(next, prev, lists, on, l);
      next := next[l := l];
      prev := prev[l := l];
      lists := lists[l := []];
    }

    /** rt_list_init of a node */
    method InitNode(n: T)
      requires Valid() && n !in next
      modifies this
      ensures Valid() && lists == old(lists) && next.Keys == old(next).Keys + {n} && on == old(on)
    {
      NodesKnown(next, prev, lists, on, n);
      next := next[n := n];
      prev := prev[n := n];
      NewNode(old(next), old(prev), lists, on, n);
    }

    /** rt_list_insert_before: n stands at place k of the list of h when l stood there. */
    method InsertBefore(l: T, n: T, ghost h: T, ghost k: nat)
      requires Valid() && h in lists && k <= |lists[h]| && l == At(h, lists[h], k)
      requires n in next && n !in lists && n !in on
      modifies this
      ensures Valid() && lists == old(lists)[h := InsertAt(old(lists)[h], k, n)] && on == old(on)[n := h]
      ensures next.Keys == old(next).Keys
    {
      Neighbours(next, prev, lists, on, h, k);
      assert Loose(next, prev, lists, on, n);
      hide Wf;
      next := next[prev[l] := n];
      prev := prev[n := prev[l]];
      prev := prev[l := n];
      next := next[n := l];
      lists := lists[h := InsertAt(lists[h], k, n)];
      on := on[n := h];
      InsertKeeps(old(next), old(prev), old(lists), old(on), next, prev, lists, on, h, k, n);
    }

    /** rt_list_insert_after: n stands at place k of the list of h when l stood before it. */
    method InsertAfter(l: T, n: T, ghost h: T, ghost k: nat)
      requires Valid() && h in lists && k <= |lists[h]| && l == Rings.Before(h, lists[h], k)
      requires n in next && n !in lists && n !in on
      modifies this
      ensures Valid() && lists == old(lists)[h := InsertAt(old(lists)[h], k, n)] && on == old(on)[n := h]
      ensures next.Keys == old(next).Keys
    {
      Neighbours(next, prev, lists, on, h, k);
      assert Loose(next, prev, lists, on, n);
      hide Wf;
      prev := prev[next[l] := n];
      next := next[n := next[l]];
      next := next[l := n];
      prev := prev[n := l];
      lists := lists[h := InsertAt(lists[h], k, n)];
      on := on[n := h];
      InsertKeeps(old(next), old(prev), old(lists), old(on), next, prev, lists, on, h, k, n);
    }

    /** rt_list_remove: a node leaves its list; for a node on no list nothing changes. */
    method Remove(n: T)
      requires Valid() && n in next && n !in lists
      modifies this
      ensures Valid()
      ensures n !in old(on) ==> lists == old(lists) && on == old(on)
      ensures n in old(on) ==>
                var h := old(on)[n];
                h in old(lists) && n in old(lists)[h] && lists == old(lists)[h := Drop(old(lists)[h], n)]
                    && on == old(on) - {n}
      ensures next.Keys == old(next).Keys
    {
      NodesKnown(next, prev, lists, on, n);
      if n !in on { assert Loose(next, prev, lists, on, n); }
      ghost var h := if n in on then on[n] else n;
      ghost var k := if n in on then Index(lists[h], n) else 0;
      if n in on {
        Neighbours(next, prev, lists, on, h, k);
        Neighbours(next, prev, lists, on, h, k + 1);
      }
      hide Wf;
      prev := prev[next[n] := prev[n]];
      next := next[prev[n] := next[n]];
      next, prev := next[n := n], prev[n := n];
      if n in on {
        lists := lists[h := Without(lists[h], k)];
        on := on - {n};
        RemoveKeeps(old(next), old(prev), old(lists), old(on), next, prev, lists, on, h, k, n);
      } else {
        assert next == old(next) && prev == old(prev);
      }
    }

    /** rt_list_isempty */
    method IsEmpty(l: T) returns (r: bool)
      requires Valid() && l in lists
      ensures r <==> lists[l] == []
    {
      Neighbours(next, prev, lists, on, l, 0);
      assert Placed(next, prev, lists, on, l);
      r := next[l] == l;
    }

    /** The first node of a list: l->next */
    method First(l: T) returns (n: T)
      requires Valid() && l in lists && lists[l] != []
      ensures n == lists[l][0]
    {
      Neighbours(next, prev, lists, on, l, 0);
      n := next[l];
    }

    /** rt_list_len */
    method Len(l: T) returns (len: nat)
      requires Valid() && l in lists
      ensures len == |lists[l]|
    {
      ghost var s := lists[l];
      len := 0;
      var p := l;
      Neighbours(next, prev, lists, on, l, 0);
      assert Placed(next, prev, lists, on, l);
      while next[p] != l
        invariant len <= |s| && p == Rings.Before(l, s, len) && p in next && next[p] == At(l, s, len)
        decreases |s| - len
      {
        p := next[p];
        len := len + 1;
        Neighbours(next, prev, lists, on, l, len);
      }
    }
  }

  lemma NewNode<T(!new)>(next: map<T, T>, prev: map<T, T>, lists: map<T, seq<T>>, on: map<T, T>, n: T)
    requires Wf(next, prev, lists, on) && n !in next
    ensures Wf(next[n := n], prev[n := n], lists, on)
  {
    var next', prev' := next[n := n], prev[n := n];
    NodesKnown(next, prev, lists, on, n);
    forall g | g in lists
      ensures Placed(next', prev', lists, on, g)
    {
      assert Placed(next, prev, lists, on, g);
      OtherRings(next, prev, lists, on, next', prev', lists, on, g);
    }
    forall x | x in next' && x !in lists && x !in on
      ensures Loose(next', prev', lists, on, x)
    {
      assert x != n ==> Loose(next, prev, lists, on, x);
    }
  }
}
