/** Blocks that tile a range of addresses, each starting with a header of h bytes
    whose "next" field is the address of the header that follows. */
module Tiling {
  import opened Rings


  /** Block a ends where another block starts; the tail block is the last. */
  ghost predicate Step(next: map<int, int>, h: int, tail: int, a: int) {
    a in next && (a != tail ==> next[a] in next && a + h <= next[a])
  }

  ghost predicate Tiled(next: map<int, int>, h: int, start: int, tail: int) {
    && start in next && tail in next
    && (forall a :: a in next ==> start <= a <= tail)
    && (forall a {:trigger Step(next, h, tail, a)} :: a in next ==> Step(next, h, tail, a))
    && (forall a, b {:trigger next[a], b in next} :: a in next && b in next && a < b ==> next[a] <= b)
  }

  /** Block a cut in two at m. */
  function Cut(next: map<int, int>, a: int, m: int): map<int, int>
    requires a in next
  {
    next[a := m][m := next[a]]
  }

  /** Block a swallows the block after it. */
  function Join(next: map<int, int>, a: int): map<int, int>
    requires a in next && next[a] in next
  {
    (map b | b in next && b != next[a] :: next[b])[a := next[next[a]]]
  }

  lemma CutOrder(next: map<int, int>, next': map<int, int>, h: int, start: int, tail: int, a: int, m: int)
    requires h > 0 && Tiled(next, h, start, tail)
    requires a in next && a != tail && a + h <= m && m + h <= next[a]
    requires next' == next[a := m][m := next[a]]
    ensures m !in next
    ensures forall x, y {:trigger next'[x], y in next'} :: x in next' && y in next' && x < y ==> next'[x] <= y
  {
    var r := next[a];
    assert Step(next, h, tail, a);
    assert r in next && a < m < r <= tail;
    assert m !in next || r <= m;
    forall x, y | x in next' && y in next' && x < y
      ensures next'[x] <= y
    {
      if x == m {
        assert y in next && a < y;
      } else if y == m {
        assert x <= a || r <= x;
        assert x < a ==> next[x] <= a;
      } else if x == a {
        assert m < y by { assert r <= y; }
      } else {
        assert next'[x] == next[x] <= y;
      }
    }
  }

  lemma CutTiles(next: map<int, int>, next': map<int, int>, h: int, start: int, tail: int, a: int, m: int)
    requires h > 0 && Tiled(next, h, start, tail)
    requires a in next && a != tail && a + h <= m && m + h <= next[a]
    requires next' == Cut(next, a, m)
    ensures m !in next
    ensures Tiled(next', h, start, tail)
  {
    CutOrder(next, next', h, start, tail, a, m);
    assert Step(next, h, tail, a);
    forall x | x in next'
      ensures Step(next', h, tail, x)
    {
      assert x != m ==> Step(next, h, tail, x);
    }
  }

  lemma JoinTiles(next: map<int, int>, next': map<int, int>, h: int, start: int, tail: int, a: int)
    requires h > 0 && Tiled(next, h, start, tail)
    requires a in next && a != tail && next[a] in next && next[a] != tail
    requires next' == Join(next, a)
    ensures Tiled(next', h, start, tail)
    ensures a < next[a] && Step(next, h, tail, next[a])
  {
    var r := next[a];
    assert Step(next, h, tail, a) && Step(next, h, tail, r);
    forall x | x in next'
      ensures Step(next', h, tail, x)
    {
      assert Step(next, h, tail, x);
      if x != a && x != tail {
        assert x < a || r <= x;
      }
    }
  }

  /** Undoing a cut by joining gives back the same blocks. */
  lemma JoinUndoesCut(next: map<int, int>, a: int, m: int)
    requires a in next && m !in next && a != m
    ensures Join(Cut(next, a, m), a) == next
  {
  }

  // ------------------------------------------------------------------- totals

  /** The bytes of the listed blocks, without h bytes of header each. */
  ghost function Total(s: seq<int>, next: map<int, int>, h: int): int
    requires forall a :: a in s ==> a in next
  {
    if s == [] then 0
    else
      var a := s[0];
      next[a] - a - h + Total(s[1..], next, h)
  }

  lemma {:induction false} TotalFrame(s: seq<int>, next: map<int, int>, next': map<int, int>, h: int)
    requires forall a :: a in s ==> a in next && a in next' && next[a] == next'[a]
    ensures Total(s, next, h) == Total(s, next', h)
  {
    if s != [] { TotalFrame(s[1..], next, next', h); }
  }

  lemma {:induction false} TotalDrop(s: seq<int>, next: map<int, int>, x: int, h: int)
    requires forall a :: a in s ==> a in next
    requires x in s
    ensures forall a :: a in Drop(s, x) ==> a in next
    ensures Total(s, next, h) == Total(Drop(s, x), next, h) + next[x] - x - h
  {
    var d := Drop(s, x);
    if s[0] == x {
      assert d == s[1..];
    } else {
      TotalDrop(s[1..], next, x, h);
      assert d == [s[0]] + Drop(s[1..], x);
    }
  }

  /** The total does not depend on the order of the list. */
  lemma {:induction false} TotalSame(s: seq<int>, t: seq<int>, next: map<int, int>, h: int)
    requires NoDup(s) && NoDup(t) && (forall a :: a in s <==> a in t) && forall a :: a in s ==> a in next
    ensures Total(s, next, h) == Total(t, next, h)
    decreases |s|
  {
    if s != [] || t != [] {
      var a := if s != [] then s[0] else t[0];
      assert a in s || a in t;
      DropElements(s, a);
      DropElements(t, a);
      TotalDrop(s, next, a, h);
      TotalDrop(t, next, a, h);
      TotalSame(Drop(s, a), Drop(t, a), next, h);
    }
  }

  /** Only the size of block x changes. */
  lemma TotalResize(s: seq<int>, next: map<int, int>, next': map<int, int>, x: int, h: int)
    requires NoDup(s) && x in s
    requires forall a :: a in s ==> a in next && a in next' && (a != x ==> next[a] == next'[a])
    ensures Total(s, next', h) == Total(s, next, h) + next'[x] - next[x]
  {
    DropElements(s, x);
    TotalDrop(s, next, x, h);
    TotalDrop(s, next', x, h);
    TotalFrame(Drop(s, x), next, next', h);
  }
}
