/** Null-terminated singly linked lists as raw memory: the next field of every node. */
module Chains {
  import opened Rings

  const RT_NULL := 0

  ghost predicate ChainedAt(next: map<int, int>, s: seq<int>, i: int) {
    0 <= i < |s| ==> s[i] != RT_NULL && s[i] in next && next[s[i]] == (if i + 1 < |s| then s[i + 1] else RT_NULL)
  }

  /** p points at a null-terminated singly linked list with the nodes of s. */
  ghost predicate Chained(next: map<int, int>, p: int, s: seq<int>) {
    && p == (if s == [] then RT_NULL else s[0])
    && forall i {:trigger ChainedAt(next, s, i)} :: ChainedAt(next, s, i)
  }

  lemma ChainFrame(next: map<int, int>, next': map<int, int>, p: int, s: seq<int>)
    requires Chained(next, p, s)
    requires forall x :: x in s && x in next ==> x in next' && next'[x] == next[x]
    ensures Chained(next', p, s)
  {
    forall i
      ensures ChainedAt(next', s, i)
    {
      assert ChainedAt(next, s, i);
    }
  }

  lemma ChainEmpty(next: map<int, int>)
    ensures Chained(next, RT_NULL, [])
  {
  }

  lemma ChainTail(next: map<int, int>, p: int, s: seq<int>)
    requires Chained(next, p, s) && s != []
    ensures p == s[0] && p != RT_NULL && p in next && Chained(next, next[p], s[1..])
  {
    assert ChainedAt(next, s, 0);
    forall i
      ensures ChainedAt(next, s[1..], i)
    {
      assert ChainedAt(next, s, i + 1);
    }
  }

  lemma ChainPush(next: map<int, int>, p: int, s: seq<int>, n: int)
    requires Chained(next, p, s) && n != RT_NULL && n !in s
    ensures Chained(next[n := p], n, [n] + s)
  {
    var next', r := next[n := p], [n] + s;
    forall i
      ensures ChainedAt(next', r, i)
    {
      assert ChainedAt(next, s, i - 1);
    }
  }

  /** The tail node's next field is pointed at n, whose own next field is null. */
  lemma ChainAppend(next: map<int, int>, p: int, s: seq<int>, n: int)
    requires Chained(next, p, s) && s != [] && NoDup(s)
    requires n != RT_NULL && n !in s && n in next && next[n] == RT_NULL
    ensures Chained(next[s[|s| - 1] := n], p, s + [n])
  {
    var next', r := next[s[|s| - 1] := n], s + [n];
    forall i
      ensures ChainedAt(next', r, i)
    {
      assert ChainedAt(next, s, i);
    }
  }

  lemma ChainNull(next: map<int, int>, p: int, s: seq<int>)
    requires Chained(next, p, s)
    ensures p == RT_NULL <==> s == []
  {
    assert ChainedAt(next, s, 0);
  }

  /** The node at position k, null at the end. */
  ghost function Succ(s: seq<int>, k: nat): int {
    if k < |s| then s[k] else RT_NULL
  }

  /** Elements i to j are replaced by m (one node at most): the link into them is redirected. */
  lemma ChainSplice(next: map<int, int>, next': map<int, int>, p: int, p': int, s: seq<int>, i: nat, j: nat,
      m: seq<int>)
    requires Chained(next, p, s) && i <= j <= |s| && |m| <= 1
    requires m != [] ==> m[0] != RT_NULL && m[0] in next' && next'[m[0]] == Succ(s, j)
    requires var x := if m != [] then m[0] else Succ(s, j);
             if i == 0 then p' == x else p' == p && s[i - 1] in next' && next'[s[i - 1]] == x
    requires forall k :: 0 <= k < |s| && (k + 1 < i || j <= k) && s[k] in next ==>
               s[k] in next'
               && next'[s[k]] == next[s[k]]
    ensures Chained(next', p', s[..i] + m + s[j..])
  {
    var r := s[..i] + m + s[j..];
    var d := j - i - |m|;
    assert forall k :: 0 <= k < |r| ==> r[k] == (if k < i then s[k] else if k < i + |m| then m[0] else s[k + d]);
    forall k
      ensures ChainedAt(next', r, k)
    {
      assert ChainedAt(next, s, if k < i then k else k + d);
    }
  }
}
