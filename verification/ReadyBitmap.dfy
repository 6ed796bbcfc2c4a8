/** scheduler.c: the bitmap that says which priorities have a ready thread. With at most 32 levels
    it is one word; with more it is a word over 32 bytes of eight levels each. */
module ReadyBitmap {
  import opened Words
  import opened Bits

  /** rt_thread_ready_table: byte n has a bit for each of the levels 8n to 8n + 7, and is not zero
      exactly when bit n of the word is set. A byte is kept in a word. */
  ghost predicate Row(levels: nat, group: bv32, table: seq<bv32>, n: nat)
    requires |table| == 32 && n < 32
  {
    && (Bit(group, n) <==> table[n] != 0)
    && forall q: nat :: q < 32 && (8 <= q || 8 * n + q >= levels) ==> !Bit(table[n], q)
  }

  ghost predicate TwoLevel(levels: nat, group: bv32, table: seq<bv32>) {
    |table| == 32 && forall n: nat :: n < 32 ==> Row(levels, group, table, n)
  }

  ghost predicate OneLevel(levels: nat, group: bv32) {
    forall q: nat :: q < 32 && q >= levels ==> !Bit(group, q)
  }

  /** The least priority whose bit is set. */
  ghost predicate IsLeast(marks: set<nat>, p: nat) {
    p in marks && forall q :: q in marks ==> p <= q
  }

  class ReadyBitmap {
    const levels: nat
    var group: bv32
    var table: seq<bv32>

    ghost predicate Valid()
      reads this
    {
      && levels <= 256
      && (if levels > 32 then TwoLevel(levels, group, table) else OneLevel(levels, group))
    }

    predicate Marked(p: nat)
      requires p < levels && Valid()
      reads this
    {
      if levels > 32 then Bit(table[p / 8], p % 8) else Bit(group, p)
    }

    ghost function Marks(): set<nat>
      requires Valid()
      reads this
    {
      set p: nat | p < levels && Marked(p)
    }

    /** rt_system_scheduler_init */
    constructor (levels: nat)
      requires levels <= 256
      ensures Valid() && this.levels == levels && Marks() == {}
    {
      NothingSet();
      this.levels := levels;
      group := 0;
      table := seq(32, i => 0);
    }

    /** The bits of a thread that becomes ready: high_mask and number_mask. */
    method Mark(p: nat)
      requires Valid() && p < levels
      modifies this
      ensures Valid() && Marks() == old(Marks()) + {p}
    {
      hide Mask, Union;
      if levels > 32 {
        MarkRow(levels, group, table, p / 8, p % 8);
        table := table[p / 8 := Union(table[p / 8], Mask(p % 8))];
        group := Union(group, Mask(p / 8));
        forall q: nat | q < levels
          ensures Marked(q) <==> q == p || old(Marked(q))
        {
          SameBit(p, q);
        }
      } else {
        MarkWord(group, p);
        group := Union(group, Mask(p));
      }
    }

    /** The last ready thread of a level has gone. */
    method Unmark(p: nat)
      requires Valid() && p < levels
      modifies this
      ensures Valid() && Marks() == old(Marks()) - {p}
    {
      hide Mask, Minus;
      if levels > 32 {
        UnmarkRow(levels, group, table, p / 8, p % 8);
        table := table[p / 8 := Minus(table[p / 8], Mask(p % 8))];
        if table[p / 8] == 0 {
          group := Minus(group, Mask(p / 8));
        }
        forall q: nat | q < levels
          ensures Marked(q) <==> q != p && old(Marked(q))
        {
          SameBit(p, q);
        }
      } else {
        UnmarkWord(group, p);
        group := Minus(group, Mask(p));
      }
    }

    /** rt_thread_ready_priority_group != 0 */
    predicate Any()
      reads this
    {
      group != 0
    }

    lemma AnyMarked()
      requires Valid()
      ensures Any() <==> Marks() != {}
    {
      FfsLowest(group);
      hide Mask, Bit;
      if levels > 32 && group != 0 {
        var n := Ffs(group) - 1;
        assert Row(levels, group, table, n);
        FfsLowest(table[n]);
        var q := Ffs(table[n]) - 1;
        assert 8 * n + q in Marks();
      } else if group != 0 {
        assert Ffs(group) - 1 in Marks();
      }
      if p :| p in Marks() {
        if levels > 32 {
          assert Row(levels, group, table, p / 8);
          FfsLowest(table[p / 8]);
        }
      }
    }

    /** The search with two look-ups */
    method HighestOfRows() returns (p: nat)
      requires Valid() && levels > 32 && group != 0
      ensures p < levels && Marked(p) && forall q: nat :: q < levels && Marked(q) ==> p <= q
    {
      hide Mask, Bit, Ffs;
      LeastInRows(levels, group, table);
      var number := Ffs(group) - 1;
      p := 8 * number + Ffs(table[number]) - 1;
      Place(p, number, Ffs(table[number]) - 1);
      forall q: nat | q < levels && Marked(q)
        ensures p <= q
      {
        Place(q, q / 8, q % 8);
        assert Bit(table[q / 8], q % 8);
      }
    }

    /** The search of _get_highest_priority_thread */
    method Highest() returns (p: nat)
      requires Valid() && Marks() != {}
      ensures IsLeast(Marks(), p)
    {
      AnyMarked();
      hide Mask, Bit, Ffs;
      if levels > 32 {
        p := HighestOfRows();
      } else {
        FfsLowest(group);
        p := Ffs(group) - 1;
      }
      assert p in Marks();
    }
  }

  /** Level p has bit j of byte n. */
  lemma Place(p: nat, n: nat, j: nat)
    requires p < 256 && j < 8 && (p == 8 * n + j || (n == p / 8 && j == p % 8))
    ensures n == p / 8 && j == p % 8 && p == 8 * n + j && n < 32
  {
  }

  /** The lowest bit of the first byte that is not empty stands for the least level. */
  lemma LeastInRows(levels: nat, group: bv32, table: seq<bv32>)
    requires TwoLevel(levels, group, table) && group != 0
    ensures 0 < Ffs(group) <= 32 && 0 < Ffs(table[Ffs(group) - 1]) <= 8
    ensures var n, q := Ffs(group) - 1, Ffs(table[Ffs(group) - 1]) - 1;
            && 8 * n + q < levels && Bit(table[n], q)
            && forall m: nat, j: nat :: m < 32 && j < 8 && Bit(table[m], j) ==> 8 * n + q <= 8 * m + j
  {
    hide Mask, Bit, Ffs;
    FfsLowest(group);
    var n := Ffs(group) - 1;
    assert Row(levels, group, table, n);
    FfsLowest(table[n]);
    forall m: nat, j: nat | m < 32 && j < 8 && Bit(table[m], j)
      ensures n < m || (n == m && Ffs(table[n]) - 1 <= j)
    {
      assert Row(levels, group, table, m);
      FfsLowest(table[m]);
    }
  }

  lemma SameBit(p: nat, q: nat)
    ensures p / 8 == q / 8 && p % 8 == q % 8 <==> p == q
  {
  }

  lemma MarkWord(v: bv32, p: nat)
    requires p < 32
    ensures forall q: nat :: q < 32 ==> (Bit(Union(v, Mask(p)), q) <==> p == q || Bit(v, q))
  {
    hide Bit;
    forall q: nat | q < 32
      ensures Bit(Union(v, Mask(p)), q) <==> p == q || Bit(v, q)
    {
      SetBit(v, p, q);
    }
  }

  lemma UnmarkWord(v: bv32, p: nat)
    requires p < 32
    ensures forall q: nat :: q < 32 ==> (Bit(Minus(v, Mask(p)), q) <==> p != q && Bit(v, q))
  {
    hide Bit;
    forall q: nat | q < 32
      ensures Bit(Minus(v, Mask(p)), q) <==> p != q && Bit(v, q)
    {
      ClearBit(v, p, q);
    }
  }

  lemma MarkRow(levels: nat, group: bv32, table: seq<bv32>, n: nat, k: nat)
    requires TwoLevel(levels, group, table) && n < 32 && k < 8 && 8 * n + k < levels
    ensures var table' := table[n := Union(table[n], Mask(k))];
            && TwoLevel(levels, Union(group, Mask(n)), table')
            && forall m: nat, j: nat :: m < 32 && j < 8 ==>
                (Bit(table'[m], j) <==> (m == n && j == k) || Bit(table[m], j))
  {
    MarkWord(group, n);
    MarkWord(table[n], k);
    FfsLowest(Union(table[n], Mask(k)));
    hide Mask, Union, Bit, Ffs;
    var w, group', table' := Union(table[n], Mask(k)), Union(group, Mask(n)), table[n := Union(table[n], Mask(k))];
    assert Bit(w, k) && w != 0;
    assert Row(levels, group, table, n);
    assert Row(levels, group', table', n);
    forall m: nat | m < 32
      ensures Row(levels, group', table', m)
    {
      assert Row(levels, group, table, m);
    }
  }

  lemma UnmarkRow(levels: nat, group: bv32, table: seq<bv32>, n: nat, k: nat)
    requires TwoLevel(levels, group, table) && n < 32 && k < 8
    ensures var table' := table[n := Minus(table[n], Mask(k))];
            && TwoLevel(levels, if table'[n] == 0 then Minus(group, Mask(n)) else group, table')
            && forall m: nat, j: nat :: m < 32 && j < 8 ==>
                (Bit(table'[m], j) <==> !(m == n && j == k) && Bit(table[m], j))
  {
    UnmarkWord(group, n);
    UnmarkWord(table[n], k);
    FfsLowest(Minus(table[n], Mask(k)));
    FfsLowest(table[n]);
    hide Mask, Minus, Bit, Ffs;
    var w := Minus(table[n], Mask(k));
    var table' := table[n := w];
    var group' := if w == 0 then Minus(group, Mask(n)) else group;
    assert Row(levels, group, table, n);
    assert Row(levels, group', table', n);
    forall m: nat | m < 32
      ensures Row(levels, group', table', m)
    {
      assert Row(levels, group, table, m);
    }
  }
}
