/** ipc.c: how one rt_event_send goes through the threads that wait on an event object. */
module EventTurns {
  import opened Rings
  import opened Words

  const AND: bv8 := 1     // RT_EVENT_FLAG_AND
  const OR: bv8 := 2      // RT_EVENT_FLAG_OR
  const CLEAR: bv8 := 4   // RT_EVENT_FLAG_CLEAR

  predicate Has(option: bv8, flag: bv8) {
    option & flag != 0
  }

  // ------------------------------------------------------------------- wishes

  /** event_set and event_info of a waiting thread */
  datatype Wish = Wish(mask: bv32, option: bv8)

  /** The condition of a thread; AND goes before OR when both flags are given. */
  predicate Satisfied(bits: bv32, w: Wish) {
    if Has(w.option, AND) then Within(w.mask, bits)
    else Has(w.option, OR) && !Disjoint(w.mask, bits)
  }

  /** What a satisfied thread reports: an AND wish is left as it is, an OR wish is cut to what is set. */
  function Report(bits: bv32, w: Wish): bv32 {
    if Has(w.option, AND) then w.mask else Both(w.mask, bits)
  }

  /** The bits its CLEAR flag takes away. */
  function Cleared(bits: bv32, w: Wish): bv32 {
    if Has(w.option, CLEAR) then Report(bits, w) else 0
  }

  // ----------------------------------------------------------- wishes in bits

  /** Bit 0 of the option asks for all bits of the mask, bit 1 without it for one of them. */
  predicate Hit(bits: bv32, mask: bv32, option: bv8) {
    if option & 1 != 0 then mask & bits == mask else option & 2 != 0 && mask & bits != 0
  }

  /** Bit 2 of the option takes away what was asked for and is set. */
  function Rest(bits: bv32, mask: bv32, option: bv8): bv32 {
    if option & 4 != 0 then bits & !(mask & bits) else bits
  }

  /** Bit 2 of the option takes away all that was asked for when a thread does not have to wait. */
  function Uncleared(bits: bv32, mask: bv32, option: bv8): bv32 {
    if option & 4 != 0 then bits & !mask else bits
  }

  function With(bits: bv32, more: bv32): bv32 {
    bits | more
  }

  function Found(bits: bv32, mask: bv32): bv32 {
    mask & bits
  }

  lemma WishBits(bits: bv32, w: Wish)
    ensures Satisfied(bits, w) <==> Hit(bits, w.mask, w.option)
    ensures Satisfied(bits, w) ==> Report(bits, w) == Found(bits, w.mask)
    ensures Satisfied(bits, w) ==> Minus(bits, Cleared(bits, w)) == Rest(bits, w.mask, w.option)
  {
    SatisfiedBits(bits, w);
    if Satisfied(bits, w) {
      ReportBits(bits, w);
      ClearedBits(bits, w);
    }
    hide Satisfied, Hit, Report, Found, Cleared, Minus, Rest;
  }

  lemma SatisfiedBits(bits: bv32, w: Wish)
    ensures Satisfied(bits, w) <==> Hit(bits, w.mask, w.option)
  {
  }

  lemma ReportBits(bits: bv32, w: Wish)
    requires Satisfied(bits, w)
    ensures Report(bits, w) == Found(bits, w.mask)
  {
    hide Has, Within, Disjoint, Both, Found;
    FoundBits(bits, w.mask);
  }

  lemma ClearedBits(bits: bv32, w: Wish)
    requires Satisfied(bits, w)
    ensures Minus(bits, Cleared(bits, w)) == Rest(bits, w.mask, w.option)
  {
    ReportBits(bits, w);
    ModeBits(w.option);
    TakenBits(bits, w.mask, w.option, Report(bits, w));
    hide Satisfied, Report, Has, Minus, Rest, Found;
  }

  lemma TakenBits(bits: bv32, mask: bv32, option: bv8, r: bv32)
    requires r == Found(bits, mask)
    ensures Rest(bits, mask, option) == if option & 4 != 0 then Minus(bits, r) else Minus(bits, 0)
  {
    MinusFound(bits, mask);
    MinusNone(bits);
    hide Minus, Found;
  }

  lemma MinusFound(bits: bv32, mask: bv32)
    ensures Minus(bits, Found(bits, mask)) == bits & !(mask & bits)
  {
  }

  lemma MinusNone(bits: bv32)
    ensures Minus(bits, 0) == bits
  {
  }

  lemma FoundBits(bits: bv32, mask: bv32)
    ensures Both(mask, bits) == Found(bits, mask) && (Within(mask, bits) ==> Found(bits, mask) == mask)
  {
  }

  lemma ModeBits(option: bv8)
    ensures (Has(option, AND) <==> option & 1 != 0) && (Has(option, OR) <==> option & 2 != 0)
    ensures (Has(option, CLEAR) <==> option & 4 != 0) && (option & 3 == 0 <==> option & 1 == 0 && option & 2 == 0)
  {
    OptionBits(option);
  }

  lemma OptionBits(option: bv8)
    ensures option & 3 == 0 <==> option & 1 == 0 && option & 2 == 0
  {
  }

  /** With fewer bits set, no new wish is satisfied. */
  lemma FewerBits(bits: bv32, bits': bv32, w: Wish)
    requires Within(bits', bits)
    ensures Satisfied(bits', w) ==> Satisfied(bits, w)
  {
    FewerAnd(bits, bits', w.mask);
    FewerOr(bits, bits', w.mask);
    hide Within, Disjoint, Has;
  }

  /** A satisfied thread reports exactly the bits it asked for that are set at its turn, at least one,
      and all it asked for when it waits for all. */
  lemma ReportExact(bits: bv32, w: Wish)
    requires Satisfied(bits, w) && w.mask != 0
    ensures Report(bits, w) == Both(w.mask, bits) && Report(bits, w) != 0
    ensures Has(w.option, AND) ==> Report(bits, w) == w.mask
  {
    hide Has;
    assert Within(w.mask, bits) ==> Both(w.mask, bits) == w.mask;
    assert !Disjoint(w.mask, bits) ==> Both(w.mask, bits) != 0;
    hide Within, Disjoint, Both;
  }

  lemma ReportWithin(bits: bv32, w: Wish)
    requires Satisfied(bits, w)
    ensures Within(Report(bits, w), bits) && Within(Cleared(bits, w), bits)
  {
    BothWithin(w.mask, bits);
    hide Within, Disjoint, Both, Has;
  }

  // ------------------------------------------------------------ the whole walk

  /** The event object while send walks down the list: the bits, who stays, who was woken
      and what those report. */
  datatype Walk = Walk(bits: bv32, kept: seq<int>, woken: seq<int>, reports: map<int, bv32>)

  predicate Woken(w: Walk, wish: map<int, Wish>, t: int) {
    t in wish && Satisfied(w.bits, wish[t])
  }

  function Turn(w: Walk, wish: map<int, Wish>, t: int): Walk {
    if Woken(w, wish, t) then
      Walk(Minus(w.bits, Cleared(w.bits, wish[t])), w.kept, w.woken + [t], w.reports[t := Report(w.bits, wish[t])])
    else
      w.(kept := w.kept + [t])
  }

  /** The left fold over the list, from its first thread to its last. */
  function Turns(bits: bv32, wish: map<int, Wish>, list: seq<int>): Walk {
    if list == [] then Walk(bits, [], [], map[])
    else Turn(Turns(bits, wish, list[..|list| - 1]), wish, list[|list| - 1])
  }

  lemma TurnShrinks(w: Walk, wish: map<int, Wish>, t: int)
    ensures Within(Turn(w, wish, t).bits, w.bits)
  {
    hide Within, Minus, Satisfied, Cleared, Report;
    WithinSelf(w.bits);
    if Woken(w, wish, t) { MinusWithin(w.bits, Cleared(w.bits, wish[t])); }
  }

  /** A walk only takes bits away. */
  lemma {:induction false} WalkShrinks(bits: bv32, wish: map<int, Wish>, list: seq<int>, k: nat)
    requires k <= |list|
    ensures Within(Turns(bits, wish, list).bits, Turns(bits, wish, list[..k]).bits)
    decreases |list|
  {
    hide Within, Turn;
    if k == |list| {
      assert list[..k] == list;
      WithinSelf(Turns(bits, wish, list).bits);
    } else {
      var front := list[..|list| - 1];
      assert list[..k] == front[..k];
      WalkShrinks(bits, wish, front, k);
      TurnShrinks(Turns(bits, wish, front), wish, list[|list| - 1]);
      WithinTrans(Turns(bits, wish, list).bits, Turns(bits, wish, front).bits, Turns(bits, wish, front[..k]).bits);
    }
  }

  /** The event bits thread list[k] meets. */
  function AtTurn(bits: bv32, wish: map<int, Wish>, list: seq<int>, k: nat): bv32
    requires k <= |list|
  {
    Turns(bits, wish, list[..k]).bits
  }

  /** What the turn of thread t is to thread x. */
  lemma TurnOf(w: Walk, wish: map<int, Wish>, t: int, x: int)
    ensures var w' := Turn(w, wish, t);
            && (x != t ==>
                  && (x in w'.woken <==> x in w.woken) && (x in w'.kept <==> x in w.kept)
                  && (x in w.reports ==> x in w'.reports && w'.reports[x] == w.reports[x]))
            && (x == t && t !in w.woken && t !in w.kept ==>
                  && (t in w'.woken <==> t in wish && Satisfied(w.bits, wish[t])) && (t in w'.kept <==> t !in w'.woken)
                  && (t in w'.woken ==> t in w'.reports && w'.reports[t] == Report(w.bits, wish[t])))
  {
    hide Satisfied, Report, Cleared, Minus;
  }

  /** Each thread of the list is either woken or kept; it is woken exactly when its condition held
      at its turn, and then reports what it found at that moment. */
  lemma {:induction false} WokenAtTurn(bits: bv32, wish: map<int, Wish>, list: seq<int>, k: nat)
    requires NoDup(list) && k < |list|
    ensures var w, t, now := Turns(bits, wish, list), list[k], AtTurn(bits, wish, list, k);
            && (t in w.woken <==> t in wish && Satisfied(now, wish[t]))
            && (t in w.kept <==> t !in w.woken)
            && (t in w.woken ==> t in w.reports && w.reports[t] == Report(now, wish[t]))
    decreases |list|
  {
    hide Satisfied, Report, Cleared, Minus, Turn;
    var front, last := list[..|list| - 1], list[|list| - 1];
    WalkParts(bits, wish, front);
    assert list == front + [last];
    TurnOf(Turns(bits, wish, front), wish, last, list[k]);
    if k < |front| {
      assert front[..k] == list[..k];
      WokenAtTurn(bits, wish, front, k);
      assert front[k] == list[k] != last;
    } else {
      assert front == list[..k];
      assert last !in front;
    }
  }

  lemma MinusBits(a: bv32, b: bv32)
    ensures Minus(a, 0) == a && Minus(a, b) == a & !b
  {
  }

  /** The bits that the threads meet, one after the other: a woken thread with the CLEAR flag takes what it reports. */
  lemma BitsAtTurns(bits: bv32, wish: map<int, Wish>, list: seq<int>, k: nat)
    requires k < |list| && list[k] in wish
    ensures AtTurn(bits, wish, list, 0) == bits
    ensures var now, w := AtTurn(bits, wish, list, k), wish[list[k]];
            AtTurn(bits, wish, list, k + 1) == if Hit(now, w.mask, w.option) then Rest(now, w.mask, w.option) else now
  {
    hide Satisfied, Report, Cleared, Minus, Hit, Rest, Found;
    assert list[..k + 1][..k] == list[..k] && list[..k + 1][k] == list[k];
    WishBits(AtTurn(bits, wish, list, k), wish[list[k]]);
  }

  /** Who wakes up, in bits: a thread is woken exactly when all the bits it waits for with AND, or one of those it
      waits for with OR, were set at its turn. It reports those that were. */
  lemma WokenBits(bits: bv32, wish: map<int, Wish>, list: seq<int>, k: nat)
    requires NoDup(list) && k < |list| && list[k] in wish
    ensures var r, t, now, w := Turns(bits, wish, list), list[k], AtTurn(bits, wish, list, k), wish[list[k]];
            && (t in r.woken <==> Hit(now, w.mask, w.option)) && (t in r.kept <==> t !in r.woken)
            && (t in r.woken ==> t in r.reports && r.reports[t] == Found(now, w.mask))
  {
    hide Satisfied, Report, Turns, AtTurn, Hit, Rest, Found;
    WokenAtTurn(bits, wish, list, k);
    WishBits(AtTurn(bits, wish, list, k), wish[list[k]]);
  }

  /** Those who stay keep their order. */
  lemma {:induction false} KeptInOrder(bits: bv32, wish: map<int, Wish>, list: seq<int>, i: nat, j: nat)
    requires NoDup(list) && i < j < |Turns(bits, wish, list).kept|
    ensures var kept := Turns(bits, wish, list).kept;
              kept[i] in list && kept[j] in list && Index(list, kept[i]) < Index(list, kept[j])
    decreases |list|
  {
    hide Satisfied, Report, Cleared, Minus;
    var kept, front, last := Turns(bits, wish, list).kept, list[..|list| - 1], list[|list| - 1];
    assert list == front + [last];
    WalkParts(bits, wish, front);
    var w := Turns(bits, wish, front);
    assert kept == if Woken(w, wish, last) then w.kept else w.kept + [last];
    assert kept[i] == w.kept[i] && w.kept[i] in w.kept;
    IndexUnique(list, kept[i], Index(front, kept[i]));
    if j < |Turns(bits, wish, front).kept| {
      KeptInOrder(bits, wish, front, i, j);
      IndexUnique(list, kept[j], Index(front, kept[j]));
    } else {
      IndexUnique(list, last, |list| - 1);
    }
  }

  /** Woken and kept threads come from the list. */
  lemma {:induction false} WalkParts(bits: bv32, wish: map<int, Wish>, list: seq<int>)
    requires NoDup(list)
    ensures var w := Turns(bits, wish, list);
            && NoDup(w.kept) && NoDup(w.woken)
            && (forall t :: t in list <==> t in w.kept || t in w.woken)
            && (forall t :: t in w.kept ==> t !in w.woken)
            && (forall t :: t in w.woken <==> t in w.reports)
  {
    hide Satisfied, Report, Cleared, Minus;
    if list != [] {
      var front, last := list[..|list| - 1], list[|list| - 1];
      assert list == front + [last];
      assert last !in front;
      WalkParts(bits, wish, front);
      assert forall t :: t in list <==> t in front || t == last;
    }
  }

  /** After the walk nobody who stayed has a satisfied condition, although CLEAR receivers further
      down the list changed the bits. */
  lemma KeptUnsatisfied(bits: bv32, wish: map<int, Wish>, list: seq<int>, k: nat)
    requires NoDup(list) && k < |list| && list[k] in Turns(bits, wish, list).kept && list[k] in wish
    ensures !Satisfied(Turns(bits, wish, list).bits, wish[list[k]])
  {
    hide Satisfied, Report, Turns, Within;
    WokenAtTurn(bits, wish, list, k);
    WalkShrinks(bits, wish, list, k);
    FewerBits(AtTurn(bits, wish, list, k), Turns(bits, wish, list).bits, wish[list[k]]);
  }

  /** A bit that a CLEAR receiver reports is gone for everybody behind it: one send delivers it to
      no second receiver further down. */
  lemma ClearedOnce(bits: bv32, wish: map<int, Wish>, list: seq<int>, i: nat, j: nat)
    requires NoDup(list) && i < j < |list| && list[i] in wish && list[j] in wish
    requires Satisfied(AtTurn(bits, wish, list, i), wish[list[i]])
             && Satisfied(AtTurn(bits, wish, list, j), wish[list[j]])
    requires Has(wish[list[i]].option, CLEAR)
    ensures Disjoint(Report(AtTurn(bits, wish, list, i), wish[list[i]]),
            Report(AtTurn(bits, wish, list, j), wish[list[j]]))
  {
    hide Satisfied, Report, Within, Has, Disjoint, Minus;
    var si, sn, sj := AtTurn(bits, wish, list, i), AtTurn(bits, wish, list, i + 1), AtTurn(bits, wish, list, j);
    var ri, rj := Report(si, wish[list[i]]), Report(sj, wish[list[j]]);
    assert list[..i + 1][..i] == list[..i];
    assert sn == Minus(si, ri);
    hide Turns;
    assert list[..j][..i + 1] == list[..i + 1];
    WalkShrinks(bits, wish, list[..j], i + 1);
    ReportWithin(sj, wish[list[j]]);
    WithinTrans(rj, sj, sn);
    MinusDisjoint(ri, rj, si);
  }

  /** All bits that the CLEAR receivers among the list take. */
  function Taken(bits: bv32, wish: map<int, Wish>, list: seq<int>): bv32 {
    if list == [] then 0
    else
      var front, t := list[..|list| - 1], list[|list| - 1];
      var w := Turns(bits, wish, front);
      Union(Taken(bits, wish, front), if Woken(w, wish, t) then Cleared(w.bits, wish[t]) else 0)
  }

  /** Nothing else happens to the bits: those left over and those taken are disjoint and together
      are the bits the walk began with. */
  lemma {:induction false} BitsConserved(bits: bv32, wish: map<int, Wish>, list: seq<int>)
    ensures Union(Turns(bits, wish, list).bits, Taken(bits, wish, list)) == bits
    ensures Disjoint(Turns(bits, wish, list).bits, Taken(bits, wish, list))
  {
    NoBits(bits);
    hide Within, Minus, Satisfied, Cleared, Report, Union, Disjoint;
    if list != [] {
      var front, t := list[..|list| - 1], list[|list| - 1];
      BitsConserved(bits, wish, front);
      var w := Turns(bits, wish, front);
      if Woken(w, wish, t) {
        WokenSatisfied(w, wish, t);
        ReportWithin(w.bits, wish[t]);
        MoveBits(w.bits, Taken(bits, wish, front), Cleared(w.bits, wish[t]));
      } else {
        NoBits(Taken(bits, wish, front));
      }
    }
  }

  lemma WokenSatisfied(w: Walk, wish: map<int, Wish>, t: int)
    requires Woken(w, wish, t)
    ensures t in wish && Satisfied(w.bits, wish[t])
  {
  }
}

