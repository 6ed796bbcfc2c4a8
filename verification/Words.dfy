/** 32-bit words as sets of bits. */
module Words {

  predicate Within(a: bv32, b: bv32) {
    a & b == a
  }

  predicate Disjoint(a: bv32, b: bv32) {
    a & b == 0
  }

  function Both(a: bv32, b: bv32): bv32 {
    a & b
  }

  function Union(a: bv32, b: bv32): bv32 {
    a | b
  }

  /** a &= ~b */
  function Minus(a: bv32, b: bv32): bv32 {
    a & !b
  }

  lemma WithinSelf(a: bv32)
    ensures Within(a, a)
  {
  }

  lemma WithinTrans(a: bv32, b: bv32, c: bv32)
    requires Within(a, b) && Within(b, c)
    ensures Within(a, c)
  {
    assert (a & b) & c == a & (b & c);
  }

  lemma MinusWithin(a: bv32, b: bv32)
    ensures Within(Minus(a, b), a)
  {
  }

  lemma MinusDisjoint(r: bv32, q: bv32, s: bv32)
    requires Within(q, Minus(s, r))
    ensures Disjoint(r, q)
  {
  }

  lemma MoveBits(now: bv32, taken: bv32, c: bv32)
    requires Disjoint(now, taken) && Within(c, now)
    ensures Union(Minus(now, c), Union(taken, c)) == Union(now, taken) && Disjoint(Minus(now, c), Union(taken, c))
  {
    Rejoin(now, taken, c);
    Distribute(now & !c, taken, c);
    StillDisjoint(now, taken, c);
  }

  lemma Rejoin(now: bv32, taken: bv32, c: bv32)
    requires c & now == c
    ensures (now & !c) | (taken | c) == now | taken
  {
    assert (now & !c) | c == now | c == now;
    assert (now & !c) | (taken | c) == ((now & !c) | c) | taken;
  }

  lemma StillDisjoint(now: bv32, taken: bv32, c: bv32)
    requires now & taken == 0
    ensures (now & !c) & taken == 0 && (now & !c) & c == 0
  {
    assert (now & !c) & taken == (now & taken) & !c;
  }

  lemma Distribute(x: bv32, a: bv32, b: bv32)
    ensures x & (a | b) == (x & a) | (x & b)
  {
  }

  lemma FewerAnd(bits: bv32, bits': bv32, b: bv32)
    requires Within(bits', bits)
    ensures Within(b, bits') ==> Within(b, bits)
  {
    if Within(b, bits') { WithinTrans(b, bits', bits); }
  }

  lemma FewerOr(bits: bv32, bits': bv32, b: bv32)
    requires Within(bits', bits)
    ensures Disjoint(b, bits) ==> Disjoint(b, bits')
  {
    assert (b & bits) & bits' == b & (bits' & bits);
  }

  lemma BothWithin(a: bv32, b: bv32)
    ensures Within(Both(a, b), b) && Within(0, b)
  {
  }

  lemma NoBits(a: bv32)
    ensures Union(a, 0) == a && Disjoint(a, 0)
  {
  }
}
