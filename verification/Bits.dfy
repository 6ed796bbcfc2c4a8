/** Single bits of 32-bit words, and __rt_ffs of kservice.c. */
module Bits {
  import opened Words

  function Twice(a: bv32): bv32 {
    a << 1
  }

  /** 1 << p */
  function Mask(p: nat): bv32
    requires p < 32
  {
    if p == 0 then 1 else Twice(Mask(p - 1))
  }

  predicate Bit(v: bv32, p: nat)
    requires p < 32
  {
    !Disjoint(v, Mask(p))
  }

  lemma {:induction false} MasksDiffer(p: nat, q: nat)
    requires p < q < 32
    ensures Disjoint(Mask(p), Mask(q)) && Disjoint(Mask(q), Mask(p))
  {
    hide Disjoint, Twice;
    if p > 0 {
      MasksDiffer(p - 1, q - 1);
      TwiceDisjoint(Mask(p - 1), Mask(q - 1));
    } else {
      TwiceEven(Mask(q - 1));
    }
  }

  lemma TwiceDisjoint(a: bv32, b: bv32)
    requires Disjoint(a, b)
    ensures Disjoint(Twice(a), Twice(b)) && Disjoint(Twice(b), Twice(a))
  {
  }

  lemma TwiceEven(a: bv32)
    ensures Disjoint(1, Twice(a)) && Disjoint(Twice(a), 1)
  {
  }

  /** The masks byte by byte. */
  lemma MaskValues()
    ensures Mask(0) == 0x1 && Mask(1) == 0x2 && Mask(2) == 0x4 && Mask(3) == 0x8
    ensures Mask(4) == 0x10 && Mask(5) == 0x20 && Mask(6) == 0x40 && Mask(7) == 0x80
    ensures Mask(8) == 0x100 && Mask(9) == 0x200 && Mask(10) == 0x400 && Mask(11) == 0x800
    ensures Mask(12) == 0x1000 && Mask(13) == 0x2000 && Mask(14) == 0x4000 && Mask(15) == 0x8000
    ensures Mask(16) == 0x10000 && Mask(17) == 0x20000 && Mask(18) == 0x40000 && Mask(19) == 0x80000
    ensures Mask(20) == 0x100000 && Mask(21) == 0x200000 && Mask(22) == 0x400000 && Mask(23) == 0x800000
    ensures Mask(24) == 0x1000000 && Mask(25) == 0x2000000 && Mask(26) == 0x4000000 && Mask(27) == 0x8000000
    ensures Mask(28) == 0x10000000 && Mask(29) == 0x20000000 && Mask(30) == 0x40000000 && Mask(31) == 0x80000000
  {
  }

  lemma MaskSingle(p: nat)
    requires p < 32
    ensures Bit(Mask(p), p)
  {
    MaskValues();
    hide Mask;
  }

  /** |= sets one bit and no other. */
  lemma SetBit(v: bv32, p: nat, q: nat)
    requires p < 32 && q < 32
    ensures Bit(Union(v, Mask(p)), q) <==> p == q || Bit(v, q)
  {
    hide Mask, Disjoint, Union;
    MaskSingle(q);
    if p < q { MasksDiffer(p, q); }
    if q < p { MasksDiffer(q, p); }
    UnionBits(v, Mask(p), Mask(q));
  }

  lemma UnionBits(a: bv32, b: bv32, m: bv32)
    ensures Disjoint(Union(a, b), m) <==> Disjoint(a, m) && Disjoint(b, m)
  {
    hide Union, Both, Disjoint;
    NoneInBoth(a, m);
    NoneInBoth(b, m);
    NoneInBoth(Union(a, b), m);
    UnionBoth(a, b, m);
    NoUnion(Both(m, a), Both(m, b));
  }

  lemma NoneInBoth(a: bv32, b: bv32)
    ensures Disjoint(a, b) <==> Both(b, a) == 0
  {
  }

  lemma UnionBoth(a: bv32, b: bv32, m: bv32)
    ensures Both(m, Union(a, b)) == Union(Both(m, a), Both(m, b))
  {
    Distribute(m, a, b);
  }

  lemma NoUnion(a: bv32, b: bv32)
    ensures Union(a, b) == 0 <==> a == 0 && b == 0
  {
  }

  /** &= ~ clears one bit and no other. */
  lemma ClearBit(v: bv32, p: nat, q: nat)
    requires p < 32 && q < 32
    ensures Bit(Minus(v, Mask(p)), q) <==> p != q && Bit(v, q)
  {
    hide Mask, Disjoint, Minus;
    if p < q { MasksDiffer(p, q); }
    if q < p { MasksDiffer(q, p); }
    MinusBits(v, Mask(p), Mask(q));
  }

  lemma MinusBits(a: bv32, b: bv32, m: bv32)
    ensures Disjoint(m, b) ==> (Disjoint(Minus(a, b), m) <==> Disjoint(a, m))
    ensures m == b ==> Disjoint(Minus(a, b), m)
    ensures Disjoint(m, b) <==> Disjoint(b, m)
  {
  }

  // ----------------------------------------------------------- find first set

  /** __lowest_bit_bitmap. Its sixteen rows differ only in the first entry. */
  const ROW: seq<nat> := [0, 0, 1, 0, 2, 0, 1, 0, 3, 0, 1, 0, 2, 0, 1, 0]
  const COLUMN: seq<nat> := [0, 4, 5, 4, 6, 4, 5, 4, 7, 4, 5, 4, 6, 4, 5, 4]

  function Lowest(b: bv32): nat {
    var low, high := b & 0xf, (b & 0xf0) >> 4;
    if low != 0 then ROW[low] else COLUMN[high]
  }

  /** The lowest bit of a nibble, as the table has it. */
  lemma RowLowest(b: bv32)
    requires 0 < b < 16
    ensures ROW[b] < 4 && Bit(b, ROW[b]) && forall q: nat :: q < ROW[b] ==> !Bit(b, q)
  {
    MaskValues();
    hide Mask;
    if b == 1 { } else if b == 2 { } else if b == 3 { } else if b == 4 { } else if b == 5 { } else if b == 6 { }
    else if b == 7 { } else if b == 8 { } else if b == 9 { } else if b == 10 { } else if b == 11 { }
    else if b == 12 { } else if b == 13 { } else if b == 14 { } else { assert b == 15; }
  }

  lemma ColumnLowest(b: bv32)
    requires 0 < b < 16
    ensures COLUMN[b] == ROW[b] + 4
  {
  }

  lemma MaskNibble(q: nat)
    requires q < 4
    ensures Mask(q) & 0xf == Mask(q) && Mask(q + 4) == Mask(q) << 4
  {
    MaskValues();
  }

  lemma MaskByte(q: nat)
    requires q < 8
    ensures Mask(q) & 0xff == Mask(q)
    ensures Mask(q + 8) == Mask(q) << 8 && Mask(q + 16) == Mask(q) << 16 && Mask(q + 24) == Mask(q) << 24
  {
    MaskValues();
    hide Mask;
    if q == 0 { } else if q == 1 { } else if q == 2 { } else if q == 3 { } else if q == 4 { }
    else if q == 5 { } else if q == 6 { } else { assert q == 7; }
  }

  lemma NibbleParts(b: bv32, m: bv32)
    requires m & 0xf == m
    ensures (b & 0xf) & m == b & m
    ensures ((b & 0xf0) >> 4) & m == 0 <==> b & (m << 4) == 0
  {
  }

  lemma FirstByte(v: bv32, m: bv32)
    requires m & 0xff == m
    ensures Disjoint(v & 0xff, m) <==> Disjoint(v, m)
  {
  }

  lemma SecondByte(v: bv32, m: bv32)
    requires m & 0xff == m
    ensures Disjoint((v & 0xff00) >> 8, m) <==> Disjoint(v, m << 8)
  {
  }

  lemma ThirdByte(v: bv32, m: bv32)
    requires m & 0xff == m
    ensures Disjoint((v & 0xff0000) >> 16, m) <==> Disjoint(v, m << 16)
  {
  }

  lemma FourthByte(v: bv32, m: bv32)
    requires m & 0xff == m
    ensures Disjoint((v & 0xff000000) >> 24, m) <==> Disjoint(v, m << 24)
  {
  }

  /** The table holds the lowest bit of every byte. */
  lemma LowestByte(b: bv32)
    requires 0 < b < 256
    ensures Lowest(b) < 8 && Bit(b, Lowest(b)) && forall q: nat :: q < Lowest(b) ==> !Bit(b, q)
  {
    var low, high := b & 0xf, (b & 0xf0) >> 4;
    NibbleSmall(b);
    if low != 0 { RowLowest(low); } else { RowLowest(high); ColumnLowest(high); }
    forall q: nat | q < 4
      ensures Bit(low, q) <==> Bit(b, q)
      ensures Bit(high, q) <==> Bit(b, q + 4)
    {
      MaskNibble(q);
      NibbleParts(b, Mask(q));
      hide Mask;
    }
    forall q: nat | q < Lowest(b)
      ensures !Bit(b, q)
    {
      if low == 0 { NoLow(b); }
      if q >= 4 { assert !Bit(high, q - 4); } else { assert !Bit(low, q); }
    }
  }

  lemma NibbleSmall(b: bv32)
    requires 0 < b < 256
    ensures (b & 0xf) < 16 && ((b & 0xf0) >> 4) < 16 && (b & 0xf == 0 ==> (b & 0xf0) >> 4 != 0)
  {
  }

  lemma NoLow(b: bv32)
    ensures forall q: nat :: q < 4 ==> !Bit(0, q)
  {
  }

  /** __rt_ffs: bits are numbered from 1, and 0 stands for none. */
  function Ffs(value: bv32): nat {
    if value == 0 then 0
    else if value & 0xff != 0 then Lowest(value & 0xff) + 1
    else if value & 0xff00 != 0 then Lowest((value & 0xff00) >> 8) + 9
    else if value & 0xff0000 != 0 then Lowest((value & 0xff0000) >> 16) + 17
    else Lowest((value & 0xff000000) >> 24) + 25
  }

  /** Byte b of v begins at bit at. */
  ghost predicate IsByte(v: bv32, b: bv32, at: nat) {
    at <= 24 && b < 256 && forall q: nat :: q < 8 ==> (Bit(b, q) <==> Bit(v, q + at))
  }

  ghost predicate NoneBelow(v: bv32, at: nat) {
    at <= 32 && forall q: nat :: q < at ==> !Bit(v, q)
  }

  lemma FirstSet(v: bv32, b: bv32, at: nat)
    requires IsByte(v, b, at) && NoneBelow(v, at) && b != 0
    ensures Lowest(b) < 8 && Bit(v, Lowest(b) + at) && NoneBelow(v, Lowest(b) + at)
  {
    LowestByte(b);
    hide Mask, Lowest;
    forall q: nat | q < Lowest(b) + at
      ensures !Bit(v, q)
    {
      if q >= at { assert !Bit(b, q - at); }
    }
  }

  lemma EmptyByte(v: bv32, b: bv32, at: nat)
    requires IsByte(v, b, at) && NoneBelow(v, at) && b == 0
    ensures NoneBelow(v, at + 8)
  {
    NothingSet();
    hide Mask;
    forall q: nat | q < at + 8
      ensures !Bit(v, q)
    {
      if q >= at { assert !Bit(b, q - at); }
    }
  }

  lemma NothingSet()
    ensures forall q: nat :: q < 32 ==> !Bit(0, q)
  {
  }

  lemma ByteBits(v: bv32, q: nat)
    requires q < 8
    ensures Bit(v & 0xff, q) <==> Bit(v, q)
    ensures Bit((v & 0xff00) >> 8, q) <==> Bit(v, q + 8)
    ensures Bit((v & 0xff0000) >> 16, q) <==> Bit(v, q + 16)
    ensures Bit((v & 0xff000000) >> 24, q) <==> Bit(v, q + 24)
  {
    MaskByte(q);
    FirstByte(v, Mask(q));
    SecondByte(v, Mask(q));
    ThirdByte(v, Mask(q));
    FourthByte(v, Mask(q));
    hide Mask, Disjoint;
  }

  lemma Bytes(v: bv32, b0: bv32, b1: bv32, b2: bv32, b3: bv32)
    requires b0 == v & 0xff && b1 == (v & 0xff00) >> 8 && b2 == (v & 0xff0000) >> 16 && b3 == (v & 0xff000000) >> 24
    ensures IsByte(v, b0, 0) && IsByte(v, b1, 8) && IsByte(v, b2, 16) && IsByte(v, b3, 24)
  {
    BytesSmall(v);
    hide Bit;
    forall q: nat | q < 8
      ensures Bit(b0, q) <==> Bit(v, q)
    {
      ByteBits(v, q);
    }
    forall q: nat | q < 8
      ensures Bit(b1, q) <==> Bit(v, q + 8)
    {
      ByteBits(v, q);
    }
    forall q: nat | q < 8
      ensures Bit(b2, q) <==> Bit(v, q + 16)
    {
      ByteBits(v, q);
    }
    forall q: nat | q < 8
      ensures Bit(b3, q) <==> Bit(v, q + 24)
    {
      ByteBits(v, q);
    }
  }

  lemma BytesSmall(v: bv32)
    ensures v & 0xff < 256 && (v & 0xff00) >> 8 < 256 && (v & 0xff0000) >> 16 < 256 && (v & 0xff000000) >> 24 < 256
    ensures (v & 0xff00) >> 8 == 0 <==> v & 0xff00 == 0
    ensures (v & 0xff0000) >> 16 == 0 <==> v & 0xff0000 == 0
    ensures v & 0xff == 0 && v & 0xff00 == 0 && v & 0xff0000 == 0 && (v & 0xff000000) >> 24 == 0 ==> v == 0
  {
  }

  /** __rt_ffs finds the lowest bit that is set, and 0 exactly for the word without bits. */
  lemma FfsLowest(v: bv32)
    ensures Ffs(v) == 0 <==> forall q: nat :: q < 32 ==> !Bit(v, q)
    ensures Ffs(v) == 0 <==> v == 0
    ensures v != 0 ==> 1 <= Ffs(v) <= 32 && Bit(v, Ffs(v) - 1) && forall q: nat :: q < Ffs(v) - 1 ==> !Bit(v, q)
  {
    NothingSet();
    BytesSmall(v);
    var b0, b1, b2, b3 := v & 0xff, (v & 0xff00) >> 8, (v & 0xff0000) >> 16, (v & 0xff000000) >> 24;
    Bytes(v, b0, b1, b2, b3);
    hide Mask, Bit, IsByte, Lowest;
    if v != 0 {
      if b0 != 0 {
        FirstSet(v, b0, 0);
      } else {
        EmptyByte(v, b0, 0);
        if b1 != 0 {
          FirstSet(v, b1, 8);
        } else {
          EmptyByte(v, b1, 8);
          if b2 != 0 {
            FirstSet(v, b2, 16);
          } else {
            EmptyByte(v, b2, 16);
            FirstSet(v, b3, 24);
          }
        }
      }
    }
  }
}
