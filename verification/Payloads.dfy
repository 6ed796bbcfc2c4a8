/** The bytes that the users of a heap have written, and which of them stay. A live block is known by the address of
    its header of hdr bytes; lives maps it to the address where it ends. */
module Payloads {

  type Bytes = map<int, bv8>

  /** data after n bytes from a on were overwritten by a header */
  function Erase(data: Bytes, a: int, n: int): Bytes {
    map x | x in data && !(a <= x < a + n) :: data[x]
  }

  /** data after rt_memcpy(to, from, n) out of the bytes src; bytes that were never written stay unwritten. */
  function Copied(data: Bytes, src: Bytes, to: int, from: int, n: nat): Bytes {
    if n == 0 then data
    else
      var d := Copied(data, src, to, from, n - 1);
      if from + n - 1 in src then d[to + n - 1 := src[from + n - 1]] else d - {to + n - 1}
  }

  /** Byte i of the payload of block a in d is byte i of the payload of block b in d'. */
  ghost predicate ByteKept(hdr: int, d: Bytes, a: int, d': Bytes, b: int, i: int) {
    var x, y := a + hdr + i, b + hdr + i;
    (x in d <==> y in d') && (x in d ==> d[x] == d'[y])
  }

  /** The first n bytes of the payload of block a are found in the payload of block b. */
  ghost predicate PayloadKept(hdr: int, d: Bytes, a: int, d': Bytes, b: int, n: int) {
    forall i {:trigger ByteKept(hdr, d, a, d', b, i)} :: 0 <= i < n ==> ByteKept(hdr, d, a, d', b, i)
  }

  ghost predicate BlockKept(lives: map<int, int>, hdr: int, b: int, d: Bytes, d': Bytes) {
    b in lives ==> PayloadKept(hdr, d, b, d', b, lives[b] - b - hdr)
  }

  /** No byte of a live payload changes, the blocks in but excepted. */
  ghost predicate OthersKept(lives: map<int, int>, hdr: int, but: set<int>, d: Bytes, d': Bytes) {
    forall b {:trigger BlockKept(lives, hdr, b, d, d')} :: b !in but ==> BlockKept(lives, hdr, b, d, d')
  }

  lemma {:induction false} CopiedBytes(data: Bytes, src: Bytes, to: int, from: int, n: nat, x: int)
    ensures var d := Copied(data, src, to, from, n);
            if to <= x < to + n then
              (x in d <==> x - to + from in src) && (x in d ==> d[x] == src[x - to + from])
            else (x in d <==> x in data) && (x in d ==> d[x] == data[x])
  {
    if n > 0 { CopiedBytes(data, src, to, from, n - 1, x); }
  }

  /** A header stored at m, away from every live block, destroys no live payload. */
  lemma EraseKeeps(lives: map<int, int>, hdr: nat, m: int, data: Bytes, but: set<int>)
    requires forall b :: b in lives && b !in but ==> m + hdr <= b + hdr || lives[b] <= m
    ensures OthersKept(lives, hdr, but, data, Erase(data, m, hdr))
  {
    forall b | b in lives && b !in but
      ensures BlockKept(lives, hdr, b, data, Erase(data, m, hdr))
    {
      forall i | 0 <= i < lives[b] - b - hdr
        ensures ByteKept(hdr, data, b, Erase(data, m, hdr), b, i)
      {
      }
    }
  }

  /** A header stored behind the first n payload bytes of block a leaves them alone. */
  lemma EraseBehind(hdr: nat, data: Bytes, a: int, m: int, n: int)
    requires m >= a + hdr + n
    ensures PayloadKept(hdr, data, a, Erase(data, m, hdr), a, n)
  {
    forall i | 0 <= i < n
      ensures ByteKept(hdr, data, a, Erase(data, m, hdr), a, i)
    {
    }
  }

  lemma SameKept(lives: map<int, int>, hdr: int, but: set<int>, data: Bytes)
    ensures OthersKept(lives, hdr, but, data, data)
  {
    forall b | b in lives
      ensures BlockKept(lives, hdr, b, data, data)
    {
      AllKept(hdr, data, b, lives[b] - b - hdr);
    }
  }

  lemma AllKept(hdr: int, data: Bytes, a: int, n: int)
    ensures PayloadKept(hdr, data, a, data, a, n)
  {
    forall i | 0 <= i < n
      ensures ByteKept(hdr, data, a, data, a, i)
    {
    }
  }

  /** The copy goes to bytes of no block that was live before. */
  lemma CopyKeeps(lives: map<int, int>, hdr: int, but: set<int>, b: int, d: Bytes, d1: Bytes, src: Bytes, from: int,
      n: nat)
    requires OthersKept(lives, hdr, {}, d, d1)
    requires forall x :: x in lives ==> b + hdr + n <= x + hdr || lives[x] <= b + hdr
    ensures OthersKept(lives, hdr, but, d, Copied(d1, src, b + hdr, from, n))
  {
    var d2 := Copied(d1, src, b + hdr, from, n);
    forall x | x in lives
      ensures BlockKept(lives, hdr, x, d, d2)
    {
      forall i | 0 <= i < lives[x] - x - hdr
        ensures ByteKept(hdr, d, x, d2, x, i)
      {
        assert BlockKept(lives, hdr, x, d, d1);
        assert ByteKept(hdr, d, x, d1, x, i);
        CopiedBytes(d1, src, b + hdr, from, n, x + hdr + i);
      }
    }
  }

  /** The copy has the bytes of the block it was made of. */
  lemma CopyHas(hdr: int, d: Bytes, d1: Bytes, src: Bytes, a: int, b: int, n: nat)
    requires PayloadKept(hdr, d, a, src, a, n)
    ensures PayloadKept(hdr, d, a, Copied(d1, src, b + hdr, a + hdr, n), b, n)
  {
    var d2 := Copied(d1, src, b + hdr, a + hdr, n);
    forall i | 0 <= i < n
      ensures ByteKept(hdr, d, a, d2, b, i)
    {
      assert ByteKept(hdr, d, a, src, a, i);
      CopiedBytes(d1, src, b + hdr, a + hdr, n, b + hdr + i);
    }
  }

  lemma Untouched(lives: map<int, int>, hdr: int, a: int, d: Bytes, d': Bytes)
    requires OthersKept(lives, hdr, {}, d, d') && a in lives
    ensures PayloadKept(hdr, d, a, d', a, lives[a] - a - hdr)
  {
    assert BlockKept(lives, hdr, a, d, d');
  }

  /** Fewer bytes are kept, too. */
  lemma FewerKept(hdr: int, d: Bytes, a: int, d': Bytes, b: int, m: int, n: int)
    requires PayloadKept(hdr, d, a, d', b, m) && n <= m
    ensures PayloadKept(hdr, d, a, d', b, n)
  {
  }
}
