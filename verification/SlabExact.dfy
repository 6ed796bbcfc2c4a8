/** slab.c: what the zones and chunks are, told by numbers. */
module SlabExact {
  import opened Options
  import opened Arithmetic
  import opened Rings
  import opened SlabClasses
  import opened SlabZones
  import opened SlabOps

  /** The chunk of a request is the next multiple of 8 below 128 bytes, and of an eighth of the power of two below the
      request otherwise. */
  lemma Granularity(n: nat)
    requires 0 < n < 16384
    ensures var size := ZoneIndex(n).1;
            var g := if n < 128 then 8 else if n < 256 then 16 else if n < 512 then 32 else if n < 1024 then 64
                     else if n < 2048 then 128 else if n < 4096 then 256 else if n < 8192 then 512 else 1024;
            size % g == 0 && n <= size < n + g
  {
    var g := if n < 128 then 8 else if n < 256 then 16 else if n < 512 then 32 else if n < 1024 then 64
             else if n < 2048 then 128 else if n < 4096 then 256 else if n < 8192 then 512 else 1024;
    RoundUpLeast(n, g);
    UpMultiple(n, g);
    hide RoundUp;
  }

  lemma UpMultiple(n: nat, g: nat)
    requires g > 0
    ensures RoundUp(n, g) % g == 0
  {
    var q := (n + g - 1) / g;
    DivUnique(q * g, g, q, 0);
    DivMod(q * g, g);
  }

  /** Zones are asked below a quarter of their size, and below 16 kB at most. */
  lemma LimitIs()
    ensures Limit(32 * 1024) == 8 * 1024 && Limit(64 * 1024) == 16 * 1024 && Limit(128 * 1024) == 16 * 1024
  {
  }

  /** The first chunk lies right behind the header of 36 bytes, at the next multiple of the chunk size when that is a
      power of two and of 8 otherwise. */
  lemma BaseExact(size: nat)
    requires size >= 8
    ensures var g := if PowerOfTwo(size) then size else 8; Base(size) % g == 0 && 36 <= Base(size) < 36 + g
  {
    var g := if PowerOfTwo(size) then size else 8;
    RoundUpLeast(36, g);
    UpMultiple(36, g);
    hide RoundUp, PowerOfTwo;
  }

  /** A new zone has as many chunks as fit it, and all but the first are free. */
  lemma NewZoneExact(s: Slab, zi: nat)
    requires zi < NZONES && SlabOps.Fits(s, zi)
    ensures var zn, room := NewZone(s, zi), s.cnt * PAGE;
            && zn.size == ClassSize(zi) && zn.zi == zi && zn.base == Base(zn.size) && zn.chunks == [] && zn.uindex == 0
            && zn.base + zn.nmax * zn.size <= room < zn.base + zn.nmax * zn.size + zn.size
            && zn.nfree == zn.nmax - 1
  {
    ClassBounds(zi);
    var size := ClassSize(zi);
    var left := s.cnt * PAGE - Base(size);
    FitsRoom(s, zi);
    DivBounds(left, size);
    hide ClassSize, Base;
  }

  lemma FitsRoom(s: Slab, zi: nat)
    requires zi < NZONES && SlabOps.Fits(s, zi)
    ensures ClassSize(zi) > 0 && s.cnt * PAGE >= Base(ClassSize(zi)) && NewZone(s, zi).nmax >= 2
    ensures NewZone(s, zi).nmax == (s.cnt * PAGE - Base(ClassSize(zi))) / ClassSize(zi)
  {
    ClassBounds(zi);
    hide ClassSize, Base;
    var left, size := s.cnt * PAGE - Base(ClassSize(zi)), ClassSize(zi);
    if left < 0 { NegativeQuotient(left, size); }
  }

  lemma NegativeQuotient(a: int, b: nat)
    requires a < 0 < b
    ensures a / b < 0
  {
    assert a == a / b * b + a % b;
    NegativeFactor(a / b, b);
  }

  lemma NegativeFactor(x: int, b: nat)
    requires x * b < 0
    ensures x < 0
  {
  }

  /** Opening a zone lists it first in its class and hands out its first chunk. */
  lemma OpenExact(s: Slab, z: int, zi: nat)
    requires zi < NZONES && zi in s.zoneArray
    ensures var s', p := OpenZone(s, z, zi), z * PAGE + Base(ClassSize(zi));
            && s'.zones == s.zones[z := NewZone(s, zi)] && s'.out == s.out[p := z]
            && s'.zoneArray == s.zoneArray[zi := [z] + s.zoneArray[zi]]
            && s'.spare == s.spare && s'.large == s.large && s'.usage == s.usage && s'.own == s.own
  {
    assert Chunk(z, NewZone(s, zi), 0) == z * PAGE + Base(ClassSize(zi));
  }

  /** A chunk comes from the zone that is first in its class: the next one that was never used, and only when there is
      none the one that came back last. A zone that has given its last chunk leaves the list. */
  lemma TakeExact(s: Slab, zi: nat)
    requires Inv(s) && zi < NZONES && zi in s.zoneArray && s.zoneArray[zi] != []
    ensures s.zoneArray[zi][0] in s.zones
    ensures var s', z := TakeChunk(s, zi), s.zoneArray[zi][0];
            var zn := s.zones[z];
            && s'.spare == s.spare && s'.large == s.large && s'.usage == s.usage && s'.own == s.own
            && s'.zoneArray == (if zn.nfree == 1 then s.zoneArray[zi := s.zoneArray[zi][1..]] else s.zoneArray)
            && (zn.uindex + 1 < zn.nmax ==>
                  && s'.out == s.out[z * PAGE + zn.base + (zn.uindex + 1) * zn.size := z]
                  && s'.zones == s.zones[z := zn.(uindex := zn.uindex + 1, nfree := zn.nfree - 1)])
            && (zn.uindex + 1 >= zn.nmax ==>
                  && zn.chunks != [] && s'.out == s.out[zn.chunks[0] := z]
                  && s'.zones == s.zones[z := zn.(chunks := zn.chunks[1..], nfree := zn.nfree - 1)])
  {
    GivesChunk(s, zi);
    var z := s.zoneArray[zi][0];
    assert ZoneOk(s, z);
    hide Inv;
  }
}
