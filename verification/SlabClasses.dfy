/** slab.c: the chunk classes, and how a zone of one class is laid out. */
module SlabClasses {
  import opened Arithmetic

  const PAGE := 4096              // RT_MM_PAGE_SIZE
  const ZONE_HEADER := 36         // sizeof(slab_zone) on a 32-bit target
  const NZONES := 72
  const MIN_CHUNK := 8

  /** zoneindex: the chunk size and the class of a request. */
  function ZoneIndex(n: nat): (int, nat)
    requires n < 16384
  {
    if n < 128 then (RoundUp(n, 8) / 8 - 1, RoundUp(n, 8))
    else if n < 256 then (RoundUp(n, 16) / 16 + 7, RoundUp(n, 16))
    else if n < 512 then (RoundUp(n, 32) / 32 + 15, RoundUp(n, 32))
    else if n < 1024 then (RoundUp(n, 64) / 64 + 23, RoundUp(n, 64))
    else if n < 2048 then (RoundUp(n, 128) / 128 + 31, RoundUp(n, 128))
    else if n < 4096 then (RoundUp(n, 256) / 256 + 39, RoundUp(n, 256))
    else if n < 8192 then (RoundUp(n, 512) / 512 + 47, RoundUp(n, 512))
    else (RoundUp(n, 1024) / 1024 + 55, RoundUp(n, 1024))
  }

  /** The chunk size of class zi: sixteen steps of 8, then eight steps of each power of two. */
  function ClassSize(zi: nat): nat
    requires zi < NZONES
  {
    if zi < 16 then 8 * (zi + 1)
    else if zi < 24 then 16 * (zi - 7)
    else if zi < 32 then 32 * (zi - 15)
    else if zi < 40 then 64 * (zi - 23)
    else if zi < 48 then 128 * (zi - 31)
    else if zi < 56 then 256 * (zi - 39)
    else if zi < 64 then 512 * (zi - 47)
    else 1024 * (zi - 55)
  }

  /** zoneindex picks the smallest class whose chunks hold the request. */
  lemma LeastClass(n: nat)
    requires 0 < n < 16384
    ensures var (zi, size) := ZoneIndex(n);
            0 <= zi < NZONES && size == ClassSize(zi) && n <= size && (zi > 0 ==> ClassSize(zi - 1) < n)
  {
    var g := if n < 128 then 8 else if n < 256 then 16 else if n < 512 then 32 else if n < 1024 then 64
             else if n < 2048 then 128 else if n < 4096 then 256 else if n < 8192 then 512 else 1024;
    RoundUpLeast(n, g);
  }

  lemma {:induction false} ClassesGrow(i: nat, j: nat)
    requires i < j < NZONES
    ensures ClassSize(i) < ClassSize(j)
  {
  }

  // ------------------------------------------------------------ zone layout

  predicate PowerOfTwo(size: nat) {
    || size == 8 || size == 16 || size == 32 || size == 64 || size == 128 || size == 256
    || size == 512 || size == 1024 || size == 2048 || size == 4096 || size == 8192 || size == 16384
  }

  /** The bit test of the source finds the powers of two. */
  lemma PowerTest(size: bv32)
    requires 8 <= size <= 16384
    ensures (size | (size - 1)) + 1 == size << 1
            <==> || size == 8 || size == 16 || size == 32 || size == 64 || size == 128 || size == 256
                 || size == 512 || size == 1024 || size == 2048 || size == 4096 || size == 8192 || size == 16384
  {
  }

  /** Where the chunks begin: behind the header, on a multiple of the chunk size for a power of two. */
  function Base(size: nat): nat
    requires size > 0
  {
    if PowerOfTwo(size) then RoundUp(ZONE_HEADER, size) else RoundUp(ZONE_HEADER, MIN_CHUNK)
  }

  /** z_nmax */
  function ChunkCount(zoneSize: nat, size: nat): int
    requires size > 0
  {
    (zoneSize - Base(size)) / size
  }

  predicate IsZoneSize(zoneSize: nat) {
    zoneSize == 32768 || zoneSize == 65536 || zoneSize == 131072
  }

  /** zone_limit */
  function Limit(zoneSize: nat): nat {
    if zoneSize / 4 > 16384 then 16384 else zoneSize / 4
  }

  lemma BaseBounds(size: nat)
    requires size >= 8 && (PowerOfTwo(size) || size % 8 == 0)
    ensures ZONE_HEADER <= Base(size) <= (if size < 64 then 64 else size) && Base(size) % 8 == 0
    ensures PowerOfTwo(size) ==> Base(size) % size == 0
  {
    if size == 8 || size == 16 || size == 32 { }
    else if size == 64 || size == 128 || size == 256 || size == 512 { }
    else if size == 1024 || size == 2048 || size == 4096 { }
    else if size == 8192 || size == 16384 { }
    else { assert Base(size) == 40 && size != 8; }
  }

  /** Every class a zone is made for has room for at least three chunks. */
  lemma ZoneRoom(zoneSize: nat, n: nat)
    requires IsZoneSize(zoneSize) && 0 < n < Limit(zoneSize)
    ensures var (zi, size) := ZoneIndex(n);
            size > 0 && ChunkCount(zoneSize, size) >= 3 && Base(size) + ChunkCount(zoneSize, size) * size <= zoneSize
  {
    LeastClass(n);
    var (zi, size) := ZoneIndex(n);
    ClassBounds(zi);
    BaseBounds(size);
    LimitHolds(zoneSize, n);
    Division(zoneSize - Base(size), size);
  }

  lemma ClassBounds(zi: nat)
    requires zi < NZONES
    ensures 8 <= ClassSize(zi) <= 17408 && ClassSize(zi) % 8 == 0
  {
  }

  lemma LimitHolds(zoneSize: nat, n: nat)
    requires IsZoneSize(zoneSize) && 0 < n < Limit(zoneSize)
    ensures 4 * ZoneIndex(n).1 <= zoneSize
  {
  }

  lemma Division(room: nat, size: nat)
    requires 8 <= size && room >= 3 * size
    ensures room / size >= 3 && room / size * size <= room
  {
  }
}
