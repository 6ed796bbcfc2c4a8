/** slab.c: where a power-of-two request is aligned to its size, as the comment in rt_malloc promises. */
module SlabAlignment {
  import opened Options
  import PageRuns
  import opened SlabClasses
  import opened SlabZones
  import opened Slab

  function Times(k: int, g: int): int {
    k * g
  }

  ghost predicate Multiple(x: int, g: int) {
    exists k :: x == Times(k, g)
  }

  function Pow2(k: nat): nat {
    if k == 0 then 1 else 2 * Pow2(k - 1)
  }

  ghost predicate Power2(n: nat) {
    exists k: nat :: n == Pow2(k)
  }

  // ------------------------------------------------------------------ multiples

  lemma MultipleBy(x: int, y: int, k: int, g: int)
    requires y == x + k * g
    ensures Multiple(x, g) <==> Multiple(y, g)
  {
    if j :| x == Times(j, g) { assert y == Times(j + k, g); }
    if j :| y == Times(j, g) { assert x == Times(j - k, g); }
  }

  lemma MultipleTrans(x: int, h: int, m: int, g: int)
    requires Multiple(x, h) && h == m * g
    ensures Multiple(x, g)
  {
    var k :| x == Times(k, h);
    assert k * (m * g) == (k * m) * g;
    assert x == Times(k * m, g);
  }

  /** An address at the start of page a is a multiple of m pages exactly when a is a multiple of m. */
  lemma PageMultiple(a: int, m: nat)
    ensures Multiple(a * PAGE, m * PAGE) <==> Multiple(a, m)
  {
    if k :| a * PAGE == Times(k, m * PAGE) {
      assert k * (m * PAGE) == (k * m) * PAGE;
      assert a == Times(k, m);
    }
    if k :| a == Times(k, m) {
      assert k * (m * PAGE) == (k * m) * PAGE;
      assert a * PAGE == Times(k, m * PAGE);
    }
  }

  // -------------------------------------------------------------- powers of two

  lemma {:induction false} Pow2Sum(j: nat, k: nat)
    ensures Pow2(j + k) == Pow2(j) * Pow2(k)
  {
    if j > 0 {
      Pow2Sum(j - 1, k);
      assert 2 * (Pow2(j - 1) * Pow2(k)) == (2 * Pow2(j - 1)) * Pow2(k);
    }
  }

  lemma {:induction false} Pow2Positive(k: nat)
    ensures Pow2(k) >= 1
  {
    if k > 0 { Pow2Positive(k - 1); }
  }

  lemma Pow2Values()
    ensures Pow2(0) == 1 && Pow2(1) == 2 && Pow2(2) == 4 && Pow2(3) == 8 && Pow2(4) == 16 && Pow2(5) == 32
    ensures Pow2(6) == 64 && Pow2(7) == 128 && Pow2(8) == 256 && Pow2(9) == 512 && Pow2(10) == 1024
    ensures Pow2(11) == 2048 && Pow2(12) == 4096 && Pow2(13) == 8192 && Pow2(14) == 16384
  {
  }

  lemma {:induction false} Pow2Grows(j: nat, k: nat)
    requires j <= k
    ensures Pow2(j) <= Pow2(k)
    decreases k
  {
    if j < k { Pow2Grows(j, k - 1); }
  }

  /** The chunk of a power-of-two request has that size, or 8 bytes for less. */
  lemma PowerClass(n: nat)
    requires Power2(n) && n < 16384
    ensures n == 1 || n == 2 || n == 4 || PowerOfTwo(n)
    ensures n > 0 && ZoneIndex(n).1 == (if n < 8 then 8 else n)
  {
    var k: nat :| n == Pow2(k);
    if k >= 14 { Pow2Grows(14, k); }
    Pow2Values();
    hide Pow2;
    RoundUpSame(n);
  }

  lemma RoundUpSame(n: nat)
    requires n == 1 || n == 2 || n == 4 || (PowerOfTwo(n) && n < 16384)
    ensures ZoneIndex(n).1 == if n < 8 then 8 else n
  {
  }

  lemma EvenPages(n: nat, m: nat)
    requires n == m * 8192 && m >= 1
    ensures n / PAGE == 2 * m && n == n / PAGE * PAGE
  {
  }

  /** A power of two beyond the page size is an even number of pages. */
  lemma PowerPages(n: nat)
    requires Power2(n) && n > PAGE
    ensures n == n / PAGE * PAGE && n / PAGE >= 2 && n / PAGE % 2 == 0
  {
    var k: nat :| n == Pow2(k);
    Pow2Values();
    hide Pow2;
    if k <= 12 { Pow2Grows(k, 12); }
    Pow2Sum(k - 13, 13);
    Pow2Positive(k - 13);
    EvenPages(n, Pow2(k - 13));
  }

  // ------------------------------------------------------------------ one chunk

  /** A chunk of a power of two is aligned to its size up to the page size, whichever page its zone
      begins at; beyond that exactly when the zone is. */
  lemma PowerAligned(z: int, zn: Zone, i: nat)
    requires PowerOfTwo(zn.size) && zn.base == Base(zn.size)
    ensures Multiple(Chunk(z, zn, i), zn.size) <==> Multiple(z * PAGE, zn.size)
    ensures zn.size <= PAGE ==> Multiple(Chunk(z, zn, i), zn.size)
  {
    BaseBounds(zn.size);
    var b := zn.base / zn.size;
    assert zn.base == b * zn.size;
    assert (b + i) * zn.size == b * zn.size + i * zn.size;
    MultipleBy(z * PAGE, Chunk(z, zn, i), b + i, zn.size);
    if zn.size <= PAGE { SmallPower(z, zn.size); }
  }

  lemma SmallPower(z: int, size: nat)
    requires PowerOfTwo(size) && size <= PAGE
    ensures Multiple(z * PAGE, size)
  {
    var k := PAGE / size;
    assert k * size == PAGE;
    assert z * PAGE == Times(z, PAGE);
    MultipleTrans(z * PAGE, PAGE, k, size);
  }

  lemma ChunkAligned(s: SlabZones.Slab, p: int, size: nat)
    requires Inv(s) && p in s.out && Power2(size) && size < 16384
    requires s.out[p] in s.zones && s.zones[s.out[p]].size == ZoneIndex(size).1
    ensures Multiple(p, size) <==> size <= PAGE || Multiple(s.out[p], size / PAGE)
  {
    assert OutOk(s, p) && ZoneOk(s, s.out[p]);
    var z := s.out[p];
    var zn := s.zones[z];
    var i: nat :| i <= zn.uindex && p == Chunk(z, zn, i);
    PowerClass(size);
    PowerAligned(z, zn, i);
    hide Multiple, Inv, Chunk, ZoneIndex;
    if size < 8 {
      MultipleTrans(p, 8, 8 / size, size);
    } else if size > PAGE {
      PowerPages(size);
      PageMultiple(z, size / PAGE);
    }
  }

  // ------------------------------------------------------------ every request

  /** The page a request is served from, known before the call: that of the zone for a chunk, the lowest place
      with enough free pages for a run. */
  ghost predicate Serves(s: SlabZones.Slab, runs: seq<PageRuns.Run>, zoneSize: nat, size: nat, home: int) {
    if size < Limit(zoneSize) then size < 16384 && ServesChunk(s, runs, ZoneIndex(size).0, home)
    else PageRuns.LowestFit(runs, home, (size + PAGE - 1) / PAGE)
  }

  /** rt_malloc of a power of two: the pointer is a multiple of the size exactly when the size is at most a page
      or the page that serves the request is a multiple of the size in pages. */
  method MallocPower(h: SlabHeap, size: nat) returns (p: Option<int>, ghost home: int)
    requires h.Valid() && Power2(size)
    modifies h, h.pages
    ensures h.Valid() && h.zoneSize == old(h.zoneSize)
    ensures p.Some? ==> Serves(old(h.Abs()), old(h.pages.runs), h.zoneSize, size, home)
    ensures p.Some? ==> (Multiple(p.value, size) <==> size <= PAGE || Multiple(home, size / PAGE))
    ensures p.Some? && size < Limit(h.zoneSize) ==> p.value in h.out
    ensures p.None? ==>
              var n := if size < Limit(h.zoneSize) then h.zonePageCnt else (size + PAGE - 1) / PAGE;
              forall q :: !PageRuns.Fits(h.pages.runs, q, n)
    ensures p.None? ==> h.pages.runs == old(h.pages.runs) && h.zonePageCnt == old(h.zonePageCnt)
  {
    PowerPositive(size);
    p := h.Malloc(size);
    home := 0;
    if p.Some? && size < Limit(h.zoneSize) {
      home := h.out[p.value];
      ChunkAligned(h.Abs(), p.value, size);
    } else if p.Some? {
      home := PageOf(p.value);
      PowerPages(size);
      PageMultiple(home, size / PAGE);
    }
  }

  lemma PowerPositive(n: nat)
    requires Power2(n)
    ensures n > 0
  {
    var k: nat :| n == Pow2(k);
    Pow2Positive(k);
  }

  // ------------------------------------------------------------- where it fails

  lemma EvenMultiple(a: int, m: nat)
    requires m % 2 == 0 && a % 2 == 1
    ensures !Multiple(a, m)
  {
    if k :| a == Times(k, m) { EvenTimes(k, m); }
  }

  lemma EvenTimes(k: int, m: nat)
    requires m % 2 == 0
    ensures Times(k, m) % 2 == 0
  {
    assert k * m == 2 * (k * (m / 2));
  }

  /** For every power of two beyond the page size there is a heap whose first such request is misaligned. */
  method MisalignedAtBoot(size: nat) returns (h: SlabHeap, p: Option<int>)
    requires Power2(size) && size > PAGE
    ensures p.Some? && !Multiple(p.value, size)
  {
    PowerPages(size);
    var m := size / PAGE;
    var npages := 2 * m;
    var start := if UsagePages(npages) % 2 == 0 then 1 else 2;
    h := new SlabHeap(start, npages);
    BeyondLimit(size);
    PageRuns.RunFits(h.pages.runs, 0, start + UsagePages(npages), m);
    ghost var home;
    p, home := MallocPower(h, size);
    if p.Some? {
      BootHome(start, npages, m, home);
      EvenMultiple(home, m);
    }
  }

  lemma BeyondLimit(size: nat)
    requires Power2(size) && size > PAGE
    ensures var m := size / PAGE;
              size >= Limit(ZoneSize(2 * m)) && UsagePages(2 * m) + m <= 2 * m
              && (size + PAGE - 1) / PAGE == m
  {
    PowerPages(size);
  }

  /** The lowest place for n pages in a fresh heap is its first free page. */
  lemma BootHome(start: int, npages: nat, n: nat, home: int)
    requires n > 0 && UsagePages(npages) + n <= npages && PageRuns.LowestFit(BootRuns(start, npages), home, n)
    ensures home == start + UsagePages(npages)
  {
    var runs := BootRuns(start, npages);
    PageRuns.RunFits(runs, 0, start + UsagePages(npages), n);
    assert PageRuns.Free(runs, home);
    PageRuns.FreeOne(runs[0], home);
  }

  /** The request of two pages on a heap of 512 pages from page 2 on is given page 3. */
  lemma TwoPagesAtThree(home: int)
    requires Serves(SlabZones.Slab(8, map[], map[], [], map[], map[], map[], map[]), BootRuns(2, 512), ZoneSize(512),
             2 * PAGE, home)
    ensures BootRuns(2, 512) == [PageRuns.Run(3, 511)] && home == 3 && !Multiple(home, 2)
  {
    BootHome(2, 512, 2, home);
    EvenMultiple(3, 2);
  }

  /** Chunks fail likewise: on a heap of 16385 pages from page 2 on the first zone begins at page 19, and the
      first chunk of 8192 bytes is misaligned. */
  method MisalignedChunk() returns (h: SlabHeap, p: Option<int>)
    ensures p.Some? && p.value in h.out && !Multiple(p.value, 8192)
  {
    Pow2Values();
    assert 8192 == Pow2(13);
    h := new SlabHeap(2, 16385);
    PageRuns.RunFits(h.pages.runs, 0, 19, 16);
    ghost var home;
    p, home := MallocPower(h, 8192);
    if p.Some? {
      BootHome(2, 16385, 16, home);
      EvenMultiple(home, 2);
    }
  }
}
