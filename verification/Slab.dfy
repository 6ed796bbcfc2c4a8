/** slab.c: the slab allocator on top of the page allocator. A pointer is a byte address, a page
    the number of a page; the links z_next and c_next are kept as sequences. */
module Slab {
  import opened Options
  import opened Arithmetic
  import opened Rings
  import opened Chains
  import PageRuns
  import opened PageAllocator
  import opened SlabClasses
  import opened SlabZones
  import opened SlabOps

  /** Nothing of what was handed out has changed its zone or size, except what is named. */
  ghost predicate SameChunk(s: SlabZones.Slab, s': SlabZones.Slab, p: int) {
    && p in s.out && p in s'.out && s'.out[p] == s.out[p]
    && s.out[p] in s.zones && s'.out[p] in s'.zones && s'.zones[s'.out[p]].size == s.zones[s.out[p]].size
  }

  /** p is a new chunk with at least size bytes, and all other chunks and runs are as before. */
  ghost predicate NewChunk(s: SlabZones.Slab, s': SlabZones.Slab, p: int, size: nat) {
    && p !in s.out && p in s'.out && s'.out.Keys == s.out.Keys + {p} && s'.large == s.large
    && s'.out[p] in s'.zones && s'.zones[s'.out[p]].size >= size
    && forall q {:trigger SameChunk(s, s', q)} :: q in s.out ==> SameChunk(s, s', q)
  }

  /** p is the address of a new run of pages with at least size bytes. */
  ghost predicate NewRun(s: SlabZones.Slab, s': SlabZones.Slab, p: int, size: nat) {
    var a := PageOf(p);
    && p == a * PAGE && a !in s.large && a in s'.large && s'.large == s.large[a := s'.large[a]]
        && s'.large[a] * PAGE >= size
    && s'.out == s.out && s'.zones == s.zones
  }

  lemma GivenIsNew(s: SlabZones.Slab, zi: nat)
    requires Inv(s) && zi < NZONES && zi in s.zoneArray && s.zoneArray[zi] != []
    ensures var z := s.zoneArray[zi][0];
              z in s.zones
              && (s.zones[z].uindex + 1 == s.zones[z].nmax ==> s.zones[z].chunks != [])
    ensures var z := s.zoneArray[zi][0]; NewChunk(s, TakeChunk(s, zi), Given(z, s.zones[z]).1, s.zones[z].size)
  {
    GivenFacts(s, zi);
    var s', z := TakeChunk(s, zi), s.zoneArray[zi][0];
    hide IsSlot, Counts, Room;
    forall q | q in s.out
      ensures SameChunk(s, s', q)
    {
      assert OutOk(s, q);
    }
  }

  lemma OpenedIsNew(s: SlabZones.Slab, z: int, zi: nat)
    requires Inv(s) && Laid(s, z) && z !in s.zones && SlabOps.Fits(s, zi) && zi in s.zoneArray
    ensures NewChunk(s, OpenZone(s, z, zi), Chunk(z, NewZone(s, zi), 0), ClassSize(zi))
  {
    OpenZoneFresh(s, z, zi);
    var s' := OpenZone(s, z, zi);
    hide IsSlot, Room;
    forall q | q in s.out
      ensures SameChunk(s, s', q)
    {
      assert OutOk(s, q);
    }
  }

  /** What the free pages are to the zones and runs */
  ghost predicate Apart(runs: seq<PageRuns.Run>, own: map<int, Owner>) {
    forall p {:trigger PageRuns.Free(runs, p)} {:trigger p in own} :: p in own ==> !PageRuns.Free(runs, p)
  }

  function EmptyLists(n: nat): (r: map<nat, seq<int>>)
    ensures forall i: nat :: i < n ==> i in r && r[i] == []
  {
    if n == 0 then map[] else EmptyLists(n - 1)[n - 1 := []]
  }

  /** Pages just taken from the page allocator are nobody's. */
  lemma TakenUnowned(runs: seq<PageRuns.Run>, runs': seq<PageRuns.Run>, own: map<int, Owner>, a: int, n: nat, o: Owner)
    requires Apart(runs, own) && PageRuns.Maximal(runs) && PageRuns.Fits(runs, a, n)
             && PageRuns.Removed(runs, runs', a, n) && n > 0
    ensures a > 0 && forall p :: a <= p < a + n ==> p !in own
    ensures Apart(runs', Owned(own, a, n, o)) && Apart(runs', own)
  {
    assert PageRuns.Free(runs, a);
    forall p | a <= p < a + n
      ensures p !in own
    {
      assert PageRuns.Free(runs, p);
    }
    forall p | p in Owned(own, a, n, o)
      ensures !PageRuns.Free(runs', p)
    {
      assert p in own || Within(a, n, p);
    }
  }

  /** Pages that nobody owns any more may go back. */
  lemma GivenBack(runs: seq<PageRuns.Run>, runs': seq<PageRuns.Run>, own: map<int, Owner>, own': map<int, Owner>,
      a: int, n: nat)
    requires Apart(runs, own) && own' == own - Pages(a, n) && PageRuns.Added(runs, runs', a, n)
    ensures Apart(runs', own')
  {
    forall p | p in own'
      ensures !PageRuns.Free(runs', p)
    {
      assert !Within(a, n, p);
    }
  }

  /** What is owned is used. */
  lemma OwnedUsed(runs: seq<PageRuns.Run>, own: map<int, Owner>, a: int, n: nat)
    requires Apart(runs, own) && forall p :: a <= p < a + n ==> p in own
    ensures PageRuns.Used(runs, a, n)
  {
  }

  lemma ZoneFits(s: SlabZones.Slab, zoneSize: nat, size: nat)
    requires IsZoneSize(zoneSize) && s.cnt * PAGE == zoneSize && 0 < size < Limit(zoneSize)
    ensures size < 16384 && SlabOps.Fits(s, ZoneIndex(size).0)
            && NewZone(s, ZoneIndex(size).0).size == ZoneIndex(size).1 == ClassSize(ZoneIndex(size).0) >= size
  {
    LeastClass(size);
    ZoneRoom(zoneSize, size);
  }

  lemma ArrayKnown(s: SlabZones.Slab, zi: int)
    requires Inv(s) && 0 <= zi < NZONES
    ensures zi in s.zoneArray
  {
    assert Listed(s, zi);
  }

  lemma ClassOf(s: SlabZones.Slab, z: int)
    requires Inv(s) && z in s.zones
    ensures s.zones[z].zi < NZONES && s.zones[z].size == ClassSize(s.zones[z].zi)
  {
    assert ZoneOk(s, z);
  }

  lemma NewFromSame(s: SlabZones.Slab, s1: SlabZones.Slab, s': SlabZones.Slab, p: int, size: nat, request: nat)
    requires NewChunk(s1, s', p, size) && s1.zones == s.zones && s1.out == s.out && s1.large == s.large
             && request <= size
    ensures NewChunk(s, s', p, request)
  {
    forall q | q in s.out
      ensures SameChunk(s, s', q)
    {
      assert SameChunk(s1, s', q);
    }
  }

  lemma StillFits(s: SlabZones.Slab, s1: SlabZones.Slab, zi: nat)
    requires SlabOps.Fits(s, zi) && s1.cnt == s.cnt
    ensures SlabOps.Fits(s1, zi)
  {
  }

  /** zone_size of a heap of npages pages: at least as many bytes as the heap has kilobytes, within the limits */
  function ZoneSize(npages: nat): nat {
    var kilobytes := npages * PAGE / 1024;
    if kilobytes <= 64 * 1024 then 32 * 1024 else if kilobytes <= 128 * 1024 then 64 * 1024 else 128 * 1024
  }

  /** The pages that hold memusage */
  function UsagePages(npages: nat): nat {
    (npages * 4 + PAGE - 1) / PAGE
  }

  /** The free pages right after initialisation */
  function BootRuns(start: int, npages: nat): seq<PageRuns.Run> {
    var u := UsagePages(npages);
    if u < npages then [PageRuns.Run(start + u, npages - u)] else []
  }

  lemma AfterUsage(start: int, npages: nat, b: int, runs': seq<PageRuns.Run>)
    requires start > 0 && npages > 0 && PageRuns.Maximal(runs')
    requires var runs, u := [PageRuns.Run(start, npages)], RoundUp(npages * 4, PAGE) / PAGE;
             && (b == RT_NULL ==> forall q :: !PageRuns.Fits(runs, q, u))
             && (b != RT_NULL ==> PageRuns.LowestFit(runs, b, u) && PageRuns.Removed(runs, runs', b, u))
    ensures runs' == BootRuns(start, npages)
  {
    var runs, u := [PageRuns.Run(start, npages)], UsagePages(npages);
    RoundUpLeast(npages * 4, PAGE);
    assert 0 < u <= npages;
    PageRuns.RunFits(runs, 0, start, u);
    assert PageRuns.Free(runs, b);
    PageRuns.FreeOne(runs[0], b);
    var boot := BootRuns(start, npages);
    forall p
      ensures PageRuns.Free(runs', p) <==> PageRuns.Free(boot, p)
    {
      PageRuns.FreeOne(runs[0], p);
      if u < npages { PageRuns.FreeOne(boot[0], p); }
    }
    PageRuns.Canonical(runs', boot);
  }

  /** From which page a chunk of class zi comes: the first zone of the class with a free chunk, else the first
      whole free zone, else the lowest place where a zone fits. */
  ghost predicate ServesChunk(s: SlabZones.Slab, runs: seq<PageRuns.Run>, zi: int, z: int) {
    if zi >= 0 && zi in s.zoneArray && s.zoneArray[zi] != [] then z == s.zoneArray[zi][0]
    else if s.spare != [] then z == s.spare[0]
    else PageRuns.LowestFit(runs, z, s.cnt)
  }

  /** zone_size: from 32 kB on, doubled while it is too small for a heap of npages pages */
  method ChooseZoneSize(npages: nat) returns (zs: nat)
    ensures zs == ZoneSize(npages) && IsZoneSize(zs)
  {
    var limsize := npages * PAGE;
    zs := 32 * 1024;
    while zs < 128 * 1024 && 2 * zs < limsize / 1024
      invariant IsZoneSize(zs) && (zs > 32 * 1024 ==> zs < limsize / 1024)
      decreases 128 * 1024 - zs
    {
      zs := 2 * zs;
    }
  }

  /** The heap before anything was handed out */
  lemma EmptyInv(cnt: nat)
    requires cnt > 0
    ensures Inv(SlabZones.Slab(cnt, map[], EmptyLists(NZONES), [], map[], map[], map[], map[]))
  {
  }

  class SlabHeap {
    const pages: PageAllocator
    var zoneSize: nat
    var zonePageCnt: nat
    var zones: map<int, Zone>
    var zoneArray: map<nat, seq<int>>
    var zoneFree: seq<int>
    var zoneFreeCnt: int
    var memusage: map<int, Usage>
    ghost var own: map<int, Owner>
    ghost var out: map<int, int>
    ghost var large: map<int, nat>

    ghost function Abs(): SlabZones.Slab
      reads this
    {
      SlabZones.Slab(zonePageCnt, zones, zoneArray, zoneFree, memusage, own, out, large)
    }

    ghost predicate Valid()
      reads this, pages
    {
      && Inv(Abs()) && pages.Valid()
      && IsZoneSize(zoneSize) && zonePageCnt * PAGE == zoneSize
      && zoneFreeCnt == |zoneFree|
      && Apart(pages.runs, own)
    }

    /** rt_system_heap_init of npages pages: memusage takes the first of them, and the size of the heap decides
        the size of the zones. */
    constructor (start: int, npages: nat)
      requires start > 0 && npages > 0
      ensures Valid() && fresh(pages) && out == map[] && large == map[] && zones == map[]
      ensures zoneFree == [] && forall zi: nat :: zi < NZONES ==> zi in zoneArray && zoneArray[zi] == []
      ensures zoneSize == ZoneSize(npages) && zonePageCnt == zoneSize / PAGE
      ensures pages.runs == BootRuns(start, npages)
    {
      hide Inv;
      pages := new PageAllocator(start, npages);
      var zs := ChooseZoneSize(npages);
      zoneSize, zonePageCnt := zs, zs / PAGE;
      zones, zoneFree, zoneFreeCnt := map[], [], 0;
      zoneArray := EmptyLists(NZONES);
      memusage, own, out, large := map[], map[], map[], map[];
      new;
      EmptyInv(zs / PAGE);
      var usage := pages.Alloc(RoundUp(npages * 4, PAGE) / PAGE);
      AfterUsage(start, npages, usage, pages.runs);
    }

    /** rt_malloc below zone_limit when the class has a zone with a free chunk */
    method FromZone(zi: nat) returns (chunk: int)
      requires Valid() && zi < NZONES && zi in zoneArray && zoneArray[zi] != []
      modifies `zones, `zoneArray, `out
      ensures Valid() && Abs() == TakeChunk(old(Abs()), zi)
      ensures zi in old(zoneArray) && old(zoneArray)[zi] != [] && old(zoneArray)[zi][0] in old(zones)
      ensures NewChunk(old(Abs()), Abs(), chunk, old(zones)[old(zoneArray)[zi][0]].size)
      ensures var z := old(zoneArray)[zi][0];
                chunk in out && out[chunk] == z && z in zones
                && zones[z].size == old(zones)[z].size
    {
      TakeChunkKeeps(Abs(), zi);
      GivenIsNew(Abs(), zi);
      GivesChunk(Abs(), zi);
      hide Inv, NewChunk, ZoneOk, TakeChunk, Given, Apart, IsZoneSize, PageRuns.Maximal;
      chunk := GiveChunk(zi);
    }

    /** The first zone of class zi gives a chunk. */
    method GiveChunk(zi: nat) returns (chunk: int)
      requires Inv(Abs()) && zi < NZONES && zi in zoneArray && zoneArray[zi] != []
      modifies `zones, `zoneArray, `out
      ensures Abs() == TakeChunk(old(Abs()), zi)
      ensures var z := old(zoneArray)[zi][0];
              && z in old(zones) && (old(zones)[z].uindex + 1 == old(zones)[z].nmax ==> old(zones)[z].chunks != [])
              && chunk == Given(z, old(zones)[z]).1 && z in zones && zones[z].size == old(zones)[z].size
              && chunk in out && out[chunk] == z
    {
      GivesChunk(Abs(), zi);
      hide Inv, ZoneOk;
      var z := zoneArray[zi][0];
      var zone;
      zone, chunk := NextChunk(z, zones[z]);
      if zone.nfree == 0 { zoneArray := zoneArray[zi := zoneArray[zi][1..]]; }
      zones := zones[z := zone];
      out := out[chunk := z];
    }

    /** The next chunk of a zone: one that was never used, or else the first on its free list */
    method NextChunk(z: int, from: Zone) returns (zone: Zone, chunk: int)
      requires from.uindex + 1 == from.nmax ==> from.chunks != []
      ensures (zone, chunk) == Given(z, from)
    {
      zone := from.(nfree := from.nfree - 1);
      if zone.uindex + 1 != zone.nmax {
        zone := zone.(uindex := zone.uindex + 1);
        chunk := z * PAGE + zone.base + zone.uindex * zone.size;
      } else {
        chunk := zone.chunks[0];
        zone := zone.(chunks := zone.chunks[1..]);
      }
    }

    /** A free zone, from the list of whole free zones or else from the page allocator */
    method FindZone() returns (z: int)
      requires Valid()
      modifies `zoneFree, `zoneFreeCnt, `memusage, `own, pages
      ensures Valid()
      ensures z == RT_NULL ==> Abs() == old(Abs()) && old(zoneFree) == [] && pages.runs == old(pages.runs)
      ensures z == RT_NULL ==> forall q :: !PageRuns.Fits(pages.runs, q, zonePageCnt)
      ensures z != RT_NULL ==> Laid(Abs(), z) && z !in zones && z !in zoneFree
      ensures old(zoneFree) != [] ==>
                z == old(zoneFree)[0] && zoneFree == old(zoneFree)[1..]
                && pages.runs == old(pages.runs)
      ensures z != RT_NULL && old(zoneFree) == [] ==>
                PageRuns.LowestFit(old(pages.runs), z, zonePageCnt)
                && PageRuns.Removed(old(pages.runs), pages.runs, z, zonePageCnt) && zoneFree == []
    {
      hide Inv, PageRuns.Maximal;
      if zoneFree != [] {
        PopSpareKeeps(Abs());
        z := zoneFree[0];
        zoneFree := zoneFree[1..];
        zoneFreeCnt := zoneFreeCnt - 1;
        FirstSpare(Abs(), z);
      } else {
        ghost var runs := pages.runs;
        z := pages.Alloc(zoneSize / PAGE);
        if z != RT_NULL {
          TakenUnowned(runs, pages.runs, own, z, zonePageCnt, ZonePage(z));
          LayOutKeeps(Abs(), z);
          memusage := Mapped(memusage, z, zonePageCnt);
          own := Owned(own, z, zonePageCnt, ZonePage(z));
        }
      }
    }

    lemma FirstSpare(s: SlabZones.Slab, z: int)
      requires Laid(s, z)
      ensures z != RT_NULL
    {
    }

    /** A free zone becomes a zone of class zi and gives its first chunk. */
    method StartZone(z: int, zi: nat, size: nat) returns (chunk: int)
      requires Valid() && Laid(Abs(), z) && z !in zones && z !in zoneFree && zi in zoneArray
      requires SlabOps.Fits(Abs(), zi) && size == ClassSize(zi)
      modifies `zones, `zoneArray, `out
      ensures Valid() && NewChunk(old(Abs()), Abs(), chunk, size)
      ensures chunk in out && out[chunk] == z && z in zones && zones[z].size == size
      ensures zi in old(zoneArray) && Abs() == OpenZone(old(Abs()), z, zi)
    {
      OpenZoneKeeps(Abs(), z, zi);
      OpenedIsNew(Abs(), z, zi);
      hide Inv, NewChunk, Laid, ClassSize, NewZone, Apart, IsZoneSize, PageRuns.Maximal;
      var zone := LayOutZone(zi, size);
      chunk := z * PAGE + zone.base;
      out := out[chunk := z];
      zoneArray := zoneArray[zi := [z] + zoneArray[zi]];
      zones := zones[z := zone];
    }

    /** The header of a new zone of class zi, whose first chunk is given away at once */
    method LayOutZone(zi: nat, size: nat) returns (zone: Zone)
      requires SlabOps.Fits(Abs(), zi) && size == ClassSize(zi) && zonePageCnt * PAGE == zoneSize
      ensures zone == NewZone(Abs(), zi) && zone.size == size
    {
      hide RoundUp, PowerOfTwo, ClassSize;
      var off := if PowerOfTwo(size) then RoundUp(ZONE_HEADER, size) else RoundUp(ZONE_HEADER, MIN_CHUNK);
      var nmax := (zoneSize - off) / size;
      zone := Zone(nmax - 1, nmax, off, 0, size, zi, []);
    }

    /** rt_malloc of a chunk */
    method MallocSmall(size: nat) returns (p: Option<int>)
      requires Valid() && 0 < size < Limit(zoneSize) && size < 16384
      modifies `zones, `zoneArray, `zoneFree, `zoneFreeCnt, `memusage, `own, `out, pages
      ensures Valid()
      ensures p.Some? ==> NewChunk(old(Abs()), Abs(), p.value, size)
      ensures p.Some? ==>
                && p.value in out && ServesChunk(old(Abs()), old(pages.runs), ZoneIndex(size).0, out[p.value])
                && out[p.value] in zones && zones[out[p.value]].size == ZoneIndex(size).1
      ensures p.None? ==> Abs() == old(Abs()) && zoneFree == [] && pages.runs == old(pages.runs)
      ensures p.None? ==> forall q :: !PageRuns.Fits(pages.runs, q, zonePageCnt)
    {
      ZoneFits(Abs(), zoneSize, size);
      hide Inv, NewChunk, Laid, SlabOps.Fits, NewZone, ZoneIndex, ClassSize, Limit;
      var (zi, chunkSize) := ZoneIndex(size);
      ArrayKnown(Abs(), zi);
      if zoneArray[zi] != [] {
        GivesChunk(Abs(), zi);
        ClassOf(Abs(), zoneArray[zi][0]);
        ghost var s0 := Abs();
        var chunk := FromZone(zi);
        NewFromSame(s0, s0, Abs(), chunk, chunkSize, size);
        return Some(chunk);
      }
      ghost var s := Abs();
      var z := FindZone();
      if z == RT_NULL { return None; }
      ghost var s1 := Abs();
      StillFits(s, s1, zi);
      var chunk := StartZone(z, zi, chunkSize);
      NewFromSame(s, s1, Abs(), chunk, chunkSize, size);
      return Some(chunk);
    }

    /** rt_malloc of whole pages */
    method MallocLarge(size: nat) returns (p: Option<int>)
      requires Valid() && size > 0
      modifies `memusage, `own, `large, pages
      ensures Valid()
      ensures p.Some? ==> NewRun(old(Abs()), Abs(), p.value, size)
      ensures p.Some? ==> PageRuns.LowestFit(old(pages.runs), PageOf(p.value), (size + PAGE - 1) / PAGE)
      ensures p.Some? ==>
                var a, n := PageOf(p.value), (size + PAGE - 1) / PAGE;
                a in large && large[a] == n && PageRuns.Removed(old(pages.runs), pages.runs, a, n)
      ensures p.None? ==> Abs() == old(Abs()) && pages.runs == old(pages.runs)
      ensures p.None? ==> var n := (size + PAGE - 1) / PAGE; forall q :: !PageRuns.Fits(pages.runs, q, n)
    {
      hide Inv, PageRuns.Maximal;
      var n := RoundUp(size, PAGE) / PAGE;
      WholePages(size);
      ghost var runs := pages.runs;
      var a := pages.Alloc(n);
      if a == RT_NULL { return None; }
      TakenUnowned(runs, pages.runs, own, a, n, LargePage(a));
      TakeRunKeeps(Abs(), a, n);
      memusage := memusage[a := Usage(Large, n)];
      own := Owned(own, a, n, LargePage(a));
      large := large[a := n];
      return Some(a * PAGE);
    }

    lemma WholePages(size: nat)
      requires size > 0
      ensures RoundUp(size, PAGE) / PAGE == (size + PAGE - 1) / PAGE > 0 && RoundUp(size, PAGE) / PAGE * PAGE >= size
    {
    }

    /** rt_malloc: nothing for an empty request or when the pages run out, otherwise new memory. */
    method Malloc(size: nat) returns (p: Option<int>)
      requires Valid()
      modifies `zones, `zoneArray, `zoneFree, `zoneFreeCnt, `memusage, `own, `out, `large, pages
      ensures Valid()
      ensures p.Some? ==>
                size > 0
                && if size < Limit(zoneSize) then NewChunk(old(Abs()), Abs(), p.value, size)
                else NewRun(old(Abs()), Abs(), p.value, size)
      ensures p.Some? && size < Limit(zoneSize) ==>
                && size < 16384 && p.value in out
                && ServesChunk(old(Abs()), old(pages.runs), ZoneIndex(size).0, out[p.value])
                && out[p.value] in zones && zones[out[p.value]].size == ZoneIndex(size).1
      ensures p.Some? && size >= Limit(zoneSize) ==>
                var a, n := PageOf(p.value), (size + PAGE - 1) / PAGE;
                && PageRuns.LowestFit(old(pages.runs), a, n)
                && a in large && large[a] == n && PageRuns.Removed(old(pages.runs), pages.runs, a, n)
      ensures p.None? ==> Abs() == old(Abs()) && pages.runs == old(pages.runs)
      ensures p.None? && size > 0 ==>
                var n := if size < Limit(zoneSize) then zonePageCnt else (size + PAGE - 1) / PAGE;
                forall q :: !PageRuns.Fits(pages.runs, q, n)
    {
      hide Inv, NewChunk, NewRun;
      if size == 0 { return None; }
      if size >= Limit(zoneSize) {
        p := MallocLarge(size);
      } else {
        p := MallocSmall(size);
      }
    }

    /** rt_free of a pointer that the page map shows to be a run of pages */
    method FreeLarge(a: int)
      requires Valid() && a in large
      modifies `memusage, `own, `large, pages
      ensures Valid() && a in old(large) && Abs() == DropRun(old(Abs()), a)
      ensures PageRuns.Added(old(pages.runs), pages.runs, a, old(large)[a]) && large == old(large) - {a}
    {
      DropRunKeeps(Abs(), a);
      RunKnown(Abs(), a);
      hide Inv;
      ghost var s, runs := Abs(), pages.runs;
      var size := memusage[a].size;
      memusage := memusage[a := memusage[a].(size := 0)];
      OwnedUsed(runs, own, a, size);
      pages.Free(a, size);
      GivenBack(runs, pages.runs, own, own - Pages(a, size), a, size);
      own := own - Pages(a, size);
      large := large - {a};
    }

    lemma RunKnown(s: SlabZones.Slab, a: int)
      requires Inv(s) && a in s.large
      ensures a > 0 && s.large[a] > 0 && a in s.usage && s.usage[a] == Usage(Large, s.large[a])
      ensures forall p :: a <= p < a + s.large[a] ==> p in s.own
    {
      assert LargeOk(s, a);
      forall p | a <= p < a + s.large[a]
        ensures p in s.own
      {
        assert InRun(s, a, p);
      }
    }

    /** A chunk goes back to its zone, and the zone back to the list of its class. */
    method ReturnChunk(z: int, ptr: int)
      requires Valid() && ptr in out && z == out[ptr]
      modifies `zones, `zoneArray, `out
      ensures Valid() && ptr in old(out) && Abs() == GiveBack(old(Abs()), ptr)
    {
      GiveBackKeeps(Abs(), ptr);
      BackFacts(Abs(), ptr);
      hide Inv, ZoneOk, IsSlot;
      var zone := zones[z];
      zone := zone.(chunks := [ptr] + zone.chunks);
      if zone.nfree == 0 { zoneArray := zoneArray[zone.zi := [z] + zoneArray[zone.zi]]; }
      zone := zone.(nfree := zone.nfree + 1);
      zones := zones[z := zone];
      out := out - {ptr};
    }

    /** A zone with no chunk in use leaves its class; the search follows the list of the class. */
    method UnlinkZone(z: int)
      requires Valid() && z in zones && zones[z].nfree == zones[z].nmax
      modifies `zones, `zoneArray
      ensures Valid()
      ensures z in old(zones) && old(zones)[z].zi in old(zoneArray) && z in old(zoneArray)[old(zones)[z].zi]
      ensures Abs() == Retire(old(Abs()), z) && Laid(Abs(), z) && z !in zones && z !in zoneFree
    {
      RetireKeeps(Abs(), z);
      hide Inv;
      var zi := zones[z].zi;
      var list := zoneArray[zi];
      var k := 0;
      while list[k] != z
        invariant k <= Index(list, z) < |list|
        decreases |list| - k
      {
        k := k + 1;
      }
      FirstIndex(list, z, k);
      zoneArray := zoneArray[zi := list[..k] + list[k + 1..]];
      zones := zones - {z};
    }

    lemma FirstIndex(list: seq<int>, z: int, k: nat)
      requires z in list && k <= Index(list, z) && list[k] == z
      ensures k == Index(list, z)
    {
      IndexFirst(list, z, k);
    }

    /** The pages of the whole free zone z return to the page allocator. */
    method ReturnPages(z: int)
      requires Valid() && Laid(Abs(), z) && z !in zones && z !in zoneFree
      modifies `memusage, `own, pages
      ensures Valid() && Abs() == DropPages(old(Abs()), z)
      ensures PageRuns.Added(old(pages.runs), pages.runs, z, zonePageCnt)
    {
      DropPagesKeeps(Abs(), z);
      LaidPages(Abs(), z);
      hide Inv, Laid;
      ghost var runs := pages.runs;
      memusage := Cleared(memusage, z, zonePageCnt);
      OwnedUsed(runs, own, z, zonePageCnt);
      pages.Free(z, zoneSize / PAGE);
      GivenBack(runs, pages.runs, own, own - Pages(z, zonePageCnt), z, zonePageCnt);
      own := own - Pages(z, zonePageCnt);
    }

    /** The whole free zone z joins the list of free zones; a third one returns to the page allocator. */
    method ReleaseZone(z: int)
      requires Valid() && Laid(Abs(), z) && z !in zones && z !in zoneFree
      modifies `zoneFree, `zoneFreeCnt, `memusage, `own, pages
      ensures Valid()
      ensures if |old(zoneFree)| < 2 then Abs() == PushSpare(old(Abs()), z) else Abs() == DropPages(old(Abs()), z)
      ensures |old(zoneFree)| < 2 ==> zoneFree == [z] + old(zoneFree) && pages.runs == old(pages.runs)
      ensures |old(zoneFree)| >= 2 ==>
                zoneFree == old(zoneFree) && PageRuns.Added(old(pages.runs), pages.runs, z, zonePageCnt)
    {
      hide Inv, Laid, DropPages, Apart, IsZoneSize, PageRuns.Maximal;
      ghost var s := Abs();
      SpareCount(s);
      zoneFree := [z] + zoneFree;
      zoneFreeCnt := zoneFreeCnt + 1;
      if zoneFreeCnt > 2 {
        assert Abs().(spare := zoneFree[1..]) == s;
        ReturnFirst();
      } else {
        assert Abs() == PushSpare(s, z);
        PushSpareKeeps(s, z);
      }
    }

    /** The first zone of a list of free zones that has grown too long returns to the page allocator. */
    method ReturnFirst()
      requires zoneFreeCnt == |zoneFree| > 0 && pages.Valid() && IsZoneSize(zoneSize) && zonePageCnt * PAGE == zoneSize
      requires var s, z := Abs().(spare := zoneFree[1..]), zoneFree[0];
               Inv(s) && Laid(s, z) && z !in zones && z !in s.spare
      requires Apart(pages.runs, own)
      modifies `zoneFree, `zoneFreeCnt, `memusage, `own, pages
      ensures Valid()
      ensures Abs() == DropPages(old(Abs()).(spare := old(zoneFree)[1..]), old(zoneFree)[0])
      ensures zoneFree == old(zoneFree)[1..]
      ensures PageRuns.Added(old(pages.runs), pages.runs, old(zoneFree)[0], zonePageCnt)
    {
      hide Inv, Laid, DropPages, Apart, IsZoneSize, PageRuns.Maximal;
      var y := zoneFree[0];
      zoneFree := zoneFree[1..];
      zoneFreeCnt := zoneFreeCnt - 1;
      ReturnPages(y);
    }

    lemma SpareCount(s: SlabZones.Slab)
      requires Inv(s)
      ensures |s.spare| <= 2
    {
    }

    lemma LaidPages(s: SlabZones.Slab, z: int)
      requires Laid(s, z)
      ensures z > 0 && forall p :: z <= p < z + s.cnt ==> p in s.own
    {
      forall p | z <= p < z + s.cnt
        ensures p in s.own
      {
        assert InZone(s, z, p);
      }
    }

    /** rt_free of a chunk */
    method FreeSmall(ptr: int)
      requires Valid() && ptr in out
      modifies `zones, `zoneArray, `zoneFree, `zoneFreeCnt, `memusage, `own, `out, pages
      ensures Valid() && OnlyChunkGone(old(Abs()), Abs(), ptr)
      ensures ChunkBack(old(Abs()), Abs(), ptr)
      ensures if Retires(old(Abs()), ptr) && |old(zoneFree)| == 2 then
                ptr in old(out) && PageRuns.Added(old(pages.runs), pages.runs, old(out)[ptr], zonePageCnt)
              else pages.runs == old(pages.runs)
    {
      ghost var s := Abs();
      Lookup(Abs());
      BackFacts(Abs(), ptr);
      BackStep(Abs(), ptr);
      SpareCount(Abs());
      hide Inv, ZoneOk, IsSlot, GiveBack, Retire, PushSpare, DropPages, ChunkBack, Retires;
      var q := PageOf(ptr);
      var z := q - memusage[q].size;
      ReturnChunk(z, ptr);
      BackGone(s, ptr);
      ghost var s1 := Abs();
      ArrayKnown(s1, zones[z].zi);
      if zones[z].nfree == zones[z].nmax && |zoneArray[zones[z].zi]| > 1 {
        RetiredGone(s, s1, z, ptr);
        UnlinkZone(z);
        ghost var s2 := Abs();
        ReleaseZone(z);
        ReleasedGone(s, s2, Abs(), z, ptr);
        RetireStep(s, s1, s2, Abs(), ptr);
      }
    }

    /** rt_free */
    method Free(ptr: Option<int>)
      requires Valid() && (ptr.Some? ==>
               ptr.value in out || (PageOf(ptr.value) in large && ptr.value == PageOf(ptr.value) * PAGE))
      modifies `zones, `zoneArray, `zoneFree, `zoneFreeCnt, `memusage, `own, `out, `large, pages
      ensures Valid()
      ensures ptr.None? ==> Abs() == old(Abs())
      ensures ptr.Some? ==>
                if ptr.value in old(out) then
                  OnlyChunkGone(old(Abs()), Abs(), ptr.value) && ChunkBack(old(Abs()), Abs(), ptr.value)
                else
                  var a := PageOf(ptr.value);
                  && a in old(large) && Abs() == DropRun(old(Abs()), a) && large == old(large) - {a}
                  && PageRuns.Added(old(pages.runs), pages.runs, a, old(large)[a])
    {
      if ptr.None? { return; }
      Lookup(Abs());
      hide Inv, OnlyChunkGone, ChunkBack, Retires;
      var kup := memusage[PageOf(ptr.value)];
      if kup.kind == Large {
        FreeLarge(PageOf(ptr.value));
      } else {
        FreeSmall(ptr.value);
      }
    }
  }

  /** The zones with a free chunk of the class of chunk p, once p is free; the zone of p comes first if it was full. */
  ghost predicate ClassList(s: SlabZones.Slab, p: int, list: seq<int>) {
    && p in s.out && s.out[p] in s.zones && s.zones[s.out[p]].zi in s.zoneArray
    && var z, zi := s.out[p], s.zones[s.out[p]].zi;
       list == if s.zones[z].nfree == 0 then [z] + s.zoneArray[zi] else s.zoneArray[zi]
  }

  /** With p free, its zone has no used chunk left, and its class has another zone. */
  ghost predicate Retires(s: SlabZones.Slab, p: int) {
    && p in s.out && s.out[p] in s.zones && s.zones[s.out[p]].nfree + 1 == s.zones[s.out[p]].nmax
    && exists list :: ClassList(s, p, list) && |list| > 1
  }

  /** rt_free of chunk p, entirely: p is first on the free list of its zone, and the zone is on the list of its class.
      A zone that retires leaves the zones and that list, and is first of the whole free zones unless there are two
      already. */
  ghost predicate ChunkBack(s: SlabZones.Slab, s': SlabZones.Slab, p: int) {
    && p in s.out && s.out[p] in s.zones && s'.out == s.out - {p} && s'.large == s.large
    && exists list :: ClassList(s, p, list)
         && var z, zn := s.out[p], s.zones[s.out[p]];
            if Retires(s, p) then
              && z in list && s'.zones == s.zones - {z} && s'.zoneArray == s.zoneArray[zn.zi := Drop(list, z)]
              && s'.spare == if |s.spare| < 2 then [z] + s.spare else s.spare
            else
              && s'.zones == s.zones[z := zn.(chunks := [p] + zn.chunks, nfree := zn.nfree + 1)]
              && s'.zoneArray == s.zoneArray[zn.zi := list] && s'.spare == s.spare
  }

  lemma BackStep(s: SlabZones.Slab, p: int)
    requires Inv(s) && p in s.out
    ensures var z, s' := s.out[p], GiveBack(s, p);
            && z in s.zones && z in s'.zones && s'.zones[z].zi in s'.zoneArray
            && (Retires(s, p) <==> s'.zones[z].nfree == s'.zones[z].nmax && |s'.zoneArray[s'.zones[z].zi]| > 1)
            && (!Retires(s, p) ==> ChunkBack(s, s', p))
  {
    BackFacts(s, p);
    var z, s' := s.out[p], GiveBack(s, p);
    var list := s'.zoneArray[s'.zones[z].zi];
    hide Inv, IsSlot, ZoneOk;
    assert ClassList(s, p, list);
    assert s.zones[z].nfree != 0 ==> s.zoneArray[s.zones[z].zi := list] == s.zoneArray;
  }

  lemma RetireStep(s: SlabZones.Slab, s1: SlabZones.Slab, s2: SlabZones.Slab, s3: SlabZones.Slab, p: int)
    requires Inv(s) && p in s.out && s1 == GiveBack(s, p) && Retires(s, p) && s.out[p] in s1.zones
    requires var z := s.out[p];
             s1.zones[z].zi in s1.zoneArray && z in s1.zoneArray[s1.zones[z].zi] && s2 == Retire(s1, z)
    requires var z := s.out[p]; if |s2.spare| < 2 then s3 == PushSpare(s2, z) else s3 == DropPages(s2, z)
    ensures ChunkBack(s, s3, p)
  {
    BackFacts(s, p);
    hide Inv, IsSlot, ZoneOk, Retires;
    var z := s.out[p];
    var list := s1.zoneArray[s1.zones[z].zi];
    assert ClassList(s, p, list);
    assert s1.zones - {z} == s.zones - {z};
  }

  /** Chunk p is free again, and all other chunks and runs are as before. */
  ghost predicate OnlyChunkGone(s: SlabZones.Slab, s': SlabZones.Slab, p: int) {
    && p in s.out && s'.out.Keys == s.out.Keys - {p} && s'.large == s.large
    && forall q {:trigger SameChunk(s, s', q)} :: q in s'.out ==> SameChunk(s, s', q)
  }

  lemma BackGone(s: SlabZones.Slab, p: int)
    requires Inv(s) && p in s.out
    ensures OnlyChunkGone(s, GiveBack(s, p), p) && s.out[p] in GiveBack(s, p).zones
    ensures GiveBack(s, p).cnt == s.cnt
  {
    BackFacts(s, p);
    var s' := GiveBack(s, p);
    hide IsSlot;
    forall q | q in s'.out
      ensures SameChunk(s, s', q)
    {
      assert OutOk(s, q);
    }
  }

  lemma RetiredGone(s: SlabZones.Slab, s1: SlabZones.Slab, z: int, p: int)
    requires OnlyChunkGone(s, s1, p) && Inv(s1) && z in s1.zones && s1.zones[z].nfree == s1.zones[z].nmax
    ensures s1.zones[z].zi in s1.zoneArray && z in s1.zoneArray[s1.zones[z].zi]
    ensures OnlyChunkGone(s, Retire(s1, z), p)
  {
    RetireKeeps(s1, z);
    AllFree(s1, z);
    var s' := Retire(s1, z);
    hide Inv;
    forall q | q in s'.out
      ensures SameChunk(s, s', q)
    {
      assert SameChunk(s, s1, q);
    }
  }

  lemma ReleasedGone(s: SlabZones.Slab, s2: SlabZones.Slab, s3: SlabZones.Slab, z: int, p: int)
    requires OnlyChunkGone(s, s2, p) && (s3 == PushSpare(s2, z) || s3 == DropPages(s2, z))
    ensures OnlyChunkGone(s, s3, p)
  {
    forall q | q in s3.out
      ensures SameChunk(s, s3, q)
    {
      assert SameChunk(s, s2, q);
    }
  }
}
