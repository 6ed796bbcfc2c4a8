/** slab.c: rt_malloc and rt_free on zones and page runs. */
module SlabOps {
  import opened Rings
  import opened SlabClasses
  import opened SlabZones

  /** The zone gives a chunk: the next one never used, or else the first free one. */
  function Given(z: int, zn: Zone): (Zone, int)
    requires zn.uindex + 1 == zn.nmax ==> zn.chunks != []
  {
    if zn.uindex + 1 != zn.nmax then (zn.(nfree := zn.nfree - 1, uindex := zn.uindex + 1), Chunk(z, zn, zn.uindex + 1))
    else (zn.(nfree := zn.nfree - 1, chunks := zn.chunks[1..]), zn.chunks[0])
  }

  /** rt_malloc from the first zone of class zi */
  function TakeChunk(s: Slab, zi: nat): Slab
    requires Inv(s) && zi < NZONES && zi in s.zoneArray && s.zoneArray[zi] != []
  {
    GivesChunk(s, zi);
    var z := s.zoneArray[zi][0];
    var (zn', p) := Given(z, s.zones[z]);
    s.(zones := s.zones[z := zn'], out := s.out[p := z],
       zoneArray := if zn'.nfree == 0 then s.zoneArray[zi := s.zoneArray[zi][1..]] else s.zoneArray)
  }

  lemma GivesChunk(s: Slab, zi: nat)
    requires Inv(s) && zi < NZONES && zi in s.zoneArray && s.zoneArray[zi] != []
    ensures var z := s.zoneArray[zi][0];
            && z in s.zones && s.zones[z].zi == zi && s.zones[z].nfree > 0 && ZoneOk(s, z)
            && (s.zones[z].uindex + 1 == s.zones[z].nmax ==> s.zones[z].chunks != [])
  {
    assert Listed(s, zi);
    var z := s.zoneArray[zi][0];
    assert z in s.zoneArray[zi];
    assert ZoneOk(s, z);
  }

  /** The chunk that is given was not handed out, and is from now on one of the used part. */
  lemma GivenFacts(s: Slab, zi: nat)
    requires Inv(s) && zi < NZONES && zi in s.zoneArray && s.zoneArray[zi] != []
    ensures var z := s.zoneArray[zi][0];
              z in s.zones
              && (s.zones[z].uindex + 1 == s.zones[z].nmax ==> s.zones[z].chunks != [])
    ensures var z := s.zoneArray[zi][0];
            var (zn', p) := Given(z, s.zones[z]);
            && p !in s.out && IsSlot(z, zn', p) && p !in zn'.chunks && Counts(zn') && Room(zn', s.cnt)
            && zn'.zi == zi && zn'.size == s.zones[z].size
            && (forall q :: IsSlot(z, zn', q) <==> IsSlot(z, s.zones[z], q) || q == p)
            && (forall q :: q in zn'.chunks <==> q in s.zones[z].chunks && q != p)
  {
    GivesChunk(s, zi);
    var z := s.zoneArray[zi][0];
    var zn := s.zones[z];
    if zn.uindex + 1 != zn.nmax { FreshChunk(s, z); } else { RecycledChunk(s, z); }
  }

  lemma FreshChunk(s: Slab, z: int)
    requires ZonesOk(s) && z in s.zones && s.zones[z].uindex + 1 < s.zones[z].nmax
    ensures var (zn', p) := Given(z, s.zones[z]);
            && p !in s.out && IsSlot(z, zn', p) && p !in zn'.chunks && Counts(zn') && Room(zn', s.cnt)
            && (forall q :: IsSlot(z, zn', q) <==> IsSlot(z, s.zones[z], q) || q == p)
            && (forall q :: q in zn'.chunks <==> q in s.zones[z].chunks && q != p)
  {
    assert ZoneOk(s, z);
    var zn := s.zones[z];
    var (zn', p) := Given(z, zn);
    NewSlot(z, zn, p);
    forall q | q in zn.chunks
      ensures q != p
    {
      assert zn.chunks[Index(zn.chunks, q)] == q;
      assert IsSlot(z, zn, q);
    }
    if p in s.out {
      assert OutOk(s, p) && ZoneOk(s, s.out[p]);
      NotElsewhere(s, z, s.out[p], p);
    }
  }

  lemma NewSlot(z: int, zn: Zone, p: int)
    requires zn.size > 0 && p == Chunk(z, zn, zn.uindex + 1)
    ensures var zn' := zn.(nfree := zn.nfree - 1, uindex := zn.uindex + 1);
            && !IsSlot(z, zn, p) && IsSlot(z, zn', p)
            && (forall q :: IsSlot(z, zn', q) <==> IsSlot(z, zn, q) || q == p)
  {
    var zn' := zn.(nfree := zn.nfree - 1, uindex := zn.uindex + 1);
    assert Chunk(z, zn', zn.uindex + 1) == p;
    forall i: nat | i <= zn.uindex
      ensures Chunk(z, zn, i) != p && Chunk(z, zn', i) == Chunk(z, zn, i)
    {
      ChunksDiffer(z, zn, i, zn.uindex + 1);
    }
    forall q
      ensures IsSlot(z, zn', q) <==> IsSlot(z, zn, q) || q == p
    {
      if i: nat :| i <= zn'.uindex && q == Chunk(z, zn', i) {
        assert i <= zn.uindex ==> q == Chunk(z, zn, i);
      }
      if i: nat :| i <= zn.uindex && q == Chunk(z, zn, i) {
        assert q == Chunk(z, zn', i);
      }
    }
  }

  /** A chunk behind the used part of its zone belongs to no other zone. */
  lemma NotElsewhere(s: Slab, z: int, y: int, p: int)
    requires ZoneOk(s, z) && ZoneOk(s, y) && s.zones[z].uindex + 1 < s.zones[z].nmax
    requires p == Chunk(z, s.zones[z], s.zones[z].uindex + 1) && IsSlot(y, s.zones[y], p)
    ensures y == z
  {
    ChunkPage(z, s.zones[z], s.cnt, s.zones[z].uindex + 1);
    SlotLookup(s, y, p);
    assert InZone(s, z, PageOf(p));
  }

  lemma RecycledChunk(s: Slab, z: int)
    requires ZonesOk(s) && z in s.zones && s.zones[z].uindex + 1 == s.zones[z].nmax && s.zones[z].nfree > 0
    ensures s.zones[z].chunks != []
    ensures var (zn', p) := Given(z, s.zones[z]);
            && p !in s.out && IsSlot(z, zn', p) && p !in zn'.chunks && Counts(zn') && Room(zn', s.cnt)
            && (forall q :: IsSlot(z, zn', q) <==> IsSlot(z, s.zones[z], q) || q == p)
            && (forall q :: q in zn'.chunks <==> q in s.zones[z].chunks && q != p)
  {
    assert ZoneOk(s, z);
    var zn := s.zones[z];
    var (zn', p) := Given(z, zn);
    HeadGone(zn.chunks);
    assert IsSlot(z, zn, zn.chunks[0]);
    SameSlots(z, zn, zn');
    assert SlotOk(s, z, p);
  }

  lemma SameSlots(z: int, zn: Zone, zn': Zone)
    requires zn'.base == zn.base && zn'.size == zn.size && zn'.uindex == zn.uindex
    ensures forall q :: IsSlot(z, zn', q) <==> IsSlot(z, zn, q)
  {
    assert forall i: nat :: Chunk(z, zn', i) == Chunk(z, zn, i);
  }

  // ------------------------------------------------------------------ frames

  /** The pages of zone z are still its own. */
  lemma LaidFrame(s: Slab, s': Slab, z: int)
    requires Laid(s, z) && s'.cnt == s.cnt
    requires forall p :: p in s.own && s.own[p] == ZonePage(z) ==> p in s'.own && s'.own[p] == s.own[p]
    requires forall p :: p in s.own && p in s.usage && s.own[p] == ZonePage(z) ==>
               p in s'.usage
               && s'.usage[p] == s.usage[p]
    ensures Laid(s', z)
  {
    forall p | z <= p < z + s'.cnt
      ensures InZone(s', z, p)
    {
      assert InZone(s, z, p);
    }
  }

  lemma ZoneFrame(s: Slab, s': Slab, z: int)
    requires ZoneOk(s, z) && s'.cnt == s.cnt && s'.own == s.own && s'.usage == s.usage && z in s'.zones
             && s'.zones[z] == s.zones[z]
    ensures ZoneOk(s', z)
  {
    LaidFrame(s, s', z);
  }

  lemma LargeFrame(s: Slab, s': Slab, a: int)
    requires LargeOk(s, a) && a in s'.large && s'.large[a] == s.large[a]
    requires forall p :: p in s.own && s.own[p] == LargePage(a) ==> p in s'.own && s'.own[p] == s.own[p]
    requires forall p :: p in s.own && p in s.usage && s.own[p] == LargePage(a) ==>
               p in s'.usage
               && s'.usage[p] == s.usage[p]
    ensures LargeOk(s', a)
  {
    assert InRun(s, a, a);
    forall p | a <= p < a + s'.large[a]
      ensures InRun(s', a, p)
    {
      assert InRun(s, a, p);
    }
  }

  lemma SpareFrame(s: Slab, s': Slab)
    requires ListsOk(s) && s'.cnt == s.cnt && s'.own == s.own && s'.usage == s.usage && s'.zones.Keys <= s.zones.Keys
    ensures forall k :: 0 <= k < |s.spare| ==> SpareOk(s', s.spare[k])
  {
    forall k | 0 <= k < |s.spare|
      ensures SpareOk(s', s.spare[k])
    {
      assert SpareOk(s, s.spare[k]);
      LaidFrame(s, s', s.spare[k]);
    }
  }

  // -------------------------------------------------------- a chunk is taken

  lemma TakeChunkZones(s: Slab, zi: nat)
    requires Inv(s) && zi < NZONES && zi in s.zoneArray && s.zoneArray[zi] != []
    ensures ZonesOk(TakeChunk(s, zi))
  {
    GivesChunk(s, zi);
    GivenFacts(s, zi);
    var s', z := TakeChunk(s, zi), s.zoneArray[zi][0];
    var (zn', p) := Given(z, s.zones[z]);
    hide IsSlot, Counts, Room, Given;
    LaidFrame(s, s', z);
    forall k | 0 <= k < |zn'.chunks|
      ensures IsSlot(z, zn', zn'.chunks[k])
    {
      var q := zn'.chunks[k];
      assert q in zn'.chunks && q in s.zones[z].chunks;
      assert s.zones[z].chunks[Index(s.zones[z].chunks, q)] == q;
    }
    assert ZoneOk(s', z);
    forall y | y in s'.zones
      ensures ZoneOk(s', y)
    {
      if y != z {
        assert ZoneOk(s, y);
        ZoneFrame(s, s', y);
      }
    }
    forall y, q | y in s'.zones
      ensures SlotOk(s', y, q)
    {
      assert SlotOk(s, y, q);
      if q == p && y != z && IsSlot(y, s'.zones[y], p) {
        OneZone(s', z, y, p);
      }
    }
    forall q | q in s'.out
      ensures OutOk(s', q)
    {
      if q != p { assert OutOk(s, q); }
    }
  }

  lemma TakeChunkKeeps(s: Slab, zi: nat)
    requires Inv(s) && zi < NZONES && zi in s.zoneArray && s.zoneArray[zi] != []
    ensures Inv(TakeChunk(s, zi))
  {
    TakeChunkZones(s, zi);
    GivesChunk(s, zi);
    GivenFacts(s, zi);
    var s', z := TakeChunk(s, zi), s.zoneArray[zi][0];
    SpareFrame(s, s');
    hide IsSlot, Room, ZonesOk;
    assert Listed(s, zi);
    HeadGone(s.zoneArray[zi]);
    forall i: nat | i < NZONES
      ensures Listed(s', i)
    {
      assert Listed(s, i);
    }
    forall a | a in s'.large
      ensures LargeOk(s', a)
    {
      assert LargeOk(s, a);
      LargeFrame(s, s', a);
    }
  }

  // ---------------------------------------------------------- a zone is made

  predicate Within(a: int, n: nat, p: int) {
    a <= p < a + n
  }

  function Pages(a: int, n: nat): set<int> {
    set p | a <= p < a + n && Within(a, n, p)
  }

  function Owned(own: map<int, Owner>, a: int, n: nat, o: Owner): map<int, Owner> {
    map p | p in own.Keys + Pages(a, n) :: if a <= p < a + n then o else own[p]
  }

  function Mapped(usage: map<int, Usage>, z: int, n: nat): map<int, Usage> {
    map p | p in usage.Keys + Pages(z, n) :: if z <= p < z + n then Usage(Small, p - z) else usage[p]
  }

  /** The pages of a new zone, fresh from the page allocator */
  function LayOut(s: Slab, z: int): Slab {
    s.(own := Owned(s.own, z, s.cnt, ZonePage(z)), usage := Mapped(s.usage, z, s.cnt))
  }

  ghost predicate Unowned(s: Slab, a: int, n: nat) {
    forall p :: a <= p < a + n ==> p !in s.own
  }

  lemma LayOutKeeps(s: Slab, z: int)
    requires Inv(s) && z > 0 && Unowned(s, z, s.cnt)
    ensures Inv(LayOut(s, z)) && Laid(LayOut(s, z), z) && z !in s.zones && z !in s.spare
  {
    var s' := LayOut(s, z);
    forall p | z <= p < z + s'.cnt
      ensures InZone(s', z, p)
    {
    }
    forall y | y in s'.zones
      ensures ZoneOk(s', y) && y != z
    {
      assert ZoneOk(s, y);
      assert InZone(s, y, y);
      LaidFrame(s, s', y);
    }
    SameChunks(s, s');
    forall k | 0 <= k < |s'.spare|
      ensures SpareOk(s', s'.spare[k]) && s'.spare[k] != z
    {
      assert SpareOk(s, s.spare[k]);
      assert InZone(s, s.spare[k], s.spare[k]);
      LaidFrame(s, s', s.spare[k]);
    }
    forall a | a in s'.large
      ensures LargeOk(s', a)
    {
      assert LargeOk(s, a);
      LargeFrame(s, s', a);
    }
  }

  /** The same zones, lists and chunks */
  lemma SameChunks(s: Slab, s': Slab)
    requires ZonesOk(s) && s'.zones == s.zones && s'.out == s.out
    ensures forall z, p {:trigger SlotOk(s', z, p)} :: z in s'.zones ==> SlotOk(s', z, p)
    ensures forall p {:trigger OutOk(s', p)} :: p in s'.out ==> OutOk(s', p)
    ensures s'.zoneArray == s.zoneArray ==> forall i: nat {:trigger Listed(s', i)} :: Listed(s, i) ==> Listed(s', i)
  {
    forall z, p | z in s'.zones
      ensures SlotOk(s', z, p)
    {
      assert SlotOk(s, z, p);
    }
    forall p | p in s'.out
      ensures OutOk(s', p)
    {
      assert OutOk(s, p);
    }
  }

  /** The zone a free zone becomes for class zi: its first chunk is handed out at once. */
  function NewZone(s: Slab, zi: nat): Zone
    requires zi < NZONES
  {
    var size := ClassSize(zi);
    ClassBounds(zi);
    var nmax := ChunkCount(s.cnt * PAGE, size);
    Zone(nmax - 1, if nmax > 0 then nmax else 0, Base(size), 0, size, zi, [])
  }

  function OpenZone(s: Slab, z: int, zi: nat): Slab
    requires zi < NZONES && zi in s.zoneArray
  {
    s.(zones := s.zones[z := NewZone(s, zi)], out := s.out[Chunk(z, NewZone(s, zi), 0) := z],
       zoneArray := s.zoneArray[zi := [z] + s.zoneArray[zi]])
  }

  /** A class that a zone can be made for */
  ghost predicate Fits(s: Slab, zi: nat) {
    zi < NZONES && NewZone(s, zi).nmax >= 2 && Room(NewZone(s, zi), s.cnt)
        && NewZone(s, zi).nfree == NewZone(s, zi).nmax - 1
  }

  lemma OpenZoneFresh(s: Slab, z: int, zi: nat)
    requires ZonesOk(s) && Laid(s, z) && z !in s.zones && Fits(s, zi)
    ensures Chunk(z, NewZone(s, zi), 0) !in s.out
    ensures forall q :: IsSlot(z, NewZone(s, zi), q) <==> q == Chunk(z, NewZone(s, zi), 0)
  {
    var zn := NewZone(s, zi);
    var p := Chunk(z, zn, 0);
    ChunkPage(z, zn, s.cnt, 0);
    assert InZone(s, z, PageOf(p));
    if p in s.out {
      assert OutOk(s, p) && ZoneOk(s, s.out[p]);
      SlotLookup(s, s.out[p], p);
    }
    forall q
      ensures IsSlot(z, zn, q) <==> q == p
    {
      assert q == p ==> IsSlot(z, zn, q);
      if i: nat :| i <= zn.uindex && q == Chunk(z, zn, i) { assert i == 0; }
    }
  }

  lemma OpenZoneZones(s: Slab, z: int, zi: nat)
    requires ZonesOk(s) && Laid(s, z) && z !in s.zones && Fits(s, zi) && zi in s.zoneArray
    ensures ZonesOk(OpenZone(s, z, zi))
  {
    OpenZoneFresh(s, z, zi);
    var s', zn := OpenZone(s, z, zi), NewZone(s, zi);
    var p := Chunk(z, zn, 0);
    hide IsSlot, Room;
    LaidFrame(s, s', z);
    assert ZoneOk(s', z);
    forall y | y in s'.zones
      ensures ZoneOk(s', y)
    {
      if y != z {
        assert ZoneOk(s, y);
        ZoneFrame(s, s', y);
      }
    }
    forall y, q | y in s'.zones
      ensures SlotOk(s', y, q)
    {
      if y != z {
        assert SlotOk(s, y, q);
        if q == p && IsSlot(y, s'.zones[y], p) { OneZone(s', z, y, p); }
      } else if q != p && q in s.out {
        assert !IsSlot(z, zn, q);
      }
    }
    forall q | q in s'.out
      ensures OutOk(s', q)
    {
      if q != p { assert OutOk(s, q); }
    }
  }

  lemma OpenZoneKeeps(s: Slab, z: int, zi: nat)
    requires Inv(s) && Laid(s, z) && z !in s.zones && z !in s.spare && Fits(s, zi) && zi in s.zoneArray
    ensures Inv(OpenZone(s, z, zi))
  {
    OpenZoneZones(s, z, zi);
    var s' := OpenZone(s, z, zi);
    hide Room, ZonesOk;
    assert Listed(s, zi);
    forall i: nat | i < NZONES
      ensures Listed(s', i)
    {
      assert Listed(s, i);
    }
    forall k | 0 <= k < |s'.spare|
      ensures SpareOk(s', s'.spare[k])
    {
      assert SpareOk(s, s.spare[k]) && s.spare[k] in s.spare;
      LaidFrame(s, s', s.spare[k]);
    }
    forall a | a in s'.large
      ensures LargeOk(s', a)
    {
      assert LargeOk(s, a);
      LargeFrame(s, s', a);
    }
  }

  /** The first zone of the free list is taken off it. */
  function PopSpare(s: Slab): Slab
    requires s.spare != []
  {
    s.(spare := s.spare[1..])
  }

  lemma PopSpareKeeps(s: Slab)
    requires Inv(s) && s.spare != []
    ensures Inv(PopSpare(s)) && Laid(PopSpare(s), s.spare[0]) && s.spare[0] !in s.zones && s.spare[0] !in s.spare[1..]
  {
    var s', z := PopSpare(s), s.spare[0];
    HeadGone(s.spare);
    assert SpareOk(s, s.spare[0]);
    LaidFrame(s, s', z);
    forall y | y in s'.zones
      ensures ZoneOk(s', y)
    {
      assert ZoneOk(s, y);
      ZoneFrame(s, s', y);
    }
    SameChunks(s, s');
    forall k | 0 <= k < |s'.spare|
      ensures SpareOk(s', s'.spare[k])
    {
      assert SpareOk(s, s.spare[k + 1]);
      LaidFrame(s, s', s.spare[k + 1]);
    }
    assert forall i: nat :: i < NZONES ==> Listed(s, i);
    forall a | a in s'.large
      ensures LargeOk(s', a)
    {
      assert LargeOk(s, a);
      LargeFrame(s, s', a);
    }
  }

  // ---------------------------------------------------- a chunk comes back

  /** rt_free of a chunk, before a whole zone is considered */
  function GiveBack(s: Slab, p: int): Slab
    requires Inv(s) && p in s.out
  {
    BackFacts(s, p);
    var z := s.out[p];
    var zn := s.zones[z];
    s.(zones := s.zones[z := zn.(chunks := [p] + zn.chunks, nfree := zn.nfree + 1)], out := s.out - {p},
       zoneArray := if zn.nfree == 0 then s.zoneArray[zn.zi := [z] + s.zoneArray[zn.zi]] else s.zoneArray)
  }

  lemma BackFacts(s: Slab, p: int)
    requires Inv(s) && p in s.out
    ensures var z := s.out[p];
            && z in s.zones && ZoneOk(s, z) && IsSlot(z, s.zones[z], p) && p !in s.zones[z].chunks
            && s.zones[z].zi < NZONES && s.zones[z].zi in s.zoneArray
  {
    assert OutOk(s, p) && ZoneOk(s, s.out[p]);
    assert SlotOk(s, s.out[p], p);
    assert Listed(s, s.zones[s.out[p]].zi);
  }

  lemma GiveBackZones(s: Slab, p: int)
    requires Inv(s) && p in s.out
    ensures ZonesOk(GiveBack(s, p))
  {
    BackFacts(s, p);
    var s', z := GiveBack(s, p), s.out[p];
    var zn, zn' := s.zones[z], s'.zones[z];
    SameSlots(z, zn, zn');
    BackCounts(zn, zn', p);
    hide IsSlot, Counts;
    LaidFrame(s, s', z);
    forall k | 0 <= k < |zn'.chunks|
      ensures IsSlot(z, zn', zn'.chunks[k])
    {
      if k > 0 { assert IsSlot(z, zn, zn.chunks[k - 1]); }
    }
    assert ZoneOk(s', z);
    forall y | y in s'.zones
      ensures ZoneOk(s', y)
    {
      if y != z {
        assert ZoneOk(s, y);
        ZoneFrame(s, s', y);
      }
    }
    forall y, q | y in s'.zones
      ensures SlotOk(s', y, q)
    {
      assert SlotOk(s, y, q);
      if q == p && y != z && IsSlot(y, s'.zones[y], p) { OneZone(s', z, y, p); }
    }
    forall q | q in s'.out
      ensures OutOk(s', q)
    {
      assert OutOk(s, q);
    }
  }

  lemma BackCounts(zn: Zone, zn': Zone, p: int)
    requires Counts(zn) && p !in zn.chunks && zn' == zn.(chunks := [p] + zn.chunks, nfree := zn.nfree + 1)
    ensures Counts(zn') && zn'.nfree > 0
  {
  }

  lemma GiveBackKeeps(s: Slab, p: int)
    requires Inv(s) && p in s.out
    ensures Inv(GiveBack(s, p))
  {
    GiveBackZones(s, p);
    BackFacts(s, p);
    var s', z := GiveBack(s, p), s.out[p];
    BackCounts(s.zones[z], s'.zones[z], p);
    SpareFrame(s, s');
    hide IsSlot, Room, ZonesOk;
    assert Listed(s, s.zones[z].zi);
    forall i: nat | i < NZONES
      ensures Listed(s', i)
    {
      assert Listed(s, i);
    }
    forall a | a in s'.large
      ensures LargeOk(s', a)
    {
      assert LargeOk(s, a);
      LargeFrame(s, s', a);
    }
  }

  /** The first n chunks of a zone */
  ghost function Slots(z: int, zn: Zone, n: nat): set<int> {
    if n == 0 then {} else Slots(z, zn, n - 1) + {Chunk(z, zn, n - 1)}
  }

  lemma {:induction false} SlotCount(z: int, zn: Zone, n: nat)
    requires zn.size > 0
    ensures |Slots(z, zn, n)| == n
    ensures forall p :: p in Slots(z, zn, n) <==> exists i: nat {:trigger Chunk(z, zn, i)} ::
              i < n
              && p == Chunk(z, zn, i)
  {
    if n > 0 {
      SlotCount(z, zn, n - 1);
      forall i: nat | i < n - 1
        ensures Chunk(z, zn, i) != Chunk(z, zn, n - 1)
      {
        ChunksDiffer(z, zn, i, n - 1);
      }
    }
  }

  /** In a zone with z_nfree == z_nmax every chunk is free. */
  lemma AllFree(s: Slab, z: int)
    requires ZonesOk(s) && z in s.zones && s.zones[z].nfree == s.zones[z].nmax
    ensures forall p :: p in s.out ==> s.out[p] != z
  {
    assert ZoneOk(s, z);
    var zn := s.zones[z];
    var all := Slots(z, zn, zn.uindex + 1);
    SlotCount(z, zn, zn.uindex + 1);
    ElementCount(zn.chunks);
    forall p | p in zn.chunks
      ensures p in all
    {
      assert zn.chunks[Index(zn.chunks, p)] == p;
      assert IsSlot(z, zn, p);
    }
    SameSize(Elements(zn.chunks), all);
    assert forall p :: IsSlot(z, zn, p) ==> p in all;
    forall p | p in s.out
      ensures s.out[p] != z
    {
      assert OutOk(s, p) && SlotOk(s, s.out[p], p);
    }
  }

  // ------------------------------------------------- a whole zone is given up

  /** A zone without chunks in use leaves its class. */
  function Retire(s: Slab, z: int): Slab
    requires z in s.zones && s.zones[z].zi in s.zoneArray && z in s.zoneArray[s.zones[z].zi]
  {
    var zi := s.zones[z].zi;
    s.(zones := s.zones - {z}, zoneArray := s.zoneArray[zi := Drop(s.zoneArray[zi], z)])
  }

  lemma RetireKeeps(s: Slab, z: int)
    requires Inv(s) && z in s.zones && s.zones[z].nfree == s.zones[z].nmax
    ensures s.zones[z].zi in s.zoneArray && z in s.zoneArray[s.zones[z].zi]
    ensures Inv(Retire(s, z)) && Laid(Retire(s, z), z) && z !in Retire(s, z).zones && z !in s.spare
  {
    assert ZoneOk(s, z);
    var zi := s.zones[z].zi;
    assert Listed(s, zi);
    var s' := Retire(s, z);
    AllFree(s, z);
    DropElements(s.zoneArray[zi], z);
    SpareFrame(s, s');
    LaidFrame(s, s', z);
    hide IsSlot, Room, Counts;
    forall y | y in s'.zones
      ensures ZoneOk(s', y)
    {
      assert ZoneOk(s, y);
      ZoneFrame(s, s', y);
    }
    forall y, q | y in s'.zones
      ensures SlotOk(s', y, q)
    {
      assert SlotOk(s, y, q);
    }
    forall q | q in s'.out
      ensures OutOk(s', q)
    {
      assert OutOk(s, q);
    }
    forall i: nat | i < NZONES
      ensures Listed(s', i)
    {
      assert Listed(s, i);
    }
    forall a | a in s'.large
      ensures LargeOk(s', a)
    {
      assert LargeOk(s, a);
      LargeFrame(s, s', a);
    }
    NotSpare(s, z);
  }

  lemma NotSpare(s: Slab, z: int)
    requires ListsOk(s) && z in s.zones
    ensures z !in s.spare
  {
    forall k | 0 <= k < |s.spare|
      ensures s.spare[k] != z
    {
      assert SpareOk(s, s.spare[k]);
    }
  }

  function PushSpare(s: Slab, z: int): Slab {
    s.(spare := [z] + s.spare)
  }

  lemma PushSpareKeeps(s: Slab, z: int)
    requires Inv(s) && Laid(s, z) && z !in s.zones && z !in s.spare && |s.spare| < 2
    ensures Inv(PushSpare(s, z))
  {
    var s' := PushSpare(s, z);
    forall y | y in s'.zones
      ensures ZoneOk(s', y)
    {
      assert ZoneOk(s, y);
      ZoneFrame(s, s', y);
    }
    SameChunks(s, s');
    LaidFrame(s, s', z);
    forall k | 0 <= k < |s'.spare|
      ensures SpareOk(s', s'.spare[k])
    {
      if k > 0 {
        assert SpareOk(s, s.spare[k - 1]);
        LaidFrame(s, s', s.spare[k - 1]);
      }
    }
    assert forall i: nat :: i < NZONES ==> Listed(s, i);
    forall a | a in s'.large
      ensures LargeOk(s', a)
    {
      assert LargeOk(s, a);
      LargeFrame(s, s', a);
    }
  }

  function Cleared(usage: map<int, Usage>, z: int, n: nat): map<int, Usage> {
    map p | p in usage.Keys + Pages(z, n) :: if z <= p < z + n then Usage(FreePage, 0) else usage[p]
  }

  /** The pages of a retired zone go back to the page allocator. */
  function DropPages(s: Slab, z: int): Slab {
    s.(own := s.own - Pages(z, s.cnt), usage := Cleared(s.usage, z, s.cnt))
  }

  lemma DropPagesKeeps(s: Slab, z: int)
    requires Inv(s) && Laid(s, z) && z !in s.zones && z !in s.spare
    ensures Inv(DropPages(s, z)) && Unowned(DropPages(s, z), z, s.cnt)
  {
    var s' := DropPages(s, z);
    forall p | z <= p < z + s.cnt
      ensures p in s.own && s.own[p] == ZonePage(z)
    {
      assert InZone(s, z, p);
    }
    forall y | y in s'.zones
      ensures ZoneOk(s', y)
    {
      assert ZoneOk(s, y);
      LaidFrame(s, s', y);
    }
    SameChunks(s, s');
    forall k | 0 <= k < |s'.spare|
      ensures SpareOk(s', s'.spare[k])
    {
      assert SpareOk(s, s.spare[k]) && s.spare[k] != z;
      LaidFrame(s, s', s.spare[k]);
    }
    assert forall i: nat :: i < NZONES ==> Listed(s, i);
    forall a | a in s'.large
      ensures LargeOk(s', a)
    {
      assert LargeOk(s, a);
      LargeFrame(s, s', a);
    }
  }

  // --------------------------------------------------------------- page runs

  function TakeRun(s: Slab, a: int, n: nat): Slab {
    s.(own := Owned(s.own, a, n, LargePage(a)), usage := s.usage[a := Usage(Large, n)], large := s.large[a := n])
  }

  lemma RunOwned(s: Slab, a: int)
    requires RunsOk(s)
    ensures a in s.large ==> a in s.own
  {
    if a in s.large { assert LargeOk(s, a) && InRun(s, a, a); }
  }

  lemma TakeRunKeeps(s: Slab, a: int, n: nat)
    requires Inv(s) && a > 0 && n > 0 && Unowned(s, a, n)
    ensures Inv(TakeRun(s, a, n)) && a !in s.large
  {
    var s' := TakeRun(s, a, n);
    RunOwned(s, a);
    forall p | a <= p < a + n
      ensures InRun(s', a, p)
    {
    }
    forall y | y in s'.zones
      ensures ZoneOk(s', y)
    {
      assert ZoneOk(s, y);
      LaidFrame(s, s', y);
    }
    SameChunks(s, s');
    forall k | 0 <= k < |s'.spare|
      ensures SpareOk(s', s'.spare[k])
    {
      assert SpareOk(s, s.spare[k]);
      LaidFrame(s, s', s.spare[k]);
    }
    assert forall i: nat :: i < NZONES ==> Listed(s, i);
    forall b | b in s'.large
      ensures LargeOk(s', b)
    {
      if b != a {
        assert LargeOk(s, b);
        LargeFrame(s, s', b);
      }
    }
  }

  /** rt_free of a page run. The page keeps the type of a run, of no pages. */
  function DropRun(s: Slab, a: int): Slab
    requires a in s.large
  {
    s.(own := s.own - Pages(a, s.large[a]), usage := s.usage[a := Usage(Large, 0)], large := s.large - {a})
  }

  lemma DropRunKeeps(s: Slab, a: int)
    requires Inv(s) && a in s.large
    ensures Inv(DropRun(s, a)) && s.large[a] > 0 && Unowned(DropRun(s, a), a, s.large[a])
  {
    var s', n := DropRun(s, a), s.large[a];
    assert LargeOk(s, a);
    forall p | a <= p < a + n
      ensures p in s.own && s.own[p] == LargePage(a)
    {
      assert InRun(s, a, p);
    }
    forall y | y in s'.zones
      ensures ZoneOk(s', y)
    {
      assert ZoneOk(s, y);
      LaidFrame(s, s', y);
    }
    SameChunks(s, s');
    forall k | 0 <= k < |s'.spare|
      ensures SpareOk(s', s'.spare[k])
    {
      assert SpareOk(s, s.spare[k]);
      LaidFrame(s, s', s.spare[k]);
    }
    assert forall i: nat :: i < NZONES ==> Listed(s, i);
    forall b | b in s'.large
      ensures LargeOk(s', b)
    {
      assert LargeOk(s, b);
      LargeFrame(s, s', b);
    }
  }
}
