/** slab.c: the zones of the slab allocator and what the page map knows about them. */
module SlabZones {
  import opened Rings
  import opened SlabClasses

  datatype Kind = FreePage | Small | Large

  /** memusage: for a zone page its distance from the zone, for a large run its length. */
  datatype Usage = Usage(kind: Kind, size: nat)

  /** base is the offset of the chunks in the zone; chunks is the list z_freechunk of addresses. */
  datatype Zone = Zone(nfree: int, nmax: nat, base: nat, uindex: nat, size: nat, zi: nat, chunks: seq<int>)

  datatype Owner = ZonePage(z: int) | LargePage(a: int)

  /** Zones and large runs are named by their first page. own says for whom a page was taken from
      the page allocator; out are the chunks handed out, with their zones, large the runs. */
  datatype Slab = Slab(
    cnt: nat, zones: map<int, Zone>, zoneArray: map<nat, seq<int>>, spare: seq<int>,
    usage: map<int, Usage>, own: map<int, Owner>, out: map<int, int>, large: map<int, nat>)

  /** The address of chunk i */
  function Chunk(z: int, zn: Zone, i: nat): int {
    z * PAGE + zn.base + i * zn.size
  }

  function PageOf(p: int): int {
    p / PAGE
  }

  ghost predicate Room(zn: Zone, cnt: nat) {
    zn.size > 0 && zn.base == Base(zn.size) && zn.base + zn.nmax * zn.size <= cnt * PAGE
  }

  lemma ChunkPage(z: int, zn: Zone, cnt: nat, i: nat)
    requires Room(zn, cnt) && i < zn.nmax
    ensures z <= PageOf(Chunk(z, zn, i)) < z + cnt
  {
    ChunkInside(zn, i);
    PageBounds(z, zn.base + i * zn.size, cnt);
  }

  lemma PageBounds(z: int, d: int, cnt: nat)
    requires 0 <= d < cnt * PAGE
    ensures z <= (z * PAGE + d) / PAGE < z + cnt
  {
  }

  lemma {:induction false} ChunkInside(zn: Zone, i: nat)
    requires zn.size > 0 && i < zn.nmax
    ensures 0 <= i * zn.size < zn.nmax * zn.size
  {
    Ascending(zn.size, i, zn.nmax);
  }

  lemma {:induction false} Ascending(size: nat, i: nat, j: nat)
    requires size > 0 && i < j
    ensures i * size < j * size
    decreases j
  {
    assert j * size == (j - 1) * size + size;
    if i < j - 1 { Ascending(size, i, j - 1); }
  }

  lemma ChunksDiffer(z: int, zn: Zone, i: nat, j: nat)
    requires zn.size > 0 && i != j
    ensures Chunk(z, zn, i) != Chunk(z, zn, j)
  {
    if i < j { Ascending(zn.size, i, j); } else { Ascending(zn.size, j, i); }
  }

  // ---------------------------------------------------------------- invariant

  /** p is one of the chunks that have been handed out at least once. */
  ghost predicate IsSlot(z: int, zn: Zone, p: int) {
    exists i: nat {:trigger Chunk(z, zn, i)} :: i <= zn.uindex && p == Chunk(z, zn, i)
  }

  /** Page p is part of zone z. */
  ghost predicate InZone(s: Slab, z: int, p: int) {
    p in s.own && s.own[p] == ZonePage(z) && p in s.usage && s.usage[p].kind == Small && s.usage[p].size == p - z
  }

  ghost predicate Laid(s: Slab, z: int) {
    z > 0 && forall p {:trigger InZone(s, z, p)} :: z <= p < z + s.cnt ==> InZone(s, z, p)
  }

  /** Page p was taken for the run at a. */
  ghost predicate InRun(s: Slab, a: int, p: int) {
    p in s.own && s.own[p] == LargePage(a)
  }

  /** What the counters of a zone say about its chunks. */
  ghost predicate Counts(zn: Zone) {
    && zn.uindex < zn.nmax && zn.zi < NZONES && zn.size == ClassSize(zn.zi)
    && zn.nfree == zn.nmax - 1 - zn.uindex + |zn.chunks|
    && NoDup(zn.chunks)
  }

  ghost predicate ZoneOk(s: Slab, z: int) {
    && z in s.zones && Laid(s, z)
    && Counts(s.zones[z]) && Room(s.zones[z], s.cnt)
    && forall k :: 0 <= k < |s.zones[z].chunks| ==> IsSlot(z, s.zones[z], s.zones[z].chunks[k])
  }

  /** A chunk of the used part is either free or handed out. */
  ghost predicate SlotOk(s: Slab, z: int, p: int)
    requires z in s.zones
  {
    IsSlot(z, s.zones[z], p) ==> (p in s.zones[z].chunks <==> p !in s.out)
  }

  ghost predicate OutOk(s: Slab, p: int) {
    p in s.out && s.out[p] in s.zones && IsSlot(s.out[p], s.zones[s.out[p]], p)
  }

  /** zone_array[i] lists exactly the zones of class i that have a free chunk. */
  ghost predicate Listed(s: Slab, i: nat) {
    && i in s.zoneArray && NoDup(s.zoneArray[i])
    && forall z :: z in s.zoneArray[i] <==> z in s.zones && s.zones[z].zi == i && s.zones[z].nfree > 0
  }

  ghost predicate SpareOk(s: Slab, z: int) {
    Laid(s, z) && z !in s.zones
  }

  ghost predicate LargeOk(s: Slab, a: int) {
    && a in s.large && a > 0 && s.large[a] > 0 && a in s.usage && s.usage[a] == Usage(Large, s.large[a])
    && forall p {:trigger InRun(s, a, p)} :: a <= p < a + s.large[a] ==> InRun(s, a, p)
  }

  ghost predicate ZonesOk(s: Slab) {
    && s.cnt > 0
    && (forall z {:trigger ZoneOk(s, z)} :: z in s.zones ==> ZoneOk(s, z))
    && (forall z, p {:trigger SlotOk(s, z, p)} :: z in s.zones ==> SlotOk(s, z, p))
    && (forall p {:trigger OutOk(s, p)} :: p in s.out ==> OutOk(s, p))
  }

  ghost predicate ListsOk(s: Slab) {
    && (forall i: nat {:trigger Listed(s, i)} :: i < NZONES ==> Listed(s, i))
    && NoDup(s.spare) && |s.spare| <= 2
    && (forall k :: 0 <= k < |s.spare| ==> SpareOk(s, s.spare[k]))
  }

  ghost predicate RunsOk(s: Slab) {
    forall a {:trigger LargeOk(s, a)} :: a in s.large ==> LargeOk(s, a)
  }

  ghost predicate Inv(s: Slab) {
    ZonesOk(s) && ListsOk(s) && RunsOk(s)
  }

  // ------------------------------------------------------------------- lookup

  /** The page map leads from every chunk of a zone back to the zone. */
  lemma SlotLookup(s: Slab, z: int, p: int)
    requires ZoneOk(s, z) && IsSlot(z, s.zones[z], p)
    ensures z <= PageOf(p) < z + s.cnt && PageOf(p) in s.usage && s.usage[PageOf(p)] == Usage(Small, PageOf(p) - z)
  {
    var i: nat :| i <= s.zones[z].uindex && p == Chunk(z, s.zones[z], i);
    ChunkPage(z, s.zones[z], s.cnt, i);
    assert InZone(s, z, PageOf(p));
    hide Chunk, PageOf;
  }

  /** The page map sends every pointer that is handed out back to its own zone or page run. */
  lemma Lookup(s: Slab)
    requires Inv(s)
    ensures forall p :: p in s.out ==>
              var q := PageOf(p); q in s.usage && s.usage[q].kind == Small && q - s.usage[q].size == s.out[p]
    ensures forall a :: a in s.large ==> PageOf(a * PAGE) == a && a in s.usage && s.usage[a] == Usage(Large, s.large[a])
  {
    forall p | p in s.out
      ensures var q := PageOf(p); q in s.usage && s.usage[q].kind == Small && q - s.usage[q].size == s.out[p]
    {
      assert OutOk(s, p) && ZoneOk(s, s.out[p]);
      SlotLookup(s, s.out[p], p);
    }
    forall a | a in s.large
      ensures PageOf(a * PAGE) == a && a in s.usage && s.usage[a] == Usage(Large, s.large[a])
    {
      assert LargeOk(s, a);
    }
  }

  /** A chunk belongs to one zone only. */
  lemma OneZone(s: Slab, z: int, y: int, p: int)
    requires ZoneOk(s, z) && ZoneOk(s, y) && IsSlot(z, s.zones[z], p) && IsSlot(y, s.zones[y], p)
    ensures y == z
  {
    SlotLookup(s, z, p);
    SlotLookup(s, y, p);
  }
}
