/** slab.c over whole runs. */
module SlabLaws {
  import opened SlabClasses
  import opened SlabZones
  import opened SlabOps

  function Fresh(cnt: nat, lists: map<nat, seq<int>>): Slab {
    Slab(cnt, map[], lists, [], map[], map[], map[], map[])
  }

  lemma FreshInv(cnt: nat, lists: map<nat, seq<int>>)
    requires cnt > 0 && forall i: nat :: i < NZONES ==> i in lists && lists[i] == []
    ensures Inv(Fresh(cnt, lists))
  {
  }

  /** One change that rt_malloc or rt_free makes */
  datatype Step =
    | Take(zi: nat) | Spare | Fetch(z: int) | Open(z: int, zi: nat)
    | Give(p: int) | Unlink(z: int) | Keep(z: int) | Return(z: int)
    | Run(a: int, n: nat) | Drop_(a: int)

  ghost predicate Enabled(s: Slab, a: Step)
    requires Inv(s)
  {
    match a
    case Take(zi) => zi < NZONES && zi in s.zoneArray && s.zoneArray[zi] != []
    case Spare => s.spare != []
    case Fetch(z) => z > 0 && Unowned(s, z, s.cnt)
    case Open(z, zi) => Laid(s, z) && z !in s.zones && z !in s.spare && Fits(s, zi) && zi in s.zoneArray
    case Give(p) => p in s.out
    case Unlink(z) => z in s.zones && s.zones[z].nfree == s.zones[z].nmax
    case Keep(z) => Laid(s, z) && z !in s.zones && z !in s.spare && |s.spare| < 2
    case Return(z) => Laid(s, z) && z !in s.zones && z !in s.spare
    case Run(a, n) => a > 0 && n > 0 && Unowned(s, a, n)
    case Drop_(a) => a in s.large
  }

  function Do(s: Slab, a: Step): Slab
    requires Inv(s) && Enabled(s, a)
  {
    match a
    case Take(zi) => TakeChunk(s, zi)
    case Spare => PopSpare(s)
    case Fetch(z) => LayOut(s, z)
    case Open(z, zi) => OpenZone(s, z, zi)
    case Give(p) => GiveBack(s, p)
    case Unlink(z) => (RetireKeeps(s, z); Retire(s, z))
    case Keep(z) => PushSpare(s, z)
    case Return(z) => DropPages(s, z)
    case Run(a, n) => TakeRun(s, a, n)
    case Drop_(a) => DropRun(s, a)
  }

  lemma StepKeeps(s: Slab, a: Step)
    requires Inv(s) && Enabled(s, a)
    ensures Inv(Do(s, a))
  {
    hide Inv, Laid, Unowned, Fits;
    match a {
      case Take(zi) => TakeChunkKeeps(s, zi);
      case Spare => PopSpareKeeps(s);
      case Fetch(z) => LayOutKeeps(s, z);
      case Open(z, zi) => OpenZoneKeeps(s, z, zi);
      case Give(p) => GiveBackKeeps(s, p);
      case Unlink(z) => RetireKeeps(s, z);
      case Keep(z) => PushSpareKeeps(s, z);
      case Return(z) => DropPagesKeeps(s, z);
      case Run(a, n) => TakeRunKeeps(s, a, n);
      case Drop_(a) => DropRunKeeps(s, a);
    }
  }

  ghost predicate Steps(s: Slab, steps: seq<Step>, s': Slab)
    requires Inv(s)
    decreases |steps|
  {
    if steps == [] then s' == s
    else Enabled(s, steps[0]) && (StepKeeps(s, steps[0]); Steps(Do(s, steps[0]), steps[1..], s'))
  }

  /** Over every run, in every zone the counters agree with the chunks, the lists hold exactly the zones with
      free chunks, at most two whole zones are kept, and the page map leads every pointer home. */
  lemma {:induction false} RunsKeep(s: Slab, steps: seq<Step>, s': Slab)
    requires Inv(s) && Steps(s, steps, s')
    ensures Inv(s') && |s'.spare| <= 2
    ensures forall z :: z in s'.zones ==>
            s'.zones[z].nfree == s'.zones[z].nmax - 1 - s'.zones[z].uindex + |s'.zones[z].chunks|
    ensures forall p :: p in s'.out ==>
              var q := PageOf(p); q in s'.usage && s'.usage[q].kind == Small && q - s'.usage[q].size == s'.out[p]
    decreases |steps|
  {
    if steps == [] {
      Lookup(s);
      forall z | z in s.zones
        ensures s.zones[z].nfree == s.zones[z].nmax - 1 - s.zones[z].uindex + |s.zones[z].chunks|
      {
        assert ZoneOk(s, z);
      }
    } else {
      hide Inv, Enabled, Do;
      StepKeeps(s, steps[0]);
      RunsKeep(Do(s, steps[0]), steps[1..], s');
    }
  }

  // ------------------------------------------------------- memory handed out

  lemma PageOwner(s: Slab, z: int, p: int)
    requires Laid(s, z) && z <= p < z + s.cnt
    ensures p in s.own && s.own[p] == ZonePage(z)
  {
    assert InZone(s, z, p);
  }

  lemma ZonesApart(s: Slab, z: int, y: int)
    requires Laid(s, z) && Laid(s, y) && z < y && s.cnt > 0
    ensures z + s.cnt <= y
  {
    PageOwner(s, y, y);
    if y < z + s.cnt { PageOwner(s, z, y); }
  }

  lemma ChunkEnd(z: int, zn: Zone, cnt: nat, i: nat, j: nat)
    requires Room(zn, cnt) && i < j <= zn.nmax
    ensures z * PAGE <= Chunk(z, zn, i) && Chunk(z, zn, i) + zn.size <= Chunk(z, zn, j) <= (z + cnt) * PAGE
  {
    assert i * zn.size + zn.size == (i + 1) * zn.size;
    if i + 1 < j { Ascending(zn.size, i + 1, j); }
    if j < zn.nmax { Ascending(zn.size, j, zn.nmax); }
  }

  /** The bytes of a chunk lie in the pages of its zone. */
  lemma ChunkBounds(s: Slab, p: int)
    requires Inv(s) && p in s.out
    ensures var z := s.out[p]; z in s.zones && Laid(s, z) && z * PAGE <= p && p + s.zones[z].size <= (z + s.cnt) * PAGE
  {
    assert OutOk(s, p) && ZoneOk(s, s.out[p]);
    var z := s.out[p];
    var i: nat :| i <= s.zones[z].uindex && p == Chunk(z, s.zones[z], i);
    hide Chunk;
    ChunkEnd(z, s.zones[z], s.cnt, i, s.zones[z].nmax);
  }

  lemma SameZone(z: int, zn: Zone, cnt: nat, p: int, q: int)
    requires Counts(zn) && Room(zn, cnt) && IsSlot(z, zn, p) && IsSlot(z, zn, q) && p < q
    ensures p + zn.size <= q
  {
    var i: nat :| i <= zn.uindex && p == Chunk(z, zn, i);
    var j: nat :| j <= zn.uindex && q == Chunk(z, zn, j);
    hide Chunk;
    if i < j { ChunkEnd(z, zn, cnt, i, j); }
    if j < i { ChunkEnd(z, zn, cnt, j, i); }
  }

  /** Two chunks that are handed out never overlap. */
  lemma ChunksApart(s: Slab, p: int, q: int)
    requires Inv(s) && p in s.out && q in s.out && p < q
    ensures s.out[p] in s.zones && p + s.zones[s.out[p]].size <= q
  {
    var z, y := s.out[p], s.out[q];
    ChunkBounds(s, p);
    ChunkBounds(s, q);
    if z == y {
      assert OutOk(s, p) && OutOk(s, q) && ZoneOk(s, z);
      SameZone(z, s.zones[z], s.cnt, p, q);
    } else if z < y {
      ZonesApart(s, z, y);
    } else {
      ZonesApart(s, y, z);
    }
  }

  /** A chunk never overlaps a run of pages, nor one run another. */
  lemma RunsApart(s: Slab, p: int, a: int)
    requires Inv(s) && p in s.out && a in s.large
    ensures s.out[p] in s.zones && (p + s.zones[s.out[p]].size <= a * PAGE || (a + s.large[a]) * PAGE <= p)
  {
    ChunkBounds(s, p);
    RunBesides(s, s.out[p], a);
  }

  lemma RunBesides(s: Slab, z: int, a: int)
    requires Inv(s) && Laid(s, z) && a in s.large
    ensures z + s.cnt <= a || a + s.large[a] <= z
  {
    assert LargeOk(s, a);
    RunPage(s, a, a);
    PageOwner(s, z, z);
    if z <= a < z + s.cnt { PageOwner(s, z, a); }
    if a <= z < a + s.large[a] { RunPage(s, a, z); }
  }

  lemma RunPage(s: Slab, a: int, p: int)
    requires LargeOk(s, a) && a <= p < a + s.large[a]
    ensures p in s.own && s.own[p] == LargePage(a)
  {
    assert InRun(s, a, p);
  }

  lemma TwoRunsApart(s: Slab, a: int, b: int)
    requires Inv(s) && a in s.large && b in s.large && a < b
    ensures a + s.large[a] <= b
  {
    assert LargeOk(s, a) && LargeOk(s, b);
    RunPage(s, b, b);
    if b < a + s.large[a] { RunPage(s, a, b); }
  }
}
