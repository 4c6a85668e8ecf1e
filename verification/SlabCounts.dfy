/** The slab allocator's statistics: used_mem is at all times the memory in clients' hands, and max_mem the most
    there has been. */
module SlabCounts {
  import opened Lists
  import opened PageSpec
  import opened SizeClasses
  import opened SlabSpec
  import Tiling

  /** used_mem and max_mem */
  datatype Stats = Stats(used: int, peak: int)

  function Max(a: int, b: int): int { if a < b then b else a }

  // ----- sums over a map

  ghost function Sum(m: map<nat, int>): int
    decreases |m|
  {
    if m == map[] then 0
    else
      var k :| k in m;
      Smaller(m, k);
      m[k] + Sum(m - {k})
  }

  lemma Smaller(m: map<nat, int>, k: nat)
    requires k in m
    ensures |m - {k}| < |m|
  {
    assert (m - {k}).Keys == m.Keys - {k};
    assert |m.Keys| == |m| && |(m - {k}).Keys| == |m - {k}|;
  }

  lemma {:induction false} SumAt(m: map<nat, int>, k: nat)
    requires k in m
    ensures Sum(m) == m[k] + Sum(m - {k})
    decreases |m|
  {
    var j :| j in m && Sum(m) == m[j] + Sum(m - {j});
    if j != k {
      Smaller(m, j);
      Smaller(m, k);
      SumAt(m - {j}, k);
      SumAt(m - {k}, j);
      assert m - {j} - {k} == m - {k} - {j};
    }
  }

  lemma SumSet(m: map<nat, int>, k: nat, v: int)
    ensures Sum(m[k := v]) == Sum(m) + v - if k in m then m[k] else 0
  {
    var r := m[k := v];
    SumAt(r, k);
    if k in m {
      SumAt(m, k);
      assert r - {k} == m - {k};
    } else {
      assert r - {k} == m;
    }
  }

  // ----- memory in use

  function Busy(zn: Zone): int { (zn.nmax - zn.nfree) * zn.chunk }

  ghost function ZoneUse(zones: map<nat, Zone>): map<nat, int> { map z | z in zones :: Busy(zones[z]) }

  ghost function LargeUse(large: map<nat, nat>): map<nat, int> { map p | p in large :: large[p] * PAGE }

  /** The chunks in use in all zones, and the pages of the large blocks, in bytes. */
  ghost function InUse(s: Slab): int { Sum(ZoneUse(s.zones)) + Sum(LargeUse(s.large)) }

  lemma ZoneSet(zones: map<nat, Zone>, z: nat, zn: Zone)
    ensures Sum(ZoneUse(zones[z := zn])) == Sum(ZoneUse(zones)) + Busy(zn) - if z in zones then Busy(zones[z]) else 0
  {
    hide Busy, Sum;
    assert ZoneUse(zones[z := zn]) == ZoneUse(zones)[z := Busy(zn)];
    SumSet(ZoneUse(zones), z, Busy(zn));
  }

  lemma ZoneGone(zones: map<nat, Zone>, z: nat)
    requires z in zones
    ensures Sum(ZoneUse(zones - {z})) == Sum(ZoneUse(zones)) - Busy(zones[z])
  {
    hide Busy, Sum;
    assert ZoneUse(zones - {z}) == ZoneUse(zones) - {z};
    SumAt(ZoneUse(zones), z);
  }

  lemma LargeSet(large: map<nat, nat>, p: nat, n: nat)
    requires p !in large
    ensures Sum(LargeUse(large[p := n])) == Sum(LargeUse(large)) + n * PAGE
  {
    hide Sum;
    assert LargeUse(large[p := n]) == LargeUse(large)[p := n * PAGE];
    SumSet(LargeUse(large), p, n * PAGE);
  }

  lemma LargeGone(large: map<nat, nat>, p: nat)
    requires p in large
    ensures Sum(LargeUse(large - {p})) == Sum(LargeUse(large)) - large[p] * PAGE
  {
    hide Sum;
    assert LargeUse(large - {p}) == LargeUse(large) - {p};
    SumAt(LargeUse(large), p);
  }

  // ----- what each call counts

  /** What rt_malloc adds to used_mem: whole pages, or the chunk size of the request's class. */
  function Charge(s: Slab, size: nat): int
    requires |s.lists| == NZONES
  {
    if Malloc(s, size).1 == Null then 0 else if size >= Limit(s.zonePages) then PagesFor(size) * PAGE
      else ClassOf(size).chunk
  }

  /** What rt_free takes off used_mem. */
  function Credit(s: Slab, q: Address): int {
    if q == Null || q.addr / PAGE !in s.kup then 0
    else
      var p := q.addr / PAGE;
      match s.kup[p]
      case FreePage => 0
      case LargePage(n) => n * PAGE
      case SmallPage(off) => if off <= p && p - off in s.zones then s.zones[p - off].chunk else 0
  }

  function AfterMalloc(st: Stats, s: Slab, size: nat): Stats
    requires |s.lists| == NZONES
  {
    if Malloc(s, size).1 == Null then st else Charged(st, Charge(s, size))
  }

  function Charged(st: Stats, n: int): Stats { Stats(st.used + n, Max(st.peak, st.used + n)) }

  function AfterFree(st: Stats, s: Slab, q: Address): Stats { st.(used := st.used - Credit(s, q)) }

  lemma BusyLess(zn: Zone, r: Zone)
    requires r.nmax == zn.nmax && r.chunk == zn.chunk && r.nfree == zn.nfree - 1
    ensures Busy(r) == Busy(zn) + zn.chunk
  {
  }

  lemma FromZoneCounts(s: Slab, whole: Run, n: nat)
    requires SlabSpec.Inv(s, whole) && 0 < n < Limit(s.zonePages) && 0 <= ClassOf(n).index < NZONES
             && s.lists[ClassOf(n).index] != []
    ensures var i := ClassOf(n).index;
            var z := s.lists[i][0];
            && z in s.zones && s.zones[z].chunk == ClassOf(n).chunk
            && InUse(FromZone(s, i, z).0) == InUse(s) + ClassOf(n).chunk
  {
    var i: nat := ClassOf(n).index;
    var z := s.lists[i][0];
    HeadHasChunks(s, i);
    hide SlabSpec.Inv, ClassOf, ChunkAt, NextChunk, Busy, Sum, ZoneOk;
    LimitBelow(s.zonePages);
    SameIndexSameChunk(s.zonePages, s.zones[z], n);
    NextChunkKeeps(s.zonePages, s.zones[z]);
    var r := NextChunk(s.zones[z]).0;
    BusyLess(s.zones[z], r);
    ZoneSet(s.zones, z, r);
  }

  lemma OpenZoneCounts(s: Slab, c: Class, z: nat)
    requires c.chunk > 0 && 0 <= c.index < |s.lists| && z !in s.zones
    ensures InUse(OpenZone(s, c, z).0) == InUse(s) + c.chunk
  {
    hide Sum, NewZone, ChunkAt, Busy, ZoneUse, LargeUse;
    ZoneSet(s.zones, z, NewZone(s.zonePages, c));
    NewZoneBusy(s.zonePages, c);
  }

  lemma NewZoneBusy(zonePages: nat, c: Class)
    requires c.chunk > 0 && c.index >= 0
    ensures Busy(NewZone(zonePages, c)) == c.chunk
  {
    hide BaseOffset, Fill;
  }

  lemma MallocSmallCounts(s: Slab, whole: Run, n: nat)
    requires SlabSpec.Inv(s, whole) && 0 < n < Limit(s.zonePages)
    ensures ClassOf(n).chunk > 0 && 0 <= ClassOf(n).index < NZONES && |s.lists| == NZONES
    ensures var (r, q) := MallocSmall(s, ClassOf(n));
            InUse(r) == InUse(s) + if q == Null then 0 else ClassOf(n).chunk
  {
    hide ZonesOk, MapOk, ClassOf, ChunkAt, NextChunk, Sum, OpenZone, FromZone, InUse, AllocFrom, PageSpec.Inv, ListsOk;
    PagesCanonical(s, whole);
    ClassBelowLimit(s.zonePages, n);
    ListCount(s);
    var c := ClassOf(n);
    if s.lists[c.index] != [] {
      FromZoneCounts(s, whole, n);
      FromZoneAnswers(s, c.index, s.lists[c.index][0]);
    } else if s.empty != [] {
      assert s.empty[0] in s.empty;
      OpenZoneCounts(s.(empty := s.empty[1..]), c, s.empty[0]);
      SameUse(s.(empty := s.empty[1..]), s);
      OpenZoneAnswers(s.(empty := s.empty[1..]), c, s.empty[0]);
    } else if Alloc(s.runs, s.zonePages).1 != NoPage {
      FreshPages(s, whole, s.zonePages);
      var p := Alloc(s.runs, s.zonePages).1.p;
      WithPagesZones(s);
      OpenZoneCounts(WithPages(s), c, p);
      SameUse(WithPages(s), s);
      OpenZoneAnswers(WithPages(s), c, p);
    }
  }

  lemma FromZoneAnswers(s: Slab, i: nat, z: nat)
    requires i < |s.lists| && s.lists[i] != [] && z in s.zones
    ensures FromZone(s, i, z).1 != Null
  {
  }

  lemma OpenZoneAnswers(s: Slab, c: Class, z: nat)
    requires c.chunk > 0 && 0 <= c.index < |s.lists|
    ensures OpenZone(s, c, z).1 != Null
  {
  }

  lemma WithPagesZones(s: Slab)
    requires Alloc(s.runs, s.zonePages).1.Page?
    ensures var t := WithPages(s); t.zones == s.zones && t.large == s.large && t.lists == s.lists
  {
  }

  lemma SameUse(s: Slab, t: Slab)
    requires s.zones == t.zones && s.large == t.large
    ensures InUse(s) == InUse(t)
  {
  }

  lemma MallocLargeCounts(s: Slab, whole: Run, size: nat)
    requires SlabSpec.Inv(s, whole) && size < Tiling.WORD
    ensures var (r, q) := MallocLarge(s, size);
            InUse(r) == InUse(s) + if q == Null then 0 else PagesFor(size) * PAGE
  {
    var p := MallocLargeGives(s, whole, size);
    hide SlabSpec.Inv, AllocFrom, PagesFor, Sum, Live, ZoneUse;
    LargeZones(s, size);
    if MallocLarge(s, size).1 != Null { LargeSet(s.large, p, PagesFor(size)); }
  }

  lemma LargeZones(s: Slab, size: nat)
    ensures MallocLarge(s, size).0.zones == s.zones
    ensures MallocLarge(s, size).1 == Null ==> MallocLarge(s, size).0 == s
  {
  }

  lemma MallocCounts(s: Slab, whole: Run, size: nat)
    requires SlabSpec.Inv(s, whole) && size < Tiling.WORD
    ensures |s.lists| == NZONES && InUse(Malloc(s, size).0) == InUse(s) + Charge(s, size) && Charge(s, size) >= 0
  {
    hide SlabSpec.Inv, MallocSmall, MallocLarge, ClassOf, InUse, PagesFor;
    ListsCounted(s, whole);
    if size >= Limit(s.zonePages) {
      MallocLargeCounts(s, whole, size);
    } else if size > 0 {
      MallocSmallCounts(s, whole, size);
    }
  }

  lemma ListsCounted(s: Slab, whole: Run)
    requires SlabSpec.Inv(s, whole)
    ensures |s.lists| == NZONES
  {
  }

  lemma RetireCounts(s: Slab, z: nat)
    requires z in s.zones
    ensures InUse(Retire(s, z)) == InUse(s)
  {
    var zn := s.zones[z];
    if !(zn.nfree != zn.nmax || zn.index >= |s.lists| || s.lists[zn.index] == [z]) {
      ZoneGone(s.zones, z);
      assert Busy(zn) == 0;
    }
    hide Sum, ZoneUse, LargeUse, MarkFree, Free, Without;
  }

  lemma PutBackCounts(s: Slab, z: nat, k: nat)
    requires z in s.zones
    ensures z in PutBack(s, z, k).zones && InUse(PutBack(s, z, k)) == InUse(s) - s.zones[z].chunk
  {
    var zn := s.zones[z];
    var r := zn.(freed := [k] + zn.freed, nfree := zn.nfree + 1);
    BusyLess(r, zn);
    ZoneSet(s.zones, z, r);
    hide Sum, ZoneUse, LargeUse, Busy;
  }

  lemma FreeCounts(s: Slab, whole: Run, q: Address)
    requires SlabSpec.Inv(s, whole) && Allowed(s, FreeCall(q))
    ensures InUse(FreeBlock(s, q)) == InUse(s) - Credit(s, q) && Credit(s, q) >= 0
  {
    hide InUse, PutBack, Retire, Free, Live, ChunkAt, ChunkNumber, SlabSpec.Inv, HoldsChunk;
    if HoldsChunk(s, q) {
      var z, k := ChunkHeld(s, q);
      SmallCounts(s, whole, z, k);
    } else if q != Null {
      var p :| p in s.large && q == At(p * PAGE);
      LargeCounts(s, whole, p);
    }
  }

  lemma SmallCounts(s: Slab, whole: Run, z: nat, k: nat)
    requires SlabSpec.Inv(s, whole) && Live(s, z, k) && z in s.zones
    ensures var q := At(ChunkAt(z, s.zones[z], k));
            InUse(FreeBlock(s, q)) == InUse(s) - Credit(s, q) && Credit(s, q) >= 0
  {
    hide InUse, PutBack, Retire, SlabSpec.Inv, Live, ChunkNumber, ChunkAt;
    PageMapLeadsBack(s, whole, z, k);
    PutBackCounts(s, z, k);
    RetireCounts(PutBack(s, z, k), z);
  }

  lemma LargeCounts(s: Slab, whole: Run, p: nat)
    requires SlabSpec.Inv(s, whole) && p in s.large
    ensures var q := At(p * PAGE);
            InUse(FreeBlock(s, q)) == InUse(s) - Credit(s, q) && Credit(s, q) >= 0
  {
    hide ZonesOk, ListsOk, PagesOk, Mapped, Free, PutBack, Retire, ZoneUse, LargeUse, Sum;
    assert p * PAGE / PAGE == p;
    LargeGone(s.large, p);
  }

  // ----- over runs

  function Count(st: Stats, s: Slab, c: Request): Stats
    requires |s.lists| == NZONES
  {
    match c
    case MallocCall(size) => AfterMalloc(st, s, size)
    case FreeCall(q) => AfterFree(st, s, q)
  }

  ghost function RunStats(st: Stats, s: Slab, cs: seq<Request>): Stats
    requires AllowedRun(s, cs)
    decreases |cs|
  {
    if cs == [] then st else RunStats(Count(st, s, cs[0]), Serve(s, cs[0]), cs[1..])
  }

  /** The most memory in use at any time of the run. */
  ghost function Highest(s: Slab, cs: seq<Request>): int
    requires AllowedRun(s, cs)
    decreases |cs|
  {
    if cs == [] then InUse(s) else Max(InUse(s), Highest(Serve(s, cs[0]), cs[1..]))
  }

  lemma CountStep(st: Stats, s: Slab, whole: Run, c: Request)
    requires SlabSpec.Inv(s, whole) && Allowed(s, c) && st.used == InUse(s) <= st.peak
    ensures |s.lists| == NZONES
    ensures var r := Count(st, s, c); r.used == InUse(Serve(s, c)) && r.peak == Max(st.peak, r.used)
  {
    hide SlabSpec.Inv, InUse, Malloc, FreeBlock, Charge, Credit;
    ListsCounted(s, whole);
    match c
    case MallocCall(size) =>
      MallocCounts(s, whole, size);
      NullCharge(s, size);
    case FreeCall(q) => FreeCounts(s, whole, q);
  }

  lemma NullCharge(s: Slab, size: nat)
    requires |s.lists| == NZONES
    ensures Malloc(s, size).1 == Null ==> Charge(s, size) == 0
  {
  }

  /** After any run used_mem is what the clients hold, and max_mem the most they ever held. */
  lemma {:induction false} RunsCountTruly(st: Stats, s: Slab, whole: Run, cs: seq<Request>)
    requires SlabSpec.Inv(s, whole) && AllowedRun(s, cs) && st.used == InUse(s) <= st.peak
    ensures RunStats(st, s, cs) == Stats(InUse(Served(s, cs)), Max(st.peak, Highest(s, cs)))
    decreases |cs|
  {
    hide SlabSpec.Inv, InUse, Count, Serve, Allowed;
    if cs != [] {
      CountStep(st, s, whole, cs[0]);
      ServeKeeps(s, whole, cs[0]);
      RunsCountTruly(Count(st, s, cs[0]), Serve(s, cs[0]), whole, cs[1..]);
    }
  }

  lemma FreshUse(zonePages: nat, rest: Run)
    ensures InUse(Fresh(zonePages, rest)) == 0
  {
    assert ZoneUse(map[]) == map[] && LargeUse(map[]) == map[];
  }
}
