/** The slab allocator: zones of equal chunks on top of the page allocator, and the map from pages to zones. */
module SlabSpec {
  import opened Bits
  import opened Lists
  import opened PageSpec
  import opened SizeClasses
  import Tiling

  const PAGE: nat := 4096                // RT_MM_PAGE_SIZE
  const ZONE_HEADER: nat := 36           // sizeof(slab_zone)
  const RELEASE_THRESHOLD: nat := 2      // ZONE_RELEASE_THRESH

  /** What memusage says of a page: its place within its zone, or the length of the large block it starts. */
  datatype Usage = FreePage | SmallPage(off: nat) | LargePage(n: nat)

  /** A zone header; `freed` is the free-chunk list, as chunk numbers. */
  datatype Zone = Zone(index: nat, chunk: nat, base: nat, nmax: nat, uindex: nat, nfree: int, freed: seq<nat>)

  /** `zones` are the zones in use by their first page, `lists` the zone array, `empty` the cached empty zones,
      `large` the page blocks clients hold. */
  datatype Slab = Slab(zonePages: nat, runs: seq<Run>, kup: map<nat, Usage>, zones: map<nat, Zone>,
                       lists: seq<seq<nat>>, empty: seq<nat>, large: map<nat, nat>)

  datatype Address = Null | At(addr: nat)

  function Limit(zonePages: nat): nat { if zonePages * 1024 > ZALLOC_ZONE_LIMIT then ZALLOC_ZONE_LIMIT
    else zonePages * 1024 }

  function ChunkAt(z: nat, zn: Zone, k: nat): nat { z * PAGE + zn.base + k * zn.chunk }

  /** The chunk's bytes: size is a power of two exactly if size | (size - 1) is 2 * size - 1. */
  predicate LooksPow2(size: nat) { size > 0 && Or(size, size - 1) + 1 == 2 * size }

  function BaseOffset(size: nat): nat
    requires size > 0
  {
    if LooksPow2(size) then RoundUp(ZONE_HEADER, size) else 40
  }

  function NewZone(zonePages: nat, c: Class): Zone
    requires c.chunk > 0 && c.index >= 0
  {
    var off := BaseOffset(c.chunk);
    var nmax := Fill(zonePages * PAGE, off, c.chunk);
    Zone(c.index, c.chunk, off, nmax, 0, nmax - 1, [])
  }

  /** How many chunks fit behind the offset. */
  function Fill(bytes: nat, off: nat, chunk: nat): (n: nat)
    requires chunk > 0
  {
    if bytes >= off then (bytes - off) / chunk else 0
  }

  // ----- rt_malloc

  function PagesFor(size: nat): nat { (size + PAGE - 1) % Tiling.WORD / PAGE }

  function MallocLarge(s: Slab, size: nat): (Slab, Address) {
    var n := PagesFor(size);
    var (runs, q) := Alloc(s.runs, n);
    if q == NoPage then (s, Null)
    else (s.(runs := runs, kup := s.kup[q.p := LargePage(n)], large := s.large[q.p := n]), At(q.p * PAGE))
  }

  /** The next chunk of a zone: a never-used one if there is any, else the first of its free list. */
  function NextChunk(zn: Zone): (Zone, nat) {
    if zn.uindex + 1 != zn.nmax then (zn.(uindex := zn.uindex + 1, nfree := zn.nfree - 1), zn.uindex + 1)
    else if zn.freed == [] then (zn, 0)
    else (zn.(freed := zn.freed[1..], nfree := zn.nfree - 1), zn.freed[0])
  }

  function FromZone(s: Slab, i: nat, z: nat): (Slab, Address)
    requires i < |s.lists| && s.lists[i] != [] && z in s.zones
  {
    var (zn, k) := NextChunk(s.zones[z]);
    (s.(zones := s.zones[z := zn], lists := if zn.nfree == 0 then s.lists[i := s.lists[i][1..]] else s.lists),
     At(ChunkAt(z, zn, k)))
  }

  /** The pages at z become a zone of class c, first on its list; its first chunk is handed out. */
  function OpenZone(s: Slab, c: Class, z: nat): (Slab, Address)
    requires c.chunk > 0 && 0 <= c.index < |s.lists|
  {
    var zn := NewZone(s.zonePages, c);
    (s.(zones := s.zones[z := zn], lists := s.lists[c.index := [z] + s.lists[c.index]]), At(ChunkAt(z, zn, 0)))
  }

  function MarkSmall(kup: map<nat, Usage>, z: nat, n: nat): (r: map<nat, Usage>)
    ensures forall p :: p in r <==> p in kup || z <= p < z + n
    ensures forall p :: p in r ==> r[p] == if z <= p < z + n then SmallPage(p - z) else kup[p]
    decreases n
  {
    if n == 0 then kup else MarkSmall(kup, z, n - 1)[z + n - 1 := SmallPage(n - 1)]
  }

  /** A new zone from the page list, marked page by page. */
  function WithPages(s: Slab): Slab
    requires Alloc(s.runs, s.zonePages).1.Page?
  {
    var (runs, p) := Alloc(s.runs, s.zonePages);
    s.(runs := runs, kup := MarkSmall(s.kup, p.p, s.zonePages))
  }

  function MallocSmall(s: Slab, c: Class): (Slab, Address)
    requires c.chunk > 0 && 0 <= c.index < |s.lists|
  {
    if s.lists[c.index] != [] then
      var z := s.lists[c.index][0];
      if z in s.zones then FromZone(s, c.index, z) else (s, Null)
    else if s.empty != [] then OpenZone(s.(empty := s.empty[1..]), c, s.empty[0])
    else if Alloc(s.runs, s.zonePages).1 == NoPage then (s, Null)
    else OpenZone(WithPages(s), c, Alloc(s.runs, s.zonePages).1.p)
  }

  function Malloc(s: Slab, size: nat): (Slab, Address)
    requires |s.lists| == NZONES
  {
    if size == 0 then (s, Null)
    else if size >= Limit(s.zonePages) then MallocLarge(s, size)
    else
      var c := ClassOf(size);
      if c.chunk > 0 && 0 <= c.index < NZONES then MallocSmall(s, c) else (s, Null)
  }

  // ----- rt_free

  function MarkFree(kup: map<nat, Usage>, z: nat, n: nat): (r: map<nat, Usage>)
    ensures forall p :: p in r <==> p in kup || z <= p < z + n
    ensures forall p :: p in r ==> r[p] == if z <= p < z + n then FreePage else kup[p]
    decreases n
  {
    if n == 0 then kup else MarkFree(kup, z, n - 1)[z + n - 1 := FreePage]
  }

  /** The chunk goes to the front of its zone's free list; a zone that was full goes back on its class's list. */
  function PutBack(s: Slab, z: nat, k: nat): Slab
    requires z in s.zones
  {
    var zn := s.zones[z];
    var i := zn.index;
    s.(zones := s.zones[z := zn.(freed := [k] + zn.freed, nfree := zn.nfree + 1)],
       lists := if zn.nfree == 0 && i < |s.lists| then s.lists[i := [z] + s.lists[i]] else s.lists)
  }

  /** A zone with no chunk in use leaves its list, if the list has others, and is cached or given back. */
  function Retire(s: Slab, z: nat): Slab
    requires z in s.zones
  {
    var zn := s.zones[z];
    var i := zn.index;
    if zn.nfree != zn.nmax || i >= |s.lists| || s.lists[i] == [z] then s
    else
      var t := Unlist(s, z);
      if |s.empty| + 1 > RELEASE_THRESHOLD then GiveBack(t, z) else t.(empty := [z] + t.empty)
  }

  function Unlist(s: Slab, z: nat): Slab
    requires z in s.zones && s.zones[z].index < |s.lists|
  {
    var i := s.zones[z].index;
    s.(zones := s.zones - {z}, lists := s.lists[i := Without(s.lists[i], z)])
  }

  function GiveBack(s: Slab, z: nat): Slab {
    s.(runs := Free(s.runs, z, s.zonePages), kup := MarkFree(s.kup, z, s.zonePages))
  }

  function ChunkNumber(z: nat, zn: Zone, a: nat): nat {
    if zn.chunk > 0 && a >= z * PAGE + zn.base then (a - z * PAGE - zn.base) / zn.chunk else 0
  }

  function FreeBlock(s: Slab, q: Address): Slab {
    if q == Null || q.addr / PAGE !in s.kup then s
    else
      var p := q.addr / PAGE;
      match s.kup[p]
      case FreePage => s
      case LargePage(n) => s.(runs := Free(s.runs, p, n), kup := s.kup[p := LargePage(0)], large := s.large - {p})
      case SmallPage(off) =>
        if off > p || p - off !in s.zones then s
        else
          var z := p - off;
          Retire(PutBack(s, z, ChunkNumber(z, s.zones[z], q.addr)), z)
  }

  // ----- invariants

  /** The zone's chunks are of one class and inside it, behind its header; its count of free chunks is the
      never-used ones and the freed ones; the freed ones are all different and were all used before. */
  ghost predicate ZoneOk(zonePages: nat, zn: Zone) {
    && zn.chunk > 0 && (exists m: nat :: 0 < m < Limit(zonePages) && ClassOf(m) == Class(zn.chunk, zn.index))
    && zn.base == BaseOffset(zn.chunk) && ZONE_HEADER <= zn.base && zn.base + zn.nmax * zn.chunk <= zonePages * PAGE
    && 2 <= zn.nmax && zn.uindex < zn.nmax
    && zn.nfree == zn.nmax - 1 - zn.uindex + |zn.freed|
    && Distinct(zn.freed) && forall k :: k in zn.freed ==> k <= zn.uindex
  }

  ghost predicate ZonesOk(s: Slab) { forall z :: z in s.zones ==> ZoneOk(s.zonePages, s.zones[z]) }

  /** A zone is on the list of its class exactly while it has a free chunk. */
  ghost predicate ListsOk(s: Slab) {
    && |s.lists| == NZONES
    && (forall i :: 0 <= i < NZONES ==> Distinct(s.lists[i]))
    && forall i, z :: 0 <= i < NZONES ==>
         (z in s.lists[i] <==> z in s.zones && s.zones[z].index == i && s.zones[z].nfree > 0)
  }

  /** The stretches of pages the allocator has from the page list. */
  ghost function Owned(s: Slab): set<Run> {
    (set z | z in s.zones :: Run(z, s.zonePages)) + (set z | z in s.empty :: Run(z, s.zonePages))
    + (set p | p in s.large :: Run(p, s.large[p]))
  }

  ghost predicate PagesOk(s: Slab, whole: Run) {
    && s.zonePages in {8, 16, 32} && PageSpec.Inv(Pool(s.runs, Owned(s)), whole)
    && (forall z :: z in s.zones ==> z !in s.empty && z !in s.large)
    && (forall z :: z in s.empty ==> z !in s.large)
    && Distinct(s.empty) && |s.empty| <= RELEASE_THRESHOLD
  }

  ghost predicate IsZone(s: Slab, z: nat) { z in s.zones || z in s.empty }

  ghost predicate Mapped(kup: map<nat, Usage>, z: nat, n: nat) {
    forall p: nat :: z <= p < z + n ==> p in kup && kup[p] == SmallPage(p - z)
  }

  /** memusage leads from each page of a zone to its first page, and knows each large block's length. */
  ghost predicate MapOk(s: Slab) {
    && (forall z: nat :: IsZone(s, z) ==> Mapped(s.kup, z, s.zonePages))
    && (forall p :: p in s.large ==> p in s.kup && s.kup[p] == LargePage(s.large[p]))
  }

  ghost predicate Inv(s: Slab, whole: Run) { ZonesOk(s) && ListsOk(s) && PagesOk(s, whole) && MapOk(s) }

  /** Chunk k of zone z is in a client's hands. */
  predicate Live(s: Slab, z: nat, k: nat) { z in s.zones && k <= s.zones[z].uindex && k !in s.zones[z].freed }

  // ----- the shape of a zone

  lemma {:induction false} AndNotAbove(v: nat, m: nat)
    ensures AndNot(v, m) <= v <= AndNot(v, m) + m
  {
    if v > 0 { AndNotAbove(v / 2, m / 2); }
  }

  lemma OffsetBounds(size: nat)
    requires size > 0
    ensures ZONE_HEADER <= BaseOffset(size) && (BaseOffset(size) == 40 || BaseOffset(size) < ZONE_HEADER + size)
  {
    AndNotAbove(ZONE_HEADER + size - 1, size - 1);
    hide LooksPow2;
  }

  lemma ClassBelowLimit(zonePages: nat, n: nat)
    requires zonePages in {8, 16, 32} && 0 < n < Limit(zonePages)
    ensures 0 < ClassOf(n).chunk <= Limit(zonePages) && 0 <= ClassOf(n).index < NZONES
  {
    ClassCovers(n);
    if n < 8192 { ClassBelow8192(n); }
    hide ClassOf;
  }

  lemma ClassBelow8192(n: nat)
    requires 0 < n < 8192
    ensures ClassOf(n).chunk <= 8192
  {
    hide ClassOf;
    ClassesAreOrdered(n, 8191);
    Class8191();
  }

  lemma Class8191()
    ensures ClassOf(8191).chunk == 8192
  {
  }

  lemma FillBounds(bytes: nat, off: nat, chunk: nat)
    requires chunk > 0 && off <= bytes
    ensures off + Fill(bytes, off, chunk) * chunk <= bytes
    ensures bytes - off >= 2 * chunk ==> Fill(bytes, off, chunk) >= 2
  {
    var a := bytes - off;
    assert a == a / chunk * chunk + a % chunk;
    if a / chunk < 2 { assert a / chunk * chunk <= chunk; }
  }

  lemma NewZoneOk(zonePages: nat, n: nat)
    requires zonePages in {8, 16, 32} && 0 < n < Limit(zonePages)
    ensures ClassOf(n).chunk > 0 && ClassOf(n).index >= 0 && ZoneOk(zonePages, NewZone(zonePages, ClassOf(n)))
    ensures NewZone(zonePages, ClassOf(n)).nfree > 0
  {
    hide ClassOf, BaseOffset, Fill;
    ClassBelowLimit(zonePages, n);
    var c := ClassOf(n);
    OffsetBounds(c.chunk);
    FillBounds(zonePages * PAGE, BaseOffset(c.chunk), c.chunk);
    assert ClassOf(n) == Class(c.chunk, c.index);
  }

  /** Two requests of one index are of one chunk size, so any zone on the list serves. */
  lemma SameIndexSameChunk(zonePages: nat, zn: Zone, n: nat)
    requires ZoneOk(zonePages, zn) && 0 < n < ZALLOC_ZONE_LIMIT && ClassOf(n).index == zn.index
    ensures ClassOf(n).chunk == zn.chunk
  {
    hide ClassOf, Distinct;
    var m: nat :| 0 < m < Limit(zonePages) && ClassOf(m) == Class(zn.chunk, zn.index);
    if m <= n { ClassesAreOrdered(m, n); } else { ClassesAreOrdered(n, m); }
  }

  // ----- chunks from a zone

  /** A zone with a free chunk gives one no client holds, and only that one changes hands. */
  lemma NextChunkKeeps(zonePages: nat, zn: Zone)
    requires ZoneOk(zonePages, zn) && zn.nfree > 0
    ensures var (r, k) := NextChunk(zn);
            && ZoneOk(zonePages, r) && r.nfree == zn.nfree - 1 && r.chunk == zn.chunk && r.index == zn.index
              && r.base == zn.base
            && r.nmax == zn.nmax && k < zn.nmax
            && (k > zn.uindex || k in zn.freed) && k <= r.uindex && k !in r.freed
            && forall j: nat :: j != k ==> (j <= r.uindex && j !in r.freed <==> j <= zn.uindex && j !in zn.freed)
  {
    hide ClassOf;
    if zn.uindex + 1 == zn.nmax { HeadOut(zn.freed); }
  }

  lemma PutBackZone(zonePages: nat, zn: Zone, k: nat)
    requires ZoneOk(zonePages, zn) && k <= zn.uindex && k !in zn.freed
    ensures ZoneOk(zonePages, zn.(freed := [k] + zn.freed, nfree := zn.nfree + 1))
  {
    hide ClassOf;
  }

  /** As many different numbers as there are up to u are all of them. */
  lemma {:induction false} AllThere(s: seq<nat>, u: nat, k: nat)
    requires Distinct(s) && |s| == u + 1 && (forall j :: j in s ==> j <= u) && k <= u
    ensures k in s
    decreases u
  {
    Count(s, u);
    if u > 0 && k < u { AllThere(Without(s, u), u - 1, k); }
  }

  /** Different numbers up to u are at most u + 1, and u is one of them if there are so many. */
  lemma {:induction false} Count(s: seq<nat>, u: nat)
    requires Distinct(s) && forall j :: j in s ==> j <= u
    ensures |s| <= u + 1 && (|s| == u + 1 ==> u in s && |Without(s, u)| == u)
    decreases u
  {
    OneLess(s, u);
    if u > 0 {
      Count(Without(s, u), u - 1);
    } else {
      assert |s| > 1 ==> s[0] != s[1];
      forall i | 0 <= i < |s| ensures s[i] == 0 { assert s[i] in s; }
    }
  }

  lemma {:induction false} OneLess(s: seq<nat>, x: nat)
    requires Distinct(s)
    ensures |Without(s, x)| == |s| - if x in s then 1 else 0
  {
    if s != [] {
      HeadOut(s);
      OneLess(s[1..], x);
      assert Without(s, x) == if s[0] == x then Without(s[1..], x) else [s[0]] + Without(s[1..], x);
    }
  }

  /** A zone that counts all its chunks free has none in a client's hands. */
  lemma AllFreeMeansNoneLive(zonePages: nat, zn: Zone, k: nat)
    requires ZoneOk(zonePages, zn) && zn.nfree == zn.nmax && k <= zn.uindex
    ensures k in zn.freed
  {
    hide ClassOf;
    AllThere(zn.freed, zn.uindex, k);
  }

  // ----- malloc keeps the invariant

  lemma FromZoneKeeps(s: Slab, whole: Run, i: nat, z: nat)
    requires Inv(s, whole) && i < NZONES && s.lists[i] != [] && z == s.lists[i][0]
    ensures z in s.zones && Inv(FromZone(s, i, z).0, whole)
    ensures var (r, q) := FromZone(s, i, z);
            exists k: nat :: !Live(s, z, k) && Live(r, z, k) && k < s.zones[z].nmax
              && q == At(ChunkAt(z, s.zones[z], k))
                             && (forall y, j: nat :: Live(r, y, j) <==> Live(s, y, j) || (y == z && j == k))
  {
    hide ZoneOk, PageSpec.Inv, NextChunk, ChunkAt, Distinct, MapOk;
    HeadHasChunks(s, i);
    var (zn, k) := NextChunk(s.zones[z]);
    NextChunkKeeps(s.zonePages, s.zones[z]);
    var r := FromZone(s, i, z).0;
    SameOwned(s, r);
    FromZoneLists(s, i, z);
    FromZoneMap(s, i, z);
    FromZoneLive(s, i, z);
  }

  lemma HeadHasChunks(s: Slab, i: nat)
    requires ZonesOk(s) && ListsOk(s) && i < NZONES && s.lists[i] != []
    ensures var z := s.lists[i][0];
            z in s.zones && s.zones[z].nfree > 0 && s.zones[z].index == i && ZoneOk(s.zonePages, s.zones[z])
  {
    assert s.lists[i][0] in s.lists[i];
    hide ZoneOk;
  }

  lemma SameOwned(s: Slab, r: Slab)
    requires r.zones.Keys == s.zones.Keys && r.empty == s.empty && r.large == s.large && r.zonePages == s.zonePages
    ensures Owned(r) == Owned(s)
  {
    assert forall z :: z in r.zones <==> z in r.zones.Keys;
    assert forall z :: z in s.zones <==> z in s.zones.Keys;
  }

  lemma FromZoneLists(s: Slab, i: nat, z: nat)
    requires ZonesOk(s) && ListsOk(s) && i < NZONES && s.lists[i] != [] && z == s.lists[i][0] && z in s.zones
    ensures ListsOk(FromZone(s, i, z).0)
  {
    HeadHasChunks(s, i);
    NextChunkKeeps(s.zonePages, s.zones[z]);
    HeadOut(s.lists[i]);
    hide ZoneOk, NextChunk, ChunkAt;
  }

  lemma FromZoneMap(s: Slab, i: nat, z: nat)
    requires MapOk(s) && i < |s.lists| && s.lists[i] != [] && z in s.zones
    ensures MapOk(FromZone(s, i, z).0)
  {
    hide NextChunk, ChunkAt, Mapped;
  }

  lemma FromZoneLive(s: Slab, i: nat, z: nat)
    requires ZonesOk(s) && ListsOk(s) && i < NZONES && s.lists[i] != [] && z == s.lists[i][0] && z in s.zones
    ensures var (r, q) := FromZone(s, i, z);
            var k := NextChunk(s.zones[z]).1;
            && !Live(s, z, k) && Live(r, z, k) && k < s.zones[z].nmax && q == At(ChunkAt(z, s.zones[z], k))
            && (forall y, j: nat :: Live(r, y, j) <==> Live(s, y, j) || (y == z && j == k))
  {
    HeadHasChunks(s, i);
    NextChunkKeeps(s.zonePages, s.zones[z]);
    hide ZoneOk, NextChunk;
  }

  /** The page stretches the allocator owns, and what is listed, are apart. */
  lemma OwnedApart(s: Slab, whole: Run, z: nat, n: nat, p: nat)
    requires PagesOk(s, whole) && Run(z, n) in Owned(s) && z <= p < z + n
    ensures !Listed(s.runs, p) && n > 0
  {
    hide Owned, Listed, Canonical, HeldPage;
    assert Within(Run(z, n), p);
  }

  lemma ZoneOwned(s: Slab, z: nat)
    requires IsZone(s, z)
    ensures Run(z, s.zonePages) in Owned(s)
  {
  }

  lemma LargeOwned(s: Slab, whole: Run, p: nat)
    requires PagesOk(s, whole) && p in s.large
    ensures Run(p, s.large[p]) in Owned(s) && s.large[p] > 0
  {
    assert Run(p, s.large[p]) in Owned(s);
    hide Owned, Listed, Canonical, HeldPage;
  }

  /** Pages fresh from the page list belong to no zone and no large block. */
  lemma FreshPages(s: Slab, whole: Run, n: nat)
    requires PagesOk(s, whole) && n > 0 && AllocFrom(s.runs, n).1.Page?
    ensures var q := AllocFrom(s.runs, n).1.p;
            && (forall z: nat, p: nat :: IsZone(s, z) && z <= p < z + s.zonePages ==> !Within(Run(q, n), p))
            && (forall p :: p in s.large ==> !Within(Run(q, n), p)) && !IsZone(s, q) && q !in s.large
  {
    hide Owned, Listed, Canonical, HeldPage, AllocFrom;
    PagesCanonical(s, whole);
    AllocKeeps(s.runs, n);
    var q := AllocFrom(s.runs, n).1.p;
    forall z: nat, p: nat | IsZone(s, z) && z <= p < z + s.zonePages ensures !Within(Run(q, n), p) {
      ZoneOwned(s, z);
      OwnedApart(s, whole, z, s.zonePages, p);
    }
    forall p | p in s.large ensures !Within(Run(q, n), p) {
      LargeOwned(s, whole, p);
      OwnedApart(s, whole, p, s.large[p], p);
    }
    assert Within(Run(q, n), q);
  }

  lemma PagesCanonical(s: Slab, whole: Run)
    requires PagesOk(s, whole)
    ensures Canonical(s.runs) && s.zonePages in {8, 16, 32}
  {
    hide Owned, Listed, Canonical, HeldPage;
  }

  // ----- opening a zone

  /** What a new zone z of class c does to zones, lists and live chunks, wherever its pages come from. */
  lemma OpenZoneKeeps(s: Slab, n: nat, z: nat)
    requires s.zonePages in {8, 16, 32} && ZonesOk(s) && ListsOk(s) && 0 < n < Limit(s.zonePages) && z !in s.zones
    ensures ClassOf(n).chunk > 0 && 0 <= ClassOf(n).index < NZONES
    ensures var (r, q) := OpenZone(s, ClassOf(n), z);
            && ZonesOk(r) && ListsOk(r)
            && q == At(ChunkAt(z, r.zones[z], 0)) && r.zones[z].chunk == ClassOf(n).chunk
            && forall y, j: nat :: Live(r, y, j) <==> Live(s, y, j) || (y == z && j == 0)
  {
    hide ZoneOk, NewZone, ClassOf, ChunkAt;
    ClassBelowLimit(s.zonePages, n);
    NewZoneOk(s.zonePages, n);
    NewZoneShape(s.zonePages, ClassOf(n));
    OpenZoneLists(s, ClassOf(n), z);
    hide ListsOk;
  }

  lemma NewZoneShape(zonePages: nat, c: Class)
    requires c.chunk > 0 && c.index >= 0
    ensures var zn := NewZone(zonePages, c);
            zn.index == c.index && zn.chunk == c.chunk && zn.uindex == 0 && zn.freed == []
  {
  }

  lemma OpenZoneLists(s: Slab, c: Class, z: nat)
    requires ListsOk(s) && z !in s.zones && c.chunk > 0 && 0 <= c.index < NZONES && NewZone(s.zonePages, c).nfree > 0
    ensures ListsOk(OpenZone(s, c, z).0)
  {
    NewZoneShape(s.zonePages, c);
    hide NewZone, ChunkAt;
  }

  /** A cached zone keeps its pages and their marks. */
  lemma ReopenKeeps(s: Slab, whole: Run, n: nat)
    requires Inv(s, whole) && 0 < n < Limit(s.zonePages) && s.empty != []
    ensures ClassOf(n).chunk > 0 && 0 <= ClassOf(n).index < NZONES
    ensures var z := s.empty[0];
            var (r, q) := OpenZone(s.(empty := s.empty[1..]), ClassOf(n), z);
            && Inv(r, whole) && !Live(s, z, 0) && z in r.zones && r.large == s.large
            && q == At(ChunkAt(z, r.zones[z], 0)) && r.zones[z].chunk == ClassOf(n).chunk
            && forall y, j: nat :: Live(r, y, j) <==> Live(s, y, j) || (y == z && j == 0)
  {
    hide ZonesOk, ListsOk, PageSpec.Inv, NewZone, ClassOf, ChunkAt, Mapped;
    var z := s.empty[0];
    assert z in s.empty;
    HeadOut(s.empty);
    var t := s.(empty := s.empty[1..]);
    SameZones(s, t);
    ListCount(s);
    OpenZoneKeeps(t, n, z);
    var r := OpenZone(t, ClassOf(n), z).0;
    assert s.empty == [z] + s.empty[1..];
    ReopenOwned(s, r, z);
    hide Owned, Distinct;
  }

  lemma ListCount(s: Slab)
    requires ListsOk(s)
    ensures |s.lists| == NZONES
  {
    hide Distinct;
  }

  lemma SameZones(s: Slab, t: Slab)
    requires t.zones == s.zones && t.lists == s.lists && t.zonePages == s.zonePages
    ensures ZonesOk(s) == ZonesOk(t) && ListsOk(s) == ListsOk(t)
  {
    hide ZoneOk, Distinct;
  }

  lemma ReopenOwned(s: Slab, r: Slab, z: nat)
    requires r.large == s.large && r.zonePages == s.zonePages
    requires forall y :: IsZone(r, y) <==> IsZone(s, y)
    ensures Owned(r) == Owned(s)
  {
    forall x: Run ensures x in Owned(r) <==> x in Owned(s) {
      assert IsZone(r, x.at) <==> IsZone(s, x.at);
    }
  }

  lemma OpenFreshLive(s: Slab, whole: Run, n: nat)
    requires Inv(s, whole) && 0 < n < Limit(s.zonePages) && Alloc(s.runs, s.zonePages).1.Page?
    ensures ClassOf(n).chunk > 0 && 0 <= ClassOf(n).index < NZONES
    ensures var z := Alloc(s.runs, s.zonePages).1.p;
            var (r, q) := OpenZone(WithPages(s), ClassOf(n), z);
            && ZonesOk(r) && ListsOk(r) && !IsZone(s, z) && z !in s.large
            && q == At(ChunkAt(z, r.zones[z], 0)) && r.zones[z].chunk == ClassOf(n).chunk
            && forall y, j: nat :: Live(r, y, j) <==> Live(s, y, j) || (y == z && j == 0)
  {
    hide ZonesOk, ListsOk, PagesOk, MapOk, OpenZone, ClassOf, ChunkAt, AllocFrom, Canonical, Within;
    PagesCanonical(s, whole);
    FreshPages(s, whole, s.zonePages);
    SameZones(s, WithPages(s));
    ListCount(s);
    OpenZoneKeeps(WithPages(s), n, Alloc(s.runs, s.zonePages).1.p);
  }

  lemma OpenFreshKeeps(s: Slab, whole: Run, n: nat)
    requires Inv(s, whole) && 0 < n < Limit(s.zonePages) && Alloc(s.runs, s.zonePages).1.Page?
    ensures ClassOf(n).chunk > 0 && 0 <= ClassOf(n).index < NZONES && |WithPages(s).lists| == NZONES
    ensures Inv(OpenZone(WithPages(s), ClassOf(n), Alloc(s.runs, s.zonePages).1.p).0, whole)
  {
    hide ZonesOk, ListsOk, PagesOk, MapOk, ClassOf, Alloc, Canonical, Within, Live, IsZone, OpenZone, WithPages;
    PagesCanonical(s, whole);
    ListCount(s);
    AllocIs(s.runs, s.zonePages);
    WithPagesLists(s);
    OpenFreshLive(s, whole, n);
    FreshPages(s, whole, s.zonePages);
    FreshShape(s, ClassOf(n));
    var z := Alloc(s.runs, s.zonePages).1.p;
    var r := OpenZone(WithPages(s), ClassOf(n), z).0;
    PagesGrow(s, r, whole, z);
    FreshMap(s, r, z);
  }

  lemma WithPagesLists(s: Slab)
    requires Alloc(s.runs, s.zonePages).1.Page?
    ensures WithPages(s).lists == s.lists
  {
  }

  lemma AllocIs(runs: seq<Run>, n: nat)
    requires n > 0
    ensures Alloc(runs, n) == AllocFrom(runs, n)
  {
  }

  lemma FreshShape(s: Slab, c: Class)
    requires |s.lists| == NZONES && c.chunk > 0 && 0 <= c.index < NZONES && Alloc(s.runs, s.zonePages).1.Page?
    ensures var (runs, p) := Alloc(s.runs, s.zonePages);
            var r := OpenZone(WithPages(s), c, p.p).0;
            && r.runs == runs && r.kup == MarkSmall(s.kup, p.p, s.zonePages) && r.empty == s.empty && r.large == s.large
            && r.zonePages == s.zonePages && r.zones.Keys == s.zones.Keys + {p.p}
  {
    hide NewZone, AllocFrom;
  }

  lemma PagesGrow(s: Slab, r: Slab, whole: Run, z: nat)
    requires PagesOk(s, whole) && Alloc(s.runs, s.zonePages) == (r.runs, Page(z))
    requires r.empty == s.empty && r.large == s.large && r.zonePages == s.zonePages
             && r.zones.Keys == s.zones.Keys + {z}
    requires !IsZone(s, z) && z !in s.large
    ensures PagesOk(r, whole)
  {
    hide PageSpec.Inv, AllocFrom, Distinct;
    AllocStep(Pool(s.runs, Owned(s)), whole, s.zonePages);
    forall y ensures y in r.zones <==> y in s.zones || y == z { assert y in r.zones.Keys <==> y in s.zones.Keys + {z}; }
    assert Owned(r) == Owned(s) + {Run(z, s.zonePages)};
    hide Owned;
  }

  lemma FreshMap(s: Slab, r: Slab, z: nat)
    requires MapOk(s) && r.kup == MarkSmall(s.kup, z, s.zonePages) && r.large == s.large && r.zonePages == s.zonePages
    requires r.empty == s.empty && r.zones.Keys == s.zones.Keys + {z}
    requires forall y: nat, p: nat :: IsZone(s, y) && y <= p < y + s.zonePages ==> !Within(Run(z, s.zonePages), p)
    requires forall p :: p in s.large ==> !Within(Run(z, s.zonePages), p)
    ensures MapOk(r)
  {
    forall y: nat | IsZone(r, y) ensures Mapped(r.kup, y, r.zonePages) {
      assert y in r.zones <==> y in s.zones.Keys + {z};
      if y != z {
        assert IsZone(s, y);
        assert Mapped(s.kup, y, s.zonePages);
        forall p: nat | y <= p < y + s.zonePages ensures p in r.kup && r.kup[p] == SmallPage(p - y) {
          assert !Within(Run(z, s.zonePages), p);
        }
      }
    }
    hide Mapped, IsZone;
    forall p | p in r.large ensures p in r.kup && r.kup[p] == LargePage(r.large[p]) {
      assert !Within(Run(z, s.zonePages), p);
    }
  }

  /** What a small request got: a chunk that was nobody's, of a zone of its class; nothing else changed hands. */
  ghost predicate GotChunk(s: Slab, size: nat, r: Slab, q: Address, z: nat, k: nat) {
    && !Live(s, z, k) && Live(r, z, k) && z in r.zones && q == At(ChunkAt(z, r.zones[z], k)) && size <= r.zones[z].chunk
    && r.large == s.large && forall y, j: nat :: Live(r, y, j) <==> Live(s, y, j) || (y == z && j == k)
  }

  /** What a large request got: pages that were nobody's, enough of them; nothing else changed hands. */
  ghost predicate GotPages(s: Slab, size: nat, r: Slab, q: Address, p: nat) {
    && p !in s.large && q == At(p * PAGE) && p in r.large && r.large[p] == PagesFor(size) && size <= r.large[p] * PAGE
    && r.large == s.large[p := r.large[p]]
    && forall y, j: nat :: Live(r, y, j) <==> Live(s, y, j)
  }

  lemma FromZoneGives(s: Slab, whole: Run, n: nat) returns (k: nat)
    requires Inv(s, whole) && 0 < n < Limit(s.zonePages) && 0 <= ClassOf(n).index < NZONES
             && s.lists[ClassOf(n).index] != []
    ensures var i := ClassOf(n).index;
            var z := s.lists[i][0];
            && z in s.zones && Inv(FromZone(s, i, z).0, whole)
            && GotChunk(s, n, FromZone(s, i, z).0, FromZone(s, i, z).1, z, k)
  {
    hide ZonesOk, PagesOk, MapOk, ClassOf, Live, ChunkAt, Distinct, NextChunk;
    var i: nat := ClassOf(n).index;
    var z := s.lists[i][0];
    PagesCanonical(s, whole);
    FromZoneKeeps(s, whole, i, z);
    FromZoneLive(s, i, z);
    k := NextChunk(s.zones[z]).1;
    FromZoneChunk(s, i, z, n);
    hide FromZone;
  }

  lemma FromZoneChunk(s: Slab, i: nat, z: nat, n: nat)
    requires ZonesOk(s) && ListsOk(s) && i < NZONES && s.lists[i] != [] && z == s.lists[i][0] && z in s.zones
    requires s.zonePages in {8, 16, 32} && 0 < n < Limit(s.zonePages) && ClassOf(n).index == i
    ensures var (r, q) := FromZone(s, i, z);
            var k := NextChunk(s.zones[z]).1;
            && z in r.zones && q == At(ChunkAt(z, r.zones[z], k)) && n <= r.zones[z].chunk && r.large == s.large
  {
    HeadHasChunks(s, i);
    hide ZoneOk, ClassOf, Distinct, ZonesOk, ListsOk;
    SameIndexSameChunk(s.zonePages, s.zones[z], n);
    ClassCovers(n);
    NextChunkKeeps(s.zonePages, s.zones[z]);
  }

  lemma ReopenGives(s: Slab, whole: Run, n: nat)
    requires Inv(s, whole) && 0 < n < Limit(s.zonePages) && s.empty != []
    ensures ClassOf(n).chunk > 0 && 0 <= ClassOf(n).index < NZONES && |s.lists| == NZONES
    ensures var z := s.empty[0];
            var (r, q) := OpenZone(s.(empty := s.empty[1..]), ClassOf(n), z);
            Inv(r, whole) && GotChunk(s, n, r, q, z, 0)
  {
    hide ZonesOk, ListsOk, PagesOk, MapOk, ClassOf, ChunkAt, OpenZone, Live;
    LimitBelow(s.zonePages);
    ClassCovers(n);
    ListCount(s);
    ReopenKeeps(s, whole, n);
    var (r, q) := OpenZone(s.(empty := s.empty[1..]), ClassOf(n), s.empty[0]);
    assert Live(r, s.empty[0], 0);
  }

  lemma LimitBelow(zonePages: nat)
    ensures Limit(zonePages) <= ZALLOC_ZONE_LIMIT
  {
  }

  lemma FreshGives(s: Slab, whole: Run, n: nat)
    requires Inv(s, whole) && 0 < n < Limit(s.zonePages) && Alloc(s.runs, s.zonePages).1.Page?
    ensures ClassOf(n).chunk > 0 && 0 <= ClassOf(n).index < NZONES && |s.lists| == NZONES
            && |WithPages(s).lists| == NZONES
    ensures var z := Alloc(s.runs, s.zonePages).1.p;
            var (r, q) := OpenZone(WithPages(s), ClassOf(n), z);
            Inv(r, whole) && GotChunk(s, n, r, q, z, 0)
  {
    hide ZonesOk, ListsOk, PagesOk, MapOk, ClassOf, ChunkAt, OpenZone, Live, Alloc, WithPages;
    LimitBelow(s.zonePages);
    ClassCovers(n);
    ListCount(s);
    WithPagesLists(s);
    OpenFreshKeeps(s, whole, n);
    OpenFreshLive(s, whole, n);
    FreshShape(s, ClassOf(n));
    var z := Alloc(s.runs, s.zonePages).1.p;
    NotLiveOutside(s, z, 0);
    InZones(OpenZone(WithPages(s), ClassOf(n), z).0, z, 0);
  }

  /** A small request either changes nothing and answers NULL or gets a chunk of at least its size. */
  lemma MallocSmallGives(s: Slab, whole: Run, n: nat) returns (z: nat, k: nat)
    requires Inv(s, whole) && 0 < n < Limit(s.zonePages)
    ensures ClassOf(n).chunk > 0 && 0 <= ClassOf(n).index < NZONES && |s.lists| == NZONES
    ensures var (r, q) := MallocSmall(s, ClassOf(n));
            && Inv(r, whole) && (q == Null ==> r == s) && (q != Null ==> GotChunk(s, n, r, q, z, k))
  {
    hide ZonesOk, ListsOk, PagesOk, MapOk, ClassOf, GotChunk, FromZone, OpenZone, Alloc, WithPages;
    z, k := 0, 0;
    PagesCanonical(s, whole);
    ClassBelowLimit(s.zonePages, n);
    ListCount(s);
    var i: nat := ClassOf(n).index;
    if s.lists[i] != [] {
      z := s.lists[i][0];
      k := FromZoneGives(s, whole, n);
    } else if s.empty != [] {
      z := s.empty[0];
      ReopenGives(s, whole, n);
    } else if Alloc(s.runs, s.zonePages).1.Page? {
      z := Alloc(s.runs, s.zonePages).1.p;
      FreshGives(s, whole, n);
    }
    var (r, q) := MallocSmall(s, ClassOf(n));
    if s.lists[i] != [] || s.empty != [] || Alloc(s.runs, s.zonePages).1.Page? { Gave(s, n, r, q, z, k); }
  }

  lemma Gave(s: Slab, n: nat, r: Slab, q: Address, z: nat, k: nat)
    requires GotChunk(s, n, r, q, z, k)
    ensures q != Null
  {
  }

  lemma NotLiveOutside(s: Slab, z: nat, k: nat)
    requires !IsZone(s, z)
    ensures !Live(s, z, k)
  {
  }

  lemma InZones(r: Slab, z: nat, k: nat)
    requires Live(r, z, k)
    ensures z in r.zones
  {
  }

  /** A large request either changes nothing and answers NULL or gets enough pages. */
  lemma MallocLargeGives(s: Slab, whole: Run, size: nat) returns (p: nat)
    requires Inv(s, whole) && size < Tiling.WORD
    ensures var (r, q) := MallocLarge(s, size);
            Inv(r, whole) && (q == Null ==> r == s) && (q != Null ==> GotPages(s, size, r, q, p))
  {
    hide ZonesOk, ListsOk, AllocFrom, PagesOk, MapOk, PagesFor;
    var n := PagesFor(size);
    p := 0;
    var (runs, q) := Alloc(s.runs, n);
    SameZones(s, MallocLarge(s, size).0);
    if q.Page? {
      p := q.p;
      EnoughPages(size);
      LargeKeeps(s, whole, n);
    }
  }

  /** Rounding up to pages wraps to no pages at all within a page of 2^32, and such a request is refused. */
  lemma EnoughPages(size: nat)
    requires size < Tiling.WORD && PagesFor(size) > 0
    ensures size <= PagesFor(size) * PAGE < size + PAGE
  {
    assert size + PAGE - 1 < Tiling.WORD;
  }

  lemma LargeKeeps(s: Slab, whole: Run, n: nat)
    requires PagesOk(s, whole) && MapOk(s) && n > 0 && AllocFrom(s.runs, n).1.Page?
    ensures var (runs, q) := AllocFrom(s.runs, n);
            var r := s.(runs := runs, kup := s.kup[q.p := LargePage(n)], large := s.large[q.p := n]);
            PagesOk(r, whole) && MapOk(r) && q.p !in s.large
  {
    hide AllocFrom, PageSpec.Inv, Distinct, Mapped, Owned;
    FreshPages(s, whole, n);
    AllocStep(Pool(s.runs, Owned(s)), whole, n);
    var (runs, q) := AllocFrom(s.runs, n);
    var r := s.(runs := runs, kup := s.kup[q.p := LargePage(n)], large := s.large[q.p := n]);
    LargeGrows(s, r, q.p, n);
    assert Within(Run(q.p, n), q.p);
    forall z: nat | IsZone(r, z) ensures Mapped(r.kup, z, r.zonePages) {
      assert IsZone(s, z);
      MarkElsewhere(s.kup, z, s.zonePages, q.p, LargePage(n));
    }
  }

  lemma MarkElsewhere(kup: map<nat, Usage>, z: nat, n: nat, p: nat, u: Usage)
    requires Mapped(kup, z, n) && !(z <= p < z + n)
    ensures Mapped(kup[p := u], z, n)
  {
  }

  lemma LargeGrows(s: Slab, r: Slab, p: nat, n: nat)
    requires r.zones == s.zones && r.empty == s.empty && r.zonePages == s.zonePages && r.large == s.large[p := n]
             && p !in s.large
    ensures Owned(r) == Owned(s) + {Run(p, n)}
  {
    forall x: Run ensures x in Owned(r) <==> x in Owned(s) || x == Run(p, n) {
      assert x.at in r.large <==> x.at in s.large || x.at == p;
      assert x.at in r.large && x.at != p ==> r.large[x.at] == s.large[x.at];
    }
  }

  // ----- where chunks lie

  lemma Fits(k: nat, n: nat, c: nat)
    requires k < n
    ensures k * c + c <= n * c
  {
    Distribute(k + 1, n - k - 1, c);
    Distribute(k, 1, c);
  }

  /** A chunk lies behind the zone header and inside the zone's pages. */
  lemma ChunkInside(zonePages: nat, z: nat, zn: Zone, k: nat)
    requires ZoneOk(zonePages, zn) && k < zn.nmax
    ensures var a := ChunkAt(z, zn, k);
            && z * PAGE + ZONE_HEADER <= a && a + zn.chunk <= (z + zonePages) * PAGE
            && z <= a / PAGE < z + zonePages && zn.chunk > 0
  {
    hide ClassOf, Distinct, BaseOffset;
    Fits(k, zn.nmax, zn.chunk);
    PageWithin(ChunkAt(z, zn, k), z, zonePages);
  }

  lemma PageWithin(a: nat, z: nat, n: nat)
    requires z * PAGE <= a < (z + n) * PAGE
    ensures z <= a / PAGE < z + n
  {
  }

  lemma QuotientBack(k: nat, c: nat)
    requires c > 0
    ensures k * c / c == k
  {
    DivUnique(k * c, c, k, 0);
  }

  /** memusage leads any small pointer back to its zone, and its address gives the chunk number. */
  lemma PageMapLeadsBack(s: Slab, whole: Run, z: nat, k: nat)
    requires Inv(s, whole) && Live(s, z, k)
    ensures var a := ChunkAt(z, s.zones[z], k);
            && a / PAGE in s.kup && z <= a / PAGE && s.kup[a / PAGE] == SmallPage(a / PAGE - z) && z in s.zones
              && ChunkNumber(z, s.zones[z], a) == k
  {
    hide ClassOf, Distinct, ListsOk, PageSpec.Inv, Owned, ZoneOk;
    LiveIsChunk(s, z, k);
    ChunkInside(s.zonePages, z, s.zones[z], k);
    QuotientBack(k, s.zones[z].chunk);
    assert IsZone(s, z);
  }

  lemma LiveIsChunk(s: Slab, z: nat, k: nat)
    requires ZonesOk(s) && Live(s, z, k)
    ensures ZoneOk(s.zonePages, s.zones[z]) && k < s.zones[z].nmax
  {
    hide ClassOf, Distinct;
  }

  lemma ZonesApart(s: Slab, whole: Run, y: nat, z: nat)
    requires PagesOk(s, whole) && IsZone(s, y) && IsZone(s, z) && y < z
    ensures y + s.zonePages <= z
  {
    hide Listed, Canonical, HeldPage, Distinct, Owned;
    ZoneOwned(s, y);
    ZoneOwned(s, z);
    if z < y + s.zonePages { OneOwner(s, whole, Run(y, s.zonePages), Run(z, s.zonePages), z); }
  }

  lemma OneOwner(s: Slab, whole: Run, r: Run, t: Run, p: nat)
    requires PagesOk(s, whole) && r in Owned(s) && t in Owned(s) && Within(r, p) && Within(t, p)
    ensures r == t
  {
    hide Listed, Canonical, HeldPage, Distinct, Owned;
  }

  /** No two chunks in clients' hands overlap. */
  lemma LiveChunksApart(s: Slab, whole: Run, y: nat, j: nat, z: nat, k: nat)
    requires Inv(s, whole) && Live(s, y, j) && Live(s, z, k) && (y < z || (y == z && j < k))
    ensures ChunkAt(y, s.zones[y], j) + s.zones[y].chunk <= ChunkAt(z, s.zones[z], k)
  {
    hide ClassOf, Distinct, ListsOk, PagesOk, MapOk, ZoneOk;
    LiveIsChunk(s, y, j);
    LiveIsChunk(s, z, k);
    ChunkInside(s.zonePages, y, s.zones[y], j);
    ChunkInside(s.zonePages, z, s.zones[z], k);
    if y < z {
      ZonesApart(s, whole, y, z);
    } else {
      Fits(j, k, s.zones[z].chunk);
    }
  }

  // ----- free keeps the invariant

  lemma PutBackKeeps(s: Slab, whole: Run, z: nat, k: nat)
    requires Inv(s, whole) && Live(s, z, k)
    ensures var r := PutBack(s, z, k);
            && Inv(r, whole) && z in r.zones && r.zones[z].nfree > 0 && r.large == s.large
            && forall y, j: nat :: Live(r, y, j) <==> Live(s, y, j) && !(y == z && j == k)
  {
    hide ClassOf, PageSpec.Inv, Mapped, Distinct, ZoneOk, ListsOk;
    LiveIsChunk(s, z, k);
    ZoneCount(s.zonePages, s.zones[z]);
    PutBackZone(s.zonePages, s.zones[z], k);
    SameOwned(s, PutBack(s, z, k));
    PutBackLists(s, z, k);
  }

  lemma ZoneCount(zonePages: nat, zn: Zone)
    requires ZoneOk(zonePages, zn)
    ensures zn.nfree >= 0 && zn.index < NZONES
  {
    hide Distinct;
    var m: nat :| 0 < m < Limit(zonePages) && ClassOf(m) == Class(zn.chunk, zn.index);
    ClassIndex(m);
    hide ClassOf;
  }

  lemma PutBackLists(s: Slab, z: nat, k: nat)
    requires ListsOk(s) && z in s.zones && s.zones[z].nfree >= 0
    ensures ListsOk(PutBack(s, z, k))
  {
  }

  lemma UnlistLists(s: Slab, z: nat)
    requires ListsOk(s) && z in s.zones && s.zones[z].nfree > 0 && s.zones[z].index < NZONES
    ensures ListsOk(Unlist(s, z))
  {
    hide Without;
  }

  /** Leaving the list takes no chunk from a client when all the zone's chunks are free. */
  lemma UnlistZones(s: Slab, z: nat)
    requires ZonesOk(s) && z in s.zones && s.zones[z].index < |s.lists| && s.zones[z].nfree == s.zones[z].nmax
    ensures ZonesOk(Unlist(s, z)) && forall y, j: nat :: Live(Unlist(s, z), y, j) <==> Live(s, y, j)
  {
    hide ZoneOk, Without;
    forall k: nat ensures !Live(s, z, k) {
      if k <= s.zones[z].uindex { AllFreeMeansNoneLive(s.zonePages, s.zones[z], k); }
    }
  }

  /** t is s without zone z. */
  ghost predicate Detached(s: Slab, t: Slab, z: nat) {
    && z in s.zones && t.zones == s.zones - {z} && t.runs == s.runs && t.kup == s.kup && t.empty == s.empty
    && t.large == s.large && t.zonePages == s.zonePages
  }

  /** Once its last chunk is free a zone may leave its list; nobody held a chunk of it. */
  lemma RetireKeeps(s: Slab, whole: Run, z: nat)
    requires Inv(s, whole) && z in s.zones && s.zones[z].nfree > 0
    ensures var r := Retire(s, z);
            Inv(r, whole) && r.large == s.large && forall y, j: nat :: Live(r, y, j) <==> Live(s, y, j)
  {
    hide ZonesOk, ListsOk, PagesOk, MapOk, Live, Without, GiveBack, Unlist;
    ZoneIndexOk(s, z);
    ListCount(s);
    if s.zones[z].nfree == s.zones[z].nmax && s.lists[s.zones[z].index] != [z] {
      UnlistLists(s, z);
      UnlistZones(s, z);
      var t := Unlist(s, z);
      UnlistDetaches(s, z);
      if |s.empty| + 1 > RELEASE_THRESHOLD {
        ReleaseKeeps(s, t, whole, z);
        SameChunks(t, GiveBack(t, z));
      } else {
        CacheKeeps(s, t, whole, z);
        SameChunks(t, t.(empty := [z] + t.empty));
      }
    }
  }

  lemma UnlistDetaches(s: Slab, z: nat)
    requires z in s.zones && s.zones[z].index < |s.lists|
    ensures Detached(s, Unlist(s, z), z)
  {
  }

  lemma SameChunks(s: Slab, t: Slab)
    requires t.zones == s.zones && t.lists == s.lists && t.zonePages == s.zonePages
    ensures ZonesOk(s) == ZonesOk(t) && ListsOk(s) == ListsOk(t) && forall y, j: nat :: Live(t, y, j) <==> Live(s, y, j)
  {
    SameZones(s, t);
    hide ZonesOk, ListsOk;
  }

  lemma ZoneIndexOk(s: Slab, z: nat)
    requires ZonesOk(s) && z in s.zones
    ensures s.zones[z].index < NZONES
  {
    hide ZoneOk;
    ZoneCount(s.zonePages, s.zones[z]);
  }

  lemma CacheKeeps(s: Slab, t: Slab, whole: Run, z: nat)
    requires PagesOk(s, whole) && MapOk(s) && Detached(s, t, z) && |s.empty| + 1 <= RELEASE_THRESHOLD
    ensures PagesOk(t.(empty := [z] + t.empty), whole) && MapOk(t.(empty := [z] + t.empty))
  {
    hide PageSpec.Inv, Mapped, Owned;
    var r := t.(empty := [z] + t.empty);
    forall y ensures IsZone(r, y) <==> IsZone(s, y) {}
    ReopenOwned(s, r, z);
  }

  lemma ReleaseKeeps(s: Slab, t: Slab, whole: Run, z: nat)
    requires PagesOk(s, whole) && MapOk(s) && Detached(s, t, z)
    ensures PagesOk(GiveBack(t, z), whole) && MapOk(GiveBack(t, z)) && GiveBack(t, z).zones == t.zones
    ensures GiveBack(t, z).lists == t.lists && GiveBack(t, z).zonePages == t.zonePages
            && GiveBack(t, z).large == t.large
  {
    hide PageSpec.Inv, Free, Owned, Distinct, MapOk, MarkFree;
    assert IsZone(s, z);
    ZoneOwned(s, z);
    PageSpec.FreeStep(Pool(s.runs, Owned(s)), whole, Run(z, s.zonePages));
    ReleaseOwned(s, GiveBack(t, z), whole, z);
    ReleaseMap(s, GiveBack(t, z), whole, z);
  }

  lemma ReleaseOwned(s: Slab, r: Slab, whole: Run, z: nat)
    requires PagesOk(s, whole) && z in s.zones && r.zones == s.zones - {z} && r.empty == s.empty && r.large == s.large
    requires r.zonePages == s.zonePages
    ensures Owned(r) == Owned(s) - {Run(z, s.zonePages)}
  {
    hide PageSpec.Inv, Distinct;
    forall x: Run ensures x in Owned(r) <==> x in Owned(s) && x != Run(z, s.zonePages) {
      assert x.at in r.zones <==> x.at in s.zones && x.at != z;
    }
  }

  lemma ReleaseMap(s: Slab, r: Slab, whole: Run, z: nat)
    requires PagesOk(s, whole) && MapOk(s) && z in s.zones && r.zones == s.zones - {z} && r.empty == s.empty
             && r.large == s.large
    requires r.zonePages == s.zonePages && r.kup == MarkFree(s.kup, z, s.zonePages)
    ensures MapOk(r)
  {
    hide PagesOk, Owned, Mapped, MarkFree;
    assert IsZone(s, z);
    forall y: nat | IsZone(r, y) ensures Mapped(r.kup, y, r.zonePages) {
      NotBoth(s, whole, y, z);
      assert IsZone(s, y) && Mapped(s.kup, y, s.zonePages);
      if y < z { ZonesApart(s, whole, y, z); } else { ZonesApart(s, whole, z, y); }
      UnmarkElsewhere(s.kup, y, z, s.zonePages);
    }
    forall p: nat | p in r.large ensures p in r.kup && r.kup[p] == LargePage(r.large[p]) {
      LargeElsewhere(s, whole, z, p);
    }
  }

  lemma UnmarkElsewhere(kup: map<nat, Usage>, y: nat, z: nat, n: nat)
    requires Mapped(kup, y, n) && (y + n <= z || z + n <= y)
    ensures Mapped(MarkFree(kup, z, n), y, n)
  {
    hide MarkFree;
  }

  lemma NotBoth(s: Slab, whole: Run, y: nat, z: nat)
    requires PagesOk(s, whole) && z in s.zones
    ensures y in s.empty ==> y != z
  {
    hide PageSpec.Inv, Owned, Distinct;
  }

  lemma LargeIsNoZone(s: Slab, whole: Run, z: nat)
    requires PagesOk(s, whole) && IsZone(s, z)
    ensures z !in s.large
  {
    hide PageSpec.Inv, Owned, Distinct;
  }

  /** Freeing a chunk takes exactly that chunk from the clients. */
  lemma FreeSmallKeeps(s: Slab, whole: Run, z: nat, k: nat)
    requires Inv(s, whole) && Live(s, z, k)
    ensures var r := FreeBlock(s, At(ChunkAt(z, s.zones[z], k)));
            && Inv(r, whole) && r.large == s.large
            && forall y, j: nat :: Live(r, y, j) <==> Live(s, y, j) && !(y == z && j == k)
  {
    hide Inv, Live, PutBack, Retire, ChunkNumber, ChunkAt;
    PutBackKeeps(s, whole, z, k);
    PageMapLeadsBack(s, whole, z, k);
    RetireKeeps(PutBack(s, z, k), whole, z);
  }

  lemma ChunkPage(s: Slab, z: nat, k: nat)
    requires ZonesOk(s) && Live(s, z, k)
    ensures z in s.zones && z <= ChunkAt(z, s.zones[z], k) / PAGE
  {
    hide ZoneOk, ChunkAt;
    LiveIsChunk(s, z, k);
    ChunkInside(s.zonePages, z, s.zones[z], k);
  }

  /** Freeing a large block returns its pages and takes exactly that block from the clients. */
  lemma FreeLargeKeeps(s: Slab, whole: Run, p: nat)
    requires Inv(s, whole) && p in s.large
    ensures var r := FreeBlock(s, At(p * PAGE));
            Inv(r, whole) && r.large == s.large - {p} && forall y, j: nat :: Live(r, y, j) <==> Live(s, y, j)
  {
    hide ZonesOk, ListsOk, PageSpec.Inv, Owned, Free, Mapped, Distinct, Retire, PutBack;
    assert p * PAGE / PAGE == p;
    var n := s.large[p];
    var r := FreeBlock(s, At(p * PAGE));
    LargeOwned(s, whole, p);
    PageSpec.FreeStep(Pool(s.runs, Owned(s)), whole, Run(p, n));
    SameChunks(s, r);
    LargeShrinks(s, r, whole, p);
    forall z: nat | IsZone(r, z) ensures Mapped(r.kup, z, r.zonePages) {
      assert IsZone(s, z);
      LargeElsewhere(s, whole, z, p);
      MarkElsewhere(s.kup, z, s.zonePages, p, LargePage(0));
    }
  }

  lemma LargeElsewhere(s: Slab, whole: Run, z: nat, p: nat)
    requires PagesOk(s, whole) && IsZone(s, z) && p in s.large
    ensures !(z <= p < z + s.zonePages)
  {
    hide PagesOk, Owned;
    LargeOwned(s, whole, p);
    ZoneOwned(s, z);
    LargeIsNoZone(s, whole, z);
    if z <= p < z + s.zonePages { OneOwner(s, whole, Run(p, s.large[p]), Run(z, s.zonePages), p); }
  }

  lemma LargeShrinks(s: Slab, r: Slab, whole: Run, p: nat)
    requires PagesOk(s, whole) && p in s.large && r.large == s.large - {p} && r.zones == s.zones && r.empty == s.empty
    requires r.zonePages == s.zonePages
    ensures Owned(r) == Owned(s) - {Run(p, s.large[p])}
  {
    hide PageSpec.Inv, Distinct;
    forall x: Run ensures x in Owned(r) <==> x in Owned(s) && x != Run(p, s.large[p]) {
      assert x.at in r.large <==> x.at in s.large && x.at != p;
    }
  }

  // ----- every run

  datatype Request = MallocCall(size: nat) | FreeCall(q: Address)

  ghost predicate HoldsChunk(s: Slab, q: Address) {
    exists z: nat, k: nat :: Live(s, z, k) && q == At(ChunkAt(z, s.zones[z], k))
  }

  /** Clients free NULL, a chunk or a large block they hold. */
  ghost predicate Allowed(s: Slab, c: Request) {
    match c
    case MallocCall(size) => size < Tiling.WORD
    case FreeCall(q) => q == Null || HoldsChunk(s, q) || exists p :: p in s.large && q == At(p * PAGE)
  }

  function Serve(s: Slab, c: Request): Slab
    requires |s.lists| == NZONES
  {
    match c
    case MallocCall(size) => Malloc(s, size).0
    case FreeCall(q) => FreeBlock(s, q)
  }

  lemma MallocKeeps(s: Slab, whole: Run, size: nat)
    requires Inv(s, whole) && size < Tiling.WORD
    ensures |s.lists| == NZONES && Inv(Malloc(s, size).0, whole)
  {
    hide ZonesOk, ListsOk, PagesOk, MapOk, MallocSmall, MallocLarge, GotChunk, ClassOf;
    ListCount(s);
    if size >= Limit(s.zonePages) {
      var p := MallocLargeGives(s, whole, size);
    } else if size > 0 {
      var z, k := MallocSmallGives(s, whole, size);
    }
  }

  lemma ServeKeeps(s: Slab, whole: Run, c: Request)
    requires Inv(s, whole) && Allowed(s, c)
    ensures |s.lists| == NZONES && Inv(Serve(s, c), whole)
  {
    hide ZonesOk, ListsOk, PagesOk, MapOk, Malloc, FreeBlock, Live, ChunkAt;
    ListCount(s);
    match c
    case MallocCall(size) => MallocKeeps(s, whole, size);
    case FreeCall(q) =>
      if HoldsChunk(s, q) {
        var z, k := ChunkHeld(s, q);
        FreeSmallKeeps(s, whole, z, k);
      } else if q != Null {
        var p :| p in s.large && q == At(p * PAGE);
        FreeLargeKeeps(s, whole, p);
      } else {
        FreeNull(s);
      }
  }

  lemma ChunkHeld(s: Slab, q: Address) returns (z: nat, k: nat)
    requires HoldsChunk(s, q)
    ensures Live(s, z, k) && z in s.zones && q == At(ChunkAt(z, s.zones[z], k))
  {
    z, k :| Live(s, z, k) && q == At(ChunkAt(z, s.zones[z], k));
  }

  lemma FreeNull(s: Slab)
    ensures FreeBlock(s, Null) == s
  {
  }

  ghost predicate AllowedRun(s: Slab, cs: seq<Request>)
    decreases |cs|
  {
    cs != [] ==> |s.lists| == NZONES && Allowed(s, cs[0]) && AllowedRun(Serve(s, cs[0]), cs[1..])
  }

  ghost function Served(s: Slab, cs: seq<Request>): Slab
    requires AllowedRun(s, cs)
    decreases |cs|
  {
    if cs == [] then s else Served(Serve(s, cs[0]), cs[1..])
  }

  lemma {:induction false} ServingKeepsInvariant(s: Slab, whole: Run, cs: seq<Request>)
    requires Inv(s, whole) && AllowedRun(s, cs)
    ensures Inv(Served(s, cs), whole)
    decreases |cs|
  {
    hide Inv, Serve, Allowed;
    if cs != [] {
      ServeKeeps(s, whole, cs[0]);
      ServingKeepsInvariant(Serve(s, cs[0]), whole, cs[1..]);
    }
  }

  /** The zone size rt_system_heap_init settles on, in pages; it compares bytes with kilobytes, so that small
      heaps always get the least size. */
  function ZonePagesFor(pages: nat, zonePages: nat): (n: nat)
    requires zonePages in {8, 16, 32}
    ensures n in {8, 16, 32}
    decreases 32 - zonePages
  {
    if zonePages < 32 && zonePages * PAGE * 2 < pages * PAGE / 1024 then ZonePagesFor(pages, zonePages * 2)
      else zonePages
  }

  /** The allocator over the pages behind the memusage array. */
  function Fresh(zonePages: nat, rest: Run): Slab {
    Slab(zonePages, if rest.n == 0 then [] else [rest], map[], map[], seq(NZONES, _ => []), [], map[])
  }

  lemma FreshKeeps(zonePages: nat, rest: Run)
    requires zonePages in {8, 16, 32}
    ensures Inv(Fresh(zonePages, rest), rest)
  {
    if rest.n > 0 { OneRun(rest); }
    assert Owned(Fresh(zonePages, rest)) == {};
    hide Canonical, Listed, ZoneOk;
  }

  /** In every run from rt_system_heap_init on: a zone counts its free chunks right and is listed exactly while
      it has some, at most two empty zones are cached, and every page is free, or in one zone or one large block. */
  lemma ZonesAreSound(zonePages: nat, rest: Run, cs: seq<Request>)
    requires zonePages in {8, 16, 32} && AllowedRun(Fresh(zonePages, rest), cs)
    ensures var s := Served(Fresh(zonePages, rest), cs);
            && |s.lists| == NZONES && |s.empty| <= RELEASE_THRESHOLD
            && (forall z :: z in s.zones ==>
                  && s.zones[z].nfree == s.zones[z].nmax - 1 - s.zones[z].uindex + |s.zones[z].freed|
                  && s.zones[z].index < NZONES && (s.zones[z].nfree > 0 <==> z in s.lists[s.zones[z].index]))
            && (forall p: nat :: Within(rest, p) <==> Listed(s.runs, p) || HeldPage(Owned(s), p))
            && (forall r, p: nat :: r in Owned(s) && Within(r, p) ==> !Listed(s.runs, p))
  {
    hide Served, AllowedRun, Canonical, Listed, HeldPage, Owned, Distinct, MapOk;
    FreshKeeps(zonePages, rest);
    ServingKeepsInvariant(Fresh(zonePages, rest), rest, cs);
    var s := Served(Fresh(zonePages, rest), cs);
    forall z | z in s.zones ensures s.zones[z].index < NZONES { ZoneCount(s.zonePages, s.zones[z]); }
    hide ClassOf;
  }
}
