/** The slab allocator's own variables and calls, on top of the page list object; each call is proved to be
    the step of SlabSpec it names. */
module SlabAllocator {
  import opened Lists
  import opened PageSpec
  import PL = PageList
  import opened SizeClasses
  import opened SlabCounts
  import opened SlabSpec
  import Tiling

  class SlabAllocator {
    const pages: PL.PageList
    const zonePages: nat                 // zone_page_cnt
    ghost const rest: Run                // the pages behind the memusage array
    var memusage: map<nat, Usage>
    var zones: map<nat, Zone>            // the zone headers, by the zone's first page
    var zoneArray: seq<seq<nat>>         // zone_array
    var zoneFree: seq<nat>               // zone_free
    var usedMem: int
    var maxMem: int
    ghost var large: map<nat, nat>

    ghost function S(): Slab
      reads this, pages
    {
      Slab(zonePages, pages.runs, memusage, zones, zoneArray, zoneFree, large)
    }

    ghost function St(): Stats
      reads this`usedMem, this`maxMem
    {
      Stats(usedMem, maxMem)
    }

    ghost predicate Valid()
      reads this, pages
    {
      pages.Valid() && SlabSpec.Inv(S(), rest)
    }

    /** rt_system_heap_init for n pages from page `start`; the memusage array takes the first `usage` of them,
        which of a single page leaves none. */
    constructor (start: nat, n: nat)
      requires 0 < n
      ensures Valid() && fresh(pages)
      ensures zonePages == ZonePagesFor(n, 8) && St() == Stats(0, 0)
      ensures var usage := (n * 4 + PAGE - 1) / PAGE;
              usage <= n && S() == Fresh(zonePages, Run(start + usage, n - usage))
                && rest == Run(start + usage, n - usage)
    {
      var list := new PL.PageList(Run(start, n));
      var zoneSize := 8;
      while zoneSize < 32 && zoneSize * PAGE * 2 < n * PAGE / 1024
        invariant zoneSize in {8, 16, 32} && ZonePagesFor(n, zoneSize) == ZonePagesFor(n, 8)
        decreases 32 - zoneSize
      {
        zoneSize := zoneSize * 2;
      }
      var usage := (n * 4 + PAGE - 1) / PAGE;
      var at := list.AllocPages(usage);
      assert [Run(start, n)][1..] == [];
      pages, zonePages := list, zoneSize;
      rest := Run(start + usage, n - usage);
      memusage, zones, zoneArray, zoneFree := map[], map[], seq(NZONES, _ => []), [];
      large := map[];
      usedMem, maxMem := 0, 0;
      new;
      assert zoneArray == Fresh(zonePages, rest).lists;
      FreshKeeps(zonePages, rest);
      hide SlabSpec.Inv, Canonical;
      assert S() == Fresh(zonePages, rest);
    }

    /** rt_malloc */
    method Malloc(size: nat) returns (r: Address)
      requires Valid() && size < Tiling.WORD && |zoneArray| == NZONES
      modifies this, pages
      ensures Valid() && (S(), r) == SlabSpec.Malloc(old(S()), size)
      ensures St() == AfterMalloc(old(St()), old(S()), size)
    {
      MallocKeeps(S(), rest, size);
      hide SlabSpec.Inv, SlabSpec.MallocSmall, SlabSpec.MallocLarge, ClassOf, Charged, InUse, SlabSpec.FromZone,
        PagesFor;
      if size == 0 {
        return Null;
      }
      if size >= Limit(zonePages) {
        r := MallocLarge(size);
      } else {
        LimitBelow(zonePages);
        ClassCovers(size);
        var chunk, zi := ZoneIndex(size);
        if zoneArray[zi] != [] { FromZoneCounts(S(), rest, size); }
        r := MallocSmall(chunk, zi);
      }
    }

    method MallocLarge(size: nat) returns (r: Address)
      requires pages.Valid()
      modifies this`memusage, this`large, this`usedMem, this`maxMem, pages
      ensures pages.Valid() && (S(), r) == SlabSpec.MallocLarge(old(S()), size)
      ensures St() == if r == Null then old(St()) else Charged(old(St()), PagesFor(size) * PAGE)
    {
      hide Canonical, AllocFrom;
      RefusedSame(pages.runs, PagesFor(size));
      var n := (size + PAGE - 1) % Tiling.WORD / PAGE;
      var chunk := pages.AllocPages(n);
      if chunk == NoPage {
        return Null;
      }
      memusage := memusage[chunk.p := LargePage(n)];
      large := large[chunk.p := n];
      AddUsed(n * PAGE);
      return At(chunk.p * PAGE);
    }

    method AddUsed(n: int)
      modifies this`usedMem, this`maxMem
      ensures St() == Charged(old(St()), n)
    {
      usedMem := usedMem + n;
      if usedMem > maxMem {
        maxMem := usedMem;
      }
    }

    method MallocSmall(chunk: nat, zi: nat) returns (r: Address)
      requires pages.Valid() && ListsOk(S()) && chunk > 0 && zi < NZONES && |zoneArray| == NZONES
      requires zoneArray[zi] != [] && zoneArray[zi][0] in zones ==> zones[zoneArray[zi][0]].chunk == chunk
      modifies this`memusage, this`zones, this`zoneArray, this`zoneFree, this`usedMem, this`maxMem, pages
      ensures pages.Valid() && (S(), r) == SlabSpec.MallocSmall(old(S()), Class(chunk, zi))
      ensures St() == if r == Null then old(St()) else Charged(old(St()), chunk)
    {
      hide Canonical, AllocFrom, NextChunk, NewZone, ChunkAt, ListsOk, Charged;
      if zoneArray[zi] != [] {
        HeadIsZone(zi);
        r := FromZone(zi, zoneArray[zi][0]);
      } else if zoneFree != [] {
        var z := zoneFree[0];
        zoneFree := zoneFree[1..];
        r := OpenZone(chunk, zi, z);
      } else {
        RefusedSame(pages.runs, zonePages);
        var q := pages.AllocPages(zonePages);
        if q == NoPage {
          return Null;
        }
        MarkZone(q.p);
        r := OpenZone(chunk, zi, q.p);
      }
    }

    lemma RefusedSame(runs: seq<Run>, n: nat)
      requires Canonical(runs)
      ensures Alloc(runs, n).1 == NoPage ==> Alloc(runs, n).0 == runs
    {
      if n > 0 { AllocKeeps(runs, n); }
    }

    lemma HeadIsZone(zi: nat)
      requires ListsOk(S()) && zi < NZONES && |zoneArray| == NZONES && zoneArray[zi] != []
      ensures zoneArray[zi][0] in zones
    {
      assert zoneArray[zi][0] in zoneArray[zi];
    }

    /** A chunk from the zone at the head of its list. */
    method FromZone(zi: nat, z: nat) returns (r: Address)
      requires zi < |zoneArray| && zoneArray[zi] != [] && z == zoneArray[zi][0] && z in zones
      modifies this`zones, this`zoneArray, this`usedMem, this`maxMem
      ensures (S(), r) == SlabSpec.FromZone(old(S()), zi, z) && r != Null
      ensures St() == Charged(old(St()), old(zones)[z].chunk)
    {
      var zn := zones[z];
      var k := 0;
      if zn.uindex + 1 != zn.nmax {
        zn := zn.(nfree := zn.nfree - 1, uindex := zn.uindex + 1);
        k := zn.uindex;
      } else if zn.freed != [] {
        k := zn.freed[0];
        zn := zn.(nfree := zn.nfree - 1, freed := zn.freed[1..]);
      }
      if zn.nfree == 0 {
        zoneArray := zoneArray[zi := zoneArray[zi][1..]];
      }
      zones := zones[z := zn];
      AddUsed(zn.chunk);
      return At(ChunkAt(z, zn, k));
    }

    method OpenZone(chunk: nat, zi: nat, z: nat) returns (r: Address)
      requires chunk > 0 && zi < |zoneArray|
      modifies this`zones, this`zoneArray, this`usedMem, this`maxMem
      ensures (S(), r) == SlabSpec.OpenZone(old(S()), Class(chunk, zi), z) && r != Null
      ensures St() == Charged(old(St()), chunk)
    {
      hide ChunkAt, Fill, LooksPow2, RoundUp;
      var off := if LooksPow2(chunk) then RoundUp(ZONE_HEADER, chunk) else 40;
      var nmax := Fill(zonePages * PAGE, off, chunk);
      var nfree: int := nmax;
      var zn := Zone(zi, chunk, off, nmax, 0, nfree - 1, []);
      zones := zones[z := zn];
      zoneArray := zoneArray[zi := [z] + zoneArray[zi]];
      AddUsed(chunk);
      return At(ChunkAt(z, zn, 0));
    }

    method MarkZone(z: nat)
      modifies this`memusage
      ensures memusage == MarkSmall(old(memusage), z, zonePages)
    {
      var off := 0;
      while off < zonePages
        invariant off <= zonePages && memusage == MarkSmall(old(memusage), z, off)
      {
        memusage := memusage[z + off := SmallPage(off)];
        off := off + 1;
      }
    }

    method UnmarkZone(z: nat)
      modifies this`memusage
      ensures memusage == MarkFree(old(memusage), z, zonePages)
    {
      var i := 0;
      while i < zonePages
        invariant i <= zonePages && memusage == MarkFree(old(memusage), z, i)
      {
        memusage := memusage[z + i := FreePage];
        i := i + 1;
      }
    }

    /** rt_free */
    method FreeBlock(q: Address)
      requires Valid() && Allowed(S(), FreeCall(q))
      modifies this, pages
      ensures Valid() && S() == SlabSpec.FreeBlock(old(S()), q)
      ensures St() == AfterFree(old(St()), old(S()), q)
    {
      hide SlabSpec.Inv, SlabSpec.FreeBlock, Allowed, HoldsChunk, PutBack, Retire, Canonical, Listed, Free, ChunkNumber;
      FreeServes(S(), rest, q);
      if q == Null {
        return;
      }
      Resolved(S(), rest, q);
      FreeIs(S(), q);
      var p := q.addr / PAGE;
      if memusage[p].LargePage? {
        FreeLarge(p, memusage[p].n);
      } else {
        FreeSmall(q, p, p - memusage[p].off);
      }
    }

    lemma FreeServes(s: Slab, whole: Run, q: Address)
      requires SlabSpec.Inv(s, whole) && Allowed(s, FreeCall(q))
      ensures SlabSpec.Inv(SlabSpec.FreeBlock(s, q), whole) && (q == Null ==> SlabSpec.FreeBlock(s, q) == s)
    {
      hide SlabSpec.Inv, Allowed, PutBack, Retire, Free;
      ServeKeeps(s, whole, FreeCall(q));
    }

    lemma FreeIs(s: Slab, q: Address)
      requires q != Null && q.addr / PAGE in s.kup
      ensures var p := q.addr / PAGE;
              && (s.kup[p].LargePage? ==>
                    SlabSpec.FreeBlock(s, q)
                      == s.(runs := Free(s.runs, p, s.kup[p].n), kup := s.kup[p := LargePage(0)],
                        large := s.large - {p}))
              && (s.kup[p].SmallPage? && s.kup[p].off <= p && p - s.kup[p].off in s.zones ==>
                    var z := p - s.kup[p].off;
                    SlabSpec.FreeBlock(s, q) == Retire(PutBack(s, z, ChunkNumber(z, s.zones[z], q.addr)), z))
    {
      hide PutBack, Retire, Free, ChunkNumber;
    }

    method FreeSmall(q: Address, p: nat, z: nat)
      requires Valid() && HoldsChunk(S(), q) && q != Null && p == q.addr / PAGE
      requires p in memusage && memusage[p].SmallPage? && z == p - memusage[p].off && z in zones
      modifies this`memusage, this`zones, this`zoneArray, this`zoneFree, this`usedMem, pages
      ensures maxMem == old(maxMem) && usedMem == old(usedMem) - old(zones)[z].chunk
      ensures pages.Valid() && S() == Retire(PutBack(old(S()), z, ChunkNumber(z, old(zones)[z], q.addr)), z)
    {
      hide SlabSpec.Inv, SlabSpec.PutBack, SlabSpec.Retire, ChunkNumber, Canonical, Listed, HoldsChunk, Distinct;
      RetireReady(S(), rest, q);
      var k := ChunkNumber(z, zones[z], q.addr);
      ChunkBack(z, k);
      Vacate(z);
    }

    method FreeLarge(p: nat, n: nat)
      requires pages.Valid() && n > 0 && forall x: nat :: Within(Run(p, n), x) ==> !Listed(pages.runs, x)
      modifies this`memusage, this`large, this`usedMem, pages
      ensures pages.Valid() && usedMem == old(usedMem) - n * PAGE
      ensures S() == old(S()).(runs := Free(old(S()).runs, p, n), kup := old(S()).kup[p := LargePage(0)],
              large := old(S()).large - {p})
    {
      hide Canonical, Listed, Free;
      memusage := memusage[p := LargePage(0)];
      large := large - {p};
      usedMem := usedMem - n * PAGE;
      pages.FreePages(p, n);
    }

    /** The chunk goes on its zone's free list; a zone that was full goes back on its class's list. */
    method ChunkBack(z: nat, k: nat)
      requires z in zones && |zoneArray| == NZONES
      modifies this`zones, this`zoneArray, this`usedMem
      ensures S() == PutBack(old(S()), z, k) && usedMem == old(usedMem) - old(zones)[z].chunk
    {
      var zn := zones[z];
      usedMem := usedMem - zn.chunk;
      if zn.nfree == 0 && zn.index < |zoneArray| {
        zoneArray := zoneArray[zn.index := [z] + zoneArray[zn.index]];
      }
      zones := zones[z := zn.(freed := [k] + zn.freed, nfree := zn.nfree + 1)];
    }

    /** A zone whose chunks are all free, and which is not alone on its list, leaves it; a third cached zone
        is given back to the page list. */
    method Vacate(z: nat)
      requires pages.Valid() && z in zones && |zoneArray| == NZONES && zones[z].index < NZONES && zonePages > 0
      requires z in zoneArray[zones[z].index] && Distinct(zoneArray[zones[z].index])
      requires forall x: nat :: Within(Run(z, zonePages), x) ==> !Listed(pages.runs, x)
      modifies this`memusage, this`zones, this`zoneArray, this`zoneFree, pages
      ensures pages.Valid() && S() == Retire(old(S()), z)
    {
      hide Canonical, Listed, Free, MarkFree;
      var zn := zones[z];
      var l := zoneArray[zn.index];
      if zn.nfree == zn.nmax && (|l| > 1 || l[0] != z) {
        TakeOff(zn.index, z);
        zones := zones - {z};
        zoneFree := [z] + zoneFree;
        if |zoneFree| > RELEASE_THRESHOLD {
          zoneFree := zoneFree[1..];
          UnmarkZone(z);
          pages.FreePages(z, zonePages);
        }
      }
    }

    /** The walk along a zone list to the link that leads to z. */
    method TakeOff(i: nat, z: nat)
      requires i < |zoneArray| && z in zoneArray[i] && Distinct(zoneArray[i])
      modifies this`zoneArray
      ensures zoneArray == old(zoneArray)[i := Without(old(zoneArray)[i], z)]
    {
      hide Without, Distinct;
      var l := zoneArray[i];
      var pz := 0;
      while l[pz] != z
        invariant pz < |l| && z !in l[..pz]
        decreases |l| - pz
      {
        assert l == l[..pz + 1] + l[pz + 1..];
        pz := pz + 1;
      }
      WithoutAt(l, pz);
      zoneArray := zoneArray[i := l[..pz] + l[pz + 1..]];
    }

    /** What giving a chunk back leaves for the check of its zone. */
    lemma RetireReady(s: Slab, whole: Run, q: Address)
      requires SlabSpec.Inv(s, whole) && q != Null && HoldsChunk(s, q)
      ensures var p := q.addr / PAGE;
              && p in s.kup && s.kup[p].SmallPage? && s.kup[p].off <= p && p - s.kup[p].off in s.zones
                && |s.lists| == NZONES
      ensures var p := q.addr / PAGE;
              var z := p - s.kup[p].off;
              var r := PutBack(s, z, ChunkNumber(z, s.zones[z], q.addr));
              && z in r.zones && r.zones[z].index < NZONES && r.runs == s.runs && |r.lists| == NZONES && s.zonePages > 0
              && z in r.lists[r.zones[z].index] && Distinct(r.lists[r.zones[z].index])
              && forall x: nat :: Within(Run(z, s.zonePages), x) ==> !Listed(s.runs, x)
    {
      hide SlabSpec.Inv, Live, ChunkAt, ChunkNumber, Listed, Distinct, ListsOk, Canonical, Owned, PagesOk;
      var z, k := ChunkHeld(s, q);
      PutBackKeeps(s, whole, z, k);
      PageMapLeadsBack(s, whole, z, k);
      InvParts(s, whole);
      ChunkPage(s, z, k);
      var r := PutBack(s, z, k);
      InvParts(r, whole);
      ZoneIndexOk(r, z);
      ListCount(r);
      ListCount(s);
      OnList(r, z);
      PagesCanonical(s, whole);
      ZoneOwned(s, z);
      forall x: nat | Within(Run(z, s.zonePages), x) ensures !Listed(s.runs, x) { OwnedApart(s, whole, z,
        s.zonePages, x); }
    }

    lemma InvParts(s: Slab, whole: Run)
      requires SlabSpec.Inv(s, whole)
      ensures ZonesOk(s) && ListsOk(s) && PagesOk(s, whole)
    {
    }

    lemma OnList(s: Slab, z: nat)
      requires ListsOk(s) && z in s.zones && s.zones[z].nfree > 0 && s.zones[z].index < NZONES
      ensures z in s.lists[s.zones[z].index] && Distinct(s.lists[s.zones[z].index])
    {
      hide Distinct;
    }

    /** A pointer a client holds is known to memusage: as a zone in use, or as a large block of its length. */
    lemma Resolved(s: Slab, whole: Run, q: Address)
      requires SlabSpec.Inv(s, whole) && Allowed(s, FreeCall(q)) && q != Null
      ensures var p := q.addr / PAGE;
              p in s.kup && match s.kup[p]
                            case FreePage => false
                            case SmallPage(off) => off <= p && p - off in s.zones && HoldsChunk(s, q)
                            case LargePage(n) => n > 0 && forall x: nat :: Within(Run(p, n), x) ==> !Listed(s.runs, x)
    {
      hide ZonesOk, ListsOk, PagesOk, Live, ChunkAt, Listed, Owned, Mapped;
      if HoldsChunk(s, q) {
        var z, k := ChunkHeld(s, q);
        PageMapLeadsBack(s, whole, z, k);
        ChunkPage(s, z, k);
      } else {
        var p :| p in s.large && q == At(p * PAGE);
        assert p * PAGE / PAGE == p;
        LargeOwned(s, whole, p);
        forall x: nat | Within(Run(p, s.large[p]), x) ensures !Listed(s.runs, x) { OwnedApart(s, whole, p,
          s.large[p], x); }
      }
    }
  }
}
