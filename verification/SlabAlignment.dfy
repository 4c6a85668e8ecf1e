/** Where the slab allocator's answers lie: every chunk at a multiple of eight, and those of power-of-two size at a
    multiple of their size, up to a page always and from there on when their page is right. */
module SlabAlignment {
  import opened Bits
  import opened Lists
  import opened PageSpec
  import opened SizeClasses
  import opened SlabSpec
  import Tiling

  predicate MultipleOf(a: nat, k: nat) { a % Pow2(k) == 0 }

  /** Page z starts at a multiple of 2^k. */
  predicate PageAligned(z: nat, k: nat) { k <= 12 || z % Pow2(k - 12) == 0 }

  // ----- offsets and pages

  lemma {:induction false} OrPow2(k: nat)
    ensures Or(Pow2(k), Pow2(k) - 1) == 2 * Pow2(k) - 1
  {
    if k > 0 {
      OrPow2(k - 1);
      assert Pow2(k) / 2 == Pow2(k - 1) && (Pow2(k) - 1) / 2 == Pow2(k - 1) - 1;
    }
  }

  lemma {:induction false} FloorIsMultiple(v: nat, k: nat) returns (q: nat)
    ensures Floor(v, k) == q * Pow2(k)
  {
    if k == 0 {
      q := v;
    } else {
      q := FloorIsMultiple(v / 2, k - 1);
      assert 2 * (q * Pow2(k - 1)) == q * (2 * Pow2(k - 1));
    }
  }

  /** A power-of-two class starts its chunks at a multiple of the chunk size. */
  lemma BaseIsMultiple(k: nat) returns (q: nat)
    ensures BaseOffset(Pow2(k)) == q * Pow2(k)
  {
    hide Or, AndNot, Floor;
    OrPow2(k);
    MaskOff(ZONE_HEADER + Pow2(k) - 1, k);
    q := FloorIsMultiple(ZONE_HEADER + Pow2(k) - 1, k);
    hide Pow2;
  }

  lemma Pow2High()
    ensures Pow2(12) == 4096 && Pow2(13) == 8192
  {
    Masks();
    assert Pow2(11) == 2 * Pow2(10);
    assert Pow2(12) == 2 * Pow2(11);
  }

  lemma TwicePow2(k: nat)
    ensures Pow2(k + 1) == 2 * Pow2(k)
  {
  }

  lemma {:induction false} PageIsMultiple(k: nat)
    requires k <= 12
    ensures Pow2(12 - k) * Pow2(k) == PAGE
  {
    if k == 0 {
      Pow2High();
    } else {
      PageIsMultiple(k - 1);
      TwicePow2(12 - k);
      TwicePow2(k - 1);
      hide Pow2;
      assert 12 - (k - 1) == 12 - k + 1;
      Regroup(Pow2(12 - k), 2, Pow2(k - 1));
    }
  }

  lemma LiveBase(s: Slab, z: nat, k: nat)
    requires ZonesOk(s) && Live(s, z, k)
    ensures s.zones[z].chunk > 0 && s.zones[z].base == BaseOffset(s.zones[z].chunk) && s.zones[z].chunk % 8 == 0
  {
    hide ClassOf, Distinct, BaseOffset;
    var zn := s.zones[z];
    var m: nat :| 0 < m < Limit(s.zonePages) && ClassOf(m) == Class(zn.chunk, zn.index);
    ClassIsEight(m);
  }

  /** Clearing the bits of a mask that ends in 111 leaves a multiple of eight. */
  lemma ClearsThree(v: nat, m: nat)
    requires m % 8 == 7
    ensures AndNot(v, m) % 8 == 0
  {
    var k := m / 8;
    hide AndNot;
    DivUnique(m, 2, 4 * k + 3, 1);
    DivUnique(4 * k + 3, 2, 2 * k + 1, 1);
    DivUnique(2 * k + 1, 2, k, 1);
    ClearsLowest(v, m);
    ClearsLowest(v / 2, 4 * k + 3);
    ClearsLowest(v / 2 / 2, 2 * k + 1);
    EightTimes(AndNot(v / 2 / 2 / 2, k));
  }

  lemma ClearsLowest(v: nat, m: nat)
    requires m % 2 == 1
    ensures AndNot(v, m) == 2 * AndNot(v / 2, m / 2)
  {
    if v == 0 { AndNotAbove(v, m / 2); }
  }

  lemma BaseIsEight(size: nat)
    requires size > 0 && size % 8 == 0
    ensures BaseOffset(size) % 8 == 0
  {
    hide LooksPow2, AndNot;
    ClearsThree(ZONE_HEADER + size - 1, size - 1);
  }

  lemma SumOfEights(z: nat, b: nat, k: nat, c: nat)
    requires b % 8 == 0 && c % 8 == 0
    ensures (z * PAGE + b + k * c) % 8 == 0
  {
    assert k * c == 8 * (k * (c / 8)) by { assert c == 8 * (c / 8); }
    EightTimes(512 * z + b / 8 + k * (c / 8));
  }

  /** Every chunk a client holds is 8-byte aligned. */
  lemma ChunksAreAligned(s: Slab, whole: Run, z: nat, k: nat)
    requires SlabSpec.Inv(s, whole) && Live(s, z, k)
    ensures ChunkAt(z, s.zones[z], k) % 8 == 0
  {
    hide ZoneOk, ListsOk, PagesOk, MapOk, BaseOffset;
    LiveBase(s, z, k);
    var zn := s.zones[z];
    BaseIsEight(zn.chunk);
    SumOfEights(z, zn.base, k, zn.chunk);
  }

  // ----- sizes of a power of two

  lemma TimesSplit(a: nat, m: nat, p: nat)
    requires m > 0
    ensures a * p == a / m * (p * m) + a % m * p && a % m < m
  {
    var q, r := a / m, a % m;
    assert a == q * m + r;
    Distribute(q * m, r, p);
    Regroup(q, m, p);
  }

  lemma LessTimes(r: nat, m: nat, p: nat)
    requires r < m && p > 0
    ensures r * p < p * m
  {
    Distribute(r, m - r, p);
    AtLeastOne(m - r, p);
  }

  /** z pages of p bytes and c units of m pages: a whole number of units exactly if the pages are. */
  lemma UnitsExactly(z: nat, c: nat, p: nat, m: nat)
    requires p > 0 && m > 0
    ensures p * m > 0 && ((z * p + c * (p * m)) % (p * m) == 0 <==> z % m == 0)
  {
    var q, r := z / m, z % m;
    TimesSplit(z, m, p);
    LessTimes(r, m, p);
    Distribute(q, c, p * m);
    DivUnique(z * p + c * (p * m), p * m, q + c, r * p);
    if r > 0 { AtLeastOne(r, p); }
  }

  lemma {:induction false} Pow2Splits(k: nat)
    requires k >= 12
    ensures Pow2(k) == PAGE * Pow2(k - 12)
  {
    if k == 12 {
      Pow2High();
    } else {
      Pow2Splits(k - 1);
      TwicePow2(k - 1);
      TwicePow2(k - 13);
      hide Pow2;
    }
  }

  /** A whole number of units of 2^k bytes behind the start of page z. */
  lemma UnitAlignedExactly(z: nat, c: nat, k: nat)
    ensures MultipleOf(z * PAGE + c * Pow2(k), k) <==> PageAligned(z, k)
  {
    if k <= 12 {
      PageIsMultiple(k);
      ShortUnits(z, c, Pow2(12 - k), Pow2(k));
    } else {
      Pow2Splits(k);
      UnitsExactly(z, c, PAGE, Pow2(k - 12));
    }
    hide Pow2;
  }

  lemma ShortUnits(z: nat, c: nat, n: nat, m: nat)
    requires m > 0
    ensures (z * (n * m) + c * m) % m == 0
  {
    Regroup(z, n, m);
    Distribute(z * n, c, m);
    DivUnique(z * (n * m) + c * m, m, z * n + c, 0);
  }

  lemma ChunkUnits(z: nat, zn: Zone, j: nat, k: nat)
    requires zn.chunk == Pow2(k) && zn.base == BaseOffset(Pow2(k))
    ensures MultipleOf(ChunkAt(z, zn, j), k) <==> PageAligned(z, k)
  {
    hide Pow2, BaseOffset, PageAligned, MultipleOf;
    var b := BaseIsMultiple(k);
    Distribute(b, j, Pow2(k));
    UnitAlignedExactly(z, b + j, k);
  }

  /** A held chunk whose size is a power of two is aligned to it exactly when its zone's first page is; up to a
      page of size that is always so. */
  lemma ChunkAlignedExactly(s: Slab, whole: Run, z: nat, j: nat, k: nat)
    requires SlabSpec.Inv(s, whole) && Live(s, z, j) && s.zones[z].chunk == Pow2(k)
    ensures MultipleOf(ChunkAt(z, s.zones[z], j), k) <==> PageAligned(z, k)
  {
    hide BaseOffset, Pow2, ZoneOk, ListsOk, PagesOk, MapOk, MultipleOf, PageAligned, ChunkAt;
    LiveBase(s, z, j);
    ChunkUnits(z, s.zones[z], j, k);
  }

  /** So is a large block of a power-of-two number of bytes, with its own first page. */
  lemma LargeAlignedExactly(s: Slab, whole: Run, p: nat, k: nat)
    requires SlabSpec.Inv(s, whole) && p in s.large && s.large[p] * PAGE == Pow2(k)
    ensures MultipleOf(p * PAGE, k) <==> PageAligned(p, k)
  {
    hide SlabSpec.Inv, Pow2, MultipleOf, PageAligned;
    UnitAlignedExactly(p, 0, k);
  }

  // ----- what a request of a power of two gets

  /** The first page of what a request will be served from, as the allocator stands before the call. */
  function Source(s: Slab, size: nat): nat
    requires |s.lists| == NZONES
  {
    var i := ClassOf(size).index;
    if size >= Limit(s.zonePages) then PageOr0(Alloc(s.runs, PagesFor(size)).1)
    else if 0 <= i < NZONES && s.lists[i] != [] then s.lists[i][0]
    else if s.empty != [] then s.empty[0]
    else PageOr0(Alloc(s.runs, s.zonePages).1)
  }

  function PageOr0(q: PagePtr): nat { if q.Page? then q.p else 0 }

  lemma ClassOfPow2(k: nat)
    requires Pow2(k) < ZALLOC_ZONE_LIMIT
    ensures k < 14 && ClassOf(Pow2(k)).chunk == Pow2(if k < 3 then 3 else k)
  {
    Masks();
    Pow2High();
    TwicePow2(13);
    if k >= 14 { Pow2Grows(14, k); }
    assert Pow2(11) == 2 * Pow2(10);
    assert Pow2(0) == 1 && Pow2(1) == 2 && Pow2(2) == 4;
  }

  /** A zone serves a request with a chunk of the request's class, laid out as zones are. */
  lemma ChunkServed(s: Slab, whole: Run, n: nat) returns (zn: Zone, j: nat)
    requires SlabSpec.Inv(s, whole) && 0 < n < Limit(s.zonePages)
    requires ClassOf(n).chunk > 0 && 0 <= ClassOf(n).index < NZONES && |s.lists| == NZONES
    requires MallocSmall(s, ClassOf(n)).1 != Null
    ensures MallocSmall(s, ClassOf(n)).1 == At(ChunkAt(Source(s, n), zn, j))
    ensures zn.chunk == ClassOf(n).chunk && zn.base == BaseOffset(zn.chunk)
  {
    hide ClassOf, ChunkAt, NextChunk, AllocFrom, PagesOk, MapOk, ListsOk, Fill, BaseOffset;
    var c := ClassOf(n);
    if s.lists[c.index] != [] {
      var z := s.lists[c.index][0];
      HeadZone(s, whole, n);
      zn, j := NextChunk(s.zones[z]).0, NextChunk(s.zones[z]).1;
    } else {
      zn, j := NewZone(s.zonePages, c), 0;
    }
    hide ZoneOk, ZonesOk;
  }

  lemma HeadZone(s: Slab, whole: Run, n: nat)
    requires SlabSpec.Inv(s, whole) && 0 < n < Limit(s.zonePages)
    requires 0 <= ClassOf(n).index < NZONES && |s.lists| == NZONES && s.lists[ClassOf(n).index] != []
    ensures var z := s.lists[ClassOf(n).index][0];
            && z in s.zones
            && var zn := NextChunk(s.zones[z]).0; zn.chunk == ClassOf(n).chunk && zn.base == BaseOffset(zn.chunk)
  {
    var i: nat := ClassOf(n).index;
    HeadHasChunks(s, i);
    var z := s.lists[i][0];
    LimitBelow(s.zonePages);
    hide ClassOf, Distinct, BaseOffset, NextChunk, ZonesOk, ListsOk, PagesOk, MapOk;
    SameIndexSameChunk(s.zonePages, s.zones[z], n);
    NextChunkKeeps(s.zonePages, s.zones[z]);
  }

  lemma Pow2Multiple(a: nat, k: nat, l: nat)
    requires k <= l && MultipleOf(a, l)
    ensures MultipleOf(a, k)
    decreases l
  {
    if k < l {
      TwicePow2(l - 1);
      var q := a / Pow2(l);
      assert a == q * Pow2(l) == 2 * q * Pow2(l - 1);
      DivUnique(a, Pow2(l - 1), 2 * q, 0);
      Pow2Multiple(a, k, l - 1);
    }
  }

  /** A request of 2^k bytes that is granted gets an address that is a multiple of 2^k if and only if 2^k is at most
      a page, or the page it is about to be served from is a multiple of 2^k / 4096. */
  lemma MallocAlignedExactly(s: Slab, whole: Run, k: nat)
    requires SlabSpec.Inv(s, whole) && Pow2(k) < Tiling.WORD
    ensures |s.lists| == NZONES
    ensures var q := Malloc(s, Pow2(k)).1;
            q != Null ==> (MultipleOf(q.addr, k) <==> PageAligned(Source(s, Pow2(k)), k))
  {
    hide SlabSpec.Inv, Pow2, MallocSmall, AllocFrom, PagesFor, ClassOf, MultipleOf, PageAligned, ChunkAt, Source;
    ListsCount(s, whole);
    var n := Pow2(k);
    if Malloc(s, n).1 != Null {
      if n >= Limit(s.zonePages) {
        LargeSource(s, n);
        UnitAlignedExactly(Source(s, n), 0, k);
      } else {
        SmallAligned(s, whole, k);
      }
    }
  }

  lemma ListsCount(s: Slab, whole: Run)
    requires SlabSpec.Inv(s, whole)
    ensures |s.lists| == NZONES
  {
  }

  lemma LargeSource(s: Slab, n: nat)
    requires |s.lists| == NZONES && n >= Limit(s.zonePages) && MallocLarge(s, n).1 != Null
    ensures MallocLarge(s, n).1 == At(Source(s, n) * PAGE)
  {
    hide AllocFrom, PagesFor, ClassOf;
  }

  lemma SmallAligned(s: Slab, whole: Run, k: nat)
    requires SlabSpec.Inv(s, whole) && Pow2(k) < Limit(s.zonePages) && |s.lists| == NZONES
    requires Malloc(s, Pow2(k)).1 != Null
    ensures MultipleOf(Malloc(s, Pow2(k)).1.addr, k) <==> PageAligned(Source(s, Pow2(k)), k)
  {
    hide Pow2, MallocSmall, ClassOf, MultipleOf, ChunkAt, Source, ZonesOk, ListsOk, MapOk, PageSpec.Inv, BaseOffset;
    var n := Pow2(k);
    LimitBelow(s.zonePages);
    ClassOfPow2(k);
    ClassBelowLimit(s.zonePages, n);
    var zn, j := ChunkServed(s, whole, n);
    var l := if k < 3 then 3 else k;
    ChunkUnits(Source(s, n), zn, j, l);
    if k < 3 { Pow2Multiple(ChunkAt(Source(s, n), zn, j), k, 3); }
  }

  // ----- the promise fails

  /** With 8-page zones, as in every heap up to 64 MB, malloc(8192) takes whole pages, the first ones listed: on an odd
      page its answer is not a multiple of 8192. */
  lemma OddPagesAnswer(rest: Run)
    requires rest.at % 2 == 1 && rest.n >= 2
    ensures |Fresh(8, rest).lists| == NZONES
    ensures var (s, q) := Malloc(Fresh(8, rest), 8192);
            && SlabSpec.Inv(s, rest) && rest.at in s.large && s.large[rest.at] == 2
            && q == At(rest.at * 4096) && q.addr % 8192 == 4096
  {
    hide SlabSpec.Inv;
    FreshKeeps(8, rest);
    MallocKeeps(Fresh(8, rest), rest, 8192);
    assert PagesFor(8192) == 2;
    assert Alloc([rest], 2).1 == Page(rest.at);
    OddMultiple(rest.at / 2);
  }

  lemma OddMultiple(h: nat)
    ensures (2 * h + 1) * 4096 % 8192 == 4096
  {
    DivUnique((2 * h + 1) * 4096, 8192, h, 4096);
  }

  /** With 16-page zones malloc(8192) takes a chunk, and the same holds of it. */
  lemma OddZoneAnswers(rest: Run)
    requires rest.at % 2 == 1 && rest.n >= 16
    ensures |Fresh(16, rest).lists| == NZONES
    ensures var (s, q) := Malloc(Fresh(16, rest), 8192);
            && SlabSpec.Inv(s, rest) && Live(s, rest.at, 0) && s.zones[rest.at].chunk == 8192
            && q == At(ChunkAt(rest.at, s.zones[rest.at], 0)) && !MultipleOf(q.addr, 13)
  {
    FreshKeeps(16, rest);
    FreshServes(16, rest, 8192, Class(8192, 63));
    Pow2High();
    MallocAlignedExactly(Fresh(16, rest), rest, 13);
    assert Pow2(1) == 2;
    hide SlabSpec.Inv, Malloc, MultipleOf, ChunkAt, Live, Fresh;
  }

  /** An even page is not enough for the chunks of 16384 bytes that serve the largest small requests. */
  lemma EvenZoneAnswers(rest: Run)
    requires rest.at % 4 == 2 && rest.n >= 16
    ensures |Fresh(16, rest).lists| == NZONES
    ensures var (s, q) := Malloc(Fresh(16, rest), 16000);
            && SlabSpec.Inv(s, rest) && Live(s, rest.at, 0) && s.zones[rest.at].chunk == 16384
            && q == At(ChunkAt(rest.at, s.zones[rest.at], 0)) && !MultipleOf(q.addr, 14)
  {
    FreshServes(16, rest, 16000, Class(16384, 71));
    Pow2High();
    TwicePow2(13);
    var s := Malloc(Fresh(16, rest), 16000).0;
    ChunkAlignedExactly(s, rest, rest.at, 0, 14);
    assert Pow2(2) == 4;
    hide SlabSpec.Inv, Malloc, MultipleOf, ChunkAt, Live, Fresh;
  }

  /** The first request of a class opens a zone on the first pages listed and gets its first chunk. */
  lemma FreshServes(zonePages: nat, rest: Run, n: nat, c: Class)
    requires zonePages in {8, 16, 32} && rest.n >= zonePages && 0 < n < Limit(zonePages) && ClassOf(n) == c
    requires c.chunk > 0 && 0 <= c.index < NZONES
    ensures |Fresh(zonePages, rest).lists| == NZONES
    ensures var (s, q) := Malloc(Fresh(zonePages, rest), n);
            && SlabSpec.Inv(s, rest) && Live(s, rest.at, 0) && s.zones[rest.at].chunk == c.chunk
            && q == At(ChunkAt(rest.at, s.zones[rest.at], 0)) && Source(Fresh(zonePages, rest), n) == rest.at
  {
    hide SlabSpec.Inv, MarkSmall, BaseOffset, Fill, ClassOf, ChunkAt;
    var f := Fresh(zonePages, rest);
    assert f.runs == [rest] && f.lists == seq(NZONES, _ => []);
    FreshKeeps(zonePages, rest);
    LimitBelow(zonePages);
    MallocKeeps(f, rest, n);
    assert Alloc(f.runs, zonePages).1 == Page(rest.at);
  }
}
