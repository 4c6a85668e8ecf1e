/** When rt_malloc of the slab answers NULL, where it takes pages, and when an empty zone is given up. */
module SlabExact {
  import opened Lists
  import opened PageSpec
  import opened SizeClasses
  import opened SlabSpec
  import Tiling

  /** A zone other than `but` has a free chunk of the class. */
  ghost predicate OpenBut(s: Slab, index: int, but: set<nat>) {
    exists z :: z in s.zones && z !in but && s.zones[z].index == index && s.zones[z].nfree > 0
  }

  predicate HasRun(s: Slab, n: nat) { exists r :: r in s.runs && r.n >= n }

  lemma ListEmptyExactly(s: Slab, i: nat)
    requires ZonesOk(s) && ListsOk(s) && i < NZONES
    ensures s.lists[i] != [] <==> OpenBut(s, i, {})
  {
    if s.lists[i] != [] {
      HeadHasChunks(s, i);
    }
    if OpenBut(s, i, {}) {
      var z :| z in s.zones && s.zones[z].index == i && s.zones[z].nfree > 0;
      assert z in s.lists[i];
    }
    hide Distinct, ZoneOk;
  }

  lemma NoPagesExactly(s: Slab, n: nat)
    ensures Alloc(s.runs, n).1 == NoPage <==> n == 0 || !HasRun(s, n)
  {
    if n > 0 { AllocIsFirstFit(s.runs, n); }
    hide AllocFrom;
  }

  /** malloc answers NULL, with nothing changed, exactly for no bytes; for a large request when no run of free pages is
      long enough, or the size wraps when it is rounded up to pages; and for a small one when no zone of its class has a
      free chunk, no empty zone is cached, and no run of free pages holds a zone. */
  lemma MallocRefusesExactly(s: Slab, whole: Run, size: nat)
    requires SlabSpec.Inv(s, whole) && size < Tiling.WORD
    ensures |s.lists| == NZONES
    ensures Malloc(s, size).1 == Null <==>
              || size == 0
              || (size >= Limit(s.zonePages) && (size > Tiling.WORD - PAGE || !HasRun(s, PagesFor(size))))
              || (size < Limit(s.zonePages) && !OpenBut(s, ClassOf(size).index, {}) && s.empty == []
                  && !HasRun(s, s.zonePages))
    ensures Malloc(s, size).1 == Null ==> Malloc(s, size).0 == s
  {
    hide ZonesOk, ListsOk, MapOk, PageSpec.Inv, ClassOf, PagesFor, Alloc, HasRun, OpenBut, NextChunk, NewZone;
    hide WithPages, ChunkAt;
    ListCount(s);
    NoPagesExactly(s, PagesFor(size));
    NoPagesExactly(s, s.zonePages);
    PagesWrap(s.zonePages, size);
    if 0 < size < Limit(s.zonePages) {
      ClassBelowLimit(s.zonePages, size);
      var i: nat := ClassOf(size).index;
      ListEmptyExactly(s, i);
      if s.lists[i] != [] { HeadHasChunks(s, i); }
    }
  }

  lemma PagesWrap(zonePages: nat, size: nat)
    requires zonePages in {8, 16, 32} && size < Tiling.WORD
    ensures size >= Limit(zonePages) ==> (PagesFor(size) == 0 <==> size > Tiling.WORD - PAGE)
  {
  }

  /** A small request that is served takes pages exactly when no zone of its class has a free chunk and no empty zone is
      cached, and then those of one zone; an empty zone leaves the cache only for want of a free chunk. */
  lemma SmallTakesPagesExactly(s: Slab, whole: Run, n: nat)
    requires SlabSpec.Inv(s, whole) && 0 < n < Limit(s.zonePages)
    ensures |s.lists| == NZONES
    ensures var (r, q) := Malloc(s, n);
            q != Null ==>
              if OpenBut(s, ClassOf(n).index, {}) then
                r.runs == s.runs && r.empty == s.empty && r.zones.Keys == s.zones.Keys
              else if s.empty != [] then
                r.runs == s.runs && r.empty == s.empty[1..] && r.zones.Keys == s.zones.Keys + {s.empty[0]}
              else
                && r.runs == Alloc(s.runs, s.zonePages).0 && r.empty == []
                && Alloc(s.runs, s.zonePages).1.Page? && r.zones.Keys == s.zones.Keys + {Alloc(s.runs, s.zonePages).1.p}
  {
    hide ZonesOk, ListsOk, MapOk, PageSpec.Inv, ClassOf, PagesFor, AllocFrom, OpenBut, NewZone, NextChunk, ChunkAt,
      MarkSmall;
    ListCount(s);
    ClassBelowLimit(s.zonePages, n);
    var i: nat := ClassOf(n).index;
    ListEmptyExactly(s, i);
    if s.lists[i] != [] { HeadHasChunks(s, i); }
  }

  /** An idle zone is given up exactly when another zone of its class has a free chunk: it is cached if fewer than two
      are, and otherwise its pages go back. */
  lemma RetireExactly(s: Slab, whole: Run, z: nat)
    requires SlabSpec.Inv(s, whole) && z in s.zones && s.zones[z].nfree > 0
    ensures var r := Retire(s, z);
            if s.zones[z].nfree == s.zones[z].nmax && OpenBut(s, s.zones[z].index, {z}) then
              && r.zones == s.zones - {z}
              && (if |s.empty| < RELEASE_THRESHOLD then r.empty == [z] + s.empty && r.runs == s.runs
                  else r.empty == s.empty && r.runs == Free(s.runs, z, s.zonePages))
            else r == s
  {
    hide ZonesOk, MapOk, PageSpec.Inv, Owned, Free, MarkFree, OpenBut;
    ZoneIndexOk(s, z);
    ListCount(s);
    AloneExactly(s, z);
    hide ListsOk, Without;
  }

  lemma AloneExactly(s: Slab, z: nat)
    requires ListsOk(s) && z in s.zones && s.zones[z].index < NZONES && s.zones[z].nfree > 0
    ensures s.lists[s.zones[z].index] != [z] <==> OpenBut(s, s.zones[z].index, {z})
  {
    var i := s.zones[z].index;
    var l := s.lists[i];
    assert z in l;
    if OpenBut(s, i, {z}) {
      var y :| y in s.zones && y != z && s.zones[y].index == i && s.zones[y].nfree > 0;
      assert y in l;
    } else {
      forall y | y in l ensures y == z { assert y in s.lists[i] && y in s.zones; }
      OnlyOne(l, z);
    }
  }

  lemma OnlyOne(s: seq<nat>, x: nat)
    requires Distinct(s) && x in s && forall y :: y in s ==> y == x
    ensures s == [x]
  {
    assert |s| > 1 ==> s[0] != s[1];
    forall i | 0 <= i < |s| ensures s[i] == x { assert s[i] in s; }
  }
}
