/** What a call of rt_malloc or rt_realloc takes and no more, when it answers NULL, and what max_mem says. */
module SmallMemExact {
  import opened Tiling
  import opened SmallMemSpec

  // ----- malloc

  /** Block c is cut from b for `need` bytes: it is all of b, or the front of it with the rest left as a free block. */
  ghost predicate CutFrom(h: Heap, b: Block, c: Block, need: nat) {
    && c.off == b.off && need <= Payload(c) < need + HDR + MIN_ALIGNED
    && (c.end == b.end || (Payload(c) == need && c.end < b.end && Block(c.end, b.end, false) in h.blocks))
  }

  lemma TakeCuts(h: Heap, k: nat, need: nat)
    requires k < |h.blocks| && Payload(h.blocks[k]) >= need
    ensures var r := Take(h, k, need);
            && k < |r.blocks| && CutFrom(r, h.blocks[k], r.blocks[k], need)
            && r.held == h.held + (r.blocks[k].end - r.blocks[k].off)
  {
    var b, bs := h.blocks[k], Take(h, k, need).blocks;
    if Payload(b) >= need + HDR + MIN_ALIGNED {
      assert bs[k + 1] == Block(b.off + HDR + need, b.end, false);
    }
    hide NextFree;
  }

  /** A granted block is cut from an unused one, with less than a minimum block and its header to spare; used_mem
      grows by its length, and max_mem only as far as used_mem now stands. */
  lemma MallocTakesJustEnough(h: Heap, n: Size) returns (b: Block, c: Block)
    requires h.Inv() && Malloc(h, n).1 != Null
    ensures var (h', r) := Malloc(h, n);
            && b in h.blocks && !b.used && h'.PayloadOf(c, r) && CutFrom(h', b, c, Granted(n)) && h'.size == h.size
            && h'.held == h.held + (c.end - c.off) && h'.peak == Max(h.peak, h'.held)
  {
    hide Malloc, Granted, Take, Heap.Inv, CutFrom, Heap.PayloadOf;
    var k := ServedFrom(h, n);
    var d := TakeGrants(h, k, Granted(n));
    TakeCuts(h, k, Granted(n));
    b, c := h.blocks[k], Take(h, k, Granted(n)).blocks[k];
    TakenBlock(h, k, Granted(n), d);
  }

  lemma ServedFrom(h: Heap, n: Size) returns (k: nat)
    requires h.Inv() && Malloc(h, n).1 != Null
    ensures k < |h.blocks| && !h.blocks[k].used && Payload(h.blocks[k]) >= Granted(n)
    ensures Malloc(h, n) == (Take(h, k, Granted(n)), At(h.blocks[k].off + HDR))
  {
    hide Take, Granted, AlignUp, Heap.Inv;
    k := FirstFit(h.blocks, h.lfree, Granted(n), h.size - Granted(n));
  }

  lemma TakenBlock(h: Heap, k: nat, need: nat, d: Block)
    requires h.Inv() && k < |h.blocks| && !h.blocks[k].used && d.off == h.blocks[k].off
    requires Live(Take(h, k, need).blocks, d)
    ensures var r := Take(h, k, need);
            && k < |r.blocks| && r.blocks[k].used && r.PayloadOf(r.blocks[k], At(h.blocks[k].off + HDR))
            && r.peak == Max(h.peak, r.held) && r.size == h.size
  {
    hide NextFree;
    var r := Take(h, k, need);
    assert r.blocks[k] in r.blocks;
  }

  /** malloc answers NULL, with nothing changed, exactly for no bytes at all, or when no unused block is large enough
      but perhaps one at the end of the heap that fits exactly. */
  lemma NullExactly(h: Heap, n: Size)
    requires h.Inv() && h.HintIsLowest()
    ensures Malloc(h, n).1 == Null <==>
              n == 0 || forall i :: 0 <= i < |h.blocks| && !h.blocks[i].used && Payload(h.blocks[i]) >= Granted(n)
                          ==> i == |h.blocks| - 1 && Payload(h.blocks[i]) == Granted(n)
    ensures Malloc(h, n).1 == Null ==> Malloc(h, n).0 == h
  {
    MallocFailureChangesNothing(h, n);
    if n != 0 {
      if AlignUp(n) <= h.size {
        MallocFailsExactly(h, n);
      } else {
        forall i | 0 <= i < |h.blocks| ensures Payload(h.blocks[i]) <= h.size { BlockInside(h, i); }
      }
    }
    hide Heap.Inv, Heap.HintIsLowest, AlignUp, FirstFit, Take;
  }

  lemma BlockInside(h: Heap, i: nat)
    requires h.Inv() && i < |h.blocks|
    ensures Payload(h.blocks[i]) <= h.size
  {
    assert i < |h.blocks| - 1 ==> h.blocks[i].end <= h.blocks[|h.blocks| - 1].off;
    hide Aligned, Coalesced, Held, Heap.FreeAt;
  }

  // ----- realloc

  /** realloc(NULL, n) is malloc(n), except that a size that wraps when aligned gets nothing. */
  lemma ReallocOfNull(h: Heap, n: Size)
    requires h.Inv()
    ensures Realloc(h, Null, n) == if n <= WORD - 8 then Malloc(h, n) else (h, Null)
  {
    hide Serve, Heap.Inv;
  }

  /** Pointers from outside the heap are refused: free does nothing, and realloc at most answers them back. */
  lemma StrangersChangeNothing(h: Heap, q: Ptr, n: Size)
    requires h.OutOfRange(q)
    ensures Free(h, q) == h && Realloc(h, q, n).0 == h
    ensures Realloc(h, q, n).1 == if AlignUp(n) <= h.size then q else Null
  {
    hide AlignUp;
  }

  /** A realloc that succeeds leaves the block where it is if it has the size, cuts it to exactly the size if it is much
      larger, and else moves it to a block with less than a minimum block and its header to spare. max_mem grows only
      by a move, while both blocks are in use. */
  lemma ReallocTakesJustEnough(h: Heap, b: Block, n: Size) returns (c: Block)
    requires h.Inv() && Live(h.blocks, b) && Realloc(h, At(b.off + HDR), n).1 != Null
    ensures var (h', r) := Realloc(h, At(b.off + HDR), n);
            var need := AlignUp(n);
            var larger := Payload(b) > need + HDR + MIN_SIZE;
            && h'.PayloadOf(c, r)
            && (Payload(b) == need ==> h' == h && c == b)
            && (larger ==> c == Block(b.off, b.off + HDR + need, true) && h'.peak == h.peak)
            && (Payload(b) != need && !larger ==>
                 c != b && Granted(need) <= Payload(c) < Granted(need) + HDR + MIN_ALIGNED
                 && h'.peak == Max(h.peak, h.held + (c.end - c.off)))
  {
    hide Tiles, Aligned, Coalesced, Held, AlignUp, Shrink, Malloc, Free, Realloc, Live, Heap.FreeAt;
    var i := LiveIndex(h.blocks, b);
    ReallocIsResize(h, i, n);
    var need := AlignUp(n);
    c := b;
    if Payload(b) != need {
      if Shrinks(b, need) {
        c := Block(b.off, b.off + HDR + need, true);
        ShrinkKeeps(h, i, need);
        ShrinkPeak(h, i, need);
      } else {
        var g := MallocGrants(h, need);
        var a;
        a, c := MallocTakesJustEnough(h, need);
        MallocKeeps(h, need);
        SamePayload(Malloc(h, need).0, g, c, Malloc(h, need).1);
        FreeKeeps(Malloc(h, need).0, b);
      }
    }
  }

  lemma SamePayload(h: Heap, a: Block, b: Block, q: Ptr)
    requires h.Inv() && h.PayloadOf(a, q) && h.PayloadOf(b, q)
    ensures a == b
  {
    var i := LiveIndex(h.blocks, a);
    OffsetsAreUnique(h.blocks, h.Top(), HDR, i, b);
    hide Aligned, Coalesced, Held, Heap.FreeAt;
  }

  lemma ShrinkPeak(h: Heap, i: nat, need: nat)
    requires Shrinkable(h, i, need)
    ensures Shrink(h, i, need).peak == h.peak
  {
    ShrinkIsPluggable(h, i, need);
    PlugKeeps(Cut(h, i, need), i + 1);
    hide Shrinkable, Pluggable, PlugHoles;
  }

  /** Reallocating a live block answers NULL, with nothing changed, exactly when the aligned size is more than the
      heap, or the block must move and malloc has no room. */
  lemma ReallocNullExactly(h: Heap, b: Block, n: Size)
    requires h.Inv() && Live(h.blocks, b)
    ensures var need := AlignUp(n);
            Realloc(h, At(b.off + HDR), n).1 == Null <==>
              need > h.size
              || (Payload(b) != need && Payload(b) <= need + HDR + MIN_SIZE && Malloc(h, need).1 == Null)
  {
    hide Tiles, Aligned, Coalesced, Held, AlignUp, Shrink, Malloc, Free, Realloc, Live, Heap.FreeAt;
    var i := LiveIndex(h.blocks, b);
    ReallocIsResize(h, i, n);
  }

  // ----- the statistics over runs

  /** The most that is in use at any moment of a call: a realloc that moves has both blocks for a while. */
  function Reaches(h: Heap, c: Call): int {
    match c
    case CallMalloc(n) => Malloc(h, n).0.held
    case CallFree(q) => h.held
    case CallRealloc(q, n) => if Moves(h, q, n) then Malloc(h, AlignUp(n)).0.held else h.held
  }

  predicate Moves(h: Heap, q: Ptr, n: Size) {
    AlignUp(n) <= h.size && (q.Null? || (q.addr >= HDR && !h.OutOfRange(q) &&
      var i := IndexOf(h.blocks, q.addr - HDR);
      i < |h.blocks| && Payload(h.blocks[i]) != AlignUp(n) && !Shrinks(h.blocks[i], AlignUp(n))))
  }

  function Highest(h: Heap, cs: seq<Call>): int
    decreases |cs|
  {
    if cs == [] then h.held else Max(Max(h.held, Reaches(h, cs[0])), Highest(Step(h, cs[0]), cs[1..]))
  }

  lemma MallocPeak(h: Heap, n: Size)
    requires h.Inv()
    ensures Malloc(h, n).0.peak == Max(h.peak, Malloc(h, n).0.held)
  {
    hide Tiles, Aligned, Coalesced, Held, AlignUp, Malloc, Heap.FreeAt;
    MallocFailureChangesNothing(h, n);
    if Malloc(h, n).1 != Null { var b, c := MallocTakesJustEnough(h, n); }
  }

  lemma StepPeak(h: Heap, c: Call)
    requires h.Inv() && Legal(h, c)
    ensures Step(h, c).peak == Max(h.peak, Reaches(h, c))
  {
    hide Tiles, Aligned, Coalesced, Held, AlignUp, Malloc, Shrink, Free, Resize, Heap.FreeAt;
    match c
    case CallMalloc(n) => MallocPeak(h, n);
    case CallFree(q) =>
      if q != Null {
        var b :| h.PayloadOf(b, q);
        FreeKeeps(h, b);
      } else {
        FreeOfNull(h);
      }
    case CallRealloc(q, n) =>
      MallocPeak(h, AlignUp(n));
      if q != Null {
        var b :| h.PayloadOf(b, q);
        ReallocPeak(h, b, n);
      }
  }

  lemma ReallocPeak(h: Heap, b: Block, n: Size)
    requires h.Inv() && Live(h.blocks, b)
    ensures Realloc(h, At(b.off + HDR), n).0.peak == Max(h.peak, Reaches(h, CallRealloc(At(b.off + HDR), n)))
  {
    hide Tiles, Aligned, Coalesced, Held, AlignUp, Shrink, Malloc, Free, Realloc, Live, Heap.FreeAt;
    var i := LiveIndex(h.blocks, b);
    var need := AlignUp(n);
    ReallocIsResize(h, i, n);
    BlockBelowTop(h, i);
    MallocPeak(h, need);
    if need <= h.size && Payload(b) != need {
      if Shrinks(b, need) {
        ShrinkPeak(h, i, need);
      } else if Malloc(h, need).1 != Null {
        var g := MallocGrants(h, need);
        MallocKeeps(h, need);
        FreeKeeps(Malloc(h, need).0, b);
      }
    }
  }

  /** max_mem is the most that was in use at any moment since initialisation. */
  lemma {:induction false} MaxMemIsHighest(h: Heap, cs: seq<Call>)
    requires h.Inv() && LegalRun(h, cs)
    ensures After(h, cs).peak == Max(h.peak, Highest(h, cs))
    decreases |cs|
  {
    hide Step, Legal, Reaches, Tiles, Aligned, Coalesced, Held, Heap.FreeAt;
    if cs != [] {
      StepPeak(h, cs[0]);
      StepKeeps(h, cs[0]);
      MaxMemIsHighest(Step(h, cs[0]), cs[1..]);
    }
  }
}
