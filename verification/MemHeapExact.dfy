/** What a call of rt_memheap_alloc or rt_memheap_realloc takes and no more, from which block, when it answers NULL, and
    where the unused blocks stand in the free list afterwards. */
module MemHeapExact {
  import opened Lists
  import opened Tiling
  import opened MemHeapSpec

  // ----- alloc

  /** Block c is cut from b for `need` bytes: it is all of b, or the front of it with the rest left as a free block. */
  ghost predicate CutFrom(h: Heap, b: Block, c: Block, need: nat) {
    && c.off == b.off && need <= Payload(c) < need + HDR + MIN_ALLOC
    && (c.end == b.end || (Payload(c) == need && c.end < b.end && Block(c.end, b.end, false) in h.blocks))
  }

  lemma TakeCuts(h: Heap, i: nat, need: nat)
    requires i < |h.blocks| && Payload(h.blocks[i]) >= need
    ensures var r, b := Take(h, i, need), h.blocks[i];
            && i < |r.blocks| && r.blocks[i].off == b.off
            && CutFrom(r, b, r.blocks[i], need) && r.peak == Max(h.peak, h.size - r.avail)
            && r.free == (if r.blocks[i].end < b.end then [r.blocks[i].end] else []) + Without(h.free, b.off)
  {
    var b := h.blocks[i];
    if Splits(b, need) {
      SplitParts(h.blocks, i, b.off + HDR + need);
    } else {
      FlagPart(h.blocks, i);
      assert [] + Without(h.free, b.off) == Without(h.free, b.off);
    }
    hide Without, Split, Flag;
  }

  lemma SplitParts(bs: seq<Block>, i: nat, mid: nat)
    requires i < |bs|
    ensures var s := Split(bs, i, mid, true, false);
            i < |s| && s[i] == Block(bs[i].off, mid, true) && Block(mid, bs[i].end, false) in s
  {
    assert Split(bs, i, mid, true, false)[i + 1] == Block(mid, bs[i].end, false);
  }

  lemma FlagPart(bs: seq<Block>, i: nat)
    requires i < |bs|
    ensures |Flag(bs, i, true)| == |bs| && Flag(bs, i, true)[i] == bs[i].(used := true)
  {
  }

  lemma ServedFrom(h: Heap, n: Size) returns (k: nat, i: nat)
    requires Inv(h) && Alloc(h, n).1 != Null
    ensures k < |h.free| && i < |h.blocks| && !h.blocks[i].used && h.blocks[i].off == h.free[k]
    ensures Payload(h.blocks[i]) >= Granted(n) && forall j :: 0 <= j < k ==> !FitsAt(h.blocks, h.free[j], Granted(n))
    ensures Alloc(h, n) == (Take(h, i, Granted(n)), At(h.blocks[i].off + HDR))
  {
    k := FirstFit(h.blocks, h.free, Granted(n));
    ListedIsFree(h, h.free[k]);
    i := IndexOf(h.blocks, h.free[k]);
    hide Inv, Take, Granted;
  }

  /** A granted block is cut from the first one of the free list that is large enough, with less than a minimum block
      and its header to spare; the rest becomes the first free block, and the others keep their order. max_used_size
      grows only as far as the pool is now in use. */
  lemma AllocTakesJustEnough(h: Heap, n: Size) returns (k: nat, b: Block, c: Block)
    requires Inv(h) && Alloc(h, n).1 != Null
    ensures var (h', r) := Alloc(h, n);
            && k < |h.free| && b in h.blocks && !b.used && b.off == h.free[k]
            && (forall j :: 0 <= j < k ==> !FitsAt(h.blocks, h.free[j], Granted(n)))
            && r == At(c.off + HDR) && Owned(h', c) && CutFrom(h', b, c, Granted(n))
            && h'.free == (if c.end < b.end then [c.end] else []) + Without(h.free, b.off)
            && h'.peak == Max(h.peak, h.size - h'.avail)
  {
    hide Inv, Alloc, Take, Granted, CutFrom, FitsAt;
    var d := AllocGrants(h, n);
    var i;
    k, i := ServedFrom(h, n);
    TakeCuts(h, i, Granted(n));
    b, c := h.blocks[i], Take(h, i, Granted(n)).blocks[i];
    AllocKeeps(h, n);
    SameBlock(Alloc(h, n).0, d, i);
  }

  lemma SameBlock(h: Heap, d: Block, i: nat)
    requires Inv(h) && Owned(h, d) && i < |h.blocks| && h.blocks[i].off == d.off
    ensures h.blocks[i] == d
  {
    OffsetsAreUnique(h.blocks, h.size, HDR, i, d);
    hide Quads, HasTail, Coalesced, FreeList, Counted, Roomy;
  }

  // ----- free

  /** The block freed becomes the first free one, unless the block before it is free too and takes it in where that
      stands; a free block behind it leaves the list; all others keep their order. */
  lemma FreedGoesFirst(h: Heap, b: Block) returns (i: nat)
    requires Inv(h) && Owned(h, b)
    ensures i < |h.blocks| - 1 && h.blocks[i] == b
    ensures var r := Free(h, At(b.off + HDR));
            r.free == (if LeftFree(h.blocks, i) then [] else [b.off])
                    + (if RightFree(h.blocks, i) then Without(h.free, b.end) else h.free)
  {
    i := OwnedAt(h, b);
    FreeIsRelease(h, i);
    TilesHere(h, i);
    ReleaseList(h, i);
    hide Inv, Release, Free;
  }

  lemma ReleaseList(h: Heap, i: nat)
    requires i + 1 < |h.blocks| && h.blocks[i].end == h.blocks[i + 1].off
    ensures Release(h, i).free == (if LeftFree(h.blocks, i) then [] else [h.blocks[i].off])
                                + (if RightFree(h.blocks, i) then Without(h.free, h.blocks[i].end) else h.free)
  {
    var u := Unmark(h, i);
    if LeftFree(h.blocks, i) {
      var m := Fuse(u, i - 1);
      assert m.blocks[i] == h.blocks[i + 1];
      assert [] + h.free == h.free && [] + Without(h.free, h.blocks[i].end) == Without(h.free, h.blocks[i].end);
    } else {
      assert u.blocks[i + 1] == h.blocks[i + 1];
    }
    hide Without;
  }

  // ----- realloc

  /** realloc to no bytes is free, and of NULL it is alloc, with one difference: a size that alloc would raise to 12 is
      raised before it is aligned again, and gets 16. */
  lemma ReallocEdges(h: Heap, q: Ptr, n: Size)
    ensures Realloc(h, q, 0) == (Free(h, q), Null)
    ensures n > 0 ==> Realloc(h, Null, n) == if 8 < n <= WORD - 8 then Alloc(h, n) else Alloc(h, MIN_ALLOC)
    ensures Granted(Granted(n)) == Granted(n) <==> 8 < n <= WORD - 8
    ensures 8 < n <= WORD - 8 || (Granted(n) == MIN_ALLOC && Granted(Granted(n)) == 16)
  {
    GrantedIs(n);
    SameGrant(h, n, Granted(n));
    hide Alloc, Free, Granted;
  }

  lemma GrantedIs(n: Size)
    ensures Granted(n) < WORD && (8 < n <= WORD - 8 ==> Granted(n) == AlignUp(n) == Granted(Granted(n)))
    ensures !(8 < n <= WORD - 8) ==> Granted(n) == MIN_ALLOC && Granted(Granted(n)) == 16
  {
  }

  lemma SameGrant(h: Heap, n: Size, m: Size)
    ensures Granted(n) == Granted(m) ==> Alloc(h, n) == Alloc(h, m)
  {
    hide Granted, Take, FirstFit, IndexOf;
  }

  /** So realloc to no bytes takes exactly the block from its holder. */
  lemma ReallocToNothing(h: Heap, b: Block)
    requires Inv(h) && Owned(h, b)
    ensures var (r, q) := Realloc(h, At(b.off + HDR), 0);
            && q == Null && Inv(r) && forall x :: Live(r.blocks, x) <==> Live(h.blocks, x) && x != b
  {
    ReallocEdges(h, At(b.off + HDR), 0);
    FreeKeeps(h, b);
    hide Realloc, Free, Inv, Live;
  }

  /** A realloc that is served: a block too small grows in place to exactly the size if the next is unused and has room,
      and is moved otherwise; one much too large is cut to exactly the size; any other stays, and nothing changes. */
  lemma ReallocTakesJustEnough(h: Heap, b: Block, n: Size) returns (i: nat, c: Block)
    requires Inv(h) && Owned(h, b) && n > 0 && !Overruns(h, At(b.off + HDR), n)
    requires Realloc(h, At(b.off + HDR), n).1 != Null
    ensures i < |h.blocks| - 1 && h.blocks[i] == b
    ensures var (h', r) := Realloc(h, At(b.off + HDR), n);
            var need, next := Granted(n), h.blocks[i + 1];
            && r == At(c.off + HDR) && Owned(h', c)
            && (if need > Payload(b) && (next.used || Payload(b) + Payload(next) <= need + MIN_ALLOC) then
                  c.off != b.off && need <= Payload(c) < need + HDR + MIN_ALLOC
                else if need > Payload(b) || Payload(b) > need + HDR + MIN_ALLOC then
                  c == Block(b.off, b.off + HDR + need, true)
                else c == b && h' == h)
  {
    i := OwnedAt(h, b);
    GrantedSize(n);
    var need := Granted(n);
    ReallocIsResize(h, b, n, i);
    NoOverrun(h, b, n, i);
    GrantedIs(n);
    c := ResizeTakes(h, i, need);
    RoomIs(h.blocks, i, need);
    hide Inv, Realloc, Granted, Resize, Overruns, Owned;
  }

  lemma RoomIs(bs: seq<Block>, i: nat, need: nat)
    requires i + 1 < |bs|
    ensures HasRoom(bs, i, need) <==> !bs[i + 1].used && Payload(bs[i]) + Payload(bs[i + 1]) > need + MIN_ALLOC
    ensures CanShrink(bs[i], need) <==> Payload(bs[i]) > need + HDR + MIN_ALLOC
  {
  }

  lemma NoOverrun(h: Heap, b: Block, n: Size, i: nat)
    requires n > 0 && !Overruns(h, At(b.off + HDR), n) && i == IndexOf(h.blocks, b.off) && i < |h.blocks|
    ensures !(Granted(n) + MIN_ALLOC >= WORD && RightFree(h.blocks, i))
  {
    hide Granted;
  }

  lemma ResizeTakes(h: Heap, i: nat, need: Size) returns (c: Block)
    requires Inv(h) && i < |h.blocks| - 1 && h.blocks[i].used && need % 4 == 0 && MIN_ALLOC <= need <= WORD - 8
    requires !(need + MIN_ALLOC >= WORD && RightFree(h.blocks, i)) && Resize(h, i, need).1 != Null
    requires need > MIN_ALLOC ==> Granted(need) == need
    ensures var (h', r) := Resize(h, i, need); var b := h.blocks[i];
            && r == At(c.off + HDR) && Owned(h', c)
            && (if need > Payload(b) && !HasRoom(h.blocks, i, need) then
                  c.off != b.off && need <= Payload(c) < need + HDR + MIN_ALLOC
                else if need > Payload(b) || CanShrink(b, need) then c == Block(b.off, b.off + HDR + need, true)
                else c == b && h' == h)
  {
    hide Inv, Resize, Alloc, Free, Grow, Stretch, Shrink, Granted, Owned, Live, CanGrow, HasRoom, CanShrink;
    var b := h.blocks[i];
    HeldByClient(h, i);
    PayloadIsRoomy(h, i);
    if need > Payload(b) {
      RoomTest(h, i, need);
      if HasRoom(h.blocks, i, need) {
        c := Block(b.off, b.off + HDR + need, true);
        StretchIsGrow(h, i, need);
        GrowResizes(h, i, need);
        ResizeGrows(h, i, need);
        InResized(h, b, need, Grow(h, i, need), c);
      } else {
        ResizeMoves(h, i, need);
        c := MoveTakes(h, b, need);
      }
    } else if CanShrink(b, need) {
      c := Block(b.off, b.off + HDR + need, true);
      ShrinkResizes(h, i, need);
      ResizeShrinks(h, i, need);
      InResized(h, b, need, Shrink(h, i, need), c);
    } else {
      c := b;
      ResizeStays(h, i, need);
    }
  }

  lemma InResized(h: Heap, b: Block, need: nat, h': Heap, c: Block)
    requires Resized(h, b, need, h', At(b.off + HDR), c) && c.off == b.off
    ensures Owned(h', c)
  {
    hide Inv, Owned, Live;
  }

  lemma PayloadIsRoomy(h: Heap, i: nat)
    requires Inv(h) && i < |h.blocks| - 1 && h.blocks[i].used
    ensures Payload(h.blocks[i]) >= MIN_ALLOC
  {
    hide Layout, Coalesced, FreeList, Counted;
  }

  lemma RoomTest(h: Heap, i: nat, need: nat)
    requires Inv(h) && i < |h.blocks| - 1 && need <= WORD - 8
    requires !(need + MIN_ALLOC >= WORD && RightFree(h.blocks, i))
    ensures CanGrow(h.blocks, i, need) <==> HasRoom(h.blocks, i, need)
  {
    if RightFree(h.blocks, i) { GrowTest(h, i, need); }
    hide Layout, Coalesced, FreeList, Counted, Roomy;
  }

  lemma MoveTakes(h: Heap, b: Block, need: Size) returns (c: Block)
    requires Inv(h) && Owned(h, b) && Granted(need) == need && Alloc(h, need).1 != Null
    ensures var h' := Free(Alloc(h, need).0, At(b.off + HDR));
            && Alloc(h, need).1 == At(c.off + HDR) && Owned(h', c)
            && c.off != b.off && need <= Payload(c) < need + HDR + MIN_ALLOC
  {
    hide Inv, Alloc, Free, Granted, FitsAt;
    var k, a;
    k, a, c := AllocTakesJustEnough(h, need);
    var d := AllocGrants(h, need);
    AllocKeeps(h, need);
    FreeKeeps(Alloc(h, need).0, b);
    Elsewhere(h, a, b);
  }

  lemma Elsewhere(h: Heap, a: Block, b: Block)
    requires Inv(h) && a in h.blocks && b in h.blocks && a.used != b.used
    ensures a.off != b.off
  {
    var i :| 0 <= i < |h.blocks| && h.blocks[i] == a;
    if a.off == b.off { OffsetsAreUnique(h.blocks, h.size, HDR, i, b); }
    hide Quads, HasTail, Coalesced, FreeList, Counted, Roomy;
  }

  /** Of a held block and a size that is not zero, realloc answers NULL, with nothing changed, exactly when the block is
      too small, the next has no room for it, and alloc refuses. */
  lemma ReallocNullExactly(h: Heap, b: Block, n: Size) returns (i: nat)
    requires Inv(h) && Owned(h, b) && n > 0 && !Overruns(h, At(b.off + HDR), n)
    ensures i < |h.blocks| - 1 && h.blocks[i] == b
    ensures Realloc(h, At(b.off + HDR), n).1 == Null <==>
              && Granted(n) > Payload(b) && Alloc(h, Granted(n)).1 == Null
              && (h.blocks[i + 1].used || Payload(b) + Payload(h.blocks[i + 1]) <= Granted(n) + MIN_ALLOC)
  {
    i := OwnedAt(h, b);
    GrantedSize(n);
    ReallocIsResize(h, b, n, i);
    NoOverrun(h, b, n, i);
    RoomTest(h, i, Granted(n));
    RoomIs(h.blocks, i, Granted(n));
    hide Inv, Realloc, Granted, Overruns, Owned, CanGrow, HasRoom, CanShrink, Alloc, Stretch, Shrink, Free;
  }
}
