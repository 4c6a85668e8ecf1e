/** What the memory-heap allocator does to its block list, its free list and its counters, call by call. */
module MemHeapSpec {
  import opened Lists
  import opened Tiling

  const HDR: nat := 24            // RT_MEMHEAP_SIZE
  const MIN_ALLOC: nat := 12      // RT_MEMHEAP_MINIALLOC

  /** `blocks` ends with the used tail block of no payload; `free` holds the offsets of the unused blocks in
      the order the search meets them; `avail` is available_size, `peak` max_used_size. */
  datatype Heap = Heap(size: nat, blocks: seq<Block>, free: seq<nat>, avail: int, peak: int)

  function Payload(b: Block): int { b.end - b.off - HDR }

  function Max(a: int, b: int): int { if a < b then b else a }

  predicate FreeAt(bs: seq<Block>, p: nat) { exists b :: b in bs && b.off == p && !b.used }

  ghost predicate Quads(bs: seq<Block>) {
    forall i :: 0 <= i < |bs| ==> bs[i].off % 4 == 0 && bs[i].end % 4 == 0
  }

  ghost predicate HasTail(bs: seq<Block>, size: nat) {
    |bs| > 1 && bs[|bs| - 1].used && bs[|bs| - 1].off + HDR == size
  }

  /** Every block but the tail can hold a minimal request, unless the whole pool never could. */
  ghost predicate Roomy(bs: seq<Block>) {
    (|bs| == 2 && !bs[0].used) || forall i :: 0 <= i < |bs| - 1 ==> Payload(bs[i]) >= MIN_ALLOC
  }

  ghost predicate Layout(h: Heap) {
    h.size % 8 == 0 && h.size < WORD && Tiles(h.blocks, h.size, HDR) && Quads(h.blocks) && HasTail(h.blocks, h.size)
  }

  /** The free list holds exactly the unused blocks, each once. */
  ghost predicate FreeList(h: Heap) {
    Distinct(h.free) && forall p :: p in h.free <==> FreeAt(h.blocks, p)
  }

  ghost predicate Counted(h: Heap) {
    h.avail == Held(h.blocks, false, HDR) && h.size - h.avail <= h.peak
  }

  ghost predicate Inv(h: Heap) {
    Layout(h) && Coalesced(h.blocks) && FreeList(h) && Counted(h) && Roomy(h.blocks)
  }

  /** The pool after rt_memheap_init; its size is at least two headers. */
  function Fresh(size: nat): Heap
    requires size >= 2 * HDR
  {
    Heap(size, [Block(0, size - HDR, false), Block(size - HDR, size, true)], [0], size - 2 * HDR, 2 * HDR)
  }

  function Granted(n: Size): nat { if AlignUp(n) < MIN_ALLOC then MIN_ALLOC else AlignUp(n) }

  // ----- rt_memheap_alloc

  predicate FitsAt(bs: seq<Block>, p: nat, need: nat) {
    var i := IndexOf(bs, p); i < |bs| && Payload(bs[i]) >= need
  }

  /** The first block of the free list that is large enough. */
  function FirstFit(bs: seq<Block>, free: seq<nat>, need: nat): (k: nat)
    ensures k <= |free|
    ensures k < |free| ==> FitsAt(bs, free[k], need)
    ensures forall j :: 0 <= j < k ==> !FitsAt(bs, free[j], need)
  {
    if free == [] || FitsAt(bs, free[0], need) then 0 else FirstFit(bs, free[1..], need) + 1
  }

  predicate Splits(b: Block, need: nat) { Payload(b) >= need + HDR + MIN_ALLOC }

  /** Block i handed out, cut if the rest can be a block; the rest goes to the front of the free list. */
  function Take(h: Heap, i: nat, need: nat): Heap
    requires i < |h.blocks|
  {
    var b := h.blocks[i];
    if Splits(b, need) then
      var mid := b.off + HDR + need;
      var avail := h.avail - need - HDR;
      Heap(h.size, Split(h.blocks, i, mid, true, false), [mid] + Without(h.free, b.off), avail, Max(h.peak,
        h.size - avail))
    else
      var avail := h.avail - Payload(b);
      Heap(h.size, Flag(h.blocks, i, true), Without(h.free, b.off), avail, Max(h.peak, h.size - avail))
  }

  function Alloc(h: Heap, n: Size): (Heap, Ptr) {
    var need := Granted(n);
    if need >= h.avail then (h, Null)
    else
      var k := FirstFit(h.blocks, h.free, need);
      if k == |h.free| then (h, Null)
      else (Take(h, IndexOf(h.blocks, h.free[k]), need), At(h.free[k] + HDR))
  }

  // ----- rt_memheap_free

  function Unmark(h: Heap, i: nat): Heap
    requires i < |h.blocks|
  {
    h.(blocks := Flag(h.blocks, i, false), avail := h.avail + Payload(h.blocks[i]))
  }

  /** Two neighbouring unused blocks become one and a header becomes payload. */
  function Fuse(h: Heap, i: nat): Heap
    requires i + 1 < |h.blocks|
  {
    h.(blocks := Merge(h.blocks, i), avail := h.avail + HDR)
  }

  function LeftFree(bs: seq<Block>, i: nat): bool { 0 < i < |bs| && !bs[i - 1].used }

  function RightFree(bs: seq<Block>, i: nat): bool { i + 1 < |bs| && !bs[i + 1].used }

  function FuseRight(h: Heap, i: nat): Heap
    requires i < |h.blocks|
  {
    if RightFree(h.blocks, i) then Fuse(h, i).(free := Without(h.free, h.blocks[i + 1].off)) else h
  }

  function Release(h: Heap, i: nat): Heap
    requires i < |h.blocks|
  {
    var u := Unmark(h, i);
    if LeftFree(h.blocks, i) then FuseRight(Fuse(u, i - 1), i - 1)
    else
      var f := FuseRight(u, i);
      f.(free := [h.blocks[i].off] + f.free)
  }

  function Free(h: Heap, q: Ptr): Heap {
    if q.Null? || q.addr < HDR then h
    else
      var i := IndexOf(h.blocks, q.addr - HDR);
      if i == |h.blocks| then h else Release(h, i)
  }

  // ----- rt_memheap_realloc

  /** The next block is unused and has what block i lacks, with a minimal block to spare. */
  predicate HasRoom(bs: seq<Block>, i: nat, need: nat)
    requires i < |bs|
  {
    RightFree(bs, i) && Payload(bs[i + 1]) + Payload(bs[i]) > need + MIN_ALLOC
  }

  /** The code's test for that: both sums are of 32 bits. */
  predicate CanGrow(bs: seq<Block>, i: nat, need: nat)
    requires i < |bs|
  {
    RightFree(bs, i) && (Payload(bs[i + 1]) + Payload(bs[i])) % WORD > (need + MIN_ALLOC) % WORD
  }

  /** The next block's header moved to mid. */
  function MoveHeader(h: Heap, i: nat, mid: nat, avail: int, peak: int): Heap
    requires i + 1 < |h.blocks|
  {
    Heap(h.size, Split(Merge(h.blocks, i), i, mid, true, false), [mid] + Without(h.free, h.blocks[i + 1].off), avail,
      peak)
  }

  /** Block i takes what it lacks from the next. */
  function Grow(h: Heap, i: nat, need: nat): Heap
    requires i + 1 < |h.blocks|
  {
    var b := h.blocks[i];
    var avail := h.avail - (need - Payload(b));
    MoveHeader(h, i, b.off + HDR + need, avail, Max(h.peak, h.size - avail))
  }

  /** What the code does when its test says so: place and counters are of 32 bits. */
  function Stretch(h: Heap, i: nat, need: nat): Heap
    requires i + 1 < |h.blocks|
  {
    var b := h.blocks[i];
    var avail := (h.avail - (need - Payload(b))) % WORD;
    MoveHeader(h, i, (b.off + HDR + need) % WORD, avail, Max(h.peak, (h.size - avail) % WORD))
  }

  predicate CanShrink(b: Block, need: nat) { need + HDR + MIN_ALLOC < Payload(b) }

  function Cut(h: Heap, i: nat, need: nat): (c: Heap)
    requires i < |h.blocks|
    ensures |c.blocks| == |h.blocks| + 1 && c.blocks[i].used && c.blocks[i + 1].off == h.blocks[i].off + HDR + need
  {
    var b := h.blocks[i];
    var mid := b.off + HDR + need;
    h.(blocks := Split(h.blocks, i, mid, true, false), avail := h.avail + b.end - mid - HDR)
  }

  /** Block i cut; the rest, with the next block if that is unused, goes to the front of the free list. */
  function Shrink(h: Heap, i: nat, need: nat): Heap
    requires i < |h.blocks|
  {
    var f := FuseRight(Cut(h, i, need), i + 1);
    f.(free := [h.blocks[i].off + HDR + need] + f.free)
  }

  function Realloc(h: Heap, q: Ptr, n: Size): (Heap, Ptr) {
    if n == 0 then (Free(h, q), Null)
    else if q.Null? then Alloc(h, Granted(n))
    else if q.addr < HDR || IndexOf(h.blocks, q.addr - HDR) == |h.blocks| then (h, q)
    else Resize(h, IndexOf(h.blocks, q.addr - HDR), Granted(n))
  }

  /** The realloc that passes its growth test by wrapping round: the largest aligned size there is, asked of
      a block with an unused one behind it. */
  predicate Overruns(h: Heap, q: Ptr, n: Size) {
    && q.At? && q.addr >= HDR && n > 0 && Granted(n) + MIN_ALLOC >= WORD
    && RightFree(h.blocks, IndexOf(h.blocks, q.addr - HDR))
  }

  function Resize(h: Heap, i: nat, need: Size): (Heap, Ptr)
    requires i < |h.blocks|
  {
    var q := At(h.blocks[i].off + HDR);
    if need > Payload(h.blocks[i]) then
      if CanGrow(h.blocks, i, need) then (Stretch(h, i, need), q)
      else
        var (h', r) := Alloc(h, need);
        if r.Null? then (h', r) else (Free(h', q), r)
    else if CanShrink(h.blocks[i], need) then (Shrink(h, i, need), q)
    else (h, q)
  }

  // ----- what each edit does to the unused blocks

  lemma FlagFreeAt(bs: seq<Block>, i: nat, used: bool, top: nat)
    requires Tiles(bs, top, HDR) && i < |bs|
    ensures forall p :: FreeAt(Flag(bs, i, used), p) <==> (FreeAt(bs, p) && p != bs[i].off) || (p == bs[i].off && !used)
  {
    var f := Flag(bs, i, used);
    forall x ensures x in f <==>
         (x in bs && x != bs[i]) || x == bs[i].(used := used) { FlagMembers(bs, i, used, top, HDR, x); }
    forall x | x in bs && x.off == bs[i].off ensures x == bs[i] { OffsetsAreUnique(bs, top, HDR, i, x); }
    hide Tiles, Flag;
    assert bs[i].(used := used) in f;
  }

  lemma SplitFreeAt(bs: seq<Block>, i: nat, mid: nat, top: nat)
    requires Tiles(bs, top, HDR) && i < |bs|
    ensures forall p :: FreeAt(Split(bs, i, mid, true, false), p) <==> (FreeAt(bs, p) && p != bs[i].off) || p == mid
  {
    var s := Split(bs, i, mid, true, false);
    forall x ensures x in s <==>
         (x in bs && x != bs[i]) || x == Block(bs[i].off, mid, true) || x == Block(mid, bs[i].end, false) {
      SplitMembers(bs, i, mid, true, false, top, HDR, x);
    }
    forall x | x in bs && x.off == bs[i].off ensures x == bs[i] { OffsetsAreUnique(bs, top, HDR, i, x); }
    hide Tiles, Split;
    assert Block(mid, bs[i].end, false) in s;
  }

  lemma MergeFreeAt(bs: seq<Block>, i: nat, top: nat)
    requires Tiles(bs, top, HDR) && i + 1 < |bs|
    ensures forall p :: FreeAt(Merge(bs, i), p) <==>
              (FreeAt(bs, p) && p != bs[i].off && p != bs[i + 1].off) || (p == bs[i].off && !bs[i].used)
  {
    var m := Merge(bs, i);
    var x0 := Block(bs[i].off, bs[i + 1].end, bs[i].used);
    forall x ensures x in m <==>
         (x in bs && x != bs[i] && x != bs[i + 1]) || x == x0 { MergeMembers(bs, i, top, HDR, x); }
    forall x | x in bs && x.off == bs[i].off ensures x == bs[i] { OffsetsAreUnique(bs, top, HDR, i, x); }
    forall x | x in bs && x.off == bs[i + 1].off ensures x == bs[i + 1] { OffsetsAreUnique(bs, top, HDR, i + 1, x); }
    hide Tiles, Merge;
    assert x0 in m;
  }

  // ----- what each edit does to the layout

  lemma FlagLayout(bs: seq<Block>, i: nat, used: bool, size: nat)
    requires Tiles(bs, size, HDR) && Quads(bs) && HasTail(bs, size) && i < |bs| - 1
    ensures var f := Flag(bs, i, used); Tiles(f, size, HDR) && Quads(f) && HasTail(f, size)
  {
    FlagTiles(bs, i, used, size, HDR);
    hide Tiles;
  }

  lemma SplitLayout(bs: seq<Block>, i: nat, mid: nat, size: nat)
    requires Tiles(bs, size, HDR) && Quads(bs) && HasTail(bs, size) && i < |bs| - 1
    requires bs[i].off + HDR <= mid && mid + HDR <= bs[i].end && mid % 4 == 0
    ensures var s := Split(bs, i, mid, true, false); Tiles(s, size, HDR) && Quads(s) && HasTail(s, size)
  {
    SplitTiles(bs, i, mid, true, false, size, HDR);
    hide Tiles;
  }

  lemma MergeLayout(bs: seq<Block>, i: nat, size: nat)
    requires Tiles(bs, size, HDR) && Quads(bs) && HasTail(bs, size) && i + 2 < |bs|
    ensures var m := Merge(bs, i); Tiles(m, size, HDR) && Quads(m) && HasTail(m, size)
  {
    MergeTiles(bs, i, size, HDR);
    hide Tiles;
  }

  /** No block starts inside another. */
  lemma InsideIsNew(bs: seq<Block>, i: nat, mid: nat, top: nat)
    requires Tiles(bs, top, HDR) && i < |bs| && bs[i].off < mid < bs[i].end
    ensures !FreeAt(bs, mid)
  {
    forall x | x in bs ensures x.off != mid {
      var j :| 0 <= j < |bs| && bs[j] == x;
      assert j < i ==> bs[j].end <= bs[i].off;
      assert i < j ==> bs[i].end <= bs[j].off;
    }
  }

  lemma GrantedSize(n: Size)
    ensures Granted(n) >= MIN_ALLOC && Granted(n) % 4 == 0 && Granted(n) <= WORD - 8
    ensures Granted(n) >= n <==> n <= WORD - 8
    ensures Granted(n) + MIN_ALLOC >= WORD <==> WORD - 15 <= n <= WORD - 8
  {
    EightFour(AlignUp(n));
    TopEight(AlignUp(n));
    hide AlignUp;
  }

  lemma TopEight(a: nat)
    requires a % 8 == 0 && a < WORD
    ensures a <= WORD - 8
  {
  }

  lemma EightFour(a: nat)
    requires a % 8 == 0
    ensures a % 4 == 0
  {
  }

  lemma SumOfQuads(a: nat, b: nat)
    requires a % 4 == 0 && b % 4 == 0
    ensures (a + HDR + b) % 4 == 0
  {
  }

  // ----- alloc keeps the invariant

  lemma TakeLayout(h: Heap, i: nat, need: nat)
    requires Layout(h) && i < |h.blocks| && !h.blocks[i].used && need % 4 == 0
    ensures Layout(Take(h, i, need))
  {
    var b := h.blocks[i];
    assert b.off % 4 == 0;
    SumOfQuads(b.off, need);
    hide Tiles, Quads, Split, Flag;
    if Splits(b, need) {
      SplitLayout(h.blocks, i, b.off + HDR + need, h.size);
    } else {
      FlagLayout(h.blocks, i, true, h.size);
    }
  }

  lemma TakeCoalesced(h: Heap, i: nat, need: nat)
    requires Coalesced(h.blocks) && i < |h.blocks| && !h.blocks[i].used
    ensures Coalesced(Take(h, i, need).blocks)
  {
  }

  lemma TakeFreeList(h: Heap, i: nat, need: nat)
    requires Layout(h) && FreeList(h) && i < |h.blocks| && !h.blocks[i].used
    ensures FreeList(Take(h, i, need))
  {
    hide Layout, FreeAt, Split, Flag;
    if Splits(h.blocks[i], need) {
      TakeSplitFreeAt(h, i, need);
    } else {
      TakeWholeFreeAt(h, i);
    }
  }

  lemma TakeSplitFreeAt(h: Heap, i: nat, need: nat)
    requires Layout(h) && i < |h.blocks| && Splits(h.blocks[i], need)
    ensures var b, mid := h.blocks[i], h.blocks[i].off + HDR + need;
            !FreeAt(h.blocks, mid)
            && forall p :: FreeAt(Split(h.blocks, i, mid, true, false), p) <==>
                 (FreeAt(h.blocks, p) && p != b.off) || p == mid
  {
    hide Quads, HasTail, FreeAt, Split, Tiles;
    SplitFreeAt(h.blocks, i, h.blocks[i].off + HDR + need, h.size);
    InsideIsNew(h.blocks, i, h.blocks[i].off + HDR + need, h.size);
  }

  lemma TakeWholeFreeAt(h: Heap, i: nat)
    requires Layout(h) && i < |h.blocks|
    ensures forall p :: FreeAt(Flag(h.blocks, i, true), p) <==> FreeAt(h.blocks, p) && p != h.blocks[i].off
  {
    hide Quads, HasTail, FreeAt, Flag, Tiles;
    FlagFreeAt(h.blocks, i, true, h.size);
  }

  lemma TakeCounted(h: Heap, i: nat, need: nat)
    requires Counted(h) && i < |h.blocks| && !h.blocks[i].used
    ensures Counted(Take(h, i, need))
  {
    var b := h.blocks[i];
    HeldOne(b, false, HDR);
    if Splits(b, need) {
      var mid := b.off + HDR + need;
      HeldSplit(h.blocks, i, mid, true, false, false, HDR);
      HeldOne(Block(b.off, mid, true), false, HDR);
      HeldOne(Block(mid, b.end, false), false, HDR);
    } else {
      HeldFlag(h.blocks, i, true, false, HDR);
      HeldOne(b.(used := true), false, HDR);
    }
    hide Held, Split, Flag;
  }

  lemma TakeRoomy(h: Heap, i: nat, need: nat)
    requires HasTail(h.blocks, h.size) && Roomy(h.blocks) && i < |h.blocks| && !h.blocks[i].used
    requires need >= MIN_ALLOC && Payload(h.blocks[i]) >= need
    ensures Roomy(Take(h, i, need).blocks)
  {
  }

  lemma TakeKeeps(h: Heap, i: nat, need: nat)
    requires Inv(h) && i < |h.blocks| && !h.blocks[i].used
    requires need % 4 == 0 && need >= MIN_ALLOC && Payload(h.blocks[i]) >= need
    ensures Inv(Take(h, i, need))
  {
    TakeLayout(h, i, need);
    TakeCoalesced(h, i, need);
    TakeFreeList(h, i, need);
    TakeCounted(h, i, need);
    TakeRoomy(h, i, need);
    hide Layout, Coalesced, FreeList, Counted, Roomy, Take;
  }

  /** An offset in the free list leads to an unused block that starts there. */
  lemma ListedIsFree(h: Heap, p: nat)
    requires Layout(h) && FreeList(h) && p in h.free
    ensures var i := IndexOf(h.blocks, p); i < |h.blocks| - 1 && !h.blocks[i].used && h.blocks[i].off == p
  {
    var b :| b in h.blocks && b.off == p && !b.used;
    var j :| 0 <= j < |h.blocks| && h.blocks[j] == b;
    IndexOfBlock(h.blocks, h.size, HDR, j);
    hide Tiles, Quads;
  }

  lemma AllocKeeps(h: Heap, n: Size)
    requires Inv(h)
    ensures Inv(Alloc(h, n).0)
  {
    var need := Granted(n);
    GrantedSize(n);
    var k := FirstFit(h.blocks, h.free, need);
    if need < h.avail && k < |h.free| {
      ListedIsFree(h, h.free[k]);
      hide Inv, Granted, Take;
      TakeKeeps(h, IndexOf(h.blocks, h.free[k]), need);
    }
  }

  // ----- free keeps the invariant

  /** The layout and the sums are right; block i is unused, unlisted, and may have unused neighbours. */
  ghost predicate Freed(h: Heap, i: nat) {
    && Layout(h) && Counted(h) && i < |h.blocks| - 1 && !h.blocks[i].used && CoalescedBut(h.blocks, i)
    && Roomy(h.blocks) && Distinct(h.free) && h.blocks[i].off !in h.free
    && forall p :: p in h.free <==> FreeAt(h.blocks, p) && p != h.blocks[i].off
  }

  /** The same, with block i listed already. */
  ghost predicate FreedListed(h: Heap, i: nat) {
    && Layout(h) && Counted(h) && i < |h.blocks| - 1 && !h.blocks[i].used && CoalescedBut(h.blocks, i)
    && Roomy(h.blocks) && FreeList(h) && !LeftFree(h.blocks, i)
  }

  lemma UnmarkFrees(h: Heap, i: nat)
    requires Inv(h) && i < |h.blocks| - 1 && h.blocks[i].used
    ensures Freed(Unmark(h, i), i)
  {
    UnmarkSums(h, i);
    UnmarkShape(h, i);
    FlagLayout(h.blocks, i, false, h.size);
    FlagFreeAt(h.blocks, i, false, h.size);
    UsedIsNotFree(h, i);
    hide Tiles, Quads, Held, FreeAt, Coalesced, CoalescedBut, Roomy, HasTail;
  }

  lemma UsedIsNotFree(h: Heap, i: nat)
    requires Layout(h) && i < |h.blocks| && h.blocks[i].used
    ensures !FreeAt(h.blocks, h.blocks[i].off)
  {
    forall x | x in h.blocks && x.off == h.blocks[i].off ensures x == h.blocks[i] {
      OffsetsAreUnique(h.blocks, h.size, HDR, i, x);
    }
    hide Tiles, Quads;
  }

  lemma UnmarkSums(h: Heap, i: nat)
    requires Counted(h) && i < |h.blocks| && h.blocks[i].used && Payload(h.blocks[i]) >= 0
    ensures Counted(Unmark(h, i))
  {
    HeldFlag(h.blocks, i, false, false, HDR);
    HeldOne(h.blocks[i], false, HDR);
    HeldOne(h.blocks[i].(used := false), false, HDR);
    hide Held, Flag;
  }

  lemma UnmarkShape(h: Heap, i: nat)
    requires Inv(h) && i < |h.blocks| - 1 && h.blocks[i].used
    ensures Payload(h.blocks[i]) >= MIN_ALLOC && CoalescedBut(Unmark(h, i).blocks, i) && Roomy(Unmark(h, i).blocks)
  {
    hide Tiles, Quads, Held, FreeAt;
  }

  /** What the two fusing steps of free share. */
  ghost predicate Fusible(h: Heap, i: nat) {
    && Layout(h) && Counted(h) && Roomy(h.blocks) && CoalescedBut(h.blocks, i)
    && i < |h.blocks| - 1 && !h.blocks[i].used
  }

  lemma FuseSums(h: Heap, i: nat)
    requires Counted(h) && i + 1 < |h.blocks| && !h.blocks[i].used && !h.blocks[i + 1].used
             && h.blocks[i].end == h.blocks[i + 1].off
    ensures Counted(Fuse(h, i))
  {
    HeldMerge(h.blocks, i, false, HDR);
    HeldOne(h.blocks[i], false, HDR);
    HeldOne(h.blocks[i + 1], false, HDR);
    HeldOne(Block(h.blocks[i].off, h.blocks[i + 1].end, h.blocks[i].used), false, HDR);
    hide Held, Merge;
  }

  lemma FuseRoomy(h: Heap, i: nat)
    requires Tiles(h.blocks, h.size, HDR) && Roomy(h.blocks) && i + 2 < |h.blocks|
    ensures Roomy(Merge(h.blocks, i))
  {
    var m := Merge(h.blocks, i);
    forall k | 0 <= k < |m| - 1 ensures Payload(m[k]) >= MIN_ALLOC {
      assert k < i ==> m[k] == h.blocks[k];
      assert k > i ==> m[k] == h.blocks[k + 1];
      assert h.blocks[i].end <= h.blocks[i + 1].end;
    }
  }

  lemma FuseCoalesced(bs: seq<Block>, i: nat)
    requires i + 1 < |bs| && !bs[i].used && !bs[i + 1].used
    ensures CoalescedBut(bs, i) ==> CoalescedBut(Merge(bs, i), i) && !RightFree(Merge(bs, i), i)
    ensures CoalescedBut(bs, i) ==> LeftFree(Merge(bs, i), i) == LeftFree(bs, i)
    ensures CoalescedBut(bs, i + 1) ==> CoalescedBut(Merge(bs, i), i) && !LeftFree(Merge(bs, i), i)
  {
  }

  lemma FuseLayout(h: Heap, i: nat)
    requires Layout(h) && i + 2 < |h.blocks|
    ensures Layout(Fuse(h, i))
  {
    MergeLayout(h.blocks, i, h.size);
    hide Tiles, Quads, HasTail, Merge;
  }

  /** With its right neighbour fused, an unused block's offset stays on the list and its neighbour's leaves. */
  lemma FuseFreeAt(h: Heap, i: nat)
    requires Layout(h) && i + 1 < |h.blocks| && !h.blocks[i].used
    ensures forall p :: FreeAt(Fuse(h, i).blocks, p) <==> FreeAt(h.blocks, p) && p != h.blocks[i + 1].off
  {
    Touching(h, i);
    MergeFreeAt(h.blocks, i, h.size);
    hide FreeAt, Tiles, Quads, HasTail, Merge;
  }

  lemma FuseKeeps(h: Heap, i: nat)
    requires Layout(h) && Counted(h) && Roomy(h.blocks) && i + 2 < |h.blocks| && !h.blocks[i].used
             && !h.blocks[i + 1].used
    ensures Layout(Fuse(h, i)) && Counted(Fuse(h, i)) && Roomy(Fuse(h, i).blocks)
    ensures i < |Fuse(h, i).blocks| - 1 && Fuse(h, i).blocks[i] == Block(h.blocks[i].off, h.blocks[i + 1].end, false)
    ensures forall p :: FreeAt(Fuse(h, i).blocks, p) <==> FreeAt(h.blocks, p) && p != h.blocks[i + 1].off
  {
    Touching(h, i);
    FuseLayout(h, i);
    FuseSums(h, i);
    assert Roomy(Fuse(h, i).blocks) by { FuseRoomy(h, i); }
    FuseFreeAt(h, i);
    MergeHead(h.blocks, i);
    hide FreeAt, Layout, Counted, Roomy, Merge;
  }

  lemma FuseRightKeeps(h: Heap, i: nat)
    requires Fusible(h, i)
    ensures var r := FuseRight(h, i);
            && Fusible(r, i) && !RightFree(r.blocks, i) && LeftFree(r.blocks, i) == LeftFree(h.blocks, i)
            && r.blocks[i].off == h.blocks[i].off
            && forall p :: FreeAt(r.blocks, p) <==>
                 FreeAt(h.blocks, p) && (RightFree(h.blocks, i) ==> p != h.blocks[i + 1].off)
  {
    if RightFree(h.blocks, i) {
      TailIsUsed(h);
      FuseKeeps(h, i);
      FuseCoalesced(h.blocks, i);
      ListedSame(Fuse(h, i), Without(h.free, h.blocks[i + 1].off));
    }
    hide Layout, Counted, FreeAt, Roomy, CoalescedBut, Merge;
  }

  lemma TailIsUsed(h: Heap)
    requires Layout(h)
    ensures |h.blocks| > 1 && h.blocks[|h.blocks| - 1].used
  {
    hide Tiles, Quads;
  }

  lemma ListedSame(h: Heap, free: seq<nat>)
    ensures Layout(h.(free := free)) == Layout(h) && Counted(h.(free := free)) == Counted(h)
  {
  }

  lemma FuseLeftKeeps(h: Heap, i: nat)
    requires Freed(h, i) && LeftFree(h.blocks, i)
    ensures FreedListed(Fuse(h, i - 1), i - 1)
  {
    hide Layout, Counted, FreeAt, Roomy, CoalescedBut, Coalesced, Merge;
    FuseKeeps(h, i - 1);
    FuseCoalesced(h.blocks, i - 1);
  }

  lemma Touching(h: Heap, i: nat)
    requires Layout(h) && i + 1 < |h.blocks| && !h.blocks[i].used
    ensures h.blocks[i].end == h.blocks[i + 1].off && h.blocks[i].off < h.blocks[i + 1].off
            && FreeAt(h.blocks, h.blocks[i].off)
  {
    assert h.blocks[i] in h.blocks;
    hide Quads, HasTail;
  }

  lemma MergeHead(bs: seq<Block>, i: nat)
    requires i + 1 < |bs|
    ensures |Merge(bs, i)| == |bs| - 1 && Merge(bs, i)[i] == Block(bs[i].off, bs[i + 1].end, bs[i].used)
  {
  }

  lemma NoHolesLeft(bs: seq<Block>, i: nat)
    requires CoalescedBut(bs, i) && i < |bs| && !LeftFree(bs, i) && !RightFree(bs, i)
    ensures Coalesced(bs)
  {
  }

  lemma ReleaseKeeps(h: Heap, i: nat)
    requires Inv(h) && i < |h.blocks| - 1 && h.blocks[i].used
    ensures Inv(Release(h, i))
  {
    hide Freed, LeftFree, Unmark, FuseRight, Fuse, Inv;
    UnmarkFrees(h, i);
    UnmarkNeighbours(h, i);
    if LeftFree(h.blocks, i) {
      JoinLeft(Unmark(h, i), i);
    } else {
      StandAlone(Unmark(h, i), i);
    }
  }

  lemma UnmarkNeighbours(h: Heap, i: nat)
    requires i < |h.blocks|
    ensures LeftFree(Unmark(h, i).blocks, i) == LeftFree(h.blocks, i)
    ensures |Unmark(h, i).blocks| == |h.blocks| && Unmark(h, i).blocks[i].off == h.blocks[i].off
    ensures i > 0 ==> Unmark(h, i).blocks[i - 1] == h.blocks[i - 1]
  {
  }

  lemma JoinLeft(u: Heap, i: nat)
    requires Freed(u, i) && LeftFree(u.blocks, i)
    ensures i > 0 && i < |Fuse(u, i - 1).blocks| + 1 && Inv(FuseRight(Fuse(u, i - 1), i - 1))
  {
    hide Layout, Counted, Roomy, CoalescedBut, Coalesced, FreeAt, Merge;
    FuseLeftKeeps(u, i);
    var l := Fuse(u, i - 1);
    FuseRightKeeps(l, i - 1);
    NoHolesLeft(FuseRight(l, i - 1).blocks, i - 1);
  }

  lemma StandAlone(u: Heap, i: nat)
    requires Freed(u, i) && !LeftFree(u.blocks, i)
    ensures var f := FuseRight(u, i); Inv(f.(free := [u.blocks[i].off] + f.free))
  {
    hide Layout, Counted, Roomy, CoalescedBut, Coalesced, FreeAt, FreeList, FuseRight, Distinct;
    FuseRightKeeps(u, i);
    var r := FuseRight(u, i);
    NoHolesLeft(r.blocks, i);
    ListFirst(u, r, i);
    ListedSame(r, [u.blocks[i].off] + r.free);
  }

  /** The freed block, with what it absorbed, goes to the front of the list. */
  lemma ListFirst(h: Heap, r: Heap, i: nat)
    requires Freed(h, i) && r == FuseRight(h, i) && i < |r.blocks|
    requires forall p :: FreeAt(r.blocks, p) <==>
              FreeAt(h.blocks, p) && (RightFree(h.blocks, i) ==> p != h.blocks[i + 1].off)
    ensures FreeList(r.(free := [h.blocks[i].off] + r.free))
  {
    assert FreeAt(h.blocks, h.blocks[i].off) by { assert h.blocks[i] in h.blocks; }
    assert RightFree(h.blocks, i) ==> h.blocks[i].off < h.blocks[i + 1].off;
    hide FreeAt, Tiles, Quads, Held, Roomy, CoalescedBut, Fuse;
  }

  lemma FreeIsRelease(h: Heap, i: nat)
    requires Layout(h) && i < |h.blocks|
    ensures Free(h, At(h.blocks[i].off + HDR)) == Release(h, i)
  {
    IndexOfBlock(h.blocks, h.size, HDR, i);
    hide Release, Tiles, Quads;
  }

  // ----- realloc keeps the invariant

  lemma GrowKeeps(h: Heap, i: nat, need: nat)
    requires Inv(h) && i < |h.blocks| - 1 && h.blocks[i].used && need % 4 == 0 && need >= MIN_ALLOC
    requires need > Payload(h.blocks[i]) && HasRoom(h.blocks, i, need)
    ensures Inv(Grow(h, i, need))
  {
    GrowLayout(h, i, need);
    GrowFreeList(h, i, need);
    GrowCounted(h, i, need);
    GrowShape(h, i, need);
    hide Layout, FreeList, Counted, Roomy, Coalesced, Grow;
  }

  lemma GrowFits(h: Heap, i: nat, need: nat)
    requires Layout(h) && i < |h.blocks| - 1 && HasRoom(h.blocks, i, need)
    ensures var mid := h.blocks[i].off + HDR + need;
            && i + 2 < |h.blocks| && h.blocks[i].end == h.blocks[i + 1].off
            && h.blocks[i].off % 4 == 0 && mid + HDR + MIN_ALLOC < h.blocks[i + 1].end
  {
    hide Held;
  }

  lemma GrowLayout(h: Heap, i: nat, need: nat)
    requires Layout(h) && i < |h.blocks| - 1 && need % 4 == 0 && HasRoom(h.blocks, i, need)
    ensures Layout(Grow(h, i, need))
  {
    hide Tiles, Quads, HasTail, Split, Merge, HasRoom;
    GrowFits(h, i, need);
    SumOfQuads(h.blocks[i].off, need);
    var m := Merge(h.blocks, i);
    MergeLayout(h.blocks, i, h.size);
    MergeHead(h.blocks, i);
    SplitLayout(m, i, h.blocks[i].off + HDR + need, h.size);
  }

  lemma GrowFreeList(h: Heap, i: nat, need: nat)
    requires Layout(h) && FreeList(h) && i < |h.blocks| - 1 && h.blocks[i].used && need > Payload(h.blocks[i])
             && HasRoom(h.blocks, i, need)
    ensures FreeList(Grow(h, i, need))
  {
    hide Layout, HasRoom, FreeAt, Merge, Split;
    GrowFreeAt(h, i, need);
  }

  lemma GrowFreeAt(h: Heap, i: nat, need: nat)
    requires Layout(h) && i < |h.blocks| - 1 && h.blocks[i].used && need > Payload(h.blocks[i])
             && HasRoom(h.blocks, i, need)
    ensures var bs, mid := h.blocks, h.blocks[i].off + HDR + need;
            && (!FreeAt(bs, mid) || mid == bs[i + 1].off)
            && forall p :: FreeAt(Grow(h, i, need).blocks, p) <==> (FreeAt(bs, p) && p != bs[i + 1].off) || p == mid
  {
    GrowFits(h, i, need);
    var m, mid := Merge(h.blocks, i), h.blocks[i].off + HDR + need;
    MergeTiles(h.blocks, i, h.size, HDR);
    MergeHead(h.blocks, i);
    hide Tiles, Quads, HasTail, FreeAt, Split, Merge;
    MergeFreeAt(h.blocks, i, h.size);
    SplitFreeAt(m, i, mid, h.size);
    InsideIsNew(m, i, mid, h.size);
    UsedIsNotFree(h, i);
  }

  lemma GrowCounted(h: Heap, i: nat, need: nat)
    requires Layout(h) && Counted(h) && i < |h.blocks| - 1 && h.blocks[i].used && need > Payload(h.blocks[i])
             && HasRoom(h.blocks, i, need)
    ensures Counted(Grow(h, i, need))
  {
    GrowFits(h, i, need);
    var a, b, mid := h.blocks[i], h.blocks[i + 1], h.blocks[i].off + HDR + need;
    var m := Merge(h.blocks, i);
    assert m[i] == Block(a.off, b.end, true);
    HeldMerge(h.blocks, i, false, HDR);
    HeldSplit(m, i, mid, true, false, false, HDR);
    HeldOne(a, false, HDR);
    HeldOne(b, false, HDR);
    HeldOne(Block(a.off, b.end, true), false, HDR);
    HeldOne(Block(a.off, mid, true), false, HDR);
    HeldOne(Block(mid, b.end, false), false, HDR);
    hide Held, Split, Merge, Tiles, Quads;
  }

  lemma GrowShape(h: Heap, i: nat, need: nat)
    requires Inv(h) && i < |h.blocks| - 1 && h.blocks[i].used && need >= MIN_ALLOC
    requires need > Payload(h.blocks[i]) && HasRoom(h.blocks, i, need)
    ensures Coalesced(Grow(h, i, need).blocks) && Roomy(Grow(h, i, need).blocks)
  {
    GrowFits(h, i, need);
    GrowBlocks(h, i, need);
    hide Grow, Layout, Counted, FreeList;
  }

  lemma GrowBlocks(h: Heap, i: nat, need: nat)
    requires i + 1 < |h.blocks|
    ensures var r, mid := Grow(h, i, need).blocks, h.blocks[i].off + HDR + need;
            && |r| == |h.blocks| && (forall k :: 0 <= k < |r| && k != i && k != i + 1 ==> r[k] == h.blocks[k])
            && r[i] == Block(h.blocks[i].off, mid, true) && r[i + 1] == Block(mid, h.blocks[i + 1].end, false)
  {
  }

  lemma ShrinkKeeps(h: Heap, i: nat, need: nat)
    requires Inv(h) && i < |h.blocks| - 1 && h.blocks[i].used && need % 4 == 0 && need >= MIN_ALLOC
             && CanShrink(h.blocks[i], need)
    ensures Inv(Shrink(h, i, need))
  {
    hide Layout, Counted, Roomy, CoalescedBut, Coalesced, FreeAt, FreeList, FuseRight, Cut, Inv, Distinct, CanShrink,
      Without, RightFree;
    CutFrees(h, i, need);
    var c := Cut(h, i, need);
    FuseRightKeeps(c, i + 1);
    var r := FuseRight(c, i + 1);
    NoHolesLeft(r.blocks, i + 1);
    ListFirst(c, r, i + 1);
    ListedSame(r, [c.blocks[i + 1].off] + r.free);
    InvOf(r.(free := [c.blocks[i + 1].off] + r.free));
  }

  lemma InvOf(h: Heap)
    requires Layout(h) && Coalesced(h.blocks) && FreeList(h) && Counted(h) && Roomy(h.blocks)
    ensures Inv(h)
  {
    hide Layout, Counted, Roomy, Coalesced, FreeList;
  }

  lemma CutFrees(h: Heap, i: nat, need: nat)
    requires Inv(h) && i < |h.blocks| - 1 && h.blocks[i].used && need % 4 == 0 && need >= MIN_ALLOC
             && CanShrink(h.blocks[i], need)
    ensures Freed(Cut(h, i, need), i + 1)
  {
    hide Layout, Counted, FreeAt, Coalesced, CoalescedBut, Roomy, Split, CanShrink;
    CutLayout(h, i, need);
    CutCounted(h, i, need);
    CutShape(h, i, need);
    CutFreeAt(h, i, need);
    UsedIsNotFree(h, i);
    TailIsUsed(h);
  }

  lemma CutLayout(h: Heap, i: nat, need: nat)
    requires Layout(h) && i < |h.blocks| - 1 && need % 4 == 0 && CanShrink(h.blocks[i], need)
    ensures Layout(Cut(h, i, need))
  {
    assert h.blocks[i].off % 4 == 0;
    SumOfQuads(h.blocks[i].off, need);
    hide Tiles, Quads, HasTail, Split;
    SplitLayout(h.blocks, i, h.blocks[i].off + HDR + need, h.size);
  }

  lemma CutFreeAt(h: Heap, i: nat, need: nat)
    requires Layout(h) && i < |h.blocks| && h.blocks[i].used && CanShrink(h.blocks[i], need)
    ensures var mid := h.blocks[i].off + HDR + need;
            !FreeAt(h.blocks, mid) && forall p :: FreeAt(Cut(h, i, need).blocks, p) <==> FreeAt(h.blocks, p) || p == mid
  {
    var mid := h.blocks[i].off + HDR + need;
    hide Quads, HasTail, FreeAt, Split;
    SplitFreeAt(h.blocks, i, mid, h.size);
    InsideIsNew(h.blocks, i, mid, h.size);
    UsedIsNotFree(h, i);
    hide Tiles;
  }

  lemma CutCounted(h: Heap, i: nat, need: nat)
    requires Counted(h) && i < |h.blocks| && h.blocks[i].used && CanShrink(h.blocks[i], need)
    ensures Counted(Cut(h, i, need))
  {
    var b, mid := h.blocks[i], h.blocks[i].off + HDR + need;
    HeldSplit(h.blocks, i, mid, true, false, false, HDR);
    HeldOne(b, false, HDR);
    HeldOne(Block(b.off, mid, true), false, HDR);
    HeldOne(Block(mid, b.end, false), false, HDR);
    hide Held, Split;
  }

  lemma CutShape(h: Heap, i: nat, need: nat)
    requires Inv(h) && i < |h.blocks| - 1 && h.blocks[i].used && need >= MIN_ALLOC && CanShrink(h.blocks[i], need)
    ensures CoalescedBut(Cut(h, i, need).blocks, i + 1) && Roomy(Cut(h, i, need).blocks)
            && !Cut(h, i, need).blocks[i + 1].used
  {
    hide Tiles, Quads, Held, FreeAt;
  }

  // ----- what the clients hold

  /** b is a block some client holds: used, and not the tail. */
  predicate Owned(h: Heap, b: Block) { Live(h.blocks, b) && b.off + HDR < h.size }

  lemma OwnedAt(h: Heap, b: Block) returns (i: nat)
    requires Layout(h) && Owned(h, b)
    ensures i < |h.blocks| - 1 && h.blocks[i] == b && b.used
    ensures IndexOf(h.blocks, b.off) == i
  {
    i :| 0 <= i < |h.blocks| && h.blocks[i] == b;
    IndexOfBlock(h.blocks, h.size, HDR, i);
    hide Tiles, Quads;
  }

  lemma TakeGrants(h: Heap, i: nat, need: nat)
    requires Layout(h) && i < |h.blocks| && !h.blocks[i].used && Payload(h.blocks[i]) >= need
    ensures var c := Take(h, i, need).blocks[i];
            && c.off == h.blocks[i].off && Payload(c) >= need && !Live(h.blocks, c)
            && forall x :: Live(Take(h, i, need).blocks, x) <==> Live(h.blocks, x) || x == c
  {
    var b := h.blocks[i];
    forall x | x in h.blocks && x.off == b.off ensures x == b { OffsetsAreUnique(h.blocks, h.size, HDR, i, x); }
    forall x ensures Live(Take(h, i, need).blocks, x) <==> Live(h.blocks, x) || x == Take(h, i, need).blocks[i] {
      if Splits(b, need) {
        SplitLive(h.blocks, i, b.off + HDR + need, x, h.size, HDR);
      } else {
        TakeLive(h.blocks, i, x);
      }
      hide Tiles;
    }
    hide Tiles, Quads, HasTail;
  }

  /** A pointer handed out leads to a new block of the granted size, 4-byte aligned; all others stay. */
  lemma AllocGrants(h: Heap, n: Size) returns (c: Block)
    requires Inv(h) && Alloc(h, n).1 != Null
    ensures var (h', r) := Alloc(h, n);
            && r == At(c.off + HDR) && Payload(c) >= Granted(n) && c.off % 4 == 0
            && Owned(h', c) && !Live(h.blocks, c) && h'.size == h.size
            && forall x :: Live(h'.blocks, x) <==> Live(h.blocks, x) || x == c
  {
    var need := Granted(n);
    var k := FirstFit(h.blocks, h.free, need);
    ListedIsFree(h, h.free[k]);
    var i := IndexOf(h.blocks, h.free[k]);
    c := Take(h, i, need).blocks[i];
    TakeGrants(h, i, need);
    GrantedSize(n);
    BlockInside(h, i);
    hide Layout, Counted, Coalesced, Roomy, FreeAt, Take, Granted;
  }

  lemma BlockInside(h: Heap, i: nat)
    requires Layout(h) && i < |h.blocks| - 1
    ensures h.blocks[i].off + HDR < h.size && h.blocks[i].off % 4 == 0
  {
    assert h.blocks[i].end <= h.blocks[|h.blocks| - 1].off;
  }

  lemma FuseLive(h: Heap, i: nat)
    requires i + 1 < |h.blocks| && !h.blocks[i].used && !h.blocks[i + 1].used
    ensures forall x :: Live(Fuse(h, i).blocks, x) <==> Live(h.blocks, x)
  {
    forall x ensures Live(Fuse(h, i).blocks, x) <==> Live(h.blocks, x) { MergeLive(h.blocks, i, x); }
  }

  lemma FuseRightLive(h: Heap, i: nat)
    requires i < |h.blocks| && !h.blocks[i].used
    ensures forall x :: Live(FuseRight(h, i).blocks, x) <==> Live(h.blocks, x)
  {
    if RightFree(h.blocks, i) { FuseLive(h, i); }
    hide Merge, Live;
  }

  lemma ReleaseLive(h: Heap, i: nat)
    requires Layout(h) && i < |h.blocks| && h.blocks[i].used
    ensures forall x :: Live(Release(h, i).blocks, x) <==> Live(h.blocks, x) && x != h.blocks[i]
    ensures Release(h, i).peak == h.peak && Release(h, i).size == h.size
  {
    var u := Unmark(h, i);
    forall x ensures Live(u.blocks, x) <==>
         Live(h.blocks, x) && x != h.blocks[i] { FlagLive(h.blocks, i, h.size, HDR, x); }
    hide Tiles, Live, Merge, Layout;
    if LeftFree(h.blocks, i) {
      FuseLive(u, i - 1);
      MergeHead(u.blocks, i - 1);
      FuseRightLive(Fuse(u, i - 1), i - 1);
    } else {
      FuseRightLive(u, i);
    }
  }

  /** free takes exactly its own block from the clients. */
  lemma FreeKeeps(h: Heap, b: Block)
    requires Inv(h) && Owned(h, b)
    ensures var r := Free(h, At(b.off + HDR));
            && Inv(r) && r.size == h.size && r.peak == h.peak
            && forall x :: Live(r.blocks, x) <==> Live(h.blocks, x) && x != b
  {
    var i := OwnedAt(h, b);
    FreeIsRelease(h, i);
    hide Layout, Counted, Coalesced, Roomy, FreeList, Release, Free, Live;
    ReleaseKeeps(h, i);
    ReleaseLive(h, i);
  }

  /** Nothing is lost: unused payload as counted, used payload and one header a block make up the pool. */
  lemma Conserved(h: Heap)
    requires Inv(h)
    ensures h.avail + Held(h.blocks, true, HDR) + HDR * |h.blocks| == h.size && 0 <= h.avail <= h.size
  {
    HeldTotal(h.blocks, HDR);
    HeldBounds(h.blocks, true, HDR);
    HeldBounds(h.blocks, false, HDR);
    hide Held, FreeAt, Quads;
  }

  lemma GrowLive(h: Heap, i: nat, need: nat)
    requires Layout(h) && i < |h.blocks| - 1 && h.blocks[i].used && need > Payload(h.blocks[i])
             && HasRoom(h.blocks, i, need)
    ensures var b := h.blocks[i];
            forall x :: Live(Grow(h, i, need).blocks, x) <==>
                 (Live(h.blocks, x) && x != b) || x == Block(b.off, b.off + HDR + need, true)
  {
    hide Tiles, Quads, HasTail, Merge, Split;
    var b, m, mid := h.blocks[i], Merge(h.blocks, i), h.blocks[i].off + HDR + need;
    MergeTiles(h.blocks, i, h.size, HDR);
    MergeHead(h.blocks, i);
    forall x ensures x in m <==> (x in h.blocks && x != b && x != h.blocks[i + 1]) || x == m[i] {
      MergeMembers(h.blocks, i, h.size, HDR, x);
    }
    forall x ensures Live(Split(m, i, mid, true, false), x) <==>
         (Live(m, x) && x != m[i]) || x == Block(b.off, mid, true) {
      SplitLive(m, i, mid, x, h.size, HDR);
    }
    forall x | x in h.blocks && x.off == b.off ensures x == b { OffsetsAreUnique(h.blocks, h.size, HDR, i, x); }
  }

  lemma ShrinkLive(h: Heap, i: nat, need: nat)
    requires Layout(h) && i < |h.blocks| - 1 && h.blocks[i].used && CanShrink(h.blocks[i], need)
    ensures var b := h.blocks[i];
            forall x :: Live(Shrink(h, i, need).blocks, x) <==>
                 (Live(h.blocks, x) && x != b) || x == Block(b.off, b.off + HDR + need, true)
  {
    var b, mid := h.blocks[i], h.blocks[i].off + HDR + need;
    forall x ensures Live(Cut(h, i, need).blocks, x) <==>
         (Live(h.blocks, x) && x != b) || x == Block(b.off, mid, true) {
      SplitLive(h.blocks, i, mid, x, h.size, HDR);
    }
    CutHead(h, i, need);
    hide Tiles, Quads, HasTail, Split, Cut;
    FuseRightLive(Cut(h, i, need), i + 1);
  }

  lemma CutHead(h: Heap, i: nat, need: nat)
    requires i < |h.blocks|
    ensures !Cut(h, i, need).blocks[i + 1].used
  {
  }

  /** A resize that answered r kept the invariant and all other clients' blocks; c has taken b's place, or
      the answer is NULL and nothing changed. */
  ghost predicate Resized(h: Heap, b: Block, need: nat, h': Heap, r: Ptr, c: Block) {
    && Inv(h') && h'.size == h.size
    && (r == Null ==> h' == h)
    && (r != Null ==> r == At(c.off + HDR) && Payload(c) >= need && Owned(h', c)
                      && forall x :: Live(h'.blocks, x) <==> (Live(h.blocks, x) && x != b) || x == c)
  }

  /** realloc of a held block: it is resized where it stands, or another takes its place, or nothing changes
      and the answer is NULL; every other client keeps its block. */
  lemma ReallocKeeps(h: Heap, b: Block, n: Size) returns (c: Block)
    requires Inv(h) && Owned(h, b) && n > 0 && !Overruns(h, At(b.off + HDR), n)
    ensures var (h', r) := Realloc(h, At(b.off + HDR), n); Resized(h, b, Granted(n), h', r, c)
  {
    var i := OwnedAt(h, b);
    GrantedSize(n);
    c := ResizeKeeps(h, i, Granted(n));
    hide Inv, Owned, Resize, Granted, Resized, IndexOf;
    ReallocIsResize(h, b, n, i);
  }

  lemma ReallocIsResize(h: Heap, b: Block, n: Size, i: nat)
    requires i == IndexOf(h.blocks, b.off) && i < |h.blocks| && n > 0
    ensures Granted(n) < WORD && Realloc(h, At(b.off + HDR), n) == Resize(h, i, Granted(n))
  {
    GrantedSize(n);
    hide Resize, Granted;
  }

  lemma ResizeKeeps(h: Heap, i: nat, need: Size) returns (c: Block)
    requires Inv(h) && i < |h.blocks| - 1 && h.blocks[i].used && need % 4 == 0 && MIN_ALLOC <= need <= WORD - 8
    requires !(need + MIN_ALLOC >= WORD && RightFree(h.blocks, i))
    ensures var (h', r) := Resize(h, i, need); Resized(h, h.blocks[i], need, h', r, c)
  {
    hide *;
    var b := h.blocks[i];
    HeldByClient(h, i);
    c := Block(b.off, b.off + HDR + need, true);
    if need > Payload(b) && CanGrow(h.blocks, i, need) {
      GrowthFits(h, i, need);
      StretchIsGrow(h, i, need);
      GrowResizes(h, i, need);
      ResizeGrows(h, i, need);
    } else if need > Payload(b) && Alloc(h, need).1 == Null {
      RefusedResizes(h, b, need, c);
      ResizeMoves(h, i, need);
    } else if need > Payload(b) {
      c := MoveKeeps(h, b, need);
      ResizeMoves(h, i, need);
    } else if CanShrink(b, need) {
      ShrinkResizes(h, i, need);
      ResizeShrinks(h, i, need);
    } else {
      c := b;
      StayResizes(h, b, need);
      ResizeStays(h, i, need);
    }
  }

  /** Short of the wrap the code's test is the right one. */
  lemma GrowTest(h: Heap, i: nat, need: nat)
    requires Layout(h) && i < |h.blocks| - 1 && need < WORD
    ensures need + MIN_ALLOC < WORD ==> (CanGrow(h.blocks, i, need) <==> HasRoom(h.blocks, i, need))
    ensures RightFree(h.blocks, i) ==> 0 <= Payload(h.blocks[i + 1]) + Payload(h.blocks[i]) < WORD
  {
    TilesHere(h, i);
    hide Layout;
  }

  lemma GrowthFits(h: Heap, i: nat, need: nat)
    requires Inv(h) && i < |h.blocks| - 1 && need <= WORD - 8 && CanGrow(h.blocks, i, need)
    requires !(need + MIN_ALLOC >= WORD && RightFree(h.blocks, i))
    ensures HasRoom(h.blocks, i, need)
  {
    GrowTest(h, i, need);
    hide Layout, Coalesced, FreeList, Counted, Roomy;
  }

  lemma TilesHere(h: Heap, i: nat)
    requires Layout(h) && i + 1 < |h.blocks|
    ensures var a, b := h.blocks[i], h.blocks[i + 1];
            a.off + HDR <= a.end == b.off && b.off + HDR <= b.end <= h.size < WORD
  {
    assert i + 1 < |h.blocks| - 1 ==> h.blocks[i + 1].end <= h.blocks[|h.blocks| - 1].off;
    hide Quads;
  }

  lemma StretchIsGrow(h: Heap, i: nat, need: nat)
    requires Inv(h) && i < |h.blocks| - 1 && need > Payload(h.blocks[i]) && HasRoom(h.blocks, i, need)
    ensures Stretch(h, i, need) == Grow(h, i, need)
  {
    hide MoveHeader, Layout, Coalesced, FreeList, Counted, Roomy;
    TilesHere(h, i);
    FreePartCounted(h, i + 1);
  }

  lemma FreePartCounted(h: Heap, i: nat)
    requires Inv(h) && i < |h.blocks| && !h.blocks[i].used
    ensures Payload(h.blocks[i]) <= h.avail <= h.size < WORD
  {
    HeldBounds(h.blocks, false, HDR);
    Conserved(h);
    hide Held;
  }

  lemma ResizeGrows(h: Heap, i: nat, need: Size)
    requires i < |h.blocks| && need > Payload(h.blocks[i]) && CanGrow(h.blocks, i, need)
    ensures Resize(h, i, need) == (Stretch(h, i, need), At(h.blocks[i].off + HDR))
  {
    hide Stretch;
  }

  lemma ResizeMoves(h: Heap, i: nat, need: Size)
    requires i < |h.blocks| && need > Payload(h.blocks[i]) && !CanGrow(h.blocks, i, need)
    ensures Resize(h, i, need) == var a := Alloc(h, need);
                                  if a.1 == Null then a else (Free(a.0, At(h.blocks[i].off + HDR)), a.1)
  {
    hide Alloc, Free;
  }

  lemma ResizeShrinks(h: Heap, i: nat, need: Size)
    requires i < |h.blocks| && need <= Payload(h.blocks[i]) && CanShrink(h.blocks[i], need)
    ensures Resize(h, i, need) == (Shrink(h, i, need), At(h.blocks[i].off + HDR))
  {
  }

  lemma ResizeStays(h: Heap, i: nat, need: Size)
    requires i < |h.blocks| && need <= Payload(h.blocks[i]) && !CanShrink(h.blocks[i], need)
    ensures Resize(h, i, need) == (h, At(h.blocks[i].off + HDR))
  {
  }

  lemma GrowResizes(h: Heap, i: nat, need: nat)
    requires Inv(h) && i < |h.blocks| - 1 && h.blocks[i].used && need % 4 == 0 && need >= MIN_ALLOC
    requires need > Payload(h.blocks[i]) && HasRoom(h.blocks, i, need)
    ensures var b := h.blocks[i];
            Resized(h, b, need, Grow(h, i, need), At(b.off + HDR), Block(b.off, b.off + HDR + need, true))
  {
    hide Layout, Coalesced, FreeList, Counted, Roomy, Grow, HasRoom, Live;
    BlockInside(h, i);
    GrowKeeps(h, i, need);
    GrowLive(h, i, need);
    GrowSize(h, i, need);
  }

  lemma ShrinkResizes(h: Heap, i: nat, need: nat)
    requires Inv(h) && i < |h.blocks| - 1 && h.blocks[i].used && need % 4 == 0 && need >= MIN_ALLOC
             && CanShrink(h.blocks[i], need)
    ensures var b := h.blocks[i];
            Resized(h, b, need, Shrink(h, i, need), At(b.off + HDR), Block(b.off, b.off + HDR + need, true))
  {
    hide Layout, Coalesced, FreeList, Counted, Roomy, Shrink, CanShrink, Live;
    BlockInside(h, i);
    ShrinkKeeps(h, i, need);
    ShrinkLive(h, i, need);
    ShrinkSize(h, i, need);
  }

  lemma StayResizes(h: Heap, b: Block, need: nat)
    requires Inv(h) && Owned(h, b) && Payload(b) >= need
    ensures Resized(h, b, need, h, At(b.off + HDR), b)
  {
    hide Inv;
  }

  lemma GrowSize(h: Heap, i: nat, need: nat)
    requires i + 1 < |h.blocks|
    ensures Grow(h, i, need).size == h.size
  {
  }

  lemma ShrinkSize(h: Heap, i: nat, need: nat)
    requires i < |h.blocks|
    ensures Shrink(h, i, need).size == h.size
  {
  }

  lemma MoveKeeps(h: Heap, b: Block, need: Size) returns (c: Block)
    requires Inv(h) && Owned(h, b) && need <= WORD - 8 && Alloc(h, need).1 != Null
    ensures Resized(h, b, need, Free(Alloc(h, need).0, At(b.off + HDR)), Alloc(h, need).1, c)
  {
    hide Inv, Alloc, Free, Granted, Live;
    GrantedSize(need);
    c := AllocGrants(h, need);
    AllocKeeps(h, need);
    FreeKeeps(Alloc(h, need).0, b);
  }

  lemma RefusedResizes(h: Heap, b: Block, need: Size, c: Block)
    requires Inv(h) && Alloc(h, need).1 == Null
    ensures Resized(h, b, need, Alloc(h, need).0, Null, c)
  {
    hide Inv, Alloc;
    AllocRefuses(h, need);
  }

  lemma HeldByClient(h: Heap, i: nat)
    requires Inv(h) && i < |h.blocks| - 1 && h.blocks[i].used
    ensures Owned(h, h.blocks[i])
  {
    BlockInside(h, i);
  }

  lemma AllocRefuses(h: Heap, n: Size)
    ensures Alloc(h, n).1 == Null ==> Alloc(h, n).0 == h
  {
    hide Take, FirstFit, Granted, IndexOf;
  }

  // ----- when alloc fails

  lemma FirstFitMisses(h: Heap, need: nat)
    requires Layout(h) && FreeList(h)
    ensures FirstFit(h.blocks, h.free, need) == |h.free| <==> forall b :: b in h.blocks && !b.used ==> Payload(b) < need
  {
    var k := FirstFit(h.blocks, h.free, need);
    hide FirstFit;
    if k == |h.free| {
      forall b | b in h.blocks && !b.used ensures Payload(b) < need {
        assert FreeAt(h.blocks, b.off);
        var j :| 0 <= j < |h.free| && h.free[j] == b.off;
        var i :| 0 <= i < |h.blocks| && h.blocks[i] == b;
        IndexOfBlock(h.blocks, h.size, HDR, i);
        assert !FitsAt(h.blocks, h.free[j], need);
      }
    } else {
      ListedIsFree(h, h.free[k]);
      var i := IndexOf(h.blocks, h.free[k]);
      assert h.blocks[i] in h.blocks;
    }
  }

  /** Two unused blocks hold less together than all of them. */
  lemma TwoHeld(h: Heap, i: nat, j: nat)
    requires Layout(h) && i < |h.blocks| && j < |h.blocks| && i != j && !h.blocks[i].used && !h.blocks[j].used
    ensures Payload(h.blocks[i]) + Payload(h.blocks[j]) <= Held(h.blocks, false, HDR)
  {
    var f := Flag(h.blocks, i, true);
    HeldFlag(h.blocks, i, true, false, HDR);
    HeldOne(h.blocks[i], false, HDR);
    HeldOne(h.blocks[i].(used := true), false, HDR);
    hide Held;
    HeldBounds(f, false, HDR);
    assert f[j] == h.blocks[j];
  }

  /** alloc fails exactly when no unused block is large enough, or when a single unused block is left and
      the request would fill it: the test against the count of unused bytes is strict. */
  lemma AllocFailsExactly(h: Heap, n: Size)
    requires Inv(h)
    ensures Alloc(h, n).1 == Null <==>
              || (forall b :: b in h.blocks && !b.used ==> Payload(b) < Granted(n))
              || (|h.free| == 1 && forall b :: b in h.blocks && !b.used ==> Payload(b) == Granted(n))
  {
    var need := Granted(n);
    GrantedSize(n);
    FirstFitMisses(h, need);
    hide Granted, FirstFit, Take;
    if need >= h.avail && !forall b :: b in h.blocks && !b.used ==> Payload(b) < need {
      var b :| b in h.blocks && !b.used && Payload(b) >= need;
      SoleFit(h, b, need);
    }
    if |h.free| == 1 && forall b :: b in h.blocks && !b.used ==> Payload(b) == need {
      ListedIsFree(h, h.free[0]);
      SoleHeld(h, IndexOf(h.blocks, h.free[0]));
      assert h.blocks[IndexOf(h.blocks, h.free[0])] in h.blocks;
    }
  }

  /** If some block could serve a request that the count refuses, it is the only unused one and fits exactly. */
  lemma SoleFit(h: Heap, b: Block, need: nat)
    requires Inv(h) && b in h.blocks && !b.used && Payload(b) >= need >= h.avail && need >= MIN_ALLOC
    ensures |h.free| == 1 && forall x :: x in h.blocks && !x.used ==> Payload(x) == need
  {
    var i :| 0 <= i < |h.blocks| && h.blocks[i] == b;
    HeldBounds(h.blocks, false, HDR);
    forall x | x in h.blocks && !x.used ensures x == b {
      var j :| 0 <= j < |h.blocks| && h.blocks[j] == x;
      if i != j {
        TwoHeld(h, i, j);
        RoomyAt(h, j);
        hide Inv;
      }
    }
    hide Held, Tiles, Quads, Roomy, Coalesced;
    assert FreeAt(h.blocks, b.off);
    OnlyOne(h.free, b.off);
  }

  lemma RoomyAt(h: Heap, j: nat)
    requires HasTail(h.blocks, h.size) && Roomy(h.blocks) && j < |h.blocks| && !h.blocks[j].used
    requires exists i :: 0 <= i < |h.blocks| && i != j && !h.blocks[i].used
    ensures Payload(h.blocks[j]) >= MIN_ALLOC
  {
  }

  lemma OnlyOne(s: seq<nat>, x: nat)
    requires Distinct(s) && x in s && forall y :: y in s ==> y == x
    ensures s == [x]
  {
    assert |s| > 1 ==> s[0] != s[1];
    forall i | 0 <= i < |s| ensures s[i] == x { assert s[i] in s; }
  }

  lemma SoleHeld(h: Heap, i: nat)
    requires Inv(h) && i < |h.blocks| && !h.blocks[i].used && h.free == [h.blocks[i].off]
    ensures h.avail == Payload(h.blocks[i])
  {
    var f := Flag(h.blocks, i, true);
    HeldFlag(h.blocks, i, true, false, HDR);
    HeldOne(h.blocks[i], false, HDR);
    HeldOne(h.blocks[i].(used := true), false, HDR);
    forall k | 0 <= k < |f| ensures f[k].used {
      if k != i && !h.blocks[k].used {
        assert h.blocks[k] in h.blocks && FreeAt(h.blocks, h.blocks[k].off);
        OffsetsDiffer(h.blocks, h.size, HDR, i, k);
      }
    }
    NoneHeld(f);
  }

  lemma {:induction false} NoneHeld(bs: seq<Block>)
    requires forall k :: 0 <= k < |bs| ==> bs[k].used
    ensures Held(bs, false, HDR) == 0
  {
    if bs != [] { NoneHeld(bs[1..]); }
  }

  /** A fresh pool does not give out all it has: the largest request it serves is eight bytes smaller. */
  lemma FreshServesExactly(k: nat, n: Size)
    requires 2 * HDR + 16 <= 8 * k < WORD && n <= WORD - 8
    ensures Alloc(Fresh(8 * k), n).1 != Null <==> n <= 8 * k - 2 * HDR - 8
  {
    var h := Fresh(8 * k);
    hide Alloc, Granted, Inv;
    FreshKeeps(8 * k);
    AllocFailsExactly(h, n);
    assert h.blocks[0] in h.blocks && !h.blocks[0].used && Payload(h.blocks[0]) == 8 * k - 2 * HDR;
    GrantedAtLeast(n, k - 6);
  }

  lemma GrantedAtLeast(n: Size, c: nat)
    requires n <= WORD - 8 && c >= 2
    ensures Granted(n) >= 8 * c <==> n > 8 * c - 8
  {
  }

  // ----- order of calls leaves no trace in the layout

  lemma FreeUndoesAlloc(h: Heap, n: Size)
    requires Inv(h) && Alloc(h, n).1 != Null
    ensures var (h', r) := Alloc(h, n); Free(h', r).blocks == h.blocks && Free(h', r).avail == h.avail
  {
    var (h', r) := Alloc(h, n);
    var c := AllocGrants(h, n);
    AllocKeeps(h, n);
    hide Alloc, Free, Granted, FreeList, Roomy;
    FreeKeeps(h', c);
    LayoutIsCanonical(Free(h', r).blocks, h.blocks, h.size, HDR);
    hide Tiles, Quads, HasTail, Coalesced, Held;
  }

  lemma FreesCommute(h: Heap, a: Block, b: Block)
    requires Inv(h) && Owned(h, a) && Owned(h, b) && a != b
    ensures var p, q := At(a.off + HDR), At(b.off + HDR);
            Free(Free(h, p), q).blocks == Free(Free(h, q), p).blocks
              && Free(Free(h, p), q).avail == Free(Free(h, q), p).avail
  {
    hide Free, FreeList, Roomy, Live;
    var p, q := At(a.off + HDR), At(b.off + HDR);
    FreeKeeps(h, a);
    FreeKeeps(h, b);
    FreeKeeps(Free(h, p), b);
    FreeKeeps(Free(h, q), a);
    LayoutIsCanonical(Free(Free(h, p), q).blocks, Free(Free(h, q), p).blocks, h.size, HDR);
    hide Tiles, Quads, HasTail, Coalesced, Held;
  }

  /** With every client's block returned, in whatever order, the pool is as rt_memheap_init left it. */
  lemma AllFreedIsFresh(h: Heap)
    requires Inv(h) && forall b :: !Owned(h, b)
    ensures h.size >= 2 * HDR && h.blocks == Fresh(h.size).blocks && h.free == [0] && h.avail == h.size - 2 * HDR
  {
    TailLast(h);
    var f := Fresh(h.size);
    FreshKeeps(h.size);
    forall x ensures Live(h.blocks, x) <==> Live(f.blocks, x) { FreshLive(h, x); }
    LayoutIsCanonical(h.blocks, f.blocks, h.size, HDR);
    hide Tiles, Quads, Coalesced, Roomy, HasTail, FreeAt, Held;
    assert h.free == [0] by { SameList(h, f); }
  }

  lemma SameList(h: Heap, f: Heap)
    requires FreeList(h) && FreeList(f) && h.blocks == f.blocks && f.free == [0]
    ensures h.free == [0]
  {
    hide FreeAt;
    assert 0 in f.free;
    OnlyOne(h.free, 0);
  }

  lemma TailLast(h: Heap)
    requires Layout(h)
    ensures h.size >= 2 * HDR
  {
    assert h.blocks[0].end <= h.blocks[|h.blocks| - 1].off;
  }

  lemma FreshLive(h: Heap, x: Block)
    requires Layout(h) && h.size >= 2 * HDR && !Owned(h, x)
    ensures Live(h.blocks, x) <==> Live(Fresh(h.size).blocks, x)
  {
    var t := |h.blocks| - 1;
    if x in h.blocks {
      var i :| 0 <= i < |h.blocks| && h.blocks[i] == x;
      assert i < t ==> h.blocks[i].end <= h.blocks[t].off;
    }
    assert h.blocks[t] == Block(h.size - HDR, h.size, true);
    assert Fresh(h.size).blocks[1] == Block(h.size - HDR, h.size, true);
    hide Quads;
  }

  lemma FreshKeeps(size: nat)
    requires 2 * HDR <= size < WORD && size % 8 == 0
    ensures Inv(Fresh(size))
  {
    FreshLayout(size);
    FreshLists(size);
    FreshSums(size);
    hide Held, FreeAt, FreeList, Counted, Layout;
  }

  lemma FreshLayout(size: nat)
    requires 2 * HDR <= size < WORD && size % 8 == 0
    ensures Layout(Fresh(size))
  {
    FreshQuads(size);
    hide Quads;
  }

  lemma FreshQuads(size: nat)
    requires 2 * HDR <= size && size % 8 == 0
    ensures Quads(Fresh(size).blocks)
  {
    var q := size / 8;
    FourTimes(2 * q);
    FourTimes(2 * q - 6);
    assert size == 8 * q;
  }

  lemma FourTimes(q: nat)
    ensures 4 * q % 4 == 0
  {
  }

  lemma FreshLists(size: nat)
    requires 2 * HDR <= size
    ensures FreeList(Fresh(size))
  {
    assert Fresh(size).blocks[0] == Block(0, size - HDR, false);
    assert FreeAt(Fresh(size).blocks, 0);
  }

  lemma FreshSums(size: nat)
    requires 2 * HDR <= size
    ensures Counted(Fresh(size))
  {
    var b, t := Fresh(size).blocks[0], Fresh(size).blocks[1];
    HeldTwo(b, t, false, HDR);
    HeldOne(b, false, HDR);
    HeldOne(t, false, HDR);
    hide Held;
  }

  // ----- every run

  datatype Call = AllocCall(n: Size) | FreeCall(q: Ptr) | ReallocCall(q: Ptr, n: Size)

  /** Clients pass NULL or a pointer they hold. */
  ghost predicate Holds(h: Heap, q: Ptr) { q == Null || exists b :: Owned(h, b) && q == At(b.off + HDR) }

  ghost predicate Legal(h: Heap, c: Call) {
    match c
    case AllocCall(_) => true
    case FreeCall(q) => Holds(h, q)
    case ReallocCall(q, n) => Holds(h, q) && !Overruns(h, q, n)
  }

  function Step(h: Heap, c: Call): Heap {
    match c
    case AllocCall(n) => Alloc(h, n).0
    case FreeCall(q) => Free(h, q)
    case ReallocCall(q, n) => Realloc(h, q, n).0
  }

  ghost predicate LegalRun(h: Heap, cs: seq<Call>)
    decreases |cs|
  {
    cs != [] ==> Legal(h, cs[0]) && LegalRun(Step(h, cs[0]), cs[1..])
  }

  function After(h: Heap, cs: seq<Call>): Heap
    decreases |cs|
  {
    if cs == [] then h else After(Step(h, cs[0]), cs[1..])
  }

  lemma FreeHeldKeeps(h: Heap, q: Ptr)
    requires Inv(h) && Holds(h, q)
    ensures Inv(Free(h, q)) && Free(h, q).size == h.size
  {
    hide Inv, Owned, Live, Release, IndexOf;
    if q != Null {
      var b :| Owned(h, b) && q == At(b.off + HDR);
      FreeKeeps(h, b);
    }
  }

  lemma ReallocHeldKeeps(h: Heap, q: Ptr, n: Size)
    requires Inv(h) && Holds(h, q) && !Overruns(h, q, n)
    ensures Inv(Realloc(h, q, n).0) && Realloc(h, q, n).0.size == h.size
  {
    hide Inv, Owned, Free, Resize, Alloc, Granted, IndexOf, Overruns;
    if n == 0 {
      FreeHeldKeeps(h, q);
    } else if q == Null {
      GrantedSize(n);
      AllocKeeps(h, Granted(n));
      AllocSize(h, Granted(n));
    } else {
      var b :| Owned(h, b) && q == At(b.off + HDR);
      var c := ReallocKeeps(h, b, n);
    }
  }

  /** Of the calls on held pointers the one that wraps round, and no other, breaks the pool. */
  lemma ReallocKeepsExactly(h: Heap, q: Ptr, n: Size)
    requires Inv(h) && Holds(h, q)
    ensures Inv(Realloc(h, q, n).0) <==> !Overruns(h, q, n)
  {
    hide Inv, Holds, Realloc, Overruns;
    if Overruns(h, q, n) {
      OverrunBreaks(h, q, n);
    } else {
      ReallocHeldKeeps(h, q, n);
    }
  }

  lemma OverrunBreaks(h: Heap, q: Ptr, n: Size)
    requires Inv(h) && Holds(h, q) && Overruns(h, q, n)
    ensures !Inv(Realloc(h, q, n).0)
  {
    hide Layout, Counted, Coalesced, FreeList, Roomy, IndexOf, Granted, Stretch, Live;
    var b :| Owned(h, b) && q == At(b.off + HDR);
    var i := OwnedAt(h, b);
    GrantedSize(n);
    OverrunGrows(h, i, Granted(n));
    ResizeGrows(h, i, Granted(n));
    ReallocIsResize(h, b, n, i);
    StretchedHeader(h, i, Granted(n));
  }

  lemma OverrunGrows(h: Heap, i: nat, need: nat)
    requires Inv(h) && i < |h.blocks| - 1 && h.blocks[i].used && RightFree(h.blocks, i)
    requires WORD - MIN_ALLOC <= need <= WORD - 8
    ensures CanGrow(h.blocks, i, need) && need > Payload(h.blocks[i])
  {
    hide Layout, Coalesced, FreeList, Counted;
    GrowTest(h, i, need);
    TilesHere(h, i);
    assert Payload(h.blocks[i]) >= MIN_ALLOC;
  }

  /** The new header comes to lie inside the block's own. */
  lemma StretchedHeader(h: Heap, i: nat, need: nat)
    requires Inv(h) && i + 1 < |h.blocks| && WORD - MIN_ALLOC <= need <= WORD - 8
    ensures var bs := Stretch(h, i, need).blocks; i < |bs| && bs[i].end == bs[i].off + HDR + need - WORD
    ensures !Inv(Stretch(h, i, need))
  {
    hide Layout, Coalesced, FreeList, Counted, Roomy, Merge;
    TilesHere(h, i);
    MergeHead(h.blocks, i);
    var bs := Stretch(h, i, need).blocks;
    TilesRoom(Stretch(h, i, need), i);
  }

  lemma TilesRoom(h: Heap, i: nat)
    requires i < |h.blocks|
    ensures Layout(h) ==> h.blocks[i].off + HDR <= h.blocks[i].end
  {
  }

  /** One call shows it: a client of 16 bytes asks for all but the last seven of a 32-bit size, and is told
      that it has them. */
  lemma OverrunOccurs()
    ensures var h := Alloc(Fresh(1024), 16).0;
            var (r, p) := Realloc(h, At(HDR), WORD - 8);
            && Inv(h) && Owned(h, Block(0, 40, true)) && p == At(HDR)
            && r.blocks == [Block(0, 16, true), Block(16, 1000, false), Block(1000, 1024, true)]
            && r.avail == h.avail + 24
  {
    FreshKeeps(1024);
    AllocKeeps(Fresh(1024), 16);
    hide Inv, Alloc, Fresh, Realloc, Stretch;
    SixteenTaken();
    ThenStretched(Alloc(Fresh(1024), 16).0);
    assert Block(0, 40, true) == Alloc(Fresh(1024), 16).0.blocks[0];
  }

  lemma SixteenTaken()
    ensures var h := Alloc(Fresh(1024), 16).0;
            && h.blocks == [Block(0, 40, true), Block(40, 1000, false), Block(1000, 1024, true)]
            && h.size == 1024 && h.avail == 936
  {
    var f := Fresh(1024);
    assert AlignUp(16) == 16;
    assert FirstFit(f.blocks, f.free, 16) == 0;
    hide FirstFit;
  }

  lemma ThenStretched(h: Heap)
    requires h.blocks == [Block(0, 40, true), Block(40, 1000, false), Block(1000, 1024, true)] && h.avail == 936
    ensures var (r, p) := Realloc(h, At(HDR), WORD - 8);
            && p == At(HDR) && r.blocks == [Block(0, 16, true), Block(16, 1000, false), Block(1000, 1024, true)]
              && r.avail == 960
  {
    hide Alloc, Free, Shrink, Without;
    assert AlignUp(WORD - 8) == WORD - 8;
    assert IndexOf(h.blocks, 0) == 0;
    assert Merge(h.blocks, 0) == [Block(0, 1000, true), Block(1000, 1024, true)];
  }

  lemma AllocSize(h: Heap, n: Size)
    ensures Alloc(h, n).0.size == h.size
  {
    hide FirstFit, Granted, IndexOf;
  }

  lemma StepKeeps(h: Heap, c: Call)
    requires Inv(h) && Legal(h, c)
    ensures Inv(Step(h, c)) && Step(h, c).size == h.size
  {
    hide Inv, Alloc, Free, Realloc, Holds, Overruns;
    match c
    case AllocCall(n) => AllocKeeps(h, n); AllocSize(h, n);
    case FreeCall(q) => FreeHeldKeeps(h, q);
    case ReallocCall(q, n) => ReallocHeldKeeps(h, q, n);
  }

  /** From rt_memheap_init on, through any calls on held pointers: the blocks tile the pool, the free list
      is exactly the unused blocks, no two neighbours are unused, and no byte is miscounted. */
  lemma {:induction false} RunsKeepInvariant(h: Heap, cs: seq<Call>)
    requires Inv(h) && LegalRun(h, cs)
    ensures Inv(After(h, cs)) && After(h, cs).size == h.size
    decreases |cs|
  {
    hide Inv, Step, Legal;
    if cs != [] {
      StepKeeps(h, cs[0]);
      RunsKeepInvariant(Step(h, cs[0]), cs[1..]);
    }
  }

  lemma RunsConserve(size: nat, cs: seq<Call>)
    requires 2 * HDR <= size < WORD && size % 8 == 0 && LegalRun(Fresh(size), cs)
    ensures var h := After(Fresh(size), cs);
            && h.avail + Held(h.blocks, true, HDR) + HDR * |h.blocks| == size
            && h.avail == Held(h.blocks, false, HDR)
            && (forall p :: p in h.free <==> FreeAt(h.blocks, p)) && Coalesced(h.blocks) && Tiles(h.blocks, size, HDR)
  {
    hide After, LegalRun, Fresh, Held, Tiles, Coalesced, FreeAt, Distinct, Quads, HasTail, Roomy;
    FreshKeeps(size);
    FreshSize(size);
    RunsKeepInvariant(Fresh(size), cs);
    Conserved(After(Fresh(size), cs));
  }

  lemma FreshSize(size: nat)
    requires 2 * HDR <= size
    ensures Fresh(size).size == size
  {
  }
}
