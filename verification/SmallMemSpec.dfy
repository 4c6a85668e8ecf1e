/** What the small-memory allocator does to the heap layout, call by call, and what
    follows for whole runs of malloc, realloc and free. */
module SmallMemSpec {
  import opened Tiling

  const HDR := 16                   // SIZEOF_STRUCT_MEM
  const MIN_SIZE: nat := 12
  const MIN_ALIGNED: nat := 16           // MIN_SIZE_ALIGNED

  /** `lfree` is the search hint, `held` the statistics counter used_mem, `peak` max_mem. */
  datatype Heap = Heap(size: nat, blocks: seq<Block>, lfree: nat, held: int, peak: int) {
    function Top(): nat { size + HDR }

    ghost predicate Inv() {
      && size % 8 == 0 && MIN_ALIGNED <= size && size + 2 * HDR < WORD
      && Tiles(blocks, Top(), HDR) && Aligned(blocks) && Coalesced(blocks)
      && blocks[|blocks| - 1].off + HDR < Top()
      && held == Held(blocks, true, 0) && held <= peak
      && (lfree == Top() || FreeAt(lfree))
    }

    /** An unused block starts at p. */
    ghost predicate FreeAt(p: nat) {
      exists i :: 0 <= i < |blocks| && blocks[i].off == p && !blocks[i].used
    }

    /** Every free block lies at or above the hint. */
    ghost predicate HintIsLowest() {
      forall i :: 0 <= i < |blocks| && !blocks[i].used ==> lfree <= blocks[i].off
    }

    /** q points to the payload of the used block b. */
    predicate PayloadOf(b: Block, q: Ptr) { Live(blocks, b) && q == At(b.off + HDR) }

    predicate OutOfRange(q: Ptr) { q.At? && (q.addr < 0 || q.addr >= Top()) }

    ghost predicate IsLive(q: Ptr) { exists b :: PayloadOf(b, q) }
  }

  function Payload(b: Block): int { b.end - b.off - HDR }

  /** The layout after rt_system_heap_init. */
  function Fresh(size: nat): Heap {
    Heap(size, [Block(0, size + HDR, false)], 0, 0, 0)
  }

  /** RT_ALIGN_SIZE is 8. */
  ghost predicate Aligned(bs: seq<Block>) {
    forall i :: 0 <= i < |bs| ==> bs[i].off % 8 == 0 && bs[i].end % 8 == 0
  }

  lemma EditsAligned(bs: seq<Block>, i: nat)
    requires Aligned(bs) && i < |bs|
    ensures forall u :: Aligned(Flag(bs, i, u))
    ensures i + 1 < |bs| ==> Aligned(Merge(bs, i))
  {
  }

  lemma SplitAligned(bs: seq<Block>, i: nat, mid: nat, l: bool, r: bool)
    requires Aligned(bs) && i < |bs| && mid % 8 == 0
    ensures Aligned(Split(bs, i, mid, l, r))
  {
  }

  // ----- malloc

  /** The test of the search loop, bound included. */
  predicate Fits(b: Block, need: nat, bound: int) {
    !b.used && Payload(b) >= need && b.off < bound
  }

  function FirstFit(bs: seq<Block>, from: nat, need: nat, bound: int): (k: nat)
    ensures k <= |bs|
    ensures k < |bs| ==> from <= bs[k].off && Fits(bs[k], need, bound)
    ensures forall j :: 0 <= j < k && from <= bs[j].off ==> !Fits(bs[j], need, bound)
  {
    if |bs| == 0 || (from <= bs[0].off && Fits(bs[0], need, bound)) then 0
    else FirstFit(bs[1..], from, need, bound) + 1
  }

  function NextFree(bs: seq<Block>, i: nat, top: nat): (p: nat)
    requires i <= |bs|
    ensures p == top || exists j :: i <= j < |bs| && bs[j].off == p && !bs[j].used
    decreases |bs| - i
  {
    if i == |bs| then top else if !bs[i].used then bs[i].off else NextFree(bs, i + 1, top)
  }

  function Max(a: int, b: int): int { if a < b then b else a }

  /** Block i is handed out: cut to `need` bytes when the rest can hold a block of its own. */
  function Carve(bs: seq<Block>, i: nat, need: nat): seq<Block>
    requires i < |bs|
  {
    if Payload(bs[i]) >= need + HDR + MIN_ALIGNED
    then Split(bs, i, bs[i].off + HDR + need, true, false)
    else Flag(bs, i, true)
  }

  function Granted(n: Size): nat { var a := AlignUp(n); if a < MIN_ALIGNED then MIN_ALIGNED else a }

  function Malloc(h: Heap, n: Size): (Heap, Ptr) {
    if n == 0 || AlignUp(n) > h.size then (h, Null) else Serve(h, Granted(n))
  }

  function Serve(h: Heap, need: nat): (Heap, Ptr) {
    var k := FirstFit(h.blocks, h.lfree, need, h.size - need);
    if k == |h.blocks| then (h, Null)
    else (Take(h, k, need), At(h.blocks[k].off + HDR))
  }

  /** The heap once block k is handed out; the hint moves on only if it pointed there. */
  function Take(h: Heap, k: nat, need: nat): Heap
    requires k < |h.blocks|
  {
    var bs := Carve(h.blocks, k, need);
    var held := h.held + (bs[k].end - bs[k].off);
    var lfree := if h.lfree == bs[k].off then NextFree(bs, k, h.Top()) else h.lfree;
    Heap(h.size, bs, lfree, held, Max(h.peak, held))
  }

  // ----- free

  /** plug_holes on the free block i: first absorb the next block, then be absorbed by the previous one. */
  function PlugHoles(h: Heap, i: nat): Heap
    requires i < |h.blocks|
  {
    var off := h.blocks[i].off;
    var forward := i + 1 < |h.blocks| && !h.blocks[i + 1].used;
    var f := if forward
             then h.(blocks := Merge(h.blocks, i), lfree := if h.lfree == h.blocks[i + 1].off then off else h.lfree)
             else h;
    if i > 0 && !f.blocks[i - 1].used
    then f.(blocks := Merge(f.blocks, i - 1), lfree := if f.lfree == off then f.blocks[i - 1].off else f.lfree)
    else f
  }

  function Release(h: Heap, i: nat): Heap
    requires i < |h.blocks|
  {
    PlugHoles(Unmark(h, i), i)
  }

  /** Block i marked unused, the hint lowered to it, its bytes given back; its neighbours untouched. */
  function Unmark(h: Heap, i: nat): (r: Heap)
    requires i < |h.blocks|
    ensures |r.blocks| == |h.blocks|
    ensures forall j :: 0 <= j < |h.blocks| ==> r.blocks[j].off == h.blocks[j].off
  {
    var b := h.blocks[i];
    h.(blocks := Flag(h.blocks, i, false),
       lfree := if b.off < h.lfree then b.off else h.lfree,
       held := h.held - (b.end - b.off))
  }

  function Free(h: Heap, q: Ptr): Heap {
    if q.Null? || h.OutOfRange(q) || q.addr < HDR then h
    else
      var i := IndexOf(h.blocks, q.addr - HDR);
      if i == |h.blocks| then h else Release(h, i)
  }

  // ----- realloc

  function Shrink(h: Heap, i: nat, need: nat): Heap
    requires i < |h.blocks|
  {
    PlugHoles(Cut(h, i, need), i + 1)
  }

  function Cut(h: Heap, i: nat, need: nat): (r: Heap)
    requires i < |h.blocks|
    ensures i + 1 < |r.blocks|
  {
    var b := h.blocks[i];
    h.(blocks := Split(h.blocks, i, b.off + HDR + need, true, false),
       held := h.held - (Payload(b) - need))
  }

  function Realloc(h: Heap, q: Ptr, n: Size): (Heap, Ptr) {
    var need := AlignUp(n);
    if need > h.size then (h, Null)
    else if q.Null? then Malloc(h, need)
    else if h.OutOfRange(q) || q.addr < HDR then (h, q)
    else
      var i := IndexOf(h.blocks, q.addr - HDR);
      if i == |h.blocks| then (h, q) else Resize(h, i, need)
  }

  /** A block that is exactly right stays, one that is much too large is cut, any other is replaced. */
  function Resize(h: Heap, i: nat, need: Size): (Heap, Ptr)
    requires i < |h.blocks|
  {
    var q := At(h.blocks[i].off + HDR);
    if Payload(h.blocks[i]) == need then (h, q)
    else if Shrinks(h.blocks[i], need) then (Shrink(h, i, need), q)
    else
      var (h', r) := Malloc(h, need);
      if r.Null? then (h', r) else (Free(h', q), r)
  }

  predicate Shrinks(b: Block, need: Size) { need + HDR + MIN_SIZE < Payload(b) }

  // ----- every call keeps the invariant

  lemma CarveTiles(bs: seq<Block>, k: nat, need: nat, top: nat)
    requires Tiles(bs, top, HDR) && k < |bs|
    ensures Tiles(Carve(bs, k, need), top, HDR)
  {
    hide Tiles, Split, Flag;
    FlagTiles(bs, k, true, top, HDR);
    if Payload(bs[k]) >= need + HDR + MIN_ALIGNED {
      SplitTiles(bs, k, bs[k].off + HDR + need, true, false, top, HDR);
    }
  }

  lemma CarveAligned(bs: seq<Block>, k: nat, need: nat)
    requires Aligned(bs) && k < |bs| && need % 8 == 0
    ensures Aligned(Carve(bs, k, need))
  {
    hide Split, Flag;
    AlignedSum(bs[k].off, need);
    EditsAligned(bs, k);
    SplitAligned(bs, k, bs[k].off + HDR + need, true, false);
    hide Aligned;
  }

  lemma AlignedSum(a: nat, b: nat)
    requires a % 8 == 0 && b % 8 == 0
    ensures (a + HDR + b) % 8 == 0
  {
  }

  lemma CarveLeavesRoom(h: Heap, k: nat, need: nat)
    requires h.Inv() && k < |h.blocks|
    ensures var bs := Carve(h.blocks, k, need); |bs| > 0 && bs[|bs| - 1].off + HDR < h.Top()
  {
    hide Aligned, Coalesced, Held;
  }

  lemma CarveCoalesced(bs: seq<Block>, k: nat, need: nat)
    requires Coalesced(bs) && k < |bs| && !bs[k].used
    ensures Coalesced(Carve(bs, k, need))
  {
  }

  lemma CarveHeld(bs: seq<Block>, k: nat, need: nat)
    requires k < |bs| && !bs[k].used
    ensures var r := Carve(bs, k, need); Held(r, true, 0) == Held(bs, true, 0) + (r[k].end - r[k].off)
  {
    var b := bs[k];
    HeldOne(b, true, 0);
    if Payload(b) >= need + HDR + MIN_ALIGNED {
      var mid := b.off + HDR + need;
      HeldSplit(bs, k, mid, true, false, true, 0);
      HeldOne(Block(b.off, mid, true), true, 0);
      HeldOne(Block(mid, b.end, false), true, 0);
    } else {
      HeldFlag(bs, k, true, true, 0);
      HeldOne(b.(used := true), true, 0);
    }
  }

  lemma TakeHint(h: Heap, k: nat, need: nat)
    requires Tiles(h.blocks, h.Top(), HDR) && k < |h.blocks| && h.lfree <= h.blocks[k].off && h.FreeAt(h.lfree)
    ensures var h' := Take(h, k, need); h'.lfree == h'.Top() || h'.FreeAt(h'.lfree)
  {
    var h' := Take(h, k, need);
    if h.lfree != h.blocks[k].off {
      var i :| 0 <= i < |h.blocks| && h.blocks[i].off == h.lfree && !h.blocks[i].used;
      assert i < k;
      assert h'.blocks[i] == h.blocks[i];
    }
  }

  lemma TakeKeeps(h: Heap, k: nat, need: nat)
    requires h.Inv() && k < |h.blocks| && !h.blocks[k].used && need % 8 == 0
    requires h.lfree <= h.blocks[k].off
    ensures Take(h, k, need).Inv()
  {
    CarveTiles(h.blocks, k, need, h.Top());
    CarveAligned(h.blocks, k, need);
    CarveLeavesRoom(h, k, need);
    CarveCoalesced(h.blocks, k, need);
    CarveHeld(h.blocks, k, need);
    assert h.blocks[k].off < h.Top();
    TakeHint(h, k, need);
    hide Tiles, Aligned, Coalesced, Held, Carve, NextFree, Heap.FreeAt;
  }

  lemma MallocKeeps(h: Heap, n: Size)
    requires h.Inv()
    ensures Malloc(h, n).0.Inv()
  {
    hide Tiles, Aligned, Coalesced, Held, Carve, AlignUp, Take, Heap.FreeAt;
    if n != 0 && AlignUp(n) <= h.size {
      var need := Granted(n);
      var k := FirstFit(h.blocks, h.lfree, need, h.size - need);
      if k < |h.blocks| { TakeKeeps(h, k, need); }
    }
  }

  /** What plug_holes needs of its caller: the layout is right but for free neighbours of block i. */
  ghost predicate Pluggable(h: Heap, i: nat) {
    && h.size % 8 == 0 && MIN_ALIGNED <= h.size && h.size + 2 * HDR < WORD
    && Tiles(h.blocks, h.Top(), HDR) && Aligned(h.blocks)
    && i < |h.blocks| && !h.blocks[i].used && CoalescedBut(h.blocks, i)
    && h.blocks[|h.blocks| - 1].off + HDR < h.Top()
    && h.held == Held(h.blocks, true, 0) && h.held <= h.peak
    && (h.lfree == h.Top() || h.FreeAt(h.lfree))
  }

  /** One merge of two free blocks inside plug_holes; the hint moves only off a header that vanishes. */
  function Absorb(h: Heap, i: nat): Heap
    requires i + 1 < |h.blocks|
  {
    h.(blocks := Merge(h.blocks, i),
       lfree := if h.lfree == h.blocks[i + 1].off then h.blocks[i].off else h.lfree)
  }

  lemma AbsorbKeeps(h: Heap, i: nat)
    requires Tiles(h.blocks, h.Top(), HDR) && Aligned(h.blocks)
    requires i + 1 < |h.blocks| && !h.blocks[i].used && !h.blocks[i + 1].used
    ensures Tiles(Absorb(h, i).blocks, h.Top(), HDR) && Aligned(Absorb(h, i).blocks)
    ensures Absorb(h, i).size == h.size && Absorb(h, i).held == h.held && Absorb(h, i).peak == h.peak
    ensures i < |Absorb(h, i).blocks| && !Absorb(h, i).blocks[i].used
    ensures i > 0 ==> Absorb(h, i).blocks[i - 1] == h.blocks[i - 1]
    ensures var bs := Absorb(h, i).blocks; bs[|bs| - 1].off <= h.blocks[|h.blocks| - 1].off
    ensures Held(Absorb(h, i).blocks, true, 0) == Held(h.blocks, true, 0)
    ensures forall x :: Live(Absorb(h, i).blocks, x) <==> Live(h.blocks, x)
  {
    MergeTiles(h.blocks, i, h.Top(), HDR);
    EditsAligned(h.blocks, i);
    HeldMerge(h.blocks, i, true, 0);
    HeldOne(h.blocks[i], true, 0);
    HeldOne(h.blocks[i + 1], true, 0);
    HeldOne(Merge(h.blocks, i)[i], true, 0);
    forall x ensures Live(Absorb(h, i).blocks, x) <==> Live(h.blocks, x) { MergeLive(h.blocks, i, x); }
  }

  lemma AbsorbHint(h: Heap, i: nat)
    requires Tiles(h.blocks, h.Top(), HDR)
    requires i + 1 < |h.blocks| && !h.blocks[i].used
    requires h.lfree == h.Top() || h.FreeAt(h.lfree)
    ensures var r := Absorb(h, i); r.lfree == r.Top() || r.FreeAt(r.lfree)
  {
    var r := Absorb(h, i);
    if h.lfree != h.Top() {
      hide Tiles;
      var j :| 0 <= j < |h.blocks| && h.blocks[j].off == h.lfree && !h.blocks[j].used;
      OffsetsDiffer(h.blocks, h.Top(), HDR, i + 1, j);
      assert r.blocks[i].off == h.blocks[i].off && !r.blocks[i].used;
      assert j <= i ==> r.blocks[j].off == h.blocks[j].off && !r.blocks[j].used;
      assert j > i + 1 ==> r.blocks[j - 1] == h.blocks[j];
    }
  }

  lemma AbsorbLowers(h: Heap, i: nat)
    requires Tiles(h.blocks, h.Top(), HDR)
    requires i + 1 < |h.blocks| && !h.blocks[i].used && !h.blocks[i + 1].used
    requires h.HintIsLowest()
    ensures Absorb(h, i).HintIsLowest()
  {
    var r := Absorb(h, i);
    forall k | 0 <= k < |r.blocks| && !r.blocks[k].used ensures r.lfree <= r.blocks[k].off {
      var o := if k <= i then k else k + 1;
      assert !h.blocks[o].used && r.blocks[k].off == h.blocks[o].off;
      assert h.lfree <= h.blocks[i].off < h.blocks[i + 1].off;
    }
  }

  lemma PlugIsAbsorb(h: Heap, i: nat)
    requires Pluggable(h, i)
    ensures var f := if i + 1 < |h.blocks| && !h.blocks[i + 1].used then Absorb(h, i) else h;
            && i < |f.blocks| && !f.blocks[i].used
            && PlugHoles(h, i) == if i > 0 && !f.blocks[i - 1].used then Absorb(f, i - 1) else f
  {
  }

  lemma PlugKeeps(h: Heap, i: nat)
    requires Pluggable(h, i)
    ensures var r := PlugHoles(h, i);
            && r.Inv() && r.size == h.size && r.held == h.held && r.peak == h.peak
            && (forall x :: Live(r.blocks, x) <==> Live(h.blocks, x))
  {
    hide Aligned, Held, Live, Tiles, Coalesced, CoalescedBut, PlugHoles, Absorb, Merge, Heap.FreeAt;
    PlugIsAbsorb(h, i);
    PlugCoalesces(h, i);
    var f := h;
    if i + 1 < |h.blocks| && !h.blocks[i + 1].used {
      AbsorbKeeps(h, i);
      AbsorbHint(h, i);
      f := Absorb(h, i);
    }
    if i > 0 && !f.blocks[i - 1].used {
      AbsorbKeeps(f, i - 1);
      AbsorbHint(f, i - 1);
    }
  }

  lemma PlugKeepsLowest(h: Heap, i: nat)
    requires Pluggable(h, i) && h.HintIsLowest()
    ensures PlugHoles(h, i).HintIsLowest()
  {
    hide Aligned, Held, Live, Tiles, Coalesced, CoalescedBut, PlugHoles, Absorb, Merge, Heap.FreeAt, Heap.HintIsLowest;
    PlugIsAbsorb(h, i);
    var f := h;
    if i + 1 < |h.blocks| && !h.blocks[i + 1].used {
      AbsorbKeeps(h, i);
      AbsorbLowers(h, i);
      f := Absorb(h, i);
    }
    if i > 0 && !f.blocks[i - 1].used { AbsorbLowers(f, i - 1); }
  }

  lemma PlugCoalesces(h: Heap, i: nat)
    requires Pluggable(h, i)
    ensures Coalesced(PlugHoles(h, i).blocks)
  {
    hide Tiles, Aligned, Held, Merge, Heap.FreeAt;
    var bs := h.blocks;
    if i + 1 < |bs| && !bs[i + 1].used {
      CoalesceForward(bs, i);
      bs := Merge(bs, i);
    }
    if i > 0 && !bs[i - 1].used { CoalesceBackward(bs, i); }
  }

  lemma CoalesceForward(bs: seq<Block>, i: nat)
    requires CoalescedBut(bs, i) && i + 1 < |bs| && !bs[i].used && !bs[i + 1].used
    ensures var m := Merge(bs, i);
            && CoalescedBut(m, i) && i < |m| && !m[i].used && (i + 1 < |m| ==> m[i + 1].used)
            && (i > 0 ==> m[i - 1] == bs[i - 1])
  {
  }

  lemma CoalesceBackward(bs: seq<Block>, i: nat)
    requires CoalescedBut(bs, i) && 0 < i < |bs| && !bs[i - 1].used && (i + 1 < |bs| ==> bs[i + 1].used)
    ensures Coalesced(Merge(bs, i - 1))
  {
  }

  lemma UnmarkLayout(h: Heap, i: nat)
    requires Tiles(h.blocks, h.Top(), HDR) && Aligned(h.blocks) && i < |h.blocks| && h.blocks[i].used
    ensures var g := Unmark(h, i);
            && Tiles(g.blocks, h.Top(), HDR) && Aligned(g.blocks) && !g.blocks[i].used
            && Held(g.blocks, true, 0) == Held(h.blocks, true, 0) - (h.blocks[i].end - h.blocks[i].off)
            && (forall x :: Live(g.blocks, x) <==> Live(h.blocks, x) && x != h.blocks[i])
  {
    FlagTiles(h.blocks, i, false, h.Top(), HDR);
    EditsAligned(h.blocks, i);
    HeldFlag(h.blocks, i, false, true, 0);
    HeldOne(h.blocks[i], true, 0);
    HeldOne(h.blocks[i].(used := false), true, 0);
    forall x ensures Live(Unmark(h, i).blocks, x) <==> Live(h.blocks, x) && x != h.blocks[i] {
      FlagLive(h.blocks, i, h.Top(), HDR, x);
    }
  }

  lemma UnmarkHint(h: Heap, i: nat)
    requires i < |h.blocks| && h.blocks[i].used && h.blocks[i].off < h.Top()
    requires h.lfree == h.Top() || h.FreeAt(h.lfree)
    ensures var g := Unmark(h, i);
            && (g.lfree == g.Top() || g.FreeAt(g.lfree))
            && (h.HintIsLowest() ==> g.HintIsLowest())
  {
    var g := Unmark(h, i);
    assert g.blocks[i].off == h.blocks[i].off && !g.blocks[i].used;
    if h.lfree != h.Top() {
      var j :| 0 <= j < |h.blocks| && h.blocks[j].off == h.lfree && !h.blocks[j].used;
      assert g.blocks[j] == h.blocks[j];
    }
  }

  lemma UnmarkIsPluggable(h: Heap, i: nat)
    requires h.Inv() && i < |h.blocks| && h.blocks[i].used
    ensures Pluggable(Unmark(h, i), i)
    ensures h.HintIsLowest() ==> Unmark(h, i).HintIsLowest()
  {
    hide Tiles, Aligned, Held, Live, Flag, Coalesced, CoalescedBut, Heap.FreeAt, Heap.HintIsLowest;
    UnmarkShape(h, i);
    UnmarkLayout(h, i);
    UnmarkHint(h, i);
  }

  lemma UnmarkShape(h: Heap, i: nat)
    requires h.Inv() && i < |h.blocks|
    ensures h.blocks[i].off < h.Top() && h.blocks[i].off <= h.blocks[i].end && CoalescedBut(Unmark(h, i).blocks, i)
  {
    hide Aligned, Held, Heap.FreeAt;
  }

  lemma ReleaseKeeps(h: Heap, i: nat)
    requires h.Inv() && i < |h.blocks| && h.blocks[i].used
    ensures var r := Release(h, i);
            && r.Inv() && r.size == h.size && r.held == h.held - (h.blocks[i].end - h.blocks[i].off) && r.peak == h.peak
            && (forall x :: Live(r.blocks, x) <==> Live(h.blocks, x) && x != h.blocks[i])
            && (h.HintIsLowest() ==> r.HintIsLowest())
  {
    hide Tiles, Aligned, Held, Live, Flag, Coalesced, CoalescedBut, PlugHoles, Heap.FreeAt, Heap.HintIsLowest;
    UnmarkIsPluggable(h, i);
    UnmarkLayout(h, i);
    PlugKeeps(Unmark(h, i), i);
    if h.HintIsLowest() { PlugKeepsLowest(Unmark(h, i), i); }
  }

  lemma FreeIsRelease(h: Heap, i: nat)
    requires h.Inv() && i < |h.blocks|
    ensures Free(h, At(h.blocks[i].off + HDR)) == Release(h, i)
  {
    assert i < |h.blocks| - 1 ==> h.blocks[i].end <= h.blocks[|h.blocks| - 1].off;
    assert h.blocks[i].off + HDR < h.Top();
    IndexOfBlock(h.blocks, h.Top(), HDR, i);
    hide PlugHoles;
  }

  lemma FreeKeeps(h: Heap, b: Block)
    requires h.Inv() && Live(h.blocks, b)
    ensures var r := Free(h, At(b.off + HDR));
            && r.Inv() && r.size == h.size && r.held == h.held - (b.end - b.off) && r.peak == h.peak
            && (forall x :: Live(r.blocks, x) <==> Live(h.blocks, x) && x != b)
            && (h.HintIsLowest() ==> r.HintIsLowest())
  {
    hide Tiles, Aligned, Held, Coalesced, Release, Free, Heap.FreeAt, Heap.HintIsLowest;
    var i :| 0 <= i < |h.blocks| && h.blocks[i] == b;
    FreeIsRelease(h, i);
    ReleaseKeeps(h, i);
  }

  // ----- shrinking in place

  ghost predicate Shrinkable(h: Heap, i: nat, need: nat) {
    h.Inv() && i < |h.blocks| && h.blocks[i].used && need % 8 == 0 && need + HDR + MIN_SIZE < Payload(h.blocks[i])
  }

  lemma CutLayout(h: Heap, i: nat, need: nat)
    requires Shrinkable(h, i, need)
    ensures Tiles(Cut(h, i, need).blocks, h.Top(), HDR) && Aligned(Cut(h, i, need).blocks)
  {
    hide Tiles, Aligned, Coalesced, Held, Split, Heap.FreeAt;
    var b := h.blocks[i];
    AlignedAt(h.blocks, i);
    AlignedSum(b.off, need);
    SplitTiles(h.blocks, i, b.off + HDR + need, true, false, h.Top(), HDR);
    SplitAligned(h.blocks, i, b.off + HDR + need, true, false);
  }

  lemma AlignedAt(bs: seq<Block>, i: nat)
    requires Aligned(bs) && i < |bs|
    ensures bs[i].off % 8 == 0 && bs[i].end % 8 == 0
  {
  }

  lemma CutHeld(h: Heap, i: nat, need: nat)
    requires i < |h.blocks| && h.blocks[i].used
    ensures Held(Cut(h, i, need).blocks, true, 0) == Held(h.blocks, true, 0) - (Payload(h.blocks[i]) - need)
  {
    var b := h.blocks[i];
    var mid := b.off + HDR + need;
    HeldSplit(h.blocks, i, mid, true, false, true, 0);
    HeldOne(b, true, 0);
    HeldOne(Block(b.off, mid, true), true, 0);
    HeldOne(Block(mid, b.end, false), true, 0);
  }

  lemma CutShape(h: Heap, i: nat, need: nat)
    requires Shrinkable(h, i, need)
    ensures var g := Cut(h, i, need);
            CoalescedBut(g.blocks, i + 1) && !g.blocks[i + 1].used && g.blocks[|g.blocks| - 1].off + HDR < h.Top()
  {
    hide Aligned, Held, Heap.FreeAt;
  }

  lemma ShrinkIsPluggable(h: Heap, i: nat, need: nat)
    requires Shrinkable(h, i, need)
    ensures Pluggable(Cut(h, i, need), i + 1)
  {
    hide Tiles, Aligned, Coalesced, CoalescedBut, Held, Split, Heap.FreeAt;
    CutLayout(h, i, need);
    CutHeld(h, i, need);
    CutShape(h, i, need);
    CutHint(h, i, need);
  }

  lemma CutHint(h: Heap, i: nat, need: nat)
    requires i < |h.blocks| && h.blocks[i].used && (h.lfree == h.Top() || h.FreeAt(h.lfree))
    ensures var g := Cut(h, i, need); g.lfree == g.Top() || g.FreeAt(g.lfree)
  {
    var g := Cut(h, i, need);
    if h.lfree != h.Top() {
      var j :| 0 <= j < |h.blocks| && h.blocks[j].off == h.lfree && !h.blocks[j].used;
      assert if j < i then g.blocks[j] == h.blocks[j] else g.blocks[j + 1] == h.blocks[j];
    }
  }

  lemma ShrinkKeeps(h: Heap, i: nat, need: nat)
    requires Shrinkable(h, i, need)
    ensures var r := Shrink(h, i, need); var b := h.blocks[i];
            && r.Inv() && r.size == h.size
            && (forall x :: Live(r.blocks, x) <==>
                 (Live(h.blocks, x) && x != b) || x == Block(b.off, b.off + HDR + need, true))
  {
    hide Tiles, Aligned, Coalesced, Held, Split, PlugHoles, Heap.FreeAt, Live;
    ShrinkIsPluggable(h, i, need);
    PlugKeeps(Cut(h, i, need), i + 1);
    CutLive(h, i, need);
  }

  lemma CutLive(h: Heap, i: nat, need: nat)
    requires Shrinkable(h, i, need)
    ensures var b := h.blocks[i];
            forall x :: Live(Cut(h, i, need).blocks, x)
                   <==> (Live(h.blocks, x) && x != b) || x == Block(b.off, b.off + HDR + need, true)
  {
    hide Tiles, Aligned, Coalesced, Held, Split, Heap.FreeAt, Live;
    var b := h.blocks[i];
    forall x
      ensures Live(Cut(h, i, need).blocks, x) <==>
                (Live(h.blocks, x) && x != b) || x == Block(b.off, b.off + HDR + need, true)
    {
      SplitLive(h.blocks, i, b.off + HDR + need, x, h.Top(), HDR);
    }
  }

  // ----- what malloc hands out

  /** A non-NULL result is a new live block of the granted size; the live blocks of before are all still there. */
  lemma MallocGrants(h: Heap, n: Size) returns (c: Block)
    requires h.Inv() && Malloc(h, n).1 != Null
    ensures var (h', r) := Malloc(h, n);
            && h'.PayloadOf(c, r) && Payload(c) >= Granted(n) && c.off % 8 == 0
            && !Live(h.blocks, c)
            && (forall x :: Live(h'.blocks, x) <==> Live(h.blocks, x) || x == c)
  {
    hide Tiles, Aligned, Coalesced, Held, AlignUp, Take, Carve, Live, Heap.FreeAt;
    var need := Granted(n);
    var k := FirstFit(h.blocks, h.lfree, need, h.size - need);
    c := TakeGrants(h, k, need);
    BlockStart(h, k);
  }

  lemma BlockStart(h: Heap, k: nat)
    requires h.Inv() && k < |h.blocks|
    ensures h.blocks[k].off % 8 == 0
  {
    hide Tiles, Coalesced, Held;
  }

  lemma TakeGrants(h: Heap, k: nat, need: nat) returns (c: Block)
    requires h.Inv() && k < |h.blocks| && !h.blocks[k].used && Payload(h.blocks[k]) >= need
    ensures var r := Take(h, k, need).blocks;
            && c.off == h.blocks[k].off && Live(r, c) && Payload(c) >= need && !Live(h.blocks, c)
            && (forall x :: Live(r, x) <==> Live(h.blocks, x) || x == c)
  {
    hide Aligned, Coalesced, Held, Heap.FreeAt;
    var bs := Carve(h.blocks, k, need);
    c := bs[k];
    assert c in bs;
    var b := h.blocks[k];
    forall x ensures Live(bs, x) <==> Live(h.blocks, x) || x == c {
      hide Tiles;
      if Payload(b) >= need + HDR + MIN_ALIGNED {
        SplitLive(h.blocks, k, b.off + HDR + need, x, h.Top(), HDR);
      } else {
        TakeLive(h.blocks, k, x);
      }
    }
    if Live(h.blocks, c) { OffsetsAreUnique(h.blocks, h.Top(), HDR, k, c); }
  }

  /** The caller's own size is granted except within 8 of the top of the 32-bit range, where
      aligning the size wraps to 0 and the minimum block is handed out instead. */
  lemma GrantCoversRequest(n: Size)
    requires n > 0
    ensures Granted(n) >= n <==> n <= WORD - 8
  {
  }

  lemma HugeRequestGetsMinimumBlock(size: nat)
    requires Fresh(size).Inv() && 32 < size
    ensures var (h, r) := Malloc(Fresh(size), WORD - 1);
            r == At(HDR) && Payload(h.blocks[0]) < WORD - 1
  {
    var h := Fresh(size);
    assert AlignUp(WORD - 1) == 0;
    assert Granted(WORD - 1) == 16;
    assert Fits(h.blocks[0], 16, size - 16);
  }

  /** malloc followed by free of its result gives back the very same layout, split or not. */
  lemma FreeUndoesMalloc(h: Heap, n: Size)
    requires h.Inv() && Malloc(h, n).1 != Null
    ensures var (h', r) := Malloc(h, n);
            Free(h', r).blocks == h.blocks && Free(h', r).held == h.held
  {
    var (h', r) := Malloc(h, n);
    var c := MallocGrants(h, n);
    MallocKeeps(h, n);
    FreeKeeps(h', c);
    LayoutIsCanonical(Free(h', r).blocks, h.blocks, h.Top(), HDR);
  }

  /** Freeing two live blocks in either order ends in the same layout. */
  lemma FreesCommute(h: Heap, a: Block, b: Block)
    requires h.Inv() && Live(h.blocks, a) && Live(h.blocks, b) && a != b
    ensures var p, q := At(a.off + HDR), At(b.off + HDR);
            Free(Free(h, p), q).blocks == Free(Free(h, q), p).blocks
  {
    hide Tiles, Aligned, Coalesced, Held, Free, Live, Heap.FreeAt;
    var p, q := At(a.off + HDR), At(b.off + HDR);
    FreeKeeps(h, a);
    FreeKeeps(h, b);
    FreeKeeps(Free(h, p), b);
    FreeKeeps(Free(h, q), a);
    LayoutIsCanonical(Free(Free(h, p), q).blocks, Free(Free(h, q), p).blocks, h.Top(), HDR);
  }

  /** With nothing live the heap is one free block again, and the counter is back at zero. */
  lemma AllFreedIsFresh(h: Heap)
    requires h.Inv() && (forall x :: !Live(h.blocks, x))
    ensures h.blocks == Fresh(h.size).blocks && h.held == 0
  {
    var f := Fresh(h.size);
    forall x ensures !Live(f.blocks, x) {}
    LayoutIsCanonical(h.blocks, f.blocks, h.Top(), HDR);
    HeldOne(Block(0, h.Top(), false), true, 0);
  }

  // ----- the lowest-free hint

  lemma {:induction false} NextFreeIsLowest(bs: seq<Block>, i: nat, top: nat)
    requires Tiles(bs, top, HDR) && i <= |bs|
    ensures forall j :: i <= j < |bs| && !bs[j].used ==> NextFree(bs, i, top) <= bs[j].off
    decreases |bs| - i
  {
    if i < |bs| && bs[i].used { NextFreeIsLowest(bs, i + 1, top); }
  }

  lemma MallocKeepsHint(h: Heap, n: Size)
    requires h.Inv() && h.HintIsLowest()
    ensures Malloc(h, n).0.HintIsLowest()
  {
    hide Tiles, Aligned, Coalesced, Held, AlignUp, Take, Heap.HintIsLowest, Heap.FreeAt;
    if n != 0 && AlignUp(n) <= h.size {
      var need := Granted(n);
      var k := FirstFit(h.blocks, h.lfree, need, h.size - need);
      if k < |h.blocks| { TakeKeepsHint(h, k, need); }
    }
  }

  lemma TakeKeepsHint(h: Heap, k: nat, need: nat)
    requires Tiles(h.blocks, h.Top(), HDR) && k < |h.blocks| && !h.blocks[k].used && h.HintIsLowest()
    ensures Take(h, k, need).HintIsLowest()
  {
    var bs := Carve(h.blocks, k, need);
    CarveTiles(h.blocks, k, need, h.Top());
    NextFreeIsLowest(bs, k, h.Top());
    forall j | 0 <= j < |bs| && !bs[j].used ensures Take(h, k, need).lfree <= bs[j].off {
      hide NextFree;
      if j < k {
        assert bs[j] == h.blocks[j];
        assert bs[j].off < bs[k].off;
      } else if h.lfree != bs[k].off {
        assert h.lfree <= h.blocks[k].off <= bs[j].off;
      }
    }
  }

  /** While the hint is lowest, malloc fails exactly when no free block is large enough, except that a
      block that ends the heap and fits exactly is never considered: the search stops at size - need. */
  lemma MallocFailsExactly(h: Heap, n: Size)
    requires h.Inv() && h.HintIsLowest() && n != 0 && AlignUp(n) <= h.size
    ensures Malloc(h, n).1 == Null
       <==> forall i :: 0 <= i < |h.blocks| && !h.blocks[i].used && Payload(h.blocks[i]) >= Granted(n)
                        ==> i == |h.blocks| - 1 && Payload(h.blocks[i]) == Granted(n)
  {
    hide AlignUp, Coalesced, Held, Aligned, FirstFit, Heap.FreeAt, Take;
    var need := Granted(n);
    var k := FirstFit(h.blocks, h.lfree, need, h.size - need);
    forall i | 0 <= i < |h.blocks| && !h.blocks[i].used && Payload(h.blocks[i]) >= need
      ensures Fits(h.blocks[i], need, h.size - need) <==> !(i == |h.blocks| - 1 && Payload(h.blocks[i]) == need)
    {
      if i < |h.blocks| - 1 {
        assert h.blocks[i].end <= h.blocks[|h.blocks| - 1].off;
      }
    }
  }

  /** A fresh heap refuses the one request it could serve in full. */
  lemma WholeHeapIsRefused(size: Size)
    requires Fresh(size).Inv()
    ensures Payload(Fresh(size).blocks[0]) == size == Granted(size)
    ensures Malloc(Fresh(size), size).1 == Null
  {
    var h := Fresh(size);
    assert FirstFit(h.blocks, h.lfree, size, 0) == 1 by { assert FirstFit(h.blocks[1..], 0, size, 0) == 0; }
  }

  /** When it succeeds with a lowest hint, malloc serves the request from the lowest block that passes its test. */
  lemma MallocTakesLowest(h: Heap, n: Size, j: nat)
    requires h.Inv() && h.HintIsLowest() && Malloc(h, n).1 != Null
    requires j < |h.blocks| && Fits(h.blocks[j], Granted(n), h.size - Granted(n))
    ensures Malloc(h, n).1.addr <= h.blocks[j].off + HDR
  {
    hide AlignUp, Coalesced, Held, Aligned, Granted, Take, Heap.FreeAt;
    var need := Granted(n);
    var k := FirstFit(h.blocks, h.lfree, need, h.size - need);
    assert k <= j;
    assert k < j ==> h.blocks[k].end <= h.blocks[j].off;
  }

  /** Shrinking block i leaves a free block below the hint unless the hint is below i already or
      points at the free block that the remainder swallows. */
  predicate ShrinkPassesHint(h: Heap, i: nat)
    requires i < |h.blocks|
  {
    h.blocks[i].off < h.lfree && !(i + 1 < |h.blocks| && !h.blocks[i + 1].used)
  }

  /** The hint never points into a used block. */
  lemma HintOutside(h: Heap, i: nat)
    requires h.Inv() && i < |h.blocks| && h.blocks[i].used
    ensures h.lfree < h.blocks[i].off || h.blocks[i].end <= h.lfree
  {
    if h.lfree != h.Top() {
      var j :| 0 <= j < |h.blocks| && h.blocks[j].off == h.lfree && !h.blocks[j].used;
      assert j < i ==> h.blocks[j].end <= h.blocks[i].off;
    } else {
      assert i < |h.blocks| - 1 ==> h.blocks[i].end <= h.blocks[|h.blocks| - 1].off;
    }
    hide Aligned, Coalesced, Held;
  }

  lemma ShrinkBlocks(h: Heap, i: nat, need: nat)
    requires Shrinkable(h, i, need)
    ensures var b, mid := h.blocks[i], h.blocks[i].off + HDR + need;
            var swallows := i + 1 < |h.blocks| && !h.blocks[i + 1].used;
            var r := Shrink(h, i, need);
            && r.blocks == h.blocks[..i] + [Block(b.off, mid, true),
                              Block(mid, if swallows then h.blocks[i + 1].end else b.end, false)]
                         + h.blocks[if swallows then i + 2 else i + 1..]
            && r.lfree == if swallows && h.lfree == b.end then mid else h.lfree
  {
    hide Aligned, Coalesced, Held, Heap.FreeAt;
    assert i + 1 < |h.blocks| ==> Cut(h, i, need).blocks[i + 2] == h.blocks[i + 1];
  }

  lemma ShrinkHintExactly(h: Heap, i: nat, need: nat)
    requires Shrinkable(h, i, need) && h.HintIsLowest()
    ensures Shrink(h, i, need).HintIsLowest() <==> !ShrinkPassesHint(h, i)
  {
    hide Aligned, Coalesced, Held, Tiles, Heap.FreeAt, Shrink;
    ShrinkBlocks(h, i, need);
    HintOutside(h, i);
    var r := Shrink(h, i, need);
    assert r.blocks[i + 1].off == h.blocks[i].off + HDR + need && !r.blocks[i + 1].used;
    if !ShrinkPassesHint(h, i) { ShrinkKeepsHint(h, i, need); }
  }

  /** Two requests and one shrinking realloc of the first show it. */
  lemma HintLeftBehind()
    ensures var h1 := Malloc(Fresh(1024), 64).0;
            var h2 := Malloc(h1, 64).0;
            var (h3, q) := Realloc(h2, At(16), 16);
            && Malloc(Fresh(1024), 64).1 == At(16) && q == At(16) && h2.HintIsLowest() && !h3.HintIsLowest()
            && h3.lfree == 160 && Block(32, 80, false) in h3.blocks
  {
    hide Malloc, Realloc, Fresh, Heap.Inv, Heap.HintIsLowest;
    FirstTaken();
    SecondTaken(Malloc(Fresh(1024), 64).0);
    FirstShrunk(Malloc(Malloc(Fresh(1024), 64).0, 64).0);
  }

  lemma FirstTaken()
    ensures var (h, q) := Malloc(Fresh(1024), 64);
            && h.blocks == [Block(0, 80, true), Block(80, 1040, false)] && h.lfree == 80 && h.size == 1024
              && q == At(16)
  {
    var f := Fresh(1024);
    assert Granted(64) == 64;
    assert FirstFit(f.blocks, 0, 64, 960) == 0;
    var bs := Carve(f.blocks, 0, 64);
    assert bs == [Block(0, 80, true), Block(80, 1040, false)];
    assert NextFree(bs, 0, 1040) == NextFree(bs, 1, 1040) == 80;
    hide FirstFit, NextFree, Carve, Granted;
  }

  lemma SecondTaken(h: Heap)
    requires h.blocks == [Block(0, 80, true), Block(80, 1040, false)] && h.lfree == 80 && h.size == 1024
    ensures var r := Malloc(h, 64).0;
            && r.blocks == [Block(0, 80, true), Block(80, 160, true), Block(160, 1040, false)] && r.lfree == 160
              && r.size == 1024
            && r.HintIsLowest()
  {
    assert Granted(64) == 64;
    assert FirstFit(h.blocks[1..], 80, 64, 960) == 0;
    assert FirstFit(h.blocks, 80, 64, 960) == 1;
    var bs := Carve(h.blocks, 1, 64);
    assert bs == [Block(0, 80, true), Block(80, 160, true), Block(160, 1040, false)];
    assert NextFree(bs, 1, 1040) == NextFree(bs, 2, 1040) == 160;
    hide FirstFit, NextFree, Carve, Granted;
  }

  lemma FirstShrunk(h: Heap)
    requires h.blocks == [Block(0, 80, true), Block(80, 160, true), Block(160, 1040, false)] && h.lfree == 160
             && h.size == 1024
    ensures var (r, q) := Realloc(h, At(16), 16);
            && q == At(16) && r.blocks
              == [Block(0, 32, true), Block(32, 80, false), Block(80, 160, true), Block(160, 1040, false)]
            && r.lfree == 160 && !r.HintIsLowest()
  {
    assert IndexOf(h.blocks, 0) == 0;
    assert AlignUp(16) == 16;
    var c := Cut(h, 0, 16);
    assert c.blocks == [Block(0, 32, true), Block(32, 80, false), Block(80, 160, true), Block(160, 1040, false)];
    assert Realloc(h, At(16), 16).0.blocks[1] == Block(32, 80, false);
    hide IndexOf, Malloc, Free, Cut;
  }

  lemma ShrinkKeepsHint(h: Heap, i: nat, need: nat)
    requires Shrinkable(h, i, need) && h.HintIsLowest() && !ShrinkPassesHint(h, i)
    ensures Shrink(h, i, need).HintIsLowest()
  {
    hide Aligned, Coalesced, Held, Heap.FreeAt, Shrink;
    ShrinkBlocks(h, i, need);
    HintOutside(h, i);
    var r := Shrink(h, i, need);
    var b := h.blocks[i];
    forall k | 0 <= k < |r.blocks| && !r.blocks[k].used ensures r.lfree <= r.blocks[k].off {
      if k < i {
        assert r.blocks[k] == h.blocks[k] && h.blocks[k].off < b.end;
      } else if k > i + 1 {
        var o := k + |h.blocks| - |r.blocks|;
        assert r.blocks[k] == h.blocks[o] && b.end <= h.blocks[o].off;
      }
    }
  }

  // ----- whole runs

  lemma ReallocIsResize(h: Heap, i: nat, n: Size)
    requires h.Inv() && i < |h.blocks|
    ensures Realloc(h, At(h.blocks[i].off + HDR), n)
         == if AlignUp(n) > h.size then (h, Null) else Resize(h, i, AlignUp(n))
  {
    BlockBelowTop(h, i);
    hide Tiles, Aligned, Coalesced, Held, Heap.FreeAt, AlignUp, Resize;
  }

  lemma BlockBelowTop(h: Heap, i: nat)
    requires h.Inv() && i < |h.blocks|
    ensures h.blocks[i].off + HDR < h.Top() && IndexOf(h.blocks, h.blocks[i].off) == i
  {
    assert i < |h.blocks| - 1 ==> h.blocks[i].end <= h.blocks[|h.blocks| - 1].off;
    IndexOfBlock(h.blocks, h.Top(), HDR, i);
    hide Aligned, Coalesced, Held, Heap.FreeAt;
  }

  lemma ReallocKeeps(h: Heap, b: Block, n: Size)
    requires h.Inv() && Live(h.blocks, b)
    ensures var (h', r) := Realloc(h, At(b.off + HDR), n);
            && h'.Inv() && h'.size == h.size
            && (r == Null ==> h' == h)
            && (forall x :: Live(h.blocks, x) && x != b ==> Live(h'.blocks, x))
  {
    hide Tiles, Aligned, Coalesced, Held, Heap.FreeAt, AlignUp, Malloc, Shrink, Free, Realloc;
    var i :| 0 <= i < |h.blocks| && h.blocks[i] == b;
    var need := AlignUp(n);
    ReallocIsResize(h, i, n);
    if need <= h.size && Payload(b) != need {
      if Shrinks(b, need) {
        ShrinkKeeps(h, i, need);
      } else {
        MallocFailureChangesNothing(h, need);
        if Malloc(h, need).1 != Null {
          var c := MallocGrants(h, need);
          MallocKeeps(h, need);
          MallocSize(h, need);
          FreeKeeps(Malloc(h, need).0, b);
        }
      }
    }
  }

  /** A pointer realloc answers leads to a live block of the aligned size that has taken b's place; every other
      live block is still there, and there are no more. */
  lemma ReallocGives(h: Heap, b: Block, n: Size) returns (c: Block)
    requires h.Inv() && Live(h.blocks, b) && Realloc(h, At(b.off + HDR), n).1 != Null
    ensures var (h', r) := Realloc(h, At(b.off + HDR), n);
            && h'.PayloadOf(c, r) && Payload(c) >= AlignUp(n)
            && forall x :: Live(h'.blocks, x) <==> (Live(h.blocks, x) && x != b) || x == c
  {
    hide Tiles, Aligned, Coalesced, Held, AlignUp, Shrink, Malloc, Free, Live, Heap.FreeAt;
    var i := LiveIndex(h.blocks, b);
    ReallocIsResize(h, i, n);
    var need := AlignUp(n);
    c := b;
    if Payload(b) != need {
      if Shrinks(b, need) {
        c := Block(b.off, b.off + HDR + need, true);
        ShrinkKeeps(h, i, need);
      } else {
        c := MallocGrants(h, need);
        AlignTwice(n);
        MallocKeeps(h, need);
        FreeKeeps(Malloc(h, need).0, b);
      }
    }
  }

  lemma LiveIndex(bs: seq<Block>, b: Block) returns (i: nat)
    requires Live(bs, b)
    ensures i < |bs| && bs[i] == b && b.used
  {
    i :| 0 <= i < |bs| && bs[i] == b;
  }

  lemma AlignTwice(n: Size)
    requires AlignUp(n) <= WORD - 8
    ensures Granted(AlignUp(n)) >= AlignUp(n)
  {
  }

  lemma MallocFailureChangesNothing(h: Heap, n: Size)
    ensures Malloc(h, n).1 == Null ==> Malloc(h, n).0 == h
  {
  }

  lemma MallocSize(h: Heap, n: Size)
    ensures Malloc(h, n).0.size == h.size
  {
  }

  /** From a lowest hint, realloc leaves the hint lowest exactly when it does not cut a block that lies
      below the hint and has no free successor. malloc and free never lose the property. */
  lemma ReallocHintExactly(h: Heap, i: nat, n: Size)
    requires h.Inv() && h.HintIsLowest() && i < |h.blocks| && h.blocks[i].used
    ensures Realloc(h, At(h.blocks[i].off + HDR), n).0.HintIsLowest()
       <==> !(AlignUp(n) <= h.size && Shrinks(h.blocks[i], AlignUp(n)) && ShrinkPassesHint(h, i))
  {
    hide Tiles, Aligned, Coalesced, Held, Heap.FreeAt, AlignUp, Malloc, Shrink, Free, Realloc, Heap.HintIsLowest;
    var b, need := h.blocks[i], AlignUp(n);
    ReallocIsResize(h, i, n);
    if need <= h.size && Payload(b) != need {
      if Shrinks(b, need) {
        ShrinkHintExactly(h, i, need);
      } else {
        MallocKeepsHint(h, need);
        if Malloc(h, need).1 != Null {
          var c := MallocGrants(h, need);
          MallocKeeps(h, need);
          FreeKeeps(Malloc(h, need).0, b);
        }
      }
    }
  }

  datatype Call = CallMalloc(n: Size) | CallFree(q: Ptr) | CallRealloc(q: Ptr, n: Size)

  /** Clients pass back only NULL or pointers they hold. */
  ghost predicate Legal(h: Heap, c: Call) {
    c.CallMalloc? || c.q == Null || h.IsLive(c.q)
  }

  function Step(h: Heap, c: Call): Heap {
    match c
    case CallMalloc(n) => Malloc(h, n).0
    case CallFree(q) => Free(h, q)
    case CallRealloc(q, n) => Realloc(h, q, n).0
  }

  function After(h: Heap, cs: seq<Call>): Heap
    decreases |cs|
  {
    if cs == [] then h else After(Step(h, cs[0]), cs[1..])
  }

  ghost predicate LegalRun(h: Heap, cs: seq<Call>)
    decreases |cs|
  {
    cs != [] ==> Legal(h, cs[0]) && LegalRun(Step(h, cs[0]), cs[1..])
  }

  lemma StepKeeps(h: Heap, c: Call)
    requires h.Inv() && Legal(h, c)
    ensures Step(h, c).Inv()
  {
    hide Tiles, Aligned, Coalesced, Held, Heap.FreeAt, AlignUp, Malloc, Shrink, Release, Heap.Inv;
    match c
    case CallMalloc(n) => MallocKeeps(h, n);
    case CallFree(q) =>
      if q != Null {
        var b :| h.PayloadOf(b, q);
        FreeKeeps(h, b);
      }
    case CallRealloc(q, n) =>
      if q != Null {
        var b :| h.PayloadOf(b, q);
        ReallocKeeps(h, b, n);
      } else {
        MallocKeeps(h, AlignUp(n));
      }
  }

  /** In every run of malloc, realloc and free on live pointers the headers tile the heap exactly, no two free
      blocks touch, every block is aligned, and used_mem is the total length of the used blocks. */
  lemma {:induction false} RunsKeepInvariant(h: Heap, cs: seq<Call>)
    requires h.Inv() && LegalRun(h, cs)
    ensures After(h, cs).Inv()
    decreases |cs|
  {
    hide Heap.Inv, Step, Legal;
    if cs != [] {
      StepKeeps(h, cs[0]);
      RunsKeepInvariant(Step(h, cs[0]), cs[1..]);
    }
  }

  /** Without realloc, the hint is the lowest free block (or the end of the heap) all along. */
  lemma {:induction false} MallocFreeRunsKeepHint(h: Heap, cs: seq<Call>)
    requires h.Inv() && h.HintIsLowest() && LegalRun(h, cs)
    requires forall c :: c in cs ==> !c.CallRealloc?
    ensures After(h, cs).HintIsLowest()
    decreases |cs|
  {
    hide Tiles, Aligned, Coalesced, Held, Heap.FreeAt, AlignUp, Malloc, Free, Heap.HintIsLowest, Heap.Inv, Realloc;
    if cs != [] {
      var c := cs[0];
      assert c in cs;
      StepKeeps(h, c);
      if c.CallMalloc? {
        MallocKeepsHint(h, c.n);
      } else if c.q != Null {
        var b :| h.PayloadOf(b, c.q);
        FreeKeeps(h, b);
      } else {
        assert Free(h, Null) == h by { FreeOfNull(h); }
      }
      MallocFreeRunsKeepHint(Step(h, c), cs[1..]);
    }
  }

  lemma FreeOfNull(h: Heap)
    ensures Free(h, Null) == h
  {
  }

  lemma FreshInv(size: nat)
    requires size % 8 == 0 && MIN_ALIGNED <= size && size + 2 * HDR < WORD
    ensures Fresh(size).Inv() && Fresh(size).HintIsLowest()
  {
    HeldOne(Block(0, size + HDR, false), true, 0);
    assert Fresh(size).blocks[0] == Block(0, size + HDR, false);
  }

  /** Live payloads are disjoint, aligned and inside the heap. */
  lemma LivePayloadsAreDisjoint(h: Heap, a: Block, b: Block)
    requires h.Inv() && Live(h.blocks, a) && Live(h.blocks, b) && a != b
    ensures a.end <= b.off || b.end <= a.off
    ensures (a.off + HDR) % 8 == 0 && a.off + HDR <= a.end <= h.Top()
  {
    hide Coalesced, Held, Heap.FreeAt;
    var i :| 0 <= i < |h.blocks| && h.blocks[i] == a;
    var j :| 0 <= j < |h.blocks| && h.blocks[j] == b;
    assert i < |h.blocks| - 1 ==> h.blocks[i].end <= h.blocks[|h.blocks| - 1].off;
    assert a.off % 8 == 0;
    hide Aligned;
  }
}
