/** The small-memory heap itself: one array of cells holding both the block headers and the
    clients' bytes, rewritten in place. Each method is proved to do what SmallMemSpec says and
    to leave every byte of every other live block alone. */
module SmallMem {
  import opened Tiling
  import opened SmallMemSpec

  const HEAP_MAGIC := 0x1ea0
  const HEAD_BYTES := 12                 // sizeof(struct heap_mem)

  /** What one byte of the heap holds: client data, the first byte of a header (standing for its
      fields), or one of the header's other bytes. */
  datatype Cell = Raw(b: bv8) | Head(magic: int, used: bool, next: nat, prev: nat) | Rest

  // ----- headers in memory against the list of blocks

  function OffAt(bs: seq<Block>, i: nat, top: nat): nat
    requires i <= |bs|
  {
    if i == |bs| then top else bs[i].off
  }

  ghost predicate HeadSays(c: Cell, b: Block) {
    c.Head? && c.used == b.used && c.next == b.end && (b.used ==> c.magic == HEAP_MAGIC)
  }

  /** The header at the start of each block says what the block is. */
  ghost predicate NextsAgree(m: seq<Cell>, bs: seq<Block>, top: nat) {
    && top < |m| && m[top].Head? && m[top].used && m[top].next == top
    && forall i :: 0 <= i < |bs| ==> bs[i].off < top && HeadSays(m[bs[i].off], bs[i])
  }

  /** Each header but the end marker's points back to the header before it, the first one to itself. */
  ghost predicate PrevsAgree(m: seq<Cell>, bs: seq<Block>, top: nat)
    requires NextsAgree(m, bs, top)
  {
    && (|bs| > 0 ==> m[bs[0].off].prev == 0)
    && forall i, j :: 0 <= i < j < |bs| && j == i + 1 ==> m[bs[j].off].prev == bs[i].off
  }

  /** The in-band headers spell out exactly the blocks `bs`, closed by the end marker at `top`. */
  ghost predicate Spells(m: seq<Cell>, bs: seq<Block>, top: nat) {
    |m| == top + HDR && Tiles(bs, top, HDR) && NextsAgree(m, bs, top) && PrevsAgree(m, bs, top)
  }

  function Merged(m: seq<Cell>, p: nat, n: nat): seq<Cell>
    requires p < |m| && n < |m| && p != n && m[p].Head? && m[n].Head?
  {
    m[p := m[p].(next := n)][n := m[n].(prev := p)]
  }

  /** The blocks not touched by an edit at block i keep their header cells. */
  lemma OthersKept(m: seq<Cell>, bs: seq<Block>, i: nat, top: nat)
    requires Spells(m, bs, top) && i + 1 < |bs|
    ensures var p, n := bs[i].off, bs[i + 1].end;
            && p < n <= top && m[n].Head?
            && n == (if i + 2 < |bs| then bs[i + 2].off else top)
            && (forall j :: 0 <= j < |bs| && j != i && j != i + 2 ==> Merged(m, p, n)[bs[j].off] == m[bs[j].off])
  {
    var p, n := bs[i].off, bs[i + 1].end;
    assert n == (if i + 2 < |bs| then bs[i + 2].off else top);
    assert m[n].Head?;
    forall j | 0 <= j < |bs| && j != i && j != i + 2 ensures Merged(m, p, n)[bs[j].off] == m[bs[j].off] {
      OffsetsDiffer(bs, top, HDR, i, j);
      if i + 2 < |bs| { OffsetsDiffer(bs, top, HDR, i + 2, j); }
    }
  }

  lemma MergeNexts(m: seq<Cell>, bs: seq<Block>, i: nat, top: nat)
    requires Spells(m, bs, top) && i + 1 < |bs| && !bs[i].used
    ensures var p, n := bs[i].off, bs[i + 1].end;
            p < n <= top && m[n].Head? && NextsAgree(Merged(m, p, n), Merge(bs, i), top)
  {
    OthersKept(m, bs, i, top);
    hide Tiles, PrevsAgree;
    var p, n := bs[i].off, bs[i + 1].end;
    var r, m' := Merge(bs, i), Merged(m, p, n);
    forall j | 0 <= j < |r| ensures r[j].off < top && HeadSays(m'[r[j].off], r[j]) {
      assert r[j] == if j < i then bs[j] else if j == i then Block(p, n, false) else bs[j + 1];
    }
  }

  lemma MergeSpells(m: seq<Cell>, bs: seq<Block>, i: nat, top: nat)
    requires Spells(m, bs, top) && i + 1 < |bs| && !bs[i].used
    ensures var p, n := bs[i].off, bs[i + 1].end;
            p < n <= top && m[n].Head? && Spells(Merged(m, p, n), Merge(bs, i), top)
  {
    MergeTiles(bs, i, top, HDR);
    MergeNexts(m, bs, i, top);
    OthersKept(m, bs, i, top);
    hide Tiles;
  }

  /** A header written at p over whatever its bytes held before. */
  function Over(m: seq<Cell>, p: nat, h: Cell): seq<Cell>
    requires p + HEAD_BYTES <= |m|
  {
    seq(|m|, c requires 0 <= c < |m| => if c == p then h else if p < c < p + HEAD_BYTES then Rest else m[c])
  }

  /** Memory after the block at p is cut at `mid`: a new free header there, p's header shortened and marked,
      the following header pointed back at the new one unless it is the end marker. */
  function CutCells(m: seq<Cell>, p: nat, mid: nat, magic: int, top: nat): seq<Cell>
    requires p < mid && mid + HEAD_BYTES <= |m| && m[p].Head? && mid + HEAD_BYTES <= m[p].next < |m|
             && m[m[p].next].Head?
  {
    var end := m[p].next;
    var m1 := Over(m, mid, Head(magic, false, end, p));
    var m2 := m1[p := Head(HEAP_MAGIC, true, mid, m1[p].prev)];
    if end == top then m2 else m2[end := m2[end].(prev := mid)]
  }

  ghost predicate Cuttable(m: seq<Cell>, bs: seq<Block>, k: nat, mid: nat, top: nat) {
    Spells(m, bs, top) && k < |bs| && bs[k].off + HDR <= mid && mid + HDR <= bs[k].end
  }

  lemma CutWhere(m: seq<Cell>, bs: seq<Block>, k: nat, mid: nat, magic: int, top: nat)
    requires Cuttable(m, bs, k, mid, top)
    ensures var p, end := bs[k].off, bs[k].end;
            && p < mid && mid + HEAD_BYTES <= end <= top < |m| && m[p].Head? && m[p].next == end && m[end].Head?
            && end == (if k + 1 < |bs| then bs[k + 1].off else top)
            && var m' := CutCells(m, p, mid, magic, top);
               && |m'| == |m|
               && m'[p] == Head(HEAP_MAGIC, true, mid, m[p].prev)
               && m'[mid] == Head(magic, false, end, p)
               && m'[end] == (if end == top then m[end] else m[end].(prev := mid))
               && forall c :: 0 <= c < |m| && c != p && c != end && !(mid <= c < mid + HEAD_BYTES) ==> m'[c] == m[c]
  {
    var end := bs[k].end;
    assert HeadSays(m[bs[k].off], bs[k]);
    assert end == (if k + 1 < |bs| then bs[k + 1].off else top);
    assert m[end].Head?;
  }

  lemma CutApart(bs: seq<Block>, k: nat, mid: nat, top: nat)
    requires Tiles(bs, top, HDR) && k < |bs| && bs[k].off + HDR <= mid && mid + HDR <= bs[k].end
    ensures forall j :: 0 <= j < |bs| && j != k && j != k + 1 ==>
              bs[j].off != bs[k].off && bs[j].off != bs[k].end && !(mid <= bs[j].off < mid + HEAD_BYTES)
    ensures bs[k].end <= top
  {
    forall j | 0 <= j < |bs| && j != k && j != k + 1
      ensures bs[j].off != bs[k].off && bs[j].off != bs[k].end && !(mid <= bs[j].off < mid + HEAD_BYTES)
    {
      assert j < k ==> bs[j].end <= bs[k].off;
      assert j > k + 1 ==> bs[k + 1].end <= bs[j].off;
    }
  }

  lemma CutNexts(m: seq<Cell>, bs: seq<Block>, k: nat, mid: nat, magic: int, top: nat)
    requires Cuttable(m, bs, k, mid, top)
    ensures bs[k].off < mid && mid + HEAD_BYTES <= bs[k].end <= top < |m|
    ensures m[bs[k].off].Head? && m[bs[k].off].next == bs[k].end && m[bs[k].end].Head?
    ensures NextsAgree(CutCells(m, bs[k].off, mid, magic, top), Split(bs, k, mid, true, false), top)
  {
    CutWhere(m, bs, k, mid, magic, top);
    CutApart(bs, k, mid, top);
    hide Tiles, CutCells, PrevsAgree;
    var r, m' := Split(bs, k, mid, true, false), CutCells(m, bs[k].off, mid, magic, top);
    forall j | 0 <= j < |r| ensures r[j].off < top && HeadSays(m'[r[j].off], r[j]) {
      assert r[j] == if j < k then bs[j] else if j == k then Block(bs[k].off, mid, true)
                     else if j == k + 1 then Block(mid, bs[k].end, false) else bs[j - 1];
    }
  }

  lemma CutSpells(m: seq<Cell>, bs: seq<Block>, k: nat, mid: nat, magic: int, top: nat)
    requires Cuttable(m, bs, k, mid, top)
    ensures bs[k].off < mid && mid + HEAD_BYTES <= bs[k].end <= top < |m|
    ensures m[bs[k].off].Head? && m[bs[k].off].next == bs[k].end && m[bs[k].end].Head?
    ensures Spells(CutCells(m, bs[k].off, mid, magic, top), Split(bs, k, mid, true, false), top)
  {
    CutNexts(m, bs, k, mid, magic, top);
    CutWhere(m, bs, k, mid, magic, top);
    CutApart(bs, k, mid, top);
    SplitTiles(bs, k, mid, true, false, top, HDR);
    hide Tiles, CutCells;
    var r, m' := Split(bs, k, mid, true, false), CutCells(m, bs[k].off, mid, magic, top);
    forall i, j | 0 <= i < j < |r| && j == i + 1 ensures m'[r[j].off].prev == r[i].off {
      hide NextsAgree;
      if j < k { assert r[j] == bs[j] && r[i] == bs[i]; }
      else if j == k { assert r[i] == bs[i]; }
      else if j > k + 2 { assert r[j] == bs[j - 1] && r[i] == bs[i - 1]; }
      else if j == k + 2 { assert r[j] == bs[k + 1]; }
    }
  }

  function Flagged(m: seq<Cell>, p: nat, used: bool, magic: int): seq<Cell>
    requires p < |m| && m[p].Head?
  {
    m[p := m[p].(used := used, magic := magic)]
  }

  lemma FlagSpells(m: seq<Cell>, bs: seq<Block>, i: nat, used: bool, magic: int, top: nat)
    requires Spells(m, bs, top) && i < |bs| && (used ==> magic == HEAP_MAGIC)
    ensures bs[i].off < |m| && m[bs[i].off].Head? && m[bs[i].off].next == bs[i].end
    ensures Spells(Flagged(m, bs[i].off, used, magic), Flag(bs, i, used), top)
  {
    FlagTiles(bs, i, used, top, HDR);
    var m' := Flagged(m, bs[i].off, used, magic);
    forall j | 0 <= j < |bs| && j != i ensures m'[bs[j].off] == m[bs[j].off] {
      hide Tiles;
      OffsetsDiffer(bs, top, HDR, i, j);
    }
    hide Tiles;
    assert NextsAgree(m', Flag(bs, i, used), top);
  }

  // ----- the clients' bytes

  ghost predicate SameInside(m: seq<Cell>, m': seq<Cell>, b: Block) {
    |m| == |m'| && forall c :: b.off + HDR <= c < b.end && c < |m| ==> m'[c] == m[c]
  }

  /** Every live block of bs keeps every byte of its payload. */
  ghost predicate Untouched(bs: seq<Block>, m: seq<Cell>, m': seq<Cell>) {
    forall b :: Live(bs, b) ==> SameInside(m, m', b)
  }

  lemma UntouchedTrans(bs: seq<Block>, bs': seq<Block>, m: seq<Cell>, m': seq<Cell>, m'': seq<Cell>)
    requires Untouched(bs, m, m') && Untouched(bs', m', m'')
    requires forall b :: Live(bs, b) ==> Live(bs', b)
    ensures Untouched(bs, m, m'')
  {
  }

  lemma UntouchedSelf(bs: seq<Block>, m: seq<Cell>)
    ensures Untouched(bs, m, m)
  {
  }

  /** Header cells lie in no payload. */
  lemma HeadersOutside(bs: seq<Block>, top: nat, j: nat)
    requires Tiles(bs, top, HDR) && j < |bs|
    ensures bs[j].end <= top
    ensures forall i :: 0 <= i < |bs| ==> !(bs[j].off + HDR <= bs[i].off < bs[j].end)
  {
    assert j < |bs| - 1 ==> bs[j].end <= bs[|bs| - 1].off;
  }

  lemma MergeUntouched(m: seq<Cell>, bs: seq<Block>, i: nat, top: nat)
    requires Spells(m, bs, top) && i + 1 < |bs| && !bs[i].used
    ensures var p, n := bs[i].off, bs[i + 1].end;
            p < n <= top && m[n].Head? && Untouched(bs, m, Merged(m, p, n))
  {
    OthersKept(m, bs, i, top);
    var m' := Merged(m, bs[i].off, bs[i + 1].end);
    forall b | Live(bs, b) ensures SameInside(m, m', b) {
      var j :| 0 <= j < |bs| && bs[j] == b;
      HeadersOutside(bs, top, j);
    }
  }

  lemma FlagUntouched(m: seq<Cell>, bs: seq<Block>, i: nat, used: bool, magic: int, top: nat)
    requires Spells(m, bs, top) && i < |bs|
    ensures Untouched(bs, m, Flagged(m, bs[i].off, used, magic))
  {
    forall b | Live(bs, b) ensures SameInside(m, Flagged(m, bs[i].off, used, magic), b) {
      var j :| 0 <= j < |bs| && bs[j] == b;
      HeadersOutside(bs, top, j);
    }
  }

  lemma CutUntouched(m: seq<Cell>, bs: seq<Block>, k: nat, mid: nat, magic: int, top: nat)
    requires Cuttable(m, bs, k, mid, top)
    requires bs[k].off < mid && mid + HEAD_BYTES <= bs[k].end <= top < |m|
    requires m[bs[k].off].Head? && m[bs[k].off].next == bs[k].end && m[bs[k].end].Head?
    ensures var m' := CutCells(m, bs[k].off, mid, magic, top);
            && |m'| == |m|
            && (forall b :: Live(bs, b) && b != bs[k] ==> SameInside(m, m', b))
            && (forall c :: bs[k].off + HDR <= c < mid ==> m'[c] == m[c])
  {
    var m' := CutCells(m, bs[k].off, mid, magic, top);
    CutWhere(m, bs, k, mid, magic, top);
    hide CutCells, NextsAgree, PrevsAgree;
    forall b | Live(bs, b) && b != bs[k] ensures SameInside(m, m', b) {
      var j :| 0 <= j < |bs| && bs[j] == b;
      HeadersOutside(bs, top, j);
      assert j < k ==> bs[j].end <= bs[k].off;
      assert j > k ==> bs[k].end <= bs[j].off;
    }
  }

  // ----- the allocator

  class Allocator {
    var mem: array<Cell>                 // the region from heap_ptr on
    var heapEnd: nat                     // offset of the end marker
    var lfree: nat
    var memSizeAligned: nat
    var usedMem: int
    var maxMem: int
    ghost var blocks: seq<Block>

    ghost function Model(): Heap
      reads this
    {
      Heap(memSizeAligned, blocks, lfree, usedMem, maxMem)
    }

    ghost predicate Linked()
      reads this, mem
    {
      heapEnd == memSizeAligned + HDR && Spells(mem[..], blocks, heapEnd)
    }

    ghost predicate Valid()
      reads this, mem
    {
      Linked() && Model().Inv()
    }

    constructor (size: nat)
      requires size % 8 == 0 && size + 2 * HDR < WORD
      ensures Linked() && Model() == Fresh(size)
    {
      memSizeAligned := size;
      heapEnd := size + HDR;
      lfree, usedMem, maxMem := 0, 0, 0;
      blocks := [Block(0, size + HDR, false)];
      mem := new Cell[size + 2 * HDR](_ => Raw(0));
      new;
      WriteHead(0, HEAP_MAGIC, false, size + HDR, 0);
      WriteHead(heapEnd, HEAP_MAGIC, true, size + HDR, size + HDR);
      assert blocks[0] == Block(0, size + HDR, false);
    }

    /** rt_system_heap_init: no heap when the aligned region cannot hold two headers. */
    static method SystemHeapInit(beginAddr: Size, endAddr: Size) returns (h: Allocator?)
      ensures var first, last := AlignUp(beginAddr), endAddr / 8 * 8;
              && (h != null <==> last > 2 * HDR && last - 2 * HDR >= first)
              && (h != null ==> fresh(h) && h.Linked() && h.Model() == Fresh(last - first - 2 * HDR))
    {
      var beginAlign := AlignUp(beginAddr);
      var endAlign := endAddr / 8 * 8;
      if endAlign > 2 * HDR && endAlign - 2 * HDR >= beginAlign {
        h := new Allocator(endAlign - beginAlign - 2 * HDR);
      } else {
        h := null;
      }
    }

    method WriteHead(p: nat, magic: int, used: bool, next: nat, prev: nat)
      requires p + HEAD_BYTES <= mem.Length
      modifies mem
      ensures mem[..] == Over(old(mem[..]), p, Head(magic, used, next, prev))
    {
      forall k | p < k < p + HEAD_BYTES {
        mem[k] := Rest;
      }
      mem[p] := Head(magic, used, next, prev);
    }

    /** Absorb the header at n's predecessor chain: p's block now ends where block i + 1 ended. */
    method Join(p: nat, q: nat, ghost i: nat)
      requires Linked() && i + 1 < |blocks| && !blocks[i].used && p == blocks[i].off && q == blocks[i + 1].off
      modifies this`blocks, mem
      ensures Linked() && blocks == Merge(old(blocks), i)
      ensures Untouched(old(blocks), old(mem[..]), mem[..])
    {
      MergeSpells(mem[..], blocks, i, heapEnd);
      MergeUntouched(mem[..], blocks, i, heapEnd);
      assert HeadSays(mem[..][q], blocks[i + 1]);
      assert HeadSays(mem[..][p], blocks[i]);
      ghost var m := mem[..];
      var n := mem[q].next;
      mem[p] := mem[p].(next := n);
      mem[n] := mem[n].(prev := p);
      assert mem[..] == Merged(m, p, n);
      blocks := Merge(blocks, i);
    }

    /** Merge open holes around the free block at m. */
    method PlugHoles(m: nat, ghost i: nat)
      requires Linked() && Pluggable(Model(), i) && m == blocks[i].off
      modifies this`lfree, this`blocks, mem
      ensures Linked() && Model() == SmallMemSpec.PlugHoles(old(Model()), i)
      ensures Untouched(old(blocks), old(mem[..]), mem[..])
    {
      hide Tiles, Aligned, Coalesced, CoalescedBut, Held, Heap.FreeAt;
      ghost var bs, cells := blocks, mem[..];
      NextHead(i);
      var nmem := mem[m].next;
      if m != nmem && !mem[nmem].used && nmem != heapEnd {
        if lfree == nmem {
          lfree := m;
        }
        Join(m, nmem, i);
      }
      ghost var bs1, cells1 := blocks, mem[..];
      PrevHead(i);
      var pmem := mem[m].prev;
      if pmem != m && !mem[pmem].used {
        if lfree == m {
          lfree := pmem;
        }
        Join(pmem, m, i - 1);
      }
      assert forall b :: Live(bs, b) ==> Live(bs1, b) by {
        if bs1 != bs { forall b { MergeLive(bs, i, b); } }
      }
      UntouchedTrans(bs, bs1, cells, cells1, mem[..]);
    }

    lemma NextHead(i: nat)
      requires Linked() && i < |blocks|
      ensures var p := blocks[i].off;
              && p < heapEnd < mem.Length && HeadSays(mem[p], blocks[i]) && p < mem[p].next
              && mem[p].next == (if i + 1 < |blocks| then blocks[i + 1].off else heapEnd)
              && mem[mem[p].next].Head?
              && (mem[p].next == heapEnd <==> i + 1 == |blocks|)
              && (i + 1 < |blocks| ==> mem[mem[p].next].used == blocks[i + 1].used)
    {
      assert HeadSays(mem[..][blocks[i].off], blocks[i]);
      if i + 1 < |blocks| { assert HeadSays(mem[..][blocks[i + 1].off], blocks[i + 1]); }
    }

    lemma PrevHead(i: nat)
      requires Linked() && i < |blocks|
      ensures var p := blocks[i].off;
              && p < heapEnd < mem.Length && mem[p].Head?
              && mem[p].prev == (if i == 0 then p else blocks[i - 1].off)
              && (i > 0 ==> mem[p].prev < p && HeadSays(mem[blocks[i - 1].off], blocks[i - 1]))
    {
      assert HeadSays(mem[..][blocks[i].off], blocks[i]);
      if i > 0 { assert HeadSays(mem[..][blocks[i - 1].off], blocks[i - 1]); }
    }

    /** Split block k after `size` payload bytes; the first part is used, the rest free. */
    method CutHere(ptr: nat, size: nat, magic: int, ghost k: nat)
      requires Linked() && k < |blocks| && ptr == blocks[k].off && Payload(blocks[k]) >= size + HDR
      modifies this`blocks, mem
      ensures Linked() && blocks == Split(old(blocks), k, ptr + HDR + size, true, false)
      ensures forall b :: Live(old(blocks), b) && b != old(blocks)[k] ==> SameInside(old(mem[..]), mem[..], b)
      ensures forall c :: ptr + HDR <= c < ptr + HDR + size && c < mem.Length ==> mem[c] == old(mem[c])
    {
      var ptr2 := ptr + HDR + size;
      ghost var m := mem[..];
      CutSpells(m, blocks, k, ptr2, magic, heapEnd);
      CutUntouched(m, blocks, k, ptr2, magic, heapEnd);
      hide Spells;
      WriteHead(ptr2, magic, false, mem[ptr].next, ptr);
      mem[ptr] := mem[ptr].(next := ptr2);
      mem[ptr] := mem[ptr].(used := true);
      var n := mem[ptr2].next;
      if n != memSizeAligned + HDR {
        mem[n] := mem[n].(prev := ptr2);
      }
      mem[ptr] := mem[ptr].(magic := HEAP_MAGIC);
      assert mem[..] == CutCells(m, ptr, ptr2, magic, heapEnd);
      blocks := Split(blocks, k, ptr2, true, false);
    }

    method FlagHere(ptr: nat, magic: int, used: bool, ghost k: nat)
      requires Linked() && k < |blocks| && ptr == blocks[k].off && (used ==> magic == HEAP_MAGIC)
      modifies this`blocks, mem
      ensures Linked() && blocks == Flag(old(blocks), k, used)
      ensures ptr < mem.Length && mem[ptr].Head? && mem[ptr].next == old(blocks)[k].end
      ensures Untouched(old(blocks), old(mem[..]), mem[..])
    {
      ghost var m := mem[..];
      FlagSpells(m, blocks, k, used, magic, heapEnd);
      FlagUntouched(m, blocks, k, used, magic, heapEnd);
      mem[ptr] := mem[ptr].(used := used);
      mem[ptr] := mem[ptr].(magic := magic);
      assert mem[..] == Flagged(m, ptr, used, magic);
      blocks := Flag(blocks, k, used);
    }

    /** Take block k: cut it, or hand it out whole when the rest could not be a block. */
    method MarkUsed(ptr: nat, size: nat, ghost k: nat)
      requires Linked() && k < |blocks| && !blocks[k].used && ptr == blocks[k].off
      requires Payload(blocks[k]) >= size
      modifies this`blocks, this`usedMem, mem
      ensures Linked() && blocks == Carve(old(blocks), k, size)
      ensures usedMem == old(usedMem) + (blocks[k].end - blocks[k].off)
      ensures Untouched(old(blocks), old(mem[..]), mem[..])
    {
      NextHead(k);
      hide Spells;
      if mem[ptr].next - (ptr + HDR) >= size + HDR + MIN_ALIGNED {
        var garbage := *;
        CutHere(ptr, size, garbage, k);
        usedMem := usedMem + (size + HDR);
      } else {
        usedMem := usedMem + (mem[ptr].next - ptr);
        FlagHere(ptr, HEAP_MAGIC, true, k);
      }
    }

    /** Move the hint on from block k to the next free block. */
    method AdvanceHint(ghost k: nat)
      requires Linked() && k < |blocks| && lfree == blocks[k].off
      modifies this`lfree
      ensures lfree == NextFree(blocks, k, heapEnd)
    {
      hide Spells;
      ghost var j := k;
      NextHead(j);
      while mem[lfree].used && lfree != heapEnd
        invariant k <= j <= |blocks| && lfree == OffAt(blocks, j, heapEnd)
        invariant lfree < mem.Length && mem[lfree].Head?
        invariant j < |blocks| ==> HeadSays(mem[lfree], blocks[j]) && lfree < heapEnd
        invariant NextFree(blocks, j, heapEnd) == NextFree(blocks, k, heapEnd)
        decreases |blocks| - j
      {
        NextHead(j);
        lfree := mem[lfree].next;
        j := j + 1;
        if j < |blocks| { NextHead(j); }
      }
    }

    /** The body of the search loop once block k, at ptr, is found to fit. */
    method HandOut(ptr: nat, size: nat, ghost k: nat)
      requires Linked() && k < |blocks| && !blocks[k].used && ptr == blocks[k].off && Payload(blocks[k]) >= size
      modifies this`lfree, this`blocks, this`usedMem, this`maxMem, mem
      ensures Linked() && Model() == Take(old(Model()), k, size)
      ensures Untouched(old(blocks), old(mem[..]), mem[..])
    {
      hide Spells, Untouched, Carve, NextFree;
      CarveStart(blocks, k, size);
      MarkUsed(ptr, size, k);
      if maxMem < usedMem {
        maxMem := usedMem;
      }
      if ptr == lfree {
        AdvanceHint(k);
      }
    }

    method Malloc(n: Size) returns (r: Ptr)
      requires Valid()
      modifies this`lfree, this`blocks, this`usedMem, this`maxMem, mem
      ensures Valid() && (Model(), r) == SmallMemSpec.Malloc(old(Model()), n)
      ensures r == Null ==> mem[..] == old(mem[..])
      ensures Untouched(old(blocks), old(mem[..]), mem[..])
    {
      hide AlignUp, Spells, Heap.Inv, Take, FirstFit, SmallMemSpec.Serve;
      r := Null;
      if n != 0 {
        var size := AlignUp(n);
        if size <= memSizeAligned {
          GrantedFits(Model());
          if size < MIN_ALIGNED {
            size := MIN_ALIGNED;
          }
          r := Serve(size);
        }
      }
    }

    lemma GrantedFits(h: Heap)
      requires h.Inv()
      ensures MIN_ALIGNED <= h.size
    {
      hide Tiles, Aligned, Coalesced, Held;
    }

    /** Search and hand out, for a size already aligned and raised to the minimum. */
    method Serve(size: nat) returns (r: Ptr)
      requires Valid() && size <= memSizeAligned && size % 8 == 0
      modifies this`lfree, this`blocks, this`usedMem, this`maxMem, mem
      ensures Valid() && (Model(), r) == SmallMemSpec.Serve(old(Model()), size)
      ensures r == Null ==> mem[..] == old(mem[..])
      ensures Untouched(old(blocks), old(mem[..]), mem[..])
    {
      hide Spells, Heap.Inv, Take, FirstFit, Untouched;
      var found, ptr;
      ghost var k;
      found, ptr, k := Search(size);
      if found {
        TakeKeeps(Model(), k, size);
        HandOut(ptr, size, k);
        r := At(ptr + HDR);
      } else {
        r := Null;
        UntouchedSelf(blocks, mem[..]);
      }
    }

    /** The first-fit loop: from the hint up, over every header below mem_size_aligned - size. */
    method Search(size: nat) returns (found: bool, ptr: nat, ghost k: nat)
      requires Valid() && size <= memSizeAligned
      ensures k == FirstFit(blocks, lfree, size, memSizeAligned - size)
      ensures found <==> FirstFit(blocks, lfree, size, memSizeAligned - size) < |blocks|
      ensures found ==> ptr == blocks[FirstFit(blocks, lfree, size, memSizeAligned - size)].off
    {
      hide Heap.Inv, Spells, FirstFit;
      ptr := lfree;
      ghost var bound := memSizeAligned - size;
      k := HintIndex();
      while ptr < memSizeAligned - size
        invariant 0 <= k <= |blocks| && ptr == OffAt(blocks, k, heapEnd) && lfree <= ptr
        invariant forall j :: 0 <= j < k && lfree <= blocks[j].off ==> !Fits(blocks[j], size, bound)
        decreases |blocks| - k
      {
        NextHead(k);
        if !mem[ptr].used && mem[ptr].next - (ptr + HDR) >= size {
          FirstFitIs(blocks, lfree, size, bound, k);
          return true, ptr, k;
        }
        ptr := mem[ptr].next;
        k := k + 1;
      }
      NothingFitsFrom(mem[..], blocks, k, size, bound, heapEnd);
      FirstFitIs(blocks, lfree, size, bound, |blocks|);
      return false, ptr, |blocks|;
    }

    /** The block behind a live pointer, by index. */
    lemma BlockOf(q: Ptr) returns (i: nat)
      requires Valid() && Model().IsLive(q)
      ensures i < |blocks| && blocks[i].used && q == At(blocks[i].off + HDR)
      ensures HDR <= q.addr < Model().Top()
    {
      hide Spells, Aligned, Coalesced, Held;
      var b :| Model().PayloadOf(b, q);
      i :| 0 <= i < |blocks| && blocks[i] == b;
      BlockBelowTop(Model(), i);
    }

    /** rt_free: the two assertions on the header hold for every live pointer. */
    method Free(rmem: Ptr)
      requires Valid()
      requires rmem == Null || Model().OutOfRange(rmem) || Model().IsLive(rmem)
      modifies this`lfree, this`blocks, this`usedMem, mem
      ensures Valid() && Model() == SmallMemSpec.Free(old(Model()), rmem)
      ensures forall b :: Live(old(blocks), b) && rmem != At(b.off + HDR) ==> SameInside(old(mem[..]), mem[..], b)
    {
      hide Spells, Heap.Inv, Heap.IsLive, Untouched, SmallMemSpec.Free;
      if rmem.Null? || rmem.addr < 0 || rmem.addr >= heapEnd {
        FreeOfOutside(Model(), rmem);
      } else {
        ghost var i := BlockOf(rmem);
        FreeIsRelease(Model(), i);
        ReleaseKeeps(Model(), i);
        ReleaseBlock(rmem.addr - HDR, i);
      }
    }

    method ReleaseBlock(m: nat, ghost i: nat)
      requires Valid() && i < |blocks| && blocks[i].used && m == blocks[i].off
      modifies this`lfree, this`blocks, this`usedMem, mem
      ensures Linked() && Model() == Release(old(Model()), i)
      ensures forall b :: Live(old(blocks), b) && m != b.off ==> SameInside(old(mem[..]), mem[..], b)
    {
      hide Spells, Heap.Inv, SmallMemSpec.PlugHoles, Pluggable, Flag;
      UnmarkIsPluggable(Model(), i);
      MarkedHead(i);
      ghost var bs, cells := blocks, mem[..];
      assert mem[m].used;
      assert mem[m].magic == HEAP_MAGIC;
      FlagHere(m, 0, false, i);
      if m < lfree {
        lfree := m;
      }
      usedMem := usedMem - (mem[m].next - m);
      ghost var bs1, cells1 := blocks, mem[..];
      PlugHoles(m, i);
      StillLive(bs, i);
    }

    lemma MarkedHead(i: nat)
      requires Linked() && i < |blocks| && blocks[i].used
      ensures var p := blocks[i].off; p < mem.Length && HeadSays(mem[p], blocks[i]) && p + HDR <= mem[p].next
      ensures mem.Length == heapEnd + HDR == Model().Top() + HDR
    {
      NextHead(i);
    }

    /** Bytes are copied one at a time between two payloads. */
    method Copy(dst: nat, src: nat, len: nat)
      requires dst + len <= mem.Length && src + len <= mem.Length
      requires dst + len <= src || src + len <= dst
      modifies mem
      ensures forall c :: 0 <= c < mem.Length ==>
                mem[c] == if dst <= c < dst + len then old(mem[src + (c - dst)]) else old(mem[c])
    {
      var k := 0;
      while k < len
        invariant 0 <= k <= len
        invariant forall c :: 0 <= c < mem.Length ==>
                    mem[c] == if dst <= c < dst + k then old(mem[src + (c - dst)]) else old(mem[c])
      {
        mem[dst + k] := mem[src + k];
        k := k + 1;
      }
    }

    /** rt_realloc. Whatever branch is taken, no byte of another live block changes; the first
        min(old, new) payload bytes are found at the result; a NULL result leaves memory as it was. */
    method Realloc(rmem: Ptr, newsize: Size) returns (r: Ptr)
      requires Valid()
      requires rmem == Null || Model().OutOfRange(rmem) || Model().IsLive(rmem)
      modifies this`lfree, this`blocks, this`usedMem, this`maxMem, mem
      ensures Valid() && (Model(), r) == SmallMemSpec.Realloc(old(Model()), rmem, newsize)
      ensures forall b :: Live(old(blocks), b) && rmem != At(b.off + HDR) ==> SameInside(old(mem[..]), mem[..], b)
      ensures forall b :: old(Model()).PayloadOf(b, rmem) && r.At? ==>
                HoldsPrefix(old(mem[..]), rmem.addr, mem[..], r.addr, Lesser(Payload(b), AlignUp(newsize)))
      ensures r == Null ==> mem[..] == old(mem[..]) && Model() == old(Model())
    {
      hide Spells, Heap.Inv, AlignUp, HoldsPrefix, SmallMemSpec.Malloc, SmallMemSpec.Resize;
      var need := AlignUp(newsize);
      MallocFailureChangesNothing(Model(), need);
      if need > memSizeAligned {
        r := Null;
      } else if rmem.Null? {
        r := Malloc(need);
      } else if rmem.addr < 0 || rmem.addr >= heapEnd {
        r := rmem;
        OutsideIsNoPayload(Model(), rmem);
      } else {
        ghost var i := BlockOf(rmem);
        ReallocIsResize(Model(), i, newsize);
        OnlyBlock(Model(), i);
        r := Resize(rmem.addr - HDR, need, i);
      }
    }

    method Resize(m: nat, need: Size, ghost i: nat) returns (r: Ptr)
      requires Valid() && i < |blocks| && blocks[i].used && m == blocks[i].off && need % 8 == 0
      modifies this`lfree, this`blocks, this`usedMem, this`maxMem, mem
      ensures Valid() && (Model(), r) == SmallMemSpec.Resize(old(Model()), i, need)
      ensures forall b :: Live(old(blocks), b) && m != b.off ==> SameInside(old(mem[..]), mem[..], b)
      ensures r.At? ==> HoldsPrefix(old(mem[..]), m + HDR, mem[..], r.addr, Lesser(Payload(old(blocks)[i]), need))
      ensures r == Null ==> mem[..] == old(mem[..]) && Model() == old(Model())
    {
      hide Spells, Heap.Inv, HoldsPrefix, SmallMemSpec.Malloc, SmallMemSpec.Shrink, SmallMemSpec.Free;
      MarkedHead(i);
      var size := mem[m].next - m - HDR;
      if size == need {
        PrefixOfSelf(mem[..], m + HDR, size);
        r := At(m + HDR);
      } else if need + HDR + MIN_SIZE < size {
        ShrinkHere(m, need, size, i);
        r := At(m + HDR);
      } else {
        r := Move(m, need, size, i);
      }
    }

    method ShrinkHere(m: nat, need: nat, size: nat, ghost i: nat)
      requires Valid() && Shrinkable(Model(), i, need) && m == blocks[i].off && size == Payload(blocks[i])
      modifies this`lfree, this`blocks, this`usedMem, mem
      ensures Valid() && Model() == Shrink(old(Model()), i, need)
      ensures forall b :: Live(old(blocks), b) && m != b.off ==> SameInside(old(mem[..]), mem[..], b)
      ensures HoldsPrefix(old(mem[..]), m + HDR, mem[..], m + HDR, need)
    {
      hide Spells, Heap.Inv, Pluggable, Split, SmallMemSpec.PlugHoles;
      ShrinkIsPluggable(Model(), i, need);
      ShrinkKeeps(Model(), i, need);
      CutKeepsLive(blocks, i, m + HDR + need);
      usedMem := usedMem - (size - need);
      CutHere(m, need, HEAP_MAGIC, i);
      PlugHoles(m + HDR + need, i + 1);
    }

    /** Neither right nor much too large: a new block, the common prefix copied, the old block freed. */
    method Move(m: nat, need: Size, size: nat, ghost i: nat) returns (r: Ptr)
      requires Valid() && need % 8 == 0 && i < |blocks| && blocks[i].used && m == blocks[i].off
               && size == Payload(blocks[i])
      modifies this`lfree, this`blocks, this`usedMem, this`maxMem, mem
      ensures Valid()
      ensures var (h, p) := SmallMemSpec.Malloc(old(Model()), need);
              r == p && Model() == if p == Null then h else SmallMemSpec.Free(h, At(m + HDR))
      ensures forall b :: Live(old(blocks), b) && m != b.off ==> SameInside(old(mem[..]), mem[..], b)
      ensures r.At? ==> HoldsPrefix(old(mem[..]), m + HDR, mem[..], r.addr, Lesser(size, need))
      ensures r == Null ==> mem[..] == old(mem[..]) && Model() == old(Model())
    {
      hide Spells, Heap.Inv, SmallMemSpec.Malloc, SmallMemSpec.Free, Untouched, HoldsPrefix;
      MallocFailureChangesNothing(Model(), need);
      ghost var h, b0 := Model(), blocks[i];
      ghost var m0 := mem[..];
      assert Live(blocks, b0);
      OnlyBlock(h, i);
      r := Malloc(need);
      if r != Null {
        ghost var c := MallocGrants(h, need);
        ghost var m1 := mem[..];
        GrantCovers(need, c);
        CopyPayload(r.addr, m + HDR, if size < need then size else need, c, b0);
        ghost var m2 := mem[..];
        assert Model().PayloadOf(b0, At(m + HDR));
        Free(At(m + HDR));
        OthersStay(h.blocks, m, m0, m1, m2, mem[..]);
        PrefixMoved(h.blocks, b0, c, m0, m1, m2, mem[..], Lesser(size, need));
      }
    }

    /** rt_memcpy from the payload of live block b to that of live block c. */
    method CopyPayload(dst: nat, src: nat, len: nat, ghost c: Block, ghost b: Block)
      requires Valid() && Live(blocks, c) && Live(blocks, b) && b != c
      requires dst == c.off + HDR && src == b.off + HDR && len <= Payload(c) && len <= Payload(b)
      modifies mem
      ensures Valid() && c.off != b.off && mem.Length == old(mem.Length)
      ensures forall x :: Live(blocks, x) && x != c ==> SameInside(old(mem[..]), mem[..], x)
      ensures HoldsPrefix(old(mem[..]), src, mem[..], dst, len)
    {
      hide Spells, Heap.Inv;
      ghost var m1 := mem[..];
      NewBlockApart(Model(), c, b);
      assert mem.Length == heapEnd + HDR by { hide Heap.Inv; MemLength(); }
      Copy(dst, src, len);
      ghost var m2 := mem[..];
      PayloadWriteSpells(m1, m2, blocks, c, heapEnd);
      WriteApart(Model(), m1, m2, c);
    }

    lemma MemLength()
      requires Linked()
      ensures mem.Length == heapEnd + HDR == Model().Top() + HDR
    {
      hide Tiles, NextsAgree, PrevsAgree;
      assert |mem[..]| == mem.Length;
    }

    /** The index of the block the hint points at, past the last one when it is the end marker. */
    lemma HintIndex() returns (k: nat)
      requires Valid()
      ensures k <= |blocks| && lfree == OffAt(blocks, k, heapEnd)
      ensures forall j :: 0 <= j < k ==> blocks[j].off < lfree
    {
      hide Aligned, Coalesced, Held, NextsAgree, PrevsAgree;
      if lfree == heapEnd {
        k := |blocks|;
      } else {
        k :| 0 <= k < |blocks| && blocks[k].off == lfree;
      }
    }
  }

  lemma CarveStart(bs: seq<Block>, k: nat, need: nat)
    requires k < |bs|
    ensures k < |Carve(bs, k, need)| && Carve(bs, k, need)[k].off == bs[k].off
  {
  }

  lemma FirstFitIs(bs: seq<Block>, from: nat, need: nat, bound: int, k: nat)
    requires k <= |bs| && (k < |bs| ==> from <= bs[k].off && Fits(bs[k], need, bound))
    requires forall j :: 0 <= j < k && from <= bs[j].off ==> !Fits(bs[j], need, bound)
    ensures FirstFit(bs, from, need, bound) == k
  {
  }

  lemma NothingFitsFrom(m: seq<Cell>, bs: seq<Block>, k: nat, need: nat, bound: int, top: nat)
    requires Spells(m, bs, top) && k <= |bs| && bound <= OffAt(bs, k, top)
    ensures forall j :: k <= j < |bs| ==> !Fits(bs[j], need, bound)
  {
  }

  lemma FreeOfOutside(h: Heap, q: Ptr)
    requires q == Null || h.OutOfRange(q)
    ensures SmallMemSpec.Free(h, q) == h
  {
  }

  lemma StillLive(bs: seq<Block>, i: nat)
    requires i < |bs|
    ensures forall b :: Live(bs, b) && b.off != bs[i].off ==> Live(Flag(bs, i, false), b)
  {
    forall b | Live(bs, b) && b.off != bs[i].off ensures Live(Flag(bs, i, false), b) {
      var j :| 0 <= j < |bs| && bs[j] == b;
      assert Flag(bs, i, false)[j] == b;
    }
  }

  function Lesser(a: int, b: int): int { if a < b then a else b }

  /** The first len cells at q after are those at p before. */
  ghost predicate HoldsPrefix(m: seq<Cell>, p: int, m': seq<Cell>, q: int, len: int) {
    forall c :: q <= c < q + len && 0 <= c < |m'| && 0 <= p + (c - q) < |m| ==> m'[c] == m[p + (c - q)]
  }

  lemma PrefixOfSelf(m: seq<Cell>, p: int, len: int)
    ensures HoldsPrefix(m, p, m, p, len)
  {
  }

  lemma OutsideIsNoPayload(h: Heap, q: Ptr)
    requires h.Inv() && h.OutOfRange(q)
    ensures forall b :: !h.PayloadOf(b, q)
  {
    forall b ensures !h.PayloadOf(b, q) {
      if Live(h.blocks, b) {
        var i :| 0 <= i < |h.blocks| && h.blocks[i] == b;
        BlockBelowTop(h, i);
      }
    }
  }

  lemma OnlyBlock(h: Heap, i: nat)
    requires h.Inv() && i < |h.blocks|
    ensures forall b :: b in h.blocks && b.off == h.blocks[i].off ==> b == h.blocks[i]
  {
    hide Tiles, Aligned, Coalesced, Held;
    forall b | b in h.blocks && b.off == h.blocks[i].off ensures b == h.blocks[i] {
      OffsetsAreUnique(h.blocks, h.Top(), HDR, i, b);
    }
  }

  lemma CutKeepsLive(bs: seq<Block>, i: nat, mid: nat)
    requires i < |bs|
    ensures forall b :: Live(bs, b) && b.off != bs[i].off ==> Live(Split(bs, i, mid, true, false), b)
    ensures Live(Split(bs, i, mid, true, false), Block(bs[i].off, mid, true))
    ensures Split(bs, i, mid, true, false)[i + 1].off == mid
  {
    var s := Split(bs, i, mid, true, false);
    assert s[i] == Block(bs[i].off, mid, true);
    forall b | Live(bs, b) && b.off != bs[i].off ensures Live(s, b) {
      var j :| 0 <= j < |bs| && bs[j] == b;
      assert if j < i then s[j] == b else s[j + 1] == b;
    }
  }

  /** Client bytes may be written freely inside a live payload. */
  lemma PayloadWriteSpells(m: seq<Cell>, m': seq<Cell>, bs: seq<Block>, c: Block, top: nat)
    requires Spells(m, bs, top) && c in bs && |m'| == |m|
    requires forall k :: 0 <= k < |m| && !(c.off + HDR <= k < c.end) ==> m'[k] == m[k]
    ensures Spells(m', bs, top)
  {
    var j :| 0 <= j < |bs| && bs[j] == c;
    HeadersOutside(bs, top, j);
    hide Tiles;
  }

  lemma WriteApart(h: Heap, m: seq<Cell>, m': seq<Cell>, c: Block)
    requires h.Inv() && Live(h.blocks, c) && |m'| == |m|
    requires forall k :: 0 <= k < |m| && !(c.off + HDR <= k < c.end) ==> m'[k] == m[k]
    ensures forall b :: Live(h.blocks, b) && b != c ==> SameInside(m, m', b)
  {
    forall b | Live(h.blocks, b) && b != c ensures SameInside(m, m', b) {
      LivePayloadsAreDisjoint(h, b, c);
    }
  }

  lemma GrantCovers(need: Size, c: Block)
    requires need % 8 == 0 && Payload(c) >= Granted(need)
    ensures Payload(c) >= need
  {
  }

  lemma NewBlockApart(h: Heap, c: Block, b: Block)
    requires h.Inv() && Live(h.blocks, c) && Live(h.blocks, b) && c != b
    ensures c.end <= b.off || b.end <= c.off
    ensures c.end <= h.Top() && b.end <= h.Top()
    ensures c.off != b.off && c.off + HDR <= c.end && b.off + HDR <= b.end
  {
    LivePayloadsAreDisjoint(h, c, b);
    LivePayloadsAreDisjoint(h, b, c);
  }

  /** The bytes copied at m2 come from the block as it stood at m0, and survive to m3. */
  lemma PrefixMoved(bs: seq<Block>, b: Block, c: Block, m0: seq<Cell>, m1: seq<Cell>, m2: seq<Cell>, m3: seq<Cell>,
    len: int)
    requires Live(bs, b) && Untouched(bs, m0, m1) && SameInside(m2, m3, c)
    requires HoldsPrefix(m1, b.off + HDR, m2, c.off + HDR, len)
    requires len <= Payload(b) && len <= Payload(c) && |m2| == |m1|
    ensures HoldsPrefix(m0, b.off + HDR, m3, c.off + HDR, len)
  {
    assert SameInside(m0, m1, b);
  }

  lemma OthersStay(bs: seq<Block>, p: int, m0: seq<Cell>, m1: seq<Cell>, m2: seq<Cell>, m3: seq<Cell>)
    requires Untouched(bs, m0, m1)
    requires forall x :: Live(bs, x) ==> SameInside(m1, m2, x)
    requires forall x :: Live(bs, x) && p != x.off ==> SameInside(m2, m3, x)
    ensures forall x :: Live(bs, x) && p != x.off ==> SameInside(m0, m3, x)
  {
  }
}
