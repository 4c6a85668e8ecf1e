/** The memory heap object: block headers threaded on a circular block list and a circular free list, whose
    link fields the calls rewrite in place. Each call is proved to be the step of MemHeapSpec it names. */
module MemHeap {
  import opened Lists
  import opened Tiling
  import opened MemHeapSpec

  const FREE_HEADER: nat := WORD         // the head of the free list is in the heap object, outside the pool
  const NIL: nat := WORD + 1

  function Offs(bs: seq<Block>): (s: seq<nat>)
    ensures |s| == |bs|
  {
    if bs == [] then [] else [bs[0].off] + Offs(bs[1..])
  }

  ghost predicate Flags(used: map<nat, bool>, bs: seq<Block>) {
    forall i :: 0 <= i < |bs| ==> bs[i].off in used && used[bs[i].off] == bs[i].used
  }

  lemma {:induction false} OffsConcat(a: seq<Block>, b: seq<Block>)
    ensures Offs(a + b) == Offs(a) + Offs(b)
  {
    if a == [] {
      assert a + b == b;
    } else {
      assert (a + b)[1..] == a[1..] + b;
      OffsConcat(a[1..], b);
    }
  }

  lemma OffsOne(b: Block)
    ensures Offs([b]) == [b.off]
  {
  }

  lemma {:induction false} OffsAt(bs: seq<Block>, i: nat)
    requires i < |bs|
    ensures Offs(bs)[i] == bs[i].off
  {
    if i > 0 { OffsAt(bs[1..], i - 1); }
  }

  /** The offsets of the blocks before i, and from i on. */
  lemma OffsCut(bs: seq<Block>, i: nat)
    requires i <= |bs|
    ensures Offs(bs)[..i] == Offs(bs[..i]) && Offs(bs)[i..] == Offs(bs[i..])
  {
    hide Offs;
    assert bs == bs[..i] + bs[i..];
    OffsConcat(bs[..i], bs[i..]);
  }

  lemma SplitParts(bs: seq<Block>, i: nat, mid: nat, left: bool, right: bool)
    requires i < |bs|
    ensures Split(bs, i, mid, left, right)
         == (bs[..i] + [Block(bs[i].off, mid, left)]) + ([Block(mid, bs[i].end, right)] + bs[i + 1..])
  {
  }

  lemma SplitOffs(bs: seq<Block>, i: nat, mid: nat, left: bool, right: bool)
    requires i < |bs|
    ensures Offs(Split(bs, i, mid, left, right)) == Offs(bs)[..i + 1] + [mid] + Offs(bs)[i + 1..]
  {
    hide Offs, Split;
    var l, r := Block(bs[i].off, mid, left), Block(mid, bs[i].end, right);
    SplitParts(bs, i, mid, left, right);
    OffsConcat(bs[..i] + [l], [r] + bs[i + 1..]);
    OffsConcat([r], bs[i + 1..]);
    OffsOne(r);
    UpTo(bs, i, l);
    OffsCut(bs, i + 1);
  }

  /** Whatever block stands at i, only its offset counts. */
  lemma UpTo(bs: seq<Block>, i: nat, b: Block)
    requires i < |bs| && b.off == bs[i].off
    ensures Offs(bs[..i] + [b]) == Offs(bs)[..i + 1]
  {
    hide Offs;
    OffsConcat(bs[..i], [b]);
    OffsConcat(bs[..i], [bs[i]]);
    OffsOne(b);
    OffsOne(bs[i]);
    assert bs[..i + 1] == bs[..i] + [bs[i]];
    OffsCut(bs, i + 1);
  }

  lemma MergeOffs(bs: seq<Block>, i: nat)
    requires i + 1 < |bs|
    ensures Offs(Merge(bs, i)) == Offs(bs)[..i + 1] + Offs(bs)[i + 2..]
  {
    hide Offs;
    var m := Block(bs[i].off, bs[i + 1].end, bs[i].used);
    OffsConcat(bs[..i] + [m], bs[i + 2..]);
    UpTo(bs, i, m);
    OffsCut(bs, i + 2);
  }

  lemma FlagOffs(bs: seq<Block>, i: nat, used: bool)
    requires i < |bs|
    ensures Offs(Flag(bs, i, used)) == Offs(bs)
  {
    hide Offs;
    var b := bs[i].(used := used);
    assert Flag(bs, i, used) == (bs[..i] + [b]) + bs[i + 1..];
    OffsConcat(bs[..i] + [b], bs[i + 1..]);
    UpTo(bs, i, b);
    OffsCut(bs, i + 1);
  }

  lemma SplitFlags(used: map<nat, bool>, bs: seq<Block>, i: nat, n: nat)
    requires Flags(used, bs) && i < |bs| && n !in Offs(bs)
    ensures Flags(used[n := false], Split(bs, i, n, bs[i].used, false))
  {
    hide Offs;
    forall k | 0 <= k < |bs| ensures bs[k].off != n { OffsAt(bs, k); }
  }

  /** The block list runs through the headers in address order and back; the tail leads to the first. */
  lemma BlockLinks(next: map<nat, nat>, prev: map<nat, nat>, bs: seq<Block>, i: nat, size: nat)
    requires Ring(next, prev, Offs(bs)) && i < |bs| && Tiles(bs, size, HDR)
    ensures bs[i].off in next && bs[i].off in prev
    ensures i + 1 < |bs| ==>
              next[bs[i].off] == bs[i].end == bs[i + 1].off && bs[i + 1].off in prev && prev[bs[i + 1].off] == bs[i].off
    ensures i + 1 == |bs| ==> next[bs[i].off] == 0 && 0 in prev && prev[0] == bs[i].off && bs[0].off == 0
  {
    hide Offs, Ring, Tiles;
    RingStep(next, prev, Offs(bs), i);
    TileStep(bs, i, size);
    OffsAt(bs, i);
    OffsAt(bs, Succ(Offs(bs), i));
  }

  lemma RingStep(next: map<nat, nat>, prev: map<nat, nat>, s: seq<nat>, i: nat)
    requires Ring(next, prev, s) && i < |s|
    ensures s[i] in next && s[i] in prev && s[Succ(s, i)] in prev
    ensures next[s[i]] == s[Succ(s, i)] && prev[s[Succ(s, i)]] == s[i]
  {
    hide Distinct;
  }

  lemma TileStep(bs: seq<Block>, i: nat, size: nat)
    requires Tiles(bs, size, HDR) && i < |bs|
    ensures bs[0].off == 0 && (i + 1 < |bs| ==> bs[i].end == bs[i + 1].off)
  {
  }

  lemma {:induction false} FirstFitIs(bs: seq<Block>, free: seq<nat>, need: nat, k: nat)
    requires k <= |free| && (k < |free| ==> FitsAt(bs, free[k], need))
    requires forall j :: 0 <= j < k ==> !FitsAt(bs, free[j], need)
    ensures FirstFit(bs, free, need) == k
  {
    hide FitsAt;
    if k > 0 { FirstFitIs(bs, free[1..], need, k - 1); }
  }

  // ----- the bytes of the pool

  ghost predicate SameBut(m: seq<bv8>, m': seq<bv8>, from: nat, to: nat) {
    |m'| == |m| && forall k :: 0 <= k < |m| && !(from <= k < to) ==> m'[k] == m[k]
  }

  ghost predicate SameInside(m: seq<bv8>, m': seq<bv8>, b: Block) {
    |m'| == |m| && forall k :: b.off + HDR <= k < b.end && k < |m| ==> m'[k] == m[k]
  }

  /** Every client finds its bytes as they were, but the one whose header is at p. */
  ghost predicate OthersSame(h: Heap, p: int, m: seq<bv8>, m': seq<bv8>) {
    forall b :: Live(h.blocks, b) && b.off != p ==> SameInside(m, m', b)
  }

  ghost predicate Untouched(h: Heap, m: seq<bv8>, m': seq<bv8>) {
    forall b :: Live(h.blocks, b) ==> SameInside(m, m', b)
  }

  ghost predicate HoldsPrefix(m: seq<bv8>, p: int, m': seq<bv8>, q: int, len: int) {
    |m'| == |m| && forall j :: q <= j < q + len && 0 <= j < |m'| && 0 <= p + (j - q) < |m| ==> m'[j] == m[p + (j - q)]
  }

  function OffOf(q: Ptr): int { if q.At? then q.addr - HDR else -1 }

  function Lesser(a: int, b: int): int { if a < b then a else b }

  /** What is written between the start of block i and the end of block j leaves all other blocks alone. */
  lemma WriteApart(h: Heap, i: nat, j: nat, m: seq<bv8>, m': seq<bv8>, from: nat, to: nat)
    requires Layout(h) && i <= j < |h.blocks| && h.blocks[i].off <= from && to <= h.blocks[j].end
    requires SameBut(m, m', from, to) && forall k :: i < k <= j ==> !h.blocks[k].used
    ensures OthersSame(h, h.blocks[i].off, m, m')
  {
    forall b | Live(h.blocks, b) && b.off != h.blocks[i].off ensures SameInside(m, m', b) {
      var k :| 0 <= k < |h.blocks| && h.blocks[k] == b;
      assert k < i ==> b.end <= h.blocks[i].off;
      assert j < k ==> h.blocks[j].end <= b.off;
    }
  }

  class MemHeap {
    const poolSize: nat
    const pool: array<bv8>               // the clients' bytes; a header's are given up to its fields below
    var available: int                   // available_size
    var maxUsed: int                     // max_used_size
    var used: map<nat, bool>             // the fields of the block headers, by the header's offset
    var next: map<nat, nat>
    var prev: map<nat, nat>
    var nextFree: map<nat, nat>
    var prevFree: map<nat, nat>
    ghost var blocks: seq<Block>
    ghost var free: seq<nat>

    ghost function H(): Heap
      reads this
    {
      Heap(poolSize, blocks, free, available, maxUsed)
    }

    ghost predicate Linked()
      reads this`used, this`next, this`prev, this`nextFree, this`prevFree, this`blocks, this`free
    {
      && Flags(used, blocks) && Ring(next, prev, Offs(blocks)) && Ring(nextFree, prevFree, [FREE_HEADER] + free)
      && pool.Length == poolSize
    }

    ghost predicate Valid()
      reads this
    {
      Linked() && Inv(H())
    }

    /** rt_memheap_init */
    constructor (size: nat)
      requires 2 * HDR <= size / 8 * 8 && size < WORD
      ensures Valid() && H() == Fresh(size / 8 * 8) && fresh(pool)
    {
      poolSize := size / 8 * 8;
      pool := new bv8[size / 8 * 8];
      var avail := size / 8 * 8 - 2 * HDR;
      available, maxUsed := avail, size / 8 * 8 - avail;
      var tail: nat := avail + HDR;
      next, prev := map[0 := tail, tail := 0], map[0 := tail, tail := 0];
      nextFree := map[FREE_HEADER := 0, 0 := FREE_HEADER, tail := NIL];
      prevFree := map[FREE_HEADER := 0, 0 := FREE_HEADER, tail := NIL];
      used := map[0 := false, tail := true];
      blocks := Fresh(size / 8 * 8).blocks;
      free := [0];
      new;
      FreshKeeps(poolSize);
      assert Offs(blocks) == [0, tail];
    }

    /** The header n becomes the successor of x = blocks[i]: it cuts off the end of that block. */
    method LinkBlock(x: nat, n: nat, ghost i: nat)
      requires Linked() && i < |blocks| && blocks[i].off == x && n !in Offs(blocks) && n + HDR <= poolSize
      modifies this`used, this`next, this`prev, this`blocks, pool
      ensures Linked() && blocks == Split(old(blocks), i, n, old(blocks)[i].used, false)
      ensures used == old(used)[n := false]
      ensures SameBut(old(pool[..]), pool[..], n, n + HDR)
    {
      hide Ring, Offs, Flags, Split;
      ghost var s := Offs(blocks);
      OffsAt(blocks, i);
      SplitFlags(used, blocks, i, n);
      SplitOffs(blocks, i, n, blocks[i].used, false);
      InsertedAfter(next, prev, s, i, n);
      LinkedAfter(next, prev, s, i, n);
      Stamp(n);
      used := used[n := false];
      prev := prev[n := x];
      next := next[n := next[x]];
      prev := prev[next[x] := n];
      next := next[x := n];
      blocks := Split(blocks, i, n, blocks[i].used, false);
    }

    /** The bytes at n become a header's. */
    method Stamp(n: nat)
      requires n + HDR <= pool.Length
      modifies pool
      ensures SameBut(old(pool[..]), pool[..], n, n + HDR)
    {
      for k := 0 to HDR
        invariant SameBut(old(pool[..]), pool[..], n, n + HDR)
      {
        pool[n + k] := *;
      }
    }

    lemma LinkedAfter(next: map<nat, nat>, prev: map<nat, nat>, s: seq<nat>, i: nat, n: nat)
      requires Ring(next, prev, s) && i < |s| && n !in s
      ensures s[i] in next && next[s[i]] != n && s[i] != n
      ensures prev[n := s[i]][next[s[i]] := n] == prev[next[s[i]] := n][n := s[i]]
    {
      assert next[s[i]] == s[Succ(s, i)];
    }

    /** The header x = blocks[i + 1] leaves the block list; the block before it grows over it. */
    method UnlinkBlock(x: nat, ghost i: nat)
      requires Linked() && i + 1 < |blocks| && |blocks| > 2 && blocks[i + 1].off == x && Distinct(Offs(blocks))
      modifies this`next, this`prev, this`blocks
      ensures Linked() && blocks == Merge(old(blocks), i)
    {
      hide Ring, Offs, Distinct;
      ghost var s := Offs(blocks);
      OffsAt(blocks, i + 1);
      MergeOffs(blocks, i);
      Unlinked(next, prev, s, i + 1);
      var before, behind := prev[x], next[x];
      prev := prev[behind := before];
      next := next[before := behind];
      blocks := Merge(blocks, i);
    }

    /** The header x leaves the free list. */
    method Unlist(x: nat)
      requires Linked() && x in free && Distinct(free) && FREE_HEADER !in free
      modifies this`nextFree, this`prevFree, this`free
      ensures Linked() && free == Without(old(free), x)
    {
      hide Ring, Offs, Flags, Distinct, Without;
      ghost var k :| 0 <= k < |free| && free[k] == x;
      ghost var s := [FREE_HEADER] + free;
      WithoutAt(free, k);
      Unlinked(nextFree, prevFree, s, k + 1);
      RingDistinct(nextFree, prevFree, s);
      Gone(s, k + 1, x);
      var before, behind := prevFree[x], nextFree[x];
      prevFree := prevFree[behind := before];
      nextFree := nextFree[before := behind];
      OutsideRing(nextFree, prevFree, s[..k + 1] + s[k + 2..], x, NIL, NIL);
      nextFree := nextFree[x := NIL];
      prevFree := prevFree[x := NIL];
      free := Without(free, x);
      assert s[..k + 1] + s[k + 2..] == [FREE_HEADER] + free;
    }

    lemma RingDistinct(next: map<nat, nat>, prev: map<nat, nat>, s: seq<nat>)
      requires Ring(next, prev, s)
      ensures Distinct(s)
    {
    }

    lemma Gone(s: seq<nat>, i: nat, x: nat)
      requires Distinct(s) && i < |s| && s[i] == x
      ensures x !in s[..i] + s[i + 1..]
    {
    }

    /** The header x goes to the front of the free list. */
    method ListFront(x: nat)
      requires Linked() && x !in free && x != FREE_HEADER
      modifies this`nextFree, this`prevFree, this`free
      ensures Linked() && free == [x] + old(free)
    {
      hide Ring, Offs, Flags, Distinct;
      ghost var s := [FREE_HEADER] + free;
      InsertedAfter(nextFree, prevFree, s, 0, x);
      LinkedAfter(nextFree, prevFree, s, 0, x);
      var first := nextFree[FREE_HEADER];
      nextFree := nextFree[x := first];
      prevFree := prevFree[x := FREE_HEADER];
      prevFree := prevFree[first := x];
      nextFree := nextFree[FREE_HEADER := x];
      free := [x] + free;
      assert s[..1] + [x] + s[1..] == [FREE_HEADER] + free;
    }

    /** Block i, at x, becomes used or unused. */
    method Mark(x: nat, u: bool, ghost i: nat)
      requires Linked() && Distinct(Offs(blocks)) && i < |blocks| && blocks[i].off == x
      modifies this`used, this`blocks
      ensures Linked() && blocks == Flag(old(blocks), i, u)
    {
      hide Ring, Offs, Distinct, Flags;
      FlagOffs(blocks, i, u);
      FlagFlags(used, blocks, i, u);
      used := used[x := u];
      blocks := Flag(blocks, i, u);
    }

    lemma FlagFlags(used: map<nat, bool>, bs: seq<Block>, i: nat, u: bool)
      requires Flags(used, bs) && i < |bs| && Distinct(Offs(bs))
      ensures Flags(used[bs[i].off := u], Flag(bs, i, u))
    {
      hide Offs;
      OffsAt(bs, i);
      forall k | 0 <= k < |bs| && k != i ensures bs[k].off != bs[i].off { OffsAt(bs, k); }
    }

    /** MEMITEM_SIZE of a header that is not the tail */
    method SizeOf(x: nat, ghost i: nat) returns (n: int)
      requires Linked() && Layout(H()) && i < |blocks| - 1 && blocks[i].off == x
      ensures n == Payload(blocks[i])
    {
      LinksAt(H(), i);
      hide Ring, Offs, Flags, Layout;
      n := next[x] - x - HDR;
    }

    lemma LinksAt(h: Heap, i: nat)
      requires Layout(h) && Ring(next, prev, Offs(h.blocks)) && i < |h.blocks| - 1
      ensures h.blocks[i].off in next && next[h.blocks[i].off] == h.blocks[i].end == h.blocks[i + 1].off
    {
      hide Ring, Offs, Flags, Tiles, Quads, HasTail;
      BlockLinks(next, prev, h.blocks, i, h.size);
    }

    /** The walk along the free list for a block of the size. */
    method Search(need: nat) returns (x: nat, freeSize: int)
      requires Valid() && need > 0
      ensures var k := FirstFit(blocks, free, need);
              && (k == |free| ==> x == FREE_HEADER && freeSize < need)
              && (k < |free| ==> x == free[k] && need <= freeSize == Payload(blocks[IndexOf(blocks, x)]))
    {
      hide Ring, Offs, Flags, Payload, FirstFit, IndexOf, Inv;
      ghost var k := 0;
      FreeStep(0);
      x, freeSize := nextFree[FREE_HEADER], 0;
      while x != FREE_HEADER && freeSize < need
        invariant k <= |free| && x == (if k == |free| then FREE_HEADER else free[k])
        invariant k < |free| ==> x in free && x != FREE_HEADER
        invariant forall j :: 0 <= j < k ==> !FitsAt(blocks, free[j], need)
        invariant freeSize >= need ==>
                    k < |free| && IndexOf(blocks, x) < |blocks| && freeSize == Payload(blocks[IndexOf(blocks, x)])
        decreases |free| - k, need - freeSize
      {
        ghost var i := IndexOf(blocks, x);
        FreeAtIndex(x);
        freeSize := SizeOf(x, i);
        if freeSize < need {
          FreeStep(k + 1);
          x := nextFree[x];
          k := k + 1;
        }
      }
      FirstFitIs(blocks, free, need, k);
    }

    lemma FreeStep(k: nat)
      requires Valid() && k <= |free|
      ensures var s := [FREE_HEADER] + free;
              s[k] in nextFree && nextFree[s[k]] == if k == |free| then FREE_HEADER else free[k]
      ensures k < |free| ==> free[k] != FREE_HEADER
    {
      RingStep(nextFree, prevFree, [FREE_HEADER] + free, k);
      RingDistinct(nextFree, prevFree, [FREE_HEADER] + free);
      hide Ring, Offs, Flags, Inv;
      if k < |free| { assert ([FREE_HEADER] + free)[0] != ([FREE_HEADER] + free)[k + 1]; }
    }

    lemma FreeAtIndex(x: nat)
      requires Valid() && x in free
      ensures var i := IndexOf(blocks, x); i < |blocks| - 1 && !blocks[i].used && blocks[i].off == x && Layout(H())
    {
      hide Ring, Offs, Flags, Layout, FreeAt, Roomy, Coalesced, Counted;
      ListedIsFree(H(), x);
    }

    lemma Apart()
      requires Linked() && Layout(H())
      ensures Distinct(Offs(blocks)) && FREE_HEADER !in Offs(blocks)
      ensures Distinct(free) && FREE_HEADER !in free
    {
      RingDistinct(next, prev, Offs(blocks));
      RingDistinct(nextFree, prevFree, [FREE_HEADER] + free);
      HeadOut([FREE_HEADER] + free);
      BelowTop(H());
      hide Ring, Flags, Layout, Distinct, Offs;
    }

    lemma BelowTop(h: Heap)
      requires Layout(h)
      ensures FREE_HEADER !in Offs(h.blocks)
    {
      hide Offs, Quads;
      forall i | 0 <= i < |h.blocks| ensures Offs(h.blocks)[i] < WORD {
        OffsAt(h.blocks, i);
        assert i < |h.blocks| - 1 ==> h.blocks[i].end <= h.blocks[|h.blocks| - 1].off;
      }
    }

    method Count(avail: int)
      modifies this`available, this`maxUsed
      ensures available == avail && maxUsed == Max(old(maxUsed), (poolSize - avail) % WORD)
    {
      available := avail;
      if (poolSize - available) % WORD > maxUsed {
        maxUsed := (poolSize - available) % WORD;
      }
    }

    /** rt_memheap_alloc */
    method Alloc(n: Size) returns (r: Ptr)
      requires Valid()
      modifies this`available, this`maxUsed, this`used, this`next, this`prev, this`nextFree, this`prevFree
      modifies this`blocks, this`free, pool
      ensures Valid() && (H(), r) == MemHeapSpec.Alloc(old(H()), n)
      ensures Untouched(old(H()), old(pool[..]), pool[..])
    {
      hide Inv, Linked, FirstFit, Granted, MemHeapSpec.Take, Payload, IndexOf, Untouched;
      AllocKeeps(H(), n);
      GrantedSize(n);
      var need: nat := Granted(n);
      UntouchedSelf(H(), pool[..]);
      r := Null;
      if need < available {
        var x, freeSize := Search(need);
        if freeSize >= need {
          FreeAtIndex(x);
          TakeBlock(x, freeSize, need, IndexOf(blocks, x));
          r := At(x + HDR);
        }
      }
    }

    lemma UntouchedSelf(h: Heap, m: seq<bv8>)
      ensures Untouched(h, m, m)
    {
    }

    method TakeBlock(x: nat, freeSize: int, need: nat, ghost i: nat)
      requires Valid() && i < |blocks| - 1 && blocks[i].off == x && x in free && !blocks[i].used
      requires freeSize == Payload(blocks[i]) >= need
      modifies this`available, this`maxUsed, this`used, this`next, this`prev, this`nextFree, this`prevFree
      modifies this`blocks, this`free, pool
      ensures Linked() && H() == Take(old(H()), i, need)
      ensures Untouched(old(H()), old(pool[..]), pool[..])
    {
      hide Inv, Linked, Offs, Layout, Distinct, Without;
      LayoutOf(H());
      FreePartCounted(H(), i);
      Apart();
      if freeSize >= need + HDR + MIN_ALLOC {
        CutOff(x, need, i);
      } else {
        Unlist(x);
        Count(available - freeSize);
        Mark(x, true, i);
      }
    }

    lemma LayoutOf(h: Heap)
      requires Inv(h)
      ensures Layout(h)
    {
    }

    /** The front of the block is handed out; the rest becomes a block of its own, first on the free list. */
    method CutOff(x: nat, need: nat, ghost i: nat)
      requires Valid() && i < |blocks| - 1 && blocks[i].off == x && x in free && !blocks[i].used
      requires Payload(blocks[i]) >= need + HDR + MIN_ALLOC
      modifies this`available, this`maxUsed, this`used, this`next, this`prev, this`nextFree, this`prevFree
      modifies this`blocks, this`free, pool
      ensures Linked() && H() == Take(old(H()), i, need)
      ensures Untouched(old(H()), old(pool[..]), pool[..])
    {
      hide Inv, Linked, Offs, Layout, Distinct, Split, Flag, Without, SameBut, Untouched;
      LayoutOf(H());
      FreePartCounted(H(), i);
      Apart();
      NewHeader(H(), i, x + HDR + need);
      var n: nat := x + need + HDR;
      LinkBlock(x, n, i);
      CutApart(old(H()), i, old(pool[..]), pool[..], n);
      Unlist(x);
      ListFront(n);
      Count(available - need - HDR);
      SplitThenFlag(old(blocks), i, n);
      AfterLink();
      Mark(x, true, i);
    }

    lemma CutApart(h: Heap, i: nat, m: seq<bv8>, m': seq<bv8>, n: nat)
      requires Layout(h) && i < |h.blocks| && !h.blocks[i].used
      requires h.blocks[i].off <= n && n + HDR <= h.blocks[i].end && SameBut(m, m', n, n + HDR)
      ensures Untouched(h, m, m')
    {
      WriteApart(h, i, i, m, m', n, n + HDR);
      forall b | Live(h.blocks, b) ensures b.off != h.blocks[i].off {
        if b.off == h.blocks[i].off { OffsetsAreUnique(h.blocks, h.size, HDR, i, b); }
      }
      hide Layout, SameBut;
    }

    lemma AfterLink()
      requires Linked()
      ensures Distinct(Offs(blocks))
    {
      RingDistinct(next, prev, Offs(blocks));
    }

    lemma SplitThenFlag(bs: seq<Block>, i: nat, mid: nat)
      requires i < |bs|
      ensures |Split(bs, i, mid, false, false)| == |bs| + 1 && Split(bs, i, mid, false, false)[i].off == bs[i].off
      ensures Flag(Split(bs, i, mid, false, false), i, true) == Split(bs, i, mid, true, false)
    {
    }

    /** A header inside a block is not yet a header, and not on the free list. */
    lemma NewHeader(h: Heap, i: nat, n: nat)
      requires Inv(h) && i < |h.blocks| && h.blocks[i].off < n < h.blocks[i].end
      ensures n !in Offs(h.blocks) && n !in h.free && n != FREE_HEADER && h.blocks[i].end <= h.size
    {
      hide Offs, Roomy, Coalesced, Counted, Distinct;
      InsideIsNew(h.blocks, i, n, h.size);
      forall k | 0 <= k < |h.blocks| ensures Offs(h.blocks)[k] != n {
        OffsAt(h.blocks, k);
        assert k < i ==> h.blocks[k].end <= h.blocks[i].off;
        assert i < k ==> h.blocks[i].end <= h.blocks[k].off;
      }
      assert i < |h.blocks| - 1 ==> h.blocks[i].end <= h.blocks[|h.blocks| - 1].off;
    }

    /** Whether the block behind block i is unused, as its header says. */
    lemma BehindIs(i: nat)
      requires Linked() && Layout(H()) && i < |blocks| - 1
      ensures blocks[i].off in next && next[blocks[i].off] == blocks[i + 1].off && blocks[i + 1].off in used
      ensures used[blocks[i + 1].off] == !RightFree(blocks, i)
      ensures RightFree(blocks, i) ==> i + 2 < |blocks|
    {
      hide Ring, Offs, Flags, Layout;
      LinksAt(H(), i);
      FlagAt(used, blocks, i + 1);
      TailIsUsed(H());
    }

    /** Whether the block before block i is unused; the block before the first is the tail. */
    lemma AheadIs(i: nat)
      requires Linked() && Layout(H()) && i < |blocks| - 1
      ensures blocks[i].off in prev && prev[blocks[i].off] in used
      ensures used[prev[blocks[i].off]] == !LeftFree(blocks, i)
      ensures i > 0 ==> prev[blocks[i].off] == blocks[i - 1].off
    {
      hide Ring, Offs, Flags, Tiles, Quads;
      if i > 0 {
        BlockLinks(next, prev, blocks, i - 1, poolSize);
        FlagAt(used, blocks, i - 1);
      } else {
        BlockLinks(next, prev, blocks, |blocks| - 1, poolSize);
        FlagAt(used, blocks, |blocks| - 1);
      }
    }

    lemma FlagAt(used: map<nat, bool>, bs: seq<Block>, i: nat)
      requires Flags(used, bs) && i < |bs|
      ensures bs[i].off in used && used[bs[i].off] == bs[i].used
    {
    }

    /** The unused block behind leaves the free list and becomes part of block i, at x. */
    method TakeBehind(x: nat, ghost i: nat)
      requires Linked() && Layout(H()) && i < |blocks| - 1 && blocks[i].off == x
      requires RightFree(blocks, i) && blocks[i + 1].off in free
      modifies this`next, this`prev, this`nextFree, this`prevFree, this`blocks, this`free
      ensures Linked() && blocks == Merge(old(blocks), i) && free == Without(old(free), old(blocks)[i + 1].off)
    {
      hide Linked, Layout, Offs, Merge, Without, Distinct;
      BehindIs(i);
      Apart();
      var behind := next[x];
      UnlinkBlock(behind, i);
      Unlist(behind);
    }

    method FuseRightHere(x: nat, ghost i: nat)
      requires Linked() && Layout(H()) && i < |blocks| - 1 && blocks[i].off == x
      requires RightFree(blocks, i) ==> blocks[i + 1].off in free
      modifies this`available, this`next, this`prev, this`nextFree, this`prevFree, this`blocks, this`free
      ensures Linked() && H() == FuseRight(old(H()), i)
    {
      hide Linked, Layout, Merge, Without;
      BehindIs(i);
      if !used[next[x]] {
        TakeBehind(x, i);
        available := available + HDR;
      }
    }

    method Unset(x: nat, ghost i: nat)
      requires Linked() && Layout(H()) && i < |blocks| - 1 && blocks[i].off == x
      modifies this`available, this`used, this`blocks
      ensures Linked() && H() == Unmark(old(H()), i)
    {
      hide Linked, Layout, Flag, Distinct;
      Apart();
      var n := SizeOf(x, i);
      Mark(x, false, i);
      available := available + n;
    }

    /** The block before block i, unused, grows over it. */
    method FuseLeft(x: nat, ghost i: nat) returns (before: nat)
      requires Linked() && Layout(H()) && 0 < i < |blocks| - 1 && blocks[i].off == x
      modifies this`available, this`next, this`prev, this`blocks
      ensures Linked() && H() == Fuse(old(H()), i - 1) && before == old(blocks)[i - 1].off
    {
      hide Linked, Layout, Merge, Distinct;
      AheadIs(i);
      Apart();
      available := available + HDR;
      before := prev[x];
      UnlinkBlock(x, i - 1);
    }

    lemma FreedFacts(h: Heap, i: nat)
      requires Freed(h, i) || FreedListed(h, i)
      ensures Layout(h) && i < |h.blocks| - 1 && (RightFree(h.blocks, i) ==> h.blocks[i + 1].off in h.free)
      ensures Freed(h, i) ==> h.blocks[i].off !in h.free
    {
      hide Layout, Counted, CoalescedBut, Roomy, FreeAt, Distinct;
      if RightFree(h.blocks, i) { RightIsFree(h, i); }
    }

    lemma RightIsFree(h: Heap, i: nat)
      requires Layout(h) && RightFree(h.blocks, i) && i < |h.blocks|
      ensures FreeAt(h.blocks, h.blocks[i + 1].off) && h.blocks[i + 1].off != h.blocks[i].off
    {
      assert h.blocks[i + 1] in h.blocks;
      OffsetsDiffer(h.blocks, h.size, HDR, i, i + 1);
      hide Quads;
    }

    method Release(x: nat, ghost i: nat)
      requires Valid() && i < |blocks| - 1 && blocks[i].off == x && blocks[i].used
      modifies this`available, this`used, this`next, this`prev, this`nextFree, this`prevFree, this`blocks, this`free
      ensures Valid() && H() == MemHeapSpec.Release(old(H()), i)
    {
      hide Linked, Layout, Inv, Freed, FreedListed, FuseRight, Fuse, Without;
      ReleaseKeeps(H(), i);
      UnmarkFrees(H(), i);
      LayoutOf(H());
      NotHead(i);
      ghost var h := H();
      Unset(x, i);
      FreedFacts(H(), i);
      AheadIs(i);
      UnmarkNeighbours(h, i);
      if !used[prev[x]] {
        FuseLeftKeeps(H(), i);
        var before := FuseLeft(x, i);
        FreedFacts(H(), i - 1);
        MergeHead(Unmark(h, i).blocks, i - 1);
        FusedOff(Unmark(h, i), i - 1);
        FuseRightHere(before, i - 1);
      } else {
        FuseRightHere(x, i);
        FusedFree(Unmark(h, i), i);
        ListFront(x);
      }
    }

    lemma NotHead(i: nat)
      requires Linked() && Layout(H()) && i < |blocks|
      ensures blocks[i].off != FREE_HEADER
    {
      BelowTop(H());
      OffsAt(blocks, i);
      hide Linked, Layout, Offs;
    }

    lemma FusedOff(h: Heap, i: nat)
      requires i + 1 < |h.blocks|
      ensures |Fuse(h, i).blocks| == |h.blocks| - 1 && Fuse(h, i).blocks[i].off == h.blocks[i].off
    {
    }

    lemma FusedFree(h: Heap, i: nat)
      requires i < |h.blocks|
      ensures forall p :: p in FuseRight(h, i).free ==> p in h.free
    {
    }

    /** rt_memheap_free */
    method Free(q: Ptr)
      requires Valid() && Holds(H(), q)
      modifies this`available, this`used, this`next, this`prev, this`nextFree, this`prevFree, this`blocks, this`free
      ensures Valid() && H() == MemHeapSpec.Free(old(H()), q)
    {
      hide Linked, Inv, MemHeapSpec.Release, Owned, IndexOf;
      if q != Null {
        ghost var i := HeldAt(H(), q);
        Release(q.addr - HDR, i);
      }
    }

    lemma HeldAt(h: Heap, q: Ptr) returns (i: nat)
      requires Inv(h) && Holds(h, q) && q != Null
      ensures q.addr >= HDR && i < |h.blocks| - 1 && h.blocks[i].off == q.addr - HDR && h.blocks[i].used
      ensures Owned(h, h.blocks[i]) && i == IndexOf(h.blocks, q.addr - HDR)
    {
      hide Inv, Live, IndexOf, Layout;
      var b :| Owned(h, b) && q == At(b.off + HDR);
      LayoutOf(h);
      i := OwnedAt(h, b);
    }

    /** rt_memheap_realloc; moving also copies the payload. */
    method Realloc(q: Ptr, n: Size) returns (r: Ptr)
      requires Valid() && Holds(H(), q)
      modifies this`available, this`maxUsed, this`used, this`next, this`prev, this`nextFree, this`prevFree
      modifies this`blocks, this`free, pool
      ensures Linked() && (H(), r) == MemHeapSpec.Realloc(old(H()), q, n)
      ensures !Overruns(old(H()), q, n) ==>
                && Valid() && OthersSame(old(H()), OffOf(q), old(pool[..]), pool[..])
                && forall b :: Owned(old(H()), b) && q == At(b.off + HDR) && r.At? ==>
                     HoldsPrefix(old(pool[..]), q.addr, pool[..], r.addr, Lesser(Payload(b), Granted(n)))
    {
      hide Linked, Inv, Holds, MemHeapSpec.Free, MemHeapSpec.Alloc, Resize, Granted, IndexOf, OthersSame,
        HoldsPrefix, Owned;
      if n == 0 {
        Free(q);
        NothingChanged(old(H()), OffOf(q), pool[..]);
        return Null;
      }
      GrantedSize(n);
      var need: Size := Granted(n);
      if q == Null {
        r := Alloc(need);
        UntouchedOthers(old(H()), OffOf(q), old(pool[..]), pool[..]);
      } else {
        ghost var i := HeldAt(H(), q);
        HeldOnce(H(), i);
        r := ResizeBlock(q, need, i);
      }
    }

    lemma HeldOnce(h: Heap, i: nat)
      requires Inv(h) && i < |h.blocks|
      ensures forall b :: Owned(h, b) && b.off == h.blocks[i].off ==> b == h.blocks[i]
    {
      forall b | Owned(h, b) && b.off == h.blocks[i].off ensures b == h.blocks[i] {
        OffsetsAreUnique(h.blocks, h.size, HDR, i, b);
      }
      hide Layout, Coalesced, FreeList, Counted, Roomy;
    }

    method ResizeBlock(q: Ptr, need: Size, ghost i: nat) returns (r: Ptr)
      requires Valid() && i < |blocks| - 1 && blocks[i].used && q == At(blocks[i].off + HDR)
      requires need % 4 == 0 && MIN_ALLOC <= need <= WORD - 8
      modifies this`available, this`maxUsed, this`used, this`next, this`prev, this`nextFree, this`prevFree
      modifies this`blocks, this`free, pool
      ensures Linked() && (H(), r) == Resize(old(H()), i, need)
      ensures !(need + MIN_ALLOC >= WORD && RightFree(old(blocks), i)) ==>
                && Valid() && OthersSame(old(H()), old(blocks)[i].off, old(pool[..]), pool[..])
                && (r.At? ==> HoldsPrefix(old(pool[..]), q.addr, pool[..], r.addr, Lesser(Payload(old(blocks)[i]),
                  need)))
    {
      hide Linked, Inv, Stretch, Shrink, MemHeapSpec.Alloc, MemHeapSpec.Free, Layout, OthersSame, HoldsPrefix;
      LayoutOf(H());
      var x: nat := q.addr - HDR;
      var oldSize := SizeOf(x, i);
      if need > oldSize {
        var fits := RoomBehind(x, oldSize, need, i);
        if fits {
          GrowHere(x, oldSize, need, i);
          r := q;
        } else {
          r := MoveBlock(q, oldSize, need, i);
        }
      } else if need + HDR + MIN_ALLOC >= oldSize {
        PrefixOfSelf(pool[..], q.addr, Lesser(oldSize, need));
        NothingChanged(H(), x, pool[..]);
        r := q;
      } else {
        ShrinkKeeps(H(), i, need);
        ShrinkHere(x, need, i);
        r := q;
      }
    }

    /** Whether the block behind is unused and large enough to make up the difference. */
    method RoomBehind(x: nat, oldSize: int, need: nat, ghost i: nat) returns (fits: bool)
      requires Linked() && Layout(H()) && i < |blocks| - 1 && blocks[i].off == x && oldSize == Payload(blocks[i])
      ensures fits == CanGrow(blocks, i, need)
    {
      hide Linked, Layout;
      BehindIs(i);
      fits := false;
      if !used[next[x]] {
        var nextSize := SizeOf(next[x], i + 1);
        fits := (nextSize + oldSize) % WORD > (need + MIN_ALLOC) % WORD;
      }
    }

    /** A new block, the common prefix of the bytes, and the old block freed. */
    method MoveBlock(q: Ptr, oldSize: int, need: Size, ghost i: nat) returns (r: Ptr)
      requires Valid() && i < |blocks| - 1 && blocks[i].used && q == At(blocks[i].off + HDR) && need <= WORD - 8
      requires oldSize == Payload(blocks[i]) < need
      modifies this`available, this`maxUsed, this`used, this`next, this`prev, this`nextFree, this`prevFree
      modifies this`blocks, this`free, pool
      ensures Valid()
      ensures var a := MemHeapSpec.Alloc(old(H()), need);
              (H(), r) == if a.1 == Null then a else (MemHeapSpec.Free(a.0, q), a.1)
      ensures OthersSame(old(H()), old(blocks)[i].off, old(pool[..]), pool[..])
      ensures r.At? ==> HoldsPrefix(old(pool[..]), q.addr, pool[..], r.addr, oldSize)
    {
      hide Linked, Inv, MemHeapSpec.Alloc, MemHeapSpec.Free, Owned, OthersSame, Untouched, HoldsPrefix, SameBut, Live;
      HeldByClient(H(), i);
      ghost var h, b := H(), blocks[i];
      r := Alloc(need);
      UntouchedOthers(h, b.off, old(pool[..]), pool[..]);
      if r != Null {
        ghost var m := pool[..];
        ghost var c := MovedRoom(h, b, need);
        PoolLength();
        Copy(r.addr, q.addr, if oldSize < need then oldSize else need);
        CopiedWell(h, b, c, old(pool[..]), m, pool[..], oldSize);
        StillHeld(h, b, need);
        Free(q);
      }
    }

    /** rt_memcpy of one payload to another */
    method Copy(dst: nat, src: nat, len: nat)
      requires dst + len <= pool.Length && src + len <= pool.Length && (dst + len <= src || src + len <= dst)
      modifies pool
      ensures SameBut(old(pool[..]), pool[..], dst, dst + len)
      ensures forall j :: dst <= j < dst + len ==> pool[j] == old(pool[src + (j - dst)])
    {
      for k := 0 to len
        invariant forall j :: 0 <= j < pool.Length ==>
                    pool[j] == if dst <= j < dst + k then old(pool[src + (j - dst)]) else old(pool[j])
      {
        pool[dst + k] := pool[src + k];
      }
    }

    lemma PoolLength()
      requires Linked()
      ensures pool.Length == poolSize && |pool[..]| == poolSize
    {
    }

    lemma UntouchedOthers(h: Heap, p: int, m: seq<bv8>, m': seq<bv8>)
      requires Untouched(h, m, m')
      ensures OthersSame(h, p, m, m')
    {
    }

    /** The block given by the second allocator call lies apart from the one to be copied. */
    lemma MovedRoom(h: Heap, b: Block, need: Size) returns (c: Block)
      requires Inv(h) && Owned(h, b) && need <= WORD - 8 && Payload(b) < need && MemHeapSpec.Alloc(h, need).1 != Null
      ensures var r := MemHeapSpec.Alloc(h, need).1;
              && r == At(c.off + HDR) && Payload(c) >= need && c.off + HDR >= 0
              && c.end <= h.size && b.off + HDR <= b.end <= h.size && (c.end <= b.off || b.end <= c.off)
              && !Live(h.blocks, c) && (forall x :: Live(h.blocks, x) ==> x.end <= c.off || c.end <= x.off)
    {
      hide Inv, MemHeapSpec.Alloc, Granted;
      c := AllocGrants(h, need);
      GrantedSize(need);
      AllocKeeps(h, need);
      var h' := MemHeapSpec.Alloc(h, need).0;
      LayoutOf(h');
      forall x | Live(h.blocks, x) ensures x.end <= c.off || c.end <= x.off { LiveApart(h', c, x); }
      InsidePool(h', c);
      InsidePool(h', b);
    }

    lemma LiveApart(h: Heap, a: Block, b: Block)
      requires Layout(h) && Live(h.blocks, a) && Live(h.blocks, b) && a != b
      ensures a.end <= b.off || b.end <= a.off
    {
      var i :| 0 <= i < |h.blocks| && h.blocks[i] == a;
      var j :| 0 <= j < |h.blocks| && h.blocks[j] == b;
      assert i < j || j < i;
    }

    lemma InsidePool(h: Heap, a: Block)
      requires Layout(h) && Live(h.blocks, a)
      ensures a.off + HDR <= a.end <= h.size
    {
      var i :| 0 <= i < |h.blocks| && h.blocks[i] == a;
      assert i < |h.blocks| - 1 ==> h.blocks[i].end <= h.blocks[|h.blocks| - 1].off;
    }

    lemma CopiedWell(h: Heap, b: Block, c: Block, m0: seq<bv8>, m1: seq<bv8>, m2: seq<bv8>, len: nat)
      requires Untouched(h, m0, m1) && |m0| == |m1| && Live(h.blocks, b) && len == Payload(b) <= Payload(c)
      requires c.end <= |m1| && b.end <= |m1|
      requires forall x :: Live(h.blocks, x) ==> x.end <= c.off || c.end <= x.off
      requires SameBut(m1, m2, c.off + HDR, c.off + HDR + len)
      requires forall j :: c.off + HDR <= j < c.off + HDR + len ==> m2[j] == m1[b.off + (j - c.off)]
      ensures OthersSame(h, b.off, m0, m2)
      ensures HoldsPrefix(m0, b.off + HDR, m2, c.off + HDR, len)
    {
      assert SameInside(m0, m1, b);
      forall x | Live(h.blocks, x) && x.off != b.off ensures SameInside(m0, m2, x) {
        assert SameInside(m0, m1, x) && (x.end <= c.off || c.end <= x.off);
        forall k: int | x.off + HDR <= k < x.end && k < |m0| ensures m2[k] == m0[k] {
          assert m2[k] == m1[k] && m1[k] == m0[k];
        }
      }
      hide Live;
    }

    lemma StillHeld(h: Heap, b: Block, need: Size)
      requires Inv(h) && Owned(h, b) && MemHeapSpec.Alloc(h, need).1 != Null
      ensures Holds(MemHeapSpec.Alloc(h, need).0, At(b.off + HDR))
    {
      hide Inv, MemHeapSpec.Alloc, Live, Granted;
      var c := AllocGrants(h, need);
      assert Owned(MemHeapSpec.Alloc(h, need).0, b);
    }

    /** The next block's header moves to the end of the enlarged payload. */
    method GrowHere(x: nat, oldSize: int, need: nat, ghost i: nat)
      requires Valid() && i < |blocks| - 1 && blocks[i].off == x && blocks[i].used && oldSize == Payload(blocks[i])
      requires oldSize < need <= WORD - 8 && need % 4 == 0 && need >= MIN_ALLOC && CanGrow(blocks, i, need)
      modifies this`available, this`maxUsed, this`used, this`next, this`prev, this`nextFree, this`prevFree
      modifies this`blocks, this`free, pool
      ensures Linked() && H() == Stretch(old(H()), i, need)
      ensures need + MIN_ALLOC < WORD ==>
                && Valid() && OthersSame(old(H()), x, old(pool[..]), pool[..])
                && HoldsPrefix(old(pool[..]), x + HDR, pool[..], x + HDR, oldSize)
    {
      hide Linked, Inv, Layout, Stretch, CanGrow, SameBut, OthersSame, HoldsPrefix;
      ghost var h := H();
      MoveHere(x, oldSize, need, i);
      if need + MIN_ALLOC < WORD {
        GrowthFits(h, i, need);
        StretchIsGrow(h, i, need);
        GrowKeeps(h, i, need);
        GrownApart(h, i, need, old(pool[..]), pool[..]);
      }
    }

    lemma GrownApart(h: Heap, i: nat, need: nat, m: seq<bv8>, m': seq<bv8>)
      requires Inv(h) && i < |h.blocks| - 1 && need > Payload(h.blocks[i]) && need < WORD && HasRoom(h.blocks, i, need)
      requires var n := (h.blocks[i].off + HDR + need) % WORD; SameBut(m, m', n, n + HDR)
      ensures OthersSame(h, h.blocks[i].off, m, m')
      ensures HoldsPrefix(m, h.blocks[i].off + HDR, m', h.blocks[i].off + HDR, Payload(h.blocks[i]))
    {
      hide Coalesced, FreeList, Counted, Roomy, Tiles;
      TilesHere(h, i);
      var n := h.blocks[i].off + HDR + need;
      assert n % WORD == n;
      WriteApart(h, i, i + 1, m, m', n, n + HDR);
      hide Layout, OthersSame;
    }

    method MoveHere(x: nat, oldSize: int, need: nat, ghost i: nat)
      requires Valid() && i < |blocks| - 1 && blocks[i].off == x && blocks[i].used && oldSize == Payload(blocks[i])
      requires oldSize < need <= WORD - 8 && need % 4 == 0 && CanGrow(blocks, i, need)
      modifies this`available, this`maxUsed, this`used, this`next, this`prev, this`nextFree, this`prevFree
      modifies this`blocks, this`free, pool
      ensures Linked() && H() == Stretch(old(H()), i, need)
      ensures var n := (x + HDR + need) % WORD; SameBut(old(pool[..]), pool[..], n, n + HDR)
    {
      hide Linked, Inv, Layout, Offs, Merge, Split, Without, Distinct, SameBut;
      LayoutOf(H());
      RightListed(H(), i);
      MovedHeader(H(), i, need);
      MergeHead(blocks, i);
      ghost var h := H();
      Count((available - (need - oldSize)) % WORD);
      SameLayout(h, H());
      TakeBehind(x, i);
      var n := (x + HDR + need) % WORD;
      LinkBlock(x, n, i);
      ListFront(n);
    }

    lemma RightListed(h: Heap, i: nat)
      requires Inv(h) && i < |h.blocks|
      ensures RightFree(h.blocks, i) ==> h.blocks[i + 1].off in h.free
    {
      hide Layout, Counted, Coalesced, Roomy, FreeAt;
      if RightFree(h.blocks, i) { RightIsFree(h, i); }
    }

    /** Once the next block has gone, its new header is at no other's place, on neither list; after a wrap
        it is inside the header of the block itself. */
    lemma MovedHeader(h: Heap, i: nat, need: nat)
      requires Inv(h) && i < |h.blocks| - 1 && h.blocks[i].used && Payload(h.blocks[i]) < need <= WORD - 8
      requires need % 4 == 0 && CanGrow(h.blocks, i, need)
      ensures var n := (h.blocks[i].off + HDR + need) % WORD;
              && n !in Offs(Merge(h.blocks, i)) && n !in Without(h.free, h.blocks[i + 1].off) && n != FREE_HEADER
              && n + HDR <= h.size
    {
      hide Layout, Offs, Counted, Coalesced, Roomy, FreeAt, CanGrow, Merge;
      var n := (h.blocks[i].off + HDR + need) % WORD;
      RoomySum(h, i, need);
      InsideMerged(h, i, need);
      NotInOffs(Merge(h.blocks, i), i, n, h.size);
      MergedIsNew(h, i, n);
    }

    lemma RoomySum(h: Heap, i: nat, need: nat)
      requires Inv(h) && i < |h.blocks| - 1 && CanGrow(h.blocks, i, need) && h.blocks[i].used
      ensures Payload(h.blocks[i]) >= MIN_ALLOC && Payload(h.blocks[i + 1]) >= MIN_ALLOC && RightFree(h.blocks, i)
    {
      hide Layout, Counted, Coalesced, FreeList;
      TailIsUsed(h);
      assert i + 1 < |h.blocks| - 1;
    }

    lemma MergedIsNew(h: Heap, i: nat, n: nat)
      requires Layout(h) && FreeList(h) && i < |h.blocks| - 1 && h.blocks[i].used && RightFree(h.blocks, i)
      requires h.blocks[i].off < n < h.blocks[i + 1].end
      ensures n !in Without(h.free, h.blocks[i + 1].off)
    {
      hide Quads, Distinct;
      forall k | 0 <= k < |h.blocks| ensures h.blocks[k].off == n ==> k == i + 1 {
        assert k < i ==> h.blocks[k].end <= h.blocks[i].off;
        assert i + 1 < k ==> h.blocks[i + 1].end <= h.blocks[k].off;
      }
      assert FreeAt(h.blocks, n) ==> n == h.blocks[i + 1].off;
    }

    lemma InsideMerged(h: Heap, i: nat, need: nat)
      requires Layout(h) && i < |h.blocks| - 1 && Payload(h.blocks[i]) < need <= WORD - 8 && need % 4 == 0
      requires CanGrow(h.blocks, i, need) && Payload(h.blocks[i]) >= MIN_ALLOC && Payload(h.blocks[i + 1]) >= MIN_ALLOC
      ensures var m, n := Merge(h.blocks, i), (h.blocks[i].off + HDR + need) % WORD;
              && Tiles(m, h.size, HDR) && i < |m| && m[i].off == h.blocks[i].off < n < m[i].end == h.blocks[i + 1].end
              && n + HDR <= h.size < WORD
    {
      hide Quads;
      GrowTest(h, i, need);
      TilesHere(h, i);
      MergeTiles(h.blocks, i, h.size, HDR);
      hide Layout, Tiles;
    }

    lemma NotInOffs(bs: seq<Block>, i: nat, n: nat, size: nat)
      requires Tiles(bs, size, HDR) && i < |bs| && bs[i].off < n < bs[i].end
      ensures n !in Offs(bs)
    {
      hide Offs;
      forall k | 0 <= k < |bs| ensures Offs(bs)[k] != n {
        OffsAt(bs, k);
        assert k < i ==> bs[k].end <= bs[i].off;
        assert i < k ==> bs[i].end <= bs[k].off;
      }
    }

    /** The end of the block becomes an unused one, together with the block behind if that is unused. */
    method ShrinkHere(x: nat, need: nat, ghost i: nat)
      requires Valid() && i < |blocks| - 1 && blocks[i].off == x && blocks[i].used && CanShrink(blocks[i], need)
      requires need % 4 == 0 && need >= MIN_ALLOC
      modifies this`available, this`used, this`next, this`prev, this`nextFree, this`prevFree, this`blocks, this`free,
        pool
      ensures Linked() && H() == Shrink(old(H()), i, need)
      ensures OthersSame(old(H()), x, old(pool[..]), pool[..])
      ensures HoldsPrefix(old(pool[..]), x + HDR, pool[..], x + HDR, need)
    {
      hide Linked, Inv, Layout, Offs, Merge, Split, Without, Distinct, Freed, SameBut, OthersSame, HoldsPrefix;
      ghost var h := H();
      LayoutOf(h);
      CutFrees(h, i, need);
      FreedFacts(Cut(h, i, need), i + 1);
      NewHeader(h, i, x + HDR + need);
      var n: nat := x + need + HDR;
      LinkBlock(x, n, i);
      ShrunkApart(h, i, need, old(pool[..]), pool[..]);
      SameLayout(Cut(h, i, need), H());
      CutParts(h, i, need);
      AddFree(n, i + 1);
    }

    lemma ShrunkApart(h: Heap, i: nat, need: nat, m: seq<bv8>, m': seq<bv8>)
      requires Layout(h) && i < |h.blocks| && CanShrink(h.blocks[i], need)
      requires var n := h.blocks[i].off + HDR + need; SameBut(m, m', n, n + HDR)
      ensures OthersSame(h, h.blocks[i].off, m, m')
      ensures HoldsPrefix(m, h.blocks[i].off + HDR, m', h.blocks[i].off + HDR, need)
    {
      WriteApart(h, i, i, m, m', h.blocks[i].off + HDR + need, h.blocks[i].off + HDR + need + HDR);
      hide Layout, OthersSame;
    }

    lemma PrefixOfSelf(m: seq<bv8>, p: int, len: int)
      ensures HoldsPrefix(m, p, m, p, len)
    {
    }

    lemma NothingChanged(h: Heap, p: int, m: seq<bv8>)
      ensures OthersSame(h, p, m, m)
    {
    }

    lemma SameLayout(a: Heap, b: Heap)
      requires Layout(a) && a.blocks == b.blocks && a.size == b.size
      ensures Layout(b)
    {
    }

    lemma CutParts(h: Heap, i: nat, need: nat)
      requires i < |h.blocks|
      ensures Cut(h, i, need).blocks[i + 1] == Block(h.blocks[i].off + HDR + need, h.blocks[i].end, false)
    {
    }

    /** A new unused block, and the one behind if that is unused too, are listed and counted as one. */
    method AddFree(n: nat, ghost j: nat)
      requires Linked() && Layout(H()) && j < |blocks| - 1 && blocks[j].off == n && n !in free && !blocks[j].used
      requires RightFree(blocks, j) ==> blocks[j + 1].off in free
      modifies this`available, this`next, this`prev, this`nextFree, this`prevFree, this`blocks, this`free
      ensures Linked()
      ensures var f := FuseRight(old(H()), j);
              H() == f.(free := [n] + f.free, avail := f.avail + Payload(old(blocks)[j]))
    {
      hide Linked, Layout, Offs, Merge, Without, Distinct;
      ghost var h := H();
      NotHead(j);
      BehindIs(j);
      var behind := next[n];
      if !used[behind] {
        var size := SizeOf(behind, j + 1);
        available := available - size;
        SameLayout(h, H());
        TakeBehind(n, j);
        MergeHead(h.blocks, j);
        Touching(h, j);
        FuseLayout(h, j);
        SameLayout(Fuse(h, j), H());
      }
      ListFront(n);
      SameLayout(FuseRight(h, j), H());
      var size := SizeOf(n, j);
      available := available + size;
    }
  }
}
