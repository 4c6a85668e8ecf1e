/** Sizes, pointers, and a region of memory cut into consecutive blocks, as both heap allocators keep it.
    Three edits (flag, split, merge) are all an allocator ever does to the layout. */
module Tiling {

  const WORD: nat := 0x1_0000_0000       // rt_size_t is 32 bits wide

  type Size = n: nat | n < WORD

  /** RT_ALIGN on a 32-bit size; the addition wraps. */
  function AlignUp(n: Size): (r: Size)
    ensures r % 8 == 0
    ensures n <= WORD - 8 ==> n <= r < n + 8
    ensures n > WORD - 8 ==> r == 0
  {
    ((n + 7) % WORD) / 8 * 8
  }

  /** A pointer handed to or by a client; addresses are relative to the start of the region. */
  datatype Ptr = Null | At(addr: int)

  /** Offsets are relative to the first byte of the region; `end` is the offset of the next header. */
  datatype Block = Block(off: nat, end: nat, used: bool)

  /** The blocks cover [0, top) in order, without gap or overlap, each with room for its header. */
  ghost predicate Tiles(bs: seq<Block>, top: nat, hdr: nat) {
    && |bs| > 0 && bs[0].off == 0 && bs[|bs| - 1].end == top
    && (forall i :: 0 <= i < |bs| ==> bs[i].off + hdr <= bs[i].end)
    && (forall i, j :: 0 <= i < j < |bs| ==> bs[i].end <= bs[j].off && (j == i + 1 ==> bs[i].end == bs[j].off))
  }

  /** No two free blocks touch; with `hole` given, its two borders are exempt. */
  ghost predicate Coalesced(bs: seq<Block>) {
    forall i, j :: 0 <= i < j < |bs| && j == i + 1 ==> bs[i].used || bs[j].used
  }

  ghost predicate CoalescedBut(bs: seq<Block>, hole: nat) {
    forall i, j :: 0 <= i < j < |bs| && j == i + 1 && i != hole && j != hole ==> bs[i].used || bs[j].used
  }

  function IndexOf(bs: seq<Block>, p: nat): (i: nat)
    ensures i <= |bs|
    ensures i < |bs| ==> bs[i].off == p
    ensures forall j :: 0 <= j < i ==> bs[j].off != p
  {
    if |bs| == 0 || bs[0].off == p then 0 else IndexOf(bs[1..], p) + 1
  }

  lemma IndexOfBlock(bs: seq<Block>, top: nat, hdr: nat, i: nat)
    requires hdr > 0 && Tiles(bs, top, hdr) && i < |bs|
    ensures IndexOf(bs, bs[i].off) == i
  {
    OffsetsAreUnique(bs, top, hdr, i, bs[IndexOf(bs, bs[i].off)]);
  }

  // ----- the three edits

  function Flag(bs: seq<Block>, i: nat, used: bool): seq<Block>
    requires i < |bs|
  {
    bs[i := bs[i].(used := used)]
  }

  function Split(bs: seq<Block>, i: nat, mid: nat, left: bool, right: bool): seq<Block>
    requires i < |bs|
  {
    bs[..i] + [Block(bs[i].off, mid, left), Block(mid, bs[i].end, right)] + bs[i + 1..]
  }

  function Merge(bs: seq<Block>, i: nat): seq<Block>
    requires i + 1 < |bs|
  {
    bs[..i] + [Block(bs[i].off, bs[i + 1].end, bs[i].used)] + bs[i + 2..]
  }

  lemma SplitTiles(bs: seq<Block>, i: nat, mid: nat, left: bool, right: bool, top: nat, hdr: nat)
    requires Tiles(bs, top, hdr) && i < |bs|
    requires bs[i].off + hdr <= mid && mid + hdr <= bs[i].end
    ensures Tiles(Split(bs, i, mid, left, right), top, hdr)
  {
    SplitPairs(bs, i, mid, left, right, top, hdr);
    var s := Split(bs, i, mid, left, right);
    forall p | 0 <= p < |s| ensures s[p].off + hdr <= s[p].end {
      assert p < i ==> s[p] == bs[p];
      assert p > i + 1 ==> s[p] == bs[p - 1];
    }
  }

  lemma SplitPairs(bs: seq<Block>, i: nat, mid: nat, left: bool, right: bool, top: nat, hdr: nat)
    requires Tiles(bs, top, hdr) && i < |bs|
    requires bs[i].off + hdr <= mid && mid + hdr <= bs[i].end
    ensures var s := Split(bs, i, mid, left, right);
            forall p, q :: 0 <= p < q < |s| ==> s[p].end <= s[q].off && (q == p + 1 ==> s[p].end == s[q].off)
  {
    var s := Split(bs, i, mid, left, right);
    forall p, q | 0 <= p < q < |s|
      ensures s[p].end <= s[q].off && (q == p + 1 ==> s[p].end == s[q].off)
    {
      var p', q' := if p <= i then p else p - 1, if q <= i then q else q - 1;
      assert p' < q' ==> bs[p'].end <= bs[q'].off && (q' == p' + 1 ==> bs[p'].end == bs[q'].off);
      hide Tiles;
    }
  }

  lemma MergeTiles(bs: seq<Block>, i: nat, top: nat, hdr: nat)
    requires Tiles(bs, top, hdr) && i + 1 < |bs|
    ensures Tiles(Merge(bs, i), top, hdr)
  {
  }

  lemma FlagTiles(bs: seq<Block>, i: nat, used: bool, top: nat, hdr: nat)
    requires Tiles(bs, top, hdr) && i < |bs|
    ensures Tiles(Flag(bs, i, used), top, hdr)
  {
  }

  // ----- which blocks an edit leaves

  lemma FlagMembers(bs: seq<Block>, i: nat, used: bool, top: nat, hdr: nat, x: Block)
    requires hdr > 0 && Tiles(bs, top, hdr) && i < |bs|
    ensures x in Flag(bs, i, used) <==> (x in bs && x != bs[i]) || x == bs[i].(used := used)
  {
    hide Tiles;
    var f := Flag(bs, i, used);
    assert f[i] == bs[i].(used := used);
    if x in bs && x != bs[i] {
      var j :| 0 <= j < |bs| && bs[j] == x;
      assert f[j] == x;
    }
    if x in f && x != f[i] {
      var j :| 0 <= j < |f| && f[j] == x;
      assert bs[j] == x;
      OffsetsDiffer(bs, top, hdr, i, j);
    }
  }

  lemma SplitMembers(bs: seq<Block>, i: nat, mid: nat, left: bool, right: bool, top: nat, hdr: nat, x: Block)
    requires hdr > 0 && Tiles(bs, top, hdr) && i < |bs|
    ensures x in Split(bs, i, mid, left, right)
       <==> (x in bs && x != bs[i]) || x == Block(bs[i].off, mid, left) || x == Block(mid, bs[i].end, right)
  {
    hide Tiles;
    var s := Split(bs, i, mid, left, right);
    assert s[i] == Block(bs[i].off, mid, left) && s[i + 1] == Block(mid, bs[i].end, right);
    if x in bs && x != bs[i] {
      var j :| 0 <= j < |bs| && bs[j] == x;
      assert if j < i then s[j] == x else s[j + 1] == x;
    }
    if x in s && x != s[i] && x != s[i + 1] {
      var j :| 0 <= j < |s| && s[j] == x;
      var k := if j < i then j else j - 1;
      assert bs[k] == x;
      OffsetsDiffer(bs, top, hdr, i, k);
    }
  }

  lemma MergeMembers(bs: seq<Block>, i: nat, top: nat, hdr: nat, x: Block)
    requires hdr > 0 && Tiles(bs, top, hdr) && i + 1 < |bs|
    ensures x in Merge(bs, i)
       <==> (x in bs && x != bs[i] && x != bs[i + 1]) || x == Block(bs[i].off, bs[i + 1].end, bs[i].used)
  {
    hide Tiles;
    var m := Merge(bs, i);
    assert m[i] == Block(bs[i].off, bs[i + 1].end, bs[i].used);
    if x in bs && x != bs[i] && x != bs[i + 1] {
      var j :| 0 <= j < |bs| && bs[j] == x;
      assert if j < i then m[j] == x else m[j - 1] == x;
    }
    if x in m && x != m[i] {
      var j :| 0 <= j < |m| && m[j] == x;
      var k := if j < i then j else j + 1;
      assert bs[k] == x;
      OffsetsDiffer(bs, top, hdr, i, k);
      OffsetsDiffer(bs, top, hdr, i + 1, k);
    }
  }

  // ----- bytes held by the used blocks, or by the free ones, each less hdr

  function Held(bs: seq<Block>, used: bool, hdr: nat): (n: int) {
    if |bs| == 0 then 0
    else (if bs[0].used == used then bs[0].end - bs[0].off - hdr else 0) + Held(bs[1..], used, hdr)
  }

  lemma {:induction false} HeldConcat(a: seq<Block>, b: seq<Block>, used: bool, hdr: nat)
    ensures Held(a + b, used, hdr) == Held(a, used, hdr) + Held(b, used, hdr)
  {
    if |a| == 0 {
      assert a + b == b;
    } else {
      assert (a + b)[1..] == a[1..] + b;
      HeldConcat(a[1..], b, used, hdr);
    }
  }

  lemma HeldSplice(bs: seq<Block>, i: nat, j: nat, repl: seq<Block>, used: bool, hdr: nat)
    requires i <= j <= |bs|
    ensures Held(bs[..i] + repl + bs[j..], used, hdr)
            == Held(bs, used, hdr) - Held(bs[i..j], used, hdr) + Held(repl, used, hdr)
  {
    assert bs == bs[..i] + (bs[i..j] + bs[j..]);
    HeldConcat(bs[..i], bs[i..j] + bs[j..], used, hdr);
    HeldConcat(bs[i..j], bs[j..], used, hdr);
    HeldConcat(bs[..i] + repl, bs[j..], used, hdr);
    HeldConcat(bs[..i], repl, used, hdr);
  }

  lemma HeldOne(b: Block, used: bool, hdr: nat)
    ensures Held([b], used, hdr) == if b.used == used then b.end - b.off - hdr else 0
  {
    assert Held([b][1..], used, hdr) == 0;
  }

  lemma HeldTwo(a: Block, b: Block, used: bool, hdr: nat)
    ensures Held([a, b], used, hdr) == Held([a], used, hdr) + Held([b], used, hdr)
  {
    assert [a, b] == [a] + [b];
    HeldConcat([a], [b], used, hdr);
  }

  lemma HeldFlag(bs: seq<Block>, i: nat, used: bool, which: bool, hdr: nat)
    requires i < |bs|
    ensures Held(Flag(bs, i, used), which, hdr)
         == Held(bs, which, hdr) - Held([bs[i]], which, hdr) + Held([bs[i].(used := used)], which, hdr)
  {
    assert Flag(bs, i, used) == bs[..i] + [bs[i].(used := used)] + bs[i + 1..];
    assert bs[i..i + 1] == [bs[i]];
    HeldSplice(bs, i, i + 1, [bs[i].(used := used)], which, hdr);
  }

  lemma HeldSplit(bs: seq<Block>, i: nat, mid: nat, left: bool, right: bool, which: bool, hdr: nat)
    requires i < |bs|
    ensures Held(Split(bs, i, mid, left, right), which, hdr)
         == Held(bs, which, hdr) - Held([bs[i]], which, hdr)
          + Held([Block(bs[i].off, mid, left)], which, hdr) + Held([Block(mid, bs[i].end, right)], which, hdr)
  {
    var l, r := Block(bs[i].off, mid, left), Block(mid, bs[i].end, right);
    assert bs[i..i + 1] == [bs[i]];
    HeldSplice(bs, i, i + 1, [l, r], which, hdr);
    HeldTwo(l, r, which, hdr);
  }

  lemma HeldMerge(bs: seq<Block>, i: nat, which: bool, hdr: nat)
    requires i + 1 < |bs|
    ensures Held(Merge(bs, i), which, hdr)
         == Held(bs, which, hdr) - Held([bs[i]], which, hdr) - Held([bs[i + 1]], which, hdr)
          + Held([Block(bs[i].off, bs[i + 1].end, bs[i].used)], which, hdr)
  {
    assert bs[i..i + 2] == [bs[i], bs[i + 1]];
    HeldSplice(bs, i, i + 2, [Block(bs[i].off, bs[i + 1].end, bs[i].used)], which, hdr);
    HeldTwo(bs[i], bs[i + 1], which, hdr);
  }

  /** Used and free bytes and headers together are the whole region: nothing is ever lost or counted twice. */
  lemma {:induction false} HeldTotal(bs: seq<Block>, hdr: nat)
    requires |bs| > 0
    requires forall i, j :: 0 <= i < j < |bs| && j == i + 1 ==> bs[i].end == bs[j].off
    ensures Held(bs, true, hdr) + Held(bs, false, hdr) + hdr * |bs| == bs[|bs| - 1].end - bs[0].off
  {
    if |bs| == 1 {
      assert bs == [bs[0]];
      HeldOne(bs[0], true, hdr);
      HeldOne(bs[0], false, hdr);
    } else {
      HeldTotal(bs[1..], hdr);
      assert hdr * |bs| == hdr + hdr * (|bs| - 1);
    }
  }

  lemma {:induction false} HeldBounds(bs: seq<Block>, which: bool, hdr: nat)
    requires forall i :: 0 <= i < |bs| ==> bs[i].off + hdr <= bs[i].end
    ensures 0 <= Held(bs, which, hdr)
    ensures forall i :: 0 <= i < |bs| && bs[i].used == which ==> bs[i].end - bs[i].off - hdr <= Held(bs, which, hdr)
  {
    if |bs| > 0 {
      HeldBounds(bs[1..], which, hdr);
      forall i | 0 <= i < |bs| && bs[i].used == which
        ensures bs[i].end - bs[i].off - hdr <= Held(bs, which, hdr)
      {
        if i > 0 { assert bs[i] == bs[1..][i - 1]; }
      }
    }
  }

  // ----- the layout is determined by the live blocks

  /** b is one of the used blocks of the tiling. */
  predicate Live(bs: seq<Block>, b: Block) { b.used && b in bs }

  lemma FlagLive(bs: seq<Block>, i: nat, top: nat, hdr: nat, x: Block)
    requires hdr > 0 && Tiles(bs, top, hdr) && i < |bs| && bs[i].used
    ensures Live(Flag(bs, i, false), x) <==> Live(bs, x) && x != bs[i]
  {
    var f := Flag(bs, i, false);
    if Live(bs, x) && x != bs[i] {
      var j :| 0 <= j < |bs| && bs[j] == x;
      assert f[j] == x;
    }
    if x.used && x in f {
      var j :| 0 <= j < |f| && f[j] == x;
      assert bs[j] == x && j != i;
      OffsetsDiffer(bs, top, hdr, i, j);
    }
  }

  lemma OffsetsDiffer(bs: seq<Block>, top: nat, hdr: nat, i: nat, j: nat)
    requires hdr > 0 && Tiles(bs, top, hdr) && i < |bs| && j < |bs|
    ensures bs[i].off == bs[j].off <==> i == j
  {
    if i < j { assert bs[i].end <= bs[j].off; } else if j < i { assert bs[j].end <= bs[i].off; }
  }

  lemma MergeLive(bs: seq<Block>, i: nat, x: Block)
    requires i + 1 < |bs| && !bs[i].used && !bs[i + 1].used
    ensures Live(Merge(bs, i), x) <==> Live(bs, x)
  {
    var m := Merge(bs, i);
    if Live(bs, x) {
      var j :| 0 <= j < |bs| && bs[j] == x;
      assert if j < i then m[j] == x else m[j - 1] == x;
    }
    if Live(m, x) {
      var j :| 0 <= j < |m| && m[j] == x;
      assert if j < i then bs[j] == x else bs[j + 1] == x;
    }
  }

  lemma SplitLive(bs: seq<Block>, i: nat, mid: nat, x: Block, top: nat, hdr: nat)
    requires hdr > 0 && Tiles(bs, top, hdr) && i < |bs|
    ensures Live(Split(bs, i, mid, true, false), x)
       <==> (Live(bs, x) && x != bs[i]) || x == Block(bs[i].off, mid, true)
  {
    hide Tiles;
    var s := Split(bs, i, mid, true, false);
    assert s[i] == Block(bs[i].off, mid, true);
    if Live(bs, x) && x != bs[i] {
      var j :| 0 <= j < |bs| && bs[j] == x;
      assert if j < i then s[j] == x else s[j + 1] == x;
    }
    if Live(s, x) && x != s[i] {
      var j :| 0 <= j < |s| && s[j] == x;
      var k := if j < i then j else j - 1;
      assert bs[k] == x;
      OffsetsDiffer(bs, top, hdr, i, k);
    }
  }

  lemma TakeLive(bs: seq<Block>, i: nat, x: Block)
    requires i < |bs| && !bs[i].used
    ensures Live(Flag(bs, i, true), x) <==> Live(bs, x) || x == bs[i].(used := true)
  {
    var f := Flag(bs, i, true);
    assert f[i] == bs[i].(used := true);
    if Live(bs, x) {
      var j :| 0 <= j < |bs| && bs[j] == x;
      assert f[j] == x;
    }
    if Live(f, x) {
      var j :| 0 <= j < |f| && f[j] == x;
      assert j != i ==> bs[j] == x;
    }
  }

  /** Two coalesced tilings of one region whose live blocks are the same are the same tiling.
      So an allocator that coalesces keeps no trace of the order of past calls. */
  lemma LayoutIsCanonical(a: seq<Block>, b: seq<Block>, top: nat, hdr: nat)
    requires hdr > 0
    requires Tiles(a, top, hdr) && Tiles(b, top, hdr)
    requires Coalesced(a) && Coalesced(b)
    requires forall x :: Live(a, x) <==> Live(b, x)
    ensures a == b
  {
    var n := if |a| <= |b| then |a| else |b|;
    SamePrefix(a, b, top, hdr, n);
    assert a[n - 1] == b[n - 1];
    OnlyLastReachesTop(a, top, hdr, n - 1);
    OnlyLastReachesTop(b, top, hdr, n - 1);
  }

  lemma OnlyLastReachesTop(bs: seq<Block>, top: nat, hdr: nat, k: nat)
    requires hdr > 0 && Tiles(bs, top, hdr) && k < |bs|
    ensures bs[k].end == top <==> k == |bs| - 1
  {
  }

  lemma {:induction false} SamePrefix(a: seq<Block>, b: seq<Block>, top: nat, hdr: nat, n: nat)
    requires hdr > 0
    requires Tiles(a, top, hdr) && Tiles(b, top, hdr)
    requires Coalesced(a) && Coalesced(b)
    requires forall x :: Live(a, x) <==> Live(b, x)
    requires n <= |a| && n <= |b|
    ensures a[..n] == b[..n]
  {
    if n > 0 {
      SamePrefix(a, b, top, hdr, n - 1);
      var k := n - 1;
      assert a[k].off == b[k].off by {
        if k > 0 { assert a[..k][k - 1] == b[..k][k - 1]; }
      }
      SameBlock(a, b, top, hdr, k);
      assert a[..n] == a[..k] + [a[k]] && b[..n] == b[..k] + [b[k]];
    }
  }

  lemma SameBlock(a: seq<Block>, b: seq<Block>, top: nat, hdr: nat, k: nat)
    requires hdr > 0
    requires Tiles(a, top, hdr) && Tiles(b, top, hdr)
    requires Coalesced(a) && Coalesced(b)
    requires forall x :: Live(a, x) <==> Live(b, x)
    requires k < |a| && k < |b| && a[k].off == b[k].off
    ensures a[k] == b[k]
  {
    if a[k].used {
      assert Live(a, a[k]);
      OffsetsAreUnique(b, top, hdr, k, a[k]);
    } else if b[k].used {
      assert Live(b, b[k]);
      OffsetsAreUnique(a, top, hdr, k, b[k]);
    } else {
      FreeRunEnds(a, b, top, hdr, k);
      FreeRunEnds(b, a, top, hdr, k);
    }
  }

  lemma OffsetsAreUnique(bs: seq<Block>, top: nat, hdr: nat, k: nat, x: Block)
    requires hdr > 0 && Tiles(bs, top, hdr) && k < |bs| && x in bs && x.off == bs[k].off
    ensures x == bs[k]
  {
    var j :| 0 <= j < |bs| && bs[j] == x;
    if j < k {
      assert false;
    } else if k < j {
      assert false;
    }
  }

  /** A free block of `a` cannot stop short of the free block of `b` that starts at the same place. */
  lemma FreeRunEnds(a: seq<Block>, b: seq<Block>, top: nat, hdr: nat, k: nat)
    requires hdr > 0
    requires Tiles(a, top, hdr) && Tiles(b, top, hdr)
    requires Coalesced(a)
    requires forall x :: Live(a, x) <==> Live(b, x)
    requires k < |a| && k < |b| && a[k].off == b[k].off && !a[k].used && !b[k].used
    ensures b[k].end <= a[k].end
  {
    if k == |a| - 1 {
      assert k < |b| - 1 ==> b[k].end <= b[|b| - 1].off;
    } else {
      assert a[k].used || a[k + 1].used by { assert a[k + 1 - 1] == a[k]; }
      assert a[k + 1 - 1].end == a[k + 1].off;
      assert Live(a, a[k + 1]);
      assert Live(b, a[k + 1]);
      var j :| 0 <= j < |b| && b[j] == a[k + 1];
      assert j < k ==> b[j].end <= b[k].off;
    }
  }
}
