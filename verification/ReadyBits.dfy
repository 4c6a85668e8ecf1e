/** The ready bitmap: one 32-bit word up to 32 priorities, a word of 32 group bits over 32 bytes above that. */
module ReadyBits {
  import opened Bits

  datatype Bitmap = Bitmap(wide: bool, group: nat, table: seq<nat>) {
    /** Priorities the bitmap can hold. */
    function Span(): nat { if wide then 256 else 32 }

    ghost predicate WellFormed() {
      && group < 0x1_0000_0000
      && (wide ==>
            && |table| == 32
            && (forall n :: 0 <= n < 32 ==> table[n] < 256)
            && (forall n: nat :: n < 32 ==> (Bit(group, n) <==> table[n] != 0)))
    }

    predicate Marked(p: nat) {
      if wide then p / 8 < |table| && Bit(table[p / 8], p % 8) else Bit(group, p)
    }
  }

  function Empty(wide: bool): Bitmap { Bitmap(wide, 0, if wide then seq(32, _ => 0) else []) }

  /** The marks a thread caches for its priority. */
  datatype Masks = Masks(number: nat, numberMask: nat, highMask: nat)

  function MasksOf(wide: bool, p: nat): Masks {
    if wide then Masks(p / 8, Pow2(p / 8), Pow2(p % 8)) else Masks(0, Pow2(p), 0)
  }

  function SetMark(r: Bitmap, m: Masks): Bitmap {
    if r.wide && m.number < |r.table|
    then r.(table := r.table[m.number := Or(r.table[m.number], m.highMask)], group := Or(r.group, m.numberMask))
    else r.(group := Or(r.group, m.numberMask))
  }

  function ClearMark(r: Bitmap, m: Masks): Bitmap {
    if r.wide && m.number < |r.table| then
      var b := AndNot(r.table[m.number], m.highMask);
      r.(table := r.table[m.number := b], group := if b == 0 then AndNot(r.group, m.numberMask) else r.group)
    else r.(group := AndNot(r.group, m.numberMask))
  }

  /** The lookup rt_schedule makes. */
  function Highest(r: Bitmap): int
    requires r.group < 0x1_0000_0000 && (r.wide ==> |r.table| == 32 && forall n :: 0 <= n < 32 ==> r.table[n] < 256)
  {
    if !r.wide then Ffs(r.group) - 1
    else
      var number := Ffs(r.group) - 1;
      if 0 <= number < 32 then 8 * number + Ffs(r.table[number]) - 1 else -1
  }

  lemma Pow2Values()
    ensures Pow2(8) == 256 && Pow2(32) == 0x1_0000_0000
  {
    assert Pow2(4) == 16;
    Pow2Sum(4, 4);
    Pow2Sum(8, 8);
    Pow2Sum(16, 16);
  }

  lemma {:induction false} Pow2Sum(a: nat, b: nat)
    ensures Pow2(a + b) == Pow2(a) * Pow2(b)
  {
    if a > 0 {
      Pow2Sum(a - 1, b);
      assert Pow2(a + b) == 2 * Pow2(a - 1 + b);
    }
  }

  lemma {:induction false} Pow2Monotone(i: nat, j: nat)
    requires i < j
    ensures Pow2(i) < Pow2(j)
  {
    if i + 1 < j { Pow2Monotone(i, j - 1); }
  }

  lemma SetMarkKeeps(r: Bitmap, p: nat)
    requires r.WellFormed() && p < r.Span()
    ensures var s := SetMark(r, MasksOf(r.wide, p));
            && s.WellFormed() && s.wide == r.wide
            && forall q: nat :: q < r.Span() ==> (s.Marked(q) <==> r.Marked(q) || q == p)
  {
    Pow2Values();
    var m := MasksOf(r.wide, p);
    var s := SetMark(r, m);
    var g := if r.wide then p / 8 else p;
    Pow2Monotone(g, 32);
    OrBelow(r.group, m.numberMask, 32);
    forall n: nat ensures Bit(s.group, n) <==> Bit(r.group, n) || n == g { BitOr(r.group, Pow2(g), n); BitPow2(g, n); }
    if r.wide {
      var b := r.table[g];
      Pow2Monotone(p % 8, 8);
      OrBelow(b, m.highMask, 8);
      forall i: nat ensures Bit(s.table[g], i) <==>
           Bit(b, i) || i == p % 8 { BitOr(b, m.highMask, i); BitPow2(p % 8, i); }
      assert s.table[g] != 0 by { if s.table[g] == 0 { ZeroBit(p % 8); } }
      hide Bit, Or, Pow2;
    }
  }

  lemma ClearMarkKeeps(r: Bitmap, p: nat)
    requires r.WellFormed() && p < r.Span()
    ensures var s := ClearMark(r, MasksOf(r.wide, p));
            && s.WellFormed() && s.wide == r.wide
            && forall q: nat :: q < r.Span() ==> (s.Marked(q) <==> r.Marked(q) && q != p)
  {
    Pow2Values();
    var m := MasksOf(r.wide, p);
    var s := ClearMark(r, m);
    var g := if r.wide then p / 8 else p;
    AndNotBelow(r.group, m.numberMask);
    forall n: nat ensures Bit(AndNot(r.group, Pow2(g)), n) <==> Bit(r.group, n) && n != g {
      BitAndNot(r.group, Pow2(g), n);
      BitPow2(g, n);
    }
    if r.wide {
      var b := r.table[g];
      AndNotBelow(b, m.highMask);
      forall i: nat ensures Bit(s.table[g], i) <==> Bit(b, i) && i != p % 8 {
        BitAndNot(b, m.highMask, i);
        BitPow2(p % 8, i);
      }
      assert b == 0 ==> s.table[g] == 0;
      hide Bit, AndNot, Pow2;
    }
  }

  lemma FirstSet(word: nat, i: nat)
    requires word < 0x1_0000_0000 && Bit(word, i)
    ensures word != 0 && Ffs(word) == Lowest(word) + 1 && Lowest(word) <= i
  {
    FfsIsLowest(word);
    if word == 0 { ZeroBit(i); }
  }

  lemma HighestWide(r: Bitmap, p: nat)
    requires r.wide && r.WellFormed() && p < 256 && r.Marked(p)
    ensures 0 <= Highest(r) <= p && r.Marked(Highest(r))
    ensures forall q: nat :: q < Highest(r) ==> !r.Marked(q)
  {
    hide Ffs, Lowest, Bit;
    if r.table[p / 8] == 0 { ZeroBit(p % 8); }
    FirstSet(r.group, p / 8);
    var n := Lowest(r.group);
    var b := r.table[n];
    FfsIsLowest(b);
    var i := Lowest(b);
    ByteBits(b, i);
    if n == p / 8 { FirstSet(b, p % 8); }
    hide Ffs, Lowest, Bit;
    var h := 8 * n + i;
    assert Highest(r) == h && h / 8 == n && h % 8 == i;
    forall q: nat | q < h ensures !r.Marked(q) {
      if q / 8 < n { ZeroBit(q % 8); } else { assert q / 8 == n; }
    }
  }

  lemma ByteBits(b: nat, i: nat)
    requires b < 256 && Bit(b, i)
    ensures i < 8
  {
    Pow2Values();
    if i >= 8 { HighBits(b, 8, i); }
  }

  /** The lookup finds the least marked priority, for both bitmaps. */
  lemma HighestIsLeast(r: Bitmap, p: nat)
    requires r.WellFormed() && p < r.Span() && r.Marked(p)
    ensures 0 <= Highest(r) <= p && r.Marked(Highest(r))
    ensures forall q: nat :: q < Highest(r) ==> !r.Marked(q)
  {
    hide Bit, Ffs, Lowest;
    if r.wide { HighestWide(r, p); } else { FirstSet(r.group, p); }
  }
}
