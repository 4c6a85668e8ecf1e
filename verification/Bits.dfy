/** Words as bit sets, and the find-first-set table lookup. Words are natural numbers below the
    word's range; the operators below are the bitwise ones, defined on the binary digits. */
module Bits {

  predicate Bit(v: nat, i: nat) {
    if i == 0 then v % 2 == 1 else Bit(v / 2, i - 1)
  }

  function Pow2(i: nat): (r: nat)
    ensures r > 0
  {
    if i == 0 then 1 else 2 * Pow2(i - 1)
  }

  function Or(v: nat, w: nat): nat {
    if v == 0 then w else if w == 0 then v
    else (if v % 2 == 1 || w % 2 == 1 then 1 else 0) + 2 * Or(v / 2, w / 2)
  }

  /** v & ~w */
  function AndNot(v: nat, w: nat): nat {
    if v == 0 then 0 else (if v % 2 == 1 && w % 2 == 0 then 1 else 0) + 2 * AndNot(v / 2, w / 2)
  }

  function And(v: nat, w: nat): nat {
    if v == 0 then 0 else (if v % 2 == 1 && w % 2 == 1 then 1 else 0) + 2 * And(v / 2, w / 2)
  }

  lemma {:induction false} ZeroBit(i: nat)
    ensures !Bit(0, i)
  {
    if i > 0 { ZeroBit(i - 1); }
  }

  lemma {:induction false} BitOr(v: nat, w: nat, i: nat)
    ensures Bit(Or(v, w), i) <==> Bit(v, i) || Bit(w, i)
  {
    ZeroBit(i);
    if v != 0 && w != 0 && i > 0 {
      BitOr(v / 2, w / 2, i - 1);
      assert Or(v, w) / 2 == Or(v / 2, w / 2);
    }
  }

  lemma {:induction false} BitAndNot(v: nat, w: nat, i: nat)
    ensures Bit(AndNot(v, w), i) <==> Bit(v, i) && !Bit(w, i)
  {
    ZeroBit(i);
    if v != 0 && i > 0 {
      BitAndNot(v / 2, w / 2, i - 1);
      assert AndNot(v, w) / 2 == AndNot(v / 2, w / 2);
    }
  }

  lemma {:induction false} BitAnd(v: nat, w: nat, i: nat)
    ensures Bit(And(v, w), i) <==> Bit(v, i) && Bit(w, i)
  {
    ZeroBit(i);
    if v != 0 && i > 0 {
      BitAnd(v / 2, w / 2, i - 1);
      assert And(v, w) / 2 == And(v / 2, w / 2);
    }
  }

  lemma {:induction false} BitPow2(i: nat, j: nat)
    ensures Bit(Pow2(i), j) <==> i == j
  {
    if i == 0 {
      if j > 0 { ZeroBit(j - 1); }
    } else if j > 0 {
      BitPow2(i - 1, j - 1);
      assert Pow2(i) / 2 == Pow2(i - 1);
    }
  }

  /** A word below 2^n has no bit at n or above. */
  lemma {:induction false} HighBits(v: nat, n: nat, i: nat)
    requires v < Pow2(n) && n <= i
    ensures !Bit(v, i)
  {
    if n == 0 {
      ZeroBit(i);
    } else {
      HighBits(v / 2, n - 1, i - 1);
    }
  }

  lemma {:induction false} OrBelow(v: nat, w: nat, n: nat)
    requires v < Pow2(n) && w < Pow2(n)
    ensures Or(v, w) < Pow2(n)
  {
    if v != 0 && w != 0 { OrBelow(v / 2, w / 2, n - 1); }
  }

  lemma {:induction false} AndNotBelow(v: nat, w: nat)
    ensures AndNot(v, w) <= v
  {
    if v != 0 { AndNotBelow(v / 2, w / 2); }
  }

  lemma {:induction false} Pow2Grows(i: nat, j: nat)
    requires i <= j
    ensures Pow2(i) <= Pow2(j)
  {
    if i < j { Pow2Grows(i, j - 1); }
  }

  // ----- division by powers of two

  lemma AtLeastOne(d: nat, c: nat)
    requires d > 0
    ensures d * c >= c
  {
    assert d * c == (d - 1) * c + c;
  }

  lemma Distribute(a: nat, b: nat, c: nat)
    ensures (a + b) * c == a * c + b * c
  {
  }

  lemma Regroup(a: nat, b: nat, c: nat)
    ensures a * b * c == a * (b * c)
  {
  }

  lemma DivUnique(v: nat, m: nat, q: nat, r: nat)
    requires v == q * m + r && r < m
    ensures v / m == q && v % m == r
  {
    var e, s := v / m, v % m;
    assert v == e * m + s;
    assert (q - e) * m == q * m - e * m && (e - q) * m == e * m - q * m;
    if e < q {
      AtLeastOne(q - e, m);
    } else if q < e {
      AtLeastOne(e - q, m);
    }
  }

  /** Dividing by 2 * p is halving and then dividing by p. */
  lemma HalfFirst(v: nat, p: nat)
    requires p > 0
    ensures v / (2 * p) == v / 2 / p && v % (2 * p) == v % 2 + 2 * (v / 2 % p)
  {
    var q, r := v / 2 / p, v / 2 % p;
    assert v / 2 == q * p + r;
    assert q * (2 * p) == 2 * (q * p);
    DivUnique(v, 2 * p, q, v % 2 + 2 * r);
  }

  /** v << p */
  function Shl(v: nat, p: nat): nat { if p == 0 then v else 2 * Shl(v, p - 1) }

  lemma {:induction false} BitShl(v: nat, p: nat, i: nat)
    ensures Bit(Shl(v, p), i) <==> i >= p && Bit(v, i - p)
  {
    if p > 0 {
      var w := Shl(v, p - 1);
      assert 2 * w % 2 == 0 && 2 * w / 2 == w;
      if i > 0 { BitShl(v, p - 1, i - 1); }
    }
  }

  lemma {:induction false} BitMask(n: nat, i: nat)
    ensures Bit(Pow2(n) - 1, i) <==> i < n
  {
    if n == 0 {
      ZeroBit(i);
    } else {
      assert (Pow2(n) - 1) / 2 == Pow2(n - 1) - 1 && (Pow2(n) - 1) % 2 == 1;
      if i > 0 { BitMask(n - 1, i - 1); }
    }
  }

  /** v >> k */
  function Shr(v: nat, k: nat): nat { if k == 0 then v else Shr(v / 2, k - 1) }

  lemma {:induction false} BitShr(v: nat, k: nat, i: nat)
    ensures Bit(Shr(v, k), i) <==> Bit(v, i + k)
  {
    if k > 0 { BitShr(v / 2, k - 1, i); }
  }

  lemma {:induction false} BitLow(v: nat, k: nat, i: nat)
    ensures Bit(v % Pow2(k), i) <==> i < k && Bit(v, i)
  {
    if k == 0 {
      ZeroBit(i);
    } else {
      HalfFirst(v, Pow2(k - 1));
      var w := v / 2 % Pow2(k - 1);
      assert (v % 2 + 2 * w) / 2 == w && (v % 2 + 2 * w) % 2 == v % 2;
      if i > 0 { BitLow(v / 2, k - 1, i - 1); }
    }
  }

  /** Words of k digits with the same digits are the same. */
  lemma {:induction false} SameBits(v: nat, w: nat, k: nat)
    requires v < Pow2(k) && w < Pow2(k) && forall i: nat :: i < k ==> (Bit(v, i) <==> Bit(w, i))
    ensures v == w
  {
    if k > 0 {
      assert Bit(v, 0) <==> Bit(w, 0);
      forall i: nat | i < k - 1 ensures Bit(v / 2, i) <==> Bit(w / 2, i) {
        assert Bit(v, i + 1) <==> Bit(w, i + 1);
      }
      SameBits(v / 2, w / 2, k - 1);
    }
  }

  // ----- find first set

  /** The index of the least significant one bit. */
  function Lowest(v: nat): (i: nat)
    requires v > 0
    ensures Bit(v, i) && forall j: nat :: j < i ==> !Bit(v, j)
  {
    if v % 2 == 1 then 0 else Lowest(v / 2) + 1
  }

  /** Each table row differs from the others only in its first entry. */
  function Row(first: nat): seq<nat> { [first, 0, 1, 0, 2, 0, 1, 0, 3, 0, 1, 0, 2, 0, 1, 0] }

  /** __lowest_bit_bitmap, sixteen entries to the row. */
  const LOWEST_BIT_BITMAP: seq<seq<nat>> :=
    [Row(0), Row(4), Row(5), Row(4), Row(6), Row(4), Row(5), Row(4),
     Row(7), Row(4), Row(5), Row(4), Row(6), Row(4), Row(5), Row(4)]

  lemma RowEntry(first: nat, c: nat)
    requires 0 < c < 16
    ensures Row(first)[c] == Lowest(c)
  {
  }

  lemma BitmapRow(r: nat)
    requires r < 16
    ensures |LOWEST_BIT_BITMAP| == 16
    ensures LOWEST_BIT_BITMAP[r] == Row(if r == 0 then 0 else 4 + Lowest(r))
  {
    hide Row, Bit;
    if r > 0 { Unfold4(r); }
    hide Lowest;
  }

  lemma Unfold4(v: nat)
    requires v > 0
    ensures Lowest(v) == if v % 2 == 1 then 0 else if v / 2 % 2 == 1 then 1 else if v / 4 % 2 == 1 then 2
                         else if v / 8 % 2 == 1 then 3 else Lowest(v / 16) + 4
  {
    var a := v / 2;
    assert v % 2 == 0 ==> Lowest(v) == Lowest(a) + 1;
    var b := a / 2;
    assert v % 2 == 0 && a % 2 == 0 ==> Lowest(a) == Lowest(b) + 1;
    var c := b / 2;
    assert v % 2 == 0 && a % 2 == 0 && b % 2 == 0 ==> Lowest(b) == Lowest(c) + 1;
    assert b == v / 4 && c == v / 8 && c / 2 == v / 16;
  }

  /** The lowest one bit lies in the low nibble unless that is zero. */
  lemma NibbleSplit(v: nat)
    requires v > 0
    ensures v % 16 != 0 ==> Lowest(v) == Lowest(v % 16)
    ensures v % 16 == 0 ==> v / 16 > 0 && Lowest(v) == 4 + Lowest(v / 16)
  {
    hide Lowest, Bit;
    Unfold4(v);
    NibbleDigits(v);
    if v % 16 != 0 { Unfold4(v % 16); }
  }

  lemma NibbleDigits(v: nat)
    ensures var w := v % 16;
            && w % 2 == v % 2 && w / 2 % 2 == v / 2 % 2 && w / 4 % 2 == v / 4 % 2 && w / 8 % 2 == v / 8 % 2
            && (w == 0 <==> w % 2 == 0 && w / 2 % 2 == 0 && w / 4 % 2 == 0 && w / 8 % 2 == 0)
  {
    var q, w := v / 16, v % 16;
    assert v == 16 * q + w;
    HalfOfSum(8 * q, w);
    HalfOfSum(4 * q, w / 2);
    HalfOfSum(2 * q, w / 4);
    Halves(v);
    Halves(w);
    NibbleZero(w);
  }

  lemma Halves(v: nat)
    ensures v / 4 == v / 2 / 2 && v / 8 == v / 4 / 2
  {
  }

  lemma NibbleZero(w: nat)
    requires w < 16
    ensures w == 0 <==> w % 2 == 0 && w / 2 % 2 == 0 && w / 4 % 2 == 0 && w / 8 % 2 == 0
  {
  }

  lemma HalfOfSum(a: nat, w: nat)
    ensures (2 * a + w) % 2 == w % 2 && (2 * a + w) / 2 == a + w / 2
  {
  }

  lemma ByteSplit(v: nat)
    requires v > 0
    ensures v % 256 != 0 ==> Lowest(v) == Lowest(v % 256)
    ensures v % 256 == 0 ==> v / 256 > 0 && Lowest(v) == 8 + Lowest(v / 256)
  {
    NibbleSplit(v);
    assert v % 256 % 16 == v % 16 && v % 256 / 16 == v / 16 % 16 && v / 16 / 16 == v / 256;
    if v % 16 == 0 { NibbleSplit(v / 16); }
    if v % 256 != 0 { NibbleSplit(v % 256); }
  }

  function TableLookup(v: nat): nat
    requires v < 256
  {
    LOWEST_BIT_BITMAP[v / 16][v % 16]
  }

  lemma TableIsLowest(v: nat)
    requires 0 < v < 256
    ensures TableLookup(v) == Lowest(v)
  {
    hide Lowest, Bit, LOWEST_BIT_BITMAP;
    BitmapRow(v / 16);
    NibbleSplit(v);
    if v % 16 != 0 { RowEntry(if v / 16 == 0 then 0 else 4 + Lowest(v / 16), v % 16); }
  }

  /** __rt_ffs on a 32-bit word. */
  function Ffs(value: nat): nat
    requires value < 0x1_0000_0000
  {
    if value == 0 then 0
    else if value % 0x100 != 0 then TableLookup(value % 0x100) + 1
    else if value / 0x100 % 0x100 != 0 then TableLookup(value / 0x100 % 0x100) + 9
    else if value / 0x1_0000 % 0x100 != 0 then TableLookup(value / 0x1_0000 % 0x100) + 17
    else TableLookup(value / 0x100_0000) + 25
  }

  /** Bits count from one; zero means that no bit is set. */
  lemma FfsIsLowest(value: nat)
    requires value < 0x1_0000_0000
    ensures Ffs(value) == if value == 0 then 0 else Lowest(value) + 1
  {
    if value != 0 {
      hide TableLookup;
      ByteSplit(value);
      if value % 0x100 != 0 { TableIsLowest(value % 0x100); }
      else {
        var w := value / 0x100;
        ByteSplit(w);
        if w % 0x100 != 0 { TableIsLowest(w % 0x100); }
        else {
          var x := w / 0x100;
          assert x == value / 0x1_0000;
          ByteSplit(x);
          if x % 0x100 != 0 { TableIsLowest(x % 0x100); }
          else {
            assert x / 0x100 == value / 0x100_0000;
            TableIsLowest(x / 0x100);
          }
        }
      }
    }
  }
}
