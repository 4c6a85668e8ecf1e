/** The slab allocator's size classes: zoneindex maps a request to a chunk size and a zone index. */
module SizeClasses {
  import opened Bits

  const ZALLOC_ZONE_LIMIT: nat := 16384
  const NZONES: nat := 72

  datatype Class = Class(chunk: nat, index: int)

  /** v with its k least significant digits cleared */
  function Floor(v: nat, k: nat): nat { if k == 0 then v else 2 * Floor(v / 2, k - 1) }

  lemma {:induction false} MaskOff(v: nat, k: nat)
    ensures AndNot(v, Pow2(k) - 1) == Floor(v, k)
  {
    if k == 0 {
      AndNotZero(v);
    } else if v > 0 {
      MaskOff(v / 2, k - 1);
      assert (Pow2(k) - 1) / 2 == Pow2(k - 1) - 1 && (Pow2(k) - 1) % 2 == 1;
    } else {
      FloorZero(k);
    }
  }

  lemma {:induction false} FloorZero(k: nat)
    ensures Floor(0, k) == 0
  {
    if k > 0 { FloorZero(k - 1); }
  }

  lemma {:induction false} AndNotZero(v: nat)
    ensures AndNot(v, 0) == v
  {
    if v > 0 { AndNotZero(v / 2); }
  }

  lemma {:induction false} FloorIs(v: nat, k: nat)
    ensures Floor(v, k) == v / Pow2(k) * Pow2(k)
  {
    if k > 0 {
      FloorIs(v / 2, k - 1);
      FloorTwice(v, Pow2(k - 1));
    }
  }

  lemma FloorTwice(v: nat, p: nat)
    requires p > 0
    ensures 2 * (v / 2 / p * p) == v / (2 * p) * (2 * p)
  {
    HalfFirst(v, p);
    TwiceTimes(v / 2 / p, p);
  }

  lemma TwiceTimes(a: nat, b: nat)
    ensures 2 * (a * b) == a * (2 * b)
  {
  }

  /** (n + unit - 1) & ~(unit - 1) */
  function RoundUp(n: nat, unit: nat): nat
    requires unit > 0
  {
    AndNot(n + unit - 1, unit - 1)
  }

  lemma Masks()
    ensures Pow2(3) == 8 && Pow2(4) == 16 && Pow2(5) == 32 && Pow2(6) == 64
    ensures Pow2(7) == 128 && Pow2(8) == 256 && Pow2(9) == 512 && Pow2(10) == 1024
  {
    assert Pow2(3) == 8;
    assert Pow2(6) == 64;
    assert Pow2(8) == 256;
  }

  /** Masking with a power of two less one rounds up to a multiple of it. */
  lemma RoundsUp(n: nat)
    ensures RoundUp(n, 8) == (n + 7) / 8 * 8
    ensures RoundUp(n, 16) == (n + 15) / 16 * 16
    ensures RoundUp(n, 32) == (n + 31) / 32 * 32
    ensures RoundUp(n, 64) == (n + 63) / 64 * 64
    ensures RoundUp(n, 128) == (n + 127) / 128 * 128
    ensures RoundUp(n, 256) == (n + 255) / 256 * 256
    ensures RoundUp(n, 512) == (n + 511) / 512 * 512
    ensures RoundUp(n, 1024) == (n + 1023) / 1024 * 1024
  {
    hide RoundUp, Pow2;
    Masks();
    for k := 3 to 11
      invariant forall j :: 3 <= j < k ==> RoundUp(n, Pow2(j)) == (n + Pow2(j) - 1) / Pow2(j) * Pow2(j)
    {
      RoundsAt(n, k);
    }
    assert forall j :: 3 <= j < 11 ==> RoundUp(n, Pow2(j)) == (n + Pow2(j) - 1) / Pow2(j) * Pow2(j);
  }

  lemma RoundsAt(n: nat, k: nat)
    ensures RoundUp(n, Pow2(k)) == (n + Pow2(k) - 1) / Pow2(k) * Pow2(k)
  {
    hide Pow2, AndNot, Floor;
    MaskOff(n + Pow2(k) - 1, k);
    FloorIs(n + Pow2(k) - 1, k);
  }

  /** The chunk sizes: multiples of 8 up to 128, and from there on eight to each power of two. */
  function ClassOf(n: nat): Class {
    if n < 128 then Class((n + 7) / 8 * 8, (n + 7) / 8 - 1)
    else if n < 256 then Class((n + 15) / 16 * 16, (n + 15) / 16 + 7)
    else if n < 512 then Class((n + 31) / 32 * 32, (n + 31) / 32 + 15)
    else if n < 1024 then Class((n + 63) / 64 * 64, (n + 63) / 64 + 23)
    else if n < 2048 then Class((n + 127) / 128 * 128, (n + 127) / 128 + 31)
    else if n < 4096 then Class((n + 255) / 256 * 256, (n + 255) / 256 + 39)
    else if n < 8192 then Class((n + 511) / 512 * 512, (n + 511) / 512 + 47)
    else Class((n + 1023) / 1024 * 1024, (n + 1023) / 1024 + 55)
  }

  /** zoneindex, which also rounds the caller's size in place. */
  method ZoneIndex(bytes: nat) returns (chunk: nat, index: int)
    requires bytes < ZALLOC_ZONE_LIMIT
    ensures Class(chunk, index) == ClassOf(bytes)
  {
    hide RoundUp;
    RoundsUp(bytes);
    if bytes < 128 {
      chunk := RoundUp(bytes, 8);
      return chunk, chunk / 8 - 1;
    }
    if bytes < 256 {
      chunk := RoundUp(bytes, 16);
      return chunk, chunk / 16 + 7;
    }
    if bytes < 8192 {
      if bytes < 512 {
        chunk := RoundUp(bytes, 32);
        return chunk, chunk / 32 + 15;
      }
      if bytes < 1024 {
        chunk := RoundUp(bytes, 64);
        return chunk, chunk / 64 + 23;
      }
      if bytes < 2048 {
        chunk := RoundUp(bytes, 128);
        return chunk, chunk / 128 + 31;
      }
      if bytes < 4096 {
        chunk := RoundUp(bytes, 256);
        return chunk, chunk / 256 + 39;
      }
      chunk := RoundUp(bytes, 512);
      return chunk, chunk / 512 + 47;
    }
    chunk := RoundUp(bytes, 1024);
    return chunk, chunk / 1024 + 55;
  }

  /** The chunk is large enough and wastes at most 7 bytes below 128, and less than an eighth from there on. */
  lemma ClassCovers(n: nat)
    requires 0 < n < ZALLOC_ZONE_LIMIT
    ensures var c := ClassOf(n);
            && n <= c.chunk <= ZALLOC_ZONE_LIMIT && c.chunk % 8 == 0 && 0 <= c.index < NZONES
            && (n < 128 ==> c.chunk - n <= 7) && (n >= 128 ==> 8 * (c.chunk - n) < n)
  {
    ClassFits(n);
    ClassIsEight(n);
    ClassIndex(n);
    hide ClassOf;
  }

  lemma ClassFits(n: nat)
    requires 0 < n < ZALLOC_ZONE_LIMIT
    ensures var c := ClassOf(n).chunk;
            n <= c <= ZALLOC_ZONE_LIMIT && (n < 128 ==> c - n <= 7) && (n >= 128 ==> 8 * (c - n) < n)
  {
    if n < 128 {
    } else if n < 256 {
    } else if n < 512 {
    } else if n < 1024 {
    } else if n < 2048 {
    } else if n < 4096 {
    } else if n < 8192 {
    } else {
    }
  }

  lemma EightTimes(q: nat)
    ensures 8 * q % 8 == 0
  {
  }

  lemma ClassIsEight(n: nat)
    ensures ClassOf(n).chunk % 8 == 0
  {
    if n < 128 {
      EightTimes((n + 7) / 8);
    } else if n < 256 {
      EightTimes(2 * ((n + 15) / 16));
    } else if n < 512 {
      EightTimes(4 * ((n + 31) / 32));
    } else if n < 1024 {
      EightTimes(8 * ((n + 63) / 64));
    } else if n < 2048 {
      EightTimes(16 * ((n + 127) / 128));
    } else if n < 4096 {
      EightTimes(32 * ((n + 255) / 256));
    } else if n < 8192 {
      EightTimes(64 * ((n + 511) / 512));
    } else {
      EightTimes(128 * ((n + 1023) / 1024));
    }
  }

  lemma ClassIndex(n: nat)
    requires 0 < n < ZALLOC_ZONE_LIMIT
    ensures 0 <= ClassOf(n).index < NZONES
  {
    if n < 128 {
    } else if n < 256 {
    } else if n < 512 {
    } else if n < 1024 {
    } else if n < 2048 {
    } else if n < 4096 {
    } else if n < 8192 {
    } else {
    }
  }

  /** A quotient goes up by one at a time. */
  lemma NextBy(v: nat, u: nat)
    requires u > 0
    ensures (v + 1) / u == v / u || (v + 1) / u == v / u + 1
  {
    var q, r := v / u, v % u;
    assert v == q * u + r;
    if r + 1 < u {
      DivUnique(v + 1, u, q, r + 1);
    } else {
      assert (q + 1) * u == q * u + u;
      DivUnique(v + 1, u, q + 1, 0);
    }
  }

  lemma NextClass(n: nat)
    requires 0 < n < ZALLOC_ZONE_LIMIT - 1
    ensures ClassOf(n).chunk <= ClassOf(n + 1).chunk && ClassOf(n).index <= ClassOf(n + 1).index
    ensures ClassOf(n).index == ClassOf(n + 1).index <==> ClassOf(n).chunk == ClassOf(n + 1).chunk
  {
    if n < 127 {
      NextBy(n + 7, 8);
    } else if n == 127 {
    } else if n < 255 {
      NextBy(n + 15, 16);
    } else if n == 255 {
    } else if n < 511 {
      NextBy(n + 31, 32);
    } else if n == 511 {
    } else if n < 1023 {
      NextBy(n + 63, 64);
    } else if n == 1023 {
    } else if n < 2047 {
      NextBy(n + 127, 128);
    } else if n == 2047 {
    } else if n < 4095 {
      NextBy(n + 255, 256);
    } else if n == 4095 {
    } else if n < 8191 {
      NextBy(n + 511, 512);
    } else if n == 8191 {
    } else {
      NextBy(n + 1023, 1024);
    }
  }

  /** Larger requests get no smaller chunks and no smaller indices, and one index means one chunk size. */
  lemma {:induction false} ClassesAreOrdered(m: nat, n: nat)
    requires 0 < m <= n < ZALLOC_ZONE_LIMIT
    ensures ClassOf(m).chunk <= ClassOf(n).chunk && ClassOf(m).index <= ClassOf(n).index
    ensures ClassOf(m).index == ClassOf(n).index <==> ClassOf(m).chunk == ClassOf(n).chunk
    decreases n
  {
    hide ClassOf;
    if m < n {
      ClassesAreOrdered(m, n - 1);
      NextClass(n - 1);
    }
  }

  /** A chunk size is its own class, so realloc, which asks again with the rounded size, finds the same zone. */
  lemma ClassOfChunk(n: nat)
    requires 0 < n < ZALLOC_ZONE_LIMIT && ClassOf(n).chunk < ZALLOC_ZONE_LIMIT
    ensures ClassOf(ClassOf(n).chunk) == ClassOf(n)
  {
    var c := ClassOf(n);
    ChunkIsFixed(n);
    ClassFits(n);
    hide ClassOf;
    ClassesAreOrdered(n, c.chunk);
  }

  /** A multiple of the unit is rounded to itself. */
  lemma Fixed(u: nat, q: nat)
    requires u > 0
    ensures u * ((u * q + (u - 1)) / u) == u * q
  {
    DivUnique(u * q + (u - 1), u, q, u - 1);
  }

  function Unit(n: nat): (u: nat)
    ensures u > 0
  {
    if n < 128 then 8 else if n < 256 then 16 else if n < 512 then 32 else if n < 1024 then 64
    else if n < 2048 then 128 else if n < 4096 then 256 else if n < 8192 then 512 else 1024
  }

  lemma ChunkForm(n: nat)
    ensures ClassOf(n).chunk == Unit(n) * ((n + (Unit(n) - 1)) / Unit(n))
  {
  }

  /** A chunk is of its request's unit, or the least size of the next. */
  lemma UnitOfChunk(n: nat)
    requires 0 < n && ClassOf(n).chunk < ZALLOC_ZONE_LIMIT
    ensures var c := ClassOf(n).chunk; Unit(c) == Unit(n) || c == Unit(c) * 8
  {
  }

  lemma ChunkIsFixed(n: nat)
    requires 0 < n && ClassOf(n).chunk < ZALLOC_ZONE_LIMIT
    ensures ClassOf(ClassOf(n).chunk).chunk == ClassOf(n).chunk
  {
    hide ClassOf, Unit;
    var c := ClassOf(n).chunk;
    ChunkForm(n);
    ChunkForm(c);
    UnitOfChunk(n);
    Fixed(Unit(c), if Unit(c) == Unit(n) then (n + (Unit(n) - 1)) / Unit(n) else 8);
  }
}
