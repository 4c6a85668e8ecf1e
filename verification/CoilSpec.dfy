/** The coils of a Modbus slave, kept eight to a byte: bit fields that straddle bytes, the register callback,
    and the Read Coils and Write Multiple Coils functions (sections 6.1 and 6.11 of MODBUS Application
    Protocol V1.1b3). */
module CoilSpec {
  import opened Bits

  type Byte = b: nat | b < 256

  const NCOILS: nat := 64                // S_COIL_NCOILS
  const GUARD: nat := 2                  // bytes behind ucSCoilBuf that the bit functions reach
  const READ_COUNT_MAX: nat := 0x07D0
  const WRITE_COUNT_MAX: nat := 0x07B0
  const ILLEGAL_DATA_ADDRESS: nat := 2
  const ILLEGAL_DATA_VALUE: nat := 3

  /** Bit i of a run of bytes, counted from the first byte's least significant bit. */
  predicate At(bs: seq<Byte>, i: nat) { i / 8 < |bs| && Bit(bs[i / 8], i % 8) }

  // ----- mbutils.c: a field of up to eight bits in two neighbouring bytes

  function Word(lo: Byte, hi: Byte): nat { Or(lo, Shl(hi, 8)) }

  lemma WordBits(lo: Byte, hi: Byte, i: nat)
    ensures Bit(Word(lo, hi), i) <==> if i < 8 then Bit(lo, i) else Bit(hi, i - 8)
  {
    hide Bit, Or, Shl, Pow2;
    BitOr(lo, Shl(hi, 8), i);
    EightDigits();
    BitShl(hi, 8, i);
    if i >= 8 { HighBits(lo, 8, i); }
  }

  lemma EightDigits()
    ensures Pow2(8) == 256
  {
  }

  /** The field's bits cleared, then or-ed with the value moved to the field. */
  function NewWord(w: nat, pre: nat, n: nat, v: Byte): nat {
    Or(AndNot(w, Shl(Pow2(n) - 1, pre)), Shl(v, pre))
  }

  /** A value wider than the field spills into the bits behind it. */
  lemma NewWordBits(w: nat, pre: nat, n: nat, v: Byte, i: nat)
    ensures Bit(NewWord(w, pre, n, v), i) <==>
              if pre <= i < pre + n then Bit(v, i - pre) else Bit(w, i) || (i >= pre && Bit(v, i - pre))
  {
    hide Bit, Or, AndNot, Pow2, Shl;
    BitOr(AndNot(w, Shl(Pow2(n) - 1, pre)), Shl(v, pre), i);
    BitAndNot(w, Shl(Pow2(n) - 1, pre), i);
    BitShl(Pow2(n) - 1, pre, i);
    if i >= pre { BitMask(n, i - pre); }
    BitShl(v, pre, i);
  }

  /** xMBUtilSetBits; masks and values moved by less than a byte stay within 16 bits. */
  function SetBits(bs: seq<Byte>, off: nat, n: nat, v: Byte): (r: seq<Byte>)
    requires off / 8 + 1 < |bs|
    ensures |r| == |bs|
  {
    var k := off / 8;
    var w := NewWord(Word(bs[k], bs[k + 1]), off % 8, n, v);
    bs[k := w % 256][k + 1 := Shr(w, 8) % 256]
  }

  lemma ByteBits(w: nat, i: nat)
    ensures i < 8 ==> (Bit(w % 256, i) <==> Bit(w, i))
    ensures i < 8 ==> (Bit(Shr(w, 8) % 256, i) <==> Bit(w, i + 8))
  {
    hide Bit, Shr, Pow2;
    EightDigits();
    BitLow(w, 8, i);
    BitLow(Shr(w, 8), 8, i);
    BitShr(w, 8, i);
  }

  /** The bits in the field become the value's; one behind it stays, or becomes one if the value spills onto it. */
  lemma SetBitsAt(bs: seq<Byte>, off: nat, n: nat, v: Byte, i: nat)
    requires off / 8 + 1 < |bs| && n <= 8
    ensures At(SetBits(bs, off, n, v), i) <==>
              if off <= i < off + n then Bit(v, i - off) else At(bs, i) || (off + n <= i < off + 8 && Bit(v, i - off))
  {
    hide Bit, Shr, NewWord, Word;
    var k, pre := off / 8, off % 8;
    var was, w := Word(bs[k], bs[k + 1]), NewWord(Word(bs[k], bs[k + 1]), pre, n, v);
    if k <= i / 8 <= k + 1 {
      var j := i - 8 * k;
      ByteBits(w, i % 8);
      WordBits(bs[k], bs[k + 1], j);
      NewWordBits(was, pre, n, v, j);
    }
    if i >= off + 8 {
      EightDigits();
      HighBits(v, 8, i - off);
    }
  }

  /** xMBUtilGetBits */
  function GetBits(bs: seq<Byte>, off: nat, n: nat): Byte
    requires off / 8 + 1 < |bs|
  {
    And(Shr(Word(bs[off / 8], bs[off / 8 + 1]), off % 8), Pow2(n) - 1) % 256
  }

  lemma GetBitsAt(bs: seq<Byte>, off: nat, n: nat, i: nat)
    requires off / 8 + 1 < |bs| && n <= 8
    ensures Bit(GetBits(bs, off, n), i) <==> i < n && At(bs, off + i)
  {
    hide Bit, Shr, And, Word, Pow2;
    var w := Word(bs[off / 8], bs[off / 8 + 1]);
    var a := And(Shr(w, off % 8), Pow2(n) - 1);
    EightDigits();
    BitLow(a, 8, i);
    BitAnd(Shr(w, off % 8), Pow2(n) - 1, i);
    BitMask(n, i);
    BitShr(w, off % 8, i);
    WordBits(bs[off / 8], bs[off / 8 + 1], i + off % 8);
  }

  // ----- user_mb_app.c: eMBRegCoilsCB

  function Bytes(n: nat): nat { (n + 7) / 8 }

  predicate InRange(start: nat, n: nat) { start + n <= NCOILS }

  /** The first m whole bytes of values go to the coils from start on. */
  function WriteFull(bs: seq<Byte>, start: nat, m: nat, values: seq<Byte>): (r: seq<Byte>)
    requires |bs| == NCOILS / 8 + GUARD && start + 8 * m <= NCOILS && m <= |values|
    ensures |r| == |bs|
  {
    if m == 0 then bs else SetBits(WriteFull(bs, start, m - 1, values), start + 8 * (m - 1), 8, values[m - 1])
  }

  function WriteCoils(bs: seq<Byte>, start: nat, n: nat, values: seq<Byte>): (r: seq<Byte>)
    requires |bs| == NCOILS / 8 + GUARD && InRange(start, n) && Bytes(n) <= |values|
    ensures |r| == |bs|
  {
    var f := WriteFull(bs, start, n / 8, values);
    if n % 8 != 0 then SetBits(f, start + 8 * (n / 8), n % 8, values[n / 8]) else f
  }

  lemma {:induction false} WriteFullAt(bs: seq<Byte>, start: nat, m: nat, values: seq<Byte>, i: nat)
    requires |bs| == NCOILS / 8 + GUARD && start + 8 * m <= NCOILS && m <= |values|
    ensures At(WriteFull(bs, start, m, values), i) <==> if start <= i < start + 8 * m then At(values, i - start)
            else At(bs, i)
  {
    hide Bit, SetBits;
    if m > 0 {
      WriteFullAt(bs, start, m - 1, values, i);
      SetBitsAt(WriteFull(bs, start, m - 1, values), start + 8 * (m - 1), 8, values[m - 1], i);
      var j := i - (start + 8 * (m - 1));
      if 0 <= j < 8 { assert (i - start) / 8 == m - 1 && (i - start) % 8 == j; }
    }
  }

  /** The coils written take the values' bits; a coil behind them turns on if a padding bit meant for it is set. */
  lemma WriteCoilsAt(bs: seq<Byte>, start: nat, n: nat, values: seq<Byte>, i: nat)
    requires |bs| == NCOILS / 8 + GUARD && InRange(start, n) && Bytes(n) <= |values|
    ensures At(WriteCoils(bs, start, n, values), i) <==>
              if start <= i < start + n then At(values, i - start)
              else At(bs, i) || (start + n <= i < start + 8 * Bytes(n) && At(values, i - start))
  {
    hide Bit, SetBits, WriteFull;
    var m := n / 8;
    WriteFullAt(bs, start, m, values, i);
    if n % 8 != 0 {
      SetBitsAt(WriteFull(bs, start, m, values), start + 8 * m, n % 8, values[m], i);
      var j := i - (start + 8 * m);
      if 0 <= j < 8 { assert (i - start) / 8 == m && (i - start) % 8 == j; }
    }
  }

  /** Cleared above its r lowest bits by shifting up and down within a byte. */
  function Trim(b: Byte, r: nat): Byte
    requires r <= 8
  {
    Shr(Shl(b, 8 - r) % 256, 8 - r) % 256
  }

  lemma TrimBits(b: Byte, r: nat, i: nat)
    requires r <= 8
    ensures Bit(Trim(b, r), i) <==> i < r && Bit(b, i)
  {
    hide Bit, Shr, Shl, Pow2;
    var w := Shl(b, 8 - r);
    EightDigits();
    BitLow(Shr(w % 256, 8 - r), 8, i);
    BitShr(w % 256, 8 - r, i);
    BitLow(w, 8, i + 8 - r);
    BitShl(b, 8 - r, i + 8 - r);
  }

  /** m bytes of eight coils each, from start on */
  function Whole(bs: seq<Byte>, start: nat, m: nat): (r: seq<Byte>)
    requires |bs| == NCOILS / 8 + GUARD && start + 8 * m <= NCOILS + 8
    ensures |r| == m
  {
    if m == 0 then [] else Whole(bs, start, m - 1) + [GetBits(bs, start + 8 * (m - 1), 8)]
  }

  lemma {:induction false} WholeAt(bs: seq<Byte>, start: nat, m: nat, k: nat)
    requires |bs| == NCOILS / 8 + GUARD && start + 8 * m <= NCOILS + 8 && k < m
    ensures Whole(bs, start, m)[k] == GetBits(bs, start + 8 * k, 8)
  {
    hide GetBits;
    if k < m - 1 { WholeAt(bs, start, m - 1, k); }
  }

  /** The bytes the callback stores: whole ones, and one more that keeps only the remaining coils, if any. */
  function ReadCoils(bs: seq<Byte>, start: nat, n: nat): (r: seq<Byte>)
    requires |bs| == NCOILS / 8 + GUARD && InRange(start, n)
    ensures |r| == n / 8 + 1
  {
    Whole(bs, start, n / 8) + [Trim(GetBits(bs, start + 8 * (n / 8), 8), n % 8)]
  }

  lemma ReadCoilsAt(bs: seq<Byte>, start: nat, n: nat, j: nat)
    requires |bs| == NCOILS / 8 + GUARD && InRange(start, n)
    ensures At(ReadCoils(bs, start, n), j) <==> j < n && At(bs, start + j)
  {
    hide Bit, GetBits, Trim;
    if j / 8 < n / 8 { WholeAt(bs, start, n / 8, j / 8); }
    if j / 8 <= n / 8 {
      GetBitsAt(bs, start + 8 * (j / 8), 8, j % 8);
      assert start + 8 * (j / 8) + j % 8 == start + j;
    }
    if j / 8 == n / 8 { TrimBits(GetBits(bs, start + 8 * (n / 8), 8), n % 8, j % 8); }
  }

  // ----- write, then read

  /** The unused bits of the last value byte are zero. */
  ghost predicate Padded(values: seq<Byte>, n: nat) { forall j: nat :: n <= j < 8 * Bytes(n) ==> !At(values, j) }

  lemma SameBytes(a: seq<Byte>, b: seq<Byte>, m: nat)
    requires m <= |a| && m <= |b| && forall j: nat :: j < 8 * m ==> (At(a, j) <==> At(b, j))
    ensures a[..m] == b[..m]
  {
    hide Bit, Pow2;
    EightDigits();
    forall k: nat | k < m ensures a[k] == b[k] {
      forall i: nat | i < 8 ensures Bit(a[k], i) <==> Bit(b[k], i) {
        var j := 8 * k + i;
        assert j / 8 == k && j % 8 == i;
        assert At(a, j) <==> At(b, j);
      }
      SameBits(a[k], b[k], 8);
    }
  }

  /** Reading the coils just written gives back the value bytes. */
  lemma ReadAfterWrite(bs: seq<Byte>, start: nat, n: nat, values: seq<Byte>)
    requires |bs| == NCOILS / 8 + GUARD && InRange(start, n) && Bytes(n) <= |values| && Padded(values, n)
    ensures ReadCoils(WriteCoils(bs, start, n, values), start, n)[..Bytes(n)] == values[..Bytes(n)]
  {
    hide At, ReadCoils, WriteCoils;
    var w := WriteCoils(bs, start, n, values);
    forall j: nat | j < 8 * Bytes(n) ensures At(ReadCoils(w, start, n), j) <==> At(values, j) {
      ReadCoilsAt(w, start, n, j);
      WriteCoilsAt(bs, start, n, values, start + j);
    }
    SameBytes(ReadCoils(w, start, n), values, Bytes(n));
  }

  /** Writing leaves every other coil as it was exactly when each padding bit that is set meets a coil that is
      on already; in particular when the last value byte is padded with zeros. */
  lemma OthersKeptExactly(bs: seq<Byte>, start: nat, n: nat, values: seq<Byte>)
    requires |bs| == NCOILS / 8 + GUARD && InRange(start, n) && Bytes(n) <= |values|
    ensures (forall i: nat :: !(start <= i < start + n) ==> (At(WriteCoils(bs, start, n, values), i) <==> At(bs, i)))
       <==> (forall j: nat :: n <= j < 8 * Bytes(n) && At(values, j) ==> At(bs, start + j))
  {
    hide At, WriteCoils;
    var w := WriteCoils(bs, start, n, values);
    forall i: nat
      ensures At(w, i) <==>
                if start <= i < start + n then At(values, i - start)
                else At(bs, i) || (start + n <= i < start + 8 * Bytes(n) && At(values, i - start))
    {
      WriteCoilsAt(bs, start, n, values, i);
    }
    if forall i: nat :: !(start <= i < start + n) ==> (At(w, i) <==> At(bs, i)) {
      forall j: nat | n <= j < 8 * Bytes(n) && At(values, j) ensures At(bs, start + j) {
        assert At(w, start + j);
      }
    }
  }

  // ----- behind the buffer

  /** The bytes reached by m bit-field accesses from coil `start` on, each to two neighbouring bytes. */
  ghost predicate Reached(start: nat, m: nat, b: nat) {
    exists j: nat :: j < m && (b == (start + 8 * j) / 8 || b == (start + 8 * j) / 8 + 1)
  }

  ghost predicate Leaves(start: nat, m: nat, size: nat) { exists b: nat :: b >= size && Reached(start, m, b) }

  /** The write loop makes Bytes(n) accesses and the read loop n / 8 + 1, and so they leave the eight bytes of
      ucSCoilBuf exactly for the last coils; they never go further than two bytes behind. */
  lemma LeavesBufferExactly(start: nat, n: nat)
    requires 1 <= n && InRange(start, n)
    ensures Leaves(start, Bytes(n), NCOILS / 8) <==> start / 8 + Bytes(n) >= NCOILS / 8
    ensures Leaves(start, n / 8 + 1, NCOILS / 8) <==> start / 8 + n / 8 + 1 >= NCOILS / 8
    ensures !Leaves(start, Bytes(n), NCOILS / 8 + GUARD) && !Leaves(start, n / 8 + 1, NCOILS / 8 + GUARD)
  {
    LastReached(start, Bytes(n));
    LastReached(start, n / 8 + 1);
    hide Reached;
  }

  lemma LastReached(start: nat, m: nat)
    requires m > 0
    ensures Reached(start, m, start / 8 + m) && forall b: nat :: Reached(start, m, b) ==> b <= start / 8 + m
  {
    assert (start + 8 * (m - 1)) / 8 + 1 == start / 8 + m;
  }

  /** What happens to be behind the buffer is not seen in a response, and does not matter to the coils. */
  lemma GuardsDoNotMatter(bs: seq<Byte>, cs: seq<Byte>, start: nat, n: nat, values: seq<Byte>)
    requires |bs| == |cs| == NCOILS / 8 + GUARD && bs[..NCOILS / 8] == cs[..NCOILS / 8]
    requires InRange(start, n) && Bytes(n) <= |values|
    ensures ReadCoils(bs, start, n)[..Bytes(n)] == ReadCoils(cs, start, n)[..Bytes(n)]
    ensures WriteCoils(bs, start, n, values)[..NCOILS / 8] == WriteCoils(cs, start, n, values)[..NCOILS / 8]
  {
    hide At, ReadCoils, WriteCoils;
    SameCoils(bs, cs);
    var r, q := ReadCoils(bs, start, n), ReadCoils(cs, start, n);
    forall j: nat | j < 8 * Bytes(n) ensures At(r, j) <==> At(q, j) {
      ReadCoilsAt(bs, start, n, j);
      ReadCoilsAt(cs, start, n, j);
    }
    SameBytes(r, q, Bytes(n));
    var v, w := WriteCoils(bs, start, n, values), WriteCoils(cs, start, n, values);
    forall j: nat | j < NCOILS ensures At(v, j) <==> At(w, j) {
      WriteCoilsAt(bs, start, n, values, j);
      WriteCoilsAt(cs, start, n, values, j);
    }
    SameBytes(v, w, NCOILS / 8);
  }

  lemma SameCoils(bs: seq<Byte>, cs: seq<Byte>)
    requires |bs| == |cs| == NCOILS / 8 + GUARD && bs[..NCOILS / 8] == cs[..NCOILS / 8]
    ensures forall i: nat :: i < NCOILS ==> (At(bs, i) <==> At(cs, i))
  {
    forall i: nat | i < NCOILS ensures At(bs, i) <==> At(cs, i) {
      assert bs[i / 8] == bs[..NCOILS / 8][i / 8] && cs[i / 8] == cs[..NCOILS / 8][i / 8];
    }
    hide Bit;
  }

  /** A write of coils whose last byte is padded with zeros leaves what is behind the buffer as it was. */
  lemma GuardsKept(bs: seq<Byte>, start: nat, n: nat, values: seq<Byte>)
    requires |bs| == NCOILS / 8 + GUARD && InRange(start, n) && Bytes(n) <= |values| && Padded(values, n)
    ensures WriteCoils(bs, start, n, values)[NCOILS / 8..] == bs[NCOILS / 8..]
  {
    hide At, WriteCoils;
    NoPadding(values, n);
    var w := WriteCoils(bs, start, n, values);
    forall j: nat | j < 8 * GUARD ensures At(w[NCOILS / 8..], j) <==> At(bs[NCOILS / 8..], j) {
      WriteCoilsAt(bs, start, n, values, NCOILS + j);
      Shifted(w, j);
      Shifted(bs, j);
    }
    SameBytes(w[NCOILS / 8..], bs[NCOILS / 8..], GUARD);
  }

  lemma Shifted(bs: seq<Byte>, j: nat)
    requires |bs| == NCOILS / 8 + GUARD
    ensures At(bs[NCOILS / 8..], j) <==> At(bs, NCOILS + j)
  {
    assert (NCOILS + j) / 8 == NCOILS / 8 + j / 8 && (NCOILS + j) % 8 == j % 8;
    hide Bit;
  }

  // ----- mbfunccoils.c: requests and responses in the frame buffer

  datatype Reply = Answer(len: nat) | Exception(code: nat)

  /** A 16-bit field, most significant byte first */
  function Field(frame: seq<Byte>, off: nat): nat
    requires off + 1 < |frame|
  {
    Or(Shl(frame[off], 8), frame[off + 1]) % 0x10000
  }

  /** The functions pass the address plus one, and the callback takes the one off again. */
  function Start(frame: seq<Byte>): nat
    requires |frame| > 2
  {
    ((Field(frame, 1) + 1) % 0x10000 + 0xFFFF) % 0x10000
  }

  lemma StartIsField(frame: seq<Byte>)
    requires |frame| > 2
    ensures Start(frame) == Field(frame, 1)
  {
    hide Or, Shl;
  }

  /** eMBFuncWriteMultipleCoils on a request of `len` bytes in a buffer that holds any PDU */
  function WriteMultiple(bs: seq<Byte>, frame: seq<Byte>, len: nat): (seq<Byte>, Reply)
    requires |bs| == NCOILS / 8 + GUARD && |frame| >= 253
  {
    if len <= 5 then (bs, Exception(ILLEGAL_DATA_VALUE))
    else
      var n := Field(frame, 3);
      if 1 <= n <= WRITE_COUNT_MAX && Bytes(n) % 256 == frame[5] then
        if InRange(Start(frame), n) then (WriteCoils(bs, Start(frame), n, frame[6..]), Answer(5))
        else (bs, Exception(ILLEGAL_DATA_ADDRESS))
      else (bs, Exception(ILLEGAL_DATA_VALUE))
  }

  /** eMBFuncReadCoils: the response takes the request's place in the buffer; one byte more than it counts is
      stored when the coils fill whole bytes. */
  function Read(bs: seq<Byte>, frame: seq<Byte>, len: nat): (seq<Byte>, Reply)
    requires |bs| == NCOILS / 8 + GUARD && |frame| >= 253
  {
    if len != 5 then (frame, Exception(ILLEGAL_DATA_VALUE))
    else
      var n := Field(frame, 3);
      if 1 <= n < READ_COUNT_MAX then
        var f := frame[0 := 1][1 := Bytes(n) % 256];
        if InRange(Start(frame), n) then
          (f[..2] + ReadCoils(bs, Start(frame), n) + f[2 + n / 8 + 1..], Answer(2 + Bytes(n)))
        else (f, Exception(ILLEGAL_DATA_ADDRESS))
      else (frame, Exception(ILLEGAL_DATA_VALUE))
  }

  /** A request to write is carried out exactly when it is longer than five bytes, its count and byte count fit each
      other and the coils exist; otherwise no coil changes. Past five bytes its length does not matter any more. */
  lemma WriteAcceptedExactly(bs: seq<Byte>, frame: seq<Byte>, len: nat)
    requires |bs| == NCOILS / 8 + GUARD && |frame| >= 253
    ensures WriteMultiple(bs, frame, len).1.Answer? <==>
              len > 5 && 1 <= Field(frame, 3) && frame[5] == Bytes(Field(frame, 3))
                && Field(frame, 1) + Field(frame, 3) <= NCOILS
    ensures WriteMultiple(bs, frame, len).1.Exception? ==> WriteMultiple(bs, frame, len).0 == bs
    ensures len > 5 ==> forall k: nat :: k > 5 ==> WriteMultiple(bs, frame, k) == WriteMultiple(bs, frame, len)
  {
    StartIsField(frame);
    hide Field, WriteCoils, Start;
  }

  /** Which exception it is: illegal data value for a request that is too short or whose counts do not fit, and illegal
      data address for coils that do not exist. */
  lemma WriteExceptionExactly(bs: seq<Byte>, frame: seq<Byte>, len: nat)
    requires |bs| == NCOILS / 8 + GUARD && |frame| >= 253
    ensures var n, reply := Field(frame, 3), WriteMultiple(bs, frame, len).1;
            var fits := len > 5 && 1 <= n <= WRITE_COUNT_MAX && frame[5] == Bytes(n);
            && (reply == Exception(ILLEGAL_DATA_VALUE) <==> !fits)
            && (reply == Exception(ILLEGAL_DATA_ADDRESS) <==> fits && Field(frame, 1) + n > NCOILS)
            && (reply == Answer(5) <==> fits && Field(frame, 1) + n <= NCOILS)
  {
    StartIsField(frame);
    hide Field, WriteCoils, Start;
  }

  /** A request to read is answered exactly when it is five bytes long, asks for 1 to 1999 coils, and they exist; the
      response then counts its bytes and has the coils in them, in order and padded with zeros. */
  lemma ReadAnswersExactly(bs: seq<Byte>, frame: seq<Byte>, len: nat)
    requires |bs| == NCOILS / 8 + GUARD && |frame| >= 253
    ensures var start, n := Field(frame, 1), Field(frame, 3);
            var (response, reply) := Read(bs, frame, len);
            var fits := len == 5 && 1 <= n < READ_COUNT_MAX;
            && (reply == Exception(ILLEGAL_DATA_VALUE) <==> !fits)
            && (reply == Exception(ILLEGAL_DATA_ADDRESS) <==> fits && start + n > NCOILS)
            && (reply == Answer(2 + Bytes(n)) <==> fits && start + n <= NCOILS)
            && (reply.Answer? ==>
                 && |response| >= 2 + Bytes(n) && response[0] == 1 && response[1] == Bytes(n)
                 && forall j: nat :: j < 8 * Bytes(n) ==> (At(response[2..], j) <==> j < n && At(bs, start + j)))
  {
    hide Field, ReadCoils, Start, At;
    StartIsField(frame);
    var start, n := Field(frame, 1), Field(frame, 3);
    if Read(bs, frame, len).1.Answer? {
      var r, f := ReadCoils(bs, start, n), frame[0 := 1][1 := Bytes(n) % 256];
      var response := f[..2] + r + f[2 + n / 8 + 1..];
      assert Read(bs, frame, len).0 == response;
      assert response[2..] == r + f[2 + n / 8 + 1..];
      forall j: nat | j < 8 * Bytes(n) ensures At(response[2..], j) <==> j < n && At(bs, start + j) {
        ReadCoilsAt(bs, start, n, j);
        FrontAt(r, f[2 + n / 8 + 1..], j);
      }
    }
  }

  lemma FrontAt(a: seq<Byte>, b: seq<Byte>, j: nat)
    requires j < 8 * |a|
    ensures At(a + b, j) <==> At(a, j)
  {
    hide Bit;
  }

  ghost predicate SameRequest(f: seq<Byte>, frame: seq<Byte>, len: nat) {
    len <= |frame| && |f| == |frame| && f[..len] == frame[..len]
  }

  /** The coils written by an accepted request are a matter of the request alone, and not of what stands behind it in
      the frame buffer, exactly when the request is as long as its byte count says. */
  lemma CoilsAreOfRequestExactly(bs: seq<Byte>, frame: seq<Byte>, len: nat)
    requires |bs| == NCOILS / 8 + GUARD && |frame| >= 253 && len <= |frame|
    requires WriteMultiple(bs, frame, len).1.Answer?
    ensures (forall f :: SameRequest(f, frame, len) ==> WriteMultiple(bs, f, len) == WriteMultiple(bs, frame, len))
       <==> len >= 6 + Bytes(Field(frame, 3))
  {
    hide WriteMultiple, Field;
    if len >= 6 + Bytes(Field(frame, 3)) {
      forall f | SameRequest(f, frame, len) ensures WriteMultiple(bs, f, len) == WriteMultiple(bs, frame, len) {
        WholeRequest(bs, f, frame, len);
      }
    } else {
      ShortRequest(bs, frame, len);
    }
  }

  lemma WholeRequest(bs: seq<Byte>, f: seq<Byte>, frame: seq<Byte>, len: nat)
    requires |bs| == NCOILS / 8 + GUARD && |frame| >= 253 && len <= |frame|
    requires WriteMultiple(bs, frame, len).1.Answer? && len >= 6 + Bytes(Field(frame, 3)) && SameRequest(f, frame, len)
    ensures WriteMultiple(bs, f, len) == WriteMultiple(bs, frame, len)
  {
    WriteAcceptedExactly(bs, frame, len);
    var n := Field(frame, 3);
    forall i: nat | i < 6 + Bytes(n) ensures f[i] == frame[i] {
      assert f[..len][i] == frame[..len][i];
    }
    assert Field(f, 1) == Field(frame, 1) && Field(f, 3) == n && f[5] == frame[5];
    StartIsField(f);
    StartIsField(frame);
    assert f[6..][..Bytes(n)] == frame[6..][..Bytes(n)];
    hide Field, Start, WriteCoils, SameRequest;
    OnlyValuesMatter(bs, Field(frame, 1), n, f[6..], frame[6..]);
  }

  lemma OnlyValuesMatter(bs: seq<Byte>, start: nat, n: nat, u: seq<Byte>, v: seq<Byte>)
    requires |bs| == NCOILS / 8 + GUARD && InRange(start, n) && Bytes(n) <= |u| && Bytes(n) <= |v|
    requires u[..Bytes(n)] == v[..Bytes(n)]
    ensures WriteCoils(bs, start, n, u) == WriteCoils(bs, start, n, v)
  {
    hide At, WriteCoils;
    var a, b := WriteCoils(bs, start, n, u), WriteCoils(bs, start, n, v);
    forall j: nat | j < 8 * Bytes(n) ensures At(u, j) <==> At(v, j) { SameAt(u, v, Bytes(n), j); }
    forall j: nat | j < 8 * |bs| ensures At(a, j) <==> At(b, j) {
      WriteCoilsAt(bs, start, n, u, j);
      WriteCoilsAt(bs, start, n, v, j);
    }
    SameBytes(a, b, |bs|);
    assert a == a[..|bs|] && b == b[..|bs|];
  }

  lemma SameAt(u: seq<Byte>, v: seq<Byte>, m: nat, j: nat)
    requires m <= |u| && m <= |v| && u[..m] == v[..m] && j < 8 * m
    ensures At(u, j) <==> At(v, j)
  {
    assert u[..m][j / 8] == v[..m][j / 8];
    hide Bit;
  }

  /** Another last value byte, behind the end of the request, writes another coil. */
  lemma ShortRequest(bs: seq<Byte>, frame: seq<Byte>, len: nat)
    requires |bs| == NCOILS / 8 + GUARD && |frame| >= 253 && len <= |frame|
    requires WriteMultiple(bs, frame, len).1.Answer? && len < 6 + Bytes(Field(frame, 3))
    ensures exists f :: SameRequest(f, frame, len) && WriteMultiple(bs, f, len) != WriteMultiple(bs, frame, len)
  {
    WriteAcceptedExactly(bs, frame, len);
    var n := Field(frame, 3);
    var last := Bytes(n) - 1;
    var v: Byte := if frame[6 + last] % 2 == 0 then 1 else 0;
    var f := frame[6 + last := v];
    assert f[..len] == frame[..len];
    assert Field(f, 1) == Field(frame, 1) && Field(f, 3) == n && f[5] == frame[5];
    StartIsField(f);
    StartIsField(frame);
    LowestBit(v, frame[6 + last]);
    assert f[6..][last] == v;
    var start, coil := Field(frame, 1), Field(frame, 1) + 8 * last;
    assert At(f[6..], 8 * last) <==> Bit(v, 0);
    assert At(frame[6..], 8 * last) <==> Bit(frame[6 + last], 0);
    assert 8 * last < n;
    hide Field, Start, WriteCoils, At, Bit;
    WriteCoilsAt(bs, start, n, f[6..], coil);
    WriteCoilsAt(bs, start, n, frame[6..], coil);
    assert WriteMultiple(bs, f, len).0 == WriteCoils(bs, start, n, f[6..]);
    assert WriteMultiple(bs, frame, len).0 == WriteCoils(bs, start, n, frame[6..]);
    assert SameRequest(f, frame, len);
  }

  lemma LowestBit(a: Byte, b: Byte)
    requires a % 2 != b % 2
    ensures Bit(a, 0) <==> !Bit(b, 0)
  {
    assert Pow2(0) == 1;
  }

  /** A request that writes one coil with value byte 3 turns on the next coil too. */
  lemma PaddingSpills(bs: seq<Byte>, request: seq<Byte>)
    requires |bs| == NCOILS / 8 + GUARD && |request| >= 253
    requires Field(request, 1) + 1 < NCOILS && Field(request, 3) == 1 && request[5] == 1 && request[6] == 3
    ensures var (w, reply) := WriteMultiple(bs, request, 7); reply == Answer(5) && At(w, Field(request, 1) + 1)
  {
    StartIsField(request);
    var start, values := Field(request, 1), request[6..];
    WriteCoilsAt(bs, start, 1, values, start + 1);
    assert At(values, 1) by { assert values[0] == 3 && Bit(3, 1); }
    hide Field, WriteCoils, Start, At;
  }

  /** There are such requests: coil 0 of a device with all coils off. */
  lemma SpillingRequest()
    ensures var request := [15, 0, 0, 0, 1, 1, 3] + seq(246, _ => 0);
            var bs := seq(10, _ => 0);
            && Field(request, 1) == 0 && Field(request, 3) == 1 && request[5] == 1 && request[6] == 3
            && |request| == 253 && |bs| == NCOILS / 8 + GUARD && !At(bs, 1)
  {
    var request: seq<Byte> := [15, 0, 0, 0, 1, 1, 3] + seq(246, _ => 0);
    assert request[1] == 0 && request[2] == 0 && request[3] == 0 && request[4] == 1;
    ZeroBit(1);
    assert Shl(0, 8) == 0;
    assert Or(0, 0) == 0 && Or(0, 1) == 1;
  }

  /** The round trip: what Write Multiple Coils stored, Read Coils for the same coils answers, byte for byte,
      and every other coil is as it was, provided the last value byte is padded with zeros. */
  lemma WriteThenRead(bs: seq<Byte>, request: seq<Byte>, len: nat, query: seq<Byte>)
    requires |bs| == NCOILS / 8 + GUARD && |request| >= 253 && |query| >= 253
    requires WriteMultiple(bs, request, len).1.Answer? && Padded(request[6..], Field(request, 3))
    requires Field(query, 1) == Field(request, 1) && Field(query, 3) == Field(request, 3)
    ensures var n := Field(request, 3);
            var w := WriteMultiple(bs, request, len).0;
            var (response, reply) := Read(w, query, 5);
            && |w| == |bs| && reply == Answer(2 + Bytes(n)) && |response| >= 2 + Bytes(n)
            && response[..2 + Bytes(n)] == [1, Bytes(n)] + request[6..6 + Bytes(n)]
            && forall i: nat :: !(Field(request, 1) <= i < Field(request, 1) + n) ==> (At(w, i) <==> At(bs, i))
  {
    hide Field, WriteCoils, ReadCoils, Start, At;
    WriteAcceptedExactly(bs, request, len);
    StartIsField(request);
    StartIsField(query);
    var start, n, values := Field(request, 1), Field(request, 3), request[6..];
    ReadAfterWrite(bs, start, n, values);
    NoPadding(values, n);
    OthersKeptExactly(bs, start, n, values);
    var w := WriteMultiple(bs, request, len).0;
    var r := ReadCoils(w, start, n);
    var f := query[0 := 1][1 := Bytes(n)];
    assert 1 <= n <= NCOILS && Bytes(n) <= 8 && Bytes(n) % 256 == Bytes(n);
    assert Read(w, query, 5) == (f[..2] + r + f[2 + n / 8 + 1..], Answer(2 + Bytes(n)));
    assert r[..Bytes(n)] == request[6..6 + Bytes(n)];
    assert (f[..2] + r + f[2 + n / 8 + 1..])[..2 + Bytes(n)] == [1, Bytes(n)] + r[..Bytes(n)];
  }

  lemma NoPadding(values: seq<Byte>, n: nat)
    requires Padded(values, n)
    ensures forall j: nat :: n <= j < 8 * Bytes(n) ==> !At(values, j)
  {
    hide At;
  }
}
