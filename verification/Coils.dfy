/** The slave's coil buffer and the code that reads and writes it; each method is proved to be the function
    of CoilSpec it names. */
module Coils {
  import opened Bits
  import opened CoilSpec

  class CoilServer {
    const coils: array<Byte>             // ucSCoilBuf, with the guard bytes behind it

    ghost predicate Valid() { coils.Length == NCOILS / 8 + GUARD }

    constructor ()
      ensures Valid() && fresh(coils) && forall i: nat :: !At(coils[..], i)
    {
      coils := new Byte[NCOILS / 8 + GUARD](_ => 0);
      new;
      forall i: nat ensures !At(coils[..], i) { ZeroBit(i % 8); }
    }

    /** xMBUtilSetBits on the two bytes at k */
    method SetBitsHere(k: nat, pre: nat, n: nat, v: Byte)
      requires Valid() && k + 1 < coils.Length && pre < 8 && n <= 8
      modifies coils
      ensures coils[..] == SetBits(old(coils[..]), 8 * k + pre, n, v)
    {
      hide Or, AndNot, Shl, Shr, Pow2;
      var value := Shl(v, pre);
      var mask := Shl(Pow2(n) - 1, pre);
      var word := Or(coils[k], Shl(coils[k + 1], 8));
      word := Or(AndNot(word, mask), value);
      coils[k] := word % 256;
      coils[k + 1] := Shr(word, 8) % 256;
    }

    /** xMBUtilGetBits on the two bytes at k */
    method GetBitsHere(k: nat, pre: nat, n: nat) returns (r: Byte)
      requires Valid() && k + 1 < coils.Length && pre < 8 && n <= 8
      ensures r == GetBits(coils[..], 8 * k + pre, n)
    {
      hide Or, And, Shl, Shr, Pow2;
      var mask := Pow2(n) - 1;
      var word := Or(coils[k], Shl(coils[k + 1], 8));
      word := Shr(word, pre);
      word := And(word, mask);
      return word % 256;
    }

    /** The write loop of eMBRegCoilsCB */
    method WriteLoop(frame: array<Byte>, at: nat, start: nat, n: nat)
      requires Valid() && frame != coils && InRange(start, n) && at + Bytes(n) <= frame.Length
      modifies coils
      ensures coils[..] == WriteCoils(old(coils[..]), start, n, frame[at..])
    {
      hide SetBits;
      var regIndex, bitIndex := start / 8, start % 8;
      var left := n / 8 + 1;
      var cur := at;
      while left > 1
        invariant 1 <= left <= n / 8 + 1 && cur == at + (n / 8 + 1 - left) && regIndex == start / 8 + (n / 8 + 1 - left)
        invariant coils[..] == WriteFull(old(coils[..]), start, n / 8 + 1 - left, frame[at..])
      {
        assert frame[at..][n / 8 + 1 - left] == frame[cur];
        assert 8 * regIndex + bitIndex == start + 8 * (n / 8 + 1 - left);
        SetBitsHere(regIndex, bitIndex, 8, frame[cur]);
        regIndex := regIndex + 1;
        cur := cur + 1;
        left := left - 1;
      }
      if n % 8 != 0 {
        assert frame[at..][n / 8] == frame[cur];
        assert 8 * regIndex + bitIndex == start + 8 * (n / 8);
        SetBitsHere(regIndex, bitIndex, n % 8, frame[cur]);
      }
    }

    /** The read loop of eMBRegCoilsCB */
    method ReadLoop(frame: array<Byte>, at: nat, start: nat, n: nat)
      requires Valid() && frame != coils && InRange(start, n) && at + n / 8 + 1 <= frame.Length
      modifies frame
      ensures frame[..] == old(frame[..at]) + ReadCoils(coils[..], start, n) + old(frame[at + n / 8 + 1..])
    {
      hide GetBits, Shr, Shl;
      StoreBytes(frame, at, start, n / 8 + 1);
      var last := at + n / 8;
      ghost var w := Whole(coils[..], start, n / 8);
      assert Whole(coils[..], start, n / 8 + 1) == w + [GetBits(coils[..], start + 8 * (n / 8), 8)];
      assert frame[last] == GetBits(coils[..], start + 8 * (n / 8), 8);
      frame[last] := Shl(frame[last], 8 - n % 8) % 256;
      frame[last] := Shr(frame[last], 8 - n % 8) % 256;
      assert frame[..] == old(frame[..at]) + (w + [frame[last]]) + old(frame[at + n / 8 + 1..]);
    }

    method StoreBytes(frame: array<Byte>, at: nat, start: nat, n: nat)
      requires Valid() && frame != coils && start + 8 * n <= NCOILS + 8 && at + n <= frame.Length
      modifies frame
      ensures frame[..] == old(frame[..at]) + Whole(coils[..], start, n) + old(frame[at + n..])
    {
      hide GetBits;
      var regIndex, bitIndex := start / 8, start % 8;
      var m := 0;
      while m < n
        invariant m <= n
        invariant frame[..] == old(frame[..at]) + Whole(coils[..], start, m) + old(frame[at + m..])
      {
        assert 8 * (regIndex + m) + bitIndex == start + 8 * m;
        var b := GetBitsHere(regIndex + m, bitIndex, 8);
        frame[at + m] := b;
        assert old(frame[at + m..])[1..] == old(frame[at + m + 1..]);
        m := m + 1;
      }
    }

    /** eMBFuncWriteMultipleCoils */
    method FuncWriteMultipleCoils(frame: array<Byte>, len: nat) returns (reply: Reply)
      requires Valid() && frame != coils && frame.Length >= 253
      modifies coils
      ensures (coils[..], reply) == WriteMultiple(old(coils[..]), frame[..], len)
    {
      hide Field, Start, WriteCoils;
      if len > 5 {
        var address := (Field(frame[..], 1) + 1) % 0x10000;
        var count := Field(frame[..], 3);
        var verify := if count % 8 != 0 then (count / 8 + 1) % 256 else count / 8 % 256;
        if 1 <= count <= WRITE_COUNT_MAX && verify == frame[5] {
          StartOf(frame[..]);
          var start := (address + 0xFFFF) % 0x10000;
          if start + count <= NCOILS {
            assert frame[..][6..] == frame[6..];
            WriteLoop(frame, 6, start, count);
            reply := Answer(5);
          } else {
            reply := Exception(ILLEGAL_DATA_ADDRESS);
          }
        } else {
          reply := Exception(ILLEGAL_DATA_VALUE);
        }
      } else {
        reply := Exception(ILLEGAL_DATA_VALUE);
      }
    }

    lemma StartOf(frame: seq<Byte>)
      requires |frame| > 2
      ensures Start(frame) == ((Field(frame, 1) + 1) % 0x10000 + 0xFFFF) % 0x10000
    {
      hide Field;
    }

    /** eMBFuncReadCoils */
    method FuncReadCoils(frame: array<Byte>, len: nat) returns (reply: Reply)
      requires Valid() && frame != coils && frame.Length >= 253
      modifies frame
      ensures (frame[..], reply) == Read(coils[..], old(frame[..]), len)
    {
      hide Field, Start, ReadCoils;
      if len == 5 {
        var address := (Field(frame[..], 1) + 1) % 0x10000;
        var count := Field(frame[..], 3);
        if 1 <= count < READ_COUNT_MAX {
          StartOf(frame[..]);
          frame[0] := 1;
          frame[1] := if count % 8 != 0 then (count / 8 + 1) % 256 else count / 8 % 256;
          var start := (address + 0xFFFF) % 0x10000;
          if start + count <= NCOILS {
            ghost var f := frame[..];
            ReadLoop(frame, 2, start, count);
            assert f[..2] == old(frame[..])[0 := 1][1 := Bytes(count) % 256][..2];
            reply := Answer(2 + Bytes(count));
          } else {
            reply := Exception(ILLEGAL_DATA_ADDRESS);
          }
        } else {
          reply := Exception(ILLEGAL_DATA_VALUE);
        }
      } else {
        reply := Exception(ILLEGAL_DATA_VALUE);
      }
    }
  }
}
