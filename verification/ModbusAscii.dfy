/** A Modbus ASCII station: the interrupt handlers and the two calls of mbascii.c over one frame buffer. */
module ModbusAscii {
  import opened AsciiSpec

  class AsciiStation {
    var rcvState: RcvState
    var sndState: SndState
    const buf: array<Byte>               // ucASCIIBuf
    var rcvBufferPos: nat
    var bytePos: BytePos
    var sndBufferCur: nat                // pucSndBufferCur, as an index
    var sndBufferCount: nat

    ghost function S(): Station
      reads this, buf
    {
      Station(rcvState, sndState, buf[..], rcvBufferPos, bytePos, sndBufferCur, sndBufferCount)
    }

    ghost predicate Valid()
      reads this, buf
    {
      S().Valid() && (sndState == TxData || sndState == TxStart ==> sndBufferCur + sndBufferCount <= SIZE_MAX)
    }

    /** eMBASCIIInit and eMBASCIIStart */
    constructor ()
      ensures Valid() && rcvState == RxIdle && sndState == TxIdle && fresh(buf)
    {
      rcvState, sndState := RxIdle, TxIdle;
      buf := new Byte[SIZE_MAX](_ => 0);
      rcvBufferPos, bytePos, sndBufferCur, sndBufferCount := 0, HighNibble, 0, 0;
    }

    /** xMBASCIIReceiveFSM; the answer is whether a frame was reported. */
    method ReceiveFSM(c: Byte) returns (event: bool)
      requires Valid() && sndState == TxIdle
      modifies this`rcvState, this`rcvBufferPos, this`bytePos, buf
      ensures Valid() && RxStep(old(S()), c) == Step(S(), [], event)
    {
      hide CharToBin, Upper, Joined;
      event := false;
      match rcvState
      case RxRcv =>
        if c == COLON {
          bytePos := HighNibble;
          rcvBufferPos := 0;
        } else if c == CR {
          rcvState := RxWaitEof;
        } else {
          Data(CharToBin(c));
        }
      case RxWaitEof =>
        if c == LF {
          rcvState := RxIdle;
          event := true;
        } else if c == COLON {
          bytePos := HighNibble;
          rcvBufferPos := 0;
          rcvState := RxRcv;
        } else {
          rcvState := RxIdle;
        }
      case RxIdle =>
        if c == COLON {
          rcvBufferPos := 0;
          bytePos := HighNibble;
          rcvState := RxRcv;
        }
    }

    /** A hex digit of the data block. */
    method Data(digit: Byte)
      requires Valid() && rcvState == RxRcv
      modifies this`rcvState, this`rcvBufferPos, this`bytePos, buf
      ensures Valid()
      ensures S() == if old(bytePos) == HighNibble then
                       if old(rcvBufferPos) < SIZE_MAX then
                         old(S()).(buf := old(S()).buf[old(rcvBufferPos) := Upper(digit)], pos := LowNibble)
                       else old(S()).(rcv := RxIdle)
                     else
                       old(S()).(buf := old(S()).buf[old(rcvBufferPos) := Joined(old(S()).buf[old(rcvBufferPos)],
                         digit)],
                                 rcvPos := old(rcvBufferPos) + 1, pos := HighNibble)
    {
      hide Upper, Joined;
      match bytePos
      case HighNibble =>
        if rcvBufferPos < SIZE_MAX {
          buf[rcvBufferPos] := Upper(digit);
          bytePos := LowNibble;
        } else {
          rcvState := RxIdle;
        }
      case LowNibble =>
        buf[rcvBufferPos] := Joined(buf[rcvBufferPos], digit);
        rcvBufferPos := rcvBufferPos + 1;
        bytePos := HighNibble;
    }

    /** xMBASCIITransmitFSM: the character it puts on the line, if any, and whether a frame was reported sent. */
    method TransmitFSM() returns (out: seq<Byte>, event: bool)
      requires Valid() && rcvState == RxIdle
      modifies this`sndState, this`bytePos, this`sndBufferCur, this`sndBufferCount
      ensures Valid() && TxStep(old(S())) == Step(S(), out, event)
    {
      hide BinToChar;
      out, event := [], false;
      match sndState
      case TxStart =>
        out := [COLON];
        sndState := TxData;
        bytePos := HighNibble;
      case TxData =>
        if sndBufferCount > 0 {
          match bytePos
          case HighNibble =>
            out := [BinToChar(buf[sndBufferCur] / 16)];
            bytePos := LowNibble;
          case LowNibble =>
            out := [BinToChar(buf[sndBufferCur] % 16)];
            sndBufferCur := sndBufferCur + 1;
            bytePos := HighNibble;
            sndBufferCount := sndBufferCount - 1;
        } else {
          out := [CR];
          sndState := TxEnd;
        }
      case TxEnd =>
        out := [LF];
        sndState := TxNotify;
      case TxNotify =>
        sndState := TxIdle;
        event := true;
      case TxIdle =>
    }

    /** prvucMBLRC over the first n bytes of the buffer */
    method LrcOf(n: nat) returns (lrc: Byte)
      requires n <= buf.Length
      ensures lrc == Lrc(buf[..n])
    {
      hide Plus;
      var i := 0;
      lrc := 0;
      assert buf[..0] == [];
      while i < n
        invariant i <= n && lrc == Sum(buf[..i])
      {
        SumSnoc(buf[..i], buf[i]);
        assert buf[..i + 1] == buf[..i] + [buf[i]];
        lrc := Plus(lrc, buf[i]);
        i := i + 1;
      }
      lrc := Negated(lrc);
    }

    lemma SumSnoc(bs: seq<Byte>, b: Byte)
      ensures Sum(bs + [b]) == Plus(Sum(bs), b)
    {
      SumConcat(bs, [b]);
      assert [b][1..] == [];
      PlusZero(b);
      hide Plus;
    }

    /** eMBASCIISend; the caller has put the PDU of n bytes behind the first byte of the frame buffer. */
    method Send(address: Byte, n: nat) returns (ok: bool)
      requires Valid() && n + 2 <= SIZE_MAX
      modifies this`sndState, this`sndBufferCur, this`sndBufferCount, buf
      ensures Valid() && S() == AsciiSpec.Send(old(S()), address, n) && ok == (rcvState == RxIdle)
    {
      hide Lrc;
      ok := rcvState == RxIdle;
      if ok {
        sndBufferCur := 0;
        buf[0] := address;
        sndBufferCount := 1 + n;
        var lrc := LrcOf(sndBufferCount);
        buf[sndBufferCount] := lrc;
        sndBufferCount := sndBufferCount + 1;
        sndState := TxStart;
      }
    }

    /** eMBASCIIReceive */
    method Receive() returns (f: Frame)
      requires Valid() && rcvBufferPos < SIZE_MAX
      ensures f == AsciiSpec.Receive(S())
    {
      hide Lrc;
      f := NoFrame;
      if rcvBufferPos >= SIZE_MIN {
        var lrc := LrcOf(rcvBufferPos);
        if lrc == 0 {
          f := Frame(buf[0], buf[1..rcvBufferPos - 1]);
        }
      }
    }

    /** xMBASCIITimerT1SExpired: the frame in progress is given up. */
    method TimerExpired()
      requires Valid() && rcvState != RxIdle
      modifies this`rcvState
      ensures Valid() && S() == old(S()).(rcv := RxIdle)
    {
      rcvState := RxIdle;
    }
  }
}
