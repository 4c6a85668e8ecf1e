/** Modbus ASCII transmission mode: the frame on the line (section 2.5.2 of MODBUS over Serial Line V1.02)
    and the two state machines of a station that write and read it one character at a time. */
module AsciiSpec {
  import opened Bits

  type Byte = b: nat | b < 256

  const COLON: Byte := 0x3A
  const CR: Byte := 0x0D
  const LF: Byte := 0x0A
  const SIZE_MIN := 3                    // MB_SER_PDU_SIZE_MIN
  const SIZE_MAX := 256                  // MB_SER_PDU_SIZE_MAX

  datatype RcvState = RxIdle | RxRcv | RxWaitEof

  datatype SndState = TxIdle | TxStart | TxData | TxEnd | TxNotify

  datatype BytePos = HighNibble | LowNibble

  /** A station: both machines share the nibble position and the frame buffer. */
  datatype Station = Station(rcv: RcvState, snd: SndState, buf: seq<Byte>, rcvPos: nat, pos: BytePos,
                             cur: nat, count: nat) {
    predicate Valid() { |buf| == SIZE_MAX && (rcv == RxRcv && pos == LowNibble ==> rcvPos < SIZE_MAX) }
  }

  datatype Step = Step(next: Station, out: seq<Byte>, event: bool)

  // ----- characters

  function CharToBin(c: Byte): Byte {
    if 0x30 <= c <= 0x39 then c - 0x30 else if 0x41 <= c <= 0x46 then c - 0x41 + 0x0A else 0xFF
  }

  function BinToChar(b: Byte): Byte {
    if b <= 0x09 then 0x30 + b else if b <= 0x0F then b - 0x0A + 0x41 else 0x30
  }

  function Upper(n: Byte): Byte { n * 16 % 256 }

  function Joined(a: Byte, b: Byte): Byte {
    OrBelow(a, b, 8);
    assert Pow2(8) == 256;
    Or(a, b)
  }

  function HighChar(b: Byte): Byte { BinToChar(b / 16) }

  function LowChar(b: Byte): Byte { BinToChar(b % 16) }

  // ----- the longitudinal redundancy check

  function Plus(a: Byte, b: Byte): Byte { (a + b) % 256 }

  function Sum(bs: seq<Byte>): Byte { if bs == [] then 0 else Plus(bs[0], Sum(bs[1..])) }

  function Negated(a: Byte): Byte { (256 - a) % 256 }

  /** The two's complement of the sum without carry */
  function Lrc(bs: seq<Byte>): Byte { Negated(Sum(bs)) }

  // ----- the two machines

  /** xMBASCIIReceiveFSM on one character */
  function RxStep(s: Station, c: Byte): Step
    requires s.Valid()
  {
    match s.rcv
    case RxRcv =>
      if c == COLON then Step(s.(pos := HighNibble, rcvPos := 0), [], false)
      else if c == CR then Step(s.(rcv := RxWaitEof), [], false)
      else
        var r := CharToBin(c);
        if s.pos == HighNibble then
          if s.rcvPos < SIZE_MAX then Step(s.(buf := s.buf[s.rcvPos := Upper(r)], pos := LowNibble), [], false)
          else Step(s.(rcv := RxIdle), [], false)
        else Step(s.(buf := s.buf[s.rcvPos := Joined(s.buf[s.rcvPos], r)], rcvPos := s.rcvPos + 1,
          pos := HighNibble), [], false)
    case RxWaitEof =>
      if c == LF then Step(s.(rcv := RxIdle), [], true)
      else if c == COLON then Step(s.(rcv := RxRcv, pos := HighNibble, rcvPos := 0), [], false)
      else Step(s.(rcv := RxIdle), [], false)
    case RxIdle =>
      if c == COLON then Step(s.(rcv := RxRcv, pos := HighNibble, rcvPos := 0), [], false) else Step(s, [], false)
  }

  /** xMBASCIITransmitFSM, once the last character has gone out */
  function TxStep(s: Station): Step
    requires s.Valid() && (s.snd == TxData && s.count > 0 ==> s.cur < SIZE_MAX)
  {
    match s.snd
    case TxStart => Step(s.(snd := TxData, pos := HighNibble), [COLON], false)
    case TxData =>
      if s.count == 0 then Step(s.(snd := TxEnd), [CR], false)
      else if s.pos == HighNibble then Step(s.(pos := LowNibble), [HighChar(s.buf[s.cur])], false)
      else Step(s.(pos := HighNibble, cur := s.cur + 1, count := s.count - 1), [LowChar(s.buf[s.cur])], false)
    case TxEnd => Step(s.(snd := TxNotify), [LF], false)
    case TxNotify => Step(s.(snd := TxIdle), [], true)
    case TxIdle => Step(s, [], false)
  }

  /** eMBASCIISend: the PDU of n bytes stands in the buffer behind room for the address. */
  function Send(s: Station, address: Byte, n: nat): Station
    requires s.Valid() && n + 2 <= SIZE_MAX
  {
    if s.rcv != RxIdle then s
    else
      var b := s.buf[0 := address];
      s.(buf := b[n + 1 := Lrc(b[..n + 1])], snd := TxStart, cur := 0, count := n + 2)
  }

  datatype Frame = NoFrame | Frame(address: Byte, pdu: seq<Byte>)

  /** eMBASCIIReceive */
  function Receive(s: Station): Frame
    requires s.Valid() && s.rcvPos < SIZE_MAX
  {
    if s.rcvPos >= SIZE_MIN && Lrc(s.buf[..s.rcvPos]) == 0 then Frame(s.buf[0], s.buf[1..s.rcvPos - 1]) else NoFrame
  }

  // ----- the frame on the line

  function Hex(bs: seq<Byte>): (cs: seq<Byte>)
    ensures |cs| == 2 * |bs|
  {
    if bs == [] then [] else [HighChar(bs[0]), LowChar(bs[0])] + Hex(bs[1..])
  }

  function Line(bs: seq<Byte>): seq<Byte> { [COLON] + Hex(bs) + [CR, LF] }

  /** What a receiver makes of the characters between colon and CR: two to a byte, and an odd one left over. */
  function Decoded(cs: seq<Byte>): (bs: seq<Byte>)
    ensures |bs| == |cs| / 2
  {
    if |cs| < 2 then [] else [Joined(Upper(CharToBin(cs[0])), CharToBin(cs[1]))] + Decoded(cs[2..])
  }

  predicate Plain(cs: seq<Byte>) { COLON !in cs && CR !in cs }

  /** All the transmitter puts out from here on, and how often it reports a frame sent. */
  function Sent(s: Station): (seq<Byte>, nat)
    requires s.Valid() && s.cur + s.count <= SIZE_MAX && (s.rcv == RxIdle)
    decreases s.snd == TxStart, s.snd == TxData, s.count, s.pos == HighNibble, s.snd == TxEnd, s.snd == TxNotify
  {
    if s.snd == TxIdle then ([], 0)
    else
      var t := TxStep(s);
      var (cs, n) := Sent(t.next);
      (t.out + cs, n + if t.event then 1 else 0)
  }

  /** The receiver after the characters of cs, and how often it reported a frame. */
  function Fed(s: Station, cs: seq<Byte>): (Station, nat)
    requires s.Valid()
    decreases |cs|
  {
    if cs == [] then (s, 0)
    else
      var t := RxStep(s, cs[0]);
      var (r, n) := Fed(t.next, cs[1..]);
      (r, n + if t.event then 1 else 0)
  }

  // ----- characters round trip

  lemma NibbleRoundTrip(b: Byte)
    requires b <= 0x0F
    ensures CharToBin(BinToChar(b)) == b
  {
  }

  const DIGITS := "0123456789ABCDEF"

  /** The characters on the line are the sixteen hex digits, with capital letters, and only these are read as digits. */
  lemma HexDigits(b: Byte, c: Byte)
    ensures b < 16 ==> BinToChar(b) as int == DIGITS[b] as int
    ensures CharToBin(c) < 16 ==> DIGITS[CharToBin(c)] as int == c as int
    ensures CharToBin(c) < 16 <==> exists i :: 0 <= i < 16 && DIGITS[i] as int == c as int
    ensures CharToBin(c) < 16 || CharToBin(c) == 0xFF
  {
    if CharToBin(c) < 16 { assert DIGITS[CharToBin(c)] as int == c as int; }
  }

  lemma {:induction false} OrApart(h: nat, l: nat, k: nat)
    requires l < Pow2(k)
    ensures Or(h * Pow2(k), l) == h * Pow2(k) + l
  {
    hide Or;
    OrZero(h);
    if k > 0 {
      var p := Pow2(k - 1);
      OrApart(h, l / 2, k - 1);
      Doubled(h, p);
      OrEven(h * p, l);
    }
  }

  lemma Doubled(h: nat, p: nat)
    ensures h * (2 * p) == 2 * (h * p)
  {
  }

  lemma OrEven(v: nat, l: nat)
    ensures Or(2 * v, l) == 2 * Or(v, l / 2) + l % 2
  {
    if v > 0 && l > 0 {
      var w := 2 * v;
      assert w / 2 == v && w % 2 == 0;
      OrStep(w, l);
      hide Or;
    } else {
      OrZero(v);
      OrZero(2 * v);
      OrZero(l);
      OrZero(l / 2);
      hide Or;
    }
  }

  lemma OrStep(v: nat, w: nat)
    requires v > 0 && w > 0
    ensures Or(v, w) == (if v % 2 == 1 || w % 2 == 1 then 1 else 0) + 2 * Or(v / 2, w / 2)
  {
  }

  lemma OrZero(v: nat)
    ensures Or(0, v) == v && Or(v, 0) == v
  {
  }

  lemma HalvesMakeByte(b: Byte)
    ensures Joined(Upper(b / 16), b % 16) == b
  {
    hide Pow2, Or, Upper;
    UpperIs(b / 16);
    FourDigits();
    OrApart(b / 16, b % 16, 4);
  }

  lemma UpperIs(n: Byte)
    requires n < 16
    ensures Upper(n) == n * 16
  {
  }

  lemma FourDigits()
    ensures Pow2(4) == 16
  {
  }

  lemma CharsRoundTrip(b: Byte)
    ensures Joined(Upper(CharToBin(HighChar(b))), CharToBin(LowChar(b))) == b
  {
    HalvesMakeByte(b);
    NibbleRoundTrip(b / 16);
    NibbleRoundTrip(b % 16);
    hide CharToBin, BinToChar, Upper, Joined;
  }

  /** The frame's hex is read back, and has none of its control characters in it. */
  lemma {:induction false} HexDecoded(bs: seq<Byte>)
    ensures Decoded(Hex(bs)) == bs && Plain(Hex(bs))
  {
    if bs != [] {
      CharsRoundTrip(bs[0]);
      HexIsData(bs[0] / 16);
      HexIsData(bs[0] % 16);
      hide CharToBin, BinToChar, Upper, Joined;
      HexDecoded(bs[1..]);
      assert Hex(bs)[2..] == Hex(bs[1..]);
    }
  }

  lemma HexIsData(b: Byte)
    ensures BinToChar(b) != COLON && BinToChar(b) != CR
  {
  }

  /** What stands on the line for a frame, character by character. */
  lemma LineIs(bs: seq<Byte>)
    ensures var l := Line(bs);
            && |l| == 2 * |bs| + 3 && l[0] as int == ':' as int && l[|l| - 2] == 13 && l[|l| - 1] == 10
            && forall i :: 0 <= i < |bs| ==>
                 l[2 * i + 1] as int == DIGITS[bs[i] / 16] as int && l[2 * i + 2] as int == DIGITS[bs[i] % 16] as int
  {
    hide Hex;
    forall i | 0 <= i < |bs|
      ensures Line(bs)[2 * i + 1] as int == DIGITS[bs[i] / 16] as int
      ensures Line(bs)[2 * i + 2] as int == DIGITS[bs[i] % 16] as int
    {
      HexAt(bs, i);
    }
  }

  lemma {:induction false} HexAt(bs: seq<Byte>, i: nat)
    requires i < |bs|
    ensures Hex(bs)[2 * i] as int == DIGITS[bs[i] / 16] as int
    ensures Hex(bs)[2 * i + 1] as int == DIGITS[bs[i] % 16] as int
  {
    hide BinToChar;
    if i == 0 {
      HexDigits(bs[0] / 16, 0);
      HexDigits(bs[0] % 16, 0);
    } else {
      HexAt(bs[1..], i - 1);
      assert Hex(bs) == [HighChar(bs[0]), LowChar(bs[0])] + Hex(bs[1..]);
    }
  }

  // ----- the transmitter spells the frame

  lemma {:induction false} DataSpelt(s: Station)
    requires s.Valid() && s.snd == TxData && s.pos == HighNibble && s.rcv == RxIdle && s.cur + s.count <= SIZE_MAX
    ensures Sent(s).0 == Hex(s.buf[s.cur..s.cur + s.count]) + [CR, LF] && Sent(s).1 == 1
    decreases s.count
  {
    hide HighChar, LowChar;
    if s.count == 0 {
      TailSpelt(s);
    } else {
      var t := TxStep(TxStep(s).next).next;
      var bs := s.buf[s.cur..s.cur + s.count];
      assert t == s.(cur := s.cur + 1, count := s.count - 1);
      DataSpelt(t);
      assert bs[1..] == t.buf[t.cur..t.cur + t.count];
      assert Sent(TxStep(s).next).0 == [LowChar(bs[0])] + Sent(t).0 && Sent(TxStep(s).next).1 == Sent(t).1;
      assert Sent(s).0 == [HighChar(bs[0])] + ([LowChar(bs[0])] + Sent(t).0);
    }
  }

  lemma TailSpelt(s: Station)
    requires s.Valid() && s.snd == TxData && s.count == 0 && s.rcv == RxIdle && s.cur <= SIZE_MAX
    ensures Sent(s).0 == [CR, LF] && Sent(s).1 == 1
  {
    var t := TxStep(s).next;
    var u := TxStep(t).next;
    var v := TxStep(u).next;
    assert Sent(v).0 == [] && Sent(v).1 == 0;
    assert Sent(u).0 == [] && Sent(u).1 == 1;
    assert Sent(t).0 == [LF] && Sent(t).1 == 1;
  }

  /** A frame on its way out is on the line as section 2.5.2.1 lays down, and is reported sent once. */
  lemma TransmitterSpells(s: Station, address: Byte, n: nat)
    requires s.Valid() && s.rcv == RxIdle && n + 2 <= SIZE_MAX
    ensures var t := Send(s, address, n);
            var body := [address] + s.buf[1..n + 1];
            Sent(t).0 == Line(body + [Lrc(body)]) && Sent(t).1 == 1 && t.snd == TxStart
  {
    hide Hex, Lrc;
    var t := Send(s, address, n);
    var body := [address] + s.buf[1..n + 1];
    assert s.buf[0 := address][..n + 1] == body;
    assert t.buf[0..n + 2] == body + [Lrc(body)];
    DataSpelt(TxStep(t).next);
    assert Sent(t).0 == [COLON] + Sent(TxStep(t).next).0;
  }

  // ----- the receiver reads it back

  lemma {:induction false} FedConcat(s: Station, a: seq<Byte>, b: seq<Byte>)
    requires s.Valid()
    ensures Fed(s, a).0.Valid()
    ensures var (r, n) := Fed(s, a); Fed(s, a + b) == (Fed(r, b).0, n + Fed(r, b).1)
    decreases |a|
  {
    hide RxStep;
    if a == [] {
      assert a + b == b;
    } else {
      StepValid(s, a[0]);
      FedConcat(RxStep(s, a[0]).next, a[1..], b);
      assert (a + b)[1..] == a[1..] + b && (a + b)[0] == a[0];
    }
  }

  lemma StepValid(s: Station, c: Byte)
    requires s.Valid()
    ensures RxStep(s, c).next.Valid()
  {
    hide CharToBin;
  }

  /** Whether there is room for the data characters from position p on. */
  predicate Room(p: nat, cs: seq<Byte>) { p + (|cs| + 1) / 2 <= SIZE_MAX }

  /** Two characters put one byte into the buffer. */
  lemma PairRead(s: Station, a: Byte, b: Byte)
    requires s.Valid() && s.rcv == RxRcv && s.pos == HighNibble && s.rcvPos < SIZE_MAX && Plain([a, b])
    ensures Fed(s, [a, b])
         == (s.(buf := s.buf[s.rcvPos := Joined(Upper(CharToBin(a)), CharToBin(b))], rcvPos := s.rcvPos + 1), 0)
  {
    hide CharToBin, Upper, Joined;
    assert a in [a, b] && b in [a, b];
    assert [a, b][1..] == [b] && [a, b][1..][1..] == [];
    var t := RxStep(s, a).next;
    assert t == s.(buf := s.buf[s.rcvPos := Upper(CharToBin(a))], pos := LowNibble);
    var u := RxStep(t, b).next;
    assert u.buf == s.buf[s.rcvPos := Joined(Upper(CharToBin(a)), CharToBin(b))];
    assert Fed(u, []) == (u, 0);
    assert Fed(t, [b]) == (u, 0);
  }

  lemma OddRead(s: Station, a: Byte)
    requires s.Valid() && s.rcv == RxRcv && s.pos == HighNibble && s.rcvPos < SIZE_MAX && Plain([a])
    ensures Fed(s, [a]) == (s.(buf := s.buf[s.rcvPos := Upper(CharToBin(a))], pos := LowNibble), 0)
  {
    hide CharToBin, Upper;
    assert a in [a] && [a][1..] == [];
    var t := RxStep(s, a).next;
    assert Fed(t, []) == (t, 0);
  }

  lemma {:induction false} DataRead(s: Station, cs: seq<Byte>)
    requires s.Valid() && s.rcv == RxRcv && s.pos == HighNibble && Room(s.rcvPos, cs) && Plain(cs)
    ensures var (t, n) := Fed(s, cs);
            var p := s.rcvPos + |cs| / 2;
            && n == 0 && |t.buf| == SIZE_MAX
            && t == s.(buf := t.buf, rcvPos := p, pos := if |cs| % 2 == 0 then HighNibble else LowNibble)
            && t.buf[..p] == s.buf[..s.rcvPos] + Decoded(cs)
            && (|cs| % 2 == 0 ==> t.buf[p..] == s.buf[p..])
    decreases |cs|
  {
    hide RxStep, CharToBin, Upper, Joined;
    if |cs| == 1 {
      OddRead(s, cs[0]);
      assert cs == [cs[0]];
    } else if |cs| >= 2 {
      var pair, rest := cs[..2], cs[2..];
      assert pair == [cs[0], cs[1]] && cs == pair + rest;
      assert forall c :: c in pair || c in rest ==> c in cs;
      PairRead(s, cs[0], cs[1]);
      var t := Fed(s, pair).0;
      DataRead(t, rest);
      FedConcat(s, pair, rest);
      assert t.buf[..t.rcvPos] == s.buf[..s.rcvPos] + [Joined(Upper(CharToBin(cs[0])), CharToBin(cs[1]))];
      var p := s.rcvPos + |cs| / 2;
      assert t.buf[p..] == s.buf[p..];
    }
  }

  lemma ColonStarts(s: Station)
    requires s.Valid()
    ensures Fed(s, [COLON]) == (s.(rcv := RxRcv, pos := HighNibble, rcvPos := 0), 0)
  {
    assert [COLON][1..] == [];
    assert Fed(RxStep(s, COLON).next, []) == (RxStep(s, COLON).next, 0);
  }

  lemma EndReports(s: Station)
    requires s.Valid() && s.rcv == RxRcv
    ensures Fed(s, [CR, LF]) == (s.(rcv := RxIdle), 1)
  {
    assert [CR, LF][1..] == [LF] && [LF][1..] == [];
    var t := RxStep(s, CR).next;
    assert Fed(RxStep(t, LF).next, []) == (RxStep(t, LF).next, 0);
    assert Fed(t, [LF]) == (s.(rcv := RxIdle), 1);
  }

  /** Whatever the receiver was in the middle of and whatever data characters come between colon and CR LF: up to 512
      of them are reported as one frame, in pairs, with an odd last one left out, and more are dropped. */
  lemma StreamRead(s: Station, cs: seq<Byte>)
    requires s.Valid() && Plain(cs)
    ensures var (t, n) := Fed(s, [COLON] + cs + [CR, LF]);
            && t.Valid() && t.rcv == RxIdle && n == (if |cs| <= 2 * SIZE_MAX then 1 else 0)
            && (|cs| <= 2 * SIZE_MAX ==> t.rcvPos == |cs| / 2 && t.buf[..|cs| / 2] == Decoded(cs))
            && (|cs| <= 2 * SIZE_MAX && |cs| % 2 == 0 ==> t.buf[|cs| / 2..] == s.buf[|cs| / 2..] && t.pos == HighNibble)
            && t.snd == s.snd && t.cur == s.cur && t.count == s.count
  {
    hide RxStep, Decoded;
    ColonStarts(s);
    var t := s.(rcv := RxRcv, pos := HighNibble, rcvPos := 0);
    FedConcat(s, [COLON], cs + [CR, LF]);
    FedConcat(t, cs, [CR, LF]);
    assert [COLON] + cs + [CR, LF] == [COLON] + (cs + [CR, LF]);
    if |cs| <= 2 * SIZE_MAX {
      DataRead(t, cs);
      assert t.buf[..0] == [];
      EndReports(Fed(t, cs).0);
    } else {
      TooMuchRead(t, cs);
      IdleStays(Fed(t, cs).0, [CR, LF]);
    }
  }

  lemma TooMuchRead(t: Station, cs: seq<Byte>)
    requires t.Valid() && t.rcv == RxRcv && t.pos == HighNibble && t.rcvPos == 0 && Plain(cs) && |cs| > 2 * SIZE_MAX
    ensures var (u, n) := Fed(t, cs);
            u.Valid() && u.rcv == RxIdle && n == 0 && u.snd == t.snd && u.cur == t.cur && u.count == t.count
  {
    hide CharToBin, Upper, Joined, Decoded;
    var a, b := cs[..2 * SIZE_MAX], cs[2 * SIZE_MAX..];
    assert cs == a + b;
    assert forall c :: c in a || c in b ==> c in cs;
    DataRead(t, a);
    FedConcat(t, a, b);
    var u := Fed(t, a).0;
    assert b[0] in b && forall c :: c in b[1..] ==> c in b;
    assert RxStep(u, b[0]) == Step(u.(rcv := RxIdle), [], false);
    IdleStays(u.(rcv := RxIdle), b[1..]);
  }

  /** A line that fits leaves its bytes in the buffer and is reported exactly once. */
  lemma LineRead(s: Station, bs: seq<Byte>)
    requires s.Valid() && |bs| <= SIZE_MAX
    ensures Fed(s, Line(bs)) == (s.(rcv := RxIdle, pos := HighNibble, rcvPos := |bs|, buf := bs + s.buf[|bs|..]), 1)
  {
    hide RxStep, Hex, Decoded, Fed;
    HexDecoded(bs);
    StreamRead(s, Hex(bs));
    var t := Fed(s, Line(bs)).0;
    assert t.buf == t.buf[..|bs|] + t.buf[|bs|..];
  }

  // ----- the check

  lemma {:induction false} SumConcat(a: seq<Byte>, b: seq<Byte>)
    ensures Sum(a + b) == Plus(Sum(a), Sum(b))
  {
    hide Plus;
    if a == [] {
      assert a + b == b;
      PlusZero(Sum(b));
    } else {
      assert (a + b)[1..] == a[1..] + b;
      SumConcat(a[1..], b);
      PlusAssociates(a[0], Sum(a[1..]), Sum(b));
    }
  }

  lemma PlusAssociates(x: Byte, y: Byte, z: Byte)
    ensures Plus(x, Plus(y, z)) == Plus(Plus(x, y), z)
  {
    PlusFlat(x, y, z);
    PlusFlat(z, x, y);
    PlusSwaps(z, Plus(x, y));
    hide Plus;
  }

  lemma PlusSwaps(x: Byte, y: Byte)
    ensures Plus(x, y) == Plus(y, x)
  {
  }

  lemma PlusZero(x: Byte)
    ensures Plus(0, x) == x && Plus(x, 0) == x && Plus(x, Negated(x)) == 0 && Negated(0) == 0
    ensures Negated(x) == 0 <==> x == 0
  {
  }

  lemma PlusDiffers(x: Byte, y: Byte, z: Byte, w: Byte)
    requires y != w && Plus(x, Plus(y, z)) == 0
    ensures Plus(x, Plus(w, z)) != 0
  {
    PlusFlat(x, y, z);
    PlusFlat(x, w, z);
    hide Plus;
    var a, b := x + y + z, x + w + z;
    assert a == 256 * (a / 256) + a % 256 && b == 256 * (b / 256) + b % 256;
  }

  lemma PlusFlat(x: Byte, y: Byte, z: Byte)
    ensures Plus(x, Plus(y, z)) == (x + y + z) % 256
  {
  }

  lemma LrcCloses(body: seq<Byte>)
    ensures Lrc(body + [Lrc(body)]) == 0
  {
    SumConcat(body, [Lrc(body)]);
    assert [Lrc(body)][1..] == [];
    PlusZero(Lrc(body));
    PlusZero(Sum(body));
    hide Plus, Negated;
  }

  /** A frame one byte of which was changed does not pass the check. */
  lemma LrcSeesOneByte(bs: seq<Byte>, i: nat, b: Byte)
    requires i < |bs| && Lrc(bs) == 0 && b != bs[i]
    ensures Lrc(bs[i := b]) != 0
  {
    hide Plus, Negated;
    assert bs == bs[..i] + ([bs[i]] + bs[i + 1..]);
    assert bs[i := b] == bs[..i] + ([b] + bs[i + 1..]);
    SumConcat(bs[..i], [bs[i]] + bs[i + 1..]);
    SumConcat(bs[..i], [b] + bs[i + 1..]);
    assert ([bs[i]] + bs[i + 1..])[1..] == bs[i + 1..] && ([b] + bs[i + 1..])[1..] == bs[i + 1..];
    PlusZero(Sum(bs));
    PlusZero(Sum(bs[i := b]));
    PlusDiffers(Sum(bs[..i]), bs[i], Sum(bs[i + 1..]), b);
  }

  // ----- from station to station

  /** The round trip: for every address and PDU whose frame, with its check byte, is 3 to 255 bytes long, the
      receiving station, whatever it was doing, reports one frame and reads back the same address and PDU. */
  lemma RoundTrip(s: Station, r: Station, address: Byte, n: nat)
    requires s.Valid() && s.rcv == RxIdle && r.Valid() && SIZE_MIN <= n + 2 < SIZE_MAX
    ensures var line := Sent(Send(s, address, n)).0;
            var (t, events) := Fed(r, line);
            && events == 1 && t.Valid() && t.rcvPos == n + 2 && t.rcv == RxIdle
            && Receive(t) == Frame(address, s.buf[1..n + 1])
  {
    hide Sent, Fed, Lrc, Line;
    TransmitterSpells(s, address, n);
    var body := [address] + s.buf[1..n + 1];
    var bs := body + [Lrc(body)];
    LineRead(r, bs);
    LrcCloses(body);
    var t := Fed(r, Line(bs)).0;
    assert t.buf[..n + 2] == bs;
    assert t.buf[1..n + 1] == s.buf[1..n + 1];
  }

  lemma ReceiveExactly(t: Station, bs: seq<Byte>)
    requires t.Valid() && t.rcvPos == |bs| < SIZE_MAX && t.buf[..|bs|] == bs
    ensures Receive(t) != NoFrame <==> |bs| >= SIZE_MIN && Sum(bs) == 0
    ensures Receive(t) != NoFrame ==> Receive(t) == Frame(bs[0], bs[1..|bs| - 1])
  {
    hide Sum, Negated;
    PlusZero(Sum(bs));
    if |bs| >= SIZE_MIN {
      assert t.buf[0] == bs[0];
      assert t.buf[1..|bs| - 1] == bs[1..|bs| - 1];
    }
  }

  /** Of a frame that came in, eMBASCIIReceive makes the address and PDU exactly when it is long enough and
      its bytes sum to zero; a wrong byte anywhere is refused. */
  lemma AcceptsExactly(r: Station, bs: seq<Byte>)
    requires r.Valid() && |bs| < SIZE_MAX
    ensures var t := Fed(r, Line(bs)).0;
            && t.Valid() && t.rcvPos < SIZE_MAX
            && (Receive(t) != NoFrame <==> |bs| >= SIZE_MIN && Sum(bs) == 0)
            && (Receive(t) != NoFrame ==> Receive(t) == Frame(bs[0], bs[1..|bs| - 1]))
  {
    hide Fed, Receive, Line, Sum;
    LineRead(r, bs);
    var t := Fed(r, Line(bs)).0;
    assert t.buf[..|bs|] == bs;
    ReceiveExactly(t, bs);
  }

  /** Of any data characters that are reported, hex or not, eMBASCIIReceive makes a frame exactly when they make up
      at least three bytes that sum to zero; other than hex digits count as 0xFF, and an odd last one for nothing. */
  lemma StreamAcceptedExactly(r: Station, cs: seq<Byte>)
    requires r.Valid() && Plain(cs) && |cs| / 2 < SIZE_MAX
    ensures var t, bs := Fed(r, [COLON] + cs + [CR, LF]).0, Decoded(cs);
            && t.Valid() && t.rcvPos < SIZE_MAX
            && (Receive(t) != NoFrame <==> |bs| >= SIZE_MIN && Sum(bs) == 0)
            && (Receive(t) != NoFrame ==> Receive(t) == Frame(bs[0], bs[1..|bs| - 1]))
  {
    hide Fed, Receive, Sum, Decoded, Plain;
    StreamRead(r, cs);
    ReceiveExactly(Fed(r, [COLON] + cs + [CR, LF]).0, Decoded(cs));
  }

  /** What is reported satisfies the assertion at the head of eMBASCIIReceive, that the frame is shorter than 256
      bytes, exactly when it is not 512 characters long. */
  lemma AssertionExactly(r: Station, cs: seq<Byte>)
    requires r.Valid() && Plain(cs) && Fed(r, [COLON] + cs + [CR, LF]).1 == 1
    ensures Fed(r, [COLON] + cs + [CR, LF]).0.rcvPos < SIZE_MAX <==> |cs| != 2 * SIZE_MAX
  {
    hide Fed, Decoded, Plain;
    StreamRead(r, cs);
  }

  /** So a frame of 256 bytes is reported and fails it, and one longer than the buffer is dropped without a report. */
  lemma LongestFrames(r: Station, bs: seq<Byte>)
    requires r.Valid()
    ensures Fed(r, Line(bs)).1 == (if |bs| <= SIZE_MAX then 1 else 0) && Fed(r, Line(bs)).0.rcv == RxIdle
    ensures |bs| <= SIZE_MAX ==> (Fed(r, Line(bs)).0.rcvPos < SIZE_MAX <==> |bs| != SIZE_MAX)
  {
    hide Fed, Decoded, Hex, Plain;
    HexDecoded(bs);
    StreamRead(r, Hex(bs));
  }

  lemma {:induction false} IdleStays(s: Station, cs: seq<Byte>)
    requires s.Valid() && s.rcv == RxIdle && forall c :: c in cs ==> c != COLON
    ensures Fed(s, cs) == (s, 0)
    decreases |cs|
  {
    if cs != [] {
      assert forall c :: c in cs[1..] ==> c in cs;
      assert cs[0] in cs;
      IdleStays(s, cs[1..]);
    }
  }
}
