/** The CRC16 behind key slots: the table-driven loop is division by 0x1021, linear, and self-checking. */
module Crc {
  import opened CrcRegister

  // ----- the table, sixteen entries a row

  const ROW0: seq<bv16> :=
    [0x0000, 0x1021, 0x2042, 0x3063, 0x4084, 0x50a5, 0x60c6, 0x70e7,
     0x8108, 0x9129, 0xa14a, 0xb16b, 0xc18c, 0xd1ad, 0xe1ce, 0xf1ef]
  const ROW1: seq<bv16> :=
    [0x1231, 0x0210, 0x3273, 0x2252, 0x52b5, 0x4294, 0x72f7, 0x62d6,
     0x9339, 0x8318, 0xb37b, 0xa35a, 0xd3bd, 0xc39c, 0xf3ff, 0xe3de]
  const ROW2: seq<bv16> :=
    [0x2462, 0x3443, 0x0420, 0x1401, 0x64e6, 0x74c7, 0x44a4, 0x5485,
     0xa56a, 0xb54b, 0x8528, 0x9509, 0xe5ee, 0xf5cf, 0xc5ac, 0xd58d]
  const ROW3: seq<bv16> :=
    [0x3653, 0x2672, 0x1611, 0x0630, 0x76d7, 0x66f6, 0x5695, 0x46b4,
     0xb75b, 0xa77a, 0x9719, 0x8738, 0xf7df, 0xe7fe, 0xd79d, 0xc7bc]
  const ROW4: seq<bv16> :=
    [0x48c4, 0x58e5, 0x6886, 0x78a7, 0x0840, 0x1861, 0x2802, 0x3823,
     0xc9cc, 0xd9ed, 0xe98e, 0xf9af, 0x8948, 0x9969, 0xa90a, 0xb92b]
  const ROW5: seq<bv16> :=
    [0x5af5, 0x4ad4, 0x7ab7, 0x6a96, 0x1a71, 0x0a50, 0x3a33, 0x2a12,
     0xdbfd, 0xcbdc, 0xfbbf, 0xeb9e, 0x9b79, 0x8b58, 0xbb3b, 0xab1a]
  const ROW6: seq<bv16> :=
    [0x6ca6, 0x7c87, 0x4ce4, 0x5cc5, 0x2c22, 0x3c03, 0x0c60, 0x1c41,
     0xedae, 0xfd8f, 0xcdec, 0xddcd, 0xad2a, 0xbd0b, 0x8d68, 0x9d49]
  const ROW7: seq<bv16> :=
    [0x7e97, 0x6eb6, 0x5ed5, 0x4ef4, 0x3e13, 0x2e32, 0x1e51, 0x0e70,
     0xff9f, 0xefbe, 0xdfdd, 0xcffc, 0xbf1b, 0xaf3a, 0x9f59, 0x8f78]
  const ROW8: seq<bv16> :=
    [0x9188, 0x81a9, 0xb1ca, 0xa1eb, 0xd10c, 0xc12d, 0xf14e, 0xe16f,
     0x1080, 0x00a1, 0x30c2, 0x20e3, 0x5004, 0x4025, 0x7046, 0x6067]
  const ROW9: seq<bv16> :=
    [0x83b9, 0x9398, 0xa3fb, 0xb3da, 0xc33d, 0xd31c, 0xe37f, 0xf35e,
     0x02b1, 0x1290, 0x22f3, 0x32d2, 0x4235, 0x5214, 0x6277, 0x7256]
  const ROW10: seq<bv16> :=
    [0xb5ea, 0xa5cb, 0x95a8, 0x8589, 0xf56e, 0xe54f, 0xd52c, 0xc50d,
     0x34e2, 0x24c3, 0x14a0, 0x0481, 0x7466, 0x6447, 0x5424, 0x4405]
  const ROW11: seq<bv16> :=
    [0xa7db, 0xb7fa, 0x8799, 0x97b8, 0xe75f, 0xf77e, 0xc71d, 0xd73c,
     0x26d3, 0x36f2, 0x0691, 0x16b0, 0x6657, 0x7676, 0x4615, 0x5634]
  const ROW12: seq<bv16> :=
    [0xd94c, 0xc96d, 0xf90e, 0xe92f, 0x99c8, 0x89e9, 0xb98a, 0xa9ab,
     0x5844, 0x4865, 0x7806, 0x6827, 0x18c0, 0x08e1, 0x3882, 0x28a3]
  const ROW13: seq<bv16> :=
    [0xcb7d, 0xdb5c, 0xeb3f, 0xfb1e, 0x8bf9, 0x9bd8, 0xabbb, 0xbb9a,
     0x4a75, 0x5a54, 0x6a37, 0x7a16, 0x0af1, 0x1ad0, 0x2ab3, 0x3a92]
  const ROW14: seq<bv16> :=
    [0xfd2e, 0xed0f, 0xdd6c, 0xcd4d, 0xbdaa, 0xad8b, 0x9de8, 0x8dc9,
     0x7c26, 0x6c07, 0x5c64, 0x4c45, 0x3ca2, 0x2c83, 0x1ce0, 0x0cc1]
  const ROW15: seq<bv16> :=
    [0xef1f, 0xff3e, 0xcf5d, 0xdf7c, 0xaf9b, 0xbfba, 0x8fd9, 0x9ff8,
     0x6e17, 0x7e36, 0x4e55, 0x5e74, 0x2e93, 0x3eb2, 0x0ed1, 0x1ef0]

  function Row(i: nat): (row: seq<bv16>)
    requires i < 16
    ensures |row| == 16
  {
    match i
    case 0 => ROW0
    case 1 => ROW1
    case 2 => ROW2
    case 3 => ROW3
    case 4 => ROW4
    case 5 => ROW5
    case 6 => ROW6
    case 7 => ROW7
    case 8 => ROW8
    case 9 => ROW9
    case 10 => ROW10
    case 11 => ROW11
    case 12 => ROW12
    case 13 => ROW13
    case 14 => ROW14
    case 15 => ROW15
  }

  function Table(b: byte): bv16 {
    Row((b >> 4) as nat)[(b & 15) as nat]
  }

  function High(b: byte): bv16 { (b as bv16) << 8 }

  function Hi(c: bv16): byte { (c >> 8) as byte }

  lemma TableIsShift8(b: byte)
    ensures Table(b) == Shift8(High(b))
  {
    var r, k := (b >> 4) as nat, (b & 15) as nat;
    assert r < 16 && k < 16;
  }

  // ----- the loop of the source

  function Step(crc: bv16, b: byte): bv16 {
    Xor(crc << 8, Table(Xor8(Hi(crc), b)))
  }

  function CrcFrom(crc: bv16, buf: seq<byte>): bv16
    decreases |buf|
  {
    if buf == [] then crc else CrcFrom(Step(crc, buf[0]), buf[1..])
  }

  function Crc16(buf: seq<byte>): bv16 { CrcFrom(0, buf) }

  method ComputeCrc16(buf: seq<byte>) returns (crc: bv16)
    ensures crc == Crc16(buf)
  {
    crc := 0;
    var counter := 0;
    while counter < |buf|
      invariant 0 <= counter <= |buf| && CrcFrom(crc, buf[counter..]) == Crc16(buf)
    {
      assert buf[counter..][1..] == buf[counter + 1..];
      crc := Step(crc, buf[counter]);
      counter := counter + 1;
    }
  }

  lemma {:induction false} CrcAppend(crc: bv16, a: seq<byte>, b: seq<byte>)
    ensures CrcFrom(crc, a + b) == CrcFrom(CrcFrom(crc, a), b)
    decreases |a|
  {
    if a == [] {
      assert a + b == b;
    } else {
      assert (a + b)[0] == a[0] && (a + b)[1..] == a[1..] + b;
      CrcAppend(Step(crc, a[0]), a[1..], b);
    }
  }

  // ----- the loop divides

  lemma SplitRegister(crc: bv16, b: byte)
    ensures Xor(crc, High(b)) == Xor(crc & 0xFF, High(Xor8(Hi(crc), b)))
    ensures crc << 8 == (crc & 0xFF) << 8 && (crc & 0xFF) & 0xFF00 == 0
  {
  }

  /** One table step is eight steps of division with the byte on top of the register. */
  lemma StepIsShifts(crc: bv16, b: byte)
    ensures Step(crc, b) == Shifts(Xor(crc, High(b)), 8)
  {
    hide Table, Shift, Shift8, Shifts, High, Hi, Xor, Xor8;
    var top, low := Xor8(Hi(crc), b), crc & 0xFF;
    SplitRegister(crc, b);
    TableIsShift8(top);
    ShiftsEight(High(top));
    ShiftsLinear(low, High(top), 8);
    ShiftsLow(low);
  }

  function Bits8(b: byte): (r: seq<bv16>)
    ensures |r| == 8
  {
    TopBits(High(b), 8)
  }

  function BitsOf(buf: seq<byte>): seq<bv16> {
    if buf == [] then [] else Bits8(buf[0]) + BitsOf(buf[1..])
  }

  lemma {:induction false} FeedAppend(c: bv16, a: seq<bv16>, b: seq<bv16>)
    ensures FeedAll(c, a + b) == FeedAll(FeedAll(c, a), b)
    decreases |a|
  {
    if a == [] {
      assert a + b == b;
    } else {
      assert (a + b)[0] == a[0] && (a + b)[1..] == a[1..] + b;
      FeedAppend(Feed(c, a[0]), a[1..], b);
    }
  }

  lemma ByteLeavesNothing(b: byte)
    ensures Ups(High(b), 8) == 0
  {
    var u := High(b);
    var two := Up(Up(u));
    var four := Up(Up(two));
    var six := Up(Up(four));
    assert Ups(u, 8) == Ups(two, 6);
    assert Ups(two, 6) == Ups(four, 4);
    assert Ups(four, 4) == Ups(six, 2) == Up(Up(six));
  }

  lemma XorNothing(c: bv16)
    ensures Xor(c, 0) == c
  {
  }

  /** For every byte string the table-driven loop is bit-by-bit division. */
  lemma {:induction false} LoopDivides(crc: bv16, buf: seq<byte>)
    ensures CrcFrom(crc, buf) == FeedAll(crc, BitsOf(buf))
    decreases |buf|
  {
    hide Step, Shifts, High, Feed, TopBits, Ups, Xor;
    if buf != [] {
      var b := buf[0];
      StepIsShifts(crc, b);
      FeedBits(crc, High(b), 8);
      XorNothing(FeedAll(crc, Bits8(b)));
      ByteLeavesNothing(b);
      FeedAppend(crc, Bits8(b), BitsOf(buf[1..]));
      LoopDivides(Step(crc, b), buf[1..]);
    }
  }

  /** The checksum is the remainder of the message's bits, divided from an empty register. */
  lemma ChecksumDivides(buf: seq<byte>)
    ensures Crc16(buf) == FeedAll(0, BitsOf(buf))
  {
    LoopDivides(0, buf);
  }

  lemma StepsTo(c: bv16, b: byte, rest: seq<byte>)
    ensures CrcFrom(c, [b] + rest) == CrcFrom(Step(c, b), rest)
  {
    assert ([b] + rest)[0] == b && ([b] + rest)[1..] == rest;
  }

  /** The check value of this CRC: that of the digits 1 to 9. */
  lemma CheckValue()
    ensures Crc16([0x31, 0x32, 0x33, 0x34, 0x35, 0x36, 0x37, 0x38, 0x39]) == 0x31C3
  {
    FirstDigits();
    LastDigits();
    hide Step, CrcFrom;
    CrcAppend(0, [0x31, 0x32, 0x33, 0x34, 0x35], [0x36, 0x37, 0x38, 0x39]);
    assert [0x31 as byte, 0x32, 0x33, 0x34, 0x35] + [0x36, 0x37, 0x38, 0x39]
        == [0x31, 0x32, 0x33, 0x34, 0x35, 0x36, 0x37, 0x38, 0x39];
  }

  lemma FirstDigits()
    ensures CrcFrom(0, [0x31, 0x32, 0x33, 0x34, 0x35]) == 0x546C
  {
    assert Step(0, 0x31) == 0x2672 && Step(0x2672, 0x32) == 0x20B5 && Step(0x20B5, 0x33) == 0x9752;
    assert Step(0x9752, 0x34) == 0xD789 && Step(0xD789, 0x35) == 0x546C;
    hide Step;
    StepsTo(0xD789, 0x35, []);
    StepsTo(0x9752, 0x34, [0x35]);
    StepsTo(0x20B5, 0x33, [0x34, 0x35]);
    StepsTo(0x2672, 0x32, [0x33, 0x34, 0x35]);
    StepsTo(0, 0x31, [0x32, 0x33, 0x34, 0x35]);
  }

  lemma LastDigits()
    ensures CrcFrom(0x546C, [0x36, 0x37, 0x38, 0x39]) == 0x31C3
  {
    assert Step(0x546C, 0x36) == 0x20E4 && Step(0x20E4, 0x37) == 0x86D6;
    assert Step(0x86D6, 0x38) == 0x9015 && Step(0x9015, 0x39) == 0x31C3;
    hide Step;
    StepsTo(0x9015, 0x39, []);
    StepsTo(0x86D6, 0x38, [0x39]);
    StepsTo(0x20E4, 0x37, [0x38, 0x39]);
    StepsTo(0x546C, 0x36, [0x37, 0x38, 0x39]);
  }

  // ----- linear, and self-checking

  function XorBytes(a: seq<byte>, b: seq<byte>): seq<byte>
    requires |a| == |b|
  {
    if a == [] then [] else [Xor8(a[0], b[0])] + XorBytes(a[1..], b[1..])
  }

  lemma XorTops(c: bv16, d: bv16, a: byte, b: byte)
    ensures Xor(Xor(c, d), High(Xor8(a, b))) == Xor(Xor(c, High(a)), Xor(d, High(b)))
  {
  }

  lemma StepLinear(c: bv16, d: bv16, a: byte, b: byte)
    ensures Step(Xor(c, d), Xor8(a, b)) == Xor(Step(c, a), Step(d, b))
  {
    hide Step, Shifts, High, Xor, Xor8;
    StepIsShifts(c, a);
    StepIsShifts(d, b);
    StepIsShifts(Xor(c, d), Xor8(a, b));
    XorTops(c, d, a, b);
    ShiftsLinear(Xor(c, High(a)), Xor(d, High(b)), 8);
  }

  /** On strings of one length the CRC is linear. */
  lemma {:induction false} CrcLinear(c: bv16, d: bv16, x: seq<byte>, y: seq<byte>)
    requires |x| == |y|
    ensures CrcFrom(Xor(c, d), XorBytes(x, y)) == Xor(CrcFrom(c, x), CrcFrom(d, y))
    decreases |x|
  {
    hide Step, Xor, Xor8;
    if x != [] {
      StepLinear(c, d, x[0], y[0]);
      CrcLinear(Step(c, x[0]), Step(d, y[0]), x[1..], y[1..]);
      assert XorBytes(x, y)[1..] == XorBytes(x[1..], y[1..]);
    }
  }

  function Lo(c: bv16): byte { (c & 0xFF) as byte }

  lemma TwoStepsClear(c: bv16)
    ensures Step(Step(c, Hi(c)), Lo(c)) == 0
  {
    assert Table(0) == 0;
    assert Xor8(Hi(c), Hi(c)) == 0 && Step(c, Hi(c)) == c << 8;
    assert Xor8(Hi(c << 8), Lo(c)) == 0 && (c << 8) << 8 == 0;
  }

  /** A message followed by its own CRC, high byte first, has CRC 0. */
  lemma SelfCheck(buf: seq<byte>)
    ensures Crc16(buf + [Hi(Crc16(buf)), Lo(Crc16(buf))]) == 0
  {
    hide Step, Hi, Lo;
    var c := Crc16(buf);
    CrcAppend(0, buf, [Hi(c), Lo(c)]);
    assert [Hi(c), Lo(c)][1..] == [Lo(c)] && [Lo(c)][1..] == [];
    assert CrcFrom(c, [Hi(c), Lo(c)]) == CrcFrom(Step(c, Hi(c)), [Lo(c)]);
    TwoStepsClear(c);
  }
}
