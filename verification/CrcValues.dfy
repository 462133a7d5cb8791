/** Checksums of concrete messages, the check value of the standard among them. */
module CrcValues {
  import opened Bytes
  import opened Crc
  import opened CrcMeaning
  import opened Frames

  function XorNibble(a: nat, b: nat): nat {
    (if a % 2 == b % 2 then 0 else 1) + (if a / 2 % 2 == b / 2 % 2 then 0 else 2)
    + (if a / 4 % 2 == b / 4 % 2 then 0 else 4) + (if a / 8 % 2 == b / 8 % 2 then 0 else 8)
  }

  lemma Halves(a: nat)
    ensures a / 2 / 2 == a / 4 && a / 4 / 2 == a / 8 && a / 8 / 2 == a / 16
  {
  }

  lemma XorByNibble(a: nat, b: nat, width: nat)
    ensures Xor(a, b, width + 4) == XorNibble(a, b) + 16 * Xor(a / 16, b / 16, width)
  {
    hide Xor;
    Halves(a);
    Halves(b);
    XorStep(a, b, width + 4);
    XorStep(a / 2, b / 2, width + 3);
    XorStep(a / 4, b / 4, width + 2);
    XorStep(a / 8, b / 8, width + 1);
  }

  lemma XorByteValue(a: byte, b: byte)
    ensures Xor8(a, b) == XorNibble(a, b) + 16 * XorNibble(a / 16, b / 16)
  {
    hide XorNibble;
    XorByNibble(a, b, 4);
    XorByNibble(a / 16, b / 16, 0);
  }

  lemma Nibble(a: nat)
    ensures a % 16 == a % 2 + 2 * (a / 2 % 2) + 4 * (a / 4 % 2) + 8 * (a / 8 % 2)
  {
    Halves(a);
    var h, q, e, s := a / 2, a / 4, a / 8, a / 16;
    assert a == 2 * h + a % 2;
    assert h == 2 * q + h % 2;
    assert q == 2 * e + q % 2;
    assert e == 2 * s + e % 2;
    assert a == 16 * s + a % 16;
  }

  lemma XorNibbleValue(a: nat)
    ensures XorNibble(a, 0) == a % 16
    ensures XorNibble(a, 1) == a % 16 + (if a % 2 == 0 then 1 else -1)
    ensures XorNibble(a, 2) == a % 16 + (if a / 2 % 2 == 0 then 2 else -2)
  {
    Nibble(a);
  }

  lemma NibbleOfPolynomial(a: nat)
    ensures XorNibble(a, 0x1021) == XorNibble(a, 1)
    ensures XorNibble(a, 0x102) == XorNibble(a, 2)
    ensures XorNibble(a, 0x10) == XorNibble(a, 0)
  {
    hide XorNibble;
    SameNibble(a, 0x1021, 1);
    SameNibble(a, 0x102, 2);
    SameNibble(a, 0x10, 0);
  }

  lemma SameNibble(a: nat, b: nat, c: nat)
    requires b % 2 == c % 2 && b / 2 % 2 == c / 2 % 2 && b / 4 % 2 == c / 4 % 2 && b / 8 % 2 == c / 8 % 2
    ensures XorNibble(a, b) == XorNibble(a, c)
  {
  }

  lemma XorByWord(x: nat, q1: nat, q2: nat, q3: nat)
    requires q1 == x / 16 && q2 == q1 / 16 && q3 == q2 / 16 < 16
    ensures Xor(x, 0x1021, 16) == XorNibble(x, 1) + 16 * (XorNibble(q1, 2) + 16 * (XorNibble(q2, 0) + 16 * XorNibble(q3, 1)))
  {
    hide Xor, XorNibble;
    XorByNibble(x, 0x1021, 12);
    XorByNibble(q1, 0x102, 8);
    XorByNibble(q2, 0x10, 4);
    XorByNibble(q3, 0x1, 0);
    XorEmpty(q3 / 16, 0);
    NibbleOfPolynomial(x);
    NibbleOfPolynomial(q1);
    NibbleOfPolynomial(q2);
  }

  lemma XorEmpty(a: nat, b: nat)
    ensures Xor(a, b, 0) == 0
  {
  }

  function Flip(x: nat, value: int): int { if x % 2 == 0 then value else -value }

  lemma Quotients(x: nat)
    requires x < 0x1_0000
    ensures x / 16 / 16 / 16 < 16
    ensures x == x % 16 + 16 * (x / 16 % 16 + 16 * (x / 16 / 16 % 16 + 16 * (x / 16 / 16 / 16 % 16)))
  {
    var q1 := x / 16;
    var q2 := q1 / 16;
    var q3 := q2 / 16;
    assert x == 16 * q1 + x % 16;
    assert q1 == 16 * q2 + q1 % 16;
    assert q2 == 16 * q3 + q2 % 16;
    assert q3 < 16;
  }

  // Adding the polynomial flips the digits 12, 5 and 0.
  lemma FeedbackValue(x: u16)
    ensures Xor16(x, 0x1021) == x + Flip(x, 1) + Flip(x / 16 / 2, 0x20) + Flip(x / 16 / 16 / 16, 0x1000)
  {
    hide Xor, XorNibble;
    Quotients(x);
    var q1 := x / 16;
    var q2 := q1 / 16;
    var q3 := q2 / 16;
    XorByWord(x, q1, q2, q3);
    XorNibbleValue(x);
    XorNibbleValue(q1);
    XorNibbleValue(q2);
    XorNibbleValue(q3);
  }

  function ShiftSum(x: u16): int {
    if x < 0x8000 then 2 * x
    else
      var y := 2 * x - 0x1_0000;
      y + Flip(y, 1) + Flip(y / 16 / 2, 0x20) + Flip(y / 16 / 16 / 16, 0x1000)
  }

  lemma ShiftValue(x: u16)
    ensures Shift(x) == ShiftSum(x)
  {
    hide Xor;
    if x >= 0x8000 {
      FeedbackValue(2 * x - 0x1_0000);
    }
  }

  // Shifts, by their values

  lemma FourShifts(a: u16, b: u16, c: u16, d: u16, e: u16, k: nat)
    requires b == ShiftSum(a) && c == ShiftSum(b) && d == ShiftSum(c) && e == ShiftSum(d)
    ensures Shifted(a, k + 4) == Shifted(e, k)
  {
    hide Shift, ShiftSum;
    ShiftValue(a);
    ShiftValue(b);
    ShiftValue(c);
    ShiftValue(d);
    assert Shifted(a, k + 4) == Shifted(b, k + 3) == Shifted(c, k + 2) == Shifted(d, k + 1) == Shifted(e, k);
  }

  lemma EightShifts(a: u16, b: u16, c: u16, d: u16, e: u16, f: u16, g: u16, h: u16, i: u16)
    requires b == ShiftSum(a) && c == ShiftSum(b) && d == ShiftSum(c) && e == ShiftSum(d)
    requires f == ShiftSum(e) && g == ShiftSum(f) && h == ShiftSum(g) && i == ShiftSum(h)
    ensures Shifted(a, 8) == i
  {
    hide ShiftSum;
    FourShifts(a, b, c, d, e, 4);
    FourShifts(e, f, g, h, i, 0);
  }

  lemma ByteValue(reg: u16, b: byte, rest: seq<byte>, r: u16)
    requires Shifted(0x100 * (XorNibble(Hi(reg), b) + 16 * XorNibble(Hi(reg) / 16, b / 16)) + Lo(reg), 8) == r
    ensures Feed(reg, [b] + rest) == Feed(r, rest)
  {
    hide Shift, Xor, XorNibble;
    XorByteValue(Hi(reg), b);
    assert ([b] + rest)[1..] == rest;
    ShiftsFeed(0x100 * Xor8(Hi(reg), b) + Lo(reg), 8, rest);
  }

  lemma FeedNothing(reg: u16)
    ensures Feed(reg, []) == reg
  {
  }

  lemma Check1(rest: seq<byte>)
    ensures Feed(0xffff, [0x31] + rest) == Feed(0xc782, rest)
  {
    hide Shifted, Feed;
    Check1Shifts();
    ByteValue(0xffff, 0x31, rest, 0xc782);
  }

  lemma Check1Shifts()
    ensures Shifted(0xceff, 8) == 0xc782
  {
    hide Shifted;
    EightShifts(0xceff, 0x8ddf, 0x0b9f, 0x173e, 0x2e7c, 0x5cf8, 0xb9f0, 0x63c1, 0xc782);
  }

  lemma Check2(rest: seq<byte>)
    ensures Feed(0xc782, [0x32] + rest) == Feed(0x3dba, rest)
  {
    hide Shifted, Feed;
    Check2Shifts();
    ByteValue(0xc782, 0x32, rest, 0x3dba);
  }

  lemma Check2Shifts()
    ensures Shifted(0xf582, 8) == 0x3dba
  {
    hide Shifted;
    Check2FirstShifts();
    FourShifts(0xa9cf, 0x43bf, 0x877e, 0x1edd, 0x3dba, 0);
    assert Shifted(0x3dba, 0) == 0x3dba by { NoShift(0x3dba); }
  }

  lemma Check2FirstShifts()
    ensures Shifted(0xf582, 8) == Shifted(0xa9cf, 4)
  {
    hide Shifted;
    FourShifts(0xf582, 0xfb25, 0xe66b, 0xdcf7, 0xa9cf, 4);
  }

  lemma NoShift(x: u16)
    ensures Shifted(x, 0) == x
  {
  }

  lemma Check3(rest: seq<byte>)
    ensures Feed(0x3dba, [0x33] + rest) == Feed(0x5bce, rest)
  {
    hide Shifted, Feed;
    Check3Shifts();
    ByteValue(0x3dba, 0x33, rest, 0x5bce);
  }

  lemma Check3Shifts()
    ensures Shifted(0x0eba, 8) == 0x5bce
  {
    hide Shifted;
    EightShifts(0x0eba, 0x1d74, 0x3ae8, 0x75d0, 0xeba0, 0xc761, 0x9ee3, 0x2de7, 0x5bce);
  }

  lemma Check4(rest: seq<byte>)
    ensures Feed(0x5bce, [0x34] + rest) == Feed(0x5349, rest)
  {
    hide Shifted, Feed;
    Check4Shifts();
    ByteValue(0x5bce, 0x34, rest, 0x5349);
  }

  lemma Check4Shifts()
    ensures Shifted(0x6fce, 8) == 0x5349
  {
    hide Shifted;
    EightShifts(0x6fce, 0xdf9c, 0xaf19, 0x4e13, 0x9c26, 0x286d, 0x50da, 0xa1b4, 0x5349);
  }

  lemma Check5(rest: seq<byte>)
    ensures Feed(0x5349, [0x35] + rest) == Feed(0x4560, rest)
  {
    hide Shifted, Feed;
    Check5Shifts();
    ByteValue(0x5349, 0x35, rest, 0x4560);
  }

  lemma Check5Shifts()
    ensures Shifted(0x6649, 8) == 0x4560
  {
    hide Shifted;
    EightShifts(0x6649, 0xcc92, 0x8905, 0x022b, 0x0456, 0x08ac, 0x1158, 0x22b0, 0x4560);
  }

  lemma Check6(rest: seq<byte>)
    ensures Feed(0x4560, [0x36] + rest) == Feed(0x2ef4, rest)
  {
    hide Shifted, Feed;
    Check6Shifts();
    ByteValue(0x4560, 0x36, rest, 0x2ef4);
  }

  lemma Check6Shifts()
    ensures Shifted(0x7360, 8) == 0x2ef4
  {
    hide Shifted;
    EightShifts(0x7360, 0xe6c0, 0xdda1, 0xab63, 0x46e7, 0x8dce, 0x0bbd, 0x177a, 0x2ef4);
  }

  lemma Check7(rest: seq<byte>)
    ensures Feed(0x2ef4, [0x37] + rest) == Feed(0x7718, rest)
  {
    hide Shifted, Feed;
    Check7Shifts();
    ByteValue(0x2ef4, 0x37, rest, 0x7718);
  }

  lemma Check7Shifts()
    ensures Shifted(0x19f4, 8) == 0x7718
  {
    hide Shifted;
    EightShifts(0x19f4, 0x33e8, 0x67d0, 0xcfa0, 0x8f61, 0x0ee3, 0x1dc6, 0x3b8c, 0x7718);
  }

  lemma Check8(rest: seq<byte>)
    ensures Feed(0x7718, [0x38] + rest) == Feed(0xa12b, rest)
  {
    hide Shifted, Feed;
    Check8Shifts();
    ByteValue(0x7718, 0x38, rest, 0xa12b);
  }

  lemma Check8Shifts()
    ensures Shifted(0x4f18, 8) == 0xa12b
  {
    hide Shifted;
    EightShifts(0x4f18, 0x9e30, 0x2c41, 0x5882, 0xb104, 0x7229, 0xe452, 0xd885, 0xa12b);
  }

  lemma Check9(rest: seq<byte>)
    ensures Feed(0xa12b, [0x39] + rest) == Feed(0x29b1, rest)
  {
    hide Shifted, Feed;
    Check9Shifts();
    ByteValue(0xa12b, 0x39, rest, 0x29b1);
  }

  lemma Check9Shifts()
    ensures Shifted(0x982b, 8) == 0x29b1
  {
    hide Shifted;
    EightShifts(0x982b, 0x2077, 0x40ee, 0x81dc, 0x1399, 0x2732, 0x4e64, 0x9cc8, 0x29b1);
  }

  /** The check value of CRC-CCITT-FALSE: that of the nine bytes "123456789". */
  lemma CheckValue()
    ensures Crc16([0x31, 0x32, 0x33, 0x34, 0x35, 0x36, 0x37, 0x38, 0x39]) == 0x29b1
  {
    hide Feed;
    Check1([0x32, 0x33, 0x34, 0x35, 0x36, 0x37, 0x38, 0x39]);
    assert [0x31] + [0x32, 0x33, 0x34, 0x35, 0x36, 0x37, 0x38, 0x39] == [0x31, 0x32, 0x33, 0x34, 0x35, 0x36, 0x37, 0x38, 0x39];
    Check2([0x33, 0x34, 0x35, 0x36, 0x37, 0x38, 0x39]);
    assert [0x32] + [0x33, 0x34, 0x35, 0x36, 0x37, 0x38, 0x39] == [0x32, 0x33, 0x34, 0x35, 0x36, 0x37, 0x38, 0x39];
    Check3([0x34, 0x35, 0x36, 0x37, 0x38, 0x39]);
    assert [0x33] + [0x34, 0x35, 0x36, 0x37, 0x38, 0x39] == [0x33, 0x34, 0x35, 0x36, 0x37, 0x38, 0x39];
    Check4([0x35, 0x36, 0x37, 0x38, 0x39]);
    assert [0x34] + [0x35, 0x36, 0x37, 0x38, 0x39] == [0x34, 0x35, 0x36, 0x37, 0x38, 0x39];
    Check5([0x36, 0x37, 0x38, 0x39]);
    assert [0x35] + [0x36, 0x37, 0x38, 0x39] == [0x35, 0x36, 0x37, 0x38, 0x39];
    Check6([0x37, 0x38, 0x39]);
    assert [0x36] + [0x37, 0x38, 0x39] == [0x36, 0x37, 0x38, 0x39];
    Check7([0x38, 0x39]);
    assert [0x37] + [0x38, 0x39] == [0x37, 0x38, 0x39];
    Check8([0x39]);
    assert [0x38] + [0x39] == [0x38, 0x39];
    Check9([]);
    assert [0x39] + [] == [0x39];
    FeedNothing(0x29b1);
  }

  lemma Ack1(rest: seq<byte>)
    ensures Feed(0xffff, [0x40] + rest) == Feed(0xa934, rest)
  {
    hide Shifted, Feed;
    Ack1Shifts();
    ByteValue(0xffff, 0x40, rest, 0xa934);
  }

  lemma Ack1Shifts()
    ensures Shifted(0xbfff, 8) == 0xa934
  {
    hide Shifted;
    EightShifts(0xbfff, 0x6fdf, 0xdfbe, 0xaf5d, 0x4e9b, 0x9d36, 0x2a4d, 0x549a, 0xa934);
  }

  lemma Ack2(rest: seq<byte>)
    ensures Feed(0xa934, [0x00] + rest) == Feed(0x10c3, rest)
  {
    hide Shifted, Feed;
    Ack2Shifts();
    ByteValue(0xa934, 0x00, rest, 0x10c3);
  }

  lemma Ack2Shifts()
    ensures Shifted(0xa934, 8) == 0x10c3
  {
    hide Shifted;
    EightShifts(0xa934, 0x4249, 0x8492, 0x1905, 0x320a, 0x6414, 0xc828, 0x8071, 0x10c3);
  }

  lemma Ack3(rest: seq<byte>)
    ensures Feed(0x10c3, [0x00] + rest) == Feed(0xd131, rest)
  {
    hide Shifted, Feed;
    Ack3Shifts();
    ByteValue(0x10c3, 0x00, rest, 0xd131);
  }

  lemma Ack3Shifts()
    ensures Shifted(0x10c3, 8) == 0xd131
  {
    hide Shifted;
    EightShifts(0x10c3, 0x2186, 0x430c, 0x8618, 0x1c11, 0x3822, 0x7044, 0xe088, 0xd131);
  }

  lemma Ack4(rest: seq<byte>)
    ensures Feed(0xd131, [0x00] + rest) == Feed(0xea5c, rest)
  {
    hide Shifted, Feed;
    Ack4Shifts();
    ByteValue(0xd131, 0x00, rest, 0xea5c);
  }

  lemma Ack4Shifts()
    ensures Shifted(0xd131, 8) == 0xea5c
  {
    hide Shifted;
    Ack4FirstShifts();
    FourShifts(0xc2bd, 0x955b, 0x3a97, 0x752e, 0xea5c, 0);
    assert Shifted(0xea5c, 0) == 0xea5c by { NoShift(0xea5c); }
  }

  lemma Ack4FirstShifts()
    ensures Shifted(0xd131, 8) == Shifted(0xc2bd, 4)
  {
    hide Shifted;
    FourShifts(0xd131, 0xb243, 0x74a7, 0xe94e, 0xc2bd, 4);
  }

  /** The acknowledgement of the sequence id 0, byte for byte. */
  lemma AckBytes()
    ensures ControlFrame(TYPE_ACK, 0) == [0xaa, 0x55, 0x40, 0x00, 0x00, 0x00, 0x5c, 0xea, 0xff, 0xff]
  {
    hide Feed;
    Ack1([0x00, 0x00, 0x00]);
    assert [0x40] + [0x00, 0x00, 0x00] == [0x40, 0x00, 0x00, 0x00];
    Ack2([0x00, 0x00]);
    assert [0x00] + [0x00, 0x00] == [0x00, 0x00, 0x00];
    Ack3([0x00]);
    assert [0x00] + [0x00] == [0x00, 0x00];
    Ack4([]);
    assert [0x00] + [] == [0x00];
    FeedNothing(0xea5c);
  }
}
