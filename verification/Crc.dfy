/**
 The checksum of every frame: CRC-CCITT-FALSE (polynomial 0x1021, most significant
 bit first, initial value 0xffff, no final inversion).
 Bitwise operators are written out on the numbers they act on.
 */
module Crc {
  import opened Bytes

  function Pow2(n: nat): nat { if n == 0 then 1 else 2 * Pow2(n - 1) }

  lemma Pow2Values()
    ensures Pow2(8) == 0x100 && Pow2(16) == 0x1_0000
  {
  }

  // exclusive or of the low `width` bits
  function Xor(a: nat, b: nat, width: nat): (r: nat)
    ensures r < Pow2(width)
  {
    if width == 0 then 0
    else 2 * Xor(a / 2, b / 2, width - 1) + (if a % 2 == b % 2 then 0 else 1)
  }

  function Xor8(a: byte, b: byte): byte {
    Pow2Values();
    Xor(a, b, 8)
  }

  function Xor16(a: u16, b: u16): u16 {
    Pow2Values();
    Xor(a, b, 16)
  }

  // One step of the register to the left.
  function Shift(reg: u16): u16 {
    if reg < 0x8000 then 2 * reg else Xor16(2 * reg - 0x1_0000, 0x1021)
  }

  /** The register after the message s: mix in a byte, shift eight times, go on with the rest. */
  function Feed(reg: u16, s: seq<byte>): u16
    decreases |s|, 0
  {
    if s == [] then reg else Mix(reg, s[0], s[1..])
  }

  function Mix(reg: u16, b: byte, rest: seq<byte>): u16
    decreases |rest|, 10
  {
    Shifts(0x100 * Xor8(Hi(reg), b) + Lo(reg), 8, rest)
  }

  function Shifts(reg: u16, k: nat, rest: seq<byte>): u16
    decreases |rest|, k + 1
  {
    if k == 0 then Feed(reg, rest) else Shifts(Shift(reg), k - 1, rest)
  }

  function Crc16(s: seq<byte>): u16 { Feed(0xffff, s) }

  lemma {:induction false} XorInjective(a: nat, b: nat, c: nat, width: nat)
    requires b < Pow2(width) && c < Pow2(width)
    requires Xor(a, b, width) == Xor(a, c, width) || Xor(b, a, width) == Xor(c, a, width)
    ensures b == c
  {
    if width > 0 {
      XorInjective(a / 2, b / 2, c / 2, width - 1);
    }
  }

  lemma FeedbackIsOdd(x: u16)
    requires x % 2 == 0
    ensures Xor16(x, 0x1021) % 2 == 1
  {
  }

  lemma ShiftInjective(x: u16, y: u16)
    requires Shift(x) == Shift(y)
    ensures x == y
  {
    hide Xor, Pow2;
    if x >= 0x8000 {
      FeedbackIsOdd(2 * x - 0x1_0000);
    }
    if y >= 0x8000 {
      FeedbackIsOdd(2 * y - 0x1_0000);
    }
    if x >= 0x8000 && y >= 0x8000 {
      Pow2Values();
      XorInjective(0x1021, 2 * x - 0x1_0000, 2 * y - 0x1_0000, 16);
    }
  }

  lemma {:induction false} ShiftsInjective(x: u16, y: u16, k: nat, rest: seq<byte>)
    requires Shifts(x, k, rest) == Shifts(y, k, rest)
    ensures x == y
    decreases |rest|, k + 1
  {
    if k == 0 {
      FeedInjective(x, y, rest);
    } else {
      ShiftsInjective(Shift(x), Shift(y), k - 1, rest);
      ShiftInjective(x, y);
    }
  }

  /** The step for one byte is injective in the register and in the byte. */
  lemma MixInjective(x: u16, y: u16, b: byte, c: byte, rest: seq<byte>)
    requires Mix(x, b, rest) == Mix(y, c, rest)
    ensures x == y <==> b == c
    decreases |rest|, 10
  {
    Pow2Values();
    ShiftsInjective(0x100 * Xor8(Hi(x), b) + Lo(x), 0x100 * Xor8(Hi(y), c) + Lo(y), 8, rest);
    if x == y {
      XorInjective(Hi(x), b, c, 8);
    }
    if b == c {
      XorInjective(b, Hi(x), Hi(y), 8);
    }
  }

  lemma {:induction false} FeedInjective(x: u16, y: u16, s: seq<byte>)
    requires Feed(x, s) == Feed(y, s)
    ensures x == y
    decreases |s|, 0
  {
    if s != [] {
      MixInjective(x, y, s[0], s[0], s[1..]);
    }
  }

  lemma {:induction false} FeedChanged(reg: u16, s: seq<byte>, i: nat, b: byte)
    requires i < |s| && b != s[i]
    ensures Feed(reg, s[i := b]) != Feed(reg, s)
    decreases |s|, 0
  {
    var t := s[i := b];
    if i == 0 {
      assert t[1..] == s[1..];
      if Feed(reg, t) == Feed(reg, s) {
        MixInjective(reg, reg, b, s[0], s[1..]);
      }
    } else {
      assert t[1..] == s[1..][i - 1 := b];
      ShiftsChanged(0x100 * Xor8(Hi(reg), s[0]) + Lo(reg), 8, s[1..], i - 1, b);
    }
  }

  lemma {:induction false} ShiftsChanged(reg: u16, k: nat, s: seq<byte>, i: nat, b: byte)
    requires i < |s| && b != s[i]
    ensures Shifts(reg, k, s[i := b]) != Shifts(reg, k, s)
    decreases |s|, k + 1
  {
    if k == 0 {
      FeedChanged(reg, s, i, b);
    } else {
      ShiftsChanged(Shift(reg), k - 1, s, i, b);
    }
  }

  /** Changing one byte, at any place in a message of any length, changes the checksum. */
  lemma OneByteChangesCrc(s: seq<byte>, i: nat, b: byte)
    requires i < |s| && b != s[i]
    ensures Crc16(s[i := b]) != Crc16(s)
  {
    FeedChanged(0xffff, s, i, b);
  }
}
