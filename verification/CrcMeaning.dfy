/**
 What the checksum is: the digits of the register are the coefficients of a polynomial over
 the two-element field, and a shift multiplies it by x modulo x^16 + x^12 + x^5 + 1.
 */
module CrcMeaning {
  import opened Bytes
  import opened Crc

  // Binary digit i of a number
  function Bit(x: nat, i: nat): (d: nat)
    ensures d < 2
  {
    if i == 0 then x % 2 else Bit(x / 2, i - 1)
  }

  /** Exclusive or, digit by digit. */
  lemma {:induction false} BitOfXor(a: nat, b: nat, width: nat, i: nat)
    requires i < width
    ensures Bit(Xor(a, b, width), i) == if Bit(a, i) == Bit(b, i) then 0 else 1
  {
    hide Bit, Xor;
    var x := Xor(a / 2, b / 2, width - 1);
    XorStep(a, b, width);
    BitOfDouble(x, if a % 2 == b % 2 then 0 else 1, i);
    BitStep(a, i);
    BitStep(b, i);
    if i > 0 {
      BitOfXor(a / 2, b / 2, width - 1, i - 1);
    }
  }

  lemma XorStep(a: nat, b: nat, width: nat)
    requires width > 0
    ensures Xor(a, b, width) == 2 * Xor(a / 2, b / 2, width - 1) + (if a % 2 == b % 2 then 0 else 1)
  {
  }

  lemma BitStep(x: nat, i: nat)
    ensures Bit(x, i) == if i == 0 then x % 2 else Bit(x / 2, i - 1)
  {
  }

  lemma {:induction false} TopBit(x: nat, k: nat)
    requires x < 2 * Pow2(k)
    ensures Bit(x, k) == if x < Pow2(k) then 0 else 1
  {
    if k > 0 {
      TopBit(x / 2, k - 1);
    }
  }

  lemma {:induction false} LowBits(x: nat, k: nat, j: nat)
    requires Pow2(k) <= x && j < k
    ensures Bit(x - Pow2(k), j) == Bit(x, j)
  {
    if j > 0 {
      assert (x - Pow2(k)) / 2 == x / 2 - Pow2(k - 1);
      LowBits(x / 2, k - 1, j - 1);
    }
  }

  lemma BitOfDouble(x: nat, d: nat, i: nat)
    requires d < 2
    ensures Bit(2 * x + d, i) == if i == 0 then d else Bit(x, i - 1)
  {
    assert (2 * x + d) / 2 == x && (2 * x + d) % 2 == d;
  }

  lemma {:induction false} BitOfZero(i: nat)
    ensures Bit(0, i) == 0
  {
    if i > 0 {
      BitOfZero(i - 1);
    }
  }

  lemma {:induction false} BitOfPower(k: nat, i: nat)
    ensures Bit(Pow2(k), i) == if i == k then 1 else 0
  {
    if k == 0 {
      if i > 0 {
        BitOfZero(i - 1);
      }
    } else {
      BitOfDouble(Pow2(k - 1), 0, i);
      if i > 0 {
        BitOfPower(k - 1, i - 1);
      }
    }
  }

  lemma {:induction false} BitOfMultiple(x: nat, k: nat, y: nat, i: nat)
    requires x == Pow2(k) * y
    ensures Bit(x, i) == if i < k then 0 else Bit(y, i - k)
  {
    if k > 0 {
      assert x == 2 * (Pow2(k - 1) * y);
      BitOfDouble(Pow2(k - 1) * y, 0, i);
      if i > 0 {
        BitOfMultiple(Pow2(k - 1) * y, k - 1, y, i - 1);
      }
    }
  }

  // The polynomial has the digits 12, 5 and 0 (and 16, which is not in the register).
  lemma BitOfPolynomial(i: nat)
    ensures Bit(0x1021, i) == if i == 0 || i == 5 || i == 12 then 1 else 0
  {
    hide Bit;
    BitOfDouble(0x810, 1, i);
    if i > 0 {
      assert Pow2(4) == 0x10;
      BitOfMultiple(0x810, 4, 0x81, i - 1);
    }
    if i >= 5 {
      BitOfDouble(0x40, 1, i - 5);
    }
    if i >= 6 {
      assert Pow2(6) == 0x40;
      BitOfPower(6, i - 6);
    }
  }

  /** Multiplication by x: every digit moves up, and the one that leaves is added at 0, 5 and 12. */
  lemma ShiftIsTimesX(x: u16, i: nat)
    requires i < 16
    ensures var carry := Bit(x, 15);
      var below := if i == 0 then 0 else Bit(x, i - 1);
      Bit(Shift(x), i) == if i == 0 || i == 5 || i == 12 then (if below == carry then 0 else 1) else below
  {
    hide Xor, Bit;
    assert Pow2(15) == 0x8000;
    TopBit(x, 15);
    if x < 0x8000 {
      BitOfDouble(x, 0, i);
    } else {
      var y := 2 * x - 0x1_0000;
      BitOfXor(y, 0x1021, 16, i);
      BitOfPolynomial(i);
      BitOfDouble(x - 0x8000, 0, i);
      if i > 0 {
        LowBits(x, 15, i - 1);
      }
    }
  }

  // The register after k shifts
  function Shifted(reg: u16, k: nat): u16
    decreases k
  {
    if k == 0 then reg else Shifted(Shift(reg), k - 1)
  }

  lemma {:induction false} ShiftsFeed(reg: u16, k: nat, rest: seq<byte>)
    ensures Shifts(reg, k, rest) == Feed(Shifted(reg, k), rest)
    decreases k
  {
    hide Shift;
    if k > 0 {
      ShiftsFeed(Shift(reg), k - 1, rest);
    }
  }

  /**
   One byte: it is added to the upper eight digits, then the register is shifted eight times.
   The first byte meets the register 0xffff, and bytes are taken from the front.
   */
  lemma ByteStep(reg: u16, b: byte, rest: seq<byte>) returns (mixed: u16)
    ensures Feed(reg, [b] + rest) == Feed(Shifted(mixed, 8), rest)
    ensures forall i :: 0 <= i < 16 ==>
      Bit(mixed, i) == if i < 8 || Bit(b, i - 8) == 0 then Bit(reg, i) else 1 - Bit(reg, i)
    ensures Crc16(rest) == Feed(0xffff, rest) && Feed(reg, []) == reg
  {
    hide Shift, Xor, Bit;
    assert ([b] + rest)[1..] == rest;
    mixed := 0x100 * Xor8(Hi(reg), b) + Lo(reg);
    ShiftsFeed(mixed, 8, rest);
    forall i | 0 <= i < 16
      ensures Bit(mixed, i) == if i < 8 || Bit(b, i - 8) == 0 then Bit(reg, i) else 1 - Bit(reg, i)
    {
      BitOfWord(Lo(reg), Xor8(Hi(reg), b), i);
      BitOfWord(Lo(reg), Hi(reg), i);
      if i >= 8 {
        BitOfXor(Hi(reg), b, 8, i - 8);
      }
    }
  }

  lemma Twice(k: nat, x: nat)
    requires k > 0
    ensures Pow2(k) == 2 * Pow2(k - 1) && Pow2(k) * x == 2 * (Pow2(k - 1) * x)
  {
  }

  lemma {:induction false} BitOfSum(lo: nat, hi: nat, k: nat, i: nat)
    requires lo < Pow2(k)
    ensures Bit(Pow2(k) * hi + lo, i) == if i < k then Bit(lo, i) else Bit(hi, i - k)
    decreases k
  {
    if k > 0 {
      hide Bit, Pow2;
      Twice(k, hi);
      var top := Pow2(k - 1) * hi;
      BitOfDouble(top + lo / 2, lo % 2, i);
      BitOfDouble(lo / 2, lo % 2, i);
      if i > 0 {
        BitOfSum(lo / 2, hi, k - 1, i - 1);
      }
    }
  }

  lemma BitOfWord(lo: byte, hi: byte, i: nat)
    ensures Bit(0x100 * hi + lo, i) == if i < 8 then Bit(lo, i) else Bit(hi, i - 8)
  {
    hide Bit;
    Pow2Values();
    BitOfSum(lo, hi, 8, i);
  }
}
