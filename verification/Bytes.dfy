/** Fixed-width unsigned integers of the driver, and little-endian 16-bit words. */
module Bytes {

  type byte = x: nat | x < 0x100
  type u16 = x: nat | x < 0x1_0000

  function Lo(w: u16): byte { w % 0x100 }

  function Hi(w: u16): byte { w / 0x100 }

  function Le16(lo: byte, hi: byte): u16 { lo + 0x100 * hi }

  function Min(a: nat, b: nat): nat { if a <= b then a else b }

  predicate IsPrefix(a: seq<byte>, b: seq<byte>) { |a| <= |b| && a == b[..|a|] }

  // a is a contiguous part of b
  ghost predicate OccursIn(a: seq<byte>, b: seq<byte>) {
    exists i :: 0 <= i <= |b| - |a| && b[i..][..|a|] == a
  }
}
