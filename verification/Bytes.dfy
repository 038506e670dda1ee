/** Bytes as the firmware sees them: the AND of a flash write and the
    little-endian layout of integers. */
module Bytes {
  type Byte = x: int | 0 <= x < 256

  /** The value of an erased flash cell. */
  const ERASED: Byte := 0xFF

  /** 2^width */
  function Pow2(width: nat): (p: nat)
    ensures p > 0
  {
    if width == 0 then 1 else 2 * Pow2(width - 1)
  }

  /** The bitwise AND of the low `width` bits. */
  function AndBits(a: nat, b: nat, width: nat): (r: nat)
    ensures r < Pow2(width)
  {
    if width == 0 then 0
    else (if a % 2 == 1 && b % 2 == 1 then 1 else 0) + 2 * AndBits(a / 2, b / 2, width - 1)
  }

  /** What a cell reads after `next` is written over `before`: flash can only clear bits. */
  function And(before: Byte, next: Byte): Byte {
    assert Pow2(8) == 256;
    AndBits(before, next, 8)
  }

  lemma {:induction false} AndOnes(b: nat, width: nat)
    requires b < Pow2(width)
    ensures AndBits(Pow2(width) - 1, b, width) == b
  {
    if width > 0 {
      assert b / 2 < Pow2(width - 1) && b == 2 * (b / 2) + b % 2;
      assert (Pow2(width) - 1) / 2 == Pow2(width - 1) - 1 && (Pow2(width) - 1) % 2 == 1;
      AndOnes(b / 2, width - 1);
    }
  }

  /** An erased cell takes any value. */
  lemma AndErased(b: Byte)
    ensures And(ERASED, b) == b
  {
    assert Pow2(8) == 256;
    AndOnes(b, 8);
  }

  /** Bit i of n, the lowest being bit 0. */
  function Bit(n: nat, i: nat): nat {
    if i == 0 then n % 2 else Bit(n / 2, i - 1)
  }

  /** A write clears bits and sets none. */
  lemma {:induction false} AndBitwise(a: nat, b: nat, width: nat, i: nat)
    requires i < width
    ensures Bit(AndBits(a, b, width), i) == 1 <==> Bit(a, i) == 1 && Bit(b, i) == 1
  {
    if i > 0 {
      AndBitwise(a / 2, b / 2, width - 1, i - 1);
      assert AndBits(a, b, width) / 2 == AndBits(a / 2, b / 2, width - 1);
    }
  }

  /** Of the bytes a cell held and was sent, each bit survives exactly if both have it. */
  lemma AndKeepsCommonBits(before: Byte, next: Byte, i: nat)
    requires i < 8
    ensures Bit(And(before, next), i) == 1 <==> Bit(before, i) == 1 && Bit(next, i) == 1
  {
    AndBitwise(before, next, 8, i);
  }

  /** The `width` low bytes of n, least significant first. */
  function Le(n: nat, width: nat): (bytes: seq<Byte>)
    ensures |bytes| == width
  {
    if width == 0 then [] else [n % 256] + Le(n / 256, width - 1)
  }

  function FromLe(bytes: seq<Byte>): nat {
    if bytes == [] then 0 else bytes[0] + 256 * FromLe(bytes[1..])
  }

  function Bound(width: nat): nat {
    if width == 0 then 1 else 256 * Bound(width - 1)
  }

  /** Reading back `width` little-endian bytes loses exactly what does not fit in them. */
  lemma {:induction false} LeRoundTrip(n: nat, width: nat)
    ensures FromLe(Le(n, width)) == n <==> n < Bound(width)
  {
    if width > 0 {
      LeRoundTrip(n / 256, width - 1);
      assert Le(n, width)[1..] == Le(n / 256, width - 1);
    }
  }
}
