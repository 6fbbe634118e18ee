/**
 * The carry-fold helpers `add32_with_carry` and `from32to16`, and the final
 * byte swap of the odd-address path.
 */
module Fold {
  import opened Arith
  import opened OnesComplement
  import opened Alu

  /**
   * `add32_with_carry(a, b)`: `addl b, a; adcl $0, a`. The 32-bit
   * one's-complement sum of a and b: their low 32 bits plus the carry out,
   * with the carry of the second add never set.
   */
  function Add32WithCarry(a: nat, b: nat): (r: nat)
    requires a < B32 && b < B32
    ensures r == OnesSum(B32, a + b)
    ensures r == (a + b) % B32 + (a + b) / B32
  {
    ChainStarts(B32, a);
    var s := Add(B32, a, b);
    AdcAccumulates(B32, RegFlag(a, false), b, a);
    ChainCloses(B32, s, a + b);
    DivModUnique(a + b, B32, Bit(s.flag), s.reg);
    var r := Adc(B32, s.reg, 0, s.flag).reg;
    assert r == s.reg + Bit(s.flag) == (a + b) % B32 + (a + b) / B32;
    r
  }

  /**
   * `from32to16(a)`: the high half `a >> 16` in a 16-bit register, then
   * `addw` of the low half and `adcw $0`. The 16-bit one's-complement sum of
   * the two halves, which is the 16-bit fold of all of `a`.
   */
  function From32to16(a: nat): (r: nat)
    requires a < B32
    ensures r < B16
    ensures r == OnesSum(B16, a / B16 + a % B16)
    ensures r == OnesSum(B16, a)
  {
    var hi, lo := a / B16, a % B16;
    Halves(a);
    ChainStarts(B16, hi);
    var s := Add(B16, hi, lo);
    AdcAccumulates(B16, RegFlag(hi, false), lo, hi);
    ChainCloses(B16, s, hi + lo);
    FoldHalves(a);
    Adc(B16, s.reg, 0, s.flag).reg
  }

  /** `a >> 16` and `a & 0xffff` of a 32-bit value are both 16-bit values. */
  lemma Halves(a: nat)
    requires a < B32
    ensures a / B16 < B16 && a % B16 < B16 && a == a / B16 * B16 + a % B16
  {
    assert a / B16 * B16 <= a;
  }

  /** The two 16-bit halves of a 32-bit value add up to it modulo 2^16 - 1. */
  lemma FoldHalves(a: nat)
    requires a < B32
    ensures OnesSum(B16, a / B16 + a % B16) == OnesSum(B16, a)
  {
    var hi, lo := a / B16, a % B16;
    CongRefl(hi, M16);
    CongCarry(lo, hi, hi, B16);
    assert a == lo + B16 * hi;
    OnesSumCongruent(B16, lo + hi, a);
  }

  /**
   * The swap `((result >> 8) & 0xff) | ((result & 0xff) << 8)`; the two
   * operands of `|` occupy disjoint bits, so it is their sum. On a 16-bit
   * value it multiplies by 256 modulo 2^16 - 1.
   */
  function ByteSwap16(x: nat): (r: nat)
    ensures r < B16
    ensures x < B16 ==> Cong(r, 256 * x, M16) && (r == 0 <==> x == 0)
  {
    var hi, lo := x / 256 % 256, x % 256;
    assert x < B16 ==> x == 256 * hi + lo;
    CongMultiple(hi + 256 * lo, hi, M16);
    CongSymm(hi + 256 * lo + hi * M16, hi + 256 * lo, M16);
    hi + lo * 256
  }

  /** Swapping the bytes twice gives the 16-bit value back. */
  lemma ByteSwap16Twice(x: nat)
    requires x < B16
    ensures ByteSwap16(ByteSwap16(x)) == x
  {
    var hi, lo := x / 256 % 256, x % 256;
    DivModUnique(x, 256, hi, lo);
    DivModUnique(hi + lo * 256, 256, lo, hi);
  }

  /** Swapping the bytes of a 16-bit sum is the sum of 256 times its total. */
  lemma ByteSwapOnesSum(t: nat)
    ensures ByteSwap16(OnesSum(B16, t)) == OnesSum(B16, 256 * t)
  {
    var s := OnesSum(B16, t);
    OnesSumCong(B16, t);
    CongScale(s, t, 256, M16);
    CongTrans(ByteSwap16(s), 256 * s, 256 * t, M16);
    OnesSumUnique(B16, 256 * t, ByteSwap16(s));
  }

  /** The 64-to-32 fold of csum_partial: `add32_with_carry(temp64 >> 32, temp64 & 0xffffffff)`. */
  lemma Fold64To32(x: nat)
    requires x < B64
    ensures Add32WithCarry(x / B32, x % B32) == OnesSum(B32, x)
  {
    var hi, lo := x / B32, x % B32;
    CongRefl(hi, M32);
    CongCarry(lo, hi, hi, B32);
    assert x == lo + B32 * hi;
    OnesSumCongruent(B32, hi + lo, x);
  }
}
