/**
 * One's-complement addition as in section 2 of RFC 1071: a b-bit
 * accumulator whose carry out of the top bit is added back into bit 0.
 *
 * However the additions are grouped and however their carries are deferred,
 * an accumulator that never drops a carry ends up holding one canonical
 * value, `OnesSum(b, t)`, where `t` is the exact integer total of everything
 * added; this is the associativity and deferred-carry property, items (A),
 * (C) and (D) of that section.
 */
module OnesComplement {
  import opened Arith

  /**
   * The value of a b-bit end-around-carry sum of numbers adding up to `t`:
   * a total that fits is its own sum; a larger one has its carry out of the
   * top bit, worth b, taken away and added back into bit 0, until it fits.
   * So the sum is zero exactly when `t` is, and otherwise the representative
   * of `t` modulo b - 1 between 1 and b - 1 (all-ones, never zero, stands
   * for a nonzero multiple of b - 1).
   */
  function OnesSum(b: nat, t: nat): (r: nat)
    requires b >= 2
    ensures r < b
    ensures r == 0 <==> t == 0
    decreases t
  {
    if t < b then t else OnesSum(b, t - b + 1)
  }

  /** The sum agrees with its total modulo b - 1. */
  lemma {:induction false} OnesSumCong(b: nat, t: nat)
    requires b >= 2
    ensures Cong(OnesSum(b, t), t, b - 1)
    decreases t
  {
    if t < b {
      CongRefl(t, b - 1);
    } else {
      var t' := t - b + 1;
      OnesSumCong(b, t');
      CongMultiple(t', 1, b - 1);
      CongTrans(OnesSum(b, t'), t', t, b - 1) by {
        CongSymm(t' + 1 * (b - 1), t', b - 1);
      }
    }
  }

  /** The three properties in the contract of OnesSum determine it. */
  lemma OnesSumUnique(b: nat, t: nat, r: nat)
    requires b >= 2 && r < b && (r == 0 <==> t == 0) && Cong(r, t, b - 1)
    ensures r == OnesSum(b, t)
  {
    var s := OnesSum(b, t);
    OnesSumCong(b, t);
    if t != 0 {
      CongSymm(s, t, b - 1);
      CongTrans(r, t, s, b - 1);
      CongClose(r, s, b - 1);
    }
  }

  /** A total that fits in the accumulator is its own sum (all-ones included). */
  lemma OnesSumSmall(b: nat, t: nat)
    requires b >= 2 && t < b
    ensures OnesSum(b, t) == t
  {
  }

  /** Totals that agree modulo b - 1 and in being zero have the same sum. */
  lemma OnesSumCongruent(b: nat, x: nat, y: nat)
    requires b >= 2 && Cong(x, y, b - 1) && (x == 0 <==> y == 0)
    ensures OnesSum(b, x) == OnesSum(b, y)
  {
    OnesSumCong(b, x);
    CongTrans(OnesSum(b, x), x, y, b - 1);
    OnesSumUnique(b, y, OnesSum(b, x));
  }

  /** Adding an already folded partial sum is the same as adding its total. */
  lemma OnesSumAbsorb(b: nat, a: nat, t: nat)
    requires b >= 2
    ensures OnesSum(b, a + OnesSum(b, t)) == OnesSum(b, a + t)
  {
    CongRefl(a, b - 1);
    OnesSumCong(b, t);
    CongAdd(a, a, OnesSum(b, t), t, b - 1);
    OnesSumCongruent(b, a + OnesSum(b, t), a + t);
  }

  /** Folding a 64-bit sum to 32 bits depends only on its total. */
  lemma OnesSumNarrow64To32(t: nat)
    ensures OnesSum(B32, OnesSum(B64, t)) == OnesSum(B32, t)
  {
    OnesSumCong(B64, t);
    CongNarrow64To32(OnesSum(B64, t), t);
    OnesSumCongruent(B32, OnesSum(B64, t), t);
  }

  /** Folding a 32-bit sum to 16 bits depends only on its total. */
  lemma OnesSumNarrow32To16(t: nat)
    ensures OnesSum(B16, OnesSum(B32, t)) == OnesSum(B16, t)
  {
    OnesSumCong(B32, t);
    CongNarrow32To16(OnesSum(B32, t), t);
    OnesSumCongruent(B16, OnesSum(B32, t), t);
  }
}
