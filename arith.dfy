/**
 * Unbounded-integer arithmetic that the checksum model is built on: bytes,
 * the machine word sizes, powers of two, and congruences modulo 2^k - 1.
 *
 * The C source works on `uint16_t`, `uint32_t` and `uint64_t`; here every
 * such value is a `nat` below the matching bound, and each wrap-around or
 * truncation is written out where the source relies on it.
 */
module Arith {

  /** One byte of the buffer. */
  type byte = x: int | 0 <= x < 256

  /** 2^16, 2^32 and 2^64: the ranges of 16-, 32- and 64-bit registers. */
  const B16: nat := 0x1_0000
  const B32: nat := 0x1_0000_0000
  const B64: nat := 0x1_0000_0000_0000_0000

  /** The one's-complement moduli 2^16 - 1, 2^32 - 1 and 2^64 - 1. */
  const M16: nat := 0xffff
  const M32: nat := 0xffff_ffff
  const M64: nat := 0xffff_ffff_ffff_ffff

  function Pow2(n: nat): (r: nat)
    ensures r >= 1
  {
    if n == 0 then 1 else 2 * Pow2(n - 1)
  }

  function Pow256(n: nat): (r: nat)
    ensures r >= 1
  {
    if n == 0 then 1 else 256 * Pow256(n - 1)
  }

  lemma {:induction false} Pow2Add(a: nat, b: nat)
    ensures Pow2(a + b) == Pow2(a) * Pow2(b)
  {
    if a > 0 {
      Pow2Add(a - 1, b);
    }
  }

  lemma {:induction false} Pow256IsPow2(n: nat)
    ensures Pow256(n) == Pow2(8 * n)
  {
    if n > 0 {
      Pow256IsPow2(n - 1);
      Pow2Add(8, 8 * (n - 1));
      assert 8 * n == 8 + 8 * (n - 1);
    }
  }

  lemma {:induction false} Pow256Add(a: nat, b: nat)
    ensures Pow256(a + b) == Pow256(a) * Pow256(b)
  {
    if a > 0 {
      Pow256Add(a - 1, b);
    }
  }

  /**
   * A nonzero multiple of `m` is at least `m` in size. This and
   * `MulMonotone` are hints for nonlinear steps; the solver proves each alone.
   */
  lemma MulBound(k: int, m: int)
    requires m > 0
    ensures k >= 1 ==> k * m >= m
    ensures k <= -1 ==> k * m <= -m
  {
  }

  lemma MulMonotone(a: int, b: int, c: int)
    requires a <= b && c >= 0
    ensures a * c <= b * c
  {
  }

  /** Euclidean division is determined by its quotient and remainder. */
  lemma DivModUnique(n: int, m: int, q: int, r: int)
    requires m > 0 && 0 <= r < m && n == q * m + r
    ensures n % m == r && n / m == q
  {
    var q', r' := n / m, n % m;
    assert (q - q') * m == r' - r;
    MulBound(q - q', m);
  }

  /** Multiplying by `a` and dividing by `a` cancel. */
  lemma MulDivCancel(r: nat, a: nat)
    requires a > 0
    ensures (r * a) / a == r && (r * a) % a == 0
  {
    DivModUnique(r * a, a, r, 0);
  }

  /** A quotient of a natural number by a positive one is a natural number. */
  lemma DivNonneg(x: nat, d: nat)
    requires d > 0
    ensures x / d >= 0
  {
    MulBound(x / d, d);
  }

  /** A quotient by a positive number is at most the dividend. */
  lemma DivAtMost(x: nat, d: nat)
    requires d > 0
    ensures x / d <= x
  {
    MulMonotone(1, d, x / d);
  }

  /** Shifting up by `a` and keeping the part below `a * c` shifts up the part of `x` below `c`. */
  lemma MulModShift(x: nat, a: nat, c: nat)
    requires a > 0 && c > 0
    ensures (x * a) % (a * c) == (x % c) * a
  {
    var q, rem := x / c, x % c;
    assert x == q * c + rem;
    assert x * a == q * (a * c) + rem * a;
    MulMonotone(rem, c - 1, a);
    DivModUnique(x * a, a * c, q, rem * a);
  }

  /** `x` and `y` leave the same remainder modulo `m`. */
  predicate Cong(x: int, y: int, m: nat)
    requires m > 0
  {
    (x - y) % m == 0
  }

  /** Adding a multiple of `m` does not change the residue. */
  lemma CongMultiple(x: int, q: int, m: nat)
    requires m > 0
    ensures Cong(x + q * m, x, m)
  {
    DivModUnique(q * m, m, q, 0);
  }

  lemma CongRefl(x: int, m: nat)
    requires m > 0
    ensures Cong(x, x, m)
  {
  }

  /** Congruence is witnessed by an explicit quotient. */
  lemma CongWitness(x: int, y: int, m: nat) returns (q: int)
    requires m > 0 && Cong(x, y, m)
    ensures x - y == q * m
  {
    q := (x - y) / m;
  }

  lemma CongSymm(x: int, y: int, m: nat)
    requires m > 0 && Cong(x, y, m)
    ensures Cong(y, x, m)
  {
    var q := CongWitness(x, y, m);
    DivModUnique(y - x, m, -q, 0);
  }

  lemma CongTrans(x: int, y: int, z: int, m: nat)
    requires m > 0 && Cong(x, y, m) && Cong(y, z, m)
    ensures Cong(x, z, m)
  {
    var q1 := CongWitness(x, y, m);
    var q2 := CongWitness(y, z, m);
    DivModUnique(x - z, m, q1 + q2, 0);
  }

  lemma CongAdd(x1: int, y1: int, x2: int, y2: int, m: nat)
    requires m > 0 && Cong(x1, y1, m) && Cong(x2, y2, m)
    ensures Cong(x1 + x2, y1 + y2, m)
  {
    var q1 := CongWitness(x1, y1, m);
    var q2 := CongWitness(x2, y2, m);
    DivModUnique(x1 + x2 - (y1 + y2), m, q1 + q2, 0);
  }

  lemma CongScale(x: int, y: int, c: int, m: nat)
    requires m > 0 && Cong(x, y, m)
    ensures Cong(c * x, c * y, m)
  {
    var q := CongWitness(x, y, m);
    assert c * x - c * y == (c * q) * m;
    DivModUnique(c * x - c * y, m, c * q, 0);
  }

  /**
   * A digit `l` worth `b` in the position above `x` counts as `l` modulo
   * `b - 1`: the end-around carry.
   */
  lemma CongCarry(x: int, c: int, l: int, b: nat)
    requires b > 1 && Cong(c, l, b - 1)
    ensures Cong(x + c, x + b * l, b - 1)
  {
    var q := CongWitness(c, l, b - 1);
    assert b * l == l + (b - 1) * l;
    assert x + c - (x + b * l) == (q - l) * (b - 1);
    DivModUnique(x + c - (x + b * l), b - 1, q - l, 0);
  }

  /** A congruence modulo `d * e` holds modulo `d` as well. */
  lemma CongDivisor(x: int, y: int, d: nat, e: nat)
    requires d > 0 && e > 0 && Cong(x, y, d * e)
    ensures Cong(x, y, d)
  {
    var q := CongWitness(x, y, d * e);
    assert x - y == (q * e) * d;
    DivModUnique(x - y, d, q * e, 0);
  }

  /** Two residues that are congruent and close together are equal. */
  lemma CongClose(x: int, y: int, m: nat)
    requires m > 0 && Cong(x, y, m) && -(m as int) < x - y < m
    ensures x == y
  {
    var q := CongWitness(x, y, m);
    MulBound(q, m);
  }

  /** 2^64 - 1 = (2^32 - 1) (2^32 + 1) and 2^32 - 1 = (2^16 - 1) (2^16 + 1). */
  lemma CongNarrow64To32(x: int, y: int)
    requires Cong(x, y, M64)
    ensures Cong(x, y, M32)
  {
    assert M64 == M32 * (B32 + 1);
    CongDivisor(x, y, M32, B32 + 1);
  }

  lemma CongNarrow32To16(x: int, y: int)
    requires Cong(x, y, M32)
    ensures Cong(x, y, M16)
  {
    assert M32 == M16 * (B16 + 1);
    CongDivisor(x, y, M16, B16 + 1);
  }

  lemma PowConstants()
    ensures Pow256(2) == B16 && Pow256(4) == B32 && Pow256(8) == B64
    ensures Pow2(16) == B16 && Pow2(32) == B32 && Pow2(64) == B64
  {
    Pow256IsPow2(2);
    Pow256IsPow2(4);
    Pow256IsPow2(8);
  }
}
