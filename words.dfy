/**
 * Reading bytes as little-endian numbers, as an x86-64 load does, and the
 * sum of a buffer cut into k-byte little-endian words (the last word
 * zero-padded), which is what the checksum kernels add up: 8-byte words for
 * the 64-bit kernels, 4-byte words for the 32-bit one, and 2-byte words for
 * the Internet checksum of RFC 1071.
 */
module Words {
  import opened Arith

  /** The little-endian value of a byte string: `s[0]` is the least significant byte. */
  function LE(s: seq<byte>): nat
  {
    if s == [] then 0 else s[0] + 256 * LE(s[1..])
  }

  /** An n-byte little-endian value is below 256^n. */
  lemma {:induction false} LEBound(s: seq<byte>)
    ensures LE(s) < Pow256(|s|)
  {
    if s != [] {
      LEBound(s[1..]);
    }
  }

  /** Arithmetic hints for the nonlinear steps of `LEAppend`; the solver proves them alone. */
  lemma Distrib256(t: int, p: int, l: int)
    ensures 256 * (t + p * l) == 256 * t + (256 * p) * l
  {
  }

  lemma MulComm(x: int, y: int)
    ensures x * y == y * x
  {
  }

  lemma {:induction false} LEAppend(a: seq<byte>, b: seq<byte>)
    ensures LE(a + b) == LE(a) + Pow256(|a|) * LE(b)
  {
    if a == [] {
      assert a + b == b;
      assert LE(a) == 0 && Pow256(|a|) == 1;
    } else {
      assert (a + b)[1..] == a[1..] + b;
      LEAppend(a[1..], b);
      var p, l, t := Pow256(|a| - 1), LE(b), LE(a[1..]);
      var q := Pow256(|a|);
      assert q == 256 * p;
      assert LE(a) == a[0] + 256 * t;
      assert LE(a + b) == a[0] + 256 * (t + p * l);
      Distrib256(t, p, l);
    }
  }

  /** A byte string is its first `k` bytes plus 256^k times the rest. */
  lemma LEPrefix(s: seq<byte>, k: nat)
    requires k <= |s|
    ensures LE(s) == LE(s[..k]) + Pow256(k) * LE(s[k..])
    ensures LE(s[..k]) < Pow256(k)
  {
    var a, b := s[..k], s[k..];
    assert s == a + b;
    LEAppend(a, b);
    LEBound(a);
  }

  /** The low `k` bytes of a little-endian value are its first `k` bytes. */
  lemma LESplit(s: seq<byte>, k: nat)
    requires k <= |s|
    ensures LE(s) % Pow256(k) == LE(s[..k])
    ensures LE(s) / Pow256(k) == LE(s[k..])
  {
    LEPrefix(s, k);
    MulComm(Pow256(k), LE(s[k..]));
    DivModUnique(LE(s), Pow256(k), LE(s[k..]), LE(s[..k]));
  }

  /** A little-endian value is zero exactly when all its bytes are. */
  lemma {:induction false} LEZero(s: seq<byte>)
    ensures LE(s) == 0 <==> forall i :: 0 <= i < |s| ==> s[i] == 0
  {
    if s != [] {
      LEZero(s[1..]);
      assert forall i :: 1 <= i < |s| ==> s[i] == s[1..][i - 1];
    }
  }

  /**
   * The sum of the k-byte little-endian words of `s`; a final word shorter
   * than `k` bytes counts with its missing high bytes as zero.
   */
  function ChunkSum(s: seq<byte>, k: nat): nat
    requires k > 0
    decreases |s|
  {
    if |s| <= k then LE(s) else LE(s[..k]) + ChunkSum(s[k..], k)
  }

  lemma ModSubtract(n: nat, k: nat)
    requires 0 < k <= n && n % k == 0
    ensures (n - k) % k == 0
  {
    DivModUnique(n - k, k, n / k - 1, 0);
  }

  /** Words cut from a prefix whose length is a multiple of `k` add up separately. */
  lemma {:induction false} ChunkSumAppend(a: seq<byte>, b: seq<byte>, k: nat)
    requires k > 0 && |a| % k == 0
    ensures ChunkSum(a + b, k) == ChunkSum(a, k) + ChunkSum(b, k)
    decreases |a|
  {
    if a == [] {
      assert a + b == b;
    } else if |a| == k {
      if b != [] {
        assert (a + b)[..k] == a;
        assert (a + b)[k..] == b;
      } else {
        assert a + b == a;
      }
    } else {
      assert (a + b)[..k] == a[..k];
      assert (a + b)[k..] == a[k..] + b;
      ModSubtract(|a|, k);
      ChunkSumAppend(a[k..], b, k);
    }
  }

  /**
   * Cutting into k-byte words does not change the value modulo 256^k - 1,
   * because 256^k leaves remainder 1: the word sum is the end-around
   * fold of the whole little-endian number.
   */
  lemma {:induction false} ChunkSumCong(s: seq<byte>, k: nat)
    requires k > 0
    ensures Pow256(k) > 1 && Cong(ChunkSum(s, k), LE(s), Pow256(k) - 1)
    decreases |s|
  {
    assert Pow256(k) == 256 * Pow256(k - 1);
    if |s| <= k {
      CongRefl(LE(s), Pow256(k) - 1);
    } else {
      ChunkSumCong(s[k..], k);
      LEPrefix(s, k);
      CongCarry(LE(s[..k]), ChunkSum(s[k..], k), LE(s[k..]), Pow256(k));
    }
  }

  /** The word sum is zero exactly when every byte is. */
  lemma {:induction false} ChunkSumZero(s: seq<byte>, k: nat)
    requires k > 0
    ensures ChunkSum(s, k) == 0 <==> LE(s) == 0
    decreases |s|
  {
    if |s| > k {
      ChunkSumZero(s[k..], k);
      assert s == s[..k] + s[k..];
      LEAppend(s[..k], s[k..]);
    }
  }

  /** The little-endian 8-byte word at address `q` of `mem`: one `movq`/`addq` memory operand. */
  function Word(mem: seq<byte>, q: nat): (w: nat)
    requires q + 8 <= |mem|
    ensures w < B64
  {
    PowConstants();
    LEBound(mem[q..q + 8]);
    LE(mem[q..q + 8])
  }

  /** The little-endian 4-byte word at address `q`: one `movl`/`addl` memory operand. */
  function Dword(mem: seq<byte>, q: nat): (w: nat)
    requires q + 4 <= |mem|
    ensures w < B32
  {
    PowConstants();
    LEBound(mem[q..q + 4]);
    LE(mem[q..q + 4])
  }

  /** Extending a k-aligned prefix of memory by one k-byte word adds that word. */
  lemma ChunkSumExtend(mem: seq<byte>, p: nat, q: nat, k: nat)
    requires k > 0 && p <= q && (q - p) % k == 0 && q + k <= |mem|
    ensures ChunkSum(mem[p..q + k], k) == ChunkSum(mem[p..q], k) + LE(mem[q..q + k])
  {
    assert mem[p..q + k] == mem[p..q] + mem[q..q + k];
    ChunkSumAppend(mem[p..q], mem[q..q + k], k);
  }

  /** Extending by the final partial word (fewer than `k` bytes) adds its zero-padded value. */
  lemma ChunkSumTail(mem: seq<byte>, p: nat, q: nat, r: nat, k: nat)
    requires k > 0 && p <= q && (q - p) % k == 0 && r < k && q + r <= |mem|
    ensures ChunkSum(mem[p..q + r], k) == ChunkSum(mem[p..q], k) + LE(mem[q..q + r])
  {
    assert mem[p..q + r] == mem[p..q] + mem[q..q + r];
    ChunkSumAppend(mem[p..q], mem[q..q + r], k);
  }

  /** The 8, 16, 32 and 64 bytes at `p` as one, two, four and eight 8-byte words. */
  lemma ChunkSum8(mem: seq<byte>, p: nat)
    requires p + 8 <= |mem|
    ensures ChunkSum(mem[p..p + 8], 8) == Word(mem, p)
  {
  }

  lemma ChunkSum16(mem: seq<byte>, p: nat)
    requires p + 16 <= |mem|
    ensures ChunkSum(mem[p..p + 16], 8) == Word(mem, p) + Word(mem, p + 8)
  {
    ChunkSum8(mem, p);
    ChunkSumExtend(mem, p, p + 8, 8);
  }

  lemma ChunkSum32(mem: seq<byte>, p: nat)
    requires p + 32 <= |mem|
    ensures ChunkSum(mem[p..p + 32], 8)
         == Word(mem, p) + Word(mem, p + 8) + Word(mem, p + 16) + Word(mem, p + 24)
  {
    ChunkSum16(mem, p);
    ChunkSumExtend(mem, p, p + 16, 8);
    ChunkSumExtend(mem, p, p + 24, 8);
  }

  lemma ChunkSum64(mem: seq<byte>, p: nat)
    requires p + 64 <= |mem|
    ensures ChunkSum(mem[p..p + 64], 8)
         == Word(mem, p) + Word(mem, p + 8) + Word(mem, p + 16) + Word(mem, p + 24)
          + Word(mem, p + 32) + Word(mem, p + 40) + Word(mem, p + 48) + Word(mem, p + 56)
  {
    ChunkSum32(mem, p);
    ChunkSumExtend(mem, p, p + 32, 8);
    ChunkSumExtend(mem, p, p + 40, 8);
    ChunkSumExtend(mem, p, p + 48, 8);
    ChunkSumExtend(mem, p, p + 56, 8);
  }

  /** The 40 bytes at `p` as five 8-byte words. */
  lemma ChunkSum40(mem: seq<byte>, p: nat)
    requires p + 40 <= |mem|
    ensures ChunkSum(mem[p..p + 40], 8)
         == Word(mem, p) + Word(mem, p + 8) + Word(mem, p + 16) + Word(mem, p + 24) + Word(mem, p + 32)
  {
    assert mem[p..p] == [];
    ChunkSumExtend(mem, p, p, 8);
    ChunkSumExtend(mem, p, p + 8, 8);
    ChunkSumExtend(mem, p, p + 16, 8);
    ChunkSumExtend(mem, p, p + 24, 8);
    ChunkSumExtend(mem, p, p + 32, 8);
  }

  /** The 40 bytes at `p` as ten 4-byte words. */
  lemma DwordSum40(mem: seq<byte>, p: nat)
    requires p + 40 <= |mem|
    ensures ChunkSum(mem[p..p + 40], 4)
         == Dword(mem, p) + Dword(mem, p + 4) + Dword(mem, p + 8) + Dword(mem, p + 12) + Dword(mem, p + 16)
          + Dword(mem, p + 20) + Dword(mem, p + 24) + Dword(mem, p + 28) + Dword(mem, p + 32) + Dword(mem, p + 36)
  {
    assert mem[p..p] == [];
    ChunkSumExtend(mem, p, p, 4);
    ChunkSumExtend(mem, p, p + 4, 4);
    ChunkSumExtend(mem, p, p + 8, 4);
    ChunkSumExtend(mem, p, p + 12, 4);
    ChunkSumExtend(mem, p, p + 16, 4);
    ChunkSumExtend(mem, p, p + 20, 4);
    ChunkSumExtend(mem, p, p + 24, 4);
    ChunkSumExtend(mem, p, p + 28, 4);
    ChunkSumExtend(mem, p, p + 32, 4);
    ChunkSumExtend(mem, p, p + 36, 4);
  }
}
