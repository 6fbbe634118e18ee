/**
 * The general kernels `csum_partial`, `__csum_partial` and `csum_partial40`.
 *
 * `temp64` is the 64-bit accumulator. Each `asm` statement is one carry
 * chain: an `addq` of the first memory word, `adcq` of the following ones,
 * and a closing `adcq $0` that adds the last carry back; each chain is a
 * method here, one instruction per step with its carry flag explicit.
 */
module Generic {
  import opened Arith
  import opened Words
  import opened OnesComplement
  import opened Alu
  import opened Fold
  import opened Tail
  import opened Checksum

  /** Lines 94-102: eight words added into temp64 by one chain. */
  method AddBlock64(mem: seq<byte>, src: nat, temp64: nat) returns (res: nat)
    requires src + 64 <= |mem| && temp64 < B64
    ensures res == OnesSum(B64, temp64 + ChunkSum(mem[src..src + 64], 8))
  {
    var s := AddStep(B64, temp64, Word(mem, src));  // addq 0*8(src), res
    ghost var t := temp64 + Word(mem, src);
    s := AdcStep(B64, s, Word(mem, src + 8), t);  // adcq 1*8(src), res
    t := t + Word(mem, src + 8);
    s := AdcStep(B64, s, Word(mem, src + 16), t);  // adcq 2*8(src), res
    t := t + Word(mem, src + 16);
    s := AdcStep(B64, s, Word(mem, src + 24), t);  // adcq 3*8(src), res
    t := t + Word(mem, src + 24);
    s := AdcStep(B64, s, Word(mem, src + 32), t);  // adcq 4*8(src), res
    t := t + Word(mem, src + 32);
    s := AdcStep(B64, s, Word(mem, src + 40), t);  // adcq 5*8(src), res
    t := t + Word(mem, src + 40);
    s := AdcStep(B64, s, Word(mem, src + 48), t);  // adcq 6*8(src), res
    t := t + Word(mem, src + 48);
    s := AdcStep(B64, s, Word(mem, src + 56), t);  // adcq 7*8(src), res
    t := t + Word(mem, src + 56);
    s := AdcStep(B64, s, 0, t);  // adcq $0, res
    ChunkSum64(mem, src);
    res := s.reg;
  }

  /** Lines 111-115: four words added into temp64 by one chain. */
  method AddBlock32(mem: seq<byte>, src: nat, temp64: nat) returns (res: nat)
    requires src + 32 <= |mem| && temp64 < B64
    ensures res == OnesSum(B64, temp64 + ChunkSum(mem[src..src + 32], 8))
  {
    var s := AddStep(B64, temp64, Word(mem, src));  // addq 0*8(src), res
    ghost var t := temp64 + Word(mem, src);
    s := AdcStep(B64, s, Word(mem, src + 8), t);  // adcq 1*8(src), res
    t := t + Word(mem, src + 8);
    s := AdcStep(B64, s, Word(mem, src + 16), t);  // adcq 2*8(src), res
    t := t + Word(mem, src + 16);
    s := AdcStep(B64, s, Word(mem, src + 24), t);  // adcq 3*8(src), res
    t := t + Word(mem, src + 24);
    s := AdcStep(B64, s, 0, t);  // adcq $0, res
    ChunkSum32(mem, src);
    res := s.reg;
  }

  /** Lines 122-124: two words added into temp64 by one chain. */
  method AddBlock16(mem: seq<byte>, src: nat, temp64: nat) returns (res: nat)
    requires src + 16 <= |mem| && temp64 < B64
    ensures res == OnesSum(B64, temp64 + ChunkSum(mem[src..src + 16], 8))
  {
    var s := AddStep(B64, temp64, Word(mem, src));  // addq 0*8(src), res
    ghost var t := temp64 + Word(mem, src);
    s := AdcStep(B64, s, Word(mem, src + 8), t);  // adcq 1*8(src), res
    t := t + Word(mem, src + 8);
    s := AdcStep(B64, s, 0, t);  // adcq $0, res
    ChunkSum16(mem, src);
    res := s.reg;
  }

  /** Lines 131-132: one word added into temp64 by one chain. */
  method AddBlock8(mem: seq<byte>, src: nat, temp64: nat) returns (res: nat)
    requires src + 8 <= |mem| && temp64 < B64
    ensures res == OnesSum(B64, temp64 + ChunkSum(mem[src..src + 8], 8))
  {
    var s := AddStep(B64, temp64, Word(mem, src));  // addq 0*8(src), res
    ghost var t := temp64 + Word(mem, src);
    s := AdcStep(B64, s, 0, t);  // adcq $0, res
    ChunkSum8(mem, src);
    res := s.reg;
  }

  /** Lines 144-145: the masked trailing bytes added into temp64, the carry added back. */
  method AddTrail(temp64: nat, trail: nat) returns (res: nat)
    requires temp64 < B64 && trail < B64
    ensures res == OnesSum(B64, temp64 + trail)
  {
    var s := AddStep(B64, temp64, trail);  // addq trail, res
    s := AdcStep(B64, s, 0, temp64 + trail);  // adcq $0, res
    res := s.reg;
  }

  /**
   * Lines 110-120: when `len & 32` is set, four words more and `buff += 32`. An
   * accumulator that has added the `w` words from `p0` to `buff` to `t0`
   * has then added the words from `p0` to `buff'`.
   */
  method AddIf32(mem: seq<byte>, buff: nat, len: nat, temp64: nat, ghost p0: nat, ghost w: nat, ghost t0: nat)
      returns (buff': nat, temp64': nat, ghost w': nat)
    requires buff + len % 64 <= |mem| && buff == p0 + 8 * w
    requires temp64 == OnesSum(B64, t0 + ChunkSum(mem[p0..buff], 8))
    ensures buff' + len % 32 == buff + len % 64 && buff' == p0 + 8 * w'
    ensures temp64' == OnesSum(B64, t0 + ChunkSum(mem[p0..buff'], 8))
  {
    ModHalf(len, 32);
    buff', temp64', w' := buff, temp64, w;
    if len / 32 % 2 == 1 {
      temp64' := AddBlock32(mem, buff, temp64);
      Advance(mem, p0, w, buff, buff + 32, t0, temp64, temp64');
      buff', w' := buff + 32, w + 4;
    }
  }

  /**
   * Lines 121-129: when `len & 16` is set, two words more and `buff += 16`. An
   * accumulator that has added the `w` words from `p0` to `buff` to `t0`
   * has then added the words from `p0` to `buff'`.
   */
  method AddIf16(mem: seq<byte>, buff: nat, len: nat, temp64: nat, ghost p0: nat, ghost w: nat, ghost t0: nat)
      returns (buff': nat, temp64': nat, ghost w': nat)
    requires buff + len % 32 <= |mem| && buff == p0 + 8 * w
    requires temp64 == OnesSum(B64, t0 + ChunkSum(mem[p0..buff], 8))
    ensures buff' + len % 16 == buff + len % 32 && buff' == p0 + 8 * w'
    ensures temp64' == OnesSum(B64, t0 + ChunkSum(mem[p0..buff'], 8))
  {
    ModHalf(len, 16);
    buff', temp64', w' := buff, temp64, w;
    if len / 16 % 2 == 1 {
      temp64' := AddBlock16(mem, buff, temp64);
      Advance(mem, p0, w, buff, buff + 16, t0, temp64, temp64');
      buff', w' := buff + 16, w + 2;
    }
  }

  /**
   * Lines 130-137: when `len & 8` is set, one word more and `buff += 8`. An
   * accumulator that has added the `w` words from `p0` to `buff` to `t0`
   * has then added the words from `p0` to `buff'`.
   */
  method AddIf8(mem: seq<byte>, buff: nat, len: nat, temp64: nat, ghost p0: nat, ghost w: nat, ghost t0: nat)
      returns (buff': nat, temp64': nat, ghost w': nat)
    requires buff + len % 16 <= |mem| && buff == p0 + 8 * w
    requires temp64 == OnesSum(B64, t0 + ChunkSum(mem[p0..buff], 8))
    ensures buff' + len % 8 == buff + len % 16 && buff' == p0 + 8 * w'
    ensures temp64' == OnesSum(B64, t0 + ChunkSum(mem[p0..buff'], 8))
  {
    ModHalf(len, 8);
    buff', temp64', w' := buff, temp64, w;
    if len / 8 % 2 == 1 {
      temp64' := AddBlock8(mem, buff, temp64);
      Advance(mem, p0, w, buff, buff + 8, t0, temp64, temp64');
      buff', w' := buff + 8, w + 1;
    }
  }

  /**
   * Lines 138-148: when `len & 7` is set, the last `len & 7` bytes, loaded
   * with `load_unaligned_zeropad` and masked by the two shifts, complete the
   * sum from `p0` to the end of the buffer.
   */
  method AddIfTail(mem: seq<byte>, buff: nat, len: nat, temp64: nat, ghost p0: nat, ghost w: nat, ghost t0: nat, ghost e: nat)
      returns (temp64': nat)
    requires |mem| % 8 == 0 && e == buff + len % 8 <= |mem| && buff == p0 + 8 * w
    requires temp64 == OnesSum(B64, t0 + ChunkSum(mem[p0..buff], 8))
    ensures temp64' == OnesSum(B64, t0 + ChunkSum(mem[p0..e], 8))
  {
    temp64' := temp64;
    if len % 8 != 0 {
      var trail := Trail(mem, buff, len % 8);
      temp64' := AddTrail(temp64, trail);
      assert (buff - p0) % 8 == 0 by { DivModUnique(buff - p0, 8, w, 0); }
      ChunkSumTail(mem, p0, buff, len % 8, 8);
      OnesSumAbsorb(B64, trail, t0 + ChunkSum(mem[p0..buff], 8));
    } else {
      assert mem[p0..e] == mem[p0..buff];
    }
  }

  /**
   * An accumulator folded over the `k` words of `mem[p0..q]` that then adds
   * `mem[q..e]` has added `mem[p0..e]`.
   */
  lemma Advance(mem: seq<byte>, p0: nat, k: nat, q: nat, e: nat, t0: nat, temp64: nat, res: nat)
    requires q == p0 + 8 * k && q <= e <= |mem|
    requires temp64 == OnesSum(B64, t0 + ChunkSum(mem[p0..q], 8))
    requires res == OnesSum(B64, temp64 + ChunkSum(mem[q..e], 8))
    ensures res == OnesSum(B64, t0 + ChunkSum(mem[p0..e], 8))
  {
    assert mem[p0..e] == mem[p0..q] + mem[q..e];
    assert |mem[p0..q]| % 8 == 0;
    ChunkSumAppend(mem[p0..q], mem[q..e], 8);
    OnesSumAbsorb(B64, ChunkSum(mem[q..e], 8), t0 + ChunkSum(mem[p0..q], 8));
  }

  /** `x % 2m` is `x % m` plus the bit of `x` worth m. */
  lemma ModHalf(x: nat, m: nat)
    requires m > 0
    ensures x % (2 * m) == x % m + x / m % 2 * m
  {
    var q, r := x / (2 * m), x % (2 * m);
    if r < m {
      DivModUnique(x, m, 2 * q, r);
    } else {
      DivModUnique(x, m, 2 * q + 1, r - m);
    }
  }

  /**
   * Lines 93-108 (and 242-257): the loop that adds eight words at a time
   * while at least 64 bytes remain.
   */
  method AddBlocks(mem: seq<byte>, buff0: nat, len0: nat, temp0: nat)
      returns (buff: nat, len: nat, temp64: nat, ghost k: nat)
    requires buff0 + len0 <= |mem| && temp0 < B64
    ensures len < 64 && buff == buff0 + 8 * k && buff + len == buff0 + len0
    ensures len == len0 % 64
    ensures temp64 == OnesSum(B64, temp0 + ChunkSum(mem[buff0..buff], 8))
  {
    buff, len, k := buff0, len0, 0;
    temp64 := temp0;
    assert mem[buff0..buff] == [];
    while len >= 64
      invariant buff == buff0 + 8 * k && buff + len == buff0 + len0
      invariant len % 64 == len0 % 64
      invariant temp64 == OnesSum(B64, temp0 + ChunkSum(mem[buff0..buff], 8))
    {
      var t := AddBlock64(mem, buff, temp64);
      Advance(mem, buff0, k, buff, buff + 64, temp0, temp64, t);
      temp64, buff, len, k := t, buff + 64, len - 64, k + 8;
    }
  }

  /**
   * Lines 110-148 (and 259-297): the 32-, 16- and 8-byte steps selected by
   * the bits of `len` below 64, and the masked tail, which take an
   * accumulator holding the words from `p0` to `buff` to one holding every
   * byte from `p0` to the end `e` of the buffer.
   */
  method AddRemainder(mem: seq<byte>, buff: nat, len: nat, temp64: nat, ghost p0: nat, ghost w: nat, ghost t0: nat, ghost e: nat)
      returns (temp64': nat)
    requires |mem| % 8 == 0 && len < 64 && e == buff + len <= |mem| && buff == p0 + 8 * w
    requires temp64 == OnesSum(B64, t0 + ChunkSum(mem[p0..buff], 8))
    ensures temp64' == OnesSum(B64, t0 + ChunkSum(mem[p0..e], 8))
  {
    assert len % 64 == len;
    var b, t, k := AddIf32(mem, buff, len, temp64, p0, w, t0);
    b, t, k := AddIf16(mem, b, len, t, p0, k, t0);
    b, t, k := AddIf8(mem, b, len, t, p0, k, t0);
    temp64' := AddIfTail(mem, b, len, t, p0, k, t0, e);
  }

  /**
   * Lines 93-148 (and 242-297): the whole accumulation. The accumulator
   * ends up holding the 64-bit one's-complement sum of its start value and
   * the buffer's 8-byte words.
   */
  method Accumulate(mem: seq<byte>, buff0: nat, len0: nat, temp0: nat) returns (temp64: nat)
    requires |mem| % 8 == 0 && buff0 + len0 <= |mem| && temp0 < B64
    ensures temp64 == OnesSum(B64, temp0 + ChunkSum(mem[buff0..buff0 + len0], 8))
  {
    var buff, len, t, k := AddBlocks(mem, buff0, len0, temp0);
    temp64 := AddRemainder(mem, buff, len, t, buff0, k, temp0, buff0 + len0);
  }

  /**
   * `csum_partial(buff, len, sum)`, lines 79-155: on an odd address the
   * first byte is added shifted left by 8 and the rest of the buffer is
   * summed from the next, even, address; the 64-bit sum is folded to 32 bits,
   * and on an odd address further to 16 bits with its bytes swapped.
   */
  method CsumPartial(mem: seq<byte>, buff: nat, len: nat, sum: nat) returns (r: nat)
    requires |mem| % 8 == 0 && buff + len <= |mem| && sum < B32
    ensures r == Csum(mem[buff..buff + len], buff % 2 == 1, sum)
  {
    var temp64 := sum;
    var odd := buff % 2 == 1;
    var p, n := buff, len;
    if odd {
      if len == 0 {
        return sum;
      }
      temp64 := temp64 + (mem[buff] as nat) * 256;
      n := n - 1;
      p := p + 1;
    }
    var t := Accumulate(mem, p, n, temp64);
    Fold64To32(t);
    OnesSumNarrow64To32(temp64 + ChunkSum(mem[p..p + n], 8));
    var result := Add32WithCarry(t / B32, t % B32);
    if odd {
      result := From32to16(result);
      result := ByteSwap16(result);
      assert mem[buff..buff + len][1..] == mem[p..p + n];
      OddPath(mem[buff..buff + len], sum);
    }
    r := result;
  }

  /** `__csum_partial`, lines 158-234: the same code as `csum_partial` under a second name. */
  method InnerCsumPartial(mem: seq<byte>, buff: nat, len: nat, sum: nat) returns (r: nat)
    requires |mem| % 8 == 0 && buff + len <= |mem| && sum < B32
    ensures r == Csum(mem[buff..buff + len], buff % 2 == 1, sum)
  {
    r := CsumPartial(mem, buff, len, sum);
  }

  /**
   * `csum_partial40(buff, len, sum)`, lines 237-300: `csum_partial` without
   * the odd-address prologue and epilogue; the buffer is summed in 8-byte
   * words from `buff` whatever its alignment.
   */
  method CsumPartial40(mem: seq<byte>, buff: nat, len: nat, sum: nat) returns (r: nat)
    requires |mem| % 8 == 0 && buff + len <= |mem| && sum < B32
    ensures r == PartialSum(mem[buff..buff + len], sum)
  {
    var temp64 := Accumulate(mem, buff, len, sum);
    Fold64To32(temp64);
    OnesSumNarrow64To32(sum + ChunkSum(mem[buff..buff + len], 8));
    r := Add32WithCarry(temp64 / B32, temp64 % B32);
  }
}
