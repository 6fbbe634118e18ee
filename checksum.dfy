/**
 * What the kernels compute, stated on the bytes of the buffer, and the
 * properties of the Internet checksum they inherit from it.
 *
 * `PartialSum(data, sum)` is the 32-bit one's-complement sum of the seed
 * `sum` and the buffer read as 8-byte little-endian words: the value of
 * `csum_partial40` and of `csum_partial` on an even address.
 * `Csum(data, odd, sum)` is the value of `csum_partial` for either
 * alignment. The lemmas relate both to the RFC 1071 sum of 16-bit words.
 */
module Checksum {
  import opened Arith
  import opened Words
  import opened OnesComplement
  import opened Fold

  /**
   * The sum of section 2 of RFC 1071 over the buffer, with 16-bit words read
   * little-endian as an x86 load reads them, and a trailing odd byte as the
   * low byte of a word whose high byte is zero.
   */
  function InternetSum(data: seq<byte>): (r: nat)
    ensures Cong(r, LE(data), M16)
    ensures r == 0 <==> LE(data) == 0
  {
    PowConstants();
    ChunkSumCong(data, 2);
    ChunkSumZero(data, 2);
    ChunkSum(data, 2)
  }

  /** Every way of cutting the buffer into words agrees with its whole value modulo 2^k - 1. */
  lemma WordSums(data: seq<byte>)
    ensures Cong(ChunkSum(data, 8), LE(data), M32)
    ensures Cong(ChunkSum(data, 8), LE(data), M16)
    ensures Cong(ChunkSum(data, 4), LE(data), M32)
    ensures Cong(InternetSum(data), LE(data), M16)
    ensures ChunkSum(data, 8) == 0 <==> LE(data) == 0
    ensures ChunkSum(data, 4) == 0 <==> LE(data) == 0
    ensures InternetSum(data) == 0 <==> LE(data) == 0
  {
    PowConstants();
    ChunkSumCong(data, 8);
    ChunkSumCong(data, 4);
    ChunkSumCong(data, 2);
    CongNarrow64To32(ChunkSum(data, 8), LE(data));
    CongNarrow32To16(ChunkSum(data, 8), LE(data));
    ChunkSumZero(data, 8);
    ChunkSumZero(data, 4);
    ChunkSumZero(data, 2);
  }

  /**
   * The 32-bit partial checksum of `csum_partial40`: below 2^32, zero only
   * when the seed and every byte are zero, equal to the one's-complement sum
   * of the 32-bit words, and folding to the RFC 1071 sum of the 16-bit words.
   */
  function PartialSum(data: seq<byte>, sum: nat): (r: nat)
    requires sum < B32
    ensures r < B32
    ensures r == 0 <==> sum == 0 && LE(data) == 0
    ensures r == OnesSum(B32, sum + ChunkSum(data, 4))
    ensures From32to16(r) == OnesSum(B16, sum + InternetSum(data))
  {
    DwordsAgree(data, sum);
    FoldsToInternetSum(data, sum);
    OnesSum(B32, sum + ChunkSum(data, 8))
  }

  /** The 32-bit sums of the 8-byte and of the 4-byte words are equal, and zero only for zero. */
  lemma DwordsAgree(data: seq<byte>, sum: nat)
    ensures OnesSum(B32, sum + ChunkSum(data, 8)) == OnesSum(B32, sum + ChunkSum(data, 4))
    ensures OnesSum(B32, sum + ChunkSum(data, 8)) == 0 <==> sum == 0 && LE(data) == 0
  {
    WordSums(data);
    CongRefl(sum, M32);
    CongSymm(ChunkSum(data, 4), LE(data), M32);
    CongTrans(ChunkSum(data, 8), LE(data), ChunkSum(data, 4), M32);
    CongAdd(sum, sum, ChunkSum(data, 8), ChunkSum(data, 4), M32);
    OnesSumCongruent(B32, sum + ChunkSum(data, 8), sum + ChunkSum(data, 4));
  }

  /** The 32-bit sum of the 8-byte words folds to the 16-bit sum of the 16-bit words. */
  lemma FoldsToInternetSum(data: seq<byte>, sum: nat)
    ensures From32to16(OnesSum(B32, sum + ChunkSum(data, 8))) == OnesSum(B16, sum + InternetSum(data))
  {
    var w8, i := ChunkSum(data, 8), InternetSum(data);
    PowConstants();
    ChunkSumCong(data, 8);
    CongNarrow64To32(w8, LE(data));
    CongNarrow32To16(w8, LE(data));
    ChunkSumZero(data, 8);
    OnesSumNarrow32To16(sum + w8);
    CongRefl(sum, M16);
    CongSymm(i, LE(data), M16);
    CongTrans(w8, LE(data), i, M16);
    CongAdd(sum, sum, w8, i, M16);
    OnesSumCongruent(B16, sum + w8, sum + i);
  }

  /**
   * The value of `csum_partial(buff, len, sum)` on the `len` bytes `data`
   * at an address whose parity is `odd`. On an even address it is the
   * partial sum; on an odd address an empty buffer gives back `sum`, and
   * otherwise the result is a 16-bit sum in which the seed counts 256 times.
   */
  function Csum(data: seq<byte>, odd: bool, sum: nat): (r: nat)
    requires sum < B32
    ensures r < B32
  {
    if !odd then PartialSum(data, sum)
    else if |data| == 0 then sum
    else OnesSum(B16, 256 * sum + InternetSum(data))
  }

  /**
   * The odd-address path as written: the first byte added as the high byte
   * of a word, the rest of the buffer summed in 8-byte words, the 32-bit
   * result folded to 16 bits and its two bytes swapped.
   */
  lemma OddPath(data: seq<byte>, sum: nat)
    requires sum < B32 && |data| > 0
    ensures ByteSwap16(From32to16(OnesSum(B32, sum + (data[0] as nat) * 256 + ChunkSum(data[1..], 8))))
         == Csum(data, true, sum)
  {
    var b0: nat, rest := data[0], data[1..];
    var t := sum + b0 * 256 + ChunkSum(rest, 8);
    OnesSumNarrow32To16(t);
    ByteSwapOnesSum(t);
    OddShift(data);
    CongRefl(256 * sum, M16);
    CongAdd(256 * sum, 256 * sum, b0 * B16 + 256 * ChunkSum(rest, 8), InternetSum(data), M16);
    assert 256 * t == 256 * sum + (b0 * B16 + 256 * ChunkSum(rest, 8));
    OnesSumCongruent(B16, 256 * t, 256 * sum + InternetSum(data));
  }

  /**
   * The first byte taken as the high byte of a word and the rest of the
   * buffer in 8-byte words, all shifted up by 8 bits, agree with the
   * 16-bit words of the whole buffer modulo 0xffff.
   */
  lemma OddShift(data: seq<byte>)
    requires |data| > 0
    ensures Cong((data[0] as nat) * B16 + 256 * ChunkSum(data[1..], 8), InternetSum(data), M16)
    ensures (data[0] as nat) * B16 + 256 * ChunkSum(data[1..], 8) == 0 <==> InternetSum(data) == 0
  {
    var b0: nat, rest := data[0], data[1..];
    // b0 * 65536 = b0 + 0xffff b0, and LE(data) = b0 + 256 LE(rest).
    WordSums(rest);
    WordSums(data);
    CongScale(ChunkSum(rest, 8), LE(rest), 256, M16);
    CongMultiple(b0, b0, M16);
    CongAdd(b0 + b0 * M16, b0, 256 * ChunkSum(rest, 8), 256 * LE(rest), M16);
    assert LE(data) == b0 + 256 * LE(rest);
    CongSymm(InternetSum(data), LE(data), M16);
    CongTrans(b0 * B16 + 256 * ChunkSum(rest, 8), LE(data), InternetSum(data), M16);
  }

  /** The even path folded to 16 bits is the RFC 1071 one's-complement sum of `sum` and the words. */
  lemma EvenMatchesInternetSum(data: seq<byte>, sum: nat)
    requires sum < B32
    ensures From32to16(Csum(data, false, sum)) == OnesSum(B16, sum + InternetSum(data))
    ensures Cong(Csum(data, false, sum), sum + ChunkSum(data, 4), M32)
    ensures Cong(Csum(data, false, sum), sum + InternetSum(data), M16)
    ensures Csum(data, false, sum) == 0 <==> sum == 0 && forall i :: 0 <= i < |data| ==> data[i] == 0
  {
    var r := Csum(data, false, sum);
    OnesSumCong(B32, sum + ChunkSum(data, 4));
    CongNarrow32To16(r, sum + ChunkSum(data, 4));
    WordSums(data);
    CongNarrow32To16(ChunkSum(data, 4), LE(data));
    CongSymm(InternetSum(data), LE(data), M16);
    CongTrans(ChunkSum(data, 4), LE(data), InternetSum(data), M16);
    CongRefl(sum, M16);
    CongAdd(sum, sum, ChunkSum(data, 4), InternetSum(data), M16);
    CongTrans(r, sum + ChunkSum(data, 4), sum + InternetSum(data), M16);
    LEZero(data);
  }

  /** On an odd address the result fits in 16 bits and counts the seed as 256 * sum modulo 0xffff. */
  lemma OddSeed(data: seq<byte>, sum: nat)
    requires sum < B32 && |data| > 0
    ensures Csum(data, true, sum) < B16
    ensures Cong(Csum(data, true, sum), 256 * sum + InternetSum(data), M16)
  {
    OnesSumCong(B16, 256 * sum + InternetSum(data));
  }

  /**
   * Byte-order independence, item (B) of section 2 of RFC 1071: with a zero
   * seed, the odd-address result is the 16-bit fold of `csum_partial40`'s
   * result on the same bytes.
   */
  lemma ByteOrderIndependence(data: seq<byte>)
    ensures Csum(data, true, 0) == From32to16(PartialSum(data, 0))
  {
    if |data| == 0 {
      assert PartialSum(data, 0) == 0;
    }
  }

  /**
   * With a zero seed, the 16-bit fold of the even-path partial sum is the
   * 16-bit fold of `csum_partial`'s result on either alignment.
   */
  lemma ZeroSeedFoldsAgree(data: seq<byte>, odd: bool)
    ensures From32to16(PartialSum(data, 0)) == From32to16(Csum(data, odd, 0))
  {
    if odd {
      ByteOrderIndependence(data);
      if |data| > 0 {
        OnesSumSmall(B16, Csum(data, true, 0));
      }
    }
  }

  /** An empty buffer leaves the seed unchanged on either alignment. */
  lemma ZeroLength(odd: bool, sum: nat)
    requires sum < B32
    ensures Csum([], odd, sum) == sum
  {
    assert LE([]) == 0 && ChunkSum([], 4) == 0;
    OnesSumSmall(B32, sum);
  }

  /**
   * Incremental checksumming: the partial sum of `a` is the seed for `b`.
   * Exact when `a` is a whole number of 32-bit words.
   */
  lemma Incremental(a: seq<byte>, b: seq<byte>, sum: nat)
    requires sum < B32 && |a| % 4 == 0
    ensures PartialSum(a + b, sum) == PartialSum(b, PartialSum(a, sum))
  {
    var p := PartialSum(a, sum);
    ChunkSumAppend(a, b, 4);
    OnesSumSmall(B32, p);
    ContinueSum(B32, p, sum + ChunkSum(a, 4), ChunkSum(b, 4));
    assert sum + ChunkSum(a + b, 4) == sum + ChunkSum(a, 4) + ChunkSum(b, 4);
  }

  /** For a split after any even number of bytes the chained sums agree once folded to 16 bits. */
  lemma IncrementalFolded(a: seq<byte>, b: seq<byte>, sum: nat)
    requires sum < B32 && |a| % 2 == 0
    ensures From32to16(PartialSum(a + b, sum)) == From32to16(PartialSum(b, PartialSum(a, sum)))
  {
    var p := PartialSum(a, sum);
    ChunkSumAppend(a, b, 2);
    assert From32to16(p) == OnesSum(B16, p);
    ContinueSum(B16, p, sum + InternetSum(a), InternetSum(b));
    assert sum + InternetSum(a + b) == sum + InternetSum(a) + InternetSum(b);
  }

  /** A value whose one's-complement sum is that of `t` can stand for `t` when more is added. */
  lemma ContinueSum(b: nat, p: nat, t: nat, x: nat)
    requires b >= 2 && OnesSum(b, p) == OnesSum(b, t)
    ensures OnesSum(b, p + x) == OnesSum(b, t + x)
  {
    calc {
      OnesSum(b, p + x);
      { assert p + x == x + p; }
      OnesSum(b, x + p);
      { OnesSumAbsorb(b, x, p); }
      OnesSum(b, x + OnesSum(b, p));
      { OnesSumAbsorb(b, x, t); }
      OnesSum(b, x + t);
      { assert x + t == t + x; }
      OnesSum(b, t + x);
    }
  }

  /** A textbook 20-byte IPv4 header (no options), with its checksum field zeroed. */
  const IPv4Header: seq<byte> := [
    0x45, 0x00, 0x00, 0x73, 0x00, 0x00, 0x40, 0x00, 0x40, 0x11,
    0x00, 0x00, 0xc0, 0xa8, 0x00, 0x01, 0xc0, 0xa8, 0x00, 0xc7]

  /** One step of the 16-bit word sum: the first word read little-endian, then the rest. */
  lemma InternetSumCons(s: seq<byte>)
    requires |s| > 2
    ensures InternetSum(s) == s[0] + 256 * s[1] + InternetSum(s[2..])
  {
    var w := s[..2];
    assert w[1..][1..] == [];
    assert LE(w[1..]) == s[1] + 256 * LE(w[1..][1..]);
    assert LE(w) == s[0] as int + 256 * (s[1] as int);
    assert ChunkSum(s, 2) == LE(w) + ChunkSum(s[2..], 2);
  }

  /** The 16-bit little-endian word at offset i, written out byte by byte. */
  function Word16(s: seq<byte>, i: nat): (r: nat)
    requires i + 2 <= |s|
    ensures r == LE(s[i..i + 2])
  {
    var w := s[i..i + 2];
    assert w[1..][1..] == [];
    assert LE(w[1..]) == w[1] + 256 * LE(w[1..][1..]);
    s[i] as nat + 256 * (s[i + 1] as nat)
  }

  /** The 16-bit word sum from an even offset i: the word at i, then the rest. */
  lemma InternetSumFrom(s: seq<byte>, i: nat)
    requires i + 2 < |s|
    ensures InternetSum(s[i..]) == Word16(s, i) + InternetSum(s[i + 2..])
  {
    InternetSumCons(s[i..]);
    assert s[i..][2..] == s[i + 2..];
  }

  /** The last 16-bit word of a buffer is its own word sum. */
  lemma InternetSumLast(s: seq<byte>)
    requires |s| >= 2
    ensures InternetSum(s[|s| - 2..]) == Word16(s, |s| - 2)
  {
    assert s[|s| - 2..] == s[|s| - 2..|s|];
  }

  /** A 20-byte buffer, such as an IPv4 header without options, is ten 16-bit words. */
  lemma InternetSum20(s: seq<byte>)
    requires |s| == 20
    ensures InternetSum(s) == Word16(s, 0) + Word16(s, 2) + Word16(s, 4) + Word16(s, 6) + Word16(s, 8)
                            + Word16(s, 10) + Word16(s, 12) + Word16(s, 14) + Word16(s, 16) + Word16(s, 18)
  {
    assert s[0..] == s;
    InternetSumFrom(s, 0);
    InternetSumFrom(s, 2);
    InternetSumFrom(s, 4);
    InternetSumFrom(s, 6);
    InternetSumFrom(s, 8);
    InternetSumFrom(s, 10);
    InternetSumFrom(s, 12);
    InternetSumFrom(s, 14);
    InternetSumFrom(s, 16);
    InternetSumLast(s);
  }

  /**
   * The known vector: the partial sum of the header, folded to 16 bits, is
   * 0x9e47, the byte-swapped 0x479e, and its complement stored little-endian
   * is the bytes b8 61, the header's well-known checksum 0xb861.
   */
  lemma KnownVectorIPv4(h: seq<byte>)
    requires h == IPv4Header
    ensures From32to16(PartialSum(h, 0)) == 0x9e47
    ensures M16 - From32to16(PartialSum(h, 0)) == LE([0xb8, 0x61])
  {
    HeaderWords();
    FoldsTo(h, 0x29e45);
    HeaderFold();
    ChecksumBytes();
  }

  /** The header's word total folds, with two end-around carries, to 0x9e47. */
  lemma HeaderFold()
    ensures OnesSum(B16, 0x29e45) == 0x9e47
  {
    assert OnesSum(B16, 0x29e45) == OnesSum(B16, 0x19e46);
  }

  /** The bytes b8 61 read little-endian. */
  lemma ChecksumBytes()
    ensures LE([0xb8, 0x61]) == 0x61b8
  {
    assert [0xb8, 0x61][1..] == [0x61];
    assert [0x61][1..] == [];
  }

  /** The header's ten 16-bit words add up to 0x29e45. */
  lemma HeaderWords()
    ensures InternetSum(IPv4Header) == 0x29e45
  {
    InternetSum20(IPv4Header);
  }

  /** With a zero seed, the 16-bit fold of the partial sum is the 16-bit sum of the words. */
  lemma FoldsTo(data: seq<byte>, t: nat)
    requires InternetSum(data) == t
    ensures From32to16(PartialSum(data, 0)) == OnesSum(B16, t)
  {
  }

  /** The known vector of 40 zero bytes and a zero seed checksums to zero. */
  lemma ZeroVector()
    ensures PartialSum(seq(40, _ => 0), 0) == 0
  {
    LEZero(seq(40, _ => 0));
  }
}
