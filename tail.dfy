/**
 * The tail loader `load_unaligned_zeropad` and the masking of the last
 * `len & 7` bytes of a buffer.
 *
 * Memory is `mem`: every readable byte from address 0 up to `|mem|`. The
 * readable region ends on a page boundary, so `|mem|` is a multiple of 8.
 * An 8-byte load at `addr` faults exactly when `addr + 8 > |mem|`; that is
 * when the fixup path runs. The trap and its exception table are not
 * modelled, only the value each path loads.
 */
module Tail {
  import opened Arith
  import opened Words

  /**
   * `x << s` in a 64-bit register: bits shifted past bit 63 are lost, and a
   * value whose top s bits are clear is multiplied by 2^s exactly.
   */
  function Shl64(x: nat, s: nat): (r: nat)
    ensures r < B64
    ensures s <= 64 && x < Pow2(64 - s) ==> r == x * Pow2(s)
  {
    ShlNoLoss(x, s);
    (x * Pow2(s)) % B64
  }

  lemma ShlNoLoss(x: nat, s: nat)
    ensures s <= 64 && x < Pow2(64 - s) ==> (x * Pow2(s)) % B64 == x * Pow2(s)
  {
    if s <= 64 && x < Pow2(64 - s) {
      Pow2Add(64 - s, s);
      PowConstants();
      ProductFits(x, Pow2(s), Pow2(64 - s), B64);
    }
  }

  /** A number below c times a, with c * a == m, stays below m. */
  lemma ProductFits(x: nat, a: nat, c: nat, m: nat)
    requires x < c && c * a == m && a > 0
    ensures (x * a) % m == x * a
  {
    MulMonotone(x + 1, c, a);
    DivModUnique(x * a, m, 0, x * a);
  }

  /**
   * `x >> s`, the logical shift right: the number of whole multiples of
   * 2^s in x, so never more than x.
   */
  function Shr(x: nat, s: nat): (r: nat)
    ensures r <= x
    ensures r * Pow2(s) <= x < r * Pow2(s) + Pow2(s)
  {
    DivNonneg(x, Pow2(s));
    DivAtMost(x, Pow2(s));
    x / Pow2(s)
  }

  /** `(x << s) >> s` keeps the low 64 - s bits of a 64-bit value. */
  lemma ShlShr(x: nat, s: nat)
    requires x < B64 && s <= 64
    ensures Shr(Shl64(x, s), s) == x % Pow2(64 - s)
  {
    var a, c := Pow2(s), Pow2(64 - s);
    Pow2Add(s, 64 - s);
    PowConstants();
    MulModShift(x, a, c);
    MulDivCancel(x % c, a);
  }

  /**
   * `load_unaligned_zeropad(addr)`: the 8 bytes at `addr`; where that load
   * would fault, the aligned word holding `addr` shifted right by
   * 8 * (addr & 7). Either way, the little-endian value of the readable bytes
   * from `addr` on, at most 8 of them, zero above.
   */
  function LoadUnalignedZeropad(mem: seq<byte>, addr: nat): (w: nat)
    requires |mem| % 8 == 0 && addr < |mem|
    ensures w < B64
    ensures w == LE(mem[addr..if addr + 8 <= |mem| then addr + 8 else |mem|])
  {
    if addr + 8 <= |mem| then
      Word(mem, addr)
    else
      var aligned := addr - addr % 8;
      var shift := (addr % 8) * 8;
      FixupValue(mem, addr);
      assert mem[addr..|mem|] == mem[addr..];
      Shr(Word(mem, aligned), shift)
  }

  /** The fixup path reads only the aligned word, the last one of readable memory. */
  lemma FixupValue(mem: seq<byte>, addr: nat)
    requires |mem| % 8 == 0 && addr < |mem| < addr + 8
    ensures addr - addr % 8 + 8 == |mem|
    ensures Shr(Word(mem, addr - addr % 8), (addr % 8) * 8) == LE(mem[addr..])
    ensures Shr(Word(mem, addr - addr % 8), (addr % 8) * 8) < B64
  {
    DivAtMost(Word(mem, addr - addr % 8), Pow2((addr % 8) * 8));
    var aligned, off := addr - addr % 8, addr % 8;
    var w := mem[aligned..aligned + 8];
    assert w[off..] == mem[addr..];
    LESplit(w, off);
    Pow256IsPow2(off);
  }

  /** On the fixup path the top 8 * (addr & 7) bits of the loaded word are zero. */
  lemma FixupTopBitsZero(mem: seq<byte>, addr: nat)
    requires |mem| % 8 == 0 && addr < |mem| < addr + 8
    ensures LoadUnalignedZeropad(mem, addr) < Pow2(64 - 8 * (addr % 8))
  {
    FixupValue(mem, addr);
    LEBound(mem[addr..]);
    Pow256IsPow2(8 - addr % 8);
  }

  /**
   * `trail = (load_unaligned_zeropad(buff) << shift) >> shift` with
   * shift = (8 - rem) * 8 and rem = len & 7: the little-endian value of
   * exactly the `rem` remaining bytes, nothing past the buffer's end.
   */
  function Trail(mem: seq<byte>, p: nat, rem: nat): (t: nat)
    requires |mem| % 8 == 0 && 1 <= rem <= 7 && p + rem <= |mem|
    ensures t == LE(mem[p..p + rem])
    ensures t < B64
  {
    var shift := (8 - rem) * 8;
    var w := LoadUnalignedZeropad(mem, p);
    TrailValue(mem, p, rem);
    DivAtMost(Shl64(w, shift), Pow2(shift));
    Shr(Shl64(w, shift), shift)
  }

  lemma TrailValue(mem: seq<byte>, p: nat, rem: nat)
    requires |mem| % 8 == 0 && 1 <= rem <= 7 && p + rem <= |mem|
    ensures Shr(Shl64(LoadUnalignedZeropad(mem, p), (8 - rem) * 8), (8 - rem) * 8) == LE(mem[p..p + rem])
  {
    var shift := (8 - rem) * 8;
    var w := LoadUnalignedZeropad(mem, p);
    var e := if p + 8 <= |mem| then p + 8 else |mem|;
    ShlShr(w, shift);
    assert 64 - shift == 8 * rem;
    Pow256IsPow2(rem);
    LESplit(mem[p..e], rem);
    assert mem[p..e][..rem] == mem[p..p + rem];
  }
}
