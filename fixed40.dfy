/**
 * The hand-scheduled 40-byte kernels `csum_partial41` to `csum_partial47`.
 * Each ignores `len` and sums exactly 40 bytes at `buff`, in a different
 * arrangement of carry chains: one chain, two chains on CF and OF
 * (`adcx`/`adox`), two chains one after the other on CF, or four 32-bit
 * chains. Each register is modelled with the flag its chain uses, and every
 * chain ends with an `adc` of zero that takes the last carry in.
 *
 * `csum_partial40` (in the Generic module) is the reference: every kernel
 * but `csum_partial46` returns exactly its value, and `csum_partial46`
 * returns its value for a zero seed.
 */
module Fixed40 {
  import opened Arith
  import opened Words
  import opened OnesComplement
  import opened Alu
  import opened Fold
  import opened Checksum

  /**
   * The 64-bit one's-complement sum of `sum` and the five words at `p`,
   * folded by `add32_with_carry`, is the partial sum of the 40 bytes.
   */
  lemma Fold40(mem: seq<byte>, p: nat, sum: nat, x: nat, temp64: nat)
    requires p + 40 <= |mem| && sum < B32
    requires x == sum + Word(mem, p) + Word(mem, p + 8) + Word(mem, p + 16) + Word(mem, p + 24) + Word(mem, p + 32)
    requires temp64 == OnesSum(B64, x)
    ensures Add32WithCarry(temp64 / B32, temp64 % B32) == PartialSum(mem[p..p + 40], sum)
  {
    ChunkSum40(mem, p);
    Fold64To32(temp64);
    OnesSumNarrow64To32(x);
  }

  /**
   * The three 32-bit registers of `csum_partial47`, each the one's-complement
   * sum of three of the ten 4-byte words, added with word 9 into the seed,
   * give the partial sum of the 40 bytes.
   */
  lemma Gather47(mem: seq<byte>, p: nat, sum: nat, r9: nat, r11: nat, r10: nat, edx: nat)
    requires p + 40 <= |mem| && sum < B32
    requires r9 == OnesSum(B32, Dword(mem, p) + Dword(mem, p + 16) + Dword(mem, p + 20))
    requires r11 == OnesSum(B32, Dword(mem, p + 4) + Dword(mem, p + 24) + Dword(mem, p + 28))
    requires r10 == OnesSum(B32, Dword(mem, p + 8) + Dword(mem, p + 32) + Dword(mem, p + 12))
    requires edx == OnesSum(B32, sum + Dword(mem, p + 36) + r9 + r11 + r10)
    ensures edx == PartialSum(mem[p..p + 40], sum)
  {
    var t9 := Dword(mem, p) + Dword(mem, p + 16) + Dword(mem, p + 20);
    var t11 := Dword(mem, p + 4) + Dword(mem, p + 24) + Dword(mem, p + 28);
    var t10 := Dword(mem, p + 8) + Dword(mem, p + 32) + Dword(mem, p + 12);
    AbsorbThree(B32, sum + Dword(mem, p + 36), t9, t11, t10);
    DwordSum40(mem, p);
    assert sum + Dword(mem, p + 36) + t9 + t11 + t10 == sum + ChunkSum(mem[p..p + 40], 4);
  }

  /** Three chains summed separately and then added together sum their words together. */
  lemma AbsorbThree(b: nat, a: nat, t1: nat, t2: nat, t3: nat)
    requires b >= 2
    ensures OnesSum(b, a + OnesSum(b, t1) + OnesSum(b, t2) + OnesSum(b, t3)) == OnesSum(b, a + t1 + t2 + t3)
  {
    var r1, r2 := OnesSum(b, t1), OnesSum(b, t2);
    calc {
      OnesSum(b, (a + r1 + r2) + OnesSum(b, t3));
      { OnesSumAbsorb(b, a + r1 + r2, t3); }
      OnesSum(b, (a + r1 + t3) + OnesSum(b, t2));
      { OnesSumAbsorb(b, a + r1 + t3, t2); }
      OnesSum(b, (a + t2 + t3) + OnesSum(b, t1));
      { OnesSumAbsorb(b, a + t2 + t3, t1); }
      OnesSum(b, a + t1 + t2 + t3);
    }
  }

  /** `csum_partial41`, lines 303-320: one `addq`/`adcq` chain over the five words into the seed. */
  method CsumPartial41(mem: seq<byte>, buff: nat, len: nat, sum: nat) returns (r: nat)
    requires buff + 40 <= |mem| && sum < B32
    ensures r == PartialSum(mem[buff..buff + 40], sum)
  {
    var w0, w1, w2, w3, w4 := Word(mem, buff), Word(mem, buff + 8), Word(mem, buff + 16), Word(mem, buff + 24), Word(mem, buff + 32);
    var res := AddStep(B64, sum, w0);                   // addq 0*8(src), res
    res := AdcStep(B64, res, w1, sum + w0);             // adcq 1*8(src), res
    res := AdcStep(B64, res, w2, sum + w0 + w1);
    res := AdcStep(B64, res, w3, sum + w0 + w1 + w2);
    res := AdcStep(B64, res, w4, sum + w0 + w1 + w2 + w3);
    res := AdcStep(B64, res, 0, sum + w0 + w1 + w2 + w3 + w4);  // adcq $0, res
    var temp64 := res.reg;
    Fold40(mem, buff, sum, sum + w0 + w1 + w2 + w3 + w4, temp64);
    r := Add32WithCarry(temp64 / B32, temp64 % B32);
  }

  /**
   * `csum_partial42`, lines 322-341: `xorq %r9, %r9` clears r9, CF and OF;
   * an `adcx` chain on CF sums words 0-2 into rcx and closes with r9, and an
   * `adox` chain on OF adds words 3 and 4 and then rcx into the seed and
   * closes with r9.
   */
  method CsumPartial42(mem: seq<byte>, buff: nat, len: nat, sum: nat) returns (r: nat)
    requires buff + 40 <= |mem| && sum < B32
    ensures r == PartialSum(mem[buff..buff + 40], sum)
  {
    var w0, w1, w2, w3, w4 := Word(mem, buff), Word(mem, buff + 8), Word(mem, buff + 16), Word(mem, buff + 24), Word(mem, buff + 32);
    var r9, cf, of := 0, false, false;                  // xorq r9, r9: CF and OF clear
    var rcx := RegFlag(w0, cf);                         // movq 0*8(src), rcx: flags unchanged
    ChainStarts(B64, w0);
    rcx := AdcStep(B64, rcx, w1, w0);                   // adcx 1*8(src), rcx
    rcx := AdcStep(B64, rcx, w2, w0 + w1);              // adcx 2*8(src), rcx
    rcx := AdcStep(B64, rcx, r9, w0 + w1 + w2);         // adcx r9, rcx
    cf := rcx.flag;                                     // adcx wrote CF only: OF is still clear
    var res := RegFlag(sum, of);                        // adox chain on res and OF
    ChainStarts(B64, sum);
    res := AdcStep(B64, res, w3, sum);                  // adox 3*8(src), res
    res := AdcStep(B64, res, w4, sum + w3);             // adox 4*8(src), res
    res := AdcStep(B64, res, rcx.reg, sum + w3 + w4);   // adox rcx, res
    res := AdcStep(B64, res, r9, sum + w3 + w4 + rcx.reg);  // adox r9, res
    var temp64 := res.reg;
    OnesSumAbsorb(B64, sum + w3 + w4, w0 + w1 + w2);
    assert sum + w3 + w4 + (w0 + w1 + w2) == sum + w0 + w1 + w2 + w3 + w4;
    Fold40(mem, buff, sum, sum + w0 + w1 + w2 + w3 + w4, temp64);
    r := Add32WithCarry(temp64 / B32, temp64 % B32);
  }

  /**
   * `csum_partial43`, lines 343-367: as `csum_partial42` with words 0-3 on
   * the CF chain and only word 4 on the OF chain.
   */
  method CsumPartial43(mem: seq<byte>, buff: nat, len: nat, sum: nat) returns (r: nat)
    requires buff + 40 <= |mem| && sum < B32
    ensures r == PartialSum(mem[buff..buff + 40], sum)
  {
    var w0, w1, w2, w3, w4 := Word(mem, buff), Word(mem, buff + 8), Word(mem, buff + 16), Word(mem, buff + 24), Word(mem, buff + 32);
    var r9, cf, of := 0, false, false;                  // xorq r9, r9: CF and OF clear
    var rcx := RegFlag(w0, cf);                         // movq 0*8(src), rcx: flags unchanged
    ChainStarts(B64, w0);
    rcx := AdcStep(B64, rcx, w1, w0);                   // adcx 1*8(src), rcx
    rcx := AdcStep(B64, rcx, w2, w0 + w1);
    rcx := AdcStep(B64, rcx, w3, w0 + w1 + w2);
    rcx := AdcStep(B64, rcx, r9, w0 + w1 + w2 + w3);    // adcx r9, rcx
    cf := rcx.flag;                                     // adcx wrote CF only: OF is still clear
    var res := RegFlag(sum, of);                        // adox chain on res and OF
    ChainStarts(B64, sum);
    res := AdcStep(B64, res, w4, sum);                  // adox 4*8(src), res
    res := AdcStep(B64, res, rcx.reg, sum + w4);        // adox rcx, res
    res := AdcStep(B64, res, r9, sum + w4 + rcx.reg);   // adox r9, res
    var temp64 := res.reg;
    OnesSumAbsorb(B64, sum + w4, w0 + w1 + w2 + w3);
    assert sum + w4 + (w0 + w1 + w2 + w3) == sum + w0 + w1 + w2 + w3 + w4;
    Fold40(mem, buff, sum, sum + w0 + w1 + w2 + w3 + w4, temp64);
    r := Add32WithCarry(temp64 / B32, temp64 % B32);
  }

  /**
   * `csum_partial44`, lines 369-388: an `addq`/`adcq` chain sums words 0-2
   * into rcx and closes with `adcq $0`; a second chain on the same CF adds
   * words 3 and 4 and then rcx into the seed and closes with `adcq $0`.
   */
  method CsumPartial44(mem: seq<byte>, buff: nat, len: nat, sum: nat) returns (r: nat)
    requires buff + 40 <= |mem| && sum < B32
    ensures r == PartialSum(mem[buff..buff + 40], sum)
  {
    var w0, w1, w2, w3, w4 := Word(mem, buff), Word(mem, buff + 8), Word(mem, buff + 16), Word(mem, buff + 24), Word(mem, buff + 32);
    var rcx := AddStep(B64, w0, w1);                    // movq 0*8(src), rcx; addq 1*8(src), rcx
    rcx := AdcStep(B64, rcx, w2, w0 + w1);              // adcq 2*8(src), rcx
    rcx := AdcStep(B64, rcx, 0, w0 + w1 + w2);          // adcq $0, rcx
    // xorq r9, r9: r9 is not read again, and the flags it clears are overwritten by addq
    var res := AddStep(B64, sum, w3);                   // addq 3*8(src), res
    res := AdcStep(B64, res, w4, sum + w3);             // adcq 4*8(src), res
    res := AdcStep(B64, res, rcx.reg, sum + w3 + w4);   // adcq rcx, res
    res := AdcStep(B64, res, 0, sum + w3 + w4 + rcx.reg);  // adcq $0, res
    var temp64 := res.reg;
    OnesSumAbsorb(B64, sum + w3 + w4, w0 + w1 + w2);
    assert sum + w3 + w4 + (w0 + w1 + w2) == sum + w0 + w1 + w2 + w3 + w4;
    Fold40(mem, buff, sum, sum + w0 + w1 + w2 + w3 + w4, temp64);
    r := Add32WithCarry(temp64 / B32, temp64 % B32);
  }

  /**
   * `csum_partial45`, lines 391-410: as `csum_partial44` with words 0-3 in
   * the first chain, both chains closing with the zeroed r9.
   */
  method CsumPartial45(mem: seq<byte>, buff: nat, len: nat, sum: nat) returns (r: nat)
    requires buff + 40 <= |mem| && sum < B32
    ensures r == PartialSum(mem[buff..buff + 40], sum)
  {
    var w0, w1, w2, w3, w4 := Word(mem, buff), Word(mem, buff + 8), Word(mem, buff + 16), Word(mem, buff + 24), Word(mem, buff + 32);
    var r9 := 0;                                        // xorq r9, r9
    var rcx := AddStep(B64, w0, w1);                    // movq 0*8(src), rcx; addq 1*8(src), rcx
    rcx := AdcStep(B64, rcx, w2, w0 + w1);              // adcq 2*8(src), rcx
    rcx := AdcStep(B64, rcx, w3, w0 + w1 + w2);         // adcq 3*8(src), rcx
    rcx := AdcStep(B64, rcx, r9, w0 + w1 + w2 + w3);    // adcq r9, rcx
    var res := AddStep(B64, sum, w4);                   // addq 4*8(src), res
    res := AdcStep(B64, res, rcx.reg, sum + w4);        // adcq rcx, res
    res := AdcStep(B64, res, r9, sum + w4 + rcx.reg);   // adcq r9, res
    var temp64 := res.reg;
    OnesSumAbsorb(B64, sum + w4, w0 + w1 + w2 + w3);
    assert sum + w4 + (w0 + w1 + w2 + w3) == sum + w0 + w1 + w2 + w3 + w4;
    Fold40(mem, buff, sum, sum + w0 + w1 + w2 + w3 + w4, temp64);
    r := Add32WithCarry(temp64 / B32, temp64 % B32);
  }

  /**
   * `csum_partial46`, lines 413-431: as `csum_partial44`, except that the
   * second chain starts by loading word 3 into the accumulator (`movq`, an
   * early-clobber output) instead of adding it to the seed, so `sum` is not
   * read and the result is the partial sum for a zero seed.
   */
  method CsumPartial46(mem: seq<byte>, buff: nat, len: nat, sum: nat) returns (r: nat)
    requires buff + 40 <= |mem|
    ensures r == PartialSum(mem[buff..buff + 40], 0)
  {
    var w0, w1, w2, w3, w4 := Word(mem, buff), Word(mem, buff + 8), Word(mem, buff + 16), Word(mem, buff + 24), Word(mem, buff + 32);
    var rcx := AddStep(B64, w0, w1);                    // movq 0*8(src), rcx; addq 1*8(src), rcx
    rcx := AdcStep(B64, rcx, w2, w0 + w1);              // adcq 2*8(src), rcx
    rcx := AdcStep(B64, rcx, 0, w0 + w1 + w2);          // adcq $0, rcx
    var res := AddStep(B64, w3, w4);                    // movq 3*8(src), res; addq 4*8(src), res
    res := AdcStep(B64, res, rcx.reg, w3 + w4);         // adcq rcx, res
    res := AdcStep(B64, res, 0, w3 + w4 + rcx.reg);     // adcq $0, res
    var temp64 := res.reg;
    OnesSumAbsorb(B64, w3 + w4, w0 + w1 + w2);
    assert w3 + w4 + (w0 + w1 + w2) == 0 + w0 + w1 + w2 + w3 + w4;
    Fold40(mem, buff, 0, w0 + w1 + w2 + w3 + w4, temp64);
    r := Add32WithCarry(temp64 / B32, temp64 % B32);
  }

  /**
   * `csum_partial47`, lines 434-466: ten 4-byte words in 32-bit registers.
   * r9d, r11d and r10d each start from one word and add two more in an
   * `addl`/`adcl` chain closed with the zeroed ecx; the 32-bit seed in edx
   * then adds word 9 and the three registers and closes with ecx. There is
   * no final fold: edx is the result.
   */
  method CsumPartial47(mem: seq<byte>, buff: nat, len: nat, sum: nat) returns (r: nat)
    requires buff + 40 <= |mem| && sum < B32
    ensures r == PartialSum(mem[buff..buff + 40], sum)
  {
    var d0, d1, d2, d3, d4 := Dword(mem, buff), Dword(mem, buff + 4), Dword(mem, buff + 8), Dword(mem, buff + 12), Dword(mem, buff + 16);
    var d5, d6, d7, d8, d9 := Dword(mem, buff + 20), Dword(mem, buff + 24), Dword(mem, buff + 28), Dword(mem, buff + 32), Dword(mem, buff + 36);
    var ecx := 0;                                       // xorq rcx, rcx
    var r9 := AddStep(B32, d0, d4);                     // movl 0*4(src), r9d; addl 4*4(src), r9d
    r9 := AdcStep(B32, r9, d5, d0 + d4);                // adcl 5*4(src), r9d
    r9 := AdcStep(B32, r9, ecx, d0 + d4 + d5);          // adcl ecx, r9d
    var r11 := AddStep(B32, d1, d6);                    // movl 1*4(src), r11d; addl 6*4(src), r11d
    r11 := AdcStep(B32, r11, d7, d1 + d6);
    r11 := AdcStep(B32, r11, ecx, d1 + d6 + d7);
    var r10 := AddStep(B32, d2, d8);                    // movl 2*4(src), r10d; addl 8*4(src), r10d
    r10 := AdcStep(B32, r10, d3, d2 + d8);              // adcl 3*4(src), r10d
    r10 := AdcStep(B32, r10, ecx, d2 + d8 + d3);
    var edx := AddStep(B32, sum, d9);                   // addl 9*4(src), edx
    edx := AdcStep(B32, edx, r9.reg, sum + d9);         // adcl r9d, edx
    edx := AdcStep(B32, edx, r11.reg, sum + d9 + r9.reg);
    edx := AdcStep(B32, edx, r10.reg, sum + d9 + r9.reg + r11.reg);
    edx := AdcStep(B32, edx, ecx, sum + d9 + r9.reg + r11.reg + r10.reg);  // adcl ecx, edx
    Gather47(mem, buff, sum, r9.reg, r11.reg, r10.reg, edx.reg);
    r := edx.reg;
  }
}
