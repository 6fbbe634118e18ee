/**
 * The x86 arithmetic instructions the kernels are written in, on a
 * destination register and the one carry flag that each instruction reads
 * and writes. `add` and `adc` use CF; `adcx` is `adc` on CF alone and
 * `adox` is `adc` on OF alone, so a kernel holds CF and OF as two
 * independent flags. `xor r, r` zeroes the register and clears both flags;
 * `mov` changes no flag. The register width is a parameter: b = 2^64 for
 * the `q` forms, 2^32 for the `l` forms, 2^16 for the `w` forms.
 */
module Alu {
  import opened Arith
  import opened OnesComplement

  /** The destination register and the flag an instruction leaves behind. */
  datatype RegFlag = RegFlag(reg: nat, flag: bool)

  function Bit(f: bool): nat
  {
    if f then 1 else 0
  }

  /**
   * `adc src, dst` (and `adcx`, `adox`): dst + src + flag in a b-wide
   * register, the carry out of the top bit going to the flag.
   */
  function Adc(b: nat, dst: nat, src: nat, flag: bool): (r: RegFlag)
    requires b >= 2 && dst < b && src < b
    ensures r.reg < b
    ensures r.reg + (if r.flag then b else 0) == dst + src + Bit(flag)
    // Inside a chain a set flag comes with a register of at most b - 2 ...
    ensures (flag ==> dst <= b - 2) ==> (r.flag ==> r.reg <= b - 2)
    // ... so the closing `adc $0` of a chain takes the carry in and never carries out.
    ensures src == 0 && (flag ==> dst <= b - 2) ==> !r.flag && r.reg == dst + Bit(flag)
  {
    var t := dst + src + Bit(flag);
    if t >= b then RegFlag(t - b, true) else RegFlag(t, false)
  }

  /** `add src, dst`: the sum with no carry in; the flag gets the carry out. */
  function Add(b: nat, dst: nat, src: nat): (r: RegFlag)
    requires b >= 2 && dst < b && src < b
    ensures r.reg < b
    ensures r.reg + (if r.flag then b else 0) == dst + src
    ensures r.flag ==> r.reg <= b - 2
  {
    Adc(b, dst, src, false)
  }

  /** What a register and its pending (not yet added back) carry stand for together. */
  function Pending(s: RegFlag): nat
  {
    s.reg + Bit(s.flag)
  }

  /**
   * The chain invariant: when a register with its pending carry holds the
   * one's-complement sum of `t`, one more `adc` of `src` makes it hold the
   * sum of `t + src`. A chain begins with a flag that is clear (an `add`,
   * or an `adcx`/`adox` right after `xor`) and a register below b.
   */
  lemma AdcAccumulates(b: nat, s: RegFlag, src: nat, t: nat)
    requires b >= 2 && s.reg < b && src < b && Pending(s) == OnesSum(b, t)
    ensures Pending(Adc(b, s.reg, src, s.flag)) == OnesSum(b, t + src)
  {
    var r := Adc(b, s.reg, src, s.flag);
    var v := Pending(s);
    OnesSumCong(b, t);
    assert r.reg + b * Bit(r.flag) == v + src;
    assert Pending(r) + (b - 1) * Bit(r.flag) == v + src;
    CongMultiple(Pending(r), Bit(r.flag), b - 1);
    CongSymm(Pending(r) + Bit(r.flag) * (b - 1), Pending(r), b - 1);
    CongRefl(src, b - 1);
    CongAdd(v, t, src, src, b - 1);
    CongTrans(Pending(r), v + src, t + src, b - 1);
    OnesSumUnique(b, t + src, Pending(r));
  }

  /** A chain starts from a register value with the flag clear. */
  lemma ChainStarts(b: nat, x: nat)
    requires b >= 2 && x < b
    ensures Pending(RegFlag(x, false)) == OnesSum(b, x)
  {
    OnesSumSmall(b, x);
  }

  /**
   * The key carry-chain fact: inside a chain a set flag means the register
   * is at most b - 2, so the closing `adc $0` leaves the flag clear and the
   * register holding the one's-complement sum; no carry is dropped.
   */
  lemma ChainCloses(b: nat, s: RegFlag, t: nat)
    requires b >= 2 && s.reg < b && Pending(s) == OnesSum(b, t)
    ensures s.flag ==> s.reg <= b - 2
    ensures Adc(b, s.reg, 0, s.flag) == RegFlag(OnesSum(b, t), false)
  {
  }

  /**
   * `add src, dst` opening a chain: the register and the carry it leaves
   * hold the one's-complement sum of dst + src.
   */
  method AddStep(b: nat, dst: nat, src: nat) returns (s: RegFlag)
    requires b >= 2 && dst < b && src < b
    ensures s.reg < b && Pending(s) == OnesSum(b, dst + src)
  {
    ChainStarts(b, dst);
    AdcAccumulates(b, RegFlag(dst, false), src, dst);
    s := Add(b, dst, src);
  }

  /**
   * `adc src, dst` (or `adcx`, `adox`) inside a chain that has added up `t`:
   * the chain has now added `t + src`. An `adc` of zero closes the chain:
   * the flag is left clear and the register holds the sum itself.
   */
  method AdcStep(b: nat, s: RegFlag, src: nat, ghost t: nat) returns (s': RegFlag)
    requires b >= 2 && s.reg < b && src < b && Pending(s) == OnesSum(b, t)
    ensures s'.reg < b && Pending(s') == OnesSum(b, t + src)
    ensures src == 0 ==> !s'.flag && s'.reg == OnesSum(b, t)
  {
    AdcAccumulates(b, s, src, t);
    ChainCloses(b, s, t);
    s' := Adc(b, s.reg, src, s.flag);
  }
}
