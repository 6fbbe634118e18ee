/**
 * The dispatchers `csum_partial2` to `csum_partial9` and `csum_specialized`.
 * Each picks a specialised 40-byte kernel when the compiler knows `len` to
 * be the constant 40 (`__builtin_constant_p(len) && len == 40`) and
 * `__csum_partial` otherwise. Whether `len` is a compile-time constant is
 * the parameter `lenIsConstant`.
 *
 * Every dispatcher returns `csum_partial`'s value on an even address, and
 * with a zero seed every one agrees with it once folded to 16 bits, on
 * either alignment. The exceptions are stated where they occur: the
 * `csum_partial46` path of `csum_partial8` drops a nonzero seed.
 */
module Dispatch {
  import opened Arith
  import opened Fold
  import opened Checksum
  import opened Generic
  import opened Fixed40

  /**
   * The condition under which a dispatcher calls its 40-byte kernel. The
   * kernels ignore `len`, so they are only ever reached for a 40-byte
   * buffer, and a length the compiler cannot see always goes to
   * `__csum_partial`.
   */
  predicate Specialised(lenIsConstant: bool, len: nat): (r: bool)
    ensures r ==> len == 40
    ensures !lenIsConstant ==> !r
  {
    lenIsConstant && len == 40
  }

  /** `csum_partial2`, lines 469-476: `csum_partial40` for a constant length of 40. */
  method CsumPartial2(mem: seq<byte>, buff: nat, len: nat, sum: nat, lenIsConstant: bool) returns (r: nat)
    requires |mem| % 8 == 0 && buff + len <= |mem| && sum < B32
    ensures Specialised(lenIsConstant, len) ==> r == PartialSum(mem[buff..buff + len], sum)
    ensures !Specialised(lenIsConstant, len) ==> r == Csum(mem[buff..buff + len], buff % 2 == 1, sum)
    ensures buff % 2 == 0 ==> r == Csum(mem[buff..buff + len], false, sum)
    ensures sum == 0 ==> From32to16(r) == From32to16(Csum(mem[buff..buff + len], buff % 2 == 1, 0))
  {
    if lenIsConstant && len == 40 {
      r := CsumPartial40(mem, buff, len, sum);
      ZeroSeedFoldsAgree(mem[buff..buff + len], buff % 2 == 1);
    } else {
      r := InnerCsumPartial(mem, buff, len, sum);
    }
  }

  /** `csum_specialized`, lines 478-485: `__csum_partial` on both branches. */
  method CsumSpecialized(mem: seq<byte>, buff: nat, len: nat, sum: nat, lenIsConstant: bool) returns (r: nat)
    requires |mem| % 8 == 0 && buff + len <= |mem| && sum < B32
    ensures r == Csum(mem[buff..buff + len], buff % 2 == 1, sum)
  {
    if lenIsConstant && len == 40 {
      r := InnerCsumPartial(mem, buff, len, sum);
    } else {
      r := InnerCsumPartial(mem, buff, len, sum);
    }
  }

  /** `csum_partial3`, lines 487-494: `csum_partial41` for a constant length of 40. */
  method CsumPartial3(mem: seq<byte>, buff: nat, len: nat, sum: nat, lenIsConstant: bool) returns (r: nat)
    requires |mem| % 8 == 0 && buff + len <= |mem| && sum < B32
    ensures Specialised(lenIsConstant, len) ==> r == PartialSum(mem[buff..buff + len], sum)
    ensures !Specialised(lenIsConstant, len) ==> r == Csum(mem[buff..buff + len], buff % 2 == 1, sum)
    ensures buff % 2 == 0 ==> r == Csum(mem[buff..buff + len], false, sum)
    ensures sum == 0 ==> From32to16(r) == From32to16(Csum(mem[buff..buff + len], buff % 2 == 1, 0))
  {
    if lenIsConstant && len == 40 {
      r := CsumPartial41(mem, buff, len, sum);
      ZeroSeedFoldsAgree(mem[buff..buff + len], buff % 2 == 1);
    } else {
      r := InnerCsumPartial(mem, buff, len, sum);
    }
  }

  /** `csum_partial4`, lines 495-502: `csum_partial42` for a constant length of 40. */
  method CsumPartial4(mem: seq<byte>, buff: nat, len: nat, sum: nat, lenIsConstant: bool) returns (r: nat)
    requires |mem| % 8 == 0 && buff + len <= |mem| && sum < B32
    ensures Specialised(lenIsConstant, len) ==> r == PartialSum(mem[buff..buff + len], sum)
    ensures !Specialised(lenIsConstant, len) ==> r == Csum(mem[buff..buff + len], buff % 2 == 1, sum)
    ensures buff % 2 == 0 ==> r == Csum(mem[buff..buff + len], false, sum)
    ensures sum == 0 ==> From32to16(r) == From32to16(Csum(mem[buff..buff + len], buff % 2 == 1, 0))
  {
    if lenIsConstant && len == 40 {
      r := CsumPartial42(mem, buff, len, sum);
      ZeroSeedFoldsAgree(mem[buff..buff + len], buff % 2 == 1);
    } else {
      r := InnerCsumPartial(mem, buff, len, sum);
    }
  }

  /** `csum_partial5`, lines 503-510: `csum_partial43` for a constant length of 40. */
  method CsumPartial5(mem: seq<byte>, buff: nat, len: nat, sum: nat, lenIsConstant: bool) returns (r: nat)
    requires |mem| % 8 == 0 && buff + len <= |mem| && sum < B32
    ensures Specialised(lenIsConstant, len) ==> r == PartialSum(mem[buff..buff + len], sum)
    ensures !Specialised(lenIsConstant, len) ==> r == Csum(mem[buff..buff + len], buff % 2 == 1, sum)
    ensures buff % 2 == 0 ==> r == Csum(mem[buff..buff + len], false, sum)
    ensures sum == 0 ==> From32to16(r) == From32to16(Csum(mem[buff..buff + len], buff % 2 == 1, 0))
  {
    if lenIsConstant && len == 40 {
      r := CsumPartial43(mem, buff, len, sum);
      ZeroSeedFoldsAgree(mem[buff..buff + len], buff % 2 == 1);
    } else {
      r := InnerCsumPartial(mem, buff, len, sum);
    }
  }

  /** `csum_partial6`, lines 511-518: `csum_partial44` for a constant length of 40. */
  method CsumPartial6(mem: seq<byte>, buff: nat, len: nat, sum: nat, lenIsConstant: bool) returns (r: nat)
    requires |mem| % 8 == 0 && buff + len <= |mem| && sum < B32
    ensures Specialised(lenIsConstant, len) ==> r == PartialSum(mem[buff..buff + len], sum)
    ensures !Specialised(lenIsConstant, len) ==> r == Csum(mem[buff..buff + len], buff % 2 == 1, sum)
    ensures buff % 2 == 0 ==> r == Csum(mem[buff..buff + len], false, sum)
    ensures sum == 0 ==> From32to16(r) == From32to16(Csum(mem[buff..buff + len], buff % 2 == 1, 0))
  {
    if lenIsConstant && len == 40 {
      r := CsumPartial44(mem, buff, len, sum);
      ZeroSeedFoldsAgree(mem[buff..buff + len], buff % 2 == 1);
    } else {
      r := InnerCsumPartial(mem, buff, len, sum);
    }
  }

  /** `csum_partial7`, lines 520-527: `csum_partial45` for a constant length of 40. */
  method CsumPartial7(mem: seq<byte>, buff: nat, len: nat, sum: nat, lenIsConstant: bool) returns (r: nat)
    requires |mem| % 8 == 0 && buff + len <= |mem| && sum < B32
    ensures Specialised(lenIsConstant, len) ==> r == PartialSum(mem[buff..buff + len], sum)
    ensures !Specialised(lenIsConstant, len) ==> r == Csum(mem[buff..buff + len], buff % 2 == 1, sum)
    ensures buff % 2 == 0 ==> r == Csum(mem[buff..buff + len], false, sum)
    ensures sum == 0 ==> From32to16(r) == From32to16(Csum(mem[buff..buff + len], buff % 2 == 1, 0))
  {
    if lenIsConstant && len == 40 {
      r := CsumPartial45(mem, buff, len, sum);
      ZeroSeedFoldsAgree(mem[buff..buff + len], buff % 2 == 1);
    } else {
      r := InnerCsumPartial(mem, buff, len, sum);
    }
  }

  /**
   * `csum_partial8`, lines 528-535: `csum_partial46` for a constant length of
   * 40, whose result is the partial sum for a zero seed whatever `sum` is.
   */
  method CsumPartial8(mem: seq<byte>, buff: nat, len: nat, sum: nat, lenIsConstant: bool) returns (r: nat)
    requires |mem| % 8 == 0 && buff + len <= |mem| && sum < B32
    ensures Specialised(lenIsConstant, len) ==> r == PartialSum(mem[buff..buff + len], 0)
    ensures !Specialised(lenIsConstant, len) ==> r == Csum(mem[buff..buff + len], buff % 2 == 1, sum)
    ensures buff % 2 == 0 && (sum == 0 || !Specialised(lenIsConstant, len)) ==> r == Csum(mem[buff..buff + len], false, sum)
    ensures sum == 0 ==> From32to16(r) == From32to16(Csum(mem[buff..buff + len], buff % 2 == 1, 0))
  {
    if lenIsConstant && len == 40 {
      r := CsumPartial46(mem, buff, len, sum);
      ZeroSeedFoldsAgree(mem[buff..buff + len], buff % 2 == 1);
    } else {
      r := InnerCsumPartial(mem, buff, len, sum);
    }
  }

  /** `csum_partial9`, lines 536-543: `csum_partial47` for a constant length of 40. */
  method CsumPartial9(mem: seq<byte>, buff: nat, len: nat, sum: nat, lenIsConstant: bool) returns (r: nat)
    requires |mem| % 8 == 0 && buff + len <= |mem| && sum < B32
    ensures Specialised(lenIsConstant, len) ==> r == PartialSum(mem[buff..buff + len], sum)
    ensures !Specialised(lenIsConstant, len) ==> r == Csum(mem[buff..buff + len], buff % 2 == 1, sum)
    ensures buff % 2 == 0 ==> r == Csum(mem[buff..buff + len], false, sum)
    ensures sum == 0 ==> From32to16(r) == From32to16(Csum(mem[buff..buff + len], buff % 2 == 1, 0))
  {
    if lenIsConstant && len == 40 {
      r := CsumPartial47(mem, buff, len, sum);
      ZeroSeedFoldsAgree(mem[buff..buff + len], buff % 2 == 1);
    } else {
      r := InnerCsumPartial(mem, buff, len, sum);
    }
  }
}
