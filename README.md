# Internet checksum kernels of `csum_partial.c`, modelled in Dafny

`csum_partial.c` holds x86-64 implementations of the Internet checksum
primitive `csum_partial(buff, len, sum)`. It is the 32-bit one's-complement
sum of section 2 of RFC 1071, seeded with `sum`. The file contains:

- the general kernel `csum_partial`, and `__csum_partial`, a copy of it;
- `csum_partial40`, the same kernel without the odd-address handling;
- seven hand-scheduled 40-byte kernels, `csum_partial41` to `csum_partial47`;
- the dispatchers `csum_partial2` to `csum_partial9` and `csum_specialized`;
- the helpers `add32_with_carry`, `from32to16` and `load_unaligned_zeropad`.

The model keeps the source's shape. The kernels are Dafny methods:

- each `add`/`adc`/`adcx`/`adox` is one step on a register and the flag its
  chain uses. A load of a word into a register (`movq`, `movl`) sets no flag,
  so it is merged into the `add` that follows it. An `xor r, r` is the value
  0 with its flags clear. In `csum_partial42` and `csum_partial43`, CF and OF
  are separate variables, and `adcx` leaves OF alone;
- the 64-byte `while` loop is a loop;
- each `if (len & k)` is its own step.

The helpers and the reference sums are functions and lemmas.

Every method is proved against a reference value defined on the bytes:

- `OnesSum(b, t)` (module `OnesComplement`) is the value an end-around-carry
  accumulator b wide holds after adding numbers whose exact total is `t`;
- `PartialSum(data, sum)` (module `Checksum`) is `OnesSum(2^32, ...)` of the
  seed plus the buffer's 8-byte words. It is also that of the 4-byte words,
  and it folds to the RFC 1071 sum of the 16-bit words;
- `Csum(data, odd, sum)` is `csum_partial`'s result for either address parity.

The central fact is in `Alu`. In any `add`/`adc` chain, a set carry flag
comes with a register of at most b − 2, so the closing `adc $0` never carries
out. A register together with its pending carry is then always
`OnesSum(b, total)`. However a kernel splits its words into chains, it ends
with the same value. That gives exact equality, not just congruence.

Representation:

- Machine integers are unbounded `nat`s kept below 2^16, 2^32 or 2^64. Every
  wrap-around is written out (`Shl64`, the flag of `Adc`).
- Memory is `mem: seq<byte>`, all readable bytes from address 0. Its length is
  a multiple of 8, because readable memory ends on a page boundary.
- The buffer is `mem[buff..buff + len]`, and the address parity is `buff % 2`.
- An 8-byte load at `addr` would fault exactly when `addr + 8 > |mem|`. That is
  when `load_unaligned_zeropad` takes its fixup path.

Modules:

| module | file | contents |
|---|---|---|
| `Arith` | arith.dfy | bounds, powers of two, congruence lemmas |
| `Words` | words.dfy | little-endian values `LE`, `ChunkSum(s, k)`: sum of the k-byte words, `Word`, `Dword` |
| `OnesComplement` | ones_complement.dfy | `OnesSum` and its laws |
| `Alu` | alu.dfy | `add`/`adc`/`adcx`/`adox` on a register and a flag, the carry-chain invariant |
| `Fold` | fold.dfy | `add32_with_carry`, `from32to16`, the byte swap |
| `Tail` | tail.dfy | `load_unaligned_zeropad`, the masked tail |
| `Checksum` | checksum.dfy | `PartialSum`, `Csum` and RFC 1071 properties |
| `Generic` | generic.dfy | `csum_partial`, `__csum_partial`, `csum_partial40` |
| `Fixed40` | fixed40.dfy | `csum_partial41` to `csum_partial47` |
| `Dispatch` | dispatch.dfy | the dispatchers |

## Model

| member | source | states |
|---|---|---|
| `Alu.Adc` | csum_partial.c:95-102 | one `adc`/`adcx`/`adox`: register plus carry-out times b is dst + src + carry-in. Inside a chain a set flag implies register ≤ b − 2, so an `adc $0` there never carries out |
| `Alu.Add` | csum_partial.c:94 | one `add`: the register is below b, and register plus carry-out times b is dst + src; a carry out leaves the register at most b − 2 |
| `Alu.AdcAccumulates` | csum_partial.c:94-102 | if register plus pending carry equals `OnesSum(b, t)`, then after one more `adc` of `src` they equal `OnesSum(b, t + src)` |
| `Alu.ChainStarts` | csum_partial.c:327-328 | a register below b with its flag clear (as after `xorq`, or as the carry-in an opening `add` reads) starts a chain holding its own value |
| `Alu.ChainCloses` | csum_partial.c:102 | the closing `adc $0` of a chain clears the flag and leaves exactly `OnesSum(b, t)`: no carry is lost |
| `Alu.AddStep` | csum_partial.c:94 | `add` opening a chain: register plus carry is the one's-complement sum of the two operands |
| `Alu.AdcStep` | csum_partial.c:95-102 | `adc` inside a chain extends its total by `src`; with src = 0 it closes the chain with the flag clear |
| `OnesComplement.OnesSum` | csum_partial.c:94-102 | the value of an end-around-carry accumulator b wide whose words total t: below b, and zero exactly when t is |
| `OnesComplement.OnesSumCong` | csum_partial.c:102 | the end-around-carry sum agrees with the exact total modulo b − 1 |
| `OnesComplement.OnesSumUnique` | csum_partial.c:102 | a value below b, zero only for a zero total and congruent to it modulo b − 1, is the sum |
| `OnesComplement.OnesSumCongruent` | csum_partial.c:149 | totals that agree modulo b − 1 and in being zero give the same sum |
| `OnesComplement.OnesSumAbsorb` | csum_partial.c:381 | adding a closed chain's register counts as adding all of that chain's words (deferred carries) |
| `OnesComplement.OnesSumNarrow64To32` | csum_partial.c:149 | folding a 64-bit sum to 32 bits gives the 32-bit sum of the same total |
| `OnesComplement.OnesSumNarrow32To16` | csum_partial.c:151 | folding a 32-bit sum to 16 bits gives the 16-bit sum of the same total |
| `Fold.Add32WithCarry` | csum_partial.c:49-56 | `add32_with_carry(a, b)` is the 32-bit one's-complement sum of a and b: (a + b) mod 2^32 plus the carry out, with no second overflow |
| `Fold.From32to16` | csum_partial.c:58-66 | `from32to16(a)` is below 2^16, is the end-around sum of the high and low halves, and equals the 16-bit sum of all of a |
| `Fold.FoldHalves` | csum_partial.c:60-64 | the two 16-bit halves of a 32-bit value add up to it modulo 0xffff |
| `Fold.Fold64To32` | csum_partial.c:149 | `add32_with_carry(x >> 32, x & 0xffffffff)` is the 32-bit one's-complement sum of x |
| `Fold.ByteSwap16` | csum_partial.c:152 | the byte swap is below 2^16; on a 16-bit value it is 256·x modulo 0xffff and zero only for zero |
| `Fold.ByteSwap16Twice` | csum_partial.c:152 | swapping a 16-bit value twice gives back that value itself |
| `Fold.ByteSwapOnesSum` | csum_partial.c:150-152 | swapping a 16-bit sum gives the sum of 256 times its total |
| `Tail.Shl64` | csum_partial.c:142 | `<<` on a 64-bit `unsigned long`: the result is below 2^64, and a value whose top s bits are clear is multiplied by 2^s exactly |
| `Tail.Shr` | csum_partial.c:39 | the logical `shr`: the result r is at most x and satisfies r·2^s ≤ x < (r + 1)·2^s, so the low s bits are dropped |
| `Tail.ShlShr` | csum_partial.c:142 | `(x << s) >> s` in a 64-bit register keeps the low 64 − s bits |
| `Tail.LoadUnalignedZeropad` | csum_partial.c:24-47 | the loaded word is below 2^64, and on both paths it is the little-endian value of the readable bytes from addr on (at most 8), zero above |
| `Tail.FixupValue` | csum_partial.c:33-39 | the fixup path's aligned word is the last readable word, and shifted right by 8·(addr & 7) it is the value of the bytes from addr to the end of memory |
| `Tail.FixupTopBitsZero` | csum_partial.c:36-39 | on the fixup path the top 8·(addr & 7) bits of the loaded word are zero |
| `Tail.Trail` | csum_partial.c:138-142 | `trail` is below 2^64 and is exactly the little-endian value of the last `len & 7` bytes, so no byte past the buffer's end contributes |
| `Tail.TrailValue` | csum_partial.c:140-142 | the load-and-two-shifts expression equals the value of those bytes |
| `Words.LEAppend` | csum_partial.c:93-148 | the little-endian value of a concatenation is the first part plus the second shifted past it |
| `Words.ChunkSumAppend` | csum_partial.c:104-108 | summing words of a k-aligned prefix and of the rest adds up to summing the whole |
| `Words.ChunkSumCong` | csum_partial.c:93-148 | the sum of a buffer's k-byte words agrees with its whole little-endian value modulo 2^(8k) − 1 |
| `Words.ChunkSumZero` | csum_partial.c:93-148 | the sum of the words is zero exactly when every byte is zero |
| `Words.Word` | csum_partial.c:94 | an 8-byte memory operand is below 2^64 |
| `Words.Dword` | csum_partial.c:440 | a 4-byte memory operand is below 2^32 |
| `Words.ChunkSum64` | csum_partial.c:94-101 | the 64 bytes at p are the eight words the loop body loads |
| `Words.ChunkSum40` | csum_partial.c:308-312 | the 40 bytes at p are the five words the 64-bit kernels load |
| `Words.DwordSum40` | csum_partial.c:440-456 | the 40 bytes at p are the ten 4-byte words `csum_partial47` loads |
| `Checksum.InternetSum` | csum_partial.c:150-152 | the RFC 1071 sum of the buffer's 16-bit little-endian words agrees with the buffer's value modulo 0xffff and is zero exactly when every byte is |
| `Checksum.WordSums` | csum_partial.c:93-149 | the 8-, 4- and 2-byte word sums agree with the buffer's value modulo 2^32 − 1 or 0xffff, and are zero together |
| `Checksum.PartialSum` | csum_partial.c:237-300 | the even-path result: below 2^32, zero only for zero seed and bytes, equal to the sum over the 4-byte words, folding to the RFC 1071 16-bit sum |
| `Checksum.Csum` | csum_partial.c:79-155 | `csum_partial`'s result for either parity is below 2^32 |
| `Checksum.OddPath` | csum_partial.c:84-153 | the odd path as written (first byte shifted by 8, rest in 8-byte words, fold, swap) yields `Csum(data, true, sum)` |
| `Checksum.OddShift` | csum_partial.c:88-90 | the first byte as a high byte followed by the rest, shifted up by 8 bits, agrees with the buffer's 16-bit words modulo 0xffff |
| `Checksum.EvenMatchesInternetSum` | csum_partial.c:79-155 | on an even address the folded result is the RFC 1071 sum; the result agrees with the 4-byte words modulo 2^32 − 1 and with the 16-bit words modulo 0xffff; it is zero iff the seed and all bytes are zero |
| `Checksum.OddSeed` | csum_partial.c:150-153 | on an odd address with len > 0 the result is below 2^16 and agrees with 256·sum plus the 16-bit words modulo 0xffff |
| `Checksum.ByteOrderIndependence` | csum_partial.c:84-153 | with a zero seed the odd-address result is the 16-bit fold of the even-path result on the same bytes (RFC 1071 section 2, item B) |
| `Checksum.ZeroSeedFoldsAgree` | csum_partial.c:150-153 | with a zero seed the 16-bit folds of the even-path sum and of `csum_partial` agree on either parity |
| `Checksum.ZeroLength` | csum_partial.c:85-87 | an empty buffer gives back the seed on either parity |
| `Checksum.Incremental` | csum_partial.c:79-155 | the partial sum of a + b is the partial sum of b seeded with that of a, when a is a whole number of 4-byte words |
| `Checksum.IncrementalFolded` | csum_partial.c:79-155 | for a split after an even number of bytes, the same holds once folded to 16 bits |
| `Checksum.KnownVectorIPv4` | csum_partial.c:237-300 | the textbook IPv4 header with a zeroed checksum field has a partial sum that folds to 0x9e47, the byte-swapped 0x479e, and its complement is the stored checksum bytes b8 61 |
| `Checksum.ZeroVector` | csum_partial.c:237-300 | 40 zero bytes with a zero seed have the partial sum 0 |
| `Checksum.InternetSum20` | csum_partial.c:150-152 | the 16-bit word sum of a 20-byte buffer is its ten little-endian words added up |
| `Checksum.FoldsToInternetSum` | csum_partial.c:149-151 | the 32-bit sum of the 8-byte words folds to the 16-bit sum of the 16-bit words |
| `Checksum.DwordsAgree` | csum_partial.c:434-467 | the 32-bit sums of the 8-byte words and of the 4-byte words are equal, and zero only for a zero seed and zero bytes |
| `Checksum.ContinueSum` | csum_partial.c:102 | a value whose sum equals that of t can stand for t when more words are added |
| `Generic.AddBlock64` | csum_partial.c:94-102 | the loop body's chain adds the 64 bytes at src as eight words into temp64, end-around |
| `Generic.AddBlock32` | csum_partial.c:111-115 | the `len & 32` chain adds four words |
| `Generic.AddBlock16` | csum_partial.c:122-124 | the `len & 16` chain adds two words |
| `Generic.AddBlock8` | csum_partial.c:131-132 | the `len & 8` chain adds one word |
| `Generic.AddTrail` | csum_partial.c:144-145 | the tail chain adds `trail` end-around |
| `Generic.AddIf32` | csum_partial.c:110-120 | bit 5 of `len` selects four words, `buff` moves by 32; the accumulator holds every word from the start to the new `buff` |
| `Generic.AddIf16` | csum_partial.c:121-129 | the same for bit 4 of `len` and two words |
| `Generic.AddIf8` | csum_partial.c:130-137 | the same for bit 3 of `len` and one word |
| `Generic.AddIfTail` | csum_partial.c:138-148 | when `len & 7` is set, the masked tail completes the sum to the end of the buffer; otherwise nothing is added |
| `Generic.Advance` | csum_partial.c:104-108 | an accumulator over `mem[p0..q]` that then adds `mem[q..e]` holds the sum over `mem[p0..e]` |
| `Generic.ModHalf` | csum_partial.c:110-137 | `len % 2m` is `len % m` plus the `len & m` bit |
| `Generic.AddBlocks` | csum_partial.c:93-108 | the loop leaves `len` equal to its start value modulo 64, with `buff` moved past every byte before that remainder, and every 8-byte word of those bytes added to temp64 |
| `Generic.AddRemainder` | csum_partial.c:110-148 | the steps after the loop add the remaining fewer than 64 bytes |
| `Generic.Accumulate` | csum_partial.c:93-148 | temp64 ends as the 64-bit one's-complement sum of its start value and the buffer's 8-byte words |
| `Generic.CsumPartial` | csum_partial.c:79-155 | `csum_partial` returns `Csum` of the buffer for its parity and seed |
| `Generic.InnerCsumPartial` | csum_partial.c:158-234 | `__csum_partial` returns the same |
| `Generic.CsumPartial40` | csum_partial.c:237-300 | `csum_partial40` returns `PartialSum` of the buffer whatever its parity |
| `Fixed40.Fold40` | csum_partial.c:317 | the folded 64-bit sum of the seed and the five words is the 40 bytes' `PartialSum` |
| `Fixed40.Gather47` | csum_partial.c:440-460 | `csum_partial47`'s three 32-bit registers merged into edx with word 9 give the `PartialSum` |
| `Fixed40.AbsorbThree` | csum_partial.c:456-460 | adding three closed chains counts as adding their words |
| `Fixed40.CsumPartial41` | csum_partial.c:303-320 | one chain over five words; the result is `csum_partial40`'s, `PartialSum(40 bytes, sum)` |
| `Fixed40.CsumPartial42` | csum_partial.c:322-342 | CF chain (`adcx`) over words 0-2 and OF chain (`adox`) over words 3-4 and rcx, both cleared by `xorq`; the same result |
| `Fixed40.CsumPartial43` | csum_partial.c:343-368 | CF chain over words 0-3 and OF chain over word 4 and rcx; the same result |
| `Fixed40.CsumPartial44` | csum_partial.c:369-389 | two CF chains one after the other (words 0-2, then 3-4 and rcx); the same result |
| `Fixed40.CsumPartial45` | csum_partial.c:391-411 | two CF chains (words 0-3, then 4 and rcx) closed with r9; the same result |
| `Fixed40.CsumPartial46` | csum_partial.c:413-432 | the accumulator is overwritten by `movq` (early-clobber output), so the result is `PartialSum(40 bytes, 0)` whatever `sum` is |
| `Fixed40.CsumPartial47` | csum_partial.c:434-467 | three 32-bit chains of three 4-byte words merged into the 32-bit seed with word 9; exactly `PartialSum(40 bytes, sum)`, with no fold |
| `Dispatch.Specialised` | csum_partial.c:471 | the test `__builtin_constant_p(len) && len == 40`: when it holds the length is 40, so a kernel that ignores `len` sees the whole buffer; a length not known at compile time always goes to `__csum_partial` |
| `Dispatch.CsumPartial2` | csum_partial.c:469-476 | `csum_partial40` for a constant len of 40, `__csum_partial` otherwise; equal to `csum_partial` on even addresses; folds the same with a zero seed |
| `Dispatch.CsumSpecialized` | csum_partial.c:478-485 | `__csum_partial` on both branches |
| `Dispatch.CsumPartial3` | csum_partial.c:487-494 | `csum_partial41` or `__csum_partial`, with the same agreement |
| `Dispatch.CsumPartial4` | csum_partial.c:495-502 | `csum_partial42` or `__csum_partial`, with the same agreement |
| `Dispatch.CsumPartial5` | csum_partial.c:503-510 | `csum_partial43` or `__csum_partial`, with the same agreement |
| `Dispatch.CsumPartial6` | csum_partial.c:511-518 | `csum_partial44` or `__csum_partial`, with the same agreement |
| `Dispatch.CsumPartial7` | csum_partial.c:520-527 | `csum_partial45` or `__csum_partial`, with the same agreement |
| `Dispatch.CsumPartial8` | csum_partial.c:528-535 | `csum_partial46` or `__csum_partial`; the specialised path drops the seed, so it agrees with `csum_partial` on even addresses only for a zero seed |
| `Dispatch.CsumPartial9` | csum_partial.c:536-543 | `csum_partial47` or `__csum_partial`, with the same agreement |

Notes on the statements:

- On an even address the 32-bit result is congruent modulo 2^32 − 1 to the
  seed plus the buffer's 4-byte words. It is congruent to the seed plus the
  16-bit words only modulo 0xffff; modulo 2^32 − 1 the 16-bit words do not
  determine it.
- On an odd address the seed is added unrotated before the final byte swap,
  so it counts as 256·sum modulo 0xffff (`Checksum.OddSeed`). Seed chaining
  across an odd split is not stated.
- `__builtin_constant_p(len)` is the dispatchers' parameter `lenIsConstant`.
  With it true, the specialised branch is taken exactly when len = 40.

## Left out

- The benchmark harness is not modelled: timing with `rdtscp`/`lfence`, the
  statistics arrays and their floating-point decay, `report`, `main`, its
  random fill and endless loop, and `nulltest`. They are I/O, timing and
  floating point, and `nulltest` computes no checksum.
- The page fault and exception table behind the `.fixup` section of
  `load_unaligned_zeropad` are not modelled, and neither is memory
  protection. Only the value each of the two load paths produces is.
- `len` is a `nat`: negative lengths are outside the model. 32-bit `int`
  overflow of `len` is not modelled; a buffer must fit in `mem`.
- Kernels 41 to 47 take `len` but never read it. Their model requires 40
  readable bytes at `buff`, as the source assumes.
- Instruction-level parallelism and `unlikely`/`__builtin_expect` are
  performance matters with no effect on the value, and are not modelled.
- The outcome of `__builtin_constant_p(len)` does affect the value: it picks
  between a 40-byte kernel and `__csum_partial`. On an odd address their
  results differ, and in `csum_partial8` they also differ for any nonzero
  seed. The model takes that outcome as the parameter `lenIsConstant`, and
  each dispatcher's contract states both branches. Only how the compiler
  decides it (constant propagation and inlining) is left out.
- In `csum_partial47` the upper half of rcx, r9, r10 and r11 is not
  modelled; only the 32-bit sub-registers the kernel reads are.
