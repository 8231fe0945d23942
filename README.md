# Bit addressing, bit counting and the bit selector of nbint

This project models two pieces of nbint in Dafny:

- `binary_stuff` (module `BinaryStuff`, file `binary_stuff.dfy`). It maps a linear
  bit index of a byte buffer to the byte that holds it (`get_byte_at`). It reads a
  single bit, most significant bit first inside each byte (`get_bit_at`). It counts
  the bits of a buffer that equal 0 or 1 (`count_bits_internal`, `count_zeros`,
  `count_ones`).
- the `consec` command (module `Consec`, file `consec.dfy`). It maps a free-form
  selector string to a `CountBit` value (`From<&str>`), and back to a canonical name
  (`ToString`). It picks the default selector when no argument is given. It computes
  the arguments `get_max_data` hands to the maximum-run search.

Bytes are `bv8`, so the model uses the source's own `&` and mask operations. Bit
positions and counters are unbounded `nat`. `count_bits_internal` is a method with
the source's two nested loops: over bytes, then over the 8 masks of the fetched
byte. Its loop invariants tie the counter to `CountAsWritten`, a function over the
prefix of bytes already scanned. The reference specification `ReferenceCount`
counts the bits of `BitsOf(data)`. That is the buffer read bit by bit with
`GetBitAt`.

`count_zeros` agrees with the reference. `count_ones` does not: it compares
`byte & mask` with `1`, which only the last mask (`mask == 1`) can match. So it
counts the bytes whose lowest-order bit is set. The model reproduces this, and
`CountOnes` states it. A corrected counting loop (`CountBitsCorrected`) is proved
equal to the reference for both targets. The statement that zeros and ones add up to
the bit length is proved for the reference and for the corrected count only. It is
false for the code as written: `count_ones` breaks it (`CountOnesUndercounts`).

Pieces of the source with a different form in the model:

- `pos >> 3` and `byte_index << 3` on `usize` are written as `/ 8` and `* 8`. They
  are the same thing on non-negative values of that size.
- `1 << (7 - j)` is written as the table `Mask`. `MaskIsShift` proves the table
  equals the shift.
- An out-of-range `pos` in `get_bit_at` makes the source panic when it indexes the
  vector. The model makes it a precondition. So is the `assert!` on the target in
  `count_bits_internal`.

## Model

| member | source | states |
|---|---|---|
| `BinaryStuff.GetByteAt` | binary_stuff/src/lib.rs:20-23 | the returned index is the byte that holds bit `pos` (`8*i <= pos < 8*i+8`); the returned byte is the byte at that index; `pos - 8*i` is `pos % 8` |
| `BinaryStuff.GetBitAt` | binary_stuff/src/lib.rs:11-18 | the bit read at an in-range position is always 0 or 1 |
| `BinaryStuff.ByteBit` | binary_stuff/src/lib.rs:15-17 | masking a byte and normalising with `val > 0` gives 0 or 1 |
| `BinaryStuff.MaskIsShift` | binary_stuff/src/lib.rs:15 | the mask for offset `o` is `1 << (7 - o)`; it has bit `7 - o` set and no other bit |
| `BinaryStuff.ByteBitIsBitSet` | binary_stuff/src/lib.rs:15-17 | the normalised masked value is 1 exactly when arithmetic bit `7 - offset` of the byte is set |
| `BinaryStuff.GetBitAtIsByteBit` | binary_stuff/src/lib.rs:11-17 | `get_bit_at(pos)` is 1 exactly when bit `7 - pos % 8` of byte `pos / 8` is set, so buffer bit 0 is the highest-order bit of byte 0 |
| `BinaryStuff.BitsOfSnoc` | binary_stuff/src/lib.rs:11-23 | reading a buffer bit by bit gives the bits of all bytes but the last, followed by the 8 bits of the last byte, highest-order first |
| `BinaryStuff.MatchesAsWritten` | binary_stuff/src/lib.rs:38-44 | at most one match per mask tried |
| `BinaryStuff.CountAsWritten` | binary_stuff/src/lib.rs:29-46 | the count never exceeds the buffer's bit length |
| `BinaryStuff.CountBitsInternal` | binary_stuff/src/lib.rs:26-47 | for a target of 0 or 1, the nested loops return `CountAsWritten(data, target)`, which is at most `8*|data|` |
| `BinaryStuff.CountZeros` | binary_stuff/src/lib.rs:48-50 | the result is the number of buffer bits that `get_bit_at` reads as 0 |
| `BinaryStuff.CountOnes` | binary_stuff/src/lib.rs:51-53 | the result is the number of bytes whose lowest-order bit is set, hence at most `|data|` |
| `BinaryStuff.LowBitBytes` | binary_stuff/src/lib.rs:39-41 | the number of bytes with the lowest-order bit set is at most the number of bytes |
| `BinaryStuff.MatchesCorrected` | binary_stuff/src/lib.rs:38-44 | at most one match per mask tried, with the bit normalised to 0/1 before the comparison |
| `BinaryStuff.CountCorrected` | binary_stuff/src/lib.rs:29-46 | the corrected count never exceeds the buffer's bit length |
| `BinaryStuff.CountBitsCorrected` | binary_stuff/src/lib.rs:26-47 | the corrected nested loops return the number of buffer bits equal to the target, for both targets |
| `BinaryStuff.CountOnesCorrected` | binary_stuff/src/lib.rs:51-53 | the corrected `count_ones` returns the number of set bits; together with the clear bits they make up `8*|data|` |
| `BinaryStuff.CorrectedIsReference` | binary_stuff/src/lib.rs:31-44 | the corrected byte-by-byte count equals the bit-by-bit count over `get_bit_at` |
| `BinaryStuff.MatchesZerosAgree` | binary_stuff/src/lib.rs:39-41 | for target 0, comparing `byte & mask` with 0 gives the same matches as comparing the normalised bit |
| `BinaryStuff.CountZerosAgree` | binary_stuff/src/lib.rs:29-46 | for target 0 the count as written equals the corrected count on every buffer |
| `BinaryStuff.CountZerosIsReference` | binary_stuff/src/lib.rs:48-50 | `count_zeros` as written equals the number of bits `get_bit_at` reads as 0 |
| `BinaryStuff.MatchesOnesBeforeLast` | binary_stuff/src/lib.rs:39-41 | for target 1, none of the masks before the last one can match, whatever the byte |
| `BinaryStuff.CountOnesIsLowBitBytes` | binary_stuff/src/lib.rs:39-42 | `count_ones` as written counts the bytes whose lowest-order bit is set |
| `BinaryStuff.CountOnesUndercounts` | binary_stuff/src/lib.rs:39-41 | on the one-byte buffer `0x80`, `count_ones` as written gives 0 although the buffer has one set bit |
| `BinaryStuff.ReferenceTotal` | binary_stuff/src/lib.rs:11-18 | the bits read as 0 and the bits read as 1 add up to the bit length |
| `BinaryStuff.CountAsWrittenAppend` | binary_stuff/src/lib.rs:29-46 | the count of a concatenation is the sum of the counts of its parts |
| `BinaryStuff.ZeroBufferCount` | binary_stuff/src/lib.rs:29-46 | a buffer of `n` zero bytes has `8*n` zero bits |
| `BinaryStuff.CountZerosThreeZeroBytes` | binary_stuff/src/lib.rs:60-63 | three zero bytes give a zero count of 24 |
| `BinaryStuff.ByteIndexExamples` | binary_stuff/src/lib.rs:73-81 | bits 128 to 135 are in byte 16 and bit 136 is in byte 17 |
| `Consec.FromStr` | nbint/src/bin/consec.rs:14-26 | the result is `CountBitOnes` exactly for "1", "ones" and "one"; "0", "zeros", "zero" and every other string give `CountBitZeros` |
| `Consec.ToString` | nbint/src/bin/consec.rs:27-35 | the name is "ones" or "zeros", and parsing it gives back the selector |
| `Consec.ToStringInjective` | nbint/src/bin/consec.rs:27-35 | the two selectors have different names |
| `Consec.FromStrToStringIdempotent` | nbint/src/bin/consec.rs:14-35 | printing then re-parsing a parsed selector changes nothing; the printed name is "ones" exactly for the ones names |
| `Consec.UseBits` | nbint/src/bin/consec.rs:72-78 | with no selector argument the default "zeros" applies and yields `CountBitZeros`; otherwise the argument's mapping applies |
| `Consec.ZeroOrOne` | nbint/src/bin/consec.rs:45-48 | the target is 0 or 1, and it is 1 exactly for `CountBitOnes` |
| `Consec.GetMaxDataCall` | nbint/src/bin/consec.rs:44-58 | the search gets the buffer unchanged, a window of `8*|data|` bits from bit 0 (the whole buffer), and a target of 0 or 1 that is 1 exactly for `CountBitOnes` |
| `Consec.CommandLineTarget` | nbint/src/bin/consec.rs:74-82 | the target reaching the search is 1 exactly when the selector argument is one of the ones names |

## Left out

- `binary_stuff::count_max_consecutive_bits` is not part of this model. Its source is not among the files modelled. `GetMaxDataCall` gives only the arguments it is called with, and its result is not modelled.
- The leading-run, maximal-run and segmented/parallel run scanners are not part of this model, for the same reason. So is their partition and combine strategy.
- `read_binary_file` and `main`: file reading, `die!` termination, the argument-count check and `println!` output are I/O. Only the selector choice in `main` is modelled, by `UseBits`.
- `binary_stuff/benches/my_benchmark.rs` is a benchmark harness with no logic of its own.
- GetMaxDataCall: the window `data.len() * 8` is an unbounded `nat`, not a `usize` product. It matches the source whenever `8*|data|` fits in `usize`, which always holds on 64-bit targets; on a 32-bit target a buffer of 2^29 bytes or more overflows (a panic in debug builds, wrap-around in release builds), and that is not modelled.
- CountBitsInternal: the counter is an unbounded `nat`, not a `u32`. Overflow is not modelled. The result is at most `8*|data|`, so it fits whenever the buffer is shorter than 2^29 bytes.
- GetBitAt: an out-of-range position, which panics in the source, is a precondition rather than a modelled failure. The same holds for `GetByteAt`, and for the target check of `CountBitsInternal`.
- The byte-caching speed-up of the counting loop is kept in its shape: one fetch per byte and eight masks. It has no observable effect apart from speed.

## Findings

| source | as written | input that shows it | evidently intended | confidence | as-written member | corrected member |
|---|---|---|---|---|---|---|
| binary_stuff/src/lib.rs:39-41 | `count_ones` compares `byte & mask` with `1`; only `mask == 1` can give 1, so it counts bytes whose lowest-order bit is set | `[0x80]`: `count_ones` gives 0, but the buffer has one set bit | count the set bits: normalise `byte & mask` to 0/1 first, as `get_bit_at` does | high; not executed | `BinaryStuff.CountOnesUndercounts` | `BinaryStuff.CountOnesCorrected` |
