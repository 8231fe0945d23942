/** Bit addressing and bit counting over a byte buffer (binary_stuff/src/lib.rs).

    A buffer is a sequence of 8-bit bytes. Bit positions are linear indices, most
    significant bit first inside each byte: bit 0 of the buffer is the highest-order
    bit of byte 0, bit 7 its lowest-order bit, bit 8 the highest-order bit of byte 1.
 */
module BinaryStuff {

  /** Number of bits in a byte. */
  const BitsInByte: nat := 8

  /** Number of addressable bits in a buffer. */
  function BitLength(data: seq<bv8>): nat {
    |data| * 8
  }

  /** "Bit `k` of `b` is set", bit 0 being the lowest-order bit: shifting the byte
      right by `k` leaves that bit in the lowest position. */
  predicate BitSet(b: bv8, k: nat)
    requires k < BitsInByte
  {
    (b >> k) & 1 == 1
  }

  /** The mask selecting the bit at intra-byte offset `offset`, counted from the
      highest-order bit. The source computes it as `1 << (7 - offset)`; the table
      form keeps the shift amount out of the proofs, and `MaskIsShift` shows the two
      agree. */
  function Mask(offset: nat): (m: bv8)
    requires offset < BitsInByte
  {
    [0x80, 0x40, 0x20, 0x10, 0x08, 0x04, 0x02, 0x01][offset]
  }

  // ---------------------------------------------------------------------------
  // Bit addressing
  // ---------------------------------------------------------------------------

  /** The byte holding bit `pos`, with its index. The source writes the index as
      `pos >> 3`, which on a non-negative integer is division by 8. Indexing past
      the end panics, hence the precondition. */
  function GetByteAt(data: seq<bv8>, pos: nat): (r: (bv8, nat))
    requires pos < BitLength(data)
    ensures r.1 < |data| && r.0 == data[r.1]
    ensures r.1 * 8 <= pos < r.1 * 8 + 8
    ensures pos - r.1 * 8 == pos % 8
  {
    var byteIndex := pos / 8;
    (data[byteIndex], byteIndex)
  }

  /** The bit at `pos` as 0 or 1. The intra-byte offset `pos - (byte_index << 3)`
      lies in [0, 7] (the last ensures of `GetByteAt`), so `7 - offset` never
      underflows; `GetBitAtIsByteBit` says which bit is read. */
  function GetBitAt(data: seq<bv8>, pos: nat): (r: bv8)
    requires pos < BitLength(data)
    ensures r == 0 || r == 1
  {
    var (byte, byteIndex) := GetByteAt(data, pos);
    var bitIndexOfByte := byteIndex * 8;
    var bitOffset := pos - bitIndexOfByte;
    var mask := Mask(bitOffset);
    var val := byte & mask;
    if val > 0 then 1 else 0
  }

  /** The value (0 or 1) of the bit of `b` under mask `offset`, normalised as
      `get_bit_at` does with `if val > 0 { 1 } else { 0 }`. */
  function ByteBit(b: bv8, offset: nat): (r: bv8)
    requires offset < BitsInByte
    ensures r == 0 || r == 1
  {
    if b & Mask(offset) > 0 then 1 else 0
  }

  // ---------------------------------------------------------------------------
  // Bit counting as written
  // ---------------------------------------------------------------------------

  /** Among the first `j` masks of byte `b` (highest-order bit first), how many give
      `b & mask == target`. This is the comparison the source makes: for target 0 it
      finds the clear bits, but for target 1 only the last mask (`mask == 1`) can
      ever match. */
  function MatchesAsWritten(b: bv8, target: bv8, j: nat): (n: nat)
    requires j <= BitsInByte
    ensures n <= j
  {
    if j == 0 then 0
    else MatchesAsWritten(b, target, j - 1) + (if b & Mask(j - 1) == target then 1 else 0)
  }

  /** What the byte-by-byte, mask-by-mask loop of `count_bits_internal` adds up. */
  function CountAsWritten(data: seq<bv8>, target: bv8): (n: nat)
    ensures n <= BitLength(data)
  {
    if |data| == 0 then 0
    else CountAsWritten(data[..|data| - 1], target) + MatchesAsWritten(data[|data| - 1], target, BitsInByte)
  }

  /** `count_bits_internal`: for every byte, fetched once, try the 8 masks from the
      highest-order bit down and bump the counter whenever `byte & mask` equals the
      target. The target must be 0 or 1 (the source asserts it). */
  method CountBitsInternal(data: seq<bv8>, zeroOrOne: bv8) returns (numBits: nat)
    requires zeroOrOne == 1 || zeroOrOne == 0
    ensures numBits == CountAsWritten(data, zeroOrOne)
    ensures numBits <= BitLength(data)
  {
    numBits := 0;
    var dataSize := |data|;
    for i := 0 to dataSize
      invariant numBits == CountAsWritten(data[..i], zeroOrOne)
    {
      var byte := data[i];
      ghost var before := numBits;
      for j := 0 to BitsInByte
        invariant numBits == before + MatchesAsWritten(byte, zeroOrOne, j)
      {
        var mask := Mask(j);
        var val := byte & mask;
        if val == zeroOrOne {
          numBits := numBits + 1;
        }
      }
      assert data[..i + 1][..i] == data[..i];
    }
    assert data[..dataSize] == data;
  }

  /** `count_zeros`: the number of clear bits of the buffer. */
  method CountZeros(data: seq<bv8>) returns (n: nat)
    ensures n == ReferenceCount(data, 0)
  {
    n := CountBitsInternal(data, 0);
    CountZerosIsReference(data);
  }

  /** `count_ones`, as written: the number of bytes whose lowest-order bit is set,
      not the number of set bits. */
  method CountOnes(data: seq<bv8>) returns (n: nat)
    ensures n == LowBitBytes(data)
    ensures n <= |data|
  {
    n := CountBitsInternal(data, 1);
    CountOnesIsLowBitBytes(data);
  }

  // ---------------------------------------------------------------------------
  // Reference specification, by random bit access
  // ---------------------------------------------------------------------------

  /** The buffer's bits in order, each read with `GetBitAt`. */
  function BitsOf(data: seq<bv8>): (bits: seq<bv8>)
    ensures |bits| == BitLength(data)
  {
    seq(BitLength(data), i requires 0 <= i < BitLength(data) => GetBitAt(data, i))
  }

  /** How many elements of `s` equal `v`. */
  function Occurrences(s: seq<bv8>, v: bv8): (n: nat)
    ensures n <= |s|
  {
    if |s| == 0 then 0
    else Occurrences(s[..|s| - 1], v) + (if s[|s| - 1] == v then 1 else 0)
  }

  /** Number of bits of the buffer equal to `target`. */
  function ReferenceCount(data: seq<bv8>, target: bv8): nat {
    Occurrences(BitsOf(data), target)
  }

  /** Number of bytes whose lowest-order bit is set. */
  function LowBitBytes(data: seq<bv8>): (n: nat)
    ensures n <= |data|
  {
    if |data| == 0 then 0
    else LowBitBytes(data[..|data| - 1]) + (if data[|data| - 1] & 1 == 1 then 1 else 0)
  }

  // ---------------------------------------------------------------------------
  // Corrected bit counting
  // ---------------------------------------------------------------------------

  /** Among the first `j` masks of `b`, how many select a bit whose value equals
      `target`. */
  function MatchesCorrected(b: bv8, target: bv8, j: nat): (n: nat)
    requires j <= BitsInByte
    ensures n <= j
  {
    if j == 0 then 0
    else MatchesCorrected(b, target, j - 1) + (if ByteBit(b, j - 1) == target then 1 else 0)
  }

  function CountCorrected(data: seq<bv8>, target: bv8): (n: nat)
    ensures n <= BitLength(data)
  {
    if |data| == 0 then 0
    else CountCorrected(data[..|data| - 1], target) + MatchesCorrected(data[|data| - 1], target, BitsInByte)
  }

  /** The counting loop with the masked value normalised to a 0/1 bit before it is
      compared, so that counting ones counts set bits. */
  method CountBitsCorrected(data: seq<bv8>, zeroOrOne: bv8) returns (numBits: nat)
    requires zeroOrOne == 1 || zeroOrOne == 0
    ensures numBits == ReferenceCount(data, zeroOrOne)
  {
    numBits := 0;
    var dataSize := |data|;
    for i := 0 to dataSize
      invariant numBits == CountCorrected(data[..i], zeroOrOne)
    {
      var byte := data[i];
      ghost var before := numBits;
      for j := 0 to BitsInByte
        invariant numBits == before + MatchesCorrected(byte, zeroOrOne, j)
      {
        var bit := ByteBit(byte, j);
        if bit == zeroOrOne {
          numBits := numBits + 1;
        }
      }
      assert data[..i + 1][..i] == data[..i];
    }
    assert data[..dataSize] == data;
    CorrectedIsReference(data, zeroOrOne);
  }

  /** `count_ones` with the corrected comparison: the number of set bits, which with
      the number of clear bits makes up the whole buffer. */
  method CountOnesCorrected(data: seq<bv8>) returns (n: nat)
    ensures n == ReferenceCount(data, 1)
    ensures n + ReferenceCount(data, 0) == BitLength(data)
  {
    n := CountBitsCorrected(data, 1);
    ReferenceTotal(data);
  }

  // ---------------------------------------------------------------------------
  // Bit addressing lemmas
  // ---------------------------------------------------------------------------

  /** The mask table is the source's `1 << (7 - offset)`, and each mask has exactly
      the bit `7 - offset` set. */
  lemma MaskIsShift(offset: nat)
    requires offset < BitsInByte
    ensures Mask(offset) == 1 << (7 - offset)
    ensures BitSet(Mask(offset), 7 - offset)
    ensures forall k :: 0 <= k < BitsInByte && k != 7 - offset ==> !BitSet(Mask(offset), k)
  {
  }

  /** The mask at offset `offset` reads arithmetic bit `7 - offset`. */
  lemma ByteBitIsBitSet(b: bv8, offset: nat)
    requires offset < BitsInByte
    ensures ByteBit(b, offset) == 1 <==> BitSet(b, 7 - offset)
  {
  }

  /** `GetBitAt` reads bit `pos % 8` of byte `pos / 8` counted from the highest-order
      bit, i.e. arithmetic bit `7 - pos % 8`. */
  lemma GetBitAtIsByteBit(data: seq<bv8>, pos: nat)
    requires pos < BitLength(data)
    ensures GetBitAt(data, pos) == ByteBit(data[pos / 8], pos % 8)
    ensures GetBitAt(data, pos) == 1 <==> BitSet(data[pos / 8], 7 - pos % 8)
  {
    ByteBitIsBitSet(data[pos / 8], pos % 8);
  }

  /** The bits of one byte, highest-order first. */
  function ByteBits(b: bv8): (bits: seq<bv8>)
    ensures |bits| == BitsInByte
  {
    seq(BitsInByte, j requires 0 <= j < BitsInByte => ByteBit(b, j))
  }

  /** Reading the bits of a buffer is reading the bits of all but its last byte, then
      the bits of the last byte. */
  lemma BitsOfSnoc(data: seq<bv8>)
    requires |data| > 0
    ensures BitsOf(data) == BitsOf(data[..|data| - 1]) + ByteBits(data[|data| - 1])
  {
    var prefix := data[..|data| - 1];
    var m := BitLength(prefix);
    var lhs := BitsOf(data);
    var rhs := BitsOf(prefix) + ByteBits(data[|data| - 1]);
    forall i | 0 <= i < |lhs|
      ensures lhs[i] == rhs[i]
    {
      GetBitAtIsByteBit(data, i);
      if i < m {
        GetBitAtIsByteBit(prefix, i);
      } else {
        assert i / 8 == |data| - 1 && i % 8 == i - m;
      }
    }
  }

  // ---------------------------------------------------------------------------
  // Counting lemmas
  // ---------------------------------------------------------------------------

  /** Counting is additive over concatenation. */
  lemma {:induction false} OccurrencesAppend(s: seq<bv8>, u: seq<bv8>, v: bv8)
    ensures Occurrences(s + u, v) == Occurrences(s, v) + Occurrences(u, v)
  {
    if |u| == 0 {
      assert s + u == s;
    } else {
      OccurrencesAppend(s, u[..|u| - 1], v);
      assert (s + u)[..|s + u| - 1] == s + u[..|u| - 1];
    }
  }

  /** A sequence of 0/1 values holds as many zeros and ones as it is long. */
  lemma {:induction false} OccurrencesBinary(s: seq<bv8>)
    requires forall i :: 0 <= i < |s| ==> s[i] == 0 || s[i] == 1
    ensures Occurrences(s, 0) + Occurrences(s, 1) == |s|
  {
    if |s| > 0 {
      OccurrencesBinary(s[..|s| - 1]);
    }
  }

  /** The corrected per-byte count is the count over the byte's bits. */
  lemma {:induction false} MatchesCorrectedIsOccurrences(b: bv8, target: bv8, j: nat)
    requires j <= BitsInByte
    ensures MatchesCorrected(b, target, j) == Occurrences(ByteBits(b)[..j], target)
  {
    if j > 0 {
      MatchesCorrectedIsOccurrences(b, target, j - 1);
      assert ByteBits(b)[..j][..j - 1] == ByteBits(b)[..j - 1];
    }
  }

  /** The corrected loop counts exactly the buffer's bits equal to the target. */
  lemma {:induction false} CorrectedIsReference(data: seq<bv8>, target: bv8)
    ensures CountCorrected(data, target) == ReferenceCount(data, target)
  {
    if |data| > 0 {
      var last := data[|data| - 1];
      CorrectedIsReference(data[..|data| - 1], target);
      BitsOfSnoc(data);
      OccurrencesAppend(BitsOf(data[..|data| - 1]), ByteBits(last), target);
      MatchesCorrectedIsOccurrences(last, target, BitsInByte);
      assert ByteBits(last)[..BitsInByte] == ByteBits(last);
    }
  }

  /** For target 0 the comparison `b & mask == 0` is exactly "the bit is clear". */
  lemma {:induction false} MatchesZerosAgree(b: bv8, j: nat)
    requires j <= BitsInByte
    ensures MatchesAsWritten(b, 0, j) == MatchesCorrected(b, 0, j)
  {
    if j > 0 {
      MatchesZerosAgree(b, j - 1);
    }
  }

  lemma {:induction false} CountZerosAgree(data: seq<bv8>)
    ensures CountAsWritten(data, 0) == CountCorrected(data, 0)
  {
    if |data| > 0 {
      CountZerosAgree(data[..|data| - 1]);
      MatchesZerosAgree(data[|data| - 1], BitsInByte);
    }
  }

  /** `count_zeros` as written agrees with the reference specification. */
  lemma CountZerosIsReference(data: seq<bv8>)
    ensures CountAsWritten(data, 0) == ReferenceCount(data, 0)
  {
    CountZerosAgree(data);
    CorrectedIsReference(data, 0);
  }

  /** For target 1 no mask but the last (`mask == 1`) can make `b & mask == 1`. */
  lemma {:induction false} MatchesOnesBeforeLast(b: bv8, j: nat)
    requires j < BitsInByte
    ensures MatchesAsWritten(b, 1, j) == 0
  {
    if j > 0 {
      MatchesOnesBeforeLast(b, j - 1);
      assert b & Mask(j - 1) != 1;
    }
  }

  /** `count_ones` as written counts the bytes whose lowest-order bit is set. */
  lemma {:induction false} CountOnesIsLowBitBytes(data: seq<bv8>)
    ensures CountAsWritten(data, 1) == LowBitBytes(data)
  {
    if |data| > 0 {
      CountOnesIsLowBitBytes(data[..|data| - 1]);
      MatchesOnesBeforeLast(data[|data| - 1], 7);
    }
  }

  /** The byte 0b1000_0000 has one set bit, but `count_ones` as written reports 0. */
  lemma CountOnesUndercounts()
    ensures CountAsWritten([0x80], 1) == 0
    ensures ReferenceCount([0x80], 1) == 1
  {
    CountOnesIsLowBitBytes([0x80]);
    CorrectedIsReference([0x80], 1);
    assert [0x80 as bv8][..0] == [];
  }

  /** Every bit is 0 or 1: the reference counts of the two targets add up to the
      buffer's bit length. */
  lemma ReferenceTotal(data: seq<bv8>)
    ensures ReferenceCount(data, 0) + ReferenceCount(data, 1) == BitLength(data)
  {
    OccurrencesBinary(BitsOf(data));
  }

  /** The count as written is additive over concatenation of buffers. */
  lemma {:induction false} CountAsWrittenAppend(a: seq<bv8>, b: seq<bv8>, target: bv8)
    ensures CountAsWritten(a + b, target) == CountAsWritten(a, target) + CountAsWritten(b, target)
  {
    if |b| == 0 {
      assert a + b == a;
    } else {
      CountAsWrittenAppend(a, b[..|b| - 1], target);
      assert (a + b)[..|a + b| - 1] == a + b[..|b| - 1];
    }
  }

  /** A buffer of `n` zero bytes has `8 * n` zero bits. */
  lemma {:induction false} ZeroBufferCount(n: nat)
    ensures CountAsWritten(seq(n, _ => 0 as bv8), 0) == 8 * n
  {
    if n > 0 {
      ZeroBufferCount(n - 1);
      assert seq(n, _ => 0 as bv8)[..n - 1] == seq(n - 1, _ => 0 as bv8);
    }
  }

  /** The unit test `count_zeros_works`: three zero bytes hold 24 zero bits. */
  lemma CountZerosThreeZeroBytes()
    ensures CountAsWritten([0, 0, 0], 0) == 24
  {
  }

  /** The unit test `bitwise_division_works`: bits 128..135 live in byte 16, bit 136
      in byte 17. */
  lemma ByteIndexExamples(data: seq<bv8>)
    requires |data| == 18
    ensures forall pos :: 128 <= pos < 136 ==> GetByteAt(data, pos).1 == 16
    ensures GetByteAt(data, 136).1 == 17
  {
  }
}
