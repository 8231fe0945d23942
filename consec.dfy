/** The bit selector of the `consec` command (nbint/src/bin/consec.rs): which bit
    value the maximum-run search looks for, and the arguments it is called with. */
module Consec {
  import BinaryStuff

  /** The selector used when no second command-line argument is given. */
  const DefaultUseBits: string := "zeros"

  /** Which bit value to look for. */
  datatype CountBit = CountBitZeros | CountBitOnes

  /** The names that select ones; every other string selects zeros. */
  predicate NamesOnes(item: string) {
    item == "1" || item == "ones" || item == "one"
  }

  /** `From<&str> for CountBit`: a total mapping, "0", "zeros", "zero" and any
      unrecognised string select zeros; "1", "ones", "one" select ones. Since
      `CountBit` has two values, the ensures also gives `CountBitZeros` for every
      string that is not a ones name. */
  function FromStr(item: string): (c: CountBit)
    ensures c == CountBitOnes <==> NamesOnes(item)
  {
    match item
    case "0" => CountBitZeros
    case "zeros" => CountBitZeros
    case "zero" => CountBitZeros
    case "1" => CountBitOnes
    case "ones" => CountBitOnes
    case "one" => CountBitOnes
    case _ => CountBitZeros
  }

  /** `ToString for CountBit`: the canonical name of each selector, which maps back
      to the same selector. */
  function ToString(c: CountBit): (s: string)
    ensures s == "ones" || s == "zeros"
    ensures FromStr(s) == c
  {
    match c
    case CountBitOnes => "ones"
    case CountBitZeros => "zeros"
  }

  /** The canonical names of the two selectors differ. */
  lemma ToStringInjective(c: CountBit, d: CountBit)
    ensures ToString(c) == ToString(d) <==> c == d
  {
  }

  /** Printing a parsed selector and parsing it again changes nothing. */
  lemma FromStrToStringIdempotent(item: string)
    ensures FromStr(ToString(FromStr(item))) == FromStr(item)
    ensures ToString(FromStr(item)) == (if NamesOnes(item) then "ones" else "zeros")
  {
  }

  /** The selector from the command line: the argument after the file name, or
      `DefaultUseBits` when there is none (`args` excludes the program name). */
  function UseBits(args: seq<string>): (c: CountBit)
    ensures |args| <= 1 ==> c == CountBitZeros
    ensures |args| > 1 ==> (c == CountBitOnes <==> NamesOnes(args[1]))
  {
    var useBits := if |args| > 1 then args[1] else DefaultUseBits;
    FromStr(useBits)
  }

  /** The bit value a selector stands for. */
  function ZeroOrOne(c: CountBit): (v: bv8)
    ensures v == 0 || v == 1
    ensures v == 1 <==> c == CountBitOnes
  {
    match c
    case CountBitZeros => 0
    case CountBitOnes => 1
  }

  /** The arguments `get_max_data` passes to the maximum-run search: the data, the
      window size in bits, the starting bit offset and the bit value. */
  datatype MaxRunCall = MaxRunCall(data: seq<bv8>, windowSize: nat, start: nat, zeroOrOne: bv8)

  /** `get_max_data`: search the whole buffer, from bit 0, for the selected bit; the
      window starting at 0 and `8 * |data|` bits long ends exactly at the buffer's
      last bit. */
  function GetMaxDataCall(data: seq<bv8>, bitCountType: CountBit): (call: MaxRunCall)
    ensures call.data == data
    ensures call.windowSize == BinaryStuff.BitLength(data)
    ensures call.start == 0
    ensures call.zeroOrOne == 0 || call.zeroOrOne == 1
    ensures call.zeroOrOne == 1 <==> bitCountType == CountBitOnes
  {
    var zeroOrOne := ZeroOrOne(bitCountType);
    MaxRunCall(data, |data| * 8, 0, zeroOrOne)
  }

  /** From the command line to the search: the ones names select target 1, every
      other argument, and no argument at all, select target 0. */
  lemma CommandLineTarget(args: seq<string>, data: seq<bv8>)
    ensures GetMaxDataCall(data, UseBits(args)).zeroOrOne
            == (if |args| > 1 && NamesOnes(args[1]) then 1 else 0)
  {
  }
}
