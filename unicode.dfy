/**
 * Vocabulary shared by the character codecs: the result of decoding or
 * encoding one character, the Unicode scalar values, and the UTF-8 byte
 * sequence of a code point as given by the table in section 3 of RFC 3629.
 */
module Unicode {
  import opened Common

  /**
   * What `parseNext`, `encodeChar` and `appendChar` return: the number of
   * octets of the character, or one of the two errors (negative values in
   * the C++ enum, so `isError` is `<= 0`).
   */
  datatype ParseResult = Size(n: nat) | InvalidCharacter | IncompleteCharacter

  predicate IsError(r: ParseResult) { !r.Size? }

  /** The outcome of `parseNext`: the decoded character and its octet count, or the error. */
  datatype Decoded = Char(chr: nat, size: nat) | Invalid | Incomplete

  /** The outcome as the C++ `ParseResult` value. */
  function ResultOf(d: Decoded): ParseResult
  {
    match d
    case Char(_, n) => Size(n)
    case Invalid => InvalidCharacter
    case Incomplete => IncompleteCharacter
  }

  predicate IsSurrogate(c: nat) { 0xD800 <= c <= 0xDFFF }

  /** A Unicode scalar value: a code point that is not a surrogate. */
  predicate IsScalar(c: nat) { c <= 0x10FFFF && !IsSurrogate(c) }

  /**
   * The UTF-8 form of a code point (section 3 of RFC 3629): one octet up
   * to U+007F, two up to U+07FF, three up to U+FFFF, four beyond. It is
   * defined for surrogates too, because one of the encoders measures
   * them.
   */
  function Utf8Bytes(c: nat): (r: seq<Byte>)
    requires c <= 0x10FFFF
    ensures 1 <= |r| <= 4
    ensures |r| == 1 <==> c <= 0x7F
    ensures |r| == 2 <==> 0x7F < c <= 0x7FF
    ensures |r| == 3 <==> 0x7FF < c <= 0xFFFF
    ensures |r| == 4 <==> 0xFFFF < c
  {
    if c <= 0x7F then [c]
    else if c <= 0x7FF then [0xC0 + c / 64, 0x80 + c % 64]
    else if c <= 0xFFFF then [0xE0 + c / 4096, 0x80 + (c / 64) % 64, 0x80 + c % 64]
    else [0xF0 + c / 262144, 0x80 + (c / 4096) % 64, 0x80 + (c / 64) % 64, 0x80 + c % 64]
  }
}
