/**
 * The character decoders a text decoder or pull parser is instantiated
 * with (the `CharDecoder` template argument): the UTF-8 codec and the two
 * UTF-16 codecs. Each is used through `parseNext` and through
 * `encodeChar` without a buffer, which only measures a character.
 */
module CharDecoders {
  import opened Common
  import opened Unicode
  import Utf8Codec
  import Utf16Codec
  import Utf8CodecProofs
  import Utf16CodecProofs

  datatype CharDecoder = Utf8 | Utf16(order: Utf16Codec.ByteOrder)

  /** The octets of a scalar value in the decoder's encoding. */
  function Encoded(d: CharDecoder, c: nat): (r: seq<Byte>)
    requires IsScalar(c)
    ensures 1 <= |r| <= 4
  {
    match d
    case Utf8 => Utf8Bytes(c)
    case Utf16(order) => Utf16Codec.Utf16Bytes(order, c)
  }

  /**
   * `CharDecoder::parseNext`: whatever it accepts is a scalar value read
   * from a non-empty prefix of the data (`DecodeCanonical` shows that the
   * prefix is exactly its encoding).
   */
  function Decode(d: CharDecoder, data: seq<Byte>): (r: Decoded)
    ensures r.Char? ==> IsScalar(r.chr) && 1 <= r.size <= |data|
    ensures data == [] ==> r == Incomplete
  {
    match d
    case Utf8 =>
      var r := Utf8Codec.Decode(data);
      if r.Char? then Utf8CodecProofs.DecodeCanonical(data); r else r
    case Utf16(order) =>
      var r := Utf16Codec.Decode(order, data);
      if r.Char? then Utf16CodecProofs.DecodeCanonical(order, data); r else r
  }

  /** The octets a decoder accepts are exactly the encoding of the character it returns. */
  lemma DecodeCanonical(d: CharDecoder, data: seq<Byte>)
    requires Decode(d, data).Char?
    ensures data[..Decode(d, data).size] == Encoded(d, Decode(d, data).chr)
  {
    match d
    case Utf8 => Utf8CodecProofs.DecodeCanonical(data);
    case Utf16(order) => Utf16CodecProofs.DecodeCanonical(order, data);
  }

  /** `parseNext` as the instantiated codec runs it. */
  method ParseNext(d: CharDecoder, data: seq<Byte>) returns (r: Decoded)
    ensures r == Decode(d, data)
  {
    match d
    case Utf8 =>
      r := Utf8Codec.ParseNext(data);
    case Utf16(order) =>
      r := Utf16Codec.Decode(order, data);
  }

  /** `CharDecoder::encodeChar(chr)` without a buffer: the octet count of a scalar value. */
  function MeasuredSize(d: CharDecoder, c: nat): (r: ParseResult)
    ensures IsScalar(c) ==> r == Size(|Encoded(d, c)|)
  {
    match d
    case Utf8 => Utf8Codec.EncodeResult(c, false, 0)
    case Utf16(_) => Utf16Codec.EncodeResult(c, false, 0)
  }

  /** Every scalar value is decoded back from its encoding, whatever follows it. */
  lemma DecodeEncoded(d: CharDecoder, c: nat, rest: seq<Byte>)
    requires IsScalar(c)
    ensures Decode(d, Encoded(d, c) + rest) == Char(c, |Encoded(d, c)|)
  {
    match d
    case Utf8 => Utf8CodecProofs.EncodeDecode(c, rest);
    case Utf16(order) => Utf16CodecProofs.EncodeDecode(order, c, rest);
  }
}
