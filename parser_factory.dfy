/**
 * `PullParser::createParser`: the parser for a document is chosen by its
 * byte order mark, the UTF-16 ones first, and parsing starts behind the
 * mark; a document without a mark is read as UTF-8 from its first octet.
 */
module ParserFactory {
  import opened Common
  import opened CharDecoders
  import Utf8Codec
  import Utf16Codec

  /** The parser `createParser` builds: its character decoder and where in the data it starts. */
  datatype Created = Created(decoder: CharDecoder, offset: nat)

  /** The overload that takes the data over (`std::vector<char>&&`): the decoder and the start offset 2, 2, 3 or 0. */
  function CreateParser(data: seq<Byte>): (r: Created)
    ensures r.offset <= |data|
    ensures r.decoder == Utf16(Utf16Codec.BigEndian) <==> |data| >= 2 && data[0] == 0xFE && data[1] == 0xFF
    ensures r.decoder == Utf16(Utf16Codec.LittleEndian) <==> |data| >= 2 && data[0] == 0xFF && data[1] == 0xFE
    ensures r.decoder == Utf8 && r.offset == 3 <==> |data| >= 3 && data[0] == 0xEF && data[1] == 0xBB && data[2] == 0xBF
    ensures r.decoder.Utf16? ==> r.offset == 2
    ensures r.decoder == Utf8 ==> r.offset == 0 || r.offset == 3
  {
    if Utf16Codec.HasBom(Utf16Codec.BigEndian, data) then Created(Utf16(Utf16Codec.BigEndian), 2)
    else if Utf16Codec.HasBom(Utf16Codec.LittleEndian, data) then Created(Utf16(Utf16Codec.LittleEndian), 2)
    else if Utf8Codec.HasBom(data) then Created(Utf8, 3)
    else Created(Utf8, 0)
  }

  /** The overload on a `ConstStringRef`: the decoder and the view of the data behind the mark. */
  function CreateParserOnView(data: seq<Byte>): (r: (CharDecoder, seq<Byte>))
  {
    if Utf16Codec.HasBom(Utf16Codec.BigEndian, data) then (Utf16(Utf16Codec.BigEndian), data[2..])
    else if Utf16Codec.HasBom(Utf16Codec.LittleEndian, data) then (Utf16(Utf16Codec.LittleEndian), data[2..])
    else if Utf8Codec.HasBom(data) then (Utf8, data[3..])
    else (Utf8, data)
  }

  /** Both overloads pick the same decoder and start at the same octet. */
  lemma OverloadsAgree(data: seq<Byte>)
    ensures CreateParserOnView(data) == (CreateParser(data).decoder, data[CreateParser(data).offset..])
  {
  }

  /**
   * No data carries two of the marks, so the order of the checks does not
   * matter, and the octets skipped are exactly the mark of the decoder
   * chosen (U+FEFF in its encoding).
   */
  lemma MarkSkipped(data: seq<Byte>)
    ensures (Utf16Codec.HasBom(Utf16Codec.BigEndian, data) ==> !Utf16Codec.HasBom(Utf16Codec.LittleEndian, data) && !Utf8Codec.HasBom(data))
    ensures (Utf16Codec.HasBom(Utf16Codec.LittleEndian, data) ==> !Utf8Codec.HasBom(data))
    ensures var r := CreateParser(data);
      r.offset > 0 ==> data[..r.offset] == Encoded(r.decoder, 0xFEFF)
  {
  }
}
