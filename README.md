# sergut core, modelled in Dafny

sergut is a C++ serialization library. It writes objects as XML, JSON or URL
parameters, reads them back from URL parameters, and ships its own XML pull
parser with UTF-8 and UTF-16 decoding. This project models the byte- and
string-level core of the library and proves properties of that model. One
module covers each part:

- `Unicode`, `Utf8Codec`, `LegacyUtf8Codec`, `Utf16Codec`, `CharDecoders` (with
  the `…Proofs` and `…Examples` modules beside them): the UTF-8 codec
  (RFC 3629, sections 3 and 4) in its current and its older variant, and the
  UTF-16LE/BE codec (RFC 2781, section 2). Each decoder loop is proved against one
  specification function, and each is paired with a proved encode/decode round trip.
- `XmlHelper`: the XML 1.0 character classes [2] Char, [4] NameStartChar and
  [4a] NameChar.
- `TextDecoding`, `TextDecodingProofs`, `LegacyTextDecoding`: the decoder of
  character data and attribute values, with character references and the
  predefined entities (XML 1.0, sections 4.1 and 4.6). The current variant grows
  its output buffer; the older one writes into a fixed buffer or only counts octets.
- `PullParsing`, `ParseStack`, `ParserFactory`: the pull parser's token state
  machine, its tag stack, the XML declaration checks (XML 1.0, section 2.8),
  save and restore points, and the choice of decoder by byte order mark.
- `XmlSerializer`, `JsonSerializer`, `UrlSerializer`, `UrlVectorSerializer`,
  `UrlDeserializer`: the output escapers, meaning XML entities, URL form encoding
  (RFC 3986, section 2.1, with `+` for a space) and JSON strings (RFC 8259,
  section 7). They also cover the level stacks of the serializers, the
  duplicate-name checks of the URL serializers, and the pair-consuming URL
  deserializer.
- `StringRef`, `TypeNames`, `MemberDeserializing`, `Versions`: the string-reference
  view, the qualified type name, the member registry of the deserializers, and
  the version registry.
- `GdbPrinter`: the gdb pretty printer for the string-reference classes.

Octets are `Common.Byte`, an `int` between 0 and 255, and texts are `seq<Byte>`.
Code points are `nat`. Stateful parts are classes whose methods state their new
state in terms of specification functions of the old state; where a contract
says less, a line under "## Left out" names the member. The pull parser, the
text decoders, the parse stacks, the serializers and the registries are all
built this way. Pure parts are functions with lemmas.

## Model

| member | source | states |
|---|---|---|
| Unicode.Utf8Bytes | lib/sergut/unicode/Utf8Codec.h:133-177 | the UTF-8 form of a code point is 1, 2, 3 or 4 octets exactly for the ranges up to 0x7F, 0x7FF, 0xFFFF and 0x10FFFF |
| Utf8Codec.ComputeCharSize | lib/sergut/unicode/Utf8Codec.h:35-70 | the lead octet classes: ASCII is size 1 with its own value, 10xxxxxx and 11111xxx are invalid, 110/1110/11110 announce 2/3/4 octets with the payload bits |
| Utf8Codec.LeadMaskTests | lib/sergut/unicode/Utf8Codec.h:43-67 | each bit-mask test on the lead octet is the same as a range test on its value |
| Utf8Codec.LeadPayloads | lib/sergut/unicode/Utf8Codec.h:57-65 | the masked payload of a 2-, 3- or 4-octet lead is the lead minus its marker bits |
| Utf8Codec.AccumulateForm | lib/sergut/unicode/Utf8Codec.h:89-96 | shifting by six and or-ing in each continuation's low six bits yields the base-64 number of lead and continuations |
| Utf8Codec.Decode | lib/sergut/unicode/Utf8Codec.h:72-126 | an accepted character consumes between 1 and 4 octets of the data |
| Utf8Codec.HasContinuationBits | lib/sergut/unicode/Utf8Codec.h:91 | the `& 0xC0 == 0x80` test holds exactly for the octets 0x80-0xBF |
| Utf8Codec.ReadContinuations | lib/sergut/unicode/Utf8Codec.h:89-96 | the loop succeeds exactly when every octet after the lead is a continuation, and then holds the accumulated value |
| Utf8Codec.ParseNext | lib/sergut/unicode/Utf8Codec.h:72-126 | the loop-based decoder returns exactly the result of the decoding function |
| Utf8Codec.EncodeResult | lib/sergut/unicode/Utf8Codec.h:133-177 | invalid exactly above 0x10FFFF or for a surrogate when a buffer is given; incomplete exactly when the buffer is smaller than the encoding; otherwise the encoding's length |
| Utf8Codec.EncodeChar | lib/sergut/unicode/Utf8Codec.h:133-177 | writes the UTF-8 octets at the buffer start on success and leaves the buffer untouched otherwise; without a buffer it only measures |
| Utf8Codec.AppendChar | lib/sergut/unicode/Utf8Codec.h:179-188 | appends exactly the encoding of a scalar value; any other value is invalid and leaves the output unchanged |
| Utf8CodecProofs.DecodeWellFormed | lib/sergut/unicode/Utf8Codec.h:97-125 | after a lead and well-formed continuations, the result is invalid exactly for an overlong form, a 3-octet surrogate or a value above 0x10FFFF |
| Utf8CodecProofs.Base64Digits | lib/sergut/unicode/Utf8Codec.h:149-174 | a code point equals the sum of its six-bit digit groups, as the encoder splits it |
| Utf8CodecProofs.Digits3 | lib/sergut/unicode/Utf8Codec.h:162-164 | the encoder's shifts and masks recover the three digit groups of a 3-octet value |
| Utf8CodecProofs.Digits4 | lib/sergut/unicode/Utf8Codec.h:171-174 | the encoder's shifts and masks recover the four digit groups of a 4-octet value |
| Utf8CodecProofs.Decode2 | lib/sergut/unicode/Utf8Codec.h:100-105 | a non-overlong two-octet form decodes to its value, whatever follows |
| Utf8CodecProofs.Decode3 | lib/sergut/unicode/Utf8Codec.h:106-113 | a non-overlong, non-surrogate three-octet form decodes to its value, whatever follows |
| Utf8CodecProofs.Decode4 | lib/sergut/unicode/Utf8Codec.h:114-121 | a four-octet form of a value in 0x10000-0x10FFFF decodes to that value, whatever follows |
| Utf8CodecProofs.EncodeDecode | lib/sergut/unicode/Utf8Codec.h:72-177 | round trip: decoding the encoding of any scalar value, followed by anything, gives back the value and the encoding's length |
| Utf8CodecProofs.Canonical2 | lib/sergut/unicode/Utf8Codec.h:100-105 | an accepted two-octet form holds a value in 0x80-0x7FF and is exactly that value's encoding |
| Utf8CodecProofs.Canonical3 | lib/sergut/unicode/Utf8Codec.h:106-113 | an accepted three-octet form holds a non-surrogate value in 0x800-0xFFFF and is exactly that value's encoding |
| Utf8CodecProofs.Canonical4 | lib/sergut/unicode/Utf8Codec.h:114-121 | an accepted four-octet form holds a value in 0x10000-0x10FFFF and is exactly that value's encoding |
| Utf8CodecProofs.DecodeCanonical | lib/sergut/unicode/Utf8Codec.h:72-126 | the other round trip: whatever the decoder accepts is a scalar value and the octets consumed are exactly its encoding |
| Utf8CodecProofs.TruncatedIsIncomplete | lib/sergut/unicode/Utf8Codec.h:86-88 | every proper prefix of an encoding decodes as incomplete, never as invalid |
| Utf8CodecProofs.DecodeLeadClasses | lib/sergut/unicode/Utf8Codec.h:74-88 | empty data is incomplete; an ASCII lead decodes to itself with size 1; 10xxxxxx and 11111xxx leads are invalid; fewer octets than announced are incomplete |
| Utf8CodecProofs.BadContinuationIsInvalid | lib/sergut/unicode/Utf8Codec.h:89-93 | any announced octet that is not 10xxxxxx makes the character invalid |
| Utf8CodecExamples.BomIsByteOrderMark | lib/sergut/unicode/Utf8Codec.h:190-198 | the data starts with EF BB BF exactly when it decodes to U+FEFF |
| Utf8CodecExamples.EncodeTable | test/unicode/TestUtf8Codec.cpp:31-35 | the encodings of the eight boundary code points of the test table |
| Utf8CodecExamples.DecodeBrokenTable | test/unicode/TestUtf8Codec.cpp:94-112 | the truncated sequences of the test table are incomplete; stray, bad and too-long ones are invalid |
| Utf8CodecExamples.DecodeOverlongTable | test/unicode/TestUtf8Codec.cpp:100-102 | the overlong sequences of the test table are invalid |
| Utf8CodecExamples.DecodeSurrogateTable | test/unicode/TestUtf8Codec.cpp:108-109 | the encoded surrogate bounds of the test table are invalid |
| Utf8CodecExamples.DecodeBeyondTable | test/unicode/TestUtf8Codec.cpp:104-105 | the sequences above 0x10FFFF of the test table are invalid |
| LegacyUtf8Codec.ParseNext | lib/unicode/Utf8Codec.cpp:52-102 | the older decoder, with its checks in another order, returns exactly what the newer decoder returns on every input |
| LegacyUtf8Codec.LaterChecksRedundant | lib/unicode/Utf8Codec.cpp:93-98 | the trailing surrogate and range checks can only reject 3- and 4-octet forms |
| LegacyUtf8Codec.EncodeResult | lib/unicode/Utf8Codec.cpp:109-151 | invalid exactly for non-scalar values, even when only measuring; incomplete exactly when the buffer is too small |
| LegacyUtf8Codec.EncodeChar | lib/unicode/Utf8Codec.cpp:109-151 | writes the UTF-8 octets on success and leaves the buffer untouched otherwise |
| LegacyUtf8Codec.AppendChar | lib/unicode/Utf8Codec.cpp:153-162 | appends exactly the encoding of a scalar value, and nothing for any other value |
| LegacyUtf8Codec.EncodersCompared | lib/unicode/Utf8Codec.cpp:111-112 | the two encoders agree with a buffer; when measuring they differ exactly on surrogates (older: invalid, newer: 3) |
| LegacyUtf8Codec.EncodeErrorTable | test/unicode/TestUtf8Codec.cpp:68-89 | 0x110000, 0xDC00 and 0xDFFF are rejected, so the output stays empty |
| Utf16Codec.ComputeSurrogateCount | lib/sergut/unicode/Utf16Codec.h:49-60 | a high octet 0xD8-0xDB starts a pair, 0xDC-0xDF first is invalid, anything else is a single unit |
| Utf16Codec.Decode | lib/sergut/unicode/Utf16Codec.h:85-121 | an accepted character is one unit (2 octets) or a pair (4 octets) within the data |
| Utf16Codec.Units | lib/sergut/unicode/Utf16Codec.h:151-167 | a scalar value is written as 16-bit units |
| Utf16Codec.Utf16Bytes | lib/sergut/unicode/Utf16Codec.h:146-168 | the encoding has two octets per 16-bit unit |
| Utf16Codec.EncodeResult | lib/sergut/unicode/Utf16Codec.h:146-168 | invalid exactly for surrogates and values above 0x10FFFF; incomplete exactly when the buffer is smaller than 2 or 4 octets; otherwise 2 per unit |
| Utf16Codec.SetHighByteAt | lib/sergut/unicode/Utf16Codec.h:123-132 | the high octet of unit `pos` goes first in big-endian and second in little-endian order, and nothing else changes |
| Utf16Codec.SetLowByteAt | lib/sergut/unicode/Utf16Codec.h:134-143 | the low octet of unit `pos` goes second in big-endian and first in little-endian order, and nothing else changes |
| Utf16Codec.PairOctets | lib/sergut/unicode/Utf16Codec.h:159-166 | a supplementary character is written as 0xD8 plus the top two payload bits, then 8 bits, then 0xDC plus 2 bits, then 8 bits, in the codec's octet order |
| Utf16Codec.EncodeChar | lib/sergut/unicode/Utf16Codec.h:145-168 | on success writes exactly the UTF-16 octets at the buffer start; on error the buffer is untouched |
| Utf16Codec.WriteUnit | lib/sergut/unicode/Utf16Codec.h:151-156 | a BMP character is written as one unit in the codec's octet order |
| Utf16Codec.WritePair | lib/sergut/unicode/Utf16Codec.h:159-166 | a supplementary character is written as its surrogate pair |
| Utf16Codec.AppendChar | lib/sergut/unicode/Utf16Codec.h:170-180 | appends exactly the encoding of a scalar value, and nothing for any other value |
| Utf16CodecProofs.EncodeDecode | lib/sergut/unicode/Utf16Codec.h:85-168 | round trip: decoding the encoding of any scalar value, followed by anything, gives back the value and the encoding's length |
| Utf16CodecProofs.EncodeDecodePair | lib/sergut/unicode/Utf16Codec.h:101-120 | a written surrogate pair decodes back to its character with size 4 |
| Utf16CodecProofs.PayloadBits | lib/sergut/unicode/Utf16Codec.h:109-116 | reassembling the payload bits the encoder spread over the four octets gives back the 20-bit offset |
| Utf16CodecProofs.PairDigits | lib/sergut/unicode/Utf16Codec.h:162-165 | the encoder's shifts and masks recover the bit groups the decoder assembled |
| Utf16CodecProofs.CanonicalPair | lib/sergut/unicode/Utf16Codec.h:101-120 | an accepted pair holds a value in 0x10000-0x10FFFF and is exactly that value's encoding |
| Utf16CodecProofs.DecodeCanonical | lib/sergut/unicode/Utf16Codec.h:85-121 | the other round trip: whatever the decoder accepts is a scalar value and the octets consumed are exactly its encoding |
| Utf16CodecProofs.SwapUnits | lib/sergut/unicode/Utf16Codec.h:62-82 | swapping the two octets of every unit keeps the length |
| Utf16CodecProofs.SwapUnitsAt | lib/sergut/unicode/Utf16Codec.h:62-82 | the swap exchanges the octets of each unit |
| Utf16CodecProofs.ByteOrdersAgree | lib/sergut/unicode/Utf16Codec.h:62-121 | the little-endian decoder reads the unit-swapped data exactly as the big-endian decoder reads the data |
| Utf16CodecProofs.BomIsByteOrderMark | lib/sergut/unicode/Utf16Codec.h:182-190 | the data starts with FE FF in the codec's octet order exactly when it decodes to U+FEFF |
| Utf16CodecProofs.EncodeTable | test/unicode/TestUtf16Codec.cpp:32-41 | the big-endian encodings of the test table, and one little-endian pair |
| Utf16CodecProofs.DecodeErrorTable | test/unicode/TestUtf16Codec.cpp:134-140 | the truncated sequences of the test table are incomplete; a lone low surrogate or a bad second unit is invalid |
| XmlHelper.IsValidXmlChar | lib/sergut/xml/detail/Helper.h:65-82 | accepted exactly for the XML Char production or a surrogate; for a scalar value (the codecs reject surrogates) exactly the Char production 0x9, 0xA, 0xD, 0x20-0xD7FF, 0xE000-0xFFFD, 0x10000-0x10FFFF |
| XmlHelper.NameStartIsNameChar | lib/sergut/xml/detail/Helper.h:53-55 | every name start character is a name character |
| XmlHelper.NameCharClasses | lib/sergut/xml/detail/Helper.h:30-63 | digits, `-`, `.` and 0xB7 are name characters but not name start characters; letters, `:` and `_` are name start characters |
| XmlHelper.IllegalXmlChars | lib/sergut/xml/detail/Helper.h:71-81 | 0x0, 0xFFFE, 0xFFFF and values above 0x10FFFF are not XML characters; below 0x20 only tab, line feed and carriage return are |
| XmlSerializer.Entity | lib/sergut/XmlSerializer.cpp:88-98 | exactly the five octets `"`, `&`, `'`, `<` and `>` have an entity |
| XmlSerializer.EscapedHasNoMarkup | lib/sergut/XmlSerializer.cpp:100-124 | the escaped text holds no `"`, `'`, `<` or `>` octet |
| XmlSerializer.NextToken | lib/sergut/XmlSerializer.cpp:88-98 | reading back one entity or plain octet consumes at least one octet of the text |
| XmlSerializer.TokenOfEscape | lib/sergut/XmlSerializer.cpp:88-98 | each octet's escape reads back as that octet, whatever follows |
| XmlSerializer.EscapedRoundTrip | lib/sergut/XmlSerializer.cpp:100-124 | unescaping the escaped text gives back the input: nothing is lost and the order is kept |
| XmlSerializer.Serializer.constructor | lib/sergut/XmlSerializer.cpp:46-52 | the root level starts at Child and nothing is written |
| XmlSerializer.Serializer.Nest | lib/sergut/XmlSerializer.cpp:54-58 | a copy pushes a new level, which starts as Attribute |
| XmlSerializer.Serializer.Unnest | lib/sergut/XmlSerializer.cpp:60-65 | destroying a copy pops its level and writes nothing |
| XmlSerializer.Serializer.ChildrenFollow | lib/sergut/XmlSerializer.cpp:67-73 | from Attribute, writes `>` and switches the top level to Child |
| XmlSerializer.Serializer.PlainChildFollows | lib/sergut/XmlSerializer.cpp:75-81 | from Attribute, writes `>` and switches the top level to SingleChild |
| XmlSerializer.Serializer.WriteEscaped | lib/sergut/XmlSerializer.cpp:100-124 | the region loop appends exactly the escaped text and leaves the levels alone |
| XmlSerializer.EscapeExample | test/sergut/TestSergutXml.cpp:166 | the test string `<b>"STRING&amp; STRONG"</b>` escapes to the expected `&lt;b&gt;&quot;STRING&amp;amp; STRONG&quot;&lt;/b&gt;` |
| UrlSerializer.PercentEncode | lib/sergut/UrlSerializer.cpp:64-72 | `%` and two lower-case hex digits whose values are the octet's high and low nibble; the digits are themselves unreserved |
| UrlSerializer.EscapedAlphabet | lib/sergut/UrlSerializer.cpp:54-100 | the escaped text holds only letters, digits, `.`, `-`, `_`, `+` and `%` |
| UrlSerializer.EscapedStep | lib/sergut/UrlSerializer.cpp:79-92 | at a special octet, the loop has written the escapes before the region, the plain region as it stands, then `+` for a space or the percent triple |
| UrlSerializer.EscapedTail | lib/sergut/UrlSerializer.cpp:97-99 | the plain region left at the end is written as it stands |
| UrlSerializer.NextToken | lib/sergut/UrlSerializer.cpp:85-89 | reading back one `+`, percent triple or plain octet consumes at least one octet |
| UrlSerializer.TokenOfEscape | lib/sergut/UrlSerializer.cpp:54-72 | each octet's escape reads back as that octet, whatever follows |
| UrlSerializer.EscapedRoundTrip | lib/sergut/UrlSerializer.cpp:74-100 | decoding the escaped text gives back the input: nothing is lost and the order is kept |
| UrlSerializer.EscapeExamples | test/sergut/TestSergutUrl.cpp:42-51 | `:` is `%3a`, `*` is `%2a`, a space is `+` and a letter stands for itself, as the expected URL shows |
| UrlSerializer.SeenAfterCollectionCorrected | lib/sergut/UrlSerializer.h:100-125 | the names added before a collection are kept, and the collection's name is added only when it had an element |
| UrlSerializer.EmptyCollectionForgetsNames | lib/sergut/UrlSerializer.h:102-123 | as written, an empty collection after `a=1` empties the name set, so `b=2` follows without `&` (`a=1b=2`) and `a` could be added again; the corrected set keeps `a` and writes `a=1&b=2` |
| UrlSerializer.Serializer.constructor | lib/sergut/UrlSerializer.cpp:32-38 | nothing written and no name added |
| UrlSerializer.Serializer.AddName | lib/sergut/UrlSerializer.h:174-183 | a name seen before fails (the "Duplicate name" exception) with nothing written; otherwise `&` exactly when a name came before, then `name=`, and the separator invariant is kept |
| UrlSerializer.Serializer.WriteEscaped | lib/sergut/UrlSerializer.cpp:74-100 | the region loop appends exactly the escaped text and leaves the names alone |
| UrlSerializer.Serializer.WriteString | lib/sergut/UrlSerializer.h:86-90 | a string member is its name entry followed by the escaped value, or fails as a duplicate with nothing written |
| UrlSerializer.Serializer.WriteNumber | lib/sergut/UrlSerializer.h:44-48 | a number member is its name entry followed by the number's text, or fails as a duplicate with nothing written |
| UrlSerializer.Serializer.WriteElement | lib/sergut/UrlSerializer.h:105-120 | one element is refused exactly when its name was seen; otherwise its entry is appended, the first element saves the names seen with its own, and the seen names become the dummy name whenever saved names exist |
| UrlSerializer.Serializer.WriteElements | lib/sergut/UrlSerializer.h:102-122 | the element loop writes one entry per element in order under the collection's name; the first element is checked against the earlier names, later ones only against the dummy name |
| UrlSerializer.Serializer.SerializeCollection | lib/sergut/UrlSerializer.h:100-125 | as written: one entry per element in order, then the saved name set is swapped back, which is empty for an empty collection |
| UrlSerializer.Serializer.SerializeCollectionCorrected | lib/sergut/UrlSerializer.h:100-125 | the same entries, keeps the names added before, and keeps the separator invariant |
| UrlVectorSerializer.Named | lib/sergut/UrlSerializeToVector.h:101-102 | a collection's pairs: one per element, in order, each under the collection's name |
| UrlVectorSerializer.Serializer.constructor | lib/sergut/UrlSerializeToVector.h:41 | no parameter and no name yet |
| UrlVectorSerializer.Serializer.WriteSimpleType | lib/sergut/UrlSerializeToVector.h:173-181 | a new name appends exactly one (name, text) pair at the end; a name already seen is the "Duplicate name" exception with nothing appended; a name already among the parameters is always refused |
| UrlVectorSerializer.Serializer.WriteChar | lib/sergut/UrlSerializeToVector.h:91-93 | a `char` member is one pair whose value is the one-character string |
| UrlVectorSerializer.Serializer.WriteElements | lib/sergut/UrlSerializeToVector.h:99-119 | the element loop appends one pair per element in order under the collection's name, without a duplicate error among them |
| UrlVectorSerializer.Serializer.SerializeCollection | lib/sergut/UrlSerializeToVector.h:97-122 | as written: the element pairs, then the saved set is swapped back, which is empty for an empty collection |
| UrlVectorSerializer.Serializer.SerializeCollectionCorrected | lib/sergut/UrlSerializeToVector.h:97-122 | the same pairs, and the names seen before are kept so that the parameter invariant holds |
| UrlVectorSerializer.ForgottenDuplicate | lib/sergut/UrlSerializeToVector.h:112-120 | as written, `a`, an empty collection, then `a` again yields two parameters named `a` |
| UrlVectorSerializer.ForgottenDuplicateCorrected | lib/sergut/UrlSerializeToVector.h:97-122 | with the corrected collection the second `a` is refused and only `a=1` is written |
| UrlDeserializer.FirstIndex | lib/sergut/UrlDeserializer.h:162-171 | the position of the first pair with the name, or the end when there is none: no earlier pair has that name |
| UrlDeserializer.TakeAt | lib/sergut/UrlDeserializer.h:173-186 | taking a parameter reads the first pair with the name and erases exactly that pair; without one nothing changes |
| UrlDeserializer.TakeValues | lib/sergut/UrlDeserializer.h:93-104 | one turn of a collection loop yields the first of the name's values and leaves the rest of them, in order, and leaves the other pairs as they were |
| UrlDeserializer.TakeCommutes | test/sergut/TestSergutUrl.cpp:109-145 | taking two different names in either order reads the same values and leaves the same pairs, so member order in the input does not matter |
| UrlDeserializer.NotWrittenTail | lib/sergut/UrlDeserializer.h:165-169 | a name absent from the pairs is absent from their tail |
| UrlDeserializer.TakeWritten | lib/sergut/UrlSerializeToVector.h:173-181 | the pair a member wrote, with no earlier pair of that name, is read back and erased |
| UrlDeserializer.ValuesOfAppend | lib/sergut/UrlDeserializer.h:93-104 | the values of a name in joined pair lists are those of the first list, then those of the second |
| UrlDeserializer.ValuesOfOthers | lib/sergut/UrlDeserializer.h:98 | a name without a pair has no values |
| UrlDeserializer.ValuesOfNamed | lib/sergut/UrlSerializeToVector.h:97-122 | the values under a collection's name in the pairs written for it are the elements, in order |
| UrlDeserializer.CollectionRoundTrip | lib/sergut/UrlDeserializer.h:93-104 | after pairs of other names, a collection serialized to pairs is read back as the same elements in the same order |
| UrlDeserializer.Deserializer.constructor | lib/sergut/UrlDeserializer.h:51-59 | the deserializer starts from the given pairs |
| UrlDeserializer.Deserializer.FindParam | lib/sergut/UrlDeserializer.h:162-171 | the search loop returns the first position with the name, or the end |
| UrlDeserializer.Deserializer.ExtractSimpleType | lib/sergut/UrlDeserializer.h:173-186 | a found parameter is read and exactly that pair erased; a missing mandatory one is the exception and a missing optional one is `false`, both with the pairs unchanged |
| UrlDeserializer.Deserializer.ExtractCollection | lib/sergut/UrlDeserializer.h:93-104 | the loop ends, reads all the name's values in order and erases exactly the name's pairs |
| UrlDeserializer.NoValuesWithout | lib/sergut/UrlDeserializer.h:98 | when the loop finds no pair, removing the name's pairs changes nothing |
| JsonSerializer.Entity | lib/sergut/JsonSerializerBase.cpp:71-83 | exactly `"`, `\`, backspace, form feed, line feed, carriage return and tab have a two-octet escape starting with `\` |
| JsonSerializer.UnicodeEscape | lib/sergut/JsonSerializerBase.cpp:109-112 | another octet below 0x20 becomes `\u00` and two hex digits of its value |
| JsonSerializer.EscapedIsPrintable | lib/sergut/JsonSerializerBase.cpp:85-123 | the escaped text holds no octet below 0x20 |
| JsonSerializer.EscapedStep | lib/sergut/JsonSerializerBase.cpp:98-115 | at a special octet, the loop has written the escapes before the region, the plain region as it stands, then the octet's escape |
| JsonSerializer.EscapedTail | lib/sergut/JsonSerializerBase.cpp:120-122 | the plain region left at the end is written as it stands |
| JsonSerializer.NextToken | lib/sergut/JsonSerializerBase.cpp:71-112 | reading back one escape or plain octet consumes at least one octet |
| JsonSerializer.TokenOfEscape | lib/sergut/JsonSerializerBase.cpp:71-112 | each octet's escape reads back as that octet, whatever follows |
| JsonSerializer.EscapedRoundTrip | lib/sergut/JsonSerializerBase.cpp:92-123 | unescaping the escaped text gives back the input: nothing is lost and the order is kept |
| JsonSerializer.ControlExample | test/sergut/TestSergutJson.cpp:45 | the octet 0x01 is written as `\u0001` |
| JsonSerializer.Serializer.constructor | lib/sergut/JsonSerializerBase.cpp:46-51 | one level, on its first value, and nothing written |
| JsonSerializer.Serializer.Nest | lib/sergut/JsonSerializerBase.cpp:53-57 | a copy pushes a fresh level |
| JsonSerializer.Serializer.Unnest | lib/sergut/JsonSerializerBase.cpp:59-64 | destroying a copy pops its level and writes nothing |
| JsonSerializer.Serializer.AddCommaIfNeeded | lib/sergut/JsonSerializerBase.cpp:125-133 | the first call on a level writes nothing, every later call writes `,` |
| JsonSerializer.Serializer.WriteEscaped | lib/sergut/JsonSerializerBase.cpp:92-123 | the region loop appends exactly the escaped text and leaves the levels alone |
| JsonSerializer.Serializer.SerializeString | lib/sergut/JsonSerializerBase.h:109-113 | a string value is written quoted, with its octets escaped |
| JsonSerializer.Serializer.SerializeByCopy | lib/sergut/JsonSerializerBase.h:128-129 | a copy of the serializer writes the value quoted, and its destruction leaves the levels as they were |
| JsonSerializer.Serializer.SerializeCollection | lib/sergut/JsonSerializerBase.h:118-132 | `[`, the quoted elements in order separated by commas, then `]`, with the levels as before |
| ParseStack.FramesOf | lib/sergut/xml/detail/ParseStack.h:75-97 | frame `k` is the stretch of the buffer between the end of frame `k-1` and its own end |
| ParseStack.GrowKeepsFrames | lib/sergut/xml/detail/ParseStack.h:43-45 | growing the buffer keeps every frame |
| ParseStack.SamePrefixSameFrames | lib/sergut/xml/detail/ParseStack.h:46 | octets written behind the top frame do not change any frame |
| ParseStack.SnocFrame | lib/sergut/xml/detail/ParseStack.h:47 | recording one more frame end adds exactly one frame on top |
| ParseStack.PushFrames | lib/sergut/xml/detail/ParseStack.h:41-48 | copying the data behind the top frame and recording its end pushes exactly that data |
| ParseStack.CopyingParseStack.constructor | lib/sergut/xml/detail/ParseStack.h:39 | an empty stack |
| ParseStack.CopyingParseStack.FrameCount | lib/sergut/xml/detail/ParseStack.h:68-70 | the number of frames, which pushes raise and pops lower by one |
| ParseStack.CopyingParseStack.GetTopData | lib/sergut/xml/detail/ParseStack.h:59-61 | the last frame pushed and not popped, empty when there is none |
| ParseStack.CopyingParseStack.GetTopFrameSize | lib/sergut/xml/detail/ParseStack.h:54-57 | the length of the top frame, 0 when there is none |
| ParseStack.CopyingParseStack.PushData | lib/sergut/xml/detail/ParseStack.h:41-48 | the data becomes the new top and the frames below are kept; the buffer grows to the end of the top frame plus the data plus 50 only when it is too short |
| ParseStack.CopyingParseStack.PopData | lib/sergut/xml/detail/ParseStack.h:50-52 | drops exactly the top frame, so a push then a pop restores the frames and the previous top |
| ParseStack.CopyingParseStack.AddOffset | lib/sergut/xml/detail/ParseStack.h:72 | moving the input changes nothing in the copying stack |
| ParseStack.Span.Shifted | lib/sergut/xml/detail/ParseStack.h:125-130 | a moved view keeps its size |
| ParseStack.ViewParseStack.constructor | lib/sergut/xml/detail/ParseStack.h:104 | an empty stack |
| ParseStack.ViewParseStack.PushData | lib/sergut/xml/detail/ParseStack.h:106-108 | the view becomes the new top, the others are kept |
| ParseStack.ViewParseStack.PopData | lib/sergut/xml/detail/ParseStack.h:110-112 | drops exactly the top view |
| ParseStack.ViewParseStack.TopData | lib/sergut/xml/detail/ParseStack.h:114-119 | the top view, or an empty view when the stack is empty |
| ParseStack.ViewParseStack.AddOffset | lib/sergut/xml/detail/ParseStack.h:125-130 | every view is moved by the offset and keeps its size; the number of views is kept |
| StringRef.ConstStringRef.Empty | lib/sergut/misc/ConstStringRef.h:34 | the default view is empty |
| StringRef.ConstStringRef.constructor | lib/sergut/misc/ConstStringRef.h:35-37 | a view of the octets between the two pointers |
| StringRef.ConstStringRef.FromLiteral | lib/sergut/misc/ConstStringRef.h:38-39 | a literal's view leaves out its terminating NUL |
| StringRef.ConstStringRef.FromString | lib/sergut/misc/ConstStringRef.h:40-42 | a string's view holds exactly the string |
| StringRef.ConstStringRef.Size | lib/sergut/misc/ConstStringRef.h:44 | `end - begin` is the number of octets viewed |
| StringRef.ConstStringRef.ToString | lib/sergut/misc/ConstStringRef.h:52 | the string of exactly the octets viewed |
| StringRef.ConstStringRef.ConsumeFront | lib/sergut/misc/ConstStringRef.h:54-61 | with `n` at most the size, drops the first `n` octets and returns true; otherwise empties the view and returns false; the end never moves |
| StringRef.ConstStringRef.Equals | lib/sergut/misc/ConstStringRef.h:71-84 | the size test and the octet loop return true exactly when the two views hold the same octets |
| StringRef.ConstStringRef.NotEquals | lib/sergut/misc/ConstStringRef.h:96-99 | exactly the negation of equality |
| TypeNames.Split | lib/sergut/detail/TypeName.cpp:53-71 | a name that splits has at least one part, the type name |
| TypeNames.SplitPlain | lib/sergut/detail/TypeName.cpp:54-67 | octets other than `:` only extend the piece being read |
| TypeNames.SplitStep | lib/sergut/detail/TypeName.cpp:54-67 | one loop step: a plain octet extends the piece; a `:` after an empty piece, at the end or before a non-`:` rejects the name; `::` after a piece closes it into the name space |
| TypeNames.PartsOfJoined | lib/sergut/detail/TypeName.cpp:53-71 | joining non-empty `:`-free parts with `::` and splitting again gives back the parts |
| TypeNames.JoinedOfSplit | lib/sergut/detail/TypeName.cpp:53-71 | every part of an accepted name is non-empty and `:`-free, and joining them with `::` gives back the name |
| TypeNames.JoinedOfParts | lib/sergut/detail/TypeName.cpp:53-71 | an accepted name without leading `::` is exactly its parts joined with `::` |
| TypeNames.QualifiedRoundTrip | lib/sergut/detail/TypeName.cpp:45-72 | parts joined with `::` are accepted as those parts, with or without one leading `::` |
| TypeNames.WithTypeAppend | lib/sergut/detail/TypeName.cpp:59 | pushing name-space pieces one after another equals pushing them together |
| TypeNames.Parse | lib/sergut/detail/TypeName.cpp:30-72 | the constructor throws exactly when the name has no split into parts, and otherwise yields the last part as type name and the others as name space |
| TypeNames.RejectedNames | lib/sergut/detail/TypeName.cpp:49-70 | the empty name, a lone `:`, an empty piece, a single `:` between pieces and a trailing `::` are each rejected |
| TypeNames.ToCollectionType | lib/sergut/detail/TypeName.cpp:74-85 | the result is never a collection, and it is the empty type name exactly when the input is not a collection |
| TypeNames.ToElementType | lib/sergut/detail/TypeName.cpp:87-92 | the same name space and type name, not a collection |
| TypeNames.JavaUtil | lib/sergut/detail/TypeName.cpp:94-107 | the printed collection class `java.util.X` is the dotted name space `java`, `util` followed by `X` |
| TypeNames.CollectionPrinted | lib/sergut/detail/TypeName.cpp:94-122 | a collection prints as its collection class's text, then its element type's text inside `<` and `>` |
| TypeNames.SplitExample | lib/sergut/detail/TypeName.cpp:45-122 | `a::b::C` splits into `a`, `b`, `C` and prints as `a.b.C` |
| CharDecoders.Encoded | lib/sergut/unicode/Utf8Codec.h:133-177 | the encoding of a scalar value takes one to four octets, in UTF-8 or in either UTF-16 byte order |
| CharDecoders.Decode | lib/sergut/unicode/Utf8Codec.h:72-126 | a decoded character is a scalar value read from a non-empty prefix of the data; no data is an incomplete character |
| CharDecoders.DecodeCanonical | lib/sergut/unicode/Utf8Codec.h:72-126 | the octets a decoder accepts are exactly the encoding of the character it returns |
| CharDecoders.ParseNext | lib/sergut/unicode/Utf8Codec.h:72-126 | the instantiated codec's `parseNext` agrees with the decoding function |
| CharDecoders.MeasuredSize | lib/sergut/unicode/Utf8Codec.h:133-177 | `encodeChar` without a buffer reports the length of the scalar value's encoding |
| CharDecoders.DecodeEncoded | lib/sergut/unicode/Utf8Codec.h:72-177 | every scalar value is decoded back from its encoding whatever follows it |
| Common.HexDigit | lib/sergut/UrlSerializer.cpp:64-72 | digit values below ten become `0`-`9`, the others lower-case `a`-`f` |
| Common.HexValueOfDigit | lib/sergut/xml/detail/TextDecodingHelper.h:248-256 | a hexadecimal digit character reads back as its value |
| TextDecoding.EndStatus | lib/sergut/xml/detail/TextDecodingHelper.h:97-101 | running out of input after a character is the end for plain text and incomplete text for the other types |
| TextDecoding.ReadChar | lib/sergut/xml/detail/TextDecodingHelper.h:142-163 | at the end of input or on a truncated character the text is incomplete, an invalid character is an error; only success moves the read position, forward, to a scalar value |
| TextDecoding.ReadAsciiChar | lib/sergut/xml/detail/TextDecodingHelper.h:165-198 | a reference character is read as ASCII below U+0080 or the state becomes incomplete or error; the UTF-8 variant looks at one octet |
| TextDecoding.ReadHexRef | lib/sergut/xml/detail/TextDecodingHelper.h:237-275 | the reference ends at a character that is not a hexadecimal digit, or fails incomplete or with an error; the read position never moves back |
| TextDecoding.DecValue | lib/sergut/xml/detail/TextDecodingHelper.h:284 | only `0`-`9` have a decimal value, below ten |
| TextDecoding.ReadDecRef | lib/sergut/xml/detail/TextDecodingHelper.h:279-303 | the reference ends at a character that is not a decimal digit, or fails incomplete or with an error |
| TextDecoding.DecRefStep | lib/sergut/xml/detail/TextDecodingHelper.h:284-298 | a non-digit ends the reference and is an error only before any digit; an eighth digit is an error; otherwise the digit is added and the next character read |
| TextDecoding.ReadEntityRef | lib/sergut/xml/detail/TextDecodingHelper.h:307-362 | a recognised entity denotes one of `&`, `'`, `>`, `<`, `"` and consumes input; the result is never the end state |
| TextDecoding.ReadReference | lib/sergut/xml/detail/TextDecodingHelper.h:205-233 | a reference that succeeds stops on `;`; the read position never moves back and the result is never the end state |
| TextDecoding.CheckEnd | lib/sergut/xml/detail/TextDecodingHelper.h:366-390 | the text ends exactly at `<` in character data or at the attribute's own quote, and `<` inside an attribute value is exactly the error case; the position and character stay |
| TextDecoding.WriteResult | lib/sergut/xml/detail/TextDecodingHelper.h:394-424 | writing refuses exactly the non-scalar values, runs out of room exactly when a fixed buffer is too small, and otherwise writes the length of the UTF-8 encoding |
| TextDecoding.DecodeFrom | lib/sergut/xml/detail/TextDecodingHelper.h:102-134 | corrected: the loop stops in a final state within the input, only ever appends Char-production characters, and ends successfully only at the text's end character or in plain text |
| TextDecoding.Emit | lib/sergut/xml/detail/TextDecodingHelper.h:124-133 | a character outside the Char production is an error; a written character is appended and the loop ends at the end of the input |
| TextDecoding.DecodedText | lib/sergut/xml/detail/TextDecodingHelper.h:95-138 | corrected: an empty text ends at once; the decoded characters are all Char-production characters, and success means the end character was seen or the text is plain |
| TextDecoding.TextEnd | lib/sergut/xml/detail/TextDecodingHelper.h:62-63 | the end of the text is the read position moved back over the current character, never before the start |
| TextDecoding.Utf8TextAppend | lib/sergut/xml/detail/TextDecodingHelper.h:410-422 | writing one more character appends its UTF-8 octets to the output |
| TextDecoding.XmlTextAppend | lib/sergut/xml/detail/TextDecodingHelper.h:124-130 | appending a valid character keeps the output a sequence of Char-production characters |
| TextDecoding.Reader.constructor | lib/sergut/xml/detail/TextDecodingHelper.h:52-55 | a fresh reader stands at the start of the text in the parsing state |
| TextDecoding.Reader.NextChar | lib/sergut/xml/detail/TextDecodingHelper.h:142-163 | the reader moves as ReadChar says and reports success exactly when it is still parsing |
| TextDecoding.Reader.NextAsciiChar | lib/sergut/xml/detail/TextDecodingHelper.h:165-198 | the reader moves as ReadAsciiChar says and reports success exactly when it is still parsing |
| TextDecoding.Reader.HandleHexCharRef | lib/sergut/xml/detail/TextDecodingHelper.h:237-275 | corrected: the loop ends in ReadHexRef's state with the value it accumulates |
| TextDecoding.Reader.DecDigit | lib/sergut/xml/detail/TextDecodingHelper.h:284-294 | one digit more: the count grows by one and the rest of the reference is read from the new position |
| TextDecoding.Reader.HandleDecCharRef | lib/sergut/xml/detail/TextDecodingHelper.h:279-303 | the loop ends in ReadDecRef's state with the value it accumulates |
| TextDecoding.Reader.HandleEntityRef | lib/sergut/xml/detail/TextDecodingHelper.h:307-362 | the letter-by-letter match ends in ReadEntityRef's state and value |
| TextDecoding.Reader.HandleEntity | lib/sergut/xml/detail/TextDecodingHelper.h:205-233 | corrected: a reference is resolved as ReadReference says |
| TextDecoding.Reader.CheckForEndChar | lib/sergut/xml/detail/TextDecodingHelper.h:366-390 | the state becomes what CheckEnd says |
| TextDecoding.Reader.EndOfText | lib/sergut/xml/detail/TextDecodingHelper.h:62-63 | the end of the text is never past the read position |
| TextDecoding.GrowingRoom | lib/sergut/xml/detail/TextDecodingHelper.h:396-410 | with four octets of room the encoder never runs short, so the growing buffer's write fails only on a non-scalar value |
| TextDecoding.CharVector.Resize | lib/sergut/xml/detail/TextDecodingHelper.h:400 | resizing keeps the first octets and fills new room with zeros |
| TextDecoding.TextDecodingHelper.constructor | lib/sergut/xml/detail/TextDecodingHelper.h:52-55 | the decoder starts at the start of the text with nothing written |
| TextDecoding.TextDecodingHelper.EnsureSpareSpace | lib/sergut/xml/detail/TextDecodingHelper.h:396-407 | after it the buffer has at least four octets of room after the write position |
| TextDecoding.TextDecodingHelper.EncodeAtWritePointer | lib/sergut/xml/detail/TextDecodingHelper.h:410 | the buffer then holds the UTF-8 text so far followed by the new character's octets |
| TextDecoding.TextDecodingHelper.Advance | lib/sergut/xml/detail/TextDecodingHelper.h:422 | the write position moves past the written character, which is appended to the decoded characters |
| TextDecoding.TextDecodingHelper.WriteChar | lib/sergut/xml/detail/TextDecodingHelper.h:394-424 | a write succeeds exactly when WriteResult gives a size, and then appends the character; otherwise the state is an error and nothing is appended |
| TextDecoding.TextDecodingHelper.DecodePass | lib/sergut/xml/detail/TextDecodingHelper.h:102-134 | corrected: one pass of the loop leaves the remaining work of DecodeFrom unchanged |
| TextDecoding.TextDecodingHelper.EmitChar | lib/sergut/xml/detail/TextDecodingHelper.h:124-133 | the rest of a pass agrees with Emit |
| TextDecoding.TextDecodingHelper.DecodeText | lib/sergut/xml/detail/TextDecodingHelper.h:95-138 | corrected: the final state and characters are DecodedText's; success is the end state; the buffer is cut to exactly the UTF-8 text |
| TextDecodingProofs.ReadCharAt | lib/sergut/xml/detail/TextDecodingHelper.h:142-163 | reading at an encoded character returns it and stands after its encoding |
| TextDecodingProofs.ReadAsciiEncoded | lib/sergut/xml/detail/TextDecodingHelper.h:165-198 | reading an encoded ASCII character as a reference character returns it and stands after its encoding |
| TextDecodingProofs.EntityAmpRead | lib/sergut/xml/detail/TextDecodingHelper.h:205-233 | `&amp;` denotes `&` |
| TextDecodingProofs.EntityAposRead | lib/sergut/xml/detail/TextDecodingHelper.h:205-233 | `&apos;` denotes `'` |
| TextDecodingProofs.EntityGtRead | lib/sergut/xml/detail/TextDecodingHelper.h:205-233 | `&gt;` denotes `>` |
| TextDecodingProofs.EntityLtRead | lib/sergut/xml/detail/TextDecodingHelper.h:205-233 | `&lt;` denotes `<` |
| TextDecodingProofs.EntityQuotRead | lib/sergut/xml/detail/TextDecodingHelper.h:205-233 | `&quot;` denotes `"` |
| TextDecodingProofs.EncodedChain | lib/sergut/xml/detail/TextDecodingHelper.h:165-198 | the characters of an encoded ASCII run are read one after another and the last read stands after the run |
| TextDecodingProofs.HexChainStep | lib/sergut/xml/detail/TextDecodingHelper.h:242-271 | one hexadecimal digit shifts its value into the accumulator and moves to the next character |
| TextDecodingProofs.HexStop | lib/sergut/xml/detail/TextDecodingHelper.h:243-262 | past the limit the reference is an error; a non-digit ends it and is an error only before any digit |
| TextDecodingProofs.HexDigitsRead | lib/sergut/xml/detail/TextDecodingHelper.h:237-275 | a run of hexadecimal digits followed by a non-digit succeeds exactly when it is non-empty and within the limit, with the digits' value |
| TextDecodingProofs.DecChainStep | lib/sergut/xml/detail/TextDecodingHelper.h:284-294 | one decimal digit is added to ten times the accumulator and the next character read |
| TextDecodingProofs.DecDigitsRead | lib/sergut/xml/detail/TextDecodingHelper.h:279-303 | a run of decimal digits followed by a non-digit succeeds exactly when it has one to seven digits, with the digits' value |
| TextDecodingProofs.DecimalAfterHash | lib/sergut/xml/detail/TextDecodingHelper.h:210-228 | after `&#` and a character other than `x`, the reference is a decimal one that must end on `;` |
| TextDecodingProofs.HexadecimalAfterHash | lib/sergut/xml/detail/TextDecodingHelper.h:210-228 | after `&#x` the reference is a hexadecimal one that must end on `;` |
| TextDecodingProofs.HexReference | lib/sergut/xml/detail/TextDecodingHelper.h:205-275 | `&#x` digits and a terminator succeed exactly when the terminator is `;` and there are digits within the limit, with their value; otherwise an error |
| TextDecodingProofs.DecReference | lib/sergut/xml/detail/TextDecodingHelper.h:205-303 | `&#` digits and a terminator succeed exactly when the terminator is `;` and there are one to seven digits, with their value; otherwise an error |
| TextDecodingProofs.MaxHexValue | lib/sergut/xml/detail/TextDecodingHelper.h:243-245 | `10FFFF`, the largest code point, takes six hexadecimal digits |
| TextDecodingProofs.HexLimitAsWritten | lib/sergut/xml/detail/TextDecodingHelper.h:237-247 | with the counter limit as written, `&#x10FFFF;` is an error although U+10FFFF is a valid XML character; with the corrected limit it reads as U+10FFFF |
| TextDecodingProofs.HexLimitCorrected | lib/sergut/xml/detail/TextDecodingHelper.h:237-275 | with the corrected limit every reference of one to six hexadecimal digits ending on `;` reads as the digits' value |
| TextDecodingProofs.EncodedReads | lib/sergut/xml/detail/TextDecodingHelper.h:142-163 | the characters of an encoded text are read one after another to its end |
| TextDecodingProofs.LiteralStep | lib/sergut/xml/detail/TextDecodingHelper.h:102-134 | a character that is neither a reference nor an end character is written as itself and the loop goes on |
| TextDecodingProofs.DecodeLiterals | lib/sergut/xml/detail/TextDecodingHelper.h:102-134 | a run of such characters to the end of the input is written unchanged and ends as EndStatus says |
| TextDecodingProofs.TextRoundTrip | lib/sergut/xml/detail/TextDecodingHelper.h:95-138 | decoding the encoding of text without references or end characters gives back that text, ending as EndStatus says |
| LegacyTextDecoding.OlderEncoderResult | lib/xml/detail/TextDecodingHelper.h:388-401 | the older encoder's result into a fixed buffer or with no buffer is WriteResult's |
| LegacyTextDecoding.TextDecodingHelper.constructor | lib/xml/detail/TextDecodingHelper.h:51-55 | the decoder starts at the start of the text with nothing written, the caller's buffer untouched |
| LegacyTextDecoding.TextDecodingHelper.Advance | lib/xml/detail/TextDecodingHelper.h:402-405 | the write count grows by the character's length, and the write pointer too when there is a buffer |
| LegacyTextDecoding.TextDecodingHelper.Stop | lib/xml/detail/TextDecodingHelper.h:393-398 | only the state changes |
| LegacyTextDecoding.TextDecodingHelper.WriteChar | lib/xml/detail/TextDecodingHelper.h:386-407 | a write succeeds exactly when WriteResult gives a size and then appends the character; a full buffer makes the text incomplete, a non-scalar value an error |
| LegacyTextDecoding.TextDecodingHelper.DecodePass | lib/xml/detail/TextDecodingHelper.h:101-132 | corrected: one pass of the loop leaves the remaining work of DecodeFrom unchanged |
| LegacyTextDecoding.TextDecodingHelper.EmitChar | lib/xml/detail/TextDecodingHelper.h:122-131 | the rest of a pass agrees with Emit |
| LegacyTextDecoding.TextDecodingHelper.DecodeText | lib/xml/detail/TextDecodingHelper.h:94-134 | corrected: the final state and characters are DecodedText's; the write count is the UTF-8 length, and the buffer holds the UTF-8 text between its untouched surroundings |
| PullParsing.ReportedToken | lib/sergut/xml/detail/BasicPullParser.h:785-794 | Error and CloseDocument are reported as they are; any other token is reported as IncompleteDocument exactly while the document is incomplete, and as itself otherwise |
| PullParsing.SupportedEncoding | lib/sergut/unicode/Utf8Codec.h:200-203 | an encoding is accepted exactly when it is the instantiated codec's own name (`UTF-8`, or `UTF-16` for both UTF-16 parsers) |
| PullParsing.ReadSize | lib/sergut/xml/detail/BasicPullParser.h:360-366 | a character read moves the read position by exactly the length of its encoding |
| PullParsing.AsciiSize | lib/sergut/xml/detail/BasicPullParser.h:546 | `encodeChar('<')` is one octet in UTF-8 and two in UTF-16 |
| PullParsing.ReadAsciiSize | lib/sergut/xml/detail/BasicPullParser.h:381-390 | a character read as ASCII moves the read position by exactly the length of its encoding, or not at all on failure |
| PullParsing.SkipSpace | lib/sergut/xml/detail/BasicPullParser.h:352-356 | white space is skipped forward; when reading goes on, the current character is not white space, and when a read fails the reader still stands on white space |
| PullParsing.NameEnd | lib/sergut/xml/detail/BasicPullParser.h:500-504 | a name read to its end stops, further on, at a character that cannot continue a name; a read that fails leaves the reader on a character of the name |
| PullParsing.NameChars | lib/sergut/xml/detail/BasicPullParser.h:498-504 | the characters gathered extend those before and are scalar values |
| PullParsing.NameText | lib/sergut/xml/detail/BasicPullParser.h:410-419 | a non-empty name gives a non-empty UTF-8 text |
| PullParsing.ReadName | lib/sergut/xml/detail/PullParserUtf8.h:61-75 | a name read to its end is never empty |
| PullParsing.AttributeScan | lib/sergut/xml/detail/BasicPullParser.h:569-602 | after an attribute's name the scan moves forward; when it goes through it stands on a non-space character and the value was decoded; when the input runs out it stands on a character CutAt admits: a name character, white space, the `=` or a quote |
| PullParsing.EqualsScan | lib/sergut/xml/detail/BasicPullParser.h:575-580 | from the `=` the scan moves forward; when it goes through it stands on a non-space character and the value was decoded; when the input runs out it stands on the `=` it started from or on a character CutAt admits |
| PullParsing.QuoteScan | lib/sergut/xml/detail/BasicPullParser.h:576-595 | from after the `=` the scan moves forward; when it goes through it stands on a non-space character and the value was decoded; when the input runs out it stands on a character CutAt admits |
| PullParsing.ValueText | lib/sergut/xml/detail/BasicPullParser.h:581-586 | corrected: the value decodes to valid XML characters, with a final state, within the input after the quote |
| PullParsing.ValueEnd | lib/sergut/xml/detail/BasicPullParser.h:585-595 | the value leaves the reader further on, on the quote's character, incomplete or failed or still parsing |
| PullParsing.ValueScan | lib/sergut/xml/detail/BasicPullParser.h:581-597 | a value always yields decoded text; when it goes through the reader stands on a non-space character; when the input runs out it stands on the character it started on (the opening quote) or on white space |
| PullParsing.AfterValue | lib/sergut/xml/detail/BasicPullParser.h:596-597 | after the closing quote the reader moves forward and, when it goes on, stands on a non-space character; a read that fails leaves it on the character it started on or on white space |
| PullParsing.DeclAttrsFrom | lib/sergut/xml/detail/BasicPullParser.h:449-463 | the attributes the loop reads, with their decoded values: every one passes the version and encoding checks except a failing last one, which ends the run in Error; a run that ends well stops on a character that cannot start a name |
| PullParsing.DeclAttrStopped | lib/sergut/xml/detail/BasicPullParser.h:449 | when an attribute's name or the rest of it cannot be read, the run ends there and lists no attribute |
| PullParsing.DeclAttrRead | lib/sergut/xml/detail/BasicPullParser.h:449-462 | an attribute read to its end is listed first, with the value in the value buffer; a failing one ends the run in Error, a passing one is followed by the run from its end |
| PullParsing.DeclAttrsCutAt | lib/sergut/xml/detail/BasicPullParser.h:449-468 | a run of attributes that ran out of input stands on a name character, white space, the `=` or a quote, never on `?`, so the check at line 465 makes it an error |
| PullParsing.DeclGtRead | lib/sergut/xml/detail/BasicPullParser.h:472-478 | only `>` goes on, to the character after it; anything else is an error |
| PullParsing.DeclClose | lib/sergut/xml/detail/BasicPullParser.h:465-478 | only `?` followed by `>` goes on; anything but `?` is an error |
| PullParsing.DeclTail | lib/sergut/xml/detail/BasicPullParser.h:449-478 | after the name, the declaration goes on only when every attribute passes the checks, and an attribute that fails makes it an error; a run of attributes cut short by the end of the input is an error too, because the `?` check after the loop fails, and stays where the run stopped |
| PullParsing.DeclName | lib/sergut/xml/detail/BasicPullParser.h:436-447 | goes on only after a name read to its end that is `xml`; a character that cannot start a name, or another name, is an error |
| PullParsing.DeclHead | lib/sergut/xml/detail/BasicPullParser.h:432-447 | no declaration exactly when the character after `<` is read and is not `?`; going on means `?`, then a name read to its end that is `xml` |
| PullParsing.XmlDecl | lib/sergut/xml/detail/BasicPullParser.h:432-481 | no declaration exactly when the current character is not `<` or no `?` follows it; a declaration that goes on had a good head and all its attributes passed the checks; an attribute that fails, or an attribute cut short by the end of the input, makes it an error |
| PullParsing.TextScan | lib/sergut/xml/detail/BasicPullParser.h:605-629 | corrected: text always yields decoded text and, when it goes through, leaves a freshly read current character |
| PullParsing.ReadAt | lib/sergut/xml/detail/BasicPullParser.h:360-377 | the read agrees with the text decoder's ReadChar |
| PullParsing.ReadAsciiAt | lib/sergut/xml/detail/PullParserUtf8.h:39-52 | the read agrees with ReadAsciiChar, the one-octet version for UTF-8 |
| PullParsing.SkipSpaceAt | lib/sergut/xml/detail/BasicPullParser.h:352-356 | the loop ends where SkipSpace says |
| PullParsing.SkipName | lib/sergut/xml/detail/PullParserUtf8.h:61-66 | the UTF-8 name loop ends where NameEnd says |
| PullParsing.ScanName | lib/sergut/xml/detail/BasicPullParser.h:497-504 | the decoding name loop ends where NameEnd says and writes the UTF-8 of the name's characters |
| PullParsing.DecodeValue | lib/sergut/xml/detail/BasicPullParser.h:585-586 | corrected: the text decoder stops where DecodedText says and leaves the decoded text in the value buffer |
| PullParsing.ValueDecodeAt | lib/sergut/xml/detail/BasicPullParser.h:581-595 | corrected: decoding a value stops where ValueEnd says and leaves ValueText in the value buffer |
| PullParsing.TextScanAt | lib/sergut/xml/detail/BasicPullParser.h:613-625 | corrected: decoding text stops where TextScan says and leaves its text in the value buffer |
| PullParsing.PopTo | lib/sergut/xml/detail/BasicPullParser.h:297-299 | popping until `n` frames are left keeps exactly the bottom `n` frames |
| PullParsing.SavePointAsWritten | lib/sergut/xml/detail/BasicPullParser.h:255-279 | a save point is taken exactly when the document is complete, not failed and past the initial state; its depth is the stack size, less one unless on a close tag, wrapping to SIZE_MAX on an empty stack |
| PullParsing.SavePointOutsideRoot | lib/sergut/xml/detail/BasicPullParser.h:269-277 | in OpenDocument the save point has no tag start and in CloseDocument a depth no stack reaches |
| PullParsing.BasicPullParser.constructor | lib/sergut/xml/detail/BasicPullParser.h:210-218 | the parser holds the data, has an empty stack and no save point, and reads its first character at the offset; a truncated one marks it incomplete, an invalid one is an error |
| PullParsing.BasicPullParser.MoveTo | lib/sergut/xml/detail/BasicPullParser.h:360-375 | the reader takes the read's position and character; a truncated character marks the document incomplete and an invalid one sets Error |
| PullParsing.BasicPullParser.NextChar | lib/sergut/xml/detail/BasicPullParser.h:360-377 | the reader moves as ReadChar says and succeeds exactly when that read succeeds |
| PullParsing.BasicPullParser.NextAsciiChar | lib/sergut/xml/detail/BasicPullParser.h:381-390 | the reader moves as ReadAsciiChar says and succeeds exactly when that read succeeds, on an ASCII character |
| PullParsing.BasicPullParser.SkipWhitespaces | lib/sergut/xml/detail/BasicPullParser.h:352-356 | the reader moves as SkipSpace says and the answer is `isOk` afterwards |
| PullParsing.BasicPullParser.StoreName | lib/sergut/xml/detail/BasicPullParser.h:491-494 | the name goes into the buffer the name type chooses and nothing else changes |
| PullParsing.BasicPullParser.ParseName | lib/sergut/xml/detail/BasicPullParser.h:484-506 | a name is read exactly when the current character may start one, and otherwise nothing changes; a name read to its end is non-empty |
| PullParsing.BasicPullParser.ParseNameUtf8 | lib/sergut/xml/detail/PullParserUtf8.h:54-79 | the UTF-8 parser's name loop reads and stores the name as ReadName says |
| PullParsing.BasicPullParser.ParseNameDecoded | lib/sergut/xml/detail/BasicPullParser.h:491-505 | the decoding name loop reads and stores the name as ReadName says |
| PullParsing.BasicPullParser.ParseOpenTag | lib/sergut/xml/detail/BasicPullParser.h:536-550 | nothing happens unless the current character is `<`; an open tag pushes its name, makes the token OpenTag and remembers the `<`'s position |
| PullParsing.BasicPullParser.OpenTagName | lib/sergut/xml/detail/BasicPullParser.h:541-549 | after the `<`: a name is read and pushed with the `<`'s position remembered, or nothing changes when no name starts |
| PullParsing.BasicPullParser.PushOpenTag | lib/sergut/xml/detail/BasicPullParser.h:543-549 | once the name was read and the white space after it skipped, the name is pushed, the token is OpenTag and the start is remembered |
| PullParsing.BasicPullParser.ParseCloseTag | lib/sergut/xml/detail/BasicPullParser.h:633-673 | nothing happens unless `</` follows; a close tag must name the top of the stack, then `>`; it makes the token CloseTag and remembers the `<`'s position |
| PullParsing.BasicPullParser.CloseTagSlash | lib/sergut/xml/detail/BasicPullParser.h:636-642 | without a `/` after the `<` the reader goes back to the `<` and nothing else changes |
| PullParsing.BasicPullParser.CloseTagName | lib/sergut/xml/detail/BasicPullParser.h:643-655 | a close tag without a name, or with a name other than the top of the stack, is an error |
| PullParsing.BasicPullParser.CloseTagMatch | lib/sergut/xml/detail/BasicPullParser.h:650-655 | once read, the name must be the top of the stack, else it is an error |
| PullParsing.BasicPullParser.CloseTagEnd | lib/sergut/xml/detail/BasicPullParser.h:656-672 | after the name, optional white space and `>` make the token CloseTag |
| PullParsing.BasicPullParser.CloseTagGt | lib/sergut/xml/detail/BasicPullParser.h:659-672 | anything but `>` is an error; `>` makes the token CloseTag |
| PullParsing.BasicPullParser.ParseText | lib/sergut/xml/detail/BasicPullParser.h:605-630 | text is handled exactly when the current character is not `<`; the reader then moves as TextScan says and the token becomes Text |
| PullParsing.BasicPullParser.ParseAttribute | lib/sergut/xml/detail/BasicPullParser.h:553-602 | an attribute is handled exactly when the current character may start a name; its name is read and the rest moves as AttributeScan says |
| PullParsing.BasicPullParser.AttributeAfterName | lib/sergut/xml/detail/BasicPullParser.h:569-574 | after the name the reader moves as AttributeScan says |
| PullParsing.BasicPullParser.AttributeEquals | lib/sergut/xml/detail/BasicPullParser.h:575 | after the `=` the reader moves as EqualsScan says |
| PullParsing.BasicPullParser.AttributeQuote | lib/sergut/xml/detail/BasicPullParser.h:576-580 | before the value the reader moves as QuoteScan says |
| PullParsing.BasicPullParser.AttributeValue | lib/sergut/xml/detail/BasicPullParser.h:581-595 | the value is decoded and the reader moves as ValueScan says |
| PullParsing.BasicPullParser.AttributeTail | lib/sergut/xml/detail/BasicPullParser.h:596-597 | after the closing quote the reader moves as AfterValue says |
| PullParsing.BasicPullParser.AttributeSpace | lib/sergut/xml/detail/BasicPullParser.h:597-601 | the last white space is skipped and the token becomes Attribute when asked |
| PullParsing.BasicPullParser.ParseAfterTag | lib/sergut/xml/detail/BasicPullParser.h:509-533 | after a tag, a close tag (stack unchanged, its name on top), an open tag (its name pushed) or text (stack unchanged) follows |
| PullParsing.BasicPullParser.HandleXmlDecl | lib/sergut/xml/detail/BasicPullParser.h:423-481 | the reader moves as XmlDecl reads the input from the current character: without `<?` it stays and the parse goes on; a declaration read to the character after its `>` goes on with the tag name `xml`; any other outcome puts the reader back, with the token Error exactly when XmlDecl stopped on an error and the document incomplete exactly when a read ran out of input, so a declaration cut inside its attributes is reported as Error with the document incomplete |
| PullParsing.BasicPullParser.DeclBody | lib/sergut/xml/detail/BasicPullParser.h:434-479 | the reader moves as XmlDecl says, and the document is also incomplete when the declaration was cut inside its attributes; success means the parser is live, and after a declaration the tag name is `xml` |
| PullParsing.BasicPullParser.DeclStart | lib/sergut/xml/detail/BasicPullParser.h:434-447 | the reader moves as DeclHead says, so a character other than `?` after the `<` means no declaration; the tag name is the name read after `<?`, and `xml` on success |
| PullParsing.BasicPullParser.DeclTarget | lib/sergut/xml/detail/BasicPullParser.h:436-446 | the reader moves as DeclName says: a character that cannot start a name, or a name other than `xml`, is an error; the tag name is the name read |
| PullParsing.BasicPullParser.DeclTargetCheck | lib/sergut/xml/detail/BasicPullParser.h:441-447 | a parser that is no longer ok stops with nothing changed; a name other than `xml` is an error in place; otherwise white space is skipped as SkipSpace says |
| PullParsing.BasicPullParser.DeclRest | lib/sergut/xml/detail/BasicPullParser.h:449-478 | the reader moves as DeclTail says: it goes on exactly when every attribute passes the version and encoding checks and `?>` follows; after a loop cut short by the end of the input the `?` check still runs, so the token is Error and the document incomplete |
| PullParsing.BasicPullParser.DeclAttributes | lib/sergut/xml/detail/BasicPullParser.h:449-463 | the loop ends where DeclAttrsFrom's run of attributes from the current character ends, and goes on exactly when that run ends well |
| PullParsing.BasicPullParser.DeclAttribute | lib/sergut/xml/detail/BasicPullParser.h:449-462 | a turn reads an attribute exactly when a name starts at the current character, under the name read; an accepted attribute is the first DeclAttrsFrom lists and the rest are read from the new position; otherwise the reader stands where the run ends |
| PullParsing.BasicPullParser.DeclAttributeRead | lib/sergut/xml/detail/BasicPullParser.h:449 | `parseAttribute(false)` in the loop: an attribute is read exactly when a name starts at the current character, under the name read; a read that fails leaves the reader where DeclAttrsFrom's run ends; one that succeeds while the parser is live makes the attribute with its decoded value the run's first, which ends the run in Error when it fails the checks |
| PullParsing.BasicPullParser.DeclAttributeAsWritten | lib/sergut/xml/detail/BasicPullParser.h:449-462 | when the input ends at an attribute name, the turn as written reports an attribute without moving, so the loop never ends |
| PullParsing.BasicPullParser.DeclEnd | lib/sergut/xml/detail/BasicPullParser.h:465-478 | the reader moves as DeclClose says: anything but `?` is an error |
| PullParsing.BasicPullParser.DeclGt | lib/sergut/xml/detail/BasicPullParser.h:472-478 | the reader moves as DeclGtRead says: anything but `>` is an error |
| PullParsing.BasicPullParser.ParseNext | lib/sergut/xml/detail/BasicPullParser.h:684-782 | an incomplete document answers IncompleteDocument and nothing changes; after the end or an error nothing changes; otherwise the next token follows the current one, an open tag pushes its element and a close tag's element is popped |
| PullParsing.BasicPullParser.NextInitial | lib/sergut/xml/detail/BasicPullParser.h:690-711 | from the initial state the token becomes OpenDocument and the stack stays empty |
| PullParsing.BasicPullParser.NextOpenDocument | lib/sergut/xml/detail/BasicPullParser.h:716-721 | after OpenDocument comes the outermost open tag, pushed on the stack |
| PullParsing.BasicPullParser.NextInTag | lib/sergut/xml/detail/BasicPullParser.h:722-753 | inside an open tag comes another attribute, a close tag, an open tag or text, with the stack changed as each says |
| PullParsing.BasicPullParser.InTagEnd | lib/sergut/xml/detail/BasicPullParser.h:727-753 | an open tag ends with `>` or `/>`, else it is an error |
| PullParsing.BasicPullParser.InTagGt | lib/sergut/xml/detail/BasicPullParser.h:727-733 | after `>`, a close tag, an open tag or text follows |
| PullParsing.BasicPullParser.InTagSlash | lib/sergut/xml/detail/BasicPullParser.h:734-742 | after `/` the token becomes CloseTag and the stack stays |
| PullParsing.BasicPullParser.InTagEmpty | lib/sergut/xml/detail/BasicPullParser.h:738-750 | `/>` makes the token CloseTag; on the outermost element the current character becomes NUL and nothing more is read |
| PullParsing.BasicPullParser.NextAfterClose | lib/sergut/xml/detail/BasicPullParser.h:754-767 | after a close tag its element is popped; an empty stack ends the document, else a close tag, an open tag or text follows |
| PullParsing.BasicPullParser.AfterPop | lib/sergut/xml/detail/BasicPullParser.h:759-767 | once popped, what follows the tag is read or it is an error |
| PullParsing.BasicPullParser.NextAfterText | lib/sergut/xml/detail/BasicPullParser.h:768-776 | after text comes a close tag or an open tag |
| PullParsing.BasicPullParser.TextOpenTag | lib/sergut/xml/detail/BasicPullParser.h:772-776 | an open tag after text pushes its element, else it is an error |
| PullParsing.BasicPullParser.AboutToPopParseStack | lib/sergut/xml/detail/BasicPullParser.h:191-201 | when the next pop would lose a saved frame the stack is copied first, so the saved frames survive the pop |
| PullParsing.BasicPullParser.SetSavePoint | lib/sergut/xml/detail/BasicPullParser.h:255-279 | corrected: a save point is taken exactly when the parser is live past the initial state with a tag start and a frame to keep, holding the frames below the last tag |
| PullParsing.BasicPullParser.RestoreToSavePoint | lib/sergut/xml/detail/BasicPullParser.h:282-312 | without a save point it is an error; otherwise the stack returns to the saved frames and the saved tag is parsed again, as a close tag or an open tag |
| PullParsing.BasicPullParser.RestoreFrames | lib/sergut/xml/detail/BasicPullParser.h:288-300 | the reader returns to the saved tag start, the document is complete again and the stack holds the saved frames |
| PullParsing.BasicPullParser.RestoreTag | lib/sergut/xml/detail/BasicPullParser.h:301-311 | the saved tag is read again as a close tag or an open tag |
| PullParsing.BasicPullParser.RestoreParse | lib/sergut/xml/detail/BasicPullParser.h:304-311 | a close tag, else an open tag, else an error |
| PullParsing.BasicPullParser.RestoreOpen | lib/sergut/xml/detail/BasicPullParser.h:307-311 | an open tag, else an error |
| PullParsing.BasicPullParser.AppendData | lib/sergut/xml/detail/BasicPullParser.h:246-252 | the input grows by the data and every position held stays the same |
| MemberDeserializing.Holder.IsContainer | lib/sergut/detail/MemberDeserializer.h:73-87 | a member is a container exactly when its value is a vector, a list or a set; a map is not |
| MemberDeserializing.KeptByName | lib/sergut/detail/MemberDeserializer.h:111-119 | without single-child support, a name is registered exactly when some declaration named it, and its holder is the one declared last under that name |
| MemberDeserializing.PlainChildKept | lib/sergut/detail/MemberDeserializer.h:105-119 | after the plain-child marker the next member is registered under the single-child key as a single child, and every other entry stays |
| MemberDeserializing.MemberDeserializer.constructor | lib/sergut/detail/MemberDeserializer.h:93 | a new deserializer has no members and starts with attributes |
| MemberDeserializing.MemberDeserializer.ChildrenFollow | lib/sergut/detail/MemberDeserializer.h:96-100 | the marker makes later members children and keeps the members registered |
| MemberDeserializing.MemberDeserializer.PlainChildFollows | lib/sergut/detail/MemberDeserializer.h:105-109 | the marker makes later members single children and keeps the members registered |
| MemberDeserializing.MemberDeserializer.Add | lib/sergut/detail/MemberDeserializer.h:111-119 | the member is stored, with the current value type, under its name or under the single-child key in single-child mode, replacing any earlier one there; other entries stay |
| MemberDeserializing.MemberDeserializer.DeclareAll | lib/sergut/detail/MemberDeserializer.h:95-119 | declaring members and markers one after another gives the registry DeclaredAll describes |
| MemberDeserializing.MemberDeserializer.PopMember | lib/sergut/detail/MemberDeserializer.h:122-130 | a registered member is returned and removed; an unknown name returns nothing and changes nothing; other entries stay |
| ParserFactory.CreateParser | lib/sergut/xml/PullParser.cpp:46-58 | a UTF-16 big-endian mark, then a little-endian one, then a UTF-8 mark choose the decoder and are skipped; otherwise UTF-8 from the start |
| ParserFactory.OverloadsAgree | lib/sergut/xml/PullParser.cpp:32-58 | both overloads choose the same decoder and start at the same octet |
| ParserFactory.MarkSkipped | lib/sergut/xml/PullParser.cpp:32-58 | the marks exclude each other, and the octets skipped are exactly U+FEFF in the chosen encoding |
| Versions.ListingRoundTrip | lib/VersionTracker.cpp:13-23 | the listing splits at its newlines back into the registered lines |
| Versions.LineRead | lib/VersionTracker.cpp:17-20 | a line without newline followed by a newline is read as one line |
| Versions.ListingLines | lib/VersionTracker.cpp:13-23 | a listing followed by more text splits into its lines and then the rest |
| Versions.ThreeLines | lib/VersionTracker.cpp:13-23 | three entries are listed as three newline-terminated lines |
| Versions.VersionTracker.constructor | lib/VersionTracker.cpp:25-29 | a new tracker has no application and no libraries |
| Versions.VersionTracker.RegisterEntity | lib/VersionTracker.cpp:31-44 | a second application is refused and changes nothing; an application is kept; a library is appended |
| Versions.VersionTracker.GetAllVersions | lib/VersionTracker.cpp:13-23 | the listing is the application's line, if any, then each library's line, each ending in a newline |
| Versions.RegistrationExample | test/TestVersionTracker.cpp:10-25 | an application and two libraries registered in that order list as the three lines the test expects |
| GdbPrinter.AnchoredMatch | support/sergut-1.1.0-gdb-script.py:21-26 | the anchored pattern matches exactly the tag, or the tag followed by one newline (Python's `$`) |
| GdbPrinter.Lookup | support/sergut-1.1.0-gdb-script.py:17-27 | a printer is returned exactly for the two string-reference tags and for each of them followed by one newline (which Python's `$` lets match), and it wraps the value |
| GdbPrinter.ToString | support/sergut-1.1.0-gdb-script.py:9-12 | the lazy string starts at `beginPtr` and ends at `endPtr` |
| GdbPrinter.Shown | support/sergut-1.1.0-gdb-script.py:9-15 | the string shown is the memory from the address on, as long as the length |
| GdbPrinter.PrintsContents | support/sergut-1.1.0-gdb-script.py:4-27 | a `ConstStringRef` is printed as a string holding exactly the octets it views |

## Left out

- Memory relocation in the UTF-8 pull parser (`compressInnerData`, `recomputePointersToInput`) is not modelled, because it copies raw memory. `PullParsing.BasicPullParser.AppendData` keeps the input as one sequence addressed by indices, so nothing needs relocating.
- The getters that copy names and values out of the parser (`extractXmlData` and the name and value accessors) are not modelled. The model exposes the stored name and value directly.
- Allocation failure (the exceptions thrown when a buffer cannot be resized) is not modelled. Every resize succeeds.
- `ReaderStateResetter` is not part of this model. Its effect, restoring the reader state after a failed step, is written out in the methods that use it.
- PullParsing.BasicPullParser.ParseNameUtf8: the UTF-8 parser cuts the name one octet before the read position (`readPointer - 1`). This assumes the character after the name is one octet long. The model states that cut as written and does not prove that it lands on the name's end for longer characters.
- On a failed attribute value the partially decoded value buffer is not modelled: the model leaves the value buffer as it was. The declaration loop as written reads that buffer (`getCurrentValue()` at lib/sergut/xml/detail/BasicPullParser.h:451) after a `version` value cut short, so PullParsing.BasicPullParser.DeclAttributeAsWritten states its outcome for whatever the buffer holds; the corrected loop stops before reading it.
- `isspace` on values above 255 is taken to be false.
- PullParsing.BasicPullParser.HandleXmlDecl: modelled only in the state `parseNext` calls it in (a live parser that has not reached the end of the document).
- PullParsing.BasicPullParser.DeclAttributes: after an attribute that sets Error (no `=`, no quote), the loop as written reads on and may pass the `?>` and keep the reader there, as in `<?xml a?><r/>`. The model stops the loop there and puts the reader back. The token is Error in both, and the parser does no more work after an Error.
- PullParsing.BasicPullParser.ParseAttribute: its exact-outcome clauses cover only a parser whose token is not `CloseDocument`. In the source `isOk` stays true while the token is `CloseDocument` and the incomplete flag is set, and the model does not describe attribute parsing in that combination.
- Restoring from an `Error` state keeps the `Error` token, as the source does. The model does not claim that restore recovers from errors.
- Test expectation versus code: test/xml/TestTextDecodingHelper.cpp:208-239 expects `Error` for character data that contains `<` before its end. `checkForEndChar` in both decoders treats `<` as the end of character data and returns `AtEnd`. The model follows the code.
- `UrlNameCombiner` is not modelled. Names reach the URL serializers already combined.
- Number formatting through iostreams is not modelled. `UrlSerializer.Serializer.WriteNumber` and its JSON and XML counterparts take the formatted text as a parameter.
- gdb host calls (`register_printers`, `gdb.current_objfile`, `pretty_printers.append`) are not modelled. `lazy_string` is modelled as the value it describes (an address and a length), and memory is a sequence of octets.
- `hasBom` and `isSupportedEncoding` have no contract of their own. `Utf8CodecExamples.BomIsByteOrderMark`, `Utf16CodecProofs.BomIsByteOrderMark` and `PullParsing.SupportedEncoding` state what they decide.
- MemberDeserializing.MemberDeserializer.Add: the `SINGLE_CHILD` key is a constructor parameter, because its definition is not part of this model. `execute` and `handleChild` are not modelled.
- Versions.VersionTracker.RegisterEntity: the process-wide singleton (`getInstance`) and the order of static registration are not modelled. The exception thrown for a second application is modelled as a `false` result.
- TextDecoding.DecodeFrom: reads hexadecimal character references with the corrected limit (up to six digits, see "## Findings"), not with the `++cnt > 6` of lib/sergut/xml/detail/TextDecodingHelper.h:243 and lib/xml/detail/TextDecodingHelper.h:237, which rejects six-digit references such as `&#x10FFFF;`.
- TextDecoding.DecodedText: uses the same corrected hexadecimal limit as TextDecoding.DecodeFrom.
- TextDecoding.Reader.HandleHexCharRef: uses the same corrected hexadecimal limit as TextDecoding.DecodeFrom.
- TextDecoding.Reader.HandleEntity: uses the same corrected hexadecimal limit as TextDecoding.DecodeFrom.
- TextDecoding.TextDecodingHelper.DecodePass: uses the same corrected hexadecimal limit as TextDecoding.DecodeFrom.
- TextDecoding.TextDecodingHelper.DecodeText: uses the same corrected hexadecimal limit as TextDecoding.DecodeFrom.
- LegacyTextDecoding.TextDecodingHelper.DecodePass: uses the same corrected hexadecimal limit as TextDecoding.DecodeFrom.
- LegacyTextDecoding.TextDecodingHelper.DecodeText: uses the same corrected hexadecimal limit as TextDecoding.DecodeFrom.
- PullParsing.ValueText: uses the same corrected hexadecimal limit as TextDecoding.DecodeFrom.
- PullParsing.TextScan: uses the same corrected hexadecimal limit as TextDecoding.DecodeFrom.
- PullParsing.DecodeValue: uses the same corrected hexadecimal limit as TextDecoding.DecodeFrom.
- PullParsing.ValueDecodeAt: uses the same corrected hexadecimal limit as TextDecoding.DecodeFrom.
- PullParsing.TextScanAt: uses the same corrected hexadecimal limit as TextDecoding.DecodeFrom.
- The older duplicates of the parser under lib/xml, the Rapidjson, Qt and tinyxml deserializers, `XmlDeserializer`, the marshaller and the code generators are not modelled. They are either copies of modelled code or thin layers over libraries that are not part of this model.

## Findings

| source | as written | input that shows it | evidently intended | confidence | as-written member | corrected member |
|---|---|---|---|---|---|---|
| lib/sergut/UrlSerializer.h:100-125 | an empty collection swaps an empty set into the seen names, so the names written before it are forgotten | members `a=1`, an empty collection `v`, then `b=2`: the output is `a=1b=2` with no `&`, and a second `a` after `v` is not reported as a duplicate | the seen names after a collection are the names before it, plus the collection's name only when the collection had an element | not executed | UrlSerializer.EmptyCollectionForgetsNames, UrlSerializer.Serializer.SerializeCollection | UrlSerializer.Serializer.SerializeCollectionCorrected |
| lib/sergut/UrlSerializeToVector.h:97-122 | the same swap of an empty set for an empty collection | members `a`, an empty collection `v`, then `a` again: no duplicate is reported | the duplicate name is refused | not executed | UrlVectorSerializer.ForgottenDuplicate | UrlVectorSerializer.ForgottenDuplicateCorrected |
| lib/sergut/xml/detail/TextDecodingHelper.h:243-247 | `++cnt > 6` also counts the terminating `;`, so at most five hex digits are read | `&#x10FFFF;` (also `&#x100000;`) gives `Error` although it names a valid XML character | up to six hex digits, enough for U+10FFFF as the comment there says | not executed | TextDecodingProofs.HexLimitAsWritten | TextDecodingProofs.HexLimitCorrected |
| lib/xml/detail/TextDecodingHelper.h:237-241 | the older decoder has the same `++cnt > 6`, so it also reads at most five hex digits | `&#x10FFFF;` gives `Error` in the older decoder too | up to six hex digits, as the comment there says | not executed | TextDecodingProofs.HexLimitAsWritten | TextDecodingProofs.HexLimitCorrected |
| lib/sergut/xml/detail/BasicPullParser.h:447-462 | `while (parseAttribute(false))` keeps going after the parser leaves the ok state: when the input ends inside an attribute name, each round fails at the same place and returns true | UTF-8 input `<?xml version="1.0" v` | the loop stops once the parser is no longer ok, and the `?` check after it (lines 465-468) still runs, so a declaration cut inside its attributes is an error | not executed | PullParsing.BasicPullParser.DeclAttributeAsWritten | PullParsing.BasicPullParser.DeclAttributes, PullParsing.BasicPullParser.DeclRest |
| lib/sergut/xml/detail/BasicPullParser.h:255-279 | in `OpenDocument` (or `CloseDocument` with an empty stack) the frame count `frameCount() - 1` wraps to the largest size value, and in `OpenDocument` no tag start has been recorded | `setSavePoint()` right after the first `parseNext()` returns `OpenDocument` | a save point outside the root element is refused | not executed | PullParsing.SavePointAsWritten, PullParsing.SavePointOutsideRoot | PullParsing.BasicPullParser.SetSavePoint |
