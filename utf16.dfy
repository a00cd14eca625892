/**
 * The UTF-16 codecs of the serialisation library (`BasicUtf16Codec` for
 * little and big endian): one or two 16-bit code units per character,
 * a pair of surrogate units for code points beyond U+FFFF (section 2 of
 * RFC 2781), the two octets of each unit in the codec's byte order.
 *
 * The C++ shifts, masks and ORs on disjoint bit fields are written as
 * division, remainder, multiplication and addition on non-negative
 * integers.
 */
module Utf16Codec {
  import opened Common
  import opened Unicode

  datatype ByteOrder = LittleEndian | BigEndian

  /** The more significant octet of code unit `pos`. */
  function HighByteAt(order: ByteOrder, pos: nat, data: seq<Byte>): Byte
    requires 2 * pos + 1 < |data|
  {
    if order == BigEndian then data[2 * pos] else data[2 * pos + 1]
  }

  /** The less significant octet of code unit `pos`. */
  function LowByteAt(order: ByteOrder, pos: nat, data: seq<Byte>): Byte
    requires 2 * pos + 1 < |data|
  {
    if order == BigEndian then data[2 * pos + 1] else data[2 * pos]
  }

  /**
   * The unit count a high octet announces: 110110xx starts a surrogate
   * pair, 110111xx (a second surrogate) cannot start a character, anything
   * else is a single unit.
   */
  function SurrogateCount(first: Byte): ParseResult
  {
    if 0xD8 <= first <= 0xDB then Size(2)
    else if 0xDC <= first <= 0xDF then InvalidCharacter
    else Size(1)
  }

  /** `computeSurrogateCount`: the source's mask test, then its range test, agree with the table above. */
  function ComputeSurrogateCount(first: Byte): (r: ParseResult)
    ensures r == SurrogateCount(first)
    ensures r == Size(2) <==> 0xD8 <= first <= 0xDB
    ensures r == InvalidCharacter <==> 0xDC <= first <= 0xDF
    ensures r == Size(1) <==> first < 0xD8 || 0xDF < first
  {
    if (first as bv8) & 0xFC == 0xD8 then Size(2)
    else if 0xD8 <= first <= 0xDF then InvalidCharacter
    else Size(1)
  }

  /**
   * `parseNext` of the codec: fewer than two octets, or fewer than four
   * for a pair, is incomplete; a leading second surrogate, or a pair whose
   * second unit is not a second surrogate, is invalid; a pair carries
   * twenty payload bits above U+10000; the octet count is twice the unit
   * count.
   */
  function Decode(order: ByteOrder, data: seq<Byte>): (r: Decoded)
    ensures r.Char? ==> r.size <= |data| && (r.size == 2 || r.size == 4)
  {
    if |data| < 2 then Incomplete
    else
      var count := SurrogateCount(HighByteAt(order, 0, data));
      if IsError(count) then Invalid
      else if count == Size(1) then Char(HighByteAt(order, 0, data) * 256 + LowByteAt(order, 0, data), 2)
      else if |data| < 4 then Incomplete
      else if !(0xDC <= HighByteAt(order, 1, data) <= 0xDF) then Invalid
      else
        var hi0, lo0 := HighByteAt(order, 0, data) as int, LowByteAt(order, 0, data) as int;
        var hi1, lo1 := HighByteAt(order, 1, data) as int, LowByteAt(order, 1, data) as int;
        Char((((hi0 % 4) * 256 + lo0) * 4 + hi1 % 4) * 256 + lo1 + 0x10000, 4)
  }

  /** The code units of a scalar value (section 2.1 of RFC 2781). */
  function Units(c: nat): (r: seq<nat>)
    requires IsScalar(c)
    ensures forall i :: 0 <= i < |r| ==> r[i] <= 0xFFFF
  {
    if c <= 0xFFFF then [c]
    else [0xD800 + (c - 0x10000) / 1024, 0xDC00 + (c - 0x10000) % 1024]
  }

  /** The two octets of a code unit in the given byte order. */
  function UnitBytes(order: ByteOrder, w: nat): (r: seq<Byte>)
    requires w <= 0xFFFF
  {
    if order == BigEndian then [w / 256, w % 256] else [w % 256, w / 256]
  }

  /** The UTF-16 octets of a scalar value in the given byte order. */
  function Utf16Bytes(order: ByteOrder, c: nat): (r: seq<Byte>)
    requires IsScalar(c)
    ensures |r| == 2 * |Units(c)|
  {
    var u := Units(c);
    if |u| == 1 then UnitBytes(order, u[0]) else UnitBytes(order, u[0]) + UnitBytes(order, u[1])
  }

  /**
   * The outcome of `encodeChar`: surrogates and values beyond U+10FFFF are
   * invalid, with or without a buffer; a buffer too small is incomplete;
   * otherwise two octets in the basic plane and four beyond it.
   */
  function EncodeResult(chr: nat, hasBuffer: bool, bufSize: nat): (r: ParseResult)
    ensures r == InvalidCharacter <==> !IsScalar(chr)
    ensures r == IncompleteCharacter <==> hasBuffer && IsScalar(chr) && bufSize < 2 * |Units(chr)|
    ensures r.Size? ==> IsScalar(chr) && r.n == 2 * |Units(chr)|
  {
    if IsSurrogate(chr) then InvalidCharacter
    else if chr > 0x10FFFF then InvalidCharacter
    else if chr <= 0xFFFF then
      if hasBuffer && bufSize < 2 then IncompleteCharacter else Size(2)
    else if hasBuffer && bufSize < 4 then IncompleteCharacter
    else Size(4)
  }

  /** `setHighByteAt`: stores the more significant octet of unit `pos` of the buffer at `start`. */
  method SetHighByteAt(order: ByteOrder, buf: array<Byte>, start: nat, pos: nat, value: Byte)
    requires start + 2 * pos + 1 < buf.Length
    modifies buf
    ensures buf[..] == old(buf[..])[start + (if order == BigEndian then 2 * pos else 2 * pos + 1) := value]
  {
    if order == BigEndian {
      buf[start + 2 * pos] := value;
    } else {
      buf[start + 2 * pos + 1] := value;
    }
  }

  /** `setLowByteAt`: stores the less significant octet of unit `pos` of the buffer at `start`. */
  method SetLowByteAt(order: ByteOrder, buf: array<Byte>, start: nat, pos: nat, value: Byte)
    requires start + 2 * pos + 1 < buf.Length
    modifies buf
    ensures buf[..] == old(buf[..])[start + (if order == BigEndian then 2 * pos + 1 else 2 * pos) := value]
  {
    if order == BigEndian {
      buf[start + 2 * pos + 1] := value;
    } else {
      buf[start + 2 * pos] := value;
    }
  }

  /** The octets the source stores for a pair, stated with its shifts and masks, are the octets of the two units. */
  lemma PairOctets(order: ByteOrder, c: nat)
    requires 0x10000 <= c <= 0x10FFFF
    ensures var sub := c - 0x10000;
      Utf16Bytes(order, c) ==
        if order == BigEndian then [0xD8 + sub / 262144, (sub / 1024) % 256, 0xDC + (sub / 256) % 4, sub % 256]
        else [(sub / 1024) % 256, 0xD8 + sub / 262144, sub % 256, 0xDC + (sub / 256) % 4]
  {
    var sub := c - 0x10000;
    var q, r := sub / 1024, sub % 1024;
    var a, lo0, b, lo1 := q / 256, q % 256, r / 256, r % 256;
    assert sub == a * 262144 + (lo0 * 1024 + b * 256 + lo1);
    DivMod(a, lo0 * 1024 + b * 256 + lo1, 262144);
    assert sub == (q * 4 + b) * 256 + lo1;
    DivMod(q * 4 + b, lo1, 256);
    DivMod(q, b, 4);
    DivMod(0xD8 + a, lo0, 256);
    DivMod(0xDC + b, lo1, 256);
  }

  /**
   * `encodeChar`: writes the octets of `chr` at `buf[start..end]` in the
   * codec's byte order, or only reports the octet count when there is no
   * buffer. Nothing is written on an error.
   */
  method EncodeChar(order: ByteOrder, chr: nat, buf: array?<Byte>, start: nat, end: nat) returns (r: ParseResult)
    requires start <= end
    requires buf != null ==> end <= buf.Length
    modifies buf
    ensures r == EncodeResult(chr, buf != null, end - start)
    ensures buf != null && r.Size? ==> buf[..] == old(buf[..start]) + Utf16Bytes(order, chr) + old(buf[start + r.n..])
    ensures buf != null && !r.Size? ==> buf[..] == old(buf[..])
  {
    var bufSize := end - start;
    if IsSurrogate(chr) { return InvalidCharacter; }
    if chr > 0x10FFFF { return InvalidCharacter; }
    if chr <= 0xFFFF {
      if buf != null {
        if bufSize < 2 { return IncompleteCharacter; }
        WriteUnit(order, chr, buf, start);
      }
      return Size(2);
    }
    if buf != null {
      if bufSize < 4 { return IncompleteCharacter; }
      WritePair(order, chr, buf, start);
    }
    return Size(4);
  }

  /** The two octet stores of `encodeChar` for a character of the basic plane. */
  method WriteUnit(order: ByteOrder, chr: nat, buf: array<Byte>, start: nat)
    requires chr <= 0xFFFF && start + 2 <= buf.Length
    modifies buf
    ensures buf[..] == old(buf[..start]) + UnitBytes(order, chr) + old(buf[start + 2..])
  {
    SetHighByteAt(order, buf, start, 0, (chr / 256) % 256);
    SetLowByteAt(order, buf, start, 0, chr % 256);
  }

  /** The four octet stores of `encodeChar` for a surrogate pair, with the source's shifts and masks. */
  method WritePair(order: ByteOrder, chr: nat, buf: array<Byte>, start: nat)
    requires 0x10000 <= chr <= 0x10FFFF && start + 4 <= buf.Length
    modifies buf
    ensures buf[..] == old(buf[..start]) + Utf16Bytes(order, chr) + old(buf[start + 4..])
  {
    var subChr := chr - 0x10000;
    SetHighByteAt(order, buf, start, 0, 0xD8 + subChr / 262144);
    SetLowByteAt(order, buf, start, 0, (subChr / 1024) % 256);
    SetHighByteAt(order, buf, start, 1, 0xDC + (subChr / 256) % 4);
    SetLowByteAt(order, buf, start, 1, subChr % 256);
    PairOctets(order, chr);
  }

  /** `appendChar`: appends the octets of a scalar value; anything else leaves `out` unchanged. */
  method AppendChar(order: ByteOrder, out: seq<Byte>, chr: nat) returns (r: ParseResult, out': seq<Byte>)
    ensures r == (if IsScalar(chr) then Size(|Utf16Bytes(order, chr)|) else InvalidCharacter)
    ensures out' == (if r.Size? then out + Utf16Bytes(order, chr) else out)
  {
    var buf := new Byte[4];
    r := EncodeChar(order, chr, buf, 0, 4);
    if IsError(r) {
      return r, out;
    }
    out' := out + buf[..r.n];
  }

  /** `hasBom`: the first unit is FE FF in the codec's byte order. */
  function HasBom(order: ByteOrder, data: seq<Byte>): (r: bool)
  {
    if |data| < 2 then false
    else HighByteAt(order, 0, data) == 0xFE && LowByteAt(order, 0, data) == 0xFF
  }

  /** The name these codecs answer to in an XML declaration. */
  const EncodingName: seq<Byte> := Ascii("UTF-16")

  /** `isSupportedEncoding`: the encoding name is exactly `UTF-16`. */
  function IsSupportedEncoding(name: seq<Byte>): (r: bool)
  {
    name == EncodingName
  }
}

module Utf16CodecProofs {
  import opened Common
  import opened Unicode
  import opened Utf16Codec

  /** Every scalar value survives encoding and decoding in either byte order, whatever follows it. */
  lemma {:induction false} EncodeDecode(order: ByteOrder, c: nat, rest: seq<Byte>)
    requires IsScalar(c)
    ensures Decode(order, Utf16Bytes(order, c) + rest) == Char(c, |Utf16Bytes(order, c)|)
  {
    if c <= 0xFFFF {
      var data := Utf16Bytes(order, c) + rest;
      assert HighByteAt(order, 0, data) == c / 256 && LowByteAt(order, 0, data) == c % 256;
    } else {
      EncodeDecodePair(order, c, rest);
    }
  }

  lemma EncodeDecodePair(order: ByteOrder, c: nat, rest: seq<Byte>)
    requires 0x10000 <= c <= 0x10FFFF
    ensures Decode(order, Utf16Bytes(order, c) + rest) == Char(c, 4)
  {
    var sub := c - 0x10000;
    PairOctets(order, c);
    var hi0, lo0 := 0xD8 + sub / 262144, (sub / 1024) % 256;
    var hi1, lo1 := 0xDC + (sub / 256) % 4, sub % 256;
    var data := (if order == BigEndian then [hi0, lo0, hi1, lo1] else [lo0, hi0, lo1, hi1]) + rest;
    assert HighByteAt(order, 0, data) == hi0 && LowByteAt(order, 0, data) == lo0;
    assert HighByteAt(order, 1, data) == hi1 && LowByteAt(order, 1, data) == lo1;
    PayloadBits(sub);
  }

  /** The twenty payload bits of a pair, cut as the source cuts them, add up to the offset from U+10000. */
  lemma PayloadBits(sub: nat)
    requires sub < 0x100000
    ensures (((((0xD8 + sub / 262144) % 4) * 256 + (sub / 1024) % 256) * 4 + ((0xDC + (sub / 256) % 4) % 4)) * 256 + sub % 256) == sub
  {
    var q, r := sub / 1024, sub % 1024;
    var a, lo0, b, lo1 := q / 256, q % 256, r / 256, r % 256;
    assert sub == a * 262144 + (lo0 * 1024 + b * 256 + lo1);
    DivMod(a, lo0 * 1024 + b * 256 + lo1, 262144);
    assert sub == (q * 4 + b) * 256 + lo1;
    DivMod(q * 4 + b, lo1, 256);
    DivMod(q, b, 4);
    DivMod(0x36, a, 4);
    DivMod(0x37, b, 4);
  }

  lemma PairDigits(a: nat, lo0: nat, b: nat, lo1: nat)
    requires a < 4 && lo0 < 256 && b < 4 && lo1 < 256
    ensures var sub := ((a * 256 + lo0) * 4 + b) * 256 + lo1;
      sub < 0x100000 && sub / 262144 == a && (sub / 1024) % 256 == lo0 && (sub / 256) % 4 == b && sub % 256 == lo1
  {
    var sub := ((a * 256 + lo0) * 4 + b) * 256 + lo1;
    DivMod((a * 256 + lo0) * 4 + b, lo1, 256);
    DivMod(a * 256 + lo0, b, 4);
    DivMod(a * 256 + lo0, b * 256 + lo1, 1024);
    DivMod(a, lo0, 256);
    DivMod(a, lo0 * 1024 + b * 256 + lo1, 262144);
  }

  lemma CanonicalPair(order: ByteOrder, data: seq<Byte>)
    requires Decode(order, data).Char? && Decode(order, data).size == 4
    ensures 0x10000 <= Decode(order, data).chr <= 0x10FFFF
    ensures data[..4] == Utf16Bytes(order, Decode(order, data).chr)
  {
    var c := Decode(order, data).chr;
    var hi0, lo0 := HighByteAt(order, 0, data) as int, LowByteAt(order, 0, data) as int;
    var hi1, lo1 := HighByteAt(order, 1, data) as int, LowByteAt(order, 1, data) as int;
    assert c == ((((hi0 % 4) * 256 + lo0) * 4 + hi1 % 4) * 256 + lo1) + 0x10000;
    PairDigits(hi0 % 4, lo0, hi1 % 4, lo1);
    assert hi0 == 0xD8 + hi0 % 4 && hi1 == 0xDC + hi1 % 4;
    PairOctets(order, c);
    assert data[..4] == [data[0], data[1], data[2], data[3]];
  }

  /**
   * Decoding accepts only scalar values, each in its only UTF-16 form:
   * whatever it returns is a scalar whose octets are exactly the ones
   * consumed.
   */
  lemma {:induction false} DecodeCanonical(order: ByteOrder, data: seq<Byte>)
    requires Decode(order, data).Char?
    ensures IsScalar(Decode(order, data).chr)
    ensures data[..Decode(order, data).size] == Utf16Bytes(order, Decode(order, data).chr)
  {
    if Decode(order, data).size == 2 {
      assert data[..2] == [data[0], data[1]];
    } else {
      CanonicalPair(order, data);
    }
  }

  /** The octets of a little-endian range are those of the big-endian one with each unit's octets swapped. */
  function SwapUnits(data: seq<Byte>): (r: seq<Byte>)
    ensures |r| == |data|
  {
    if |data| < 2 then data else [data[1], data[0]] + SwapUnits(data[2..])
  }

  lemma {:induction false} SwapUnitsAt(data: seq<Byte>, pos: nat)
    requires 2 * pos + 1 < |data|
    ensures SwapUnits(data)[2 * pos] == data[2 * pos + 1] && SwapUnits(data)[2 * pos + 1] == data[2 * pos]
  {
    if pos > 0 {
      SwapUnitsAt(data[2..], pos - 1);
    }
  }

  /** The two byte orders differ only in the order of the octets within each unit. */
  lemma {:induction false} ByteOrdersAgree(data: seq<Byte>)
    ensures Decode(LittleEndian, SwapUnits(data)) == Decode(BigEndian, data)
  {
    if |data| >= 2 {
      SwapUnitsAt(data, 0);
    }
    if |data| >= 4 {
      SwapUnitsAt(data, 1);
    }
  }

  /** A range starts with a byte order mark exactly when its first character decodes to U+FEFF. */
  lemma {:induction false} BomIsByteOrderMark(order: ByteOrder, data: seq<Byte>)
    ensures HasBom(order, data) <==> Decode(order, data) == Char(0xFEFF, 2)
  {
  }

  /** The code points of the round-trip table and their big-endian octets; little endian swaps each unit. */
  lemma EncodeTable()
    ensures Utf16Bytes(BigEndian, 0x00) == [0x00, 0x00]
    ensures Utf16Bytes(BigEndian, 0x24) == [0x00, 0x24]
    ensures Utf16Bytes(BigEndian, 0x7F) == [0x00, 0x7F]
    ensures Utf16Bytes(BigEndian, 0x20AC) == [0x20, 0xAC]
    ensures Utf16Bytes(BigEndian, 0xFFFF) == [0xFF, 0xFF]
    ensures Utf16Bytes(BigEndian, 0x10000) == [0xD8, 0x00, 0xDC, 0x00]
    ensures Utf16Bytes(BigEndian, 0x10437) == [0xD8, 0x01, 0xDC, 0x37]
    ensures Utf16Bytes(BigEndian, 0x24B62) == [0xD8, 0x52, 0xDF, 0x62]
    ensures Utf16Bytes(BigEndian, 0x10FFFF) == [0xDB, 0xFF, 0xDF, 0xFF]
    ensures Utf16Bytes(LittleEndian, 0x24B62) == [0x52, 0xD8, 0x62, 0xDF]
  {
  }

  /** Truncated units and pairs are incomplete; misplaced surrogates are invalid. */
  lemma DecodeErrorTable()
    ensures Decode(BigEndian, [0x20]) == Incomplete
    ensures Decode(BigEndian, [0xD8, 0x20]) == Incomplete
    ensures Decode(BigEndian, [0xD8, 0x20, 0xDC]) == Incomplete
    ensures Decode(BigEndian, [0xDC, 0x20]) == Invalid
    ensures Decode(BigEndian, [0xD8, 0x80, 0x80, 0x20]) == Invalid
    ensures Decode(BigEndian, [0xD8, 0x80, 0xD8, 0x20]) == Invalid
  {
  }
}
