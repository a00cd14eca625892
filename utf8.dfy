/**
 * The UTF-8 codec of the serialisation library (`sergut::unicode::Utf8Codec`):
 * classification of a lead octet, decoding of one character with its
 * error classes, encoding into a caller's buffer (or only measuring when
 * no buffer is given), appending to a string, and BOM detection.
 *
 * The C++ shifts and ORs on disjoint bit fields are written as division,
 * remainder, multiplication and addition on non-negative integers.
 */
module Utf8Codec {
  import opened Common
  import opened Unicode

  /** What `computeCharSize` reports for a lead octet: the announced length (or error) and its payload bits. */
  datatype Lead = Lead(res: ParseResult, value: nat)

  /** The first octet of each encoded length, whose payload bits the lead carries. */
  function LeadBase(n: nat): nat
  {
    if n == 2 then 0xC0 else if n == 3 then 0xE0 else if n == 4 then 0xF0 else 0
  }

  /**
   * The lead-octet table of section 3 of RFC 3629: 0xxxxxxx, 110xxxxx,
   * 1110xxxx and 11110xxx announce one to four octets and carry the bits
   * below their marker; 10xxxxxx and 11111xxx cannot start a character.
   */
  function LeadOf(first: Byte): (r: Lead)
  {
    if first < 0x80 then Lead(Size(1), first)
    else if first < 0xC0 then Lead(InvalidCharacter, 0)
    else if first < 0xE0 then Lead(Size(2), first - 0xC0)
    else if first < 0xF0 then Lead(Size(3), first - 0xE0)
    else if first < 0xF8 then Lead(Size(4), first - 0xF0)
    else Lead(InvalidCharacter, 0)
  }

  /**
   * `computeCharSize`: the masks of the source, tested in its order, agree
   * with the lead-octet table. (The source repeats its first test
   * verbatim; the repetition can never fire and is not written here.)
   */
  function ComputeCharSize(first: Byte): (r: Lead)
    ensures r == LeadOf(first)
  {
    LeadMaskTests(first);
    LeadPayloads(first);
    var b := first as bv8;
    if b & 0x80 == 0 then Lead(Size(1), first)
    else if b & 0x40 != 0x40 then Lead(InvalidCharacter, 0)
    else if b & 0x20 == 0 then Lead(Size(2), (b & 0x1F) as int)
    else if b & 0x10 == 0 then Lead(Size(3), (b & 0x0F) as int)
    else if b & 0x08 == 0 then Lead(Size(4), (b & 0x07) as int)
    else Lead(InvalidCharacter, 0)
  }

  /** Each mask test of `computeCharSize` is a range test on the octet. */
  lemma LeadMaskTests(first: Byte)
    ensures (first as bv8) & 0x80 == 0 <==> first < 0x80
    ensures 0x80 <= first ==> ((first as bv8) & 0x40 != 0x40 <==> first < 0xC0)
    ensures 0xC0 <= first ==> ((first as bv8) & 0x20 == 0 <==> first < 0xE0)
    ensures 0xE0 <= first ==> ((first as bv8) & 0x10 == 0 <==> first < 0xF0)
    ensures 0xF0 <= first ==> ((first as bv8) & 0x08 == 0 <==> first < 0xF8)
  {
  }

  /** Each payload mask of `computeCharSize` removes the marker bits of its lead octet. */
  lemma LeadPayloads(first: Byte)
    ensures 0xC0 <= first < 0xE0 ==> ((first as bv8) & 0x1F) as int == first - 0xC0
    ensures 0xE0 <= first < 0xF0 ==> ((first as bv8) & 0x0F) as int == first - 0xE0
    ensures 0xF0 <= first < 0xF8 ==> ((first as bv8) & 0x07) as int == first - 0xF0
  {
  }

  /** A continuation octet 10xxxxxx. */
  predicate IsContinuation(b: Byte)
  {
    0x80 <= b < 0xC0
  }

  /** `isAscii`: the high bit is clear (the first mask test of `LeadMaskTests`). */
  predicate IsAscii(c: Byte)
  {
    c < 0x80
  }

  /** The value built by shifting in the six payload bits of each continuation octet. */
  function Accumulate(lead: nat, cont: seq<Byte>): nat
  {
    if cont == [] then lead else Accumulate(lead, cont[..|cont| - 1]) * 64 + cont[|cont| - 1] % 64
  }

  lemma AccumulateForm(lead: nat, s: seq<Byte>)
    requires 1 <= |s| <= 3
    ensures |s| == 1 ==> Accumulate(lead, s) == lead * 64 + s[0] as int % 64
    ensures |s| == 2 ==> Accumulate(lead, s) == lead * 4096 + (s[0] as int % 64) * 64 + s[1] as int % 64
    ensures |s| == 3 ==> Accumulate(lead, s) == lead * 262144 + (s[0] as int % 64) * 4096 + (s[1] as int % 64) * 64 + s[2] as int % 64
  {
    if |s| == 1 {
      assert s[..0] == [];
    } else if |s| == 2 {
      AccumulateForm(lead, s[..1]);
    } else {
      AccumulateForm(lead, s[..2]);
    }
  }

  /** The smallest value that may be encoded with n octets (shorter forms are overlong). */
  function MinValue(n: nat): nat
  {
    if n == 2 then 0x80 else if n == 3 then 0x800 else if n == 4 then 0x10000 else 0
  }

  /**
   * `parseNext` as a function of the octets from the read position to the
   * end of the input: an empty range is incomplete, an ASCII lead decodes
   * to itself, an invalid lead is invalid, a range shorter than the lead
   * announces is incomplete, a non-continuation octet is invalid, and so
   * are overlong forms, surrogates in three-octet form and values beyond
   * U+10FFFF in four-octet form.
   */
  function Decode(data: seq<Byte>): (r: Decoded)
    ensures r.Char? ==> 1 <= r.size <= |data| && r.size <= 4
  {
    if data == [] then Incomplete
    else
      var lead := LeadOf(data[0]);
      if lead.res == Size(1) then Char(lead.value, 1)
      else if !lead.res.Size? then Invalid
      else
        var n := lead.res.n;
        if |data| < n then Incomplete
        else if exists i | 1 <= i < n :: !IsContinuation(data[i]) then Invalid
        else
          var v := Accumulate(lead.value, data[1..n]);
          if v < MinValue(n) then Invalid
          else if n == 3 && IsSurrogate(v) then Invalid
          else if n == 4 && v > 0x10FFFF then Invalid
          else Char(v, n)
  }

  /** The source's mask test for a continuation octet: the top two bits are `10`. */
  function HasContinuationBits(b: Byte): (r: bool)
    ensures r <==> IsContinuation(b)
  {
    (b as bv8) & 0xC0 == 0x80
  }

  /**
   * The loop of `parseNext` over the octets after the lead: it stops at
   * the first one that is not a continuation octet, and otherwise shifts
   * in six payload bits per octet.
   */
  method ReadContinuations(data: seq<Byte>, lead: nat, charSize: nat) returns (ok: bool, v: nat)
    requires 1 <= charSize <= |data|
    ensures ok <==> forall i | 1 <= i < charSize :: IsContinuation(data[i])
    ensures ok ==> v == Accumulate(lead, data[1..charSize])
  {
    v := lead;
    var pos := 1;
    while pos < charSize
      invariant 1 <= pos <= charSize
      invariant forall i | 1 <= i < pos :: IsContinuation(data[i])
      invariant v == Accumulate(lead, data[1..pos])
    {
      if !HasContinuationBits(data[pos]) {
        return false, v;
      }
      assert data[1..pos + 1][..pos - 1] == data[1..pos];
      v := v * 64 + data[pos] % 64;
      pos := pos + 1;
    }
    return true, v;
  }

  /** `parseNext`: the loop over the continuation octets computes Decode. */
  method ParseNext(data: seq<Byte>) returns (r: Decoded)
    ensures r == Decode(data)
  {
    if |data| == 0 {
      return Incomplete;
    }
    var lead := ComputeCharSize(data[0]);
    if lead.res == Size(1) {
      return Char(lead.value, 1);
    }
    if !lead.res.Size? {
      return Invalid;
    }
    var charSize := lead.res.n;
    if |data| < charSize {
      return Incomplete;
    }
    var ok, tmpChr := ReadContinuations(data, lead.value, charSize);
    if !ok {
      return Invalid;
    }
    // the source's test for a length above four is unreachable: ComputeCharSize announces at most four
    if charSize == 2 && tmpChr < 0x80 {
      return Invalid;
    }
    if charSize == 3 && (tmpChr < 0x800 || IsSurrogate(tmpChr)) {
      return Invalid;
    }
    if charSize == 4 && (tmpChr < 0x10000 || tmpChr > 0x10FFFF) {
      return Invalid;
    }
    return Char(tmpChr, charSize);
  }

  /**
   * The outcome of `encodeChar`, with or without a buffer of the given
   * free size: beyond U+10FFFF is invalid; a surrogate is invalid only
   * when a buffer is given (when only measuring, it is counted as three
   * octets); a buffer too small for the octets is incomplete.
   */
  function EncodeResult(chr: nat, hasBuffer: bool, bufSize: nat): (r: ParseResult)
    ensures r == InvalidCharacter <==> chr > 0x10FFFF || (hasBuffer && IsSurrogate(chr))
    ensures r == IncompleteCharacter <==> hasBuffer && IsScalar(chr) && bufSize < |Utf8Bytes(chr)|
    ensures r.Size? ==> chr <= 0x10FFFF && r.n == |Utf8Bytes(chr)|
  {
    if chr <= 0x7F then
      if hasBuffer && bufSize < 1 then IncompleteCharacter else Size(1)
    else if chr <= 0x7FF then
      if hasBuffer && bufSize < 2 then IncompleteCharacter else Size(2)
    else if chr > 0x10FFFF then InvalidCharacter
    else if chr <= 0xFFFF then
      if hasBuffer && IsSurrogate(chr) then InvalidCharacter
      else if hasBuffer && bufSize < 3 then IncompleteCharacter
      else Size(3)
    else if hasBuffer && bufSize < 4 then IncompleteCharacter
    else Size(4)
  }

  /**
   * `encodeChar`: writes the octets of `chr` at `buf[start..end]`, or, with
   * a null buffer, only reports how many octets it would take. Nothing is
   * written on an error, and nothing outside the written octets changes.
   */
  method EncodeChar(chr: nat, buf: array?<Byte>, start: nat, end: nat) returns (r: ParseResult)
    requires start <= end
    requires buf != null ==> end <= buf.Length
    modifies buf
    ensures r == EncodeResult(chr, buf != null, end - start)
    ensures buf != null && r.Size? ==> buf[..] == old(buf[..start]) + Utf8Bytes(chr) + old(buf[start + r.n..])
    ensures buf != null && !r.Size? ==> buf[..] == old(buf[..])
  {
    var bufSize := end - start;
    if chr <= 0x7F {
      if buf != null {
        if bufSize < 1 { return IncompleteCharacter; }
        buf[start] := chr;
      }
      return Size(1);
    }
    if chr <= 0x7FF {
      if buf != null {
        if bufSize < 2 { return IncompleteCharacter; }
        buf[start] := 0xC0 + chr / 64;
        buf[start + 1] := 0x80 + chr % 64;
      }
      return Size(2);
    }
    if chr > 0x10FFFF {
      return InvalidCharacter;
    }
    if chr <= 0xFFFF {
      if buf != null {
        if IsSurrogate(chr) { return InvalidCharacter; }
        if bufSize < 3 { return IncompleteCharacter; }
        buf[start] := 0xE0 + chr / 4096;
        buf[start + 1] := 0x80 + (chr / 64) % 64;
        buf[start + 2] := 0x80 + chr % 64;
      }
      return Size(3);
    }
    if buf != null {
      if bufSize < 4 { return IncompleteCharacter; }
      buf[start] := 0xF0 + chr / 262144;
      buf[start + 1] := 0x80 + (chr / 4096) % 64;
      buf[start + 2] := 0x80 + (chr / 64) % 64;
      buf[start + 3] := 0x80 + chr % 64;
    }
    return Size(4);
  }

  /**
   * `appendChar`: encodes into a four-octet scratch buffer and appends the
   * octets to `out`; on an error `out` is returned unchanged.
   */
  method AppendChar(out: seq<Byte>, chr: nat) returns (r: ParseResult, out': seq<Byte>)
    ensures r == (if IsScalar(chr) then Size(|Utf8Bytes(chr)|) else InvalidCharacter)
    ensures out' == (if r.Size? then out + Utf8Bytes(chr) else out)
  {
    var buf := new Byte[4];
    r := EncodeChar(chr, buf, 0, 4);
    if IsError(r) {
      return r, out;
    }
    out' := out + buf[..r.n];
  }

  /** `hasBom`: the range starts with EF BB BF. */
  function HasBom(data: seq<Byte>): (r: bool)
  {
    if |data| < 3 then false
    else data[0] == 0xEF && data[1] == 0xBB && data[2] == 0xBF
  }

  /** The name this codec answers to in an XML declaration. */
  const EncodingName: seq<Byte> := Ascii("UTF-8")

  /** `isSupportedEncoding`: the encoding name is exactly `UTF-8`. */
  function IsSupportedEncoding(name: seq<Byte>): (r: bool)
  {
    name == EncodingName
  }
}

module Utf8CodecProofs {
  import opened Common
  import opened Unicode
  import opened Utf8Codec

  /** Decode of a range whose lead and continuation octets are well formed. */
  lemma DecodeWellFormed(data: seq<Byte>, n: nat)
    requires 2 <= n <= 4 && |data| >= n
    requires LeadOf(data[0]).res == Size(n)
    requires forall i | 1 <= i < n :: IsContinuation(data[i])
    ensures var v := Accumulate(LeadOf(data[0]).value, data[1..n]);
      Decode(data) == if v < MinValue(n) || (n == 3 && IsSurrogate(v)) || (n == 4 && v > 0x10FFFF) then Invalid else Char(v, n)
  {
  }

  /** The base-64 digits of a code point, most significant first. */
  lemma Base64Digits(c: nat)
    ensures c == (c / 64) * 64 + c % 64
    ensures c == (c / 4096) * 4096 + ((c / 64) % 64) * 64 + c % 64
    ensures c == (c / 262144) * 262144 + ((c / 4096) % 64) * 4096 + ((c / 64) % 64) * 64 + c % 64
  {
    var q := c / 64;
    assert c == 64 * q + c % 64;
    var q2 := q / 64;
    assert q == 64 * q2 + q % 64;
    assert c == 4096 * q2 + 64 * (q % 64) + c % 64;
    assert q2 == c / 4096;
    assert q2 == 64 * (q2 / 64) + q2 % 64;
    assert q2 / 64 == c / 262144;
  }

  /** The digits the three-octet encoder extracts are the digits the value was built from. */
  lemma Digits3(a: nat, d: nat, e: nat)
    requires a < 16 && d < 64 && e < 64
    ensures var c := a * 4096 + d * 64 + e;
      c / 4096 == a && (c / 64) % 64 == d && c % 64 == e
  {
    DivMod(a * 64 + d, e, 64);
    DivMod(a, d, 64);
    DivMod(a, d * 64 + e, 4096);
  }

  /** The digits the four-octet encoder extracts are the digits the value was built from. */
  lemma Digits4(a: nat, b: nat, d: nat, e: nat)
    requires a < 8 && b < 64 && d < 64 && e < 64
    ensures var c := a * 262144 + b * 4096 + d * 64 + e;
      c / 262144 == a && (c / 4096) % 64 == b && (c / 64) % 64 == d && c % 64 == e
  {
    DivMod((a * 64 + b) * 64 + d, e, 64);
    DivMod(a * 64 + b, d, 64);
    DivMod(a * 64 + b, d * 64 + e, 4096);
    DivMod(a, b, 64);
    DivMod(a, b * 4096 + d * 64 + e, 262144);
  }

  lemma Decode2(a: nat, e: nat, rest: seq<Byte>)
    requires a < 32 && e < 64 && 0x80 <= a * 64 + e
    ensures Decode([0xC0 + a, 0x80 + e] + rest) == Char(a * 64 + e, 2)
  {
    var data: seq<Byte> := [0xC0 + a, 0x80 + e] + rest;
    assert data[1..2] == [0x80 + e];
    DivMod(2, e, 64);
    AccumulateForm(a, data[1..2]);
    assert Accumulate(a, data[1..2]) == a * 64 + e;
    DecodeWellFormed(data, 2);
  }

  lemma Decode3(a: nat, d: nat, e: nat, rest: seq<Byte>)
    requires a < 16 && d < 64 && e < 64
    requires 0x800 <= a * 4096 + d * 64 + e && !IsSurrogate(a * 4096 + d * 64 + e)
    ensures Decode([0xE0 + a, 0x80 + d, 0x80 + e] + rest) == Char(a * 4096 + d * 64 + e, 3)
  {
    var data: seq<Byte> := [0xE0 + a, 0x80 + d, 0x80 + e] + rest;
    assert data[1..3] == [0x80 + d, 0x80 + e];
    DivMod(2, d, 64);
    DivMod(2, e, 64);
    AccumulateForm(a, data[1..3]);
    assert Accumulate(a, data[1..3]) == a * 4096 + d * 64 + e;
    DecodeWellFormed(data, 3);
  }

  lemma Decode4(a: nat, b: nat, d: nat, e: nat, rest: seq<Byte>)
    requires a < 8 && b < 64 && d < 64 && e < 64
    requires 0x10000 <= a * 262144 + b * 4096 + d * 64 + e <= 0x10FFFF
    ensures Decode([0xF0 + a, 0x80 + b, 0x80 + d, 0x80 + e] + rest) == Char(a * 262144 + b * 4096 + d * 64 + e, 4)
  {
    var data: seq<Byte> := [0xF0 + a, 0x80 + b, 0x80 + d, 0x80 + e] + rest;
    assert data[1..4] == [0x80 + b, 0x80 + d, 0x80 + e];
    DivMod(2, b, 64);
    DivMod(2, d, 64);
    DivMod(2, e, 64);
    AccumulateForm(a, data[1..4]);
    assert Accumulate(a, data[1..4]) == a * 262144 + b * 4096 + d * 64 + e;
    DecodeWellFormed(data, 4);
  }

  /** Every scalar value survives encoding and decoding, whatever follows it. */
  lemma {:induction false} EncodeDecode(c: nat, rest: seq<Byte>)
    requires IsScalar(c)
    ensures Decode(Utf8Bytes(c) + rest) == Char(c, |Utf8Bytes(c)|)
  {
    Base64Digits(c);
    if c <= 0x7F {
    } else if c <= 0x7FF {
      Decode2(c / 64, c % 64, rest);
    } else if c <= 0xFFFF {
      Decode3(c / 4096, (c / 64) % 64, c % 64, rest);
    } else {
      Decode4(c / 262144, (c / 4096) % 64, (c / 64) % 64, c % 64, rest);
    }
  }

  lemma Canonical2(data: seq<Byte>)
    requires Decode(data).Char? && Decode(data).size == 2
    ensures 0x80 <= Decode(data).chr <= 0x7FF
    ensures data[..2] == Utf8Bytes(Decode(data).chr)
  {
    var c := Decode(data).chr;
    var a, e := data[0] as int - 0xC0, data[1] as int - 0x80;
    assert data[1..2] == [data[1]];
    AccumulateForm(a, data[1..2]);
    assert c == a * 64 + e;
    assert data[..2] == [data[0], data[1]];
  }

  lemma Canonical3(data: seq<Byte>)
    requires Decode(data).Char? && Decode(data).size == 3
    ensures 0x800 <= Decode(data).chr <= 0xFFFF && !IsSurrogate(Decode(data).chr)
    ensures data[..3] == Utf8Bytes(Decode(data).chr)
  {
    var c := Decode(data).chr;
    var a, d, e := data[0] as int - 0xE0, data[1] as int - 0x80, data[2] as int - 0x80;
    assert IsContinuation(data[1]) && IsContinuation(data[2]);
    assert data[1..3] == [data[1], data[2]];
    DivMod(2, d, 64);
    DivMod(2, e, 64);
    AccumulateForm(a, data[1..3]);
    assert c == a * 4096 + d * 64 + e;
    Digits3(a, d, e);
    assert data[..3] == [data[0], data[1], data[2]];
  }

  lemma Canonical4(data: seq<Byte>)
    requires Decode(data).Char? && Decode(data).size == 4
    ensures 0x10000 <= Decode(data).chr <= 0x10FFFF
    ensures data[..4] == Utf8Bytes(Decode(data).chr)
  {
    var c := Decode(data).chr;
    var a, b, d, e := data[0] as int - 0xF0, data[1] as int - 0x80, data[2] as int - 0x80, data[3] as int - 0x80;
    assert IsContinuation(data[1]) && IsContinuation(data[2]) && IsContinuation(data[3]);
    assert data[1..4] == [data[1], data[2], data[3]];
    DivMod(2, b, 64);
    DivMod(2, d, 64);
    DivMod(2, e, 64);
    AccumulateForm(a, data[1..4]);
    assert c == a * 262144 + b * 4096 + d * 64 + e;
    Digits4(a, b, d, e);
    assert data[..4] == [data[0], data[1], data[2], data[3]];
  }

  /**
   * Decoding accepts only the shortest form of a scalar value: whatever it
   * returns is a scalar whose UTF-8 octets are exactly the ones consumed.
   */
  lemma {:induction false} DecodeCanonical(data: seq<Byte>)
    requires Decode(data).Char?
    ensures IsScalar(Decode(data).chr)
    ensures Decode(data).size == |Utf8Bytes(Decode(data).chr)|
    ensures data[..Decode(data).size] == Utf8Bytes(Decode(data).chr)
  {
    var n := Decode(data).size;
    if n == 1 {
      assert data[..1] == [data[0]];
    } else if n == 2 {
      Canonical2(data);
    } else if n == 3 {
      Canonical3(data);
    } else {
      Canonical4(data);
    }
  }

  /** A proper prefix of an encoded character is incomplete, not invalid. */
  lemma {:induction false} TruncatedIsIncomplete(c: nat, k: nat)
    requires IsScalar(c) && k < |Utf8Bytes(c)|
    ensures Decode(Utf8Bytes(c)[..k]) == Incomplete
  {
  }

  /** The error classes of a lead octet and of a short range. */
  lemma DecodeLeadClasses(data: seq<Byte>)
    ensures data == [] ==> Decode(data) == Incomplete
    ensures data != [] && data[0] < 0x80 ==> Decode(data) == Char(data[0], 1)
    ensures data != [] && (0x80 <= data[0] < 0xC0 || 0xF8 <= data[0]) ==> Decode(data) == Invalid
    ensures data != [] && 0xC0 <= data[0] < 0xF8 && |data| < LeadOf(data[0]).res.n ==> Decode(data) == Incomplete
  {
  }

  /** A range long enough for its lead octet but with a non-continuation octet inside is invalid. */
  lemma BadContinuationIsInvalid(data: seq<Byte>, i: nat)
    requires data != [] && 0xC0 <= data[0] < 0xF8
    requires 1 <= i < LeadOf(data[0]).res.n <= |data|
    requires !(0x80 <= data[i] < 0xC0)
    ensures Decode(data) == Invalid
  {
  }
}

module Utf8CodecExamples {
  import opened Common
  import opened Unicode
  import opened Utf8Codec
  import opened Utf8CodecProofs

  /** A range starts with a byte order mark exactly when its first character decodes to U+FEFF from three octets. */
  lemma {:induction false} BomIsByteOrderMark(data: seq<Byte>)
    ensures HasBom(data) <==> Decode(data) == Char(0xFEFF, 3)
  {
    assert Utf8Bytes(0xFEFF) == [0xEF, 0xBB, 0xBF];
    if HasBom(data) {
      assert data == Utf8Bytes(0xFEFF) + data[3..];
      EncodeDecode(0xFEFF, data[3..]);
    }
    if Decode(data) == Char(0xFEFF, 3) {
      DecodeCanonical(data);
    }
  }

  /** The code points of the round-trip table and their octets. */
  lemma EncodeTable()
    ensures Utf8Bytes(0x00) == [0x00] && Utf8Bytes(0x7F) == [0x7F]
    ensures Utf8Bytes(0x80) == [0xC2, 0x80] && Utf8Bytes(0x7FF) == [0xDF, 0xBF]
    ensures Utf8Bytes(0x800) == [0xE0, 0xA0, 0x80] && Utf8Bytes(0xFFFF) == [0xEF, 0xBF, 0xBF]
    ensures Utf8Bytes(0x10000) == [0xF0, 0x90, 0x80, 0x80]
    ensures Utf8Bytes(0x10FFFF) == [0xF4, 0x8F, 0xBF, 0xBF]
  {
  }

  /** Truncated sequences are incomplete; stray and broken continuation octets and bad leads are invalid. */
  lemma DecodeBrokenTable()
    ensures Decode([0xC1]) == Incomplete
    ensures Decode([0xE1, 0x80]) == Incomplete
    ensures Decode([0xF1, 0x80, 0x80]) == Incomplete
    ensures Decode([0xC1, 0x20]) == Invalid
    ensures Decode([0xE1, 0x80, 0x20]) == Invalid
    ensures Decode([0xF1, 0x80, 0x80, 0x20]) == Invalid
    ensures Decode([0xF9, 0x80, 0x80, 0x80, 0x80]) == Invalid
    ensures Decode([0x81]) == Invalid
    ensures Decode([0x80]) == Invalid
    ensures Decode([0xC1, 0xC1, 0x80]) == Invalid
    ensures Decode([0xE1, 0x80, 0xC1, 0x80]) == Invalid
    ensures Decode([0xF1, 0x80, 0x80, 0xC1, 0x80]) == Invalid
  {
  }

  /** Overlong forms are invalid. */
  lemma DecodeOverlongTable()
    ensures Decode([0xC0, 0x8F]) == Invalid
    ensures Decode([0xE0, 0x80, 0x81]) == Invalid
    ensures Decode([0xF0, 0x80, 0x81, 0x80]) == Invalid
  {
    AccumulateForm(0x00, [0x8F]);
    assert [0xC0, 0x8F][1..2] == [0x8F];
    AccumulateForm(0x00, [0x80, 0x81]);
    assert [0xE0, 0x80, 0x81][1..3] == [0x80, 0x81];
    AccumulateForm(0x00, [0x80, 0x81, 0x80]);
    assert [0xF0, 0x80, 0x81, 0x80][1..4] == [0x80, 0x81, 0x80];
  }

  /** Surrogates in three-octet form are invalid. */
  lemma DecodeSurrogateTable()
    ensures Decode([0xED, 0xA0, 0x80]) == Invalid
    ensures Decode([0xED, 0xBF, 0xBF]) == Invalid
  {
    AccumulateForm(0x0D, [0xA0, 0x80]);
    assert [0xED, 0xA0, 0x80][1..3] == [0xA0, 0x80];
    AccumulateForm(0x0D, [0xBF, 0xBF]);
    assert [0xED, 0xBF, 0xBF][1..3] == [0xBF, 0xBF];
  }

  /** Four-octet values beyond U+10FFFF are invalid. */
  lemma DecodeBeyondTable()
    ensures Decode([0xF4, 0x90, 0x80, 0x80]) == Invalid
    ensures Decode([0xF7, 0xBF, 0xBF, 0xBF]) == Invalid
  {
    AccumulateForm(0x04, [0x90, 0x80, 0x80]);
    assert [0xF4, 0x90, 0x80, 0x80][1..4] == [0x90, 0x80, 0x80];
    AccumulateForm(0x07, [0xBF, 0xBF, 0xBF]);
    assert [0xF7, 0xBF, 0xBF, 0xBF][1..4] == [0xBF, 0xBF, 0xBF];
  }
}
