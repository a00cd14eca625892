/**
 * The older UTF-8 codec (`unicode::Utf8Codec` of `lib/unicode`). Its lead
 * octet classification, BOM test and encoding name are the same as those
 * of the newer codec and are shared with it. Its decoder tests surrogates
 * and the upper bound after the length-specific checks, at every length;
 * its encoder rejects surrogates and values beyond U+10FFFF before
 * anything else, also when only measuring.
 */
module LegacyUtf8Codec {
  import opened Common
  import opened Unicode
  import opened Utf8Codec

  /**
   * `parseNext` of the older codec. It decodes exactly as the newer one:
   * its extra checks only reject what the length-specific checks already
   * reject (two-octet values stay below U+0800, three-octet values below
   * U+10000, four-octet values above U+FFFF).
   */
  method ParseNext(data: seq<Byte>) returns (r: Decoded)
    ensures r == Decode(data)
  {
    if |data| == 0 {
      return Incomplete;
    }
    var lead := ComputeCharSize(data[0]);
    if IsError(lead.res) {
      return Invalid;
    }
    // the source's test for a length above four is unreachable: ComputeCharSize announces at most four
    var charSize := lead.res.n;
    if |data| < charSize {
      return Incomplete;
    }
    var ok, tmpChr := ReadContinuations(data, lead.value, charSize);
    if !ok {
      return Invalid;
    }
    if charSize > 1 {
      LaterChecksRedundant(data, charSize);
    }
    if charSize == 2 && tmpChr < 0x80 {
      return Invalid;
    }
    if charSize == 3 && tmpChr < 0x800 {
      return Invalid;
    }
    if charSize == 4 && tmpChr < 0x10000 {
      return Invalid;
    }
    if IsSurrogate(tmpChr) {
      return Invalid;
    }
    if tmpChr > 0x10FFFF {
      return Invalid;
    }
    return Char(tmpChr, charSize);
  }

  /** Two-octet values stay below U+0800 and three-octet values below U+10000. */
  lemma LaterChecksRedundant(data: seq<Byte>, n: nat)
    requires 2 <= n <= 4 && |data| >= n && LeadOf(data[0]).res == Size(n)
    ensures n == 2 ==> Accumulate(LeadOf(data[0]).value, data[1..n]) < 0x800
    ensures n == 3 ==> Accumulate(LeadOf(data[0]).value, data[1..n]) < 0x10000
  {
    AccumulateForm(LeadOf(data[0]).value, data[1..n]);
  }

  /**
   * The outcome of the older `encodeChar`: anything that is not a scalar
   * value is invalid, with or without a buffer; a buffer too small for the
   * octets is incomplete.
   */
  function EncodeResult(chr: nat, hasBuffer: bool, bufSize: nat): (r: ParseResult)
    ensures r == InvalidCharacter <==> !IsScalar(chr)
    ensures r == IncompleteCharacter <==> hasBuffer && IsScalar(chr) && bufSize < |Utf8Bytes(chr)|
    ensures r.Size? ==> IsScalar(chr) && r.n == |Utf8Bytes(chr)|
  {
    if chr > 0x10FFFF then InvalidCharacter
    else if IsSurrogate(chr) then InvalidCharacter
    else if chr <= 0x7F then
      if hasBuffer && bufSize < 1 then IncompleteCharacter else Size(1)
    else if chr <= 0x7FF then
      if hasBuffer && bufSize < 2 then IncompleteCharacter else Size(2)
    else if chr <= 0xFFFF then
      if hasBuffer && bufSize < 3 then IncompleteCharacter else Size(3)
    else if hasBuffer && bufSize < 4 then IncompleteCharacter
    else Size(4)
  }

  /** The older `encodeChar`: the same octets as the newer one, with the validity checks first. */
  method EncodeChar(chr: nat, buf: array?<Byte>, start: nat, end: nat) returns (r: ParseResult)
    requires start <= end
    requires buf != null ==> end <= buf.Length
    modifies buf
    ensures r == EncodeResult(chr, buf != null, end - start)
    ensures buf != null && r.Size? ==> buf[..] == old(buf[..start]) + Utf8Bytes(chr) + old(buf[start + r.n..])
    ensures buf != null && !r.Size? ==> buf[..] == old(buf[..])
  {
    if chr > 0x10FFFF { return InvalidCharacter; }
    if IsSurrogate(chr) { return InvalidCharacter; }
    var bufSize := end - start;
    if chr <= 0x7F {
      if buf != null {
        if bufSize < 1 { return IncompleteCharacter; }
        buf[start] := chr;
      }
      return Size(1);
    }
    if chr <= 0x7FF {
      if buf != null {
        if bufSize < 2 { return IncompleteCharacter; }
        buf[start] := 0xC0 + chr / 64;
        buf[start + 1] := 0x80 + chr % 64;
      }
      return Size(2);
    }
    if chr <= 0xFFFF {
      if buf != null {
        if bufSize < 3 { return IncompleteCharacter; }
        buf[start] := 0xE0 + chr / 4096;
        buf[start + 1] := 0x80 + (chr / 64) % 64;
        buf[start + 2] := 0x80 + chr % 64;
      }
      return Size(3);
    }
    if buf != null {
      if bufSize < 4 { return IncompleteCharacter; }
      buf[start] := 0xF0 + chr / 262144;
      buf[start + 1] := 0x80 + (chr / 4096) % 64;
      buf[start + 2] := 0x80 + (chr / 64) % 64;
      buf[start + 3] := 0x80 + chr % 64;
    }
    return Size(4);
  }

  /** The older `appendChar`: appends the octets of a scalar value; anything else leaves `out` unchanged. */
  method AppendChar(out: seq<Byte>, chr: nat) returns (r: ParseResult, out': seq<Byte>)
    ensures r == (if IsScalar(chr) then Size(|Utf8Bytes(chr)|) else InvalidCharacter)
    ensures out' == (if r.Size? then out + Utf8Bytes(chr) else out)
  {
    var buf := new Byte[4];
    r := EncodeChar(chr, buf, 0, 4);
    if IsError(r) {
      return r, out;
    }
    out' := out + buf[..r.n];
  }

  /** With a buffer the two encoders agree; when only measuring they differ exactly on the surrogates. */
  lemma EncodersCompared(chr: nat, bufSize: nat)
    ensures EncodeResult(chr, true, bufSize) == Utf8Codec.EncodeResult(chr, true, bufSize)
    ensures EncodeResult(chr, false, 0) != Utf8Codec.EncodeResult(chr, false, 0) <==> IsSurrogate(chr)
    ensures IsSurrogate(chr) ==> EncodeResult(chr, false, 0) == InvalidCharacter && Utf8Codec.EncodeResult(chr, false, 0) == Size(3)
  {
  }

  /** The code points of the encoding error table are refused, so `appendChar` leaves an empty output empty. */
  lemma EncodeErrorTable()
    ensures EncodeResult(0x110000, true, 4) == InvalidCharacter
    ensures EncodeResult(0xDC00, true, 4) == InvalidCharacter
    ensures EncodeResult(0xDFFF, true, 4) == InvalidCharacter
    ensures !IsScalar(0x110000) && !IsScalar(0xDC00) && !IsScalar(0xDFFF)
  {
  }
}
