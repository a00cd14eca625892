/**
 * The text decoder of the older XML parser (`xml::detail::TextDecodingHelper`
 * of `lib/xml`). It reads exactly as the newer one (the reading members are
 * the same, line for line, and are shared through `TextDecoding.Reader`);
 * it writes with the older UTF-8 encoder into a caller's buffer of fixed
 * size, or only counts the octets when it is given no buffer.
 */
module LegacyTextDecoding {
  import opened Common
  import opened Unicode
  import opened XmlHelper
  import opened TextDecoding
  import opened CharDecoders
  import LegacyUtf8Codec

  /**
   * Octets stored right after the text written so far extend it; the
   * caller's octets before the write start and after the new octets stay.
   */
  lemma Overwrite(before: seq<Byte>, start: nat, text: seq<Byte>, pos: nat, bytes: seq<Byte>, n: nat, prev: seq<Byte>, now: seq<Byte>)
    requires pos == start + |text| && n == |bytes| && pos + n <= |before|
    requires prev == before[..start] + text + before[pos..]
    requires now == prev[..pos] + bytes + prev[pos + n..]
    ensures now == before[..start] + (text + bytes) + before[pos + n..]
  {
    assert prev[..pos] == before[..start] + text;
    assert prev[pos + n..] == before[pos + n..];
  }

  /** Writing into the caller's buffer, or only measuring, is what WriteResult states for it. */
  lemma OlderEncoderResult(target: Output, written: nat, chr: nat, hasBuffer: bool, room: nat)
    requires target.Fixed? ==> hasBuffer && written + room == target.capacity
    requires target.Counting? ==> !hasBuffer
    requires !target.Growing?
    ensures WriteResult(target, written, chr) == LegacyUtf8Codec.EncodeResult(chr, hasBuffer, room)
  {
  }

  class TextDecodingHelper {
    const reader: Reader
    const textType: TextType
    /** The caller's buffer, or null for a measuring pass. */
    const out: array?<Byte>
    /** Where the caller's write pointer started. */
    ghost const writeStart: nat
    /** The caller's buffer as it was handed over. */
    ghost const before: seq<Byte>
    /** The room between the write start and the end of the caller's buffer. */
    ghost const capacity: nat
    /** The end of the caller's buffer (`writePointerEnd`). */
    const writeEnd: nat
    var writePos: nat
    var writeCount: nat
    ghost var chars: seq<nat>
    /** The UTF-8 of `chars`: the octets written so far. */
    ghost var text: seq<Byte>

    /** Where the octets go: the caller's buffer of fixed size, or nowhere. */
    ghost function Target(): Output
    {
      if out == null then Counting else Fixed(capacity)
    }

    /** The positions and the count: the write pointer is as far from its start as octets were written. */
    ghost predicate Layout()
      reads this, reader
    {
      reader.Valid() && XmlText(chars) && writeEnd == writeStart + capacity &&
      text == Utf8Text(chars) && writeCount == |text| &&
      (out == null ==> writePos == writeStart) &&
      (out != null ==> writeEnd <= out.Length && |before| == out.Length && writePos == writeStart + writeCount && writePos <= writeEnd)
    }

    /** The caller's buffer holds its old octets, except that the decoded text starts at the write start. */
    ghost predicate Valid()
      reads this, reader, out
    {
      Layout() && (out != null ==> out[..] == before[..writeStart] + text + before[writePos..])
    }

    constructor(buf: array?<Byte>, start: nat, end: nat, tt: TextType, d: CharDecoder, input: seq<Byte>)
      requires start <= end && (buf != null ==> end <= buf.Length)
      ensures Valid() && fresh(reader)
      ensures out == buf && writeStart == start && writeEnd == end && textType == tt
      ensures reader.decoder == d && reader.input == input && reader.State() == Cursor(0, 0, Parsing)
      ensures writePos == start && writeCount == 0 && chars == []
      ensures buf != null ==> before == buf[..]
    {
      reader := new Reader(d, input);
      textType := tt;
      out := buf;
      writeStart := start;
      writeEnd := end;
      capacity := end - start;
      writePos := start;
      writeCount := 0;
      chars := [];
      text := [];
      before := if buf != null then buf[..] else [];
      new;
      if buf != null {
        assert buf[..] == buf[..start] + buf[start..];
      }
    }

    /**
     * The last step of `writeChar` once the encoder stored `n` octets at the
     * write pointer: count them and move the write pointer, if there is one.
     */
    method Advance(chr: nat, n: nat, ghost prev: seq<Byte>)
      requires Layout() && IsValidXmlChar(chr) && IsScalar(chr) && n == |Utf8Bytes(chr)|
      requires out != null ==> writePos + n <= writeEnd && prev == before[..writeStart] + text + before[writePos..]
      requires out != null ==> out[..] == prev[..writePos] + Utf8Bytes(chr) + prev[writePos + n..]
      modifies this
      ensures Valid()
      ensures writeCount == old(writeCount) + n && chars == old(chars) + [chr]
      ensures writePos == if out == null then old(writePos) else old(writePos) + n
    {
      if out != null {
        Overwrite(before, writeStart, text, writePos, Utf8Bytes(chr), n, prev, out[..]);
      }
      XmlTextAppend(chars, chr);
      writeCount := writeCount + n;
      if out != null {
        writePos := writePos + n;
      }
      chars := chars + [chr];
      text := text + Utf8Bytes(chr);
    }

    /** The error path of `writeChar`: the reader stops with `status`, nothing else changes. */
    method Stop(status: DecodingType)
      requires Valid()
      modifies reader
      ensures Valid() && reader.status == status
      ensures reader.pos == old(reader.pos) && reader.currentChar == old(reader.currentChar)
    {
      reader.status := status;
    }

    /** `writeChar`: a buffer too small makes the text incomplete, an invalid character an error. */
    method WriteChar(chr: nat) returns (ok: bool)
      requires Valid() && reader.status == Parsing && IsValidXmlChar(chr)
      modifies this, reader, out
      ensures Valid()
      ensures reader.pos == old(reader.pos) && reader.currentChar == old(reader.currentChar)
      ensures var w := WriteResult(Target(), old(writeCount), chr);
        ok == w.Size? &&
        (ok ==> reader.status == Parsing && chars == old(chars) + [chr]) &&
        (!ok ==> chars == old(chars) && reader.status == if w == IncompleteCharacter then IncompleteText else Error)
    {
      ghost var prev := if out != null then out[..] else [];
      var r := LegacyUtf8Codec.EncodeChar(chr, out, writePos, writeEnd);
      OlderEncoderResult(Target(), writeCount, chr, out != null, writeEnd - writePos);
      if IsError(r) {
        Stop(if r == IncompleteCharacter then IncompleteText else Error);
        return false;
      }
      Advance(chr, r.n, prev);
      return true;
    }

    /**
     * One pass of the loop of `decodeText`, up to where the source returns
     * (`early`) or goes round again; DecodeFrom of the state before it is
     * DecodeFrom of the state after it, or the outcome when it stopped.
     */
    method DecodePass() returns (early: bool)
      requires Valid() && reader.status == Parsing && reader.pos < |reader.input|
      modifies this, reader, out
      ensures Valid()
      ensures reader.status == Parsing ==> old(reader.pos) < reader.pos < |reader.input|
      ensures DecodeFrom(reader.decoder, textType, Target(), reader.input, old(reader.State()), old(chars)) ==
        if reader.status == Parsing then DecodeFrom(reader.decoder, textType, Target(), reader.input, reader.State(), chars)
        else Outcome(reader.State(), chars)
      ensures !early ==> old(reader.pos) < reader.pos
      ensures early ==> reader.status != Parsing
      ensures !early ==> reader.status == Parsing || reader.status == EndStatus(textType)
    {
      var d, input := reader.decoder, reader.input;
      ghost var c := reader.State();
      var ok := reader.NextChar();
      if !ok {
        return true;
      }
      ghost var c1 := reader.State();
      reader.CheckForEndChar(textType);
      if reader.status != Parsing {
        return true;
      }
      ghost var c2 := reader.State();
      assert c2 == CheckEnd(textType, c1) && c1 == ReadChar(d, input, c);
      var chr;
      if reader.currentChar == Ampersand {
        ok, chr := reader.HandleEntity();
        if !ok {
          return true;
        }
      } else {
        chr := reader.currentChar;
      }
      ghost var e := if c2.cur == Ampersand then ReadReference(d, input, c2, HexCountLimit) else Ref(c2, c2.cur);
      assert reader.State() == e.cursor && chr == e.value;
      early := EmitChar(chr);
    }

    /**
     * The end of a pass of the loop of `decodeText`, the character `chr`
     * being read: refuse it outside the Char production, write it, and stop
     * at the end of the input. Emit of the state before it is DecodeFrom of
     * the state after it, or the outcome when it stopped.
     */
    method EmitChar(chr: nat) returns (early: bool)
      requires Valid() && reader.status == Parsing
      modifies this, reader, out
      ensures Valid()
      ensures reader.status == Parsing ==> reader.pos == old(reader.pos) < |reader.input|
      ensures Emit(reader.decoder, textType, Target(), reader.input, old(reader.State()), chr, old(chars)) ==
        if reader.status == Parsing then DecodeFrom(reader.decoder, textType, Target(), reader.input, reader.State(), chars)
        else Outcome(reader.State(), chars)
      ensures reader.pos == old(reader.pos)
      ensures early ==> reader.status != Parsing
      ensures !early ==> reader.status == Parsing || reader.status == EndStatus(textType)
    {
      if !IsValidXmlChar(chr) {
        reader.status := Error;
        return true;
      }
      var ok := WriteChar(chr);
      if !ok {
        return true;
      }
      if reader.pos == |reader.input| {
        reader.status := EndStatus(textType);
      }
      return false;
    }

    /**
     * `decodeText`: the state, read position, current character and written
     * characters are those of DecodedText for the caller's buffer of fixed
     * size (or for counting only); `getWriteCount` is the length of their
     * UTF-8, which stands at the write start while the caller's other
     * octets are kept.
     */
    method DecodeText() returns (ok: bool)
      requires Valid() && reader.State() == Cursor(0, 0, Parsing) && writeCount == 0 && chars == []
      modifies this, reader, out
      ensures Valid()
      ensures var r := DecodedText(reader.decoder, textType, Target(), reader.input);
        reader.State() == r.cursor && chars == r.chars && ok == (r.cursor.status == AtEnd)
      ensures writeCount == |Utf8Text(chars)|
      ensures text == Utf8Text(chars) && writePos == if out == null then writeStart else writeStart + writeCount
      ensures out != null ==> out[..] == before[..writeStart] + text + before[writePos..]
    {
      var d, input := reader.decoder, reader.input;
      if reader.pos == |input| {
        reader.status := EndStatus(textType);
      }
      while reader.status == Parsing
        invariant Valid()
        invariant reader.status == Parsing ==> reader.pos < |input|
        invariant DecodedText(d, textType, Target(), input) ==
          if reader.status == Parsing then DecodeFrom(d, textType, Target(), input, reader.State(), chars)
          else Outcome(reader.State(), chars)
        decreases |input| - reader.pos
      {
        var early := DecodePass();
        if early {
          return reader.status == AtEnd;
        }
      }
      return reader.status == AtEnd;
    }
  }
}
