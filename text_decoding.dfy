/**
 * The XML text decoder of the parser (`TextDecodingHelper`): it reads the
 * characters of a text (character data, an attribute value, or plain text)
 * with the instantiated character decoder, replaces the character and
 * entity references of section 4.1 of XML 1.0 by the characters they
 * denote (the predefined entities of section 4.6 only), stops at the
 * character that ends the text, and writes the decoded characters as
 * UTF-8.
 *
 * The functions of this module state the decoding step by step, over the
 * octets from the start of the text to the end of the input; the class
 * `Reader` holds the read position, the current character and the state
 * of the decoder, and `TextDecodingHelper` is the decoder that writes into
 * a growing buffer.
 */
module TextDecoding {
  import opened Common
  import opened Unicode
  import opened CharDecoders
  import opened XmlHelper
  import Utf8Codec
  import LegacyUtf8Codec

  /** The state of a decoding (`DecodingType`). */
  datatype DecodingType = Parsing | AtEnd | IncompleteText | Error

  /** Which kind of text is decoded; it decides which character ends it (`TextType`). */
  datatype TextType = Plain | CharData | AttValueQuote | AttValueApos

  /**
   * Where a decoder stands: the read position (octets from the start of
   * the text), the current character and the state.
   */
  datatype Cursor = Cursor(pos: nat, cur: nat, status: DecodingType)

  /** The cursor after a reference, and the character it denotes when the state is still Parsing. */
  datatype Ref = Ref(cursor: Cursor, value: nat)

  /**
   * Where the decoded octets go: a buffer that grows as needed, a buffer of
   * fixed capacity, or nowhere (a measuring pass that only counts them).
   */
  datatype Output = Growing | Fixed(capacity: nat) | Counting

  /** The end of a decoding: the final cursor and the characters written. */
  datatype Outcome = Outcome(cursor: Cursor, chars: seq<nat>)

  const Ampersand: nat := '&' as nat
  const Hash: nat := '#' as nat
  const LowerX: nat := 'x' as nat
  const Semicolon: nat := ';' as nat
  const LessThan: nat := '<' as nat
  const Quote: nat := '"' as nat
  const Apostrophe: nat := '\'' as nat

  /**
   * The hexadecimal limit of the corrected decoder. Both copies of the
   * source count the characters of a hexadecimal reference, the closing
   * `;` included, and err once the count passes six, which admits only
   * five digits; this model raises the limit to seven, so that the six
   * digits U+10FFFF needs are admitted. Every decoder of the model uses
   * this corrected limit.
   */
  const HexCountLimit: nat := 7
  /** The limit as the source writes it (`++cnt > 6`), which admits only five digits. */
  const HexCountLimitAsWritten: nat := 6
  /** A decimal reference has at most seven digits (1114111 is U+10FFFF). */
  const DecCountLimit: nat := 7

  /** Decoded characters that the text may hold: the Char production [2] of XML 1.0. */
  ghost predicate XmlText(chars: seq<nat>)
  {
    forall i | 0 <= i < |chars| :: IsCharProduction(chars[i])
  }

  /** The UTF-8 octets of a sequence of code points, in order. */
  function Utf8Text(chars: seq<nat>): (r: seq<Byte>)
    requires forall i | 0 <= i < |chars| :: chars[i] <= 0x10FFFF
  {
    if chars == [] then [] else Utf8Text(chars[..|chars| - 1]) + Utf8Bytes(chars[|chars| - 1])
  }

  lemma Utf8TextAppend(chars: seq<nat>, c: nat)
    requires forall i | 0 <= i < |chars| :: chars[i] <= 0x10FFFF
    requires c <= 0x10FFFF
    ensures Utf8Text(chars + [c]) == Utf8Text(chars) + Utf8Bytes(c)
  {
    assert (chars + [c])[..|chars|] == chars;
  }

  /** Appending an XML character that is a scalar value keeps the text XML text and extends its octets. */
  lemma XmlTextAppend(chars: seq<nat>, c: nat)
    requires XmlText(chars) && IsValidXmlChar(c) && IsScalar(c)
    ensures XmlText(chars + [c])
    ensures Utf8Text(chars + [c]) == Utf8Text(chars) + Utf8Bytes(c)
  {
    Utf8TextAppend(chars, c);
  }

  /** What a decoding that ran out of input after a character reports: only plain text may end anywhere. */
  function EndStatus(tt: TextType): (r: DecodingType)
    ensures r == AtEnd <==> tt == Plain
    ensures r != AtEnd ==> r == IncompleteText
  {
    if tt == Plain then AtEnd else IncompleteText
  }

  /**
   * `nextChar`: at the end of the input, or on a truncated character, the
   * text is incomplete; an invalid character is an error; otherwise the
   * character becomes the current one and the read position moves past it.
   */
  function ReadChar(d: CharDecoder, input: seq<Byte>, c: Cursor): (r: Cursor)
    requires c.status == Parsing && c.pos <= |input|
    ensures r.pos <= |input|
    ensures r.status == Parsing ==> c.pos < r.pos && IsScalar(r.cur)
    ensures r.status != Parsing ==> r.pos == c.pos && r.cur == c.cur
    ensures r.status == Parsing || r.status == IncompleteText || r.status == Error
  {
    if c.pos == |input| then c.(status := IncompleteText)
    else
      match Decode(d, input[c.pos..])
      case Char(ch, n) => Cursor(c.pos + n, ch, Parsing)
      case Incomplete => c.(status := IncompleteText)
      case Invalid => c.(status := Error)
  }

  /**
   * `nextAsciiChar`: a character of a reference, which must be ASCII. The
   * UTF-8 decoder has its own version that looks at one octet only and
   * calls any non-ASCII octet an error; the others read a whole character
   * and call it an error when it is above U+007F.
   */
  function ReadAsciiChar(d: CharDecoder, input: seq<Byte>, c: Cursor): (r: Cursor)
    requires c.status == Parsing && c.pos <= |input|
    ensures c.pos <= r.pos <= |input|
    ensures r.status == Parsing ==> c.pos < r.pos && r.cur < 0x80
    ensures r.status == Parsing || r.status == IncompleteText || r.status == Error
  {
    if d.Utf8? then
      if c.pos == |input| then c.(status := IncompleteText)
      else if !Utf8Codec.IsAscii(input[c.pos]) then c.(status := Error)
      else Cursor(c.pos + 1, input[c.pos], Parsing)
    else
      var r := ReadChar(d, input, c);
      if r.status == Parsing && r.cur > 0x7F then r.(status := Error) else r
  }

  /**
   * `handleHexCharRef`: the current character is the first after `&#x`.
   * Hexadecimal digits of either case are shifted into the value; the
   * first other character ends the reference, which must have had a
   * digit. `cnt` counts the characters looked at so far; passing `limit`
   * is an error.
   */
  function ReadHexRef(d: CharDecoder, input: seq<Byte>, c: Cursor, limit: nat, cnt: nat, acc: nat): (r: Ref)
    requires c.status == Parsing && c.pos <= |input| && c.cur < 0x80
    ensures c.pos <= r.cursor.pos <= |input|
    ensures r.cursor.status == Parsing ==> r.cursor.cur < 0x80 && HexValue(r.cursor.cur).None?
    ensures r.cursor.status == Parsing || r.cursor.status == IncompleteText || r.cursor.status == Error
    decreases |input| - c.pos
  {
    if cnt + 1 > limit then Ref(c.(status := Error), acc)
    else
      match HexValue(c.cur)
      case Some(v) =>
        var c' := ReadAsciiChar(d, input, c);
        if c'.status != Parsing then Ref(c', acc)
        else ReadHexRef(d, input, c', limit, cnt + 1, acc * 16 + v)
      case None =>
        if cnt == 0 then Ref(c.(status := Error), acc) else Ref(c, acc)
  }

  /** The value of a decimal digit character. */
  function DecValue(ch: nat): (r: Option<nat>)
    ensures r.Some? ==> r.value < 10
  {
    if '0' as nat <= ch <= '9' as nat then Some(ch - '0' as nat) else None
  }

  /**
   * `handleDecCharRef`: the current character is the first after `&#`.
   * Decimal digits are accumulated, at most seven of them; the first other
   * character ends the reference, which must have had a digit.
   */
  function ReadDecRef(d: CharDecoder, input: seq<Byte>, c: Cursor, cnt: nat, acc: nat): (r: Ref)
    requires c.status == Parsing && c.pos <= |input| && c.cur < 0x80
    ensures c.pos <= r.cursor.pos <= |input|
    ensures r.cursor.status == Parsing ==> DecValue(r.cursor.cur).None? && r.cursor.cur < 0x80
    ensures r.cursor.status == Parsing || r.cursor.status == IncompleteText || r.cursor.status == Error
    decreases |input| - c.pos
  {
    match DecValue(c.cur)
    case Some(v) =>
      if cnt + 1 > DecCountLimit then Ref(c.(status := Error), acc)
      else
        var c' := ReadAsciiChar(d, input, c);
        if c'.status != Parsing then Ref(c', acc * 10 + v)
        else ReadDecRef(d, input, c', cnt + 1, acc * 10 + v)
    case None =>
      if cnt == 0 then Ref(c.(status := Error), acc) else Ref(c, acc)
  }

  /** The cases of one step of ReadDecRef, each as the loop of `handleDecCharRef` meets it. */
  lemma DecRefStep(d: CharDecoder, input: seq<Byte>, c: Cursor, cnt: nat, acc: nat)
    requires c.status == Parsing && c.pos <= |input| && c.cur < 0x80
    ensures DecValue(c.cur).None? ==>
      ReadDecRef(d, input, c, cnt, acc) == if cnt == 0 then Ref(c.(status := Error), acc) else Ref(c, acc)
    ensures DecValue(c.cur).Some? && cnt + 1 > DecCountLimit ==>
      ReadDecRef(d, input, c, cnt, acc) == Ref(c.(status := Error), acc)
    ensures DecValue(c.cur).Some? && cnt + 1 <= DecCountLimit ==>
      var c' := ReadAsciiChar(d, input, c);
      var acc' := acc * 10 + DecValue(c.cur).value;
      ReadDecRef(d, input, c, cnt, acc) == if c'.status != Parsing then Ref(c', acc') else ReadDecRef(d, input, c', cnt + 1, acc')
  {
  }

  /** An entity name that is not one of the five predefined ones. */
  function Unknown(c: Cursor): Ref
  {
    Ref(c.(status := Error), 0)
  }

  /** The last letter of a predefined entity name matched: read the character after it. */
  function Matched(d: CharDecoder, input: seq<Byte>, c: Cursor, value: nat): (r: Ref)
    requires c.status == Parsing && c.pos <= |input|
    ensures c.pos <= r.cursor.pos <= |input|
  {
    var c' := ReadAsciiChar(d, input, c);
    Ref(c', value)
  }

  /** One more character of an entity name. */
  function ReadNameChar(d: CharDecoder, input: seq<Byte>, c: Cursor): (r: Cursor)
    requires c.status == Parsing && c.pos <= |input|
    ensures c.pos <= r.pos <= |input|
  {
    ReadAsciiChar(d, input, c)
  }

  /**
   * `handleEntityRef`: the current character is the first after `&`. The
   * names `amp`, `apos`, `gt`, `lt` and `quot` are matched letter by
   * letter and denote `&`, `'`, `>`, `<` and `"`; any other name is an
   * error as soon as it departs from all five.
   */
  function ReadEntityRef(d: CharDecoder, input: seq<Byte>, c: Cursor): (r: Ref)
    requires c.status == Parsing && c.pos <= |input|
    ensures c.pos <= r.cursor.pos <= |input|
    ensures r.cursor.status == Parsing ==> r.value in {Ampersand, Apostrophe, '>' as nat, LessThan, Quote}
    ensures r.cursor.status == Parsing ==> c.pos < r.cursor.pos
    ensures r.cursor.status != AtEnd
  {
    if c.cur == 'a' as nat then
      var c1 := ReadNameChar(d, input, c);
      if c1.status != Parsing then Ref(c1, 0)
      else if c1.cur == 'm' as nat then
        var c2 := ReadNameChar(d, input, c1);
        if c2.status != Parsing then Ref(c2, 0)
        else if c2.cur == 'p' as nat then Matched(d, input, c2, Ampersand)
        else Unknown(c2)
      else if c1.cur == 'p' as nat then
        var c2 := ReadNameChar(d, input, c1);
        if c2.status != Parsing then Ref(c2, 0)
        else if c2.cur == 'o' as nat then
          var c3 := ReadNameChar(d, input, c2);
          if c3.status != Parsing then Ref(c3, 0)
          else if c3.cur == 's' as nat then Matched(d, input, c3, Apostrophe)
          else Unknown(c3)
        else Unknown(c2)
      else Unknown(c1)
    else if c.cur == 'g' as nat then
      var c1 := ReadNameChar(d, input, c);
      if c1.status != Parsing then Ref(c1, 0)
      else if c1.cur == 't' as nat then Matched(d, input, c1, '>' as nat)
      else Unknown(c1)
    else if c.cur == 'l' as nat then
      var c1 := ReadNameChar(d, input, c);
      if c1.status != Parsing then Ref(c1, 0)
      else if c1.cur == 't' as nat then Matched(d, input, c1, LessThan)
      else Unknown(c1)
    else if c.cur == 'q' as nat then
      var c1 := ReadNameChar(d, input, c);
      if c1.status != Parsing then Ref(c1, 0)
      else if c1.cur == 'u' as nat then
        var c2 := ReadNameChar(d, input, c1);
        if c2.status != Parsing then Ref(c2, 0)
        else if c2.cur == 'o' as nat then
          var c3 := ReadNameChar(d, input, c2);
          if c3.status != Parsing then Ref(c3, 0)
          else if c3.cur == 't' as nat then Matched(d, input, c3, Quote)
          else Unknown(c3)
        else Unknown(c2)
      else Unknown(c1)
    else Unknown(c)
  }

  /**
   * `handleEntity`: the current character is `&`. After `&#x` a
   * hexadecimal reference, after `&#` a decimal one, otherwise a named
   * entity; in each case the character that ends it must be `;`.
   */
  function ReadReference(d: CharDecoder, input: seq<Byte>, c: Cursor, limit: nat): (r: Ref)
    requires c.status == Parsing && c.pos <= |input|
    ensures c.pos <= r.cursor.pos <= |input|
    ensures r.cursor.status == Parsing ==> r.cursor.cur == Semicolon
    ensures r.cursor.status != AtEnd
  {
    var c1 := ReadAsciiChar(d, input, c);
    if c1.status != Parsing then Ref(c1, 0)
    else
      var r :=
        if c1.cur == Hash then
          var c2 := ReadAsciiChar(d, input, c1);
          if c2.status != Parsing then Ref(c2, 0)
          else if c2.cur == LowerX then
            var c3 := ReadAsciiChar(d, input, c2);
            if c3.status != Parsing then Ref(c3, 0)
            else ReadHexRef(d, input, c3, limit, 0, 0)
          else ReadDecRef(d, input, c2, 0, 0)
        else ReadEntityRef(d, input, c1);
      if r.cursor.status != Parsing then r
      else if r.cursor.cur != Semicolon then Ref(r.cursor.(status := Error), r.value)
      else r
  }

  /** The character that ends text of a type other than plain. */
  function EndChar(tt: TextType): nat
  {
    match tt
    case CharData => LessThan
    case AttValueQuote => Quote
    case AttValueApos => Apostrophe
    case Plain => 0
  }

  /**
   * `checkForEndChar`: character data ends at `<`; an attribute value ends
   * at its own quote and may not contain `<`; plain text has no end
   * character.
   */
  function CheckEnd(tt: TextType, c: Cursor): (r: Cursor)
    requires c.status == Parsing
    ensures r.pos == c.pos && r.cur == c.cur
    ensures r.status == AtEnd <==>
      (tt == CharData && c.cur == LessThan) ||
      (tt == AttValueQuote && c.cur == Quote) ||
      (tt == AttValueApos && c.cur == Apostrophe)
    ensures r.status == Error <==> (tt == AttValueQuote || tt == AttValueApos) && c.cur == LessThan
    ensures r.status == Parsing || r.status == AtEnd || r.status == Error
  {
    match tt
    case Plain => c
    case AttValueApos | AttValueQuote =>
      var attributeChar := if tt == AttValueApos then Apostrophe else Quote;
      if c.cur == attributeChar then c.(status := AtEnd)
      else if c.cur == LessThan then c.(status := Error)
      else c
    case CharData =>
      if c.cur == LessThan then c.(status := AtEnd) else c
  }

  /**
   * `writeChar`, by where the octets go: the growing buffer always has
   * room for four octets when the newer encoder runs; the older encoder
   * writes into a fixed buffer, with `written` octets already used, or
   * only measures. Either way anything but a scalar value is refused.
   */
  function WriteResult(out: Output, written: nat, chr: nat): (r: ParseResult)
    ensures r == InvalidCharacter <==> !IsScalar(chr)
    ensures r == IncompleteCharacter <==> out.Fixed? && IsScalar(chr) && written + |Utf8Bytes(chr)| > out.capacity
    ensures r.Size? ==> IsScalar(chr) && r.n == |Utf8Bytes(chr)|
  {
    match out
    case Growing => Utf8Codec.EncodeResult(chr, true, 4)
    case Fixed(k) => LegacyUtf8Codec.EncodeResult(chr, true, if written <= k then k - written else 0)
    case Counting => LegacyUtf8Codec.EncodeResult(chr, false, 0)
  }

  /**
   * One pass of the loop of `decodeText` and all passes after it: read a
   * character, stop at the end character, resolve a reference, and hand the
   * character to Emit. `chars` are the characters written so far.
   */
  function DecodeFrom(d: CharDecoder, tt: TextType, out: Output, input: seq<Byte>, c: Cursor, chars: seq<nat>): (r: Outcome)
    requires c.status == Parsing && c.pos < |input|
    requires XmlText(chars)
    ensures r.cursor.status != Parsing && r.cursor.pos <= |input|
    ensures XmlText(r.chars) && chars <= r.chars
    ensures r.cursor.status == AtEnd ==> tt == Plain || r.cursor.cur == EndChar(tt)
    decreases |input| - c.pos, 0
  {
    var c1 := ReadChar(d, input, c);
    if c1.status != Parsing then Outcome(c1, chars)
    else
      var c2 := CheckEnd(tt, c1);
      if c2.status != Parsing then Outcome(c2, chars)
      else
        var e := if c2.cur == Ampersand then ReadReference(d, input, c2, HexCountLimit) else Ref(c2, c2.cur);
        if e.cursor.status != Parsing then Outcome(e.cursor, chars)
        else Emit(d, tt, out, input, e.cursor, e.value, chars)
  }

  /**
   * The rest of a pass once the character `v` is known, the read position
   * standing after it: refuse a character outside the Char production,
   * write it, and stop when the input runs out or go round again.
   */
  function Emit(d: CharDecoder, tt: TextType, out: Output, input: seq<Byte>, c: Cursor, v: nat, chars: seq<nat>): (r: Outcome)
    requires c.status == Parsing && c.pos <= |input|
    requires XmlText(chars)
    ensures r.cursor.status != Parsing && r.cursor.pos <= |input|
    ensures XmlText(r.chars) && chars <= r.chars
    ensures r.cursor.status == AtEnd ==> tt == Plain || r.cursor.cur == EndChar(tt)
    decreases |input| - c.pos, 1
  {
    if !IsValidXmlChar(v) then Outcome(c.(status := Error), chars)
    else
      var w := WriteResult(out, |Utf8Text(chars)|, v);
      if w == IncompleteCharacter then Outcome(c.(status := IncompleteText), chars)
      else if w == InvalidCharacter then Outcome(c.(status := Error), chars)
      else
        var chars' := chars + [v];
        if c.pos == |input| then Outcome(c.(status := EndStatus(tt)), chars')
        else DecodeFrom(d, tt, out, input, c, chars')
  }

  /**
   * `decodeText`: an empty text is at its end when plain and incomplete
   * otherwise; any other text is decoded from its first octet. Success is
   * the state AtEnd.
   */
  function DecodedText(d: CharDecoder, tt: TextType, out: Output, input: seq<Byte>): (r: Outcome)
    ensures r.cursor.status != Parsing && r.cursor.pos <= |input|
    ensures XmlText(r.chars)
    ensures r.cursor.status == AtEnd ==> tt == Plain || r.cursor.cur == EndChar(tt)
  {
    var c0 := Cursor(0, 0, Parsing);
    if |input| == 0 then Outcome(c0.(status := EndStatus(tt)), [])
    else DecodeFrom(d, tt, out, input, c0, [])
  }

  /**
   * `getEndOfTextPointer`: the read position moved back over the current
   * character, as the decoder measures it, but not before the start of the
   * text.
   */
  function TextEnd(d: CharDecoder, c: Cursor): (r: nat)
    requires IsScalar(c.cur)
    ensures r <= c.pos
    ensures c.pos >= |Encoded(d, c.cur)| ==> r + |Encoded(d, c.cur)| == c.pos
  {
    var n := MeasuredSize(d, c.cur).n;
    if c.pos >= n then c.pos - n else 0
  }

  /**
   * The reading half of the decoder: the octets from the start of the text
   * to the end of the input, the read position into them, the current
   * character and the state.
   */
  class Reader {
    const decoder: CharDecoder
    const input: seq<Byte>
    var pos: nat
    var currentChar: nat
    var status: DecodingType

    ghost predicate Valid()
      reads this
    {
      pos <= |input| && IsScalar(currentChar)
    }

    function State(): Cursor
      reads this
    {
      Cursor(pos, currentChar, status)
    }

    constructor(d: CharDecoder, text: seq<Byte>)
      ensures Valid() && decoder == d && input == text
      ensures State() == Cursor(0, 0, Parsing)
    {
      decoder := d;
      input := text;
      pos := 0;
      currentChar := 0;
      status := Parsing;
    }

    /** `nextChar`. */
    method NextChar() returns (ok: bool)
      requires Valid() && status == Parsing
      modifies this
      ensures Valid() && State() == ReadChar(decoder, input, old(State()))
      ensures ok == (status == Parsing)
    {
      if pos == |input| {
        status := IncompleteText;
        return false;
      }
      var r := ParseNext(decoder, input[pos..]);
      match r
      case Char(ch, n) =>
        currentChar := ch;
        pos := pos + n;
        return true;
      case Incomplete =>
        status := IncompleteText;
        return false;
      case Invalid =>
        status := Error;
        return false;
    }

    /** `nextAsciiChar`, with the one-octet version for UTF-8. */
    method NextAsciiChar() returns (ok: bool)
      requires Valid() && status == Parsing
      modifies this
      ensures Valid() && State() == ReadAsciiChar(decoder, input, old(State()))
      ensures ok == (status == Parsing)
    {
      if decoder.Utf8? {
        if pos == |input| {
          status := IncompleteText;
          return false;
        }
        if !Utf8Codec.IsAscii(input[pos]) {
          status := Error;
          return false;
        }
        currentChar := input[pos];
        pos := pos + 1;
        return true;
      }
      ok := NextChar();
      if !ok {
        return false;
      }
      if currentChar > 0x7F {
        status := Error;
        return false;
      }
      return true;
    }

    /** `handleHexCharRef`, with the hexadecimal limit of the corrected source. */
    method HandleHexCharRef() returns (ok: bool, value: nat)
      requires Valid() && status == Parsing && currentChar < 0x80
      modifies this
      ensures Valid()
      ensures var r := ReadHexRef(decoder, input, old(State()), HexCountLimit, 0, 0);
        State() == r.cursor && ok == (status == Parsing) && (ok ==> value == r.value)
    {
      ghost var goal := ReadHexRef(decoder, input, State(), HexCountLimit, 0, 0);
      var cnt: nat := 0;
      var tmpCodePoint: nat := 0;
      while true
        invariant Valid() && status == Parsing && currentChar < 0x80
        invariant ReadHexRef(decoder, input, State(), HexCountLimit, cnt, tmpCodePoint) == goal
        decreases |input| - pos
      {
        cnt := cnt + 1;
        if cnt > HexCountLimit {
          status := Error;
          return false, tmpCodePoint;
        }
        var digit := HexValue(currentChar);
        if digit.None? {
          if cnt == 1 {
            status := Error;
            return false, tmpCodePoint;
          }
          return true, tmpCodePoint;
        }
        tmpCodePoint := tmpCodePoint * 16 + digit.value;
        ok := NextAsciiChar();
        if !ok {
          return false, tmpCodePoint;
        }
      }
    }

    /**
     * One pass of the loop of `handleDecCharRef`, the current character
     * being a digit: count it, refuse an eighth digit, accumulate it and read
     * the next character.
     */
    method DecDigit(cnt: nat, acc: nat) returns (ok: bool, cnt': nat, acc': nat)
      requires Valid() && status == Parsing && currentChar < 0x80 && DecValue(currentChar).Some?
      modifies this
      ensures Valid() && cnt' == cnt + 1 && (ok ==> old(pos) < pos)
      ensures ok == (status == Parsing) && (ok ==> currentChar < 0x80)
      ensures ReadDecRef(decoder, input, old(State()), cnt, acc) ==
        if ok then ReadDecRef(decoder, input, State(), cnt', acc') else Ref(State(), acc')
    {
      DecRefStep(decoder, input, State(), cnt, acc);
      cnt' := cnt + 1;
      acc' := acc;
      if cnt' > DecCountLimit {
        status := Error;
        return false, cnt', acc';
      }
      acc' := acc * 10 + DecValue(currentChar).value;
      ok := NextAsciiChar();
    }

    /** `handleDecCharRef`. */
    method HandleDecCharRef() returns (ok: bool, value: nat)
      requires Valid() && status == Parsing && currentChar < 0x80
      modifies this
      ensures Valid()
      ensures var r := ReadDecRef(decoder, input, old(State()), 0, 0);
        State() == r.cursor && ok == (status == Parsing) && (ok ==> value == r.value)
    {
      ghost var goal := ReadDecRef(decoder, input, State(), 0, 0);
      var cnt: nat := 0;
      var tmpCodePoint: nat := 0;
      while DecValue(currentChar).Some?
        invariant Valid() && currentChar < 0x80
        invariant status == Parsing
        invariant ReadDecRef(decoder, input, State(), cnt, tmpCodePoint) == goal
        decreases |input| - pos
      {
        ok, cnt, tmpCodePoint := DecDigit(cnt, tmpCodePoint);
        if !ok {
          return false, tmpCodePoint;
        }
      }
      DecRefStep(decoder, input, State(), cnt, tmpCodePoint);
      if cnt == 0 {
        status := Error;
        return false, tmpCodePoint;
      }
      return true, tmpCodePoint;
    }

    /** `handleEntityRef`: the five predefined names, letter by letter. */
    method HandleEntityRef() returns (ok: bool, value: nat)
      requires Valid() && status == Parsing
      modifies this
      ensures Valid()
      ensures var r := ReadEntityRef(decoder, input, old(State()));
        State() == r.cursor && ok == (status == Parsing) && (ok ==> value == r.value)
    {
      value := 0;
      var found := false;
      if currentChar == 'a' as nat {
        ok := NextAsciiChar();
        if !ok { return; }
        if currentChar == 'm' as nat {
          ok := NextAsciiChar();
          if !ok { return; }
          if currentChar == 'p' as nat {
            ok := NextAsciiChar();
            if !ok { return; }
            value, found := Ampersand, true;
          }
        } else if currentChar == 'p' as nat {
          ok := NextAsciiChar();
          if !ok { return; }
          if currentChar == 'o' as nat {
            ok := NextAsciiChar();
            if !ok { return; }
            if currentChar == 's' as nat {
              ok := NextAsciiChar();
              if !ok { return; }
              value, found := Apostrophe, true;
            }
          }
        }
      } else if currentChar == 'g' as nat {
        ok := NextAsciiChar();
        if !ok { return; }
        if currentChar == 't' as nat {
          ok := NextAsciiChar();
          if !ok { return; }
          value, found := '>' as nat, true;
        }
      } else if currentChar == 'l' as nat {
        ok := NextAsciiChar();
        if !ok { return; }
        if currentChar == 't' as nat {
          ok := NextAsciiChar();
          if !ok { return; }
          value, found := LessThan, true;
        }
      } else if currentChar == 'q' as nat {
        ok := NextAsciiChar();
        if !ok { return; }
        if currentChar == 'u' as nat {
          ok := NextAsciiChar();
          if !ok { return; }
          if currentChar == 'o' as nat {
            ok := NextAsciiChar();
            if !ok { return; }
            if currentChar == 't' as nat {
              ok := NextAsciiChar();
              if !ok { return; }
              value, found := Quote, true;
            }
          }
        }
      }
      if !found {
        status := Error;
        return false, 0;
      }
      return true, value;
    }

    /** `handleEntity`: the current character is `&`. */
    method HandleEntity() returns (ok: bool, value: nat)
      requires Valid() && status == Parsing
      modifies this
      ensures Valid()
      ensures var r := ReadReference(decoder, input, old(State()), HexCountLimit);
        State() == r.cursor && ok == (status == Parsing) && (ok ==> value == r.value)
    {
      value := 0;
      ok := NextAsciiChar();
      if !ok { return; }
      if currentChar == Hash {
        ok := NextAsciiChar();
        if !ok { return; }
        if currentChar == LowerX {
          ok := NextAsciiChar();
          if !ok { return; }
          ok, value := HandleHexCharRef();
        } else {
          ok, value := HandleDecCharRef();
        }
      } else {
        ok, value := HandleEntityRef();
      }
      if !ok { return; }
      if currentChar != Semicolon {
        status := Error;
        return false, value;
      }
    }

    /** `checkForEndChar`. */
    method CheckForEndChar(tt: TextType)
      requires Valid() && status == Parsing
      modifies this
      ensures Valid() && State() == CheckEnd(tt, old(State()))
    {
      match tt
      case Plain =>
      case AttValueApos | AttValueQuote =>
        var attributeChar := if tt == AttValueApos then Apostrophe else Quote;
        if currentChar == attributeChar {
          status := AtEnd;
        } else if currentChar == LessThan {
          status := Error;
        }
      case CharData =>
        if currentChar == LessThan {
          status := AtEnd;
        }
    }

    /** `getEndOfTextPointer`. */
    function EndOfText(): (r: nat)
      reads this
      requires Valid()
      ensures r <= pos
    {
      TextEnd(decoder, State())
    }
  }

  /** Zero octets, as `std::vector::resize` appends them. */
  function Zeros(n: nat): (r: seq<Byte>)
    ensures |r| == n && forall i | 0 <= i < n :: r[i] == 0
  {
    seq(n, _ => 0)
  }

  /** With four octets of room the newer encoder never runs short. */
  lemma GrowingRoom(chr: nat, room: nat, written: nat)
    requires 4 <= room
    ensures Utf8Codec.EncodeResult(chr, true, room) == WriteResult(Growing, written, chr)
  {
  }

  lemma SpliceFront(s: seq<Byte>, p: seq<Byte>, b: seq<Byte>, q: seq<Byte>)
    requires s == p + b + q
    ensures s[..|p| + |b|] == p + b
  {
  }

  /** A `std::vector<char>`: its storage may move when it is resized. */
  class CharVector {
    var data: array<Byte>

    constructor(contents: seq<Byte>)
      ensures data[..] == contents && fresh(data)
    {
      data := new Byte[|contents|](i requires 0 <= i < |contents| => contents[i]);
    }

    /** `resize`: keeps the first `n` octets, or appends zero octets up to `n`. */
    method Resize(n: nat)
      modifies this
      ensures fresh(data)
      ensures data[..] == if n <= old(data.Length) then old(data[..])[..n] else old(data[..]) + Zeros(n - old(data.Length))
    {
      var a := new Byte[n](_ => 0);
      var src := data;
      var k := if n <= src.Length then n else src.Length;
      var i := 0;
      while i < k
        invariant 0 <= i <= k
        invariant a[..i] == src[..i]
        invariant forall j | i <= j < n :: a[j] == 0
      {
        a[i] := src[i];
        i := i + 1;
      }
      assert a[..] == a[..k] + a[k..];
      assert a[k..] == Zeros(n - k);
      assert src[..][..k] == src[..k];
      data := a;
    }
  }

  /**
   * The decoder of the serialisation library: it writes the decoded text
   * into the caller's vector from its start, grows the vector by fifty
   * octets whenever fewer than four are left, and cuts it to the octets
   * written when it stops at the end of the text.
   */
  class TextDecodingHelper {
    const reader: Reader
    const textType: TextType
    const buffer: CharVector
    var writePos: nat
    ghost var chars: seq<nat>

    ghost predicate Valid()
      reads this, reader, buffer, buffer.data
    {
      reader.Valid() && XmlText(chars) && writePos <= buffer.data.Length &&
      buffer.data[..writePos] == Utf8Text(chars)
    }

    constructor(decodedTextBuffer: CharVector, tt: TextType, d: CharDecoder, text: seq<Byte>)
      ensures Valid() && fresh(reader)
      ensures buffer == decodedTextBuffer && textType == tt
      ensures reader.decoder == d && reader.input == text && reader.State() == Cursor(0, 0, Parsing)
      ensures writePos == 0 && chars == []
    {
      reader := new Reader(d, text);
      textType := tt;
      buffer := decodedTextBuffer;
      writePos := 0;
      chars := [];
    }

    /** The first step of `writeChar`: grow the vector by fifty octets when fewer than four are left. */
    method EnsureSpareSpace()
      requires Valid()
      modifies buffer
      ensures Valid() && buffer.data.Length - writePos >= 4
      ensures buffer.data == old(buffer.data) || fresh(buffer.data)
    {
      if buffer.data.Length - writePos < 4 {
        buffer.Resize(buffer.data.Length + 50);
        assert buffer.data[..writePos] == old(buffer.data[..])[..writePos];
      }
    }

    /** The second step of `writeChar`: the newer encoder writes at the write pointer. */
    method EncodeAtWritePointer(chr: nat) returns (r: ParseResult)
      requires Valid() && buffer.data.Length - writePos >= 4
      modifies buffer.data
      ensures Valid()
      ensures r == WriteResult(Growing, writePos, chr)
      ensures r.Size? ==> writePos + r.n <= buffer.data.Length && buffer.data[..writePos + r.n] == Utf8Text(chars) + Utf8Bytes(chr)
    {
      ghost var before := buffer.data[..];
      r := Utf8Codec.EncodeChar(chr, buffer.data, writePos, buffer.data.Length);
      GrowingRoom(chr, buffer.data.Length - writePos, writePos);
      if r.Size? {
        SpliceFront(buffer.data[..], before[..writePos], Utf8Bytes(chr), before[writePos + r.n..]);
        assert buffer.data[..writePos] == before[..writePos];
      }
    }

    /** The last step of `writeChar`: move the write pointer past the octets of `chr`. */
    method Advance(chr: nat, n: nat)
      requires Valid() && IsValidXmlChar(chr) && IsScalar(chr)
      requires writePos + n <= buffer.data.Length && buffer.data[..writePos + n] == Utf8Text(chars) + Utf8Bytes(chr)
      modifies this
      ensures Valid()
      ensures writePos == old(writePos) + n && chars == old(chars) + [chr]
    {
      XmlTextAppend(chars, chr);
      writePos := writePos + n;
      chars := chars + [chr];
    }

    /** `writeChar`: grow the buffer when fewer than four octets are left, then encode. */
    method WriteChar(chr: nat) returns (ok: bool)
      requires Valid() && reader.status == Parsing && IsValidXmlChar(chr)
      modifies this, reader, buffer, buffer.data
      ensures Valid()
      ensures buffer.data == old(buffer.data) || fresh(buffer.data)
      ensures reader.pos == old(reader.pos) && reader.currentChar == old(reader.currentChar)
      ensures var w := WriteResult(Growing, old(writePos), chr);
        ok == w.Size? &&
        (ok ==> reader.status == Parsing && chars == old(chars) + [chr]) &&
        (!ok ==> chars == old(chars) && reader.status == Error)
    {
      EnsureSpareSpace();
      var r := EncodeAtWritePointer(chr);
      if IsError(r) {
        // four octets are always left, so of the source's two error cases only the invalid character remains
        assert r == InvalidCharacter;
        reader.status := Error;
        return false;
      }
      Advance(chr, r.n);
      return true;
    }

    /**
     * One pass of the loop of `decodeText`, up to where the source returns
     * (`early`) or goes round again; DecodeFrom of the state before it is
     * DecodeFrom of the state after it, or the outcome when it stopped.
     */
    method DecodePass() returns (early: bool)
      requires Valid() && reader.status == Parsing && reader.pos < |reader.input|
      modifies this, reader, buffer, buffer.data
      ensures Valid()
      ensures buffer.data == old(buffer.data) || fresh(buffer.data)
      ensures reader.status == Parsing ==> old(reader.pos) < reader.pos < |reader.input|
      ensures DecodeFrom(reader.decoder, textType, Growing, reader.input, old(reader.State()), old(chars)) ==
        if reader.status == Parsing then DecodeFrom(reader.decoder, textType, Growing, reader.input, reader.State(), chars)
        else Outcome(reader.State(), chars)
      ensures !early ==> old(reader.pos) < reader.pos
      ensures early ==> reader.status != Parsing
      ensures !early ==> reader.status == Parsing || reader.status == EndStatus(textType)
    {
      var d, input := reader.decoder, reader.input;
      ghost var c := reader.State();
      var ok := reader.NextChar();
      if !ok {
        return true;
      }
      ghost var c1 := reader.State();
      reader.CheckForEndChar(textType);
      if reader.status != Parsing {
        return true;
      }
      ghost var c2 := reader.State();
      assert c2 == CheckEnd(textType, c1) && c1 == ReadChar(d, input, c);
      var chr;
      if reader.currentChar == Ampersand {
        ok, chr := reader.HandleEntity();
        if !ok {
          return true;
        }
      } else {
        chr := reader.currentChar;
      }
      ghost var e := if c2.cur == Ampersand then ReadReference(d, input, c2, HexCountLimit) else Ref(c2, c2.cur);
      assert reader.State() == e.cursor && chr == e.value;
      early := EmitChar(chr);
    }

    /**
     * The end of a pass of the loop of `decodeText`, the character `chr`
     * being read: refuse it outside the Char production, write it, and stop
     * at the end of the input. Emit of the state before it is DecodeFrom of
     * the state after it, or the outcome when it stopped.
     */
    method EmitChar(chr: nat) returns (early: bool)
      requires Valid() && reader.status == Parsing
      modifies this, reader, buffer, buffer.data
      ensures Valid()
      ensures buffer.data == old(buffer.data) || fresh(buffer.data)
      ensures reader.status == Parsing ==> reader.pos == old(reader.pos) < |reader.input|
      ensures Emit(reader.decoder, textType, Growing, reader.input, old(reader.State()), chr, old(chars)) ==
        if reader.status == Parsing then DecodeFrom(reader.decoder, textType, Growing, reader.input, reader.State(), chars)
        else Outcome(reader.State(), chars)
      ensures reader.pos == old(reader.pos)
      ensures early ==> reader.status != Parsing
      ensures !early ==> reader.status == Parsing || reader.status == EndStatus(textType)
    {
      if !IsValidXmlChar(chr) {
        reader.status := Error;
        return true;
      }
      var ok := WriteChar(chr);
      if !ok {
        return true;
      }
      if reader.pos == |reader.input| {
        reader.status := EndStatus(textType);
      }
      return false;
    }

    /**
     * `decodeText`: the state, read position, current character and
     * written characters are those of DecodedText with a growing buffer;
     * the vector starts with the UTF-8 of the written characters, and after
     * a success holds exactly them.
     */
    method DecodeText() returns (ok: bool)
      requires Valid() && reader.State() == Cursor(0, 0, Parsing) && writePos == 0 && chars == []
      modifies this, reader, buffer, buffer.data
      ensures Valid()
      ensures var r := DecodedText(reader.decoder, textType, Growing, reader.input);
        reader.State() == r.cursor && chars == r.chars && ok == (r.cursor.status == AtEnd)
      ensures |Utf8Text(chars)| <= buffer.data.Length && buffer.data[..|Utf8Text(chars)|] == Utf8Text(chars)
      ensures ok ==> buffer.data[..] == Utf8Text(chars)
    {
      var d, input := reader.decoder, reader.input;
      if reader.pos == |input| {
        reader.status := EndStatus(textType);
      }
      while reader.status == Parsing
        invariant Valid()
        invariant buffer.data == old(buffer.data) || fresh(buffer.data)
        invariant reader.status == Parsing ==> reader.pos < |input|
        invariant DecodedText(d, textType, Growing, input) ==
          if reader.status == Parsing then DecodeFrom(d, textType, Growing, input, reader.State(), chars)
          else Outcome(reader.State(), chars)
        decreases |input| - reader.pos
      {
        var early := DecodePass();
        if early {
          if reader.status == AtEnd {
            buffer.Resize(writePos);
            return true;
          }
          return false;
        }
      }
      buffer.Resize(writePos);
      return reader.status == AtEnd;
    }
  }
}
