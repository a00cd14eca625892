/**
 * What the text decoder computes, stated for the pieces a text is made
 * of. Every predefined entity and every well-formed hexadecimal or
 * decimal character reference is read, from its encoding, as the
 * character it denotes, and a reference that departs from the grammar is
 * an error; the hexadecimal limit as the source writes it rejects the six
 * digits of U+10FFFF, the corrected one reads them. A text made only of
 * literal characters (no reference and no end character), encoded with
 * the decoder's own encoding, decodes into a growing buffer or a
 * counting pass as exactly those characters, stopping at the end of the
 * input in the state EndStatus gives. Texts that mix literals and
 * references, and buffers of fixed size, are not covered here.
 */
module TextDecodingProofs {
  import opened Common
  import opened Unicode
  import opened CharDecoders
  import opened XmlHelper
  import opened TextDecoding

  ghost predicate Scalars(chars: seq<nat>)
  {
    forall i | 0 <= i < |chars| :: IsScalar(chars[i])
  }

  /** The octets of a sequence of scalar values in the decoder's encoding, one after the other. */
  function EncodedText(d: CharDecoder, chars: seq<nat>): (r: seq<Byte>)
    requires Scalars(chars)
    ensures |r| >= |chars|
  {
    if chars == [] then [] else Encoded(d, chars[0]) + EncodedText(d, chars[1..])
  }

  lemma Behind(input: seq<Byte>, pos: nat, e: seq<Byte>, tail: seq<Byte>)
    requires pos <= |input| && input[pos..] == e + tail
    ensures pos + |e| <= |input| && input[pos + |e|..] == tail
  {
    assert input[pos + |e|..] == input[pos..][|e|..];
  }

  /** The decoder reads a scalar value back from its encoding, whatever follows it. */
  lemma ReadCharAt(d: CharDecoder, input: seq<Byte>, c: Cursor, ch: nat, tail: seq<Byte>)
    requires c.status == Parsing && c.pos <= |input| && IsScalar(ch)
    requires input[c.pos..] == Encoded(d, ch) + tail
    ensures ReadChar(d, input, c) == Cursor(c.pos + |Encoded(d, ch)|, ch, Parsing)
    ensures input[c.pos + |Encoded(d, ch)|..] == tail
  {
    Behind(input, c.pos, Encoded(d, ch), tail);
    DecodeEncoded(d, ch, tail);
  }

  lemma EncodedTextCons(d: CharDecoder, s: seq<nat>, rest: seq<Byte>)
    requires s != [] && Scalars(s)
    ensures EncodedText(d, s) + rest == Encoded(d, s[0]) + (EncodedText(d, s[1..]) + rest)
  {
  }

  /** The same for a character of a reference, which is ASCII, the first of a sequence of encoded scalar values. */
  lemma ReadAsciiEncoded(d: CharDecoder, input: seq<Byte>, c: Cursor, s: seq<nat>, rest: seq<Byte>)
    requires c.status == Parsing && c.pos <= |input| && s != [] && Scalars(s) && s[0] < 0x80
    requires input[c.pos..] == EncodedText(d, s) + rest
    ensures ReadAsciiChar(d, input, c) == Cursor(c.pos + |Encoded(d, s[0])|, s[0], Parsing)
    ensures input[c.pos + |Encoded(d, s[0])|..] == EncodedText(d, s[1..]) + rest
  {
    EncodedTextCons(d, s, rest);
    ReadCharAt(d, input, c, s[0], EncodedText(d, s[1..]) + rest);
    if d.Utf8? {
      assert input[c.pos] == input[c.pos..][0] == s[0];
    }
  }

  /**
   * The predefined entities of section 4.6 of XML 1.0, each read after the
   * `&` as the decoder meets them: the letters of the name, then the `;`;
   * the reference denotes the entity's character and the cursor stands on
   * the `;`.
   */
  lemma EntityAmpRead(d: CharDecoder, input: seq<Byte>, c0: Cursor, c1: Cursor, c2: Cursor, c3: Cursor, c4: Cursor, limit: nat)
    requires c0.status == Parsing && c0.pos <= |input|
    requires c1 == ReadAsciiChar(d, input, c0) && c1.status == Parsing && c1.cur == 'a' as nat
    requires c2 == ReadAsciiChar(d, input, c1) && c2.status == Parsing && c2.cur == 'm' as nat
    requires c3 == ReadAsciiChar(d, input, c2) && c3.status == Parsing && c3.cur == 'p' as nat
    requires c4 == ReadAsciiChar(d, input, c3) && c4.status == Parsing && c4.cur == Semicolon
    ensures ReadReference(d, input, c0, limit) == Ref(c4, Ampersand)
  {
  }

  lemma EntityAposRead(d: CharDecoder, input: seq<Byte>, c0: Cursor, c1: Cursor, c2: Cursor, c3: Cursor, c4: Cursor, c5: Cursor, limit: nat)
    requires c0.status == Parsing && c0.pos <= |input|
    requires c1 == ReadAsciiChar(d, input, c0) && c1.status == Parsing && c1.cur == 'a' as nat
    requires c2 == ReadAsciiChar(d, input, c1) && c2.status == Parsing && c2.cur == 'p' as nat
    requires c3 == ReadAsciiChar(d, input, c2) && c3.status == Parsing && c3.cur == 'o' as nat
    requires c4 == ReadAsciiChar(d, input, c3) && c4.status == Parsing && c4.cur == 's' as nat
    requires c5 == ReadAsciiChar(d, input, c4) && c5.status == Parsing && c5.cur == Semicolon
    ensures ReadReference(d, input, c0, limit) == Ref(c5, Apostrophe)
  {
  }

  lemma EntityGtRead(d: CharDecoder, input: seq<Byte>, c0: Cursor, c1: Cursor, c2: Cursor, c3: Cursor, limit: nat)
    requires c0.status == Parsing && c0.pos <= |input|
    requires c1 == ReadAsciiChar(d, input, c0) && c1.status == Parsing && c1.cur == 'g' as nat
    requires c2 == ReadAsciiChar(d, input, c1) && c2.status == Parsing && c2.cur == 't' as nat
    requires c3 == ReadAsciiChar(d, input, c2) && c3.status == Parsing && c3.cur == Semicolon
    ensures ReadReference(d, input, c0, limit) == Ref(c3, '>' as nat)
  {
  }

  lemma EntityLtRead(d: CharDecoder, input: seq<Byte>, c0: Cursor, c1: Cursor, c2: Cursor, c3: Cursor, limit: nat)
    requires c0.status == Parsing && c0.pos <= |input|
    requires c1 == ReadAsciiChar(d, input, c0) && c1.status == Parsing && c1.cur == 'l' as nat
    requires c2 == ReadAsciiChar(d, input, c1) && c2.status == Parsing && c2.cur == 't' as nat
    requires c3 == ReadAsciiChar(d, input, c2) && c3.status == Parsing && c3.cur == Semicolon
    ensures ReadReference(d, input, c0, limit) == Ref(c3, LessThan)
  {
  }

  lemma EntityQuotRead(d: CharDecoder, input: seq<Byte>, c0: Cursor, c1: Cursor, c2: Cursor, c3: Cursor, c4: Cursor, c5: Cursor, limit: nat)
    requires c0.status == Parsing && c0.pos <= |input|
    requires c1 == ReadAsciiChar(d, input, c0) && c1.status == Parsing && c1.cur == 'q' as nat
    requires c2 == ReadAsciiChar(d, input, c1) && c2.status == Parsing && c2.cur == 'u' as nat
    requires c3 == ReadAsciiChar(d, input, c2) && c3.status == Parsing && c3.cur == 'o' as nat
    requires c4 == ReadAsciiChar(d, input, c3) && c4.status == Parsing && c4.cur == 't' as nat
    requires c5 == ReadAsciiChar(d, input, c4) && c5.status == Parsing && c5.cur == Semicolon
    ensures ReadReference(d, input, c0, limit) == Ref(c5, Quote)
  {
  }

  ghost predicate HexDigits(ds: seq<nat>)
  {
    forall i | 0 <= i < |ds| :: ds[i] < 0x80 && HexValue(ds[i]).Some?
  }

  ghost predicate DecDigits(ds: seq<nat>)
  {
    forall i | 0 <= i < |ds| :: DecValue(ds[i]).Some?
  }

  /** The value that `handleHexCharRef` accumulates: shift in each digit in turn, starting from `acc`. */
  function HexFrom(acc: nat, ds: seq<nat>): nat
    requires HexDigits(ds)
    decreases |ds|
  {
    if ds == [] then acc else HexFrom(acc * 16 + HexValue(ds[0]).value, ds[1..])
  }

  /** The value that `handleDecCharRef` accumulates. */
  function DecFrom(acc: nat, ds: seq<nat>): nat
    requires DecDigits(ds)
    decreases |ds|
  {
    if ds == [] then acc else DecFrom(acc * 10 + DecValue(ds[0]).value, ds[1..])
  }

  /**
   * The cursor `c` stands on `s[0]`, and reading ASCII characters one at a
   * time from there meets the rest of `s`, in order.
   */
  ghost predicate Chain(d: CharDecoder, input: seq<Byte>, c: Cursor, s: seq<nat>)
    requires c.status == Parsing && c.pos <= |input|
    decreases |s|
  {
    s != [] && c.cur == s[0] &&
    (|s| > 1 ==>
      var c' := ReadAsciiChar(d, input, c);
      c'.status == Parsing && Chain(d, input, c', s[1..]))
  }

  /** The cursor on the last character of a chain. */
  ghost function ChainEnd(d: CharDecoder, input: seq<Byte>, c: Cursor, s: seq<nat>): (r: Cursor)
    requires c.status == Parsing && c.pos <= |input| && Chain(d, input, c, s)
    ensures r.status == Parsing && r.pos <= |input| && r.cur == s[|s| - 1]
    decreases |s|
  {
    if |s| == 1 then c else ChainEnd(d, input, ReadAsciiChar(d, input, c), s[1..])
  }

  /** Encoded ASCII characters after the cursor's own form a chain, which ends where the encoding does. */
  lemma {:induction false} EncodedChain(d: CharDecoder, input: seq<Byte>, c: Cursor, s: seq<nat>, rest: seq<Byte>)
    requires c.status == Parsing && c.pos <= |input| && s != [] && c.cur == s[0]
    requires forall i | 1 <= i < |s| :: s[i] < 0x80
    requires Scalars(s[1..]) && input[c.pos..] == EncodedText(d, s[1..]) + rest
    ensures Chain(d, input, c, s)
    ensures ChainEnd(d, input, c, s) == Cursor(|input| - |rest|, s[|s| - 1], Parsing)
    decreases |s|
  {
    if |s| == 1 {
      assert input[c.pos..] == rest;
    } else {
      ReadAsciiEncoded(d, input, c, s[1..], rest);
      EncodedChain(d, input, ReadAsciiChar(d, input, c), s[1..], rest);
    }
  }

  /** One digit of a hexadecimal reference within the limit: the reading goes on from the next character of the chain. */
  lemma HexChainStep(d: CharDecoder, input: seq<Byte>, c: Cursor, limit: nat, cnt: nat, acc: nat, ds: seq<nat>, t: nat)
    requires c.status == Parsing && c.pos <= |input| && cnt + 1 <= limit
    requires HexDigits(ds) && ds != [] && Chain(d, input, c, ds + [t])
    ensures var c' := ReadAsciiChar(d, input, c);
      c'.status == Parsing && Chain(d, input, c', ds[1..] + [t]) &&
      ChainEnd(d, input, c, ds + [t]) == ChainEnd(d, input, c', ds[1..] + [t]) &&
      ReadHexRef(d, input, c, limit, cnt, acc) == ReadHexRef(d, input, c', limit, cnt + 1, acc * 16 + HexValue(ds[0]).value) &&
      HexFrom(acc, ds) == HexFrom(acc * 16 + HexValue(ds[0]).value, ds[1..])
  {
    assert (ds + [t])[1..] == ds[1..] + [t] && c.cur == ds[0];
  }

  /** Where a hexadecimal reference stops without reading on: past the limit, or on a character that is not a digit. */
  lemma HexStop(d: CharDecoder, input: seq<Byte>, c: Cursor, limit: nat, cnt: nat, acc: nat)
    requires c.status == Parsing && c.pos <= |input| && c.cur < 0x80
    ensures cnt + 1 > limit ==> ReadHexRef(d, input, c, limit, cnt, acc) == Ref(c.(status := Error), acc)
    ensures cnt + 1 <= limit && HexValue(c.cur).None? ==>
      ReadHexRef(d, input, c, limit, cnt, acc) == if cnt == 0 then Ref(c.(status := Error), acc) else Ref(c, acc)
  {
  }

  /**
   * The digits of a hexadecimal reference, then the character that ends
   * them: the count of characters looked at, terminator included, must not
   * pass `limit`, and there must be a digit; otherwise it is an error,
   * never an incomplete text. A reference within the limit has the value
   * of its digits and stops on the terminator.
   */
  lemma {:induction false} HexDigitsRead(d: CharDecoder, input: seq<Byte>, c: Cursor, limit: nat, cnt: nat, acc: nat, ds: seq<nat>, t: nat)
    requires c.status == Parsing && c.pos <= |input|
    requires HexDigits(ds) && t < 0x80 && HexValue(t).None?
    requires Chain(d, input, c, ds + [t])
    ensures ReadHexRef(d, input, c, limit, cnt, acc).cursor.status == if 0 < cnt + |ds| && cnt + |ds| + 1 <= limit then Parsing else Error
    ensures 0 < cnt + |ds| && cnt + |ds| + 1 <= limit ==> ReadHexRef(d, input, c, limit, cnt, acc) == Ref(ChainEnd(d, input, c, ds + [t]), HexFrom(acc, ds))
    decreases |ds|
  {
    if cnt + 1 > limit {
      HexStop(d, input, c, limit, cnt, acc);
    } else if ds == [] {
      assert c.cur == t && ChainEnd(d, input, c, ds + [t]) == c;
      HexStop(d, input, c, limit, cnt, acc);
    } else {
      HexChainStep(d, input, c, limit, cnt, acc, ds, t);
      HexDigitsRead(d, input, ReadAsciiChar(d, input, c), limit, cnt + 1, acc * 16 + HexValue(ds[0]).value, ds[1..], t);
    }
  }

  /** One digit of a decimal reference within the limit: the reading goes on from the next character of the chain. */
  lemma DecChainStep(d: CharDecoder, input: seq<Byte>, c: Cursor, cnt: nat, acc: nat, ds: seq<nat>, t: nat)
    requires c.status == Parsing && c.pos <= |input| && cnt + 1 <= DecCountLimit
    requires DecDigits(ds) && ds != [] && Chain(d, input, c, ds + [t])
    ensures var c' := ReadAsciiChar(d, input, c);
      c'.status == Parsing && Chain(d, input, c', ds[1..] + [t]) &&
      ChainEnd(d, input, c, ds + [t]) == ChainEnd(d, input, c', ds[1..] + [t]) &&
      ReadDecRef(d, input, c, cnt, acc) == ReadDecRef(d, input, c', cnt + 1, acc * 10 + DecValue(ds[0]).value) &&
      DecFrom(acc, ds) == DecFrom(acc * 10 + DecValue(ds[0]).value, ds[1..])
  {
    assert (ds + [t])[1..] == ds[1..] + [t] && c.cur == ds[0];
    DecRefStep(d, input, c, cnt, acc);
  }

  /**
   * The same for a decimal reference: here only the digits are counted,
   * at most `DecCountLimit` of them, and there must be one.
   */
  lemma {:induction false} DecDigitsRead(d: CharDecoder, input: seq<Byte>, c: Cursor, cnt: nat, acc: nat, ds: seq<nat>, t: nat)
    requires c.status == Parsing && c.pos <= |input| && cnt <= DecCountLimit
    requires DecDigits(ds) && t < 0x80 && DecValue(t).None?
    requires Chain(d, input, c, ds + [t])
    ensures ReadDecRef(d, input, c, cnt, acc).cursor.status == if 0 < cnt + |ds| <= DecCountLimit then Parsing else Error
    ensures 0 < cnt + |ds| <= DecCountLimit ==> ReadDecRef(d, input, c, cnt, acc) == Ref(ChainEnd(d, input, c, ds + [t]), DecFrom(acc, ds))
    decreases |ds|
  {
    if ds == [] {
      assert c.cur == t && ChainEnd(d, input, c, ds + [t]) == c;
      DecRefStep(d, input, c, cnt, acc);
    } else if cnt + 1 > DecCountLimit {
      assert c.cur == ds[0];
      DecRefStep(d, input, c, cnt, acc);
    } else {
      DecChainStep(d, input, c, cnt, acc, ds, t);
      DecDigitsRead(d, input, ReadAsciiChar(d, input, c), cnt + 1, acc * 10 + DecValue(ds[0]).value, ds[1..], t);
    }
  }

  /** After `&#` and a character other than `x`, the reference is the decimal one, which must end on `;`. */
  lemma DecimalAfterHash(d: CharDecoder, input: seq<Byte>, c0: Cursor, c1: Cursor, c2: Cursor, limit: nat)
    requires c0.status == Parsing && c0.pos <= |input|
    requires c1 == ReadAsciiChar(d, input, c0) && c1.status == Parsing && c1.cur == Hash
    requires c2 == ReadAsciiChar(d, input, c1) && c2.status == Parsing && c2.cur != LowerX
    ensures var r := ReadDecRef(d, input, c2, 0, 0);
      ReadReference(d, input, c0, limit) ==
        if r.cursor.status == Parsing && r.cursor.cur != Semicolon then Ref(r.cursor.(status := Error), r.value) else r
  {
  }

  /** After `&#x`, the reference is the hexadecimal one, which must end on `;`. */
  lemma HexadecimalAfterHash(d: CharDecoder, input: seq<Byte>, c0: Cursor, c1: Cursor, c2: Cursor, c3: Cursor, limit: nat)
    requires c0.status == Parsing && c0.pos <= |input|
    requires c1 == ReadAsciiChar(d, input, c0) && c1.status == Parsing && c1.cur == Hash
    requires c2 == ReadAsciiChar(d, input, c1) && c2.status == Parsing && c2.cur == LowerX
    requires c3 == ReadAsciiChar(d, input, c2) && c3.status == Parsing
    ensures var r := ReadHexRef(d, input, c3, limit, 0, 0);
      ReadReference(d, input, c0, limit) ==
        if r.cursor.status == Parsing && r.cursor.cur != Semicolon then Ref(r.cursor.(status := Error), r.value) else r
  {
  }

  /** A chain goes on from the cursor after its first character, and ends where it did. */
  lemma ChainNext(d: CharDecoder, input: seq<Byte>, c: Cursor, s: seq<nat>)
    requires c.status == Parsing && c.pos <= |input| && Chain(d, input, c, s) && |s| > 1
    ensures var c' := ReadAsciiChar(d, input, c);
      c'.status == Parsing && Chain(d, input, c', s[1..]) && ChainEnd(d, input, c, s) == ChainEnd(d, input, c', s[1..])
  {
  }

  /**
   * A whole hexadecimal character reference after the `&`: `#x`, the
   * digits, then a character that is not a digit. It denotes the value of
   * the digits exactly when that character is `;`, there is a digit, and
   * the digits and the `;` together stay within `limit`; in every other
   * case it is an error, never an incomplete text.
   */
  lemma HexReference(d: CharDecoder, input: seq<Byte>, c: Cursor, c1: Cursor, c2: Cursor, c3: Cursor, limit: nat, ds: seq<nat>, t: nat)
    requires c.status == Parsing && c.pos <= |input|
    requires c1 == ReadAsciiChar(d, input, c) && c1.status == Parsing && c1.cur == Hash
    requires c2 == ReadAsciiChar(d, input, c1) && c2.status == Parsing && c2.cur == LowerX
    requires c3 == ReadAsciiChar(d, input, c2) && c3.status == Parsing
    requires HexDigits(ds) && t < 0x80 && HexValue(t).None? && Chain(d, input, c3, ds + [t])
    ensures var r := ReadReference(d, input, c, limit);
      (r.cursor.status == Parsing <==> t == Semicolon && 0 < |ds| && |ds| + 1 <= limit) &&
      (r.cursor.status == Parsing || r.cursor.status == Error) &&
      (r.cursor.status == Parsing ==> r == Ref(ChainEnd(d, input, c3, ds + [t]), HexFrom(0, ds)))
  {
    HexadecimalAfterHash(d, input, c, c1, c2, c3, limit);
    HexDigitsRead(d, input, c3, limit, 0, 0, ds, t);
  }

  /**
   * A whole decimal character reference after the `&`: `#`, the digits,
   * then a character that is not a digit (the `x` of a hexadecimal
   * reference excluded). It denotes the value of the digits exactly when
   * that character is `;` and there are one to `DecCountLimit` digits; in
   * every other case it is an error.
   */
  lemma DecReference(d: CharDecoder, input: seq<Byte>, c: Cursor, c1: Cursor, c2: Cursor, limit: nat, ds: seq<nat>, t: nat)
    requires c.status == Parsing && c.pos <= |input|
    requires c1 == ReadAsciiChar(d, input, c) && c1.status == Parsing && c1.cur == Hash
    requires c2 == ReadAsciiChar(d, input, c1) && c2.status == Parsing && c2.cur != LowerX
    requires DecDigits(ds) && t < 0x80 && DecValue(t).None? && Chain(d, input, c2, ds + [t])
    ensures var r := ReadReference(d, input, c, limit);
      (r.cursor.status == Parsing <==> t == Semicolon && 0 < |ds| <= DecCountLimit) &&
      (r.cursor.status == Parsing || r.cursor.status == Error) &&
      (r.cursor.status == Parsing ==> r == Ref(ChainEnd(d, input, c2, ds + [t]), DecFrom(0, ds)))
  {
    DecimalAfterHash(d, input, c, c1, c2, limit);
    DecDigitsRead(d, input, c2, 0, 0, ds, t);
  }

  /** The six hexadecimal digits of the largest code point, U+10FFFF. */
  const MaxHexDigits: seq<nat> := ['1' as nat, '0' as nat, 'F' as nat, 'F' as nat, 'F' as nat, 'F' as nat]

  lemma MaxHexValue()
    ensures HexDigits(MaxHexDigits)
    ensures HexFrom(0, MaxHexDigits) == 0x10FFFF
  {
    var ds := MaxHexDigits;
    assert HexFrom(0x10FFF, ds[5..]) == 0x10FFFF;
    assert HexFrom(0x10FF, ds[4..]) == 0x10FFFF;
    assert HexFrom(0x10F, ds[3..]) == 0x10FFFF;
    assert HexFrom(0x10, ds[2..]) == 0x10FFFF;
    assert HexFrom(0x1, ds[1..]) == 0x10FFFF;
  }

  /**
   * With the limit the source writes, `&#x10FFFF;` is an error although it
   * denotes a character that XML allows; with the limit it evidently
   * intends, the same reference denotes U+10FFFF.
   */
  lemma HexLimitAsWritten(d: CharDecoder, input: seq<Byte>, c: Cursor, c1: Cursor, c2: Cursor, c3: Cursor)
    requires c.status == Parsing && c.pos <= |input|
    requires c1 == ReadAsciiChar(d, input, c) && c1.status == Parsing && c1.cur == Hash
    requires c2 == ReadAsciiChar(d, input, c1) && c2.status == Parsing && c2.cur == LowerX
    requires c3 == ReadAsciiChar(d, input, c2) && c3.status == Parsing
    requires Chain(d, input, c3, MaxHexDigits + [Semicolon])
    ensures IsValidXmlChar(0x10FFFF)
    ensures ReadReference(d, input, c, HexCountLimitAsWritten).cursor.status == Error
    ensures ReadReference(d, input, c, HexCountLimit) == Ref(ChainEnd(d, input, c3, MaxHexDigits + [Semicolon]), 0x10FFFF)
  {
    MaxHexValue();
    HexReference(d, input, c, c1, c2, c3, HexCountLimitAsWritten, MaxHexDigits, Semicolon);
    HexReference(d, input, c, c1, c2, c3, HexCountLimit, MaxHexDigits, Semicolon);
  }

  /** With the corrected limit, every reference of one to six hexadecimal digits ending on `;` is read, with the value of its digits. */
  lemma HexLimitCorrected(d: CharDecoder, input: seq<Byte>, c: Cursor, c1: Cursor, c2: Cursor, c3: Cursor, ds: seq<nat>)
    requires c.status == Parsing && c.pos <= |input|
    requires c1 == ReadAsciiChar(d, input, c) && c1.status == Parsing && c1.cur == Hash
    requires c2 == ReadAsciiChar(d, input, c1) && c2.status == Parsing && c2.cur == LowerX
    requires c3 == ReadAsciiChar(d, input, c2) && c3.status == Parsing
    requires HexDigits(ds) && 0 < |ds| <= 6 && Chain(d, input, c3, ds + [Semicolon])
    ensures ReadReference(d, input, c, HexCountLimit) == Ref(ChainEnd(d, input, c3, ds + [Semicolon]), HexFrom(0, ds))
  {
    HexReference(d, input, c, c1, c2, c3, HexCountLimit, ds, Semicolon);
  }

  /**
   * A character that stands for itself in a text of type `tt`: a legal XML
   * character that starts no reference and does not end the text.
   */
  ghost predicate Literal(tt: TextType, ch: nat)
  {
    IsCharProduction(ch) && ch != Ampersand &&
    (tt == CharData ==> ch != LessThan) &&
    (tt == AttValueQuote ==> ch != LessThan && ch != Quote) &&
    (tt == AttValueApos ==> ch != LessThan && ch != Apostrophe)
  }

  ghost predicate Literals(tt: TextType, s: seq<nat>)
  {
    forall i | 0 <= i < |s| :: Literal(tt, s[i])
  }

  /**
   * Reading characters from the cursor `c` meets the characters of `s` in
   * order, and the input ends after the last of them.
   */
  ghost predicate Reads(d: CharDecoder, input: seq<Byte>, c: Cursor, s: seq<nat>)
    requires c.status == Parsing && c.pos <= |input|
    decreases |s|
  {
    if s == [] then c.pos == |input|
    else
      var c1 := ReadChar(d, input, c);
      c1.status == Parsing && c1.cur == s[0] && Reads(d, input, c1, s[1..])
  }

  /** The encoding of scalar values reads back as those values. */
  lemma {:induction false} EncodedReads(d: CharDecoder, input: seq<Byte>, c: Cursor, s: seq<nat>)
    requires c.status == Parsing && c.pos <= |input| && Scalars(s)
    requires input[c.pos..] == EncodedText(d, s)
    ensures Reads(d, input, c, s)
    decreases |s|
  {
    if s != [] {
      EncodedTextCons(d, s, []);
      assert EncodedText(d, s[1..]) + [] == EncodedText(d, s[1..]);
      ReadCharAt(d, input, c, s[0], EncodedText(d, s[1..]));
      EncodedReads(d, input, ReadChar(d, input, c), s[1..]);
    }
  }

  /**
   * One pass over a literal, when the buffer grows or the pass only
   * counts: the literal is written, and the text ends when the input does.
   */
  lemma LiteralStep(d: CharDecoder, tt: TextType, out: Output, input: seq<Byte>, c: Cursor, chars: seq<nat>)
    requires !out.Fixed? && c.status == Parsing && c.pos < |input| && XmlText(chars)
    requires var c1 := ReadChar(d, input, c); c1.status == Parsing && Literal(tt, c1.cur)
    ensures var c1 := ReadChar(d, input, c);
      XmlText(chars + [c1.cur]) &&
      DecodeFrom(d, tt, out, input, c, chars) ==
        if c1.pos == |input| then Outcome(c1.(status := EndStatus(tt)), chars + [c1.cur])
        else DecodeFrom(d, tt, out, input, c1, chars + [c1.cur])
  {
    var c1 := ReadChar(d, input, c);
    XmlTextAppend(chars, c1.cur);
  }

  lemma AppendFirst(chars: seq<nat>, s: seq<nat>)
    requires s != []
    ensures (chars + [s[0]]) + s[1..] == chars + s
  {
    assert s == [s[0]] + s[1..];
  }

  /**
   * Decoding characters that read as literals gives them back, after the
   * characters already decoded; the text then ends with the input, which is
   * success only for plain text.
   */
  lemma {:induction false} DecodeLiterals(d: CharDecoder, tt: TextType, out: Output, input: seq<Byte>, c: Cursor, chars: seq<nat>, s: seq<nat>)
    requires !out.Fixed? && c.status == Parsing && c.pos <= |input| && XmlText(chars)
    requires s != [] && Literals(tt, s) && Reads(d, input, c, s)
    ensures c.pos < |input|
    ensures DecodeFrom(d, tt, out, input, c, chars) == Outcome(Cursor(|input|, s[|s| - 1], EndStatus(tt)), chars + s)
    decreases |s|
  {
    var c1 := ReadChar(d, input, c);
    LiteralStep(d, tt, out, input, c, chars);
    if |s| == 1 {
      assert c1.pos == |input| && c1.cur == s[0] && s == [s[0]];
      assert c1.(status := EndStatus(tt)) == Cursor(|input|, s[|s| - 1], EndStatus(tt));
    } else {
      AppendFirst(chars, s);
      assert s[1..][|s[1..]| - 1] == s[|s| - 1];
      DecodeLiterals(d, tt, out, input, c1, chars + [s[0]], s[1..]);
    }
  }

  /**
   * The round trip of the text decoder: the characters of a text without
   * references or end characters, encoded in the decoder's encoding, are
   * decoded back to themselves, the cursor at the end of the input on the
   * last of them.
   */
  lemma TextRoundTrip(d: CharDecoder, tt: TextType, out: Output, s: seq<nat>)
    requires !out.Fixed? && Literals(tt, s) && Scalars(s)
    ensures var input := EncodedText(d, s);
      DecodedText(d, tt, out, input) ==
        Outcome(Cursor(|input|, if s == [] then 0 else s[|s| - 1], EndStatus(tt)), s)
  {
    if s != [] {
      var input := EncodedText(d, s);
      assert input[0..] == input;
      EncodedReads(d, input, Cursor(0, 0, Parsing), s);
      DecodeLiterals(d, tt, out, input, Cursor(0, 0, Parsing), [], s);
      assert [] + s == s;
    }
  }

}
