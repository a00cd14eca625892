/**
 * The pull parser of the serialisation library (`BasicPullParser`): it
 * reads an XML document held in memory one token at a time with the
 * character decoder it is instantiated with. Each call of `parseNext`
 * moves to the next open tag, attribute, text or close tag; the names of
 * the open elements are kept on a stack, a close tag must name the element
 * on top of it, and a document that ends before a token is complete leaves
 * the parser waiting for more data. A save point lets the caller return to
 * the start of a tag and parse again from there once more data has been
 * appended.
 *
 * The read position is an index into the input; the parse stack is the
 * sequence of the open elements' names (the two `ParseStack` classes are
 * shown to be such stacks in module ParseStack).
 */
module PullParsing {
  import opened Common
  import opened Unicode
  import opened CharDecoders
  import opened XmlHelper
  import TD = TextDecoding
  import Utf8Codec
  import Utf16Codec

  /** `ParseTokenType`: what the parser has just read, or the state it is in. */
  datatype TokenType =
    | InitialState
    | OpenDocument
    | OpenTag
    | Attribute
    | Text
    | CloseTag
    | CloseDocument
    | IncompleteDocument
    | Error

  /** Which name buffer `parseName` fills. */
  datatype NameType = TagName | AttributeName

  /**
   * `InnerStateSavePoint`: the start of the tag to parse again, the copy of
   * the parse stack when one has been taken (the stack pointer then points
   * at the copy), and the number of frames to go back to.
   */
  datatype SavePoint = SavePoint(readPointer: nat, copy: Option<seq<seq<Byte>>>, stackSize: nat)

  /** The largest `std::size_t`, which `0 - 1` wraps around to. */
  const SizeMax: nat := 0xFFFF_FFFF_FFFF_FFFF

  const Lt: nat := '<' as nat
  const Gt: nat := '>' as nat
  const Slash: nat := '/' as nat
  const Question: nat := '?' as nat
  const EqualsSign: nat := '=' as nat
  const Quote: nat := '"' as nat
  const Apostrophe: nat := '\'' as nat

  /** The name of the declaration, and the attribute names it checks. */
  const XmlName: seq<Byte> := [0x78, 0x6D, 0x6C]
  const VersionName: seq<Byte> := [0x76, 0x65, 0x72, 0x73, 0x69, 0x6F, 0x6E]
  const EncodingName: seq<Byte> := [0x65, 0x6E, 0x63, 0x6F, 0x64, 0x69, 0x6E, 0x67]

  /** `std::isspace` in the C locale: blank, tab, line feed, vertical tab, form feed and carriage return. */
  predicate IsSpace(c: nat)
  {
    c == 32 || 9 <= c <= 13
  }

  /** `xml::isOk`: every token but IncompleteDocument and Error. */
  predicate IsOkToken(t: TokenType)
  {
    t != IncompleteDocument && t != Error
  }

  /**
   * `getCurrentTokenType`: Error and CloseDocument are reported whether or
   * not the document is incomplete; any other token gives way to
   * IncompleteDocument while the document is incomplete.
   */
  function ReportedToken(token: TokenType, incomplete: bool): (r: TokenType)
    ensures token == Error || token == CloseDocument ==> r == token
    ensures token != Error && token != CloseDocument ==> (r == IncompleteDocument <==> incomplete || token == IncompleteDocument)
    ensures r != IncompleteDocument ==> r == token
  {
    if token == Error || token == CloseDocument then token
    else if incomplete then IncompleteDocument
    else token
  }

  /** `CharDecoder::isSupportedEncoding`: the encoding name the instantiated codec answers to. */
  function SupportedEncoding(d: CharDecoder, name: seq<Byte>): (r: bool)
    ensures r <==> name == (if d.Utf8? then Utf8Codec.EncodingName else Utf16Codec.EncodingName)
  {
    match d
    case Utf8 => Utf8Codec.IsSupportedEncoding(name)
    case Utf16(_) => Utf16Codec.IsSupportedEncoding(name)
  }

  /**
   * The check `handleXmlDecl` makes of each attribute of the declaration:
   * a version must have at least three octets and start with `1.`; an
   * encoding must be the codec's own; any other attribute passes.
   */
  predicate DeclAttributeOk(d: CharDecoder, name: seq<Byte>, value: seq<Byte>)
  {
    if name == VersionName then |value| >= 3 && value[0] == '1' as int && value[1] == '.' as int
    else if name == EncodingName then SupportedEncoding(d, value)
    else true
  }

  /** A current character that has just been read: the read position stands right after its octets. */
  predicate FreshAt(d: CharDecoder, c: TD.Cursor)
  {
    IsScalar(c.cur) && c.pos >= |Encoded(d, c.cur)|
  }

  /** A character the decoder reads takes exactly the octets of its encoding. */
  lemma ReadSize(d: CharDecoder, input: seq<Byte>, c: TD.Cursor)
    requires c.status == TD.Parsing && c.pos <= |input|
    ensures var r := TD.ReadChar(d, input, c);
      r.status == TD.Parsing ==> r.pos == c.pos + |Encoded(d, r.cur)|
  {
    if c.pos < |input| && Decode(d, input[c.pos..]).Char? {
      DecodeCanonical(d, input[c.pos..]);
    }
  }

  /** An ASCII character takes one octet in UTF-8 and two in UTF-16. */
  lemma AsciiSize(d: CharDecoder, c: nat)
    requires c < 0x80
    ensures |Encoded(d, c)| == if d.Utf8? then 1 else 2
  {
  }

  /** The same for a character read as ASCII, which takes one octet in the UTF-8 parser. */
  lemma ReadAsciiSize(d: CharDecoder, input: seq<Byte>, c: TD.Cursor)
    requires c.status == TD.Parsing && c.pos <= |input| && IsScalar(c.cur)
    ensures var r := TD.ReadAsciiChar(d, input, c);
      IsScalar(r.cur) && (r.status != TD.Parsing ==> r.pos == c.pos || r.pos == c.pos + |Encoded(d, r.cur)|) &&
      (r.status == TD.Parsing ==> r.pos == c.pos + |Encoded(d, r.cur)|)
  {
    if d.Utf8? {
      if c.pos < |input| && Utf8Codec.IsAscii(input[c.pos]) {
        AsciiSize(d, input[c.pos]);
      }
    } else {
      ReadSize(d, input, c);
    }
  }

  /**
   * The loop of `skipWhitespaces`: read on while the current character is
   * white space and the next one can be read.
   */
  function SkipSpace(d: CharDecoder, input: seq<Byte>, c: TD.Cursor): (r: TD.Cursor)
    requires c.status == TD.Parsing && c.pos <= |input| && IsScalar(c.cur)
    ensures c.pos <= r.pos <= |input| && IsScalar(r.cur)
    ensures r.status == TD.Parsing || r.status == TD.IncompleteText || r.status == TD.Error
    ensures r.status == TD.Parsing ==> !IsSpace(r.cur) && (FreshAt(d, c) ==> FreshAt(d, r))
    ensures r.status != TD.Parsing ==> IsSpace(r.cur)
    decreases |input| - c.pos
  {
    if !IsSpace(c.cur) then c
    else
      var n := TD.ReadChar(d, input, c);
      ReadSize(d, input, c);
      if n.status != TD.Parsing then n else SkipSpace(d, input, n)
  }

  /**
   * The loop of `parseName`: read on while the next character continues
   * the name; the first that does not ends it.
   */
  function NameEnd(d: CharDecoder, input: seq<Byte>, c: TD.Cursor): (r: TD.Cursor)
    requires c.status == TD.Parsing && c.pos <= |input|
    ensures c.pos <= r.pos <= |input|
    ensures r.status == TD.Parsing || r.status == TD.IncompleteText || r.status == TD.Error
    ensures r.status == TD.Parsing ==> c.pos < r.pos && !IsNameChar(r.cur) && FreshAt(d, r)
    ensures r.status != TD.Parsing ==> r.cur == c.cur || IsScalar(r.cur)
    ensures r.status != TD.Parsing ==> r.cur == c.cur || IsNameChar(r.cur)
    decreases |input| - c.pos
  {
    var n := TD.ReadChar(d, input, c);
    ReadSize(d, input, c);
    if n.status != TD.Parsing || !IsNameChar(n.cur) then n
    else NameEnd(d, input, n)
  }

  /**
   * The characters of a name as the same loop gathers them: `chars` are
   * those so far, the current character the last of them; a character
   * that ends the name, or cannot be read, is not one of them.
   */
  function NameChars(d: CharDecoder, input: seq<Byte>, c: TD.Cursor, chars: seq<nat>): (r: seq<nat>)
    requires c.status == TD.Parsing && c.pos <= |input|
    requires forall i | 0 <= i < |chars| :: IsScalar(chars[i])
    ensures chars <= r && forall i | 0 <= i < |r| :: IsScalar(r[i])
    decreases |input| - c.pos
  {
    var n := TD.ReadChar(d, input, c);
    if n.status != TD.Parsing || !IsNameChar(n.cur) then chars
    else NameChars(d, input, n, chars + [n.cur])
  }

  /** The UTF-8 octets of scalar values. */
  function NameText(chars: seq<nat>): (r: seq<Byte>)
    requires forall i | 0 <= i < |chars| :: IsScalar(chars[i])
    ensures |chars| >= 1 ==> |r| >= 1
  {
    assert forall i | 0 <= i < |chars| :: chars[i] <= 0x10FFFF by {
      forall i | 0 <= i < |chars| ensures chars[i] <= 0x10FFFF {
        assert IsScalar(chars[i]);
      }
    }
    TD.Utf8Text(chars)
  }

  /**
   * The name `parseName` finds when the current character of `c` starts
   * it: the UTF-8 parser takes the octets from the name's first octet to
   * the octet before the read position (where the name is cut short, the
   * octets read so far); the others write each character as UTF-8.
   */
  function ReadName(d: CharDecoder, input: seq<Byte>, c: TD.Cursor): (r: seq<Byte>)
    requires c.status == TD.Parsing && c.pos <= |input| && IsScalar(c.cur)
    ensures NameEnd(d, input, c).status == TD.Parsing && FreshAt(d, c) ==> |r| >= 1
  {
    var e := NameEnd(d, input, c);
    var start := if c.pos >= |Encoded(d, c.cur)| then c.pos - |Encoded(d, c.cur)| else 0;
    if d.Utf8? then
      if e.status == TD.Parsing then input[start..e.pos - 1] else input[start..e.pos]
    else NameText(NameChars(d, input, c, [c.cur]))
  }

  /** The top of the parse stack, `getTopData`: empty when the stack is. */
  function Top(stack: seq<seq<Byte>>): seq<Byte>
  {
    if stack == [] then [] else stack[|stack| - 1]
  }

  /**
   * Where a step of `parseAttribute` or `parseText` leaves the reader
   * (its state says whether it stopped on an error or at the end of the
   * input), and the decoded value when the value's text was decoded.
   */
  datatype Scan = Scan(end: TD.Cursor, text: Option<TD.Outcome>)

  /** The text type of an attribute value opened by the quote `q`. */
  function ValueType(q: nat): TD.TextType
  {
    if q == Quote then TD.AttValueQuote else TD.AttValueApos
  }

  /**
   * The vector `value` as the decoder leaves it after decoding to `o`: it
   * starts with the UTF-8 of the decoded characters, and holds exactly
   * them once the end of the text was found.
   */
  ghost predicate ValueHolds(value: seq<Byte>, o: TD.Outcome)
  {
    TD.XmlText(o.chars) &&
    |TD.Utf8Text(o.chars)| <= |value| && value[..|TD.Utf8Text(o.chars)|] == TD.Utf8Text(o.chars) &&
    (o.cursor.status == TD.AtEnd ==> value == TD.Utf8Text(o.chars))
  }

  /**
   * The characters an attribute can stand on when the input runs out
   * within it: a name character, white space, the `=` or a quote.
   */
  predicate CutAt(ch: nat)
  {
    IsNameChar(ch) || IsSpace(ch) || ch == EqualsSign || ch == Quote || ch == Apostrophe
  }

  /**
   * `parseAttribute` once the name was read and `e` stands on the
   * character after it: white space, `=` (anything else is an error),
   * the next character, white space, then a quote (anything else is an
   * error).
   */
  function AttributeScan(d: CharDecoder, input: seq<Byte>, e: TD.Cursor): (r: Scan)
    requires e.status == TD.Parsing && e.pos <= |input| && IsScalar(e.cur)
    ensures e.pos <= r.end.pos <= |input| && IsScalar(r.end.cur)
    ensures r.end.status == TD.Parsing || r.end.status == TD.IncompleteText || r.end.status == TD.Error
    ensures r.end.status == TD.Parsing ==> FreshAt(d, r.end) && !IsSpace(r.end.cur) && r.text.Some?
    ensures r.end.status == TD.Parsing ==> r.text.value.cursor.status == TD.AtEnd
    ensures r.end.status == TD.IncompleteText ==> CutAt(r.end.cur)
  {
    var s := SkipSpace(d, input, e);
    if s.status != TD.Parsing then Scan(s, None)
    else if s.cur != EqualsSign then Scan(s.(status := TD.Error), None)
    else EqualsScan(d, input, s)
  }

  /** From the `=`: read the next character, then QuoteScan. */
  function EqualsScan(d: CharDecoder, input: seq<Byte>, s: TD.Cursor): (r: Scan)
    requires s.status == TD.Parsing && s.pos <= |input| && IsScalar(s.cur)
    ensures s.pos <= r.end.pos <= |input| && IsScalar(r.end.cur)
    ensures r.end.status == TD.Parsing || r.end.status == TD.IncompleteText || r.end.status == TD.Error
    ensures r.end.status == TD.Parsing ==> FreshAt(d, r.end) && !IsSpace(r.end.cur) && r.text.Some?
    ensures r.end.status == TD.Parsing ==> r.text.value.cursor.status == TD.AtEnd
    ensures r.end.status == TD.IncompleteText ==> r.end.cur == s.cur || CutAt(r.end.cur)
  {
    var n := TD.ReadChar(d, input, s);
    ReadSize(d, input, s);
    if n.status != TD.Parsing then Scan(n, None)
    else QuoteScan(d, input, n)
  }

  /** From the character after the `=`: white space, then the quote that opens the value. */
  function QuoteScan(d: CharDecoder, input: seq<Byte>, n: TD.Cursor): (r: Scan)
    requires n.status == TD.Parsing && n.pos <= |input| && FreshAt(d, n)
    ensures n.pos <= r.end.pos <= |input| && IsScalar(r.end.cur)
    ensures r.end.status == TD.Parsing || r.end.status == TD.IncompleteText || r.end.status == TD.Error
    ensures r.end.status == TD.Parsing ==> FreshAt(d, r.end) && !IsSpace(r.end.cur) && r.text.Some?
    ensures r.end.status == TD.Parsing ==> r.text.value.cursor.status == TD.AtEnd
    ensures r.end.status == TD.IncompleteText ==> CutAt(r.end.cur)
  {
    var t := SkipSpace(d, input, n);
    if t.status != TD.Parsing then Scan(t, None)
    else if t.cur != Quote && t.cur != Apostrophe then Scan(t.(status := TD.Error), None)
    else ValueScan(d, input, t)
  }

  /** The value an attribute opened by the quote `q` decodes to: the octets after the quote, up to the closing quote. */
  function ValueText(d: CharDecoder, input: seq<Byte>, q: TD.Cursor): (r: TD.Outcome)
    requires q.pos <= |input|
    ensures TD.XmlText(r.chars) && r.cursor.status != TD.Parsing && r.cursor.pos <= |input| - q.pos
  {
    TD.DecodedText(d, ValueType(q.cur), TD.Growing, input[q.pos..])
  }

  /**
   * Where decoding the value leaves the reader: after the closing quote;
   * an error or the end of the input leaves it on the opening quote, in
   * the decoder's state.
   */
  function ValueEnd(d: CharDecoder, input: seq<Byte>, q: TD.Cursor): (r: TD.Cursor)
    requires q.pos <= |input|
    ensures q.pos <= r.pos <= |input| && r.cur == q.cur
    ensures r.status == TD.Parsing || r.status == TD.IncompleteText || r.status == TD.Error
  {
    var v := ValueText(d, input, q);
    if v.cursor.status != TD.AtEnd then
      assert v.cursor.status != TD.Parsing;
      q.(status := v.cursor.status)
    else TD.Cursor(q.pos + v.cursor.pos, q.cur, TD.Parsing)
  }

  /** From the opening quote `q`: the value, then AfterValue once it was decoded. */
  function ValueScan(d: CharDecoder, input: seq<Byte>, q: TD.Cursor): (r: Scan)
    requires q.status == TD.Parsing && q.pos <= |input| && IsScalar(q.cur)
    ensures q.pos <= r.end.pos <= |input| && IsScalar(r.end.cur) && r.text.Some?
    ensures r.end.status == TD.Parsing || r.end.status == TD.IncompleteText || r.end.status == TD.Error
    ensures r.end.status == TD.Parsing ==> FreshAt(d, r.end) && !IsSpace(r.end.cur)
    ensures r.end.status == TD.Parsing ==> r.text.value.cursor.status == TD.AtEnd
    ensures r.end.status == TD.IncompleteText ==> r.end.cur == q.cur || IsSpace(r.end.cur)
  {
    var e := ValueEnd(d, input, q);
    Scan(if e.status != TD.Parsing then e else AfterValue(d, input, e), Some(ValueText(d, input, q)))
  }

  /** After the closing quote of a value: read the next character and skip white space. */
  function AfterValue(d: CharDecoder, input: seq<Byte>, c: TD.Cursor): (r: TD.Cursor)
    requires c.status == TD.Parsing && c.pos <= |input| && IsScalar(c.cur)
    ensures c.pos <= r.pos <= |input| && IsScalar(r.cur)
    ensures r.status == TD.Parsing || r.status == TD.IncompleteText || r.status == TD.Error
    ensures r.status == TD.Parsing ==> FreshAt(d, r) && !IsSpace(r.cur)
    ensures r.status != TD.Parsing ==> r.cur == c.cur || IsSpace(r.cur)
  {
    var n := TD.ReadChar(d, input, c);
    ReadSize(d, input, c);
    if n.status != TD.Parsing then n else SkipSpace(d, input, n)
  }

  /** The octets a decoded value leaves in the value buffer: its characters as UTF-8. */
  function DecodedOctets(o: TD.Outcome): seq<Byte>
    requires TD.XmlText(o.chars)
  {
    TD.Utf8Text(o.chars)
  }

  /** An attribute of the XML declaration as `handleXmlDecl` checks it: its name and its decoded value. */
  datatype DeclAttr = DeclAttr(name: seq<Byte>, value: seq<Byte>)

  /** The attributes the declaration's attribute loop read, and where it stopped. */
  datatype AttrRun = AttrRun(attrs: seq<DeclAttr>, end: TD.Cursor)

  /**
   * The attribute loop of `handleXmlDecl` from the character `c`: while a
   * name starts there, the attribute is read (name, `=`, quoted value) and
   * checked with DeclAttributeOk. The loop stops in the Parsing state on a
   * character that does not start a name; it stops with Error on an
   * attribute that fails the check (the last one listed), and in the
   * reader's state when an attribute cannot be read. So every attribute
   * listed but a failing last one passes, and the loop ends well only when
   * all of them pass.
   */
  function DeclAttrsFrom(d: CharDecoder, input: seq<Byte>, c: TD.Cursor): (r: AttrRun)
    requires c.status == TD.Parsing && c.pos <= |input| && FreshAt(d, c)
    ensures c.pos <= r.end.pos <= |input| && IsScalar(r.end.cur)
    ensures r.end.status == TD.Parsing || r.end.status == TD.IncompleteText || r.end.status == TD.Error
    ensures r.end.status == TD.Parsing ==> FreshAt(d, r.end) && !IsNameStartChar(r.end.cur)
    ensures forall i | 0 <= i < |r.attrs| ::
      DeclAttributeOk(d, r.attrs[i].name, r.attrs[i].value) || (i == |r.attrs| - 1 && r.end.status == TD.Error)
    decreases |input| - c.pos
  {
    if !IsNameStartChar(c.cur) then AttrRun([], c)
    else
      var e := NameEnd(d, input, c);
      if e.status != TD.Parsing then AttrRun([], e)
      else
        var s := AttributeScan(d, input, e);
        if s.end.status != TD.Parsing then AttrRun([], s.end)
        else
          var a := DeclAttr(ReadName(d, input, c), DecodedOctets(s.text.value));
          if !DeclAttributeOk(d, a.name, a.value) then AttrRun([a], s.end.(status := TD.Error))
          else
            var rest := DeclAttrsFrom(d, input, s.end);
            AttrRun([a] + rest.attrs, rest.end)
  }

  /**
   * The attribute loop stops where an attribute's name cannot be read to
   * its end, or the rest of the attribute cannot be read.
   */
  lemma DeclAttrStopped(d: CharDecoder, input: seq<Byte>, c: TD.Cursor, e: TD.Cursor)
    requires c.status == TD.Parsing && c.pos <= |input| && FreshAt(d, c) && IsNameStartChar(c.cur)
    requires e == NameEnd(d, input, c)
    ensures e.status != TD.Parsing ==> DeclAttrsFrom(d, input, c) == AttrRun([], e)
    ensures e.status == TD.Parsing && AttributeScan(d, input, e).end.status != TD.Parsing ==>
      DeclAttrsFrom(d, input, c) == AttrRun([], AttributeScan(d, input, e).end)
  {
  }

  /**
   * An attribute read to its end is the first the loop lists, with the
   * value the value buffer holds; the loop then stops with Error, or goes
   * on from the end of the attribute.
   */
  lemma DeclAttrRead(d: CharDecoder, input: seq<Byte>, c: TD.Cursor, e: TD.Cursor, s: Scan, name: seq<Byte>, value: seq<Byte>)
    requires c.status == TD.Parsing && c.pos <= |input| && FreshAt(d, c) && IsNameStartChar(c.cur)
    requires e == NameEnd(d, input, c) && e.status == TD.Parsing
    requires s == AttributeScan(d, input, e) && s.end.status == TD.Parsing
    requires name == ReadName(d, input, c) && ValueHolds(value, s.text.value)
    ensures value == DecodedOctets(s.text.value)
    ensures !DeclAttributeOk(d, name, value) ==> DeclAttrsFrom(d, input, c) == AttrRun([DeclAttr(name, value)], s.end.(status := TD.Error))
    ensures DeclAttributeOk(d, name, value) ==>
      DeclAttrsFrom(d, input, c) == AttrRun([DeclAttr(name, value)] + DeclAttrsFrom(d, input, s.end).attrs, DeclAttrsFrom(d, input, s.end).end)
  {
  }

  /** The `>` of the closing `?>` at `c`, and the character after it. */
  function DeclGtRead(d: CharDecoder, input: seq<Byte>, c: TD.Cursor): (r: TD.Cursor)
    requires c.status == TD.Parsing && c.pos <= |input| && IsScalar(c.cur)
    ensures c.pos <= r.pos <= |input| && IsScalar(r.cur)
    ensures r.status == TD.Parsing || r.status == TD.IncompleteText || r.status == TD.Error
    ensures r.status == TD.Parsing ==> c.cur == Gt && r == TD.ReadChar(d, input, c)
    ensures c.cur != Gt ==> r.status == TD.Error
  {
    if c.cur != Gt then c.(status := TD.Error) else TD.ReadChar(d, input, c)
  }

  /** The `?>` that closes the declaration, from the `?` at `c`. */
  function DeclClose(d: CharDecoder, input: seq<Byte>, c: TD.Cursor): (r: TD.Cursor)
    requires c.status == TD.Parsing && c.pos <= |input| && IsScalar(c.cur)
    ensures c.pos <= r.pos <= |input| && IsScalar(r.cur)
    ensures r.status == TD.Parsing || r.status == TD.IncompleteText || r.status == TD.Error
    ensures r.status == TD.Parsing ==> c.cur == Question && TD.ReadChar(d, input, c).cur == Gt
    ensures c.cur != Question ==> r.status == TD.Error
  {
    if c.cur != Question then c.(status := TD.Error)
    else
      var n := TD.ReadChar(d, input, c);
      if n.status != TD.Parsing then n else DeclGtRead(d, input, n)
  }

  /**
   * A run of attributes that ran out of input stands on a character of
   * the attribute it was reading, never on `?`.
   */
  lemma {:induction false} DeclAttrsCutAt(d: CharDecoder, input: seq<Byte>, c: TD.Cursor)
    requires c.status == TD.Parsing && c.pos <= |input| && FreshAt(d, c)
    ensures var e := DeclAttrsFrom(d, input, c).end;
      e.status == TD.IncompleteText ==> CutAt(e.cur) && e.cur != Question
    decreases |input| - c.pos
  {
    if IsNameStartChar(c.cur) {
      var e := NameEnd(d, input, c);
      if e.status == TD.Parsing {
        var s := AttributeScan(d, input, e);
        if s.end.status == TD.Parsing && DeclAttributeOk(d, ReadName(d, input, c), DecodedOctets(s.text.value)) {
          DeclAttrsCutAt(d, input, s.end);
        }
      }
    }
    assert !CutAt(Question);
  }

  /**
   * Whether the attribute loop of the declaration from `c` stopped on a
   * truncated attribute: the document is then incomplete, and the `?`
   * check after the loop still runs.
   */
  predicate DeclCut(d: CharDecoder, input: seq<Byte>, c: TD.Cursor)
    requires c.status == TD.Parsing && c.pos <= |input| && FreshAt(d, c)
  {
    DeclAttrsFrom(d, input, c).end.status == TD.IncompleteText
  }

  /**
   * The declaration after its name and the white space after it: the
   * attributes, then `?>`. It goes through only when every attribute
   * passes DeclAttributeOk, and one that fails is an error. When the
   * attribute loop stopped on a truncated attribute, the `?` check after
   * the loop is made on the character the reader stands on, and anything
   * but `?` is an error.
   */
  function DeclTail(d: CharDecoder, input: seq<Byte>, c: TD.Cursor): (r: TD.Cursor)
    requires c.status == TD.Parsing && c.pos <= |input| && FreshAt(d, c)
    ensures c.pos <= r.pos <= |input| && IsScalar(r.cur)
    ensures r.status == TD.Parsing || r.status == TD.IncompleteText || r.status == TD.Error
    ensures var a := DeclAttrsFrom(d, input, c).attrs;
      (r.status == TD.Parsing ==> forall i | 0 <= i < |a| :: DeclAttributeOk(d, a[i].name, a[i].value)) &&
      ((exists i | 0 <= i < |a| :: !DeclAttributeOk(d, a[i].name, a[i].value)) ==> r.status == TD.Error)
    ensures DeclCut(d, input, c) ==>
      var e := DeclAttrsFrom(d, input, c).end;
      r.pos == e.pos && r.cur == e.cur && r.status == TD.Error
  {
    DeclAttrsCutAt(d, input, c);
    var a := DeclAttrsFrom(d, input, c);
    if a.end.status == TD.Parsing then DeclClose(d, input, a.end)
    else if a.end.status == TD.IncompleteText && a.end.cur != Question then a.end.(status := TD.Error)
    else a.end
  }

  /**
   * The name of the declaration at `m`, which must be `xml`, and the
   * white space after it: a character that cannot start a name, or a name
   * other than `xml`, is an error.
   */
  function DeclName(d: CharDecoder, input: seq<Byte>, m: TD.Cursor): (r: TD.Cursor)
    requires m.status == TD.Parsing && m.pos <= |input| && FreshAt(d, m)
    ensures m.pos <= r.pos <= |input| && IsScalar(r.cur)
    ensures r.status == TD.Parsing || r.status == TD.IncompleteText || r.status == TD.Error
    ensures r.status == TD.Parsing ==>
      FreshAt(d, r) && IsNameStartChar(m.cur) && NameEnd(d, input, m).status == TD.Parsing && ReadName(d, input, m) == XmlName
    ensures !IsNameStartChar(m.cur) ==> r.status == TD.Error
    ensures IsNameStartChar(m.cur) && NameEnd(d, input, m).status == TD.Parsing && ReadName(d, input, m) != XmlName ==>
      r.status == TD.Error
  {
    if !IsNameStartChar(m.cur) then m.(status := TD.Error)
    else
      var e := NameEnd(d, input, m);
      if e.status != TD.Parsing then e
      else if ReadName(d, input, m) != XmlName then e.(status := TD.Error)
      else SkipSpace(d, input, e)
  }

  /**
   * `handleXmlDecl` from the `<` at `c`: None when no declaration starts
   * there (the character after the `<` is not `?`); otherwise where
   * reading `?`, the name, the attributes and `?>` stopped. In the Parsing
   * state the declaration was read to the character after its `>`.
   */
  function XmlDecl(d: CharDecoder, input: seq<Byte>, c: TD.Cursor): (r: Option<TD.Cursor>)
    requires c.status == TD.Parsing && c.pos <= |input| && IsScalar(c.cur)
    ensures r.Some? ==> c.pos <= r.value.pos <= |input| && IsScalar(r.value.cur)
    ensures r.Some? ==> r.value.status == TD.Parsing || r.value.status == TD.IncompleteText || r.value.status == TD.Error
    ensures r.None? <==> c.cur != Lt || DeclHead(d, input, c).None?
    ensures r.Some? && r.value.status == TD.Parsing ==>
      var h := DeclHead(d, input, c).value;
      h.status == TD.Parsing &&
      var a := DeclAttrsFrom(d, input, h).attrs;
      forall i | 0 <= i < |a| :: DeclAttributeOk(d, a[i].name, a[i].value)
    ensures c.cur == Lt && DeclHead(d, input, c).Some? && DeclHead(d, input, c).value.status == TD.Parsing ==>
      var a := DeclAttrsFrom(d, input, DeclHead(d, input, c).value).attrs;
      (exists i | 0 <= i < |a| :: !DeclAttributeOk(d, a[i].name, a[i].value)) ==> r.value.status == TD.Error
    ensures XmlDeclCut(d, input, c) ==> r.Some? && r.value.status == TD.Error
  {
    if c.cur != Lt then None
    else
      var h := DeclHead(d, input, c);
      if h.None? || h.value.status != TD.Parsing then h else Some(DeclTail(d, input, h.value))
  }

  /** Whether the declaration at `c` was cut inside its attributes, as DeclCut says. */
  predicate XmlDeclCut(d: CharDecoder, input: seq<Byte>, c: TD.Cursor)
    requires c.status == TD.Parsing && c.pos <= |input| && IsScalar(c.cur)
  {
    c.cur == Lt && DeclHead(d, input, c).Some? && DeclHead(d, input, c).value.status == TD.Parsing &&
    DeclCut(d, input, DeclHead(d, input, c).value)
  }

  /**
   * `handleXmlDecl` after the `<` at `c`: None when the next character is
   * not `?`; otherwise where reading the `?`, the name `xml` and the white
   * space after it stopped.
   */
  function DeclHead(d: CharDecoder, input: seq<Byte>, c: TD.Cursor): (r: Option<TD.Cursor>)
    requires c.status == TD.Parsing && c.pos <= |input| && IsScalar(c.cur)
    ensures r.Some? ==> c.pos <= r.value.pos <= |input| && IsScalar(r.value.cur)
    ensures r.Some? ==> r.value.status == TD.Parsing || r.value.status == TD.IncompleteText || r.value.status == TD.Error
    ensures var n := TD.ReadChar(d, input, c); r.None? <==> n.status == TD.Parsing && n.cur != Question
    ensures r.Some? && r.value.status == TD.Parsing ==>
      FreshAt(d, r.value) &&
      var n := TD.ReadChar(d, input, c);
      n.status == TD.Parsing && n.cur == Question &&
      var m := TD.ReadChar(d, input, n);
      m.status == TD.Parsing && IsNameStartChar(m.cur) && NameEnd(d, input, m).status == TD.Parsing &&
      ReadName(d, input, m) == XmlName
  {
    var n := TD.ReadChar(d, input, c);
    if n.status == TD.Parsing && n.cur != Question then None
    else if n.status != TD.Parsing then Some(n)
    else
      var m := TD.ReadChar(d, input, n);
      ReadSize(d, input, n);
      if m.status != TD.Parsing then Some(m) else Some(DeclName(d, input, m))
  }

  /**
   * `parseText` on a current character other than `<`: the text is
   * decoded from that character's first octet up to the next `<`; an
   * error or the end of the input leaves the reader where it was;
   * otherwise it goes back to the end of the text and reads the `<`.
   */
  function TextScan(d: CharDecoder, input: seq<Byte>, c: TD.Cursor): (r: Scan)
    requires c.status == TD.Parsing && c.pos <= |input| && FreshAt(d, c)
    ensures r.end.pos <= |input| && IsScalar(r.end.cur) && r.text.Some?
    ensures r.end.status == TD.Parsing || r.end.status == TD.IncompleteText || r.end.status == TD.Error
    ensures r.end.status == TD.Parsing ==> FreshAt(d, r.end)
  {
    var start := c.pos - |Encoded(d, c.cur)|;
    var v := TD.DecodedText(d, TD.CharData, TD.Growing, input[start..]);
    if v.cursor.status != TD.AtEnd then Scan(c.(status := v.cursor.status), Some(v))
    else
      assert v.cursor.cur == TD.LessThan;
      var e := TD.Cursor(start + TD.TextEnd(d, v.cursor), c.cur, TD.Parsing);
      ReadSize(d, input, e);
      Scan(TD.ReadChar(d, input, e), Some(v))
  }

  /**
   * The reading half of `nextChar`: decode the character at the read
   * position of `c`.
   */
  method ReadAt(d: CharDecoder, input: seq<Byte>, c: TD.Cursor) returns (r: TD.Cursor)
    requires c.status == TD.Parsing && c.pos <= |input|
    ensures r == TD.ReadChar(d, input, c)
  {
    if c.pos == |input| {
      return c.(status := TD.IncompleteText);
    }
    var dec := ParseNext(d, input[c.pos..]);
    match dec
    case Char(ch, n) =>
      return TD.Cursor(c.pos + n, ch, TD.Parsing);
    case Incomplete =>
      return c.(status := TD.IncompleteText);
    case Invalid =>
      return c.(status := TD.Error);
  }

  /**
   * The reading half of `nextAsciiChar`: the UTF-8 parser looks at one
   * octet, which must be ASCII; the others read a whole character and
   * reject it above U+007F.
   */
  method ReadAsciiAt(d: CharDecoder, input: seq<Byte>, c: TD.Cursor) returns (r: TD.Cursor)
    requires c.status == TD.Parsing && c.pos <= |input|
    ensures r == TD.ReadAsciiChar(d, input, c)
  {
    if d.Utf8? {
      if c.pos == |input| {
        return c.(status := TD.IncompleteText);
      }
      if !Utf8Codec.IsAscii(input[c.pos]) {
        return c.(status := TD.Error);
      }
      return TD.Cursor(c.pos + 1, input[c.pos], TD.Parsing);
    }
    r := ReadAt(d, input, c);
    if r.status == TD.Parsing && r.cur > 0x7F {
      r := r.(status := TD.Error);
    }
  }

  /** The loop of `skipWhitespaces`, on a cursor. */
  method SkipSpaceAt(d: CharDecoder, input: seq<Byte>, c: TD.Cursor) returns (r: TD.Cursor)
    requires c.status == TD.Parsing && c.pos <= |input| && IsScalar(c.cur)
    ensures r == SkipSpace(d, input, c)
  {
    r := c;
    while r.status == TD.Parsing && IsSpace(r.cur)
      invariant r.pos <= |input| && IsScalar(r.cur)
      invariant r.status == TD.Parsing ==> SkipSpace(d, input, r) == SkipSpace(d, input, c)
      invariant r.status != TD.Parsing ==> r == SkipSpace(d, input, c)
      decreases |input| - r.pos, if r.status == TD.Parsing then 1 else 0
    {
      r := ReadAt(d, input, r);
    }
  }

  /**
   * The loop of the UTF-8 parser's `parseName`, which only moves over the
   * name: `c` stands on its first character.
   */
  method SkipName(d: CharDecoder, input: seq<Byte>, c: TD.Cursor) returns (e: TD.Cursor)
    requires c.status == TD.Parsing && c.pos <= |input|
    ensures e == NameEnd(d, input, c)
  {
    var cur := c;
    e := ReadAt(d, input, cur);
    while e.status == TD.Parsing && IsNameChar(e.cur)
      invariant cur.status == TD.Parsing && cur.pos <= |input|
      invariant e == TD.ReadChar(d, input, cur)
      invariant NameEnd(d, input, cur) == NameEnd(d, input, c)
      decreases |input| - cur.pos
    {
      cur := e;
      e := ReadAt(d, input, cur);
    }
  }

  /**
   * The loop of `parseName` in the parsers that decode each character:
   * `c` stands on the first character of the name; the result is where the
   * name ends and the UTF-8 octets of its characters.
   */
  method ScanName(d: CharDecoder, input: seq<Byte>, c: TD.Cursor) returns (e: TD.Cursor, name: seq<Byte>)
    requires c.status == TD.Parsing && c.pos <= |input| && IsScalar(c.cur)
    ensures e == NameEnd(d, input, c)
    ensures name == NameText(NameChars(d, input, c, [c.cur]))
  {
    ghost var chars := [c.cur];
    name := Utf8Bytes(c.cur);
    assert name == NameText(chars) by {
      TD.Utf8TextAppend([], c.cur);
      assert [] + [c.cur] == chars;
    }
    ghost var goalEnd := NameEnd(d, input, c);
    ghost var goal := NameChars(d, input, c, chars);
    var cur := c;
    e := ReadAt(d, input, cur);
    while e.status == TD.Parsing && IsNameChar(e.cur)
      invariant cur.status == TD.Parsing && cur.pos <= |input|
      invariant e == TD.ReadChar(d, input, cur)
      invariant NameEnd(d, input, cur) == goalEnd
      invariant forall i | 0 <= i < |chars| :: IsScalar(chars[i])
      invariant NameChars(d, input, cur, chars) == goal
      invariant name == NameText(chars)
      decreases |input| - cur.pos
    {
      TD.Utf8TextAppend(chars, e.cur);
      name := name + Utf8Bytes(e.cur);
      chars := chars + [e.cur];
      cur := e;
      e := ReadAt(d, input, cur);
    }
  }

  /**
   * A `TextDecodingHelper` over `text` writing into the vector that holds
   * `buffer`, and its `decodeText`: where the decoder stopped, and the
   * vector afterwards.
   */
  method DecodeValue(d: CharDecoder, tt: TD.TextType, text: seq<Byte>, buffer: seq<Byte>) returns (end: TD.Cursor, value: seq<Byte>)
    ensures var v := TD.DecodedText(d, tt, TD.Growing, text); end == v.cursor && ValueHolds(value, v)
  {
    var vector := new TD.CharVector(buffer);
    var helper := new TD.TextDecodingHelper(vector, tt, d, text);
    var ok := helper.DecodeText();
    end := helper.reader.State();
    value := vector.data[..];
  }


  /**
   * The decoding half of `parseAttribute`'s value: a `TextDecodingHelper`
   * over the octets after the quote `q`, writing into the vector that
   * holds `buffer`.
   */
  method ValueDecodeAt(d: CharDecoder, input: seq<Byte>, q: TD.Cursor, buffer: seq<Byte>) returns (end: TD.Cursor, value: seq<Byte>)
    requires q.pos <= |input|
    ensures end == ValueEnd(d, input, q) && ValueHolds(value, ValueText(d, input, q))
  {
    var e;
    e, value := DecodeValue(d, ValueType(q.cur), input[q.pos..], buffer);
    if e.status != TD.AtEnd {
      return q.(status := e.status), value;
    }
    return TD.Cursor(q.pos + e.pos, q.cur, TD.Parsing), value;
  }

  /**
   * The reading half of `parseText`, on a cursor: TextScan, and the
   * vector that held `buffer` afterwards.
   */
  method TextScanAt(d: CharDecoder, input: seq<Byte>, c: TD.Cursor, buffer: seq<Byte>) returns (end: TD.Cursor, value: seq<Byte>)
    requires c.status == TD.Parsing && c.pos <= |input| && FreshAt(d, c)
    ensures var r := TextScan(d, input, c); end == r.end && ValueHolds(value, r.text.value)
  {
    var start := c.pos - MeasuredSize(d, c.cur).n;
    ghost var v := TD.DecodedText(d, TD.CharData, TD.Growing, input[start..]);
    assert start == c.pos - |Encoded(d, c.cur)|;
    var e;
    e, value := DecodeValue(d, TD.CharData, input[start..], buffer);
    if e.status != TD.AtEnd {
      TextScanStopped(d, input, c, start, v);
      return c.(status := e.status), value;
    }
    var next := TD.Cursor(start + TD.TextEnd(d, e), c.cur, TD.Parsing);
    TextScanAtEnd(d, input, c, start, v);
    end := ReadAt(d, input, next);
  }

  /** TextScan when the decoding stops before the end of the text: its status, and the text. */
  lemma TextScanStopped(d: CharDecoder, input: seq<Byte>, c: TD.Cursor, start: nat, v: TD.Outcome)
    requires c.status == TD.Parsing && c.pos <= |input| && FreshAt(d, c)
    requires start == c.pos - |Encoded(d, c.cur)|
    requires v == TD.DecodedText(d, TD.CharData, TD.Growing, input[start..]) && v.cursor.status != TD.AtEnd
    ensures TextScan(d, input, c).end == c.(status := v.cursor.status) && TextScan(d, input, c).text == Some(v)
  {
  }

  /** TextScan when the text reached its end: the character read there, and the text. */
  lemma TextScanAtEnd(d: CharDecoder, input: seq<Byte>, c: TD.Cursor, start: nat, v: TD.Outcome)
    requires c.status == TD.Parsing && c.pos <= |input| && FreshAt(d, c)
    requires start == c.pos - |Encoded(d, c.cur)|
    requires v == TD.DecodedText(d, TD.CharData, TD.Growing, input[start..]) && v.cursor.status == TD.AtEnd
    ensures start + TD.TextEnd(d, v.cursor) <= |input|
    ensures TextScan(d, input, c).end == TD.ReadChar(d, input, TD.Cursor(start + TD.TextEnd(d, v.cursor), c.cur, TD.Parsing))
    ensures TextScan(d, input, c).text == Some(v)
  {
  }

  /** The loop of `restoreToSavePoint` that pops frames until `n` are left. */
  method PopTo(stack: seq<seq<Byte>>, n: nat) returns (s: seq<seq<Byte>>)
    requires n <= |stack|
    ensures s == stack[..n]
  {
    s := stack;
    while |s| > n
      invariant n <= |s| <= |stack| && s == stack[..|s|]
    {
      s := s[..|s| - 1];
    }
  }

  /**
   * What `setSavePoint` stores, as the source writes it: nothing while the
   * document is incomplete or failed or in the initial state; otherwise
   * the start of the last tag (none before the first tag) and the depth of
   * the stack, less one unless the token is CloseTag, computed in
   * `std::size_t`, so that an empty stack wraps around to SizeMax.
   */
  function SavePointAsWritten(token: TokenType, incomplete: bool, depth: nat, lastTagStart: Option<nat>): (r: Option<(Option<nat>, nat)>)
    requires depth <= SizeMax
    ensures r.Some? <==> !incomplete && token != Error && token != InitialState
    ensures r.Some? ==> r.value.0 == lastTagStart && r.value.1 <= SizeMax
    ensures r.Some? && token != CloseTag && depth == 0 ==> r.value.1 == SizeMax
    ensures r.Some? && (token == CloseTag || depth >= 1) ==> r.value.1 == (if token == CloseTag then depth else depth - 1)
  {
    if incomplete || token == Error || token == InitialState then None
    else Some((lastTagStart, if token == CloseTag then depth else (depth + SizeMax) % (SizeMax + 1)))
  }

  /**
   * The save point as written before the first tag has no position to
   * return to, and after the last close tag a stack size no stack reaches.
   */
  lemma SavePointOutsideRoot(p: nat)
    ensures SavePointAsWritten(OpenDocument, false, 0, None) == Some((None, SizeMax))
    ensures SavePointAsWritten(CloseDocument, false, 0, Some(p)) == Some((Some(p), SizeMax))
  {
  }

  /**
   * The tokens `parseNext` moves between while the document goes on: the
   * document opens with its outermost tag, a tag's attributes follow it,
   * text lies between tags, and the document ends after the close tag of
   * the outermost element.
   */
  predicate Follows(prev: TokenType, next: TokenType)
  {
    match prev
    case InitialState => next == OpenDocument
    case OpenDocument => next == OpenTag
    case OpenTag => next == Attribute || next == OpenTag || next == Text || next == CloseTag
    case Attribute => next == Attribute || next == OpenTag || next == Text || next == CloseTag
    case Text => next == OpenTag || next == CloseTag
    case CloseTag => next == OpenTag || next == Text || next == CloseTag || next == CloseDocument
    case _ => false
  }

  class BasicPullParser {
    const decoder: CharDecoder
    /** `inputData`: the document as far as it has been handed over. */
    var input: seq<Byte>
    /** `readerState`: the read position and the character before it. */
    var pos: nat
    var currentChar: nat
    /** `parseStack`: the names of the open elements, outermost first. */
    var stack: seq<seq<Byte>>
    /** The name buffers and `decodedValueBuffer`. */
    var tagName: seq<Byte>
    var attrName: seq<Byte>
    var value: seq<Byte>
    var token: TokenType
    /** `incompleteDocument`: the end of the input was met in the middle of a token. */
    var incomplete: bool
    /** `lastTagStart`: where the last tag read began; none before the first. */
    var lastTagStart: Option<nat>
    var savePoint: Option<SavePoint>
    /** The frames the save point returns to. */
    ghost var savedFrames: seq<seq<Byte>>

    /**
     * The constructor: the parser reads `data` from `offset` on, and the
     * first character is read at once.
     */
    constructor(d: CharDecoder, data: seq<Byte>, offset: nat)
      requires offset <= |data|
      ensures Valid() && decoder == d && input == data
      ensures stack == [] && lastTagStart == None && savePoint == None
      ensures var r := TD.ReadChar(d, data, TD.Cursor(offset, 0, TD.Parsing));
        pos == r.pos && currentChar == r.cur && incomplete == (r.status == TD.IncompleteText) &&
        token == (if r.status == TD.Error then Error else InitialState)
    {
      decoder := d;
      input := data;
      pos := offset;
      currentChar := 0;
      stack := [];
      tagName, attrName, value := [], [], [];
      token := InitialState;
      incomplete := false;
      lastTagStart := None;
      savePoint := None;
      savedFrames := [];
      new;
      var ok := NextChar();
    }

    function Cursor(): TD.Cursor
      reads this
    {
      TD.Cursor(pos, currentChar, TD.Parsing)
    }

    /**
     * The positions held lie inside the input, the current character is a
     * scalar value, and IncompleteDocument is only ever reported, never
     * stored as the token.
     */
    ghost predicate Sound()
      reads this
    {
      pos <= |input| && IsScalar(currentChar) && token != IncompleteDocument &&
      (lastTagStart.Some? ==> lastTagStart.value <= |input|) &&
      (savePoint.Some? ==> savePoint.value.readPointer <= |input|)
    }

    /** Neither incomplete nor failed: parsing may go on. */
    predicate Live()
      reads this
    {
      !incomplete && token != Error
    }

    /** Live, and not past the end of the document: a token is being read. */
    predicate Active()
      reads this
    {
      Live() && token != CloseDocument
    }

    ghost predicate Fresh()
      reads this
    {
      FreshAt(decoder, Cursor())
    }

    /**
     * The parse stack agrees with the token while the parser is live:
     * empty before the first tag and after the last, the element read last
     * on top of it while inside a tag, and some element open around text.
     */
    ghost predicate Nested()
      reads this
    {
      Live() ==>
        (token == InitialState || token == OpenDocument || token == CloseDocument ==> stack == []) &&
        (token == OpenTag || token == Attribute || token == CloseTag ==> |stack| >= 1 && tagName == Top(stack)) &&
        (token == Text ==> |stack| >= 1)
    }

    /**
     * The save point holds on to the frames it returns to: either in its
     * copy of the stack, or as the bottom `stackSize` frames of the parse
     * stack itself.
     */
    ghost predicate SaveConsistent()
      reads this
    {
      savePoint.Some? ==>
        var sp := savePoint.value;
        (sp.copy.Some? ==> sp.copy.value == savedFrames && sp.stackSize == |savedFrames|) &&
        (sp.copy.None? ==> sp.stackSize <= |stack| && stack[..sp.stackSize] == savedFrames)
    }

    /** The invariant every public operation keeps. */
    ghost predicate Valid()
      reads this
    {
      Sound() && (Live() ==> Fresh()) && Nested() && SaveConsistent()
    }

    /** `getCurrentTokenType`. */
    function GetCurrentTokenType(): TokenType
      reads this
    {
      ReportedToken(token, incomplete)
    }

    /** `isOk`. */
    predicate IsOk()
      reads this
    {
      IsOkToken(GetCurrentTokenType())
    }

    /** The input, the stack and the save point are left as they were. */
    twostate predicate Kept()
      reads this
    {
      input == old(input) && stack == old(stack) && lastTagStart == old(lastTagStart) &&
      savePoint == old(savePoint) && savedFrames == old(savedFrames)
    }

    /** Every field holds the value it held before. */
    twostate predicate Idle()
      reads this
    {
      Kept() && NamesKept() && pos == old(pos) && currentChar == old(currentChar) &&
      token == old(token) && incomplete == old(incomplete)
    }

    twostate predicate NamesKept()
      reads this
    {
      tagName == old(tagName) && attrName == old(attrName) && value == old(value)
    }

    /**
     * The reader stands where the read `r` ended; a truncated character
     * marks the document incomplete and an invalid one is an error.
     */
    twostate predicate Moved(r: TD.Cursor)
      reads this
    {
      pos == r.pos && currentChar == r.cur &&
      incomplete == (old(incomplete) || r.status == TD.IncompleteText) &&
      token == (if r.status == TD.Error then Error else old(token))
    }

    /**
     * As Moved, and the document is also incomplete when `cut` holds: a
     * read that ran out of input earlier, before the step that failed.
     */
    twostate predicate MovedCut(r: TD.Cursor, cut: bool)
      reads this
    {
      pos == r.pos && currentChar == r.cur &&
      incomplete == (old(incomplete) || r.status == TD.IncompleteText || cut) &&
      token == (if r.status == TD.Error then Error else old(token))
    }

    /**
     * The updating half of `nextChar`: the reader takes the position and
     * the character of the read `r`, a truncated character marks the
     * document incomplete and an invalid one sets the Error token.
     */
    method MoveTo(r: TD.Cursor)
      requires r.pos <= |input| && IsScalar(r.cur)
      modifies this
      ensures Kept() && NamesKept() && Moved(r)
    {
      pos, currentChar := r.pos, r.cur;
      if r.status == TD.IncompleteText {
        incomplete := true;
      } else if r.status == TD.Error {
        token := Error;
      }
    }

    /** `nextChar`. */
    method NextChar() returns (ok: bool)
      requires Sound()
      modifies this
      ensures Sound() && Kept() && NamesKept()
      ensures Moved(TD.ReadChar(decoder, input, old(Cursor())))
      ensures ok <==> TD.ReadChar(decoder, input, old(Cursor())).status == TD.Parsing
      ensures ok ==> Fresh()
    {
      ReadSize(decoder, input, Cursor());
      var r := ReadAt(decoder, input, Cursor());
      MoveTo(r);
      return r.status == TD.Parsing;
    }

    /** `nextAsciiChar`, with the one-octet version of the UTF-8 parser. */
    method NextAsciiChar() returns (ok: bool)
      requires Sound()
      modifies this
      ensures Sound() && Kept() && NamesKept()
      ensures Moved(TD.ReadAsciiChar(decoder, input, old(Cursor())))
      ensures ok <==> TD.ReadAsciiChar(decoder, input, old(Cursor())).status == TD.Parsing
      ensures ok ==> Fresh() && currentChar < 0x80
    {
      ReadAsciiSize(decoder, input, Cursor());
      var r := ReadAsciiAt(decoder, input, Cursor());
      MoveTo(r);
      return r.status == TD.Parsing;
    }

    /** `skipWhitespaces`: the answer is `isOk` afterwards. */
    method SkipWhitespaces() returns (ok: bool)
      requires Sound()
      modifies this
      ensures Sound() && Kept() && NamesKept()
      ensures Moved(SkipSpace(decoder, input, old(Cursor())))
      ensures ok == IsOk()
      ensures old(Fresh()) && SkipSpace(decoder, input, old(Cursor())).status == TD.Parsing ==> Fresh()
    {
      var r := SkipSpaceAt(decoder, input, Cursor());
      MoveTo(r);
      return IsOk();
    }

    /** Put a name into the buffer `nameType` chooses. */
    method StoreName(nameType: NameType, name: seq<Byte>)
      modifies this
      ensures nameType == TagName ==> tagName == name && attrName == old(attrName)
      ensures nameType == AttributeName ==> attrName == name && tagName == old(tagName)
      ensures value == old(value) && Kept()
      ensures pos == old(pos) && currentChar == old(currentChar) && token == old(token) && incomplete == old(incomplete)
    {
      if nameType == TagName {
        tagName := name;
      } else {
        attrName := name;
      }
    }

    /**
     * What `parseName` has done once the current character started a name:
     * the name was read to the first character that does not continue it,
     * or to a character that could not be read, and stored (`ReadName`);
     * the UTF-8 parser leaves the buffer alone when the name is cut short.
     */
    twostate predicate NameRead(nameType: NameType)
      requires old(Sound()) && old(Fresh())
      reads this
    {
      var e := NameEnd(decoder, old(input), old(Cursor()));
      var name :=
        if decoder.Utf8? && e.status != TD.Parsing then (if nameType == TagName then old(tagName) else old(attrName))
        else ReadName(decoder, old(input), old(Cursor()));
      Moved(e) &&
      (nameType == TagName ==> tagName == name && attrName == old(attrName)) &&
      (nameType == AttributeName ==> attrName == name && tagName == old(tagName))
    }

    /**
     * `parseName`: nothing happens unless the current character may start
     * a name; otherwise the name is read and stored (`NameRead`). A name
     * read to its end is never empty.
     */
    method ParseName(nameType: NameType) returns (handled: bool)
      requires Sound() && Fresh()
      modifies this
      ensures Sound() && Kept() && value == old(value)
      ensures handled <==> IsNameStartChar(old(currentChar))
      ensures !handled ==> unchanged(this)
      ensures handled ==> NameRead(nameType)
      ensures handled && Live() ==>
        Fresh() && !IsNameChar(currentChar) && |if nameType == TagName then tagName else attrName| >= 1
    {
      if !IsNameStartChar(currentChar) {
        return false;
      }
      if decoder.Utf8? {
        ParseNameUtf8(nameType);
      } else {
        ParseNameDecoded(nameType);
      }
      return true;
    }

    /** The UTF-8 parser's `parseName`, once the current character starts a name. */
    method ParseNameUtf8(nameType: NameType)
      requires Sound() && Fresh() && IsNameStartChar(currentChar) && decoder.Utf8?
      modifies this
      ensures Sound() && Kept() && value == old(value)
      ensures NameRead(nameType)
      ensures Live() ==>
        Fresh() && !IsNameChar(currentChar) && |if nameType == TagName then tagName else attrName| >= 1
    {
      var startOfName := pos - MeasuredSize(decoder, currentChar).n;
      var e := SkipName(decoder, input, Cursor());
      MoveTo(e);
      if e.status != TD.Parsing {
        return;
      }
      // the character after the name is taken to be a one-octet one
      StoreName(nameType, input[startOfName..pos - 1]);
    }

    /**
     * `parseName` of the other parsers, once the current character starts a
     * name: each character is written to the name buffer as UTF-8 (the
     * growing buffer always has room, and a scalar value always encodes).
     */
    method ParseNameDecoded(nameType: NameType)
      requires Sound() && Fresh() && IsNameStartChar(currentChar) && !decoder.Utf8?
      modifies this
      ensures Sound() && Kept() && value == old(value)
      ensures NameRead(nameType)
      ensures Live() ==>
        Fresh() && !IsNameChar(currentChar) && |if nameType == TagName then tagName else attrName| >= 1
    {
      var e, name := ScanName(decoder, input, Cursor());
      MoveTo(e);
      StoreName(nameType, name);
    }

    /**
     * `parseOpenTag`: nothing happens unless the current character is `<`.
     * When a name follows, it is read, white space after it is skipped,
     * the position of the `<` is remembered as the start of the last tag,
     * the name is pushed and the token is OpenTag; when anything else
     * follows, this is not an open tag and the reader stays past the `<`.
     */
    method ParseOpenTag() returns (handled: bool, ghost pushed: bool)
      requires Sound() && Fresh()
      modifies this
      ensures Sound() && input == old(input) && value == old(value) && attrName == old(attrName)
      ensures savePoint == old(savePoint) && savedFrames == old(savedFrames)
      ensures old(currentChar) != Lt ==> !handled && unchanged(this)
      ensures !handled ==> token == old(token) && incomplete == old(incomplete) && tagName == old(tagName) && Fresh()
      ensures !pushed ==> stack == old(stack) && lastTagStart == old(lastTagStart) && (token == old(token) || token == Error)
      ensures pushed ==>
        handled && token == OpenTag && stack == old(stack) + [tagName] &&
        lastTagStart == Some(old(pos) - |Encoded(decoder, Lt)|)
      ensures handled && Live() ==>
        pushed && old(Live()) && Fresh() && !IsSpace(currentChar) &&
        (var n := TD.ReadChar(decoder, input, old(Cursor())); n.status == TD.Parsing && tagName == ReadName(decoder, input, n))
    {
      if currentChar != Lt {
        return false, false;
      }
      AsciiSize(decoder, Lt);
      var tagStart := pos;
      var ok := NextChar();
      if !ok {
        return true, false;
      }
      handled, pushed := OpenTagName(tagStart);
    }

    /** `parseOpenTag` after the `<`: read the name and push it. */
    method OpenTagName(tagStart: nat) returns (handled: bool, ghost pushed: bool)
      requires Sound() && Fresh() && |Encoded(decoder, Lt)| <= tagStart <= |input|
      modifies this
      ensures Sound() && input == old(input) && value == old(value) && attrName == old(attrName)
      ensures savePoint == old(savePoint) && savedFrames == old(savedFrames)
      ensures !handled ==> unchanged(this)
      ensures !pushed ==> stack == old(stack) && lastTagStart == old(lastTagStart) && (token == old(token) || token == Error)
      ensures pushed ==>
        handled && token == OpenTag && stack == old(stack) + [tagName] &&
        lastTagStart == Some(tagStart - |Encoded(decoder, Lt)|)
      ensures handled && Live() ==>
        pushed && old(Live()) && Fresh() && !IsSpace(currentChar) && tagName == ReadName(decoder, input, old(Cursor()))
    {
      handled := ParseName(TagName);
      if !handled {
        return false, false;
      }
      pushed := PushOpenTag(tagStart);
    }

    /**
     * The end of `parseOpenTag`, once the name has been read: when the
     * parser is ok and the white space after the name can be skipped,
     * remember where the tag began and push its name.
     */
    method PushOpenTag(tagStart: nat) returns (pushed: bool)
      requires Sound() && |Encoded(decoder, Lt)| <= tagStart <= |input| && (Live() ==> Fresh())
      modifies this
      ensures Sound() && input == old(input) && NamesKept()
      ensures savePoint == old(savePoint) && savedFrames == old(savedFrames)
      ensures !pushed ==> stack == old(stack) && lastTagStart == old(lastTagStart) && (token == old(token) || token == Error)
      ensures pushed ==>
        token == OpenTag && stack == old(stack) + [tagName] &&
        lastTagStart == Some(tagStart - |Encoded(decoder, Lt)|)
      ensures Live() ==> pushed && old(Live()) && Fresh() && !IsSpace(currentChar)
    {
      if !IsOk() {
        return false;
      }
      var ok := SkipWhitespaces();
      if !ok {
        return false;
      }
      lastTagStart := Some(tagStart - MeasuredSize(decoder, Lt).n);
      stack := stack + [tagName];
      token := OpenTag;
      return true;
    }

    /**
     * `parseCloseTag`: nothing happens unless the current characters are
     * `</` (the reader goes back to the `<` otherwise). The name after them
     * must be the name on top of the parse stack; white space may follow
     * it, then `>`. The character after the `>` is read unless this closes
     * the outermost element. The position of the `<` is remembered as the
     * start of the last tag and the token is CloseTag; the stack is left
     * for `parseNext` to pop.
     */
    method ParseCloseTag() returns (handled: bool, ghost closed: bool)
      requires Sound() && Fresh()
      modifies this
      ensures Sound() && input == old(input) && stack == old(stack) && value == old(value) && attrName == old(attrName)
      ensures savePoint == old(savePoint) && savedFrames == old(savedFrames)
      ensures old(currentChar) != Lt ==> !handled
      ensures !handled ==> Idle()
      ensures !closed ==> lastTagStart == old(lastTagStart) && (token == old(token) || token == Error)
      ensures closed ==>
        handled && token == CloseTag && tagName == Top(stack) &&
        lastTagStart == Some(old(pos) - |Encoded(decoder, Lt)|)
      ensures handled && Live() ==>
        closed && old(Live()) && Fresh() && |tagName| >= 1 &&
        (var n := TD.ReadChar(decoder, input, old(Cursor()));
         n.status == TD.Parsing &&
         (var m := TD.ReadChar(decoder, input, n); m.status == TD.Parsing && tagName == ReadName(decoder, input, m)))
    {
      if currentChar != Lt {
        return false, false;
      }
      AsciiSize(decoder, Lt);
      var originalPos := pos;
      var ok := NextChar();
      if !ok {
        return true, false;
      }
      handled, closed := CloseTagSlash(originalPos);
    }

    /**
     * `parseCloseTag` after the `<`: unless a `/` follows, the reader goes
     * back to the `<` and nothing else has changed.
     */
    method CloseTagSlash(originalPos: nat) returns (handled: bool, ghost closed: bool)
      requires Sound() && Fresh() && |Encoded(decoder, Lt)| <= originalPos <= |input|
      modifies this
      ensures Sound() && input == old(input) && stack == old(stack) && value == old(value) && attrName == old(attrName)
      ensures savePoint == old(savePoint) && savedFrames == old(savedFrames)
      ensures !handled ==>
        pos == originalPos && currentChar == Lt && Kept() && NamesKept() &&
        token == old(token) && incomplete == old(incomplete)
      ensures !closed ==> lastTagStart == old(lastTagStart) && (token == old(token) || token == Error)
      ensures closed ==>
        handled && token == CloseTag && tagName == Top(stack) &&
        lastTagStart == Some(originalPos - |Encoded(decoder, Lt)|)
      ensures handled && Live() ==>
        closed && old(Live()) && Fresh() && |tagName| >= 1 &&
        (var n := TD.ReadChar(decoder, input, old(Cursor())); n.status == TD.Parsing && tagName == ReadName(decoder, input, n))
    {
      if currentChar != Slash {
        pos, currentChar := originalPos, Lt;
        return false, false;
      }
      var ok := NextChar();
      if !ok {
        return true, false;
      }
      ghost var named;
      closed, named := CloseTagName(originalPos);
      return true, closed;
    }

    /**
     * `parseCloseTag` after the `</`: the name must start here and, once
     * read, be the name on top of the stack; a mismatch is an error.
     */
    method CloseTagName(originalPos: nat) returns (ghost closed: bool, ghost named: bool)
      requires Sound() && Fresh() && |Encoded(decoder, Lt)| <= originalPos <= |input|
      modifies this
      ensures Sound() && input == old(input) && stack == old(stack) && value == old(value) && attrName == old(attrName)
      ensures savePoint == old(savePoint) && savedFrames == old(savedFrames)
      ensures !IsNameStartChar(old(currentChar)) ==> token == Error && !closed
      ensures old(Live()) && IsNameStartChar(old(currentChar)) && NameEnd(decoder, input, old(Cursor())).status == TD.Parsing ==> named
      ensures named && tagName != Top(stack) ==> token == Error && !closed
      ensures !closed ==> lastTagStart == old(lastTagStart) && (token == old(token) || token == Error)
      ensures closed ==>
        named && token == CloseTag && tagName == Top(stack) &&
        lastTagStart == Some(originalPos - |Encoded(decoder, Lt)|)
      ensures Live() ==> closed && old(Live()) && Fresh() && |tagName| >= 1 && tagName == ReadName(decoder, input, old(Cursor()))
    {
      var handled := ParseName(TagName);
      if !handled {
        token := Error;
        return false, false;
      }
      closed, named := CloseTagMatch(originalPos);
    }

    /** `parseCloseTag` once a name was read: it must be the name on top of the stack. */
    method CloseTagMatch(originalPos: nat) returns (ghost closed: bool, ghost named: bool)
      requires Sound() && (Live() ==> Fresh()) && |Encoded(decoder, Lt)| <= originalPos <= |input|
      modifies this
      ensures Sound() && input == old(input) && stack == old(stack) && NamesKept()
      ensures savePoint == old(savePoint) && savedFrames == old(savedFrames)
      ensures named == old(IsOk())
      ensures named && tagName != Top(stack) ==> token == Error && !closed
      ensures !closed ==> lastTagStart == old(lastTagStart) && (token == old(token) || token == Error)
      ensures closed ==>
        named && token == CloseTag && tagName == Top(stack) &&
        lastTagStart == Some(originalPos - |Encoded(decoder, Lt)|)
      ensures Live() ==> closed && old(Live()) && Fresh()
    {
      if !IsOk() {
        return false, false;
      }
      named := true;
      if tagName != Top(stack) {
        token := Error;
        return false, true;
      }
      closed := CloseTagEnd(originalPos);
    }

    /** The end of `parseCloseTag`, once the name matched: optional white space and `>`. */
    method CloseTagEnd(originalPos: nat) returns (ghost closed: bool)
      requires Sound() && IsOk() && (Live() ==> Fresh()) && |Encoded(decoder, Lt)| <= originalPos <= |input|
      modifies this
      ensures Sound() && input == old(input) && stack == old(stack) && NamesKept()
      ensures savePoint == old(savePoint) && savedFrames == old(savedFrames)
      ensures !closed ==> lastTagStart == old(lastTagStart) && (token == old(token) || token == Error)
      ensures closed ==> token == CloseTag && lastTagStart == Some(originalPos - |Encoded(decoder, Lt)|)
      ensures Live() ==> closed && old(Live()) && Fresh()
    {
      var ok := SkipWhitespaces();
      if !ok {
        return false;
      }
      closed := CloseTagGt(originalPos);
    }

    /** The `>` that ends a close tag, and the character after it unless the outermost element closes. */
    method CloseTagGt(originalPos: nat) returns (ghost closed: bool)
      requires Sound() && IsOk() && (Live() ==> Fresh()) && |Encoded(decoder, Lt)| <= originalPos <= |input|
      modifies this
      ensures Sound() && input == old(input) && stack == old(stack) && NamesKept()
      ensures savePoint == old(savePoint) && savedFrames == old(savedFrames)
      ensures !closed ==> lastTagStart == old(lastTagStart) && (token == old(token) || token == Error)
      ensures old(currentChar) != Gt ==> token == Error && !closed
      ensures closed ==> token == CloseTag && lastTagStart == Some(originalPos - |Encoded(decoder, Lt)|)
      ensures Live() ==> closed && old(Live()) && Fresh()
    {
      if currentChar != Gt {
        token := Error;
        return false;
      }
      if |stack| > 1 {
        var ok := NextChar();
        if !ok {
          return false;
        }
      }
      lastTagStart := Some(originalPos - MeasuredSize(decoder, Lt).n);
      token := CloseTag;
      return true;
    }

    /**
     * The reader stands where the scan `r` ended: a truncated character
     * marks the document incomplete and an error sets Error; when the scan
     * went through, the token becomes `success` if one is given. The value
     * buffer holds the decoded text when there was one.
     */
    twostate predicate Scanned(r: Scan, success: Option<TokenType>)
      reads this
    {
      pos == r.end.pos && currentChar == r.end.cur &&
      incomplete == (r.end.status == TD.IncompleteText) &&
      token == (if r.end.status == TD.Error then Error
                else if r.end.status == TD.Parsing && success.Some? then success.value
                else old(token)) &&
      (if r.text.Some? then ValueHolds(value, r.text.value) else value == old(value))
    }

    /**
     * `parseText`: nothing happens on `<`. Otherwise the text from the
     * current character to the next `<` is decoded into the value buffer
     * (TextScan); the reader goes to the `<` and the token is Text.
     */
    method ParseText() returns (handled: bool)
      requires Sound() && Fresh()
      modifies this
      ensures Sound() && Kept() && tagName == old(tagName) && attrName == old(attrName)
      ensures handled == (old(currentChar) != Lt)
      ensures !handled ==> Idle()
      ensures handled && old(Live()) ==> Scanned(TextScan(decoder, input, old(Cursor())), Some(Text))
      ensures Live() ==> Fresh()
    {
      if currentChar == Lt {
        return false;
      }
      var end, text := TextScanAt(decoder, input, Cursor(), value);
      value := text;
      MoveTo(end);
      if end.status == TD.Parsing {
        token := Text;
      }
      return true;
    }

    /**
     * `parseAttribute`: nothing happens unless the current character may
     * start a name. The name is read into the attribute name buffer; when
     * it was read to its end, AttributeScan goes on from the character
     * after it, and the token becomes Attribute when `setType` asks for it.
     * A successful attribute leaves the reader further on, on a character
     * that is not white space.
     */
    method ParseAttribute(setType: bool) returns (handled: bool)
      requires Sound() && Fresh()
      modifies this
      ensures Sound() && Kept() && tagName == old(tagName)
      ensures handled == IsNameStartChar(old(currentChar))
      ensures !handled ==> Idle()
      ensures handled && old(token) != CloseDocument && NameEnd(decoder, input, old(Cursor())).status != TD.Parsing ==>
        NameRead(AttributeName) && value == old(value)
      ensures handled && old(Active()) && NameEnd(decoder, input, old(Cursor())).status == TD.Parsing ==>
        attrName == ReadName(decoder, input, old(Cursor())) &&
        Scanned(AttributeScan(decoder, input, NameEnd(decoder, input, old(Cursor()))), if setType then Some(Attribute) else None)
      ensures handled && Live() ==> old(Live()) && Fresh() && old(pos) < pos && !IsSpace(currentChar)
    {
      handled := ParseName(AttributeName);
      if !handled {
        return;
      }
      if !IsOk() {
        return;
      }
      AttributeAfterName(setType);
    }

    /** `parseAttribute` once the name was read: white space, then `=`. */
    method AttributeAfterName(setType: bool)
      requires Sound() && (Live() ==> Fresh())
      modifies this
      ensures Sound() && Kept() && tagName == old(tagName) && attrName == old(attrName)
      ensures old(Active()) ==> Scanned(AttributeScan(decoder, input, old(Cursor())), if setType then Some(Attribute) else None)
      ensures Live() ==> old(Live()) && Fresh() && old(pos) <= pos && !IsSpace(currentChar)
    {
      var ok := SkipWhitespaces();
      if !ok {
        return;
      }
      if currentChar != EqualsSign {
        token := Error;
        return;
      }
      AttributeEquals(setType);
    }

    /** After the `=`: read the next character. */
    method AttributeEquals(setType: bool)
      requires Sound() && (Live() ==> Fresh())
      modifies this
      ensures Sound() && Kept() && tagName == old(tagName) && attrName == old(attrName)
      ensures old(Active()) ==> Scanned(EqualsScan(decoder, input, old(Cursor())), if setType then Some(Attribute) else None)
      ensures Live() ==> old(Live()) && Fresh() && old(pos) <= pos && !IsSpace(currentChar)
    {
      var ok := NextChar();
      if !ok {
        return;
      }
      AttributeQuote(setType);
    }

    /** White space, then the quote that opens the value. */
    method AttributeQuote(setType: bool)
      requires Sound() && Fresh()
      modifies this
      ensures Sound() && Kept() && tagName == old(tagName) && attrName == old(attrName)
      ensures old(Active()) ==> Scanned(QuoteScan(decoder, input, old(Cursor())), if setType then Some(Attribute) else None)
      ensures Live() ==> old(Live()) && Fresh() && old(pos) <= pos && !IsSpace(currentChar)
    {
      var ok := SkipWhitespaces();
      if !ok {
        return;
      }
      if currentChar != Quote && currentChar != Apostrophe {
        token := Error;
        return;
      }
      AttributeValue(setType);
    }

    /**
     * The value: a `TextDecodingHelper` decodes the octets after the quote
     * into the value buffer, up to the closing quote; when it fails, its
     * error or incompleteness is taken over. Otherwise the reader goes on
     * after the closing quote.
     */
    method AttributeValue(setType: bool)
      requires Sound()
      modifies this
      ensures Sound() && Kept() && tagName == old(tagName) && attrName == old(attrName)
      ensures old(Active()) ==> Scanned(ValueScan(decoder, input, old(Cursor())), if setType then Some(Attribute) else None)
      ensures Live() ==> old(Live()) && Fresh() && old(pos) <= pos && !IsSpace(currentChar)
    {
      var end, text := ValueDecodeAt(decoder, input, Cursor(), value);
      value := text;
      if end.status != TD.Parsing {
        MoveTo(end);
        return;
      }
      pos := end.pos;
      AttributeTail(setType);
    }

    /** After the closing quote: read the next character and skip white space. */
    method AttributeTail(setType: bool)
      requires Sound()
      modifies this
      ensures Sound() && Kept() && NamesKept()
      ensures old(Active()) ==> Scanned(Scan(AfterValue(decoder, input, old(Cursor())), None), if setType then Some(Attribute) else None)
      ensures Live() ==> old(Live()) && Fresh() && old(pos) <= pos && !IsSpace(currentChar)
    {
      var ok := NextChar();
      if !ok {
        return;
      }
      AttributeSpace(setType);
    }

    /** The last white space of an attribute; the token becomes Attribute when `setType` asks for it. */
    method AttributeSpace(setType: bool)
      requires Sound() && (Live() ==> Fresh())
      modifies this
      ensures Sound() && Kept() && NamesKept()
      ensures old(Active()) ==> Scanned(Scan(SkipSpace(decoder, input, old(Cursor())), None), if setType then Some(Attribute) else None)
      ensures Live() ==> old(Live()) && Fresh() && old(pos) <= pos && !IsSpace(currentChar)
    {
      var ok := SkipWhitespaces();
      if !ok {
        return;
      }
      if setType {
        token := Attribute;
      }
    }

    /**
     * `parseAfterTag`: after a tag comes a close tag, an open tag or text,
     * tried in that order; anything else is not handled.
     */
    method ParseAfterTag() returns (handled: bool)
      requires Sound() && Fresh()
      modifies this
      ensures Sound() && input == old(input) && attrName == old(attrName)
      ensures savePoint == old(savePoint) && savedFrames == old(savedFrames)
      ensures stack == old(stack) || (token == OpenTag && stack == old(stack) + [tagName])
      ensures !handled ==> stack == old(stack) && token == old(token) && incomplete == old(incomplete) && Fresh()
      ensures handled && old(Live()) && Live() ==>
        Fresh() &&
        ((token == CloseTag && stack == old(stack) && |tagName| >= 1 && tagName == Top(stack)) ||
         (token == OpenTag && stack == old(stack) + [tagName]) ||
         (token == Text && stack == old(stack)))
    {
      ghost var closed, pushed;
      handled, closed := ParseCloseTag();
      if handled {
        return;
      }
      handled, pushed := ParseOpenTag();
      if handled {
        return;
      }
      handled := ParseText();
    }

    /**
     * `handleXmlDecl`, in the state `parseNext` calls it in: the document
     * may begin with the declaration `<?xml ...?>`. Without one (a first
     * character other than `<`, or a `<` not followed by `?`) nothing
     * changes (`decl` is false). Otherwise the declaration is read as
     * XmlDecl reads it: its name must be `xml`, each of its attributes must
     * pass DeclAttributeOk, and it ends with `?>`; the reader then stands
     * after the `>`. When the answer is false the reader goes back to where
     * it was, and the parser has failed or waits for more input.
     */
    method HandleXmlDecl() returns (ok: bool, ghost decl: bool)
      requires Sound() && Fresh() && Active()
      modifies this
      ensures Sound() && Kept()
      ensures !decl ==> ok && Idle()
      ensures ok <==> Live()
      ensures ok ==> token == old(token) && Fresh()
      ensures !ok ==> pos == old(pos) && currentChar == old(currentChar)
      ensures var r := XmlDecl(decoder, input, old(Cursor()));
        decl == r.Some? && (ok <==> r.None? || r.value.status == TD.Parsing) &&
        (ok && decl ==> pos == r.value.pos && currentChar == r.value.cur && tagName == XmlName) &&
        (!ok ==> incomplete == (r.value.status == TD.IncompleteText || XmlDeclCut(decoder, input, old(Cursor()))) &&
                 token == (if r.value.status == TD.Error then Error else old(token)))
    {
      if currentChar != Lt {
        return true, false;
      }
      var originalPos, originalChar := pos, currentChar;
      var isDecl;
      ok, isDecl := DeclBody();
      decl := isDecl;
      if !ok || !isDecl {
        MoveTo(TD.Cursor(originalPos, originalChar, TD.Parsing));
      }
    }

    /** `handleXmlDecl` after the `<`, up to where the reader is put back. */
    method DeclBody() returns (ok: bool, decl: bool)
      requires Sound() && Fresh() && Active() && currentChar == Lt
      modifies this
      ensures Sound() && Kept()
      ensures !decl ==> ok && NamesKept()
      ensures ok <==> Live()
      ensures ok ==> token == old(token) && Fresh()
      ensures var r := XmlDecl(decoder, input, old(Cursor()));
        decl == r.Some? && (decl ==> MovedCut(r.value, XmlDeclCut(decoder, input, old(Cursor())))) &&
        (!decl ==> token == old(token) && incomplete == old(incomplete))
      ensures ok && decl ==> tagName == XmlName
    {
      ok, decl := DeclStart();
      if ok && decl {
        ok := DeclRest();
      }
    }

    /**
     * The `?` after the `<`, the name `xml` and the white space after it,
     * as DeclHead reads them; the name read is the tag name.
     */
    method DeclStart() returns (ok: bool, decl: bool)
      requires Sound() && Fresh() && Active()
      modifies this
      ensures Sound() && Kept() && attrName == old(attrName) && value == old(value)
      ensures !decl ==> ok && tagName == old(tagName) && token == old(token) && incomplete == old(incomplete)
      ensures ok <==> Live()
      ensures ok ==> Fresh()
      ensures var h := DeclHead(decoder, input, old(Cursor()));
        decl == h.Some? && (decl ==> Moved(h.value))
      ensures var n := TD.ReadChar(decoder, input, old(Cursor()));
        decl && n.status == TD.Parsing &&
        (var m := TD.ReadChar(decoder, input, n);
         m.status == TD.Parsing && IsNameStartChar(m.cur) && NameEnd(decoder, input, m).status == TD.Parsing) ==>
          tagName == ReadName(decoder, input, TD.ReadChar(decoder, input, n))
      ensures ok && decl ==> tagName == XmlName
    {
      ok := NextChar();
      if !ok {
        return false, true;
      }
      if currentChar != Question {
        return true, false;
      }
      decl := true;
      ok := NextChar();
      if !ok {
        return;
      }
      ok := DeclTarget();
    }

    /** The name of the declaration and the white space after it, as DeclName reads them. */
    method DeclTarget() returns (ok: bool)
      requires Sound() && Fresh() && Active()
      modifies this
      ensures Sound() && Kept() && attrName == old(attrName) && value == old(value)
      ensures Moved(DeclName(decoder, input, old(Cursor())))
      ensures ok <==> DeclName(decoder, input, old(Cursor())).status == TD.Parsing
      ensures ok ==> Fresh() && tagName == XmlName
      ensures IsNameStartChar(old(currentChar)) && NameEnd(decoder, input, old(Cursor())).status == TD.Parsing ==>
        tagName == ReadName(decoder, input, old(Cursor()))
    {
      var handled := ParseName(TagName);
      if !handled {
        token := Error;
        return false;
      }
      ok := DeclTargetCheck();
    }

    /** Once the declaration's name was read: the parser must be ok and the name `xml`. */
    method DeclTargetCheck() returns (ok: bool)
      requires Sound() && token != CloseDocument && (Live() ==> Fresh())
      modifies this
      ensures Sound() && Kept() && NamesKept()
      ensures ok <==> Live()
      ensures ok ==> token == old(token) && Fresh() && tagName == XmlName
      ensures !old(Live()) ==> Idle()
      ensures old(Live()) ==>
        Moved(if tagName != XmlName then old(Cursor()).(status := TD.Error) else SkipSpace(decoder, input, old(Cursor())))
    {
      if !IsOk() {
        return false;
      }
      if tagName != XmlName {
        token := Error;
        return false;
      }
      ok := SkipWhitespaces();
    }

    /**
     * The attributes of the declaration and the `?>` after them, as
     * DeclTail reads them. The `?` check after the loop also runs when the
     * loop stopped on a truncated attribute, which leaves the document
     * incomplete as well.
     */
    method DeclRest() returns (ok: bool)
      requires Sound() && Fresh() && Active()
      modifies this
      ensures Sound() && Kept() && tagName == old(tagName)
      ensures MovedCut(DeclTail(decoder, input, old(Cursor())), DeclCut(decoder, input, old(Cursor())))
      ensures ok <==> DeclTail(decoder, input, old(Cursor())).status == TD.Parsing
      ensures ok ==> Fresh()
    {
      ok := DeclAttributes();
      if ok {
        ok := DeclEnd();
      } else if incomplete && currentChar != Question {
        token := Error;
      }
    }

    /**
     * The attribute loop of `handleXmlDecl`, as DeclAttrsFrom reads it:
     * attributes are read while one starts at the current character, and
     * each must pass DeclAttributeOk. The loop stops as soon as the parser
     * is no longer ok (see DeclAttributeAsWritten for the loop without that
     * stop).
     */
    method DeclAttributes() returns (ok: bool)
      requires Sound() && Fresh() && Active()
      modifies this
      ensures Sound() && Kept() && tagName == old(tagName)
      ensures Moved(DeclAttrsFrom(decoder, input, old(Cursor())).end)
      ensures ok <==> DeclAttrsFrom(decoder, input, old(Cursor())).end.status == TD.Parsing
      ensures ok ==> Fresh()
    {
      ghost var run := DeclAttrsFrom(decoder, input, Cursor());
      while true
        invariant Sound() && Fresh() && Active() && token == old(token) && incomplete == old(incomplete)
        invariant input == old(input) && stack == old(stack) && lastTagStart == old(lastTagStart)
        invariant savePoint == old(savePoint) && savedFrames == old(savedFrames) && tagName == old(tagName)
        invariant DeclAttrsFrom(decoder, input, Cursor()).end == run.end
        decreases |input| - pos
      {
        var more, accepted := DeclAttribute();
        if !more {
          return true;
        }
        if !accepted {
          return false;
        }
      }
    }

    /**
     * One turn of the attribute loop: read an attribute; once it was read
     * and the parser is still ok, check it (a version or encoding that
     * fails DeclAttributeOk is an error). `accepted` means the loop goes on:
     * the attribute read is then the first of those DeclAttrsFrom lists,
     * and the rest are read from where the reader now stands.
     */
    method DeclAttribute() returns (more: bool, accepted: bool)
      requires Sound() && Fresh() && Active()
      modifies this
      ensures Sound() && Kept() && tagName == old(tagName)
      ensures more == IsNameStartChar(old(currentChar))
      ensures !more ==> Idle()
      ensures accepted <==> more && Live()
      ensures accepted ==> token == old(token) && Fresh() && old(pos) < pos
      ensures more && NameEnd(decoder, input, old(Cursor())).status == TD.Parsing ==>
        attrName == ReadName(decoder, input, old(Cursor()))
      ensures var r := DeclAttrsFrom(decoder, input, old(Cursor()));
        (accepted ==>
          r.attrs == [DeclAttr(attrName, value)] + DeclAttrsFrom(decoder, input, Cursor()).attrs &&
          r.end == DeclAttrsFrom(decoder, input, Cursor()).end) &&
        (more && !accepted ==> Moved(r.end))
    {
      more := DeclAttributeRead();
      if !more {
        return false, false;
      }
      if !IsOk() {
        return true, false;
      }
      if !DeclAttributeOk(decoder, attrName, value) {
        token := Error;
        return true, false;
      }
      return true, true;
    }

    /**
     * The reading half of a turn of the attribute loop: `parseAttribute`.
     * An attribute read to its end is the first DeclAttrsFrom lists; when
     * it cannot be read, the reader stands where the loop stops.
     */
    method DeclAttributeRead() returns (more: bool)
      requires Sound() && Fresh() && Active()
      modifies this
      ensures Sound() && Kept() && tagName == old(tagName)
      ensures more == IsNameStartChar(old(currentChar))
      ensures !more ==> Idle()
      ensures more && NameEnd(decoder, input, old(Cursor())).status == TD.Parsing ==>
        attrName == ReadName(decoder, input, old(Cursor()))
      ensures more && !Live() ==> Moved(DeclAttrsFrom(decoder, input, old(Cursor())).end)
      ensures more && Live() ==>
        token == old(token) && Fresh() && old(pos) < pos &&
        DeclAttrsFrom(decoder, input, old(Cursor())) ==
          if DeclAttributeOk(decoder, attrName, value)
          then AttrRun([DeclAttr(attrName, value)] + DeclAttrsFrom(decoder, input, Cursor()).attrs, DeclAttrsFrom(decoder, input, Cursor()).end)
          else AttrRun([DeclAttr(attrName, value)], Cursor().(status := TD.Error))
    {
      ghost var c := Cursor();
      ghost var e := NameEnd(decoder, input, c);
      more := ParseAttribute(false);
      if !more {
        return;
      }
      if !IsOk() {
        DeclAttrStopped(decoder, input, c, e);
        return;
      }
      DeclAttrRead(decoder, input, c, e, AttributeScan(decoder, input, e), attrName, value);
    }

    /**
     * One turn of the attribute loop as `handleXmlDecl` writes it, without
     * the stop once the parser is no longer ok: when the input ends within
     * an attribute's name, the turn reports an attribute, leaves the reader
     * where it was and, unless the name and value left in the buffers fail
     * the check, the token as it was, so the loop turns forever.
     */
    method DeclAttributeAsWritten() returns (more: bool)
      requires Sound() && Fresh() && Active()
      modifies this
      ensures Sound() && Kept() && tagName == old(tagName)
      ensures old(pos) == |input| && IsNameStartChar(old(currentChar)) ==>
        more && pos == old(pos) && currentChar == old(currentChar) && value == old(value) && incomplete &&
        (decoder.Utf8? ==> attrName == old(attrName)) &&
        (DeclAttributeOk(decoder, attrName, value) ==> token == old(token))
    {
      more := ParseAttribute(false);
      if !more {
        return false;
      }
      if !DeclAttributeOk(decoder, attrName, value) {
        token := Error;
        return true;
      }
      return true;
    }

    /** The `?>` that ends the declaration. */
    method DeclEnd() returns (ok: bool)
      requires Sound() && Fresh() && Active()
      modifies this
      ensures Sound() && Kept() && NamesKept()
      ensures ok <==> Live()
      ensures ok ==> token == old(token) && Fresh()
      ensures !ok ==> token == old(token) || token == Error
      ensures old(currentChar) != Question ==> token == Error
      ensures Moved(DeclClose(decoder, input, old(Cursor())))
    {
      if currentChar != Question {
        token := Error;
        return false;
      }
      ok := NextChar();
      if !ok {
        return;
      }
      ok := DeclGt();
    }

    /** The `>` of the `?>`, and the character after it. */
    method DeclGt() returns (ok: bool)
      requires Sound() && Fresh() && Active()
      modifies this
      ensures Sound() && Kept() && NamesKept()
      ensures ok <==> Live()
      ensures ok ==> token == old(token) && Fresh()
      ensures !ok ==> token == old(token) || token == Error
      ensures old(currentChar) != Gt ==> token == Error
      ensures Moved(DeclGtRead(decoder, input, old(Cursor())))
    {
      if currentChar != Gt {
        token := Error;
        return false;
      }
      ok := NextChar();
    }

    /**
     * `parseNext`: the next token. While the document is incomplete
     * nothing happens and IncompleteDocument is the answer; after the end
     * of the document or an error nothing happens either. Otherwise the
     * parser moves on as the current token allows (Follows): the stack
     * grows by the element an open tag names and loses the element a close
     * tag ended, and the answer is the token now reported.
     */
    method ParseNext() returns (r: TokenType)
      requires Valid()
      modifies this
      ensures Valid() && input == old(input)
      ensures old(incomplete) ==> r == IncompleteDocument && Idle()
      ensures !old(incomplete) ==> r == GetCurrentTokenType()
      ensures old(token) == CloseDocument || old(token) == Error ==> Idle()
      ensures old(Active()) && Live() ==>
        var base := if old(token) == CloseTag then old(stack)[..|old(stack)| - 1] else old(stack);
        Follows(old(token), token) && (if token == OpenTag then stack == base + [tagName] else stack == base)
    {
      if incomplete {
        return IncompleteDocument;
      }
      if token == InitialState {
        NextInitial();
      } else if token == OpenDocument {
        NextOpenDocument();
      } else if token == OpenTag || token == Attribute {
        NextInTag();
      } else if token == CloseTag {
        NextAfterClose();
      } else if token == Text {
        NextAfterText();
      }
      return GetCurrentTokenType();
    }

    /**
     * `parseNext` in the initial state: the declaration, then white space;
     * the token becomes OpenDocument unless either failed.
     */
    method NextInitial()
      requires Valid() && Active() && token == InitialState
      modifies this
      ensures Valid() && input == old(input) && stack == old(stack)
      ensures Live() ==> token == OpenDocument
    {
      var ok, decl := HandleXmlDecl();
      if !ok {
        return;
      }
      var skipped := SkipWhitespaces();
      if token == Error || incomplete {
        return;
      }
      token := OpenDocument;
    }

    /** `parseNext` after OpenDocument: the outermost open tag, or an error. */
    method NextOpenDocument()
      requires Valid() && Active() && token == OpenDocument
      modifies this
      ensures Valid() && input == old(input)
      ensures Live() ==> token == OpenTag && stack == old(stack) + [tagName]
    {
      ghost var pushed;
      var handled;
      handled, pushed := ParseOpenTag();
      if !handled {
        token := Error;
      }
    }

    /**
     * `parseNext` inside an open tag: another attribute; else `>` and what
     * follows the tag; else `/>`, which closes the element at once.
     */
    method NextInTag()
      requires Valid() && Active() && (token == OpenTag || token == Attribute)
      modifies this
      ensures Valid() && input == old(input)
      ensures Live() ==>
        (token == Attribute && stack == old(stack)) ||
        (token == CloseTag && stack == old(stack)) ||
        (token == OpenTag && stack == old(stack) + [tagName]) ||
        (token == Text && stack == old(stack))
    {
      var handled := ParseAttribute(true);
      if handled {
        return;
      }
      InTagEnd();
    }

    /** The end of an open tag: `>` or `/>`; anything else is an error. */
    method InTagEnd()
      requires Valid() && Active() && (token == OpenTag || token == Attribute)
      modifies this
      ensures Valid() && input == old(input)
      ensures old(currentChar) != Gt && old(currentChar) != Slash ==> token == Error
      ensures Live() ==>
        (token == CloseTag && stack == old(stack)) ||
        (token == OpenTag && stack == old(stack) + [tagName]) ||
        (token == Text && stack == old(stack))
    {
      if currentChar == Gt {
        InTagGt();
      } else if currentChar == Slash {
        InTagSlash();
      } else {
        token := Error;
      }
    }

    /** After the `>` of an open tag: what follows the tag (ParseAfterTag), or an error. */
    method InTagGt()
      requires Valid() && Active() && (token == OpenTag || token == Attribute)
      modifies this
      ensures Valid() && input == old(input)
      ensures Live() ==>
        (token == CloseTag && stack == old(stack)) ||
        (token == OpenTag && stack == old(stack) + [tagName]) ||
        (token == Text && stack == old(stack))
    {
      var ok := NextChar();
      if !ok {
        return;
      }
      var handled := ParseAfterTag();
      if !handled {
        token := Error;
      }
    }

    /** After the `/` of an open tag: `>` must follow. */
    method InTagSlash()
      requires Valid() && Active() && (token == OpenTag || token == Attribute)
      modifies this
      ensures Valid() && input == old(input) && stack == old(stack)
      ensures Live() ==> token == CloseTag
    {
      var ok := NextChar();
      if !ok {
        return;
      }
      InTagEmpty();
    }

    /**
     * The `>` of `/>`: the token becomes CloseTag. The character after it
     * is read unless this closes the outermost element, which leaves NUL
     * as the current character instead.
     */
    method InTagEmpty()
      requires Valid() && Active() && (token == OpenTag || token == Attribute)
      modifies this
      ensures Valid() && input == old(input) && stack == old(stack) && tagName == old(tagName)
      ensures old(currentChar) != Gt ==> token == Error
      ensures old(currentChar) == Gt ==> token == CloseTag || token == Error
      ensures old(currentChar) == Gt && |stack| == 1 ==> token == CloseTag && Live() && currentChar == 0 && pos == old(pos)
      ensures Live() ==> token == CloseTag
    {
      if currentChar != Gt {
        token := Error;
        return;
      }
      token := CloseTag;
      if |stack| == 1 {
        AsciiSize(decoder, Gt);
        AsciiSize(decoder, 0);
        currentChar := 0;
      } else {
        var ok := NextChar();
      }
    }

    /**
     * `parseNext` after a close tag: the save point is told first
     * (AboutToPopParseStack), then the element is popped. An empty stack
     * ends the document; otherwise what follows the tag is read, or it is
     * an error.
     */
    method NextAfterClose()
      requires Valid() && Active() && token == CloseTag
      modifies this
      ensures Valid() && input == old(input)
      ensures Live() ==>
        var base := old(stack)[..|old(stack)| - 1];
        (token == CloseDocument && stack == base == []) ||
        (token == CloseTag && stack == base) ||
        (token == OpenTag && stack == base + [tagName]) ||
        (token == Text && stack == base)
    {
      AboutToPopParseStack();
      stack := stack[..|stack| - 1];
      if |stack| == 0 {
        token := CloseDocument;
        return;
      }
      AfterPop();
    }

    /** What follows a close tag once its element was popped. */
    method AfterPop()
      requires Sound() && Fresh() && Active() && SaveConsistent() && |stack| >= 1
      modifies this
      ensures Valid() && input == old(input)
      ensures Live() ==>
        (token == CloseTag && stack == old(stack)) ||
        (token == OpenTag && stack == old(stack) + [tagName]) ||
        (token == Text && stack == old(stack))
    {
      var handled := ParseAfterTag();
      if !handled {
        token := Error;
      }
    }

    /** `parseNext` after text: a close tag, else an open tag, else an error. */
    method NextAfterText()
      requires Valid() && Active() && token == Text
      modifies this
      ensures Valid() && input == old(input)
      ensures Live() ==> (token == CloseTag && stack == old(stack)) || (token == OpenTag && stack == old(stack) + [tagName])
    {
      var handled;
      ghost var closed;
      handled, closed := ParseCloseTag();
      if handled {
        return;
      }
      TextOpenTag();
    }

    /** The open tag after text, or an error. */
    method TextOpenTag()
      requires Valid() && Active() && token == Text
      modifies this
      ensures Valid() && input == old(input)
      ensures Live() ==> token == OpenTag && stack == old(stack) + [tagName]
    {
      var handled;
      ghost var pushed;
      handled, pushed := ParseOpenTag();
      if !handled {
        token := Error;
      }
    }

    /**
     * `aboutToPopParseStack`, called before each pop: when the save point
     * holds no copy of the stack and the stack is exactly as deep as the
     * frames it returns to, the next pop would lose one of them, so the
     * stack is copied first.
     */
    method AboutToPopParseStack()
      requires Sound() && SaveConsistent()
      modifies this
      ensures Sound() && SaveConsistent()
      ensures input == old(input) && stack == old(stack) && lastTagStart == old(lastTagStart) && savedFrames == old(savedFrames)
      ensures pos == old(pos) && currentChar == old(currentChar) && token == old(token) && incomplete == old(incomplete) && NamesKept()
      ensures savePoint.None? <==> old(savePoint).None?
      ensures savePoint.Some? ==> savePoint.value.readPointer == old(savePoint).value.readPointer
      ensures savePoint.Some? && savePoint.value.copy.None? ==> savePoint.value.stackSize < |stack|
    {
      if savePoint.None? {
        return;
      }
      var sp := savePoint.value;
      if sp.copy.Some? || |stack| != sp.stackSize {
        return;
      }
      savePoint := Some(sp.(copy := Some(stack)));
    }

    /**
     * `setSavePoint`, where a save point can be returned to: at the start
     * of the last tag read, keeping the frames below that tag (all of them
     * when it was a close tag, which is still on the stack). It is refused
     * while the document is incomplete or failed, before the first tag, and
     * once the stack is empty.
     */
    method SetSavePoint() returns (ok: bool)
      requires Valid()
      modifies this
      ensures Valid()
      ensures input == old(input) && stack == old(stack) && lastTagStart == old(lastTagStart)
      ensures pos == old(pos) && currentChar == old(currentChar) && token == old(token) && incomplete == old(incomplete) && NamesKept()
      ensures ok <==> Live() && token != InitialState && lastTagStart.Some? && (token == CloseTag || |stack| >= 1)
      ensures !ok ==> savePoint == old(savePoint) && savedFrames == old(savedFrames)
      ensures ok ==>
        var n := if token == CloseTag then |stack| else |stack| - 1;
        savePoint == Some(SavePoint(lastTagStart.value, None, n)) && savedFrames == stack[..n]
    {
      if incomplete || token == Error || token == InitialState || lastTagStart.None? || (token != CloseTag && |stack| == 0) {
        return false;
      }
      var n := if token == CloseTag then |stack| else |stack| - 1;
      savePoint := Some(SavePoint(lastTagStart.value, None, n));
      savedFrames := stack[..n];
      return true;
    }

    /**
     * `restoreToSavePoint`: without a save point this is an error.
     * Otherwise the reader goes back to the start of the saved tag, the
     * document is no longer incomplete, the stack goes back to the saved
     * frames (from the copy, or by popping), and the tag there is parsed
     * again, as a close tag or as an open tag; anything else is an error.
     */
    method RestoreToSavePoint() returns (ok: bool)
      requires Valid()
      modifies this
      ensures Valid() && input == old(input)
      ensures old(savePoint).None? ==>
        !ok && token == Error && stack == old(stack) && pos == old(pos) && savePoint == old(savePoint)
      ensures old(savePoint).Some? ==>
        savePoint.Some? && savePoint.value.readPointer == old(savePoint).value.readPointer && savedFrames == old(savedFrames)
      ensures !ok ==> token == Error || incomplete
      ensures ok && Live() ==>
        old(savePoint).Some? && lastTagStart == Some(old(savePoint).value.readPointer) &&
        ((token == CloseTag && stack == old(savedFrames)) || (token == OpenTag && stack == old(savedFrames) + [tagName]))
    {
      if savePoint.None? {
        token := Error;
        return false;
      }
      RestoreFrames();
      ok := RestoreTag(pos);
    }

    /** The reader and the stack go back to the save point. */
    method RestoreFrames()
      requires Valid() && savePoint.Some?
      modifies this
      ensures Sound() && SaveConsistent() && input == old(input) && token == old(token) && NamesKept()
      ensures savePoint.Some? && savePoint.value.readPointer == old(savePoint).value.readPointer && savedFrames == old(savedFrames)
      ensures pos == savePoint.value.readPointer && lastTagStart == Some(pos) && !incomplete
      ensures stack == savedFrames
    {
      var sp := savePoint.value;
      lastTagStart := Some(sp.readPointer);
      pos := sp.readPointer;
      incomplete := false;
      if sp.copy.Some? {
        stack := sp.copy.value;
        savePoint := Some(SavePoint(sp.readPointer, None, |stack|));
      } else {
        stack := PopTo(stack, sp.stackSize);
      }
    }

    /** The saved tag parsed again, from its `<` at `tagStart`. */
    method RestoreTag(tagStart: nat) returns (ok: bool)
      requires Sound() && SaveConsistent() && pos == tagStart && lastTagStart == Some(tagStart) && !incomplete
      requires stack == savedFrames
      modifies this
      ensures Valid() && input == old(input) && savePoint == old(savePoint) && savedFrames == old(savedFrames)
      ensures !ok ==> token == Error || incomplete
      ensures ok && Live() ==>
        lastTagStart == Some(tagStart) &&
        ((token == CloseTag && stack == old(stack)) || (token == OpenTag && stack == old(stack) + [tagName]))
    {
      ReadAsciiSize(decoder, input, Cursor());
      ok := NextAsciiChar();
      if !ok {
        return;
      }
      ok := RestoreParse(tagStart);
    }

    /** A close tag, else an open tag, at the save point; anything else is an error. */
    method RestoreParse(tagStart: nat) returns (ok: bool)
      requires Sound() && Fresh() && SaveConsistent() && !incomplete && stack == savedFrames
      requires lastTagStart == Some(tagStart) && (currentChar == Lt ==> pos == tagStart + |Encoded(decoder, Lt)|)
      modifies this
      ensures Valid() && input == old(input) && savePoint == old(savePoint) && savedFrames == old(savedFrames)
      ensures !ok ==> token == Error
      ensures ok && Live() ==>
        lastTagStart == Some(tagStart) &&
        ((token == CloseTag && stack == old(stack)) || (token == OpenTag && stack == old(stack) + [tagName]))
    {
      var handled;
      ghost var closed;
      handled, closed := ParseCloseTag();
      if handled {
        return true;
      }
      ok := RestoreOpen(tagStart);
    }

    /** An open tag at the save point, or an error. */
    method RestoreOpen(tagStart: nat) returns (ok: bool)
      requires Sound() && Fresh() && SaveConsistent() && !incomplete && stack == savedFrames
      requires lastTagStart == Some(tagStart) && (currentChar == Lt ==> pos == tagStart + |Encoded(decoder, Lt)|)
      modifies this
      ensures Valid() && input == old(input) && savePoint == old(savePoint) && savedFrames == old(savedFrames)
      ensures !ok ==> token == Error
      ensures ok && Live() ==> lastTagStart == Some(tagStart) && token == OpenTag && stack == old(stack) + [tagName]
    {
      var handled;
      ghost var pushed;
      handled, pushed := ParseOpenTag();
      if !handled {
        token := Error;
        return false;
      }
      return true;
    }

    /**
     * `appendData`: more of the document arrives. The positions held stay
     * indices into the longer input.
     */
    method AppendData(data: seq<Byte>)
      requires Valid()
      modifies this
      ensures Valid() && input == old(input) + data
      ensures stack == old(stack) && pos == old(pos) && currentChar == old(currentChar) && token == old(token)
      ensures incomplete == old(incomplete) && lastTagStart == old(lastTagStart) && savePoint == old(savePoint)
      ensures savedFrames == old(savedFrames) && NamesKept()
    {
      input := input + data;
    }
  }
}
