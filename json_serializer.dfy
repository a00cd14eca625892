/**
 * The JSON serializer base (`sergut::detail::JsonSerializerBase`): string
 * values are escaped as section 7 of RFC 8259 asks (the quotation mark,
 * the reverse solidus and the control characters), and each nesting level
 * remembers whether a member was written on it yet, so that members are
 * separated by commas.
 */
module JsonSerializer {
  import opened Common

  const Backslash: Byte := '\\' as int
  const Quote: Byte := '"' as int

  /** `specialCharacters`: the octets with a two-character escape. */
  function Entity(b: Byte): (r: Option<seq<Byte>>)
    ensures r.Some? <==> b in {Quote, Backslash, 8, 12, 10, 13, 9}
    ensures r.Some? ==> |r.value| == 2 && r.value[0] == Backslash
  {
    if b == Quote then Some([Backslash, Quote])
    else if b == Backslash then Some([Backslash, Backslash])
    else if b == 8 then Some([Backslash, 'b' as int])
    else if b == 12 then Some([Backslash, 'f' as int])
    else if b == 10 then Some([Backslash, 'n' as int])
    else if b == 13 then Some([Backslash, 'r' as int])
    else if b == 9 then Some([Backslash, 't' as int])
    else None
  }

  /** `isPrintable`: the octet, read as unsigned, is at least 0x20; octets from 0x80 up are printable. */
  predicate IsPrintable(b: Byte)
  {
    b >= 0x20
  }

  /**
   * The `\u` escape of a control character: four lower-case hexadecimal
   * digits, zero-filled.
   */
  function UnicodeEscape(b: Byte): (r: seq<Byte>)
    requires !IsPrintable(b)
    ensures |r| == 6 && r[0] == Backslash && r[1] == 'u' as int && r[2] == '0' as int && r[3] == '0' as int
    ensures HexValue(r[4]) == Some(b / 16) && HexValue(r[5]) == Some(b % 16)
  {
    HexValueOfDigit(b / 16);
    HexValueOfDigit(b % 16);
    [Backslash, 'u' as int, '0' as int, '0' as int, HexDigit(b / 16), HexDigit(b % 16)]
  }

  /** An octet `writeEscaped` does not copy. */
  predicate IsSpecial(b: Byte)
  {
    Entity(b).Some? || !IsPrintable(b)
  }

  /** What `writeEscaped` writes for one octet. */
  function EscapeOctet(b: Byte): seq<Byte>
  {
    if Entity(b).Some? then Entity(b).value
    else if !IsPrintable(b) then UnicodeEscape(b)
    else [b]
  }

  /** What `writeEscaped` writes for a string. */
  function Escaped(s: seq<Byte>): seq<Byte>
  {
    FlatMap(EscapeOctet, s)
  }

  /** Escaped text holds no control character, as a JSON string must not. */
  lemma {:induction false} EscapedIsPrintable(s: seq<Byte>)
    ensures forall i | 0 <= i < |Escaped(s)| :: IsPrintable(Escaped(s)[i])
  {
    if s != [] {
      EscapedIsPrintable(s[1..]);
      var e := EscapeOctet(s[0]);
      assert forall i | 0 <= i < |e| :: IsPrintable(e[i]);
      assert Escaped(s) == e + Escaped(s[1..]);
      forall i | 0 <= i < |Escaped(s)|
        ensures IsPrintable(Escaped(s)[i])
      {
        if i >= |e| {
          assert Escaped(s)[i] == Escaped(s[1..])[i - |e|];
        }
      }
    }
  }

  /** A special octet after a region of copied ones, as `writeEscaped` writes them. */
  lemma EscapedStep(s: seq<Byte>, start: nat, end: nat)
    requires start <= end < |s| && IsSpecial(s[end])
    requires forall k | start <= k < end :: !IsSpecial(s[k])
    ensures Escaped(s[..end + 1]) == Escaped(s[..start]) + (s[start..end] + EscapeOctet(s[end]))
  {
    FlatMapStep(EscapeOctet, s, start, end);
  }

  /** The region of copied octets at the end of the string. */
  lemma EscapedTail(s: seq<Byte>, start: nat)
    requires start <= |s|
    requires forall k | start <= k < |s| :: !IsSpecial(s[k])
    ensures Escaped(s) == Escaped(s[..start]) + s[start..]
  {
    FlatMapTail(EscapeOctet, s, start);
  }

  /** One character of a JSON string body: the octet it stands for and the octets it takes. */
  datatype Token = Token(octet: Byte, size: nat)

  /** The value of the four hexadecimal digits of a `\u` escape, when they are digits. */
  function HexQuad(t: seq<Byte>): Option<nat>
    requires |t| >= 4
  {
    if HexValue(t[0]).Some? && HexValue(t[1]).Some? && HexValue(t[2]).Some? && HexValue(t[3]).Some? then
      Some(((HexValue(t[0]).value * 16 + HexValue(t[1]).value) * 16 + HexValue(t[2]).value) * 16 + HexValue(t[3]).value)
    else None
  }

  /**
   * Reading one character of a string body as section 7 of RFC 8259 gives
   * it: a two-character escape, a `\u` escape of an ASCII character, or
   * the octet itself.
   */
  function NextToken(t: seq<Byte>): (r: Token)
    requires t != []
    ensures 1 <= r.size <= |t|
  {
    if t[0] != Backslash || |t| < 2 then Token(t[0], 1)
    else if t[1] == Quote then Token(Quote, 2)
    else if t[1] == Backslash then Token(Backslash, 2)
    else if t[1] == 'b' as int then Token(8, 2)
    else if t[1] == 'f' as int then Token(12, 2)
    else if t[1] == 'n' as int then Token(10, 2)
    else if t[1] == 'r' as int then Token(13, 2)
    else if t[1] == 't' as int then Token(9, 2)
    else if t[1] == 'u' as int && |t| >= 6 && HexQuad(t[2..6]).Some? && HexQuad(t[2..6]).value < 0x80 then
      Token(HexQuad(t[2..6]).value, 6)
    else Token(t[0], 1)
  }

  /** The string a JSON string body stands for. */
  function Unescaped(t: seq<Byte>): seq<Byte>
    decreases |t|
  {
    if t == [] then [] else var k := NextToken(t); [k.octet] + Unescaped(t[k.size..])
  }

  lemma TokenOfEscape(b: Byte, rest: seq<Byte>)
    ensures NextToken(EscapeOctet(b) + rest) == Token(b, |EscapeOctet(b)|)
  {
    var e := EscapeOctet(b);
    var t := e + rest;
    assert t[..|e|] == e;
    if Entity(b).None? && !IsPrintable(b) {
      assert t[2..6] == e[2..6];
      assert (b / 16) * 16 + b % 16 == b;
    }
  }

  /** `writeEscaped` loses nothing: reading the string body back gives the string written. */
  lemma {:induction false} EscapedRoundTrip(s: seq<Byte>)
    ensures Unescaped(Escaped(s)) == s
  {
    if s != [] {
      var t := Escaped(s);
      assert t == EscapeOctet(s[0]) + Escaped(s[1..]);
      TokenOfEscape(s[0], Escaped(s[1..]));
      assert t[|EscapeOctet(s[0])|..] == Escaped(s[1..]);
      EscapedRoundTrip(s[1..]);
      assert s == [s[0]] + s[1..];
    }
  }

  /** The test's control character: 0x01 is written as `\u0001`. */
  lemma ControlExample()
    ensures Escaped([1]) == Ascii("\\u0001")
  {
    assert Escaped([1]) == EscapeOctet(1) + Escaped([]);
  }

  /** A string value: quoted, with its octets escaped. */
  function Quoted(s: seq<Byte>): seq<Byte>
  {
    [Quote] + Escaped(s) + [Quote]
  }

  /** The elements of a collection of strings, quoted and separated by commas. */
  function QuotedList(values: seq<seq<Byte>>): seq<Byte>
    decreases |values|
  {
    if values == [] then []
    else if |values| == 1 then Quoted(values[0])
    else QuotedList(values[..|values| - 1]) + [',' as int] + Quoted(values[|values| - 1])
  }

  /** One more element: a comma unless it is the first, then the element quoted. */
  lemma QuotedListStep(values: seq<seq<Byte>>, i: nat)
    requires i < |values|
    ensures QuotedList(values[..i + 1]) == QuotedList(values[..i]) + (if i == 0 then [] else [',' as int]) + Quoted(values[i])
  {
    assert values[..i + 1][..i] == values[..i];
  }

  /**
   * The serializer's shared state: the output and one `firstOfLevel` flag
   * per serializer object alive, the innermost last. A copy of a
   * serializer (for a nested structure or a collection element) pushes a
   * level and its destruction pops it; once the last level is popped the
   * state is released.
   */
  class Serializer {
    var levels: seq<bool>
    var out: seq<Byte>

    constructor ()
      ensures levels == [true] && out == []
    {
      levels := [true];
      out := [];
    }

    /** The copy constructor: a fresh level on which nothing was written yet. */
    method Nest()
      modifies this
      ensures levels == old(levels) + [true] && out == old(out)
    {
      levels := levels + [true];
    }

    /** The destructor: the innermost level is dropped. */
    method Unnest()
      requires levels != []
      modifies this
      ensures levels == old(levels[..|levels| - 1]) && out == old(out)
    {
      levels := levels[..|levels| - 1];
    }

    /** `addCommaIfNeeded`: nothing on the first member of a level, a comma before each later one. */
    method AddCommaIfNeeded()
      requires levels != []
      modifies this
      ensures levels == old(levels[..|levels| - 1]) + [false]
      ensures out == old(out) + if old(levels[|levels| - 1]) then [] else [',' as int]
    {
      if levels[|levels| - 1] {
        levels := levels[..|levels| - 1] + [false];
      } else {
        out := out + [',' as int];
      }
      assert levels == old(levels[..|levels| - 1]) + [false];
    }

    /**
     * `writeEscaped`: the octets between two special ones are written as
     * one region, each special octet as its two-character or `\u` escape.
     */
    method WriteEscaped(str: seq<Byte>)
      modifies this
      ensures out == old(out) + Escaped(str) && levels == old(levels)
    {
      var start := 0;
      var end := 0;
      while end < |str|
        invariant start <= end <= |str|
        invariant forall k | start <= k < end :: !IsSpecial(str[k])
        invariant out == old(out) + Escaped(str[..start]) && levels == old(levels)
      {
        if IsSpecial(str[end]) {
          var escape;
          if Entity(str[end]).Some? {
            escape := Entity(str[end]).value;
          } else {
            escape := UnicodeEscape(str[end]);
          }
          EscapedStep(str, start, end);
          AppendAssoc(old(out), Escaped(str[..start]), str[start..end] + escape);
          out := out + (str[start..end] + escape);
          end := end + 1;
          start := end;
        } else {
          end := end + 1;
        }
      }
      EscapedTail(str, start);
      out := out + str[start..];
    }

    /** A string value: a quotation mark, the escaped string, a quotation mark. */
    method SerializeString(str: seq<Byte>)
      modifies this
      ensures out == old(out) + Quoted(str) && levels == old(levels)
    {
      out := out + [Quote];
      WriteEscaped(str);
      out := out + [Quote];
    }

    /** A value written by a copy of the serializer, which is destroyed afterwards. */
    method SerializeByCopy(value: seq<Byte>)
      modifies this
      ensures out == old(out) + Quoted(value) && levels == old(levels)
    {
      Nest();
      SerializeString(value);
      Unnest();
    }

    /**
     * A collection of strings: `[`, then each element written by a copy of
     * the serializer, a comma before every element but the first, then
     * `]`.
     */
    method SerializeCollection(values: seq<seq<Byte>>)
      modifies this
      ensures out == old(out) + [ '[' as int ] + QuotedList(values) + [ ']' as int ]
      ensures levels == old(levels)
    {
      out := out + ['[' as int];
      ghost var out0 := out;
      var first := true;
      var i := 0;
      while i < |values|
        invariant i <= |values| && (first <==> i == 0)
        invariant out == out0 + QuotedList(values[..i]) && levels == old(levels)
      {
        QuotedListStep(values, i);
        ghost var written, sep := QuotedList(values[..i]), if first then [] else [',' as int];
        if !first {
          out := out + [',' as int];
        } else {
          first := false;
        }
        AppendAssoc(out0, written, sep);
        SerializeByCopy(values[i]);
        AppendAssoc(out0, written + sep, Quoted(values[i]));
        i := i + 1;
      }
      assert values[..i] == values;
      out := out + [']' as int];
    }
  }
}
