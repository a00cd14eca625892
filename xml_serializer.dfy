/**
 * The XML serializer's own logic (`sergut::XmlSerializer`): the stack of
 * level states shared by a serializer and the nested serializers copied
 * from it, the markers that close a start tag, and the escaping of
 * attribute values and character data with the predefined entities of
 * section 4.6 of XML 1.0.
 */
module XmlSerializer {
  import opened Common

  /** What the members written next on a level become: attributes, child elements, or the one plain child. */
  datatype ValueType = Attribute | Child | SingleChild

  /** The entity that `xmlEntities` maps an octet to, if any. */
  function Entity(b: Byte): (r: Option<seq<Byte>>)
    ensures r.Some? <==> b in {'"' as int, '&' as int, '\'' as int, '<' as int, '>' as int}
  {
    if b == '"' as int then Some(Ascii("&quot;"))
    else if b == '&' as int then Some(Ascii("&amp;"))
    else if b == '\'' as int then Some(Ascii("&apos;"))
    else if b == '<' as int then Some(Ascii("&lt;"))
    else if b == '>' as int then Some(Ascii("&gt;"))
    else None
  }

  /** What `writeEscaped` writes for one octet. */
  function EscapeOctet(b: Byte): seq<Byte>
  {
    match Entity(b)
    case Some(e) => e
    case None => [b]
  }

  /** What `writeEscaped` writes for a string. */
  function Escaped(s: seq<Byte>): seq<Byte>
  {
    FlatMap(EscapeOctet, s)
  }

  /** The octets that may not stand for themselves in an attribute value (`&` may only start an entity). */
  predicate IsMarkup(b: Byte)
  {
    b == '"' as int || b == '\'' as int || b == '<' as int || b == '>' as int
  }

  /** Escaped text holds no quote, apostrophe or angle bracket. */
  lemma {:induction false} EscapedHasNoMarkup(s: seq<Byte>)
    ensures forall i | 0 <= i < |Escaped(s)| :: !IsMarkup(Escaped(s)[i])
  {
    if s != [] {
      EscapedHasNoMarkup(s[1..]);
      var e := EscapeOctet(s[0]);
      assert Escaped(s) == e + Escaped(s[1..]);
      forall i | 0 <= i < |Escaped(s)|
        ensures !IsMarkup(Escaped(s)[i])
      {
        if i >= |e| {
          assert Escaped(s)[i] == Escaped(s[1..])[i - |e|];
        }
      }
    }
  }

  /** One character of escaped text: an entity and the octet it stands for, or an octet standing for itself. */
  datatype Token = Token(octet: Byte, size: nat)

  function NextToken(t: seq<Byte>): (r: Token)
    requires t != []
    ensures 1 <= r.size <= |t|
  {
    if t[0] != '&' as int then Token(t[0], 1)
    else if Ascii("&quot;") <= t then Token('"' as int, 6)
    else if Ascii("&amp;") <= t then Token('&' as int, 5)
    else if Ascii("&apos;") <= t then Token('\'' as int, 6)
    else if Ascii("&lt;") <= t then Token('<' as int, 4)
    else if Ascii("&gt;") <= t then Token('>' as int, 4)
    else Token('&' as int, 1)
  }

  /**
   * Reading escaped text back: each of the five entities stands for its
   * character, every other octet for itself.
   */
  function Unescaped(t: seq<Byte>): seq<Byte>
    decreases |t|
  {
    if t == [] then [] else var k := NextToken(t); [k.octet] + Unescaped(t[k.size..])
  }

  /** The escape of an octet, whatever follows it, is read back as one token standing for that octet. */
  lemma TokenOfEscape(b: Byte, rest: seq<Byte>)
    ensures NextToken(EscapeOctet(b) + rest) == Token(b, |EscapeOctet(b)|)
  {
    var t := EscapeOctet(b) + rest;
    assert t[..|EscapeOctet(b)|] == EscapeOctet(b);
    if b == '&' as int {
      assert t[1] == 'a' as int;
    } else if b == '\'' as int {
      assert t[1] == 'a' as int && t[2] == 'p' as int;
    } else if b == '<' as int {
      assert t[1] == 'l' as int;
    } else if b == '>' as int {
      assert t[1] == 'g' as int;
    }
  }

  /** `writeEscaped` loses nothing: its output reads back as the string written. */
  lemma {:induction false} EscapedRoundTrip(s: seq<Byte>)
    ensures Unescaped(Escaped(s)) == s
  {
    if s != [] {
      var t := Escaped(s);
      assert t == EscapeOctet(s[0]) + Escaped(s[1..]);
      TokenOfEscape(s[0], Escaped(s[1..]));
      assert t[|EscapeOctet(s[0])|..] == Escaped(s[1..]);
      EscapedRoundTrip(s[1..]);
      assert s == [s[0]] + s[1..];
    }
  }

  /**
   * The escaped string of the serializer's own tests, written in pieces
   * split where an escape starts or ends.
   */
  lemma EscapeExample()
    ensures Escaped(Ascii("<b>\"" + "STRING" + "&amp;" + " STRONG" + "\"<" + "/b>"))
         == Ascii("&lt;b&gt;&quot;" + "STRING" + "&amp;amp;" + " STRONG" + "&quot;&lt;" + "/b&gt;")
  {
    var a, b, c, d, e, f := Ascii("<b>\""), Ascii("STRING"), Ascii("&amp;"), Ascii(" STRONG"), Ascii("\"<"), Ascii("/b>");
    AsciiAppend("<b>\"", "STRING");
    AsciiAppend("<b>\"" + "STRING", "&amp;");
    AsciiAppend("<b>\"" + "STRING" + "&amp;", " STRONG");
    AsciiAppend("<b>\"" + "STRING" + "&amp;" + " STRONG", "\"<");
    AsciiAppend("<b>\"" + "STRING" + "&amp;" + " STRONG" + "\"<", "/b>");
    EscapedPiece1();
    EscapedPiece2();
    EscapedPiece3();
    EscapedPiece4();
    EscapedPiece5();
    EscapedPiece6();
    FlatMapAppend(EscapeOctet, a, b);
    FlatMapAppend(EscapeOctet, a + b, c);
    FlatMapAppend(EscapeOctet, a + b + c, d);
    FlatMapAppend(EscapeOctet, a + b + c + d, e);
    FlatMapAppend(EscapeOctet, a + b + c + d + e, f);
    AsciiAppend("&lt;b&gt;&quot;", "STRING");
    AsciiAppend("&lt;b&gt;&quot;" + "STRING", "&amp;amp;");
    AsciiAppend("&lt;b&gt;&quot;" + "STRING" + "&amp;amp;", " STRONG");
    AsciiAppend("&lt;b&gt;&quot;" + "STRING" + "&amp;amp;" + " STRONG", "&quot;&lt;");
    AsciiAppend("&lt;b&gt;&quot;" + "STRING" + "&amp;amp;" + " STRONG" + "&quot;&lt;", "/b&gt;");
  }

  /** The pieces of the example, each escaped on its own. */
  lemma EscapedPiece1()
    ensures Escaped(Ascii("<b>\"")) == Ascii("&lt;b&gt;&quot;")
  {
    var s: seq<Byte> := [60, 98, 62, 34];
    assert Ascii("<b>\"") == s;
    assert s[0..][1..] == s[1..];
    assert s[1..][1..] == s[2..];
    assert s[2..][1..] == s[3..];
    assert s[3..][1..] == s[4..];
  }

  lemma EscapedPiece2()
    ensures Escaped(Ascii("STRING")) == Ascii("STRING")
  {
    var s: seq<Byte> := [83, 84, 82, 73, 78, 71];
    assert Ascii("STRING") == s;
    FlatMapCopies(EscapeOctet, s);
  }

  lemma EscapedPiece3()
    ensures Escaped(Ascii("&amp;")) == Ascii("&amp;amp;")
  {
    var s: seq<Byte> := [38, 97, 109, 112, 59];
    assert Ascii("&amp;") == s;
    assert s[0..][1..] == s[1..];
    assert s[1..][1..] == s[2..];
    assert s[2..][1..] == s[3..];
    assert s[3..][1..] == s[4..];
    assert s[4..][1..] == s[5..];
  }

  lemma EscapedPiece4()
    ensures Escaped(Ascii(" STRONG")) == Ascii(" STRONG")
  {
    var s: seq<Byte> := [32, 83, 84, 82, 79, 78, 71];
    assert Ascii(" STRONG") == s;
    FlatMapCopies(EscapeOctet, s);
  }

  lemma EscapedPiece5()
    ensures Escaped(Ascii("\"<")) == Ascii("&quot;&lt;")
  {
    var s: seq<Byte> := [34, 60];
    assert Ascii("\"<") == s;
    assert s[0..][1..] == s[1..];
    assert s[1..][1..] == s[2..];
  }

  lemma EscapedPiece6()
    ensures Escaped(Ascii("/b>")) == Ascii("/b&gt;")
  {
    var s: seq<Byte> := [47, 98, 62];
    assert Ascii("/b>") == s;
    assert s[0..][1..] == s[1..];
    assert s[1..][1..] == s[2..];
    assert s[2..][1..] == s[3..];
  }

  /**
   * `XmlSerializer`: the output stream and the level stack that the
   * serializer and every nested copy of it share (`impl`).
   */
  class Serializer {
    var levels: seq<ValueType>
    var out: seq<Byte>

    /** The root serializer: one level, of children, and nothing written. */
    constructor ()
      ensures levels == [Child] && out == []
    {
      levels := [Child];
      out := [];
    }

    /** `getValueType`: the state of the innermost level. */
    function ValueTypeNow(): ValueType
      reads this
      requires levels != []
    {
      levels[|levels| - 1]
    }

    /** The copy constructor: a nested serializer opens a level on which attributes come first. */
    method Nest()
      modifies this
      ensures levels == old(levels) + [Attribute] && out == old(out)
      ensures ValueTypeNow() == Attribute
    {
      levels := levels + [Attribute];
    }

    /** The destructor of a nested serializer: its level is closed, the outer ones are as they were. */
    method Unnest()
      requires |levels| > 1
      modifies this
      ensures levels == old(levels[..|levels| - 1]) && out == old(out)
    {
      levels := levels[..|levels| - 1];
    }

    /** `operator&(ChildrenFollow)`: closes the start tag; the members that follow are child elements. */
    method ChildrenFollow()
      requires levels != [] && ValueTypeNow() == Attribute
      modifies this
      ensures out == old(out) + Ascii(">")
      ensures levels == old(levels[..|levels| - 1]) + [Child]
    {
      out := out + Ascii(">");
      levels := levels[..|levels| - 1] + [Child];
    }

    /** `operator&(PlainChildFollows)`: closes the start tag; one plain text child follows. */
    method PlainChildFollows()
      requires levels != [] && ValueTypeNow() == Attribute
      modifies this
      ensures out == old(out) + Ascii(">")
      ensures levels == old(levels[..|levels| - 1]) + [SingleChild]
    {
      out := out + Ascii(">");
      levels := levels[..|levels| - 1] + [SingleChild];
    }

    /**
     * `writeEscaped`: the octets between two entity characters are written
     * as one region, each entity character as its entity.
     */
    method WriteEscaped(str: seq<Byte>)
      modifies this
      ensures out == old(out) + Escaped(str) && levels == old(levels)
    {
      var start := 0;
      var end := 0;
      while end < |str|
        invariant start <= end <= |str|
        invariant forall k | start <= k < end :: EscapeOctet(str[k]) == [str[k]]
        invariant out == old(out) + Escaped(str[..start]) && levels == old(levels)
      {
        var entity := Entity(str[end]);
        if entity.Some? {
          FlatMapStep(EscapeOctet, str, start, end);
          assert EscapeOctet(str[end]) == entity.value;
          AppendAssoc(Escaped(str[..start]), str[start..end], entity.value);
          AppendAssoc(old(out), Escaped(str[..start]), str[start..end] + entity.value);
          out := out + (str[start..end] + entity.value);
          end := end + 1;
          start := end;
        } else {
          end := end + 1;
        }
      }
      FlatMapTail(EscapeOctet, str, start);
      AppendAssoc(old(out), Escaped(str[..start]), str[start..]);
      out := out + str[start..];
    }
  }
}
