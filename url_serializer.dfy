/**
 * The URL serializer (`sergut::UrlSerializer`): members become
 * `name=value` entries separated by `&`, with the value escaped for a
 * query string (the unreserved characters of section 2.3 of RFC 3986
 * other than `~` stand for themselves, a space becomes `+`, every other
 * octet is percent-encoded as in section 2.1 with lower-case digits).
 * A name may be used only once, except by the elements of a collection.
 *
 * The member names are taken as already combined with the names of the
 * enclosing structures (`UrlNameCombiner` is not part of this model), and
 * numbers as already formatted by the output stream.
 */
module UrlSerializer {
  import opened Common

  /** `isSpecialCharacter`: everything but ASCII letters, digits, `.`, `-` and `_`. */
  predicate IsSpecial(b: Byte)
  {
    !(('a' as int <= b <= 'z' as int) || ('A' as int <= b <= 'Z' as int) || ('0' as int <= b <= '9' as int) ||
      b == '.' as int || b == '-' as int || b == '_' as int)
  }

  /** `percentEncode`: `%`, then the lower-case hexadecimal digits of the octet, high nibble first. */
  function PercentEncode(b: Byte): (r: seq<Byte>)
    ensures |r| == 3 && r[0] == '%' as int
    ensures HexValue(r[1]) == Some(b / 16) && HexValue(r[2]) == Some(b % 16)
    ensures !IsSpecial(r[1]) && !IsSpecial(r[2])
  {
    HexValueOfDigit(b / 16);
    HexValueOfDigit(b % 16);
    ['%' as int, HexDigit(b / 16), HexDigit(b % 16)]
  }

  /** What `writeEscaped` writes for one octet. */
  function EscapeOctet(b: Byte): seq<Byte>
  {
    if !IsSpecial(b) then [b]
    else if b == ' ' as int then ['+' as int]
    else PercentEncode(b)
  }

  /** What `writeEscaped` writes for a string. */
  function Escaped(s: seq<Byte>): seq<Byte>
  {
    FlatMap(EscapeOctet, s)
  }

  /** The octets an escaped value is made of: unreserved ones, `+` and `%`. */
  predicate InEscapedAlphabet(b: Byte)
  {
    !IsSpecial(b) || b == '+' as int || b == '%' as int
  }

  /** Escaped text needs no further escaping in a query string: no `&`, `=`, space or non-ASCII octet. */
  lemma {:induction false} EscapedAlphabet(s: seq<Byte>)
    ensures forall i | 0 <= i < |Escaped(s)| :: InEscapedAlphabet(Escaped(s)[i])
  {
    if s != [] {
      EscapedAlphabet(s[1..]);
      var e := EscapeOctet(s[0]);
      assert forall i | 0 <= i < |e| :: InEscapedAlphabet(e[i]);
      assert Escaped(s) == e + Escaped(s[1..]);
      forall i | 0 <= i < |Escaped(s)|
        ensures InEscapedAlphabet(Escaped(s)[i])
      {
        if i >= |e| {
          assert Escaped(s)[i] == Escaped(s[1..])[i - |e|];
        }
      }
    }
  }

  /** A special octet after a region of plain ones, as `writeEscaped` writes them. */
  lemma EscapedStep(s: seq<Byte>, start: nat, end: nat)
    requires start <= end < |s| && IsSpecial(s[end])
    requires forall k | start <= k < end :: !IsSpecial(s[k])
    ensures Escaped(s[..end + 1]) ==
      Escaped(s[..start]) + (s[start..end] + if s[end] == ' ' as int then ['+' as int] else PercentEncode(s[end]))
  {
    FlatMapStep(EscapeOctet, s, start, end);
  }

  /** The region of plain octets at the end of the string. */
  lemma EscapedTail(s: seq<Byte>, start: nat)
    requires start <= |s|
    requires forall k | start <= k < |s| :: !IsSpecial(s[k])
    ensures Escaped(s) == Escaped(s[..start]) + s[start..]
  {
    FlatMapTail(EscapeOctet, s, start);
  }

  /** One character of an escaped value: the octet it stands for and the octets it takes. */
  datatype Token = Token(octet: Byte, size: nat)

  function NextToken(t: seq<Byte>): (r: Token)
    requires t != []
    ensures 1 <= r.size <= |t|
  {
    if t[0] == '+' as int then Token(' ' as int, 1)
    else if t[0] == '%' as int && |t| >= 3 && HexValue(t[1]).Some? && HexValue(t[2]).Some? then
      Token(HexValue(t[1]).value * 16 + HexValue(t[2]).value, 3)
    else Token(t[0], 1)
  }

  /** Form decoding of a query-string value: `+` is a space, `%` and two hex digits an octet. */
  function Unescaped(t: seq<Byte>): seq<Byte>
    decreases |t|
  {
    if t == [] then [] else var k := NextToken(t); [k.octet] + Unescaped(t[k.size..])
  }

  lemma TokenOfEscape(b: Byte, rest: seq<Byte>)
    ensures NextToken(EscapeOctet(b) + rest) == Token(b, |EscapeOctet(b)|)
  {
    var t := EscapeOctet(b) + rest;
    assert t[..|EscapeOctet(b)|] == EscapeOctet(b);
  }

  /** `writeEscaped` loses nothing: form decoding gives back the string written. */
  lemma {:induction false} EscapedRoundTrip(s: seq<Byte>)
    ensures Unescaped(Escaped(s)) == s
  {
    if s != [] {
      var t := Escaped(s);
      assert t == EscapeOctet(s[0]) + Escaped(s[1..]);
      TokenOfEscape(s[0], Escaped(s[1..]));
      assert t[|EscapeOctet(s[0])|..] == Escaped(s[1..]);
      EscapedRoundTrip(s[1..]);
      assert s == [s[0]] + s[1..];
    }
  }

  /** The escapes of the test expectations: `:` is `%3a`, `*` is `%2a`, a space is `+`, a letter is itself. */
  lemma EscapeExamples()
    ensures EscapeOctet(':' as int) == Ascii("%3a")
    ensures EscapeOctet('*' as int) == Ascii("%2a")
    ensures EscapeOctet(' ' as int) == Ascii("+")
    ensures EscapeOctet('c' as int) == Ascii("c")
  {
  }

  /** What `addName` writes before a name: `&` unless no name was added yet. */
  function Separator(seen: set<seq<Byte>>): seq<Byte>
  {
    if seen == {} then [] else ['&' as int]
  }

  /** The name `serializeCollection` puts into the set between elements so that they are separated (`std::string(1, '\0')`). */
  const Dummy: seq<Byte> := [0]

  /** What a string member writes after the separator `sep`. */
  function Entry(sep: seq<Byte>, name: seq<Byte>, value: seq<Byte>): seq<Byte>
  {
    sep + name + ['=' as int] + Escaped(value)
  }

  /**
   * What a collection writes for its first `n` elements: one entry per
   * element, in order, under the collection's name; the first is
   * separated by `first`, the others by `&`.
   */
  function CollectionText(first: seq<Byte>, name: seq<Byte>, values: seq<seq<Byte>>, n: nat): seq<Byte>
    requires n <= |values|
  {
    if n == 0 then []
    else CollectionText(first, name, values, n - 1) + Entry(if n == 1 then first else ['&' as int], name, values[n - 1])
  }

  /**
   * Whether `serializeCollection` gets through its elements: the first is
   * checked against the names added before, each later one against the
   * dummy name only.
   */
  predicate CollectionAccepted(seen: set<seq<Byte>>, name: seq<Byte>, values: seq<seq<Byte>>)
  {
    values == [] || (name !in seen && (|values| == 1 || name != Dummy))
  }

  /** The names `serializeCollection` leaves in the set: the final swap gives back the set it saved, empty when no element was written. */
  function SeenAfterCollection(seen: set<seq<Byte>>, name: seq<Byte>, values: seq<seq<Byte>>): set<seq<Byte>>
  {
    if values == [] then {} else seen + {name}
  }

  /** The same with the final swap only after an element was written: the names added before are kept. */
  function SeenAfterCollectionCorrected(seen: set<seq<Byte>>, name: seq<Byte>, values: seq<seq<Byte>>): (r: set<seq<Byte>>)
    ensures seen <= r
    ensures r == seen + (if values == [] then {} else {name})
  {
    if values == [] then seen else seen + {name}
  }

  /** An empty collection after a member: the set is emptied, so the next member is written without `&` and an earlier name may be added again. */
  lemma EmptyCollectionForgetsNames()
    ensures var seen := SeenAfterCollection({Ascii("a")}, Ascii("v"), []);
      Ascii("a") !in seen && Ascii("a=1") + Separator(seen) + Ascii("b=2") == Ascii("a=1b=2")
    ensures var seen := SeenAfterCollectionCorrected({Ascii("a")}, Ascii("v"), []);
      Ascii("a") in seen && Ascii("a=1") + Separator(seen) + Ascii("b=2") == Ascii("a=1&b=2")
  {
  }

  /**
   * `UrlSerializer` with the output stream and the set of names added so
   * far, which the serializers of nested structures share.
   */
  class Serializer {
    var out: seq<Byte>
    var seenNames: set<seq<Byte>>

    /** The separator invariant: a name has been added exactly when something has been written. */
    predicate Valid()
      reads this
    {
      |seenNames| == 0 <==> |out| == 0
    }

    constructor ()
      ensures out == [] && seenNames == {} && Valid()
    {
      out := [];
      seenNames := {};
    }

    /**
     * `addName`: a name already added is the "Duplicate name" exception,
     * with nothing written; otherwise `&` if a name came before, then
     * `name=`.
     */
    method AddName(name: seq<Byte>) returns (ok: bool)
      modifies this
      ensures ok <==> name !in old(seenNames)
      ensures ok ==> seenNames == old(seenNames) + {name} && out == old(out) + Separator(old(seenNames)) + name + ['=' as int]
      ensures !ok ==> seenNames == old(seenNames) && out == old(out)
      ensures ok && old(Valid()) ==> Valid() && (old(out) != [] <==> Separator(old(seenNames)) == ['&' as int])
    {
      var seenNamesWasEmpty := seenNames == {};
      if name in seenNames {
        return false;
      }
      seenNames := seenNames + {name};
      if !seenNamesWasEmpty {
        out := out + ['&' as int];
      }
      out := out + name + ['=' as int];
      return true;
    }

    /**
     * `writeEscaped`: the octets between two special ones are written as
     * one region, each special octet as `+` or its percent-encoding.
     */
    method WriteEscaped(str: seq<Byte>)
      modifies this
      ensures out == old(out) + Escaped(str) && seenNames == old(seenNames)
    {
      var start := 0;
      var end := 0;
      while end < |str|
        invariant start <= end <= |str|
        invariant forall k | start <= k < end :: !IsSpecial(str[k])
        invariant out == old(out) + Escaped(str[..start]) && seenNames == old(seenNames)
      {
        if IsSpecial(str[end]) {
          var escape := if str[end] == ' ' as int then ['+' as int] else PercentEncode(str[end]);
          EscapedStep(str, start, end);
          AppendAssoc(old(out), Escaped(str[..start]), str[start..end] + escape);
          out := out + (str[start..end] + escape);
          end := end + 1;
          start := end;
        } else {
          end := end + 1;
        }
      }
      EscapedTail(str, start);
      out := out + str[start..];
    }

    /** A string member (and a `const char*` member, and a `char` member as a string of one octet). */
    method WriteString(name: seq<Byte>, value: seq<Byte>) returns (ok: bool)
      modifies this
      ensures ok <==> name !in old(seenNames)
      ensures ok ==> seenNames == old(seenNames) + {name} && out == old(out) + Entry(Separator(old(seenNames)), name, value)
      ensures !ok ==> seenNames == old(seenNames) && out == old(out)
      ensures ok && old(Valid()) ==> Valid()
    {
      ok := AddName(name);
      if ok {
        WriteEscaped(value);
        assert out == old(out) + Entry(Separator(old(seenNames)), name, value);
      }
    }

    /** A number member: its text, as the output stream formats it, is written unescaped. */
    method WriteNumber(name: seq<Byte>, text: seq<Byte>) returns (ok: bool)
      modifies this
      ensures ok <==> name !in old(seenNames)
      ensures ok ==> seenNames == old(seenNames) + {name} && out == old(out) + Separator(old(seenNames)) + name + ['=' as int] + text
      ensures !ok ==> seenNames == old(seenNames) && out == old(out)
    {
      ok := AddName(name);
      if ok {
        out := out + text;
      }
    }

    /**
     * One round of the loop of `serializeCollection`: the element is
     * written as a string member; after the first, the names seen so far
     * are swapped into `localSeenNames`; then the names are cleared, and
     * the dummy name is put back when `localSeenNames` holds any.
     */
    method WriteElement(name: seq<Byte>, value: seq<Byte>, first: bool, localSeenNames: set<seq<Byte>>)
      returns (ok: bool, newLocalSeenNames: set<seq<Byte>>)
      modifies this
      ensures ok <==> name !in old(seenNames)
      ensures !ok ==> seenNames == old(seenNames) && out == old(out)
      ensures ok ==>
        out == old(out) + Entry(Separator(old(seenNames)), name, value) &&
        newLocalSeenNames == (if first then old(seenNames) + {name} else localSeenNames) &&
        seenNames == (if newLocalSeenNames == {} then {} else {Dummy})
    {
      newLocalSeenNames := localSeenNames;
      ok := WriteString(name, value);
      if !ok {
        return;
      }
      if first {
        seenNames, newLocalSeenNames := newLocalSeenNames, seenNames;
      }
      seenNames := {};
      if newLocalSeenNames != {} {
        seenNames := {Dummy};
      }
    }

    /**
     * The loop of `serializeCollection`: each element is written as a
     * string member under the collection's name; after the first, the set
     * of names is saved in `localSeenNames` and replaced by the dummy name,
     * so that the later elements are separated by `&` but not taken for
     * duplicates. A duplicate ends the loop with the exception.
     */
    method WriteElements(name: seq<Byte>, values: seq<seq<Byte>>) returns (ok: bool, localSeenNames: set<seq<Byte>>)
      modifies this
      ensures ok <==> CollectionAccepted(old(seenNames), name, values)
      ensures ok && values == [] ==> localSeenNames == {} && seenNames == old(seenNames) && out == old(out)
      ensures ok && values != [] ==>
        localSeenNames == old(seenNames) + {name} && seenNames == {Dummy} &&
        out == old(out) + CollectionText(Separator(old(seenNames)), name, values, |values|)
      ensures !ok && name in old(seenNames) ==> seenNames == old(seenNames) && out == old(out)
      ensures !ok && name !in old(seenNames) ==>
        seenNames == {Dummy} && out == old(out) + CollectionText(Separator(old(seenNames)), name, values, 1)
    {
      ghost var out0, seen0 := out, seenNames;
      ghost var sep := Separator(seenNames);
      var first := true;
      localSeenNames := {};
      var i := 0;
      while i < |values|
        invariant i <= |values| && (first <==> i == 0)
        invariant out == out0 + CollectionText(sep, name, values, i)
        invariant i == 0 ==> localSeenNames == {} && seenNames == seen0
        invariant i > 0 ==>
          name !in seen0 && (i > 1 ==> name != Dummy) && localSeenNames == seen0 + {name} && seenNames == {Dummy}
      {
        ghost var entry := Entry(if i == 0 then sep else ['&' as int], name, values[i]);
        AppendAssoc(out0, CollectionText(sep, name, values, i), entry);
        assert Separator(seenNames) == if i == 0 then sep else ['&' as int];
        ok, localSeenNames := WriteElement(name, values[i], first, localSeenNames);
        if !ok {
          return;
        }
        first := false;
        i := i + 1;
      }
      ok := true;
    }

    /**
     * `serializeCollection` as written: after the loop the saved set is
     * swapped back, also when the loop never ran and the saved set is the
     * empty one it started with.
     */
    method SerializeCollection(name: seq<Byte>, values: seq<seq<Byte>>) returns (ok: bool)
      modifies this
      ensures ok <==> CollectionAccepted(old(seenNames), name, values)
      ensures ok ==>
        seenNames == SeenAfterCollection(old(seenNames), name, values) &&
        out == old(out) + CollectionText(Separator(old(seenNames)), name, values, |values|)
    {
      var localSeenNames;
      ok, localSeenNames := WriteElements(name, values);
      if ok {
        seenNames, localSeenNames := localSeenNames, seenNames;
      }
    }

    /**
     * `serializeCollection` with the saved set swapped back only when an
     * element was written: no name added before is forgotten, and the
     * separator invariant is kept.
     */
    method SerializeCollectionCorrected(name: seq<Byte>, values: seq<seq<Byte>>) returns (ok: bool)
      modifies this
      ensures ok <==> CollectionAccepted(old(seenNames), name, values)
      ensures ok ==>
        seenNames == SeenAfterCollectionCorrected(old(seenNames), name, values) &&
        out == old(out) + CollectionText(Separator(old(seenNames)), name, values, |values|)
      ensures ok && old(Valid()) ==> Valid()
    {
      var localSeenNames;
      ok, localSeenNames := WriteElements(name, values);
      if ok && values != [] {
        seenNames, localSeenNames := localSeenNames, seenNames;
      }
    }
  }
}
