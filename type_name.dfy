/**
 * The Java type names the class generator writes
 * (`sergut::detail::TypeName`): a C++ qualified name `a::b::C` is split
 * into the name space `[a, b]` and the type name `C`, and printed as
 * `a.b.C`, wrapped as `java.util.ArrayList<…>` or `java.util.HashSet<…>`
 * for a collection.
 */
module TypeNames {
  import opened Common

  const Colon: Byte := ':' as int

  datatype CollectionType = NoCollection | Array | Set

  datatype TypeName = TypeName(collectionType: CollectionType, nameSpace: seq<seq<Byte>>, typeName: seq<Byte>)

  /**
   * The parts of a qualified name without its leading `::`, `part` being
   * the piece read so far: non-empty pieces separated by `::`. An empty
   * piece, a single `:` and a trailing `::` make it no name.
   */
  function Split(s: seq<Byte>, part: seq<Byte>): (r: Option<seq<seq<Byte>>>)
    ensures r.Some? ==> |r.value| >= 1
    decreases |s|
  {
    if s == [] then (if part == [] then None else Some([part]))
    else if s[0] != Colon then Split(s[1..], part + [s[0]])
    else if part == [] || |s| < 2 || s[1] != Colon then None
    else WithType([part], Split(s[2..], []))
  }

  function Parts(s: seq<Byte>): Option<seq<seq<Byte>>>
  {
    Split(s, [])
  }

  /** Octets other than `:` only extend the piece being read. */
  lemma {:induction false} SplitPlain(p: seq<Byte>, rest: seq<Byte>, part: seq<Byte>)
    requires forall k | 0 <= k < |p| :: p[k] != Colon
    ensures Split(p + rest, part) == Split(rest, part + p)
    decreases |p|
  {
    if p == [] {
      assert p + rest == rest && part + p == part;
    } else {
      assert (p + rest)[0] == p[0] && (p + rest)[1..] == p[1..] + rest;
      SplitPlain(p[1..], rest, part + [p[0]]);
      assert part + [p[0]] + p[1..] == part + p;
    }
  }

  /** One step of the constructor's loop, at position `current` of the name with the piece begun at `last`. */
  lemma SplitStep(q: seq<Byte>, last: nat, current: nat)
    requires last <= current < |q|
    ensures q[current] != Colon ==> Split(q[current..], q[last..current]) == Split(q[current + 1..], q[last..current + 1])
    ensures q[current] == Colon && (current == last || current + 1 == |q| || q[current + 1] != Colon) ==>
      Split(q[current..], q[last..current]).None?
    ensures q[current] == Colon && current > last && current + 1 < |q| && q[current + 1] == Colon ==>
      Split(q[current..], q[last..current]) == WithType([q[last..current]], Split(q[current + 2..], []))
  {
    var t := q[current..];
    assert t[0] == q[current] && t[1..] == q[current + 1..];
    assert q[last..current] + [q[current]] == q[last..current + 1];
    if current + 1 < |q| {
      assert t[1] == q[current + 1] && t[2..] == q[current + 2..];
    }
  }

  /** The parts of a qualified name, one leading `::` skipped. */
  function QualifiedParts(s: seq<Byte>): Option<seq<seq<Byte>>>
  {
    if s == [] then None
    else if s[0] == Colon then (if |s| < 2 || s[1] != Colon then None else Parts(s[2..]))
    else Parts(s)
  }

  /** A part of a qualified name: not empty, no `:`. */
  predicate IsPart(p: seq<Byte>)
  {
    p != [] && forall k | 0 <= k < |p| :: p[k] != Colon
  }

  /** The parts joined by `::`. */
  function Joined(parts: seq<seq<Byte>>): seq<Byte>
    requires |parts| >= 1
    decreases |parts|
  {
    if |parts| == 1 then parts[0] else parts[0] + [Colon, Colon] + Joined(parts[1..])
  }

  /** Splitting undoes joining. */
  lemma {:induction false} PartsOfJoined(parts: seq<seq<Byte>>)
    requires |parts| >= 1 && forall k | 0 <= k < |parts| :: IsPart(parts[k])
    ensures Parts(Joined(parts)) == Some(parts)
    decreases |parts|
  {
    var p := parts[0];
    assert IsPart(p);
    if |parts| == 1 {
      SplitPlain(p, [], []);
      assert p + [] == p && [] + p == p && parts == [p];
    } else {
      var rest := Joined(parts[1..]);
      assert Joined(parts) == p + ([Colon, Colon] + rest);
      SplitPlain(p, [Colon, Colon] + rest, []);
      assert [] + p == p;
      assert ([Colon, Colon] + rest)[2..] == rest;
      PartsOfJoined(parts[1..]);
      assert parts == [p] + parts[1..];
    }
  }

  /** Whatever splits joins back to the text it came from, and its pieces are proper. */
  lemma {:induction false} JoinedOfSplit(s: seq<Byte>, part: seq<Byte>)
    requires forall k | 0 <= k < |part| :: part[k] != Colon
    requires Split(s, part).Some?
    ensures forall k | 0 <= k < |Split(s, part).value| :: IsPart(Split(s, part).value[k])
    ensures Joined(Split(s, part).value) == part + s
    decreases |s|
  {
    if s == [] {
      assert part + s == part;
    } else if s[0] != Colon {
      JoinedOfSplit(s[1..], part + [s[0]]);
      assert part + [s[0]] + s[1..] == part + s;
    } else {
      var rest := Split(s[2..], []).value;
      JoinedOfSplit(s[2..], []);
      var parts := Split(s, part).value;
      assert parts == [part] + rest && parts[1..] == rest;
      assert [] + s[2..] == s[2..];
      assert part + [Colon, Colon] + s[2..] == part + s;
    }
  }

  lemma JoinedOfParts(s: seq<Byte>)
    requires Parts(s).Some?
    ensures forall k | 0 <= k < |Parts(s).value| :: IsPart(Parts(s).value[k])
    ensures Joined(Parts(s).value) == s
  {
    JoinedOfSplit(s, []);
    assert [] + s == s;
  }

  /** A qualified name, with or without a leading `::`, splits into its parts exactly when they are proper. */
  lemma QualifiedRoundTrip(parts: seq<seq<Byte>>)
    requires |parts| >= 1 && forall k | 0 <= k < |parts| :: IsPart(parts[k])
    ensures QualifiedParts(Joined(parts)) == Some(parts)
    ensures QualifiedParts([Colon, Colon] + Joined(parts)) == Some(parts)
  {
    PartsOfJoined(parts);
    var s := Joined(parts);
    assert IsPart(parts[0]);
    if |parts| > 1 {
      assert s == parts[0] + [Colon, Colon] + Joined(parts[1..]);
    }
    assert s[0] == parts[0][0];
    assert ([Colon, Colon] + s)[2..] == s;
  }

  /** The type name a successful split gives: the last part is the type, the others the name space. */
  function FromParts(parts: seq<seq<Byte>>, collectionType: CollectionType): TypeName
    requires |parts| >= 1
  {
    TypeName(collectionType, parts[..|parts| - 1], parts[|parts| - 1])
  }

  /** Joining the parts of the name space before the type name: used by the partners of `Parse`. */
  function WithType(nameSpace: seq<seq<Byte>>, o: Option<seq<seq<Byte>>>): Option<seq<seq<Byte>>>
  {
    if o.None? then None else Some(nameSpace + o.value)
  }

  lemma WithTypeAppend(a: seq<seq<Byte>>, b: seq<seq<Byte>>, o: Option<seq<seq<Byte>>>)
    ensures WithType(a, WithType(b, o)) == WithType(a + b, o)
  {
    if o.Some? {
      AppendAssoc(a, b, o.value);
    }
  }

  /** After the leading `::`, if any, the name is split from where the pieces start. */
  lemma PartsAfterScope(q: seq<Byte>, current: nat)
    requires q != [] && current == (if q[0] == Colon then 2 else 0) && current <= |q|
    requires q[0] == Colon ==> q[1] == Colon
    ensures QualifiedParts(q) == WithType([], Split(q[current..], q[current..current]))
  {
    assert q[current..] == if current == 0 then q else q[2..];
    assert q[current..current] == [];
    if Parts(q[current..]).Some? {
      assert [] + Parts(q[current..]).value == Parts(q[current..]).value;
    }
  }

  /**
   * `skipScope` and the loop of the qualified-name constructor: the name
   * space is collected piece by piece; `None` is the "not a correct
   * typename" exception.
   */
  method Parse(qualifiedName: seq<Byte>, collectionType: CollectionType) returns (r: Option<TypeName>)
    ensures QualifiedParts(qualifiedName).None? ==> r.None?
    ensures QualifiedParts(qualifiedName).Some? ==> r == Some(FromParts(QualifiedParts(qualifiedName).value, collectionType))
  {
    var q := qualifiedName;
    if q == [] {
      return None;
    }
    var current := 0;
    if q[0] == Colon {
      if 1 == |q| || q[1] != Colon {
        return None;
      }
      current := 2;
    }
    ghost var goal := QualifiedParts(q);
    PartsAfterScope(q, current);
    var nameSpace: seq<seq<Byte>> := [];
    var last := current;
    while current < |q|
      invariant last <= current <= |q|
      invariant goal == WithType(nameSpace, Split(q[current..], q[last..current]))
    {
      SplitStep(q, last, current);
      if q[current] == Colon {
        if current == last {
          return None;
        }
        var part := q[last..current];
        if current + 1 == |q| || q[current + 1] != Colon {
          return None;
        }
        WithTypeAppend(nameSpace, [part], Split(q[current + 2..], []));
        assert goal == WithType(nameSpace + [part], Split(q[current + 2..], []));
        nameSpace := nameSpace + [part];
        current := current + 2;
        last := current;
        assert q[last..current] == [];
        continue;
      }
      assert goal == WithType(nameSpace, Split(q[current + 1..], q[last..current + 1]));
      current := current + 1;
    }
    assert q[current..] == [] && q[last..current] == q[last..];
    if current == last {
      return None;
    }
    assert (nameSpace + [q[last..]])[..|nameSpace|] == nameSpace;
    return Some(TypeName(collectionType, nameSpace, q[last..]));
  }

  /** `toCollectionType`: the Java class of a collection, an empty type name for none. */
  function ToCollectionType(t: TypeName): (r: TypeName)
    ensures r.collectionType == NoCollection
    ensures t.collectionType == NoCollection <==> r == TypeName(NoCollection, [], [])
  {
    match t.collectionType
    case Array => TypeName(NoCollection, [Ascii("java"), Ascii("util")], Ascii("ArrayList"))
    case Set => TypeName(NoCollection, [Ascii("java"), Ascii("util")], Ascii("HashSet"))
    case NoCollection => TypeName(NoCollection, [], [])
  }

  /** `toElementType`: the same name, not a collection. */
  function ToElementType(t: TypeName): (r: TypeName)
    ensures r.collectionType == NoCollection && r.nameSpace == t.nameSpace && r.typeName == t.typeName
  {
    t.(collectionType := NoCollection)
  }

  /** `operator<<` of a collection type: the qualified Java class, nothing for none. */
  function CollectionText(c: CollectionType): seq<Byte>
  {
    match c
    case Array => Ascii("java.util.ArrayList")
    case Set => Ascii("java.util.HashSet")
    case NoCollection => []
  }

  /** Each name-space part followed by a dot. */
  function Dotted(nameSpace: seq<seq<Byte>>): seq<Byte>
    decreases |nameSpace|
  {
    if nameSpace == [] then [] else Dotted(nameSpace[..|nameSpace| - 1]) + nameSpace[|nameSpace| - 1] + ['.' as int]
  }

  /** `operator<<` of a type name: the dotted name, inside `<…>` after the collection's class for a collection. */
  function Text(t: TypeName): seq<Byte>
  {
    if t.collectionType != NoCollection then
      CollectionText(t.collectionType) + ['<' as int] + Dotted(t.nameSpace) + t.typeName + ['>' as int]
    else Dotted(t.nameSpace) + t.typeName
  }

  /** The Java package of the collection classes, as `operator<<` prints a name space. */
  lemma JavaUtil(name: string)
    ensures Ascii("java.util." + name) == Dotted([Ascii("java"), Ascii("util")]) + Ascii(name)
  {
    assert Dotted([Ascii("java")]) == Ascii("java") + ['.' as int];
    assert Dotted([Ascii("java"), Ascii("util")]) == Ascii("java") + ['.' as int] + Ascii("util") + ['.' as int];
    AsciiAppend("java.util.", name);
    assert Ascii("java.util.") == Ascii("java") + ['.' as int] + Ascii("util") + ['.' as int];
  }

  /** A collection is printed as its Java class wrapped around its element type. */
  lemma CollectionPrinted(t: TypeName)
    requires t.collectionType != NoCollection
    ensures Text(t) == Text(ToCollectionType(t)) + ['<' as int] + Text(ToElementType(t)) + ['>' as int]
  {
    var c := CollectionText(t.collectionType);
    assert Text(ToCollectionType(t)) == c by {
      if t.collectionType == Array {
        JavaUtil("ArrayList");
      } else {
        JavaUtil("HashSet");
      }
    }
    var inner := Dotted(t.nameSpace) + t.typeName;
    assert Text(ToElementType(t)) == inner;
    assert Text(t) == c + ['<' as int] + inner + ['>' as int] by {
      assert c + ['<' as int] + Dotted(t.nameSpace) + t.typeName == c + ['<' as int] + inner;
    }
  }

  /** Names the constructor rejects: empty, a lone `:`, an empty piece, a single `:` between pieces, a trailing `::`. */
  lemma RejectedNames()
    ensures QualifiedParts([]).None? && QualifiedParts([Colon]).None?
    ensures QualifiedParts([Colon, Colon, Colon, Colon, 'a' as int]).None?
    ensures QualifiedParts(['a' as int, Colon, 'b' as int]).None?
    ensures QualifiedParts(['a' as int, Colon, Colon]).None?
  {
    var a, b := 'a' as int, 'b' as int;
    assert [Colon, Colon, Colon, Colon, a][2..] == [Colon, Colon, a];
    assert Split([a, Colon, b], []) == Split([Colon, b], [a]) by {
      assert [a, Colon, b][1..] == [Colon, b];
    }
    assert Split([a, Colon, Colon], []) == Split([Colon, Colon], [a]) by {
      assert [a, Colon, Colon][1..] == [Colon, Colon];
    }
    assert Split([Colon, Colon], [a]) == WithType([[a]], Split([], [])) by {
      assert [Colon, Colon][2..] == [];
    }
  }

  /** The test's name: `a::b::C` is the name space `[a, b]` with the type `C`, printed `a.b.C`. */
  lemma SplitExample()
    ensures var a, b, c := ['a' as int], ['b' as int], ['C' as int];
      QualifiedParts(a + [Colon, Colon] + b + [Colon, Colon] + c) == Some([a, b, c]) &&
      Text(FromParts([a, b, c], NoCollection)) == a + ['.' as int] + b + ['.' as int] + c
  {
    var a, b, c := ['a' as int], ['b' as int], ['C' as int];
    var parts := [a, b, c];
    assert forall k | 0 <= k < 3 :: IsPart(parts[k]);
    assert parts[1..] == [b, c] && [b, c][1..] == [c];
    assert Joined([c]) == c;
    assert Joined([b, c]) == b + [Colon, Colon] + c;
    AppendAssoc(a + [Colon, Colon], b + [Colon, Colon], c);
    assert Joined(parts) == a + [Colon, Colon] + b + [Colon, Colon] + c;
    QualifiedRoundTrip(parts);
    assert parts[..2] == [a, b] && [a, b][..1] == [a];
    assert Dotted([a]) == a + ['.' as int];
    assert Dotted([a, b]) == a + ['.' as int] + b + ['.' as int];
  }
}
