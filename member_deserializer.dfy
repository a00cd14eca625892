/**
 * The member registry of the XML deserializer (`MemberDeserializer`): the
 * `serialize` function of a structure declares its members and the two
 * markers in order; each member is kept under its name (or, after the
 * plain-child marker when the format supports it, under the single-child
 * key) together with the kind of XML value it is read from, and the
 * deserializer later takes each member out when it meets it.
 */
module MemberDeserializing {
  import opened Common

  /** Where a member's value is read from: an attribute, a child element, or the one plain child. */
  datatype XmlValueType = Attribute | Child | SingleChild

  /** The C++ type of a member's value, as far as `isContainer` tells them apart. */
  datatype CppType =
    | Scalar(name: seq<Byte>)
    | Vector(element: CppType)
    | List(element: CppType)
    | Set(element: CppType)
    | Map(key: CppType, value: CppType)

  /** A declared member (`NamedMemberForDeserialization`): its name, whether it is mandatory, and its type. */
  datatype Member = Member(name: seq<Byte>, mandatory: bool, valueKind: CppType)

  /** A registered member (`Holder`): the member and the value type in force when it was declared. */
  datatype Holder = Holder(member: Member, valueType: XmlValueType)
  {
    function GetName(): seq<Byte> { member.name }
    function IsMandatory(): bool { member.mandatory }

    /** `isContainer`: the value is a `std::vector`, a `std::list` or a `std::set`, and nothing else. */
    function IsContainer(): (r: bool)
      ensures r <==> member.valueKind.Vector? || member.valueKind.List? || member.valueKind.Set?
    {
      match member.valueKind
      case Vector(_) | List(_) | Set(_) => true
      case _ => false
    }
  }

  /** One step of a `serialize` function: a member, or one of the two markers. */
  datatype Declaration =
    | Declare(member: Member)
    | ChildrenFollowMarker
    | PlainChildFollowsMarker

  /** The registry's state: the members by key and the value type in force. */
  datatype Registry = Registry(members: map<seq<Byte>, Holder>, valueType: XmlValueType)

  /** The key a member is kept under. */
  function KeyOf(singleChildSupported: bool, singleChildKey: seq<Byte>, valueType: XmlValueType, name: seq<Byte>): seq<Byte>
  {
    if singleChildSupported && valueType == SingleChild then singleChildKey else name
  }

  /** The registry after one declaration. */
  function Declared(singleChildSupported: bool, singleChildKey: seq<Byte>, r: Registry, d: Declaration): Registry
  {
    match d
    case ChildrenFollowMarker => r.(valueType := Child)
    case PlainChildFollowsMarker => r.(valueType := SingleChild)
    case Declare(m) =>
      r.(members := r.members[KeyOf(singleChildSupported, singleChildKey, r.valueType, m.name) := Holder(m, r.valueType)])
  }

  /** The registry after a sequence of declarations, in order. */
  function DeclaredAll(singleChildSupported: bool, singleChildKey: seq<Byte>, r: Registry, ds: seq<Declaration>): Registry
    decreases |ds|
  {
    if ds == [] then r
    else Declared(singleChildSupported, singleChildKey, DeclaredAll(singleChildSupported, singleChildKey, r, ds[..|ds| - 1]), ds[|ds| - 1])
  }

  /** The last member declared under `name`, if any. */
  function LastDeclared(ds: seq<Declaration>, name: seq<Byte>): Option<Member>
    decreases |ds|
  {
    if ds == [] then None
    else if ds[|ds| - 1].Declare? && ds[|ds| - 1].member.name == name then Some(ds[|ds| - 1].member)
    else LastDeclared(ds[..|ds| - 1], name)
  }

  /**
   * Without single-child support every member is kept under its own name,
   * and a name declared twice keeps only its last declaration.
   */
  lemma {:induction false} KeptByName(key: seq<Byte>, ds: seq<Declaration>, name: seq<Byte>)
    ensures var r := DeclaredAll(false, key, Registry(map[], Attribute), ds);
      (name in r.members <==> LastDeclared(ds, name).Some?) &&
      (name in r.members ==> r.members[name].member == LastDeclared(ds, name).value)
    decreases |ds|
  {
    if ds != [] {
      KeptByName(key, ds[..|ds| - 1], name);
    }
  }

  /** After the plain-child marker, a format that supports it keeps the next member under the single-child key. */
  lemma PlainChildKept(key: seq<Byte>, r: Registry, m: Member)
    ensures var r' := DeclaredAll(true, key, r, [PlainChildFollowsMarker, Declare(m)]);
      key in r'.members && r'.members[key] == Holder(m, SingleChild) &&
      forall k | k in r.members && k != key :: k in r'.members && r'.members[k] == r.members[k]
  {
    assert [PlainChildFollowsMarker, Declare(m)][..1] == [PlainChildFollowsMarker];
    assert [PlainChildFollowsMarker][..0] == [];
  }

  class MemberDeserializer {
    const singleChildSupported: bool
    /** `SINGLE_CHILD`: its text is defined outside this header, so it is a parameter here. */
    const singleChildKey: seq<Byte>
    var members: map<seq<Byte>, Holder>
    var valueType: XmlValueType

    function State(): Registry
      reads this
    {
      Registry(members, valueType)
    }

    constructor (singleChildSupported: bool, singleChildKey: seq<Byte>)
      ensures this.singleChildSupported == singleChildSupported && this.singleChildKey == singleChildKey
      ensures members == map[] && valueType == Attribute
    {
      this.singleChildSupported := singleChildSupported;
      this.singleChildKey := singleChildKey;
      members := map[];
      valueType := Attribute;
    }

    /** `operator&(ChildrenFollow)`: the members after it are child elements. */
    method ChildrenFollow()
      modifies this
      ensures valueType == Child && members == old(members)
    {
      valueType := Child;
    }

    /** `operator&(PlainChildFollows)`: the member after it is the element's plain content. */
    method PlainChildFollows()
      modifies this
      ensures valueType == SingleChild && members == old(members)
    {
      valueType := SingleChild;
    }

    /** `operator&` of a member: registered under its key, replacing an entry there. */
    method Add(m: Member)
      modifies this
      ensures State() == Declared(singleChildSupported, singleChildKey, old(State()), Declare(m))
      ensures var key := KeyOf(singleChildSupported, singleChildKey, old(valueType), m.name);
        key in members && members[key] == Holder(m, old(valueType)) &&
        forall k | k in old(members) && k != key :: k in members && members[k] == old(members)[k]
    {
      var holder := Holder(m, valueType);
      if singleChildSupported && valueType == SingleChild {
        members := members[singleChildKey := holder];
      } else {
        members := members[m.name := holder];
      }
    }

    /** A structure's `serialize` function run against the registry: each declaration in turn. */
    method DeclareAll(ds: seq<Declaration>)
      modifies this
      ensures State() == DeclaredAll(singleChildSupported, singleChildKey, old(State()), ds)
    {
      var i := 0;
      while i < |ds|
        invariant i <= |ds|
        invariant State() == DeclaredAll(singleChildSupported, singleChildKey, old(State()), ds[..i])
      {
        assert ds[..i + 1][..i] == ds[..i];
        match ds[i] {
          case ChildrenFollowMarker => ChildrenFollow();
          case PlainChildFollowsMarker => PlainChildFollows();
          case Declare(m) => Add(m);
        }
        i := i + 1;
      }
      assert ds[..i] == ds;
    }

    /** `popMember`: the entry of the name, taken out; nothing, and no change, when there is none. */
    method PopMember(name: seq<Byte>) returns (r: Option<Holder>)
      modifies this
      ensures name in old(members) ==> r == Some(old(members)[name])
      ensures name !in old(members) ==> r.None? && members == old(members)
      ensures name !in members && valueType == old(valueType)
      ensures forall k | k in old(members) && k != name :: k in members && members[k] == old(members)[k]
      ensures forall k | k in members :: k in old(members)
    {
      if name in members {
        r := Some(members[name]);
        members := members - {name};
      } else {
        r := None;
      }
    }
  }
}
