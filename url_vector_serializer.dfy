/**
 * The URL serializer that keeps the parameters apart
 * (`sergut::UrlSerializeToVector`): every member becomes one
 * `(name, value)` pair, unescaped, in the order the members are
 * serialized. Names are checked for duplicates as in the string form,
 * and collections use the same saved set and dummy name.
 */
module UrlVectorSerializer {
  import opened Common
  import opened UrlSerializer

  type Param = (seq<Byte>, seq<Byte>)

  /** The pairs a collection's elements make: one per element, in order, all under the collection's name. */
  function Named(name: seq<Byte>, values: seq<seq<Byte>>): (r: seq<Param>)
    ensures |r| == |values|
    ensures forall k | 0 <= k < |values| :: r[k] == (name, values[k])
    decreases |values|
  {
    if values == [] then []
    else Named(name, values[..|values| - 1]) + [(name, values[|values| - 1])]
  }

  /** A name occurs among the parameters. */
  predicate Written(params: seq<Param>, name: seq<Byte>)
  {
    exists k | 0 <= k < |params| :: params[k].0 == name
  }

  class Serializer {
    var params: seq<Param>
    var seenNames: set<seq<Byte>>

    /** Every name among the parameters is in the set, so that writing it again is refused. */
    predicate Valid()
      reads this
    {
      forall k | 0 <= k < |params| :: params[k].0 in seenNames
    }

    constructor ()
      ensures params == [] && seenNames == {} && Valid()
    {
      params := [];
      seenNames := {};
    }

    /**
     * `writeSimpleType`: a name already in the set is the "Duplicate
     * name" exception with nothing changed; otherwise the pair of the
     * name and the value's text is appended.
     */
    method WriteSimpleType(name: seq<Byte>, text: seq<Byte>) returns (ok: bool)
      modifies this
      ensures ok <==> name !in old(seenNames)
      ensures ok ==> seenNames == old(seenNames) + {name} && params == old(params) + [(name, text)]
      ensures !ok ==> seenNames == old(seenNames) && params == old(params)
      ensures old(Valid()) ==> Valid()
      ensures old(Valid()) && Written(old(params), name) ==> !ok
    {
      if name in seenNames {
        return false;
      }
      seenNames := seenNames + {name};
      params := params + [(name, text)];
      return true;
    }

    /** A `char` member: written as the string of that one character. */
    method WriteChar(name: seq<Byte>, c: Byte) returns (ok: bool)
      modifies this
      ensures ok <==> name !in old(seenNames)
      ensures ok ==> params == old(params) + [(name, [c])] && |params[|params| - 1].1| == 1
      ensures !ok ==> params == old(params)
      ensures seenNames == old(seenNames) + {name}
    {
      ok := WriteSimpleType(name, [c]);
    }

    /**
     * The loop of `serializeCollection`: after the first element the set
     * is saved in `localSeenNames` and replaced by the dummy name.
     */
    method WriteElements(name: seq<Byte>, values: seq<seq<Byte>>) returns (ok: bool, localSeenNames: set<seq<Byte>>)
      modifies this
      ensures ok <==> CollectionAccepted(old(seenNames), name, values)
      ensures ok && values == [] ==> localSeenNames == {} && seenNames == old(seenNames) && params == old(params)
      ensures ok && values != [] ==>
        localSeenNames == old(seenNames) + {name} && seenNames == {Dummy} && params == old(params) + Named(name, values)
      ensures !ok && name in old(seenNames) ==> seenNames == old(seenNames) && params == old(params)
      ensures !ok && name !in old(seenNames) ==> seenNames == {Dummy} && params == old(params) + Named(name, values[..1])
    {
      ghost var params0, seen0 := params, seenNames;
      var first := true;
      localSeenNames := {};
      var i := 0;
      while i < |values|
        invariant i <= |values| && (first <==> i == 0)
        invariant params == params0 + Named(name, values[..i])
        invariant i == 0 ==> localSeenNames == {} && seenNames == seen0
        invariant i > 0 ==>
          name !in seen0 && (i > 1 ==> name != Dummy) && localSeenNames == seen0 + {name} && seenNames == {Dummy}
      {
        assert values[..i + 1][..i] == values[..i];
        ok := WriteSimpleType(name, values[i]);
        if !ok {
          return;
        }
        if first {
          first := false;
          seenNames, localSeenNames := localSeenNames, seenNames;
        }
        seenNames := {};
        if |localSeenNames| != 0 {
          seenNames := {Dummy};
        }
        i := i + 1;
      }
      assert values[..i] == values;
      ok := true;
    }

    /**
     * `serializeCollection` as written: the saved set is swapped back also
     * when the loop never ran, which empties the set.
     */
    method SerializeCollection(name: seq<Byte>, values: seq<seq<Byte>>) returns (ok: bool)
      modifies this
      ensures ok <==> CollectionAccepted(old(seenNames), name, values)
      ensures ok ==> seenNames == SeenAfterCollection(old(seenNames), name, values) && params == old(params) + Named(name, values)
    {
      var localSeenNames;
      ok, localSeenNames := WriteElements(name, values);
      if ok {
        seenNames, localSeenNames := localSeenNames, seenNames;
      }
    }

    /** `serializeCollection` with the swap back only after an element was written: every name stays refused. */
    method SerializeCollectionCorrected(name: seq<Byte>, values: seq<seq<Byte>>) returns (ok: bool)
      modifies this
      ensures ok <==> CollectionAccepted(old(seenNames), name, values)
      ensures ok ==>
        seenNames == SeenAfterCollectionCorrected(old(seenNames), name, values) && params == old(params) + Named(name, values)
      ensures ok && old(Valid()) ==> Valid()
    {
      var localSeenNames;
      ok, localSeenNames := WriteElements(name, values);
      if ok && values != [] {
        seenNames, localSeenNames := localSeenNames, seenNames;
      }
    }
  }

  /** As written, a member after an empty collection may repeat the name of a member before it. */
  method ForgottenDuplicate() returns (params: seq<Param>)
    ensures |params| == 2 && params[0].0 == params[1].0 == Ascii("a")
  {
    var s := new Serializer();
    var ok := s.WriteSimpleType(Ascii("a"), Ascii("1"));
    ok := s.SerializeCollection(Ascii("v"), []);
    ok := s.WriteSimpleType(Ascii("a"), Ascii("2"));
    params := s.params;
  }

  /** With the corrected collection the repeated name is refused. */
  method ForgottenDuplicateCorrected() returns (params: seq<Param>)
    ensures params == [(Ascii("a"), Ascii("1"))]
  {
    var s := new Serializer();
    var ok := s.WriteSimpleType(Ascii("a"), Ascii("1"));
    ok := s.SerializeCollectionCorrected(Ascii("v"), []);
    ok := s.WriteSimpleType(Ascii("a"), Ascii("2"));
    params := s.params;
  }
}
