/**
 * The URL deserializer (`sergut::UrlDeserializer`): it holds the
 * `(name, value)` parameters of a request and takes out, for each member
 * it reads, the first parameter of that name. A collection takes all
 * parameters of its name, in order.
 *
 * The member names are taken as already combined with the names of the
 * enclosing structures, and values as the text that `ReadHelper::readInto`
 * converts.
 */
module UrlDeserializer {
  import opened Common
  import opened UrlVectorSerializer

  /** The position of the first parameter named `name`, or the number of parameters when there is none. */
  function FirstIndex(params: seq<Param>, name: seq<Byte>): (r: nat)
    ensures r <= |params|
    ensures r < |params| ==> params[r].0 == name
    ensures forall k | 0 <= k < r :: params[k].0 != name
    decreases |params|
  {
    if params == [] then 0
    else if params[0].0 == name then 0
    else 1 + FirstIndex(params[1..], name)
  }

  /** Taking a member out of the parameters: the value of the first one of its name and the parameters without it. */
  function Take(params: seq<Param>, name: seq<Byte>): (Option<seq<Byte>>, seq<Param>)
    decreases |params|
  {
    if params == [] then (None, [])
    else if params[0].0 == name then (Some(params[0].1), params[1..])
    else var t := Take(params[1..], name); (t.0, [params[0]] + t.1)
  }

  /** `Take` removes the parameter at `FirstIndex`, and only when there is one. */
  lemma {:induction false} TakeAt(params: seq<Param>, name: seq<Byte>)
    ensures var i := FirstIndex(params, name);
      if i < |params| then Take(params, name) == (Some(params[i].1), params[..i] + params[i + 1..])
      else Take(params, name) == (None, params)
    decreases |params|
  {
    if params != [] && params[0].0 != name {
      var rest := params[1..];
      TakeAt(rest, name);
      var t := Take(rest, name);
      assert Take(params, name) == (t.0, [params[0]] + t.1);
      var j := FirstIndex(rest, name);
      if j < |rest| {
        assert t == (Some(rest[j].1), rest[..j] + rest[j + 1..]);
        assert rest[j] == params[j + 1];
        assert [params[0]] + rest[..j] == params[..j + 1];
        assert rest[j + 1..] == params[j + 2..];
        AppendAssoc([params[0]], rest[..j], rest[j + 1..]);
      } else {
        assert params == [params[0]] + rest;
      }
    } else if params != [] {
      assert params[..0] + params[1..] == params[1..];
    }
  }

  /** The values of all parameters named `name`, in order. */
  function ValuesOf(params: seq<Param>, name: seq<Byte>): seq<seq<Byte>>
    decreases |params|
  {
    if params == [] then []
    else (if params[0].0 == name then [params[0].1] else []) + ValuesOf(params[1..], name)
  }

  /** The parameters of other names, in order. */
  function Without(params: seq<Param>, name: seq<Byte>): seq<Param>
    decreases |params|
  {
    if params == [] then []
    else (if params[0].0 == name then [] else [params[0]]) + Without(params[1..], name)
  }

  /** Taking `name` out consumes the first of its values and leaves the other names alone. */
  lemma {:induction false} TakeValues(params: seq<Param>, name: seq<Byte>)
    ensures var t := Take(params, name);
      (t.0.Some? <==> ValuesOf(params, name) != []) &&
      (t.0.Some? ==> t.0.value == ValuesOf(params, name)[0] && ValuesOf(t.1, name) == ValuesOf(params, name)[1..]) &&
      Without(t.1, name) == Without(params, name) && |t.1| <= |params|
    decreases |params|
  {
    if params != [] && params[0].0 != name {
      var t := Take(params[1..], name);
      TakeValues(params[1..], name);
      assert ([params[0]] + t.1)[1..] == t.1;
    }
  }

  /**
   * Members may come in any order: taking two different names out gives
   * the same values and leaves the same parameters in either order.
   */
  lemma {:induction false} TakeCommutes(params: seq<Param>, a: seq<Byte>, b: seq<Byte>)
    requires a != b
    ensures Take(Take(params, a).1, b).0 == Take(params, b).0
    ensures Take(Take(params, b).1, a).0 == Take(params, a).0
    ensures Take(Take(params, a).1, b).1 == Take(Take(params, b).1, a).1
    decreases |params|
  {
    if params != [] {
      var p := params[0];
      var rest := params[1..];
      TakeCommutes(rest, a, b);
      if p.0 == a {
        assert Take(params, b).1 == [p] + Take(rest, b).1;
        assert ([p] + Take(rest, b).1)[1..] == Take(rest, b).1;
      } else if p.0 == b {
        assert Take(params, a).1 == [p] + Take(rest, a).1;
        assert ([p] + Take(rest, a).1)[1..] == Take(rest, a).1;
      } else {
        assert ([p] + Take(rest, a).1)[1..] == Take(rest, a).1;
        assert ([p] + Take(rest, b).1)[1..] == Take(rest, b).1;
      }
    }
  }

  lemma NotWrittenTail(params: seq<Param>, name: seq<Byte>)
    requires params != [] && !Written(params, name)
    ensures !Written(params[1..], name)
  {
    forall k | 0 <= k < |params| - 1
      ensures params[1..][k].0 != name
    {
      assert params[1..][k] == params[k + 1];
    }
  }

  /** A value written under a name not used before is the one taken back, and the other parameters stay. */
  lemma {:induction false} TakeWritten(before: seq<Param>, name: seq<Byte>, text: seq<Byte>, after: seq<Param>)
    requires !Written(before, name)
    ensures Take(before + [(name, text)] + after, name) == (Some(text), before + after)
    decreases |before|
  {
    var params := before + [(name, text)] + after;
    if before == [] {
      assert params[0] == (name, text) && params[1..] == after && before + after == after;
    } else {
      assert params[1..] == before[1..] + [(name, text)] + after;
      NotWrittenTail(before, name);
      TakeWritten(before[1..], name, text, after);
      assert [before[0]] + (before[1..] + after) == before + after;
    }
  }

  lemma {:induction false} ValuesOfAppend(a: seq<Param>, b: seq<Param>, name: seq<Byte>)
    ensures ValuesOf(a + b, name) == ValuesOf(a, name) + ValuesOf(b, name)
    decreases |a|
  {
    if a == [] {
      assert a + b == b;
    } else {
      assert (a + b)[0] == a[0] && (a + b)[1..] == a[1..] + b;
      ValuesOfAppend(a[1..], b, name);
    }
  }

  lemma {:induction false} ValuesOfOthers(params: seq<Param>, name: seq<Byte>)
    requires !Written(params, name)
    ensures ValuesOf(params, name) == []
    decreases |params|
  {
    if params != [] {
      NotWrittenTail(params, name);
      ValuesOfOthers(params[1..], name);
    }
  }

  /** A collection's parameters give back its values. */
  lemma {:induction false} ValuesOfNamed(name: seq<Byte>, values: seq<seq<Byte>>)
    ensures ValuesOf(Named(name, values), name) == values
    decreases |values|
  {
    if values != [] {
      var n := |values| - 1;
      ValuesOfNamed(name, values[..n]);
      ValuesOfAppend(Named(name, values[..n]), [(name, values[n])], name);
      assert values == values[..n] + [values[n]];
    }
  }

  /** A collection written after parameters of other names is read back whole. */
  lemma CollectionRoundTrip(before: seq<Param>, name: seq<Byte>, values: seq<seq<Byte>>)
    requires !Written(before, name)
    ensures ValuesOf(before + Named(name, values), name) == values
  {
    ValuesOfAppend(before, Named(name, values), name);
    ValuesOfOthers(before, name);
    ValuesOfNamed(name, values);
  }

  /** The outcome of `extractSimpleType`. */
  datatype Extracted =
    | Missing             // the "Missing mandatory URL parameter" exception
    | Absent              // an optional member without a parameter: `false`
    | Found(text: seq<Byte>)

  class Deserializer {
    var params: seq<Param>

    constructor (params: seq<Param>)
      ensures this.params == params
    {
      this.params := params;
    }

    /** `findParam`: the first parameter named `name`, or the end. */
    method FindParam(name: seq<Byte>) returns (i: nat)
      ensures i == FirstIndex(params, name)
    {
      i := 0;
      while i < |params|
        invariant i <= |params|
        invariant forall k | 0 <= k < i :: params[k].0 != name
      {
        if params[i].0 == name {
          return;
        }
        i := i + 1;
      }
    }

    /**
     * `extractSimpleType`: the first parameter of the name is read and
     * erased; without one, a mandatory member is an error and an
     * optional one is left alone.
     */
    method ExtractSimpleType(name: seq<Byte>, mandatory: bool) returns (r: Extracted)
      modifies this
      ensures var t := Take(old(params), name);
        params == t.1 &&
        r == (if t.0.Some? then Found(t.0.value) else if mandatory then Missing else Absent)
    {
      TakeAt(params, name);
      var i := FindParam(name);
      if i == |params| {
        if mandatory {
          return Missing;
        }
        return Absent;
      }
      r := Found(params[i].1);
      params := params[..i] + params[i + 1..];
    }

    /** A vector, list or set member: as long as a parameter of its name is left, the first one is taken. */
    method ExtractCollection(name: seq<Byte>) returns (values: seq<seq<Byte>>)
      modifies this
      ensures values == ValuesOf(old(params), name)
      ensures params == Without(old(params), name)
    {
      values := [];
      var i := FindParam(name);
      while i < |params|
        invariant i == FirstIndex(params, name)
        invariant values + ValuesOf(params, name) == ValuesOf(old(params), name)
        invariant Without(params, name) == Without(old(params), name)
        decreases |params|
      {
        TakeValues(params, name);
        TakeAt(params, name);
        var v := ExtractSimpleType(name, true);
        values := values + [v.text];
        i := FindParam(name);
      }
      TakeValues(params, name);
      TakeAt(params, name);
      assert values + [] == values;
      NoValuesWithout(params, name);
    }
  }

  /** Parameters without any of a name are their own remainder. */
  lemma {:induction false} NoValuesWithout(params: seq<Param>, name: seq<Byte>)
    requires ValuesOf(params, name) == []
    ensures Without(params, name) == params
    decreases |params|
  {
    if params != [] {
      NoValuesWithout(params[1..], name);
      assert params == [params[0]] + params[1..];
    }
  }
}
