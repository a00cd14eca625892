/**
 * `sergut::misc::ConstStringRef`: a view on a range of octets that
 * somebody else owns, given by a begin and an end pointer. The memory the
 * pointers point into is a field of the view, and the pointers are
 * positions in it.
 */
module StringRef {
  import opened Common

  class ConstStringRef {
    var memory: seq<Byte>
    var beginPtr: nat
    var endPtr: nat

    predicate Valid()
      reads this
    {
      beginPtr <= endPtr <= |memory|
    }

    /** The octets the view shows. */
    function Contents(): seq<Byte>
      reads this
      requires Valid()
    {
      memory[beginPtr..endPtr]
    }

    /** The default constructor: two null pointers, an empty view. */
    constructor Empty()
      ensures Valid() && Contents() == []
    {
      memory := [];
      beginPtr := 0;
      endPtr := 0;
    }

    /** The view on a range given by its two pointers. */
    constructor (memory: seq<Byte>, beginPtr: nat, endPtr: nat)
      requires beginPtr <= endPtr <= |memory|
      ensures Valid() && this.memory == memory && this.beginPtr == beginPtr && this.endPtr == endPtr
    {
      this.memory := memory;
      this.beginPtr := beginPtr;
      this.endPtr := endPtr;
    }

    /** The view on a string literal `char[N]`: its terminating NUL is left out. */
    constructor FromLiteral(literal: seq<Byte>)
      requires |literal| >= 1
      ensures Valid() && Contents() == literal[..|literal| - 1]
    {
      memory := literal;
      beginPtr := 0;
      endPtr := |literal| - 1;
    }

    /** The view on the whole of a `std::string`. */
    constructor FromString(str: seq<Byte>)
      ensures Valid() && Contents() == str
    {
      memory := str;
      beginPtr := 0;
      endPtr := |str|;
    }

    /** `size`: the distance of the two pointers, the number of octets in view. */
    function Size(): (r: nat)
      reads this
      requires Valid()
      ensures r == |Contents()|
    {
      endPtr - beginPtr
    }

    predicate IsEmpty()
      reads this
      requires Valid()
    {
      Size() == 0
    }

    /** `toString`: a copy of the octets in view. */
    method ToString() returns (str: seq<Byte>)
      requires Valid()
      ensures str == Contents()
    {
      str := memory[beginPtr..endPtr];
    }

    /**
     * `consumeFront`: the first `n` octets leave the view; when there are
     * fewer, the view is emptied at its end and the result is false.
     */
    method ConsumeFront(n: nat) returns (ok: bool)
      requires Valid()
      modifies this
      ensures Valid() && memory == old(memory) && endPtr == old(endPtr)
      ensures ok <==> n <= old(Size())
      ensures ok ==> Contents() == old(Contents())[n..]
      ensures !ok ==> Contents() == []
    {
      if beginPtr + n > endPtr {
        beginPtr := endPtr;
        return false;
      }
      beginPtr := beginPtr + n;
      return true;
    }

    /** `operator==`: the same size, and the same octets position by position. */
    method Equals(other: ConstStringRef) returns (r: bool)
      requires Valid() && other.Valid()
      ensures r <==> Contents() == other.Contents()
    {
      if Size() != other.Size() {
        return false;
      }
      var i := 0;
      while i < Size()
        invariant i <= Size()
        invariant Contents()[..i] == other.Contents()[..i]
      {
        if memory[beginPtr + i] != other.memory[other.beginPtr + i] {
          assert Contents()[i] != other.Contents()[i];
          return false;
        }
        assert Contents()[..i + 1] == Contents()[..i] + [Contents()[i]];
        assert other.Contents()[..i + 1] == other.Contents()[..i] + [other.Contents()[i]];
        i := i + 1;
      }
      assert Contents()[..i] == Contents() && other.Contents()[..i] == other.Contents();
      return true;
    }

    /** `operator!=`: the negation of `operator==`. */
    method NotEquals(other: ConstStringRef) returns (r: bool)
      requires Valid() && other.Valid()
      ensures r <==> Contents() != other.Contents()
    {
      var equal := Equals(other);
      r := !equal;
    }
  }
}
