/**
 * The gdb pretty-printer for the library's string views
 * (`support/sergut-1.1.0-gdb-script.py`): gdb asks the lookup function
 * about each value it prints; for the two string-view classes it returns a
 * printer that shows the octets between the view's two pointers as a
 * string.
 */
module GdbPrinter {
  import opened Common
  import StringRef

  /**
   * A value as gdb hands it to the lookup function: the tag of its type
   * (none for a type without a name) and its `beginPtr` and `endPtr`
   * fields, as addresses.
   */
  datatype Value = Value(tag: Option<string>, beginPtr: int, endPtr: int)

  /** What `lazy_string` returns: text not read yet, given by its address and its length. */
  datatype LazyString = LazyString(address: int, length: int)

  /** `StdStringPrinter`: the printer of one value. */
  datatype Printer = StdStringPrinter(val: Value)

  const ConstStringRefTag: string := "sergut::misc::ConstStringRef"
  const StringRefTag: string := "sergut::misc::StringRef"

  /**
   * `re.compile("^" + literal + "$").match(tag)` for a pattern with no
   * special character but the anchors: the literal must start the tag, and
   * Python's `$` matches at the end of the text or in front of a line feed
   * that ends it.
   */
  function AnchoredMatch(literal: string, tag: string): (r: bool)
    ensures r <==> tag == literal || tag == literal + "\n"
  {
    var n := |literal|;
    |tag| >= n && tag[..n] == literal && (|tag| == n || (|tag| == n + 1 && tag[n] == '\n'))
  }

  /**
   * `str_lookup_function`: a printer for the two string-view classes,
   * nothing for a value without a tag or of any other type.
   */
  function Lookup(val: Value): (r: Option<Printer>)
    ensures r.Some? ==> r.value == StdStringPrinter(val)
    ensures r.Some? <==>
      val.tag.Some? && val.tag.value in {ConstStringRefTag, StringRefTag, ConstStringRefTag + "\n", StringRefTag + "\n"}
  {
    if val.tag.None? then None
    else if AnchoredMatch(ConstStringRefTag, val.tag.value) then Some(StdStringPrinter(val))
    else if AnchoredMatch(StringRefTag, val.tag.value) then Some(StdStringPrinter(val))
    else None
  }

  /** `to_string`: the text from `beginPtr`, as long as the distance to `endPtr`. */
  function ToString(p: Printer): (r: LazyString)
    ensures r.address == p.val.beginPtr && r.address + r.length == p.val.endPtr
  {
    LazyString(p.val.beginPtr, p.val.endPtr - p.val.beginPtr)
  }

  /** `display_hint`: the value is shown as a string. */
  function DisplayHint(p: Printer): string
  {
    "string"
  }

  /** The octets gdb shows for a lazy string, memory being a sequence of octets indexed by address. */
  function Shown(memory: seq<Byte>, s: LazyString): (r: seq<Byte>)
    requires 0 <= s.address && 0 <= s.length && s.address + s.length <= |memory|
    ensures |r| == s.length && forall i | 0 <= i < s.length :: r[i] == memory[s.address + i]
  {
    memory[s.address..s.address + s.length]
  }

  /** A valid `ConstStringRef` is printed as exactly the octets it shows. */
  lemma PrintsContents(ref: StringRef.ConstStringRef)
    requires ref.Valid()
    ensures var p := Lookup(Value(Some(ConstStringRefTag), ref.beginPtr, ref.endPtr));
      p.Some? && DisplayHint(p.value) == "string" &&
      Shown(ref.memory, ToString(p.value)) == ref.Contents()
  {
  }
}
