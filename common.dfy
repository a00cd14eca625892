/**
 * Shared vocabulary of the model: the octets that every `std::string` and
 * `char` buffer of the library holds, an optional value, and the
 * lower-case hexadecimal digits that the URL and JSON escapers print.
 */
module Common {

  /** One octet of a `std::string` or `char` buffer, read as unsigned. */
  type Byte = b: int | 0 <= b < 256

  datatype Option<T> = None | Some(value: T)

  /** The octets of a string literal written in ASCII. */
  function Ascii(s: string): (r: seq<Byte>)
    ensures |r| == |s|
    ensures forall i :: 0 <= i < |s| ==> r[i] == (s[i] as int) % 256
  {
    seq(|s|, i requires 0 <= i < |s| => (s[i] as int) % 256)
  }

  lemma AsciiAppend(a: string, b: string)
    ensures Ascii(a + b) == Ascii(a) + Ascii(b)
  {
  }

  /** The lower-case hexadecimal digit for a nibble: `0`-`9`, then `a`-`f`. */
  function HexDigit(d: int): (r: Byte)
    requires 0 <= d < 16
    ensures d < 10 ==> r == '0' as int + d
    ensures 10 <= d ==> r == 'a' as int + (d - 10)
  {
    if d < 10 then '0' as int + d else 'a' as int + (d - 10)
  }

  /** The value of a hexadecimal digit of either case, the inverse of HexDigit. */
  function HexValue(b: Byte): (r: Option<nat>)
    ensures r.Some? ==> r.value < 16
  {
    if '0' as int <= b <= '9' as int then Some(b - '0' as int)
    else if 'a' as int <= b <= 'f' as int then Some(b - 'a' as int + 10)
    else if 'A' as int <= b <= 'F' as int then Some(b - 'A' as int + 10)
    else None
  }

  lemma HexValueOfDigit(d: int)
    requires 0 <= d < 16
    ensures HexValue(HexDigit(d)) == Some(d)
  {
  }

  /**
   * Division by one of the powers of two the codecs shift by recovers the
   * quotient and the remainder a value was built from.
   */
  lemma DivMod(q: nat, r: nat, k: nat)
    requires r < k && (k == 4 || k == 64 || k == 256 || k == 1024 || k == 4096 || k == 262144)
    ensures (q * k + r) / k == q && (q * k + r) % k == r
  {
    if k == 4 {
      assert (q * 4 + r) / 4 == q;
    } else if k == 64 {
      assert (q * 64 + r) / 64 == q;
    } else if k == 256 {
      assert (q * 256 + r) / 256 == q;
    } else if k == 1024 {
      assert (q * 1024 + r) / 1024 == q;
    } else if k == 4096 {
      assert (q * 4096 + r) / 4096 == q;
    } else {
      assert (q * 262144 + r) / 262144 == q;
    }
  }

  /** The octets an escaper writes for a string: the escape of each octet, one after the other. */
  function FlatMap(f: Byte -> seq<Byte>, s: seq<Byte>): seq<Byte>
  {
    if s == [] then [] else f(s[0]) + FlatMap(f, s[1..])
  }

  /** Escaping a string piece by piece writes the same octets as escaping it at once. */
  lemma {:induction false} FlatMapAppend(f: Byte -> seq<Byte>, a: seq<Byte>, b: seq<Byte>)
    ensures FlatMap(f, a + b) == FlatMap(f, a) + FlatMap(f, b)
  {
    if a == [] {
      assert a + b == b;
    } else {
      assert (a + b)[0] == a[0] && (a + b)[1..] == a[1..] + b;
      FlatMapAppend(f, a[1..], b);
    }
  }

  /** A region of octets that each escape to themselves is written as it stands. */
  lemma {:induction false} FlatMapCopies(f: Byte -> seq<Byte>, s: seq<Byte>)
    requires forall i | 0 <= i < |s| :: f(s[i]) == [s[i]]
    ensures FlatMap(f, s) == s
  {
    if s != [] {
      FlatMapCopies(f, s[1..]);
      assert s == [s[0]] + s[1..];
    }
  }

  /** Escaping one more octet appends its escape. */
  lemma FlatMapSnoc(f: Byte -> seq<Byte>, s: seq<Byte>, b: Byte)
    ensures FlatMap(f, s + [b]) == FlatMap(f, s) + f(b)
  {
    FlatMapAppend(f, s, [b]);
    assert FlatMap(f, [b]) == f(b) + FlatMap(f, []);
  }

  /** A region of plain octets, between two escaped ones, is written as it stands after what came before it. */
  lemma FlatMapRegion(f: Byte -> seq<Byte>, s: seq<Byte>, start: nat, end: nat)
    requires start <= end <= |s|
    requires forall k | start <= k < end :: f(s[k]) == [s[k]]
    ensures FlatMap(f, s[..end]) == FlatMap(f, s[..start]) + s[start..end]
  {
    assert s[..end] == s[..start] + s[start..end];
    FlatMapAppend(f, s[..start], s[start..end]);
    FlatMapCopies(f, s[start..end]);
  }

  /** An escaped octet after a region of plain ones: the region is written as it stands, then the escape. */
  lemma FlatMapStep(f: Byte -> seq<Byte>, s: seq<Byte>, start: nat, end: nat)
    requires start <= end < |s|
    requires forall k | start <= k < end :: f(s[k]) == [s[k]]
    ensures FlatMap(f, s[..end + 1]) == FlatMap(f, s[..start]) + s[start..end] + f(s[end])
  {
    FlatMapRegion(f, s, start, end);
    assert s[..end + 1] == s[..end] + [s[end]];
    FlatMapSnoc(f, s[..end], s[end]);
  }

  /** The region left at the end of the string. */
  lemma FlatMapTail(f: Byte -> seq<Byte>, s: seq<Byte>, start: nat)
    requires start <= |s|
    requires forall k | start <= k < |s| :: f(s[k]) == [s[k]]
    ensures FlatMap(f, s) == FlatMap(f, s[..start]) + s[start..]
  {
    FlatMapRegion(f, s, start, |s|);
    assert s[..|s|] == s;
  }

  lemma AppendAssoc<T>(a: seq<T>, b: seq<T>, c: seq<T>)
    ensures (a + b) + c == a + (b + c)
  {
  }
}
