/**
 * The version registry (`rsm::VersionTracker`): the entities that the
 * registration macros create while the program starts up register their
 * version strings, at most one application and any number of libraries,
 * and `getAllVersions` lists them one per line, the application first.
 */
module Versions {
  import opened Common

  const Newline: Byte := 10

  datatype EntityType = Application | Library

  /** A registered entity: its version string and its kind. */
  datatype Entity = Entity(versionString: seq<Byte>, entityType: EntityType)

  /** Each line followed by a line feed, in order. */
  function Listing(lines: seq<seq<Byte>>): seq<Byte>
    decreases |lines|
  {
    if lines == [] then [] else Listing(lines[..|lines| - 1]) + lines[|lines| - 1] + [Newline]
  }

  /**
   * The lines of a text, reading it back: `part` is the line begun so far;
   * a line feed ends it, and an unfinished last line counts as well.
   */
  function LinesOf(s: seq<Byte>, part: seq<Byte>): seq<seq<Byte>>
    decreases |s|
  {
    if s == [] then (if part == [] then [] else [part])
    else if s[0] == Newline then [part] + LinesOf(s[1..], [])
    else LinesOf(s[1..], part + [s[0]])
  }

  predicate NoNewline(line: seq<Byte>)
  {
    forall k | 0 <= k < |line| :: line[k] != Newline
  }

  /** A line without a line feed, and the line feed that ends it, give one line. */
  lemma {:induction false} LineRead(p: seq<Byte>, rest: seq<Byte>, part: seq<Byte>)
    requires NoNewline(p)
    ensures LinesOf(p + [Newline] + rest, part) == [part + p] + LinesOf(rest, [])
    decreases |p|
  {
    if p == [] {
      assert p + [Newline] + rest == [Newline] + rest;
      assert part + p == part;
    } else {
      assert (p + [Newline] + rest)[0] == p[0];
      assert (p + [Newline] + rest)[1..] == p[1..] + [Newline] + rest;
      LineRead(p[1..], rest, part + [p[0]]);
      assert part + [p[0]] + p[1..] == part + p;
    }
  }

  /** The lines of a listing followed by more text are its lines, then the lines of that text. */
  lemma {:induction false} ListingLines(lines: seq<seq<Byte>>, rest: seq<Byte>)
    requires forall k | 0 <= k < |lines| :: NoNewline(lines[k])
    ensures LinesOf(Listing(lines) + rest, []) == lines + LinesOf(rest, [])
    decreases |lines|
  {
    if lines == [] {
      assert Listing(lines) + rest == rest;
    } else {
      var n := |lines| - 1;
      var init, last := lines[..n], lines[n];
      assert Listing(lines) + rest == Listing(init) + (last + [Newline] + rest);
      ListingLines(init, last + [Newline] + rest);
      LineRead(last, rest, []);
      assert [] + last == last;
      assert lines == init + [last];
    }
  }

  /** The listing loses nothing: reading its lines back gives the version strings in order. */
  lemma ListingRoundTrip(lines: seq<seq<Byte>>)
    requires forall k | 0 <= k < |lines| :: NoNewline(lines[k])
    ensures LinesOf(Listing(lines), []) == lines
  {
    ListingLines(lines, []);
    assert Listing(lines) + [] == Listing(lines);
  }

  lemma ThreeLines(a: seq<Byte>, b: seq<Byte>, c: seq<Byte>)
    ensures Listing([a, b, c]) == (a + [Newline]) + (b + [Newline]) + (c + [Newline])
  {
    assert [a, b, c][..2] == [a, b] && [a, b][..1] == [a] && [a][..0] == [];
    assert Listing([a]) == a + [Newline];
    assert Listing([a, b]) == (a + [Newline]) + (b + [Newline]);
  }

  /** The registry that `getInstance` hands out. */
  class VersionTracker {
    var application: Option<seq<Byte>>
    var libraries: seq<seq<Byte>>

    constructor ()
      ensures application == None && libraries == []
    {
      application := None;
      libraries := [];
    }

    /** The version strings in the order `getAllVersions` lists them. */
    function Entries(): seq<seq<Byte>>
      reads this
    {
      (if application.Some? then [application.value] else []) + libraries
    }

    /**
     * `registerEntity`: the first application is kept and a second one is
     * the error thrown; libraries are appended in the order they register.
     */
    method RegisterEntity(entity: Entity) returns (ok: bool)
      modifies this
      ensures ok <==> !(entity.entityType == Application && old(application).Some?)
      ensures !ok ==> application == old(application) && libraries == old(libraries)
      ensures ok && entity.entityType == Application ==>
        application == Some(entity.versionString) && libraries == old(libraries)
      ensures entity.entityType == Library ==>
        application == old(application) && libraries == old(libraries) + [entity.versionString]
    {
      match entity.entityType
      case Application =>
        if application.Some? {
          return false;
        }
        application := Some(entity.versionString);
        return true;
      case Library =>
        libraries := libraries + [entity.versionString];
        return true;
    }

    /** `getAllVersions`: the application's line, if there is one, then one line per library. */
    method GetAllVersions() returns (s: seq<Byte>)
      ensures s == Listing(Entries())
    {
      var head: seq<seq<Byte>> := [];
      s := [];
      if application.Some? {
        head := [application.value];
        s := application.value + [Newline];
        assert head[..0] == [];
      }
      var i := 0;
      while i < |libraries|
        invariant i <= |libraries|
        invariant s == Listing(head + libraries[..i])
      {
        assert (head + libraries[..i + 1])[..|head| + i] == head + libraries[..i];
        s := s + libraries[i] + [Newline];
        i := i + 1;
      }
      assert libraries[..i] == libraries;
    }
  }

  /**
   * The test's program: an application and two libraries registered in
   * this order are listed in three lines.
   */
  method RegistrationExample() returns (s: seq<Byte>)
    ensures s ==
      Ascii("Application: Test Anwendung (Version: 3.7.0-SNAPSHOT)") + [Newline] +
      Ascii("Library: Bibliothek1 (Version: 1.7.0-SNAPSHOT)") + [Newline] +
      Ascii("Library: Bibliothek2 (Version: 2.7.0-SNAPSHOT)") + [Newline]
  {
    var app := Ascii("Application: Test Anwendung (Version: 3.7.0-SNAPSHOT)");
    var lib1 := Ascii("Library: Bibliothek1 (Version: 1.7.0-SNAPSHOT)");
    var lib2 := Ascii("Library: Bibliothek2 (Version: 2.7.0-SNAPSHOT)");
    var tracker := new VersionTracker();
    var ok := tracker.RegisterEntity(Entity(app, Application));
    ok := tracker.RegisterEntity(Entity(lib1, Library));
    ok := tracker.RegisterEntity(Entity(lib2, Library));
    s := tracker.GetAllVersions();
    assert tracker.Entries() == [app, lib1, lib2];
    ThreeLines(app, lib1, lib2);
  }
}
