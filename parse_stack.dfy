/**
 * The stack of open tag names the XML pull parser keeps
 * (`sergut::xml::detail::ParseStack`), in its two forms: one that copies
 * each name into a growing buffer of its own, for inputs that are not
 * UTF-8, and one that keeps views into the UTF-8 input.
 */
module ParseStack {
  import opened Common

  /** The frames lie one after the other inside the buffer. */
  predicate Layout(buffer: seq<Byte>, frameEnd: seq<nat>)
  {
    (forall i, j | 0 <= i <= j < |frameEnd| :: frameEnd[i] <= frameEnd[j]) &&
    (forall k | 0 <= k < |frameEnd| :: frameEnd[k] <= |buffer|)
  }

  /** Where frame `k` starts: at the end of the frame below it. */
  function FrameStart(frameEnd: seq<nat>, k: nat): nat
    requires k < |frameEnd|
  {
    if k == 0 then 0 else frameEnd[k - 1]
  }

  /** The names a buffer and its frame ends hold, the innermost last. */
  function FramesOf(buffer: seq<Byte>, frameEnd: seq<nat>): (r: seq<seq<Byte>>)
    requires Layout(buffer, frameEnd)
    ensures |r| == |frameEnd|
    ensures forall k | 0 <= k < |frameEnd| :: r[k] == buffer[FrameStart(frameEnd, k)..frameEnd[k]]
  {
    seq(|frameEnd|, k requires 0 <= k < |frameEnd| => buffer[FrameStart(frameEnd, k)..frameEnd[k]])
  }

  /** Octets added behind the buffer change no frame. */
  lemma GrowKeepsFrames(buffer: seq<Byte>, frameEnd: seq<nat>, extra: seq<Byte>)
    requires Layout(buffer, frameEnd)
    ensures Layout(buffer + extra, frameEnd) && FramesOf(buffer + extra, frameEnd) == FramesOf(buffer, frameEnd)
  {
    var b := buffer + extra;
    forall k | 0 <= k < |frameEnd|
      ensures b[FrameStart(frameEnd, k)..frameEnd[k]] == buffer[FrameStart(frameEnd, k)..frameEnd[k]]
    {
      assert frameEnd[k] <= |buffer|;
    }
  }

  /** Frames that end within a prefix two buffers share are the same in both. */
  lemma SamePrefixSameFrames(b1: seq<Byte>, b2: seq<Byte>, frameEnd: seq<nat>, n: nat)
    requires Layout(b1, frameEnd) && Layout(b2, frameEnd)
    requires n <= |b1| && n <= |b2| && b1[..n] == b2[..n]
    requires forall k | 0 <= k < |frameEnd| :: frameEnd[k] <= n
    ensures FramesOf(b1, frameEnd) == FramesOf(b2, frameEnd)
  {
    var f1, f2 := FramesOf(b1, frameEnd), FramesOf(b2, frameEnd);
    forall k | 0 <= k < |frameEnd|
      ensures f1[k] == f2[k]
    {
      var s, e := FrameStart(frameEnd, k), frameEnd[k];
      if k > 0 {
        assert frameEnd[k - 1] <= frameEnd[k];
      }
      SliceOfPrefix(b1, n, s, e);
      SliceOfPrefix(b2, n, s, e);
    }
  }

  /** A slice that ends within a prefix is that slice of the prefix. */
  lemma SliceOfPrefix(b: seq<Byte>, n: nat, s: nat, e: nat)
    requires s <= e <= n <= |b|
    ensures b[s..e] == b[..n][s..e]
  {
  }

  /** A new frame end on top adds the octets from the old top's end to it as the innermost name. */
  lemma SnocFrame(buffer: seq<Byte>, frameEnd: seq<nat>, e: nat)
    requires Layout(buffer, frameEnd + [e])
    ensures Layout(buffer, frameEnd)
    ensures var fe := frameEnd + [e];
      FramesOf(buffer, fe) == FramesOf(buffer, frameEnd) + [buffer[FrameStart(fe, |frameEnd|)..fe[|frameEnd|]]]
  {
    var fe := frameEnd + [e];
    assert forall k | 0 <= k < |frameEnd| :: fe[k] == frameEnd[k];
    var l := FramesOf(buffer, fe);
    var r := FramesOf(buffer, frameEnd) + [buffer[FrameStart(fe, |frameEnd|)..fe[|frameEnd|]]];
    forall k | 0 <= k < |fe|
      ensures l[k] == r[k]
    {
      if k < |frameEnd| {
        assert FrameStart(fe, k) == FrameStart(frameEnd, k);
      }
    }
  }

  /** Writing `data` over the buffer at `at` keeps the octets before it and the length. */
  lemma WrittenAt(buffer: seq<Byte>, at: nat, data: seq<Byte>)
    requires at + |data| <= |buffer|
    ensures var b := buffer[..at] + data + buffer[at + |data|..];
      |b| == |buffer| && b[at..at + |data|] == data && b[..at] == buffer[..at]
  {
    var b := buffer[..at] + data + buffer[at + |data|..];
    assert b[..at] == buffer[..at];
    assert b[at..at + |data|] == data;
  }

  /** A frame end at or behind the top frame's end may be put on top. */
  lemma TopEndLast(buffer: seq<Byte>, frameEnd: seq<nat>, e: nat)
    requires Layout(buffer, frameEnd) && e <= |buffer|
    requires (if frameEnd == [] then 0 else frameEnd[|frameEnd| - 1]) <= e
    ensures Layout(buffer, frameEnd + [e])
    ensures forall k | 0 <= k < |frameEnd| :: frameEnd[k] <= (if frameEnd == [] then 0 else frameEnd[|frameEnd| - 1])
  {
    var fe := frameEnd + [e];
    assert forall k | 0 <= k < |frameEnd| :: fe[k] == frameEnd[k];
  }

  /** Copying a name behind the top frame and recording its end pushes it and changes no other frame. */
  lemma PushFrames(buffer: seq<Byte>, frameEnd: seq<nat>, data: seq<Byte>, tmpEnd: nat)
    requires Layout(buffer, frameEnd)
    requires tmpEnd == (if frameEnd == [] then 0 else frameEnd[|frameEnd| - 1])
    requires tmpEnd + |data| <= |buffer|
    ensures var b := buffer[..tmpEnd] + data + buffer[tmpEnd + |data|..];
      Layout(b, frameEnd + [tmpEnd + |data|]) &&
      FramesOf(b, frameEnd + [tmpEnd + |data|]) == FramesOf(buffer, frameEnd) + [data]
  {
    var b := buffer[..tmpEnd] + data + buffer[tmpEnd + |data|..];
    WrittenAt(buffer, tmpEnd, data);
    TopEndLast(buffer, frameEnd, tmpEnd);
    assert Layout(b, frameEnd);
    TopEndLast(b, frameEnd, tmpEnd + |data|);
    PushedOnto(buffer, b, frameEnd, data, tmpEnd);
  }

  /** `PushFrames` once the new buffer `b` is known to keep the frames' octets and hold `data` behind them. */
  lemma PushedOnto(buffer: seq<Byte>, b: seq<Byte>, frameEnd: seq<nat>, data: seq<Byte>, tmpEnd: nat)
    requires Layout(buffer, frameEnd) && Layout(b, frameEnd) && Layout(b, frameEnd + [tmpEnd + |data|])
    requires tmpEnd == (if frameEnd == [] then 0 else frameEnd[|frameEnd| - 1])
    requires forall k | 0 <= k < |frameEnd| :: frameEnd[k] <= tmpEnd
    requires tmpEnd + |data| <= |b| && b[tmpEnd..tmpEnd + |data|] == data
    requires tmpEnd <= |buffer| && b[..tmpEnd] == buffer[..tmpEnd]
    ensures FramesOf(b, frameEnd + [tmpEnd + |data|]) == FramesOf(buffer, frameEnd) + [data]
  {
    var fe := frameEnd + [tmpEnd + |data|];
    SnocFrame(b, frameEnd, tmpEnd + |data|);
    assert FrameStart(fe, |frameEnd|) == tmpEnd by {
      if frameEnd != [] {
        assert fe[|frameEnd| - 1] == frameEnd[|frameEnd| - 1];
      }
    }
    assert fe[|frameEnd|] == tmpEnd + |data|;
    SamePrefixSameFrames(b, buffer, frameEnd, tmpEnd);
    var below, top := FramesOf(b, frameEnd), b[FrameStart(fe, |frameEnd|)..fe[|frameEnd|]];
    assert top == data;
    assert below == FramesOf(buffer, frameEnd);
    assert FramesOf(b, fe) == below + [top];
  }

  /**
   * `ParseStack<false>`: the names are copied one after the other into
   * `buffer`; `frameEnd` holds where each one ends.
   */
  class CopyingParseStack {
    var buffer: seq<Byte>
    var frameEnd: seq<nat>

    predicate Valid()
      reads this
    {
      Layout(buffer, frameEnd)
    }

    /** The names on the stack, the innermost last. */
    function Frames(): (r: seq<seq<Byte>>)
      reads this
      requires Valid()
    {
      FramesOf(buffer, frameEnd)
    }

    /** `getTopFrameStart`: the start of the buffer when there are fewer than two frames. */
    function TopFrameStart(): nat
      reads this
    {
      if |frameEnd| < 2 then 0 else frameEnd[|frameEnd| - 2]
    }

    /** `getTopFrameEnd`: the start of the buffer when there is no frame. */
    function TopFrameEnd(): nat
      reads this
    {
      if frameEnd == [] then 0 else frameEnd[|frameEnd| - 1]
    }

    constructor ()
      ensures buffer == [] && frameEnd == [] && Valid() && Frames() == []
    {
      buffer := [];
      frameEnd := [];
    }

    /** `frameCount`: the number of names on the stack. */
    function FrameCount(): (r: nat)
      reads this
      requires Valid()
      ensures r == |Frames()|
    {
      |frameEnd|
    }

    /** `getTopData`: the innermost name, empty when there is none. */
    method GetTopData() returns (data: seq<Byte>)
      requires Valid()
      ensures data == if Frames() == [] then [] else Frames()[|Frames()| - 1]
    {
      data := buffer[TopFrameStart()..TopFrameEnd()];
    }

    /** `getTopFrameSize`: the length of the innermost name, 0 while nothing was ever pushed. */
    method GetTopFrameSize() returns (size: nat)
      requires Valid()
      ensures size == if Frames() == [] then 0 else |Frames()[|Frames()| - 1]|
    {
      if |buffer| == 0 {
        return 0;
      }
      size := TopFrameEnd() - TopFrameStart();
    }

    /**
     * `pushData`: when the buffer is too short for the new name after the
     * top frame, it is grown to 50 octets more than needed (the new octets
     * zero); the name is copied behind the top frame and becomes the new
     * top.
     */
    method PushData(data: seq<Byte>)
      requires Valid()
      modifies this
      ensures Valid() && Frames() == old(Frames()) + [data]
      ensures |buffer| == if old(|buffer|) < old(TopFrameEnd()) + |data| then old(TopFrameEnd()) + |data| + 50 else old(|buffer|)
    {
      var tmpEnd := TopFrameEnd();
      if |buffer| < tmpEnd + |data| {
        var extra := seq(tmpEnd + |data| + 50 - |buffer|, _ => 0);
        GrowKeepsFrames(buffer, frameEnd, extra);
        buffer := buffer + extra;
      }
      PushFrames(buffer, frameEnd, data, tmpEnd);
      buffer := buffer[..tmpEnd] + data + buffer[tmpEnd + |data|..];
      frameEnd := frameEnd + [tmpEnd + |data|];
    }

    /** `popData`: the innermost name is dropped; its octets stay in the buffer. */
    method PopData()
      requires Valid() && frameEnd != []
      modifies this
      ensures Valid() && Frames() == old(Frames()[..|Frames()| - 1]) && buffer == old(buffer)
    {
      frameEnd := frameEnd[..|frameEnd| - 1];
    }

    /** `addOffset`: the names are copies, so a move of the input leaves them alone. */
    method AddOffset(offset: int)
      ensures Valid() == old(Valid())
    {
    }
  }

  /** A `ConstStringRef` held by the stack: its begin and end pointers. */
  datatype Span = Span(begin: int, end: int)
  {
    function Size(): int
    {
      end - begin
    }

    /** The same view after the memory under it moved by `offset`. */
    function Shifted(offset: int): (r: Span)
      ensures r.Size() == Size()
    {
      Span(begin + offset, end + offset)
    }
  }

  /**
   * `ParseStack<true>`: the names are views into the UTF-8 input; when the
   * parser moves its input, `addOffset` moves every view with it.
   */
  class ViewParseStack {
    var frames: seq<Span>

    constructor ()
      ensures frames == []
    {
      frames := [];
    }

    method PushData(data: Span)
      modifies this
      ensures frames == old(frames) + [data]
    {
      frames := frames + [data];
    }

    method PopData()
      requires frames != []
      modifies this
      ensures frames == old(frames[..|frames| - 1])
    {
      frames := frames[..|frames| - 1];
    }

    /** `getTopData`: the innermost view, or the view of two null pointers when there is none. */
    function TopData(): (r: Span)
      reads this
      ensures frames != [] ==> r == frames[|frames| - 1]
      ensures frames == [] ==> r.Size() == 0
    {
      if frames == [] then Span(0, 0) else frames[|frames| - 1]
    }

    function FrameCount(): nat
      reads this
    {
      |frames|
    }

    /** `addOffset`: every view is moved by `offset`; their order and sizes stay. */
    method AddOffset(offset: int)
      modifies this
      ensures |frames| == old(|frames|)
      ensures forall k | 0 <= k < |frames| :: frames[k] == old(frames[k]).Shifted(offset)
      ensures forall k | 0 <= k < |frames| :: frames[k].Size() == old(frames[k]).Size()
    {
      var i := 0;
      while i < |frames|
        invariant i <= |frames| == old(|frames|)
        invariant forall k | 0 <= k < i :: frames[k] == old(frames[k]).Shifted(offset)
        invariant forall k | i <= k < |frames| :: frames[k] == old(frames[k])
      {
        frames := frames[i := frames[i].Shifted(offset)];
        i := i + 1;
      }
    }
  }
}
