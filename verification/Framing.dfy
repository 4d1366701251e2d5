/** The length-prefixed ITCH stream: two bytes of big-endian length, then the message. */
module Framing {
  import opened Machine
  import opened Bytes

  datatype Option<+T> = None | Some(value: T)

  /** The big-endian length prefix at `pos`. */
  function LengthAt(buf: seq<u8>, pos: nat): (len: u16)
    requires pos + 2 <= |buf|
    ensures len == (buf[pos] as int) * 256 + buf[pos + 1]
  {
    BigEndianBound(buf[pos..pos + 2]);
    BigEndianPlaces(buf[pos..pos + 2]);
    Pow5();
    BigEndian(buf[pos..pos + 2])
  }

  /** One read at `pos`: the frame, if a complete non-empty one starts there, and the new position. */
  function Next(buf: seq<u8>, pos: nat): (r: (Option<seq<u8>>, nat)) {
    if pos + 2 > |buf| then (None, pos) else
    var len := LengthAt(buf, pos);
    if len == 0 || pos + 2 + len > |buf| then (None, pos + 2)
    else (Some(buf[pos + 2..pos + 2 + len]), pos + 2 + len)
  }

  /** The frames up to the first null. */
  function Frames(buf: seq<u8>, pos: nat): seq<seq<u8>>
    decreases |buf| - pos
  {
    var (frame, next) := Next(buf, pos);
    if frame.None? then [] else [frame.value] + Frames(buf, next)
  }

  /** `ITCHFileReader` over a buffer already in memory. */
  class ItchReader {
    const buf: seq<u8>
    var pos: nat

    constructor (buf: seq<u8>)
      ensures this.buf == buf && pos == 0
    {
      this.buf := buf;
      pos := 0;
    }

    method NextMessage() returns (frame: Option<seq<u8>>)
      modifies this
      ensures (frame, pos) == Next(buf, old(pos))
      ensures frame.Some? ==> old(pos) + 2 < pos <= |buf| && frame.value == buf[old(pos) + 2..pos]
      ensures frame.Some? ==> |frame.value| == (buf[old(pos)] as int) * 256 + buf[old(pos) + 1]
      ensures frame.None? ==> pos == if old(pos) + 2 <= |buf| then old(pos) + 2 else old(pos)
    {
      if pos + 2 > |buf| { return None; }
      var len := LengthAt(buf, pos);
      pos := pos + 2;
      if len == 0 { return None; }
      if pos + len > |buf| { return None; }
      frame := Some(buf[pos..pos + len]);
      pos := pos + len;
    }
  }

  predicate Sendable(frame: seq<u8>) { 1 <= |frame| <= 65535 }

  function Prefixed(frame: seq<u8>): seq<u8>
    requires Sendable(frame)
  {
    WireBytes(|frame|, 2) + frame
  }

  /** The stream that carries `frames`. */
  function Stream(frames: seq<seq<u8>>): seq<u8>
    requires forall f :: f in frames ==> Sendable(f)
  {
    if frames == [] then [] else Prefixed(frames[0]) + Stream(frames[1..])
  }

  /** Reading depends only on the bytes from the position on. */
  lemma {:induction false} FramesShift(buf: seq<u8>, pos: nat, pre: seq<u8>)
    ensures Frames(pre + buf, |pre| + pos) == Frames(buf, pos)
    decreases |buf| - pos
  {
    var (frame, next) := Next(buf, pos);
    if pos + 2 <= |buf| {
      var len := LengthAt(buf, pos);
      assert (pre + buf)[|pre| + pos..|pre| + pos + 2] == buf[pos..pos + 2];
      if len != 0 && pos + 2 + len <= |buf| {
        assert (pre + buf)[|pre| + pos + 2..|pre| + pos + 2 + len] == buf[pos + 2..pos + 2 + len];
        FramesShift(buf, next, pre);
      }
    }
  }

  /** A frame at the front is read first. */
  lemma FramesCons(frame: seq<u8>, rest: seq<u8>)
    requires Sendable(frame)
    ensures Frames(Prefixed(frame) + rest, 0) == [frame] + Frames(rest, 0)
  {
    var buf := Prefixed(frame) + rest;
    Pow5();
    BigEndianInverse(|frame|, 2);
    assert buf[0..2] == WireBytes(|frame|, 2);
    assert buf[2..2 + |frame|] == frame;
    FramesShift(rest, 0, Prefixed(frame));
  }

  /** Framing round trip: the reader returns exactly the frames of the stream, then what it can
      read of the bytes that follow. */
  lemma {:induction false} StreamRoundTrip(frames: seq<seq<u8>>, rest: seq<u8>)
    requires forall f :: f in frames ==> Sendable(f)
    ensures Frames(Stream(frames) + rest, 0) == frames + Frames(rest, 0)
  {
    if frames == [] {
      assert Stream(frames) + rest == rest;
    } else {
      var first, others := frames[0], frames[1..];
      StreamRoundTrip(others, rest);
      FramesCons(first, Stream(others) + rest);
      Regroup(Prefixed(first), Stream(others), rest);
      Regroup([first], others, Frames(rest, 0));
      assert [first] + others == frames;
    }
  }

  /** On arbitrary bytes the run up to the first null returns complete non-empty frames that the
      buffer starts with, and stops where no further one starts. */
  lemma {:induction false} FramesSound(buf: seq<u8>) returns (rest: seq<u8>)
    ensures forall f :: f in Frames(buf, 0) ==> Sendable(f)
    ensures buf == Stream(Frames(buf, 0)) + rest
    ensures Next(rest, 0).0.None?
    decreases |buf|
  {
    var (frame, next) := Next(buf, 0);
    if frame.None? {
      rest := buf;
    } else {
      var tail := buf[next..];
      WireBytesInverse(buf[0..2]);
      assert buf == Prefixed(frame.value) + tail;
      FramesCons(frame.value, tail);
      rest := FramesSound(tail);
      assert Frames(buf, 0)[1..] == Frames(tail, 0);
    }
  }

  /** They are the longest such prefix: any frames the buffer starts with are among them. */
  lemma FramesLongest(buf: seq<u8>, frames: seq<seq<u8>>, rest: seq<u8>)
    requires forall f :: f in frames ==> Sendable(f)
    requires buf == Stream(frames) + rest
    ensures frames <= Frames(buf, 0)
  {
    StreamRoundTrip(frames, rest);
  }
}
