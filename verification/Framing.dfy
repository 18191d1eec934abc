/**
 How a byte stream divides into frames.  The line carries no frame marks that the slave
 looks at: the length of a frame follows from its second and seventh bytes, and a frame
 longer than the receive buffer never ends.
 */
module Framing {
  import opened Binary
  import opened Modbus
  import opened Wrappers

  const BUFFER_LENGTH := 256

  /** The length of the first frame of a stream, if the stream holds all of it. */
  function FirstFrame(stream: seq<byte>): Option<nat> {
    if |stream| >= 8 && FrameLength(stream) <= BUFFER_LENGTH && FrameLength(stream) <= |stream|
    then Some(FrameLength(stream)) else None
  }

  datatype Division = Division(frames: seq<Frame>, rest: seq<byte>)

  function Divide(stream: seq<byte>): Division
    decreases |stream|
  {
    match FirstFrame(stream)
    case None => Division([], stream)
    case Some(n) =>
      var d := Divide(stream[n..]);
      Division([stream[..n]] + d.frames, d.rest)
  }

  /** The frames of a line on which reads fail: a failing read drops the frame it cuts short. */
  function Delivered(bursts: seq<seq<byte>>): seq<Frame> {
    if bursts == [] then [] else Divide(bursts[0]).frames + Delivered(bursts[1..])
  }

  function Concat(frames: seq<seq<byte>>): seq<byte> {
    if frames == [] then [] else frames[0] + Concat(frames[1..])
  }

  lemma DivideFirst(frame: Frame, rest: seq<byte>)
    requires |frame| <= BUFFER_LENGTH
    ensures Divide(frame + rest) == Division([frame] + Divide(rest).frames, Divide(rest).rest)
  {
    assert (frame + rest)[1] == frame[1] && (frame + rest)[6] == frame[6];
    assert FirstFrame(frame + rest) == Some(|frame|);
    assert (frame + rest)[..|frame|] == frame && (frame + rest)[|frame|..] == rest;
  }

  lemma ConcatFirst(frame: Frame, frames: seq<Frame>)
    ensures Concat([frame] + frames) == frame + Concat(frames)
  {
    assert ([frame] + frames)[1..] == frames;
  }

  ghost predicate AllFit(frames: seq<Frame>) {
    forall i | 0 <= i < |frames| :: |frames[i]| <= BUFFER_LENGTH
  }

  /** No byte is lost, repeated or moved. */
  lemma {:induction false} DivideKeepsBytes(stream: seq<byte>)
    ensures Concat(Divide(stream).frames) + Divide(stream).rest == stream
    decreases |stream|
  {
    var first := FirstFrame(stream);
    if first.None? {
    } else {
      var frame: Frame, rest := stream[..first.value], stream[first.value..];
      DivideKeepsBytes(rest);
      DivideFirst(frame, rest);
      var d := Divide(rest);
      ConcatFirst(frame, d.frames);
      Assoc(frame, Concat(d.frames), d.rest);
      assert stream == frame + rest;
    }
  }

  /** Every frame delivered fits the buffer, and what is left over holds no whole frame. */
  lemma {:induction false} DivideIsComplete(stream: seq<byte>)
    ensures AllFit(Divide(stream).frames) && FirstFrame(Divide(stream).rest) == None
    decreases |stream|
  {
    var first := FirstFrame(stream);
    if first.None? {
    } else {
      DivideIsComplete(stream[first.value..]);
    }
  }

  /** A request as the slave takes one, told from its bytes: nine and as many as it announces for 0x10, else eight. */
  predicate Whole(request: seq<byte>) {
    && |request| >= 8
    && if request[1] == 0x10 then request[6] <= 247 && |request| == 9 + request[6] as nat else |request| == 8
  }

  lemma WholeFits(request: seq<byte>)
    ensures Whole(request) <==> Complete(request) && |request| <= 256
  {
  }

  /** What is delivered first: eight bytes, or as many as a 0x10 announces, as soon as they have come; else nothing. */
  lemma FirstDelivered(stream: seq<byte>)
    ensures var frames := Divide(stream).frames;
            if |stream| >= 8 && stream[1] != 0x10 then frames != [] && frames[0] == stream[..8]
            else if |stream| >= 9 && stream[6] <= 247 && |stream| >= 9 + stream[6] as nat then
              frames != [] && frames[0] == stream[..9 + stream[6] as nat]
            else frames == []
  {
    assert FirstFrame(stream).Some? ==> Divide(stream).frames[0] == stream[..FirstFrame(stream).value];
  }

  /** Requests sent back to back are delivered one by one, in order, whatever follows them. */
  lemma {:induction false} DivideRecoversFrames(requests: seq<seq<byte>>, tail: seq<byte>)
    requires forall i | 0 <= i < |requests| :: Whole(requests[i])
    ensures Divide(Concat(requests) + tail).frames == requests + Divide(tail).frames
    ensures Divide(Concat(requests) + tail).rest == Divide(tail).rest
  {
    if requests == [] {
      Unit(tail);
      Unit(Divide(tail).frames);
    } else {
      WholeFits(requests[0]);
      var frame: Frame, others := requests[0], requests[1..];
      DivideRecoversFrames(others, tail);
      DivideFirst(frame, Concat(others) + tail);
      Assoc(frame, Concat(others), tail);
      Assoc([frame], others, Divide(tail).frames);
      assert requests == [frame] + others;
    }
  }

  /**
   Once eight bytes have come, some continuation completes the frame unless they announce a
   multiple write of 248 bytes or more; then none ever does.
   */
  lemma StallsExactly(stream: seq<byte>)
    requires |stream| >= 8
    ensures (exists tail :: FirstFrame(stream + tail).Some?)
       <==> !(stream[1] == WRITE_MULTIPLE && stream[6] >= 248)
  {
    if stream[1] == WRITE_MULTIPLE && stream[6] >= 248 {
      forall tail ensures FirstFrame(stream + tail).None? {
        assert (stream + tail)[1] == stream[1] && (stream + tail)[6] == stream[6];
      }
    } else {
      var tail: seq<byte> := seq(BUFFER_LENGTH, _ => 0);
      assert (stream + tail)[1] == stream[1] && (stream + tail)[6] == stream[6];
      assert FirstFrame(stream + tail).Some?;
    }
  }
}
