/** Reading LF-terminated lines from the Agent's stdout with a hard size bound. */
module Frames {
  import opened Wrappers

  const LF: Byte := 10
  const MAX_FRAME_BYTES: nat := 64 * 1024 * 1024

  /** What one fill of the read buffer gives: at least one byte, or a failure. The end gives nothing. */
  datatype Fill = Bytes(bytes: seq<Byte>) | Fails(message: string)

  /** What a line read ends with: a line of so many bytes, one past the bound, or a failed read. */
  datatype Read = Line(size: nat) | TooLong | ReadFailed(message: string)

  predicate WellFormed(input: seq<Fill>) {
    forall f | f in input :: f.Bytes? ==> f.bytes != []
  }

  /** All bytes before the first failure, however they were cut into fills. */
  function Content(input: seq<Fill>): seq<Byte> {
    if input == [] || input[0].Fails? then [] else input[0].bytes + Content(input[1..])
  }

  function Failure(input: seq<Fill>): Option<string> {
    if input == [] then None
    else if input[0].Fails? then Some(input[0].message)
    else Failure(input[1..])
  }

  /** How many bytes the first line takes, its LF included, or all there are. */
  function LineSize(bytes: seq<Byte>): (n: nat)
    ensures n <= |bytes|
    ensures forall i | 0 <= i < n - 1 :: bytes[i] != LF
    ensures n == 0 <==> bytes == []
    ensures n > 0 && bytes[n - 1] != LF ==> n == |bytes|
  {
    if bytes == [] then 0 else if bytes[0] == LF then 1 else 1 + LineSize(bytes[1..])
  }

  predicate Terminated(bytes: seq<Byte>) {
    LineSize(bytes) > 0 && bytes[LineSize(bytes) - 1] == LF
  }

  /** What reading a line gives, whatever the fills. */
  function Outcome(bytes: seq<Byte>, failure: Option<string>): Read {
    if LineSize(bytes) > MAX_FRAME_BYTES then TooLong
    else if Terminated(bytes) || failure.None? then Line(LineSize(bytes))
    else ReadFailed(failure.value)
  }

  lemma {:induction false} LineSizeAppend(a: seq<Byte>, b: seq<Byte>)
    ensures LineSize(a + b) == if Terminated(a) then LineSize(a) else |a| + LineSize(b)
    ensures Terminated(a + b) <==> Terminated(a) || Terminated(b)
  {
    if a == [] {
      assert a + b == b;
    } else if a[0] != LF {
      LineSizeAppend(a[1..], b);
      assert (a + b)[1..] == a[1..] + b;
      ShiftTerminated(a);
      ShiftTerminated(a + b);
    }
  }

  lemma ShiftTerminated(a: seq<Byte>)
    requires a != [] && a[0] != LF
    ensures Terminated(a) <==> Terminated(a[1..])
  {
    if a[1..] != [] {
      assert a[LineSize(a) - 1] == a[1..][LineSize(a[1..]) - 1];
    }
  }

  /** The buffered reader: what is left to read. */
  class Reader {
    var input: seq<Fill>

    constructor (input: seq<Fill>)
      requires WellFormed(input)
      ensures this.input == input
    {
      this.input := input;
    }

    /** Drops bytes that were used; a fill that is used up goes. */
    method Consume(n: nat)
      requires WellFormed(input) && input != [] && input[0].Bytes? && n <= |input[0].bytes|
      modifies this
      ensures WellFormed(input) && Failure(input) == old(Failure(input))
      ensures old(Content(input)) == old(input[0].bytes[..n]) + Content(input)
    {
      ghost var was := input;
      if n == |input[0].bytes| {
        input := input[1..];
      } else {
        input := [Bytes(input[0].bytes[n..])] + input[1..];
        assert input[1..] == was[1..];
      }
      assert was[0].bytes == was[0].bytes[..n] + was[0].bytes[n..];
    }
  }

  lemma Unterminated(line: seq<Byte>)
    requires !Terminated(line)
    ensures LineSize(line) == |line|
  {
  }

  /** Nothing more comes: the line is what was read, unless the read failed. */
  lemma AtEnd(line: seq<Byte>, failure: Option<string>)
    requires !Terminated(line) && |line| <= MAX_FRAME_BYTES
    ensures Outcome(line, failure) == if failure.None? then Line(|line|) else ReadFailed(failure.value)
  {
    Unterminated(line);
  }

  /** The bytes up to the first LF of a fill do not fit, so no way of cutting the line would. */
  lemma Overruns(line: seq<Byte>, fill: seq<Byte>, rest: seq<Byte>, failure: Option<string>)
    requires !Terminated(line) && |line| + LineSize(fill) > MAX_FRAME_BYTES
    ensures Outcome(line + (fill + rest), failure) == TooLong
  {
    LineSizeAppend(line, fill + rest);
    LineSizeAppend(fill, rest);
    if !Terminated(fill) {
      Unterminated(fill);
    }
  }

  lemma {:induction false} TakesLine(fill: seq<Byte>)
    ensures LineSize(fill[..LineSize(fill)]) == LineSize(fill)
    ensures Terminated(fill[..LineSize(fill)]) <==> Terminated(fill)
  {
    if fill != [] && fill[0] != LF {
      var size := LineSize(fill[1..]);
      TakesLine(fill[1..]);
      assert fill[..LineSize(fill)][1..] == fill[1..][..size];
      ShiftTerminated(fill);
      ShiftTerminated(fill[..LineSize(fill)]);
    }
  }

  /** The bytes up to the first LF of a fill, or all of it, go on the line. */
  lemma Extends(line: seq<Byte>, fill: seq<Byte>, rest: seq<Byte>, failure: Option<string>)
    requires !Terminated(line) && |line| + LineSize(fill) <= MAX_FRAME_BYTES
    ensures Terminated(line + fill[..LineSize(fill)]) <==> Terminated(fill)
    ensures Terminated(fill) ==> Outcome(line + (fill + rest), failure) == Line(|line| + LineSize(fill))
  {
    hide LineSize;
    TakesLine(fill);
    LineSizeAppend(line, fill[..LineSize(fill)]);
    LineSizeAppend(line, fill + rest);
    LineSizeAppend(fill, rest);
  }

  lemma Regroup(a: seq<Byte>, b: seq<Byte>, c: seq<Byte>)
    ensures a + (b + c) == (a + b) + c
  {
  }

  /** `line` is what was read of `bytes` so far, without an LF. */
  ghost predicate Reading(line: seq<Byte>, input: seq<Fill>, bytes: seq<Byte>, failure: Option<string>) {
    && WellFormed(input) && Failure(input) == failure
    && line + Content(input) == bytes
    && !Terminated(line) && |line| <= MAX_FRAME_BYTES
  }

  /** One fill of the read buffer: the line grows, or ends. */
  method ReadFill(reader: Reader, line: seq<Byte>, ghost bytes: seq<Byte>, ghost failure: Option<string>)
    returns (longer: seq<Byte>, end: Option<Read>)
    requires Reading(line, reader.input, bytes, failure)
    modifies reader
    ensures WellFormed(reader.input) && Failure(reader.input) == failure && |longer| <= MAX_FRAME_BYTES
    ensures end.None? ==> Reading(longer, reader.input, bytes, failure)
    ensures end.None? ==> |Content(reader.input)| < |old(Content(reader.input))|
    ensures end.Some? ==> end.value == Outcome(bytes, failure)
    ensures end.Some? && end.value.Line? ==> |longer| == end.value.size && longer + Content(reader.input) == bytes
  {
    hide LineSize;
    hide Terminated;
    hide Outcome;
    if reader.input == [] {
      assert bytes == line;
      AtEnd(line, failure);
      return line, Some(Line(|line|));
    }
    if reader.input[0].Fails? {
      assert bytes == line;
      AtEnd(line, failure);
      return line, Some(ReadFailed(reader.input[0].message));
    }
    var available := reader.input[0].bytes;
    ghost var rest := Content(reader.input[1..]);
    var consumed := LineSize(available);
    if consumed > MAX_FRAME_BYTES - |line| {
      Overruns(line, available, rest, failure);
      return line, Some(TooLong);
    }
    Extends(line, available, rest, failure);
    reader.Consume(consumed);
    Regroup(line, available[..consumed], Content(reader.input));
    longer := line + available[..consumed];
    end := if Terminated(available) then Some(Line(|longer|)) else None;
  }

  /** Reads one LF-terminated line with a hard size bound. */
  method ReadLine(reader: Reader) returns (line: seq<Byte>, end: Read)
    requires WellFormed(reader.input)
    modifies reader
    ensures WellFormed(reader.input) && Failure(reader.input) == old(Failure(reader.input))
    ensures end == Outcome(old(Content(reader.input)), old(Failure(reader.input)))
    ensures end.Line? ==> |line| == end.size && line + Content(reader.input) == old(Content(reader.input))
    ensures |line| <= MAX_FRAME_BYTES
  {
    ghost var bytes, failure := Content(reader.input), Failure(reader.input);
    line := [];
    while true
      invariant Reading(line, reader.input, bytes, failure)
      decreases |Content(reader.input)|
    {
      var longer, ended := ReadFill(reader, line, bytes, failure);
      line := longer;
      if ended.Some? {
        return line, ended.value;
      }
    }
  }

  // ---- the whole stream ------------------------------------------------

  function Strip(line: seq<Byte>): seq<Byte> {
    if line != [] && line[|line| - 1] == LF then line[..|line| - 1] else line
  }

  /** The frames of a stream and what ends it: the end of the bytes, a line past the bound, or a failed read. */
  function Framed(bytes: seq<Byte>, failure: Option<string>): (seq<seq<Byte>>, Read)
    decreases |bytes|
  {
    var read := Outcome(bytes, failure);
    if !read.Line? || read.size == 0 then ([], read)
    else
      var (frames, end) := Framed(bytes[read.size..], failure);
      ([Strip(bytes[..read.size])] + frames, end)
  }

  /** `frames` have been read so far, and `left` is still to read. */
  predicate ReadSoFar(bytes: seq<Byte>, failure: Option<string>, frames: seq<seq<Byte>>, left: seq<Byte>) {
    && Framed(bytes, failure).0 == frames + Framed(left, failure).0
    && Framed(bytes, failure).1 == Framed(left, failure).1
  }

  lemma ReadOne(bytes: seq<Byte>, failure: Option<string>, frames: seq<seq<Byte>>, line: seq<Byte>, left: seq<Byte>)
    requires ReadSoFar(bytes, failure, frames, line + left)
    requires line != [] && Outcome(line + left, failure) == Line(|line|)
    ensures ReadSoFar(bytes, failure, frames + [Strip(line)], left)
  {
    var more := Framed(left, failure).0;
    FramedNext(line, left, failure);
    assert (frames + [Strip(line)]) + more == frames + ([Strip(line)] + more);
  }

  lemma FramedNext(line: seq<Byte>, left: seq<Byte>, failure: Option<string>)
    requires line != [] && Outcome(line + left, failure) == Line(|line|)
    ensures Framed(line + left, failure).0 == [Strip(line)] + Framed(left, failure).0
    ensures Framed(line + left, failure).1 == Framed(left, failure).1
  {
    hide Outcome;
    assert (line + left)[..|line|] == line && (line + left)[|line|..] == left;
  }

  lemma ReadLast(bytes: seq<Byte>, failure: Option<string>, frames: seq<seq<Byte>>, left: seq<Byte>)
    requires ReadSoFar(bytes, failure, frames, left)
    requires !Outcome(left, failure).Line? || Outcome(left, failure).size == 0
    ensures Framed(bytes, failure) == (frames, Outcome(left, failure))
  {
    assert Framed(left, failure) == ([], Outcome(left, failure));
    assert frames + [] == frames;
  }

  // ---- the reader ------------------------------------------------------

  /** What a line is decoded to. */
  datatype Frame = Response | Event | Notification | Unreadable(message: string)

  /** What ends the reader: the stream, a frame it cannot decode, or a receiver of events that has gone. */
  datatype End = StreamEnd(read: Read) | UnreadableFrame(message: string) | ReceiverGone

  function Events(parse: seq<Byte> -> Frame, frames: seq<seq<Byte>>): nat {
    if frames == [] then 0
    else Events(parse, frames[..|frames| - 1]) + if parse(frames[|frames| - 1]).Event? then 1 else 0
  }

  /** The frame can be decoded, and the receiver takes it if it is an event; `takes` says which it would. */
  predicate Handles(parse: seq<Byte> -> Frame, takes: nat -> bool, before: seq<seq<Byte>>, frame: seq<Byte>) {
    !parse(frame).Unreadable? && (parse(frame).Event? ==> takes(Events(parse, before)))
  }

  predicate AllHandled(parse: seq<Byte> -> Frame, takes: nat -> bool, frames: seq<seq<Byte>>) {
    forall i | 0 <= i < |frames| :: Handles(parse, takes, frames[..i], frames[i])
  }

  /** The reader stopped where it had to: at the end of the stream with everything handled, or at the
      first frame it could not handle. */
  predicate StopsAt(parse: seq<Byte> -> Frame, takes: nat -> bool, stream: (seq<seq<Byte>>, Read),
                    handled: seq<seq<Byte>>, end: End)
  {
    && handled <= stream.0 && AllHandled(parse, takes, handled)
    && match end
       case StreamEnd(read) => handled == stream.0 && read == stream.1
       case UnreadableFrame(message) =>
         |handled| < |stream.0| && parse(stream.0[|handled|]) == Unreadable(message)
       case ReceiverGone =>
         |handled| < |stream.0| && parse(stream.0[|handled|]).Event? && !takes(Events(parse, handled))
  }

  lemma HandledBefore(parse: seq<Byte> -> Frame, takes: nat -> bool, frames: seq<seq<Byte>>, handled: seq<seq<Byte>>,
                      i: nat)
    requires handled <= frames && AllHandled(parse, takes, handled)
    ensures i < |handled| ==> Handles(parse, takes, frames[..i], frames[i])
  {
    if i < |handled| {
      assert handled[..i] == frames[..i];
    }
  }

  /** The stream determines what is handled and what ends it. */
  lemma StopIsUnique(parse: seq<Byte> -> Frame, takes: nat -> bool, stream: (seq<seq<Byte>>, Read),
                     a: seq<seq<Byte>>, endA: End, b: seq<seq<Byte>>, endB: End)
    requires StopsAt(parse, takes, stream, a, endA) && StopsAt(parse, takes, stream, b, endB)
    ensures a == b && endA == endB
  {
    HandledBefore(parse, takes, stream.0, a, |b|);
    HandledBefore(parse, takes, stream.0, b, |a|);
    assert stream.0[..|a|] == a && stream.0[..|b|] == b;
  }

  lemma NothingHandled(parse: seq<Byte> -> Frame, takes: nat -> bool, bytes: seq<Byte>, failure: Option<string>)
    ensures ReadSoFar(bytes, failure, [], bytes) && AllHandled(parse, takes, [])
  {
  }

  lemma HandleOne(parse: seq<Byte> -> Frame, takes: nat -> bool, frames: seq<seq<Byte>>, frame: seq<Byte>)
    requires AllHandled(parse, takes, frames) && Handles(parse, takes, frames, frame)
    ensures AllHandled(parse, takes, frames + [frame])
  {
    forall i | 0 <= i < |frames + [frame]|
      ensures Handles(parse, takes, (frames + [frame])[..i], (frames + [frame])[i])
    {
      assert (frames + [frame])[..i] == frames[..i];
    }
  }

  lemma NextFrame(bytes: seq<Byte>, failure: Option<string>, frames: seq<seq<Byte>>, frame: seq<Byte>, left: seq<Byte>)
    requires ReadSoFar(bytes, failure, frames + [frame], left)
    ensures |frames| < |Framed(bytes, failure).0| && Framed(bytes, failure).0[|frames|] == frame
    ensures frames <= Framed(bytes, failure).0
  {
  }

  /** Reads and handles frames until something ends the stream: what is handled, and how it ends, depend
      on the bytes and not on how they were cut. */
  method ReadFrames(reader: Reader, parse: seq<Byte> -> Frame, takes: nat -> bool)
    returns (handled: seq<seq<Byte>>, end: End)
    requires WellFormed(reader.input)
    modifies reader
    ensures StopsAt(parse, takes, Framed(old(Content(reader.input)), old(Failure(reader.input))), handled, end)
  {
    hide ReadSoFar;
    hide AllHandled;
    hide Outcome;
    ghost var bytes, failure := Content(reader.input), Failure(reader.input);
    NothingHandled(parse, takes, bytes, failure);
    handled := [];
    var events := 0;
    while true
      invariant WellFormed(reader.input) && Failure(reader.input) == failure
      invariant ReadSoFar(bytes, failure, handled, Content(reader.input))
      invariant AllHandled(parse, takes, handled) && events == Events(parse, handled)
      decreases |Content(reader.input)|
    {
      ghost var left := Content(reader.input);
      var line, read := ReadLine(reader);
      if !read.Line? || read.size == 0 {
        ReadLast(bytes, failure, handled, left);
        return handled, StreamEnd(read);
      }
      ReadOne(bytes, failure, handled, line, Content(reader.input));
      line := Strip(line);
      NextFrame(bytes, failure, handled, line, Content(reader.input));
      match parse(line) {
        case Response =>
        case Event =>
          if !takes(events) {
            return handled, ReceiverGone;
          }
          events := events + 1;
        case Notification =>
        case Unreadable(message) =>
          return handled, UnreadableFrame(message);
      }
      HandleOne(parse, takes, handled, line);
      assert (handled + [line])[..|handled|] == handled;
      handled := handled + [line];
    }
  }

  /** Frames written one to a line. */
  function Joined(frames: seq<seq<Byte>>): seq<Byte> {
    if frames == [] then [] else frames[0] + [LF] + Joined(frames[1..])
  }

  predicate Writable(frame: seq<Byte>) {
    LF !in frame && |frame| < MAX_FRAME_BYTES
  }

  lemma {:induction false} FirstLine(frame: seq<Byte>, rest: seq<Byte>)
    requires LF !in frame
    ensures LineSize(frame + [LF] + rest) == |frame| + 1
  {
    if frame == [] {
      assert frame + [LF] + rest == [LF] + rest;
    } else {
      FirstLine(frame[1..], rest);
      assert (frame + [LF] + rest)[1..] == frame[1..] + [LF] + rest;
    }
  }

  lemma NothingFramed(failure: Option<string>)
    ensures Framed([], failure) == ([], if failure.None? then Line(0) else ReadFailed(failure.value))
  {
  }

  lemma FirstFrame(frame: seq<Byte>, rest: seq<Byte>, failure: Option<string>)
    requires Writable(frame)
    ensures Framed(frame + [LF] + rest, failure).0 == [frame] + Framed(rest, failure).0
    ensures Framed(frame + [LF] + rest, failure).1 == Framed(rest, failure).1
  {
    FirstLine(frame, rest);
    var line := frame + [LF];
    assert line + rest == frame + [LF] + rest && line[..|frame|] == frame;
    assert (line + rest)[|line| - 1] == LF;
    FramedNext(line, rest, failure);
  }

  /** Reading undoes writing, empty frames included. */
  lemma {:induction false} ReadingUndoesWriting(frames: seq<seq<Byte>>, failure: Option<string>)
    requires forall f | f in frames :: Writable(f)
    ensures Framed(Joined(frames), failure).0 == frames
    ensures Framed(Joined(frames), failure).1 == if failure.None? then Line(0) else ReadFailed(failure.value)
    decreases |frames|
  {
    hide Outcome;
    hide LineSize;
    NothingFramed(failure);
    hide Framed;
    if frames != [] {
      ReadingUndoesWriting(frames[1..], failure);
      assert frames[0] in frames && Writable(frames[0]);
      FirstFrame(frames[0], Joined(frames[1..]), failure);
      assert frames == [frames[0]] + frames[1..];
    }
  }
}
