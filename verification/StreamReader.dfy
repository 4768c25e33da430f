/** Reading frames from a stream that arrives in pieces of any size. */
module FrameStream {
  import opened Wrappers
  import opened Bytes
  import opened Chunking
  import AppData
  import UserData
  import Frame

  /** The position of the first header byte, or the end. */
  function FirstHeader(buffer: seq<byte>): (start: nat)
    ensures start <= |buffer|
    ensures forall i :: 0 <= i < start ==> buffer[i] != Frame.HEADER
    ensures start < |buffer| ==> buffer[start] == Frame.HEADER
  {
    if buffer == [] || buffer[0] == Frame.HEADER then 0 else 1 + FirstHeader(buffer[1..])
  }

  /** One attempt: a frame and the bytes it takes off the front, or nothing yet, or an end. */
  datatype Parsed = Delivered(frame: Frame.Frame, size: nat) | NeedMore | Failed(error: DecodeError) | Crashed

  /** Where the first frame of a buffer is, once all its bytes are there. The length is read
      at the second and third byte of the buffer, wherever the header is. */
  datatype Extent = Incomplete | Complete(start: nat, length: nat)

  function Scan(buffer: seq<byte>): (e: Extent)
    ensures e.Complete? ==> e.start + e.length <= |buffer|
  {
    var start := FirstHeader(buffer);
    if |buffer| - start < Frame.HEADER_SIZE then Incomplete
    else
      var length := Le16(buffer[1], buffer[2]);
      if |buffer| - start < length then Incomplete else Complete(start, length)
  }

  function Judge(bytes: seq<byte>, size: nat): (p: Parsed)
    ensures p.Delivered? ==> p.size == size && |bytes| > 0
    ensures !p.NeedMore?
  {
    match Frame.Decode(bytes)
    case Good(frame) => Delivered(frame, size)
    case Bad(e) => Failed(e)
    case Fault => Crashed
  }

  function Parse(buffer: seq<byte>): (p: Parsed)
    ensures p.Delivered? ==> 0 < p.size <= |buffer|
  {
    match Scan(buffer)
    case Incomplete => NeedMore
    case Complete(start, length) => Judge(buffer[start..start + length], start + length)
  }

  lemma FirstHeaderUnique(buffer: seq<byte>, position: nat)
    requires position <= |buffer| && forall i :: 0 <= i < position ==> buffer[i] != Frame.HEADER
    requires position < |buffer| ==> buffer[position] == Frame.HEADER
    ensures FirstHeader(buffer) == position
  {
  }

  /** The parser moves a cursor over the buffer. */
  method ScanAt(buffer: seq<byte>) returns (extent: Extent, position: nat)
    ensures extent == Scan(buffer)
    ensures extent.Complete? ==> position == extent.start + extent.length
  {
    var end := |buffer|;
    position := 0;
    while position < end && buffer[position] != Frame.HEADER
      invariant position <= end
      invariant forall i :: 0 <= i < position ==> buffer[i] != Frame.HEADER
    {
      position := position + 1;
    }
    FirstHeaderUnique(buffer, position);
    var start := position;
    if end - start < Frame.HEADER_SIZE {
      return Incomplete, position;
    }
    var length := Le16(buffer[1], buffer[2]);
    if end - start < length {
      return Incomplete, position;
    }
    position := position + length;
    return Complete(start, length), position;
  }

  method ParseAt(buffer: seq<byte>) returns (result: Parsed, position: nat)
    ensures result == Parse(buffer)
    ensures result.Delivered? ==> position == result.size
  {
    var extent;
    extent, position := ScanAt(buffer);
    match extent {
      case Incomplete => return NeedMore, position;
      case Complete(start, length) => return Judge(buffer[start..start + length], position), position;
    }
  }

  // ---- what the reader delivers ----

  /** What the stream hands over next; an empty piece is its end. */
  datatype ReadResult = Piece(bytes: seq<byte>) | IoError

  /** Why the reader stops. */
  datatype Stop = BadFrame(error: DecodeError) | Crash | Closed | StreamError

  /** Frames in order, the bytes left over and the reason for stopping. */
  datatype Reading = Reading(frames: seq<Frame.Frame>, rest: seq<byte>, stop: Stop)

  function Prepend(frame: Frame.Frame, r: Reading): Reading {
    r.(frames := [frame] + r.frames)
  }

  /** The stream has nothing more to give: it ended, or reading it failed. */
  predicate Ended(incoming: seq<ReadResult>) {
    incoming == [] || incoming[0].IoError? || incoming[0].bytes == []
  }

  function EndOf(incoming: seq<ReadResult>): Stop {
    if Ended(incoming) then (if incoming == [] || incoming[0].IoError? then StreamError else Closed)
    else EndOf(incoming[1..])
  }

  /** The bytes handed over until the stream ends. */
  function Input(incoming: seq<ReadResult>): seq<byte> {
    if Ended(incoming) then [] else incoming[0].bytes + Input(incoming[1..])
  }

  datatype Outcome = Outcome(result: Result<Frame.Frame, Stop>, buffer: seq<byte>, incoming: seq<ReadResult>)

  /** One call of the reader: parse, and read on while no frame is complete. */
  function ReadNext(buffer: seq<byte>, incoming: seq<ReadResult>): Outcome
    decreases |incoming|
  {
    match Parse(buffer)
    case Delivered(frame, size) => Outcome(Ok(frame), buffer[size..], incoming)
    case Failed(e) => Outcome(Err(BadFrame(e)), buffer, incoming)
    case Crashed => Outcome(Err(Crash), buffer, incoming)
    case NeedMore =>
      if Ended(incoming) then Outcome(Err(EndOf(incoming)), buffer, incoming)
      else ReadNext(buffer + incoming[0].bytes, incoming[1..])
  }

  function Pending(buffer: seq<byte>, incoming: seq<ReadResult>): nat {
    |buffer| + |Input(incoming)|
  }

  lemma {:induction false} ReadNextShrinks(buffer: seq<byte>, incoming: seq<ReadResult>)
    ensures var o := ReadNext(buffer, incoming);
            Pending(o.buffer, o.incoming) <= Pending(buffer, incoming)
            && (o.result.Ok? ==> Pending(o.buffer, o.incoming) < Pending(buffer, incoming))
    decreases |incoming|
  {
    if Parse(buffer).NeedMore? && !Ended(incoming) {
      ReadNextShrinks(buffer + incoming[0].bytes, incoming[1..]);
    }
  }

  /** All calls until the reader stops. */
  function ReadAll(buffer: seq<byte>, incoming: seq<ReadResult>): Reading
    decreases Pending(buffer, incoming)
  {
    var o := ReadNext(buffer, incoming);
    if o.result.Err? then Reading([], o.buffer, o.result.error)
    else
      ReadNextShrinks(buffer, incoming);
      Prepend(o.result.value, ReadAll(o.buffer, o.incoming))
  }

  class StreamReader {
    var buffer: seq<byte>
    var incoming: seq<ReadResult>

    constructor (incoming: seq<ReadResult>)
      ensures buffer == [] && this.incoming == incoming
    {
      buffer := [];
      this.incoming := incoming;
    }

    method ParseFrame() returns (result: Parsed)
      modifies this`buffer
      ensures result == Parse(old(buffer))
      ensures buffer == if result.Delivered? then old(buffer)[result.size..] else old(buffer)
    {
      var position;
      result, position := ParseAt(buffer);
      if result.Delivered? {
        buffer := buffer[position..];
      }
    }

    method ReadResponse() returns (frame: Result<Frame.Frame, Stop>)
      modifies this
      ensures Outcome(frame, buffer, incoming) == ReadNext(old(buffer), old(incoming))
    {
      while true
        invariant ReadNext(buffer, incoming) == ReadNext(old(buffer), old(incoming))
        decreases |incoming|
      {
        var result := ParseFrame();
        match result {
          case Delivered(f, _) => return Ok(f);
          case Failed(e) => return Err(BadFrame(e));
          case Crashed => return Err(Crash);
          case NeedMore =>
        }
        if incoming == [] || incoming[0].IoError? {
          return Err(StreamError);
        }
        if incoming[0].bytes == [] {
          return Err(Closed);
        }
        buffer := buffer + incoming[0].bytes;
        incoming := incoming[1..];
      }
    }

    /** The reader thread: it stops at the first error. */
    method ReadFrames() returns (frames: seq<Frame.Frame>, stop: Stop)
      modifies this
      ensures Reading(frames, buffer, stop) == ReadAll(old(buffer), old(incoming))
    {
      frames := [];
      while true
        invariant var r := ReadAll(buffer, incoming);
                  ReadAll(old(buffer), old(incoming)) == r.(frames := frames + r.frames)
        decreases Pending(buffer, incoming)
      {
        ReadNextShrinks(buffer, incoming);
        var frame := ReadResponse();
        match frame {
          case Ok(f) => frames := frames + [f];
          case Err(e) => return frames, e;
        }
      }
    }
  }

  // ---- the pieces do not matter ----

  lemma {:induction false} FirstHeaderStable(buffer: seq<byte>, more: seq<byte>)
    requires FirstHeader(buffer) < |buffer|
    ensures FirstHeader(buffer + more) == FirstHeader(buffer)
  {
    if buffer[0] != Frame.HEADER {
      FirstHeaderStable(buffer[1..], more);
      assert (buffer + more)[1..] == buffer[1..] + more;
    }
  }

  lemma ScanStable(buffer: seq<byte>, more: seq<byte>)
    requires Scan(buffer).Complete?
    ensures Scan(buffer + more) == Scan(buffer)
  {
    FirstHeaderStable(buffer, more);
  }

  /** What the parser has decided, later bytes do not change. */
  lemma ParseStable(buffer: seq<byte>, more: seq<byte>)
    requires !Parse(buffer).NeedMore?
    ensures Parse(buffer + more) == Parse(buffer)
  {
    ScanStable(buffer, more);
    var Complete(start, length) := Scan(buffer);
    assert (buffer + more)[start..start + length] == buffer[start..start + length];
  }

  /** All frames of a buffer that is complete from the beginning. */
  function Drain(buffer: seq<byte>, end: Stop): Reading
    decreases |buffer|
  {
    match Parse(buffer)
    case NeedMore => Reading([], buffer, end)
    case Failed(e) => Reading([], buffer, BadFrame(e))
    case Crashed => Reading([], buffer, Crash)
    case Delivered(frame, size) => Prepend(frame, Drain(buffer[size..], end))
  }

  predicate SameReading(r: Reading, d: Reading, end: Stop) {
    r.frames == d.frames && r.stop == d.stop && (d.stop == end ==> r.rest == d.rest)
  }

  lemma {:induction false} DrainDelivered(buffer: seq<byte>, more: seq<byte>, end: Stop)
    requires Parse(buffer).Delivered?
    ensures Drain(buffer + more, end) == Prepend(Parse(buffer).frame, Drain(buffer[Parse(buffer).size..] + more, end))
  {
    ParseStable(buffer, more);
    assert (buffer + more)[Parse(buffer).size..] == buffer[Parse(buffer).size..] + more;
  }

  lemma {:induction false} DrainStopped(buffer: seq<byte>, more: seq<byte>, end: Stop)
    requires Parse(buffer).Failed? || Parse(buffer).Crashed?
    ensures Drain(buffer + more, end) ==
            Reading([], buffer + more, if Parse(buffer).Failed? then BadFrame(Parse(buffer).error) else Crash)
  {
    ParseStable(buffer, more);
  }

  /** One call, as seen from the whole input. */
  ghost predicate CallDrains(o: Outcome, d: Reading, end: Stop) {
    && EndOf(o.incoming) == end
    && match o.result
       case Ok(f) => d == Prepend(f, Drain(o.buffer + Input(o.incoming), end))
       case Err(e) => d.frames == [] && d.stop == e && (e == end ==> d.rest == o.buffer)
  }

  lemma CallWaits(buffer: seq<byte>, incoming: seq<ReadResult>)
    requires Parse(buffer).NeedMore? && Ended(incoming)
    ensures CallDrains(ReadNext(buffer, incoming), Drain(buffer + Input(incoming), EndOf(incoming)), EndOf(incoming))
  {
    assert buffer + Input(incoming) == buffer;
  }

  lemma {:induction false} CallDelivers(buffer: seq<byte>, incoming: seq<ReadResult>)
    requires Parse(buffer).Delivered?
    ensures CallDrains(ReadNext(buffer, incoming), Drain(buffer + Input(incoming), EndOf(incoming)), EndOf(incoming))
  {
    DrainDelivered(buffer, Input(incoming), EndOf(incoming));
  }

  lemma {:induction false} CallStops(buffer: seq<byte>, incoming: seq<ReadResult>)
    requires Parse(buffer).Failed? || Parse(buffer).Crashed?
    ensures CallDrains(ReadNext(buffer, incoming), Drain(buffer + Input(incoming), EndOf(incoming)), EndOf(incoming))
  {
    EndKinds(incoming);
    DrainStopped(buffer, Input(incoming), EndOf(incoming));
  }

  lemma {:induction false} ReadNextDrains(buffer: seq<byte>, incoming: seq<ReadResult>)
    ensures CallDrains(ReadNext(buffer, incoming), Drain(buffer + Input(incoming), EndOf(incoming)), EndOf(incoming))
    decreases |incoming|
  {
    hide Parse, Drain;
    if Parse(buffer).NeedMore? {
      if Ended(incoming) {
        CallWaits(buffer, incoming);
      } else {
        var piece, later := incoming[0].bytes, incoming[1..];
        ReadNextDrains(buffer + piece, later);
        assert ReadNext(buffer, incoming) == ReadNext(buffer + piece, later);
        assert buffer + Input(incoming) == buffer + piece + Input(later);
      }
    } else if Parse(buffer).Delivered? {
      CallDelivers(buffer, incoming);
    } else {
      CallStops(buffer, incoming);
    }
  }

  /** For every stream of bytes whatever, however it is cut into pieces, the reader delivers
      the frames, the reason for stopping and, when the stream just ends, the leftover that
      the uncut bytes give. */
  lemma {:induction false} PiecesDoNotMatter(buffer: seq<byte>, incoming: seq<ReadResult>)
    ensures SameReading(ReadAll(buffer, incoming), Drain(buffer + Input(incoming), EndOf(incoming)), EndOf(incoming))
    decreases Pending(buffer, incoming)
  {
    var o := ReadNext(buffer, incoming);
    ReadNextDrains(buffer, incoming);
    if o.result.Ok? {
      ReadNextShrinks(buffer, incoming);
      PiecesDoNotMatter(o.buffer, o.incoming);
    }
  }

  lemma {:induction false} EndKinds(incoming: seq<ReadResult>)
    ensures EndOf(incoming).Closed? || EndOf(incoming).StreamError?
  {
    if !Ended(incoming) {
      EndKinds(incoming[1..]);
    }
  }

  // ---- frames laid end to end ----

  /** Bytes that are one frame, with its size in the length field. */
  predicate Whole(bytes: seq<byte>, frame: Frame.Frame) {
    Frame.Decode(bytes) == Good(frame) && frame.length == |bytes|
  }

  predicate AllWhole(encoded: seq<seq<byte>>, frames: seq<Frame.Frame>) {
    |encoded| == |frames| && forall i :: 0 <= i < |frames| ==> Whole(encoded[i], frames[i])
  }

  lemma WholeFacts(bytes: seq<byte>, frame: Frame.Frame)
    requires Whole(bytes, frame)
    ensures |bytes| >= 6 && bytes[0] == Frame.HEADER && Le16(bytes[1], bytes[2]) == |bytes|
  {
  }

  lemma ParseWhole(bytes: seq<byte>, frame: Frame.Frame, more: seq<byte>)
    requires Whole(bytes, frame)
    ensures Parse(bytes + more) == Delivered(frame, |bytes|)
  {
    hide Judge, Frame.Decode, FirstHeader, Le16;
    WholeFacts(bytes, frame);
    FirstHeaderUnique(bytes, 0);
    JudgeWhole(bytes, frame, |bytes|);
    assert Scan(bytes) == Complete(0, |bytes|);
    assert bytes[0..|bytes|] == bytes;
    ParseStable(bytes, more);
  }

  /** A frame cut short is not delivered and takes nothing off the buffer. */
  lemma {:induction false} ParseCut(bytes: seq<byte>, frame: Frame.Frame, cut: nat)
    requires Whole(bytes, frame) && cut < |bytes|
    ensures Parse(bytes[..cut]) == NeedMore
  {
    WholeFacts(bytes, frame);
  }

  lemma {:induction false} DrainFrames(encoded: seq<seq<byte>>, frames: seq<Frame.Frame>, tail: seq<byte>, end: Stop)
    requires AllWhole(encoded, frames) && Parse(tail) == NeedMore
    ensures Drain(Joined(encoded) + tail, end) == Reading(frames, tail, end)
    decreases |encoded|
  {
    hide Parse, Frame.Decode;
    if encoded == [] {
      assert Joined(encoded) + tail == tail;
    } else {
      var rest := Joined(encoded[1..]) + tail;
      assert Joined(encoded) + tail == encoded[0] + rest;
      ParseWhole(encoded[0], frames[0], rest);
      assert (encoded[0] + rest)[|encoded[0]|..] == rest;
      WholeFacts(encoded[0], frames[0]);
      DrainFrames(encoded[1..], frames[1..], tail, end);
      assert Drain(encoded[0] + rest, end) == Prepend(frames[0], Reading(frames[1..], tail, end));
    }
  }

  /** Frames laid end to end, then the start of one more: whatever the pieces, the reader
      delivers exactly those frames in order and keeps exactly the start of the last. */
  lemma {:induction false} FramesReadInOrder(encoded: seq<seq<byte>>, frames: seq<Frame.Frame>, tail: seq<byte>,
      incoming: seq<ReadResult>)
    requires AllWhole(encoded, frames) && Parse(tail) == NeedMore && Input(incoming) == Joined(encoded) + tail
    ensures ReadAll([], incoming) == Reading(frames, tail, EndOf(incoming))
  {
    DrainFrames(encoded, frames, tail, EndOf(incoming));
    PiecesDoNotMatter([], incoming);
    assert [] + Input(incoming) == Input(incoming);
  }

  /** A frame to send, as the program makes it. */
  datatype Parts = Parts(isResponse: bool, num: byte, address: Option<UserData.AddressField>, app: AppData.App)

  function Made(p: Parts): Frame.Frame {
    Frame.New(p.isResponse, p.num, p.address, p.app)
  }

  predicate Sendable(p: Parts) {
    AppData.Canonical(p.app) && UserData.Fits(p.address, p.app) && |Frame.Encode(Made(p))| < 0x1_0000
  }

  /** From one program to another over the line: the frames made are the frames read. */
  lemma {:induction false} SentIsRead(parts: seq<Parts>, incoming: seq<ReadResult>)
    requires forall i :: 0 <= i < |parts| ==> Sendable(parts[i])
    requires Input(incoming) == Joined(seq(|parts|, i requires 0 <= i < |parts| => Frame.Encode(Made(parts[i]))))
    ensures ReadAll([], incoming) ==
            Reading(seq(|parts|, i requires 0 <= i < |parts| => Made(parts[i])), [], EndOf(incoming))
  {
    var encoded := seq(|parts|, i requires 0 <= i < |parts| => Frame.Encode(Made(parts[i])));
    var frames := seq(|parts|, i requires 0 <= i < |parts| => Made(parts[i]));
    forall i | 0 <= i < |parts| ensures Whole(encoded[i], frames[i]) {
      SendableWhole(parts[i]);
    }
    assert Joined(encoded) + [] == Joined(encoded);
    FramesReadInOrder(encoded, frames, [], incoming);
  }

  lemma {:induction false} SendableWhole(p: Parts)
    requires Sendable(p)
    ensures Whole(Frame.Encode(Made(p)), Made(p))
  {
    Frame.NewFrame(p.isResponse, p.num, p.address, p.app);
    Frame.FrameRoundTrip(p.isResponse, p.num, p.address, p.app);
  }

  // ---- bytes between frames ----

  lemma StrayScan(buffer: seq<byte>, start: nat)
    requires start + Frame.FRAME_SIZE <= |buffer| && buffer[start] == Frame.HEADER
    requires forall i :: 0 <= i < start ==> buffer[i] != Frame.HEADER
    ensures var length := Le16(buffer[1], buffer[2]);
            Scan(buffer) == if |buffer| - start < length then Incomplete else Complete(start, length)
  {
    FirstHeaderUnique(buffer, start);
  }

  lemma JudgeWhole(bytes: seq<byte>, frame: Frame.Frame, size: nat)
    requires Whole(bytes, frame)
    ensures Judge(bytes, size) == Delivered(frame, size)
  {
  }

  /** Stray bytes before a frame are skipped, but the length is then read at the wrong
      place: the frame is delivered exactly when the two bytes there happen to hold its size. */
  lemma StrayBytes(stray: seq<byte>, bytes: seq<byte>, frame: Frame.Frame, more: seq<byte>)
    requires Whole(bytes, frame) && stray != [] && Frame.HEADER !in stray
    ensures var buffer := stray + bytes + more;
            Parse(buffer) == Delivered(frame, |stray| + |bytes|) <==> Le16(buffer[1], buffer[2]) == |bytes|
  {
    hide Judge, Scan, Frame.Decode, FirstHeader, Le16;
    var buffer := stray + bytes + more;
    WholeFacts(bytes, frame);
    StrayScan(buffer, |stray|);
    assert buffer[|stray|..|stray| + |bytes|] == bytes;
    JudgeWhole(bytes, frame, |stray| + |bytes|);
  }

  lemma HeaderAsLength(lo: byte, hi: byte, header: byte)
    requires header == 0x68
    ensures Le16(header, lo) == Le16(lo, hi) <==> Le16(lo, hi) == 0x6868
  {
    assert header as nat == 0x68;
  }

  /** With one stray byte the length is read from the header and the low length byte, so
      only a frame of 26728 bytes gets through. */
  lemma {:induction false} OneStrayByte(stray: byte, bytes: seq<byte>, frame: Frame.Frame, more: seq<byte>)
    requires Whole(bytes, frame) && stray != Frame.HEADER
    ensures Parse([stray] + bytes + more) == Delivered(frame, 1 + |bytes|) <==> |bytes| == 0x6868
  {
    var buffer := [stray] + bytes + more;
    StrayBytes([stray], bytes, frame, more);
    WholeFacts(bytes, frame);
    assert buffer[1] == bytes[0] && buffer[2] == bytes[1];
    HeaderAsLength(bytes[1], bytes[2], bytes[0]);
  }

  // ---- why the reader stops ----

  /** A reader that runs out of frames stops as the stream does: an empty piece closes it, and
      anything else that is no piece is an error. */
  lemma {:induction false} EndIs(pieces: seq<seq<byte>>, last: ReadResult, after: seq<ReadResult>)
    requires forall i :: 0 <= i < |pieces| ==> pieces[i] != []
    requires last.IoError? || last.bytes == []
    ensures EndOf(Pieces(pieces) + [last] + after) == if last.IoError? then StreamError else Closed
    ensures EndOf(Pieces(pieces)) == StreamError
    ensures Input(Pieces(pieces) + [last] + after) == Joined(pieces)
  {
    var all := Pieces(pieces) + [last] + after;
    if pieces != [] {
      EndIs(pieces[1..], last, after);
      assert Pieces(pieces)[1..] == Pieces(pieces[1..]);
      assert all[1..] == Pieces(pieces[1..]) + [last] + after && all[0] == Piece(pieces[0]);
      assert Pieces(pieces)[0] == Piece(pieces[0]);
    } else {
      assert all[0] == last;
    }
  }

  function Pieces(pieces: seq<seq<byte>>): seq<ReadResult> {
    seq(|pieces|, i requires 0 <= i < |pieces| => Piece(pieces[i]))
  }

  /** A complete frame that is not accepted ends the reading with its error, and a fault with a
      crash; nothing is delivered and nothing taken off the buffer. */
  lemma BadFrameStops(bytes: seq<byte>, incoming: seq<ReadResult>)
    requires |bytes| >= 3 && bytes[0] == 0x68 && Le16(bytes[1], bytes[2]) == |bytes|
    ensures Frame.Decode(bytes).Bad? ==>
              ReadAll(bytes, incoming) == Reading([], bytes, BadFrame(Frame.Decode(bytes).error))
    ensures Frame.Decode(bytes).Fault? ==> ReadAll(bytes, incoming) == Reading([], bytes, Crash)
  {
    hide Frame.Decode, Le16;
    FirstHeaderUnique(bytes, 0);
    assert bytes[0..0 + |bytes|] == bytes;
    assert Parse(bytes) == Judge(bytes, |bytes|);
  }
}
