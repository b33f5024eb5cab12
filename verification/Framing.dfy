/** The framing layer as functions: packets of [MS-TSGU] section 2.2.10.9 (HTTP_PACKET_HEADER), cut
    into transport frames and put together again.

    A read of the transport either yields a frame or fails; what the reader of a frame still has to
    parse is its `tail`. */
module Framing {
  import opened Bytes

  const MAX_FRAGMENT_SIZE: nat := 65536

  /** One outcome of a transport's ReadPacket. */
  datatype Read = Frame(data: Bytes) | Broken(data: Bytes)

  /** What readHeader makes of the bytes at hand; `BadSize` is a declared size below the header's own
      length, on which the source's slice expression panics. */
  datatype Header =
    | Short
    | Partial(packetType: nat, size: nat, body: Bytes)
    | Whole(packetType: nat, size: nat, body: Bytes)
    | BadSize

  function HeaderOf(data: Bytes): (h: Header)
    ensures h.Whole? ==> 8 <= h.size <= |data|
  {
    if |data| < 8 then Short
    else
      var size := Get32(data, 4);
      if |data| < size then Partial(Get16(data, 0), size, data[8..])
      else if size < 8 then BadSize
      else Whole(Get16(data, 0), size, data[8..size])
  }

  predicate Incomplete(data: Bytes) {
    HeaderOf(data).Short? || HeaderOf(data).Partial?
  }

  datatype MessageError = NoError | FragmentTooLarge | ReadFailed

  datatype Message = Message(packetType: nat, length: nat, body: Bytes, error: MessageError)

  /** The message handed up for a header that never completed: the fields of the last attempt. */
  function Failure(h: Header, e: MessageError): Message
    requires h.Short? || h.Partial?
  {
    if h.Short? then Message(0, 0, [], e) else Message(h.packetType, h.size, h.body, e)
  }

  /** Outcome of one handleMsgFrame: a message, the unparsed tail of the current frame, the reads left. */
  datatype Handled = Panic | Produced(message: Message, tail: Bytes, queue: seq<Read>)

  /** More bytes never change the size a header declares, so a completed packet ends strictly inside
      the frame that completed it. */
  lemma ResumeStep(acc: Bytes, frame: Bytes)
    requires Incomplete(acc)
    requires HeaderOf(acc + frame).Whole?
    ensures 0 < HeaderOf(acc + frame).size - |acc| <= |frame|
  {
    var all := acc + frame;
    if |acc| >= 8 {
      assert all[4] == acc[4] && all[5] == acc[5] && all[6] == acc[6] && all[7] == acc[7];
    }
  }

  /** The fragment loop: `acc` holds the buffered fragments, `tail` is the current frame's rest. */
  function Gather(acc: Bytes, tail: Bytes, queue: seq<Read>): (r: Handled)
    requires Incomplete(acc + tail)
    ensures r.Produced? ==>
              || |r.queue| < |queue|
              || (r.queue == queue == [] && r.tail == [])
              || (r.queue == queue && r.tail == tail && r.message.error.FragmentTooLarge?)
    decreases |queue|
  {
    var h := HeaderOf(acc + tail);
    if |tail| > MAX_FRAGMENT_SIZE - |acc| then
      Produced(Failure(h, FragmentTooLarge), tail, queue)
    else if queue == [] then
      Produced(Failure(h, ReadFailed), [], [])
    else if queue[0].Broken? then
      Produced(Failure(h, ReadFailed), [], queue[1..])
    else
      var frame := queue[0].data;
      match HeaderOf(acc + tail + frame)
      case BadSize => Panic
      case Whole(packetType, size, body) =>
        ResumeStep(acc + tail, frame);
        Produced(Message(packetType, size, body, NoError), frame[size - |acc + tail|..], queue[1..])
      case _ => Gather(acc + tail, frame, queue[1..])
  }

  /** One handleMsgFrame on a non-empty tail: it consumes something, or it is stuck. */
  function Handle(tail: Bytes, queue: seq<Read>): (r: Handled)
    requires tail != []
    ensures r.Produced? ==>
              || |r.queue| < |queue|
              || (r.queue == queue && |r.tail| < |tail|)
              || (r.queue == queue && r.tail == tail)
  {
    match HeaderOf(tail)
    case BadSize => Panic
    case Whole(packetType, size, body) =>
      Produced(Message(packetType, size, body, NoError), tail[size..], queue)
    case _ =>
      assert [] + tail == tail;
      Gather([], tail, queue)
  }

  /** The loop of readMessage gets stuck exactly where its first fragment is already over the limit. */
  predicate Stuck(tail: Bytes) {
    Incomplete(tail) && |tail| > MAX_FRAGMENT_SIZE
  }

  /** Outcome of one readMessage: its messages and the reads left, an error, a panic, or no return. */
  datatype Call =
    | Messages(messages: seq<Message>, queue: seq<Read>)
    | Failed(queue: seq<Read>)
    | Panics
    | Diverges

  function ReadLoop(tail: Bytes, queue: seq<Read>): (c: Call)
    ensures c.Messages? ==> |c.queue| <= |queue|
    decreases |queue|, |tail|
  {
    if tail == [] then Messages([], queue)
    else
      match Handle(tail, queue)
      case Panic => Panics
      case Produced(m, tail', queue') =>
        if Stuck(tail) then Diverges
        else
          match ReadLoop(tail', queue')
          case Messages(ms, rest) => Messages([m] + ms, rest)
          case other => other
  }

  function ReadCall(queue: seq<Read>): (c: Call)
  {
    if queue == [] then Failed([])
    else if queue[0].Broken? then Failed(queue[1..])
    else ReadLoop(queue[0].data, queue[1..])
  }

  /** Everything repeated readMessage calls hand up, and how the last of them ends. */
  datatype Transcript = Transcript(messages: seq<Message>, end: Ending)
  datatype Ending = TransportFailed | Panicked | Hung

  function AllReads(queue: seq<Read>): (t: Transcript)
    decreases |queue|
  {
    match ReadCall(queue)
    case Failed(_) => Transcript([], TransportFailed)
    case Panics => Transcript([], Panicked)
    case Diverges => Transcript([], Hung)
    case Messages(ms, rest) =>
      assert |rest| < |queue|;
      var later := AllReads(rest);
      Transcript(ms + later.messages, later.end)
  }

  // ---- when reading comes to an end ----

  /** The loop of readMessage makes `n` more rounds from here and still has more data. */
  predicate RunsFor(tail: Bytes, queue: seq<Read>, n: nat)
    decreases n
  {
    && tail != []
    && (n > 0 ==>
          var r := Handle(tail, queue);
          r.Produced? && RunsFor(r.tail, r.queue, n - 1))
  }

  /** A round leaves the reader where it was exactly when it is stuck. */
  lemma NoProgressIffStuck(tail: Bytes, queue: seq<Read>)
    requires tail != []
    ensures Stuck(tail) <==> Handle(tail, queue).Produced? && Handle(tail, queue).tail == tail
                             && Handle(tail, queue).queue == queue
  {
    if Incomplete(tail) {
      assert [] + tail == tail;
    }
  }

  lemma {:induction false} StuckRunsForever(tail: Bytes, queue: seq<Read>, n: nat)
    requires Stuck(tail)
    ensures RunsFor(tail, queue, n)
  {
    NoProgressIffStuck(tail, queue);
    if n > 0 {
      StuckRunsForever(tail, queue, n - 1);
    }
  }

  lemma PanicStops(tail: Bytes, queue: seq<Read>, n: nat)
    requires tail != [] && n > 0
    requires Handle(tail, queue).Panic?
    ensures !RunsFor(tail, queue, n)
  {
  }

  lemma OneRoundMore(tail: Bytes, queue: seq<Read>, n: nat)
    requires tail != [] && n > 0
    requires Handle(tail, queue).Produced?
    ensures RunsFor(tail, queue, n) <==> RunsFor(Handle(tail, queue).tail, Handle(tail, queue).queue, n - 1)
  {
  }

  /** `Diverges` means what it says: the loop goes round without end, and in every other case it does not. */
  lemma {:induction false} DivergesIffRunsForever(tail: Bytes, queue: seq<Read>)
    ensures ReadLoop(tail, queue).Diverges? <==> forall n: nat :: RunsFor(tail, queue, n)
    decreases |queue|, |tail|
  {
    if tail == [] {
      assert !RunsFor(tail, queue, 0);
    } else if Stuck(tail) {
      NoProgressIffStuck(tail, queue);
      forall n: nat ensures RunsFor(tail, queue, n) {
        StuckRunsForever(tail, queue, n);
      }
    } else {
      var r := Handle(tail, queue);
      if r.Panic? {
        assert ReadLoop(tail, queue) == Panics;
        PanicStops(tail, queue, 1);
      } else {
        NoProgressIffStuck(tail, queue);
        DivergesIffRunsForever(r.tail, r.queue);
        if forall n: nat :: RunsFor(r.tail, r.queue, n) {
          forall n: nat ensures RunsFor(tail, queue, n) {
            if n > 0 { assert RunsFor(r.tail, r.queue, n - 1); }
          }
        } else {
          var n: nat :| !RunsFor(r.tail, r.queue, n);
          OneRoundMore(tail, queue, n + 1);
        }
      }
    }
  }

  predicate SmallFrames(queue: seq<Read>) {
    forall r | r in queue && r.Frame? :: |r.data| <= MAX_FRAGMENT_SIZE
  }

  lemma {:induction false} GatherKeepsSmall(acc: Bytes, tail: Bytes, queue: seq<Read>)
    requires Incomplete(acc + tail)
    requires SmallFrames(queue) && |tail| <= MAX_FRAGMENT_SIZE
    ensures var r := Gather(acc, tail, queue);
            r.Produced? ==> SmallFrames(r.queue) && |r.tail| <= MAX_FRAGMENT_SIZE
    decreases |queue|
  {
    if |tail| <= MAX_FRAGMENT_SIZE - |acc| && queue != [] && queue[0].Frame? {
      var frame := queue[0].data;
      assert queue[0] in queue;
      if Incomplete(acc + tail + frame) {
        GatherKeepsSmall(acc + tail, frame, queue[1..]);
      }
    }
  }

  lemma {:induction false} SmallFramesReadOn(tail: Bytes, queue: seq<Read>)
    requires SmallFrames(queue) && |tail| <= MAX_FRAGMENT_SIZE
    ensures !ReadLoop(tail, queue).Diverges?
    ensures ReadLoop(tail, queue).Messages? ==> SmallFrames(ReadLoop(tail, queue).queue)
    decreases |queue|, |tail|
  {
    if tail != [] {
      assert [] + tail == tail;
      if Incomplete(tail) {
        GatherKeepsSmall([], tail, queue);
      }
      var r := Handle(tail, queue);
      NoProgressIffStuck(tail, queue);
      if r.Produced? {
        SmallFramesReadOn(r.tail, r.queue);
      }
    }
  }

  /** Frames of at most 65536 bytes, whatever they contain, never hang the reader. */
  lemma {:induction false} SmallFramesTerminate(queue: seq<Read>)
    requires SmallFrames(queue)
    ensures AllReads(queue).end != Hung
    decreases |queue|
  {
    if queue != [] && queue[0].Frame? {
      assert queue[0] in queue;
      SmallFramesReadOn(queue[0].data, queue[1..]);
      var c := ReadCall(queue);
      if c.Messages? {
        SmallFramesTerminate(c.queue);
      }
    }
  }
}
