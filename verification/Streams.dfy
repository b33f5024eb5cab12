/** Reading an arbitrary stream of bytes: what it is read as, and exactly when reading panics. */
module Streams {
  import opened Bytes
  import opened Framing
  import opened Delivery

  /** More bytes never change a header that is complete. */
  lemma HeaderStays(data: Bytes, more: Bytes)
    ensures HeaderOf(data).Whole? || HeaderOf(data).BadSize? ==> HeaderOf(data + more) == HeaderOf(data)
    ensures data + [] == data
  {
    var all := data + more;
    if |data| >= 8 {
      assert forall i | 0 <= i < 8 :: all[i] == data[i];
      var h := HeaderOf(data);
      if h.Whole? {
        assert all[8..h.size] == data[8..h.size];
      }
    }
  }

  /** An incomplete packet is shorter than the packet it becomes. */
  lemma ShortOfWhole(data: Bytes, more: Bytes)
    requires Incomplete(data)
    ensures HeaderOf(data + more).Whole? ==> |data| < HeaderOf(data + more).size
    ensures HeaderOf(data + more).BadSize? ==> |data| < 8
  {
    var all := data + more;
    if |data| >= 8 {
      assert forall i | 0 <= i < 8 :: all[i] == data[i];
    }
  }

  /** No packet of the stream exceeds what can be buffered, and neither does an unfinished one at its end. */
  predicate WithinLimit(stream: Bytes)
    decreases |stream|
  {
    match HeaderOf(stream)
    case Whole(_, size, _) => size <= MAX_FRAGMENT_SIZE + 1 && WithinLimit(stream[size..])
    case BadSize => true
    case _ => |stream| <= MAX_FRAGMENT_SIZE
  }

  /** Some packet's end is followed by a header that declares less than its own eight bytes. */
  predicate DeclaresTooLittle(stream: Bytes)
    decreases |stream|
  {
    match HeaderOf(stream)
    case Whole(_, size, _) => DeclaresTooLittle(stream[size..])
    case BadSize => true
    case _ => false
  }

  /** The messages of a stream: its packets, and an error for an unfinished one at the end. */
  function MessagesOf(stream: Bytes): seq<Message>
    decreases |stream|
  {
    if stream == [] then []
    else
      match HeaderOf(stream)
      case Whole(packetType, size, body) => [Message(packetType, size, body, NoError)] + MessagesOf(stream[size..])
      case BadSize => []
      case h => [Failure(h, ReadFailed)]
  }

  /** What is made of the packet at the start of a stream, `r` being what was read and `later` what is left. */
  ghost predicate TakesFirst(stream: Bytes, r: Handled, later: seq<Bytes>) {
    match HeaderOf(stream)
    case Whole(packetType, size, body) =>
      && r.Produced? && r.message == Message(packetType, size, body, NoError)
      && r.queue == Frames(later) && r.tail + Concat(later) == stream[size..]
    case BadSize => r.Panic?
    case h => later == [] && r == Produced(Failure(h, ReadFailed), [], [])
  }

  predicate FirstFits(stream: Bytes) {
    match HeaderOf(stream)
    case Whole(_, size, _) => size <= MAX_FRAGMENT_SIZE + 1
    case BadSize => true
    case _ => |stream| <= MAX_FRAGMENT_SIZE
  }

  lemma {:induction false} GatherTakesFirst(acc: Bytes, tail: Bytes, fs: seq<Bytes>) returns (later: seq<Bytes>)
    requires Incomplete(acc + tail) && FirstFits(acc + tail + Concat(fs))
    ensures TakesFirst(acc + tail + Concat(fs), Gather(acc, tail, Frames(fs)), later)
    ensures |later| <= |fs|
    decreases |fs|
  {
    hide HeaderOf;
    var sofar := acc + tail;
    var stream := sofar + Concat(fs);
    ShortOfWhole(sofar, Concat(fs));
    assert |sofar| <= MAX_FRAGMENT_SIZE;
    if fs == [] {
      HeaderStays(sofar, []);
      later := [];
    } else {
      var all := sofar + fs[0];
      assert stream == all + Concat(fs[1..]);
      FramesTail(fs, 1);
      HeaderStays(all, Concat(fs[1..]));
      if Incomplete(all) {
        later := GatherTakesFirst(sofar, fs[0], fs[1..]);
      } else {
        later := fs[1..];
        if HeaderOf(all).Whole? {
          AfterFirst(sofar, fs[0], Concat(fs[1..]), HeaderOf(all).size);
        }
      }
    }
  }

  lemma AfterFirst(sofar: Bytes, frame: Bytes, more: Bytes, size: nat)
    requires |sofar| <= size <= |sofar + frame|
    ensures frame[size - |sofar|..] + more == (sofar + frame + more)[size..]
  {
  }

  lemma HandleTakesFirst(tail: Bytes, fs: seq<Bytes>) returns (later: seq<Bytes>)
    requires tail != [] && FirstFits(tail + Concat(fs))
    ensures TakesFirst(tail + Concat(fs), Handle(tail, Frames(fs)), later)
    ensures |later| <= |fs| && !Stuck(tail)
  {
    hide HeaderOf;
    HeaderStays(tail, Concat(fs));
    assert [] + tail == tail;
    if Incomplete(tail) {
      ShortOfWhole(tail, Concat(fs));
      later := GatherTakesFirst([], tail, fs);
    } else {
      later := fs;
      if HeaderOf(tail).Whole? {
        AfterFirst([], tail, Concat(fs), HeaderOf(tail).size);
        assert [] + tail + Concat(fs) == tail + Concat(fs);
      }
    }
  }

  /** What one readMessage makes of a stream of which `later` it leaves unread. */
  ghost predicate ReadsPart(stream: Bytes, c: Call, later: seq<Bytes>) {
    match c
    case Messages(ms, queue) =>
      && queue == Frames(later) && WithinLimit(Concat(later))
      && MessagesOf(stream) == ms + MessagesOf(Concat(later))
      && (DeclaresTooLittle(stream) <==> DeclaresTooLittle(Concat(later)))
    case Panics => DeclaresTooLittle(stream)
    case _ => false
  }

  lemma NoneLeft(stream: Bytes)
    requires Incomplete(stream) && stream != []
    ensures MessagesOf(stream) == [Failure(HeaderOf(stream), ReadFailed)] && !DeclaresTooLittle(stream)
    ensures MessagesOf([]) == [] && !DeclaresTooLittle([]) && WithinLimit([]) && Concat([]) == []
    ensures ReadLoop([], []) == Messages([], [])
  {
  }

  lemma OneMoreMessage(stream: Bytes, size: nat, c: Call, later: seq<Bytes>)
    requires HeaderOf(stream).Whole? && HeaderOf(stream).size == size
    requires ReadsPart(stream[size..], c, later) && c.Messages?
    ensures ReadsPart(stream,
                      Messages([Message(HeaderOf(stream).packetType, size, HeaderOf(stream).body, NoError)]
                                 + c.messages, c.queue),
                      later)
  {
    hide HeaderOf;
  }

  lemma {:induction false} LoopReadsPart(tail: Bytes, fs: seq<Bytes>) returns (later: seq<Bytes>)
    requires WithinLimit(tail + Concat(fs))
    ensures ReadsPart(tail + Concat(fs), ReadLoop(tail, Frames(fs)), later) && |later| <= |fs|
    decreases |tail + Concat(fs)|
  {
    hide HeaderOf, Handle, Concat, Stuck;
    var stream := tail + Concat(fs);
    if tail == [] {
      later := fs;
      assert stream == Concat(fs);
    } else {
      var left := HandleTakesFirst(tail, fs);
      var r := Handle(tail, Frames(fs));
      match HeaderOf(stream) {
        case BadSize =>
          later := [];
        case Whole(_, size, _) =>
          HeaderSize(stream);
          later := LoopReadsPart(r.tail, left);
          var c := ReadLoop(r.tail, r.queue);
          if c.Messages? { OneMoreMessage(stream, size, c, later); }
        case _ =>
          later := [];
          NoneLeft(stream);
      }
    }
  }

  lemma HeaderSize(data: Bytes)
    ensures HeaderOf(data).Whole? ==> 8 <= HeaderOf(data).size <= |data|
  {
  }

  /** Whatever the bytes, as long as they can be buffered: however they are cut into frames, reading panics
      exactly if a header declares too little, and otherwise hands up the stream's messages until the transport
      fails. */
  lemma {:induction false} StreamIsReadAlike(fs: seq<Bytes>)
    requires WithinLimit(Concat(fs))
    ensures AllReads(Frames(fs)).end == if DeclaresTooLittle(Concat(fs)) then Panicked else TransportFailed
    ensures !DeclaresTooLittle(Concat(fs)) ==> AllReads(Frames(fs)).messages == MessagesOf(Concat(fs))
    decreases |fs|
  {
    hide HeaderOf, ReadLoop;
    if fs == [] {
      assert !HeaderOf([]).Whole? by { HeaderSize([]); }
      assert !HeaderOf([]).BadSize? by { NothingDeclared(); }
    } else {
      FramesTail(fs, 1);
      var later := LoopReadsPart(fs[0], fs[1..]);
      if ReadCall(Frames(fs)).Messages? {
        StreamIsReadAlike(later);
      }
    }
  }

  lemma NothingDeclared()
    ensures HeaderOf([]).Short?
  {
  }

  /** A stream of packets is such a stream, and its messages are the packets'. */
  lemma {:induction false} PacketStreamsFit(ps: seq<Packet>)
    requires AllDeliverable(ps)
    ensures WithinLimit(EncodeAll(ps)) && !DeclaresTooLittle(EncodeAll(ps))
    ensures MessagesOf(EncodeAll(ps)) == Arrivals(ps)
  {
    hide HeaderOf, Encode;
    if ps == [] {
      NothingDeclared();
    } else {
      var e, later := Encode(ps[0]), EncodeAll(ps[1..]);
      assert ps[0] in ps;
      HeaderOfPacket(ps[0], later);
      assert (e + later)[|e|..] == later;
      PacketStreamsFit(ps[1..]);
    }
  }

  // ---- the limit is exact ----

  /** One frame per packet up to the first that cannot be buffered, which is cut one byte past the limit. */
  function HangingCut(stream: Bytes): (fs: seq<Bytes>)
    requires !WithinLimit(stream)
    decreases |stream|
  {
    match HeaderOf(stream)
    case Whole(_, size, _) =>
      if size > MAX_FRAGMENT_SIZE + 1 then [stream[..MAX_FRAGMENT_SIZE + 1], stream[MAX_FRAGMENT_SIZE + 1..]]
      else [stream[..size]] + HangingCut(stream[size..])
    case _ => [stream[..MAX_FRAGMENT_SIZE + 1], stream[MAX_FRAGMENT_SIZE + 1..]]
  }

  lemma LongStartIsStuck(stream: Bytes)
    requires HeaderOf(stream).Whole? ==> HeaderOf(stream).size > MAX_FRAGMENT_SIZE + 1
    requires !HeaderOf(stream).BadSize? && |stream| > MAX_FRAGMENT_SIZE
    ensures Stuck(stream[..MAX_FRAGMENT_SIZE + 1])
  {
    var start := stream[..MAX_FRAGMENT_SIZE + 1];
    assert forall i | 0 <= i < 8 :: start[i] == stream[i];
  }

  lemma TwoParts(stream: Bytes, k: nat)
    requires k <= |stream|
    ensures Concat([stream[..k], stream[k..]]) == stream
  {
    assert Concat([stream[k..]]) == stream[k..] by { OnePart(stream[k..]); }
    assert [stream[..k], stream[k..]][1..] == [stream[k..]];
  }

  lemma OnePart(part: Bytes)
    ensures Concat([part]) == part
  {
    assert Concat([]) == [];
  }

  lemma WholeFrameFirst(stream: Bytes, later: seq<Bytes>)
    requires HeaderOf(stream).Whole?
    ensures var size := HeaderOf(stream).size;
            AllReads(Frames([stream[..size]] + later)).end == AllReads(Frames(later)).end
  {
    hide HeaderOf, Handle, ReadLoop;
    HeaderSize(stream);
    var size := HeaderOf(stream).size;
    var e := stream[..size];
    var fs := [e] + later;
    HeaderOfStart(stream, size);
    FramesTail(fs, 1);
    assert fs[1..] == later && Frames(fs)[0] == Frame(e);
    OneMessageRead(e, Frames(later));
  }

  lemma HeaderOfStart(stream: Bytes, size: nat)
    requires HeaderOf(stream).Whole? && HeaderOf(stream).size == size
    ensures HeaderOf(stream[..size]).Whole? && HeaderOf(stream[..size]).size == size
  {
    assert forall i | 0 <= i < 8 :: stream[..size][i] == stream[i];
  }

  lemma OneMessageRead(e: Bytes, queue: seq<Read>)
    requires HeaderOf(e).Whole? && HeaderOf(e).size == |e|
    ensures ReadLoop(e, queue).Messages? && ReadLoop(e, queue).queue == queue
  {
    assert e[|e|..] == [];
    assert ReadLoop([], queue) == Messages([], queue);
  }

  lemma {:induction false} HangingCutHangs(stream: Bytes)
    requires !WithinLimit(stream)
    ensures Concat(HangingCut(stream)) == stream
    ensures AllReads(Frames(HangingCut(stream))).end == Hung
    decreases |stream|
  {
    hide HeaderOf, AllReads, Concat;
    HeaderSize(stream);
    var h, fs := HeaderOf(stream), HangingCut(stream);
    if h.Whole? && h.size <= MAX_FRAGMENT_SIZE + 1 {
      HangingCutHangs(stream[h.size..]);
      WholeFrameFirst(stream, HangingCut(stream[h.size..]));
      ConcatAppend([stream[..h.size]], HangingCut(stream[h.size..]));
      OnePart(stream[..h.size]);
    } else {
      TwoParts(stream, MAX_FRAGMENT_SIZE + 1);
      LongStartIsStuck(stream);
      StuckFrameHangs(fs);
    }
  }

  /** No way of cutting a stream hangs the reader if and only if all of it can be buffered. */
  lemma WithinLimitIsExact(stream: Bytes)
    ensures WithinLimit(stream)
       <==> forall fs: seq<Bytes> :: Concat(fs) == stream ==> AllReads(Frames(fs)).end != Hung
  {
    hide WithinLimit, AllReads, Concat;
    if WithinLimit(stream) {
      forall fs: seq<Bytes> | Concat(fs) == stream ensures AllReads(Frames(fs)).end != Hung {
        StreamIsReadAlike(fs);
      }
    } else {
      HangingCutHangs(stream);
    }
  }
}
