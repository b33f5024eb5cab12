/** The byte stream of the remote desktop connection inside DATA packets: wrapping on one side of the
    tunnel, unwrapping on the other, and the tunnel that carries the packets. */
module Relay {
  import opened Bytes
  import opened Framing
  import opened Delivery
  import opened Readers
  import opened Transport

  const PKT_TYPE_DATA: nat := 0xA
  const FORWARD_BUFFER: nat := 4086

  /** A stream connection: the reads it will still yield, and what was written to it. */
  class Conn {
    var incoming: seq<Read>
    var written: Bytes
    var closed: bool

    constructor (incoming: seq<Read>)
      ensures this.incoming == incoming && written == [] && !closed
    {
      this.incoming, written, closed := incoming, [], false;
    }

    /** Reads what has arrived, up to the size of the caller's buffer. */
    method ReadUpTo(limit: nat) returns (p: Bytes, failed: bool)
      requires limit > 0
      modifies this`incoming
      ensures match NextChunk(old(incoming), limit)
              case None => failed
              case Chunk(c, rest) => !failed && p == c && incoming == rest
      ensures !failed ==> Pending(incoming) < Pending(old(incoming))
    {
      p, failed := [], true;
      if incoming != [] && incoming[0].Frame? {
        failed, p := false, incoming[0].data;
        PendingSplit(incoming, limit);
        if |p| > limit {
          incoming := [Frame(p[limit..])] + incoming[1..];
          p := p[..limit];
        } else {
          incoming := incoming[1..];
        }
      }
    }

    method Write(b: Bytes)
      modifies this`written
      ensures written == old(written) + b
    {
      written := written + b;
    }

    method Close()
      modifies this`closed
      ensures closed
    {
      closed := true;
    }
  }

  datatype Next = None | Chunk(chunk: Bytes, rest: seq<Read>)

  function NextChunk(queue: seq<Read>, limit: nat): Next {
    if queue == [] || queue[0].Broken? then None
    else if |queue[0].data| <= limit then Chunk(queue[0].data, queue[1..])
    else Chunk(queue[0].data[..limit], [Frame(queue[0].data[limit..])] + queue[1..])
  }

  /** What the connection can still yield, counted so that every read takes something away. */
  function Pending(queue: seq<Read>): nat {
    if queue == [] then 0 else |queue[0].data| + 1 + Pending(queue[1..])
  }

  lemma PendingSplit(queue: seq<Read>, limit: nat)
    requires limit > 0
    ensures var n := NextChunk(queue, limit);
            n.Chunk? ==> |n.chunk| <= limit && Pending(n.rest) < Pending(queue)
  {
    var n := NextChunk(queue, limit);
    if n.Chunk? && |queue[0].data| > limit {
      assert n.rest[1..] == queue[1..];
    }
  }

  /** The chunks `forward` takes from a connection until its first failed read. */
  function Chunks(queue: seq<Read>): (cs: seq<Bytes>)
    ensures forall c | c in cs :: |c| <= FORWARD_BUFFER
    decreases Pending(queue)
  {
    match NextChunk(queue, FORWARD_BUFFER)
    case None => []
    case Chunk(c, rest) =>
      PendingSplit(queue, FORWARD_BUFFER);
      [c] + Chunks(rest)
  }

  /** A read takes all that is there, up to the buffer's 4086 bytes. */
  lemma FirstChunkIsFull(queue: seq<Read>)
    requires queue != [] && queue[0].Frame?
    ensures var data := queue[0].data;
            Chunks(queue) != [] && Chunks(queue)[0] == if |data| <= 4086 then data else data[..4086]
  {
  }

  /** The stream a connection yields: all its data up to the first failure. */
  function StreamOf(queue: seq<Read>): Bytes {
    if queue == [] || queue[0].Broken? then [] else queue[0].data + StreamOf(queue[1..])
  }

  /** Taking a chunk takes it off the stream. */
  lemma StreamAfterChunk(queue: seq<Read>, limit: nat)
    requires limit > 0
    ensures match NextChunk(queue, limit)
            case None => StreamOf(queue) == []
            case Chunk(c, rest) => StreamOf(queue) == c + StreamOf(rest)
  {
    var n := NextChunk(queue, limit);
    if n.Chunk? && |queue[0].data| > limit {
      var d, later := queue[0].data, StreamOf(queue[1..]);
      assert n.rest[0] == Frame(d[limit..]) && n.rest[1..] == queue[1..];
      CutAt(d, limit, later);
    }
  }

  lemma CutAt(d: Bytes, k: nat, later: Bytes)
    requires k <= |d|
    ensures d + later == d[..k] + (d[k..] + later)
  {
  }

  /** Reading through a bounded buffer loses and reorders nothing. */
  lemma {:induction false} ChunksAreTheStream(queue: seq<Read>)
    ensures Concat(Chunks(queue)) == StreamOf(queue)
    decreases Pending(queue)
  {
    hide StreamOf;
    var n := NextChunk(queue, FORWARD_BUFFER);
    StreamAfterChunk(queue, FORWARD_BUFFER);
    PendingSplit(queue, FORWARD_BUFFER);
    if n.Chunk? {
      ChunksAreTheStream(n.rest);
    }
  }

  /** A DATA packet: the chunk behind its own 16-bit length. */
  function Wrap(chunk: Bytes): Packet {
    Packet(PKT_TYPE_DATA, Put16(|chunk|) + chunk)
  }

  function WrapAll(chunks: seq<Bytes>): (ps: seq<Packet>)
    ensures |ps| == |chunks|
    ensures forall i | 0 <= i < |chunks| :: ps[i] == Wrap(chunks[i])
  {
    if chunks == [] then [] else [Wrap(chunks[0])] + WrapAll(chunks[1..])
  }

  lemma {:induction false} WrapAllSnoc(chunks: seq<Bytes>, chunk: Bytes)
    ensures WrapAll(chunks + [chunk]) == WrapAll(chunks) + [Wrap(chunk)]
  {
  }

  /** What `receive` writes on: the announced number of bytes, or that many zeros if fewer arrived. */
  function Unwrapped(data: Bytes): Bytes {
    if |data| < 2 then []
    else
      var n := Get16(data, 0);
      if 2 + n <= |data| then data[2..2 + n] else Zeros(n)
  }

  /** The inner length is a 16-bit field, so wrapping is undone for chunks that fit it and no others. */
  lemma UnwrapUndoesWrap(chunk: Bytes)
    ensures Unwrapped(Wrap(chunk).body) == chunk <==> |chunk| < 0x1_0000
  {
    var body := Put16(|chunk|) + chunk;
    assert body == [] + Put16(|chunk|) + chunk;
    Get16OfPut16(|chunk|, [], chunk);
    if |chunk| < 0x1_0000 {
      assert body[2..2 + |chunk|] == chunk;
    } else {
      assert |Unwrapped(body)| == |chunk| % 0x1_0000;
    }
  }

  /** As many bytes as announced, the ones that follow if they are all there, and nothing of them otherwise. */
  lemma UnwrappedMeaning(data: Bytes)
    ensures |data| < 2 ==> Unwrapped(data) == []
    ensures |data| >= 2 ==> |Unwrapped(data)| == Get16(data, 0)
    ensures |data| >= 2 && |data| - 2 >= Get16(data, 0) ==> data[..2] + Unwrapped(data) <= data
    ensures |data| >= 2 && |data| - 2 < Get16(data, 0) ==> forall b | b in Unwrapped(data) :: b == 0
  {
  }

  /** What a run of messages delivers to the local connection. */
  function Unwrapping(ms: seq<Message>): Bytes {
    if ms == [] then []
    else (if ms[0].error.NoError? && ms[0].packetType == PKT_TYPE_DATA then Unwrapped(ms[0].body) else [])
         + Unwrapping(ms[1..])
  }

  predicate SmallChunks(chunks: seq<Bytes>) {
    forall c | c in chunks :: |c| <= FORWARD_BUFFER
  }

  lemma WrappedIsDeliverable(chunks: seq<Bytes>)
    requires SmallChunks(chunks)
    ensures AllDeliverable(WrapAll(chunks))
  {
    forall p | p in WrapAll(chunks) ensures p.Fits() && |Encode(p)| <= MAX_FRAGMENT_SIZE + 1 {
      var i: nat :| i < |chunks| && WrapAll(chunks)[i] == p;
      assert chunks[i] in chunks;
    }
  }

  lemma {:induction false} UnwrappingWrapped(chunks: seq<Bytes>)
    requires SmallChunks(chunks)
    ensures Unwrapping(Arrivals(WrapAll(chunks))) == Concat(chunks)
  {
    if chunks != [] {
      var ps := WrapAll(chunks);
      UnwrapUndoesWrap(chunks[0]);
      assert ps[1..] == WrapAll(chunks[1..]);
      assert Arrivals(ps)[1..] == Arrivals(ps[1..]);
      UnwrappingWrapped(chunks[1..]);
    }
  }

  /** Whatever a connection yields is, once forwarded, cut into frames anyhow and read again, exactly
      what the far side writes to its own connection. */
  lemma StreamTransparency(queue: seq<Read>, fs: seq<Bytes>)
    requires Concat(fs) == EncodeAll(WrapAll(Chunks(queue)))
    ensures AllReads(Frames(fs)).end == TransportFailed
    ensures Unwrapping(AllReads(Frames(fs)).messages) == StreamOf(queue)
  {
    var chunks := Chunks(queue);
    WrappedIsDeliverable(chunks);
    FramingIndependence(fs, WrapAll(chunks));
    UnwrappingWrapped(chunks);
    ChunksAreTheStream(queue);
  }

  /** One end of the tunnel. */
  class Tunnel {
    const transportIn: PacketTransport
    const transportOut: PacketTransport
    var targetServer: Bytes
    var rwc: Conn?
    var bytesSent: int
    var bytesReceived: int

    constructor (transportIn: PacketTransport, transportOut: PacketTransport)
      ensures this.transportIn == transportIn && this.transportOut == transportOut
      ensures targetServer == [] && rwc == null && bytesSent == bytesReceived == 0
    {
      this.transportIn, this.transportOut := transportIn, transportOut;
      targetServer, rwc, bytesSent, bytesReceived := [], null, 0, 0;
    }

    method Write(pkt: Bytes)
      modifies this`bytesSent, transportOut`outgoing
      ensures transportOut.outgoing == old(transportOut.outgoing) + [pkt]
      ensures bytesSent == old(bytesSent) + |pkt|
    {
      var n := transportOut.WritePacket(pkt);
      bytesSent := bytesSent + n;
    }

    method ReadMessages() returns (messages: seq<Message>, status: ReadStatus, stores: seq<array?<Byte>>)
      requires !ReadCall(transportIn.incoming).Diverges?
      modifies this`bytesReceived, transportIn`incoming
      ensures match ReadCall(old(transportIn.incoming))
              case Messages(ms, queue) => status == ReadOk && messages == ms && transportIn.incoming == queue
              case Failed(queue) => status == ReadError && messages == [] && transportIn.incoming == queue
              case Panics => status == ReadPanic && messages == []
              case Diverges => false
      ensures bytesReceived == old(bytesReceived) + TotalLength(messages)
      ensures status == ReadOk ==> |transportIn.incoming| < |old(transportIn.incoming)|
      ensures AllHeld(stores, messages)
      ensures forall i | 0 <= i < |stores| && stores[i] != null :: fresh(stores[i])
      ensures status == ReadOk ==> Kept(stores) == ReassembledIn(old(transportIn.incoming))
    {
      messages, status, stores := ReadMessage(transportIn);
      if status != ReadOk {
        messages, stores := [], [];
        return;
      }
      var i := 0;
      while i < |messages|
        invariant 0 <= i <= |messages|
        invariant bytesReceived + TotalLength(messages[i..]) == old(bytesReceived) + TotalLength(messages)
        invariant transportIn.incoming == ReadCall(old(transportIn.incoming)).queue
        invariant AllHeld(stores, messages)
      {
        assert messages[i..][1..] == messages[i + 1..];
        bytesReceived := bytesReceived + messages[i].length;
        i := i + 1;
      }
    }
  }

  function Encodings(ps: seq<Packet>): (es: seq<Bytes>)
    ensures |es| == |ps|
  {
    if ps == [] then [] else [Encode(ps[0])] + Encodings(ps[1..])
  }

  lemma {:induction false} EncodingsAppend(a: seq<Packet>, b: seq<Packet>)
    ensures Encodings(a + b) == Encodings(a) + Encodings(b)
  {
    hide Encode;
    if a == [] {
      assert a + b == b;
    } else {
      EncodingsAppend(a[1..], b);
      assert (a + b)[0] == a[0] && (a + b)[1..] == a[1..] + b;
      var first, x, y := [Encode(a[0])], Encodings(a[1..]), Encodings(b);
      assert first + (x + y) == (first + x) + y;
    }
  }

  /** Writes put end to end are the stream of the packets. */
  lemma {:induction false} EncodingsAreTheStream(ps: seq<Packet>)
    ensures Concat(Encodings(ps)) == EncodeAll(ps)
  {
    hide Encode;
    if ps != [] {
      EncodingsAreTheStream(ps[1..]);
      assert Encodings(ps)[1..] == Encodings(ps[1..]);
    }
  }

  /** The next chunk's packet comes first. */
  lemma ForwardStep(queue: seq<Read>)
    requires NextChunk(queue, FORWARD_BUFFER).Chunk?
    ensures var n := NextChunk(queue, FORWARD_BUFFER);
            Encodings(WrapAll(Chunks(queue))) == [Encode(Wrap(n.chunk))] + Encodings(WrapAll(Chunks(n.rest)))
  {
    hide Encode;
    var n := NextChunk(queue, FORWARD_BUFFER);
    PendingSplit(queue, FORWARD_BUFFER);
    assert Chunks(queue) == [n.chunk] + Chunks(n.rest);
    assert WrapAll(Chunks(queue))[1..] == WrapAll(Chunks(n.rest));
  }

  lemma NothingLeft(queue: seq<Read>)
    requires NextChunk(queue, FORWARD_BUFFER).None?
    ensures Encodings(WrapAll(Chunks(queue))) == []
  {
  }

  /** Everything the connection yields goes onto the tunnel, one DATA packet a read, until a read fails. */
  method Forward(input: Conn, tunnel: Tunnel)
    modifies input`incoming, input`closed, tunnel`bytesSent, tunnel.transportOut`outgoing
    ensures tunnel.transportOut.outgoing
         == old(tunnel.transportOut.outgoing) + Encodings(WrapAll(Chunks(old(input.incoming))))
    ensures input.closed
  {
    hide Encode, NextChunk, Chunks, WrapAll, Encodings, Put16, Pending;
    ghost var queue, sent := input.incoming, tunnel.transportOut.outgoing;
    var b1: Bytes := [];
    while true
      invariant b1 == []
      invariant tunnel.transportOut.outgoing + Encodings(WrapAll(Chunks(input.incoming)))
             == sent + Encodings(WrapAll(Chunks(queue)))
      decreases Pending(input.incoming)
    {
      ghost var left := input.incoming;
      var buf, err := input.ReadUpTo(FORWARD_BUFFER);
      if err {
        NothingLeft(left);
        break;
      }
      ForwardStep(left);
      b1 := b1 + Put16(|buf|);
      b1 := b1 + buf;
      var pkt := CreatePacket(PKT_TYPE_DATA, b1);
      assert b1 == Put16(|buf|) + buf;
      assert pkt == Encode(Wrap(buf));
      ghost var before, rest := tunnel.transportOut.outgoing, Encodings(WrapAll(Chunks(input.incoming)));
      assert before + ([pkt] + rest) == before + [pkt] + rest;
      tunnel.Write(pkt);
      b1 := [];
    }
    input.Close();
  }

  /** Unwraps one DATA message and writes it to the connection. */
  method Receive(data: Bytes, output: Conn)
    modifies output`written
    ensures output.written == old(output.written) + Unwrapped(data)
  {
    var r := new Reader(data);
    var cblen := r.Read16();
    var pkt := r.ReadAll(cblen);
    output.Write(pkt);
  }
}
