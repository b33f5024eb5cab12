/** The transport, the cursor over its current frame, and the defragmenting reader that drives them. */
module Transport {
  import opened Bytes
  import opened Framing
  import opened Delivery

  /** A packet transport: the reads it will still yield, and what was written to it. */
  class PacketTransport {
    var incoming: seq<Read>
    var outgoing: seq<Bytes>

    constructor (incoming: seq<Read>)
      ensures this.incoming == incoming && outgoing == []
    {
      this.incoming, outgoing := incoming, [];
    }

    method ReadPacket() returns (size: int, pkt: Bytes, failed: bool)
      modifies this`incoming
      ensures old(incoming) == [] ==> failed && pkt == [] && incoming == []
      ensures old(incoming) != [] ==>
                && incoming == old(incoming)[1..]
                && pkt == old(incoming)[0].data
                && failed == old(incoming)[0].Broken?
      ensures size == |pkt|
    {
      if incoming == [] {
        size, pkt, failed := 0, [], true;
      } else {
        pkt, failed := incoming[0].data, incoming[0].Broken?;
        size := |pkt|;
        incoming := incoming[1..];
      }
    }

    method WritePacket(b: Bytes) returns (n: nat)
      modifies this`outgoing
      ensures outgoing == old(outgoing) + [b] && n == |b|
    {
      outgoing := outgoing + [b];
      n := |b|;
    }
  }

  /** The cursor over the frame read last. A failed read leaves a frame without readable size. */
  class PacketReader {
    const input: PacketTransport
    var size: int
    var pkt: Bytes
    var failed: bool
    var readPtr: int

    ghost predicate Valid()
      reads this
    {
      && 0 <= readPtr <= |pkt|
      && (failed ==> size == 0)
      && (!failed ==> size == |pkt|)
    }

    /** What of the frame is still to be parsed. */
    ghost function Tail(): Bytes
      requires Valid()
      reads this
    {
      if failed then [] else pkt[readPtr..]
    }

    constructor (input: PacketTransport)
      ensures Valid() && Tail() == [] && this.input == input
    {
      this.input := input;
      size, pkt, failed, readPtr := 0, [], false, 0;
    }

    predicate HasMoreData()
      requires Valid()
      reads this
      ensures HasMoreData() <==> Tail() != []
    {
      readPtr < size
    }

    function GetPtr(): Bytes
      requires Valid()
      reads this
    {
      pkt[readPtr..]
    }

    method IncrementPtr(n: int)
      requires Valid() && !failed
      requires 0 <= n <= |Tail()|
      modifies this`readPtr
      ensures Valid() && Tail() == old(Tail())[n..]
    {
      readPtr := readPtr + n;
    }

    method ReadFrame() returns (err: bool)
      requires Valid()
      modifies this, input`incoming
      ensures Valid() && failed == err
      ensures var q := old(input.incoming);
              if q == [] then err && input.incoming == [] && Tail() == []
              else err == q[0].Broken? && input.incoming == q[1..]
                   && Tail() == if err then [] else q[0].data
    {
      size, pkt, err := input.ReadPacket();
      if err {
        size := 0;
      }
      failed := err;
      readPtr := 0;
    }
  }

  /** Go's copy into a buffer that is known to have the room. */
  method CopyInto(buf: array<Byte>, at: nat, src: Bytes)
    requires at + |src| <= buf.Length
    modifies buf
    ensures buf[..at + |src|] == old(buf[..at]) + src
  {
    forall i | 0 <= i < |src| {
      buf[at + i] := src[i];
    }
  }

  /** Go's append to a buffer filled up to `index`: in place if there is room, into a new array otherwise. */
  method AppendTo(buf: array<Byte>, index: nat, src: Bytes) returns (all: array<Byte>)
    requires index <= buf.Length
    modifies buf
    ensures all == buf || fresh(all)
    ensures index + |src| <= all.Length && all[..index + |src|] == old(buf[..index]) + src
    ensures buf[..index] == old(buf[..index])
  {
    if index + |src| <= buf.Length {
      all := buf;
      CopyInto(buf, index, src);
    } else {
      var grown := buf[..index] + src;
      all := new Byte[|grown|](i requires 0 <= i < |grown| => grown[i]);
      assert all[..|grown|] == grown;
    }
    assert buf[..index] == all[..index];
  }

  /** The payload of a reassembled message lies in this array, which nothing else refers to. */
  ghost predicate HeldIn(store: array?<Byte>, m: Message)
    reads store
  {
    store != null ==> 8 <= m.length <= store.Length && store[8..m.length] == m.body
  }

  lemma NothingHeld()
    ensures forall m :: HeldIn(null, m)
  {
  }

  /** One message out of the current frame, or out of that frame and as many more as it takes. The payload of
      a reassembled message is a slice of `store`; other payloads are slices of a frame, or come with an error. */
  method HandleMsgFrame(packet: PacketReader) returns (m: Message, panicked: bool, store: array?<Byte>)
    requires packet.Valid() && packet.HasMoreData()
    modifies packet, packet.input`incoming
    ensures packet.Valid()
    ensures var r := Handle(old(packet.Tail()), old(packet.input.incoming));
            if r.Panic? then panicked
            else !panicked && m == r.message && packet.Tail() == r.tail && packet.input.incoming == r.queue
    ensures store != null ==> fresh(store)
    ensures HeldIn(store, m)
    ensures !panicked ==> (store == null <==> HeaderOf(old(packet.Tail())).Whole? || !m.error.NoError?)
  {
    hide HeaderOf, HeldIn;
    ghost var spec := Handle(packet.Tail(), packet.input.incoming);
    m, panicked, store := Message(0, 0, [], NoError), false, null;
    NothingHeld();
    var h := HeaderOf(packet.GetPtr());
    if h.BadSize? {
      panicked := true;
      return;
    }
    if h.Whole? {
      packet.IncrementPtr(h.size);
      m := Message(h.packetType, h.size, h.body, NoError);
      return;
    }
    assert [] + packet.GetPtr() == packet.GetPtr();
    m, panicked, store := Defragment(packet);
  }

  /** One round of the fragment loop: it ends here, or goes on with one frame more. */
  lemma GatherRound(acc: Bytes, tail: Bytes, queue: seq<Read>)
    requires Incomplete(acc + tail)
    ensures var h, g := HeaderOf(acc + tail), Gather(acc, tail, queue);
            if |tail| > MAX_FRAGMENT_SIZE - |acc| then g == Produced(Failure(h, FragmentTooLarge), tail, queue)
            else if queue == [] then g == Produced(Failure(h, ReadFailed), [], [])
            else if queue[0].Broken? then g == Produced(Failure(h, ReadFailed), [], queue[1..])
            else
              var data := acc + tail + queue[0].data;
              if Incomplete(data) then g == Gather(acc + tail, queue[0].data, queue[1..])
              else if HeaderOf(data).BadSize? then g.Panic?
              else
                var size := HeaderOf(data).size;
                && 0 <= size - |acc + tail| <= |queue[0].data|
                && g == Produced(Message(HeaderOf(data).packetType, size, HeaderOf(data).body, NoError),
                                 queue[0].data[size - |acc + tail|..], queue[1..])
  {
    hide HeaderOf;
    if queue != [] && queue[0].Frame? && HeaderOf(acc + tail + queue[0].data).Whole? {
      ResumeStep(acc + tail, queue[0].data);
    }
  }

  /** Buffer what the frame holds, read the next frame, and put that behind, in the buffer if there is room. */
  method NextFragment(buf: array<Byte>, index: nat, packet: PacketReader)
    returns (filled: nat, err: bool, all: array<Byte>)
    requires packet.Valid() && !packet.failed && index + |packet.GetPtr()| <= buf.Length
    modifies buf, packet, packet.input`incoming
    ensures packet.Valid() && packet.failed == err
    ensures filled == index + |old(packet.GetPtr())| <= buf.Length
    ensures buf[..filled] == old(buf[..index] + packet.GetPtr())
    ensures var q := old(packet.input.incoming);
            if q == [] then err && packet.input.incoming == [] && packet.Tail() == []
            else err == q[0].Broken? && packet.input.incoming == q[1..]
                 && packet.Tail() == if err then [] else q[0].data
    ensures !err ==>
              && packet.GetPtr() == packet.Tail()
              && filled + |packet.GetPtr()| <= all.Length
              && all[..filled + |packet.GetPtr()|] == buf[..filled] + packet.GetPtr()
    ensures all == buf || fresh(all)
  {
    CopyInto(buf, index, packet.GetPtr());
    filled, all := index + |packet.GetPtr()|, buf;
    err := packet.ReadFrame();
    if !err {
      all := AppendTo(buf, filled, packet.GetPtr());
    }
  }

  /** The fragment loop, with its buffer. */
  method Defragment(packet: PacketReader) returns (m: Message, panicked: bool, store: array?<Byte>)
    requires packet.Valid() && packet.HasMoreData() && Incomplete([] + packet.Tail())
    modifies packet, packet.input`incoming
    ensures packet.Valid()
    ensures var r := Gather([], old(packet.Tail()), old(packet.input.incoming));
            if r.Panic? then panicked
            else !panicked && m == r.message && packet.Tail() == r.tail && packet.input.incoming == r.queue
    ensures store != null ==> fresh(store)
    ensures HeldIn(store, m)
    ensures !panicked ==> (store == null <==> !m.error.NoError?)
  {
    hide HeaderOf, HeldIn, Gather;
    ghost var spec := Gather([], packet.Tail(), packet.input.incoming);
    m, panicked, store := Message(0, 0, [], NoError), false, null;
    NothingHeld();
    var h := HeaderOf(packet.GetPtr());
    var buf := new Byte[MAX_FRAGMENT_SIZE](_ => 0);
    var index := 0;
    assert buf[..0] == [] && [] + packet.GetPtr() == packet.GetPtr();
    while true
      invariant fresh(buf) && buf.Length == MAX_FRAGMENT_SIZE
      invariant 0 <= index <= buf.Length
      invariant packet.Valid() && !packet.failed
      invariant h == HeaderOf(buf[..index] + packet.GetPtr()) && (h.Short? || h.Partial?)
      invariant spec == Gather(buf[..index], packet.GetPtr(), packet.input.incoming)
      decreases |packet.input.incoming|
    {
      ghost var acc, tail := buf[..index], packet.GetPtr();
      GatherRound(acc, tail, packet.input.incoming);
      if |packet.GetPtr()| > buf.Length - index {
        m := Failure(h, FragmentTooLarge);
        return;
      }
      var err, all;
      index, err, all := NextFragment(buf, index, packet);
      if err {
        m := Failure(h, ReadFailed);
        return;
      }
      var data := all[..index + |packet.GetPtr()|];
      h := HeaderOf(data);
      if h.BadSize? {
        panicked := true;
        return;
      }
      if h.Whole? {
        m, store := Message(h.packetType, h.size, h.body, NoError), all;
        SliceIsHeld(store, data, m);
        packet.IncrementPtr(h.size - index);
        return;
      }
    }
  }

  lemma SliceIsHeld(store: array<Byte>, data: Bytes, m: Message)
    requires HeaderOf(data).Whole? && m.body == HeaderOf(data).body && m.length == HeaderOf(data).size
    requires |data| <= store.Length && store[..|data|] == data
    ensures HeldIn(store, m)
  {
    assert data[8..m.length] == store[8..m.length];
  }

  /** Which messages of one readMessage are put together from several frames. */
  function Reassembled(tail: Bytes, queue: seq<Read>): seq<bool>
    decreases |queue|, |tail|
  {
    if tail == [] then []
    else
      match Handle(tail, queue)
      case Panic => []
      case Produced(m, tail', queue') =>
        if Stuck(tail) then [] else [!HeaderOf(tail).Whole? && m.error.NoError?] + Reassembled(tail', queue')
  }

  function ReassembledIn(queue: seq<Read>): seq<bool> {
    if queue == [] || queue[0].Broken? then [] else Reassembled(queue[0].data, queue[1..])
  }

  /** Which messages have a memory of their own. */
  function Kept(stores: seq<array?<Byte>>): (k: seq<bool>)
    ensures |k| == |stores| && forall i | 0 <= i < |stores| :: k[i] <==> stores[i] != null
  {
    seq(|stores|, i requires 0 <= i < |stores| => stores[i] != null)
  }

  /** Each payload that has a memory of its own is still what it was there, and no two share it. */
  ghost predicate AllHeld(stores: seq<array?<Byte>>, ms: seq<Message>)
    reads stores
  {
    && |stores| == |ms|
    && (forall i | 0 <= i < |ms| :: HeldIn(stores[i], ms[i]))
    && forall i, j | 0 <= i < j < |stores| && stores[i] != null :: stores[i] != stores[j]
  }

  datatype ReadStatus = ReadOk | ReadError | ReadPanic

  /** What a call amounts to with these messages in front. */
  function Prepend(ms: seq<Message>, c: Call): Call {
    if c.Messages? then Messages(ms + c.messages, c.queue) else c
  }

  /** One round of the loop, given that it ends. */
  lemma LoopRound(tail: Bytes, queue: seq<Read>, before: seq<Message>)
    requires tail != [] && !ReadLoop(tail, queue).Diverges?
    ensures var r := Handle(tail, queue);
            if r.Panic? then ReadLoop(tail, queue) == Panics
            else
              && !ReadLoop(r.tail, r.queue).Diverges?
              && Prepend(before, ReadLoop(tail, queue)) == Prepend(before + [r.message], ReadLoop(r.tail, r.queue))
              && (|r.queue| < |queue| || (r.queue == queue && |r.tail| < |tail|))
              && Reassembled(tail, queue)
              == [!HeaderOf(tail).Whole? && r.message.error.NoError?] + Reassembled(r.tail, r.queue)
    ensures Handle(tail, queue).Panic? ==> Reassembled(tail, queue) == []
  {
    hide HeaderOf, Handle;
    NoProgressIffStuck(tail, queue);
    var r := Handle(tail, queue);
    if r.Produced? {
      var later := ReadLoop(r.tail, r.queue);
      if later.Messages? {
        assert before + ([r.message] + later.messages) == before + [r.message] + later.messages;
      }
    }
  }

  lemma NoMoreRounds(queue: seq<Read>, ms: seq<Message>, c: Call)
    ensures Prepend(ms, ReadLoop([], queue)) == Messages(ms, queue)
    ensures Prepend([], c) == c && Prepend(ms, Panics) == Panics
    ensures Reassembled([], queue) == []
  {
  }

  lemma KeptOneMore(stores: seq<array?<Byte>>, store: array?<Byte>, later: seq<bool>)
    ensures Kept(stores + [store]) == Kept(stores) + [store != null]
    ensures Kept(stores) + ([store != null] + later) == Kept(stores + [store]) + later
  {
  }

  /** All messages of one or more frames; returns at the first frame end that is also a message end. The
      payloads handed up first are still what they were: each later message is put together elsewhere. */
  method ReadMessage(input: PacketTransport)
    returns (messages: seq<Message>, status: ReadStatus, stores: seq<array?<Byte>>)
    requires !ReadCall(input.incoming).Diverges?
    modifies input`incoming
    ensures match ReadCall(old(input.incoming))
            case Messages(ms, queue) => status == ReadOk && messages == ms && input.incoming == queue
            case Failed(queue) => status == ReadError && messages == [] && input.incoming == queue
            case Panics => status == ReadPanic
            case Diverges => false
    ensures status == ReadOk ==> |input.incoming| < |old(input.incoming)|
    ensures AllHeld(stores, messages)
    ensures forall i | 0 <= i < |stores| && stores[i] != null :: fresh(stores[i])
    ensures Kept(stores) == ReassembledIn(old(input.incoming))
  {
    hide HeaderOf, Handle, HeldIn, ReadLoop, Prepend, Reassembled;
    ghost var queue := input.incoming;
    messages, stores := [], [];
    var packet := new PacketReader(input);
    var err := packet.ReadFrame();
    if err {
      return messages, ReadError, stores;
    }
    ghost var spec := ReadLoop(packet.Tail(), input.incoming);
    assert spec == ReadCall(queue);
    NoMoreRounds([], [], spec);
    while packet.HasMoreData()
      invariant fresh(packet) && packet.input == input && packet.Valid()
      invariant |input.incoming| < |queue|
      invariant AllHeld(stores, messages)
      invariant forall i | 0 <= i < |stores| && stores[i] != null :: fresh(stores[i])
      invariant Kept(stores) + Reassembled(packet.Tail(), input.incoming) == ReassembledIn(queue)
      invariant !ReadLoop(packet.Tail(), input.incoming).Diverges?
      invariant spec == Prepend(messages, ReadLoop(packet.Tail(), input.incoming))
      decreases |input.incoming|, |packet.Tail()|
    {
      ghost var tail, left := packet.Tail(), input.incoming;
      LoopRound(tail, left, messages);
      NoMoreRounds([], messages, spec);
      var m, panicked, store := HandleMsgFrame(packet);
      if panicked {
        return messages, ReadPanic, stores;
      }
      KeptOneMore(stores, store, Reassembled(packet.Tail(), input.incoming));
      messages, stores := messages + [m], stores + [store];
    }
    NoMoreRounds(input.incoming, messages, spec);
    return messages, ReadOk, stores;
  }

  /** createPacket: header fields written one after the other, then the data. */
  method CreatePacket(packetType: nat, data: Bytes) returns (packet: Bytes)
    ensures packet == Encode(Packet(packetType, data))
  {
    var size := |data| + 8;
    var buf := Put16(packetType);
    buf := buf + Put16(0);
    buf := buf + Put32(size);
    packet := buf + data;
  }
}
