/** Framing independence: however a stream of packets is cut into frames, reading gives the packets back. */
module Delivery {
  import opened Bytes
  import opened Framing

  datatype Packet = Packet(packetType: nat, body: Bytes) {
    /** The header's fields hold the packet's type and size without truncation. */
    predicate Fits() {
      packetType < 0x1_0000 && |body| + 8 < 0x1_0000_0000
    }
  }

  /** What createPacket writes. */
  function Encode(p: Packet): (e: Bytes)
    ensures |e| == |p.body| + 8
  {
    Put16(p.packetType) + Put16(0) + Put32(|p.body| + 8) + p.body
  }

  function EncodeAll(ps: seq<Packet>): Bytes {
    if ps == [] then [] else Encode(ps[0]) + EncodeAll(ps[1..])
  }

  predicate AllFit(ps: seq<Packet>) {
    forall p | p in ps :: p.Fits()
  }

  /** The message a reader makes of a packet that reached it whole. */
  function Arrival(p: Packet): Message {
    Message(p.packetType, |p.body| + 8, p.body, NoError)
  }

  function Arrivals(ps: seq<Packet>): (ms: seq<Message>)
    ensures |ms| == |ps|
    ensures forall i | 0 <= i < |ps| :: ms[i] == Arrival(ps[i])
  {
    if ps == [] then [] else [Arrival(ps[0])] + Arrivals(ps[1..])
  }

  function Frames(fs: seq<Bytes>): (q: seq<Read>)
    ensures |q| == |fs|
    ensures forall i | 0 <= i < |fs| :: q[i] == Frame(fs[i])
  {
    seq(|fs|, i requires 0 <= i < |fs| => Frame(fs[i]))
  }

  lemma FramesTail(fs: seq<Bytes>, k: nat)
    requires k <= |fs|
    ensures Frames(fs)[k..] == Frames(fs[k..])
  {
  }

  // ---- the header of a packet ----

  lemma HeaderOfPacket(p: Packet, post: Bytes)
    requires p.Fits()
    ensures HeaderOf(Encode(p) + post) == Whole(p.packetType, |Encode(p)|, p.body)
  {
    var all := Encode(p) + post;
    var rest := Put16(0) + Put32(|p.body| + 8) + p.body + post;
    Get16OfPut16(p.packetType, [], rest);
    assert all == [] + Put16(p.packetType) + rest;
    SizeOfPacket(p, post);
    assert all[8..|Encode(p)|] == p.body;
  }

  lemma SizeOfPacket(p: Packet, post: Bytes)
    requires p.Fits()
    ensures Get32(Encode(p) + post, 4) == |p.body| + 8
  {
    var start := Put16(p.packetType) + Put16(0);
    Get32OfPut32(|p.body| + 8, start, p.body + post);
    assert Encode(p) + post == start + Put32(|p.body| + 8) + (p.body + post);
  }

  lemma HeaderOfPrefix(p: Packet, d: Bytes)
    requires p.Fits()
    requires d < Encode(p)
    ensures Incomplete(d)
  {
    HeaderOfPacket(p, []);
    var e := Encode(p);
    assert e + [] == e;
    if |d| >= 8 {
      assert d[4] == e[4] && d[5] == e[5] && d[6] == e[6] && d[7] == e[7];
    }
  }

  // ---- one packet out of fragments ----

  /** Cutting a stream that starts with `e` past the end of `e`. */
  lemma SplitAfter(head: Bytes, later: Bytes, e: Bytes, post: Bytes)
    requires head + later == e + post
    requires |e| <= |head|
    ensures head == e + head[|e|..]
    ensures head[|e|..] + later == post
  {
    assert e == (e + post)[..|e|] == head[..|e|];
    assert post == (e + post)[|e|..] == (head + later)[|e|..];
  }

  lemma SplitBefore(head: Bytes, later: Bytes, e: Bytes, post: Bytes)
    requires head + later == e + post
    requires |head| < |e|
    ensures head < e
  {
    assert head == (head + later)[..|head|] == (e + post)[..|head|] == e[..|head|];
  }

  /** The frame that completes the packet. */
  lemma GatherCompletes(acc: Bytes, tail: Bytes, fs: seq<Bytes>, p: Packet)
    returns (rest: Bytes)
    requires p.Fits() && |Encode(p)| <= MAX_FRAGMENT_SIZE + 1
    requires acc + tail < Encode(p)
    requires fs != [] && Encode(p) <= acc + tail + fs[0]
    ensures Incomplete(acc + tail)
    ensures rest == (acc + tail + fs[0])[|Encode(p)|..]
    ensures Gather(acc, tail, Frames(fs)) == Produced(Arrival(p), rest, Frames(fs[1..]))
  {
    HeaderOfPrefix(p, acc + tail);
    var all, n := acc + tail + fs[0], |Encode(p)|;
    rest := all[n..];
    assert all == Encode(p) + rest;
    HeaderOfPacket(p, rest);
    assert rest == fs[0][n - |acc + tail|..];
    FramesTail(fs, 1);
  }

  /** A frame that does not. */
  lemma GatherContinues(acc: Bytes, tail: Bytes, fs: seq<Bytes>, p: Packet)
    requires p.Fits() && |Encode(p)| <= MAX_FRAGMENT_SIZE + 1
    requires acc + tail < Encode(p)
    requires fs != [] && acc + tail + fs[0] < Encode(p)
    ensures Incomplete(acc + tail) && Incomplete(acc + tail + fs[0])
    ensures Gather(acc, tail, Frames(fs)) == Gather(acc + tail, fs[0], Frames(fs[1..]))
  {
    HeaderOfPrefix(p, acc + tail);
    HeaderOfPrefix(p, acc + tail + fs[0]);
    FramesTail(fs, 1);
  }

  lemma {:induction false} GatherDelivers(acc: Bytes, tail: Bytes, fs: seq<Bytes>, p: Packet, post: Bytes)
    returns (g: nat, rest: Bytes)
    requires p.Fits() && |Encode(p)| <= MAX_FRAGMENT_SIZE + 1
    requires acc + tail < Encode(p)
    requires acc + tail + Concat(fs) == Encode(p) + post
    ensures Incomplete(acc + tail)
    ensures 1 <= g <= |fs|
    ensures Gather(acc, tail, Frames(fs)) == Produced(Arrival(p), rest, Frames(fs[g..]))
    ensures rest + Concat(fs[g..]) == post
    ensures |acc + tail + Concat(fs[..g - 1])| < |Encode(p)|
    decreases |fs|
  {
    hide Encode, HeaderOf, Gather, Incomplete, Concat;
    var e := Encode(p);
    MoreToCome(acc, tail, fs, e, post);
    var all := acc + tail + fs[0];
    if |all| < |e| {
      SplitBefore(all, Concat(fs[1..]), e, post);
      GatherContinues(acc, tail, fs, p);
      g, rest := GatherDelivers(acc + tail, fs[0], fs[1..], p, post);
      assert fs[1..][g..] == fs[g + 1..];
      FramesFromFirst(acc, tail, fs, g);
      g := g + 1;
    } else {
      SplitAfter(all, Concat(fs[1..]), e, post);
      rest := GatherCompletes(acc, tail, fs, p);
      g := 1;
      FramesFromFirst(acc, tail, fs, 0);
    }
  }

  /** Fragments that are not the packet yet are followed by a frame. */
  lemma MoreToCome(acc: Bytes, tail: Bytes, fs: seq<Bytes>, e: Bytes, post: Bytes)
    requires acc + tail < e && acc + tail + Concat(fs) == e + post
    ensures fs != [] && acc + tail + fs[0] + Concat(fs[1..]) == e + post
  {
    assert |acc + tail + Concat(fs)| >= |e|;
  }

  lemma FramesFromFirst(acc: Bytes, tail: Bytes, fs: seq<Bytes>, g: nat)
    requires fs != [] && g <= |fs|
    ensures g > 0 ==> acc + tail + Concat(fs[..g]) == acc + tail + fs[0] + Concat(fs[1..][..g - 1])
    ensures g == 0 ==> acc + tail + Concat(fs[..g]) == acc + tail
  {
    if g > 0 {
      assert fs[..g] == [fs[0]] + fs[1..][..g - 1];
    }
  }

  // ---- whole reads ----

  /** Every packet is small enough to be buffered however it is cut. */
  predicate AllDeliverable(ps: seq<Packet>) {
    forall p | p in ps :: p.Fits() && |Encode(p)| <= MAX_FRAGMENT_SIZE + 1
  }

  /** Byte `n` of the stream is where some packet ends and the next begins. */
  predicate Boundary(ps: seq<Packet>, n: nat) {
    exists j | 0 <= j <= |ps| :: |EncodeAll(ps[..j])| == n
  }

  lemma {:induction false} EncodeAllSplit(ps: seq<Packet>, j: nat)
    requires j <= |ps|
    ensures EncodeAll(ps) == EncodeAll(ps[..j]) + EncodeAll(ps[j..])
  {
    hide Encode;
    if j == 0 {
      assert ps[..0] == [] && ps[0..] == ps;
    } else {
      EncodeAllSplit(ps[1..], j - 1);
      assert ps[..j][1..] == ps[1..][..j - 1] && ps[1..][j - 1..] == ps[j..];
    }
  }

  lemma {:induction false} ArrivalsSplit(ps: seq<Packet>, j: nat)
    requires j <= |ps|
    ensures Arrivals(ps) == Arrivals(ps[..j]) + Arrivals(ps[j..])
  {
  }

  lemma {:induction false} ConcatMonotone(fs: seq<Bytes>, i: nat, k: nat)
    requires i <= k <= |fs|
    ensures |Concat(fs[..i])| <= |Concat(fs[..k])|
  {
    ConcatAppend(fs[..i], fs[i..k]);
    assert fs[..k] == fs[..i] + fs[i..k];
  }

  /** A position strictly inside the first packet is no boundary. */
  lemma InsideFirst(ps: seq<Packet>, n: nat)
    requires ps != [] && 0 < n < |Encode(ps[0])|
    ensures !Boundary(ps, n)
  {
    forall j | 0 <= j <= |ps| ensures |EncodeAll(ps[..j])| != n {
      if j > 0 { assert ps[..j][0] == ps[0]; }
    }
  }

  /** A position after the first packet is a boundary only if it is one of the packets that follow. */
  lemma PastFirst(ps: seq<Packet>, n: nat)
    requires ps != [] && !Boundary(ps[1..], n) && n > 0
    ensures !Boundary(ps, |Encode(ps[0])| + n)
  {
    forall j | 0 <= j <= |ps| ensures |EncodeAll(ps[..j])| != |Encode(ps[0])| + n {
      if j > 0 {
        assert ps[..j][0] == ps[0] && ps[..j][1..] == ps[1..][..j - 1];
      }
    }
  }

  lemma NotBoundaryIsPositive(ps: seq<Packet>, n: nat)
    requires !Boundary(ps, n)
    ensures n > 0
  {
    assert |EncodeAll(ps[..0])| == 0;
  }

  lemma WholeInTail(tail: Bytes, fs: seq<Bytes>, p: Packet)
    requires p.Fits() && Encode(p) <= tail
    ensures Handle(tail, Frames(fs)) == Produced(Arrival(p), tail[|Encode(p)|..], Frames(fs))
    ensures !Stuck(tail)
  {
    hide HeaderOf;
    HeaderOfPacket(p, tail[|Encode(p)|..]);
    assert tail == Encode(p) + tail[|Encode(p)|..];
  }

  lemma CutInTail(tail: Bytes, fs: seq<Bytes>, p: Packet)
    requires p.Fits() && |Encode(p)| <= MAX_FRAGMENT_SIZE + 1
    requires tail != [] && tail < Encode(p)
    ensures Incomplete([] + tail)
    ensures Handle(tail, Frames(fs)) == Gather([], tail, Frames(fs))
    ensures !Stuck(tail)
  {
    hide Encode, HeaderOf, Gather;
    assert [] + tail == tail;
    HeaderOfPrefix(p, tail);
  }

  /** Handing over one packet: `k` frames further, still the same stream, no boundary passed. */
  lemma HandleDelivers(tail: Bytes, fs: seq<Bytes>, ps: seq<Packet>)
    returns (k: nat, rest: Bytes)
    requires AllDeliverable(ps) && tail != []
    requires tail + Concat(fs) == EncodeAll(ps)
    ensures ps != [] && k <= |fs|
    ensures Handle(tail, Frames(fs)) == Produced(Arrival(ps[0]), rest, Frames(fs[k..]))
    ensures rest + Concat(fs[k..]) == EncodeAll(ps[1..])
    ensures tail + Concat(fs[..k]) == Encode(ps[0]) + rest
    ensures k > 0 ==> |tail + Concat(fs[..k - 1])| < |Encode(ps[0])|
    ensures !Stuck(tail)
  {
    hide Encode, HeaderOf, Handle, Gather, Stuck, Arrival;
    var e, post := Encode(ps[0]), EncodeAll(ps[1..]);
    assert ps[0] in ps;
    if |e| <= |tail| {
      SplitAfter(tail, Concat(fs), e, post);
      k, rest := 0, tail[|e|..];
      WholeInTail(tail, fs, ps[0]);
      assert fs[0..] == fs && fs[..0] == [];
      assert tail + Concat(fs[..0]) == tail;
    } else {
      SplitBefore(tail, Concat(fs), e, post);
      assert [] + tail == tail;
      CutInTail(tail, fs, ps[0]);
      k, rest := GatherDelivers([], tail, fs, ps[0], post);
      SameStream(tail, fs, k, e, rest, post);
      assert [] + tail + Concat(fs[..k - 1]) == tail + Concat(fs[..k - 1]);
    }
  }

  lemma SameStream(tail: Bytes, fs: seq<Bytes>, k: nat, e: Bytes, rest: Bytes, post: Bytes)
    requires k <= |fs|
    requires tail + Concat(fs) == e + post
    requires rest + Concat(fs[k..]) == post
    ensures tail + Concat(fs[..k]) == e + rest
  {
    hide Concat;
    ConcatAppend(fs[..k], fs[k..]);
    assert fs == fs[..k] + fs[k..];
    SameStart(tail, Concat(fs[..k]), Concat(fs[k..]), e, rest);
  }

  /** The bytes of `k` frames, the first `g` of them separately. */
  lemma ConcatPrefix(tail: Bytes, fs: seq<Bytes>, g: nat, k: nat, e: Bytes, rest: Bytes)
    requires g <= k <= |fs|
    requires tail + Concat(fs[..g]) == e + rest
    ensures tail + Concat(fs[..k]) == e + (rest + Concat(fs[g..][..k - g]))
  {
    var later := Concat(fs[g..][..k - g]);
    ConcatAppend(fs[..g], fs[g..][..k - g]);
    assert fs[..k] == fs[..g] + fs[g..][..k - g];
    assert tail + (Concat(fs[..g]) + later) == (tail + Concat(fs[..g])) + later;
    assert (e + rest) + later == e + (rest + later);
  }

  /** No frame before the `k`-th ends on a boundary, if that holds for the frames after the first packet. */
  lemma NoBoundaryBefore(tail: Bytes, fs: seq<Bytes>, ps: seq<Packet>, g: nat, k: nat, rest: Bytes, i: nat)
    requires ps != [] && tail != [] && i < k && g <= k <= |fs|
    requires tail + Concat(fs[..g]) == Encode(ps[0]) + rest
    requires g > 0 ==> |tail + Concat(fs[..g - 1])| < |Encode(ps[0])|
    requires i >= g ==> !Boundary(ps[1..], |rest + Concat(fs[g..][..i - g])|)
    ensures !Boundary(ps, |tail + Concat(fs[..i])|)
  {
    hide Encode;
    if i < g {
      ConcatMonotone(fs, i, g - 1);
      InsideFirst(ps, |tail + Concat(fs[..i])|);
    } else {
      ConcatPrefix(tail, fs, g, i, Encode(ps[0]), rest);
      var n := |rest + Concat(fs[g..][..i - g])|;
      NotBoundaryIsPositive(ps[1..], n);
      PastFirst(ps, n);
    }
  }

  lemma ReadLoopStep(tail: Bytes, queue: seq<Read>, m: Message, tail': Bytes, queue': seq<Read>)
    requires tail != [] && !Stuck(tail)
    requires Handle(tail, queue) == Produced(m, tail', queue')
    requires ReadLoop(tail', queue').Messages?
    ensures ReadLoop(tail, queue)
         == Messages([m] + ReadLoop(tail', queue').messages, ReadLoop(tail', queue').queue)
  {
    hide HeaderOf, Handle;
  }

  lemma NothingToRead(fs: seq<Bytes>, ps: seq<Packet>)
    ensures ReadLoop([], Frames(fs)) == Messages(Arrivals(ps[..0]), Frames(fs[0..]))
    ensures [] + Concat(fs[..0]) == EncodeAll(ps[..0])
  {
    assert fs[0..] == fs;
  }

  lemma ArrivalsCons(ps: seq<Packet>, j: nat)
    requires 0 < j <= |ps|
    ensures Arrivals(ps[..j]) == [Arrival(ps[0])] + Arrivals(ps[1..][..j - 1])
    ensures EncodeAll(ps[..j]) == Encode(ps[0]) + EncodeAll(ps[1..][..j - 1])
  {
    hide Encode;
    assert ps[..j][1..] == ps[1..][..j - 1];
  }

  lemma {:induction false} ReadLoopDelivers(tail: Bytes, fs: seq<Bytes>, ps: seq<Packet>)
    returns (k: nat, j: nat)
    requires AllDeliverable(ps)
    requires tail + Concat(fs) == EncodeAll(ps)
    ensures k <= |fs| && j <= |ps|
    ensures ReadLoop(tail, Frames(fs)) == Messages(Arrivals(ps[..j]), Frames(fs[k..]))
    ensures tail + Concat(fs[..k]) == EncodeAll(ps[..j])
    ensures forall i | 0 <= i < k :: !Boundary(ps, |tail + Concat(fs[..i])|)
    decreases |ps|
  {
    hide Encode, EncodeAll, HeaderOf, Handle, Boundary, ReadLoop, Stuck, Arrival, Concat;
    if tail == [] {
      k, j := 0, 0;
      NothingToRead(fs, ps);
    } else {
      var g, rest := HandleDelivers(tail, fs, ps);
      var k', j' := ReadLoopDelivers(rest, fs[g..], ps[1..]);
      k, j := g + k', j' + 1;
      assert fs[g..][k'..] == fs[k..];
      ArrivalsCons(ps, j);
      ReadLoopStep(tail, Frames(fs), Arrival(ps[0]), rest, Frames(fs[g..]));
      ConcatPrefix(tail, fs, g, k, Encode(ps[0]), rest);
      forall i | 0 <= i < k ensures !Boundary(ps, |tail + Concat(fs[..i])|) {
        NoBoundaryBefore(tail, fs, ps, g, k, rest, i);
      }
    }
  }

  /** One readMessage returns at the first frame end that is also a packet end, with the packets up to it. */
  lemma ReadStopsAtFirstBoundary(fs: seq<Bytes>, ps: seq<Packet>)
    returns (k: nat, j: nat)
    requires AllDeliverable(ps) && fs != []
    requires Concat(fs) == EncodeAll(ps)
    ensures 1 <= k <= |fs| && j <= |ps|
    ensures ReadCall(Frames(fs)) == Messages(Arrivals(ps[..j]), Frames(fs[k..]))
    ensures Concat(fs[..k]) == EncodeAll(ps[..j])
    ensures TotalLength(Arrivals(ps[..j])) == |Concat(fs[..k])|
    ensures forall i | 1 <= i < k :: !Boundary(ps, |Concat(fs[..i])|)
  {
    hide Encode, EncodeAll, HeaderOf, ReadLoop, Boundary, TotalLength;
    var k';
    k', j := ReadLoopDelivers(fs[0], fs[1..], ps);
    k := k' + 1;
    FramesTail(fs, 1);
    LengthsAreWireBytes(ps[..j]);
    assert fs[1..][k'..] == fs[k..];
    assert fs[..k] == [fs[0]] + fs[1..][..k'];
    forall i | 1 <= i < k ensures !Boundary(ps, |Concat(fs[..i])|) {
      assert fs[..i] == [fs[0]] + fs[1..][..i - 1];
      assert Concat(fs[..i]) == fs[0] + Concat(fs[1..][..i - 1]);
    }
  }

  /** Repeated reading gives back exactly the packets, in order and without error, however they were cut. */
  lemma {:induction false} FramingIndependence(fs: seq<Bytes>, ps: seq<Packet>)
    requires AllDeliverable(ps)
    requires Concat(fs) == EncodeAll(ps)
    ensures AllReads(Frames(fs)) == Transcript(Arrivals(ps), TransportFailed)
    decreases |fs|
  {
    hide Encode, HeaderOf, ReadLoop, Boundary, Arrivals;
    if fs == [] {
      assert ps == [] && Arrivals(ps) == [];
    } else {
      var k, j := ReadStopsAtFirstBoundary(fs, ps);
      LeftToRead(fs, ps, k, j);
      assert forall q | q in ps[j..] :: q in ps;
      FramingIndependence(fs[k..], ps[j..]);
      ArrivalsSplit(ps, j);
      OneRead(fs, Arrivals(ps[..j]), Arrivals(ps[j..]), fs[k..]);
    }
  }

  /** After a read that took `k` frames and `j` packets, the rest of the frames cut the rest of the packets. */
  lemma LeftToRead(fs: seq<Bytes>, ps: seq<Packet>, k: nat, j: nat)
    requires k <= |fs| && j <= |ps|
    requires Concat(fs) == EncodeAll(ps) && Concat(fs[..k]) == EncodeAll(ps[..j])
    ensures Concat(fs[k..]) == EncodeAll(ps[j..])
  {
    hide Concat, EncodeAll;
    ConcatAppend(fs[..k], fs[k..]);
    assert fs == fs[..k] + fs[k..];
    EncodeAllSplit(ps, j);
    SameRest(Concat(fs[..k]), Concat(fs[k..]), EncodeAll(ps[j..]));
  }

  lemma SameRest(a: Bytes, b: Bytes, c: Bytes)
    requires a + b == a + c
    ensures b == c
  {
    assert b == (a + b)[|a|..] == (a + c)[|a|..] == c;
  }

  lemma {:induction false} OneRead(fs: seq<Bytes>, ms: seq<Message>, later: seq<Message>, rest: seq<Bytes>)
    requires ReadCall(Frames(fs)) == Messages(ms, Frames(rest)) && |rest| < |fs|
    requires AllReads(Frames(rest)) == Transcript(later, TransportFailed)
    ensures AllReads(Frames(fs)) == Transcript(ms + later, TransportFailed)
  {
    hide ReadCall;
  }

  function TotalLength(ms: seq<Message>): nat {
    if ms == [] then 0 else ms[0].length + TotalLength(ms[1..])
  }

  /** The lengths a tunnel adds up are exactly the bytes that were on the wire. */
  lemma {:induction false} LengthsAreWireBytes(ps: seq<Packet>)
    ensures TotalLength(Arrivals(ps)) == |EncodeAll(ps)|
  {
    hide Encode;
    if ps != [] {
      LengthsAreWireBytes(ps[1..]);
      assert Arrivals(ps)[1..] == Arrivals(ps[1..]);
    }
  }

  // ---- the bound on packet sizes is exact ----

  /** Reading gives the packets back for every way of cutting their stream. */
  ghost predicate DeliveredHoweverCut(ps: seq<Packet>) {
    forall fs: seq<Bytes> ::
      Concat(fs) == EncodeAll(ps) ==> AllReads(Frames(fs)) == Transcript(Arrivals(ps), TransportFailed)
  }

  /** One frame per packet, except that packet `i` is cut one byte past the fragment limit. */
  function LateCut(ps: seq<Packet>, i: nat): seq<Bytes>
    requires i < |ps| && |Encode(ps[i])| > MAX_FRAGMENT_SIZE + 1
  {
    var e := Encode(ps[0]);
    if i == 0 then [e[..MAX_FRAGMENT_SIZE + 1], e[MAX_FRAGMENT_SIZE + 1..] + EncodeAll(ps[1..])]
    else [e] + LateCut(ps[1..], i - 1)
  }

  lemma WholeFrameRead(p: Packet, fs: seq<Bytes>)
    requires p.Fits() && fs != [] && fs[0] == Encode(p)
    ensures ReadCall(Frames(fs)) == Messages([Arrival(p)], Frames(fs[1..]))
  {
    HeaderOfPacket(p, []);
    var e := Encode(p);
    assert e + [] == e && e[|e|..] == [];
    FramesTail(fs, 1);
    var q := Frames(fs)[1..];
    assert Handle(e, q) == Produced(Arrival(p), [], q);
    NoProgressIffStuck(e, q);
    assert ReadLoop([], q) == Messages([], q);
    assert ReadLoop(e, q) == Messages([Arrival(p)] + [], q);
  }

  lemma StuckFrameHangs(fs: seq<Bytes>)
    requires fs != [] && Stuck(fs[0])
    ensures AllReads(Frames(fs)) == Transcript([], Hung)
  {
    NoProgressIffStuck(fs[0], Frames(fs)[1..]);
    assert ReadCall(Frames(fs)) == Diverges;
  }

  lemma {:induction false} LateCutHangs(ps: seq<Packet>, i: nat)
    requires AllFit(ps)
    requires i < |ps| && |Encode(ps[i])| > MAX_FRAGMENT_SIZE + 1
    ensures Concat(LateCut(ps, i)) == EncodeAll(ps)
    ensures AllReads(Frames(LateCut(ps, i))).end == Hung
    decreases i
  {
    hide Encode, HeaderOf;
    var fs, e := LateCut(ps, i), Encode(ps[0]);
    assert ps[0] in ps;
    if i == 0 {
      HeaderOfPrefix(ps[0], fs[0]);
      StuckFrameHangs(fs);
      assert Concat(fs[1..]) == fs[1];
      assert e == fs[0] + e[MAX_FRAGMENT_SIZE + 1..];
    } else {
      LateCutHangs(ps[1..], i - 1);
      WholeFrameRead(ps[0], fs);
      assert fs[1..] == LateCut(ps[1..], i - 1);
    }
  }

  /** The fragment limit is exact: every cutting is read back if and only if no packet exceeds 65537 bytes. */
  lemma FragmentLimitIsExact(ps: seq<Packet>)
    requires AllFit(ps)
    ensures DeliveredHoweverCut(ps) <==> forall p | p in ps :: |Encode(p)| <= MAX_FRAGMENT_SIZE + 1
  {
    hide Encode, EncodeAll, Arrivals, AllReads, Concat;
    if forall p | p in ps :: |Encode(p)| <= MAX_FRAGMENT_SIZE + 1 {
      forall fs: seq<Bytes> | Concat(fs) == EncodeAll(ps)
        ensures AllReads(Frames(fs)) == Transcript(Arrivals(ps), TransportFailed)
      {
        FramingIndependence(fs, ps);
      }
    } else {
      var p :| p in ps && |Encode(p)| > MAX_FRAGMENT_SIZE + 1;
      var i: nat :| i < |ps| && ps[i] == p;
      LateCutHangs(ps, i);
    }
  }
}
