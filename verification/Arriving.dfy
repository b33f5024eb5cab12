/** Reading what has arrived so far: a read that did not run into the end of it is not affected by what
    arrives later, so over a stream of packets every read that returns has read whole packets. */
module Arriving {
  import opened Bytes
  import opened Framing
  import opened Delivery

  /** The read returned without asking for more than had arrived. */
  predicate Returned(ms: seq<Message>) {
    forall m | m in ms :: !m.error.ReadFailed?
  }

  lemma {:induction false} GatherExtends(acc: Bytes, tail: Bytes, queue: seq<Read>, more: seq<Read>)
    requires Incomplete(acc + tail)
    requires var r := Gather(acc, tail, queue); r.Produced? && !r.message.error.ReadFailed?
    ensures var r := Gather(acc, tail, queue);
            Gather(acc, tail, queue + more) == Produced(r.message, r.tail, r.queue + more)
    decreases |queue|
  {
    hide HeaderOf;
    if |tail| <= MAX_FRAGMENT_SIZE - |acc| {
      var frame := queue[0].data;
      assert (queue + more)[0] == queue[0] && (queue + more)[1..] == queue[1..] + more;
      if Incomplete(acc + tail + frame) {
        GatherExtends(acc + tail, frame, queue[1..], more);
      }
    }
  }

  lemma HandleExtends(tail: Bytes, queue: seq<Read>, more: seq<Read>)
    requires tail != []
    requires var r := Handle(tail, queue); r.Produced? && !r.message.error.ReadFailed?
    ensures var r := Handle(tail, queue);
            Handle(tail, queue + more) == Produced(r.message, r.tail, r.queue + more)
  {
    hide HeaderOf;
    if Incomplete(tail) {
      assert [] + tail == tail;
      GatherExtends([], tail, queue, more);
    }
  }

  lemma {:induction false} ReadLoopExtends(tail: Bytes, queue: seq<Read>, more: seq<Read>)
    requires var c := ReadLoop(tail, queue); c.Messages? && Returned(c.messages)
    ensures var c := ReadLoop(tail, queue);
            ReadLoop(tail, queue + more) == Messages(c.messages, c.queue + more)
    decreases |queue|, |tail|
  {
    if tail != [] {
      var r, c := Handle(tail, queue), ReadLoop(tail, queue);
      hide HeaderOf, Handle, Stuck;
      NoProgressIffStuck(tail, queue);
      assert c.messages[0] == r.message && c.messages[1..] == ReadLoop(r.tail, r.queue).messages;
      assert r.message in c.messages;
      HandleExtends(tail, queue, more);
      assert forall m | m in c.messages[1..] :: m in c.messages;
      ReadLoopExtends(r.tail, r.queue, more);
    }
  }

  lemma ReadExtends(queue: seq<Read>, more: seq<Read>)
    requires var c := ReadCall(queue); c.Messages? && Returned(c.messages)
    ensures var c := ReadCall(queue);
            ReadCall(queue + more) == Messages(c.messages, c.queue + more)
  {
    ReadLoopExtends(queue[0].data, queue[1..], more);
    assert (queue + more)[1..] == queue[1..] + more;
  }

  /** From a stream of packets of which `fs` has arrived, a read that returns has consumed whole packets. */
  lemma ReadsWholePackets(fs: seq<Bytes>, post: Bytes, ps: seq<Packet>, ms: seq<Message>) returns (j: nat)
    requires AllDeliverable(ps)
    requires Concat(fs) + post == EncodeAll(ps)
    requires ReadCall(Frames(fs)) == Messages(ms, []) && Returned(ms)
    ensures j <= |ps| && ms == Arrivals(ps[..j])
    ensures Concat(fs) == EncodeAll(ps[..j]) && post == EncodeAll(ps[j..])
  {
    hide ReadCall, Encode, EncodeAll;
    assert fs != [] by {
      if fs == [] { NoFramesNoMessages(); }
    }
    var all := fs + [post];
    ConcatSnoc(fs, post);
    assert Frames(all) == Frames(fs) + [Frame(post)];
    ReadExtends(Frames(fs), [Frame(post)]);
    var k;
    k, j := ReadStopsAtFirstBoundary(all, ps);
    assert [] + [Frame(post)] == Frames(all[k..]);
    assert |all[k..]| == 1;
    assert all[..k] == fs;
    EncodeAllSplit(ps, j);
    assert post == (Concat(fs) + post)[|Concat(fs)|..];
  }

  lemma NoFramesNoMessages()
    ensures ReadCall(Frames([])) == Failed([])
  {
    assert Frames([]) == [];
  }
}
