/** The two writers of a tunnel, the session's loop and the forwarder's, in every interleaving. */
module Interleaving {
  import opened Bytes
  import opened Framing
  import opened Delivery
  import opened Relay
  import opened RdgPackets
  import opened Session
  import opened SessionLaws

  /** `todo` is what the loop still has to do about the message it took last, `done` what it did so far. */
  datatype Writers = Writers(
    state: nat, verdict: Verdict, taken: seq<Message>, left: seq<Message>,
    todo: seq<Event>, done: seq<Event>,
    forwarding: bool, chunks: seq<Bytes>, out: seq<Packet>)

  datatype Move = TakeMessage | DoNext | ForwardChunk(chunk: Bytes)

  function Begin(ms: seq<Message>): Writers {
    Writers(INITIALIZED, Continue, [], ms, [], [], false, [], [])
  }

  predicate CanMove(w: Writers, m: Move) {
    match m
    case TakeMessage => w.todo == [] && w.verdict.Continue? && w.left != []
    case DoNext => w.todo != []
    case ForwardChunk(chunk) => w.forwarding && |chunk| <= FORWARD_BUFFER
  }

  function After(p: Policy, w: Writers, m: Move): Writers
    requires CanMove(w, m)
  {
    match m
    case TakeMessage =>
      var s := Step(p, w.state, w.left[0]);
      w.(state := s.state, verdict := s.verdict, taken := w.taken + [w.left[0]], left := w.left[1..], todo := s.events)
    case DoNext =>
      var e := w.todo[0];
      w.(todo := w.todo[1..], done := w.done + [e],
         forwarding := w.forwarding || e.ForwardStarted?,
         out := if e.Sent? then w.out + [e.packet] else w.out)
    case ForwardChunk(chunk) =>
      w.(chunks := w.chunks + [chunk], out := w.out + [Wrap(chunk)])
  }

  ghost predicate CanReach(p: Policy, ms: seq<Message>, w: Writers, n: nat)
    decreases n
  {
    if n == 0 then w == Begin(ms)
    else exists v: Writers, m: Move :: CanReach(p, ms, v, n - 1) && CanMove(v, m) && w == After(p, v, m)
  }

  /** The packets of one writer, in the order they went out. */
  function Select(ps: seq<Packet>, data: bool): seq<Packet> {
    if ps == [] then [] else Kept(ps[0], data) + Select(ps[1..], data)
  }

  function Kept(q: Packet, data: bool): seq<Packet> {
    if (q.packetType == PKT_TYPE_DATA) == data then [q] else []
  }

  function DataOf(ps: seq<Packet>): seq<Packet> {
    Select(ps, true)
  }

  function ControlOf(ps: seq<Packet>): seq<Packet> {
    Select(ps, false)
  }

  lemma {:induction false} SelectAppend(ps: seq<Packet>, q: Packet, data: bool)
    ensures Select(ps + [q], data) == Select(ps, data) + Kept(q, data)
  {
    hide Kept;
    if ps == [] {
      assert [] + [q] == [q] && [q][1..] == [];
      assert Select([q], data) == Kept(q, data) + [];
    } else {
      var first, later := Kept(ps[0], data), Select(ps[1..], data);
      assert (ps + [q])[0] == ps[0] && (ps + [q])[1..] == ps[1..] + [q];
      SelectAppend(ps[1..], q, data);
      assert first + (later + Kept(q, data)) == (first + later) + Kept(q, data);
    }
  }

  lemma OutAppend(ps: seq<Packet>, q: Packet)
    ensures DataOf(ps + [q]) == DataOf(ps) + if q.packetType == PKT_TYPE_DATA then [q] else []
    ensures ControlOf(ps + [q]) == ControlOf(ps) + if q.packetType == PKT_TYPE_DATA then [] else [q]
  {
    hide Select;
    SelectAppend(ps, q, true);
    SelectAppend(ps, q, false);
  }

  /** The forwarder is started right after the response that tells the client so. */
  predicate AnnouncedFirst(es: seq<Event>) {
    forall i | 0 <= i < |es| && es[i].ForwardStarted? :: i > 0 && es[i - 1] == Sent(ChannelResponse(ERROR_SUCCESS))
  }

  predicate OnlyControl(es: seq<Event>) {
    forall e | e in es && e.Sent? :: e.packet.packetType != PKT_TYPE_DATA
  }

  lemma StepAnnounces(p: Policy, state: nat, m: Message)
    ensures AnnouncedFirst(Step(p, state, m).events) && OnlyControl(Step(p, state, m).events)
  {
    hide HandshakeResponse, TunnelResponse, TunnelAuthResponse, ChannelResponse, ChannelCloseResponse;
    hide AuthIn, CookieIn, NameIn, HostIn, Shares, MajorIn, MinorIn, RedirectBits, Unwrapped;
  }

  lemma AnnouncedAppend(a: seq<Event>, b: seq<Event>)
    requires AnnouncedFirst(a) && AnnouncedFirst(b)
    ensures AnnouncedFirst(a + b)
  {
    hide ChannelResponse;
    var all := a + b;
    forall i | 0 <= i < |all| && all[i].ForwardStarted?
      ensures i > 0 && all[i - 1] == Sent(ChannelResponse(ERROR_SUCCESS))
    {
      if i >= |a| { assert all[i] == b[i - |a|]; }
    }
  }

  /** Every DATA packet has a successful channel response before it. */
  predicate DataAnnounced(out: seq<Packet>) {
    forall i | 0 <= i < |out| && out[i].packetType == PKT_TYPE_DATA :: ChannelResponse(ERROR_SUCCESS) in out[..i]
  }

  /** What holds in every interleaving. */
  ghost predicate Orderly(p: Policy, ms: seq<Message>, w: Writers) {
    && w.taken + w.left == ms
    && Run(p, INITIALIZED, w.taken) == Outcome(w.state, w.done + w.todo, w.verdict)
    && ControlOf(w.out) == Responses(w.done)
    && DataOf(w.out) == WrapAll(w.chunks)
    && DataAnnounced(w.out)
    && AnnouncedFirst(w.done + w.todo) && OnlyControl(w.done + w.todo)
    && (w.forwarding ==> ChannelResponse(ERROR_SUCCESS) in w.out)
    && (forall e | e in w.done && e.Sent? :: e.packet in w.out)
  }

  lemma OrderlyTake(p: Policy, ms: seq<Message>, w: Writers)
    requires Orderly(p, ms, w) && CanMove(w, TakeMessage)
    ensures Orderly(p, ms, After(p, w, TakeMessage))
  {
    hide Step, ChannelResponse;
    var m := w.left[0];
    var s := Step(p, w.state, m);
    RunAppend(p, INITIALIZED, w.taken, [m]);
    RunOfNothing(p, s.state);
    assert Run(p, w.state, [m]) == Outcome(s.state, s.events, s.verdict);
    assert w.done + w.todo == w.done;
    StepAnnounces(p, w.state, m);
    AnnouncedAppend(w.done, s.events);
    assert w.taken + [m] + w.left[1..] == ms;
  }

  lemma OrderlyDo(p: Policy, ms: seq<Message>, w: Writers)
    requires Orderly(p, ms, w) && CanMove(w, DoNext)
    ensures Orderly(p, ms, After(p, w, DoNext))
  {
    hide Run, ChannelResponse;
    var e := w.todo[0];
    var all := w.done + w.todo;
    assert w.done + [e] + w.todo[1..] == all;
    assert all[|w.done|] == e && e in all;
    ResponsesAppend(w.done, [e]);
    assert Responses([e]) == if e.Sent? then [e.packet] else [];
    if e.Sent? {
      OutAppend(w.out, e.packet);
      DataAnnouncedAppend(w.out, e.packet);
    } else {
      assert Responses(w.done) + [] == Responses(w.done);
    }
    if e.ForwardStarted? {
      assert all[|w.done| - 1] == w.done[|w.done| - 1];
    }
  }

  lemma DataAnnouncedAppend(out: seq<Packet>, q: Packet)
    requires DataAnnounced(out)
    requires q.packetType == PKT_TYPE_DATA ==> ChannelResponse(ERROR_SUCCESS) in out
    ensures DataAnnounced(out + [q])
  {
    hide ChannelResponse;
    forall i | 0 <= i < |out + [q]| && (out + [q])[i].packetType == PKT_TYPE_DATA
      ensures ChannelResponse(ERROR_SUCCESS) in (out + [q])[..i]
    {
      assert (out + [q])[..i] == out[..i];
    }
  }

  lemma OrderlyForward(p: Policy, ms: seq<Message>, w: Writers, chunk: Bytes)
    requires Orderly(p, ms, w) && CanMove(w, ForwardChunk(chunk))
    ensures Orderly(p, ms, After(p, w, ForwardChunk(chunk)))
  {
    hide Run, ChannelResponse;
    OutAppend(w.out, Wrap(chunk));
    DataAnnouncedAppend(w.out, Wrap(chunk));
    WrapAllSnoc(w.chunks, chunk);
    assert ControlOf(w.out) + [] == ControlOf(w.out);
  }

  lemma {:induction false} AlwaysOrderly(p: Policy, ms: seq<Message>, w: Writers, n: nat)
    requires CanReach(p, ms, w, n)
    ensures Orderly(p, ms, w)
    decreases n
  {
    hide After, CanMove, Orderly;
    if n == 0 {
      NothingYet(p, ms);
    } else {
      var v: Writers, m: Move :| CanReach(p, ms, v, n - 1) && CanMove(v, m) && w == After(p, v, m);
      AlwaysOrderly(p, ms, v, n - 1);
      match m {
        case TakeMessage => OrderlyTake(p, ms, v);
        case DoNext => OrderlyDo(p, ms, v);
        case ForwardChunk(chunk) => OrderlyForward(p, ms, v, chunk);
      }
    }
  }

  lemma NothingYet(p: Policy, ms: seq<Message>)
    ensures Orderly(p, ms, Begin(ms))
  {
    RunOfNothing(p, INITIALIZED);
  }

  lemma WellAnsweredPrefix(rs: seq<Packet>, requests: seq<Message>, done: nat, state: nat, failed: bool, n: nat)
    requires WellAnswered(rs, requests, done, state, failed) && n <= |rs|
    ensures forall i | 0 <= i < n :: rs[i].packetType == requests[i].packetType + 1
    ensures forall i | 0 <= i < n - 1 :: CodeOf(rs[i]) == 0
    ensures n > 0 && CodeOf(rs[n - 1]) != 0 ==> n == |rs| && failed
  {
  }

  /** In every interleaving: the control packets on the wire are the responses of the session, so each
      answers its request, only the last may carry an error, and one that does belongs to a session ending
      in an error; the DATA packets are the forwarded chunks in order, none before the channel response. */
  lemma OutputOrder(p: Policy, ms: seq<Message>, w: Writers, n: nat)
    requires CanReach(p, ms, w, n)
    ensures var control, requests := ControlOf(w.out), Requests(w.taken);
            && |control| <= |requests|
            && (forall i | 0 <= i < |control| :: control[i].packetType == requests[i].packetType + 1)
            && (forall i | 0 <= i < |control| - 1 :: CodeOf(control[i]) == 0)
            && (control != [] && CodeOf(control[|control| - 1]) != 0 ==> w.verdict.ReturnError?)
    ensures w.todo == [] ==> ControlOf(w.out) == Responses(Run(p, INITIALIZED, w.taken).events)
    ensures DataOf(w.out) == WrapAll(w.chunks)
    ensures DataAnnounced(w.out)
  {
    hide Run, CodeOf, ChannelResponse, Requests, ControlOf, DataOf, WellAnswered, DataAnnounced, Responses, WrapAll;
    AlwaysOrderly(p, ms, w, n);
    RunAnswers(p, INITIALIZED, w.taken);
    ResponsesAppend(w.done, w.todo);
    var rs, control := Responses(w.done + w.todo), ControlOf(w.out);
    WellAnsweredLength(rs, Requests(w.taken), Successes(INITIALIZED), w.state, w.verdict.ReturnError?);
    WellAnsweredPrefix(rs, Requests(w.taken), Successes(INITIALIZED), w.state, w.verdict.ReturnError?, |control|);
    assert rs[..|control|] == control;
    assert w.todo == [] ==> w.done + w.todo == w.done;
  }

  lemma WellAnsweredLength(rs: seq<Packet>, requests: seq<Message>, done: nat, state: nat, failed: bool)
    requires WellAnswered(rs, requests, done, state, failed)
    ensures |rs| <= |requests|
  {
  }
}
