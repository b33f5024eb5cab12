/** Client and server together: two byte streams between them, each read in whatever frames the transport
    cuts it into, and the forwarder adding DATA packets once the channel is open. */
module Composition {
  import opened Bytes
  import opened Framing
  import opened Delivery
  import opened Arriving
  import opened Relay
  import opened Utf16
  import opened RdgPackets
  import opened Session
  import opened SessionLaws
  import opened Client

  /** The two parties and what is on its way between them. `answered` are the responses the client took,
      `events` what the server did, `streamed` the chunks its forwarder wrapped so far. */
  datatype World = World(
    serverState: nat, serverVerdict: Verdict, events: seq<Event>,
    clientFailed: bool, answered: seq<nat>, local: Bytes,
    toServer: Bytes, toClient: Bytes, streamed: seq<Bytes>)

  function Start(c: Settings): World {
    World(INITIALIZED, Continue, [], false, [], [], Encode(HandshakeRequest(Offered(c))), [], [])
  }

  /** The types of the responses among some messages. */
  function ResponseTypes(ms: seq<Message>): seq<nat> {
    if ms == [] then []
    else (if ms[0].packetType != PKT_TYPE_DATA then [ms[0].packetType] else []) + ResponseTypes(ms[1..])
  }

  /** `fs` is a way the first bytes of a stream can arrive for one read to return them. */
  predicate Reads(fs: seq<Bytes>, stream: Bytes, ms: seq<Message>) {
    && 0 < |Concat(fs)| && Concat(fs) <= stream
    && ReadCall(Frames(fs)) == Messages(ms, [])
    && Returned(ms)
  }

  datatype Action =
    | ServerReads(fs: seq<Bytes>, ms: seq<Message>)
    | ClientReads(fs: seq<Bytes>, ms: seq<Message>)
    | ForwarderReads(chunk: Bytes)

  predicate Enabled(w: World, a: Action) {
    match a
    case ServerReads(fs, ms) => w.serverVerdict.Continue? && Reads(fs, w.toServer, ms)
    case ClientReads(fs, ms) => !w.clientFailed && Reads(fs, w.toClient, ms)
    case ForwarderReads(chunk) => ForwardStarted in w.events && |chunk| <= FORWARD_BUFFER
  }

  function Next(c: Settings, p: Policy, w: World, a: Action): World
    requires Enabled(w, a)
  {
    match a
    case ServerReads(fs, ms) =>
      var r := Run(p, w.serverState, ms);
      w.(serverState := r.state, serverVerdict := r.verdict, events := w.events + r.events,
         toServer := w.toServer[|Concat(fs)|..],
         toClient := w.toClient + EncodeAll(Responses(r.events)))
    case ClientReads(fs, ms) =>
      var r := OnMessages(c, ms);
      w.(clientFailed := r.failed, answered := w.answered + ResponseTypes(ms), local := w.local + r.written,
         toClient := w.toClient[|Concat(fs)|..],
         toServer := w.toServer + EncodeAll(r.sent))
    case ForwarderReads(chunk) =>
      w.(toClient := w.toClient + Encode(Wrap(chunk)), streamed := w.streamed + [chunk])
  }

  /** The worlds reachable in some number of actions. */
  ghost predicate Reachable(c: Settings, p: Policy, w: World, n: nat)
    decreases n
  {
    if n == 0 then w == Start(c)
    else exists v: World, a: Action :: Reachable(c, p, v, n - 1) && Enabled(v, a) && w == Next(c, p, v, a)
  }

  // ---- the conversation ----

  /** The host the server is to dial. */
  function Target(c: Settings): Bytes {
    JoinHostPort(Carried(c.server), c.port % 0x1_0000)
  }

  /** The two sides agree and the server has nothing against the client. */
  predicate Compatible(c: Settings, p: Policy) {
    && MatchAuth(p, Offered(c)).Caps?
    && p.cookie.Allows(if c.token == [] then [] else Carried(c.token))
    && p.client.Allows(Carried(c.name))
    && p.host.Allows(Target(c))
    && p.dial(Target(c))
    && AllDeliverable([TunnelRequest(c.token)])
    && AllDeliverable([TunnelAuthRequest(c.name)])
    && AllDeliverable([ChannelRequest(c.server, c.port)])
  }

  /** The eight control packets of the conversation, in order. */
  function Control(c: Settings, p: Policy, k: nat): Packet
    requires Compatible(c, p)
  {
    if k == 0 then HandshakeRequest(Offered(c))
    else if k == 1 then HandshakeResponse(0, 0, MatchAuth(p, Offered(c)).caps, ERROR_SUCCESS)
    else if k == 2 then TunnelRequest(c.token)
    else if k == 3 then TunnelResponse(ERROR_SUCCESS)
    else if k == 4 then TunnelAuthRequest(c.name)
    else if k == 5 then p.AuthResponse(ERROR_SUCCESS)
    else if k == 6 then ChannelRequest(c.server, c.port)
    else ChannelResponse(ERROR_SUCCESS)
  }

  /** The responses of the conversation, in order. */
  const ANSWERS: seq<nat> := [PKT_TYPE_HANDSHAKE_RESPONSE, PKT_TYPE_TUNNEL_RESPONSE,
                              PKT_TYPE_TUNNEL_AUTH_RESPONSE, PKT_TYPE_CHANNEL_RESPONSE]

  /** The `k`-th control packet, and only that, is on its way; behind it, the chunks in `flying`. */
  predicate OnTheWay(c: Settings, p: Policy, w: World, k: nat, flying: seq<Bytes>)
    requires Compatible(c, p)
  {
    && w.toServer == (if k < 8 && k % 2 == 0 then Encode(Control(c, p, k)) else [])
    && w.toClient == EncodeAll((if k % 2 == 1 then [Control(c, p, k)] else []) + WrapAll(flying))
  }

  /** Every chunk forwarded so far has reached the local connection or is in flight, in order. */
  predicate StreamKept(w: World, flying: seq<Bytes>) {
    && SmallChunks(w.streamed) && SmallChunks(flying)
    && w.local + Concat(flying) == Concat(w.streamed)
  }

  /** The server dials the client's target and nothing else, and starts forwarding then. */
  ghost predicate DialledTarget(c: Settings, es: seq<Event>, done: bool) {
    && (ForwardStarted in es <==> done)
    && (Dialled(Target(c), true) in es <==> done)
    && (forall e | e in es && e.Dialled? :: e == Dialled(Target(c), true))
  }

  /** After `k` control packets have been taken. */
  ghost predicate Phase(c: Settings, p: Policy, w: World, k: nat, flying: seq<Bytes>)
    requires Compatible(c, p)
  {
    && k <= 8
    && w.serverState == (k + 1) / 2 && w.serverVerdict.Continue? && !w.clientFailed
    && w.answered == ANSWERS[..k / 2]
    && (k < 7 ==> flying == [])
    && OnTheWay(c, p, w, k, flying)
    && StreamKept(w, flying)
    && DialledTarget(c, w.events, k >= 7)
  }

  lemma ControlDeliverable(c: Settings, p: Policy, k: nat)
    requires Compatible(c, p) && k < 8
    ensures AllDeliverable([Control(c, p, k)])
  {
    hide Encode;
  }

  // ---- what each side does with the other's packet ----

  /** What the server does on taking the `k`-th control packet. */
  ghost predicate ServerTurn(c: Settings, p: Policy, k: nat, r: Outcome)
    requires Compatible(c, p)
  {
    && r.state == (k + 2) / 2 && r.verdict.Continue?
    && Responses(r.events) == [Control(c, p, k + 1)]
    && DialledTarget(c, r.events, k == 6)
  }

  lemma RunOne(p: Policy, state: nat, m: Message)
    ensures Run(p, state, [m]).state == Step(p, state, m).state
    ensures Run(p, state, [m]).verdict == Step(p, state, m).verdict
    ensures Run(p, state, [m]).events == Step(p, state, m).events
  {
    hide Step;
    RunOfNothing(p, Step(p, state, m).state);
  }

  lemma AnswersOnly(c: Settings, p: Policy, k: nat, asked: seq<Event>, r: Outcome)
    requires Compatible(c, p) && k < 6
    requires forall e | e in asked :: e.CookieChecked? || e.NameChecked?
    requires |asked| <= 1
    requires r == Outcome((k + 2) / 2, asked + [Sent(Control(c, p, k + 1))], Continue)
    ensures ServerTurn(c, p, k, r)
  {
    hide Control, Target, AllDeliverable;
    assert Responses(asked) == [] by {
      if asked != [] { assert asked[0] in asked && asked[1..] == []; }
    }
    ResponsesOfOne(asked, Control(c, p, k + 1), []);
  }

  lemma ServerTakesHandshake(c: Settings, p: Policy)
    requires Compatible(c, p)
    ensures ServerTurn(c, p, 0, Run(p, INITIALIZED, [Arrival(Control(c, p, 0))]))
  {
    hide Put16, HandshakeResponse, AuthIn, MatchAuth, Offered, AllDeliverable;
    var m := Arrival(Control(c, p, 0));
    RunOne(p, INITIALIZED, m);
    HandshakeRequestRead(Offered(c));
    VersionRead(Offered(c));
    assert [] + [Sent(Control(c, p, 1))] == [Sent(Control(c, p, 1))];
    AnswersOnly(c, p, 0, [], Run(p, INITIALIZED, [m]));
  }

  lemma ServerTakesTunnelCreate(c: Settings, p: Policy)
    requires Compatible(c, p)
    ensures ServerTurn(c, p, 2, Run(p, HANDSHAKE, [Arrival(Control(c, p, 2))]))
  {
    hide Put16, Put32, Encoded, Carried, TunnelResponse, CookieIn, MatchAuth, AllDeliverable;
    var m := Arrival(Control(c, p, 2));
    RunOne(p, HANDSHAKE, m);
    TunnelRequestRead(c.token);
    var asked := if p.cookie.Unset? then [] else [CookieChecked(CookieIn(m.body), true)];
    AnswersOnly(c, p, 2, asked, Run(p, HANDSHAKE, [m]));
  }

  lemma ServerTakesTunnelAuth(c: Settings, p: Policy)
    requires Compatible(c, p)
    ensures ServerTurn(c, p, 4, Run(p, TUNNEL_CREATE, [Arrival(Control(c, p, 4))]))
  {
    hide Put16, Put32, Encoded, Carried, TunnelAuthResponse, NameIn, MatchAuth, AllDeliverable;
    var m := Arrival(Control(c, p, 4));
    RunOne(p, TUNNEL_CREATE, m);
    TunnelAuthRequestRead(c.name);
    var asked := if p.client.Unset? then [] else [NameChecked(NameIn(m.body), true)];
    AnswersOnly(c, p, 4, asked, Run(p, TUNNEL_CREATE, [m]));
  }

  lemma ServerTakesChannelCreate(c: Settings, p: Policy)
    requires Compatible(c, p)
    ensures ServerTurn(c, p, 6, Run(p, TUNNEL_AUTHORIZE, [Arrival(Control(c, p, 6))]))
  {
    hide Put16, Put32, Encoded, Carried, ChannelResponse, ServerIn, PortIn, JoinHostPort, AllDeliverable;
    var m := Arrival(Control(c, p, 6));
    RunOne(p, TUNNEL_AUTHORIZE, m);
    ChannelRequestRead(c.server, c.port);
    var dial, reply := Dialled(Target(c), true), ChannelResponse(ERROR_SUCCESS);
    var asked: seq<Event> := if p.host.Unset? then [] else [HostChecked(Target(c), true)];
    var es := Step(p, TUNNEL_AUTHORIZE, m).events;
    assert es == asked + [dial] + [Sent(reply)] + [ForwardStarted];
    ResponsesAppend(asked, [dial]);
    assert Responses([dial]) == [] && Responses([ForwardStarted]) == [] && Responses(asked) == [];
    ResponsesOfOne(asked + [dial], reply, [ForwardStarted]);
  }

  lemma ServerTakes(c: Settings, p: Policy, k: nat)
    requires Compatible(c, p) && k < 8 && k % 2 == 0
    ensures ServerTurn(c, p, k, Run(p, (k + 1) / 2, [Arrival(Control(c, p, k))]))
  {
    hide Run, ServerTurn, Arrival, Control;
    if k == 0 { ServerTakesHandshake(c, p); }
    else if k == 2 { ServerTakesTunnelCreate(c, p); }
    else if k == 4 { ServerTakesTunnelAuth(c, p); }
    else { ServerTakesChannelCreate(c, p); }
  }

  lemma VersionRead(caps: nat)
    ensures MajorIn(HandshakeRequest(caps).body) == MinorIn(HandshakeRequest(caps).body) == 0
  {
  }

  lemma ClientTakes(c: Settings, p: Policy, k: nat)
    requires Compatible(c, p) && k < 8 && k % 2 == 1
    ensures OnMessage(c, Arrival(Control(c, p, k)))
         == Response(if k < 7 then [Control(c, p, k + 1)] else [], [], false)
  {
    hide Put16, Put32, Encoded, TunnelRequest, TunnelAuthRequest, ChannelRequest,
         ReadHandshakeResponse, ReadTunnelResponse, ReadTunnelAuthResponse, ReadChannelResponse,
         HandshakeResponse, TunnelResponse, TunnelAuthResponse, ChannelResponse;
    if k == 1 {
      HandshakeResponseRead(0, 0, MatchAuth(p, Offered(c)).caps, ERROR_SUCCESS);
    } else if k == 3 {
      TunnelResponseRead(ERROR_SUCCESS);
    } else if k == 5 {
      TunnelAuthResponseRead(ERROR_SUCCESS, RedirectBits(p.redirect), p.idle);
    } else {
      ChannelResponseRead(ERROR_SUCCESS);
    }
  }

  lemma {:induction false} ClientTakesData(c: Settings, chunks: seq<Bytes>)
    requires SmallChunks(chunks)
    ensures OnMessages(c, Arrivals(WrapAll(chunks))) == Response([], Concat(chunks), false)
    ensures ResponseTypes(Arrivals(WrapAll(chunks))) == []
  {
    if chunks != [] {
      var ms := Arrivals(WrapAll(chunks));
      assert WrapAll(chunks)[0] == Wrap(chunks[0]) && WrapAll(chunks)[1..] == WrapAll(chunks[1..]);
      assert ms[0] == Arrival(Wrap(chunks[0])) && ms[1..] == Arrivals(WrapAll(chunks[1..]));
      ClientTakesChunk(c, chunks[0]);
      hide OnMessage, Wrap, Arrival;
      ClientTakesData(c, chunks[1..]);
    }
  }

  lemma ClientTakesChunk(c: Settings, chunk: Bytes)
    requires |chunk| <= FORWARD_BUFFER
    ensures OnMessage(c, Arrival(Wrap(chunk))) == Response([], chunk, false)
    ensures Arrival(Wrap(chunk)).packetType == PKT_TYPE_DATA
  {
    hide Unwrapped;
    UnwrapUndoesWrap(chunk);
  }

  // ---- every step stays in the conversation ----

  lemma OnePacketStream(q: Packet)
    ensures EncodeAll([q]) == Encode(q)
    ensures Arrivals([q]) == [Arrival(q)]
  {
    hide Encode;
    assert [q][1..] == [];
    assert Arrivals([q]) == [Arrival(q)] + Arrivals([q][1..]);
  }

  /** Reading from a stream of whole packets takes at least one of them. */
  lemma TakesPackets(fs: seq<Bytes>, ms: seq<Message>, stream: Bytes, ps: seq<Packet>) returns (j: nat)
    requires AllDeliverable(ps) && stream == EncodeAll(ps)
    requires Reads(fs, stream, ms)
    ensures 1 <= j <= |ps| && ms == Arrivals(ps[..j])
    ensures stream[|Concat(fs)|..] == EncodeAll(ps[j..])
  {
    hide EncodeAll, ReadCall, Concat;
    var post := stream[|Concat(fs)|..];
    assert Concat(fs) + post == stream;
    NoPackets(ps);
    j := ReadsWholePackets(fs, post, ps, ms);
  }

  lemma NoPackets(ps: seq<Packet>)
    ensures EncodeAll(ps[..0]) == []
  {
  }

  lemma NextOnTheWay(c: Settings, p: Policy, k: nat)
    requires Compatible(c, p) && k < 8 && k % 2 == 0
    ensures EncodeAll([Control(c, p, k + 1)] + WrapAll([])) == Encode(Control(c, p, k + 1))
    ensures EncodeAll([] + WrapAll([])) == []
  {
    hide Control, Encode;
    OnePacketStream(Control(c, p, k + 1));
    assert [Control(c, p, k + 1)] + WrapAll([]) == [Control(c, p, k + 1)];
  }

  lemma ServerStep(c: Settings, p: Policy, w: World, k: nat, flying: seq<Bytes>, fs: seq<Bytes>, ms: seq<Message>)
    requires Compatible(c, p) && Phase(c, p, w, k, flying)
    requires Enabled(w, ServerReads(fs, ms))
    ensures k < 7 && k % 2 == 0
    ensures Phase(c, p, Next(c, p, w, ServerReads(fs, ms)), k + 1, flying)
  {
    hide Encode, EncodeAll, Run, ReadCall, Concat, Control, Arrivals, Arrival, Responses, Target, Compatible, WrapAll;
    assert k < 8 && k % 2 == 0;
    var q := Control(c, p, k);
    OnePacketStream(q);
    ControlDeliverable(c, p, k);
    var j := TakesPackets(fs, ms, w.toServer, [q]);
    assert [q][..j] == [q];
    ServerTakes(c, p, k);
    NextOnTheWay(c, p, k);
    OnePacketStream(Control(c, p, k + 1));
    NoPackets([q]);
    assert [q][j..] == [] && [q][..0] == [];
  }

  lemma {:induction false} WrapAllSplit(chunks: seq<Bytes>, j: nat)
    requires j <= |chunks|
    ensures WrapAll(chunks)[..j] == WrapAll(chunks[..j]) && WrapAll(chunks)[j..] == WrapAll(chunks[j..])
  {
  }

  /** Chunks taken from those in flight are added to what has reached the local connection. */
  lemma StreamMoves(w: World, flying: seq<Bytes>, j: nat, w': World)
    requires StreamKept(w, flying) && j <= |flying|
    requires w'.streamed == w.streamed && w'.local == w.local + Concat(flying[..j])
    ensures StreamKept(w', flying[j..])
  {
    hide Concat;
    ConcatAppend(flying[..j], flying[j..]);
    assert flying == flying[..j] + flying[j..];
    var x, y := Concat(flying[..j]), Concat(flying[j..]);
    assert w.local + x + y == w.local + (x + y);
  }

  /** The client takes DATA packets only. */
  lemma ClientDataStep(c: Settings, p: Policy, w: World, flying: seq<Bytes>, fs: seq<Bytes>, ms: seq<Message>)
    returns (flying': seq<Bytes>)
    requires Compatible(c, p) && Phase(c, p, w, 8, flying)
    requires Enabled(w, ClientReads(fs, ms))
    ensures Phase(c, p, Next(c, p, w, ClientReads(fs, ms)), 8, flying')
  {
    hide Encode, EncodeAll, ReadCall, Concat, Control, Arrivals, Target, Compatible, WrapAll, OnMessages,
         ResponseTypes, StreamKept;
    assert SmallChunks(flying) by { KeptIsSmall(w, flying); }
    WrappedIsDeliverable(flying);
    assert [] + WrapAll(flying) == WrapAll(flying);
    var j := TakesPackets(fs, ms, w.toClient, WrapAll(flying));
    flying' := flying[j..];
    WrapAllSplit(flying, j);
    assert SmallChunks(flying[..j]);
    ClientTakesData(c, flying[..j]);
    assert [] + WrapAll(flying') == WrapAll(flying');
    var w' := Next(c, p, w, ClientReads(fs, ms));
    StreamMoves(w, flying, j, w');
    NothingSent(w.toServer);
    assert w.answered + [] == w.answered;
  }

  lemma KeptIsSmall(w: World, flying: seq<Bytes>)
    requires StreamKept(w, flying)
    ensures SmallChunks(flying) && SmallChunks(w.streamed)
  {
  }

  lemma NothingSent(stream: Bytes)
    ensures stream + EncodeAll([]) == stream
  {
  }

  lemma AnswerThenData(c: Settings, p: Policy, k: nat, chunks: seq<Bytes>)
    requires Compatible(c, p) && k < 8 && k % 2 == 1
    requires SmallChunks(chunks)
    ensures OnMessages(c, [Arrival(Control(c, p, k))] + Arrivals(WrapAll(chunks)))
         == Response(if k < 7 then [Control(c, p, k + 1)] else [], Concat(chunks), false)
    ensures ResponseTypes([Arrival(Control(c, p, k))] + Arrivals(WrapAll(chunks))) == [ANSWERS[k / 2]]
  {
    hide OnMessage, Concat, WrapAll, Arrivals, Compatible;
    hide HandshakeResponse, TunnelResponse, TunnelAuthResponse, ChannelResponse, HandshakeRequest, TunnelRequest,
         TunnelAuthRequest, ChannelRequest;
    ClientTakes(c, p, k);
    ClientTakesData(c, chunks);
    var ms := [Arrival(Control(c, p, k))] + Arrivals(WrapAll(chunks));
    assert ms[0] == Arrival(Control(c, p, k)) && ms[1..] == Arrivals(WrapAll(chunks));
    assert ms[0].packetType == ANSWERS[k / 2];
  }

  /** The packets under way to the client when the `k`-th control packet leads them. */
  function Leading(c: Settings, p: Policy, k: nat, flying: seq<Bytes>): seq<Packet>
    requires Compatible(c, p)
  {
    [Control(c, p, k)] + WrapAll(flying)
  }

  lemma LeadingTaken(c: Settings, p: Policy, k: nat, flying: seq<Bytes>, j: nat)
    requires Compatible(c, p) && k < 8 && SmallChunks(flying)
    requires 1 <= j <= |flying| + 1
    ensures AllDeliverable(Leading(c, p, k, flying))
    ensures Arrivals(Leading(c, p, k, flying)[..j]) == [Arrival(Control(c, p, k))] + Arrivals(WrapAll(flying[..j - 1]))
    ensures Leading(c, p, k, flying)[j..] == [] + WrapAll(flying[j - 1..])
    ensures SmallChunks(flying[..j - 1])
  {
    hide Control, Encode, Compatible, Arrival, WrapAll;
    var ps := Leading(c, p, k, flying);
    ControlDeliverable(c, p, k);
    WrappedIsDeliverable(flying);
    WrapAllSplit(flying, j - 1);
    assert Control(c, p, k) in [Control(c, p, k)];
    assert ps[..j] == [Control(c, p, k)] + WrapAll(flying[..j - 1]);
    assert ps[..j][1..] == WrapAll(flying[..j - 1]);
  }

  lemma FourAnswers()
    ensures |ANSWERS| == 4
  {
  }

  lemma OneMore(s: seq<nat>, i: nat)
    requires i < |s|
    ensures s[..i] + [s[i]] == s[..i + 1]
  {
  }

  /** What taking the control packet, and the DATA packets read with it, amounts to. */
  lemma ClientAnswers(c: Settings, p: Policy, w: World, k: nat, flying: seq<Bytes>, fs: seq<Bytes>, ms: seq<Message>)
    returns (n: nat)
    requires Compatible(c, p) && k < 8 && k % 2 == 1 && SmallChunks(flying)
    requires OnTheWay(c, p, w, k, flying)
    requires Reads(fs, w.toClient, ms)
    ensures n <= |flying|
    ensures OnMessages(c, ms) == Response(if k < 7 then [Control(c, p, k + 1)] else [], Concat(flying[..n]), false)
    ensures ResponseTypes(ms) == [ANSWERS[k / 2]]
    ensures w.toClient[|Concat(fs)|..] == EncodeAll([] + WrapAll(flying[n..]))
  {
    hide Encode, EncodeAll, ReadCall, Concat, Control, Arrivals, Compatible, WrapAll, OnMessages, ResponseTypes,
         Leading, OnTheWay, Arrival;
    LeadingTaken(c, p, k, flying, 1);
    LeadingIsOnTheWay(c, p, w, k, flying);
    var j := TakesPackets(fs, ms, w.toClient, Leading(c, p, k, flying));
    assert |Leading(c, p, k, flying)| == |flying| + 1 by { LeadingLength(c, p, k, flying); }
    LeadingTaken(c, p, k, flying, j);
    n := j - 1;
    AnswerThenData(c, p, k, flying[..n]);
  }

  lemma LeadingLength(c: Settings, p: Policy, k: nat, flying: seq<Bytes>)
    requires Compatible(c, p)
    ensures |Leading(c, p, k, flying)| == |flying| + 1
  {
  }

  /** The client takes the control packet and what DATA packets came with it. */
  lemma ClientAnswerStep(c: Settings, p: Policy, w: World, k: nat, flying: seq<Bytes>, fs: seq<Bytes>, ms: seq<Message>)
    returns (flying': seq<Bytes>)
    requires Compatible(c, p) && Phase(c, p, w, k, flying) && k % 2 == 1
    requires Enabled(w, ClientReads(fs, ms))
    ensures Phase(c, p, Next(c, p, w, ClientReads(fs, ms)), k + 1, flying')
  {
    hide Encode, EncodeAll, Reads, Concat, Control, Compatible, WrapAll, OnMessages, ResponseTypes,
         StreamKept, DialledTarget, OnTheWay, ANSWERS;
    FourAnswers();
    KeptIsSmall(w, flying);
    var n := ClientAnswers(c, p, w, k, flying, fs, ms);
    flying' := flying[n..];
    var w' := Next(c, p, w, ClientReads(fs, ms));
    StreamMoves(w, flying, n, w');
    LeadingIsOnTheWay(c, p, w, k, flying);
    AnswerOnTheWay(c, p, w, w', k, flying');
    OneMore(ANSWERS, k / 2);
  }

  lemma LeadingIsOnTheWay(c: Settings, p: Policy, w: World, k: nat, flying: seq<Bytes>)
    requires Compatible(c, p) && k < 8 && k % 2 == 1 && OnTheWay(c, p, w, k, flying)
    ensures w.toClient == EncodeAll(Leading(c, p, k, flying)) && w.toServer == []
  {
  }

  lemma AnswerOnTheWay(c: Settings, p: Policy, w: World, w': World, k: nat, flying': seq<Bytes>)
    requires Compatible(c, p) && k < 8 && k % 2 == 1
    requires w.toServer == []
    requires w'.toServer == w.toServer + EncodeAll(if k < 7 then [Control(c, p, k + 1)] else [])
    requires w'.toClient == EncodeAll([] + WrapAll(flying'))
    ensures OnTheWay(c, p, w', k + 1, flying')
  {
    hide Encode, EncodeAll, Control, WrapAll, Compatible;
    NothingSent(w.toServer);
    if k < 7 {
      OnePacketStream(Control(c, p, k + 1));
    }
  }

  lemma {:induction false} EncodeAllAppend(a: seq<Packet>, b: seq<Packet>)
    ensures EncodeAll(a + b) == EncodeAll(a) + EncodeAll(b)
  {
    hide Encode;
    EncodeAllSplit(a + b, |a|);
    assert (a + b)[..|a|] == a && (a + b)[|a|..] == b;
  }

  lemma ForwarderStep(c: Settings, p: Policy, w: World, k: nat, flying: seq<Bytes>, chunk: Bytes)
    requires Compatible(c, p) && Phase(c, p, w, k, flying)
    requires Enabled(w, ForwarderReads(chunk))
    ensures Phase(c, p, Next(c, p, w, ForwarderReads(chunk)), k, flying + [chunk])
  {
    hide Encode, EncodeAll, Control, Compatible, WrapAll, Wrap, StreamKept, OnTheWay, DialledTarget;
    var w' := Next(c, p, w, ForwarderReads(chunk));
    ForwardingSince(c, p, w, k);
    ForwardedOnTheWay(c, p, w, w', k, flying, chunk);
    StreamGrows(w, flying, chunk, w');
  }

  lemma ForwardedOnTheWay(c: Settings, p: Policy, w: World, w': World, k: nat, flying: seq<Bytes>, chunk: Bytes)
    requires Compatible(c, p) && k <= 8 && OnTheWay(c, p, w, k, flying)
    requires w'.toServer == w.toServer && w'.toClient == w.toClient + Encode(Wrap(chunk))
    ensures OnTheWay(c, p, w', k, flying + [chunk])
  {
    hide Encode, EncodeAll, Control, Compatible, WrapAll, Wrap;
    var lead := if k % 2 == 1 then [Control(c, p, k)] else [];
    WrapAllSnoc(flying, chunk);
    OnePacketStream(Wrap(chunk));
    EncodeAllAppend(lead + WrapAll(flying), [Wrap(chunk)]);
    assert lead + (WrapAll(flying) + [Wrap(chunk)]) == lead + WrapAll(flying) + [Wrap(chunk)];
  }

  lemma StreamGrows(w: World, flying: seq<Bytes>, chunk: Bytes, w': World)
    requires StreamKept(w, flying) && |chunk| <= FORWARD_BUFFER
    requires w'.streamed == w.streamed + [chunk] && w'.local == w.local
    ensures StreamKept(w', flying + [chunk])
  {
    hide Concat;
    ConcatSnoc(flying, chunk);
    ConcatSnoc(w.streamed, chunk);
    assert w.local + (Concat(flying) + chunk) == w.local + Concat(flying) + chunk;
  }

  lemma StartPhase(c: Settings, p: Policy)
    requires Compatible(c, p)
    ensures Phase(c, p, Start(c), 0, [])
  {
    hide Encode;
    assert [] + WrapAll([]) == [];
  }

  /** Any action leaves the phase or moves on to the next; before the channel is open it always moves on. */
  lemma StepKeepsPhase(c: Settings, p: Policy, w: World, k: nat, flying: seq<Bytes>, a: Action)
    returns (k': nat, flying': seq<Bytes>)
    requires Compatible(c, p) && Phase(c, p, w, k, flying)
    requires Enabled(w, a)
    ensures Phase(c, p, Next(c, p, w, a), k', flying')
    ensures k <= k' <= k + 1 && (k < 7 ==> k' == k + 1)
    ensures k == 7 && a.ClientReads? ==> k' == 8
  {
    hide Next, Encode, EncodeAll, Control, Concat, ReadCall, Compatible, WrapAll, StreamKept, DialledTarget;
    match a {
      case ServerReads(fs, ms) =>
        ServerStep(c, p, w, k, flying, fs, ms);
        k', flying' := k + 1, flying;
      case ClientReads(fs, ms) =>
        if k % 2 == 1 {
          flying' := ClientAnswerStep(c, p, w, k, flying, fs, ms);
          k' := k + 1;
        } else {
          QuietWhileOpening(c, p, w, k, flying);
          flying' := ClientDataStep(c, p, w, flying, fs, ms);
          k' := k;
        }
      case ForwarderReads(chunk) =>
        ForwardingSince(c, p, w, k);
        ForwarderStep(c, p, w, k, flying, chunk);
        k', flying' := k, flying + [chunk];
    }
  }

  lemma ForwardingSince(c: Settings, p: Policy, w: World, k: nat)
    requires DialledTarget(c, w.events, k >= 7) && ForwardStarted in w.events
    ensures k >= 7
  {
  }

  lemma QuietWhileOpening(c: Settings, p: Policy, w: World, k: nat, flying: seq<Bytes>)
    requires Compatible(c, p) && Phase(c, p, w, k, flying) && k % 2 == 0
    ensures k < 8 ==> w.toClient == []
  {
    hide Encode, Control, Compatible, StreamKept, DialledTarget, ANSWERS;
    if k < 8 {
      assert w.toClient == EncodeAll([] + WrapAll([]));
      assert [] + WrapAll([]) == [];
    }
  }

  // ---- every run ----

  lemma {:induction false} ReachablePhase(c: Settings, p: Policy, w: World, n: nat) returns (k: nat, flying: seq<Bytes>)
    requires Compatible(c, p) && Reachable(c, p, w, n)
    ensures Phase(c, p, w, k, flying)
    ensures if n < 7 then k == n else k >= 7
    decreases n
  {
    hide Phase, Next, Enabled, Compatible, Start;
    if n == 0 {
      StartPhase(c, p);
      k, flying := 0, [];
    } else {
      var v: World, a: Action :| Reachable(c, p, v, n - 1) && Enabled(v, a) && w == Next(c, p, v, a);
      var k0, flying0 := ReachablePhase(c, p, v, n - 1);
      k, flying := StepKeepsPhase(c, p, v, k0, flying0, a);
    }
  }

  /** In every run of compatible parties, however the packets are cut: nobody gives up, the client takes each
      response once and in order, the channel is open after seven actions at the latest, with the client's
      target and nothing else dialled, and the local connection holds a prefix of the forwarded stream. */
  lemma ConversationSucceeds(c: Settings, p: Policy, w: World, n: nat)
    requires Compatible(c, p) && Reachable(c, p, w, n)
    ensures w.serverVerdict.Continue? && !w.clientFailed
    ensures w.answered <= ANSWERS
    ensures forall e | e in w.events && e.Dialled? :: e == Dialled(Target(c), true)
    ensures n >= 7 ==> w.serverState == CHANNEL_CREATE && Dialled(Target(c), true) in w.events
    ensures w.local <= Concat(w.streamed)
    ensures exists k, flying :: Phase(c, p, w, k, flying)
  {
    hide Encode, EncodeAll, Control, Compatible, WrapAll, Concat, Target, OnTheWay;
    var k, flying := ReachablePhase(c, p, w, n);
    FourAnswers();
  }

  /** A cutting of a stream of packets is read at the first packet end, wherever its frames end. */
  lemma EveryCutIsRead(fs: seq<Bytes>, ps: seq<Packet>) returns (k: nat, ms: seq<Message>)
    requires AllDeliverable(ps) && Concat(fs) == EncodeAll(ps)
    requires fs != [] && fs[0] != []
    ensures k <= |fs| && Reads(fs[..k], EncodeAll(ps), ms)
  {
    hide Encode, EncodeAll, ReadCall, Boundary;
    var j;
    k, j := ReadStopsAtFirstBoundary(fs, ps);
    EncodeAllSplit(ps, j);
    ConcatAppend(fs[..k], fs[k..]);
    assert fs == fs[..k] + fs[k..];
    assert fs[..k][0] == fs[0];
    assert forall q | q in ps[..j] :: q in ps;
    var k', j' := ReadStopsAtFirstBoundary(fs[..k], ps[..j]);
    if k' < k {
      assert fs[..k][..k'] == fs[..k'] && ps[..j][..j'] == ps[..j'];
      BoundaryAt(ps, j');
    }
    assert fs[..k][k..] == [];
    assert Frames([]) == [];
    ms := Arrivals(ps[..j][..j']);
    ArrivalsReturned(ps[..j][..j']);
  }

  lemma BoundaryAt(ps: seq<Packet>, j: nat)
    requires j <= |ps|
    ensures Boundary(ps, |EncodeAll(ps[..j])|)
  {
    hide Encode, EncodeAll;
  }

  lemma ArrivalsReturned(ps: seq<Packet>)
    ensures Returned(Arrivals(ps))
  {
  }

  /** Until the client has its last response, whichever way the packet on its way is cut, its receiver can
      read it. */
  lemma NeverStuck(c: Settings, p: Policy, w: World, k: nat, flying: seq<Bytes>, fs: seq<Bytes>)
    returns (a: Action)
    requires Compatible(c, p) && Phase(c, p, w, k, flying) && k < 8
    requires fs != [] && fs[0] != []
    requires Concat(fs) == if k % 2 == 0 then w.toServer else w.toClient
    ensures Enabled(w, a) && (if k % 2 == 0 then a.ServerReads? else a.ClientReads?)
  {
    hide Encode, EncodeAll, Control, Compatible, WrapAll, Concat, ReadCall, StreamKept, DialledTarget, Leading;
    KeptIsSmall(w, flying);
    if k % 2 == 0 {
      OnePacketStream(Control(c, p, k));
      ControlDeliverable(c, p, k);
      var n, ms := EveryCutIsRead(fs, [Control(c, p, k)]);
      a := ServerReads(fs[..n], ms);
    } else {
      LeadingIsOnTheWay(c, p, w, k, flying);
      LeadingTaken(c, p, k, flying, 1);
      var n, ms := EveryCutIsRead(fs, Leading(c, p, k, flying));
      a := ClientReads(fs[..n], ms);
    }
  }

  /** Which of the client's requests a server can read at all: those whose names leave room for the header
      and the fixed fields. */
  lemma RequestsFit(c: Settings)
    ensures AllDeliverable([TunnelAuthRequest(c.name)]) <==> |Encoded(c.name)| <= MAX_FRAGMENT_SIZE - 9
    ensures AllDeliverable([ChannelRequest(c.server, c.port)]) <==> |Encoded(c.server)| <= MAX_FRAGMENT_SIZE - 15
    ensures AllDeliverable([TunnelRequest(c.token)])
            <==> c.token == [] || |Encoded(c.token)| <= MAX_FRAGMENT_SIZE - 17
  {
    hide Encoded;
    assert TunnelAuthRequest(c.name) in [TunnelAuthRequest(c.name)];
    assert ChannelRequest(c.server, c.port) in [ChannelRequest(c.server, c.port)];
    assert TunnelRequest(c.token) in [TunnelRequest(c.token)];
  }

  /** There are such parties: a client with a token, and a server that checks token, client name and host. */
  lemma SomeAreCompatible() returns (c: Settings, p: Policy)
    ensures Compatible(c, p)
    ensures p.cookie.CheckWith? && p.client.CheckWith? && p.host.CheckWith? && c.token != []
  {
    hide Target, Carried;
    c := Settings(false, [116], false, [104], 3389, [110]);
    var host, token, name := Target(c), Carried(c.token), Carried(c.name);
    p := Policy(false, true, CheckWith(s => s == token), CheckWith(s => s == name), CheckWith(s => s == host),
                s => s == host, RedirectFlags(true, true, true, true, true, false, false), 0);
    OneLetterEncoded(116);
    OneLetterEncoded(104);
    OneLetterEncoded(110);
    RequestsFit(c);
  }

  lemma OneLetterEncoded(b: Byte)
    requires b < 0x80
    ensures |Encoded([b])| == 2
  {
    assert DecodeRune([b]).rune == b as int && DecodeRune([b]).width == 1;
    assert Runes([b][1..]) == [] && Runes([b]) == [b as int];
    assert Units([b as int]) == UnitsOfRune(b as int) + Units([]);
  }

  // ---- every conversation can be finished ----

  lemma SomethingOnTheWay(c: Settings, p: Policy, k: nat, flying: seq<Bytes>)
    requires Compatible(c, p) && k < 8
    ensures EncodeAll([Control(c, p, k)]) != []
    ensures EncodeAll([Control(c, p, k)] + WrapAll(flying)) != []
  {
    hide Control, Compatible, WrapAll;
  }

  lemma FlyingIsNotNothing(flying: seq<Bytes>)
    requires flying != []
    ensures EncodeAll([] + WrapAll(flying)) != []
  {
    assert [] + WrapAll(flying) == WrapAll(flying);
    assert WrapAll(flying)[0] == Wrap(flying[0]);
  }

  lemma OneFrame(stream: Bytes)
    ensures Concat([stream]) == stream && Concat([]) == []
  {
  }

  /** While a control packet is on its way, all that the receiver has before it can be read at once. */
  lemma OneDelivery(c: Settings, p: Policy, w: World, k: nat, flying: seq<Bytes>) returns (a: Action)
    requires Compatible(c, p) && Phase(c, p, w, k, flying) && k < 8
    ensures Enabled(w, a) && (if k % 2 == 0 then a.ServerReads? else a.ClientReads?)
  {
    hide Encode, EncodeAll, Control, Compatible, WrapAll, Concat, ReadCall, StreamKept, DialledTarget, Enabled;
    var stream := if k % 2 == 0 then w.toServer else w.toClient;
    OneFrame(stream);
    OnePacketStream(Control(c, p, k));
    SomethingOnTheWay(c, p, k, flying);
    a := NeverStuck(c, p, w, k, flying, [stream]);
  }

  /** Once the channel is open, one read can bring in all that is on its way to the client. */
  lemma LastDelivery(c: Settings, p: Policy, w: World, flying: seq<Bytes>) returns (a: Action)
    requires Compatible(c, p) && Phase(c, p, w, 8, flying) && flying != []
    ensures a.ClientReads? && Enabled(w, a) && Next(c, p, w, a).toClient == []
  {
    hide Encode, EncodeAll, Control, Compatible, WrapAll, Concat, ReadCall, DialledTarget, OnMessages, ResponseTypes;
    KeptIsSmall(w, flying);
    WrappedIsDeliverable(flying);
    assert [] + WrapAll(flying) == WrapAll(flying);
    FlyingIsNotNothing(flying);
    OneFrame(w.toClient);
    var n, ms := EveryCutIsRead([w.toClient], WrapAll(flying));
    assert n == 1;
    assert [w.toClient][..1] == [w.toClient];
    a := ClientReads([w.toClient], ms);
  }

  lemma OneMoreAction(c: Settings, p: Policy, w: World, n: nat, a: Action)
    requires Reachable(c, p, w, n) && Enabled(w, a)
    ensures Reachable(c, p, Next(c, p, w, a), n + 1)
  {
    hide Enabled, Next, Start;
  }

  lemma ReadsStreamNothing(c: Settings, p: Policy, w: World, a: Action)
    requires Enabled(w, a) && !a.ForwarderReads?
    ensures Next(c, p, w, a).streamed == w.streamed
  {
    hide Run, OnMessages, ResponseTypes, EncodeAll, Concat, ReadCall;
  }

  lemma NothingFlyingIsAllKept(c: Settings, p: Policy, w: World)
    requires Compatible(c, p) && Phase(c, p, w, 8, [])
    ensures w.answered == ANSWERS && w.local == Concat(w.streamed)
  {
    hide OnTheWay, DialledTarget;
    FourAnswers();
    assert w.local + Concat([]) == w.local;
  }

  lemma {:induction false} FinishFrom(c: Settings, p: Policy, w: World, n: nat, k: nat, flying: seq<Bytes>)
    returns (w': World, n': nat)
    requires Compatible(c, p) && Reachable(c, p, w, n) && Phase(c, p, w, k, flying)
    ensures n <= n' <= n + 9 - k && Reachable(c, p, w', n')
    ensures w'.answered == ANSWERS
    ensures w'.streamed == w.streamed && w'.local == Concat(w.streamed)
    decreases 8 - k
  {
    hide Phase, Reachable, Enabled, Next, Compatible, Start, Concat;
    AtMostEight(c, p, w, k, flying);
    if k < 8 {
      var a := OneDelivery(c, p, w, k, flying);
      OneMoreAction(c, p, w, n, a);
      ReadsStreamNothing(c, p, w, a);
      var k', flying' := StepKeepsPhase(c, p, w, k, flying, a);
      w', n' := FinishFrom(c, p, Next(c, p, w, a), n + 1, k', flying');
    } else if flying != [] {
      var a := LastDelivery(c, p, w, flying);
      OneMoreAction(c, p, w, n, a);
      ReadsStreamNothing(c, p, w, a);
      w', n' := Next(c, p, w, a), n + 1;
      var k', flying' := StepKeepsPhase(c, p, w, k, flying, a);
      AtMostEight(c, p, w', k', flying');
      NothingLeftInPhase(c, p, w', flying');
      NothingFlyingIsAllKept(c, p, w');
    } else {
      w', n' := w, n;
      NothingFlyingIsAllKept(c, p, w);
    }
  }

  lemma AtMostEight(c: Settings, p: Policy, w: World, k: nat, flying: seq<Bytes>)
    requires Compatible(c, p) && Phase(c, p, w, k, flying)
    ensures k <= 8
  {
  }

  lemma NothingLeftInPhase(c: Settings, p: Policy, w: World, flying: seq<Bytes>)
    requires Compatible(c, p) && Phase(c, p, w, 8, flying) && w.toClient == []
    ensures flying == []
  {
    hide EncodeAll, WrapAll, Control, Compatible, StreamKept, DialledTarget;
    if flying != [] { FlyingIsNotNothing(flying); }
  }

  /** Every run of compatible parties can be completed by deliveries alone: the client then has all four
      responses and the local connection the whole forwarded stream. */
  lemma EveryRunCanFinish(c: Settings, p: Policy, w: World, n: nat) returns (w': World, n': nat)
    requires Compatible(c, p) && Reachable(c, p, w, n)
    ensures n <= n' <= n + 9 && Reachable(c, p, w', n')
    ensures w'.answered == ANSWERS
    ensures w'.streamed == w.streamed && w'.local == Concat(w.streamed)
  {
    hide Phase, Reachable, Compatible, Concat;
    var k, flying := ReachablePhase(c, p, w, n);
    w', n' := FinishFrom(c, p, w, n, k, flying);
  }

  // ---- the refusal that is not noticed ----

  /** Whatever the server refuses a handshake for, its one response carries a code that is not success, and the
      client goes on to its tunnel request all the same. */
  lemma HandshakeRefusalGoesUnnoticed(c: Settings, p: Policy, state: nat, body: Bytes)
    requires OnHandshake(p, state, body).verdict.ReturnError?
    ensures var es := OnHandshake(p, state, body).events;
            && |es| == 1 && es[0].Sent?
            && es[0].packet.packetType == PKT_TYPE_HANDSHAKE_RESPONSE && CodeOf(es[0].packet) != ERROR_SUCCESS
            && OnMessage(c, Arrival(es[0].packet)) == Response([TunnelRequest(c.token)], [], false)
  {
    hide Put16, Put32, CodeOf, HandshakeResponse;
    HandshakeResponseRead(0, 0, 0, E_PROXY_INTERNALERROR);
    HandshakeResponseRead(0, 0, 0, E_PROXY_CAPABILITYMISMATCH);
  }

  /** The target is the client's own server and port exactly if they survive their fields. */
  lemma TargetIsTheClients(c: Settings)
    requires c.port >= 0
    ensures Target(c) == JoinHostPort(c.server, c.port) <==> Portable(c.server) && c.port < 0x1_0000
  {
    hide Encoded, JoinHostPort, Carried, Portable;
    PortableNamesArrive(c.server);
    if Target(c) == JoinHostPort(c.server, c.port) {
      HostStringIsExact(Carried(c.server), c.port % 0x1_0000, c.server, c.port);
    }
  }
}
