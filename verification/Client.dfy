/** The client's side: what it answers to each packet, and the object that runs it. */
module Client {
  import opened Bytes
  import opened Readers
  import opened Framing
  import opened Delivery
  import opened Transport
  import opened Relay
  import opened Utf16
  import opened RdgPackets

  datatype Settings = Settings(smartCard: bool, token: Bytes, ntlm: bool, server: Bytes, port: int, name: Bytes)

  function Offered(c: Settings): (caps: nat)
    ensures caps < 8
  {
    (if c.smartCard then 1 else 0) + (if c.token != [] then 2 else 0) + (if c.ntlm then 4 else 0)
  }

  /** A client offers exactly the mechanisms it is set up for. */
  lemma OfferedMeaning(c: Settings)
    ensures HasBit(Offered(c), 1) <==> c.smartCard
    ensures HasBit(Offered(c), 2) <==> c.token != []
    ensures HasBit(Offered(c), 4) <==> c.ntlm
  {
  }

  /** What handling messages amounts to: packets sent, bytes for the local connection, an error or none. */
  datatype Response = Response(sent: seq<Packet>, written: Bytes, failed: bool)

  const NOTHING: Response := Response([], [], false)
  const FAILURE: Response := Response([], [], true)

  function OnMessage(c: Settings, m: Message): Response {
    if !m.error.NoError? then NOTHING
    else if m.packetType == PKT_TYPE_HANDSHAKE_RESPONSE then
      if ReadHandshakeResponse(m.body).Refused? then FAILURE else Response([TunnelRequest(c.token)], [], false)
    else if m.packetType == PKT_TYPE_TUNNEL_RESPONSE then
      if ReadTunnelResponse(m.body).Refused? then FAILURE else Response([TunnelAuthRequest(c.name)], [], false)
    else if m.packetType == PKT_TYPE_TUNNEL_AUTH_RESPONSE then
      if ReadTunnelAuthResponse(m.body).Refused? then FAILURE
      else Response([ChannelRequest(c.server, c.port)], [], false)
    else if m.packetType == PKT_TYPE_CHANNEL_RESPONSE then
      if ReadChannelResponse(m.body).Refused? then FAILURE else NOTHING
    else if m.packetType == PKT_TYPE_DATA then Response([], Unwrapped(m.body), false)
    else NOTHING
  }

  function OnMessages(c: Settings, ms: seq<Message>): Response {
    if ms == [] then NOTHING
    else
      var first := OnMessage(c, ms[0]);
      if first.failed then first
      else
        var later := OnMessages(c, ms[1..]);
        Response(first.sent + later.sent, first.written + later.written, later.failed)
  }

  /** Everything a client does with a transport after its opening packet. */
  datatype ClientEnd = ClientError | ClientPanic | ClientHung

  datatype ClientRun = ClientRun(sent: seq<Packet>, written: Bytes, end: ClientEnd)

  function Drive(c: Settings, queue: seq<Read>): ClientRun
    decreases |queue|
  {
    match ReadCall(queue)
    case Failed(_) => ClientRun([], [], ClientError)
    case Panics => ClientRun([], [], ClientPanic)
    case Diverges => ClientRun([], [], ClientHung)
    case Messages(ms, rest) =>
      var r := OnMessages(c, ms);
      if r.failed then ClientRun(r.sent, r.written, ClientError)
      else
        assert |rest| < |queue|;
        var later := Drive(c, rest);
        ClientRun(r.sent + later.sent, r.written + later.written, later.end)
  }

  // ---- decoders ----

  method DecodeHandshakeResponse(data: Bytes) returns (r: Reply<nat>)
    ensures r == ReadHandshakeResponse(data)
  {
    var rd := new Reader(data);
    var raw := rd.Read32();
    var errorCode: int := if raw < 0x8000_0000 then raw else raw as int - 0x1_0000_0000;
    var major := rd.Read8();
    var minor := rd.Read8();
    var version := rd.Read16();
    var caps := rd.Read16();
    if errorCode > 0 {
      return Refused(errorCode);
    }
    return Reply(caps);
  }

  method DecodeTunnelResponse(data: Bytes) returns (r: Reply<(nat, nat)>)
    ensures r == ReadTunnelResponse(data)
  {
    var rd := new Reader(data);
    var version := rd.Read16();
    var errorCode := rd.Read32();
    var fields := rd.Read16();
    rd.Skip(2);
    var tunnelId, caps := 0, 0;
    if HasBit(fields, 1) {
      tunnelId := rd.Read32();
    }
    if HasBit(fields, 2) {
      caps := rd.Read32();
    }
    if errorCode != 0 {
      return Refused(errorCode);
    }
    return Reply((tunnelId, caps));
  }

  method DecodeTunnelAuthResponse(data: Bytes) returns (r: Reply<(nat, nat)>)
    ensures r == ReadTunnelAuthResponse(data)
  {
    var rd := new Reader(data);
    var errorCode := rd.Read32();
    var fields := rd.Read16();
    rd.Skip(2);
    var flags, timeout := 0, 0;
    if HasBit(fields, 1) {
      flags := rd.Read32();
    }
    if HasBit(fields, 2) {
      timeout := rd.Read32();
    }
    if errorCode > 0 {
      return Refused(errorCode);
    }
    return Reply((flags, timeout));
  }

  method DecodeChannelResponse(data: Bytes) returns (r: Reply<nat>)
    ensures r == ReadChannelResponse(data)
  {
    var rd := new Reader(data);
    var errorCode := rd.Read32();
    var fields := rd.Read16();
    rd.Skip(2);
    var channelId := 0;
    if HasBit(fields, 1) {
      channelId := rd.Read32();
    }
    if errorCode > 0 {
      return Refused(errorCode);
    }
    return Reply(channelId);
  }

  // ---- encoders ----

  method EncodeHandshakeRequest(c: Settings) returns (pkt: Bytes)
    ensures pkt == Encode(HandshakeRequest(Offered(c)))
  {
    var caps := 0;
    if c.smartCard { caps := caps + 1; }
    if |c.token| > 0 { caps := caps + 2; }
    if c.ntlm { caps := caps + 4; }
    var buf: Bytes := [0];
    buf := buf + [0];
    buf := buf + Put16(0);
    buf := buf + Put16(caps);
    assert buf == HandshakeRequest(Offered(c)).body;
    pkt := CreatePacket(PKT_TYPE_HANDSHAKE_REQUEST, buf);
  }

  method EncodeTunnelRequest(c: Settings) returns (pkt: Bytes)
    ensures pkt == Encode(TunnelRequest(c.token))
  {
    hide Encoded;
    var fields := if |c.token| > 0 then 1 else 0;
    var buf := Put32(HTTP_CAPABILITY_IDLE_TIMEOUT);
    buf := buf + Put16(fields);
    buf := buf + Put16(0);
    if |c.token| > 0 {
      var utf16Token := EncodeUTF16(c.token);
      buf := buf + Put16(|utf16Token|);
      buf := buf + utf16Token;
    }
    assert buf == TunnelRequest(c.token).body;
    pkt := CreatePacket(PKT_TYPE_TUNNEL_CREATE, buf);
  }

  method EncodeTunnelAuthRequest(c: Settings) returns (pkt: Bytes)
    ensures pkt == Encode(TunnelAuthRequest(c.name))
  {
    hide Encoded;
    var utf16name := EncodeUTF16(c.name);
    var buf := Put16(|utf16name|);
    buf := buf + utf16name;
    pkt := CreatePacket(PKT_TYPE_TUNNEL_AUTH, buf);
  }

  method EncodeChannelRequest(c: Settings) returns (pkt: Bytes)
    ensures pkt == Encode(ChannelRequest(c.server, c.port))
  {
    hide Encoded;
    var utf16server := EncodeUTF16(c.server);
    var buf: Bytes := [1];
    buf := buf + [0];
    buf := buf + Put16(c.port);
    buf := buf + Put16(3);
    buf := buf + Put16(|utf16server|);
    buf := buf + utf16server;
    assert buf == ChannelRequest(c.server, c.port).body;
    pkt := CreatePacket(PKT_TYPE_CHANNEL_CREATE, buf);
  }

  class ClientConfig {
    const settings: Settings
    const session: Tunnel
    const localConn: Conn

    constructor (settings: Settings, session: Tunnel, localConn: Conn)
      ensures this.settings == settings && this.session == session && this.localConn == localConn
    {
      this.settings, this.session, this.localConn := settings, session, localConn;
    }

    /** Sends one packet straight on the transport. */
    method Send(pkt: Bytes)
      modifies session.transportOut`outgoing
      ensures session.transportOut.outgoing == old(session.transportOut.outgoing) + [pkt]
    {
      var _ := session.transportOut.WritePacket(pkt);
    }

    method HandleMessage(m: Message) returns (failed: bool)
      modifies session.transportOut`outgoing, localConn`written
      ensures var r := OnMessage(settings, m);
              && failed == r.failed
              && session.transportOut.outgoing == old(session.transportOut.outgoing) + Encodings(r.sent)
              && localConn.written == old(localConn.written) + r.written
    {
      hide Encode, TunnelRequest, TunnelAuthRequest, ChannelRequest, ReadHandshakeResponse, ReadTunnelResponse,
           ReadTunnelAuthResponse, ReadChannelResponse, Unwrapped;
      failed := false;
      if !m.error.NoError? {
        return;
      }
      match m.packetType {
        case 0x2 =>
          var r := DecodeHandshakeResponse(m.body);
          if r.Refused? { return true; }
          var pkt := EncodeTunnelRequest(settings);
          Send(pkt);
        case 0x5 =>
          var r := DecodeTunnelResponse(m.body);
          if r.Refused? { return true; }
          var pkt := EncodeTunnelAuthRequest(settings);
          Send(pkt);
        case 0x7 =>
          var r := DecodeTunnelAuthResponse(m.body);
          if r.Refused? { return true; }
          var pkt := EncodeChannelRequest(settings);
          Send(pkt);
        case 0x9 =>
          var r := DecodeChannelResponse(m.body);
          if r.Refused? { return true; }
        case 0xA =>
          Receive(m.body, localConn);
        case _ =>
      }
    }

    /** What was sent and written since the two snapshots. */
    ghost predicate Since(sent0: seq<Bytes>, written0: Bytes, sent: seq<Packet>, written: Bytes)
      reads session.transportOut`outgoing, localConn`written
    {
      && session.transportOut.outgoing == sent0 + Encodings(sent)
      && localConn.written == written0 + written
    }

    method HandleMessages(messages: seq<Message>) returns (failed: bool)
      modifies session.transportOut`outgoing, localConn`written
      ensures var r := OnMessages(settings, messages);
              && failed == r.failed
              && Since(old(session.transportOut.outgoing), old(localConn.written), r.sent, r.written)
    {
      hide Encode, OnMessage, OnMessages, Encodings;
      ghost var sent0, written0 := session.transportOut.outgoing, localConn.written;
      ghost var done := NOTHING;
      var i := 0;
      OnMessagesStart(settings, messages);
      while i < |messages|
        invariant 0 <= i <= |messages|
        invariant !done.failed
        invariant OnMessages(settings, messages) == Then(done, OnMessages(settings, messages[i..]))
        invariant Since(sent0, written0, done.sent, done.written)
      {
        ghost var first := OnMessage(settings, messages[i]);
        OnMessagesAt(settings, messages, i, done);
        failed := HandleMessage(messages[i]);
        EncodingsAppend(done.sent, first.sent);
        done := Then(done, first);
        if failed {
          return;
        }
        i := i + 1;
      }
      OnMessagesDone(settings, messages, done);
      failed := false;
    }

    /** Opens the handshake and answers packets until the transport or the server gives up. */
    method ConnectAndForward() returns (end: ClientEnd)
      requires Drive(settings, session.transportIn.incoming).end != ClientHung
      modifies session.transportIn`incoming, session.transportOut`outgoing, localConn`written
      ensures var r := Drive(settings, old(session.transportIn.incoming));
              && end == r.end
              && Since(old(session.transportOut.outgoing), old(localConn.written),
                       [HandshakeRequest(Offered(settings))] + r.sent, r.written)
    {
      hide Encode, ReadCall, OnMessages, HandshakeRequest, Encodings, AllHeld, Kept, ReassembledIn;
      ghost var sent0, written0 := session.transportOut.outgoing, localConn.written;
      ghost var queue := session.transportIn.incoming;
      ghost var hello := [HandshakeRequest(Offered(settings))];
      var pkt := EncodeHandshakeRequest(settings);
      Send(pkt);
      ghost var done := NOTHING;
      OneEncoding(hello[0]);
      while true
        invariant !done.failed
        invariant Drive(settings, queue) == DriveAfter(done, Drive(settings, session.transportIn.incoming))
        invariant Since(sent0, written0, hello + done.sent, done.written)
        decreases |session.transportIn.incoming|
      {
        var messages, status, stores := ReadMessage(session.transportIn);
        if status != ReadOk {
          end := if status == ReadPanic then ClientPanic else ClientError;
          ThenNothing(done);
          break;
        }
        ghost var r := OnMessages(settings, messages);
        var failed := HandleMessages(messages);
        EncodingsAppend(hello + done.sent, r.sent);
        assert hello + done.sent + r.sent == hello + (done.sent + r.sent);
        DriveAfterAssoc(done, r, Drive(settings, session.transportIn.incoming));
        done := Then(done, r);
        if failed {
          end := ClientError;
          break;
        }
      }
    }
  }

  function Then(a: Response, b: Response): Response {
    Response(a.sent + b.sent, a.written + b.written, b.failed)
  }

  function DriveAfter(a: Response, b: ClientRun): ClientRun {
    ClientRun(a.sent + b.sent, a.written + b.written, b.end)
  }

  lemma ThenNothing(a: Response)
    requires !a.failed
    ensures Then(a, NOTHING) == a
    ensures forall end :: DriveAfter(a, ClientRun([], [], end)) == ClientRun(a.sent, a.written, end)
  {
  }

  lemma ThenAssoc(a: Response, b: Response, c: Response)
    ensures Then(Then(a, b), c) == Then(a, Then(b, c))
    ensures Then(a, b) == Then(Then(a, b), Response([], [], b.failed))
  {
  }

  lemma OnMessagesStart(c: Settings, ms: seq<Message>)
    ensures OnMessages(c, ms) == Then(NOTHING, OnMessages(c, ms[0..]))
  {
    hide OnMessages;
    assert ms[0..] == ms;
  }

  lemma OnMessagesAt(c: Settings, ms: seq<Message>, i: nat, done: Response)
    requires i < |ms|
    requires OnMessages(c, ms) == Then(done, OnMessages(c, ms[i..]))
    ensures var first := OnMessage(c, ms[i]);
            OnMessages(c, ms)
              == if first.failed then Then(done, first) else Then(Then(done, first), OnMessages(c, ms[i + 1..]))
  {
    hide OnMessage;
    assert ms[i..][0] == ms[i] && ms[i..][1..] == ms[i + 1..];
    ThenAssoc(done, OnMessage(c, ms[i]), OnMessages(c, ms[i + 1..]));
  }

  lemma OnMessagesDone(c: Settings, ms: seq<Message>, done: Response)
    requires !done.failed && OnMessages(c, ms) == Then(done, OnMessages(c, ms[|ms|..]))
    ensures OnMessages(c, ms) == done
  {
    ThenNothing(done);
  }

  lemma DriveAfterAssoc(a: Response, b: Response, c: ClientRun)
    ensures DriveAfter(Then(a, b), c) == DriveAfter(a, DriveAfter(b, c))
    ensures DriveAfter(a, ClientRun(b.sent, b.written, c.end)) == ClientRun(Then(a, b).sent, Then(a, b).written, c.end)
  {
  }

  lemma OneEncoding(p: Packet)
    ensures Encodings([p]) == [Encode(p)]
    ensures [p] + [] == [p]
  {
    hide Encode;
  }

  // ---- refusals, and what a client does in all ----

  /** Every code of a response that is not success fails the client, except that the handshake's is read as a
      signed number and must be positive. */
  lemma CodeDecides(c: Settings, p: Packet, code: nat)
    requires code < 0x1_0000_0000
    requires || p == TunnelResponse(code)
             || p == ChannelResponse(code)
             || (exists redirect: nat, idle: nat :: p == TunnelAuthResponse(code, redirect, idle))
             || (exists major: Byte, minor: Byte, caps: nat ::
                   caps < 0x1_0000 && p == HandshakeResponse(major, minor, caps, code))
    ensures OnMessage(c, Arrival(p)).failed
       <==> code != 0 && (p.packetType == PKT_TYPE_HANDSHAKE_RESPONSE ==> code < 0x8000_0000)
    ensures OnMessage(c, Arrival(p)).failed ==> OnMessage(c, Arrival(p)) == FAILURE
    ensures !OnMessage(c, Arrival(p)).failed ==>
              OnMessage(c, Arrival(p)) == Response(NextRequest(c, p.packetType), [], false)
  {
    hide TunnelResponse, ChannelResponse, TunnelAuthResponse, HandshakeResponse, TunnelRequest, TunnelAuthRequest,
         ChannelRequest, ReadHandshakeResponse, ReadTunnelResponse, ReadTunnelAuthResponse, ReadChannelResponse;
    if p == TunnelResponse(code) {
      TunnelResponseRead(code);
    } else if p == ChannelResponse(code) {
      ChannelResponseRead(code);
    } else if exists redirect: nat, idle: nat :: p == TunnelAuthResponse(code, redirect, idle) {
      var redirect: nat, idle: nat :| p == TunnelAuthResponse(code, redirect, idle);
      TunnelAuthResponseRead(code, redirect, idle);
    } else {
      var major: Byte, minor: Byte, caps: nat :| caps < 0x1_0000 && p == HandshakeResponse(major, minor, caps, code);
      HandshakeResponseRead(major, minor, caps, code);
    }
  }

  /** What follows a successful response of some type. */
  function NextRequest(c: Settings, responseType: nat): seq<Packet> {
    if responseType == 0x2 then [TunnelRequest(c.token)]
    else if responseType == 0x5 then [TunnelAuthRequest(c.name)]
    else if responseType == 0x7 then [ChannelRequest(c.server, c.port)]
    else []
  }

  /** Messages that are neither one of the four responses nor DATA, or came with an error, are passed over. */
  lemma OthersAreNothing(c: Settings, m: Message)
    ensures !m.error.NoError? || m.packetType !in [0x2, 0x5, 0x7, 0x9, 0xA] ==> OnMessage(c, m) == NOTHING
  {
  }

  /** Before it fails, a client has answered some messages in full; from the failing one on there is nothing. */
  lemma {:induction false} FailureEnds(c: Settings, before: seq<Message>, m: Message, after: seq<Message>)
    requires !OnMessages(c, before).failed && OnMessage(c, m).failed
    ensures OnMessages(c, before + [m] + after) == OnMessages(c, before).(failed := true)
  {
    hide OnMessage;
    var all := before + [m] + after;
    FailureIsBare(c, m);
    if before == [] {
      assert all[0] == m;
    } else {
      var later := before[1..] + [m] + after;
      assert all[0] == before[0] && all[1..] == later;
      FailureEnds(c, before[1..], m, after);
    }
  }

  lemma FailureIsBare(c: Settings, m: Message)
    ensures OnMessage(c, m).failed ==> OnMessage(c, m) == FAILURE
  {
  }

  /** What a client writes to its local connection is what the DATA packets unwrap to. */
  lemma {:induction false} ClientWrites(c: Settings, ms: seq<Message>)
    requires !OnMessages(c, ms).failed
    ensures OnMessages(c, ms).written == Unwrapping(ms)
  {
    hide Unwrapped, TunnelRequest, TunnelAuthRequest, ChannelRequest, ReadHandshakeResponse, ReadTunnelResponse,
         ReadTunnelAuthResponse, ReadChannelResponse;
    if ms != [] {
      ClientWrites(c, ms[1..]);
    }
  }

  lemma {:induction false} OnMessagesAppend(c: Settings, a: seq<Message>, b: seq<Message>)
    ensures OnMessages(c, a + b)
         == if OnMessages(c, a).failed then OnMessages(c, a) else Then(OnMessages(c, a), OnMessages(c, b))
  {
    hide OnMessage;
    if a == [] {
      assert a + b == b;
    } else {
      assert (a + b)[0] == a[0] && (a + b)[1..] == a[1..] + b;
      OnMessagesAppend(c, a[1..], b);
      ThenAssoc(OnMessage(c, a[0]), OnMessages(c, a[1..]), OnMessages(c, b));
    }
  }

  /** How messages are spread over reads makes no difference to a client: it answers them until one fails it,
      which is its end, or the transport ends, which decides how. */
  lemma {:induction false} DriveIsOnMessages(c: Settings, queue: seq<Read>)
    ensures var t := AllReads(queue);
            var r := OnMessages(c, t.messages);
            Drive(c, queue) == ClientRun(r.sent, r.written, if r.failed then ClientError else ClientEndOf(t.end))
    decreases |queue|
  {
    hide OnMessage, OnMessages;
    NoMessages(c);
    var call := ReadCall(queue);
    if call.Messages? {
      OnMessagesAppend(c, call.messages, AllReads(call.queue).messages);
      DriveIsOnMessages(c, call.queue);
    }
  }

  function ClientEndOf(e: Ending): ClientEnd {
    match e case TransportFailed => ClientError case Panicked => ClientPanic case Hung => ClientHung
  }

  lemma NoMessages(c: Settings)
    ensures OnMessages(c, []) == NOTHING
  {
  }
}
