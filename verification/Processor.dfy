/** The server's side of one tunnel as the object it is: decoders, encoders, and the loop over messages. */
module Processor {
  import opened Bytes
  import opened Readers
  import opened Framing
  import opened Delivery
  import opened Transport
  import opened Relay
  import opened Utf16
  import opened RdgPackets
  import opened Session
  import opened SessionLaws

  class Gateway {
    const checkPAACookie: Check
    const checkClientName: Check
    const checkHost: Check
    const redirectFlags: RedirectFlags
    const smartCardAuth: bool
    const tokenAuth: bool
    var idleTimeout: int

    constructor (cookie: Check, client: Check, host: Check, redirect: RedirectFlags, smartCard: bool,
                 token: bool, idle: int)
    {
      checkPAACookie, checkClientName, checkHost := cookie, client, host;
      redirectFlags, smartCardAuth, tokenAuth, idleTimeout := redirect, smartCard, token, idle;
    }

    ghost function PolicyWith(dial: Bytes -> bool): Policy
      reads this
    {
      Policy(smartCardAuth, tokenAuth, checkPAACookie, checkClientName, checkHost, dial, redirectFlags,
             if idleTimeout < 0 then 0 else idleTimeout)
    }
  }

  // ---- decoders: one field after the other ----

  method DecodeField(b: Bytes) returns (text: Bytes)
    ensures text == TextOf(b)
  {
    var d := DecodeUTF16(b);
    match d
    case Text(t) => text := t;
    case OddLength => text := [];
  }

  method DecodeHandshakeRequest(data: Bytes) returns (major: Byte, minor: Byte, version: nat, extAuth: nat)
    ensures major == MajorIn(data) && minor == MinorIn(data) && extAuth == AuthIn(data)
    ensures version == Field16(data, 2)
  {
    var r := new Reader(data);
    major := r.Read8();
    minor := r.Read8();
    version := r.Read16();
    extAuth := r.Read16();
  }

  method DecodeTunnelRequest(data: Bytes) returns (caps: nat, cookie: Bytes)
    ensures caps == Field32(data, 0) && cookie == CookieIn(data)
  {
    var r := new Reader(data);
    caps := r.Read32();
    var fields := r.Read16();
    r.Skip(2);
    cookie := [];
    if fields == 1 {
      var size := r.Read16();
      var cookieB := r.ReadSome(size);
      cookie := DecodeField(cookieB);
    }
  }

  method DecodeTunnelAuthRequest(data: Bytes) returns (name: Bytes)
    ensures name == NameIn(data)
  {
    var r := new Reader(data);
    var size := r.Read16();
    var clData := r.ReadAll(size);
    name := DecodeField(clData);
  }

  method DecodeChannelRequest(data: Bytes) returns (server: Bytes, port: nat)
    ensures server == ServerIn(data) && port == PortIn(data)
  {
    var r := new Reader(data);
    var resourcesSize := r.Read8();
    var alternative := r.Read8();
    port := r.Read16();
    var protocol := r.Read16();
    var nameSize := r.Read16();
    var nameData := r.ReadAll(nameSize);
    server := DecodeField(nameData);
  }

  // ---- encoders: one field after the other ----

  method EncodeHandshakeResponse(major: Byte, minor: Byte, caps: nat, code: nat) returns (pkt: Bytes)
    ensures pkt == Encode(HandshakeResponse(major, minor, caps, code))
  {
    var buf := Put32(code);
    buf := buf + [major, minor];
    buf := buf + Put16(0);
    buf := buf + Put16(caps);
    assert buf == HandshakeResponse(major, minor, caps, code).body;
    pkt := CreatePacket(PKT_TYPE_HANDSHAKE_RESPONSE, buf);
  }

  method EncodeTunnelResponse(code: nat) returns (pkt: Bytes)
    ensures pkt == Encode(TunnelResponse(code))
  {
    var buf := Put16(0);
    buf := buf + Put32(code);
    buf := buf + Put16(3);
    buf := buf + Put16(0);
    buf := buf + Put32(TUNNEL_ID);
    buf := buf + Put32(HTTP_CAPABILITY_IDLE_TIMEOUT);
    assert buf == TunnelResponse(code).body;
    pkt := CreatePacket(PKT_TYPE_TUNNEL_RESPONSE, buf);
  }

  /** Writes a negative idle timeout back as zero before sending it. */
  method EncodeTunnelAuthResponse(gw: Gateway, code: nat) returns (pkt: Bytes)
    modifies gw`idleTimeout
    ensures forall dial :: gw.PolicyWith(dial) == old(gw.PolicyWith(dial))
    ensures forall dial :: pkt == Encode(gw.PolicyWith(dial).AuthResponse(code))
    ensures gw.idleTimeout >= 0
  {
    var buf := Put32(code);
    buf := buf + Put16(3);
    buf := buf + Put16(0);
    if gw.idleTimeout < 0 {
      gw.idleTimeout := 0;
    }
    buf := buf + Put32(RedirectBits(gw.redirectFlags));
    buf := buf + Put32(gw.idleTimeout);
    assert buf == TunnelAuthResponse(code, RedirectBits(gw.redirectFlags), gw.idleTimeout).body;
    pkt := CreatePacket(PKT_TYPE_TUNNEL_AUTH_RESPONSE, buf);
  }

  method EncodeChannelResponse(code: nat) returns (pkt: Bytes)
    ensures pkt == Encode(ChannelResponse(code))
  {
    var buf := Put32(code);
    buf := buf + Put16(1);
    buf := buf + Put16(0);
    buf := buf + Put32(1);
    assert buf == ChannelResponse(code).body;
    pkt := CreatePacket(PKT_TYPE_CHANNEL_RESPONSE, buf);
  }

  method EncodeChannelCloseResponse(code: nat) returns (pkt: Bytes)
    ensures pkt == Encode(ChannelCloseResponse(code))
  {
    var buf := Put32(code);
    buf := buf + Put16(1);
    buf := buf + Put16(0);
    buf := buf + Put32(1);
    assert buf == ChannelCloseResponse(code).body;
    pkt := CreatePacket(PKT_TYPE_CLOSE_CHANNEL_RESPONSE, buf);
  }

  // ---- what events mean for the outside ----

  function SentBytes(es: seq<Event>): seq<Bytes> {
    Encodings(Responses(es))
  }

  /** The target recorded last by a successful dial. */
  function TargetAfter(target: Bytes, es: seq<Event>): Bytes
    decreases |es|
  {
    if es == [] then target
    else TargetAfter(if es[0].Dialled? && es[0].ok then es[0].host else target, es[1..])
  }

  lemma {:induction false} EventsAppend(a: seq<Event>, b: seq<Event>, target: Bytes)
    ensures TargetAfter(target, a + b) == TargetAfter(TargetAfter(target, a), b)
    decreases |a|
  {
    if a == [] {
      assert a + b == b;
    } else {
      EventsAppend(a[1..], b, if a[0].Dialled? && a[0].ok then a[0].host else target);
      assert (a + b)[1..] == a[1..] + b;
    }
  }

  lemma EventAppend(es: seq<Event>, e: Event, target: Bytes)
    ensures SentBytes(es + [e]) == SentBytes(es) + if e.Sent? then [Encode(e.packet)] else []
    ensures DeliveredBytes(es + [e]) == DeliveredBytes(es) + if e.Delivered? then e.data else []
    ensures TargetAfter(target, es + [e]) == if e.Dialled? && e.ok then e.host else TargetAfter(target, es)
  {
    hide Encode;
    EventsAppend(es, [e], target);
    DeliveredAppend(es, [e]);
    ResponsesAppend(es, [e]);
    EncodingsAppend(Responses(es), Responses([e]));
    assert Responses([e]) == if e.Sent? then [e.packet] else [];
    assert Encodings(Responses([e])) == if e.Sent? then [Encode(e.packet)] else [];
  }

  lemma {:induction false} TargetKept(target: Bytes, es: seq<Event>)
    requires forall e | e in es :: !(e.Dialled? && e.ok)
    ensures TargetAfter(target, es) == target
  {
    if es != [] {
      assert es[0] in es && forall e | e in es[1..] :: e in es;
      TargetKept(target, es[1..]);
    }
  }

  /** With one dial at most, the target recorded is the host that was reached. */
  lemma TargetIsDialled(p: Policy, target: Bytes, es: seq<Event>, host: Bytes)
    requires DialsChecked(p, es) && Dialled(host, true) in es
    ensures TargetAfter(target, es) == host
  {
    hide TargetAfter, CookieAccepted, NameAccepted, HostAccepted;
    var i :| 0 <= i < |es| && es[i] == Dialled(host, true);
    assert es == es[..i] + ([es[i]] + es[i + 1..]);
    EventsAppend(es[..i], [es[i]] + es[i + 1..], target);
    EventsAppend([es[i]], es[i + 1..], TargetAfter(target, es[..i]));
    OneTarget(TargetAfter(target, es[..i]), es[i]);
    TargetKept(host, es[i + 1..]);
  }

  lemma OneTarget(target: Bytes, e: Event)
    ensures TargetAfter(target, [e]) == if e.Dialled? && e.ok then e.host else target
  {
  }

  class Processor {
    const gw: Gateway
    const tunnel: Tunnel
    /** The network: which hosts can be reached, and the connection a successful dial yields. */
    const dial: Bytes -> bool
    const backend: Conn
    var state: nat
    ghost var log: seq<Event>
    ghost const sent0: seq<Bytes>
    ghost const delivered0: Bytes
    ghost const target0: Bytes

    /** The outside is what the logged events make it. */
    ghost predicate Valid()
      reads this, tunnel, tunnel.transportOut, backend
    {
      && state <= CLOSED
      && (state >= CHANNEL_CREATE ==> tunnel.rwc == backend)
      && tunnel.transportOut.outgoing == sent0 + SentBytes(log)
      && backend.written == delivered0 + DeliveredBytes(log)
      && tunnel.targetServer == TargetAfter(target0, log)
    }

    ghost function CurrentPolicy(): Policy
      reads gw
    {
      gw.PolicyWith(dial)
    }

    constructor (gw: Gateway, tunnel: Tunnel, dial: Bytes -> bool, backend: Conn)
      ensures Valid() && state == INITIALIZED && log == []
      ensures this.gw == gw && this.tunnel == tunnel && this.dial == dial && this.backend == backend
      ensures sent0 == tunnel.transportOut.outgoing && delivered0 == backend.written && target0 == tunnel.targetServer
    {
      this.gw, this.tunnel, this.dial, this.backend := gw, tunnel, dial, backend;
      state, log := INITIALIZED, [];
      sent0, delivered0, target0 := tunnel.transportOut.outgoing, backend.written, tunnel.targetServer;
    }

    ghost method Note(e: Event)
      requires !e.Sent? && !e.Delivered? && !(e.Dialled? && e.ok)
      requires Valid()
      modifies this`log
      ensures Valid() && log == old(log) + [e]
    {
      EventAppend(log, e, target0);
      log := log + [e];
      assert sent0 + (SentBytes(old(log)) + []) == sent0 + SentBytes(old(log));
    }

    method Send(ghost packet: Packet, pkt: Bytes)
      requires pkt == Encode(packet)
      requires Valid()
      modifies this`log, tunnel`bytesSent, tunnel.transportOut`outgoing
      ensures Valid() && log == old(log) + [Sent(packet)]
    {
      hide Encode;
      EventAppend(log, Sent(packet), target0);
      tunnel.Write(pkt);
      log := log + [Sent(packet)];
    }

    /** The outcome `s` is what has happened since the log was `before`. */
    twostate predicate Happened(s: Outcome)
      reads this, gw, tunnel, tunnel.transportOut, backend
    {
      && Valid()
      && CurrentPolicy() == old(CurrentPolicy())
      && state == s.state
      && log == old(log) + s.events
    }

    method HandleHandshake(body: Bytes) returns (v: Verdict)
      requires Valid()
      modifies this`state, this`log, tunnel`bytesSent, tunnel.transportOut`outgoing
      ensures Happened(OnHandshake(CurrentPolicy(), old(state), body))
      ensures v == OnHandshake(CurrentPolicy(), old(state), body).verdict
    {
      hide Encode;
      if state != INITIALIZED {
        var msg := EncodeHandshakeResponse(0, 0, 0, E_PROXY_INTERNALERROR);
        Send(HandshakeResponse(0, 0, 0, E_PROXY_INTERNALERROR), msg);
        return ReturnError;
      }
      var major, minor, version, reqAuth := DecodeHandshakeRequest(body);
      var caps := MatchAuthCaps(reqAuth);
      if caps.Mismatch? {
        var msg := EncodeHandshakeResponse(0, 0, 0, E_PROXY_CAPABILITYMISMATCH);
        Send(HandshakeResponse(0, 0, 0, E_PROXY_CAPABILITYMISMATCH), msg);
        return ReturnError;
      }
      var msg := EncodeHandshakeResponse(major, minor, caps.caps, ERROR_SUCCESS);
      Send(HandshakeResponse(major, minor, caps.caps, ERROR_SUCCESS), msg);
      state := HANDSHAKE;
      return Continue;
    }

    method MatchAuthCaps(offered: nat) returns (m: Match)
      requires offered < 0x1_0000
      ensures m == MatchAuth(CurrentPolicy(), offered)
    {
      var caps: bv16 := 0;
      if gw.smartCardAuth {
        caps := caps | 1;
      }
      if gw.tokenAuth {
        caps := caps | 2;
      }
      var client := offered as bv16;
      if caps & client == 0 && offered > 0 {
        return Mismatch;
      }
      if caps > 0 && offered == 0 {
        return Mismatch;
      }
      return Caps(caps as nat);
    }

    method HandleTunnelCreate(body: Bytes) returns (v: Verdict)
      requires Valid()
      modifies this`state, this`log, tunnel`bytesSent, tunnel.transportOut`outgoing
      ensures Happened(OnTunnelCreate(CurrentPolicy(), old(state), body))
      ensures v == OnTunnelCreate(CurrentPolicy(), old(state), body).verdict
    {
      hide Encode, SentBytes, DeliveredBytes, TargetAfter;
      if state != HANDSHAKE {
        var msg := EncodeTunnelResponse(E_PROXY_INTERNALERROR);
        Send(TunnelResponse(E_PROXY_INTERNALERROR), msg);
        return ReturnError;
      }
      var _, cookie := DecodeTunnelRequest(body);
      if gw.checkPAACookie.CheckWith? {
        var ok := gw.checkPAACookie.accepts(cookie);
        Note(CookieChecked(cookie, ok));
        if !ok {
          var msg := EncodeTunnelResponse(E_PROXY_COOKIE_AUTHENTICATION_ACCESS_DENIED);
          Send(TunnelResponse(E_PROXY_COOKIE_AUTHENTICATION_ACCESS_DENIED), msg);
          return ReturnError;
        }
      }
      var msg := EncodeTunnelResponse(ERROR_SUCCESS);
      Send(TunnelResponse(ERROR_SUCCESS), msg);
      state := TUNNEL_CREATE;
      return Continue;
    }

    method HandleTunnelAuth(body: Bytes) returns (v: Verdict)
      requires Valid()
      modifies this`state, this`log, gw`idleTimeout, tunnel`bytesSent, tunnel.transportOut`outgoing
      ensures Happened(OnTunnelAuth(old(CurrentPolicy()), old(state), body))
      ensures v == OnTunnelAuth(old(CurrentPolicy()), old(state), body).verdict
    {
      hide Encode, SentBytes, DeliveredBytes, TargetAfter;
      if state != TUNNEL_CREATE {
        var msg := EncodeTunnelAuthResponse(gw, E_PROXY_INTERNALERROR);
        Send(CurrentPolicy().AuthResponse(E_PROXY_INTERNALERROR), msg);
        return ReturnError;
      }
      var client := DecodeTunnelAuthRequest(body);
      if gw.checkClientName.CheckWith? {
        var ok := gw.checkClientName.accepts(client);
        Note(NameChecked(client, ok));
        if !ok {
          var msg := EncodeTunnelAuthResponse(gw, ERROR_ACCESS_DENIED);
          Send(CurrentPolicy().AuthResponse(ERROR_ACCESS_DENIED), msg);
          return ReturnError;
        }
      }
      var msg := EncodeTunnelAuthResponse(gw, ERROR_SUCCESS);
      Send(CurrentPolicy().AuthResponse(ERROR_SUCCESS), msg);
      state := TUNNEL_AUTHORIZE;
      return Continue;
    }

    /** Dials `host`; on success the tunnel has its connection and its target. */
    method Dial(host: Bytes) returns (ok: bool)
      requires Valid() && state < CHANNEL_CREATE
      modifies this`log, tunnel`rwc, tunnel`targetServer
      ensures Valid() && ok == dial(host) && log == old(log) + [Dialled(host, ok)]
      ensures ok ==> tunnel.rwc == backend
    {
      ok := dial(host);
      EventAppend(log, Dialled(host, ok), target0);
      tunnel.rwc := if ok then backend else null;
      if ok {
        tunnel.targetServer := host;
      }
      log := log + [Dialled(host, ok)];
      assert sent0 + (SentBytes(old(log)) + []) == sent0 + SentBytes(old(log));
    }

    /** Asks the host check, if there is one. */
    method HostAllowed(host: Bytes) returns (ok: bool)
      requires Valid()
      modifies this`log
      ensures Valid() && ok == gw.checkHost.Allows(host)
      ensures log == old(log) + if gw.checkHost.Unset? then [] else [HostChecked(host, ok)]
    {
      ok := true;
      if gw.checkHost.CheckWith? {
        ok := gw.checkHost.accepts(host);
        Note(HostChecked(host, ok));
      }
    }

    /** Dials an allowed host, answers, and starts the forwarder. */
    method OpenChannel(host: Bytes) returns (v: Verdict)
      requires Valid() && state == TUNNEL_AUTHORIZE
      modifies this`state, this`log, tunnel`bytesSent, tunnel`rwc, tunnel`targetServer, tunnel.transportOut`outgoing
      ensures Valid()
      ensures state == if dial(host) then CHANNEL_CREATE else old(state)
      ensures log == old(log) + [Dialled(host, dial(host))]
                     + if dial(host) then [Sent(ChannelResponse(ERROR_SUCCESS)), ForwardStarted]
                       else [Sent(ChannelResponse(E_PROXY_INTERNALERROR))]
      ensures v == if dial(host) then Continue else ReturnError
    {
      hide Encode, ChannelResponse, SentBytes, DeliveredBytes, TargetAfter;
      var dialled := Dial(host);
      if !dialled {
        var msg := EncodeChannelResponse(E_PROXY_INTERNALERROR);
        Send(ChannelResponse(E_PROXY_INTERNALERROR), msg);
        return ReturnError;
      }
      var msg := EncodeChannelResponse(ERROR_SUCCESS);
      Send(ChannelResponse(ERROR_SUCCESS), msg);
      Note(ForwardStarted);
      state := CHANNEL_CREATE;
      return Continue;
    }

    method HandleChannelCreate(body: Bytes) returns (v: Verdict)
      requires Valid()
      modifies this`state, this`log, tunnel`bytesSent, tunnel`rwc, tunnel`targetServer, tunnel.transportOut`outgoing
      ensures Happened(OnChannelCreate(CurrentPolicy(), old(state), body))
      ensures v == OnChannelCreate(CurrentPolicy(), old(state), body).verdict
    {
      hide Encode, ServerIn, PortIn, ChannelResponse, JoinHostPort, SentBytes, DeliveredBytes, TargetAfter;
      if state != TUNNEL_AUTHORIZE {
        var msg := EncodeChannelResponse(E_PROXY_INTERNALERROR);
        Send(ChannelResponse(E_PROXY_INTERNALERROR), msg);
        return ReturnError;
      }
      var server, port := DecodeChannelRequest(body);
      var host := JoinHostPort(server, port);
      var ok := HostAllowed(host);
      if !ok {
        var msg := EncodeChannelResponse(E_PROXY_RAP_ACCESSDENIED);
        Send(ChannelResponse(E_PROXY_RAP_ACCESSDENIED), msg);
        return ReturnError;
      }
      v := OpenChannel(host);
    }

    method HandleData(body: Bytes) returns (v: Verdict)
      requires Valid()
      modifies this`state, this`log, backend`written
      ensures Happened(OnData(old(state), body))
      ensures v == OnData(old(state), body).verdict
    {
      hide Encode, Unwrapped, SentBytes, DeliveredBytes, TargetAfter;
      if state < CHANNEL_CREATE {
        return ReturnError;
      }
      state := OPENED;
      EventAppend(log, Delivered(Unwrapped(body)), target0);
      Receive(body, tunnel.rwc);
      log := log + [Delivered(Unwrapped(body))];
      assert sent0 + (SentBytes(old(log)) + []) == sent0 + SentBytes(old(log));
      return Continue;
    }

    method HandleClose() returns (v: Verdict)
      requires Valid()
      modifies this`state, this`log, tunnel`bytesSent, tunnel.transportOut`outgoing
      ensures Happened(OnClose(old(state)))
      ensures v == OnClose(old(state)).verdict
    {
      hide Encode;
      if state != OPENED {
        return ReturnError;
      }
      var msg := EncodeChannelCloseResponse(ERROR_SUCCESS);
      Send(ChannelCloseResponse(ERROR_SUCCESS), msg);
      state := CLOSED;
      return ReturnNil;
    }

    method HandleMessage(m: Message) returns (v: Verdict)
      requires Valid()
      modifies this`state, this`log, gw`idleTimeout, backend`written, tunnel.transportOut`outgoing
      modifies tunnel`bytesSent, tunnel`rwc, tunnel`targetServer
      ensures Happened(Step(old(CurrentPolicy()), old(state), m))
      ensures v == Step(old(CurrentPolicy()), old(state), m).verdict
    {
      hide OnHandshake, OnTunnelCreate, OnTunnelAuth, OnChannelCreate, OnData, OnClose;
      if !m.error.NoError? {
        return Continue;
      }
      match m.packetType {
        case 0x1 => v := HandleHandshake(m.body);
        case 0x4 => v := HandleTunnelCreate(m.body);
        case 0x6 => v := HandleTunnelAuth(m.body);
        case 0x8 => v := HandleChannelCreate(m.body);
        case 0xA => v := HandleData(m.body);
        case 0xD => v := if state < CHANNEL_CREATE then ReturnError else Continue;
        case 0x10 => v := HandleClose();
        case _ => v := Continue;
      }
    }

    /** The messages of one read, until one of them ends the session. */
    method HandleMessages(messages: seq<Message>) returns (v: Verdict)
      requires Valid()
      modifies this`state, this`log, gw`idleTimeout, backend`written, tunnel.transportOut`outgoing
      modifies tunnel`bytesSent, tunnel`rwc, tunnel`targetServer
      ensures Happened(Run(old(CurrentPolicy()), old(state), messages))
      ensures v == Run(old(CurrentPolicy()), old(state), messages).verdict
    {
      hide Step;
      ghost var policy := CurrentPolicy();
      ghost var spec := Run(policy, state, messages);
      var i := 0;
      RunOfNothing(policy, state);
      while i < |messages|
        invariant 0 <= i <= |messages|
        invariant Valid() && CurrentPolicy() == policy
        invariant var now := Run(policy, state, messages[i..]);
                  spec.state == now.state && spec.verdict == now.verdict && old(log) + spec.events == log + now.events
      {
        ghost var before, log0 := state, log;
        v := HandleMessage(messages[i]);
        assert messages[i..][0] == messages[i] && messages[i..][1..] == messages[i + 1..];
        if v != Continue {
          return;
        }
        assert log0 + (Step(policy, before, messages[i]).events + Run(policy, state, messages[i + 1..]).events)
            == log + Run(policy, state, messages[i + 1..]).events;
        i := i + 1;
      }
      RunOfNothing(policy, state);
      assert messages[i..] == [];
      assert log + [] == log;
      return Continue;
    }

    /** The session. Besides the log it leaves behind, what the remote desktop was given is what the DATA packets
        it took unwrap to. */
    method Process() returns (end: SessionEnd)
      requires Valid()
      requires Serve(CurrentPolicy(), state, tunnel.transportIn.incoming).end != EndedHung
      modifies this`state, this`log, gw`idleTimeout, backend`written
      modifies tunnel, tunnel.transportOut`outgoing, tunnel.transportIn`incoming
      ensures var r := Serve(old(CurrentPolicy()), old(state), old(tunnel.transportIn.incoming));
              && Valid()
              && end == r.end
              && state == r.state
              && log == old(log) + r.events
      ensures backend.written
           == old(backend.written)
              + Unwrapping(Taken(old(CurrentPolicy()), old(state), AllReads(old(tunnel.transportIn.incoming)).messages))
      ensures old(state) == INITIALIZED ==>
                forall e | e in Serve(old(CurrentPolicy()), INITIALIZED, old(tunnel.transportIn.incoming)).events
                           && e.Dialled? && e.ok :: tunnel.targetServer == e.host
    {
      hide Serve, AllReads, Taken, Unwrapping, SentBytes, DeliveredBytes, TargetAfter, DialsChecked;
      ghost var log0, queue0 := log, tunnel.transportIn.incoming;
      ghost var written0 := backend.written;
      end := Converse();
      ghost var events := Serve(old(CurrentPolicy()), old(state), queue0).events;
      SessionDelivers(old(CurrentPolicy()), old(state), queue0);
      DeliveredAppend(log0, events);
      assert backend.written == delivered0 + (DeliveredBytes(log0) + DeliveredBytes(events));
      EventsAppend(log0, events, target0);
      if old(state) == INITIALIZED {
        DialIsChecked(old(CurrentPolicy()), queue0);
        forall e | e in events && e.Dialled? && e.ok ensures tunnel.targetServer == e.host {
          TargetIsDialled(old(CurrentPolicy()), TargetAfter(target0, log0), events, e.host);
        }
      }
    }

    /** Its loop: read, handle, until the transport fails or a message ends it. */
    method Converse() returns (end: SessionEnd)
      requires Valid()
      requires Serve(CurrentPolicy(), state, tunnel.transportIn.incoming).end != EndedHung
      modifies this`state, this`log, gw`idleTimeout, backend`written
      modifies tunnel, tunnel.transportOut`outgoing, tunnel.transportIn`incoming
      ensures var r := Serve(old(CurrentPolicy()), old(state), old(tunnel.transportIn.incoming));
              && Valid()
              && end == r.end
              && state == r.state
              && log == old(log) + r.events
    {
      hide Run, Step, ReadCall, AllHeld, Kept, ReassembledIn, SentBytes, DeliveredBytes, TargetAfter;
      ghost var policy := CurrentPolicy();
      ghost var spec := Serve(policy, state, tunnel.transportIn.incoming);
      while true
        invariant Valid() && CurrentPolicy() == policy
        invariant var now := Serve(policy, state, tunnel.transportIn.incoming);
                  spec.state == now.state && spec.end == now.end && old(log) + spec.events == log + now.events
        decreases |tunnel.transportIn.incoming|
      {
        ghost var before, log0, queue := state, log, tunnel.transportIn.incoming;
        var messages, status, stores := tunnel.ReadMessages();
        if status != ReadOk {
          assert log + [] == log;
          return if status == ReadPanic then EndedPanic else EndedError;
        }
        var v := HandleMessages(messages);
        if v != Continue {
          return if v == ReturnNil then EndedNil else EndedError;
        }
        assert log0 + (Run(policy, before, messages).events + Serve(policy, state, tunnel.transportIn.incoming).events)
            == log + Serve(policy, state, tunnel.transportIn.incoming).events;
      }
    }
  }
}
