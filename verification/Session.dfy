/** The server's session as a function of the messages it is given: responses, checks, the dial, the end. */
module Session {
  import opened Bytes
  import opened Framing
  import opened Delivery
  import opened Relay
  import RdpText
  import opened RdgPackets

  const INITIALIZED: nat := 0
  const HANDSHAKE: nat := 1
  const TUNNEL_CREATE: nat := 2
  const TUNNEL_AUTHORIZE: nat := 3
  const CHANNEL_CREATE: nat := 4
  const OPENED: nat := 5
  const CLOSED: nat := 6

  /** A policy hook that may not be configured. */
  datatype Check = Unset | CheckWith(accepts: Bytes -> bool) {
    predicate Allows(s: Bytes) {
      Unset? || accepts(s)
    }
  }

  datatype RedirectFlags = RedirectFlags(clipboard: bool, port: bool, drive: bool, printer: bool, pnp: bool,
                                         disableAll: bool, enableAll: bool)

  function RedirectBits(f: RedirectFlags): (n: nat)
    ensures n < 0x1_0000_0000
  {
    if f.disableAll then 0x4000_0000
    else if f.enableAll then 0x8000_0000
    else (if f.port then 0 else 4) + (if f.clipboard then 0 else 8) + (if f.drive then 0 else 1)
         + (if f.pnp then 0 else 16) + (if f.printer then 0 else 2)
  }

  /** Each device that may not be redirected has its own bit, unless all are decided at once. */
  lemma RedirectBitsMeaning(f: RedirectFlags)
    ensures f.disableAll <==> RedirectBits(f) == 0x4000_0000
    ensures f.enableAll && !f.disableAll <==> RedirectBits(f) == 0x8000_0000
    ensures !f.disableAll && !f.enableAll ==>
              var n := RedirectBits(f);
              && n < 32
              && (HasBit(n, 1) <==> !f.drive) && (HasBit(n, 2) <==> !f.printer) && (HasBit(n, 4) <==> !f.port)
              && (HasBit(n, 8) <==> !f.clipboard) && (HasBit(n, 16) <==> !f.pnp)
  {
  }

  /** The gateway's settings and hooks; `dial` says which hosts can be reached. */
  datatype Policy = Policy(smartCard: bool, token: bool, cookie: Check, client: Check, host: Check,
                           dial: Bytes -> bool, redirect: RedirectFlags, idle: nat)
  {
    function AuthResponse(code: nat): Packet {
      TunnelAuthResponse(code, RedirectBits(redirect), idle)
    }
  }

  /** The client reads the policy's redirect flags and idle timeout where they belong. */
  lemma AuthResponseRead(p: Policy)
    ensures ReadTunnelAuthResponse(p.AuthResponse(ERROR_SUCCESS).body)
         == Reply((RedirectBits(p.redirect), p.idle % 0x1_0000_0000))
  {
    hide RedirectBits, ReadTunnelAuthResponse, TunnelAuthResponse;
    TunnelAuthResponseRead(ERROR_SUCCESS, RedirectBits(p.redirect), p.idle);
  }

  // ---- names and capabilities ----

  /** Decimal digits as bytes. */
  function Decimal(n: nat): (d: Bytes)
    ensures d != [] && forall i | 0 <= i < |d| :: 48 <= d[i] < 58
  {
    var s := RdpText.Digits(n);
    assert forall i | 0 <= i < |s| :: s[i] in s;
    seq(|s|, i requires 0 <= i < |s| => s[i] as int)
  }

  /** net.JoinHostPort; a host with a colon in it is bracketed. */
  function JoinHostPort(host: Bytes, port: nat): Bytes {
    if 58 in host then [91] + host + [93, 58] + Decimal(port) else host + [58] + Decimal(port)
  }

  lemma DecimalIsExact(n: nat, m: nat)
    requires Decimal(n) == Decimal(m)
    ensures n == m
  {
    hide RdpText.Digits, RdpText.DigitsValue;
    var s, t := RdpText.Digits(n), RdpText.Digits(m);
    assert |s| == |Decimal(n)| == |t|;
    forall i | 0 <= i < |s| ensures s[i] == t[i] {
      assert Decimal(n)[i] == s[i] as int && Decimal(m)[i] == t[i] as int;
    }
    assert s == t;
    RdpText.DigitsRead(n);
    RdpText.DigitsRead(m);
  }

  /** What follows the last colon of one string follows it in the other. */
  lemma SameTail(a: Bytes, x: Bytes, b: Bytes, y: Bytes)
    requires a + [58] + x == b + [58] + y && 58 !in x && 58 !in y
    ensures a == b && x == y
  {
    var s := a + [58] + x;
    assert s[|a|] == 58 && s[|b|] == 58;
    assert forall i | |a| < i < |s| :: s[i] == x[i - |a| - 1];
    assert forall i | |b| < i < |s| :: s[i] == (b + [58] + y)[i] == y[i - |b| - 1];
    assert |a| == |b|;
    assert a == s[..|a|] && b == s[..|b|] && x == s[|a| + 1..] && y == s[|b| + 1..];
  }

  /** The string that is checked and dialled determines the server and the port. */
  lemma HostStringIsExact(host: Bytes, port: nat, host': Bytes, port': nat)
    requires JoinHostPort(host, port) == JoinHostPort(host', port')
    ensures host == host' && port == port'
  {
    hide Decimal;
    var left := if 58 in host then [91] + host + [93] else host;
    var left' := if 58 in host' then [91] + host' + [93] else host';
    assert [93, 58] == [93] + [58];
    assert JoinHostPort(host, port) == left + [58] + Decimal(port);
    assert JoinHostPort(host', port') == left' + [58] + Decimal(port');
    SameTail(left, Decimal(port), left', Decimal(port'));
    DecimalIsExact(port, port');
    if 58 in host {
      Bracketed(host);
      if 58 in host' { Bracketed(host'); }
    } else if 58 in host' {
      Bracketed(host');
    }
  }

  lemma Bracketed(host: Bytes)
    requires 58 in host
    ensures ([91] + host + [93])[1..|host| + 1] == host && 58 in [91] + host + [93]
  {
    var i: nat :| i < |host| && host[i] == 58;
    assert ([91] + host + [93])[i + 1] == 58;
  }

  function HostIn(data: Bytes): Bytes {
    JoinHostPort(ServerIn(data), PortIn(data))
  }

  datatype Match = Caps(caps: nat) | Mismatch

  /** Whether some mechanism is both configured and offered. */
  predicate Shares(p: Policy, offered: nat) {
    (p.smartCard && HasBit(offered, 1)) || (p.token && HasBit(offered, 2))
  }

  function MatchAuth(p: Policy, offered: nat): (m: Match)
    ensures m.Caps? <==> Shares(p, offered) || (offered == 0 && !p.smartCard && !p.token)
    ensures m.Caps? ==> m.caps < 4
  {
    var caps := (if p.smartCard then 1 else 0) + (if p.token then 2 else 0);
    if !Shares(p, offered) && offered > 0 then Mismatch
    else if caps > 0 && offered == 0 then Mismatch
    else Caps(caps)
  }

  /** The answer names exactly the mechanisms that are demanded. */
  lemma MatchAuthNames(p: Policy, offered: nat)
    ensures var m := MatchAuth(p, offered);
            m.Caps? ==> (HasBit(m.caps, 1) <==> p.smartCard) && (HasBit(m.caps, 2) <==> p.token)
  {
  }

  // ---- one message ----

  datatype Event =
    | CookieChecked(cookie: Bytes, ok: bool)
    | NameChecked(name: Bytes, ok: bool)
    | HostChecked(host: Bytes, ok: bool)
    | Dialled(host: Bytes, ok: bool)
    | Sent(packet: Packet)
    | ForwardStarted
    | Delivered(data: Bytes)

  datatype Verdict = Continue | ReturnNil | ReturnError

  datatype Outcome = Outcome(state: nat, events: seq<Event>, verdict: Verdict)

  function Answer(state: nat, events: seq<Event>, packet: Packet): Outcome {
    Outcome(state, events + [Sent(packet)], Continue)
  }

  function Refuse(state: nat, events: seq<Event>, packet: Packet): Outcome {
    Outcome(state, events + [Sent(packet)], ReturnError)
  }

  function OnHandshake(p: Policy, state: nat, body: Bytes): Outcome {
    if state != INITIALIZED then Refuse(state, [], HandshakeResponse(0, 0, 0, E_PROXY_INTERNALERROR))
    else
      match MatchAuth(p, AuthIn(body))
      case Mismatch => Refuse(state, [], HandshakeResponse(0, 0, 0, E_PROXY_CAPABILITYMISMATCH))
      case Caps(caps) => Answer(HANDSHAKE, [], HandshakeResponse(MajorIn(body), MinorIn(body), caps, ERROR_SUCCESS))
  }

  function OnTunnelCreate(p: Policy, state: nat, body: Bytes): Outcome {
    if state != HANDSHAKE then Refuse(state, [], TunnelResponse(E_PROXY_INTERNALERROR))
    else
      var cookie := CookieIn(body);
      var ok := p.cookie.Allows(cookie);
      var asked := if p.cookie.Unset? then [] else [CookieChecked(cookie, ok)];
      if !ok then Refuse(state, asked, TunnelResponse(E_PROXY_COOKIE_AUTHENTICATION_ACCESS_DENIED))
      else Answer(TUNNEL_CREATE, asked, TunnelResponse(ERROR_SUCCESS))
  }

  function OnTunnelAuth(p: Policy, state: nat, body: Bytes): Outcome {
    if state != TUNNEL_CREATE then Refuse(state, [], p.AuthResponse(E_PROXY_INTERNALERROR))
    else
      var name := NameIn(body);
      var ok := p.client.Allows(name);
      var asked := if p.client.Unset? then [] else [NameChecked(name, ok)];
      if !ok then Refuse(state, asked, p.AuthResponse(ERROR_ACCESS_DENIED))
      else Answer(TUNNEL_AUTHORIZE, asked, p.AuthResponse(ERROR_SUCCESS))
  }

  function OnChannelCreate(p: Policy, state: nat, body: Bytes): Outcome {
    if state != TUNNEL_AUTHORIZE then Refuse(state, [], ChannelResponse(E_PROXY_INTERNALERROR))
    else
      var host := HostIn(body);
      var ok := p.host.Allows(host);
      var asked := if p.host.Unset? then [] else [HostChecked(host, ok)];
      if !ok then Refuse(state, asked, ChannelResponse(E_PROXY_RAP_ACCESSDENIED))
      else if !p.dial(host) then
        Outcome(state, asked + [Dialled(host, false), Sent(ChannelResponse(E_PROXY_INTERNALERROR))], ReturnError)
      else
        Outcome(CHANNEL_CREATE,
                asked + [Dialled(host, true), Sent(ChannelResponse(ERROR_SUCCESS)), ForwardStarted], Continue)
  }

  function OnData(state: nat, body: Bytes): Outcome {
    if state < CHANNEL_CREATE then Outcome(state, [], ReturnError)
    else Outcome(OPENED, [Delivered(Unwrapped(body))], Continue)
  }

  function OnKeepalive(state: nat): Outcome {
    Outcome(state, [], if state < CHANNEL_CREATE then ReturnError else Continue)
  }

  function OnClose(state: nat): Outcome {
    if state != OPENED then Outcome(state, [], ReturnError)
    else Outcome(CLOSED, [Sent(ChannelCloseResponse(ERROR_SUCCESS))], ReturnNil)
  }

  function Step(p: Policy, state: nat, m: Message): Outcome {
    if !m.error.NoError? then Outcome(state, [], Continue)
    else if m.packetType == PKT_TYPE_HANDSHAKE_REQUEST then OnHandshake(p, state, m.body)
    else if m.packetType == PKT_TYPE_TUNNEL_CREATE then OnTunnelCreate(p, state, m.body)
    else if m.packetType == PKT_TYPE_TUNNEL_AUTH then OnTunnelAuth(p, state, m.body)
    else if m.packetType == PKT_TYPE_CHANNEL_CREATE then OnChannelCreate(p, state, m.body)
    else if m.packetType == PKT_TYPE_DATA then OnData(state, m.body)
    else if m.packetType == PKT_TYPE_KEEPALIVE then OnKeepalive(state)
    else if m.packetType == PKT_TYPE_CLOSE_CHANNEL then OnClose(state)
    else Outcome(state, [], Continue)
  }

  /** The loop over messages: on until one of them ends the session. */
  function Run(p: Policy, state: nat, ms: seq<Message>): Outcome
    decreases |ms|
  {
    if ms == [] then Outcome(state, [], Continue)
    else
      var first := Step(p, state, ms[0]);
      if !first.verdict.Continue? then first
      else
        var later := Run(p, first.state, ms[1..]);
        Outcome(later.state, first.events + later.events, later.verdict)
  }

  /** An accepted handshake is answered with the version it came with, and the client reads from it what the
      server demands. */
  lemma HandshakeAnswer(p: Policy, body: Bytes)
    requires OnHandshake(p, INITIALIZED, body).verdict.Continue? && |body| >= 2
    ensures var es := OnHandshake(p, INITIALIZED, body).events;
            && |es| == 1 && es[0].Sent?
            && es[0].packet.body[4..6] == body[..2]
            && var r := ReadHandshakeResponse(es[0].packet.body);
               r.Reply? && (HasBit(r.value, 1) <==> p.smartCard) && (HasBit(r.value, 2) <==> p.token)
  {
    hide Put16, Put32, ReadHandshakeResponse, CodeOf, HasBit;
    var m := MatchAuth(p, AuthIn(body));
    MatchAuthNames(p, AuthIn(body));
    HandshakeResponseRead(MajorIn(body), MinorIn(body), m.caps, ERROR_SUCCESS);
  }

  // ---- whole sessions ----

  datatype SessionEnd = EndedNil | EndedError | EndedPanic | EndedHung

  datatype SessionRun = SessionRun(state: nat, events: seq<Event>, end: SessionEnd)

  /** Process: reads and messages in turn. */
  function Serve(p: Policy, state: nat, queue: seq<Read>): SessionRun
    decreases |queue|
  {
    match ReadCall(queue)
    case Failed(_) => SessionRun(state, [], EndedError)
    case Panics => SessionRun(state, [], EndedPanic)
    case Diverges => SessionRun(state, [], EndedHung)
    case Messages(ms, rest) =>
      var r := Run(p, state, ms);
      match r.verdict
      case ReturnNil => SessionRun(r.state, r.events, EndedNil)
      case ReturnError => SessionRun(r.state, r.events, EndedError)
      case Continue =>
        assert |rest| < |queue|;
        var later := Serve(p, r.state, rest);
        SessionRun(later.state, r.events + later.events, later.end)
  }

  function EndOf(v: Verdict, reading: Ending): SessionEnd {
    match v
    case ReturnNil => EndedNil
    case ReturnError => EndedError
    case Continue => match reading case TransportFailed => EndedError case Panicked => EndedPanic case Hung => EndedHung
  }

  lemma {:induction false} RunAppend(p: Policy, state: nat, a: seq<Message>, b: seq<Message>)
    ensures var first := Run(p, state, a);
            Run(p, state, a + b) ==
            if !first.verdict.Continue? then first
            else var later := Run(p, first.state, b);
                 Outcome(later.state, first.events + later.events, later.verdict)
    decreases |a|
  {
    hide Step;
    if a == [] {
      assert a + b == b;
      assert [] + Run(p, state, b).events == Run(p, state, b).events;
    } else {
      assert (a + b)[1..] == a[1..] + b;
      var s := Step(p, state, a[0]);
      if s.verdict.Continue? {
        RunAppend(p, s.state, a[1..], b);
      }
    }
  }

  /** How messages are spread over reads makes no difference to a session. */
  lemma {:induction false} ServeIsRun(p: Policy, state: nat, queue: seq<Read>)
    ensures var t := AllReads(queue);
            var r := Run(p, state, t.messages);
            Serve(p, state, queue) == SessionRun(r.state, r.events, EndOf(r.verdict, t.end))
    decreases |queue|
  {
    hide Step, Run;
    var c := ReadCall(queue);
    RunOfNothing(p, state);
    if c.Messages? {
      var r := Run(p, state, c.messages);
      RunAppend(p, state, c.messages, AllReads(c.queue).messages);
      ServeIsRun(p, r.state, c.queue);
    }
  }

  lemma RunOfNothing(p: Policy, state: nat)
    ensures Run(p, state, []) == Outcome(state, [], Continue)
  {
  }
}
