/** What every session keeps: the language it accepts, the checks before the dial, the responses it sends. */
module SessionLaws {
  import opened Bytes
  import opened Framing
  import opened Delivery
  import opened Relay
  import opened RdgPackets
  import opened Session

  // ---- the run language ----

  predicate Known(m: Message) {
    m.error.NoError? && (|| m.packetType == PKT_TYPE_HANDSHAKE_REQUEST
                         || m.packetType == PKT_TYPE_TUNNEL_CREATE
                         || m.packetType == PKT_TYPE_TUNNEL_AUTH
                         || m.packetType == PKT_TYPE_CHANNEL_CREATE
                         || m.packetType == PKT_TYPE_DATA
                         || m.packetType == PKT_TYPE_KEEPALIVE
                         || m.packetType == PKT_TYPE_CLOSE_CHANNEL)
  }

  function KnownOf(ms: seq<Message>): (ks: seq<Message>)
    ensures |ks| <= |ms|
    ensures forall k | k in ks :: Known(k)
  {
    if ms == [] then []
    else if Known(ms[0]) then [ms[0]] + KnownOf(ms[1..])
    else KnownOf(ms[1..])
  }

  /** HANDSHAKE TUNNEL_CREATE TUNNEL_AUTH CHANNEL_CREATE (DATA | KEEPALIVE)* CLOSE, with a DATA somewhere. */
  predicate CompleteSession(ks: seq<Message>) {
    && |ks| >= 6
    && ks[0].packetType == PKT_TYPE_HANDSHAKE_REQUEST
    && ks[1].packetType == PKT_TYPE_TUNNEL_CREATE
    && ks[2].packetType == PKT_TYPE_TUNNEL_AUTH
    && ks[3].packetType == PKT_TYPE_CHANNEL_CREATE
    && OpenPart(ks[4..|ks| - 1])
    && (exists d | d in ks[4..|ks| - 1] :: d.packetType == PKT_TYPE_DATA)
    && ks[|ks| - 1].packetType == PKT_TYPE_CLOSE_CHANNEL
  }

  predicate OpenPart(ks: seq<Message>) {
    forall k | k in ks :: k.packetType == PKT_TYPE_DATA || k.packetType == PKT_TYPE_KEEPALIVE
  }

  /** What the four requests of a session ask for is granted. */
  predicate Granted(p: Policy, ks: seq<Message>)
    requires |ks| >= 4
  {
    && (Shares(p, AuthIn(ks[0].body)) || (AuthIn(ks[0].body) == 0 && !p.smartCard && !p.token))
    && p.cookie.Allows(CookieIn(ks[1].body))
    && p.client.Allows(NameIn(ks[2].body))
    && p.host.Allows(HostIn(ks[3].body))
    && p.dial(HostIn(ks[3].body))
  }

  lemma {:induction false} UnknownIsIgnored(p: Policy, state: nat, ms: seq<Message>)
    ensures Run(p, state, ms) == Run(p, state, KnownOf(ms))
    decreases |ms|
  {
    if ms != [] {
      var s := Step(p, state, ms[0]);
      if Known(ms[0]) {
        assert KnownOf(ms)[1..] == KnownOf(ms[1..]);
        if s.verdict.Continue? {
          UnknownIsIgnored(p, s.state, ms[1..]);
        }
      } else {
        assert s == Outcome(state, [], Continue);
        UnknownIsIgnored(p, state, ms[1..]);
        assert [] + Run(p, state, ms[1..]).events == Run(p, state, ms[1..]).events;
      }
    }
  }

  lemma {:induction false} KnownPrefixes(ms: seq<Message>, n: nat) returns (k: nat)
    requires n <= |KnownOf(ms)|
    ensures k <= |ms| && KnownOf(ms[..k]) == KnownOf(ms)[..n]
    decreases |ms|
  {
    if n == 0 {
      k := 0;
    } else {
      var k' := KnownPrefixes(ms[1..], if Known(ms[0]) then n - 1 else n);
      k := k' + 1;
      assert ms[..k][1..] == ms[1..][..k'];
    }
  }

  lemma {:induction false} PrefixesAreKnown(ms: seq<Message>, k: nat)
    requires k <= |ms|
    ensures KnownOf(ms[..k]) <= KnownOf(ms)
    decreases k
  {
    if k > 0 {
      PrefixesAreKnown(ms[1..], k - 1);
      assert ms[..k][1..] == ms[1..][..k - 1];
    }
  }

  /** An open channel closes properly at the first message that is neither DATA nor KEEPALIVE, if that is
      CLOSE and some DATA came before it. */
  predicate ClosesAt(state: nat, ks: seq<Message>, n: nat) {
    && n < |ks|
    && OpenPart(ks[..n])
    && (state == OPENED || exists d | d in ks[..n] :: d.packetType == PKT_TYPE_DATA)
    && ks[n].packetType == PKT_TYPE_CLOSE_CHANNEL
  }

  lemma {:induction false} OpenChannelLanguage(p: Policy, state: nat, ks: seq<Message>)
    requires state == CHANNEL_CREATE || state == OPENED
    requires forall k | k in ks :: Known(k)
    ensures Run(p, state, ks).verdict.ReturnNil? <==> exists n: nat :: ClosesAt(state, ks, n)
    decreases |ks|
  {
    if ks == [] {
    } else {
      var m := ks[0];
      assert Known(m);
      var s := Step(p, state, m);
      if m.packetType == PKT_TYPE_DATA || m.packetType == PKT_TYPE_KEEPALIVE {
        OpenChannelLanguage(p, s.state, ks[1..]);
        OpenChannelStep(state, s.state, ks);
      } else {
        forall n | 0 < n <= |ks| ensures !OpenPart(ks[..n]) {
          assert ks[..n][0] == m;
        }
        assert forall n: nat | ClosesAt(state, ks, n) :: n == 0;
        if m.packetType == PKT_TYPE_CLOSE_CHANNEL && state == OPENED {
          assert ClosesAt(state, ks, 0);
        }
      }
    }
  }

  lemma OpenChannelStep(state: nat, state': nat, ks: seq<Message>)
    requires state == CHANNEL_CREATE || state == OPENED
    requires ks != []
    requires ks[0].packetType == PKT_TYPE_DATA || ks[0].packetType == PKT_TYPE_KEEPALIVE
    requires state' == if ks[0].packetType == PKT_TYPE_DATA then OPENED else state
    ensures (exists n: nat :: ClosesAt(state, ks, n)) <==> (exists n: nat :: ClosesAt(state', ks[1..], n))
  {
    forall n: nat | ClosesAt(state, ks, n) ensures n > 0 && ClosesAt(state', ks[1..], n - 1) {
      assert n > 0;
      assert ks[..n] == [ks[0]] + ks[1..][..n - 1];
    }
    forall n: nat | ClosesAt(state', ks[1..], n) ensures ClosesAt(state, ks, n + 1) {
      assert ks[..n + 1] == [ks[0]] + ks[1..][..n];
      if state' != state { assert ks[0] in ks[..n + 1]; }
    }
  }

  predicate OpeningGranted(p: Policy, ks: seq<Message>) {
    && |ks| >= 4
    && ks[0].packetType == PKT_TYPE_HANDSHAKE_REQUEST
    && ks[1].packetType == PKT_TYPE_TUNNEL_CREATE
    && ks[2].packetType == PKT_TYPE_TUNNEL_AUTH
    && ks[3].packetType == PKT_TYPE_CHANNEL_CREATE
    && Granted(p, ks)
  }

  /** The request that takes a session out of an opening state, and what it must be granted. */
  predicate MovesOn(p: Policy, state: nat, m: Message)
    requires state < CHANNEL_CREATE
  {
    if state == INITIALIZED then
      m.packetType == PKT_TYPE_HANDSHAKE_REQUEST
      && (Shares(p, AuthIn(m.body)) || (AuthIn(m.body) == 0 && !p.smartCard && !p.token))
    else if state == HANDSHAKE then m.packetType == PKT_TYPE_TUNNEL_CREATE && p.cookie.Allows(CookieIn(m.body))
    else if state == TUNNEL_CREATE then m.packetType == PKT_TYPE_TUNNEL_AUTH && p.client.Allows(NameIn(m.body))
    else m.packetType == PKT_TYPE_CHANNEL_CREATE && p.host.Allows(HostIn(m.body)) && p.dial(HostIn(m.body))
  }

  /** Before the channel is open there is one way on, and everything else ends the session in an error. */
  lemma OpeningStep(p: Policy, state: nat, ks: seq<Message>)
    requires state < CHANNEL_CREATE && ks != [] && Known(ks[0])
    ensures if MovesOn(p, state, ks[0]) then Run(p, state, ks).verdict == Run(p, state + 1, ks[1..]).verdict
            else Run(p, state, ks).verdict.ReturnError?
  {
    hide AuthIn, CookieIn, NameIn, HostIn, Shares;
    var s := Step(p, state, ks[0]);
    assert s.verdict == if MovesOn(p, state, ks[0]) then Continue else ReturnError;
    assert s.verdict.Continue? ==> s.state == state + 1;
  }

  lemma OpeningRun(p: Policy, ks: seq<Message>)
    requires forall k | k in ks :: Known(k)
    ensures if OpeningGranted(p, ks) then Run(p, INITIALIZED, ks).verdict == Run(p, CHANNEL_CREATE, ks[4..]).verdict
            else !Run(p, INITIALIZED, ks).verdict.ReturnNil?
  {
    hide AuthIn, CookieIn, NameIn, HostIn, Shares, Step, Run;
    OpeningAt(p, ks, INITIALIZED);
    OpeningAt(p, ks, HANDSHAKE);
    OpeningAt(p, ks, TUNNEL_CREATE);
    OpeningAt(p, ks, TUNNEL_AUTHORIZE);
    assert ks[0..] == ks;
  }

  lemma OpeningAt(p: Policy, ks: seq<Message>, i: nat)
    requires i < CHANNEL_CREATE
    requires forall k | k in ks :: Known(k)
    ensures i == |ks| ==> Run(p, i, ks[i..]).verdict.Continue?
    ensures i < |ks| ==> if MovesOn(p, i, ks[i]) then Run(p, i, ks[i..]).verdict == Run(p, i + 1, ks[i + 1..]).verdict
                         else Run(p, i, ks[i..]).verdict.ReturnError?
  {
    hide AuthIn, CookieIn, NameIn, HostIn, Shares, Step, Run, MovesOn;
    if i == |ks| {
      RunOfNothing(p, i);
      assert ks[i..] == [];
    } else if i < |ks| {
      assert ks[i] in ks;
      OpeningStep(p, i, ks[i..]);
      assert ks[i..][1..] == ks[i + 1..];
    }
  }

  predicate ProperSession(p: Policy, ks: seq<Message>) {
    CompleteSession(ks) && Granted(p, ks)
  }

  /** From the first message: the four requests in order, all granted, then an open channel. */
  lemma KnownLanguage(p: Policy, ks: seq<Message>)
    requires forall k | k in ks :: Known(k)
    ensures Run(p, INITIALIZED, ks).verdict.ReturnNil?
       <==> exists n | 0 <= n <= |ks| :: ProperSession(p, ks[..n])
  {
    hide Run, Granted;
    OpeningRun(p, ks);
    if OpeningGranted(p, ks) {
      OpenChannelLanguage(p, CHANNEL_CREATE, ks[4..]);
      forall n: nat | ClosesAt(CHANNEL_CREATE, ks[4..], n)
        ensures exists k | 0 <= k <= |ks| :: ProperSession(p, ks[..k])
      {
        ClosedIsProper(p, ks, n);
      }
      forall n | 0 <= n <= |ks| && ProperSession(p, ks[..n])
        ensures exists k: nat :: ClosesAt(CHANNEL_CREATE, ks[4..], k)
      {
        assert ks[..n][4..n - 1] == ks[4..][..n - 5];
        assert ClosesAt(CHANNEL_CREATE, ks[4..], n - 5);
      }
    } else {
      forall n | 0 <= n <= |ks| ensures !ProperSession(p, ks[..n]) {
        if CompleteSession(ks[..n]) { GrantedOfPrefix(p, ks, n); }
      }
    }
  }

  lemma GrantedOfPrefix(p: Policy, ks: seq<Message>, n: nat)
    requires 4 <= n <= |ks|
    ensures Granted(p, ks[..n]) == Granted(p, ks)
  {
  }

  lemma ClosedIsProper(p: Policy, ks: seq<Message>, n: nat)
    requires OpeningGranted(p, ks)
    requires ClosesAt(CHANNEL_CREATE, ks[4..], n)
    ensures n + 5 <= |ks| && ProperSession(p, ks[..n + 5])
  {
    hide Granted;
    assert n > 0 by { assert ks[4..][..0] == []; }
    assert ks[..n + 5][4..n + 4] == ks[4..][..n];
    GrantedOfPrefix(p, ks, n + 5);
  }

  /** Process returns nil exactly when some prefix of the messages it was handed is, leaving out what is
      unknown or was not readable, a complete session in which everything asked for is granted. */
  lemma SessionLanguage(p: Policy, queue: seq<Read>)
    ensures Serve(p, INITIALIZED, queue).end.EndedNil?
       <==> var ms := AllReads(queue).messages;
            exists k | 0 <= k <= |ms| :: ProperSession(p, KnownOf(ms[..k]))
  {
    hide Run, ReadCall, ProperSession, Serve, AllReads;
    var ms := AllReads(queue).messages;
    ServeIsRun(p, INITIALIZED, queue);
    UnknownIsIgnored(p, INITIALIZED, ms);
    var ks := KnownOf(ms);
    KnownLanguage(p, ks);
    forall n | 0 <= n <= |ks| && ProperSession(p, ks[..n])
      ensures exists k | 0 <= k <= |ms| :: ProperSession(p, KnownOf(ms[..k]))
    {
      var k := KnownPrefixes(ms, n);
    }
    forall k | 0 <= k <= |ms| && ProperSession(p, KnownOf(ms[..k]))
      ensures exists n | 0 <= n <= |ks| :: ProperSession(p, ks[..n])
    {
      PrefixesAreKnown(ms, k);
      var n := |KnownOf(ms[..k])|;
      assert ks[..n] == KnownOf(ms[..k]);
    }
  }

  // ---- the dial ----

  lemma {:induction false} StateNeverDecreases(p: Policy, state: nat, ms: seq<Message>)
    requires state <= OPENED
    ensures state <= Run(p, state, ms).state <= CLOSED
    ensures Run(p, state, ms).verdict.Continue? ==> Run(p, state, ms).state <= OPENED
    decreases |ms|
  {
    if ms != [] {
      var s := Step(p, state, ms[0]);
      if s.verdict.Continue? {
        StateNeverDecreases(p, s.state, ms[1..]);
      }
    }
  }

  ghost predicate CookieAccepted(p: Policy, es: seq<Event>) {
    p.cookie.CheckWith? ==> exists e | e in es :: e.CookieChecked? && e.ok && p.cookie.accepts(e.cookie)
  }

  ghost predicate NameAccepted(p: Policy, es: seq<Event>) {
    p.client.CheckWith? ==> exists e | e in es :: e.NameChecked? && e.ok && p.client.accepts(e.name)
  }

  ghost predicate HostAccepted(p: Policy, es: seq<Event>, host: Bytes) {
    p.host.CheckWith? ==> es != [] && es[|es| - 1] == HostChecked(host, true) && p.host.accepts(host)
  }

  predicate NoDial(es: seq<Event>) {
    forall e | e in es :: !e.Dialled?
  }

  /** A dial is the only one, and every configured check accepted before it: the cookie's and the client
      name's at some point, the host's just before, on the very string that is dialled. */
  ghost predicate DialsChecked(p: Policy, es: seq<Event>) {
    forall i | 0 <= i < |es| && es[i].Dialled? ::
      && NoDial(es[..i]) && NoDial(es[i + 1..])
      && CookieAccepted(p, es[..i])
      && NameAccepted(p, es[..i])
      && HostAccepted(p, es[..i], es[i].host)
  }

  /** What the events so far owe to the state reached. */
  ghost predicate Approved(p: Policy, state: nat, es: seq<Event>) {
    && (state >= TUNNEL_CREATE ==> CookieAccepted(p, es))
    && (state >= TUNNEL_AUTHORIZE ==> NameAccepted(p, es))
    && (state < CHANNEL_CREATE ==> NoDial(es))
  }

  lemma DialsCheckedAppend(p: Policy, es: seq<Event>, more: seq<Event>)
    requires DialsChecked(p, es) && NoDial(more)
    ensures DialsChecked(p, es + more)
  {
    var all := es + more;
    assert forall i | |es| <= i < |all| :: all[i] == more[i - |es|] && all[i] in more;
    forall i | 0 <= i < |all| && all[i].Dialled?
      ensures NoDial(all[..i]) && NoDial(all[i + 1..])
      ensures CookieAccepted(p, all[..i]) && NameAccepted(p, all[..i]) && HostAccepted(p, all[..i], all[i].host)
    {
      assert all[..i] == es[..i] && all[i + 1..] == es[i + 1..] + more;
    }
  }

  lemma ApprovedAppend(p: Policy, state: nat, es: seq<Event>, more: seq<Event>)
    requires Approved(p, state, es) && NoDial(more)
    ensures Approved(p, state, es + more)
  {
    if p.cookie.CheckWith? && state >= TUNNEL_CREATE {
      var e :| e in es && e.CookieChecked? && e.ok && p.cookie.accepts(e.cookie);
      assert e in es + more;
    }
    if p.client.CheckWith? && state >= TUNNEL_AUTHORIZE {
      var e :| e in es && e.NameChecked? && e.ok && p.client.accepts(e.name);
      assert e in es + more;
    }
  }

  lemma DialThenReply(p: Policy, before: seq<Event>, dial: Event, reply: seq<Event>, all: seq<Event>)
    requires dial.Dialled? && NoDial(before) && NoDial(reply)
    requires CookieAccepted(p, before) && NameAccepted(p, before) && HostAccepted(p, before, dial.host)
    requires all == before + [dial] + reply
    ensures DialsChecked(p, all) && CookieAccepted(p, all) && NameAccepted(p, all)
  {
    hide DialsChecked, CookieAccepted, NameAccepted, HostAccepted;
    OneDial(p, before, dial);
    DialsCheckedAppend(p, before + [dial], reply);
    AcceptedAppend(p, before, [dial]);
    AcceptedAppend(p, before + [dial], reply);
  }

  lemma ChannelStepDials(p: Policy, body: Bytes, es: seq<Event>)
    requires DialsChecked(p, es) && Approved(p, TUNNEL_AUTHORIZE, es)
    ensures var s := OnChannelCreate(p, TUNNEL_AUTHORIZE, body);
            DialsChecked(p, es + s.events) && (s.verdict.Continue? ==> Approved(p, s.state, es + s.events))
  {
    hide HostIn, ChannelResponse, DialsChecked, CookieAccepted, NameAccepted;
    var s, host := OnChannelCreate(p, TUNNEL_AUTHORIZE, body), HostIn(body);
    var ok := p.host.Allows(host);
    var asked: seq<Event> := if p.host.Unset? then [] else [HostChecked(host, ok)];
    var all := es + s.events;
    ApprovedAppend(p, TUNNEL_AUTHORIZE, es, asked);
    if !ok {
      assert NoDial(s.events);
      DialsCheckedAppend(p, es, s.events);
    } else {
      assert HostAccepted(p, es + asked, host);
      var dial := Dialled(host, p.dial(host));
      if p.dial(host) {
        var reply := [Sent(ChannelResponse(ERROR_SUCCESS)), ForwardStarted];
        assert all == es + asked + [dial] + reply;
        DialThenReply(p, es + asked, dial, reply, all);
      } else {
        var reply := [Sent(ChannelResponse(E_PROXY_INTERNALERROR))];
        assert all == es + asked + [dial] + reply;
        DialThenReply(p, es + asked, dial, reply, all);
      }
    }
  }

  lemma AcceptedAppend(p: Policy, es: seq<Event>, more: seq<Event>)
    requires CookieAccepted(p, es) && NameAccepted(p, es)
    ensures CookieAccepted(p, es + more) && NameAccepted(p, es + more)
  {
    if p.cookie.CheckWith? {
      var e :| e in es && e.CookieChecked? && e.ok && p.cookie.accepts(e.cookie);
      assert e in es + more;
    }
    if p.client.CheckWith? {
      var e :| e in es && e.NameChecked? && e.ok && p.client.accepts(e.name);
      assert e in es + more;
    }
  }

  lemma OneDial(p: Policy, es: seq<Event>, dial: Event)
    requires dial.Dialled? && NoDial(es)
    requires CookieAccepted(p, es) && NameAccepted(p, es) && HostAccepted(p, es, dial.host)
    ensures DialsChecked(p, es + [dial])
  {
    var all := es + [dial];
    assert forall i | 0 <= i < |es| :: all[i] == es[i] && es[i] in es;
    assert all[..|es|] == es && all[|es| + 1..] == [];
  }

  lemma StepDials(p: Policy, state: nat, m: Message, es: seq<Event>)
    requires state <= CLOSED
    requires DialsChecked(p, es) && Approved(p, state, es)
    ensures var s := Step(p, state, m);
            DialsChecked(p, es + s.events) && (s.verdict.Continue? ==> Approved(p, s.state, es + s.events))
  {
    hide CookieIn, NameIn, AuthIn, HostIn, DialsChecked;
    var s := Step(p, state, m);
    if m.error.NoError? && m.packetType == PKT_TYPE_CHANNEL_CREATE && state == TUNNEL_AUTHORIZE {
      ChannelStepDials(p, m.body, es);
    } else {
      assert NoDial(s.events);
      DialsCheckedAppend(p, es, s.events);
      ApprovedAppend(p, state, es, s.events);
      if s.verdict.Continue? && s.state == TUNNEL_CREATE && state == HANDSHAKE && p.cookie.CheckWith? {
        assert s.events[0] in es + s.events;
      }
      if s.verdict.Continue? && s.state == TUNNEL_AUTHORIZE && state == TUNNEL_CREATE && p.client.CheckWith? {
        assert s.events[0] in es + s.events;
      }
    }
  }

  lemma {:induction false} RunDials(p: Policy, state: nat, ms: seq<Message>, es: seq<Event>)
    requires state <= CLOSED
    requires DialsChecked(p, es) && Approved(p, state, es)
    ensures DialsChecked(p, es + Run(p, state, ms).events)
    decreases |ms|
  {
    hide Step, DialsChecked, Approved;
    if ms == [] {
      assert es + [] == es;
    } else {
      var s := Step(p, state, ms[0]);
      StepDials(p, state, ms[0], es);
      if s.verdict.Continue? {
        StepBound(p, state, ms[0]);
        RunDials(p, s.state, ms[1..], es + s.events);
        assert es + s.events + Run(p, s.state, ms[1..]).events == es + Run(p, state, ms).events;
      }
    }
  }

  lemma StepBound(p: Policy, state: nat, m: Message)
    requires state <= CLOSED
    ensures Step(p, state, m).state <= CLOSED
  {
  }

  /** In every session the remote host is dialled at most once, and only after all configured checks
      accepted, on the host string the host check accepted. */
  lemma DialIsChecked(p: Policy, queue: seq<Read>)
    ensures DialsChecked(p, Serve(p, INITIALIZED, queue).events)
  {
    hide Run, Step, Serve;
    ServeIsRun(p, INITIALIZED, queue);
    var es := Run(p, INITIALIZED, AllReads(queue).messages).events;
    RunDials(p, INITIALIZED, AllReads(queue).messages, []);
    assert [] + es == es;
  }

  // ---- the responses ----

  /** The control packets among a session's events. */
  function Responses(es: seq<Event>): seq<Packet> {
    if es == [] then []
    else if es[0].Sent? then [es[0].packet] + Responses(es[1..])
    else Responses(es[1..])
  }

  lemma {:induction false} ResponsesAppend(a: seq<Event>, b: seq<Event>)
    ensures Responses(a + b) == Responses(a) + Responses(b)
  {
    if a == [] {
      assert a + b == b;
    } else {
      ResponsesAppend(a[1..], b);
      assert (a + b)[1..] == a[1..] + b;
    }
  }

  /** The messages that ask for a response. */
  predicate IsRequest(m: Message) {
    m.error.NoError? && (|| m.packetType == PKT_TYPE_HANDSHAKE_REQUEST
                         || m.packetType == PKT_TYPE_TUNNEL_CREATE
                         || m.packetType == PKT_TYPE_TUNNEL_AUTH
                         || m.packetType == PKT_TYPE_CHANNEL_CREATE
                         || m.packetType == PKT_TYPE_CLOSE_CHANNEL)
  }

  function Requests(ms: seq<Message>): seq<Message> {
    if ms == [] then []
    else if IsRequest(ms[0]) then [ms[0]] + Requests(ms[1..])
    else Requests(ms[1..])
  }

  /** The type of the response that a session's `i`-th success must have. */
  function SuccessType(i: nat): nat {
    if i == 0 then PKT_TYPE_HANDSHAKE_RESPONSE
    else if i == 1 then PKT_TYPE_TUNNEL_RESPONSE
    else if i == 2 then PKT_TYPE_TUNNEL_AUTH_RESPONSE
    else if i == 3 then PKT_TYPE_CHANNEL_RESPONSE
    else PKT_TYPE_CLOSE_CHANNEL_RESPONSE
  }

  /** How many requests have succeeded in a state. */
  function Successes(state: nat): nat {
    if state <= CHANNEL_CREATE then state else if state == OPENED then 4 else 5
  }

  /** Responses as a client may rely on them: each answers its request, with the next success or an error;
      an error is the last response and the end of the session. */
  predicate WellAnswered(rs: seq<Packet>, requests: seq<Message>, done: nat, state: nat, failed: bool) {
    && |rs| <= |requests|
    && (forall i | 0 <= i < |rs| :: rs[i].packetType == requests[i].packetType + 1)
    && (forall i | 0 <= i < |rs| && CodeOf(rs[i]) != 0 :: i == |rs| - 1 && failed)
    && (forall i | 0 <= i < |rs| && CodeOf(rs[i]) == 0 :: rs[i].packetType == SuccessType(done + i))
    && Successes(state) == done + if |rs| > 0 && CodeOf(rs[|rs| - 1]) != 0 then |rs| - 1 else |rs|
  }

  /** One message gives at most one response. */
  ghost predicate AnswersWell(state: nat, m: Message, s: Outcome) {
    var rs := Responses(s.events);
    && s.state <= CLOSED
    && (s.verdict.Continue? ==> s.state <= OPENED)
    && (rs == [] ==> Successes(s.state) == Successes(state) && (s.verdict.Continue? ==> !IsRequest(m)))
    && (rs != [] ==>
          && |rs| == 1 && IsRequest(m) && rs[0].packetType == m.packetType + 1
          && if CodeOf(rs[0]) != 0 then s.verdict.ReturnError? && Successes(s.state) == Successes(state)
             else rs[0].packetType == SuccessType(Successes(state)) && Successes(s.state) == Successes(state) + 1)
  }

  lemma ResponsesOfOne(asked: seq<Event>, packet: Packet, later: seq<Event>)
    requires Responses(asked) == [] && Responses(later) == []
    ensures Responses(asked + [Sent(packet)]) == Responses(asked + [Sent(packet)] + later) == [packet]
  {
    ResponsesAppend(asked, [Sent(packet)]);
    ResponsesAppend(asked + [Sent(packet)], later);
    assert Responses([Sent(packet)]) == [packet] + Responses([]);
  }

  lemma ChannelAnswers(p: Policy, state: nat, m: Message)
    requires state <= OPENED
    requires m.error.NoError? && m.packetType == PKT_TYPE_CHANNEL_CREATE
    ensures AnswersWell(state, m, OnChannelCreate(p, state, m.body))
  {
    hide HostIn, CodeOf, ChannelResponse;
    var s, host := OnChannelCreate(p, state, m.body), HostIn(m.body);
    var ok := p.host.Allows(host);
    var asked: seq<Event> := if state != TUNNEL_AUTHORIZE || p.host.Unset? then [] else [HostChecked(host, ok)];
    assert Responses(asked) == [];
    if state != TUNNEL_AUTHORIZE {
      ResponsesOfOne([], ChannelResponse(E_PROXY_INTERNALERROR), []);
    } else if !ok {
      ResponsesOfOne(asked, ChannelResponse(E_PROXY_RAP_ACCESSDENIED), []);
    } else {
      var dialled := [Dialled(host, p.dial(host))];
      ResponsesAppend(asked, dialled);
      assert Responses(dialled) == [] && Responses([ForwardStarted]) == [];
      if !p.dial(host) {
        assert s.events == asked + dialled + [Sent(ChannelResponse(E_PROXY_INTERNALERROR))];
        ResponsesOfOne(asked + dialled, ChannelResponse(E_PROXY_INTERNALERROR), []);
      } else {
        ResponsesOfOne(asked + dialled, ChannelResponse(ERROR_SUCCESS), [ForwardStarted]);
        assert s.events == asked + dialled + [Sent(ChannelResponse(ERROR_SUCCESS))] + [ForwardStarted];
      }
    }
  }

  lemma TunnelCreateAnswers(p: Policy, state: nat, m: Message)
    requires state <= OPENED
    requires m.error.NoError? && m.packetType == PKT_TYPE_TUNNEL_CREATE
    ensures AnswersWell(state, m, OnTunnelCreate(p, state, m.body))
  {
    hide CookieIn, CodeOf, TunnelResponse;
    var s := OnTunnelCreate(p, state, m.body);
    var n := |s.events| - 1;
    assert n <= 1 && Responses(s.events[..n]) == [];
    ResponsesOfOne(s.events[..n], s.events[n].packet, []);
    assert s.events == s.events[..n] + [s.events[n]];
  }

  lemma TunnelAuthAnswers(p: Policy, state: nat, m: Message)
    requires state <= OPENED
    requires m.error.NoError? && m.packetType == PKT_TYPE_TUNNEL_AUTH
    ensures AnswersWell(state, m, OnTunnelAuth(p, state, m.body))
  {
    hide NameIn, CodeOf, TunnelAuthResponse;
    var s := OnTunnelAuth(p, state, m.body);
    var n := |s.events| - 1;
    assert n <= 1 && Responses(s.events[..n]) == [];
    ResponsesOfOne(s.events[..n], s.events[n].packet, []);
    assert s.events == s.events[..n] + [s.events[n]];
  }

  lemma HandshakeAnswers(p: Policy, state: nat, m: Message)
    requires state <= OPENED
    requires m.error.NoError? && m.packetType == PKT_TYPE_HANDSHAKE_REQUEST
    ensures AnswersWell(state, m, OnHandshake(p, state, m.body))
  {
    hide AuthIn, Shares, MajorIn, MinorIn, CodeOf, HandshakeResponse;
    var s := OnHandshake(p, state, m.body);
    ResponsesOfOne([], s.events[0].packet, []);
    assert s.events == [] + [s.events[0]];
  }

  lemma CloseAnswers(state: nat, m: Message)
    requires state <= OPENED
    requires m.error.NoError? && m.packetType == PKT_TYPE_CLOSE_CHANNEL
    ensures AnswersWell(state, m, OnClose(state))
  {
    hide CodeOf, ChannelCloseResponse;
    ResponsesOfOne([], ChannelCloseResponse(ERROR_SUCCESS), []);
    assert [] + [Sent(ChannelCloseResponse(ERROR_SUCCESS))] == [Sent(ChannelCloseResponse(ERROR_SUCCESS))];
  }

  lemma StepAnswers(p: Policy, state: nat, m: Message)
    requires state <= OPENED
    ensures AnswersWell(state, m, Step(p, state, m))
  {
    hide OnHandshake, OnTunnelCreate, OnTunnelAuth, OnChannelCreate, OnClose, CodeOf, Unwrapped;
    if IsRequest(m) {
      hide AnswersWell;
      if m.packetType == PKT_TYPE_HANDSHAKE_REQUEST { HandshakeAnswers(p, state, m); }
      else if m.packetType == PKT_TYPE_TUNNEL_CREATE { TunnelCreateAnswers(p, state, m); }
      else if m.packetType == PKT_TYPE_TUNNEL_AUTH { TunnelAuthAnswers(p, state, m); }
      else if m.packetType == PKT_TYPE_CHANNEL_CREATE { ChannelAnswers(p, state, m); }
      else { CloseAnswers(state, m); }
    } else {
      assert Responses(Step(p, state, m).events) == [];
    }
  }

  lemma AnsweredAlone(state: nat, m: Message, s: Outcome, requests: seq<Message>)
    requires AnswersWell(state, m, s) && !s.verdict.Continue?
    ensures WellAnswered(Responses(s.events), if IsRequest(m) then [m] + requests else requests,
                         Successes(state), s.state, s.verdict.ReturnError?)
  {
    hide CodeOf, SuccessType, Successes;
  }

  lemma {:induction false} RunAnswers(p: Policy, state: nat, ms: seq<Message>)
    requires state <= OPENED
    ensures var r := Run(p, state, ms);
            WellAnswered(Responses(r.events), Requests(ms), Successes(state), r.state, r.verdict.ReturnError?)
    decreases |ms|
  {
    hide Step, CodeOf, SuccessType, Successes, IsRequest;
    if ms == [] {
    } else {
      hide WellAnswered;
      var s := Step(p, state, ms[0]);
      StepAnswers(p, state, ms[0]);
      if s.verdict.Continue? {
        var later := Run(p, s.state, ms[1..]);
        RunAnswers(p, s.state, ms[1..]);
        ResponsesAppend(s.events, later.events);
        var rs := Responses(s.events);
        if rs != [] {
          assert rs == [rs[0]];
          AnsweredFirst(rs[0], Responses(later.events), ms[0], Requests(ms[1..]),
                        Successes(state), later.state, later.verdict.ReturnError?);
        } else {
          assert rs + Responses(later.events) == Responses(later.events);
        }
      } else {
        AnsweredAlone(state, ms[0], s, Requests(ms[1..]));
      }
    }
  }

  lemma AnsweredFirst(r: Packet, rs: seq<Packet>, m: Message, requests: seq<Message>, done: nat, state: nat,
                      failed: bool)
    requires WellAnswered(rs, requests, done + 1, state, failed)
    requires r.packetType == m.packetType + 1 && CodeOf(r) == 0 && r.packetType == SuccessType(done)
    ensures WellAnswered([r] + rs, [m] + requests, done, state, failed)
  {
    hide CodeOf, SuccessType;
    var all := [r] + rs;
    assert all[1..] == rs;
    forall i | 0 <= i < |all| && CodeOf(all[i]) == 0 ensures all[i].packetType == SuccessType(done + i) {
      if i > 0 { assert all[i] == rs[i - 1]; }
    }
  }

  /** Over a whole session: every response answers its request in order with the type one above it, the
      successes come in protocol order, and an error response is the last thing sent before an error return. */
  lemma SessionIsWellAnswered(p: Policy, queue: seq<Read>)
    ensures var r := Serve(p, INITIALIZED, queue);
            WellAnswered(Responses(r.events), Requests(AllReads(queue).messages), 0, r.state, r.end.EndedError?)
  {
    hide Run, CodeOf, Requests, Responses;
    ServeIsRun(p, INITIALIZED, queue);
    RunAnswers(p, INITIALIZED, AllReads(queue).messages);
  }

  // ---- what a session delivers to the remote desktop ----

  function DeliveredBytes(es: seq<Event>): Bytes {
    if es == [] then []
    else if es[0].Delivered? then es[0].data + DeliveredBytes(es[1..])
    else DeliveredBytes(es[1..])
  }

  lemma {:induction false} DeliveredAppend(a: seq<Event>, b: seq<Event>)
    ensures DeliveredBytes(a + b) == DeliveredBytes(a) + DeliveredBytes(b)
    decreases |a|
  {
    if a == [] {
      assert a + b == b;
    } else {
      DeliveredAppend(a[1..], b);
      assert (a + b)[1..] == a[1..] + b;
      if a[0].Delivered? {
        assert a[0].data + (DeliveredBytes(a[1..]) + DeliveredBytes(b))
            == a[0].data + DeliveredBytes(a[1..]) + DeliveredBytes(b);
      }
    }
  }

  /** The messages a session takes before the one that ends it. */
  function Taken(p: Policy, state: nat, ms: seq<Message>): seq<Message>
    decreases |ms|
  {
    if ms == [] || !Step(p, state, ms[0]).verdict.Continue? then []
    else [ms[0]] + Taken(p, Step(p, state, ms[0]).state, ms[1..])
  }

  /** The message that ends a session is the first whose handling does not go on. */
  lemma {:induction false} TakenUpToTheEnd(p: Policy, state: nat, ms: seq<Message>)
    ensures var taken := Taken(p, state, ms);
            && taken <= ms && Run(p, state, taken).verdict.Continue?
            && (taken == ms <==> Run(p, state, ms).verdict.Continue?)
            && (taken != ms ==> !Run(p, state, ms[..|taken| + 1]).verdict.Continue?)
    decreases |ms|
  {
    hide Step;
    if ms != [] {
      var s := Step(p, state, ms[0]);
      if s.verdict.Continue? {
        var later := Taken(p, s.state, ms[1..]);
        TakenUpToTheEnd(p, s.state, ms[1..]);
        assert Taken(p, state, ms)[1..] == later;
        assert ms == [ms[0]] + ms[1..];
        if later != ms[1..] {
          assert ms[..|later| + 2][1..] == ms[1..][..|later| + 1];
        }
      } else {
        assert Run(p, state, []) == Outcome(state, [], Continue) by { RunOfNothing(p, state); }
        assert ms[..1][0] == ms[0];
      }
    }
  }

  lemma StepDelivers(p: Policy, state: nat, m: Message)
    ensures var s := Step(p, state, m);
            DeliveredBytes(s.events) == if s.verdict.Continue? then Unwrapping([m]) else []
  {
    hide Unwrapped, HandshakeResponse, TunnelResponse, TunnelAuthResponse, ChannelResponse, ChannelCloseResponse;
    hide AuthIn, CookieIn, NameIn, HostIn, Shares, MajorIn, MinorIn, RedirectBits;
    assert [m][1..] == [] && Unwrapping([]) == [];
    var s := Step(p, state, m);
    if m.error.NoError? && m.packetType == PKT_TYPE_DATA {
      if s.verdict.Continue? {
        assert DeliveredBytes(s.events) == Unwrapped(m.body) + DeliveredBytes(s.events[1..]);
        assert Unwrapping([m]) == Unwrapped(m.body) + [];
      }
    } else {
      assert forall e | e in s.events :: !e.Delivered?;
      NothingDelivered(s.events);
    }
  }

  lemma {:induction false} NothingDelivered(es: seq<Event>)
    requires forall e | e in es :: !e.Delivered?
    ensures DeliveredBytes(es) == []
  {
    if es != [] {
      assert es[0] in es;
      NothingDelivered(es[1..]);
    }
  }

  /** What a session delivers is exactly what the DATA packets it takes unwrap to, in their order. */
  lemma {:induction false} RunDelivers(p: Policy, state: nat, ms: seq<Message>)
    ensures DeliveredBytes(Run(p, state, ms).events) == Unwrapping(Taken(p, state, ms))
    decreases |ms|
  {
    hide Step, Unwrapped, DeliveredBytes;
    NothingDelivered([]);
    if ms != [] {
      var s := Step(p, state, ms[0]);
      StepDelivers(p, state, ms[0]);
      if s.verdict.Continue? {
        var later := Run(p, s.state, ms[1..]);
        RunDelivers(p, s.state, ms[1..]);
        DeliveredAppend(s.events, later.events);
        UnwrappingCons(ms[0], Taken(p, s.state, ms[1..]));
      }
    }
  }

  lemma {:induction false} UnwrappingCons(m: Message, ms: seq<Message>)
    ensures Unwrapping([m] + ms) == Unwrapping([m]) + Unwrapping(ms)
  {
    hide Unwrapped;
    assert ([m] + ms)[1..] == ms && [m][1..] == [];
  }

  /** However reads are spread, a session delivers what the DATA packets it takes unwrap to. */
  lemma SessionDelivers(p: Policy, state: nat, queue: seq<Read>)
    ensures DeliveredBytes(Serve(p, state, queue).events) == Unwrapping(Taken(p, state, AllReads(queue).messages))
  {
    hide Run, Step;
    ServeIsRun(p, state, queue);
    RunDelivers(p, state, AllReads(queue).messages);
  }

  lemma {:induction false} DataIsTaken(p: Policy, state: nat, ms: seq<Message>)
    requires state == CHANNEL_CREATE || state == OPENED
    requires forall m | m in ms :: m.error.NoError? && m.packetType == PKT_TYPE_DATA
    ensures Taken(p, state, ms) == ms
    decreases |ms|
  {
    hide Unwrapped;
    if ms != [] {
      assert ms[0] in ms;
      DataIsTaken(p, OPENED, ms[1..]);
    }
  }

  /** The way up: whatever chunks a client wraps, and however the packets are cut into frames, an open channel
      hands exactly those bytes to the remote desktop, and goes on until the transport fails. */
  lemma UplinkTransparency(p: Policy, state: nat, chunks: seq<Bytes>, fs: seq<Bytes>)
    requires state == CHANNEL_CREATE || state == OPENED
    requires SmallChunks(chunks) && Concat(fs) == EncodeAll(WrapAll(chunks))
    ensures DeliveredBytes(Serve(p, state, Frames(fs)).events) == Concat(chunks)
    ensures Serve(p, state, Frames(fs)).end == EndedError
  {
    hide Encode, EncodeAll, Unwrapped, Serve, Run, Step;
    var ms := Arrivals(WrapAll(chunks));
    WrappedIsDeliverable(chunks);
    FramingIndependence(fs, WrapAll(chunks));
    forall m | m in ms ensures m.error.NoError? && m.packetType == PKT_TYPE_DATA {
      var i :| 0 <= i < |ms| && ms[i] == m;
    }
    DataIsTaken(p, state, ms);
    TakenUpToTheEnd(p, state, ms);
    SessionDelivers(p, state, Frames(fs));
    ServeIsRun(p, state, Frames(fs));
    UnwrappingWrapped(chunks);
  }

  // ---- what a refusal says ----

  /** The code of a refusal tells its cause: each check that is asked and does not accept has its own, and a
      request out of turn, or a host that cannot be reached, is an internal error. */
  lemma RefusalCodes(p: Policy, state: nat, m: Message)
    requires IsRequest(m)
    ensures TellsCause(p, state, m, Step(p, state, m))
  {
    hide HandshakeResponse, TunnelResponse, TunnelAuthResponse, ChannelResponse, ChannelCloseResponse, CodeOf;
    hide AuthIn, CookieIn, NameIn, HostIn, Shares, MajorIn, MinorIn, RedirectBits, Responses, TellsCause;
    if m.packetType == PKT_TYPE_HANDSHAKE_REQUEST {
      HandshakeTells(p, state, m);
    } else if m.packetType == PKT_TYPE_TUNNEL_CREATE {
      TunnelCreateTells(p, state, m);
    } else if m.packetType == PKT_TYPE_TUNNEL_AUTH {
      TunnelAuthTells(p, state, m);
    } else if m.packetType == PKT_TYPE_CHANNEL_CREATE {
      ChannelTells(p, state, m);
    } else {
      CloseTells(p, state, m);
    }
  }

  ghost predicate TellsCause(p: Policy, state: nat, m: Message, s: Outcome)
    requires IsRequest(m)
  {
    var rs := Responses(s.events);
    && (state != Turn(m) ==> (m.packetType == PKT_TYPE_CLOSE_CHANNEL && rs == [])
                             || (|rs| == 1 && CodeOf(rs[0]) == E_PROXY_INTERNALERROR))
    && (state == Turn(m) ==> |rs| == 1 && CodeOf(rs[0]) == Cause(p, m))
    && s.verdict == (if state != Turn(m) || Cause(p, m) != ERROR_SUCCESS then ReturnError
                     else if m.packetType == PKT_TYPE_CLOSE_CHANNEL then ReturnNil
                     else Continue)
  }

  lemma HandshakeTells(p: Policy, state: nat, m: Message)
    requires IsRequest(m) && m.packetType == PKT_TYPE_HANDSHAKE_REQUEST
    ensures TellsCause(p, state, m, Step(p, state, m))
  {
    hide AuthIn, Shares, MajorIn, MinorIn, CodeOf, HandshakeResponse;
    var s := Step(p, state, m);
    ResponsesOfOne([], s.events[0].packet, []);
    assert s.events == [] + [s.events[0]];
  }

  lemma TunnelCreateTells(p: Policy, state: nat, m: Message)
    requires IsRequest(m) && m.packetType == PKT_TYPE_TUNNEL_CREATE
    ensures TellsCause(p, state, m, Step(p, state, m))
  {
    hide CookieIn, CodeOf, TunnelResponse;
    var s := Step(p, state, m);
    var n := |s.events| - 1;
    assert n <= 1 && Responses(s.events[..n]) == [];
    ResponsesOfOne(s.events[..n], s.events[n].packet, []);
    assert s.events == s.events[..n] + [s.events[n]];
  }

  lemma TunnelAuthTells(p: Policy, state: nat, m: Message)
    requires IsRequest(m) && m.packetType == PKT_TYPE_TUNNEL_AUTH
    ensures TellsCause(p, state, m, Step(p, state, m))
  {
    hide NameIn, CodeOf, TunnelAuthResponse;
    var s := Step(p, state, m);
    var n := |s.events| - 1;
    assert n <= 1 && Responses(s.events[..n]) == [];
    ResponsesOfOne(s.events[..n], s.events[n].packet, []);
    assert s.events == s.events[..n] + [s.events[n]];
  }

  lemma ChannelTells(p: Policy, state: nat, m: Message)
    requires IsRequest(m) && m.packetType == PKT_TYPE_CHANNEL_CREATE
    ensures TellsCause(p, state, m, Step(p, state, m))
  {
    hide HostIn, CodeOf, ChannelResponse;
    var s := Step(p, state, m);
    if state != TUNNEL_AUTHORIZE {
      ResponsesOfOne([], ChannelResponse(E_PROXY_INTERNALERROR), []);
      assert s.events == [] + [Sent(ChannelResponse(E_PROXY_INTERNALERROR))];
    } else {
      var packet := ChannelResponse(Cause(p, m));
      var done := Cause(p, m) == ERROR_SUCCESS;
      var n := |s.events| - if done then 2 else 1;
      assert n <= 2;
      NoneSent(s.events[..n]);
      assert Responses([ForwardStarted]) == [] && Responses([]) == [];
      ResponsesOfOne(s.events[..n], packet, if done then [ForwardStarted] else []);
      assert s.events == s.events[..n] + [Sent(packet)] + if done then [ForwardStarted] else [];
    }
  }

  lemma {:induction false} NoneSent(es: seq<Event>)
    requires forall i | 0 <= i < |es| :: !es[i].Sent?
    ensures Responses(es) == []
  {
    if es != [] {
      NoneSent(es[1..]);
    }
  }

  lemma CloseTells(p: Policy, state: nat, m: Message)
    requires IsRequest(m) && m.packetType == PKT_TYPE_CLOSE_CHANNEL
    ensures TellsCause(p, state, m, Step(p, state, m))
  {
    hide CodeOf, ChannelCloseResponse;
    ResponsesOfOne([], ChannelCloseResponse(ERROR_SUCCESS), []);
    assert [] + [Sent(ChannelCloseResponse(ERROR_SUCCESS))] == [Sent(ChannelCloseResponse(ERROR_SUCCESS))];
  }

  /** The state in which a request is in turn. */
  function Turn(m: Message): nat
    requires IsRequest(m)
  {
    if m.packetType == PKT_TYPE_HANDSHAKE_REQUEST then INITIALIZED
    else if m.packetType == PKT_TYPE_TUNNEL_CREATE then HANDSHAKE
    else if m.packetType == PKT_TYPE_TUNNEL_AUTH then TUNNEL_CREATE
    else if m.packetType == PKT_TYPE_CHANNEL_CREATE then TUNNEL_AUTHORIZE
    else OPENED
  }

  /** What speaks against a request in turn, as a code. */
  function Cause(p: Policy, m: Message): nat
    requires IsRequest(m)
  {
    if m.packetType == PKT_TYPE_HANDSHAKE_REQUEST then
      if Shares(p, AuthIn(m.body)) || (AuthIn(m.body) == 0 && !p.smartCard && !p.token) then 0 else 0x800759E9
    else if m.packetType == PKT_TYPE_TUNNEL_CREATE then
      if p.cookie.Allows(CookieIn(m.body)) then 0 else 0x800759F8
    else if m.packetType == PKT_TYPE_TUNNEL_AUTH then
      if p.client.Allows(NameIn(m.body)) then 0 else 5
    else if m.packetType == PKT_TYPE_CHANNEL_CREATE then
      if !p.host.Allows(HostIn(m.body)) then 0x800759DA else if !p.dial(HostIn(m.body)) then 0x800759D8 else 0
    else 0
  }
}
