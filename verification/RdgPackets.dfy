/** The control packets of the tunnel: what each side writes, and what the other side reads out of it. */
module RdgPackets {
  import opened Bytes
  import opened Readers
  import opened Delivery
  import opened Utf16

  const PKT_TYPE_HANDSHAKE_REQUEST: nat := 0x1
  const PKT_TYPE_HANDSHAKE_RESPONSE: nat := 0x2
  const PKT_TYPE_TUNNEL_CREATE: nat := 0x4
  const PKT_TYPE_TUNNEL_RESPONSE: nat := 0x5
  const PKT_TYPE_TUNNEL_AUTH: nat := 0x6
  const PKT_TYPE_TUNNEL_AUTH_RESPONSE: nat := 0x7
  const PKT_TYPE_CHANNEL_CREATE: nat := 0x8
  const PKT_TYPE_CHANNEL_RESPONSE: nat := 0x9
  const PKT_TYPE_KEEPALIVE: nat := 0xD
  const PKT_TYPE_CLOSE_CHANNEL: nat := 0x10
  const PKT_TYPE_CLOSE_CHANNEL_RESPONSE: nat := 0x11

  const ERROR_SUCCESS: nat := 0
  const ERROR_ACCESS_DENIED: nat := 5
  const E_PROXY_INTERNALERROR: nat := 0x800759D8
  const E_PROXY_RAP_ACCESSDENIED: nat := 0x800759DA
  const E_PROXY_CAPABILITYMISMATCH: nat := 0x800759E9
  const E_PROXY_COOKIE_AUTHENTICATION_ACCESS_DENIED: nat := 0x800759F8

  const TUNNEL_ID: nat := 10
  const HTTP_CAPABILITY_IDLE_TIMEOUT: nat := 2

  // ---- responses: the server's side ----

  function HandshakeResponse(major: Byte, minor: Byte, caps: nat, code: nat): (p: Packet)
    ensures p.packetType == PKT_TYPE_HANDSHAKE_RESPONSE && |p.body| == 10
    ensures code < 0x1_0000_0000 ==> CodeOf(p) == code
  {
    Read32(code, [], [major, minor] + Put16(0) + Put16(caps));
    Packet(PKT_TYPE_HANDSHAKE_RESPONSE, [] + Put32(code) + ([major, minor] + Put16(0) + Put16(caps)))
  }

  function TunnelResponse(code: nat): (p: Packet)
    ensures p.packetType == PKT_TYPE_TUNNEL_RESPONSE && |p.body| == 18
    ensures code < 0x1_0000_0000 ==> CodeOf(p) == code
  {
    var later := Put16(3) + Put16(0) + Put32(TUNNEL_ID) + Put32(HTTP_CAPABILITY_IDLE_TIMEOUT);
    Read32(code, Put16(0), later);
    Packet(PKT_TYPE_TUNNEL_RESPONSE, Put16(0) + Put32(code) + later)
  }

  function TunnelAuthResponse(code: nat, redirect: nat, idle: nat): (p: Packet)
    ensures p.packetType == PKT_TYPE_TUNNEL_AUTH_RESPONSE && |p.body| == 16
    ensures code < 0x1_0000_0000 ==> CodeOf(p) == code
  {
    Read32(code, [], Put16(3) + Put16(0) + Put32(redirect) + Put32(idle));
    Packet(PKT_TYPE_TUNNEL_AUTH_RESPONSE, [] + Put32(code) + (Put16(3) + Put16(0) + Put32(redirect) + Put32(idle)))
  }

  function ChannelResponse(code: nat): (p: Packet)
    ensures p.packetType == PKT_TYPE_CHANNEL_RESPONSE && |p.body| == 12
    ensures code < 0x1_0000_0000 ==> CodeOf(p) == code
  {
    Read32(code, [], Put16(1) + Put16(0) + Put32(1));
    Packet(PKT_TYPE_CHANNEL_RESPONSE, [] + Put32(code) + (Put16(1) + Put16(0) + Put32(1)))
  }

  function ChannelCloseResponse(code: nat): (p: Packet)
    ensures p.packetType == PKT_TYPE_CLOSE_CHANNEL_RESPONSE && |p.body| == 12
    ensures code < 0x1_0000_0000 ==> CodeOf(p) == code
  {
    Read32(code, [], Put16(1) + Put16(0) + Put32(1));
    Packet(PKT_TYPE_CLOSE_CHANNEL_RESPONSE, [] + Put32(code) + (Put16(1) + Put16(0) + Put32(1)))
  }

  /** The error code a response carries. */
  function CodeOf(p: Packet): nat {
    Field32(p.body, if p.packetType == PKT_TYPE_TUNNEL_RESPONSE then 2 else 0)
  }

  // ---- responses: the client's reading of them ----

  predicate HasBit(fields: nat, bit: nat)
    requires bit > 0
  {
    fields / bit % 2 == 1
  }

  datatype Reply<T> = Reply(value: T) | Refused(code: nat)

  /** The client takes the handshake's code for a signed number and refuses only positive ones. */
  function ReadHandshakeResponse(data: Bytes): Reply<nat> {
    var code := Field32(data, 0);
    if 0 < code < 0x8000_0000 then Refused(code) else Reply(Field16(data, 8))
  }

  function ReadTunnelResponse(data: Bytes): Reply<(nat, nat)> {
    var code, fields := Field32(data, 2), Field16(data, 6);
    var id := if HasBit(fields, 1) then Field32(data, 10) else 0;
    var caps := if !HasBit(fields, 2) then 0 else if HasBit(fields, 1) then Field32(data, 14) else Field32(data, 10);
    if code != 0 then Refused(code) else Reply((id, caps))
  }

  function ReadTunnelAuthResponse(data: Bytes): Reply<(nat, nat)> {
    var code, fields := Field32(data, 0), Field16(data, 4);
    var flags := if HasBit(fields, 1) then Field32(data, 8) else 0;
    var timeout := if !HasBit(fields, 2) then 0 else if HasBit(fields, 1) then Field32(data, 12) else Field32(data, 8);
    if code > 0 then Refused(code) else Reply((flags, timeout))
  }

  function ReadChannelResponse(data: Bytes): Reply<nat> {
    var code, fields := Field32(data, 0), Field16(data, 4);
    if code > 0 then Refused(code) else Reply(if HasBit(fields, 1) then Field32(data, 8) else 0)
  }

  // ---- requests: the client's side ----

  function HandshakeRequest(caps: nat): Packet {
    Packet(PKT_TYPE_HANDSHAKE_REQUEST, [0, 0] + Put16(0) + Put16(caps))
  }

  function TunnelRequest(token: Bytes): Packet {
    Packet(PKT_TYPE_TUNNEL_CREATE,
           Put32(HTTP_CAPABILITY_IDLE_TIMEOUT) + Put16(if token == [] then 0 else 1) + Put16(0)
           + if token == [] then [] else Put16(|Encoded(token)|) + Encoded(token))
  }

  function TunnelAuthRequest(name: Bytes): Packet {
    Packet(PKT_TYPE_TUNNEL_AUTH, Put16(|Encoded(name)|) + Encoded(name))
  }

  function ChannelRequest(server: Bytes, port: int): Packet {
    Packet(PKT_TYPE_CHANNEL_CREATE,
           [1] + [0] + Put16(port) + Put16(3) + Put16(|Encoded(server)|) + Encoded(server))
  }

  // ---- requests: the server's reading of them ----

  /** The text of a decoded field; the decoder's error is dropped and leaves the empty string. */
  function TextOf(b: Bytes): Bytes {
    match DecodedText(b)
    case Text(t) => t
    case OddLength => []
  }

  function AuthIn(data: Bytes): nat {
    Field16(data, 4)
  }

  function MajorIn(data: Bytes): Byte {
    Field8(data, 0)
  }

  function MinorIn(data: Bytes): Byte {
    Field8(data, 1)
  }

  function CookieIn(data: Bytes): Bytes {
    if Field16(data, 4) == 1 then TextOf(FieldSome(data, 10, Field16(data, 8))) else []
  }

  function NameIn(data: Bytes): Bytes {
    TextOf(FieldAll(data, 2, Field16(data, 0)))
  }

  function ServerIn(data: Bytes): Bytes {
    TextOf(FieldAll(data, 8, Field16(data, 6)))
  }

  function PortIn(data: Bytes): nat {
    Field16(data, 2)
  }

  // ---- both sides together ----

  lemma Read16(n: int, pre: Bytes, post: Bytes)
    ensures Field16(pre + Put16(n) + post, |pre|) == n % 0x1_0000
  {
    Get16OfPut16(n, pre, post);
  }

  lemma Read32(n: int, pre: Bytes, post: Bytes)
    ensures Field32(pre + Put32(n) + post, |pre|) == n % 0x1_0000_0000
  {
    Get32OfPut32(n, pre, post);
  }

  /** The client takes the code for a signed number: half of the 32-bit codes pass as success. */
  lemma HandshakeResponseRead(major: Byte, minor: Byte, caps: nat, code: nat)
    requires caps < 0x1_0000 && code < 0x1_0000_0000
    ensures ReadHandshakeResponse(HandshakeResponse(major, minor, caps, code).body)
         == if 0 < code < 0x8000_0000 then Refused(code) else Reply(caps)
  {
    hide Put16, Put32;
    var b := HandshakeResponse(major, minor, caps, code).body;
    Read32(code, [], [major, minor] + Put16(0) + Put16(caps));
    assert b == [] + Put32(code) + ([major, minor] + Put16(0) + Put16(caps));
    Read16(caps, Put32(code) + [major, minor] + Put16(0), []);
    assert b == (Put32(code) + [major, minor] + Put16(0)) + Put16(caps) + [];
  }

  lemma TunnelResponseRead(code: nat)
    requires code < 0x1_0000_0000
    ensures ReadTunnelResponse(TunnelResponse(code).body)
         == if code != 0 then Refused(code) else Reply((TUNNEL_ID, HTTP_CAPABILITY_IDLE_TIMEOUT))
  {
    hide Put16, Put32;
    var b := TunnelResponse(code).body;
    var id, caps := Put32(TUNNEL_ID), Put32(HTTP_CAPABILITY_IDLE_TIMEOUT);
    Read32(code, Put16(0), Put16(3) + Put16(0) + id + caps);
    assert b == Put16(0) + Put32(code) + (Put16(3) + Put16(0) + id + caps);
    Read16(3, Put16(0) + Put32(code), Put16(0) + id + caps);
    assert b == (Put16(0) + Put32(code)) + Put16(3) + (Put16(0) + id + caps);
    Read32(TUNNEL_ID, Put16(0) + Put32(code) + Put16(3) + Put16(0), caps);
    Read32(HTTP_CAPABILITY_IDLE_TIMEOUT, Put16(0) + Put32(code) + Put16(3) + Put16(0) + id, []);
    assert b == (Put16(0) + Put32(code) + Put16(3) + Put16(0) + id) + caps + [];
  }

  lemma TunnelAuthResponseRead(code: nat, redirect: nat, idle: nat)
    requires code < 0x1_0000_0000
    ensures ReadTunnelAuthResponse(TunnelAuthResponse(code, redirect, idle).body)
         == if code != 0 then Refused(code) else Reply((redirect % 0x1_0000_0000, idle % 0x1_0000_0000))
  {
    hide Put16, Put32;
    var b := TunnelAuthResponse(code, redirect, idle).body;
    Read32(code, [], Put16(3) + Put16(0) + Put32(redirect) + Put32(idle));
    assert b == [] + Put32(code) + (Put16(3) + Put16(0) + Put32(redirect) + Put32(idle));
    Read16(3, Put32(code), Put16(0) + Put32(redirect) + Put32(idle));
    assert b == Put32(code) + Put16(3) + (Put16(0) + Put32(redirect) + Put32(idle));
    Read32(redirect, Put32(code) + Put16(3) + Put16(0), Put32(idle));
    Read32(idle, Put32(code) + Put16(3) + Put16(0) + Put32(redirect), []);
    assert b == (Put32(code) + Put16(3) + Put16(0) + Put32(redirect)) + Put32(idle) + [];
  }

  lemma ChannelResponseRead(code: nat)
    requires code < 0x1_0000_0000
    ensures ReadChannelResponse(ChannelResponse(code).body) == if code != 0 then Refused(code) else Reply(1)
  {
    hide Put16, Put32;
    var b := ChannelResponse(code).body;
    Read32(code, [], Put16(1) + Put16(0) + Put32(1));
    assert b == [] + Put32(code) + (Put16(1) + Put16(0) + Put32(1));
    Read16(1, Put32(code), Put16(0) + Put32(1));
    assert b == Put32(code) + Put16(1) + (Put16(0) + Put32(1));
    Read32(1, Put32(code) + Put16(1) + Put16(0), []);
    assert b == (Put32(code) + Put16(1) + Put16(0)) + Put32(1) + [];
  }

  lemma HandshakeRequestRead(caps: nat)
    requires caps < 0x1_0000
    ensures AuthIn(HandshakeRequest(caps).body) == caps
  {
    Read16(caps, [0, 0] + Put16(0), []);
    assert HandshakeRequest(caps).body == ([0, 0] + Put16(0)) + Put16(caps) + [];
  }

  /** What a name field carries over: its length is 16 bits wide, so only the first `length mod 65536`
      bytes of a longer name are read, and then decoded. */
  function Carried(name: Bytes): Bytes {
    TextOf(Encoded(name)[..|Encoded(name)| % 0x1_0000])
  }

  lemma ShortFieldAll(pre: Bytes, name: Bytes, n: nat)
    requires n <= |name|
    ensures FieldAll(pre + name, |pre|, n) == name[..n] == FieldSome(pre + name, |pre|, n)
  {
    assert (pre + name)[|pre|..|pre| + n] == name[..n];
  }

  lemma TunnelAuthRequestRead(name: Bytes)
    ensures NameIn(TunnelAuthRequest(name).body) == Carried(name)
  {
    hide Put16, Encoded, TextOf;
    var e := Encoded(name);
    Read16(|e|, [], e);
    assert [] + Put16(|e|) + e == Put16(|e|) + e;
    ShortFieldAll(Put16(|e|), e, |e| % 0x1_0000);
  }

  lemma ChannelRequestRead(server: Bytes, port: int)
    ensures ServerIn(ChannelRequest(server, port).body) == Carried(server)
    ensures PortIn(ChannelRequest(server, port).body) == port % 0x1_0000
  {
    hide Put16, Encoded, TextOf;
    var e := Encoded(server);
    var b := ChannelRequest(server, port).body;
    Read16(port, [1] + [0], Put16(3) + Put16(|e|) + e);
    assert b == ([1] + [0]) + Put16(port) + (Put16(3) + Put16(|e|) + e);
    var pre := [1] + [0] + Put16(port) + Put16(3);
    Read16(|e|, pre, e);
    ShortFieldAll(pre + Put16(|e|), e, |e| % 0x1_0000);
    assert b == (pre + Put16(|e|)) + e;
  }

  lemma TunnelRequestRead(token: Bytes)
    ensures CookieIn(TunnelRequest(token).body) == if token == [] then [] else Carried(token)
  {
    hide Put16, Put32, Encoded, TextOf;
    var b, caps := TunnelRequest(token).body, Put32(HTTP_CAPABILITY_IDLE_TIMEOUT);
    if token == [] {
      Read16(0, caps, Put16(0));
      assert b == caps + Put16(0) + Put16(0);
    } else {
      var e := Encoded(token);
      Read16(1, caps, Put16(0) + Put16(|e|) + e);
      assert b == caps + Put16(1) + (Put16(0) + Put16(|e|) + e);
      var pre := caps + Put16(1) + Put16(0);
      Read16(|e|, pre, e);
      assert b == (pre + Put16(|e|)) + e;
      ShortFieldAll(pre + Put16(|e|), e, |e| % 0x1_0000);
    }
  }

  /** Fields that end before their announced length: names are lost as a whole, of a cookie there is the start,
      and in both cases zeros stand for the rest. */
  lemma ShortFields(data: Bytes)
    ensures |data| >= 2 && 2 + Get16(data, 0) > |data| ==> NameIn(data) == TextOf(Zeros(Get16(data, 0)))
    ensures |data| >= 8 && 8 + Get16(data, 6) > |data| ==> ServerIn(data) == TextOf(Zeros(Get16(data, 6)))
    ensures |data| >= 10 && Get16(data, 4) == 1 && 10 + Get16(data, 8) > |data| ==>
              CookieIn(data) == TextOf(data[10..] + Zeros(10 + Get16(data, 8) - |data|))
    ensures |data| < 6 || Get16(data, 4) != 1 ==> CookieIn(data) == []
  {
    hide TextOf, Get16;
  }

  /** A name arrives unchanged exactly when it fits its field and the codec keeps it. */
  predicate Portable(name: Bytes) {
    |Encoded(name)| < 0x1_0000 && ValidUtf8(name) && BasicPlane(name) && (name == [] || name[|name| - 1] != 0)
  }

  lemma PortableNamesArrive(name: Bytes)
    ensures Carried(name) == name <==> Portable(name)
  {
    hide Encoded, DecodedText, ValidUtf8, BasicPlane;
    var e := Encoded(name);
    EncodedIsEven(name);
    if |e| < 0x1_0000 {
      assert e[..|e| % 0x1_0000] == e;
      CodecIdentity(name);
    } else {
      CutShortIsLost(name, |e| % 0x1_0000);
      EvenIsText(e[..|e| % 0x1_0000]);
    }
  }

  lemma EncodedIsEven(name: Bytes)
    ensures |Encoded(name)| % 2 == 0 && DecodedText(Encoded(name)).Text?
  {
  }
}
