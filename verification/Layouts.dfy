/** The bytes on the wire, written out: packets of [MS-TSGU] section 2.2.10 and the strings that are dialled. */
module Layouts {
  import opened Bytes
  import opened Delivery
  import opened Relay
  import opened Utf16
  import opened RdgPackets
  import opened Session
  import RdpText

  /** Type, reserved field and size, then the body. */
  lemma PacketLayout(p: Packet, body: Bytes)
    requires p.packetType < 256 && p.body == body && |body| < 248
    ensures Encode(p) == [p.packetType, 0, 0, 0, |body| + 8, 0, 0, 0] + body
  {
    assert Put16(p.packetType) == [p.packetType, 0] && Put16(0) == [0, 0];
    assert Put32(|body| + 8) == [|body| + 8, 0, 0, 0];
  }

  lemma LetterEncoded()
    ensures Encoded([65]) == [65, 0]
  {
    assert Runes([65][1..]) == [] && Runes([65]) == [65];
    assert Units([65]) == [65] + Units([]);
    assert PutUnits([65]) == Put16(65) + PutUnits([]);
  }

  lemma HandshakeRequestLayout()
    ensures Encode(HandshakeRequest(2))
         == [1, 0, 0, 0, 14, 0, 0, 0] + [0, 0, 0, 0, 2, 0]
  {
    PacketLayout(HandshakeRequest(2), [0, 0, 0, 0, 2, 0]);
  }

  lemma PlainTunnelLayout()
    ensures Encode(TunnelRequest([]))
         == [4, 0, 0, 0, 16, 0, 0, 0] + [2, 0, 0, 0, 0, 0, 0, 0]
  {
    PacketLayout(TunnelRequest([]), [2, 0, 0, 0, 0, 0, 0, 0]);
  }

  lemma TunnelRequestLayout()
    ensures Encode(TunnelRequest([65]))
         == [4, 0, 0, 0, 20, 0, 0, 0] + [2, 0, 0, 0, 1, 0, 0, 0, 2, 0, 65, 0]
  {
    hide Encoded;
    LetterEncoded();
    PacketLayout(TunnelRequest([65]), [2, 0, 0, 0, 1, 0, 0, 0, 2, 0, 65, 0]);
  }

  lemma TunnelAuthRequestLayout()
    ensures Encode(TunnelAuthRequest([65]))
         == [6, 0, 0, 0, 12, 0, 0, 0] + [2, 0, 65, 0]
  {
    hide Encoded;
    LetterEncoded();
    PacketLayout(TunnelAuthRequest([65]), [2, 0, 65, 0]);
  }

  lemma ChannelRequestLayout()
    ensures Encode(ChannelRequest([65], 3389))
         == [8, 0, 0, 0, 18, 0, 0, 0] + [1, 0, 61, 13, 3, 0, 2, 0, 65, 0]
  {
    hide Encoded;
    LetterEncoded();
    PacketLayout(ChannelRequest([65], 3389), [1, 0, 61, 13, 3, 0, 2, 0, 65, 0]);
  }

  lemma HandshakeResponseLayout()
    ensures Encode(HandshakeResponse(1, 0, 2, 0))
         == [2, 0, 0, 0, 18, 0, 0, 0] + [0, 0, 0, 0, 1, 0, 0, 0, 2, 0]
  {
    PacketLayout(HandshakeResponse(1, 0, 2, 0), [0, 0, 0, 0, 1, 0, 0, 0, 2, 0]);
  }

  lemma TunnelResponseLayout()
    ensures Encode(TunnelResponse(0))
         == [5, 0, 0, 0, 26, 0, 0, 0] + [0, 0, 0, 0, 0, 0, 3, 0, 0, 0, 10, 0, 0, 0, 2, 0, 0, 0]
  {
    PacketLayout(TunnelResponse(0), [0, 0, 0, 0, 0, 0, 3, 0, 0, 0, 10, 0, 0, 0, 2, 0, 0, 0]);
  }

  lemma TunnelAuthResponseLayout()
    ensures Encode(TunnelAuthResponse(0, 0x8000_0000, 30))
         == [7, 0, 0, 0, 24, 0, 0, 0] + [0, 0, 0, 0, 3, 0, 0, 0, 0, 0, 0, 128, 30, 0, 0, 0]
  {
    PacketLayout(TunnelAuthResponse(0, 0x8000_0000, 30), [0, 0, 0, 0, 3, 0, 0, 0, 0, 0, 0, 128, 30, 0, 0, 0]);
  }

  lemma ChannelResponseLayout()
    ensures Encode(ChannelResponse(0x800759DA))
         == [9, 0, 0, 0, 20, 0, 0, 0] + [0xDA, 0x59, 7, 128, 1, 0, 0, 0, 1, 0, 0, 0]
  {
    PacketLayout(ChannelResponse(0x800759DA), [0xDA, 0x59, 7, 128, 1, 0, 0, 0, 1, 0, 0, 0]);
  }

  lemma CloseResponseLayout()
    ensures Encode(ChannelCloseResponse(0))
         == [17, 0, 0, 0, 20, 0, 0, 0] + [0, 0, 0, 0, 1, 0, 0, 0, 1, 0, 0, 0]
  {
    PacketLayout(ChannelCloseResponse(0), [0, 0, 0, 0, 1, 0, 0, 0, 1, 0, 0, 0]);
  }

  lemma DataLayout()
    ensures Encode(Wrap([65]))
         == [10, 0, 0, 0, 11, 0, 0, 0] + [1, 0, 65]
  {
    PacketLayout(Wrap([65]), [1, 0, 65]);
  }

  /** Optional fields follow one another, each only if its bit announces it. */
  lemma OptionalFields()
    ensures ReadTunnelResponse([0, 0, 0, 0, 0, 0, 1, 0, 0, 0, 7, 0, 0, 0]) == Reply((7, 0))
    ensures ReadTunnelResponse([0, 0, 0, 0, 0, 0, 2, 0, 0, 0, 7, 0, 0, 0]) == Reply((0, 7))
    ensures ReadTunnelAuthResponse([0, 0, 0, 0, 1, 0, 0, 0, 7, 0, 0, 0]) == Reply((7, 0))
    ensures ReadTunnelAuthResponse([0, 0, 0, 0, 2, 0, 0, 0, 7, 0, 0, 0]) == Reply((0, 7))
    ensures ReadChannelResponse([0, 0, 0, 0, 0, 0, 0, 0, 7, 0, 0, 0]) == Reply(0)
  {
  }

  /** "h:3389", and an IPv6 address in brackets. */
  lemma HostLayouts()
    ensures JoinHostPort([104], 3389) == [104, 58, 51, 51, 56, 57]
    ensures JoinHostPort([58, 58, 49], 80) == [91, 58, 58, 49, 93, 58, 56, 48]
  {
    assert RdpText.Digits(3389) == "3389";
    assert RdpText.Digits(80) == "80";
    assert Decimal(3389) == [51, 51, 56, 57] && Decimal(80) == [56, 48];
  }
}
