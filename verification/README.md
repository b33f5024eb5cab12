# HomeRDP Gateway: verified model

A Dafny model of the gateway's protocol core and of the stores and caches around it, with the properties
they are built for. `dafny verify dfyconfig.toml` checks all of it.

- `Bytes`, `Readers`, `Framing`, `Delivery`, `Streams`, `Arriving`, `Transport`: packets of [MS-TSGU] section 2.2.10.9 cut
  into transport frames and put together again. The functions in `Framing` say what one read does, including
  the two ways it can go wrong for good: a declared size below 8 (the slice expression panics) and a first
  fragment of more than 65536 bytes (the loop never advances). `Transport` holds the cursor, the fragment
  buffer and the loops, proved against them.
- `Relay`: the byte stream of the remote desktop inside DATA packets, the forwarder, the tunnel's counters.
- `Utf16`: the codec of names and cookies, over Go strings as UTF-8 byte strings (RFC 2781, sections 2.1 and 2.2).
- `RdgPackets`, `Layouts`, `Session`, `SessionLaws`, `Processor`: the control packets, their bytes, and the server's
  session. `Session` is the session as a function of its messages, `SessionLaws` what every session keeps and
  delivers, `Processor` the object that runs it: the ghost log records every check, dial, response and delivery, and
  ties transport and backend to them.
- `Client`, `Composition`: the client, and both parties joined by two byte streams, each read in whatever frames
  the transport cuts it into, with the forwarder adding DATA packets.
- `Interleaving`: the session's loop and the forwarder writing to one transport, in every interleaving.
- `CredentialCache`, `AuthUsers`: the auth helper's cache of a configuration file, readers and writer interleaved,
  and the user store that file is generated from.
- `LoginState`: the OIDC transaction and the cache of consumed states.
- `RdpText`, `RdpSettings`: the `.rdp` parser and printer, and the builder that leaves out defaults.
- `KdcProxy`: the fan-out to KDCs (section 7.2.2 of RFC 4120 for the length prefix).
- `Names`, `Quota`, `Disks`, `Entries`, `Icons`: entries and icons on disk, with a crash or an I/O error possible at
  every step, in any sequence of requests, under the quota that the settings give.

Policy checks and the dial are functions of their argument: each is asked at most once in a session, so nothing
is lost. Time, random names and what a transport, connection or file yields are inputs.

Where the code does less than one would expect, the model follows the code, and the exact condition is proved:

- A packet of more than 65537 bytes can be cut so that the reader hangs (`Delivery.FragmentLimitIsExact`,
  `Streams.WithinLimitIsExact`).
- The client takes the handshake's error code for a signed number, so no refusal the server can send in a
  handshake is noticed (`RdgPackets.HandshakeResponseRead`, `Composition.HandshakeRefusalGoesUnnoticed`).
- A login state can be accepted again by a callback that waits, between its expiry check and the cache's lock,
  longer than the transaction was old when first consumed (`LoginState.DelayBoundIsExact`).
- The content of the credential cache can step back, though never behind the recorded time
  (`CredentialCache.ContentMayStepBack`). It never does where no version is published between a load's stat and its
  read (`CredentialCache.NoTornLoadsNoStepBack`), and where it does, the cache had users newer than its time before
  (`CredentialCache.StepsBackIffOvertaken`).
- The `.rdp` parser stops silently at a line beyond the scanner's buffer. The printer ends lines with CR LF, so a
  file whose longest line just fits without CR is not read back from its own print (`RdpText.NormalForm`,
  `RdpText.LongestLineIsLost`). In the same way a builder's long line and all lines after it are lost when its text is
  loaded (`RdpSettings.SettingsRoundTrip`, `RdpSettings.LongSettingIsLost`).
- `Put` and `Delete` remove an upload without looking whether another entry uses it, and `Put` compares paths as
  strings where files are found by base name (`Entries.PutLosesUploadIff`, `Entries.DeleteLosesUploadIff`); the admin
  requests never make two entries share an upload.
- A header that declares less than eight bytes panics the reader, wherever frames end (`Streams.StreamIsReadAlike`).

## Model

| member | source | states |
|---|---|---|
| Delivery.FramingIndependence | cmd/rdpgw/protocol/common.go:31-80 | However a stream of packets of at most 65537 bytes each is cut into frames, repeated reads hand up exactly those packets, in order and without error |
| Delivery.ReadStopsAtFirstBoundary | cmd/rdpgw/protocol/common.go:63-80 | One read returns at the first frame end that is also a packet end, with exactly the packets up to it, and their lengths add up to the bytes taken |
| Delivery.FragmentLimitIsExact | cmd/rdpgw/protocol/common.go:38-44 | Every cutting of a packet stream is read back if and only if no packet exceeds 65537 bytes; a longer packet has a cutting that hangs the reader |
| Delivery.HeaderOfPacket | cmd/rdpgw/protocol/common.go:82-109 | readHeader recovers type, size and body of a created packet, whatever bytes follow |
| Delivery.HeaderOfPrefix | cmd/rdpgw/protocol/common.go:96-108 | A proper prefix of a packet is taken for an incomplete fragment |
| Framing.ResumeStep | cmd/rdpgw/protocol/common.go:53-57 | The cursor step after reassembly is positive and stays inside the current frame |
| Framing.NoProgressIffStuck | cmd/rdpgw/protocol/common.go:31-44 | A round of the read loop leaves cursor and transport unchanged exactly when a first fragment exceeds 65536 bytes |
| Framing.DivergesIffRunsForever | cmd/rdpgw/protocol/common.go:74-79 | The model's divergent outcome is the loop going round without end, and no other outcome is |
| Framing.SmallFramesTerminate | cmd/rdpgw/protocol/common.go:31-80 | With frames of at most 65536 bytes, whatever they contain, reading never hangs |
| Streams.StreamIsReadAlike | cmd/rdpgw/protocol/common.go:31-109 | Any bytes that can be buffered, however cut, are read as the same messages until the transport fails, and reading panics if and only if some packet's end is followed by a header that declares less than its own eight bytes |
| Streams.WithinLimitIsExact | cmd/rdpgw/protocol/common.go:31-80 | No way of cutting a stream of any bytes hangs the reader if and only if each of its packets, and an unfinished one at its end, can be buffered |
| Streams.PacketStreamsFit | cmd/rdpgw/protocol/common.go:82-109 | Streams of packets are such bytes, and their messages are the packets |
| Arriving.ReadExtends | cmd/rdpgw/protocol/common.go:63-80 | A read that did not run into the end of what had arrived returns the same whatever arrives later |
| Arriving.ReadsWholePackets | cmd/rdpgw/protocol/common.go:63-80 | A read that returns, over part of a packet stream, has consumed whole packets and nothing else |
| Transport.PacketReader.ReadFrame | cmd/rdpgw/protocol/packet_reader.go:29-40 | A read resets the cursor to a new frame; a failed one leaves nothing to parse |
| Transport.PacketReader.IncrementPtr | cmd/rdpgw/protocol/packet_reader.go:25-27 | Advancing drops that many bytes of the unparsed tail and stays within the frame |
| Transport.HandleMsgFrame | cmd/rdpgw/protocol/common.go:31-61 | The cursor-and-buffer loop yields the message, tail and remaining reads of the reassembly function, or panics on a declared size below 8; a reassembled payload lies in an array of its own |
| Transport.AppendTo | cmd/rdpgw/protocol/common.go:53 | Appending to the filled part of the buffer leaves that part as it is, in place or in a new array |
| Transport.ReadMessage | cmd/rdpgw/protocol/common.go:63-80 | The read loop returns exactly the messages and remaining reads of the read function, given that the loop ends at all; each message put together from several frames, and no other, has an array of its own, which still holds its payload when the call returns |
| Transport.CreatePacket | cmd/rdpgw/protocol/common.go:82-93 | The buffer holds the header fields and data of the encoded packet |
| Relay.StreamTransparency | cmd/rdpgw/protocol/common.go:111-141 | What a connection yields until its first failure is, after forwarding, any re-cutting, reading and unwrapping, exactly what the other side writes |
| Relay.ChunksAreTheStream | cmd/rdpgw/protocol/common.go:115-128 | Reading through the 4086-byte buffer loses and reorders nothing |
| Relay.UnwrapUndoesWrap | cmd/rdpgw/protocol/common.go:124-140 | Unwrapping a DATA body gives back the chunk if and only if its length fits the 16-bit field |
| Relay.UnwrappedMeaning | cmd/rdpgw/protocol/common.go:131-141 | As many bytes as announced: those that follow if all are there, else zeros |
| Relay.FirstChunkIsFull | cmd/rdpgw/protocol/common.go:115-128 | A chunk is all that a read finds, up to the buffer's 4086 bytes |
| Relay.Forward | cmd/rdpgw/protocol/common.go:111-129 | The loop writes one DATA packet a chunk, in order, and closes the connection |
| Relay.Receive | cmd/rdpgw/protocol/common.go:131-141 | Writes the announced bytes, or as many zeros when fewer arrived |
| Relay.Tunnel.ReadMessages | cmd/rdpgw/protocol/tunnel.go:63-76 | Hands up one read's messages, reassembled payloads in arrays of their own, and adds exactly the messages' lengths to the bytes received |
| Relay.Tunnel.Write | cmd/rdpgw/protocol/tunnel.go:57-61 | Puts one packet on the outgoing transport and counts its bytes |
| Delivery.LengthsAreWireBytes | cmd/rdpgw/protocol/tunnel.go:71-74 | The lengths a tunnel adds up are the bytes that were on the wire |
| Utf16.CodecMeaning | cmd/rdpgw/protocol/utf16.go:11-42 | For every Go string, encoding and decoding gives its runes with each one outside the basic plane as two U+FFFD and one trailing NUL removed |
| Utf16.CodecIdentity | cmd/rdpgw/protocol/utf16.go:11-42 | The round trip is the identity if and only if the string is well-formed UTF-8, of the basic plane, and does not end in NUL |
| Utf16.StripIsRuneLevel | cmd/rdpgw/protocol/utf16.go:28-32 | The byte-level trailing-zero test removes exactly a trailing NUL rune |
| Utf16.SurrogatePair | cmd/rdpgw/protocol/utf16.go:35-42 | A rune outside the basic plane is written as a high and a low surrogate of ten bits each |
| Utf16.Utf8RoundTrip | cmd/rdpgw/protocol/utf16.go:21-24 | Runes written as UTF-8 are read back as they were |
| Utf16.EncodeUTF16 | cmd/rdpgw/protocol/utf16.go:35-42 | The loop writes the little-endian units of the string |
| Utf16.DecodeUTF16 | cmd/rdpgw/protocol/utf16.go:11-33 | The loop decodes unit by unit, refuses odd lengths, and strips one trailing zero byte |
| RdgPackets.HandshakeResponseRead | cmd/rdpgw/protocol/client.go:115-133 | The client reads the offered capabilities, and refuses exactly the codes that are positive as signed 32-bit numbers |
| Composition.HandshakeRefusalGoesUnnoticed | cmd/rdpgw/protocol/process.go:60-79 | Every refusal of a handshake is one response with a code that is not success, which the client answers with its tunnel request |
| RdgPackets.TunnelResponseRead | cmd/rdpgw/protocol/client.go:161-183 | The client reads the server's tunnel id and capabilities, or the refusing code |
| RdgPackets.TunnelAuthResponseRead | cmd/rdpgw/protocol/client.go:196-217 | The client reads the server's redirect flags and timeout (reduced to 32 bits), or the refusing code |
| RdgPackets.ChannelResponseRead | cmd/rdpgw/protocol/client.go:234-252 | The client reads channel id 1, or the refusing code |
| RdgPackets.TunnelRequestRead | cmd/rdpgw/protocol/process.go:233-250 | The server reads the cookie the client sent, as far as its 16-bit length field carries it |
| RdgPackets.TunnelAuthRequestRead | cmd/rdpgw/protocol/process.go:268-278 | The server reads the client's name, as far as its 16-bit length field carries it |
| RdgPackets.ChannelRequestRead | cmd/rdpgw/protocol/process.go:298-318 | The server reads the client's server name and its port modulo 65536 |
| RdgPackets.PortableNamesArrive | cmd/rdpgw/protocol/process.go:298-318 | A name of any length arrives unchanged if and only if its encoding fits the 16-bit length and the codec keeps it |
| Layouts.PacketLayout | cmd/rdpgw/protocol/common.go:83-93 | Type, reserved field and size come before the data, little-endian |
| Layouts.HandshakeRequestLayout | cmd/rdpgw/protocol/client.go:89-113 | The bytes of a handshake request |
| Layouts.PlainTunnelLayout | cmd/rdpgw/protocol/client.go:135-159 | The bytes of a tunnel request without a token |
| Layouts.TunnelRequestLayout | cmd/rdpgw/protocol/client.go:135-159 | The bytes of a tunnel request with a token |
| Layouts.TunnelAuthRequestLayout | cmd/rdpgw/protocol/client.go:185-194 | The bytes of a tunnel authorization request |
| Layouts.ChannelRequestLayout | cmd/rdpgw/protocol/client.go:219-232 | The bytes of a channel request |
| Layouts.HandshakeResponseLayout | cmd/rdpgw/protocol/process.go:194-202 | The bytes of a handshake response |
| Layouts.TunnelResponseLayout | cmd/rdpgw/protocol/process.go:252-266 | The bytes of a tunnel response |
| Layouts.TunnelAuthResponseLayout | cmd/rdpgw/protocol/process.go:280-296 | The bytes of a tunnel authorization response |
| Layouts.ChannelResponseLayout | cmd/rdpgw/protocol/process.go:320-337 | The bytes of a channel response |
| Layouts.CloseResponseLayout | cmd/rdpgw/protocol/process.go:339-356 | The bytes of a channel close response |
| Layouts.DataLayout | cmd/rdpgw/protocol/common.go:120-128 | The bytes of a DATA packet |
| Layouts.OptionalFields | cmd/rdpgw/protocol/client.go:161-217 | Optional fields follow one another, each only if its bit announces it |
| Layouts.HostLayouts | cmd/rdpgw/protocol/process.go:130-131 | Host and port joined with a colon, an IPv6 address in brackets |
| RdgPackets.ShortFields | cmd/rdpgw/protocol/process.go:233-318 | Names that end early are lost as a whole, cookies keep their start, and zeros stand for the rest |
| Session.RedirectBitsMeaning | cmd/rdpgw/protocol/process.go:358-384 | Each device that may not be redirected has its own bit, unless all are enabled or disabled at once |
| Session.MatchAuth | cmd/rdpgw/protocol/process.go:215-231 | Accepted if and only if a mechanism is shared, or none is demanded and none offered |
| Session.MatchAuthNames | cmd/rdpgw/protocol/process.go:215-231 | The answer names exactly the mechanisms the server demands |
| Session.HandshakeAnswer | cmd/rdpgw/protocol/process.go:60-79 | An accepted handshake is answered with the version it came with, and the client reads from the answer what the server demands |
| Session.AuthResponseRead | cmd/rdpgw/protocol/process.go:280-296 | The client reads the policy's redirect flags and idle timeout from the response |
| Session.HostStringIsExact | cmd/rdpgw/protocol/process.go:130-131 | The host string that is checked and dialled determines server and port |
| SessionLaws.SessionLanguage | cmd/rdpgw/protocol/process.go:45-189 | Process returns nil if and only if some prefix of the known, readable messages is HANDSHAKE, TUNNEL_CREATE, TUNNEL_AUTH, CHANNEL_CREATE, then DATA and KEEPALIVE with at least one DATA, then CLOSE_CHANNEL, with everything asked for granted |
| SessionLaws.DialIsChecked | cmd/rdpgw/protocol/process.go:88-149 | In any session the host is dialled at most once, after every configured check accepted, on the exact string the host check accepted |
| SessionLaws.SessionIsWellAnswered | cmd/rdpgw/protocol/process.go:59-183 | Each response answers its request with the type one above it, successes come in protocol order, and a non-zero code is last and ends the session in an error |
| SessionLaws.SessionDelivers | cmd/rdpgw/protocol/process.go:158-164 | What a session delivers to the remote desktop is exactly what the DATA packets before its end unwrap to, in order, however they are spread over reads |
| SessionLaws.UplinkTransparency | cmd/rdpgw/protocol/process.go:158-164 | Chunks wrapped by a client and cut into any frames are handed to the remote desktop as exactly the client's bytes |
| SessionLaws.TakenUpToTheEnd | cmd/rdpgw/protocol/process.go:45-189 | The message that ends a session is the first whose handling does not go on |
| SessionLaws.RefusalCodes | cmd/rdpgw/protocol/process.go:59-183 | A refusal carries the code of its cause: capabilities, cookie, client name, host, or an internal error for a request out of turn or a host that cannot be reached |
| SessionLaws.StateNeverDecreases | cmd/rdpgw/protocol/process.go:59-183 | The state never decreases while a session runs |
| SessionLaws.UnknownIsIgnored | cmd/rdpgw/protocol/process.go:54-58 | Messages that are unknown or could not be read change nothing |
| Session.ServeIsRun | cmd/rdpgw/protocol/process.go:45-58 | How messages are spread over reads makes no difference to a session |
| Processor.Processor.Process | cmd/rdpgw/protocol/process.go:45-189 | The object's state, log, transport, backend and target follow the session function on every run that ends; the remote desktop was given exactly what the DATA packets taken unwrap to, and the target recorded is the host that was dialled |
| Processor.Processor.HandleMessages | cmd/rdpgw/protocol/process.go:54-187 | The messages of one read, until one ends the session |
| Processor.Processor.HandleHandshake | cmd/rdpgw/protocol/process.go:60-78 | Handshake: wrong state, capability mismatch, or success |
| Processor.Processor.HandleTunnelCreate | cmd/rdpgw/protocol/process.go:79-99 | Tunnel create: wrong state, cookie refused, or success |
| Processor.Processor.HandleTunnelAuth | cmd/rdpgw/protocol/process.go:100-120 | Tunnel auth: wrong state, client name refused, or success; a negative idle timeout is reset |
| Processor.Processor.HandleChannelCreate | cmd/rdpgw/protocol/process.go:121-157 | Channel create: wrong state, host refused, dial failed, or target recorded, response sent and forwarder started |
| Processor.Processor.HandleData | cmd/rdpgw/protocol/process.go:158-164 | Data: an error before the channel is open, else the unwrapped bytes go to the backend |
| Processor.Processor.HandleClose | cmd/rdpgw/protocol/process.go:174-183 | Close: an error unless data has flowed, else the response and the end |
| Processor.Processor.MatchAuthCaps | cmd/rdpgw/protocol/process.go:215-231 | The bit arithmetic computes the capability match |
| Processor.DecodeTunnelRequest | cmd/rdpgw/protocol/process.go:233-250 | Sequential reads, short ones included, give the fields at their offsets |
| Processor.DecodeChannelRequest | cmd/rdpgw/protocol/process.go:298-318 | Sequential reads, short ones included, give the fields at their offsets |
| Processor.EncodeTunnelAuthResponse | cmd/rdpgw/protocol/process.go:280-296 | Resets a negative idle timeout without changing what the gateway answers, and writes the response |
| Client.ClientConfig.ConnectAndForward | cmd/rdpgw/protocol/client.go:29-87 | The client loop sends and writes exactly what its message-by-message answers amount to, after its handshake request |
| Client.ClientConfig.HandleMessage | cmd/rdpgw/protocol/client.go:40-84 | One message: the next request, a refusal, bytes for the local connection, or nothing |
| Client.OfferedMeaning | cmd/rdpgw/protocol/client.go:89-113 | A client offers exactly the mechanisms it is set up for |
| Client.CodeDecides | cmd/rdpgw/protocol/client.go:44-79 | Each 32-bit code in a response: zero brings the next request, any other fails the client, except that the handshake's must be positive as a signed number |
| Client.OthersAreNothing | cmd/rdpgw/protocol/client.go:39-84 | Messages with an error or of another type are passed over |
| Client.FailureEnds | cmd/rdpgw/protocol/client.go:44-79 | After a refused response nothing is sent or written any more, whatever else has arrived |
| Client.ClientWrites | cmd/rdpgw/protocol/client.go:80-81 | What goes to the local connection is what the DATA packets unwrap to |
| Client.DriveIsOnMessages | cmd/rdpgw/protocol/client.go:32-86 | How messages are spread over reads makes no difference; the run ends in an error at the first refusal, or as the transport ends |
| Client.DecodeHandshakeResponse | cmd/rdpgw/protocol/client.go:115-133 | Sequential reads give the fields at their offsets, the code taken as signed |
| Client.DecodeTunnelResponse | cmd/rdpgw/protocol/client.go:161-183 | Optional fields are read by the bits that announce them |
| Composition.ConversationSucceeds | cmd/rdpgw/protocol/client.go:29-87 | In every run of compatible parties over re-framing channels nobody gives up, each response is taken once and in order, after seven actions the client's target and nothing else has been dialled, and the local connection holds a prefix of the forwarded stream |
| Composition.StepKeepsPhase | cmd/rdpgw/protocol/process.go:45-189 | Every action keeps one control packet at most under way and the stream intact; before the channel is open it always moves the conversation on |
| Composition.NeverStuck | cmd/rdpgw/protocol/common.go:63-80 | Until the last response is taken, however the packet under way is cut, its receiver can read it |
| Composition.EveryRunCanFinish | cmd/rdpgw/protocol/client.go:29-87 | From any point of any run of compatible parties at most nine reads, with nothing further forwarded, give the client all four responses and the local connection the whole stream forwarded so far |
| Composition.RequestsFit | cmd/rdpgw/protocol/client.go:135-232 | The requests a server can read are exactly those whose encoded names leave room for the header and the fixed fields under the fragment limit |
| Composition.SomeAreCompatible | cmd/rdpgw/protocol/process.go:45-189 | There are compatible parties, with every check set |
| Composition.TargetIsTheClients | cmd/rdpgw/protocol/client.go:219-232 | The host dialled is the client's server and port if and only if the name survives its field and the port has 16 bits |
| Composition.ServerTakes | cmd/rdpgw/protocol/process.go:59-157 | The server answers each request of a compatible client with the next response |
| Composition.ClientTakes | cmd/rdpgw/protocol/client.go:44-79 | The client answers each successful response with the next request |
| Interleaving.OutputOrder | cmd/rdpgw/protocol/process.go:59-183 | In every interleaving with the forwarder the control packets are the session's responses in order, only the last may carry an error, and DATA packets are the forwarded chunks in order, none before the successful channel response |
| Interleaving.AlwaysOrderly | cmd/rdpgw/protocol/process.go:151-157 | The invariant of the two writers over all interleavings |
| CredentialCache.RunsAreFresh | cmd/auth/database/config.go:37-78 | In every interleaving of readers and writer the recorded time never goes back, the users are never older than it, and a reader whose stat and load succeeded answers from a version no older than its own stat saw |
| CredentialCache.ContentMayStepBack | cmd/auth/database/config.go:65-77 | A run in which one user is answered the third version's password and after that the second version's |
| CredentialCache.StepsBackIffOvertaken | cmd/auth/database/config.go:65-77 | In every run, content steps back at exactly those installs whose stat is newer than the cache's time and whose content is older than its users |
| CredentialCache.NoTornLoadsNoStepBack | cmd/auth/database/config.go:80-93 | Where no version is published between a load's stat and its read, users and time come from one version and the content never steps back |
| CredentialCache.UserMapIsLastEntry | cmd/auth/database/config.go:95-101 | The table holds exactly the listed names, each with its last entry |
| CredentialCache.UsersToMap | cmd/auth/database/config.go:95-101 | The loop builds that table |
| CredentialCache.Config.ReloadIfChanged | cmd/auth/database/config.go:45-78 | Reloads only when the file is newer than recorded, and installs only what is newer still |
| CredentialCache.Config.GetPassword | cmd/auth/database/config.go:37-43 | If both looks at the file show a time after the cache's and loading works, the answer is the last password of the name in what was loaded and the time is the load's; otherwise table and time are unchanged |
| CredentialCache.ReaderTurnIsReload | cmd/auth/database/config.go:45-78 | A reader no other disturbs, with versions published between its looks at the file, does to the shared cache what the object does to its own |
| CredentialCache.LastPasswordIsServed | cmd/auth/database/config.go:95-101 | A name is answered with the password of its last entry, or none |
| LoginState.ConsumedAtMostOnce | cmd/rdpgw/web/oidc.go:78-97 | With each callback an atomic step, no login state is accepted twice in any run, even if the cookie is replayed |
| LoginState.DelayBoundIsExact | cmd/rdpgw/web/oidc.go:200-243 | With the expiry check and the marking apart, a replay is refused in every run if and only if its delay does not exceed the transaction's age at first consumption |
| LoginState.SecondAcceptanceNeedsDelay | cmd/rdpgw/web/oidc.go:78-97 | A second acceptance takes a longer wait between check and lock than the transaction was old when first consumed |
| LoginState.ConsumedStateCache.MarkConsumed | cmd/rdpgw/web/oidc.go:78-97 | Purges what has expired, refuses empty and known states, records new ones |
| LoginState.MarkedMeaning | cmd/rdpgw/web/oidc.go:78-97 | A state is accepted if and only if it is not empty and not recorded beyond now; then it is recorded for a lifetime, and of the others exactly those that have not run out stay |
| LoginState.AcceptedIffFirst | cmd/rdpgw/web/oidc.go:200-243 | With atomic callbacks a live, non-empty state is accepted if and only if it was not accepted before |
| RdpText.NormalForm | cmd/rdpgw/rdp/koanf/parsers/rdp/rdp.go:18-85 | Whatever a text is read as is read again from its own print, if and only if every printed line fits the scanner |
| RdpText.LongestLineIsLost | cmd/rdpgw/rdp/koanf/parsers/rdp/rdp.go:18-85 | A text of one line that just fits without a carriage return is read, and its print is read as nothing |
| RdpText.MarshalRoundTrip | cmd/rdpgw/rdp/koanf/parsers/rdp/rdp.go:57-85 | Plain settings survive printing and reading, booleans as 0 and 1, if and only if every printed line fits the scanner |
| RdpText.ParsePrinted | cmd/rdpgw/rdp/koanf/parsers/rdp/rdp.go:28-80 | A printed line is read as the entry it was printed from |
| RdpText.AtoiUndoesItoa | cmd/rdpgw/rdp/koanf/parsers/rdp/rdp.go:41-45 | Decimal printing and parsing are inverse on 64-bit integers |
| RdpText.EnumerationIsUnique | cmd/rdpgw/rdp/koanf/parsers/rdp/rdp.go:60-66 | The key order is unique, so the output does not depend on map iteration |
| RdpText.Unmarshal | cmd/rdpgw/rdp/koanf/parsers/rdp/rdp.go:18-55 | The scan loop collects entries, later ones replacing earlier, and refuses malformed lines |
| RdpText.UnmarshalMeaning | cmd/rdpgw/rdp/koanf/parsers/rdp/rdp.go:18-60 | A text is read if and only if no line is malformed, and then holds for each key the value of its last entry |
| RdpText.ParseFields | cmd/rdpgw/rdp/koanf/parsers/rdp/rdp.go:31-57 | Three fields are a number or text by their type; other types and malformed numbers are refused |
| RdpText.OtherLines | cmd/rdpgw/rdp/koanf/parsers/rdp/rdp.go:27-35 | Blank lines and comments are passed over, and lines with fewer than two colons refused |
| RdpText.LinesMeaning | cmd/rdpgw/rdp/koanf/parsers/rdp/rdp.go:19-26 | Lines end at newlines with or without carriage return, and reading at one that does not fit the buffer |
| RdpText.Marshal | cmd/rdpgw/rdp/koanf/parsers/rdp/rdp.go:57-85 | Prints the keys in order, or refuses values of another type |
| RdpSettings.SettingsRoundTrip | cmd/rdpgw/rdp/rdp.go:100-252 | Loading the builder's text gives back the settings if and only if every field that differs from its default comes before the first printed line that does not fit the scanner, and what is read of a field is its value |
| RdpSettings.LongSettingIsLost | cmd/rdpgw/rdp/rdp.go:111-172 | A text value whose line does not fit is loaded as empty, and the field after it as zero |
| RdpSettings.ForcingChangesNothing | cmd/rdpgw/rdp/rdp.go:209-216 | Forcing more fields whose lines fit changes no settings that load back |
| RdpSettings.ForcedIsPrinted | cmd/rdpgw/rdp/rdp.go:145-172 | A forced field has its line in the text, default or not |
| RdpSettings.BuilderString | cmd/rdpgw/rdp/rdp.go:137-172 | Writes the lines of the fields that differ from their default or are forced |
| RdpSettings.IsZero | cmd/rdpgw/rdp/rdp.go:174-207 | A field counts as zero exactly when it holds its default |
| RdpSettings.DefaultsMeaning | cmd/rdpgw/rdp/rdp.go:218-252 | Default texts stand for numbers, switches and texts, and a read number sets a switch unless it is zero |
| KdcProxy.ForwardIsSound | cmd/rdpgw/kdcproxy/proxy.go:139-195 | In every order of sends each started goroutine sends once and never blocks, and the caller returns the first usable reply with the bytes a started KDC yields, or fails only if all replies were unusable |
| KdcProxy.PrefixIsLength | cmd/rdpgw/kdcproxy/proxy.go:221-261 | From UDP or TCP, a reply's big-endian prefix is its length minus four |
| KdcProxy.StreamReply | cmd/rdpgw/kdcproxy/proxy.go:240-260 | Over TCP a reply is the start of the stream that its own prefix measures, within the limit, and there is none if and only if the stream has no such start |
| KdcProxy.DatagramReply | cmd/rdpgw/kdcproxy/proxy.go:222-238 | Over UDP a reply is the datagram up to the limit behind its length, and there is none if and only if the read fails |
| KdcProxy.StartedPayloads | cmd/rdpgw/kdcproxy/proxy.go:142-178 | Exactly the KDCs that can be dialled and written to get the request, over UDP without its prefix |
| KdcProxy.BigEndian | cmd/rdpgw/kdcproxy/proxy.go:231-248 | The prefix has its most significant byte first |
| KdcProxy.AwaitReply | cmd/rdpgw/kdcproxy/proxy.go:221-261 | Reads a datagram and adds the prefix, or reads the prefix and as many bytes as it says, within the limit |
| KdcProxy.StartAll | cmd/rdpgw/kdcproxy/proxy.go:142-178 | Starts the KDCs that can be dialled and written to, without the prefix over UDP, and closes every dialled connection exactly once |
| Entries.Serve | cmd/rdpgw/web/admin_handlers.go:95-348 | After any requests, each with a crash or error at any step, every template has its file and the directory is within its limits if it was before; without failures the result is that of the requests one by one |
| Entries.ServedIsTidy | cmd/rdpgw/web/admin_handlers.go:95-348 | Without failures the directory holds exactly the templates' files, after any requests |
| Entries.RequestMeaning | cmd/rdpgw/web/admin_handlers.go:95-348 | What a request without failures does entry by entry: the new entry at the end, the changed one under its old kind and path, the deleted one gone, all others as they were |
| Entries.ServedIsCatalogued | cmd/rdpgw/web/admin_handlers.go:95-348 | After any requests the list is what a table of the same requests from ids to entries says |
| Entries.ServeConfigured | cmd/rdpgw/main.go:75-78 | From the empty store and under the limits of settings that pass validation, any requests with any failures leave every template its file and the uploads within the configured number and megabytes |
| Entries.KeepConfiguredQuota | cmd/rdpgw/main.go:75-78 | The same limits hold for any calls of the store in any order |
| Entries.KeepQuota | cmd/rdpgw/dashboard/store.go:86-215 | Any calls of the store, whoever makes them and whatever they meet, keep the directory within its limits |
| Entries.PutLosesUploadIff | cmd/rdpgw/dashboard/store.go:86-143 | Put loses an upload if and only if it replaces an entry's path by another string and the file is another template's too, or is still the new entry's |
| Entries.PutTakesSharedUpload | cmd/rdpgw/dashboard/store.go:117-140 | Two entries of one upload: replacing the first one's template takes the second one's file |
| Entries.PutTakesItsOwnUpload | cmd/rdpgw/dashboard/store.go:117-140 | One upload under two paths: replacing one path by the other takes the file just referred to |
| Entries.DeleteLosesUploadIff | cmd/rdpgw/dashboard/store.go:145-177 | Delete loses an upload if and only if another template shares it |
| Entries.DeleteTakesSharedUpload | cmd/rdpgw/dashboard/store.go:145-177 | Two entries of one upload: deleting the first takes the second one's file |
| Entries.Validate | cmd/rdpgw/dashboard/entry.go:38-81 | The checks on an entry: id, name, a group, address literal, and host:port or .rdp path |
| Entries.EachDefectIsRefused | cmd/rdpgw/dashboard/entry.go:38-81 | A valid entry with any one thing wrong is refused |
| Entries.PutInStore | cmd/rdpgw/dashboard/store.go:86-143 | Validation and the upload's presence first, then metadata, then the stale file, at every crash or error point |
| Entries.DeleteFromStore | cmd/rdpgw/dashboard/store.go:145-177 | Metadata first, file after it, at every crash or error point |
| Entries.SaveUpload | cmd/rdpgw/dashboard/store.go:179-215 | A new file if the quota lets it in, a refusal exactly if it does not, or what a failure leaves behind, always within the limits |
| Entries.CreateTemplateEntry | cmd/rdpgw/web/admin_handlers.go:146-241 | All or nothing in the metadata at every crash or error point, every template keeping its file |
| Entries.CreateHostEntry | cmd/rdpgw/web/admin_handlers.go:95-144 | A host is added, or nothing changes |
| Entries.UpdateEntry | cmd/rdpgw/web/admin_handlers.go:243-315 | Changing an entry keeps its kind, its path and all files |
| Entries.DeleteEntry | cmd/rdpgw/web/admin_handlers.go:317-348 | With a crash or error at any step, every remaining template still has its file |
| Icons.Serve | cmd/rdpgw/dashboard/icon_store.go:90-208 | After any requests, each with a crash or error at any step, icons keep their files, exactly one is active if there are any, and the directory is within its limits if it was before |
| Icons.ServedIsTidy | cmd/rdpgw/dashboard/icon_store.go:90-208 | Without failures the directory holds exactly the icons' files, after any requests |
| Icons.ServedIsShelved | cmd/rdpgw/dashboard/icon_store.go:90-208 | After any requests the flagged list is what a shelf of the same requests says that keeps the icons in order and the id of the active one |
| Icons.SavedFileIsWhole | cmd/rdpgw/dashboard/icon_store.go:119-123 | The file of a saved icon is the whole upload |
| Icons.ServeConfigured | cmd/rdpgw/main.go:83-86 | From the empty store and under the limits of settings that pass validation, any requests with any failures leave icons their files, one of them active, and the uploads within the configured number and megabytes |
| Icons.SaveIcon | cmd/rdpgw/dashboard/icon_store.go:90-140 | The upload becomes the last icon, active if the first, if name, content and quota allow it; otherwise, and at every failure, the metadata stay as they were |
| Icons.SetActiveIcon | cmd/rdpgw/dashboard/icon_store.go:142-171 | Exactly the named icon becomes active, or nothing changes |
| Icons.DeleteIcon | cmd/rdpgw/dashboard/icon_store.go:173-208 | The icon goes before its file, and the first of the others takes over if it was active |
| Icons.ReadIcons | cmd/rdpgw/dashboard/icon_store.go:230-260 | What is read of the metadata are the icons with a safe name and type |
| Icons.FilterKeepsSafe | cmd/rdpgw/dashboard/icon_store.go:252-260 | Filtering stored metadata changes nothing |
| Icons.StoredNameIsSafe | cmd/rdpgw/dashboard/icon_store.go:262-271 | The name an icon is stored under passes the test it is read with |
| Icons.IconNamesMeaning | cmd/rdpgw/dashboard/icon_store.go:306-318 | Five extensions make an icon, each with its type |
| Icons.NamedByExtension | cmd/rdpgw/dashboard/icon_store.go:306-318 | A name that ends in one of them has its type |
| Icons.UploadsAreWhatTheySay | cmd/rdpgw/dashboard/icon_store.go:320-342 | What is let in as an image or icon file is one by its content |
| Icons.FilterMeaning | cmd/rdpgw/dashboard/icon_store.go:252-271 | What is read are exactly the stored items with an icon's extension and its type |
| Icons.ValidateIconContent | cmd/rdpgw/dashboard/icon_store.go:320-342 | The content must be of the type, for icon files by their header |
| Quota.EnforceFileQuota | cmd/rdpgw/dashboard/store.go:228-242 | Accepts a file if and only if usage can be told and the directory stays within its limits with it |
| Quota.AcceptsMeaning | cmd/rdpgw/dashboard/store.go:228-242 | In numbers: fewer files than the limit, and bytes left for the new one, where limits are set |
| Quota.RegularFileUsage | cmd/rdpgw/dashboard/store.go:244-267 | The 64-bit sum is exact, and reported as overflow exactly when it would not be |
| Quota.UsageIgnoresOrder | cmd/rdpgw/dashboard/store.go:244-267 | Usage does not depend on the order in which a directory is listed |
| Quota.AcceptedStaysWithin | cmd/rdpgw/dashboard/store.go:179-213 | An accepted file keeps the directory within its limits even if only part of it gets written |
| Quota.RemovalStaysWithin | cmd/rdpgw/dashboard/store.go:221-226 | Removing a file never exceeds a limit |
| Quota.ValidateDashboard | cmd/rdpgw/config/configuration.go:406-429 | Settings pass if and only if none is negative and no number of megabytes overflows 64 bits as bytes |
| Quota.MegabytesToBytes | cmd/rdpgw/main.go:118-120 | No step of the conversion overflows, and a limit in bytes is set exactly if one in megabytes is |
| AuthUsers.Serve | cmd/rdpgw/dashboard/auth_users.go:80-174 | After any Put and Delete, each write failing or not, the helper configured from the list answers each name with the password last stored if the account is enabled, and else with none |
| AuthUsers.HelperServesEnabledUsers | cmd/rdpgw/dashboard/auth_users.go:151-174 | The helper's table made of the store holds exactly the enabled users with their passwords |
| AuthUsers.UserStore.Put | cmd/rdpgw/dashboard/auth_users.go:80-114 | Replaces in place or appends if the write takes place, and nothing otherwise, keeping user names unique |
| AuthUsers.UserStore.Delete | cmd/rdpgw/dashboard/auth_users.go:116-138 | Removes the user and no other if the write takes place, and nothing otherwise |

## Left out

- Processor.Processor.Process: `requires` that the reads do not hang, which is the condition of `Framing.SmallFramesTerminate` or of packets within the fragment limit; a run that hangs has no end state to state.
- CredentialCache.RunsAreFresh: the promise about answers is for readers whose stat and load succeed; a reader that met an error answers from the cache as it is. Files are replaced atomically, never missing.
- Icons.SaveIcon: what the image decoders make of the data is an input; the generated id is taken to be new.
- Entries.Serve: requests come one at a time, and generated ids and upload names are new; which texts are addresses and host:port pairs is an input. Entry icons, descriptions, flags and times are not modelled: an icon's name is normalised to a valid one before it is checked.
- AuthUsers.UserStore.Put: a store or helper file that cannot be read is not modelled; one input says what becomes of the write.
- RdpSettings.SettingsRoundTrip: strings are trimmed and free of newlines, integers are 64-bit; conversions of entries whose type does not match their field, and keys with dots, which koanf splits, are not modelled.
- Failing writes: a transport or connection that is written to accepts everything.
- The race between the two writers on the counter of bytes sent, and its 64-bit width.
- Aliasing of returned payloads with the transport's frames: a frame's bytes are a value here.
- 32-bit platforms, on which a declared size can become negative.
- `LastSeen`, logging, metrics and the processor's control channel.
- JSON and YAML encoding, temporary file names, file modes and directories: metadata is replaced as a whole or not at all.
- `List` and `Get` of the stores, and the checks of the handlers before they call them.
- The choice of KDCs from the Kerberos configuration, deadlines, and the ASN.1 envelope.
- HTTP handlers, websocket and legacy transports, sessions and cookies beyond the transaction they carry, tokens, NTLM, and OIDC verification.
