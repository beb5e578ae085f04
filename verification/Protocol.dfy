/** The HydraVPN packet format and the two handshake messages (pkg/protocol/protocol.go). */
module Protocol {
  import opened Bytes

  const MAGIC_BYTE_1: byte := 0x48
  const MAGIC_BYTE_2: byte := 0x56
  const PROTOCOL_VERSION: byte := 1
  const HANDSHAKE_INIT: byte := 0x01
  const HANDSHAKE_RESPONSE: byte := 0x02
  const DATA: byte := 0x03
  const KEEP_ALIVE: byte := 0x04
  const DISCONNECT: byte := 0x05
  const HEADER_SIZE: nat := 14

  datatype Header = Header(magic1: byte, magic2: byte, version: byte, kind: byte, sessionID: u64, length: u16)

  datatype Packet = Packet(header: Header, payload: seq<byte>)

  datatype HandshakeInit = HandshakeInit(clientPublicKey: Bytes32, timestamp: i64, padding: Bytes32)

  datatype HandshakeResponse = HandshakeResponse(
    serverPublicKey: Bytes32, sessionID: u64, assignedIP: Bytes4, serverIP: Bytes4, subnet: byte, padding: Bytes32)

  datatype Error = TooShort | BadMagic | BadVersion | LengthMismatch

  // ---------- Packets ----------

  function NewPacket(kind: byte, sessionID: u64, payload: seq<byte>): Packet {
    Packet(Header(MAGIC_BYTE_1, MAGIC_BYTE_2, PROTOCOL_VERSION, kind, sessionID, ToU16(|payload|)), payload)
  }

  /** The layout of a packet on the wire. */
  function Encode(p: Packet): seq<byte> {
    var h := p.header;
    [h.magic1, h.magic2, h.version, h.kind] + BigEndian(h.sessionID, 8) + BigEndian(h.length, 2) + p.payload
  }

  /** What a receiver may rely on after parsing. */
  predicate Genuine(p: Packet) {
    && p.header.magic1 == MAGIC_BYTE_1
    && p.header.magic2 == MAGIC_BYTE_2
    && p.header.version == PROTOCOL_VERSION
    && p.header.length == |p.payload|
  }

  function UnmarshalPacket(data: seq<byte>): Result<Packet, Error> {
    if |data| < HEADER_SIZE then Err(TooShort)
    else if data[0] != MAGIC_BYTE_1 || data[1] != MAGIC_BYTE_2 then Err(BadMagic)
    else if data[2] != PROTOCOL_VERSION then Err(BadVersion)
    else
      var sessionID := Uint64(data[4..12]);
      var length := Uint16(data[12..14]);
      if length != |data| - HEADER_SIZE then Err(LengthMismatch)
      else Ok(Packet(Header(data[0], data[1], data[2], data[3], sessionID, length), data[HEADER_SIZE..]))
  }

  function Uint16(s: seq<byte>): u16
    requires |s| == 2
  {
    FromBigEndianRoundTrip(s);
    Pow256Values();
    FromBigEndian(s)
  }

  function Uint64(s: seq<byte>): u64
    requires |s| == 8
  {
    FromBigEndianRoundTrip(s);
    Pow256Values();
    FromBigEndian(s)
  }

  method Marshal(p: Packet) returns (buf: array<byte>)
    ensures fresh(buf) && buf[..] == Encode(p)
  {
    buf := new byte[HEADER_SIZE + |p.payload|](_ => 0);
    buf[0] := p.header.magic1;
    buf[1] := p.header.magic2;
    buf[2] := p.header.version;
    buf[3] := p.header.kind;
    assert buf[..4] == [p.header.magic1, p.header.magic2, p.header.version, p.header.kind];
    Put(buf, 4, BigEndian(p.header.sessionID, 8));
    Put(buf, 12, BigEndian(p.header.length, 2));
    Put(buf, HEADER_SIZE, p.payload);
    assert buf[..] == buf[..HEADER_SIZE + |p.payload|];
  }

  lemma EncodeFields(p: Packet)
    ensures var d := Encode(p);
            && |d| == HEADER_SIZE + |p.payload|
            && d[..4] == [p.header.magic1, p.header.magic2, p.header.version, p.header.kind]
            && d[4..12] == BigEndian(p.header.sessionID, 8)
            && d[12..14] == BigEndian(p.header.length, 2)
            && d[HEADER_SIZE..] == p.payload
  {
  }

  /** Parsing accepts exactly the encodings of genuine packets, and inverts Encode on them. */
  lemma UnmarshalIffEncoded(data: seq<byte>, p: Packet)
    ensures UnmarshalPacket(data) == Ok(p) <==> Encode(p) == data && Genuine(p)
  {
    if Encode(p) == data && Genuine(p) {
      EncodeFields(p);
      Pow256Values();
      assert data[0] == data[..4][0] && data[1] == data[..4][1] && data[2] == data[..4][2] && data[3] == data[..4][3];
      BigEndianRoundTrip(p.header.sessionID, 8);
      BigEndianRoundTrip(p.header.length, 2);
    }
    if UnmarshalPacket(data) == Ok(p) {
      FromBigEndianRoundTrip(data[4..12]);
      FromBigEndianRoundTrip(data[12..14]);
      assert data[..4] == [data[0], data[1], data[2], data[3]];
      assert data == data[..4] + data[4..12] + data[12..14] + data[14..];
    }
  }

  /** Type, session identifier and a payload that fits the 16-bit length survive the trip; a longer payload
      is refused, never truncated. */
  lemma PacketRoundTrip(kind: byte, sessionID: u64, payload: seq<byte>)
    ensures match UnmarshalPacket(Encode(NewPacket(kind, sessionID, payload)))
            case Ok(p) =>
              && |payload| <= 65535
              && p.header.kind == kind && p.header.sessionID == sessionID && p.payload == payload
            case Err(e) => |payload| > 65535 && e == LengthMismatch
    ensures |payload| <= 65535 ==>
              UnmarshalPacket(Encode(NewPacket(kind, sessionID, payload))) == Ok(NewPacket(kind, sessionID, payload))
  {
    var p := NewPacket(kind, sessionID, payload);
    if |payload| <= 65535 {
      UnmarshalIffEncoded(Encode(p), p);
    } else {
      var d := Encode(p);
      EncodeFields(p);
      assert d[0] == d[..4][0] && d[1] == d[..4][1] && d[2] == d[..4][2];
      Pow256Values();
      BigEndianRoundTrip(p.header.length, 2);
    }
  }

  /** The packet on the wire, byte by byte: "HV", version 1, type, identifier, length, payload. */
  lemma PacketLayout(kind: byte, sessionID: u64, payload: seq<byte>)
    requires |payload| <= 65535
    ensures var d := Encode(NewPacket(kind, sessionID, payload));
            && |d| == 14 + |payload|
            && d[0] == 0x48 && d[1] == 0x56 && d[2] == 1 && d[3] == kind
            && FromBigEndian(d[4..12]) == sessionID
            && 0x100 * d[12] as nat + d[13] as nat == |payload|
            && d[14..] == payload
  {
    var p := NewPacket(kind, sessionID, payload);
    var d := Encode(p);
    EncodeFields(p);
    assert d[0] == d[..4][0] && d[1] == d[..4][1] && d[2] == d[..4][2] && d[3] == d[..4][3];
    Pow256Values();
    BigEndianRoundTrip(sessionID, 8);
    BigEndianRoundTrip(|payload|, 2);
    FromBigEndianDigits(d[12..14]);
  }

  /** What a receiver accepts: at least the header, the magic bytes, version 1, and a length that is right. */
  lemma AcceptedIff(data: seq<byte>)
    ensures UnmarshalPacket(data).Ok? <==>
            && |data| >= 14 && data[0] == 0x48 && data[1] == 0x56 && data[2] == 1
            && 0x100 * data[12] as nat + data[13] as nat == |data| - 14
  {
    if |data| >= 14 {
      FromBigEndianDigits(data[12..14]);
    }
  }

  // ---------- Handshake messages ----------

  function EncodeInit(h: HandshakeInit): seq<byte> {
    h.clientPublicKey + BigEndian(ToU64(h.timestamp), 8) + h.padding
  }

  function UnmarshalHandshakeInit(data: seq<byte>): Result<HandshakeInit, Error> {
    if |data| < 72 then Err(TooShort)
    else Ok(HandshakeInit(data[0..32], ToI64(Uint64(data[32..40])), data[40..72]))
  }

  method MarshalHandshakeInit(h: HandshakeInit) returns (buf: array<byte>)
    ensures fresh(buf) && buf[..] == EncodeInit(h)
  {
    buf := new byte[72](_ => 0);
    Put(buf, 0, h.clientPublicKey);
    Put(buf, 32, BigEndian(ToU64(h.timestamp), 8));
    Put(buf, 40, h.padding);
    assert buf[..] == buf[..72];
  }

  function EncodeResponse(h: HandshakeResponse): seq<byte> {
    h.serverPublicKey + BigEndian(h.sessionID, 8) + h.assignedIP + h.serverIP + [h.subnet] + h.padding
  }

  function UnmarshalHandshakeResponse(data: seq<byte>): Result<HandshakeResponse, Error> {
    if |data| < 81 then Err(TooShort)
    else Ok(HandshakeResponse(data[0..32], Uint64(data[32..40]), data[40..44], data[44..48], data[48], data[49..81]))
  }

  method MarshalHandshakeResponse(h: HandshakeResponse) returns (buf: array<byte>)
    ensures fresh(buf) && buf[..] == EncodeResponse(h)
  {
    buf := new byte[81](_ => 0);
    Put(buf, 0, h.serverPublicKey);
    assert buf[..32] == h.serverPublicKey;
    Put(buf, 32, BigEndian(h.sessionID, 8));
    ghost var start := h.serverPublicKey + BigEndian(h.sessionID, 8);
    assert buf[..40] == start;
    Put(buf, 40, h.assignedIP);
    Put(buf, 44, h.serverIP);
    assert buf[..48] == start + h.assignedIP + h.serverIP;
    buf[48] := h.subnet;
    assert buf[..49] == start + h.assignedIP + h.serverIP + [h.subnet];
    Put(buf, 49, h.padding);
    assert buf[..] == buf[..81];
  }

  /** Where the fields of the handshake messages stand. */
  lemma InitLayout(h: HandshakeInit)
    ensures var d := EncodeInit(h);
            && |d| == 72 && d[..32] == h.clientPublicKey && d[40..] == h.padding
            && FromBigEndian(d[32..40])
               == if h.timestamp >= 0 then h.timestamp else 0x1_0000_0000_0000_0000 + h.timestamp
  {
    Pow256Values();
    assert EncodeInit(h)[32..40] == BigEndian(ToU64(h.timestamp), 8);
    BigEndianRoundTrip(ToU64(h.timestamp), 8);
  }

  lemma ResponseLayout(h: HandshakeResponse)
    ensures var d := EncodeResponse(h);
            && |d| == 81 && d[..32] == h.serverPublicKey && FromBigEndian(d[32..40]) == h.sessionID
            && d[40..44] == h.assignedIP && d[44..48] == h.serverIP && d[48] == h.subnet && d[49..] == h.padding
  {
    Pow256Values();
    assert EncodeResponse(h)[32..40] == BigEndian(h.sessionID, 8);
    BigEndianRoundTrip(h.sessionID, 8);
  }

  /** Any byte string that starts with the encoding decodes to the message: later bytes are ignored. */
  lemma InitRoundTrip(h: HandshakeInit, suffix: seq<byte>)
    ensures UnmarshalHandshakeInit(EncodeInit(h) + suffix) == Ok(h)
  {
    var data := EncodeInit(h) + suffix;
    Pow256Values();
    assert data[0..32] == h.clientPublicKey;
    assert data[32..40] == BigEndian(ToU64(h.timestamp), 8);
    assert data[40..72] == h.padding;
    BigEndianRoundTrip(ToU64(h.timestamp), 8);
    SignedRoundTrip(h.timestamp);
  }

  lemma ResponseRoundTrip(h: HandshakeResponse, suffix: seq<byte>)
    ensures UnmarshalHandshakeResponse(EncodeResponse(h) + suffix) == Ok(h)
  {
    var data := EncodeResponse(h) + suffix;
    Pow256Values();
    assert data[0..32] == h.serverPublicKey;
    assert data[32..40] == BigEndian(h.sessionID, 8);
    assert data[40..44] == h.assignedIP;
    assert data[44..48] == h.serverIP;
    assert data[49..81] == h.padding;
    BigEndianRoundTrip(h.sessionID, 8);
  }

  /** The decoders read the first 72 and 81 bytes, lose none of them, and fail only on shorter input. */
  lemma InitDecoderIsFaithful(data: seq<byte>)
    ensures match UnmarshalHandshakeInit(data)
            case Ok(h) => |data| >= 72 && EncodeInit(h) == data[..72]
            case Err(_) => |data| < 72
  {
    if |data| >= 72 {
      var stamp := data[32..40];
      assert BigEndian(ToU64(ToI64(Uint64(stamp))), 8) == stamp by {
        UnsignedRoundTrip(Uint64(stamp));
        FromBigEndianRoundTrip(stamp);
      }
      assert data[..72] == data[0..32] + stamp + data[40..72];
    }
  }

  lemma ResponseDecoderIsFaithful(data: seq<byte>)
    ensures match UnmarshalHandshakeResponse(data)
            case Ok(h) => |data| >= 81 && EncodeResponse(h) == data[..81]
            case Err(_) => |data| < 81
  {
    if |data| >= 81 {
      FromBigEndianRoundTrip(data[32..40]);
      assert data[..81] == data[0..32] + data[32..40] + data[40..44] + data[44..48] + [data[48]] + data[49..81];
    }
  }
}
