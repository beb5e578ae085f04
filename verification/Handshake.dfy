/** The handshake of both ends (performHandshake in pkg/client/client.go, the first half of
    handleConnection in pkg/server/server.go). */
module Handshake {
  import opened Bytes
  import opened Protocol
  import opened Crypto
  import opened WebSocket
  import opened Tunnel

  // 10.8.0.1
  const SERVER_IP: Bytes4 := [10, 8, 0, 1]
  const SUBNET_BITS: byte := 24

  datatype Established = Established(keys: Keys, sessionID: u64, assignedIP: Bytes4, serverIP: Bytes4)

  // ---------- The two messages ----------

  function Hello(publicKey: Bytes32, timestamp: i64, padding: Bytes32): seq<byte> {
    Encode(NewPacket(HANDSHAKE_INIT, 0, EncodeInit(HandshakeInit(publicKey, timestamp, padding))))
  }

  function Reply(publicKey: Bytes32, sessionID: u64, ip: u32, padding: Bytes32): seq<byte> {
    Encode(NewPacket(HANDSHAKE_RESPONSE, sessionID,
      EncodeResponse(HandshakeResponse(publicKey, sessionID, BigEndian(ip, 4), SERVER_IP, SUBNET_BITS, padding))))
  }

  /** What the server makes of the first bytes it reads: its session keys, or it hangs up. */
  function ServerAccept(suite: Suite, privateKey: Bytes32, chunk: seq<byte>): Option<Keys> {
    match UnmarshalPacket(chunk)
    case Err(_) => None
    case Ok(packet) =>
      if packet.header.kind != HANDSHAKE_INIT then None else
        match UnmarshalHandshakeInit(packet.payload)
        case Err(_) => None
        case Ok(init) =>
          match ComputeSharedSecret(suite, privateKey, init.clientPublicKey)
          case None => None
          case Some(secret) => Some(DeriveKeys(suite, secret, false, secret))
  }

  /** What the client makes of the answer. */
  function ClientComplete(suite: Suite, privateKey: Bytes32, chunk: seq<byte>): Option<Established> {
    match UnmarshalPacket(chunk)
    case Err(_) => None
    case Ok(packet) =>
      if packet.header.kind != HANDSHAKE_RESPONSE then None else
        match UnmarshalHandshakeResponse(packet.payload)
        case Err(_) => None
        case Ok(resp) =>
          match ComputeSharedSecret(suite, privateKey, resp.serverPublicKey)
          case None => None
          case Some(secret) =>
            Some(Established(DeriveKeys(suite, secret, true, secret), resp.sessionID, resp.assignedIP, resp.serverIP))
  }

  /** What the client makes of its first Read after the hello. */
  function AnswerTo(suite: Suite, privateKey: Bytes32, s: Inbound): Option<Established> {
    var chunk := Chunk(s, READ_BUFFER);
    if chunk.None? then None else ClientComplete(suite, privateKey, chunk.value)
  }

  class Client {
    const suite: Suite
    const keyPair: KeyPair
    var conn: WebSocketConnection
    var session: Session?
    var sessionID: u64
    var assignedIP: Bytes4
    var serverIP: Bytes4

    constructor (suite: Suite, keyPair: KeyPair, conn: WebSocketConnection)
      ensures this.suite == suite && this.keyPair == keyPair && this.conn == conn && session == null
    {
      this.suite, this.keyPair, this.conn := suite, keyPair, conn;
      session, sessionID := null, 0;
      assignedIP, serverIP := [0, 0, 0, 0], [0, 0, 0, 0];
    }

    /** accepted is the transport's answer to the first message. A failed handshake leaves the client's
        session as it was. */
    method PerformHandshake(timestamp: i64, padding: Bytes32, accepted: bool) returns (ok: bool)
      modifies this`session, this`sessionID, this`assignedIP, this`serverIP
      modifies conn`readBuf, conn`incoming, conn`outgoing
      ensures conn.outgoing
           == if accepted then old(conn.outgoing) + [Hello(keyPair.publicKey, timestamp, padding)]
              else old(conn.outgoing)
      ensures ok == (accepted && AnswerTo(suite, keyPair.privateKey, old(conn.State())).Some?)
      ensures ok ==>
                && session != null && fresh(session) && session.suite == suite
                && session.sendNonce == 0 && session.recvNonce == 0
                && AnswerTo(suite, keyPair.privateKey, old(conn.State()))
                   == Some(Established(Keys(session.sendKey, session.recvKey), sessionID, assignedIP, serverIP))
      ensures !ok ==> unchanged(this)
      ensures conn.State() == if accepted then AfterRead(old(conn.State()), READ_BUFFER) else old(conn.State())
    {
      var initPayload := MarshalHandshakeInit(HandshakeInit(keyPair.publicKey, timestamp, padding));
      var initPacket := Marshal(NewPacket(HANDSHAKE_INIT, 0, initPayload[..]));
      var _, sent := conn.Write(initPacket[..], accepted);
      if !sent {
        return false;
      }
      ok := ReadReply();
    }

    /** The second half of the handshake. */
    method ReadReply() returns (ok: bool)
      modifies this`session, this`sessionID, this`assignedIP, this`serverIP, conn`readBuf, conn`incoming
      ensures ok == AnswerTo(suite, keyPair.privateKey, old(conn.State())).Some?
      ensures ok ==>
                && session != null && fresh(session) && session.suite == suite
                && session.sendNonce == 0 && session.recvNonce == 0
                && AnswerTo(suite, keyPair.privateKey, old(conn.State()))
                   == Some(Established(Keys(session.sendKey, session.recvKey), sessionID, assignedIP, serverIP))
      ensures !ok ==> unchanged(this)
      ensures conn.State() == AfterRead(old(conn.State()), READ_BUFFER)
    {
      var buf := new byte[READ_BUFFER](_ => 0);
      var n, received := conn.Read(buf);
      if !received {
        return false;
      }
      var parsed := UnmarshalPacket(buf[..n]);
      if parsed.Err? || parsed.value.header.kind != HANDSHAKE_RESPONSE {
        return false;
      }
      var response := UnmarshalHandshakeResponse(parsed.value.payload);
      if response.Err? {
        return false;
      }
      var secret := ComputeSharedSecret(suite, keyPair.privateKey, response.value.serverPublicKey);
      if secret.None? {
        return false;
      }
      session := new Session.DeriveSessionKeys(suite, secret.value, true, secret.value);
      sessionID := response.value.sessionID;
      assignedIP := response.value.assignedIP;
      serverIP := response.value.serverIP;
      return true;
    }
  }

  // ---------- Agreement ----------

  /** The hello is a packet of type 1 without a session, and its payload bears the fields given. */
  lemma HelloIsUnderstood(publicKey: Bytes32, timestamp: i64, padding: Bytes32)
    ensures var hello := Hello(publicKey, timestamp, padding);
            && |hello| == 86 && UnmarshalPacket(hello).Ok?
            && var p := UnmarshalPacket(hello).value;
               && p.header.kind == 1 && p.header.sessionID == 0
               && UnmarshalHandshakeInit(p.payload) == Ok(HandshakeInit(publicKey, timestamp, padding))
  {
    var h := HandshakeInit(publicKey, timestamp, padding);
    PacketRoundTrip(HANDSHAKE_INIT, 0, EncodeInit(h));
    InitRoundTrip(h, []);
    assert EncodeInit(h) + [] == EncodeInit(h);
  }

  /** The reply is a packet of type 2 of its session, and its payload bears the fields given, the server's
      address 10.8.0.1, and the prefix of 24 bits. */
  lemma ReplyIsUnderstood(publicKey: Bytes32, sessionID: u64, ip: u32, padding: Bytes32)
    ensures var reply := Reply(publicKey, sessionID, ip, padding);
            && |reply| == 95 && UnmarshalPacket(reply).Ok?
            && var p := UnmarshalPacket(reply).value;
               && p.header.kind == 2 && p.header.sessionID == sessionID
               && UnmarshalHandshakeResponse(p.payload)
                  == Ok(HandshakeResponse(publicKey, sessionID, BigEndian(ip, 4), [10, 8, 0, 1], 24, padding))
  {
    var h := HandshakeResponse(publicKey, sessionID, BigEndian(ip, 4), SERVER_IP, SUBNET_BITS, padding);
    PacketRoundTrip(HANDSHAKE_RESPONSE, sessionID, EncodeResponse(h));
    ResponseRoundTrip(h, []);
    assert EncodeResponse(h) + [] == EncodeResponse(h);
  }

  /** The server gets keys exactly from a whole packet of type 1 whose payload has at least 72 bytes and starts
      with a key that yields a usable secret; nothing else is accepted. */
  lemma ServerAcceptsIff(suite: Suite, privateKey: Bytes32, chunk: seq<byte>)
    ensures ServerAccept(suite, privateKey, chunk).Some? <==>
            exists payload :: IsPacket(chunk, 1, payload) && |payload| >= 72
                              && ComputeSharedSecret(suite, privateKey, payload[..32]).Some?
    ensures forall payload | IsPacket(chunk, 1, payload) && |payload| >= 72
                             && ComputeSharedSecret(suite, privateKey, payload[..32]).Some? ::
              var secret := ComputeSharedSecret(suite, privateKey, payload[..32]).value;
              ServerAccept(suite, privateKey, chunk) == Some(DeriveKeys(suite, secret, false, secret))
  {
    hide IsPacket;
    forall payload
      ensures IsPacket(chunk, 1, payload) <==>
                UnmarshalPacket(chunk).Ok? && UnmarshalPacket(chunk).value.header.kind == 1
                && UnmarshalPacket(chunk).value.payload == payload
    {
      IsPacketIff(chunk, 1, payload);
    }
    if UnmarshalPacket(chunk).Ok? && UnmarshalPacket(chunk).value.header.kind == 1 {
      var payload := UnmarshalPacket(chunk).value.payload;
      assert IsPacket(chunk, 1, payload);
      assert |payload| >= 72 ==> payload[0..32] == payload[..32];
    }
  }

  /** Likewise the client: a whole packet of type 2 with at least 81 bytes, and from it the identifier and the
      addresses. */
  lemma ClientCompletesIff(suite: Suite, privateKey: Bytes32, chunk: seq<byte>)
    ensures ClientComplete(suite, privateKey, chunk).Some? <==>
            exists payload :: IsPacket(chunk, 2, payload) && |payload| >= 81
                              && ComputeSharedSecret(suite, privateKey, payload[..32]).Some?
    ensures forall payload | IsPacket(chunk, 2, payload) && |payload| >= 81
                             && ComputeSharedSecret(suite, privateKey, payload[..32]).Some? ::
              var secret := ComputeSharedSecret(suite, privateKey, payload[..32]).value;
              ClientComplete(suite, privateKey, chunk)
              == Some(Established(DeriveKeys(suite, secret, true, secret), Uint64(payload[32..40]),
                                  payload[40..44], payload[44..48]))
  {
    hide IsPacket;
    forall payload
      ensures IsPacket(chunk, 2, payload) <==>
                UnmarshalPacket(chunk).Ok? && UnmarshalPacket(chunk).value.header.kind == 2
                && UnmarshalPacket(chunk).value.payload == payload
    {
      IsPacketIff(chunk, 2, payload);
    }
    if UnmarshalPacket(chunk).Ok? && UnmarshalPacket(chunk).value.header.kind == 2 {
      var payload := UnmarshalPacket(chunk).value.payload;
      assert IsPacket(chunk, 2, payload);
      assert |payload| >= 81 ==> payload[0..32] == payload[..32];
    }
  }

  /** The server gets keys from the hello exactly when the client completes on the reply, namely when their
      shared secret is not all zero; then they agree on the keys, crossed, on the session identifier and on
      the addresses. Whether the client is sent the reply, and reads it first, is another matter: module
      Admission. */
  lemma EndsAgreeAfterHandshake(
      suite: Suite, client: KeyPair, server: KeyPair, timestamp: i64, padding: Bytes32,
      sessionID: u64, ip: u32, replyPadding: Bytes32)
    requires Lawful(suite) && Matching(suite, client) && Matching(suite, server)
    ensures var s := ServerAccept(suite, server.privateKey, Hello(client.publicKey, timestamp, padding));
            var c := ClientComplete(suite, client.privateKey, Reply(server.publicKey, sessionID, ip, replyPadding));
            && (s.Some? <==> c.Some?)
            && (s.Some? <==> ComputeSharedSecret(suite, client.privateKey, server.publicKey).Some?)
            && (s.Some? ==>
                  c.value == Established(Keys(s.value.recv, s.value.send), sessionID, BigEndian(ip, 4), SERVER_IP))
  {
    HelloIsUnderstood(client.publicKey, timestamp, padding);
    ReplyIsUnderstood(server.publicKey, sessionID, ip, replyPadding);
    EndsAgree(suite, client, server);
  }

  /** A routed message, a keep-alive or a disconnect packet is no answer to a hello. */
  lemma MessageIsNoAnswer(
      suite: Suite, key: Bytes32, sessionID: u64, counter: u64, e: Event, privateKey: Bytes32)
    requires Lawful(suite) && MessageOf(suite, key, sessionID, counter, e).Some?
    ensures var m := MessageOf(suite, key, sessionID, counter, e).value;
            |m| <= READ_BUFFER && ClientComplete(suite, privateKey, m) == None
  {
    MessageIsReceived(suite, key, sessionID, counter, e);
  }

  lemma {:induction false} SentIsNoAnswer(
      suite: Suite, key: Bytes32, sessionID: u64, counter: u64, events: seq<Event>, privateKey: Bytes32)
    requires Lawful(suite)
    ensures var messages := Sent(suite, key, sessionID, counter, events);
            messages != [] ==> |messages[0]| <= READ_BUFFER && ClientComplete(suite, privateKey, messages[0]) == None
    decreases |events|
  {
    if events != [] {
      SentIsNoAnswer(suite, key, sessionID, CounterAfter(counter, events[0]), events[1..], privateKey);
      if MessageOf(suite, key, sessionID, counter, events[0]).Some? {
        MessageIsNoAnswer(suite, key, sessionID, counter, events[0], privateKey);
      }
    }
  }

  /** What a client is sent over a connection: packets routed before the reply, the reply if it is
      written, and everything after. */
  function Downstream(
      suite: Suite, key: Bytes32, reply: seq<byte>, accepted: bool, sessionID: u64, early: seq<Event>, down: seq<Event>)
    : seq<seq<byte>>
  {
    Sent(suite, key, sessionID, 0, early) + (if accepted then [reply] else [])
    + Sent(suite, key, sessionID, CounterAfterAll(0, early), down)
  }

  /** The whole tunnel. Both ends hold matching key pairs with a usable shared secret; the server may have
      routed packets to the client before its reply. The client completes exactly when the reply is the
      first message it is sent. Then every frame either end seals and sends from now on is written to the
      other end's TUN device, unchanged and in order, in both directions at once. */
  lemma TunnelIsTransparent(
      suite: Suite, client: KeyPair, server: KeyPair, timestamp: i64, padding: Bytes32,
      sessionID: u64, ip: u32, replyPadding: Bytes32, accepted: bool,
      up: seq<Event>, early: seq<Event>, down: seq<Event>)
    requires Lawful(suite) && Matching(suite, client) && Matching(suite, server)
    requires ComputeSharedSecret(suite, client.privateKey, server.publicKey).Some?
    ensures var hello := Hello(client.publicKey, timestamp, padding);
            var reply := Reply(server.publicKey, sessionID, ip, replyPadding);
            var s := ServerAccept(suite, server.privateKey, hello);
            && s.Some?
            && var toClient := Inbound([], Downstream(suite, s.value.send, reply, accepted, sessionID, early, down));
               var c := AnswerTo(suite, client.privateKey, toClient);
               && (c.Some? <==> accepted && Sent(suite, s.value.send, sessionID, 0, early) == [])
               && (c.Some? ==>
                     var toServer := Inbound([], [hello] + Sent(suite, c.value.keys.send, c.value.sessionID, 0, up));
                     && c.value == Established(Keys(s.value.recv, s.value.send), sessionID, BigEndian(ip, 4), SERVER_IP)
                     && Chunk(toServer, READ_BUFFER) == Some(hello)
                     && Delivered(suite, s.value.recv, Drain(AfterRead(toServer, READ_BUFFER), READ_BUFFER))
                        == Payloads(up)
                     && Delivered(suite, c.value.keys.recv, Drain(AfterRead(toClient, READ_BUFFER), READ_BUFFER))
                        == Payloads(down))
  {
    EndsAgreeAfterHandshake(suite, client, server, timestamp, padding, sessionID, ip, replyPadding);
    HelloIsUnderstood(client.publicKey, timestamp, padding);
    var s := ServerAccept(suite, server.privateKey, Hello(client.publicKey, timestamp, padding)).value;
    FramesArrive(suite, s.recv, sessionID, 0, up);
    FirstIsRead(Hello(client.publicKey, timestamp, padding), Sent(suite, s.recv, sessionID, 0, up));
    ReplyFirst(suite, client, server, s.send, sessionID, ip, replyPadding, accepted, early, down);
  }

  lemma ReplyFirst(
      suite: Suite, client: KeyPair, server: KeyPair, key: Bytes32, sessionID: u64, ip: u32, replyPadding: Bytes32,
      accepted: bool, early: seq<Event>, down: seq<Event>)
    requires Lawful(suite)
    requires ComputeSharedSecret(suite, client.privateKey, server.publicKey).Some?
    ensures var reply := Reply(server.publicKey, sessionID, ip, replyPadding);
            var toClient := Inbound([], Downstream(suite, key, reply, accepted, sessionID, early, down));
            var first := Sent(suite, key, sessionID, 0, early);
            if accepted && first == [] then
              && AnswerTo(suite, client.privateKey, toClient) == ClientComplete(suite, client.privateKey, reply)
              && Delivered(suite, key, Drain(AfterRead(toClient, READ_BUFFER), READ_BUFFER)) == Payloads(down)
            else AnswerTo(suite, client.privateKey, toClient) == None
  {
    hide Sent, Payloads, Delivered, Drain, ClientComplete, Lawful;
    ReplyIsUnderstood(server.publicKey, sessionID, ip, replyPadding);
    var reply := Reply(server.publicKey, sessionID, ip, replyPadding);
    var first, counter := Sent(suite, key, sessionID, 0, early), CounterAfterAll(0, early);
    var later := Sent(suite, key, sessionID, counter, down);
    var all := Downstream(suite, key, reply, accepted, sessionID, early, down);
    SentIsNoAnswer(suite, key, sessionID, 0, early, client.privateKey);
    SentIsNoAnswer(suite, key, sessionID, counter, down, client.privateKey);
    if first != [] {
      assert all == [first[0]] + all[1..];
      FirstIsRead(first[0], all[1..]);
    } else if accepted {
      assert all == [reply] + later;
      FirstIsRead(reply, later);
      FramesArrive(suite, key, sessionID, counter, down);
    } else {
      assert all == later;
      if later != [] {
        assert later == [later[0]] + later[1..];
        FirstIsRead(later[0], later[1..]);
      }
    }
  }

  lemma FirstIsRead(m: seq<byte>, rest: seq<seq<byte>>)
    requires |m| <= READ_BUFFER
    ensures Chunk(Inbound([], [m] + rest), READ_BUFFER) == Some(m)
    ensures AfterRead(Inbound([], [m] + rest), READ_BUFFER) == Inbound([], rest)
  {
    assert m[..|m|] == m && m[|m|..] == [] && ([m] + rest)[1..] == rest;
  }
}
