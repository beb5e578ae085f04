/** The data path: frames read from one TUN device are sealed, packed, sent, and written to the other
    (tunReadLoop and receiveLoop in pkg/client/client.go, the data loop of handleConnection in
    pkg/server/server.go). */
module Tunnel {
  import opened Bytes
  import opened Protocol
  import opened Crypto
  import opened WebSocket

  const TUN_BUFFER: nat := 2048
  const READ_BUFFER: nat := 4096

  // A read from the TUN device returns at most a buffer.
  type Frame = s: seq<byte> | |s| <= TUN_BUFFER witness []

  /** What reaches the sending side of a connection, in order. accepted is the transport's answer. */
  datatype Event =
    | Data(frame: Frame, entropy: Option<Tail>, accepted: bool)
    | KeepAlive(accepted: bool)
    | Disconnect(accepted: bool)

  // ---------- Sending ----------

  /** The message that carries an event, if one is made. */
  function MessageOf(suite: Suite, key: Bytes32, sessionID: u64, counter: u64, e: Event): Option<seq<byte>> {
    match e
    case Data(frame, entropy, _) =>
      (match Answer(suite, key, counter, Call(frame, entropy))
       case None => None
       case Some(ciphertext) => Some(Encode(NewPacket(DATA, sessionID, ciphertext))))
    case KeepAlive(_) => Some(Encode(NewPacket(KEEP_ALIVE, sessionID, [])))
    case Disconnect(_) => Some(Encode(NewPacket(DISCONNECT, sessionID, [])))
  }

  function CounterAfter(counter: u64, e: Event): u64 {
    if e.Data? then Increment64(counter) else counter
  }

  /** The messages a run of events puts on the connection. */
  function Sent(suite: Suite, key: Bytes32, sessionID: u64, counter: u64, events: seq<Event>): seq<seq<byte>>
    decreases |events|
  {
    if events == [] then [] else
      var m := MessageOf(suite, key, sessionID, counter, events[0]);
      var rest := Sent(suite, key, sessionID, CounterAfter(counter, events[0]), events[1..]);
      if m.Some? && events[0].accepted then [m.value] + rest else rest
  }

  function CounterAfterAll(counter: u64, events: seq<Event>): u64
    decreases |events|
  {
    if events == [] then counter else CounterAfterAll(CounterAfter(counter, events[0]), events[1..])
  }

  /** What a read from the TUN device brings to the client's sending loop. */
  datatype TunRead = ReadError | Got(frame: Frame, entropy: Option<Tail>, accepted: bool)

  predicate Refused(e: Event) {
    e.Data? && e.entropy.Some? && !e.accepted
  }

  /** The loop goes on after a failed read or a failed encryption, and ends at a refused write. */
  function Attempts(inputs: seq<TunRead>): seq<Event> {
    if inputs == [] then [] else
      match inputs[0]
      case ReadError => Attempts(inputs[1..])
      case Got(frame, entropy, accepted) =>
        var e := Data(frame, entropy, accepted);
        [e] + if Refused(e) then [] else Attempts(inputs[1..])
  }

  predicate RefusedRead(r: TunRead) {
    r.Got? && r.entropy.Some? && !r.accepted
  }

  /** A frame that could be sealed and whose write was accepted. */
  predicate Survives(r: TunRead) {
    r.Got? && r.entropy.Some? && r.accepted
  }

  ghost predicate NoneRefused(inputs: seq<TunRead>) {
    forall k | 0 <= k < |inputs| :: !RefusedRead(inputs[k])
  }

  lemma NoneRefusedCons(inputs: seq<TunRead>)
    requires inputs != []
    ensures NoneRefused(inputs) <==> !RefusedRead(inputs[0]) && NoneRefused(inputs[1..])
  {
    hide RefusedRead;
    var rest := inputs[1..];
    assert forall k | 0 <= k < |rest| :: rest[k] == inputs[k + 1];
    assert forall k | 0 < k < |inputs| :: inputs[k] == rest[k - 1];
  }

  lemma AttemptsCons(r: TunRead, rest: seq<TunRead>)
    ensures Attempts([r] + rest)
         == match r
            case ReadError => Attempts(rest)
            case Got(frame, entropy, accepted) =>
              [Data(frame, entropy, accepted)] + if RefusedRead(r) then [] else Attempts(rest)
  {
    assert ([r] + rest)[1..] == rest;
  }

  /** Reads are attempted one after the other; after a refused write none is. */
  lemma {:induction false} AttemptsSplit(a: seq<TunRead>, b: seq<TunRead>)
    ensures Attempts(a + b) == if NoneRefused(a) then Attempts(a) + Attempts(b) else Attempts(a)
    decreases |a|
  {
    hide Attempts, NoneRefused;
    if a == [] {
      assert a + b == b && [] + Attempts(b) == Attempts(b);
      NoAttempts();
    } else {
      var r, rest := a[0], a[1..];
      assert a == [r] + rest && a + b == [r] + (rest + b);
      AttemptsSplit(rest, b);
      NoneRefusedCons(a);
      AttemptsCons(r, rest);
      AttemptsCons(r, rest + b);
      if NoneRefused(a) && r.Got? {
        var e := [Data(r.frame, r.entropy, r.accepted)];
        assert e + (Attempts(rest) + Attempts(b)) == e + Attempts(rest) + Attempts(b);
      }
    }
  }

  lemma NoAttempts()
    ensures Attempts([]) == [] && NoneRefused([])
  {
  }

  lemma AttemptsSnoc(inputs: seq<TunRead>, r: TunRead)
    ensures Attempts(inputs + [r])
         == Attempts(inputs)
            + if NoneRefused(inputs) && r.Got? then [Data(r.frame, r.entropy, r.accepted)] else []
  {
    AttemptsSplit(inputs, [r]);
    assert [r][1..] == [];
  }

  /** Read k brings a frame, and no write before it has been refused. */
  ghost predicate Tried(inputs: seq<TunRead>, k: nat) {
    k < |inputs| && inputs[k].Got? && forall j | 0 <= j < k :: !RefusedRead(inputs[j])
  }

  /** Moreover its frame could be sealed and was accepted. */
  ghost predicate Through(inputs: seq<TunRead>, k: nat) {
    Tried(inputs, k) && Survives(inputs[k])
  }

  ghost predicate Increasing(at: seq<nat>) {
    forall i, j | 0 <= i < j < |at| :: at[i] < at[j]
  }

  /** frames are the frames of exactly the reads that got through, in order; at says which reads these are. */
  ghost predicate AreThrough(inputs: seq<TunRead>, frames: seq<seq<byte>>, at: seq<nat>) {
    && Increasing(at) && |at| == |frames|
    && (forall n | 0 <= n < |at| :: Through(inputs, at[n]) && frames[n] == inputs[at[n]].frame)
    && (forall k: nat | Through(inputs, k) :: k in at)
  }

  lemma ThroughSnoc(inputs: seq<TunRead>, r: TunRead, k: nat)
    ensures Through(inputs + [r], k) <==>
              Through(inputs, k) || (k == |inputs| && NoneRefused(inputs) && Survives(r))
  {
    var all := inputs + [r];
    if k <= |inputs| {
      assert forall j | 0 <= j < k :: all[j] == inputs[j];
    }
  }

  lemma AreThroughSnoc(inputs: seq<TunRead>, frames: seq<seq<byte>>, at: seq<nat>, r: TunRead)
    requires AreThrough(inputs, frames, at)
    ensures if NoneRefused(inputs) && Survives(r)
            then AreThrough(inputs + [r], frames + [r.frame], at + [|inputs|])
            else AreThrough(inputs + [r], frames, at)
  {
    forall k: nat
      ensures Through(inputs + [r], k) <==>
              Through(inputs, k) || (k == |inputs| && NoneRefused(inputs) && Survives(r))
    {
      ThroughSnoc(inputs, r, k);
    }
    hide Through, NoneRefused;
    assert forall n | 0 <= n < |at| :: Through(inputs, at[n]);
    assert forall n | 0 <= n < |at| :: at[n] < |inputs| && (inputs + [r])[at[n]] == inputs[at[n]] by {
      forall n | 0 <= n < |at|
        ensures at[n] < |inputs|
      {
        ThroughIsRead(inputs, at[n]);
      }
    }
    assert forall k: nat | Through(inputs, k) :: k in at + [|inputs|];
    assert |inputs| in at + [|inputs|] by {
      assert (at + [|inputs|])[|at|] == |inputs|;
    }
  }

  lemma ThroughIsRead(inputs: seq<TunRead>, k: nat)
    requires Through(inputs, k)
    ensures k < |inputs| && inputs[k].Got?
  {
  }

  lemma {:induction false} PayloadsSplit(a: seq<Event>, b: seq<Event>)
    requires forall e | e in a :: !e.Disconnect?
    ensures Payloads(a + b) == Payloads(a) + Payloads(b)
    decreases |a|
  {
    if a == [] {
      assert a + b == b;
    } else {
      assert (a + b)[1..] == a[1..] + b;
      PayloadsSplit(a[1..], b);
    }
  }

  lemma {:induction false} AttemptsAreData(inputs: seq<TunRead>)
    ensures forall e | e in Attempts(inputs) :: e.Data?
    decreases |inputs|
  {
    if inputs != [] {
      AttemptsAreData(inputs[1..]);
    }
  }

  /** The frames that survive the sending loop are those of the reads that got through. */
  lemma {:induction false} AttemptedPayloads(inputs: seq<TunRead>) returns (at: seq<nat>)
    ensures AreThrough(inputs, Payloads(Attempts(inputs)), at)
    decreases |inputs|
  {
    if inputs == [] {
      at := [];
    } else {
      var front, r := inputs[..|inputs| - 1], inputs[|inputs| - 1];
      assert inputs == front + [r];
      at := AttemptedPayloads(front);
      AreThroughSnoc(front, Payloads(Attempts(front)), at, r);
      PayloadsSnoc(front, r);
      if NoneRefused(front) && Survives(r) {
        at := at + [|front|];
      }
    }
  }

  lemma PayloadsSnoc(inputs: seq<TunRead>, r: TunRead)
    ensures Payloads(Attempts(inputs + [r]))
         == Payloads(Attempts(inputs)) + if NoneRefused(inputs) && Survives(r) then [r.frame] else []
  {
    AttemptsSnoc(inputs, r);
    AttemptsAreData(inputs);
    if r.Got? {
      var e := Data(r.frame, r.entropy, r.accepted);
      assert [e][1..] == [] && Payloads([e][1..]) == [];
      PayloadsSplit(Attempts(inputs), [e]);
    }
    assert Payloads(Attempts(inputs)) + [] == Payloads(Attempts(inputs));
    assert Attempts(inputs) + [] == Attempts(inputs);
  }

  lemma SentCons(suite: Suite, key: Bytes32, sessionID: u64, counter: u64, e: Event, rest: seq<Event>)
    ensures Sent(suite, key, sessionID, counter, [e] + rest)
         == Sent(suite, key, sessionID, counter, [e]) + Sent(suite, key, sessionID, CounterAfter(counter, e), rest)
    ensures CounterAfterAll(counter, [e] + rest) == CounterAfterAll(CounterAfter(counter, e), rest)
  {
    assert ([e] + rest)[1..] == rest && [e][1..] == [];
  }

  /** What the client's loop has still to try after one attempt. */
  function AttemptsAfter(e: Event, left: seq<TunRead>): seq<Event> {
    if Refused(e) then [] else Attempts(left)
  }

  /** One turn of the client's loop moves one attempt from what is to come to what is done. */
  lemma AttemptAdvances(
      suite: Suite, key: Bytes32, sessionID: u64, counter: u64, before: seq<seq<byte>>, e: Event, rest: seq<Event>)
    ensures before + Sent(suite, key, sessionID, counter, [e] + rest)
         == before + Sent(suite, key, sessionID, counter, [e])
              + Sent(suite, key, sessionID, CounterAfter(counter, e), rest)
  {
    SentCons(suite, key, sessionID, counter, e, rest);
  }

  /** What the turn for read k makes of what is still to be tried. */
  lemma TurnAttempts(inputs: seq<TunRead>, k: nat)
    requires k < |inputs|
    ensures NoneRefused(inputs[..k + 1]) <==> NoneRefused(inputs[..k]) && !RefusedRead(inputs[k])
    ensures match inputs[k]
            case ReadError => Attempts(inputs[k..]) == Attempts(inputs[k + 1..])
            case Got(frame, entropy, accepted) =>
              var e := Data(frame, entropy, accepted);
              && Attempts(inputs[k..]) == [e] + AttemptsAfter(e, inputs[k + 1..])
              && AttemptsAfter(e, inputs[k + 1..]) == if Refused(e) then [] else Attempts(inputs[k + 1..])
  {
    assert inputs[k..][0] == inputs[k] && inputs[k..][1..] == inputs[k + 1..];
  }

  lemma NothingAfterRefusal(suite: Suite, key: Bytes32, sessionID: u64, counter: u64)
    ensures Sent(suite, key, sessionID, counter, []) == [] && CounterAfterAll(counter, []) == counter
  {
  }

  lemma NoAttemptsLeft(suite: Suite, key: Bytes32, sessionID: u64, counter: u64, inputs: seq<TunRead>)
    ensures var left := Attempts(inputs[|inputs|..]);
            Sent(suite, key, sessionID, counter, left) == [] && CounterAfterAll(counter, left) == counter
    ensures NoneRefused(inputs) <==> !exists k :: 0 <= k < |inputs| && RefusedRead(inputs[k])
  {
  }

  // ---------- Receiving ----------

  /** What a receiver does with one chunk. */
  datatype Reception = Ignored | Plaintext(p: seq<byte>) | Ping | Bye

  function Receive(suite: Suite, key: Bytes32, chunk: seq<byte>): Reception {
    match UnmarshalPacket(chunk)
    case Err(_) => Ignored
    case Ok(packet) =>
      if packet.header.kind == DATA then
        match Opened(suite, key, packet.payload)
        case None => Ignored
        case Some(p) => Plaintext(p)
      else if packet.header.kind == KEEP_ALIVE then Ping
      else if packet.header.kind == DISCONNECT then Bye
      else Ignored
  }

  /** What a receiver writes to its TUN device: the loop ends at a disconnect packet. */
  function Delivered(suite: Suite, key: Bytes32, chunks: seq<seq<byte>>): seq<seq<byte>> {
    if chunks == [] then [] else
      match Receive(suite, key, chunks[0])
      case Bye => []
      case Plaintext(p) => [p] + Delivered(suite, key, chunks[1..])
      case _ => Delivered(suite, key, chunks[1..])
  }

  /** How many keep-alives it sees. */
  function Pings(suite: Suite, key: Bytes32, chunks: seq<seq<byte>>): nat {
    if chunks == [] then 0 else
      match Receive(suite, key, chunks[0])
      case Bye => 0
      case Ping => 1 + Pings(suite, key, chunks[1..])
      case _ => Pings(suite, key, chunks[1..])
  }

  /** What a receiver leaves unread: nothing, unless the peer disconnects. */
  function LeftOver(suite: Suite, key: Bytes32, s: Inbound): Inbound
    decreases |s.unread|, |s.readBuf|
  {
    var chunk := Chunk(s, READ_BUFFER);
    if chunk.None? then s
    else if Receive(suite, key, chunk.value).Bye? then AfterRead(s, READ_BUFFER)
    else LeftOver(suite, key, AfterRead(s, READ_BUFFER))
  }

  /** chunk is a whole packet of that type with that payload. */
  ghost predicate IsPacket(chunk: seq<byte>, kind: byte, payload: seq<byte>) {
    exists id: u64 :: |payload| <= 65535 && chunk == Encode(NewPacket(kind, id, payload))
  }

  /** What counts as what: a frame only from a whole data packet whose payload opens, a keep-alive and a
      disconnect only from whole packets of these types. All else is ignored. */
  lemma ReceiveIff(suite: Suite, key: Bytes32, chunk: seq<byte>)
    ensures var r := Receive(suite, key, chunk);
            && (forall p :: r == Plaintext(p) <==>
                  exists c :: IsPacket(chunk, 3, c) && |c| >= 24 && suite.open(key, c[..24], c[24..]) == Some(p))
            && (r == Ping <==> exists c :: IsPacket(chunk, 4, c))
            && (r == Bye <==> exists c :: IsPacket(chunk, 5, c))
  {
    forall kind: byte, c: seq<byte>
      ensures IsPacket(chunk, kind, c) <==>
                UnmarshalPacket(chunk).Ok? && UnmarshalPacket(chunk).value.header.kind == kind
                && UnmarshalPacket(chunk).value.payload == c
    {
      IsPacketIff(chunk, kind, c);
    }
    hide IsPacket, UnmarshalPacket;
    if UnmarshalPacket(chunk).Ok? {
      var p := UnmarshalPacket(chunk).value;
      assert IsPacket(chunk, p.header.kind, p.payload);
    }
  }

  lemma IsPacketIff(chunk: seq<byte>, kind: byte, payload: seq<byte>)
    ensures IsPacket(chunk, kind, payload) <==>
              UnmarshalPacket(chunk).Ok? && UnmarshalPacket(chunk).value.header.kind == kind
              && UnmarshalPacket(chunk).value.payload == payload
  {
    if IsPacket(chunk, kind, payload) {
      var id: u64 :| |payload| <= 65535 && chunk == Encode(NewPacket(kind, id, payload));
      PacketRoundTrip(kind, id, payload);
    }
    if UnmarshalPacket(chunk).Ok? {
      var p := UnmarshalPacket(chunk).value;
      UnmarshalIffEncoded(chunk, p);
      assert p == NewPacket(p.header.kind, p.header.sessionID, p.payload);
    }
  }

  ghost predicate NoBye(suite: Suite, key: Bytes32, chunks: seq<seq<byte>>) {
    forall k | 0 <= k < |chunks| :: Receive(suite, key, chunks[k]) != Bye
  }

  lemma NoByeInNone(suite: Suite, key: Bytes32)
    ensures NoBye(suite, key, [])
  {
  }

  lemma NoByeCons(suite: Suite, key: Bytes32, c: seq<byte>, rest: seq<seq<byte>>)
    ensures NoBye(suite, key, [c] + rest) <==> Receive(suite, key, c) != Bye && NoBye(suite, key, rest)
  {
    hide Receive;
    var all := [c] + rest;
    assert all[0] == c && forall k | 0 <= k < |rest| :: all[k + 1] == rest[k];
    assert forall k | 0 < k < |all| :: all[k] == rest[k - 1];
  }

  /** Chunks are handled one after the other; after a disconnect packet none is. */
  lemma {:induction false} DeliveredSplit(suite: Suite, key: Bytes32, a: seq<seq<byte>>, b: seq<seq<byte>>)
    ensures Delivered(suite, key, a + b) == Delivered(suite, key, a)
              + if NoBye(suite, key, a) then Delivered(suite, key, b) else []
    ensures Pings(suite, key, a + b) == Pings(suite, key, a) + if NoBye(suite, key, a) then Pings(suite, key, b) else 0
    decreases |a|
  {
    hide Receive, NoBye;
    if a == [] {
      assert a + b == b;
      assert NoBye(suite, key, []) by { NoByeInNone(suite, key); }
    } else {
      assert (a + b)[1..] == a[1..] + b;
      DeliveredSplit(suite, key, a[1..], b);
      NoByeCons(suite, key, a[0], a[1..]);
      assert a == [a[0]] + a[1..];
    }
  }

  /** A chunk that is ignored, wherever it comes, does not stop or change the delivery of the others. */
  lemma JunkIsSkipped(suite: Suite, key: Bytes32, a: seq<seq<byte>>, junk: seq<byte>, b: seq<seq<byte>>)
    requires Receive(suite, key, junk) == Ignored
    ensures Delivered(suite, key, a + [junk] + b) == Delivered(suite, key, a + b)
    ensures Pings(suite, key, a + [junk] + b) == Pings(suite, key, a + b)
  {
    assert a + [junk] + b == a + ([junk] + b) && ([junk] + b)[1..] == b;
    DeliveredSplit(suite, key, a, [junk] + b);
    DeliveredSplit(suite, key, a, b);
  }

  /** What stays unread is exactly what comes after the first disconnect packet. */
  lemma {:induction false} LeftOverIs(suite: Suite, key: Bytes32, s: Inbound)
    ensures var chunks := Drain(s, READ_BUFFER);
            AfterBye(suite, key, chunks, Drain(LeftOver(suite, key, s), READ_BUFFER))
    decreases |s.unread|, |s.readBuf|
  {
    hide Receive, AfterBye;
    var chunk := Chunk(s, READ_BUFFER);
    if chunk.None? {
      AfterByeInNone(suite, key);
    } else {
      var rest := Drain(AfterRead(s, READ_BUFFER), READ_BUFFER);
      if Receive(suite, key, chunk.value) != Bye {
        LeftOverIs(suite, key, AfterRead(s, READ_BUFFER));
      }
      AfterByeCons(suite, key, chunk.value, rest, Drain(LeftOver(suite, key, s), READ_BUFFER));
    }
  }

  /** left is what comes after the first disconnect packet, or nothing if there is none. */
  ghost predicate AfterBye(suite: Suite, key: Bytes32, chunks: seq<seq<byte>>, left: seq<seq<byte>>) {
    if NoBye(suite, key, chunks) then left == [] else exists k :: FirstByeAt(suite, key, chunks, k, left)
  }

  ghost predicate FirstByeAt(suite: Suite, key: Bytes32, chunks: seq<seq<byte>>, k: int, left: seq<seq<byte>>) {
    && 0 <= k < |chunks| && Receive(suite, key, chunks[k]) == Bye
    && NoBye(suite, key, chunks[..k]) && left == chunks[k + 1..]
  }

  lemma AfterByeInNone(suite: Suite, key: Bytes32)
    ensures AfterBye(suite, key, [], [])
  {
  }

  lemma AfterByeCons(suite: Suite, key: Bytes32, c: seq<byte>, rest: seq<seq<byte>>, left: seq<seq<byte>>)
    requires if Receive(suite, key, c) == Bye then left == rest else AfterBye(suite, key, rest, left)
    ensures AfterBye(suite, key, [c] + rest, left)
  {
    hide Receive, NoBye;
    var all := [c] + rest;
    NoByeCons(suite, key, c, rest);
    NoByeInNone(suite, key);
    if Receive(suite, key, c) == Bye {
      assert all[..0] == [] && all[0 + 1..] == rest;
      assert FirstByeAt(suite, key, all, 0, left);
    } else if !NoBye(suite, key, rest) {
      var k :| FirstByeAt(suite, key, rest, k, left);
      NoByeCons(suite, key, c, rest[..k]);
      assert all[..k + 1] == [c] + rest[..k] && all[k + 1] == rest[k] && all[k + 2..] == rest[k + 1..];
      assert FirstByeAt(suite, key, all, k + 1, left);
    }
  }

  // ---------- The loops ----------

  /** One end of an established connection. Both ends run the same loops, except that only the server
      answers keep-alives. */
  class Endpoint {
    const conn: WebSocketConnection
    const session: Session
    const sessionID: u64
    const answersKeepAlive: bool
    // Without a TUN device either end runs in tunnel-only mode.
    const hasDevice: bool
    // The frames handed to the TUN device; whether it takes them makes no difference to the loops.
    var tun: seq<seq<byte>>

    constructor (
        conn: WebSocketConnection, session: Session, sessionID: u64, answersKeepAlive: bool, hasDevice: bool)
      ensures this.conn == conn && this.session == session && this.sessionID == sessionID
      ensures this.answersKeepAlive == answersKeepAlive && this.hasDevice == hasDevice && tun == []
    {
      this.conn, this.session, this.sessionID := conn, session, sessionID;
      this.answersKeepAlive, this.hasDevice := answersKeepAlive, hasDevice;
      tun := [];
    }

    /** One turn of the sending loops. */
    method Send(e: Event)
      modifies session`sendNonce, conn`outgoing
      ensures conn.outgoing
           == old(conn.outgoing) + Sent(session.suite, session.sendKey, sessionID, old(session.sendNonce), [e])
      ensures session.sendNonce == CounterAfter(old(session.sendNonce), e)
    {
      var packet: Packet;
      match e {
        case Data(frame, entropy, _) =>
          var ciphertext := session.Encrypt(frame, entropy);
          if ciphertext.None? {
            return;
          }
          packet := NewPacket(DATA, sessionID, ciphertext.value);
        case KeepAlive(_) =>
          packet := NewPacket(KEEP_ALIVE, sessionID, []);
        case Disconnect(_) =>
          packet := NewPacket(DISCONNECT, sessionID, []);
      }
      var bytes := Marshal(packet);
      var _, _ := conn.Write(bytes[..], e.accepted);
    }

    /** The client's loop over reads of the TUN device. lost tells that it reports a lost connection. */
    method TunReadLoop(inputs: seq<TunRead>) returns (lost: bool)
      modifies session`sendNonce, conn`outgoing
      ensures conn.outgoing == old(conn.outgoing)
                + Sent(session.suite, session.sendKey, sessionID, old(session.sendNonce), Attempts(inputs))
      ensures session.sendNonce == CounterAfterAll(old(session.sendNonce), Attempts(inputs))
      ensures lost <==> exists k :: 0 <= k < |inputs| && RefusedRead(inputs[k])
      ensures Lawful(session.suite) ==>
                && old(conn.outgoing) <= conn.outgoing
                && var added := conn.outgoing[|old(conn.outgoing)|..];
                   exists at :: AreThrough(inputs, Arriving(session.suite, session.sendKey, added), at)
    {
      hide AreThrough, Arriving, Lawful, MessageOf, Attempts, AttemptsAfter, NoneRefused, Sent, CounterAfterAll;
      ghost var suite, key := session.suite, session.sendKey;
      ghost var all := Attempts(inputs);
      ghost var sent := Sent(suite, key, sessionID, session.sendNonce, all);
      ghost var messages := conn.outgoing + sent;
      ghost var counter := CounterAfterAll(session.sendNonce, all);
      var k := 0;
      assert messages[|conn.outgoing|..] == sent && inputs[0..] == inputs && inputs[..0] == [];
      NoAttempts();
      if Lawful(suite) {
        LoopDelivers(suite, key, sessionID, session.sendNonce, inputs);
      }
      while k < |inputs|
        invariant k <= |inputs|
        invariant conn.outgoing + Sent(suite, key, sessionID, session.sendNonce, Attempts(inputs[k..])) == messages
        invariant CounterAfterAll(session.sendNonce, Attempts(inputs[k..])) == counter
        invariant NoneRefused(inputs[..k])
      {
        TurnAttempts(inputs, k);
        match inputs[k] {
          case ReadError =>
          case Got(frame, entropy, accepted) =>
            var e := Data(frame, entropy, accepted);
            ghost var rest := AttemptsAfter(e, inputs[k + 1..]);
            AttemptAdvances(suite, key, sessionID, session.sendNonce, conn.outgoing, e, rest);
            SentCons(suite, key, sessionID, session.sendNonce, e, rest);
            Send(e);
            if entropy.Some? && !accepted {
              NothingAfterRefusal(suite, key, sessionID, session.sendNonce);
              return true;
            }
        }
        k := k + 1;
      }
      assert inputs[..|inputs|] == inputs;
      NoAttemptsLeft(suite, key, sessionID, session.sendNonce, inputs);
      return false;
    }

    function Pong(): seq<byte> {
      Encode(NewPacket(KEEP_ALIVE, sessionID, []))
    }

    /** The answers to the keep-alives from one number up to another: accepted tells which writes of
        them the transport takes. */
    function Replies(from: nat, end: nat, accepted: nat -> bool): seq<seq<byte>>
      requires from <= end
      decreases end - from
    {
      if from == end || !answersKeepAlive then []
      else (if accepted(from) then [Pong()] else []) + Replies(from + 1, end, accepted)
    }

    /** The body of the receiving loop: what is done with the bytes of one Read. accepted is the
        transport's answer if they ask for a reply. */
    method Handle(data: seq<byte>, accepted: bool) returns (r: Reception)
      modifies this`tun, conn`outgoing, session`recvNonce
      ensures r == Receive(session.suite, session.recvKey, data)
      ensures tun == if hasDevice && r.Plaintext? then old(tun) + [r.p] else old(tun)
      ensures conn.outgoing == if r.Ping? && answersKeepAlive && accepted
                               then old(conn.outgoing) + [Pong()] else old(conn.outgoing)
      ensures session.recvNonce == if r.Plaintext? then Increment64(old(session.recvNonce)) else old(session.recvNonce)
    {
      var parsed := UnmarshalPacket(data);
      if parsed.Err? {
        return Ignored;
      }
      var packet := parsed.value;
      if packet.header.kind == DATA {
        var plaintext := session.Decrypt(packet.payload);
        if plaintext.None? {
          return Ignored;
        }
        if hasDevice {
          tun := tun + [plaintext.value];
        }
        return Plaintext(plaintext.value);
      } else if packet.header.kind == KEEP_ALIVE {
        if answersKeepAlive {
          var reply := Marshal(NewPacket(KEEP_ALIVE, sessionID, []));
          var _, _ := conn.Write(reply[..], accepted);
        }
        return Ping;
      } else if packet.header.kind == DISCONNECT {
        return Bye;
      }
      return Ignored;
    }

    /** One turn of the receiving loop: a Read and what is done with its bytes; None is a closed connection. */
    method Turn(buf: array<byte>, accepted: bool) returns (r: Option<Reception>)
      requires buf.Length == READ_BUFFER
      modifies this`tun, conn`readBuf, conn`incoming, conn`outgoing, session`recvNonce, buf
      ensures r == TurnOf(old(conn.State())) && conn.State() == AfterRead(old(conn.State()), READ_BUFFER)
      ensures tun == if hasDevice && r.Some? && r.value.Plaintext? then old(tun) + [r.value.p] else old(tun)
      ensures conn.outgoing == if r.Some? && r.value.Ping? && answersKeepAlive && accepted
                               then old(conn.outgoing) + [Pong()] else old(conn.outgoing)
      ensures session.recvNonce == if r.Some? && r.value.Plaintext?
                                   then Increment64(old(session.recvNonce)) else old(session.recvNonce)
    {
      var n, ok := conn.Read(buf);
      if !ok {
        return None;
      }
      var done := Handle(buf[..n], accepted);
      return Some(done);
    }

    function TurnOf(s: Inbound): Option<Reception> {
      var chunk := Chunk(s, READ_BUFFER);
      if chunk.None? then None else Some(Receive(session.suite, session.recvKey, chunk.value))
    }

    /** The receiving loop, until the connection closes or the peer disconnects. */
    method ReceiveLoop(accepted: nat -> bool)
      modifies this`tun, conn`readBuf, conn`incoming, conn`outgoing, session`recvNonce
      ensures var chunks := Drain(old(conn.State()), READ_BUFFER);
              && (hasDevice ==> tun == old(tun) + Delivered(session.suite, session.recvKey, chunks))
              && (!hasDevice ==> tun == old(tun))
              && conn.outgoing
                 == old(conn.outgoing) + Replies(0, Pings(session.suite, session.recvKey, chunks), accepted)
              && session.recvNonce
                 == Advance(old(session.recvNonce), |Delivered(session.suite, session.recvKey, chunks)|)
      ensures conn.State() == LeftOver(session.suite, session.recvKey, old(conn.State()))
      // If the peer has sealed and sent for it, the device ends up with the frames that went in.
      ensures forall id, counter, events | Lawful(session.suite) && hasDevice
                && old(conn.State()) == Inbound([], Sent(session.suite, session.recvKey, id, counter, events)) ::
                tun == old(tun) + Payloads(events)
    {
      hide Lawful, Sent, Payloads, UnmarshalPacket;
      var buf := new byte[READ_BUFFER](_ => 0);
      var seen := 0;
      ghost var suite, key := session.suite, session.recvKey;
      ghost var chunks := Drain(conn.State(), READ_BUFFER);
      ghost var total := Pings(suite, key, chunks);
      ghost var counter := Advance(session.recvNonce, |Delivered(suite, key, chunks)|);
      ghost var left := LeftOver(suite, key, conn.State());
      ghost var frames := tun + Delivered(suite, key, chunks);
      forall id, counter, events | Lawful(suite) && conn.State() == Inbound([], Sent(suite, key, id, counter, events))
        ensures Delivered(suite, key, chunks) == Payloads(events)
      {
        FramesArrive(suite, key, id, counter, events);
      }
      ghost var out := conn.outgoing + Replies(0, total, accepted);
      while true
        invariant chunks == Drain(conn.State(), READ_BUFFER)
        invariant hasDevice ==> tun + Delivered(suite, key, chunks) == frames
        invariant !hasDevice ==> tun == old(tun)
        invariant seen + Pings(suite, key, chunks) == total
        invariant conn.outgoing + Replies(seen, total, accepted) == out
        invariant Advance(session.recvNonce, |Delivered(suite, key, chunks)|) == counter
        invariant LeftOver(suite, key, conn.State()) == left
        decreases |conn.incoming|, |conn.readBuf|
      {
        ghost var tunBefore, outBefore := tun, conn.outgoing;
        var turn := Turn(buf, accepted(seen));
        if turn.None? {
          return;
        }
        var r := turn.value;
        if hasDevice {
          TurnDelivers(suite, key, chunks, tunBefore, tun);
        }
        TurnReplies(seen, total, accepted, r, outBefore, conn.outgoing);
        if r.Bye? {
          return;
        }
        seen := if r.Ping? then seen + 1 else seen;
        chunks := Drain(conn.State(), READ_BUFFER);
      }
    }

    /** One turn of the receiving loop moves one chunk from what is to come to what is done. */
    lemma TurnDelivers(
        suite: Suite, key: Bytes32, chunks: seq<seq<byte>>, before: seq<seq<byte>>, after: seq<seq<byte>>)
      requires chunks != []
      requires after == match Receive(suite, key, chunks[0])
                        case Plaintext(p) => before + [p]
                        case _ => before
      ensures before + Delivered(suite, key, chunks)
           == if Receive(suite, key, chunks[0]).Bye? then after
              else after + Delivered(suite, key, chunks[1..])
    {
    }

    lemma TurnReplies(seen: nat, total: nat, accepted: nat -> bool, r: Reception,
                      before: seq<seq<byte>>, after: seq<seq<byte>>)
      requires seen <= total && (r.Ping? ==> seen < total)
      requires after == if r.Ping? && answersKeepAlive && accepted(seen) then before + [Pong()] else before
      ensures before + Replies(seen, total, accepted)
           == after + Replies(if r.Ping? then seen + 1 else seen, total, accepted)
    {
    }
  }

  // ---------- End to end ----------

  /** The frames that survive: sealed, accepted by the transport, and not after a disconnect. */
  function Payloads(events: seq<Event>): seq<seq<byte>> {
    if events == [] then [] else
      match events[0]
      case Data(frame, entropy, accepted) =>
        if entropy.Some? && accepted then [frame] + Payloads(events[1..]) else Payloads(events[1..])
      case KeepAlive(_) => Payloads(events[1..])
      case Disconnect(accepted) => if accepted then [] else Payloads(events[1..])
  }

  /** The message parses as a packet of that session and type. */
  predicate Carries(m: seq<byte>, sessionID: u64, kind: byte) {
    match UnmarshalPacket(m)
    case Ok(p) => p.header.sessionID == sessionID && p.header.kind == kind
    case Err(_) => false
  }

  /** One message: it fits the read buffer and the 16-bit length, bears its session's identifier and its
      type, and is received as what it was. */
  lemma MessageIsReceived(suite: Suite, key: Bytes32, sessionID: u64, counter: u64, e: Event)
    requires Lawful(suite) && MessageOf(suite, key, sessionID, counter, e).Some?
    ensures var m := MessageOf(suite, key, sessionID, counter, e).value;
            && |m| == (if e.Data? then |e.frame| + 54 else 14)
            && TUN_BUFFER == 2048 && |m| <= 2102 <= READ_BUFFER == 4096
            && Carries(m, sessionID, match e case Data(_, _, _) => 3 case KeepAlive(_) => 4 case Disconnect(_) => 5)
            && Receive(suite, key, m) == match e
                                         case Data(frame, _, _) => Plaintext(frame)
                                         case KeepAlive(_) => Ping
                                         case Disconnect(_) => Bye
  {
    match e
    case Data(frame, entropy, _) =>
      PeerRecovers(suite, key, counter, frame, entropy.value);
      PacketRoundTrip(DATA, sessionID, Answer(suite, key, counter, Call(frame, entropy)).value);
    case KeepAlive(_) =>
      PacketRoundTrip(KEEP_ALIVE, sessionID, []);
    case Disconnect(_) =>
      PacketRoundTrip(DISCONNECT, sessionID, []);
  }

  lemma {:induction false} SentIsDelivered(
      suite: Suite, key: Bytes32, sessionID: u64, counter: u64, events: seq<Event>)
    requires Lawful(suite)
    ensures var messages := Sent(suite, key, sessionID, counter, events);
            && (forall m | m in messages :: |m| <= READ_BUFFER)
            && Delivered(suite, key, messages) == Payloads(events)
    decreases |events|
  {
    hide Receive, Carries, Lawful;
    if events != [] {
      var e := events[0];
      var m := MessageOf(suite, key, sessionID, counter, e);
      SentIsDelivered(suite, key, sessionID, CounterAfter(counter, e), events[1..]);
      if m.Some? && e.accepted {
        MessageIsReceived(suite, key, sessionID, counter, e);
        var tail := Sent(suite, key, sessionID, CounterAfter(counter, e), events[1..]);
        assert ([m.value] + tail)[1..] == tail;
      }
    }
  }

  /** What a receiver reading these messages through its real buffer writes to its TUN device. */
  function Arriving(suite: Suite, key: Bytes32, messages: seq<seq<byte>>): seq<seq<byte>> {
    Delivered(suite, key, Drain(Inbound([], messages), READ_BUFFER))
  }

  /** Of what the sending loop puts on the connection, the receiver delivers the frames of exactly the reads
      that got through. */
  lemma LoopDelivers(suite: Suite, key: Bytes32, sessionID: u64, counter: u64, inputs: seq<TunRead>)
    requires Lawful(suite)
    ensures exists at ::
              AreThrough(inputs, Arriving(suite, key, Sent(suite, key, sessionID, counter, Attempts(inputs))), at)
  {
    var at := AttemptedPayloads(inputs);
    FramesArrive(suite, key, sessionID, counter, Attempts(inputs));
    assert AreThrough(inputs, Arriving(suite, key, Sent(suite, key, sessionID, counter, Attempts(inputs))), at);
  }

  /** What goes in at one end comes out at the other: the receiver, reading with its real buffer,
      writes to its TUN device exactly the frames that were sealed and sent, in order and unchanged. */
  lemma FramesArrive(suite: Suite, key: Bytes32, sessionID: u64, counter: u64, events: seq<Event>)
    requires Lawful(suite)
    ensures Arriving(suite, key, Sent(suite, key, sessionID, counter, events)) == Payloads(events)
  {
    SentIsDelivered(suite, key, sessionID, counter, events);
    DrainIsMessages(Sent(suite, key, sessionID, counter, events), READ_BUFFER);
  }
}
