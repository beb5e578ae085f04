/** The server's own code for one connection and for routing (pkg/server/server.go). Every locked block is a
    method, proved to take the step that module Sessions gives for it. */
module Server {
  import opened Bytes
  import opened Protocol
  import opened Crypto
  import opened WebSocket
  import opened Tunnel
  import opened Handshake
  import opened AddressPool
  import opened Sessions
  import opened Admission

  class ClientSession {
    const id: u64
    const conn: WebSocketConnection
    const crypto: Session
    const assignedIP: u32

    constructor (id: u64, conn: WebSocketConnection, crypto: Session, assignedIP: u32)
      ensures this.id == id && this.conn == conn && this.crypto == crypto && this.assignedIP == assignedIP
    {
      this.id, this.conn, this.crypto, this.assignedIP := id, conn, crypto, assignedIP;
    }
  }

  /** A handler's connection and the keys made for it. */
  datatype Link = Link(conn: WebSocketConnection, crypto: Session)

  /** A frame the router reads, the order in which it happens to visit the map, and how encrypting and
      writing turn out for each session. */
  datatype Routing = Routing(frame: Frame, order: seq<u64>, entropy: u64 -> Option<Tail>, accepted: u64 -> bool)

  class Server {
    const suite: Suite
    const keyPair: KeyPair
    const ipPool: IPPool
    var sessions: map<u64, ClientSession>

    constructor (suite: Suite, keyPair: KeyPair, ipPool: IPPool)
      ensures this.suite == suite && this.keyPair == keyPair && this.ipPool == ipPool && sessions == map[]
    {
      this.suite, this.keyPair, this.ipPool := suite, keyPair, ipPool;
      sessions := map[];
    }

    /** The first message of a connection, up to the session keys; null when the handler hangs up. */
    method ReadHello(conn: WebSocketConnection) returns (crypto: Session?)
      modifies conn`readBuf, conn`incoming
      ensures var chunk := Chunk(old(conn.State()), READ_BUFFER);
              && (crypto != null <==> chunk.Some? && ServerAccept(suite, keyPair.privateKey, chunk.value).Some?)
              && (crypto != null ==>
                    && fresh(crypto) && crypto.suite == suite && crypto.sendNonce == 0 && crypto.recvNonce == 0
                    && ServerAccept(suite, keyPair.privateKey, chunk.value)
                       == Some(Keys(crypto.sendKey, crypto.recvKey)))
      ensures conn.State() == AfterRead(old(conn.State()), READ_BUFFER)
    {
      var buf := new byte[READ_BUFFER](_ => 0);
      var n, received := conn.Read(buf);
      if !received {
        return null;
      }
      var parsed := UnmarshalPacket(buf[..n]);
      if parsed.Err? || parsed.value.header.kind != HANDSHAKE_INIT {
        return null;
      }
      var init := UnmarshalHandshakeInit(parsed.value.payload);
      if init.Err? {
        return null;
      }
      var secret := ComputeSharedSecret(suite, keyPair.privateKey, init.value.clientPublicKey);
      if secret.None? {
        return null;
      }
      crypto := new Session.DeriveSessionKeys(suite, secret.value, false, secret.value);
    }

    // ---------- The server as a state of module Sessions ----------

    /** The session of an entry, and its owner's connection and keys. */
    predicate EntryShows(session: ClientSession, entry: Sessions.ClientSession, links: map<nat, Link>) {
      && session.id == entry.id && session.assignedIP == entry.ip
      && entry.owner in links && links[entry.owner] == Link(session.conn, session.crypto)
    }

    /** A connection carries what the log says has been handed to it. */
    ghost predicate TalkShows(link: Link, log: seq<Output>)
      reads link.conn, link.crypto
    {
      && link.crypto.suite == suite
      && link.conn.outgoing == OnWire(suite, link.crypto.sendKey, keyPair.publicKey, 0, log)
      && link.crypto.sendNonce == CounterAfterLog(0, log)
    }

    ghost predicate TableShows(table: map<u64, Sessions.ClientSession>, links: map<nat, Link>)
      reads this
    {
      && sessions.Keys == table.Keys
      && forall id | id in sessions :: EntryShows(sessions[id], table[id], links)
    }

    ghost predicate WiresShow(logs: map<nat, seq<Output>>, links: map<nat, Link>)
      reads (set h | h in links :: links[h].conn), (set h | h in links :: links[h].crypto)
    {
      (forall h | h in links :: TalkShows(links[h], LogOf(logs, h))) && LinksApart(links)
    }

    /** Pool, map and connections are as the state says. */
    ghost predicate Shows(s: Sessions.State, links: map<nat, Link>)
      reads this, ipPool, (set h | h in links :: links[h].conn), (set h | h in links :: links[h].crypto)
    {
      && ipPool.Valid() && ipPool.State() == s.pool
      && TableShows(s.sessions, links)
      && WiresShow(s.logs, links)
    }

    lemma StartIsShown(base: u32, ones: nat)
      requires Subnet(base, ones) && ipPool.Valid() && ipPool.State() == Fresh(base, Size(ones)) && sessions == map[]
      ensures Shows(Initial(base, ones), map[])
    {
    }

    /** A handler that has read its hello brings a connection and keys of its own. */
    lemma LinkJoins(s: Sessions.State, links: map<nat, Link>, h: nat, link: Link)
      requires Shows(s, links) && h !in links && LogOf(s.logs, h) == []
      requires link.crypto.suite == suite && link.crypto.sendNonce == 0 && link.conn.outgoing == []
      requires forall g | g in links :: links[g].conn != link.conn && links[g].crypto != link.crypto
      ensures Shows(s, links[h := link])
    {
      var more := links[h := link];
      forall g | g in more
        ensures TalkShows(more[g], LogOf(s.logs, g))
      {
        assert g != h ==> TalkShows(links[g], LogOf(s.logs, g));
      }
      assert forall id | id in sessions :: EntryShows(sessions[id], s.sessions[id], links);
    }

    lemma HandshakeStepIsShown(s: Sessions.State, links: map<nat, Link>, step: Step)
      requires Shows(s, links) && Enabled(s, step) && (step.Accept? || step.GiveUp?)
      ensures Shows(After(s, step), links)
    {
    }

    /** What is known of all connections but h's, and of h's. */
    lemma OthersTalk(logs: map<nat, seq<Output>>, links: map<nat, Link>, h: nat)
      requires WiresShow(logs, links) && h in links
      ensures forall g | g in links && g != h :: TalkShows(links[g], LogOf(logs, g))
      ensures forall g | g in links && g != h :: links[g].conn != links[h].conn && links[g].crypto != links[h].crypto
      ensures links[h].crypto.suite == suite && links[h].crypto.sendNonce == CounterAfterLog(0, LogOf(logs, h))
      ensures links[h].conn.outgoing
           == OnWire(suite, links[h].crypto.sendKey, keyPair.publicKey, 0, LogOf(logs, h))
      ensures LinksApart(links)
    {
    }

    /** No two handlers share a connection or keys. */
    ghost predicate LinksApart(links: map<nat, Link>) {
      forall g, h | g in links && h in links && g != h ::
        links[g].conn != links[h].conn && links[g].crypto != links[h].crypto
    }

    /** When h's connection, its counter and its log have moved on by one output, all are as they should be. */
    lemma WireMoves(logs: map<nat, seq<Output>>, after: map<nat, seq<Output>>, links: map<nat, Link>, h: nat, o: Output)
      requires h in links && LinksApart(links) && links[h].crypto.suite == suite
      requires forall g | g in links && g != h :: TalkShows(links[g], LogOf(logs, g))
      requires after == Log(logs, h, o)
      requires links[h].conn.outgoing
            == OnWire(suite, links[h].crypto.sendKey, keyPair.publicKey, 0, LogOf(logs, h) + [o])
      requires links[h].crypto.sendNonce == CounterAfterLog(0, LogOf(logs, h) + [o])
      ensures WiresShow(after, links)
    {
      forall g | g in links
        ensures TalkShows(links[g], LogOf(after, g))
      {
        assert g != h ==> LogOf(after, g) == LogOf(logs, g);
      }
    }

    lemma WireRests(logs: map<nat, seq<Output>>, links: map<nat, Link>, h: nat)
      requires h in links && LinksApart(links) && links[h].crypto.suite == suite
      requires forall g | g in links && g != h :: TalkShows(links[g], LogOf(logs, g))
      requires links[h].conn.outgoing
            == OnWire(suite, links[h].crypto.sendKey, keyPair.publicKey, 0, LogOf(logs, h))
      requires links[h].crypto.sendNonce == CounterAfterLog(0, LogOf(logs, h))
      ensures WiresShow(logs, links)
    {
    }

    // ---------- A handler's blocks ----------

    method TakeAddress(ghost drawn: u64, ghost s: Sessions.State, ghost links: map<nat, Link>, ghost h: nat)
      returns (clientIP: Option<u32>)
      requires Shows(s, links) && Enabled(s, Allocate(h, drawn))
      modifies ipPool
      ensures clientIP == Granted(s.pool)
      ensures Shows(After(s, Allocate(h, drawn)), links)
    {
      clientIP := ipPool.Allocate();
    }

    method Register(conn: WebSocketConnection, crypto: Session, drawn: u64, clientIP: u32,
                    ghost s: Sessions.State, ghost links: map<nat, Link>, ghost h: nat)
      returns (session: ClientSession)
      requires Shows(s, links) && In(s, h, Allocated(drawn, clientIP)) && s.router.Idle?
      requires h in links && links[h] == Link(conn, crypto)
      modifies this`sessions
      ensures fresh(session) && session.id == drawn && session.assignedIP == clientIP
      ensures session.conn == conn && session.crypto == crypto
      ensures sessions == old(sessions)[drawn := session]
      ensures Shows(After(s, Step.Register(h)), links)
    {
      session := new ClientSession(drawn, conn, crypto, clientIP);
      sessions := sessions[drawn := session];
    }

    /** The handshake reply. It is written without holding a lock. */
    method Greet(session: ClientSession, padding: Bytes32, accepted: bool,
                 ghost s: Sessions.State, ghost links: map<nat, Link>, ghost h: nat)
      returns (sent: bool)
      requires Shows(s, links) && In(s, h, Registered(session.id, session.assignedIP, Owed))
      requires h in links && links[h] == Link(session.conn, session.crypto)
      modifies session.conn`outgoing
      ensures sent == accepted
      ensures Shows(After(s, Step.Greet(h, padding, accepted)), links)
    {
      hide TableShows, WiresShow, TalkShows, Sound, BigEndian;
      ghost var o := Welcome(session.id, session.assignedIP, padding, accepted);
      OthersTalk(s.logs, links, h);
      WireTakes(suite, session.crypto.sendKey, keyPair.publicKey, LogOf(s.logs, h), o);
      var payload := MarshalHandshakeResponse(HandshakeResponse(
        keyPair.publicKey, session.id, BigEndian(session.assignedIP, 4), SERVER_IP, SUBNET_BITS, padding));
      var packet := Marshal(NewPacket(HANDSHAKE_RESPONSE, session.id, payload[..]));
      var _, ok := session.conn.Write(packet[..], accepted);
      WireMoves(s.logs, After(s, Step.Greet(h, padding, accepted)).logs, links, h, o);
      return ok;
    }

    /** One turn of the data loop: the endpoint handles what a Read has brought. */
    method DataTurn(session: ClientSession, endpoint: Endpoint, data: seq<byte>, accepted: bool,
                    ghost s: Sessions.State, ghost links: map<nat, Link>, ghost h: nat)
      returns (bye: bool)
      requires Shows(s, links) && In(s, h, Registered(session.id, session.assignedIP, Written))
      requires h in links && links[h] == Link(session.conn, session.crypto)
      requires endpoint.conn == session.conn && endpoint.session == session.crypto
      requires endpoint.sessionID == session.id && endpoint.answersKeepAlive
      modifies endpoint`tun, session.conn`outgoing, session.crypto`recvNonce
      ensures var r := Receive(suite, session.crypto.recvKey, data);
              && bye == r.Bye?
              && endpoint.tun == (if endpoint.hasDevice && r.Plaintext? then old(endpoint.tun) + [r.p]
                                  else old(endpoint.tun))
              && Shows(if r.Ping? then After(s, Step.Pong(h, accepted)) else s, links)
    {
      hide *;
      PongLogs(s, h, session, accepted);
      PartsAreShown(s, links);
      var r := HandleOn(session, endpoint, data, accepted, s.logs, links, h);
      if r.Ping? {
        WiresMoved(s, After(s, Step.Pong(h, accepted)), links);
      } else {
        WiresMoved(s, s, links);
      }
      return r.Bye?;
    }

    /** What the turn does to the connections. */
    method HandleOn(session: ClientSession, endpoint: Endpoint, data: seq<byte>, accepted: bool,
                    ghost logs: map<nat, seq<Output>>, ghost links: map<nat, Link>, ghost h: nat)
      returns (r: Reception)
      requires WiresShow(logs, links) && h in links && links[h] == Link(session.conn, session.crypto)
      requires endpoint.conn == session.conn && endpoint.session == session.crypto
      requires endpoint.sessionID == session.id && endpoint.answersKeepAlive
      modifies endpoint`tun, session.conn`outgoing, session.crypto`recvNonce
      ensures r == Receive(suite, session.crypto.recvKey, data)
      ensures endpoint.tun == (if endpoint.hasDevice && r.Plaintext? then old(endpoint.tun) + [r.p]
                               else old(endpoint.tun))
      ensures WiresShow(if r.Ping? then Log(logs, h, Carry(session.id, KeepAlive(accepted))) else logs, links)
    {
      hide Receive, WiresShow, TalkShows;
      ghost var o := Carry(session.id, KeepAlive(accepted));
      WireCarries(suite, session.crypto.sendKey, keyPair.publicKey, LogOf(logs, h), session.id, KeepAlive(accepted));
      OthersTalk(logs, links, h);
      r := endpoint.Handle(data, accepted);
      if r.Ping? {
        WireMoves(logs, Log(logs, h, o), links, h, o);
      } else {
        WireRests(logs, links, h);
      }
    }

    lemma PongLogs(s: Sessions.State, h: nat, session: ClientSession, accepted: bool)
      requires In(s, h, Registered(session.id, session.assignedIP, Written))
      ensures Enabled(s, Step.Pong(h, accepted))
      ensures var t := After(s, Step.Pong(h, accepted));
              && t.pool == s.pool && t.sessions == s.sessions
              && t.logs == Log(s.logs, h, Carry(session.id, KeepAlive(accepted)))
    {
    }

    lemma PartsAreShown(s: Sessions.State, links: map<nat, Link>)
      requires Shows(s, links)
      ensures ipPool.Valid() && ipPool.State() == s.pool && TableShows(s.sessions, links) && WiresShow(s.logs, links)
    {
    }

    method Unregister(session: ClientSession, ghost s: Sessions.State, ghost links: map<nat, Link>, ghost h: nat)
      requires Shows(s, links) && Enabled(s, Step.Unregister(h)) && s.handlers[h].id == session.id
      modifies this`sessions
      ensures sessions == old(sessions) - {session.id}
      ensures Shows(After(s, Step.Unregister(h)), links)
    {
      sessions := sessions - {session.id};
    }

    method Release(session: ClientSession, ghost s: Sessions.State, ghost links: map<nat, Link>, ghost h: nat)
      requires Shows(s, links) && Enabled(s, Step.Release(h)) && s.handlers[h].ip == session.assignedIP
      modifies ipPool
      ensures Shows(After(s, Step.Release(h)), links)
    {
      ipPool.Release(session.assignedIP);
    }

    /** The deferred clean-up of a handler: first the entry under its identifier, then its address. */
    method Close(session: ClientSession, ghost s: Sessions.State, ghost links: map<nat, Link>, ghost h: nat)
      requires Shows(s, links) && Enabled(s, Step.Unregister(h))
      requires s.handlers[h].id == session.id && s.handlers[h].ip == session.assignedIP
      modifies this`sessions, ipPool
      ensures sessions == old(sessions) - {session.id}
      ensures Shows(After(After(s, Step.Unregister(h)), Step.Release(h)), links)
    {
      Unregister(session, s, links, h);
      Release(session, After(s, Step.Unregister(h)), links, h);
    }

    /** From the session keys to the data loop, undisturbed. drawn is the random session identifier. The
        result is null when the handler ends early; if only the reply could not be written, the handler's
        deferred clean-up has run. */
    method Admit(conn: WebSocketConnection, crypto: Session, drawn: u64, padding: Bytes32, accepted: bool,
                 ghost s: Sessions.State, ghost links: map<nat, Link>, ghost h: nat)
      returns (session: ClientSession?)
      requires Shows(s, links) && In(s, h, Handshaking) && s.router.Idle?
      requires h in links && links[h] == Link(conn, crypto)
      modifies this`sessions, ipPool, conn`outgoing
      ensures session != null <==> Granted(s.pool).Some? && accepted
      ensures session != null ==> fresh(session) && sessions == old(sessions)[drawn := session]
      ensures session == null ==> sessions == if Granted(s.pool).None? then old(sessions) else old(sessions) - {drawn}
      ensures Shows(AfterAdmit(s, h, drawn, padding, accepted), links)
    {
      hide *;
      PoolIsSound(s, links);
      AdmitGoesThrough(s, h, drawn, padding, accepted);
      var clientIP := TakeAddress(drawn, s, links, h);
      if clientIP.None? {
        return null;
      }
      ghost var a := After(s, Allocate(h, drawn));
      var made := Register(conn, crypto, drawn, clientIP.value, a, links, h);
      ghost var r := After(a, Step.Register(h));
      var sent := Greet(made, padding, accepted, r, links, h);
      if !sent {
        Close(made, After(r, Step.Greet(h, padding, accepted)), links, h);
        assert old(sessions)[drawn := made] - {drawn} == old(sessions) - {drawn};
        return null;
      }
      return made;
    }

    lemma PoolIsSound(s: Sessions.State, links: map<nat, Link>)
      requires Shows(s, links)
      ensures Sound(s.pool)
    {
    }

    // ---------- The router ----------

    /** The scan's treatment of one session; done says that the scan is over. */
    method Serve(session: ClientSession, frame: Frame, destIP: seq<byte>, entropy: Option<Tail>, accepted: bool)
      returns (done: bool)
      requires |frame| >= IP_HEADER && destIP == frame[16..20]
      modifies session.crypto`sendNonce, session.conn`outgoing
      ensures done == (AddressedTo(frame, session.assignedIP) && entropy.Some?)
      ensures var e := Data(frame, entropy, accepted);
              if AddressedTo(frame, session.assignedIP) then
                && session.conn.outgoing == old(session.conn.outgoing) + Sent(session.crypto.suite,
                     session.crypto.sendKey, session.id, old(session.crypto.sendNonce), [e])
                && session.crypto.sendNonce == CounterAfter(old(session.crypto.sendNonce), e)
              else
                && session.conn.outgoing == old(session.conn.outgoing)
                && session.crypto.sendNonce == old(session.crypto.sendNonce)
    {
      AddressedToIff(frame, session.assignedIP);
      if BigEndian(session.assignedIP, 4) == destIP {
        var ciphertext := session.crypto.Encrypt(frame, entropy);
        if ciphertext.None? {
          return false;
        }
        var packet := Marshal(NewPacket(DATA, session.id, ciphertext.value));
        var _, _ := session.conn.Write(packet[..], accepted);
        return true;
      }
      return false;
    }

    /** What the next visit of a scan does to the connections; h owns the session. */
    method Visit(session: ClientSession, frame: Frame, destIP: seq<byte>, entropy: Option<Tail>, accepted: bool,
                 ghost logs: map<nat, seq<Output>>, ghost links: map<nat, Link>, ghost h: nat)
      returns (done: bool)
      requires |frame| >= IP_HEADER && destIP == frame[16..20]
      requires WiresShow(logs, links) && h in links && links[h] == Link(session.conn, session.crypto)
      modifies session.crypto`sendNonce, session.conn`outgoing
      ensures done == (AddressedTo(frame, session.assignedIP) && entropy.Some?)
      ensures WiresShow(LogsAfterVisit(logs, frame, session.id, session.assignedIP, h, entropy, accepted), links)
    {
      hide WiresShow, TalkShows;
      ghost var o := Carry(session.id, Data(frame, entropy, accepted));
      WireTakes(suite, session.crypto.sendKey, keyPair.publicKey, LogOf(logs, h), o);
      OthersTalk(logs, links, h);
      done := Serve(session, frame, destIP, entropy, accepted);
      if AddressedTo(frame, session.assignedIP) {
        WireMoves(logs, Log(logs, h, o), links, h, o);
      } else {
        WireRests(logs, links, h);
      }
    }

    /** The k-th visit of a scan. */
    method VisitAt(r: Routing, destIP: seq<byte>, k: nat, ghost t: Sessions.State, ghost links: map<nat, Link>)
      returns (done: bool)
      requires Shows(t, links) && ScanAt(t, r, k) && k < |r.order| && r.order[k] in sessions
      requires |r.frame| >= IP_HEADER && destIP == r.frame[16..20]
      modifies sessions[r.order[k]].conn`outgoing, sessions[r.order[k]].crypto`sendNonce
      ensures Enabled(t, NextVisit(r, k)) && Shows(After(t, NextVisit(r, k)), links)
      ensures var u := After(t, NextVisit(r, k));
              && u.sessions == t.sessions && u.router.Scanning? && (forall x | x in u.router.todo :: x in u.sessions)
              && AfterScan(u, r) == AfterScan(t, r)
              && if done then AfterScan(u, r) == u.(router := Idle) else ScanAt(u, r, k + 1)
    {
      hide *;
      var id := r.order[k];
      ScanTurn(t, r, k);
      EntryIsShown(t, links, id);
      done := Visit(sessions[id], r.frame, destIP, r.entropy(id), r.accepted(id), t.logs, links, t.sessions[id].owner);
      WiresMoved(t, After(t, NextVisit(r, k)), links);
    }

    /** The router's treatment of one frame: the steps of a scan. */
    method Dispatch(r: Routing, ghost s: Sessions.State, ghost links: map<nat, Link>)
      requires Shows(s, links) && s.router.Idle? && Lists(r.order, sessions.Keys)
      modifies set id | id in sessions :: sessions[id].conn
      modifies set id | id in sessions :: sessions[id].crypto
      ensures Shows(AfterRouting(s, r), links)
    {
      if |r.frame| < IP_HEADER {
        return;
      }
      hide *;
      var destIP := r.frame[16..20];
      PartsAreShown(s, links);
      TableIsShown(s, links, r);
      ScanBegins(s, r);
      ghost var t := After(s, BeginScan(r.frame, r.order));
      WiresMoved(s, t, links);
      for k := 0 to |r.order|
        invariant Shows(t, links)
        invariant ScanAt(t, r, k) && t.sessions == s.sessions
        invariant AfterScan(t, r) == AfterRouting(s, r)
      {
        ScanTurn(t, r, k);
        assert r.order[k] in r.order;
        var done := VisitAt(r, destIP, k, t, links);
        t := After(t, NextVisit(r, k));
        if done {
          ScanIsOver(t, AfterScan(t, r), links);
          return;
        }
      }
      ScanEnds(t, r);
      ScanIsOver(t, AfterScan(t, r), links);
    }

    /** The router's loop over the frames read from the TUN device, while no handler enters or leaves the
        map. Whatever the visiting orders, each session's connection is handed the frames for its address, in
        order; and the client that holds the key gets exactly those that were sealed and accepted. */
    method TunReadLoop(rs: seq<Routing>, ghost s: Sessions.State, ghost links: map<nat, Link>)
      requires Shows(s, links) && Inv(s) && s.router.Idle? && forall r | r in rs :: Lists(r.order, sessions.Keys)
      modifies set id | id in sessions :: sessions[id].conn
      modifies set id | id in sessions :: sessions[id].crypto
      ensures (forall r | r in rs :: Lists(r.order, s.sessions.Keys)) && Shows(AfterRoutings(s, rs), links)
      ensures forall id | id in sessions ::
                var session, events := sessions[id], EventsFor(id, sessions[id].assignedIP, rs);
                var counter := old(sessions[id].crypto.sendNonce);
                && session.conn.outgoing
                   == old(sessions[id].conn.outgoing) + Sent(suite, session.crypto.sendKey, id, counter, events)
                && session.crypto.sendNonce == CounterAfterAll(counter, events)
      ensures Lawful(suite) ==> forall id | id in sessions ::
                var session, before := sessions[id], old(sessions[id].conn.outgoing);
                before <= session.conn.outgoing
                && Arriving(suite, session.crypto.sendKey, session.conn.outgoing[|before|..])
                   == FramesFor(id, session.assignedIP, rs)
    {
      hide *;
      AllListed(s, links, rs);
      forall id | id in sessions
        ensures id in s.sessions
        ensures sessions[id].conn.outgoing == SaidTo(sessions[id], s, id)
        ensures sessions[id].crypto.sendNonce == CounterOf(s, id)
      {
        SessionIsShown(s, links, id);
      }
      ghost var t := s;
      for k := 0 to |rs|
        invariant Shows(t, links) && t.router.Idle? && t.sessions == s.sessions
        invariant forall r | r in rs[k..] :: Lists(r.order, t.sessions.Keys)
        invariant AfterRoutings(t, rs[k..]) == AfterRoutings(s, rs)
      {
        assert rs[k..][0] == rs[k] && rs[k..][1..] == rs[k + 1..];
        RoutingsTurn(t, rs[k..]);
        Dispatch(rs[k], t, links);
        t := AfterRouting(t, rs[k]);
      }
      assert rs[|rs|..] == [];
      RoutingsEnd(t);
      forall id | id in sessions
        ensures SaidTo(sessions[id], t, id) == sessions[id].conn.outgoing
        ensures CounterOf(t, id) == sessions[id].crypto.sendNonce
        ensures var ip := sessions[id].assignedIP;
                var key, counter, events := sessions[id].crypto.sendKey, CounterOf(s, id), EventsFor(id, ip, rs);
                && SaidTo(sessions[id], t, id) == SaidTo(sessions[id], s, id) + Sent(suite, key, id, counter, events)
                && CounterOf(t, id) == CounterAfterAll(counter, events)
                && (Lawful(suite) ==>
                      Arriving(suite, key, Sent(suite, key, id, counter, events)) == FramesFor(id, ip, rs))
      {
        SessionIsShown(t, links, id);
        RoutingsSay(s, rs, id, sessions[id]);
      }
    }

    /** What a connection carries by the state's log of the session id. */
    function SaidTo(session: ClientSession, s: Sessions.State, id: u64): seq<seq<byte>>
      requires id in s.sessions
    {
      OnWire(suite, session.crypto.sendKey, keyPair.publicKey, 0, LogOf(s.logs, s.sessions[id].owner))
    }

    lemma SessionIsShown(s: Sessions.State, links: map<nat, Link>, id: u64)
      requires Shows(s, links) && id in sessions
      ensures id in s.sessions && sessions[id].assignedIP == s.sessions[id].ip
      ensures sessions[id].conn.outgoing == SaidTo(sessions[id], s, id)
      ensures sessions[id].crypto.sendNonce == CounterOf(s, id)
    {
      var entry := s.sessions[id];
      assert EntryShows(sessions[id], entry, links);
      assert TalkShows(links[entry.owner], LogOf(s.logs, entry.owner));
    }

    lemma AllListed(s: Sessions.State, links: map<nat, Link>, rs: seq<Routing>)
      requires Shows(s, links) && forall r | r in rs :: Lists(r.order, sessions.Keys)
      ensures sessions.Keys == s.sessions.Keys && forall r | r in rs :: Lists(r.order, s.sessions.Keys)
    {
    }

    /** What a run of routed frames adds to a connection, and what comes out at its other end. */
    lemma RoutingsSay(s: Sessions.State, rs: seq<Routing>, id: u64, session: ClientSession)
      requires Inv(s) && s.router.Idle? && forall r | r in rs :: Lists(r.order, s.sessions.Keys)
      requires id in s.sessions && s.sessions[id].ip == session.assignedIP
      ensures var t, ip := AfterRoutings(s, rs), session.assignedIP;
              var key, counter, events := session.crypto.sendKey, CounterOf(s, id), EventsFor(id, ip, rs);
              && SaidTo(session, t, id) == SaidTo(session, s, id) + Sent(suite, key, id, counter, events)
              && CounterOf(t, id) == CounterAfterAll(counter, events)
              && (Lawful(suite) ==>
                    Arriving(suite, key, Sent(suite, key, id, counter, events)) == FramesFor(id, ip, rs))
    {
      hide Inv, Lists, AfterRoutings, Arriving, Sent, OnWire, CounterAfterLog, FramesFor, Lawful;
      var key, events := session.crypto.sendKey, EventsFor(id, session.assignedIP, rs);
      var log := LogOf(s.logs, s.sessions[id].owner);
      RoutingsWrite(s, rs, id);
      WireGrows(suite, key, keyPair.publicKey, log, id, events);
      if Lawful(suite) {
        RoutedFramesArrive(suite, key, id, CounterOf(s, id), session.assignedIP, rs);
      }
    }

    lemma TableIsShown(s: Sessions.State, links: map<nat, Link>, r: Routing)
      requires Shows(s, links) && Lists(r.order, sessions.Keys)
      ensures Lists(r.order, s.sessions.Keys) && forall id | id in r.order :: id in sessions
    {
    }

    lemma ScanIsOver(s: Sessions.State, t: Sessions.State, links: map<nat, Link>)
      requires Shows(s, links) && t == s.(router := Idle)
      ensures Shows(t, links)
    {
    }

    lemma EntryIsShown(s: Sessions.State, links: map<nat, Link>, id: u64)
      requires Shows(s, links) && id in sessions
      ensures WiresShow(s.logs, links) && id in s.sessions
      ensures EntryShows(sessions[id], s.sessions[id], links)
      ensures sessions[id].id == s.sessions[id].id && sessions[id].assignedIP == s.sessions[id].ip
      ensures var h := s.sessions[id].owner; h in links && links[h] == Link(sessions[id].conn, sessions[id].crypto)
      ensures ipPool.Valid() && ipPool.State() == s.pool && TableShows(s.sessions, links)
    {
    }

    lemma WiresMoved(s: Sessions.State, t: Sessions.State, links: map<nat, Link>)
      requires ipPool.Valid() && ipPool.State() == s.pool && TableShows(s.sessions, links)
      requires t.pool == s.pool && t.sessions == s.sessions && WiresShow(t.logs, links)
      ensures Shows(t, links)
    {
    }
  }

  // ---------- Undisturbed sequences of steps ----------

  ghost function AfterAdmit(s: Sessions.State, h: nat, drawn: u64, padding: Bytes32, accepted: bool): Sessions.State
    requires Sound(s.pool) && In(s, h, Handshaking) && s.router.Idle?
  {
    var a := After(s, Allocate(h, drawn));
    if Granted(s.pool).None? then a else
      var g := After(After(a, Register(h)), Greet(h, padding, accepted));
      if accepted then g else After(After(g, Unregister(h)), Release(h))
  }

  lemma AdmitGoesThrough(s: Sessions.State, h: nat, drawn: u64, padding: Bytes32, accepted: bool)
    requires Sound(s.pool) && In(s, h, Handshaking) && s.router.Idle?
    ensures Enabled(s, Allocate(h, drawn))
    ensures var a, ip := After(s, Allocate(h, drawn)), Granted(s.pool);
            if ip.None? then AfterAdmit(s, h, drawn, padding, accepted) == a
            else
              && a.router.Idle? && In(a, h, Allocated(drawn, ip.value)) && Enabled(a, Register(h))
              && var r := After(a, Register(h));
                 && In(r, h, Registered(drawn, ip.value, Owed)) && Enabled(r, Greet(h, padding, accepted))
                 && var g := After(r, Greet(h, padding, accepted));
                    if accepted then AfterAdmit(s, h, drawn, padding, accepted) == g
                    else
                      && Enabled(g, Unregister(h)) && h in g.handlers && !g.handlers[h].Handshaking?
                      && !g.handlers[h].Ended? && g.handlers[h].id == drawn && g.handlers[h].ip == ip.value
                      && Enabled(After(g, Unregister(h)), Release(h))
                      && AfterAdmit(s, h, drawn, padding, accepted) == After(After(g, Unregister(h)), Release(h))
  {
  }

  /** The rest of a scan. */
  ghost function AfterScan(s: Sessions.State, r: Routing): (t: Sessions.State)
    requires s.router.Scanning? && forall id | id in s.router.todo :: id in s.sessions
    ensures t == s.(router := Idle, logs := t.logs)
    decreases if s.router.Scanning? then |s.router.todo| else 0
  {
    if s.router.todo == [] then After(s, EndScan)
    else
      var id := s.router.todo[0];
      AfterScan(After(s, VisitNext(r.entropy(id), r.accepted(id))), r)
  }

  /** order lists the identifiers in the map, each once. */
  ghost predicate Lists(order: seq<u64>, ids: set<u64>) {
    Distinct(order) && forall id :: id in order <==> id in ids
  }

  /** Every map can be visited in some order. */
  lemma {:induction false} SomeOrderLists(ids: set<u64>) returns (order: seq<u64>)
    ensures Lists(order, ids)
    decreases ids
  {
    if ids == {} {
      order := [];
    } else {
      var id :| id in ids;
      var rest := SomeOrderLists(ids - {id});
      order := [id] + rest;
      assert forall x :: x in order <==> x == id || x in rest;
    }
  }

  /** One frame: too short a one is dropped before the map is scanned. */
  ghost function AfterRouting(s: Sessions.State, r: Routing): (t: Sessions.State)
    requires s.router.Idle? && Lists(r.order, s.sessions.Keys)
    ensures t == s.(logs := t.logs)
  {
    if |r.frame| < IP_HEADER then s else AfterScan(After(s, BeginScan(r.frame, r.order)), r)
  }

  ghost function AfterRoutings(s: Sessions.State, rs: seq<Routing>): (t: Sessions.State)
    requires s.router.Idle? && forall r | r in rs :: Lists(r.order, s.sessions.Keys)
    ensures t == s.(logs := t.logs)
    decreases |rs|
  {
    if rs == [] then s else AfterRoutings(AfterRouting(s, rs[0]), rs[1..])
  }

  function LogsAfterVisit(logs: map<nat, seq<Output>>, frame: Frame, id: u64, ip: u32, h: nat,
                          entropy: Option<Tail>, accepted: bool): map<nat, seq<Output>>
  {
    if AddressedTo(frame, ip) then Log(logs, h, Carry(id, Data(frame, entropy, accepted))) else logs
  }

  /** A scan for a frame that has visited k entries and found nothing to send. */
  ghost predicate ScanAt(t: Sessions.State, r: Routing, k: nat) {
    && k <= |r.order| && Lists(r.order, t.sessions.Keys)
    && t.router.Scanning? && t.router.frame == r.frame && t.router.todo == r.order[k..]
    && AddressedTo(r.frame, t.router.dest)
  }

  lemma ScanBegins(s: Sessions.State, r: Routing)
    requires s.router.Idle? && Lists(r.order, s.sessions.Keys) && |r.frame| >= IP_HEADER
    ensures Enabled(s, BeginScan(r.frame, r.order))
    ensures var t := After(s, BeginScan(r.frame, r.order));
            && ScanAt(t, r, 0) && t.pool == s.pool && t.sessions == s.sessions && t.logs == s.logs
            && (forall id | id in t.router.todo :: id in t.sessions) && AfterScan(t, r) == AfterRouting(s, r)
  {
  }

  function NextVisit(r: Routing, k: nat): Step
    requires k < |r.order|
  {
    VisitNext(r.entropy(r.order[k]), r.accepted(r.order[k]))
  }

  lemma ScanTurn(t: Sessions.State, r: Routing, k: nat)
    requires ScanAt(t, r, k) && k < |r.order|
    ensures r.order[k] in t.sessions && forall id | id in t.router.todo :: id in t.sessions
    ensures var id := r.order[k];
            var entry, step := t.sessions[id], NextVisit(r, k);
            && Enabled(t, step)
            && var u := After(t, step);
               && u.pool == t.pool && u.sessions == t.sessions
               && u.logs == LogsAfterVisit(
                    t.logs, r.frame, entry.id, entry.ip, entry.owner, r.entropy(id), r.accepted(id))
               && u.router.Scanning? && (forall x | x in u.router.todo :: x in u.sessions)
               && AfterScan(u, r) == AfterScan(t, r)
               && if AddressedTo(r.frame, entry.ip) && r.entropy(id).Some?
                  then AfterScan(u, r) == u.(router := Idle)
                  else ScanAt(u, r, k + 1)
  {
  }

  lemma ScanEnds(t: Sessions.State, r: Routing)
    requires ScanAt(t, r, |r.order|)
    ensures (forall id | id in t.router.todo :: id in t.sessions) && AfterScan(t, r) == t.(router := Idle)
  {
  }

  // ---------- What routing writes ----------

  /** What a run of routed frames puts on the connection of the session id with that address. */
  function EventsFor(id: u64, ip: u32, rs: seq<Routing>): seq<Event> {
    if rs == [] then []
    else if AddressedTo(rs[0].frame, ip) then
      [Data(rs[0].frame, rs[0].entropy(id), rs[0].accepted(id))] + EventsFor(id, ip, rs[1..])
    else EventsFor(id, ip, rs[1..])
  }

  function CarryAll(id: u64, events: seq<Event>): (r: seq<Output>)
    ensures AllCarry(r, id)
  {
    seq(|events|, i requires 0 <= i < |events| => Carry(id, events[i]))
  }

  /** Distinct entries have distinct addresses and distinct owners. */
  lemma EntriesApart(s: Sessions.State, i: u64, j: u64)
    requires Inv(s) && i in s.sessions && j in s.sessions && i != j
    ensures s.sessions[i].ip != s.sessions[j].ip && s.sessions[i].owner != s.sessions[j].owner
  {
    assert Matches(s.sessions, i, s.sessions[i].ip);
    if s.sessions[i].ip == s.sessions[j].ip {
      AddressesIdentifySessions(s, i, j, s.sessions[i].ip);
    }
  }

  /** What the rest of a scan hands to the session id: the frame if it is still to come and the addressee. */
  function Pending(todo: seq<u64>, r: Routing, id: u64, ip: u32): seq<Output> {
    if id in todo then CarryAll(id, EventsFor(id, ip, [r])) else []
  }

  lemma OneEvent(id: u64, ip: u32, r: Routing)
    ensures CarryAll(id, EventsFor(id, ip, [r]))
         == if AddressedTo(r.frame, ip) then [Carry(id, Data(r.frame, r.entropy(id), r.accepted(id)))] else []
  {
    assert [r][1..] == [];
  }

  lemma VisitWrites(s: Sessions.State, r: Routing, x: u64, id: u64)
    requires Inv(s) && s.router.Scanning? && s.router.frame == r.frame && id in s.sessions
    requires s.router.todo != [] && s.router.todo[0] == x && x in s.sessions
    ensures var u := After(s, VisitNext(r.entropy(x), r.accepted(x)));
            var h, ip := s.sessions[id].owner, s.sessions[id].ip;
            && u.router.Scanning?
            && LogOf(u.logs, h) + Pending(u.router.todo, r, id, ip)
               == LogOf(s.logs, h) + Pending(s.router.todo, r, id, ip)
  {
    var rest, ip := s.router.todo[1..], s.sessions[id].ip;
    OneEvent(id, ip, r);
    assert forall y :: y in s.router.todo <==> y == x || y in rest;
    if x != id {
      EntriesApart(s, x, id);
    }
  }

  /** In whatever order the rest of a scan visits the map, the addressee is handed the frame if it is still
      to come, and no other session is handed anything. */
  lemma {:induction false} ScanWrites(s: Sessions.State, r: Routing, id: u64)
    requires Inv(s) && s.router.Scanning? && s.router.frame == r.frame && id in s.sessions
    ensures (forall x | x in s.router.todo :: x in s.sessions) && Inv(AfterScan(s, r))
    ensures var h := s.sessions[id].owner;
            LogOf(AfterScan(s, r).logs, h)
            == LogOf(s.logs, h) + Pending(s.router.todo, r, id, s.sessions[id].ip)
    decreases if s.router.Scanning? then |s.router.todo| else 0
  {
    hide UsedIsHeld, EntriesAreLive, Pending, EventsFor, PassedBy, Sound;
    if s.router.todo == [] {
      StepKeepsInv(s, EndScan);
      assert Pending([], r, id, s.sessions[id].ip) == [] by { NonePending(r, id, s.sessions[id].ip); }
    } else {
      var x := s.router.todo[0];
      StepKeepsInv(s, VisitNext(r.entropy(x), r.accepted(x)));
      VisitWrites(s, r, x, id);
      ScanWrites(After(s, VisitNext(r.entropy(x), r.accepted(x))), r, id);
    }
  }

  lemma NonePending(r: Routing, id: u64, ip: u32)
    ensures Pending([], r, id, ip) == []
  {
  }

  lemma RoutingWrites(s: Sessions.State, r: Routing, id: u64)
    requires Inv(s) && s.router.Idle? && Lists(r.order, s.sessions.Keys) && id in s.sessions
    ensures Inv(AfterRouting(s, r))
    ensures var h := s.sessions[id].owner;
            LogOf(AfterRouting(s, r).logs, h) == LogOf(s.logs, h) + CarryAll(id, EventsFor(id, s.sessions[id].ip, [r]))
  {
    hide UsedIsHeld, EntriesAreLive, PassedBy, Sound;
    OneEvent(id, s.sessions[id].ip, r);
    if |r.frame| >= IP_HEADER {
      StepKeepsInv(s, BeginScan(r.frame, r.order));
      ScanWrites(After(s, BeginScan(r.frame, r.order)), r, id);
    }
  }

  lemma EventsForCons(id: u64, ip: u32, r: Routing, rest: seq<Routing>)
    ensures EventsFor(id, ip, [r] + rest) == EventsFor(id, ip, [r]) + EventsFor(id, ip, rest)
  {
    assert ([r] + rest)[1..] == rest && [r][1..] == [];
  }

  lemma CarryAllAppend(id: u64, a: seq<Event>, b: seq<Event>)
    ensures CarryAll(id, a + b) == CarryAll(id, a) + CarryAll(id, b)
  {
  }

  /** A run of routed frames hands each session the frames for its address, in order, and nothing else. */
  lemma {:induction false} RoutingsWrite(s: Sessions.State, rs: seq<Routing>, id: u64)
    requires Inv(s) && s.router.Idle? && id in s.sessions && forall r | r in rs :: Lists(r.order, s.sessions.Keys)
    ensures Inv(AfterRoutings(s, rs))
    ensures var h := s.sessions[id].owner;
            LogOf(AfterRoutings(s, rs).logs, h)
            == LogOf(s.logs, h) + CarryAll(id, EventsFor(id, s.sessions[id].ip, rs))
    decreases |rs|
  {
    hide Inv, Lists, AddressedTo, LogOf, AfterRouting;
    var ip := s.sessions[id].ip;
    if rs != [] {
      var r, rest := rs[0], rs[1..];
      assert rs == [r] + rest;
      RoutingWrites(s, r, id);
      RoutingsWrite(AfterRouting(s, r), rest, id);
      EventsForCons(id, ip, r, rest);
      CarryAllAppend(id, EventsFor(id, ip, [r]), EventsFor(id, ip, rest));
    }
  }

  lemma RoutingsTurn(t: Sessions.State, rs: seq<Routing>)
    requires t.router.Idle? && rs != [] && forall r | r in rs :: Lists(r.order, t.sessions.Keys)
    ensures Lists(rs[0].order, t.sessions.Keys)
    ensures var u := AfterRouting(t, rs[0]);
            && u.router.Idle? && u.sessions == t.sessions
            && (forall r | r in rs[1..] :: Lists(r.order, u.sessions.Keys))
            && AfterRoutings(u, rs[1..]) == AfterRoutings(t, rs)
  {
  }

  lemma RoutingsEnd(t: Sessions.State)
    requires t.router.Idle?
    ensures AfterRoutings(t, []) == t
  {
  }

  function CounterOf(s: Sessions.State, id: u64): u64
    requires id in s.sessions
  {
    CounterAfterLog(0, LogOf(s.logs, s.sessions[id].owner))
  }

  lemma {:induction false} EventsOfCarryAll(id: u64, events: seq<Event>)
    ensures Events(CarryAll(id, events)) == events
    decreases |events|
  {
    if events != [] {
      assert CarryAll(id, events)[1..] == CarryAll(id, events[1..]);
      EventsOfCarryAll(id, events[1..]);
    }
  }

  lemma WireGrows(suite: Suite, key: Bytes32, publicKey: Bytes32, log: seq<Output>, id: u64, events: seq<Event>)
    ensures var counter := CounterAfterLog(0, log);
            && OnWire(suite, key, publicKey, 0, log + CarryAll(id, events))
               == OnWire(suite, key, publicKey, 0, log) + Sent(suite, key, id, counter, events)
            && CounterAfterLog(0, log + CarryAll(id, events)) == CounterAfterAll(counter, events)
  {
    OnWireAppend(suite, key, publicKey, 0, log, CarryAll(id, events));
    CarriedIsSent(suite, key, publicKey, CounterAfterLog(0, log), CarryAll(id, events), id);
    EventsOfCarryAll(id, events);
  }

  /** The routed frames for that address that could be sealed and sent. */
  function FramesFor(id: u64, ip: u32, rs: seq<Routing>): seq<seq<byte>> {
    if rs == [] then []
    else if AddressedTo(rs[0].frame, ip) && rs[0].entropy(id).Some? && rs[0].accepted(id) then
      [rs[0].frame] + FramesFor(id, ip, rs[1..])
    else FramesFor(id, ip, rs[1..])
  }

  lemma {:induction false} PayloadsFor(id: u64, ip: u32, rs: seq<Routing>)
    ensures Payloads(EventsFor(id, ip, rs)) == FramesFor(id, ip, rs)
    decreases |rs|
  {
    if rs != [] {
      PayloadsFor(id, ip, rs[1..]);
      if AddressedTo(rs[0].frame, ip) {
        var e, rest := Data(rs[0].frame, rs[0].entropy(id), rs[0].accepted(id)), EventsFor(id, ip, rs[1..]);
        assert ([e] + rest)[1..] == rest;
      }
    }
  }

  /** A client's TUN device gets exactly the frames read from the server's TUN device that carry the
      client's address as destination (and could be sealed and sent), in order and unchanged. */
  lemma RoutedFramesArrive(suite: Suite, key: Bytes32, id: u64, counter: u64, ip: u32, rs: seq<Routing>)
    requires Lawful(suite)
    ensures Arriving(suite, key, Sent(suite, key, id, counter, EventsFor(id, ip, rs))) == FramesFor(id, ip, rs)
  {
    FramesArrive(suite, key, id, counter, EventsFor(id, ip, rs));
    PayloadsFor(id, ip, rs);
  }

  /** One more output on a connection. */
  lemma WireTakes(suite: Suite, key: Bytes32, publicKey: Bytes32, log: seq<Output>, o: Output)
    ensures OnWire(suite, key, publicKey, 0, log + [o])
         == OnWire(suite, key, publicKey, 0, log) + PutOnWire(suite, key, publicKey, CounterAfterLog(0, log), o)
    ensures CounterAfterLog(0, log + [o]) == CounterAfterOutput(CounterAfterLog(0, log), o)
  {
    OnWireAppend(suite, key, publicKey, 0, log, [o]);
    var counter := CounterAfterLog(0, log);
    assert [o][1..] == [];
    assert OnWire(suite, key, publicKey, CounterAfterOutput(counter, o), []) == [];
  }

  lemma WireCarries(suite: Suite, key: Bytes32, publicKey: Bytes32, log: seq<Output>, id: u64, e: Event)
    ensures var counter := CounterAfterLog(0, log);
            var m := MessageOf(suite, key, id, counter, e);
            && OnWire(suite, key, publicKey, 0, log + [Carry(id, e)])
               == OnWire(suite, key, publicKey, 0, log) + (if m.Some? && e.accepted then [m.value] else [])
            && CounterAfterLog(0, log + [Carry(id, e)]) == CounterAfter(counter, e)
  {
    WireTakes(suite, key, publicKey, log, Carry(id, e));
    assert [e][1..] == [];
    assert Sent(suite, key, id, CounterAfter(CounterAfterLog(0, log), e), []) == [];
  }

  // ---------- The pool the server is built with ----------

  // net.ParseCIDR("10.8.0.0/24")
  const POOL_BASE: u32 := 0x0A08_0000
  const POOL_BITS: nat := 24

  /** The prefix in the reply is the pool's, and a pool with this prefix has 256 hosts. */
  lemma ReplyNamesPoolPrefix()
    ensures SUBNET_BITS as nat == POOL_BITS == 24 && POOL_BASE == 0x0A08_0000 && Size(POOL_BITS) == 256
    ensures Subnet(POOL_BASE, POOL_BITS)
  {
    assert Pow2(4) == 16 && Pow2(8) == 256;
  }

  /** The addresses it grants are 10.8.0.2 to 10.8.0.254, never the server's own, 10.8.0.1. */
  lemma GrantedIsNotServer(p: Pool)
    requires Sound(p) && p.base == 0x0A08_0000 && p.size == 256 && Granted(p).Some?
    ensures var address := BigEndian(Granted(p).value, 4);
            address[..3] == [10, 8, 0] && 2 <= address[3] <= 254
    ensures POOL_BASE + 2 <= Granted(p).value <= POOL_BASE + 254
    ensures BigEndian(Granted(p).value, 4) != SERVER_IP
  {
    NextHostFits(p);
    LastDigit(Granted(p).value);
    Pow256Values();
    BigEndianRoundTrip(Granted(p).value, 4);
    assert FromBigEndian([10]) == 10;
    assert FromBigEndian([10, 8]) == 10 * 256 + 8 by { assert [10 as byte, 8][..1] == [10]; }
    assert FromBigEndian([10, 8, 0]) == (10 * 256 + 8) * 256 by { assert [10 as byte, 8, 0][..2] == [10, 8]; }
    assert FromBigEndian(SERVER_IP) == POOL_BASE + 1 by { assert SERVER_IP[..3] == [10, 8, 0]; }
  }

  lemma LastDigit(v: u32)
    requires 0x0A08_0000 <= v < 0x0A08_0100
    ensures BigEndian(v, 4) == [10, 8, 0, (v - 0x0A08_0000) as byte]
  {
    assert v / 256 == 0x0A_0800 && v % 256 == v - 0x0A08_0000;
    assert BigEndian(v, 4) == BigEndian(0x0A_0800, 3) + [(v - 0x0A08_0000) as byte];
    assert BigEndian(0x0A_0800, 3) == BigEndian(0x0A08, 2) + [0];
    assert BigEndian(0x0A08, 2) == BigEndian(0x0A, 1) + [8];
    assert BigEndian(0x0A, 1) == [10];
  }
}
