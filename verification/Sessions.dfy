/** The server's session lifecycle: any number of connection handlers and the router, interleaved
    (handleConnection and tunReadLoop in pkg/server/server.go). Every step is one locked block. */
module Sessions {
  import opened Bytes
  import opened AddressPool
  import opened Tunnel
  import Crypto

  /** How far a handler has come. The identifier is drawn before the address is allocated, and the
      reply is written after the session has entered the map. */
  datatype Phase =
    | Handshaking
    | Allocated(id: u64, ip: u32)
    | Registered(id: u64, ip: u32, reply: ReplyState)
    | Unregistered(id: u64, ip: u32)
    | Ended

  datatype ReplyState = Owed | Written | Refused

  /** What has been handed to a connection: the handshake reply, or a message of the session id. */
  datatype Output =
    | Welcome(id: u64, ip: u32, padding: Bytes32, accepted: bool)
    | Carry(id: u64, event: Event)

  /** What the session map stores: the owner stands for the handler's connection and keys. */
  datatype ClientSession = ClientSession(id: u64, owner: nat, ip: u32)

  /** The router holds the read lock while it scans. sent lists the owners it has written to during
      the scan, and failed says that encrypting for a matching session failed. */
  datatype Router =
    | Idle
    | Scanning(frame: Frame, dest: u32, todo: seq<u64>, sent: seq<nat>, failed: bool)

  // The least IPv4 header, and the destination field in it (section 3.1 of RFC 791).
  const IP_HEADER: nat := 20

  function Destination(frame: seq<byte>): u32
    requires |frame| >= IP_HEADER
  {
    FromBigEndianRoundTrip(frame[16..20]);
    Pow256Values();
    FromBigEndian(frame[16..20])
  }

  predicate AddressedTo(frame: seq<byte>, ip: u32) {
    |frame| >= IP_HEADER && Destination(frame) == ip
  }

  /** A frame is addressed to ip if it has at least 20 bytes and bears ip, high byte first, in bytes 16 to 19. */
  lemma AddressedToIff(frame: seq<byte>, ip: u32)
    ensures AddressedTo(frame, ip) <==> |frame| >= 20 && frame[16..20] == BigEndian(ip, 4)
  {
    if |frame| >= 20 {
      Pow256Values();
      BigEndianRoundTrip(ip, 4);
      FromBigEndianRoundTrip(frame[16..20]);
    }
  }

  datatype State = State(
    pool: Pool,
    sessions: map<u64, ClientSession>,
    handlers: map<nat, Phase>,
    router: Router,
    logs: map<nat, seq<Output>>)

  datatype Step =
    | Accept(h: nat)
    | GiveUp(h: nat)
    | Allocate(h: nat, drawn: u64)
    | Register(h: nat)
    | Greet(h: nat, padding: Bytes32, accepted: bool)    // write the handshake reply
    | Pong(h: nat, accepted: bool)                       // answer a keep-alive
    | Unregister(h: nat)
    | Release(h: nat)
    | BeginScan(frame: Frame, order: seq<u64>)
    | VisitNext(entropy: Option<Crypto.Tail>, accepted: bool)
    | EndScan

  predicate Distinct<T(==)>(s: seq<T>) {
    forall i, j | 0 <= i < j < |s| :: s[i] != s[j]
  }

  predicate In(s: State, h: nat, phase: Phase) {
    h in s.handlers && s.handlers[h] == phase
  }

  predicate RegisteredAs(handlers: map<nat, Phase>, h: nat, id: u64, ip: u32) {
    h in handlers && handlers[h].Registered? && handlers[h].id == id && handlers[h].ip == ip
  }

  function LogOf(logs: map<nat, seq<Output>>, h: nat): seq<Output> {
    if h in logs then logs[h] else []
  }

  function Log(logs: map<nat, seq<Output>>, h: nat, o: Output): map<nat, seq<Output>> {
    logs[h := LogOf(logs, h) + [o]]
  }

  /** When a step can be taken. The guards that only make After well defined (a sound pool, a session
      still in the map) hold in every reachable state, as ServerGuarantees.NeverStuck says. */
  ghost predicate Enabled(s: State, step: Step) {
    match step
    case Accept(h) => h !in s.handlers
    case GiveUp(h) => In(s, h, Handshaking)
    case Allocate(h, _) => In(s, h, Handshaking) && Sound(s.pool)
    // the write lock waits for the router's read lock
    case Register(h) => h in s.handlers && s.handlers[h].Allocated? && s.router.Idle?
    case Greet(h, _, _) => h in s.handlers && s.handlers[h].Registered? && s.handlers[h].reply.Owed?
    case Pong(h, _) => h in s.handlers && s.handlers[h].Registered? && s.handlers[h].reply.Written?
    case Unregister(h) =>
      h in s.handlers && s.handlers[h].Registered? && !s.handlers[h].reply.Owed? && s.router.Idle?
    case Release(h) => h in s.handlers && s.handlers[h].Unregistered?
    // Go iterates over a map in any order
    case BeginScan(frame, order) =>
      && s.router.Idle? && |frame| >= IP_HEADER
      && Distinct(order) && forall id :: id in order <==> id in s.sessions
    case VisitNext(_, _) => s.router.Scanning? && s.router.todo != [] && s.router.todo[0] in s.sessions
    case EndScan => s.router.Scanning? && s.router.todo == []
  }

  function After(s: State, step: Step): State
    requires Enabled(s, step)
  {
    match step
    case Accept(h) => s.(handlers := s.handlers[h := Handshaking])
    case GiveUp(h) => s.(handlers := s.handlers[h := Ended])
    case Allocate(h, id) =>
      (match Granted(s.pool)
       case None => s.(handlers := s.handlers[h := Ended])
       case Some(ip) => s.(pool := AfterAllocate(s.pool), handlers := s.handlers[h := Allocated(id, ip)]))
    case Register(h) =>
      var p := s.handlers[h];
      s.(sessions := s.sessions[p.id := ClientSession(p.id, h, p.ip)],
         handlers := s.handlers[h := Registered(p.id, p.ip, Owed)])
    case Greet(h, padding, accepted) =>
      var p := s.handlers[h];
      s.(handlers := s.handlers[h := p.(reply := if accepted then Written else Refused)],
         logs := Log(s.logs, h, Welcome(p.id, p.ip, padding, accepted)))
    case Pong(h, accepted) => s.(logs := Log(s.logs, h, Carry(s.handlers[h].id, KeepAlive(accepted))))
    case Unregister(h) =>
      var p := s.handlers[h];
      s.(sessions := s.sessions - {p.id}, handlers := s.handlers[h := Unregistered(p.id, p.ip)])
    case Release(h) =>
      s.(pool := AfterRelease(s.pool, s.handlers[h].ip), handlers := s.handlers[h := Ended])
    case BeginScan(frame, order) => s.(router := Scanning(frame, Destination(frame), order, [], false))
    case VisitNext(entropy, accepted) =>
      var r := s.router;
      var session := s.sessions[r.todo[0]];
      if session.ip != r.dest then s.(router := r.(todo := r.todo[1..]))
      else
        s.(router := if entropy.None? then r.(todo := r.todo[1..], failed := true)
                     else r.(todo := [], sent := r.sent + [session.owner]),
           logs := Log(s.logs, session.owner, Carry(session.id, Data(r.frame, entropy, accepted))))
    case EndScan => s.(router := Idle)
  }

  function Initial(base: u32, ones: nat): State
    requires ones <= 32
  {
    State(Fresh(base, Size(ones)), map[], map[], Idle, map[])
  }

  /** states lists the server's states before, between and after the steps. */
  ghost predicate Run(states: seq<State>, steps: seq<Step>, base: u32, ones: nat) {
    && Subnet(base, ones)
    && |states| == |steps| + 1
    && states[0] == Initial(base, ones)
    && forall k | 0 <= k < |steps| :: Enabled(states[k], steps[k]) && states[k + 1] == After(states[k], steps[k])
  }

  lemma StepOfRun(states: seq<State>, steps: seq<Step>, base: u32, ones: nat, k: nat)
    requires Run(states, steps, base, ones) && k + 1 < |states|
    ensures |states| == |steps| + 1
    ensures Enabled(states[k], steps[k]) && states[k + 1] == After(states[k], steps[k])
  {
  }

  // ---------- The invariant ----------

  predicate Holding(handlers: map<nat, Phase>, h: nat) {
    h in handlers && (handlers[h].Allocated? || handlers[h].Registered? || handlers[h].Unregistered?)
  }

  predicate Holds(handlers: map<nat, Phase>, h: nat, ip: int) {
    Holding(handlers, h) && handlers[h].ip == ip
  }

  /** The used set is exactly the addresses held, and no two handlers hold the same one. */
  ghost predicate UsedIsHeld(used: set<u32>, handlers: map<nat, Phase>) {
    && (forall h, ip | Holds(handlers, h, ip) :: ip in used)
    && (forall ip | ip in used :: exists h :: Holds(handlers, h, ip))
    && (forall g, h, ip | Holds(handlers, g, ip) && Holds(handlers, h, ip) :: g == h)
  }

  /** Every entry of the session map belongs to a live handler and carries its address. */
  ghost predicate EntriesAreLive(sessions: map<u64, ClientSession>, handlers: map<nat, Phase>) {
    forall id | id in sessions ::
      && sessions[id].id == id
      && RegisteredAs(handlers, sessions[id].owner, id, sessions[id].ip)
  }

  /** id leads to a session with that address. */
  predicate Matches(sessions: map<u64, ClientSession>, id: u64, ip: u32) {
    id in sessions && sessions[id].ip == ip
  }

  /** Half-way through a scan: a packet has been sent at most once, to the owner of the address; an
      encryption failure is not followed by a send; and until either, every match is still to come. */
  ghost predicate ScanIsRight(sessions: map<u64, ClientSession>, r: Router) {
    r.Scanning? ==>
      && AddressedTo(r.frame, r.dest)
      && Distinct(r.todo)
      && (forall id | id in r.todo :: id in sessions)
      && (r.sent == [] && !r.failed ==> forall id | Matches(sessions, id, r.dest) :: id in r.todo)
      && (r.failed ==> r.sent == [] && PassedBy(sessions, r, false))
      && (r.sent != [] ==> !r.failed && PassedBy(sessions, r, true))
  }

  /** The scan has visited the matching session, and if it has written at all, only to its owner. */
  ghost predicate PassedBy(sessions: map<u64, ClientSession>, r: Router, wrote: bool)
    requires r.Scanning?
  {
    exists id :: && Matches(sessions, id, r.dest) && id !in r.todo
                 && (wrote ==> r.sent == [sessions[id].owner])
  }

  ghost predicate Inv(s: State) {
    && Sound(s.pool)
    && UsedIsHeld(s.pool.used, s.handlers)
    && EntriesAreLive(s.sessions, s.handlers)
    && ScanIsRight(s.sessions, s.router)
  }

  // ---------- Every step keeps it ----------

  lemma GrantIsHeld(used: set<u32>, handlers: map<nat, Phase>, h: nat, id: u64, ip: u32)
    requires UsedIsHeld(used, handlers) && !Holding(handlers, h) && ip !in used
    ensures UsedIsHeld(used + {ip}, handlers[h := Allocated(id, ip)])
  {
    var after := handlers[h := Allocated(id, ip)];
    assert Holds(after, h, ip);
    forall g: nat, a: int
      ensures Holds(after, g, a) <==> Holds(handlers, g, a) || (g == h && a == ip)
    {
    }
    StillHeld(used, handlers, after);
  }

  lemma StillHeld(used: set<u32>, handlers: map<nat, Phase>, after: map<nat, Phase>)
    requires forall ip | ip in used :: exists h :: Holds(handlers, h, ip)
    requires forall g, a | Holds(handlers, g, a) && a in used :: Holds(after, g, a)
    ensures forall ip | ip in used :: exists h :: Holds(after, h, ip)
  {
    forall ip | ip in used
      ensures exists h :: Holds(after, h, ip)
    {
      var h :| Holds(handlers, h, ip);
      assert Holds(after, h, ip);
    }
  }

  lemma ReleaseIsUnheld(used: set<u32>, handlers: map<nat, Phase>, h: nat)
    requires UsedIsHeld(used, handlers) && Holding(handlers, h)
    ensures UsedIsHeld(used - {handlers[h].ip}, handlers[h := Ended])
  {
    var after := handlers[h := Ended];
    assert Holds(handlers, h, handlers[h].ip);
    forall g: nat, a: int
      ensures Holds(after, g, a) <==> Holds(handlers, g, a) && g != h
    {
    }
    StillHeld(used - {handlers[h].ip}, handlers, after);
  }

  lemma SameHolders(used: set<u32>, handlers: map<nat, Phase>, h: nat, phase: Phase)
    requires UsedIsHeld(used, handlers)
    requires Holding(handlers, h) == Holding(handlers[h := phase], h)
    requires Holding(handlers, h) ==> phase.ip == handlers[h].ip
    ensures UsedIsHeld(used, handlers[h := phase])
  {
    var after := handlers[h := phase];
    forall g: nat, a: int
      ensures Holds(after, g, a) <==> Holds(handlers, g, a)
    {
    }
    StillHeld(used, handlers, after);
  }

  lemma EntriesStayLive(sessions: map<u64, ClientSession>, handlers: map<nat, Phase>, h: nat, phase: Phase)
    requires EntriesAreLive(sessions, handlers)
    requires h in handlers ==> !handlers[h].Registered?
    ensures EntriesAreLive(sessions, handlers[h := phase])
  {
  }

  lemma HandlerStepKeepsInv(s: State, step: Step)
    requires Inv(s) && Enabled(s, step) && (step.Accept? || step.GiveUp? || step.Allocate? || step.Release?)
    ensures Inv(After(s, step))
  {
    var h, t := step.h, After(s, step);
    var phase := t.handlers[h];
    EntriesStayLive(s.sessions, s.handlers, h, phase);
    if step.Allocate? && Granted(s.pool).Some? {
      AllocateKeepsSound(s.pool);
      NextHostFits(s.pool);
      GrantIsHeld(s.pool.used, s.handlers, h, step.drawn, Granted(s.pool).value);
    } else if step.Release? {
      ReleaseIsUnheld(s.pool.used, s.handlers, h);
    } else {
      AllocateKeepsSound(s.pool);
      SameHolders(s.pool.used, s.handlers, h, phase);
    }
  }

  lemma TableStepKeepsInv(s: State, step: Step)
    requires Inv(s) && Enabled(s, step) && (step.Register? || step.Unregister?)
    ensures Inv(After(s, step))
  {
    var h, t := step.h, After(s, step);
    SameHolders(s.pool.used, s.handlers, h, t.handlers[h]);
  }

  lemma TalkStepKeepsInv(s: State, step: Step)
    requires Inv(s) && Enabled(s, step) && (step.Greet? || step.Pong?)
    ensures Inv(After(s, step))
  {
    var h, t := step.h, After(s, step);
    SameHolders(s.pool.used, s.handlers, h, t.handlers[h]);
    assert s.handlers[h := s.handlers[h]] == s.handlers;
  }

  /** Distinct entries carry distinct addresses, whatever identifiers collided on the way. */
  lemma AddressesIdentifySessions(s: State, i: u64, j: u64, ip: u32)
    requires Inv(s) && Matches(s.sessions, i, ip) && Matches(s.sessions, j, ip)
    ensures i == j
  {
    assert Holds(s.handlers, s.sessions[i].owner, ip) && Holds(s.handlers, s.sessions[j].owner, ip);
  }

  lemma ScanStepKeepsInv(s: State, step: Step)
    requires Inv(s) && Enabled(s, step) && (step.BeginScan? || step.VisitNext? || step.EndScan?)
    ensures Inv(After(s, step))
  {
    if step.VisitNext? {
      forall i, j | Matches(s.sessions, i, s.router.dest) && Matches(s.sessions, j, s.router.dest)
        ensures i == j
      {
        AddressesIdentifySessions(s, i, j, s.router.dest);
      }
      VisitKeepsScanRight(s.sessions, s.router, After(s, step).router, step.entropy.Some?);
    }
  }

  lemma VisitKeepsScanRight(sessions: map<u64, ClientSession>, r: Router, after: Router, encrypts: bool)
    requires r.Scanning? && r.todo != [] && r.todo[0] in sessions && ScanIsRight(sessions, r)
    requires forall i, j | Matches(sessions, i, r.dest) && Matches(sessions, j, r.dest) :: i == j
    requires after == if !Matches(sessions, r.todo[0], r.dest) then r.(todo := r.todo[1..])
                      else if !encrypts then r.(todo := r.todo[1..], failed := true)
                      else r.(todo := [], sent := r.sent + [sessions[r.todo[0]].owner])
    ensures ScanIsRight(sessions, after)
  {
    var id, rest := r.todo[0], r.todo[1..];
    assert forall x :: x in r.todo <==> x == id || x in rest;
    assert id !in rest;
    assert Distinct(rest);
    if Matches(sessions, id, r.dest) {
      assert r.sent == [] && !r.failed;
      assert PassedBy(sessions, after, encrypts);
    } else if r.failed {
      var x :| Matches(sessions, x, r.dest) && x !in r.todo;
      assert PassedBy(sessions, after, false);
    } else if r.sent != [] {
      var x :| Matches(sessions, x, r.dest) && x !in r.todo && r.sent == [sessions[x].owner];
      assert PassedBy(sessions, after, true);
    }
  }

  lemma StepKeepsInv(s: State, step: Step)
    requires Inv(s) && Enabled(s, step)
    ensures Inv(After(s, step))
  {
    if step.Register? || step.Unregister? {
      TableStepKeepsInv(s, step);
    } else if step.Greet? || step.Pong? {
      TalkStepKeepsInv(s, step);
    } else if step.BeginScan? || step.VisitNext? || step.EndScan? {
      ScanStepKeepsInv(s, step);
    } else {
      HandlerStepKeepsInv(s, step);
    }
  }

  /** In every interleaving of any number of handlers and the router, whatever identifiers they draw. */
  lemma {:induction false} RunKeepsInv(states: seq<State>, steps: seq<Step>, base: u32, ones: nat, k: nat)
    requires Run(states, steps, base, ones) && k < |states|
    ensures Inv(states[k])
  {
    if k == 0 {
      FreshIsSound(base, ones);
    } else {
      RunKeepsInv(states, steps, base, ones, k - 1);
      StepKeepsInv(states[k - 1], steps[k - 1]);
    }
  }
}
