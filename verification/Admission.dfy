/** Whether a client the server admits completes its handshake, and what its tunnel then delivers, in every
    run of the server. The session enters the map before the reply is written (lines 293-318 of
    pkg/server/server.go), so the router can reach the client first. */
module Admission {
  import opened Bytes
  import opened Crypto
  import opened WebSocket
  import opened Tunnel
  import opened Handshake
  import opened AddressPool
  import opened Sessions
  import ServerGuarantees

  // ---------- From a log to the messages on the connection ----------

  /** The messages a handler's outputs put on its connection. */
  function OnWire(suite: Suite, key: Bytes32, publicKey: Bytes32, counter: u64, log: seq<Output>): seq<seq<byte>>
    decreases |log|
  {
    if log == [] then []
    else PutOnWire(suite, key, publicKey, counter, log[0])
         + OnWire(suite, key, publicKey, CounterAfterOutput(counter, log[0]), log[1..])
  }

  function PutOnWire(suite: Suite, key: Bytes32, publicKey: Bytes32, counter: u64, o: Output): seq<seq<byte>> {
    match o
    case Welcome(id, ip, padding, accepted) => if accepted then [Reply(publicKey, id, ip, padding)] else []
    case Carry(id, e) => Sent(suite, key, id, counter, [e])
  }

  function CounterAfterOutput(counter: u64, o: Output): u64 {
    if o.Carry? then CounterAfter(counter, o.event) else counter
  }

  function CounterAfterLog(counter: u64, log: seq<Output>): u64
    decreases |log|
  {
    if log == [] then counter else CounterAfterLog(CounterAfterOutput(counter, log[0]), log[1..])
  }

  lemma {:induction false} OnWireAppend(
      suite: Suite, key: Bytes32, publicKey: Bytes32, counter: u64, log: seq<Output>, more: seq<Output>)
    ensures OnWire(suite, key, publicKey, counter, log + more)
         == OnWire(suite, key, publicKey, counter, log)
            + OnWire(suite, key, publicKey, CounterAfterLog(counter, log), more)
    ensures CounterAfterLog(counter, log + more) == CounterAfterLog(CounterAfterLog(counter, log), more)
    decreases |log|
  {
    hide PutOnWire, CounterAfterOutput;
    if log == [] {
      assert log + more == more;
    } else {
      assert (log + more)[1..] == log[1..] + more;
      OnWireAppend(suite, key, publicKey, CounterAfterOutput(counter, log[0]), log[1..], more);
    }
  }

  /** All outputs are messages of that session. */
  predicate AllCarry(log: seq<Output>, id: u64) {
    forall o | o in log :: o.Carry? && o.id == id
  }

  function Events(log: seq<Output>): seq<Event>
    requires forall o | o in log :: o.Carry?
  {
    if log == [] then [] else [log[0].event] + Events(log[1..])
  }

  lemma {:induction false} CarriedIsSent(
      suite: Suite, key: Bytes32, publicKey: Bytes32, counter: u64, log: seq<Output>, id: u64)
    requires AllCarry(log, id)
    ensures OnWire(suite, key, publicKey, counter, log) == Sent(suite, key, id, counter, Events(log))
    ensures CounterAfterLog(counter, log) == CounterAfterAll(counter, Events(log))
    decreases |log|
  {
    if log != [] {
      var e, rest := log[0].event, log[1..];
      CarriedIsSent(suite, key, publicKey, CounterAfter(counter, e), rest, id);
      SentCons(suite, key, id, counter, e, Events(rest));
    }
  }

  /** Whether an output puts a message on the connection. */
  predicate Transmitted(o: Output) {
    match o
    case Welcome(_, _, _, accepted) => accepted
    case Carry(_, e) => e.accepted && (e.Data? ==> e.entropy.Some?)
  }

  function FirstMessage(log: seq<Output>): Option<Output>
    decreases |log|
  {
    if log == [] then None else if Transmitted(log[0]) then Some(log[0]) else FirstMessage(log[1..])
  }

  lemma {:induction false} FirstMessageAppend(log: seq<Output>, more: seq<Output>)
    ensures FirstMessage(log + more) == if FirstMessage(log).Some? then FirstMessage(log) else FirstMessage(more)
    decreases |log|
  {
    if log == [] {
      assert log + more == more;
    } else {
      assert (log + more)[1..] == log[1..] + more;
      FirstMessageAppend(log[1..], more);
    }
  }

  predicate Welcomed(log: seq<Output>) {
    FirstMessage(log).Some? && FirstMessage(log).value.Welcome?
  }

  /** A client completes its handshake exactly when the first message it is sent is the reply and their
      shared secret is usable. */
  lemma {:induction false} ClientAnswersIff(
      suite: Suite, privateKey: Bytes32, publicKey: Bytes32, key: Bytes32, counter: u64, log: seq<Output>)
    requires Lawful(suite)
    ensures AnswerTo(suite, privateKey, Inbound([], OnWire(suite, key, publicKey, counter, log))).Some? <==>
            Welcomed(log) && ComputeSharedSecret(suite, privateKey, publicKey).Some?
    decreases |log|
  {
    if log != [] {
      var first, rest := PutOnWire(suite, key, publicKey, counter, log[0]), log[1..];
      var later := OnWire(suite, key, publicKey, CounterAfterOutput(counter, log[0]), rest);
      FirstOnWire(suite, privateKey, publicKey, key, counter, log[0]);
      if Transmitted(log[0]) {
        FirstIsRead(first[0], later);
      } else {
        assert first + later == later;
        ClientAnswersIff(suite, privateKey, publicKey, key, CounterAfterOutput(counter, log[0]), rest);
      }
    }
  }

  lemma FirstOnWire(
      suite: Suite, privateKey: Bytes32, publicKey: Bytes32, key: Bytes32, counter: u64, o: Output)
    requires Lawful(suite)
    ensures var first := PutOnWire(suite, key, publicKey, counter, o);
            if Transmitted(o) then
              && |first| == 1 && |first[0]| <= READ_BUFFER
              && (ClientComplete(suite, privateKey, first[0]).Some? <==>
                    o.Welcome? && ComputeSharedSecret(suite, privateKey, publicKey).Some?)
            else first == []
  {
    match o
    case Welcome(id, ip, padding, _) =>
      ReplyIsUnderstood(publicKey, id, ip, padding);
    case Carry(id, e) =>
      SentIsNoAnswer(suite, key, id, counter, [e], privateKey);
  }

  // ---------- What a step hands to a connection ----------

  /** The scan's next visit finds h's own session under the destination address. */
  predicate Visits(s: State, step: Step, h: nat) {
    && step.VisitNext? && s.router.Scanning? && s.router.todo != [] && s.router.todo[0] in s.sessions
    && var session := s.sessions[s.router.todo[0]];
       session.ip == s.router.dest && session.owner == h
  }

  /** A scan puts a packet on h's connection. */
  predicate Reaches(s: State, step: Step, h: nat) {
    Visits(s, step, h) && step.entropy.Some? && step.accepted
  }

  function OutputTo(s: State, step: Step, h: nat): seq<Output>
    requires Enabled(s, step)
  {
    if step.Greet? && step.h == h then
      [Welcome(s.handlers[h].id, s.handlers[h].ip, step.padding, step.accepted)]
    else if step.Pong? && step.h == h then [Carry(s.handlers[h].id, KeepAlive(step.accepted))]
    else if Visits(s, step, h) then
      [Carry(s.sessions[s.router.todo[0]].id, Data(s.router.frame, step.entropy, step.accepted))]
    else []
  }

  lemma StepLogs(s: State, step: Step, h: nat)
    requires Enabled(s, step)
    ensures LogOf(After(s, step).logs, h) == LogOf(s.logs, h) + OutputTo(s, step, h)
  {
  }

  lemma StepShowsFirst(s: State, step: Step, h: nat)
    requires Enabled(s, step)
    ensures var before, after := LogOf(s.logs, h), LogOf(After(s, step).logs, h);
            FirstMessage(after)
            == if FirstMessage(before).Some? then FirstMessage(before) else FirstMessage(OutputTo(s, step, h))
  {
    StepLogs(s, step, h);
    FirstMessageAppend(LogOf(s.logs, h), OutputTo(s, step, h));
  }

  // ---------- Before the reply ----------

  /** The handler has not written its reply yet. */
  predicate Ungreeted(handlers: map<nat, Phase>, h: nat) {
    h in handlers ==>
      match handlers[h]
      case Handshaking => true
      case Allocated(_, _) => true
      case Registered(_, _, reply) => reply.Owed?
      case Unregistered(_, _) => false
      case Ended => false
  }

  /** All that has been handed to such a handler's connection is packets of its session. */
  predicate LogIsEarly(handlers: map<nat, Phase>, log: seq<Output>, h: nat) {
    if h in handlers && handlers[h].Registered? then AllCarry(log, handlers[h].id) else log == []
  }

  lemma StepKeepsEarly(s: State, step: Step, h: nat)
    requires Inv(s) && Enabled(s, step)
    requires Ungreeted(s.handlers, h) ==> LogIsEarly(s.handlers, LogOf(s.logs, h), h)
    ensures var t := After(s, step);
            Ungreeted(t.handlers, h) ==> Ungreeted(s.handlers, h) && LogIsEarly(t.handlers, LogOf(t.logs, h), h)
  {
    StepLogs(s, step, h);
  }

  lemma StartIsSilent(states: seq<State>, steps: seq<Step>, base: u32, ones: nat, h: nat)
    requires Run(states, steps, base, ones)
    ensures |states| > 0
    ensures var log := LogOf(states[0].logs, h);
            FirstMessage(log).None? && !Welcomed(log) && LogIsEarly(states[0].handlers, log, h)
  {
  }

  lemma EarlyStepsOnlyRoute(s: State, step: Step, h: nat)
    requires Enabled(s, step) && Ungreeted(After(s, step).handlers, h)
    ensures FirstMessage(OutputTo(s, step, h)).None? <==> !Reaches(s, step, h)
  {
  }

  /** Until the reply is written, the connection has carried a message exactly if a scan has put one there. */
  lemma {:induction false} BeforeGreeting(
      states: seq<State>, steps: seq<Step>, base: u32, ones: nat, k: nat, h: nat)
    requires Run(states, steps, base, ones) && k < |states| && Ungreeted(states[k].handlers, h)
    ensures LogIsEarly(states[k].handlers, LogOf(states[k].logs, h), h)
    ensures FirstMessage(LogOf(states[k].logs, h)).None? <==> forall m | 0 <= m < k :: !Reaches(states[m], steps[m], h)
  {
    hide Run, Inv, Enabled, After, LogOf, LogIsEarly, OutputTo, FirstMessage, Ungreeted, Reaches;
    if k == 0 {
      StartIsSilent(states, steps, base, ones, h);
    } else {
      StepOfRun(states, steps, base, ones, k - 1);
      var s, step := states[k - 1], steps[k - 1];
      RunKeepsInv(states, steps, base, ones, k - 1);
      if Ungreeted(s.handlers, h) {
        BeforeGreeting(states, steps, base, ones, k - 1, h);
      }
      StepKeepsEarly(s, step, h);
      StepShowsFirst(s, step, h);
      EarlyStepsOnlyRoute(s, step, h);
    }
  }

  // ---------- Who completes ----------

  /** Step j writes h's reply, and no scan has put a packet on the connection before. */
  ghost predicate GreetsFirst(states: seq<State>, steps: seq<Step>, j: nat, h: nat)
    requires j < |steps| < |states|
  {
    && steps[j].Greet? && steps[j].h == h && steps[j].accepted
    && forall m | 0 <= m < j :: !Reaches(states[m], steps[m], h)
  }

  lemma {:induction false} WelcomedIff(
      states: seq<State>, steps: seq<Step>, base: u32, ones: nat, k: nat, h: nat)
    requires Run(states, steps, base, ones) && k < |states|
    ensures Welcomed(LogOf(states[k].logs, h)) <==> exists j :: 0 <= j < k && GreetsFirst(states, steps, j, h)
  {
    hide Run, Inv, After, Enabled, FirstMessage, OutputTo;
    if k == 0 {
      StartIsSilent(states, steps, base, ones, h);
    } else {
      StepOfRun(states, steps, base, ones, k - 1);
      var s, step := states[k - 1], steps[k - 1];
      var before := LogOf(s.logs, h);
      WelcomedIff(states, steps, base, ones, k - 1, h);
      StepShowsFirst(s, step, h);
      GreetingIsWelcome(s, step, h);
      if step.Greet? && step.h == h {
        BeforeGreeting(states, steps, base, ones, k - 1, h);
        EarlyIsUnwelcomed(before, s.handlers[h].id);
      }
      assert GreetsFirst(states, steps, k - 1, h) ==> Welcomed(LogOf(states[k].logs, h));
      assert Welcomed(LogOf(states[k].logs, h)) ==> Welcomed(before) || GreetsFirst(states, steps, k - 1, h);
    }
  }

  lemma GreetingIsWelcome(s: State, step: Step, h: nat)
    requires Enabled(s, step)
    ensures Welcomed(OutputTo(s, step, h)) <==> step.Greet? && step.h == h && step.accepted
    ensures step.Greet? && step.h == h ==>
              h in s.handlers && s.handlers[h].Registered? && Ungreeted(s.handlers, h)
              && (FirstMessage(OutputTo(s, step, h)).Some? ==> Welcomed(OutputTo(s, step, h)))
  {
    var o := OutputTo(s, step, h);
    assert o != [] ==> o[1..] == [];
    assert o != [] && !Transmitted(o[0]) ==> FirstMessage(o) == FirstMessage([]) == None;
  }

  lemma {:induction false} EarlyIsUnwelcomed(log: seq<Output>, id: u64)
    requires AllCarry(log, id)
    ensures !Welcomed(log)
    decreases |log|
  {
    if log != [] {
      EarlyIsUnwelcomed(log[1..], id);
    }
  }

  /** In every run of the server, whatever else its handlers and the router do: from what the server has put
      on handler h's connection by state k, the client completes its handshake exactly when h has written
      its reply, no scan has put a packet on the connection before that, and the shared secret is usable.
      A handler without an address never writes one. */
  lemma HandshakeCompletesIff(
      states: seq<State>, steps: seq<Step>, base: u32, ones: nat, k: nat, h: nat,
      suite: Suite, key: Bytes32, privateKey: Bytes32, publicKey: Bytes32)
    requires Run(states, steps, base, ones) && k < |states| && Lawful(suite)
    ensures var wire := OnWire(suite, key, publicKey, 0, LogOf(states[k].logs, h));
            AnswerTo(suite, privateKey, Inbound([], wire)).Some? <==>
            && (exists j :: 0 <= j < k && GreetsFirst(states, steps, j, h))
            && ComputeSharedSecret(suite, privateKey, publicKey).Some?
  {
    ClientAnswersIff(suite, privateKey, publicKey, key, 0, LogOf(states[k].logs, h));
    WelcomedIff(states, steps, base, ones, k, h);
  }

  // ---------- A client the server has refused ----------

  lemma StepKeepsEnded(s: State, step: Step, h: nat)
    requires Inv(s) && Enabled(s, step) && In(s, h, Ended)
    ensures In(After(s, step), h, Ended) && OutputTo(s, step, h) == []
  {
  }

  lemma {:induction false} EndedForGood(
      states: seq<State>, steps: seq<Step>, base: u32, ones: nat, i: nat, k: nat, h: nat)
    requires Run(states, steps, base, ones) && i <= k < |states| && In(states[i], h, Ended)
    ensures In(states[k], h, Ended) && LogOf(states[k].logs, h) == LogOf(states[i].logs, h)
    decreases k
  {
    hide Run, Inv, Enabled, After, LogOf, In, OutputTo;
    if i < k {
      EndedForGood(states, steps, base, ones, i, k - 1, h);
      RunKeepsInv(states, steps, base, ones, k - 1);
      StepOfRun(states, steps, base, ones, k - 1);
      StepKeepsEnded(states[k - 1], steps[k - 1], h);
      StepLogs(states[k - 1], steps[k - 1], h);
    }
  }

  /** A handler that gives up in the handshake, or has released its address, is not heard of again. */
  lemma ExitIsFinal(states: seq<State>, steps: seq<Step>, base: u32, ones: nat, i: nat, k: nat, h: nat)
    requires Run(states, steps, base, ones) && i < k < |states|
    requires steps[i] == GiveUp(h) || steps[i] == Release(h)
    ensures In(states[k], h, Ended) && LogOf(states[k].logs, h) == LogOf(states[i].logs, h)
    ensures forall id | id in states[k].sessions :: states[k].sessions[id].owner != h
  {
    StepOfRun(states, steps, base, ones, i);
    EndedForGood(states, steps, base, ones, i + 1, k, h);
    RunKeepsInv(states, steps, base, ones, k);
  }

  /** A handler refused an address has ended, at once and for good: the refusal changes neither pool nor map nor
      any connection, nothing is ever handed to its own, and no session of its ever stands in the map. */
  lemma RefusedHandlerEnds(
      states: seq<State>, steps: seq<Step>, base: u32, ones: nat, i: nat, k: nat, h: nat)
    requires Run(states, steps, base, ones) && i < k < |states|
    requires steps[i].Allocate? && steps[i].h == h && Sound(states[i].pool) && Granted(states[i].pool) == None
    ensures states[i + 1] == states[i].(handlers := states[i].handlers[h := Ended])
    ensures In(states[k], h, Ended) && LogOf(states[k].logs, h) == []
    ensures forall id | id in states[k].sessions :: states[k].sessions[id].owner != h
  {
    StepOfRun(states, steps, base, ones, i);
    BeforeGreeting(states, steps, base, ones, i, h);
    EndedForGood(states, steps, base, ones, i + 1, k, h);
    RunKeepsInv(states, steps, base, ones, k);
  }

  // ---------- A client the server has admitted and lost ----------

  /** The first client of any server enters the map. */
  lemma FirstRegisters(base: u32, ones: nat, id: u64, ip: u32) returns (states: seq<State>, steps: seq<Step>)
    requires Subnet(base, ones) && ones <= 29 && ip == base + 2
    ensures Run(states, steps, base, ones) && |steps| == 3
    ensures var s := states[3];
            && s.router.Idle? && s.handlers == map[0 := Registered(id, ip, Owed)]
            && s.sessions == map[id := ClientSession(id, 0, ip)] && s.logs == map[]
  {
    ServerGuarantees.TwoGrants(base, ones);
    states, steps := [Initial(base, ones)], [];
    states, steps := ServerGuarantees.Append(states, steps, base, ones, Accept(0));
    states, steps := ServerGuarantees.Append(states, steps, base, ones, Allocate(0, id));
    states, steps := ServerGuarantees.Append(states, steps, base, ones, Register(0));
  }

  /** The router has a packet for it, and gets to run before its reply is written. */
  lemma RouterRunsFirst(base: u32, ones: nat, id: u64, ip: u32, frame: Frame, tail: Tail, padding: Bytes32)
    returns (states: seq<State>, steps: seq<Step>)
    requires Subnet(base, ones) && ones <= 29 && ip == base + 2 && AddressedTo(frame, ip)
    ensures Run(states, steps, base, ones) && |steps| == 7
    ensures In(states[7], 0, Registered(id, ip, Written)) && ServerGuarantees.Routable(states[7], 0, id)
    ensures LogOf(states[7].logs, 0)
         == [Carry(id, Data(frame, Some(tail), true)), Welcome(id, ip, padding, true)]
  {
    states, steps := FirstRegisters(base, ones, id, ip);
    states, steps := ServerGuarantees.Append(states, steps, base, ones, BeginScan(frame, [id]));
    states, steps := ServerGuarantees.Append(states, steps, base, ones, VisitNext(Some(tail), true));
    states, steps := ServerGuarantees.Append(states, steps, base, ones, EndScan);
    states, steps := ServerGuarantees.Append(states, steps, base, ones, Greet(0, padding, true));
  }

  /** In that run the server has admitted the client, and the client, sent a data packet and then the reply,
      has failed with an unexpected packet type, whatever its keys. */
  lemma RoutedBeforeReply(
      base: u32, ones: nat, id: u64, ip: u32, frame: Frame, tail: Tail, padding: Bytes32,
      suite: Suite, key: Bytes32, privateKey: Bytes32, publicKey: Bytes32)
    returns (states: seq<State>, steps: seq<Step>, wire: seq<seq<byte>>)
    requires Subnet(base, ones) && ones <= 29 && Lawful(suite) && ip == base + 2 && AddressedTo(frame, ip)
    ensures Run(states, steps, base, ones) && |steps| == 7
    ensures In(states[7], 0, Registered(id, ip, Written))
    ensures wire == OnWire(suite, key, publicKey, 0, LogOf(states[7].logs, 0))
    ensures |wire| == 2 && AnswerTo(suite, privateKey, Inbound([], wire)) == None
  {
    states, steps := RouterRunsFirst(base, ones, id, ip, frame, tail, padding);
    var log := [Carry(id, Data(frame, Some(tail), true)), Welcome(id, ip, padding, true)];
    wire := OnWire(suite, key, publicKey, 0, log);
    TwoOnWire(suite, key, publicKey, log[0], log[1]);
    ClientAnswersIff(suite, privateKey, publicKey, key, 0, log);
  }

  lemma TwoOnWire(suite: Suite, key: Bytes32, publicKey: Bytes32, o: Output, p: Output)
    requires Lawful(suite) && Transmitted(o) && Transmitted(p)
    ensures |OnWire(suite, key, publicKey, 0, [o, p])| == 2
  {
    assert [o, p][1..] == [p] && [p][1..] == [];
    FirstOnWire(suite, ZERO_32, publicKey, key, 0, o);
    var counter := CounterAfterOutput(0, o);
    FirstOnWire(suite, ZERO_32, publicKey, key, counter, p);
    assert OnWire(suite, key, publicKey, counter, [p]) == PutOnWire(suite, key, publicKey, counter, p) + [];
  }

  // ---------- After the reply ----------

  /** What follows the reply: packets for the handler's address and answers to keep-alives. */
  predicate IsLate(log: seq<Output>, id: u64, ip: u32) {
    forall o | o in log :: o.Carry? && o.id == id && !o.event.Disconnect?
                           && (o.event.Data? ==> AddressedTo(o.event.frame, ip))
  }

  /** A handler that has written its reply. */
  predicate Greeted(handlers: map<nat, Phase>, h: nat, id: u64, ip: u32) {
    h in handlers && handlers[h] in {Registered(id, ip, Written), Unregistered(id, ip), Ended}
  }

  lemma StepKeepsLate(s: State, step: Step, h: nat, id: u64, ip: u32)
    requires Inv(s) && Enabled(s, step) && Greeted(s.handlers, h, id, ip)
    ensures Greeted(After(s, step).handlers, h, id, ip) && IsLate(OutputTo(s, step, h), id, ip)
  {
  }

  lemma StepAddsLate(s: State, step: Step, h: nat, id: u64, ip: u32, start: seq<Output>, late: seq<Output>)
    requires Inv(s) && Enabled(s, step) && Greeted(s.handlers, h, id, ip)
    requires LogOf(s.logs, h) == start + late && IsLate(late, id, ip)
    ensures var t, more := After(s, step), late + OutputTo(s, step, h);
            Greeted(t.handlers, h, id, ip) && LogOf(t.logs, h) == start + more && IsLate(more, id, ip)
  {
    StepKeepsLate(s, step, h, id, ip);
    StepLogs(s, step, h);
    assert start + late + OutputTo(s, step, h) == start + (late + OutputTo(s, step, h));
  }

  lemma GreetStarts(s: State, step: Step, h: nat, id: u64, ip: u32)
    requires Enabled(s, step) && step.Greet? && step.h == h && step.accepted && In(s, h, Registered(id, ip, Owed))
    ensures var t := After(s, step);
            && Greeted(t.handlers, h, id, ip) && IsLate([], id, ip)
            && LogOf(t.logs, h) == LogOf(s.logs, h) + [Welcome(id, ip, step.padding, true)] + []
  {
  }

  lemma {:induction false} AfterGreeting(
      states: seq<State>, steps: seq<Step>, base: u32, ones: nat, j: nat, k: nat, h: nat, id: u64, ip: u32)
    returns (late: seq<Output>)
    requires Run(states, steps, base, ones) && j < k < |states|
    requires steps[j].Greet? && steps[j].h == h && steps[j].accepted && In(states[j], h, Registered(id, ip, Owed))
    ensures Greeted(states[k].handlers, h, id, ip) && IsLate(late, id, ip)
    ensures LogOf(states[k].logs, h)
         == LogOf(states[j].logs, h) + [Welcome(id, ip, steps[j].padding, true)] + late
    decreases k
  {
    hide Run, Enabled, After, Inv, In, Greeted, IsLate, LogOf, OutputTo;
    StepOfRun(states, steps, base, ones, k - 1);
    var s, step := states[k - 1], steps[k - 1];
    var start := LogOf(states[j].logs, h) + [Welcome(id, ip, steps[j].padding, true)];
    if k == j + 1 {
      GreetStarts(s, step, h, id, ip);
      late := [];
    } else {
      late := AfterGreeting(states, steps, base, ones, j, k - 1, h, id, ip);
      RunKeepsInv(states, steps, base, ones, k - 1);
      StepAddsLate(s, step, h, id, ip, start, late);
      late := late + OutputTo(s, step, h);
    }
  }

  lemma {:induction false} LatePayloads(log: seq<Output>, id: u64, ip: u32)
    requires IsLate(log, id, ip)
    ensures forall frame | frame in Payloads(Events(log)) :: AddressedTo(frame, ip)
    decreases |log|
  {
    if log != [] {
      LatePayloads(log[1..], id, ip);
      assert ([log[0].event] + Events(log[1..]))[1..] == Events(log[1..]);
    }
  }

  /** The server's half of the tunnel in every run. Handler h writes its reply in step j, and no scan has got
      to its connection before. Then the client completes with the handler's identifier and address and the
      crossed keys; and up to any later state its TUN device gets exactly the frames the server has sealed
      and sent for it since, in order and unchanged, all of them addressed to it. */
  lemma AdmittedClientIsServed(
      states: seq<State>, steps: seq<Step>, base: u32, ones: nat, j: nat, k: nat, h: nat, id: u64, ip: u32,
      suite: Suite, client: KeyPair, server: KeyPair, timestamp: i64, padding: Bytes32)
    returns (late: seq<Output>)
    requires Run(states, steps, base, ones) && j < k < |states|
    requires GreetsFirst(states, steps, j, h) && In(states[j], h, Registered(id, ip, Owed))
    requires Lawful(suite) && Matching(suite, client) && Matching(suite, server)
    requires ComputeSharedSecret(suite, client.privateKey, server.publicKey).Some?
    ensures LogOf(states[k].logs, h)
         == LogOf(states[j].logs, h) + [Welcome(id, ip, steps[j].padding, true)] + late
    ensures IsLate(late, id, ip)
    ensures forall frame | frame in Payloads(Events(late)) :: AddressedTo(frame, ip)
    ensures var s := ServerAccept(suite, server.privateKey, Hello(client.publicKey, timestamp, padding));
            && s.Some?
            && var wire := Inbound([], OnWire(suite, s.value.send, server.publicKey, 0, LogOf(states[k].logs, h)));
               && AnswerTo(suite, client.privateKey, wire)
                  == Some(Established(Keys(s.value.recv, s.value.send), id, BigEndian(ip, 4), SERVER_IP))
               && Delivered(suite, s.value.send, Drain(AfterRead(wire, READ_BUFFER), READ_BUFFER))
                  == Payloads(Events(late))
  {
    late := AfterGreeting(states, steps, base, ones, j, k, h, id, ip);
    BeforeGreeting(states, steps, base, ones, j, h);
    LatePayloads(late, id, ip);
    var early := LogOf(states[j].logs, h);
    TunnelIsTransparent(suite, client, server, timestamp, padding, id, ip, steps[j].padding, true,
                        [], Events(early), Events(late));
    var key := ServerAccept(suite, server.privateKey, Hello(client.publicKey, timestamp, padding)).value.send;
    WireIsDownstream(suite, key, server.publicKey, early, id, ip, steps[j].padding, late);
    QuietOnWire(suite, key, server.publicKey, 0, early);
    CarriedIsSent(suite, key, server.publicKey, 0, early, id);
  }

  lemma WireIsDownstream(
      suite: Suite, key: Bytes32, publicKey: Bytes32, early: seq<Output>, id: u64, ip: u32, padding: Bytes32,
      late: seq<Output>)
    requires AllCarry(early, id) && AllCarry(late, id)
    ensures OnWire(suite, key, publicKey, 0, early + [Welcome(id, ip, padding, true)] + late)
         == Downstream(suite, key, Reply(publicKey, id, ip, padding), true, id, Events(early), Events(late))
  {
    var reply := [Welcome(id, ip, padding, true)];
    OnWireAppend(suite, key, publicKey, 0, early + reply, late);
    OnWireAppend(suite, key, publicKey, 0, early, reply);
    CarriedIsSent(suite, key, publicKey, 0, early, id);
    var counter := CounterAfterLog(0, early);
    assert reply[1..] == [];
    assert CounterAfterLog(counter, reply) == counter;
    CarriedIsSent(suite, key, publicKey, counter, late, id);
  }

  lemma SilentOnWire(suite: Suite, key: Bytes32, publicKey: Bytes32, counter: u64, o: Output)
    requires !Transmitted(o)
    ensures PutOnWire(suite, key, publicKey, counter, o) == []
  {
    if o.Carry? {
      var e := o.event;
      assert [e][1..] == [] && Sent(suite, key, o.id, CounterAfter(counter, e), []) == [];
      assert MessageOf(suite, key, o.id, counter, e).None? || !e.accepted;
    }
  }

  lemma {:induction false} QuietOnWire(
      suite: Suite, key: Bytes32, publicKey: Bytes32, counter: u64, log: seq<Output>)
    requires FirstMessage(log).None?
    ensures OnWire(suite, key, publicKey, counter, log) == []
    decreases |log|
  {
    if log != [] {
      SilentOnWire(suite, key, publicKey, counter, log[0]);
      var later := OnWire(suite, key, publicKey, CounterAfterOutput(counter, log[0]), log[1..]);
      assert [] + later == later;
      QuietOnWire(suite, key, publicKey, CounterAfterOutput(counter, log[0]), log[1..]);
    }
  }
}
