/** What every run of the server guarantees: addresses, routing and capacity. */
module ServerGuarantees {
  import opened Bytes
  import opened AddressPool
  import opened Sessions
  import PoolRuns

  // ---------- Addresses ----------

  /** At every moment the pool's used set is the set of held addresses, and no two are equal. */
  lemma UsedIsExactlyHeld(states: seq<State>, steps: seq<Step>, base: u32, ones: nat, k: nat)
    requires Run(states, steps, base, ones) && k < |states|
    ensures var s := states[k];
            && (forall ip :: ip in s.pool.used <==> exists h :: Holds(s.handlers, h, ip))
            && (forall g, h, ip | Holds(s.handlers, g, ip) && Holds(s.handlers, h, ip) :: g == h)
  {
    RunKeepsInv(states, steps, base, ones, k);
  }

  /** When every handler has ended, by whatever exit, nothing is left behind. */
  lemma AllEndedLeavesNothing(states: seq<State>, steps: seq<Step>, base: u32, ones: nat, k: nat)
    requires Run(states, steps, base, ones) && k < |states|
    requires forall h | h in states[k].handlers :: states[k].handlers[h].Ended?
    ensures states[k].pool.used == {} && states[k].sessions == map[]
  {
    RunKeepsInv(states, steps, base, ones, k);
    var s := states[k];
    assert forall h, ip :: !Holds(s.handlers, h, ip);
    assert forall id | id in s.sessions :: s.sessions[id].owner in s.handlers;
    assert s.sessions.Keys == {};
  }

  /** An address is granted only when nobody holds it and no session routes to it; and each session's
      owner is live with its address still marked used. */
  lemma GrantsAreUnroutable(states: seq<State>, steps: seq<Step>, base: u32, ones: nat, k: nat, id: u64)
    requires Run(states, steps, base, ones) && k < |steps|
    requires id in states[k].sessions
    ensures var s := states[k];
            && s.sessions[id].ip in s.pool.used
            && RegisteredAs(s.handlers, s.sessions[id].owner, id, s.sessions[id].ip)
            && (steps[k].Allocate? && Granted(s.pool).Some? ==> Granted(s.pool).value != s.sessions[id].ip)
  {
    RunKeepsInv(states, steps, base, ones, k);
    var s := states[k];
    assert Holds(s.handlers, s.sessions[id].owner, s.sessions[id].ip);
    if steps[k].Allocate? && Granted(s.pool).Some? {
      NextHostFits(s.pool);
    }
  }

  // ---------- Routing ----------

  /** i starts a scan and no step before k ends it. */
  ghost predicate ScanRuns(steps: seq<Step>, i: nat, k: nat, dest: u32) {
    && i < k <= |steps|
    && steps[i].BeginScan? && AddressedTo(steps[i].frame, dest)
    && forall m | i < m < k :: !steps[m].EndScan?
  }

  /** A step that does not end a scan leaves the map, the frame and its destination alone; a visit takes
      one entry or more off what is left to do, any other step nothing. */
  lemma ScanGoesOn(s: State, step: Step)
    requires Enabled(s, step) && s.router.Scanning? && !step.EndScan?
    ensures var t := After(s, step);
            && t.router.Scanning? && t.router.dest == s.router.dest && t.router.frame == s.router.frame
            && t.sessions == s.sessions
            && |t.router.todo| + (if step.VisitNext? then 1 else 0) <= |s.router.todo|
  {
  }

  /** While a scan runs, the session map, the frame and its destination stand still. */
  lemma {:induction false} ScanFreezesTable(
      states: seq<State>, steps: seq<Step>, base: u32, ones: nat, i: nat, k: nat, dest: u32)
    requires Run(states, steps, base, ones) && ScanRuns(steps, i, k, dest)
    ensures states[k].router.Scanning? && states[k].router.dest == dest && states[k].router.frame == steps[i].frame
    ensures states[k].sessions == states[i].sessions
    decreases k
  {
    assert Enabled(states[k - 1], steps[k - 1]);
    if k > i + 1 {
      ScanFreezesTable(states, steps, base, ones, i, k - 1, dest);
      ScanGoesOn(states[k - 1], steps[k - 1]);
    }
  }

  /** Whatever order the map is visited in and whatever handlers do meanwhile, a finished scan has
      written the packet to the owner of the destination address and to nobody else; or it has written
      nothing, because nobody owns the address or because encrypting for the owner failed. */
  lemma ScanDeliversToOwner(
      states: seq<State>, steps: seq<Step>, base: u32, ones: nat, i: nat, j: nat, dest: u32)
    requires Run(states, steps, base, ones) && j < |steps| && ScanRuns(steps, i, j, dest)
    requires steps[j].EndScan?
    ensures var table, r := states[i].sessions, states[j].router;
            && r.Scanning?
            && (forall id | Matches(table, id, dest) ::
                  && RegisteredAs(states[j].handlers, table[id].owner, id, dest)
                  && r.sent == if r.failed then [] else [table[id].owner])
            && ((forall id :: !Matches(table, id, dest)) ==> r.sent == [] && !r.failed)
  {
    ScanFreezesTable(states, steps, base, ones, i, j, dest);
    RunKeepsInv(states, steps, base, ones, j);
    var s := states[j];
    assert Enabled(s, steps[j]);
    forall id, x | Matches(s.sessions, id, dest) && Matches(s.sessions, x, dest)
      ensures id == x
    {
      AddressesIdentifySessions(s, id, x, dest);
    }
  }

  /** Identifiers drawn by handlers differ from those of all handlers then holding an address. */
  ghost predicate DrawsAreFresh(states: seq<State>, steps: seq<Step>)
    requires |states| == |steps| + 1
  {
    forall k, h | 0 <= k < |steps| && steps[k].Allocate? && Holding(states[k].handlers, h) ::
      states[k].handlers[h].id != steps[k].drawn
  }

  predicate Carries(s: State, h: nat, id: u64) {
    Holding(s.handlers, h) && s.handlers[h].id == id
  }

  predicate RegisteredUnder(s: State, h: nat, id: u64) {
    h in s.handlers && s.handlers[h].Registered? && s.handlers[h].id == id
  }

  /** The map's entry under id is h's own session. */
  predicate Routable(s: State, h: nat, id: u64) {
    id in s.sessions && s.sessions[id].owner == h
  }

  ghost predicate RegisteredAreRoutable(s: State) {
    && (forall h, id | RegisteredUnder(s, h, id) :: Routable(s, h, id))
    && (forall g, h, id | Carries(s, g, id) && Carries(s, h, id) :: g == h)
  }

  /** Another handler with that identifier enters or leaves the map. */
  predicate Disturbs(s: State, step: Step, h: nat, id: u64) {
    (step.Register? || step.Unregister?) && step.h != h && Carries(s, step.h, id)
  }

  /** A registered handler's session is in the map exactly when its address leads to a session at all. */
  lemma RoutableByAddress(s: State, h: nat, id: u64)
    requires Inv(s) && RegisteredUnder(s, h, id)
    ensures Routable(s, h, id) <==> exists x :: Matches(s.sessions, x, s.handlers[h].ip)
  {
    var ip := s.handlers[h].ip;
    assert Holds(s.handlers, h, ip);
    if x :| Matches(s.sessions, x, ip) {
      assert Holds(s.handlers, s.sessions[x].owner, ip);
    }
    if Routable(s, h, id) {
      assert Matches(s.sessions, id, ip);
    }
  }

  lemma StepKeepsRegistered(s: State, step: Step, h: nat, id: u64)
    requires Enabled(s, step) && RegisteredUnder(s, h, id) && step != Unregister(h)
    ensures RegisteredUnder(After(s, step), h, id)
    ensures Routable(After(s, step), h, id) <==> Routable(s, h, id) && !Disturbs(s, step, h, id)
  {
  }

  /** From its entry into the map until it leaves it, a handler's packets can be routed to it exactly as
      long as no other handler with its identifier has entered or left the map meanwhile. */
  lemma {:induction false} RoutableIff(
      states: seq<State>, steps: seq<Step>, base: u32, ones: nat, i: nat, k: nat, h: nat, id: u64)
    requires Run(states, steps, base, ones) && i < k < |states|
    requires steps[i] == Register(h) && Carries(states[i], h, id)
    requires forall m | i < m < k :: steps[m] != Unregister(h)
    ensures RegisteredUnder(states[k], h, id)
    ensures Routable(states[k], h, id) <==> forall m | i < m < k :: !Disturbs(states[m], steps[m], h, id)
    ensures Routable(states[k], h, id) <==> exists x :: Matches(states[k].sessions, x, states[k].handlers[h].ip)
    decreases k
  {
    assert Enabled(states[k - 1], steps[k - 1]);
    if k > i + 1 {
      RoutableIff(states, steps, base, ones, i, k - 1, h, id);
      StepKeepsRegistered(states[k - 1], steps[k - 1], h, id);
    }
    RunKeepsInv(states, steps, base, ones, k);
    RoutableByAddress(states[k], h, id);
  }

  lemma StepKeepsCarriersApart(s: State, step: Step, g: nat, h: nat, id: u64)
    requires Enabled(s, step)
    requires forall x, y, i | Carries(s, x, i) && Carries(s, y, i) :: x == y
    requires step.Allocate? ==> forall x | Holding(s.handlers, x) :: s.handlers[x].id != step.drawn
    requires Carries(After(s, step), g, id) && Carries(After(s, step), h, id)
    ensures g == h
  {
    var t := After(s, step);
    assert forall x | Carries(t, x, id) :: Carries(s, x, id) || (step.Allocate? && x == step.h && id == step.drawn);
  }

  lemma StepKeepsRoutable(s: State, step: Step)
    requires Enabled(s, step) && RegisteredAreRoutable(s)
    requires step.Allocate? ==> forall h | Holding(s.handlers, h) :: s.handlers[h].id != step.drawn
    ensures RegisteredAreRoutable(After(s, step))
  {
    var t := After(s, step);
    forall g, h, id | Carries(t, g, id) && Carries(t, h, id)
      ensures g == h
    {
      StepKeepsCarriersApart(s, step, g, h, id);
    }
    forall h, id | RegisteredUnder(t, h, id)
      ensures Routable(t, h, id)
    {
      if step != Register(h) {
        assert RegisteredUnder(s, h, id) && step != Unregister(h);
        StepKeepsRegistered(s, step, h, id);
        assert Carries(s, h, id);
      }
    }
  }

  /** As long as random identifiers do not collide, every registered client can be routed to. */
  lemma {:induction false} RegisteredStayRoutable(
      states: seq<State>, steps: seq<Step>, base: u32, ones: nat, k: nat)
    requires Run(states, steps, base, ones) && k < |states| && DrawsAreFresh(states, steps)
    ensures RegisteredAreRoutable(states[k])
  {
    if k > 0 {
      RegisteredStayRoutable(states, steps, base, ones, k - 1);
      RunKeepsInv(states, steps, base, ones, k - 1);
      assert Enabled(states[k - 1], steps[k - 1]);
      StepKeepsRoutable(states[k - 1], steps[k - 1]);
    }
  }

  /** Of two registered handlers with one identifier at most one can be routed to, and when either
      leaves, the other cannot. */
  lemma CollisionUnroutes(s: State, g: nat, h: nat, id: u64)
    requires Inv(s) && g != h && RegisteredUnder(s, g, id) && RegisteredUnder(s, h, id)
    ensures Routable(s, g, id) ==> forall x :: !Matches(s.sessions, x, s.handlers[h].ip)
    ensures Enabled(s, Unregister(g)) ==>
              var t := After(s, Unregister(g));
              RegisteredUnder(t, h, id) && forall x :: !Matches(t.sessions, x, t.handlers[h].ip)
  {
    RoutableByAddress(s, h, id);
    if Enabled(s, Unregister(g)) {
      StepKeepsInv(s, Unregister(g));
      RoutableByAddress(After(s, Unregister(g)), h, id);
    }
  }

  /** A run can be extended by any step that is enabled at its end. */
  lemma Append(states: seq<State>, steps: seq<Step>, base: u32, ones: nat, step: Step)
    returns (more: seq<State>, taken: seq<Step>)
    requires Run(states, steps, base, ones) && Enabled(states[|steps|], step)
    ensures Run(more, taken, base, ones) && |taken| == |steps| + 1
    ensures states <= more && steps <= taken && more[|taken|] == After(states[|steps|], step)
  {
    more, taken := states + [After(states[|steps|], step)], steps + [step];
    forall k | 0 <= k < |taken|
      ensures Enabled(more[k], taken[k]) && more[k + 1] == After(more[k], taken[k])
    {
      if k < |steps| {
        assert more[k] == states[k] && more[k + 1] == states[k + 1] && taken[k] == steps[k];
      }
    }
  }

  /** Two handlers have drawn one identifier and taken an address each. */
  lemma TwinsAllocate(base: u32, ones: nat, id: u64) returns (states: seq<State>, steps: seq<Step>)
    requires Subnet(base, ones) && ones <= 29
    ensures Run(states, steps, base, ones) && |steps| == 4
    ensures base + 3 < 0x1_0000_0000
    ensures var s := states[4];
            s.sessions == map[] && s.router.Idle?
            && s.handlers == map[0 := Allocated(id, base + 2), 1 := Allocated(id, base + 3)]
  {
    TwoGrants(base, ones);
    steps := [Accept(0), Accept(1), Allocate(0, id), Allocate(1, id)];
    var s0 := Initial(base, ones);
    var s1 := After(s0, steps[0]);
    var s2 := After(s1, steps[1]);
    var s3 := After(s2, steps[2]);
    states := [s0, s1, s2, s3, After(s3, steps[3])];
  }

  /** Such a run, on every subnet with at least two addresses: as soon as the second of two handlers with
      one identifier registers, the first cannot be routed to; when the first leaves, neither can. */
  lemma CollisionRun(base: u32, ones: nat, id: u64, padding: Bytes32)
    returns (states: seq<State>, steps: seq<Step>)
    requires Subnet(base, ones) && ones <= 29
    ensures Run(states, steps, base, ones) && |steps| == 8
    ensures RegisteredUnder(states[6], 0, id) && RegisteredUnder(states[6], 1, id)
    ensures forall x :: !Matches(states[6].sessions, x, states[6].handlers[0].ip)
    ensures RegisteredUnder(states[8], 1, id) && states[8].sessions == map[]
  {
    states, steps := TwinsAllocate(base, ones, id);
    states, steps := Append(states, steps, base, ones, Register(0));
    states, steps := Append(states, steps, base, ones, Register(1));
    assert states[6].sessions == map[id := ClientSession(id, 1, base + 3)];
    assert states[6].handlers[0] == Registered(id, base + 2, Owed);
    states, steps := Append(states, steps, base, ones, Greet(0, padding, true));
    states, steps := Append(states, steps, base, ones, Unregister(0));
    assert states[8].sessions == map[];
  }

  lemma TwoGrants(base: u32, ones: nat)
    requires Subnet(base, ones) && ones <= 29
    ensures var p := Fresh(base, Size(ones));
            && Sound(p) && Granted(p) == Some(base + 2)
            && Sound(AfterAllocate(p)) && Granted(AfterAllocate(p)) == Some(base + 3)
  {
    var p := Fresh(base, Size(ones));
    FreshIsSound(base, ones);
    SmallestSize(ones);
    AllocateKeepsSound(p);
    PoolRuns.FreshGrantsInOrder(p, 0);
    PoolRuns.FreshGrantsInOrder(p, 1);
    assert PoolRuns.AllocateTimes(p, 0) == p;
    assert PoolRuns.AllocateTimes(p, 1) == AfterAllocate(p);
  }

  lemma SmallestSize(ones: nat)
    requires ones <= 30
    ensures Size(ones) >= 4 && (ones <= 29 ==> Size(ones) >= 8)
  {
    assert Pow2(32 - ones) == 2 * Pow2(31 - ones);
    assert Pow2(31 - ones) == 2 * Pow2(30 - ones);
    assert ones <= 29 ==> Pow2(30 - ones) == 2 * Pow2(29 - ones);
  }

  // ---------- Capacity ----------

  ghost function Holders(s: State): set<nat> {
    set h | h in s.handlers && Holding(s.handlers, h)
  }

  lemma {:induction false} HoldersCount(handlers: map<nat, Phase>, holders: set<nat>, used: set<u32>)
    requires forall h | h in holders :: Holding(handlers, h) && handlers[h].ip in used
    requires forall ip | ip in used :: exists h :: h in holders && Holds(handlers, h, ip)
    requires forall g, h, ip | Holds(handlers, g, ip) && Holds(handlers, h, ip) :: g == h
    ensures |holders| == |used|
    decreases holders
  {
    if holders == {} {
      assert used == {};
    } else {
      var h :| h in holders;
      var ip := handlers[h].ip;
      assert Holds(handlers, h, ip);
      var rest, others := holders - {h}, used - {ip};
      forall g | g in rest
        ensures handlers[g].ip in others
      {
        assert Holds(handlers, g, handlers[g].ip);
      }
      forall a | a in others
        ensures exists g :: g in rest && Holds(handlers, g, a)
      {
        var g :| g in holders && Holds(handlers, g, a);
        assert g in rest;
      }
      HoldersCount(handlers, rest, others);
    }
  }

  /** At most size-3 handlers hold an address at once; a handshake is refused for want of an address
      only when at least size-4 do. */
  lemma HandlerCapacity(states: seq<State>, steps: seq<Step>, base: u32, ones: nat, k: nat)
    requires Run(states, steps, base, ones) && k < |states| && ones <= 30
    ensures Sound(states[k].pool)
    ensures |Holders(states[k])| <= Size(ones) - 3
    ensures Granted(states[k].pool) == None ==> |Holders(states[k])| >= Size(ones) - 4
  {
    RunKeepsInv(states, steps, base, ones, k);
    PoolKeepsSize(states, steps, base, ones, k);
    var s := states[k];
    forall h | h in Holders(s)
      ensures s.handlers[h].ip in s.pool.used
    {
      assert Holds(s.handlers, h, s.handlers[h].ip);
    }
    forall ip | ip in s.pool.used
      ensures exists h :: h in Holders(s) && Holds(s.handlers, h, ip)
    {
      var h :| Holds(s.handlers, h, ip);
      assert h in Holders(s);
    }
    HoldersCount(s.handlers, Holders(s), s.pool.used);
    SmallestSize(ones);
    PoolRuns.HeldAtMost(s.pool);
    if Granted(s.pool) == None {
      PoolRuns.RefusedOnlyNearlyFull(s.pool);
    }
  }

  lemma {:induction false} PoolKeepsSize(states: seq<State>, steps: seq<Step>, base: u32, ones: nat, k: nat)
    requires Run(states, steps, base, ones) && k < |states|
    ensures states[k].pool.size == Size(ones) && states[k].pool.base == base
  {
    if k > 0 {
      PoolKeepsSize(states, steps, base, ones, k - 1);
      assert Enabled(states[k - 1], steps[k - 1]);
    }
  }

  // ---------- Progress ----------

  /** What an unfinished handler waits for: the router's scan before it enters or leaves the map, and
      otherwise nothing. A scan waits for nobody, and every visit brings its end nearer. */
  lemma NeverStuck(states: seq<State>, steps: seq<Step>, base: u32, ones: nat, k: nat)
    requires Run(states, steps, base, ones) && k < |states|
    ensures var s := states[k];
            s.router.Scanning? ==>
              if s.router.todo == [] then Enabled(s, EndScan)
              else forall entropy, accepted ::
                     && Enabled(s, VisitNext(entropy, accepted))
                     && |After(s, VisitNext(entropy, accepted)).router.todo| < |s.router.todo|
    ensures var s := states[k];
            forall h | h in s.handlers && !s.handlers[h].Ended? ::
              match s.handlers[h]
              case Handshaking => forall id :: Enabled(s, Allocate(h, id))
              case Allocated(_, _) => Enabled(s, Register(h)) <==> s.router.Idle?
              case Registered(_, _, Owed) => forall padding, accepted :: Enabled(s, Greet(h, padding, accepted))
              case Registered(_, _, _) => Enabled(s, Unregister(h)) <==> s.router.Idle?
              case Unregistered(_, _) => Enabled(s, Release(h))
  {
    RunKeepsInv(states, steps, base, ones, k);
  }

  ghost function Visits(steps: seq<Step>, i: nat, k: nat): nat
    requires i <= k <= |steps|
    decreases k - i
  {
    if i == k then 0 else Visits(steps, i, k - 1) + if steps[k - 1].VisitNext? then 1 else 0
  }

  /** Whatever handlers do meanwhile, a scan makes at most as many visits as the map has entries. */
  lemma {:induction false} ScanIsFinite(
      states: seq<State>, steps: seq<Step>, base: u32, ones: nat, i: nat, k: nat, dest: u32)
    requires Run(states, steps, base, ones) && ScanRuns(steps, i, k, dest)
    ensures states[k].router.Scanning?
    ensures Visits(steps, i, k) + |states[k].router.todo| <= |steps[i].order| == |states[i].sessions|
    decreases k
  {
    assert Enabled(states[k - 1], steps[k - 1]);
    if k == i + 1 {
      OrderCounts(steps[i].order, states[i].sessions.Keys);
    } else {
      ScanIsFinite(states, steps, base, ones, i, k - 1, dest);
      ScanGoesOn(states[k - 1], steps[k - 1]);
    }
  }

  lemma {:induction false} OrderCounts(order: seq<u64>, ids: set<u64>)
    requires Distinct(order) && forall id :: id in order <==> id in ids
    ensures |order| == |ids|
    decreases order
  {
    if order == [] {
      assert ids == {};
    } else {
      var rest := order[1..];
      assert forall id :: id in order <==> id == order[0] || id in rest;
      OrderCounts(rest, ids - {order[0]});
    }
  }

  // ---------- Winding down ----------

  ghost function Unfinished(s: State): set<nat> {
    set h | h in s.handlers && !s.handlers[h].Ended?
  }

  /** The next step of an unfinished handler that ends its connection. */
  function Onwards(h: nat, phase: Phase, padding: Bytes32): Step
    requires !phase.Ended?
  {
    if phase.Handshaking? then GiveUp(h)
    else if phase.Allocated? then Register(h)
    else if phase.Unregistered? then Release(h)
    else if phase.reply.Owed? then Greet(h, padding, true)
    else Unregister(h)
  }

  /** How many such steps it has to take. */
  function StepsLeft(s: State, h: nat): nat {
    if h !in s.handlers || s.handlers[h].Ended? then 5
    else
      var phase := s.handlers[h];
      if phase.Handshaking? || phase.Unregistered? then 1
      else if phase.Allocated? then 4
      else if phase.reply.Owed? then 3
      else 2
  }

  function VisitsLeft(r: Router): nat {
    if r.Idle? then 0 else 1 + |r.todo|
  }

  lemma OnwardsAdvances(s: State, h: nat, padding: Bytes32)
    requires Inv(s) && s.router.Idle? && h in Unfinished(s)
    ensures var step := Onwards(h, s.handlers[h], padding);
            && Enabled(s, step)
            && var t := After(s, step);
               && t.router.Idle?
               && if h in Unfinished(t) then Unfinished(t) == Unfinished(s) && StepsLeft(t, h) < StepsLeft(s, h)
                  else Unfinished(t) == Unfinished(s) - {h}
  {
  }

  /** From every reachable state, in the middle of a scan or not, the run can go on until every handler has
      ended; by AllEndedLeavesNothing nothing is then left behind. h is the handler finished first. */
  lemma {:induction false} CanWindDown(
      states: seq<State>, steps: seq<Step>, base: u32, ones: nat, h: nat, padding: Bytes32)
    returns (allStates: seq<State>, allSteps: seq<Step>)
    requires Run(states, steps, base, ones)
    ensures Run(allStates, allSteps, base, ones) && states <= allStates && steps <= allSteps
    ensures var last := allStates[|allSteps|];
            last.router.Idle? && forall g | g in last.handlers :: last.handlers[g].Ended?
    decreases Unfinished(states[|steps|]), StepsLeft(states[|steps|], h), VisitsLeft(states[|steps|].router)
  {
    var s := states[|steps|];
    RunKeepsInv(states, steps, base, ones, |steps|);
    if s.router.Scanning? {
      var step := if s.router.todo == [] then EndScan else VisitNext(None, false);
      var more, taken := Append(states, steps, base, ones, step);
      allStates, allSteps := CanWindDown(more, taken, base, ones, h, padding);
    } else if h in Unfinished(s) {
      var step := Onwards(h, s.handlers[h], padding);
      OnwardsAdvances(s, h, padding);
      var more, taken := Append(states, steps, base, ones, step);
      allStates, allSteps := CanWindDown(more, taken, base, ones, h, padding);
    } else if Unfinished(s) != {} {
      var g :| g in Unfinished(s);
      allStates, allSteps := CanWindDown(states, steps, base, ones, g, padding);
    } else {
      allStates, allSteps := states, steps;
      assert forall g | g in s.handlers :: g !in Unfinished(s);
    }
  }
}
