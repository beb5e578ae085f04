/** The client's connected flag and who may reconnect (Connect, handleDisconnect, reconnectLoop and
    Disconnect in pkg/client/client.go). */
module Reconnect {

  /** Where an attempt to connect stands. Only reconnectLoop waits. */
  datatype Stage = Waiting | Dialing | Shaking | Ready

  /** What a goroutine is doing: connecting, on its own or inside reconnectLoop; serving a connection,
      and so able to report its loss; or between clearing the flag and starting reconnectLoop. */
  datatype Activity = Attempt(inLoop: bool, stage: Stage) | Serving | Cleared | Done

  datatype State = State(connected: bool, cancelled: bool, threads: map<nat, Activity>, calls: nat)

  datatype Step =
    | CallConnect(t: nat)               // Connect called from outside
    | Serve(t: nat)                     // a new tunReadLoop or receiveLoop
    | Advance(t: nat)                   // dialled, or shaken hands
    | Fail(t: nat)                      // dialling or the handshake failed
    | WakeUp(t: nat)                    // reconnectLoop goes round
    | SetFlag(t: nat)                   // Connect sets connected and returns
    | Report(t: nat)                    // handleDisconnect under its lock
    | Spawn(t: nat, u: nat)             // handleDisconnect starts reconnectLoop
    | Leave(t: nat)                     // a loop ends without reporting, or AutoReconnect is off
    | ClearFlag                         // Disconnect under its lock
    | Cancel                            // Disconnect cancels the context

  predicate Is(s: State, t: nat, a: Activity) {
    t in s.threads && s.threads[t] == a
  }

  predicate Trying(s: State, t: nat) {
    t in s.threads && s.threads[t].Attempt?
  }

  predicate Enabled(s: State, step: Step) {
    match step
    case CallConnect(t) => t !in s.threads
    case Serve(t) => t !in s.threads
    case Advance(t) => Trying(s, t) && (s.threads[t].stage == Dialing || s.threads[t].stage == Shaking)
    case Fail(t) => Trying(s, t) && (s.threads[t].stage == Dialing || s.threads[t].stage == Shaking)
    case WakeUp(t) => Is(s, t, Attempt(true, Waiting))
    case SetFlag(t) => Trying(s, t) && s.threads[t].stage == Ready
    case Report(t) => Is(s, t, Serving)
    case Spawn(t, u) => Is(s, t, Cleared) && u !in s.threads
    case Leave(t) => Is(s, t, Serving) || Is(s, t, Cleared)
    case ClearFlag => true
    case Cancel => true
  }

  function Put(s: State, t: nat, a: Activity): State {
    s.(threads := s.threads[t := a])
  }

  function After(s: State, step: Step): State
    requires Enabled(s, step)
  {
    match step
    case CallConnect(t) => Put(s, t, Attempt(false, Dialing)).(calls := s.calls + 1)
    case Serve(t) => Put(s, t, Serving)
    case Advance(t) =>
      var a := s.threads[t];
      Put(s, t, Attempt(a.inLoop, if a.stage == Dialing then Shaking else Ready))
    case Fail(t) => Put(s, t, if s.threads[t].inLoop then Attempt(true, Waiting) else Done)
    case WakeUp(t) => Put(s, t, if s.cancelled then Done else Attempt(true, Dialing))
    case SetFlag(t) => Put(s, t, Done).(connected := true)
    case Report(t) => if s.connected then Put(s, t, Cleared).(connected := false) else Put(s, t, Done)
    case Spawn(t, u) => Put(Put(s, t, Done), u, Attempt(true, Waiting))
    case Leave(t) => Put(s, t, Done)
    case ClearFlag => s.(connected := false)
    case Cancel => s.(cancelled := true)
  }

  ghost predicate Run(states: seq<State>, steps: seq<Step>) {
    && |states| == |steps| + 1
    && states[0] == State(false, false, map[], 0)
    && forall k | 0 <= k < |steps| :: Enabled(states[k], steps[k]) && states[k + 1] == After(states[k], steps[k])
  }

  // ---------- The token ----------

  /** A goroutine that is, or is about to become, an attempt still short of setting the flag. */
  predicate HoldsToken(threads: map<nat, Activity>, t: nat) {
    t in threads && (threads[t].Attempt? || threads[t].Cleared?)
  }

  ghost function Tokens(threads: map<nat, Activity>): set<nat> {
    set t | t in threads && HoldsToken(threads, t)
  }

  function Flag(s: State): nat {
    if s.connected then 1 else 0
  }

  lemma TokensAfterPut(threads: map<nat, Activity>, t: nat, a: Activity)
    ensures Tokens(threads[t := a])
         == if a.Attempt? || a.Cleared? then Tokens(threads) + {t} else Tokens(threads) - {t}
  {
    var after := threads[t := a];
    assert forall u | u != t :: HoldsToken(after, u) <==> HoldsToken(threads, u);
  }

  lemma StepKeepsTokens(s: State, step: Step)
    requires Enabled(s, step) && |Tokens(s.threads)| + Flag(s) <= s.calls
    ensures var s' := After(s, step); |Tokens(s'.threads)| + Flag(s') <= s'.calls
  {
    var s' := After(s, step);
    if !step.ClearFlag? && !step.Cancel? {
      var t := step.t;
      assert t in s.threads && (s.threads[t].Attempt? || s.threads[t].Cleared?) ==> t in Tokens(s.threads);
      if step.Spawn? {
        TokensAfterPut(s.threads, t, Done);
        TokensAfterPut(s.threads[t := Done], step.u, s'.threads[step.u]);
      } else {
        TokensAfterPut(s.threads, t, s'.threads[t]);
      }
    }
  }

  /** However many loops report however often and in whatever order: attempts still short of setting the
      flag, plus one if it is set, never outnumber the calls of Connect from outside. */
  lemma {:induction false} TokensBounded(states: seq<State>, steps: seq<Step>, k: nat)
    requires Run(states, steps) && k < |states|
    ensures |Tokens(states[k].threads)| + Flag(states[k]) <= states[k].calls
  {
    if k == 0 {
      assert Tokens(states[0].threads) == {};
    } else {
      TokensBounded(states, steps, k - 1);
      StepKeepsTokens(states[k - 1], steps[k - 1]);
    }
  }

  // ---------- Overlap ----------

  /** Nobody is connecting, about to connect, or connected. */
  ghost predicate Quiet(s: State) {
    !s.connected && forall t :: !HoldsToken(s.threads, t)
  }

  /** At most one attempt is under way or about to start, and none beside an established connection. */
  ghost predicate Apart(s: State) {
    && (forall t, u | HoldsToken(s.threads, t) && HoldsToken(s.threads, u) :: t == u)
    && (forall t | HoldsToken(s.threads, t) :: !s.connected)
  }

  lemma StepStaysApartIff(s: State, step: Step)
    requires Enabled(s, step) && Apart(s)
    ensures Apart(After(s, step)) <==> (step.CallConnect? ==> Quiet(s))
  {
    var s' := After(s, step);
    if !step.ClearFlag? && !step.Cancel? {
      var t := step.t;
      if step.Spawn? {
        var u := step.u;
        assert HoldsToken(s.threads, t);
        assert forall x :: HoldsToken(s'.threads, x) <==> x == u || (HoldsToken(s.threads, x) && x != t);
      } else {
        assert forall x | x != t :: HoldsToken(s'.threads, x) <==> HoldsToken(s.threads, x);
        assert step.CallConnect? ==> !HoldsToken(s.threads, t) && HoldsToken(s'.threads, t);
        assert step.SetFlag? ==> HoldsToken(s.threads, t) && !HoldsToken(s'.threads, t);
        assert !step.CallConnect? && HoldsToken(s'.threads, t) ==> HoldsToken(s.threads, t) || s.connected;
        assert step.CallConnect? && Apart(s') ==> Quiet(s);
      }
    }
  }

  /** Attempts never overlap, with each other or with an established connection, exactly if Connect is only
      called from outside when nobody is connected, connecting or about to; however many loops report. */
  lemma {:induction false} OverlapFreeIff(states: seq<State>, steps: seq<Step>, k: nat)
    requires Run(states, steps) && k < |states|
    ensures (forall m | 0 <= m <= k :: Apart(states[m])) <==>
            (forall m | 0 <= m < k && steps[m].CallConnect? :: Quiet(states[m]))
  {
    assert Apart(states[0]);
    if k > 0 {
      OverlapFreeIff(states, steps, k - 1);
      if forall m | 0 <= m <= k - 1 :: Apart(states[m]) {
        assert Enabled(states[k - 1], steps[k - 1]) && Apart(states[k - 1]);
        StepStaysApartIff(states[k - 1], steps[k - 1]);
        assert states[k] == After(states[k - 1], steps[k - 1]);
        assert (forall m | 0 <= m <= k :: Apart(states[m])) <==> Apart(states[k]);
      }
    }
  }

  lemma {:induction false} CallsCount(states: seq<State>, steps: seq<Step>, m: nat, k: nat)
    requires Run(states, steps) && m <= k < |states|
    ensures states[m].calls <= states[k].calls
    ensures m < k && steps[m].CallConnect? ==> states[m].calls < states[k].calls
    decreases k
  {
    if m < k {
      CallsCount(states, steps, m, k - 1);
      assert Enabled(states[k - 1], steps[k - 1]);
    }
  }

  /** In particular, if Connect has been called once from outside, two attempts never overlap, none runs
      while the flag is set, and none runs beside a report that is about to start one. */
  lemma AttemptsNeverOverlap(states: seq<State>, steps: seq<Step>, k: nat, t: nat, u: nat)
    requires Run(states, steps) && k < |states| && states[k].calls <= 1
    requires HoldsToken(states[k].threads, t)
    ensures !states[k].connected
    ensures HoldsToken(states[k].threads, u) ==> t == u
  {
    forall m | 0 <= m < k && steps[m].CallConnect?
      ensures Quiet(states[m])
    {
      CallsCount(states, steps, m, k);
      TokensBounded(states, steps, m);
      assert forall x :: HoldsToken(states[m].threads, x) ==> x in Tokens(states[m].threads);
    }
    OverlapFreeIff(states, steps, k);
    assert Apart(states[k]);
  }

  // ---------- One reconnection for one loss ----------

  /** A report that finds the flag set, and so starts a reconnection. */
  predicate Wins(s: State, step: Step) {
    step.Report? && s.connected
  }

  lemma {:induction false} FlagStaysDown(states: seq<State>, steps: seq<Step>, i: nat, k: nat)
    requires Run(states, steps) && i <= k <= |steps| && !states[i].connected
    requires forall m | i <= m < k :: !steps[m].SetFlag?
    ensures !states[k].connected
    decreases k
  {
    if i < k {
      FlagStaysDown(states, steps, i, k - 1);
      assert Enabled(states[k - 1], steps[k - 1]);
    }
  }

  /** Between two reports that start a reconnection, an attempt has set the flag: of all the loops that
      notice one loss, only one reconnects. */
  lemma WinnersAlternate(states: seq<State>, steps: seq<Step>, i: nat, j: nat)
    requires Run(states, steps) && i < j < |steps|
    requires Wins(states[i], steps[i]) && Wins(states[j], steps[j])
    ensures exists m :: i < m < j && steps[m].SetFlag?
  {
    assert Enabled(states[i], steps[i]);
    if forall m | i + 1 <= m < j :: !steps[m].SetFlag? {
      FlagStaysDown(states, steps, i + 1, j);
      assert false;
    }
    var m :| i + 1 <= m < j && steps[m].SetFlag?;
  }

  // ---------- A loss leads to a reconnection ----------

  /** A goroutine that reconnects, or is about to start the loop that does. */
  predicate Reconnecting(threads: map<nat, Activity>, t: nat) {
    t in threads && (threads[t].Cleared? || (threads[t].Attempt? && threads[t].inLoop))
  }

  ghost predicate SomeoneReconnects(s: State) {
    exists t :: Reconnecting(s.threads, t)
  }

  /** The step by which a reconnecting goroutine gives up or is done: it sets the flag, AutoReconnect is off, or
      its loop goes round after the context was cancelled. */
  predicate EndsReconnecting(s: State, step: Step) {
    || (step.SetFlag? && Reconnecting(s.threads, step.t))
    || (step.Leave? && Is(s, step.t, Cleared))
    || (step.WakeUp? && s.cancelled)
  }

  lemma StepKeepsReconnecting(s: State, step: Step, t: nat)
    requires Enabled(s, step) && Reconnecting(s.threads, t) && !EndsReconnecting(s, step)
    ensures SomeoneReconnects(After(s, step))
  {
    var s' := After(s, step);
    if step.Spawn? && step.t == t {
      assert Reconnecting(s'.threads, step.u);
    } else {
      assert Reconnecting(s'.threads, t);
    }
  }

  lemma WinStartsReconnecting(s: State, step: Step)
    requires Enabled(s, step) && Wins(s, step)
    ensures !After(s, step).connected && SomeoneReconnects(After(s, step))
  {
    assert Reconnecting(After(s, step).threads, step.t);
  }

  /** Once a report has found the flag set, somebody is reconnecting, however many attempts fail, until one of
      them sets the flag; only turning AutoReconnect off or cancelling ends it otherwise. */
  lemma {:induction false} LossIsFollowedUp(states: seq<State>, steps: seq<Step>, i: nat, k: nat)
    requires Run(states, steps) && i < k < |states| && Wins(states[i], steps[i])
    requires forall m | i < m < k :: !EndsReconnecting(states[m], steps[m])
    ensures SomeoneReconnects(states[k])
    decreases k
  {
    var s, step := states[k - 1], steps[k - 1];
    assert Enabled(s, step) && states[k] == After(s, step);
    if k == i + 1 {
      WinStartsReconnecting(s, step);
    } else {
      LossIsFollowedUp(states, steps, i, k - 1);
      var t :| Reconnecting(s.threads, t);
      StepKeepsReconnecting(s, step, t);
    }
  }

  /** How many steps a reconnecting goroutine has to take if all goes well. */
  function StepsToFlag(a: Activity): nat {
    match a
    case Cleared => 5
    case Attempt(_, Waiting) => 4
    case Attempt(_, Dialing) => 3
    case Attempt(_, Shaking) => 2
    case Attempt(_, Ready) => 1
    case Serving => 0
    case Done => 0
  }

  lemma Append(states: seq<State>, steps: seq<Step>, step: Step) returns (more: seq<State>, taken: seq<Step>)
    requires Run(states, steps) && Enabled(states[|steps|], step)
    ensures Run(more, taken) && |taken| == |steps| + 1
    ensures states <= more && steps <= taken && more[|taken|] == After(states[|steps|], step)
  {
    more, taken := states + [After(states[|steps|], step)], steps + [step];
    forall k | 0 <= k < |taken|
      ensures Enabled(more[k], taken[k]) && more[k + 1] == After(more[k], taken[k])
    {
      if k < |steps| {
        assert more[k] == states[k] && more[k + 1] == states[k + 1] && taken[k] == steps[k];
      }
    }
  }

  lemma {:induction false} FreshThread(ids: set<nat>) returns (u: nat)
    ensures forall t | t in ids :: t < u
    decreases ids
  {
    u := 0;
    if ids != {} {
      var t :| t in ids;
      var rest := ids - {t};
      u := FreshThread(rest);
      u := if u <= t then t + 1 else u;
      assert forall x | x in ids :: x == t || x in rest;
    }
  }

  /** And it can succeed: from every reachable state in which somebody reconnects and nothing is cancelled, the
      run can go on until that goroutine, or the loop it starts, has connected. */
  lemma {:induction false} CanReconnect(states: seq<State>, steps: seq<Step>, t: nat)
    returns (allStates: seq<State>, allSteps: seq<Step>)
    requires Run(states, steps) && Reconnecting(states[|steps|].threads, t) && !states[|steps|].cancelled
    ensures Run(allStates, allSteps) && states <= allStates && steps <= allSteps
    ensures allStates[|allSteps|].connected && allSteps[|allSteps| - 1].SetFlag?
    decreases StepsToFlag(states[|steps|].threads[t])
  {
    var s := states[|steps|];
    var a := s.threads[t];
    if a.Cleared? {
      var u := FreshThread(s.threads.Keys);
      var more, taken := Append(states, steps, Spawn(t, u));
      allStates, allSteps := CanReconnect(more, taken, u);
    } else {
      var step := if a.stage == Waiting then WakeUp(t) else if a.stage == Ready then SetFlag(t) else Advance(t);
      var more, taken := Append(states, steps, step);
      if a.stage == Ready {
        allStates, allSteps := more, taken;
      } else {
        allStates, allSteps := CanReconnect(more, taken, t);
      }
    }
  }

  // ---------- Disconnecting ----------

  /** After Disconnect has cleared the flag, a loop that reports the loss starts no reconnection, until an
      attempt sets the flag again. */
  lemma DisconnectSilencesReports(states: seq<State>, steps: seq<Step>, i: nat, k: nat)
    requires Run(states, steps) && i < k < |steps| && steps[i].ClearFlag? && steps[k].Report?
    requires forall m | i < m < k :: !steps[m].SetFlag?
    ensures !states[k].connected && states[k + 1].threads[steps[k].t] == Done
  {
    assert Enabled(states[i], steps[i]) && states[i + 1] == After(states[i], steps[i]);
    FlagStaysDown(states, steps, i + 1, k);
    assert Enabled(states[k], steps[k]) && states[k + 1] == After(states[k], steps[k]);
  }

  lemma {:induction false} StaysCancelled(states: seq<State>, steps: seq<Step>, i: nat, k: nat)
    requires Run(states, steps) && i < k < |states| && steps[i].Cancel?
    ensures states[k].cancelled
    decreases k
  {
    assert Enabled(states[k - 1], steps[k - 1]) && states[k] == After(states[k - 1], steps[k - 1]);
    if k > i + 1 {
      StaysCancelled(states, steps, i, k - 1);
    }
  }

  /** Once Disconnect has cancelled the context, a reconnecting loop ends the next time it goes round. */
  lemma CancelStopsLoops(states: seq<State>, steps: seq<Step>, i: nat, k: nat)
    requires Run(states, steps) && i < k < |steps| && steps[i].Cancel? && steps[k].WakeUp?
    ensures states[k + 1].threads[steps[k].t] == Done
  {
    StaysCancelled(states, steps, i, k);
    assert Enabled(states[k], steps[k]) && states[k + 1] == After(states[k], steps[k]);
  }

  /** A step with which goroutine t ends: it has set the flag or found it down, has handed over to the loop it
      started, leaves, has failed outside the loop, or finds the context cancelled. */
  predicate Ends(s: State, step: Step, t: nat) {
    match step
    case SetFlag(u) => u == t
    case Report(u) => u == t && !s.connected
    case Spawn(u, _) => u == t
    case Leave(u) => u == t
    case Fail(u) => u == t && !Reconnecting(s.threads, t)
    case WakeUp(u) => u == t && s.cancelled
    case _ => false
  }

  /** Such a goroutine never does anything again; a failed attempt inside the loop does not end it. */
  lemma {:induction false} EndedForGood(states: seq<State>, steps: seq<Step>, i: nat, k: nat, t: nat)
    requires Run(states, steps) && i < k < |states| && Ends(states[i], steps[i], t)
    ensures Is(states[k], t, Done)
    decreases k
  {
    assert Enabled(states[k - 1], steps[k - 1]) && states[k] == After(states[k - 1], steps[k - 1]);
    if k > i + 1 {
      EndedForGood(states, steps, i, k - 1, t);
    }
  }

  /** A connection that is up can be served, and its loss be noticed: then somebody reconnects. */
  lemma LossCanBeNoticed(states: seq<State>, steps: seq<Step>)
    returns (allStates: seq<State>, allSteps: seq<Step>)
    requires Run(states, steps) && states[|steps|].connected
    ensures Run(allStates, allSteps) && states <= allStates && steps <= allSteps && |allSteps| == |steps| + 2
    ensures Wins(allStates[|steps| + 1], allSteps[|steps| + 1]) && SomeoneReconnects(allStates[|steps| + 2])
  {
    var u := FreshThread(states[|steps|].threads.Keys);
    allStates, allSteps := Append(states, steps, Serve(u));
    var s := allStates[|allSteps|];
    WinStartsReconnecting(s, Report(u));
    allStates, allSteps := Append(allStates, allSteps, Report(u));
  }

  /** The single outside call is needed: with two, two attempts can be under way at once. */
  lemma TwoCallsOverlap() returns (states: seq<State>, steps: seq<Step>)
    ensures Run(states, steps) && |steps| == 2
    ensures Trying(states[2], 0) && Trying(states[2], 1)
  {
    steps := [CallConnect(0), CallConnect(1)];
    var s0 := State(false, false, map[], 0);
    var s1 := After(s0, steps[0]);
    states := [s0, s1, After(s1, steps[1])];
  }
}
