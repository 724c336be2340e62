/** Whole runs of the channel future, up to its first `Ready`. */
module AwaitablesRuns {
  import opened Prims
  import opened Awaitables

  datatype Trace = Trace(channel: Channel, events: seq<Event>, outcome: Outcome, clock: nat)

  /** The clock does not run backwards within a poll. */
  predicate WellTimed(e: Env) {
    e.now <= e.billboardAt <= e.routeAt <= e.resetAt
  }

  /** The polls one after the other, as long as the future is pending. */
  function Run(envs: seq<Env>): Option<Trace> {
    if envs == [] then Some(Trace(NEW_CHANNEL, [], Pending, 0))
    else
      var before := Run(envs[..|envs| - 1]);
      var e := envs[|envs| - 1];
      if before.Some? && before.value.outcome.Pending? && WellTimed(e) && before.value.clock <= e.now then
        var turn := PollOnce(before.value.channel, e, before.value.events);
        Some(Trace(turn.channel, turn.events, turn.outcome, e.resetAt))
      else None
  }

  /** Phases pass in order, a sub-future is completed exactly when its phase has
      passed, and none exists before its phase is reached. */
  predicate InPhase(c: Channel) {
    && (c.version.Some? <==> c.getVersion == Completed)
    && (c.peerConnected <==> c.ensurePeer == Completed)
    && (c.channelReady <==> c.billboard == Completed)
    && (c.routeFound <==> c.getRoute == Completed)
    && c.spendable != Completed
    && (c.peerConnected ==> c.version.Some?)
    && (c.channelReady ==> c.peerConnected)
    && (c.routeFound ==> c.channelReady)
    && (c.version == None ==> c.ensurePeer == Absent)
    && (!c.peerConnected ==> c.billboard == Absent)
    && (!c.channelReady ==> c.getRoute == Absent)
    && (!c.routeFound ==> c.spendable == Absent)
  }

  predicate AllPassed(c: Channel) {
    c.version.Some? && c.peerConnected && c.channelReady && c.routeFound
  }

  /** What has passed stays passed. */
  predicate Forward(c: Channel, d: Channel) {
    && (c.version.Some? ==> d.version == c.version)
    && (c.peerConnected ==> d.peerConnected)
    && (c.channelReady ==> d.channelReady)
    && (c.routeFound ==> d.routeFound)
  }

  /** No sub-future was polled after it had completed. */
  ghost predicate NoneReasked(events: seq<Event>) {
    forall k :: 0 <= k < |events| && events[k].Asked? ==> events[k].sub != Completed
  }

  /** Two attempts of phase `p` start at least the back-off delay apart. */
  ghost predicate Spaced(events: seq<Event>, p: Phase) {
    forall j, k :: 0 <= j < k < |events| && events[j].Made? && events[k].Made?
                   && events[j].phase == p && events[k].phase == p ==>
                     events[j].at + 250 <= events[k].at
  }

  /** All attempts of phase `p` lie in the past, and before the last check if none is under way. */
  ghost predicate Attempts(events: seq<Event>, p: Phase, sub: Sub, lastCheck: Option<nat>, clock: nat) {
    && Spaced(events, p)
    && forall k :: 0 <= k < |events| && events[k].Made? && events[k].phase == p ==>
         && events[k].at <= clock
         && (sub == Absent ==> lastCheck.Some? && events[k].at <= lastCheck.value)
  }

  ghost predicate History(c: Channel, events: seq<Event>, clock: nat) {
    && NoneReasked(events)
    && Attempts(events, Billboard, c.billboard, c.lastCheck, clock)
    && Attempts(events, GetRoute, c.getRoute, c.lastCheck, clock)
  }

  ghost predicate TurnOk(c: Channel, t: Turn, clock: nat) {
    && History(t.channel, t.events, clock)
    && Forward(c, t.channel)
    && (t.outcome.Pending? ==> InPhase(t.channel))
    && (t.outcome.Ready? && t.outcome.result.Some? ==> AllPassed(t.channel))
  }

  // ---------------------------------------------------------------- one poll, last phase first

  /** Asking phase `q` adds at most one attempt, and none to another phase `p`. */
  lemma AskOther(events: seq<Event>, p: Phase, q: Phase, sub: Sub, at: nat, s: Sub, lastCheck: Option<nat>, clock: nat)
    requires Attempts(events, p, s, lastCheck, clock) && p != q
    ensures Attempts(events + Ask(q, sub, at), p, s, lastCheck, clock)
  {
    var more := events + Ask(q, sub, at);
    assert forall k :: 0 <= k < |more| && more[k].Made? && more[k].phase == p ==> k < |events| && more[k] == events[k];
  }

  /** A new attempt starts at least the delay after the last check, and so after any earlier attempt. */
  lemma AskSame(events: seq<Event>, p: Phase, sub: Sub, at: nat, lastCheck: Option<nat>, now: nat, clock: nat)
    requires Attempts(events, p, sub, lastCheck, now) && now <= at <= clock
    requires lastCheck.Some? ==> now >= lastCheck.value + RPC_CALL_DELAY
    ensures var more := events + Ask(p, sub, at);
            && Spaced(more, p)
            && forall k :: 0 <= k < |more| && more[k].Made? && more[k].phase == p ==> more[k].at <= clock
  {
    var more := events + Ask(p, sub, at);
    assert forall k :: 0 <= k < |more| && more[k].Made? && more[k].phase == p ==>
        (k < |events| && more[k] == events[k]) || (k == |events| && sub == Absent && more[k].at == at);
  }

  lemma AskFresh(events: seq<Event>, p: Phase, sub: Sub, at: nat)
    requires NoneReasked(events) && sub != Completed
    ensures NoneReasked(events + Ask(p, sub, at))
  {
  }

  lemma SpendableOk(c: Channel, e: Env, before: seq<Event>)
    requires InPhase(c) && AllPassed(c) && WellTimed(e) && History(c, before, e.resetAt)
    ensures TurnOk(c, PollSpendable(c, e, before), e.resetAt)
  {
    AskFresh(before, SpendableMsat, c.spendable, e.now);
    AskOther(before, Billboard, SpendableMsat, c.spendable, e.now, c.billboard, c.lastCheck, e.resetAt);
    AskOther(before, GetRoute, SpendableMsat, c.spendable, e.now, c.getRoute, c.lastCheck, e.resetAt);
  }

  lemma ClockAdvances(c: Channel, events: seq<Event>, clock: nat, later: nat)
    requires History(c, events, clock) && clock <= later
    ensures History(c, events, later)
  {
  }

  lemma RouteOk(c: Channel, e: Env, before: seq<Event>)
    requires InPhase(c) && c.channelReady && WellTimed(e)
    requires NoneReasked(before) && Attempts(before, Billboard, c.billboard, c.lastCheck, e.resetAt)
    requires Attempts(before, GetRoute, c.getRoute, c.lastCheck, e.now) && !BacksOff(c, e.now)
    ensures TurnOk(c, PollRoute(c, e, before), e.resetAt)
  {
    if c.routeFound {
      SpendableOk(c, e, before);
    } else {
      var events := before + Ask(GetRoute, c.getRoute, e.routeAt);
      AskFresh(before, GetRoute, c.getRoute, e.routeAt);
      AskOther(before, Billboard, GetRoute, c.getRoute, e.routeAt, c.billboard, c.lastCheck, e.resetAt);
      AskSame(before, GetRoute, c.getRoute, e.routeAt, c.lastCheck, e.now, e.resetAt);
      if e.route.Ok? {
        SpendableOk(c.(getRoute := Completed, routeFound := true), e, events);
      }
    }
  }

  lemma BillboardOk(c: Channel, e: Env, before: seq<Event>)
    requires InPhase(c) && c.peerConnected && WellTimed(e)
    requires History(c, before, e.now) && !BacksOff(c, e.now)
    ensures TurnOk(c, PollBillboard(c, e, before), e.resetAt)
  {
    if c.channelReady {
      RouteOk(c, e, before);
    } else {
      var events := before + Ask(Billboard, c.billboard, e.billboardAt);
      AskFresh(before, Billboard, c.billboard, e.billboardAt);
      AskOther(before, GetRoute, Billboard, c.billboard, e.billboardAt, c.getRoute, c.lastCheck, e.now);
      AskSame(before, Billboard, c.billboard, e.billboardAt, c.lastCheck, e.now, e.resetAt);
      if e.billboard == Ok(true) {
        RouteOk(c.(billboard := Completed, channelReady := true), e, events);
      }
    }
  }

  lemma PeerOk(c: Channel, e: Env, before: seq<Event>)
    requires InPhase(c) && c.version.Some? && WellTimed(e)
    requires History(c, before, e.now) && !BacksOff(c, e.now)
    ensures TurnOk(c, PollPeer(c, e, before), e.resetAt)
  {
    if c.peerConnected {
      BillboardOk(c, e, before);
    } else {
      var events := before + Ask(EnsurePeer, c.ensurePeer, e.now);
      AskFresh(before, EnsurePeer, c.ensurePeer, e.now);
      AskOther(before, Billboard, EnsurePeer, c.ensurePeer, e.now, c.billboard, c.lastCheck, e.now);
      AskOther(before, GetRoute, EnsurePeer, c.ensurePeer, e.now, c.getRoute, c.lastCheck, e.now);
      if e.peer.Ok? {
        BillboardOk(c.(ensurePeer := Completed, peerConnected := true), e, events);
      }
    }
  }

  lemma PollOk(c: Channel, e: Env, before: seq<Event>)
    requires InPhase(c) && WellTimed(e) && History(c, before, e.now)
    ensures TurnOk(c, PollOnce(c, e, before), e.resetAt)
  {
    if !BacksOff(c, e.now) {
      if c.version.Some? {
        PeerOk(c, e, before);
      } else {
        var events := before + Ask(GetVersion, c.getVersion, e.now);
        AskFresh(before, GetVersion, c.getVersion, e.now);
        AskOther(before, Billboard, GetVersion, c.getVersion, e.now, c.billboard, c.lastCheck, e.now);
        AskOther(before, GetRoute, GetVersion, c.getVersion, e.now, c.getRoute, c.lastCheck, e.now);
        if e.version.Ok? {
          PeerOk(c.(getVersion := Completed, version := Some(e.version.value)), e, events);
        }
      }
    }
  }

  // ---------------------------------------------------------------- main results

  /** In every run up to the first `Ready`: no sub-future is polled after it
      completed; two billboard or two route attempts start at least 250 ms
      apart; phases have passed in order; and an amount is only returned
      when all four phases have passed. */
  lemma {:induction false} RunOk(envs: seq<Env>)
    requires Run(envs).Some?
    ensures var t := Run(envs).value;
            && NoneReasked(t.events)
            && Spaced(t.events, Billboard) && Spaced(t.events, GetRoute)
            && (t.outcome.Pending? ==> InPhase(t.channel))
            && (t.outcome.Ready? && t.outcome.result.Some? ==> AllPassed(t.channel))
            && History(t.channel, t.events, t.clock)
  {
    if envs != [] {
      var n := |envs| - 1;
      RunOk(envs[..n]);
      var t := Run(envs[..n]).value;
      ClockAdvances(t.channel, t.events, t.clock, envs[n].now);
      PollOk(t.channel, envs[n], t.events);
    }
  }

  /** In every run a phase that has passed never has to pass again. */
  lemma {:induction false} RunMovesForward(envs: seq<Env>, m: nat)
    requires m <= |envs| && Run(envs).Some?
    ensures Run(envs[..m]).Some? && Forward(Run(envs[..m]).value.channel, Run(envs).value.channel)
  {
    if m < |envs| {
      var n := |envs| - 1;
      RunMovesForward(envs[..n], m);
      assert envs[..n][..m] == envs[..m];
      RunOk(envs[..n]);
      var t := Run(envs[..n]).value;
      ClockAdvances(t.channel, t.events, t.clock, envs[n].now);
      PollOk(t.channel, envs[n], t.events);
    } else {
      assert envs[..m] == envs;
    }
  }
}
