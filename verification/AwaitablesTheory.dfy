/** What one poll of the channel future answers, stores and logs, in terms of its inputs alone. */
module AwaitablesTheory {
  import opened Prims
  import opened Awaitables
  import opened AwaitablesRuns

  /** The poll gets as far as phase `p`: it is at least 250 ms after the last failed
      check, and every earlier phase has passed before or passes now. */
  predicate Reaches(c: Channel, e: Env, p: Phase) {
    && (c.lastCheck.Some? ==> c.lastCheck.value + 250 <= e.now)
    && (p == GetVersion || c.version.Some? || e.version.Ok?)
    && (p == GetVersion || p == EnsurePeer || c.peerConnected || e.peer.Ok?)
    && (p == GetRoute || p == SpendableMsat ==> c.channelReady || e.billboard == Ok(true))
    && (p == SpendableMsat ==> c.routeFound || e.route.Ok?)
  }

  predicate Passed(c: Channel, p: Phase) {
    match p
    case GetVersion => c.version.Some?
    case EnsurePeer => c.peerConnected
    case Billboard => c.channelReady
    case GetRoute => c.routeFound
    case SpendableMsat => false
  }

  /** The poll polls the sub-future of phase `p`. */
  predicate Asks(c: Channel, e: Env, p: Phase) {
    Reaches(c, e, p) && !Passed(c, p)
  }

  /** An amount is answered exactly when the last phase is asked and answers it, an
      error exactly when a phase other than the route is asked and fails. */
  lemma PollAnswers(c: Channel, e: Env, before: seq<Event>)
    ensures var t := PollOnce(c, e, before);
            && (forall a: u64 :: t.outcome == Ready(Some(a)) <==>
                                 Asks(c, e, SpendableMsat) && e.spendable == Ok(a))
            && (t.outcome == Ready(None) <==>
                || (Asks(c, e, GetVersion) && e.version.Err?)
                || (Asks(c, e, EnsurePeer) && e.peer.Err?)
                || (Asks(c, e, Billboard) && e.billboard.Err?)
                || (Asks(c, e, SpendableMsat) && e.spendable.Err?))
  {
    if !Reaches(c, e, EnsurePeer) {
    } else if !Reaches(c, e, Billboard) {
    } else if !Reaches(c, e, GetRoute) {
    } else if !Reaches(c, e, SpendableMsat) {
    }
  }

  /** A phase passes exactly when it is asked and answers well; the back-off starts
      exactly when the billboard is not ready or no route is found. */
  lemma PollStores(c: Channel, e: Env, before: seq<Event>)
    ensures var d := PollOnce(c, e, before).channel;
            && d.version == (if Asks(c, e, GetVersion) && e.version.Ok? then Some(e.version.value) else c.version)
            && (d.peerConnected <==> c.peerConnected || (Asks(c, e, EnsurePeer) && e.peer.Ok?))
            && (d.channelReady <==> c.channelReady || (Asks(c, e, Billboard) && e.billboard == Ok(true)))
            && (d.routeFound <==> c.routeFound || (Asks(c, e, GetRoute) && e.route.Ok?))
            && d.lastCheck == (if || (Asks(c, e, Billboard) && e.billboard == Ok(false))
                                  || (Asks(c, e, GetRoute) && e.route.Err?)
                               then Some(e.resetAt) else c.lastCheck)
  {
    if !Reaches(c, e, EnsurePeer) {
    } else if !Reaches(c, e, Billboard) {
    } else if !Reaches(c, e, GetRoute) {
    } else if !Reaches(c, e, SpendableMsat) {
    }
  }

  /** A sub-future that is asked runs if it was absent, and completes with its answer. */
  function Next(s: Sub, waits: bool): Sub {
    if !waits then Completed else if s == Absent then Running else s
  }

  /** The sub-futures of the first two phases are never dropped, and stay if they are not asked. */
  lemma PollKeeps(c: Channel, e: Env, before: seq<Event>)
    ensures var d := PollOnce(c, e, before).channel;
            && d.getVersion == (if Asks(c, e, GetVersion) then Next(c.getVersion, e.version.NotYet?) else c.getVersion)
            && d.ensurePeer == (if Asks(c, e, EnsurePeer) then Next(c.ensurePeer, e.peer.NotYet?) else c.ensurePeer)
  {
    if !Reaches(c, e, EnsurePeer) {
    } else if !Reaches(c, e, Billboard) {
    } else if !Reaches(c, e, GetRoute) {
    } else if !Reaches(c, e, SpendableMsat) {
    }
  }

  /** A failed billboard attempt is dropped. */
  lemma PollDropsBillboard(c: Channel, e: Env, before: seq<Event>)
    ensures PollOnce(c, e, before).channel.billboard
         == if !Asks(c, e, Billboard) then c.billboard
            else if e.billboard == Ok(false) then Absent
            else Next(c.billboard, e.billboard.NotYet?)
  {
    if !Reaches(c, e, EnsurePeer) {
    } else if !Reaches(c, e, Billboard) {
    } else if !Reaches(c, e, GetRoute) {
    } else if !Reaches(c, e, SpendableMsat) {
    }
  }

  /** A failed route attempt is dropped. */
  lemma PollDropsRoute(c: Channel, e: Env, before: seq<Event>)
    ensures PollOnce(c, e, before).channel.getRoute
         == if !Asks(c, e, GetRoute) then c.getRoute
            else if e.route.Err? then Absent
            else Next(c.getRoute, e.route.NotYet?)
  {
    if !Reaches(c, e, EnsurePeer) {
    } else if !Reaches(c, e, Billboard) {
    } else if !Reaches(c, e, GetRoute) {
    } else if !Reaches(c, e, SpendableMsat) {
    }
  }

  lemma PollKeepsSpendable(c: Channel, e: Env, before: seq<Event>)
    ensures PollOnce(c, e, before).channel.spendable
         == if Asks(c, e, SpendableMsat) then Next(c.spendable, e.spendable.NotYet?) else c.spendable
  {
    if !Reaches(c, e, EnsurePeer) {
    } else if !Reaches(c, e, Billboard) {
    } else if !Reaches(c, e, GetRoute) {
    } else if !Reaches(c, e, SpendableMsat) {
    }
  }

  function SubOf(c: Channel, p: Phase): Sub {
    match p
    case GetVersion => c.getVersion
    case EnsurePeer => c.ensurePeer
    case Billboard => c.billboard
    case GetRoute => c.getRoute
    case SpendableMsat => c.spendable
  }

  /** The time at which the poll would make the sub-future of phase `p`. */
  function TimeOf(e: Env, p: Phase): nat {
    if p == Billboard then e.billboardAt else if p == GetRoute then e.routeAt else e.now
  }

  /** What the poll does in phase `p`: nothing, poll what is there, or make it and poll it. */
  function Log(c: Channel, e: Env, p: Phase): seq<Event> {
    if !Asks(c, e, p) then []
    else if SubOf(c, p) == Absent then [Made(p, TimeOf(e, p)), Asked(p, Running)]
    else [Asked(p, SubOf(c, p))]
  }

  /** Before phase `p`, a poll of `c` has changed nothing that phase `p` and the later ones look at. */
  predicate Untouched(c: Channel, d: Channel, p: Phase) {
    && d.spendable == c.spendable
    && d.routeFound == c.routeFound && d.getRoute == c.getRoute
    && (p != GetRoute ==> d.channelReady == c.channelReady && d.billboard == c.billboard)
    && (p != GetRoute && p != Billboard ==> d.peerConnected == c.peerConnected && d.ensurePeer == c.ensurePeer)
  }

  lemma RouteLogs(c: Channel, d: Channel, e: Env, before: seq<Event>)
    requires Reaches(c, e, GetRoute) && Untouched(c, d, GetRoute)
    ensures PollRoute(d, e, before).events == before + (Log(c, e, GetRoute) + Log(c, e, SpendableMsat))
  {
    Regroup(before, Log(c, e, GetRoute), Log(c, e, SpendableMsat));
  }

  lemma BillboardLogs(c: Channel, d: Channel, e: Env, before: seq<Event>)
    requires Reaches(c, e, Billboard) && Untouched(c, d, Billboard)
    ensures PollBillboard(d, e, before).events
         == before + (Log(c, e, Billboard) + (Log(c, e, GetRoute) + Log(c, e, SpendableMsat)))
  {
    var first := Log(c, e, Billboard);
    Regroup(before, first, Log(c, e, GetRoute) + Log(c, e, SpendableMsat));
    if c.channelReady {
      RouteLogs(c, d, e, before);
    } else if e.billboard == Ok(true) {
      RouteLogs(c, d.(billboard := Completed, channelReady := true), e, before + first);
    }
  }

  lemma PeerLogs(c: Channel, d: Channel, e: Env, before: seq<Event>)
    requires Reaches(c, e, EnsurePeer) && Untouched(c, d, EnsurePeer)
    ensures PollPeer(d, e, before).events
         == before + (Log(c, e, EnsurePeer)
                      + (Log(c, e, Billboard) + (Log(c, e, GetRoute) + Log(c, e, SpendableMsat))))
  {
    var first := Log(c, e, EnsurePeer);
    Regroup(before, first, Log(c, e, Billboard) + (Log(c, e, GetRoute) + Log(c, e, SpendableMsat)));
    if c.peerConnected {
      BillboardLogs(c, d, e, before);
    } else if e.peer.Ok? {
      BillboardLogs(c, d.(ensurePeer := Completed, peerConnected := true), e, before + first);
    }
  }

  lemma VersionLogs(c: Channel, e: Env, before: seq<Event>)
    requires Reaches(c, e, GetVersion)
    ensures PollVersion(c, e, before).events
         == before + (Log(c, e, GetVersion)
                      + (Log(c, e, EnsurePeer)
                         + (Log(c, e, Billboard) + (Log(c, e, GetRoute) + Log(c, e, SpendableMsat)))))
  {
    var first := Log(c, e, GetVersion);
    Regroup(before, first,
            Log(c, e, EnsurePeer) + (Log(c, e, Billboard) + (Log(c, e, GetRoute) + Log(c, e, SpendableMsat))));
    if c.version.Some? {
      PeerLogs(c, c, e, before);
    } else if e.version.Ok? {
      PeerLogs(c, c.(getVersion := Completed, version := Some(e.version.value)), e, before + first);
    }
  }

  /** The phases act in their order, each at most once. */
  lemma PollLogs(c: Channel, e: Env, before: seq<Event>)
    ensures PollOnce(c, e, before).events
         == before + (Log(c, e, GetVersion)
                      + (Log(c, e, EnsurePeer)
                         + (Log(c, e, Billboard) + (Log(c, e, GetRoute) + Log(c, e, SpendableMsat)))))
  {
    if Reaches(c, e, GetVersion) {
      VersionLogs(c, e, before);
    }
  }

  // ---------------------------------------------------------------- whole runs

  /** Poll `k` of a run asks phase `p`. */
  predicate AsksIn(envs: seq<Env>, k: nat, p: Phase) {
    k < |envs| && Run(envs[..k]).Some? && Asks(Run(envs[..k]).value.channel, envs[k], p)
  }

  lemma AsksInPrefix(envs: seq<Env>, p: Phase)
    requires envs != []
    ensures var n := |envs| - 1;
            && (forall k: nat :: k < n ==> (AsksIn(envs[..n], k, p) <==> AsksIn(envs, k, p)))
            && (AsksIn(envs, n, p) <==> Run(envs[..n]).Some? && Asks(Run(envs[..n]).value.channel, envs[n], p))
  {
    var n := |envs| - 1;
    forall k: nat | k < n ensures AsksIn(envs[..n], k, p) <==> AsksIn(envs, k, p) {
      assert envs[..n][..k] == envs[..k] && envs[..n][k] == envs[k];
    }
  }

  /** Phase `p` passed in poll `k` of the run. */
  predicate PassesIn(envs: seq<Env>, k: nat, p: Phase) {
    && AsksIn(envs, k, p)
    && match p
       case GetVersion => envs[k].version.Ok?
       case EnsurePeer => envs[k].peer.Ok?
       case Billboard => envs[k].billboard == Ok(true)
       case GetRoute => envs[k].route.Ok?
       case SpendableMsat => false
  }

  /** Poll `k` of the run failed a check that is made again later. */
  predicate FailsIn(envs: seq<Env>, k: nat) {
    || (AsksIn(envs, k, Billboard) && envs[k].billboard == Ok(false))
    || (AsksIn(envs, k, GetRoute) && envs[k].route.Err?)
  }

  lemma PassesInPrefix(envs: seq<Env>, p: Phase)
    requires envs != []
    ensures var n := |envs| - 1;
            (exists k: nat :: PassesIn(envs, k, p)) <==>
            (PassesIn(envs, n, p) || exists k: nat :: PassesIn(envs[..n], k, p))
  {
    var n := |envs| - 1;
    AsksInPrefix(envs, p);
    if k: nat :| PassesIn(envs, k, p) && k != n {
      assert PassesIn(envs[..n], k, p);
    }
    if k: nat :| PassesIn(envs[..n], k, p) {
      assert PassesIn(envs, k, p);
    }
  }

  /** In every run a phase has passed iff some poll asked it and it answered well. */
  lemma {:induction false} RunPassedExactly(envs: seq<Env>, p: Phase)
    requires Run(envs).Some?
    ensures Passed(Run(envs).value.channel, p) <==> exists k: nat :: PassesIn(envs, k, p)
  {
    if envs != [] {
      var n := |envs| - 1;
      RunPassedExactly(envs[..n], p);
      PassesInPrefix(envs, p);
      AsksInPrefix(envs, p);
      PollStores(Run(envs[..n]).value.channel, envs[n], Run(envs[..n]).value.events);
    }
  }

  /** In every run the stored version is the one a poll was answered. */
  lemma {:induction false} RunVersion(envs: seq<Env>)
    requires Run(envs).Some? && Run(envs).value.channel.version.Some?
    ensures exists k: nat :: PassesIn(envs, k, GetVersion)
                             && envs[k].version == Ok(Run(envs).value.channel.version.value)
  {
    var n := |envs| - 1;
    var c := Run(envs[..n]).value.channel;
    AsksInPrefix(envs, GetVersion);
    PollStores(c, envs[n], Run(envs[..n]).value.events);
    if c.version.Some? {
      RunVersion(envs[..n]);
      var k: nat :| PassesIn(envs[..n], k, GetVersion) && envs[..n][k].version == Ok(c.version.value);
      assert PassesIn(envs, k, GetVersion);
    } else {
      assert PassesIn(envs, n, GetVersion);
    }
  }

  lemma LastCheckStep(envs: seq<Env>)
    requires Run(envs).Some? && envs != []
    ensures var n := |envs| - 1;
            && Run(envs[..n]).Some?
            && Run(envs).value.channel.lastCheck
            == if FailsIn(envs, n) then Some(envs[n].resetAt) else Run(envs[..n]).value.channel.lastCheck
  {
    var n := |envs| - 1;
    AsksInPrefix(envs, Billboard);
    AsksInPrefix(envs, GetRoute);
    PollStores(Run(envs[..n]).value.channel, envs[n], Run(envs[..n]).value.events);
  }

  /** The latest poll of the run that failed a check. */
  ghost predicate LastFailure(envs: seq<Env>, k: nat) {
    && k < |envs|
    && FailsIn(envs, k)
    && forall j: nat :: k < j < |envs| ==> !FailsIn(envs, j)
  }

  lemma LastFailurePrefix(envs: seq<Env>, k: nat)
    requires LastFailure(envs, k) && k < |envs| - 1
    ensures LastFailure(envs[..|envs| - 1], k) && !FailsIn(envs, |envs| - 1)
  {
    AsksInPrefix(envs, Billboard);
    AsksInPrefix(envs, GetRoute);
    var n := |envs| - 1;
    forall j: nat | k < j < n ensures !FailsIn(envs[..n], j) {
      assert !FailsIn(envs, j);
    }
  }

  lemma {:induction false} BackOffSince(envs: seq<Env>, k: nat)
    requires Run(envs).Some? && LastFailure(envs, k)
    ensures Run(envs).value.channel.lastCheck == Some(envs[k].resetAt)
  {
    LastCheckStep(envs);
    if k < |envs| - 1 {
      LastFailurePrefix(envs, k);
      BackOffSince(envs[..|envs| - 1], k);
    }
  }

  lemma {:induction false} FailureBehindCheck(envs: seq<Env>)
    requires Run(envs).Some? && Run(envs).value.channel.lastCheck.Some?
    ensures exists k: nat :: LastFailure(envs, k)
  {
    var n := |envs| - 1;
    LastCheckStep(envs);
    if FailsIn(envs, n) {
      assert LastFailure(envs, n);
    } else {
      FailureBehindCheck(envs[..n]);
      var k: nat :| LastFailure(envs[..n], k);
      LastFailureExtends(envs, k);
    }
  }

  lemma LastFailureExtends(envs: seq<Env>, k: nat)
    requires envs != [] && LastFailure(envs[..|envs| - 1], k) && !FailsIn(envs, |envs| - 1)
    ensures LastFailure(envs, k)
  {
    AsksInPrefix(envs, Billboard);
    AsksInPrefix(envs, GetRoute);
    var n := |envs| - 1;
    forall j: nat | k < j < n ensures !FailsIn(envs, j) {
      assert !FailsIn(envs[..n], j);
    }
  }

  /** In every run the back-off counts from the latest failed check, and there is none before a failure. */
  lemma RunBackOffExactly(envs: seq<Env>, at: nat)
    requires Run(envs).Some?
    ensures Run(envs).value.channel.lastCheck == Some(at) <==>
            exists k: nat :: LastFailure(envs, k) && envs[k].resetAt == at
  {
    forall k: nat | LastFailure(envs, k) ensures Run(envs).value.channel.lastCheck == Some(envs[k].resetAt) {
      BackOffSince(envs, k);
    }
    if Run(envs).value.channel.lastCheck.Some? {
      FailureBehindCheck(envs);
    }
  }

  /** A run ends with amount `a` iff its last poll came 250 ms after the last failed
      check, each of the four checks had been answered well in some poll up to
      then, and the spendable amount was answered as `a`. */
  lemma {:induction false} RunAmountExactly(envs: seq<Env>, a: u64)
    requires Run(envs).Some? && envs != []
    ensures var last := |envs| - 1;
            var check := Run(envs[..last]).value.channel.lastCheck;
            Run(envs).value.outcome == Ready(Some(a)) <==>
            && (check.Some? ==> check.value + 250 <= envs[last].now)
            && (exists k: nat :: PassesIn(envs, k, GetVersion))
            && (exists k: nat :: PassesIn(envs, k, EnsurePeer))
            && (exists k: nat :: PassesIn(envs, k, Billboard))
            && (exists k: nat :: PassesIn(envs, k, GetRoute))
            && envs[last].spendable == Ok(a)
  {
    var n := |envs| - 1;
    var t := Run(envs[..n]).value;
    PollAnswers(t.channel, envs[n], t.events);
    PollStores(t.channel, envs[n], t.events);
    RunPassedExactly(envs, GetVersion);
    RunPassedExactly(envs, EnsurePeer);
    RunPassedExactly(envs, Billboard);
    RunPassedExactly(envs, GetRoute);
  }

  /** Once the channel works, it is found out: a poll after the back-off whose
      sub-futures all answer well ends any run with the spendable amount. */
  lemma GoodPollEnds(envs: seq<Env>, e: Env, a: u64)
    requires Run(envs).Some? && Run(envs).value.outcome.Pending?
    requires WellTimed(e) && Run(envs).value.clock + 250 <= e.now
    requires e.version.Ok? && e.peer.Ok? && e.billboard == Ok(true) && e.route.Ok? && e.spendable == Ok(a)
    ensures Run(envs + [e]).Some? && Run(envs + [e]).value.outcome == Ready(Some(a))
  {
    assert (envs + [e])[..|envs|] == envs;
    CheckInPast(envs);
    var t := Run(envs).value;
    PollAnswers(t.channel, e, t.events);
  }

  lemma {:induction false} CheckInPast(envs: seq<Env>)
    requires Run(envs).Some?
    ensures var t := Run(envs).value;
            t.channel.lastCheck.Some? ==> t.channel.lastCheck.value <= t.clock
  {
    if envs != [] {
      var n := |envs| - 1;
      CheckInPast(envs[..n]);
      PollStores(Run(envs[..n]).value.channel, envs[n], Run(envs[..n]).value.events);
    }
  }
}
