/** The future that waits until a channel can be used: five sub-futures polled
    in phases, with a back-off after a failed check. */
module Awaitables {
  import opened Prims

  datatype Phase = GetVersion | EnsurePeer | Billboard | GetRoute | SpendableMsat

  /** An optional boxed sub-future: absent, pending, or completed but still there. */
  datatype Sub = Absent | Running | Completed

  datatype Polled<T> = NotYet | Ok(value: T) | Err

  /** What one poll meets: the clock when it starts and when it makes or resets a
      sub-future, and how each sub-future answers if it is polled. */
  datatype Env = Env(now: nat, billboardAt: nat, routeAt: nat, resetAt: nat,
                     version: Polled<string>, peer: Polled<()>, billboard: Polled<bool>,
                     route: Polled<()>, spendable: Polled<u64>)

  datatype Outcome = Pending | Ready(result: Option<u64>)

  /** A sub-future is made at some time, or polled in some state. */
  datatype Event = Made(phase: Phase, at: nat) | Asked(phase: Phase, sub: Sub)

  datatype Channel = Channel(version: Option<string>, peerConnected: bool, channelReady: bool, routeFound: bool,
                             lastCheck: Option<nat>, getVersion: Sub, ensurePeer: Sub, billboard: Sub,
                             getRoute: Sub, spendable: Sub)

  datatype Turn = Turn(channel: Channel, outcome: Outcome, events: seq<Event>)

  /** Milliseconds between consecutive calls of the same kind. */
  const RPC_CALL_DELAY: nat := 250

  const NEW_CHANNEL: Channel :=
    Channel(None, false, false, false, None, Absent, Absent, Absent, Absent, Absent)

  function Ask(p: Phase, s: Sub, at: nat): seq<Event> {
    if s == Absent then [Made(p, at), Asked(p, Running)] else [Asked(p, s)]
  }

  function Or(s: Sub, done: bool): Sub {
    if done then Completed else if s == Absent then Running else s
  }

  function PollSpendable(c: Channel, e: Env, before: seq<Event>): Turn {
    var events := before + Ask(SpendableMsat, c.spendable, e.now);
    match e.spendable
    case NotYet => Turn(c.(spendable := Or(c.spendable, false)), Pending, events)
    case Ok(amount) => Turn(c.(spendable := Completed), Ready(Some(amount)), events)
    case Err => Turn(c.(spendable := Completed), Ready(None), events)
  }

  function PollRoute(c: Channel, e: Env, before: seq<Event>): Turn {
    if c.routeFound then PollSpendable(c, e, before)
    else
      var events := before + Ask(GetRoute, c.getRoute, e.routeAt);
      match e.route
      case NotYet => Turn(c.(getRoute := Or(c.getRoute, false)), Pending, events)
      case Ok(_) => PollSpendable(c.(getRoute := Completed, routeFound := true), e, events)
      case Err => Turn(c.(getRoute := Absent, lastCheck := Some(e.resetAt)), Pending, events)
  }

  function PollBillboard(c: Channel, e: Env, before: seq<Event>): Turn {
    if c.channelReady then PollRoute(c, e, before)
    else
      var events := before + Ask(Billboard, c.billboard, e.billboardAt);
      match e.billboard
      case NotYet => Turn(c.(billboard := Or(c.billboard, false)), Pending, events)
      case Ok(true) => PollRoute(c.(billboard := Completed, channelReady := true), e, events)
      case Ok(false) => Turn(c.(billboard := Absent, lastCheck := Some(e.resetAt)), Pending, events)
      case Err => Turn(c.(billboard := Completed), Ready(None), events)
  }

  function PollPeer(c: Channel, e: Env, before: seq<Event>): Turn {
    if c.peerConnected then PollBillboard(c, e, before)
    else
      var events := before + Ask(EnsurePeer, c.ensurePeer, e.now);
      match e.peer
      case NotYet => Turn(c.(ensurePeer := Or(c.ensurePeer, false)), Pending, events)
      case Ok(_) => PollBillboard(c.(ensurePeer := Completed, peerConnected := true), e, events)
      case Err => Turn(c.(ensurePeer := Completed), Ready(None), events)
  }

  function PollVersion(c: Channel, e: Env, before: seq<Event>): Turn {
    if c.version.Some? then PollPeer(c, e, before)
    else
      var events := before + Ask(GetVersion, c.getVersion, e.now);
      match e.version
      case NotYet => Turn(c.(getVersion := Or(c.getVersion, false)), Pending, events)
      case Ok(v) => PollPeer(c.(getVersion := Completed, version := Some(v)), e, events)
      case Err => Turn(c.(getVersion := Completed), Ready(None), events)
  }

  predicate BacksOff(c: Channel, now: nat) {
    c.lastCheck.Some? && now - c.lastCheck.value < RPC_CALL_DELAY
  }

  /** One poll; `before` are the events of the earlier ones. */
  function PollOnce(c: Channel, e: Env, before: seq<Event>): Turn {
    if BacksOff(c, e.now) then Turn(c, Pending, before) else PollVersion(c, e, before)
  }

  class AwaitableChannel {
    var version: Option<string>
    var peerConnected: bool
    var channelReady: bool
    var routeFound: bool
    var lastCheck: Option<nat>
    var getVersion: Sub
    var ensurePeer: Sub
    var billboard: Sub
    var getRoute: Sub
    var spendable: Sub

    function View(): Channel
      reads this
    {
      Channel(version, peerConnected, channelReady, routeFound, lastCheck,
              getVersion, ensurePeer, billboard, getRoute, spendable)
    }

    constructor ()
      ensures View() == NEW_CHANNEL
      ensures version == None && !peerConnected && !channelReady && !routeFound && lastCheck == None
      ensures {getVersion, ensurePeer, billboard, getRoute, spendable} == {Absent}
    {
      version, peerConnected, channelReady, routeFound, lastCheck := None, false, false, false, None;
      getVersion, ensurePeer, billboard, getRoute, spendable := Absent, Absent, Absent, Absent, Absent;
    }

    /** One phase of the poll: `None` goes on to the next phase. */
    method VersionPhase(e: Env, before: seq<Event>) returns (r: Option<Outcome>, events: seq<Event>)
      modifies this
      ensures r.Some? ==> PollVersion(old(View()), e, before) == Turn(View(), r.value, events)
      ensures r.None? ==> PollVersion(old(View()), e, before) == PollPeer(View(), e, events)
    {
      r, events := None, before;
      if version == None {
        events := before + Ask(GetVersion, getVersion, e.now);
        if getVersion == Absent {
          getVersion := Running;
        }
        match e.version {
          case NotYet => r := Some(Pending);
          case Ok(v) =>
            getVersion := Completed;
            version := Some(v);
          case Err =>
            getVersion := Completed;
            r := Some(Ready(None));
        }
      }
    }

    method PeerPhase(e: Env, before: seq<Event>) returns (r: Option<Outcome>, events: seq<Event>)
      modifies this
      ensures r.Some? ==> PollPeer(old(View()), e, before) == Turn(View(), r.value, events)
      ensures r.None? ==> PollPeer(old(View()), e, before) == PollBillboard(View(), e, events)
    {
      r, events := None, before;
      if !peerConnected {
        events := before + Ask(EnsurePeer, ensurePeer, e.now);
        if ensurePeer == Absent {
          ensurePeer := Running;
        }
        match e.peer {
          case NotYet => r := Some(Pending);
          case Ok(_) =>
            ensurePeer := Completed;
            peerConnected := true;
          case Err =>
            ensurePeer := Completed;
            r := Some(Ready(None));
        }
      }
    }

    method BillboardPhase(e: Env, before: seq<Event>) returns (r: Option<Outcome>, events: seq<Event>)
      modifies this
      ensures r.Some? ==> PollBillboard(old(View()), e, before) == Turn(View(), r.value, events)
      ensures r.None? ==> PollBillboard(old(View()), e, before) == PollRoute(View(), e, events)
    {
      r, events := None, before;
      if !channelReady {
        events := before + Ask(Billboard, billboard, e.billboardAt);
        if billboard == Absent {
          billboard := Running;
        }
        match e.billboard {
          case NotYet => r := Some(Pending);
          case Ok(up) =>
            if !up {
              lastCheck := Some(e.resetAt);
              billboard := Absent;
              return Some(Pending), events;
            }
            billboard := Completed;
            channelReady := true;
          case Err =>
            billboard := Completed;
            r := Some(Ready(None));
        }
      }
    }

    method RoutePhase(e: Env, before: seq<Event>) returns (r: Option<Outcome>, events: seq<Event>)
      modifies this
      ensures r.Some? ==> PollRoute(old(View()), e, before) == Turn(View(), r.value, events)
      ensures r.None? ==> PollRoute(old(View()), e, before) == PollSpendable(View(), e, events)
    {
      r, events := None, before;
      if !routeFound {
        events := before + Ask(GetRoute, getRoute, e.routeAt);
        if getRoute == Absent {
          getRoute := Running;
        }
        match e.route {
          case NotYet => r := Some(Pending);
          case Ok(_) =>
            getRoute := Completed;
            routeFound := true;
          case Err =>
            lastCheck := Some(e.resetAt);
            getRoute := Absent;
            r := Some(Pending);
        }
      }
    }

    method SpendablePhase(e: Env, before: seq<Event>) returns (r: Outcome, events: seq<Event>)
      modifies this
      ensures PollSpendable(old(View()), e, before) == Turn(View(), r, events)
    {
      events := before + Ask(SpendableMsat, spendable, e.now);
      if spendable == Absent {
        spendable := Running;
      }
      match e.spendable {
        case NotYet => r := Pending;
        case Ok(amount) =>
          spendable := Completed;
          r := Ready(Some(amount));
        case Err =>
          spendable := Completed;
          r := Ready(None);
      }
    }

    method Poll(e: Env, before: seq<Event>) returns (r: Outcome, events: seq<Event>)
      modifies this
      ensures PollOnce(old(View()), e, before) == Turn(View(), r, events)
    {
      events := before;
      if lastCheck.Some? && e.now - lastCheck.value < RPC_CALL_DELAY {
        return Pending, events;
      }
      var early: Option<Outcome>;
      early, events := VersionPhase(e, events);
      if early.Some? {
        return early.value, events;
      }
      early, events := PeerPhase(e, events);
      if early.Some? {
        return early.value, events;
      }
      early, events := BillboardPhase(e, events);
      if early.Some? {
        return early.value, events;
      }
      early, events := RoutePhase(e, events);
      if early.Some? {
        return early.value, events;
      }
      r, events := SpendablePhase(e, events);
    }
  }
}
