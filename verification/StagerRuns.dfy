/** Whole runs of the stager: any interleaving of sends, attaches, receives, responses and drops. */
module StagerRuns {
  import opened Prims
  import opened Stager

  /** A stream with its history: what was pending when it attached, the length
      of the log then, what it yielded, and the places, counted in what it is due,
      of the requests that the broadcast channel dropped. */
  datatype Tap = Tap(backlog: seq<Request>, pos: nat, live: bool,
                     snapshot: seq<Request>, since: nat, yielded: seq<Request>, lost: seq<nat>)

  datatype World = World(hub: Hub, taps: seq<Tap>)

  datatype Step =
    | Send(id: u32, raw: seq<u8>)
    | Attach(order: seq<Request>)
    | Next(s: nat)
    | Drop(s: nat)
    | Respond(resp: Response)
    | Take(reply: nat)
    | Abandon(reply: nat)

  /** Sends use fresh request ids; the other guards say when the step exists at all. */
  ghost predicate Enabled(w: World, step: Step) {
    match step
    case Send(id, _) => forall k :: 0 <= k < |w.hub.log| ==> w.hub.log[k].id != id
    case Attach(order) => Enumerates(order, w.hub.requests)
    case Next(s) => s < |w.taps| && w.taps[s].live
    case Drop(s) => s < |w.taps| && w.taps[s].live
    case Respond(_) => true
    case Take(i) => i < |w.hub.slots| && w.hub.slots[i].open && w.hub.slots[i].Full()
    case Abandon(i) => i < |w.hub.slots|
  }

  function YieldBacklog(t: Tap): Tap
    requires t.backlog != []
  {
    t.(backlog := t.backlog[1..], yielded := t.yielded + [t.backlog[0]])
  }

  function YieldQueued(t: Tap, r: Request): Tap {
    t.(pos := t.pos + 1, yielded := t.yielded + [r])
  }

  function LoseQueued(t: Tap, missed: nat): Tap {
    t.(pos := t.pos + missed, lost := t.lost + seq(missed, k => PlaceOf(t, t.pos) + k))
  }

  function NextTap(log: seq<Request>, t: Tap, cap: nat): Tap {
    if t.backlog != [] then YieldBacklog(t)
    else
      match Receive(log, t.pos, cap)
      case Pending => t
      case Lagged(missed) => LoseQueued(t, missed)
      case Got(r) => YieldQueued(t, r)
  }

  /** Where the request at `pos` of the log stands in what the stream is due. */
  function PlaceOf(t: Tap, pos: nat): nat {
    if pos < t.since then 0 else |t.snapshot| + (pos - t.since)
  }

  ghost function Apply(cap: nat, w: World, step: Step): World
    requires Enabled(w, step)
  {
    match step
    case Send(id, raw) => w.(hub := Sent(w.hub, id, raw))
    case Attach(order) =>
      World(w.hub.(connections := w.hub.connections + 1),
            w.taps + [Tap(order, |w.hub.log|, true, order, |w.hub.log|, [], [])])
    case Next(s) => w.(taps := w.taps[s := NextTap(w.hub.log, w.taps[s], cap)])
    case Drop(s) =>
      World(w.hub.(connections := w.hub.connections - 1), w.taps[s := w.taps[s].(live := false)])
    case Respond(resp) => w.(hub := AfterRespond(w.hub, resp))
    case Take(i) =>
      w.(hub := w.hub.(slots := w.hub.slots[i := w.hub.slots[i].(taken := w.hub.slots[i].taken + 1)]))
    case Abandon(i) => w.(hub := w.hub.(slots := w.hub.slots[i := w.hub.slots[i].(open := false)]))
  }

  const START: World := World(Hub(map[], [], 0, []), [])

  /** The world after the steps, if each was enabled when taken. */
  ghost function Run(cap: nat, steps: seq<Step>): Option<World> {
    if steps == [] then Some(START)
    else
      var before := Run(cap, steps[..|steps| - 1]);
      var step := steps[|steps| - 1];
      if before.Some? && Enabled(before.value, step) then Some(Apply(cap, before.value, step)) else None
  }

  // ---------------------------------------------------------------- the invariant

  predicate IsPending(h: Hub, i: nat)
    requires i < |h.log|
  {
    h.log[i].id in h.requests
  }

  /** The reply channel of request `i` has carried at most one response, to that
      request, and none while the request is pending. */
  predicate SlotOk(h: Hub, i: nat)
    requires i < |h.log| == |h.slots|
  {
    var slot := h.slots[i];
    && |slot.put| <= 1 && slot.taken <= |slot.put|
    && (slot.put != [] ==> slot.put[0].id == h.log[i].id)
    && (IsPending(h, i) ==> slot.put == [])
    && (!IsPending(h, i) && slot.put == [] ==> !slot.open)
  }

  ghost predicate HubInv(h: Hub) {
    && |h.slots| == |h.log|
    && (forall i :: 0 <= i < |h.log| ==> h.log[i].reply == i)
    && (forall i, j :: 0 <= i < j < |h.log| ==> h.log[i].id != h.log[j].id)
    && (forall id :: id in h.requests ==>
          var r := h.requests[id];
          r.id == id && r.reply < |h.log| && h.log[r.reply] == r)
    && (forall i :: 0 <= i < |h.log| ==> SlotOk(h, i))
  }

  /** What stream `t` was or still is to be given: what was pending when it attached, then all sent since. */
  function Due(h: Hub, t: Tap): seq<Request>
    requires t.since <= |h.log|
  {
    t.snapshot + h.log[t.since..]
  }

  /** The snapshot is a duplicate-free list of earlier requests and covers all of them still pending. */
  ghost predicate SnapshotOk(h: Hub, t: Tap)
    requires t.since <= |h.log|
  {
    && (forall k :: 0 <= k < |t.snapshot| ==>
          t.snapshot[k].reply < t.since && h.log[t.snapshot[k].reply] == t.snapshot[k])
    && (forall k, l :: 0 <= k < l < |t.snapshot| ==> t.snapshot[k] != t.snapshot[l])
    && (forall i :: 0 <= i < t.since && IsPending(h, i) ==> h.log[i] in t.snapshot)
  }

  /** The list without the places in `lost`. */
  function Kept(rs: seq<Request>, lost: seq<nat>): seq<Request> {
    if rs == [] then []
    else Kept(rs[..|rs| - 1], lost) + if |rs| - 1 in lost then [] else [rs[|rs| - 1]]
  }

  ghost predicate TapInv(cap: nat, h: Hub, t: Tap) {
    && t.since <= t.pos <= |h.log|
    && (t.backlog != [] ==> t.pos == t.since && t.lost == [])
    && (t.lost != [] ==> |h.log| - t.since > cap)
    && (forall k :: k in t.lost ==> k < PlaceOf(t, t.pos))
    && t.yielded + t.backlog + h.log[t.pos..] == Kept(Due(h, t), t.lost)
    && SnapshotOk(h, t)
  }

  function LiveCount(taps: seq<Tap>): nat {
    if taps == [] then 0
    else LiveCount(taps[..|taps| - 1]) + if taps[|taps| - 1].live then 1 else 0
  }

  ghost predicate Inv(cap: nat, w: World) {
    && HubInv(w.hub)
    && (forall s :: 0 <= s < |w.taps| ==> TapInv(cap, w.hub, w.taps[s]))
    && w.hub.connections == LiveCount(w.taps)
  }

  // ---------------------------------------------------------------- every step keeps it

  lemma SendKeepsTap(cap: nat, h: Hub, id: u32, raw: seq<u8>, t: Tap)
    requires HubInv(h) && TapInv(cap, h, t) && forall k :: 0 <= k < |h.log| ==> h.log[k].id != id
    ensures TapInv(cap, Sent(h, id, raw), t)
  {
    var h' := Sent(h, id, raw);
    var r := Request(id, raw, |h.slots|);
    assert h'.log[t.pos..] == h.log[t.pos..] + [r];
    assert Due(h', t) == Due(h, t) + [r];
    assert Kept(Due(h', t), t.lost) == Kept(Due(h, t), t.lost) + [r] by {
      assert Due(h', t)[..|Due(h, t)|] == Due(h, t);
    }
    assert t.yielded + t.backlog + h'.log[t.pos..] == t.yielded + t.backlog + h.log[t.pos..] + [r];
    SentKeepsSnapshot(h, id, raw, t);
  }

  /** A request sent later is not one of those pending when the stream attached: ids are not reused. */
  lemma SentKeepsSnapshot(h: Hub, id: u32, raw: seq<u8>, t: Tap)
    requires HubInv(h) && t.since <= |h.log| && SnapshotOk(h, t)
    requires forall k :: 0 <= k < |h.log| ==> h.log[k].id != id
    ensures SnapshotOk(Sent(h, id, raw), t)
  {
    var h' := Sent(h, id, raw);
    forall i | 0 <= i < t.since && IsPending(h', i) ensures h'.log[i] in t.snapshot {
      assert IsPending(h, i);
    }
  }

  lemma SendKeepsHub(h: Hub, id: u32, raw: seq<u8>)
    requires HubInv(h) && forall k :: 0 <= k < |h.log| ==> h.log[k].id != id
    ensures HubInv(Sent(h, id, raw))
  {
    var h' := Sent(h, id, raw);
    forall i | 0 <= i < |h'.log| ensures SlotOk(h', i) {
      if i < |h.log| {
        assert SlotOk(h, i);
      }
    }
  }

  /** What a response meets: nobody asked, nobody listens any more, the previous
      answer was not taken, or it is delivered. */
  lemma RespondExactly(h: Hub, resp: Response)
    requires resp.id in h.requests ==> h.requests[resp.id].reply < |h.slots|
    ensures RespondOutcome(h, resp) == Unknown <==> resp.id !in h.requests
    ensures resp.id in h.requests ==>
              var i, r := h.requests[resp.id].reply, RespondOutcome(h, resp);
              && (r == RequesterGone <==> !h.slots[i].open)
              && (r == Blocked <==> h.slots[i].open && |h.slots[i].put| - h.slots[i].taken >= 1)
              && AfterRespond(h, resp).slots ==
                 if r == Delivered then h.slots[i := h.slots[i].(put := h.slots[i].put + [resp])] else h.slots
  {
  }

  lemma RespondKeepsHub(h: Hub, resp: Response)
    requires HubInv(h)
    ensures HubInv(AfterRespond(h, resp))
    ensures AfterRespond(h, resp).log == h.log
    ensures RespondOutcome(h, resp) != Blocked
  {
    var h' := AfterRespond(h, resp);
    if resp.id in h.requests {
      assert SlotOk(h, h.requests[resp.id].reply);
    }
    forall i | 0 <= i < |h'.log| ensures SlotOk(h', i) {
      assert SlotOk(h, i);
    }
  }

  lemma {:induction false} KeptTail(rs: seq<Request>, m: nat, lost: seq<nat>)
    requires m <= |rs| && forall k :: k in lost ==> k < m
    ensures Kept(rs, lost) == Kept(rs[..m], lost) + rs[m..]
  {
    var n := |rs| - 1;
    if m == |rs| {
      assert rs[..m] == rs;
    } else {
      KeptTail(rs[..n], m, lost);
      assert rs[..n][..m] == rs[..m];
      assert rs[m..] == rs[..n][m..] + [rs[n]];
    }
  }

  lemma {:induction false} KeptDropped(rs: seq<Request>, m: nat, lost: seq<nat>, more: seq<nat>)
    requires m <= |rs| && forall k :: m <= k < |rs| ==> k in more
    requires forall k :: 0 <= k < m ==> (k in more <==> k in lost)
    ensures Kept(rs, more) == Kept(rs[..m], lost)
  {
    if rs != [] {
      var n := |rs| - 1;
      if m == |rs| {
        KeptDropped(rs[..n], n, lost, more);
        assert rs[..m] == rs && rs[..n][..n] == rs[..n];
      } else {
        KeptDropped(rs[..n], m, lost, more);
        assert rs[..n][..m] == rs[..m];
      }
    }
  }

  /** Of what is due, the requests from log position `pos` on are the queue. */
  lemma DueFrom(h: Hub, t: Tap, pos: nat)
    requires t.since <= pos <= |h.log|
    ensures PlaceOf(t, pos) <= |Due(h, t)| && Due(h, t)[PlaceOf(t, pos)..] == h.log[pos..]
  {
  }

  lemma KeptLag(yielded: seq<Request>, due: seq<Request>, m: nat, n: nat, lost: seq<nat>, more: seq<nat>)
    requires m <= n <= |due| && yielded + due[m..] == Kept(due, lost)
    requires forall k :: k in lost ==> k < m
    requires forall k :: k in more <==> k in lost || m <= k < n
    ensures yielded + due[n..] == Kept(due, more)
  {
    KeptTail(due, m, lost);
    SamePrefix(yielded, Kept(due[..m], lost), due[m..]);
    assert due[..n][..m] == due[..m];
    KeptDropped(due[..n], m, lost, more);
    KeptTail(due, n, more);
  }

  lemma Missed(lost: seq<nat>, m: nat, missed: nat)
    ensures forall k :: k in lost + seq(missed, j => m + j) <==> k in lost || m <= k < m + missed
  {
    var tail := seq(missed, j => m + j);
    forall k | m <= k < m + missed ensures k in tail {
      assert tail[k - m] == k;
    }
  }

  /** Dropping the queue up to position `next` loses exactly those requests. */
  lemma LagKeepsTap(cap: nat, h: Hub, t: Tap, missed: nat)
    requires TapInv(cap, h, t) && t.backlog == [] && t.pos + missed <= |h.log| && |h.log| - t.since > cap
    ensures TapInv(cap, h, LoseQueued(t, missed))
  {
    var due, m := Due(h, t), PlaceOf(t, t.pos);
    var t' := LoseQueued(t, missed);
    DueFrom(h, t, t.pos);
    DueFrom(h, t, t'.pos);
    Missed(t.lost, m, missed);
    assert t'.lost == t.lost + seq(missed, k => m + k);
    assert t.yielded + [] == t.yielded;
    KeptLag(t.yielded, due, m, m + missed, t.lost, t'.lost);
    LaggedTap(cap, h, t, t');
  }

  lemma LaggedTap(cap: nat, h: Hub, t: Tap, t': Tap)
    requires TapInv(cap, h, t) && t.backlog == [] && t.pos <= t'.pos <= |h.log| && |h.log| - t.since > cap
    requires t' == t.(pos := t'.pos, lost := t'.lost)
    requires forall k :: k in t'.lost ==> k < PlaceOf(t', t'.pos)
    requires t.yielded + h.log[t'.pos..] == Kept(Due(h, t), t'.lost)
    ensures TapInv(cap, h, t')
  {
    assert t.yielded + [] == t.yielded;
    assert Due(h, t') == Due(h, t);
  }

  lemma SamePrefix(a: seq<Request>, b: seq<Request>, c: seq<Request>)
    requires a + c == b + c
    ensures a == b
  {
    assert |a| == |b|;
    assert (a + c)[..|a|] == a && (b + c)[..|b|] == b;
  }

  /** What is yielded leaves the backlog or the queue. */
  lemma YieldKeepsTap(cap: nat, h: Hub, t: Tap, t': Tap)
    requires TapInv(cap, h, t)
    requires t'.snapshot == t.snapshot && t'.since == t.since && t'.lost == t.lost && t.pos <= t'.pos <= |h.log|
    requires t'.backlog != [] ==> t'.pos == t.pos && t.backlog != []
    requires t'.yielded + t'.backlog + h.log[t'.pos..] == t.yielded + t.backlog + h.log[t.pos..]
    ensures TapInv(cap, h, t')
  {
    assert Due(h, t') == Due(h, t);
  }

  lemma MoveToYielded(yielded: seq<Request>, log: seq<Request>, pos: nat)
    requires pos < |log|
    ensures yielded + [log[pos]] + [] + log[pos + 1..] == yielded + [] + log[pos..]
  {
    assert log[pos..] == [log[pos]] + log[pos + 1..];
  }

  lemma ReceiveKeepsTap(cap: nat, h: Hub, t: Tap)
    requires TapInv(cap, h, t) && t.backlog == [] && t.pos < |h.log|
    ensures TapInv(cap, h, YieldQueued(t, h.log[t.pos]))
  {
    MoveToYielded(t.yielded, h.log, t.pos);
    YieldKeepsTap(cap, h, t, YieldQueued(t, h.log[t.pos]));
  }

  lemma BacklogKeepsTap(cap: nat, h: Hub, t: Tap)
    requires TapInv(cap, h, t) && t.backlog != []
    ensures TapInv(cap, h, YieldBacklog(t))
  {
    assert t.yielded + [t.backlog[0]] + t.backlog[1..] == t.yielded + t.backlog;
    YieldKeepsTap(cap, h, t, YieldBacklog(t));
  }

  lemma NextKeepsTap(cap: nat, h: Hub, t: Tap)
    requires TapInv(cap, h, t)
    ensures TapInv(cap, h, NextTap(h.log, t, cap))
  {
    if t.backlog != [] {
      BacklogKeepsTap(cap, h, t);
    } else if t.pos < |h.log| {
      if |h.log| - t.pos > cap {
        LagKeepsTap(cap, h, t, |h.log| - cap - t.pos);
      } else {
        ReceiveKeepsTap(cap, h, t);
      }
    }
  }

  lemma {:induction false} LiveCountUpdate(taps: seq<Tap>, s: nat, t: Tap)
    requires s < |taps|
    ensures LiveCount(taps[s := t]) ==
            LiveCount(taps) - (if taps[s].live then 1 else 0) + if t.live then 1 else 0
  {
    var n := |taps| - 1;
    if s < n {
      LiveCountUpdate(taps[..n], s, t);
      assert taps[s := t][..n] == taps[..n][s := t];
    } else {
      assert taps[s := t][..n] == taps[..n];
    }
  }

  lemma TapStays(cap: nat, h: Hub, h': Hub, t: Tap)
    requires TapInv(cap, h, t) && h'.log == h.log && h'.requests.Keys <= h.requests.Keys
    ensures TapInv(cap, h', t)
  {
    forall i | 0 <= i < t.since && IsPending(h', i) ensures h'.log[i] in t.snapshot {
      assert IsPending(h, i);
    }
  }

  lemma TapsStay(cap: nat, w: World, h': Hub)
    requires Inv(cap, w) && h'.log == w.hub.log && h'.requests.Keys <= w.hub.requests.Keys
    ensures forall s :: 0 <= s < |w.taps| ==> TapInv(cap, h', w.taps[s])
  {
    forall s | 0 <= s < |w.taps| ensures TapInv(cap, h', w.taps[s]) {
      TapStays(cap, w.hub, h', w.taps[s]);
    }
  }

  lemma SlotsStay(h: Hub, h': Hub, i: nat)
    requires HubInv(h) && i < |h.log| && |h'.slots| == |h.slots| && h' == h.(slots := h.slots[i := h'.slots[i]])
    requires SlotOk(h', i)
    ensures HubInv(h')
  {
    forall j | 0 <= j < |h'.log| ensures SlotOk(h', j) {
      if j != i {
        assert SlotOk(h, j);
      }
    }
  }

  lemma FreshKept(order: seq<Request>)
    ensures [] + order + [] == Kept(order + [], [])
  {
    KeptTail(order + [], 0, []);
  }

  /** A new stream starts with exactly the pending requests, and reads on from the end of the log. */
  lemma FreshTap(cap: nat, h: Hub, order: seq<Request>)
    requires HubInv(h) && Enumerates(order, h.requests)
    ensures TapInv(cap, h, Tap(order, |h.log|, true, order, |h.log|, [], []))
  {
    FreshKept(order);
    assert h.log[|h.log|..] == [];
    forall i | 0 <= i < |h.log| && IsPending(h, i) ensures h.log[i] in order {
      assert h.requests[h.log[i].id] == h.log[i];
    }
  }

  lemma UpdateTap(cap: nat, w: World, h': Hub, s: nat, t: Tap)
    requires Inv(cap, w) && s < |w.taps| && HubInv(h') && h'.log == w.hub.log && h'.requests == w.hub.requests
    requires TapInv(cap, h', t)
    requires h'.connections == w.hub.connections - (if w.taps[s].live then 1 else 0) + if t.live then 1 else 0
    ensures Inv(cap, World(h', w.taps[s := t]))
  {
    LiveCountUpdate(w.taps, s, t);
    TapsStay(cap, w, h');
  }

  lemma SendKeepsInv(cap: nat, w: World, id: u32, raw: seq<u8>)
    requires Inv(cap, w) && Enabled(w, Send(id, raw))
    ensures Inv(cap, Apply(cap, w, Send(id, raw)))
  {
    SendKeepsHub(w.hub, id, raw);
    forall s | 0 <= s < |w.taps| ensures TapInv(cap, Sent(w.hub, id, raw), w.taps[s]) {
      SendKeepsTap(cap, w.hub, id, raw, w.taps[s]);
    }
  }

  lemma AttachKeepsInv(cap: nat, w: World, order: seq<Request>)
    requires Inv(cap, w) && Enabled(w, Attach(order))
    ensures Inv(cap, Apply(cap, w, Attach(order)))
  {
    var w' := Apply(cap, w, Attach(order));
    ConnectionsKeepHub(w.hub, w'.hub);
    TapsStay(cap, w, w'.hub);
    FreshTap(cap, w'.hub, order);
    assert w'.taps[..|w.taps|] == w.taps;
  }

  lemma NextKeepsInv(cap: nat, w: World, s: nat)
    requires Inv(cap, w) && Enabled(w, Next(s))
    ensures Inv(cap, Apply(cap, w, Next(s)))
  {
    NextKeepsTap(cap, w.hub, w.taps[s]);
    UpdateTap(cap, w, w.hub, s, NextTap(w.hub.log, w.taps[s], cap));
  }

  lemma DropKeepsInv(cap: nat, w: World, s: nat)
    requires Inv(cap, w) && Enabled(w, Step.Drop(s))
    ensures Inv(cap, Apply(cap, w, Step.Drop(s)))
  {
    var w' := Apply(cap, w, Step.Drop(s));
    ConnectionsKeepHub(w.hub, w'.hub);
    TapStays(cap, w.hub, w'.hub, w.taps[s]);
    UpdateTap(cap, w, w'.hub, s, w'.taps[s]);
  }

  lemma RespondKeepsInv(cap: nat, w: World, resp: Response)
    requires Inv(cap, w)
    ensures Inv(cap, w.(hub := AfterRespond(w.hub, resp)))
  {
    RespondKeepsHub(w.hub, resp);
    TapsStay(cap, w, AfterRespond(w.hub, resp));
  }

  lemma SlotKeepsInv(cap: nat, w: World, h': Hub, i: nat)
    requires Inv(cap, w) && i < |w.hub.slots| == |h'.slots|
    requires h' == w.hub.(slots := w.hub.slots[i := h'.slots[i]])
    requires SlotOk(w.hub, i) ==> SlotOk(h', i)
    ensures Inv(cap, w.(hub := h'))
  {
    assert SlotOk(w.hub, i);
    SlotsStay(w.hub, h', i);
    TapsStay(cap, w, h');
  }

  lemma StepKeepsInv(cap: nat, w: World, step: Step)
    requires Inv(cap, w) && Enabled(w, step)
    ensures Inv(cap, Apply(cap, w, step))
  {
    var w' := Apply(cap, w, step);
    match step
    case Send(id, raw) =>
      SendKeepsInv(cap, w, id, raw);
    case Attach(order) =>
      AttachKeepsInv(cap, w, order);
    case Next(s) =>
      NextKeepsInv(cap, w, s);
    case Drop(s) =>
      DropKeepsInv(cap, w, s);
    case Respond(resp) =>
      RespondKeepsInv(cap, w, resp);
    case Take(i) =>
      SlotKeepsInv(cap, w, w'.hub, i);
    case Abandon(i) =>
      SlotKeepsInv(cap, w, w'.hub, i);
  }

  lemma ConnectionsKeepHub(h: Hub, h': Hub)
    requires HubInv(h) && h' == h.(connections := h'.connections)
    ensures HubInv(h')
  {
    forall i | 0 <= i < |h.log| ensures SlotOk(h', i) {
      assert SlotOk(h, i);
    }
  }

  lemma {:induction false} RunKeepsInv(cap: nat, steps: seq<Step>)
    requires Run(cap, steps).Some?
    ensures Inv(cap, Run(cap, steps).value)
  {
    if steps != [] {
      var n := |steps| - 1;
      RunKeepsInv(cap, steps[..n]);
      StepKeepsInv(cap, Run(cap, steps[..n]).value, steps[n]);
    }
  }

  // ---------------------------------------------------------------- main results

  /** Whenever stream `s` receives from the broadcast, at most the capacity is queued for it. */
  ghost predicate NeverLags(cap: nat, steps: seq<Step>, s: nat)
    requires Run(cap, steps).Some?
  {
    steps == [] ||
    var before, step := steps[..|steps| - 1], steps[|steps| - 1];
    && NeverLags(cap, before, s)
    && (step == Next(s) ==>
          var w := Run(cap, before).value;
          w.taps[s].backlog != [] || |w.hub.log| - w.taps[s].pos <= cap)
  }

  /** A step loses something for stream `s` exactly if it is a receive that lags. */
  lemma StepLoses(cap: nat, w: World, step: Step, s: nat)
    requires Inv(cap, w) && Enabled(w, step) && s < |w.taps|
    ensures var lags := step == Next(s) && w.taps[s].backlog == [] && |w.hub.log| - w.taps[s].pos > cap;
            && s < |Apply(cap, w, step).taps|
            && (Apply(cap, w, step).taps[s].lost == [] <==> w.taps[s].lost == [] && !lags)
  {
    assert TapInv(cap, w.hub, w.taps[s]);
  }

  /** In every run a stream loses nothing exactly if it never lags. */
  lemma {:induction false} LostExactly(cap: nat, steps: seq<Step>, s: nat)
    requires Run(cap, steps).Some?
    ensures var w := Run(cap, steps).value;
            NeverLags(cap, steps, s) <==> (s < |w.taps| ==> w.taps[s].lost == [])
  {
    if steps != [] {
      var before, step := steps[..|steps| - 1], steps[|steps| - 1];
      var w := Run(cap, before).value;
      LostExactly(cap, before, s);
      RunKeepsInv(cap, before);
      if s < |w.taps| {
        StepLoses(cap, w, step, s);
      }
    }
  }

  /** The requests sent, in order, each with its own reply channel. */
  function SentRequests(steps: seq<Step>): seq<Request> {
    if steps == [] then []
    else
      var before := SentRequests(steps[..|steps| - 1]);
      match steps[|steps| - 1]
      case Send(id, raw) => before + [Request(id, raw, |before|)]
      case _ => before
  }

  lemma StepLog(cap: nat, w: World, step: Step)
    requires HubInv(w.hub) && Enabled(w, step)
    ensures Apply(cap, w, step).hub.log ==
            if step.Send? then w.hub.log + [Request(step.id, step.raw, |w.hub.log|)] else w.hub.log
  {
  }

  /** In every run the broadcast carries what was sent, byte for byte. */
  lemma {:induction false} LogIsSent(cap: nat, steps: seq<Step>)
    requires Run(cap, steps).Some?
    ensures Run(cap, steps).value.hub.log == SentRequests(steps)
  {
    if steps != [] {
      var before, step := steps[..|steps| - 1], steps[|steps| - 1];
      LogIsSent(cap, before);
      RunKeepsInv(cap, before);
      StepLog(cap, Run(cap, before).value, step);
    }
  }

  /** In every run what is pending under an id is the request sent with it, byte for byte. */
  lemma PendingIsSent(cap: nat, steps: seq<Step>, id: u32)
    requires Run(cap, steps).Some? && id in Run(cap, steps).value.hub.requests
    ensures Run(cap, steps).value.hub.requests[id].id == id
    ensures Run(cap, steps).value.hub.requests[id] in SentRequests(steps)
  {
    LogIsSent(cap, steps);
    RunKeepsInv(cap, steps);
  }

  function Attaches(steps: seq<Step>): nat {
    if steps == [] then 0
    else Attaches(steps[..|steps| - 1]) + if steps[|steps| - 1].Attach? then 1 else 0
  }

  /** Stream `s` attached at step `m`, was then given exactly the outstanding
      requests, and reads on after all requests sent until then. */
  ghost predicate AttachedAt(steps: seq<Step>, s: nat, m: nat, t: Tap) {
    && m < |steps| && steps[m].Attach? && Attaches(steps[..m]) == s
    && t.since == |SentRequests(steps[..m])|
    && forall r :: r in t.snapshot <==> r in SentRequests(steps[..m]) && r.id in Outstanding(steps[..m])
  }

  lemma SnapshotIsOutstanding(cap: nat, before: seq<Step>, order: seq<Request>)
    requires Run(cap, before).Some? && Enumerates(order, Run(cap, before).value.hub.requests)
    ensures forall r :: r in order <==> r in SentRequests(before) && r.id in Outstanding(before)
  {
    LogIsSent(cap, before);
    PendingExactly(cap, before);
    RunKeepsInv(cap, before);
    var h := Run(cap, before).value.hub;
    forall r ensures r in order <==> r in h.log && r.id in h.requests {
      if r in h.log && r.id in h.requests {
        assert h.requests[r.id] == r;
        assert h.requests[r.id] in order;
      }
    }
  }

  lemma StepKeepsSnapshot(cap: nat, w: World, step: Step, s: nat)
    requires Enabled(w, step) && s < |w.taps|
    ensures |Apply(cap, w, step).taps| == |w.taps| + if step.Attach? then 1 else 0
    ensures Apply(cap, w, step).taps[s].snapshot == w.taps[s].snapshot
    ensures Apply(cap, w, step).taps[s].since == w.taps[s].since
  {
  }

  /** In every run there is one stream for each attach, and what it started with
      is determined by the steps before. */
  lemma {:induction false} SnapshotExact(cap: nat, steps: seq<Step>, s: nat)
    requires Run(cap, steps).Some?
    ensures |Run(cap, steps).value.taps| == Attaches(steps)
    ensures s < Attaches(steps) ==> exists m: nat :: AttachedAt(steps, s, m, Run(cap, steps).value.taps[s])
  {
    if steps != [] {
      var n := |steps| - 1;
      var w, w' := Run(cap, steps[..n]).value, Run(cap, steps).value;
      SnapshotExact(cap, steps[..n], s);
      if s < |w.taps| {
        StepKeepsSnapshot(cap, w, steps[n], s);
        var m: nat :| AttachedAt(steps[..n], s, m, w.taps[s]);
        assert steps[..n][..m] == steps[..m];
        assert AttachedAt(steps, s, m, w'.taps[s]);
      } else if s < Attaches(steps) {
        LogIsSent(cap, steps[..n]);
        SnapshotIsOutstanding(cap, steps[..n], steps[n].order);
        assert AttachedAt(steps, s, n, w'.taps[s]);
      }
    }
  }

  /** In every run, what a stream yielded, has in its backlog and has queued is, in
      order, what was outstanding when it attached and what was sent since, without
      the places dropped by lags; and without any such place if the stream never lags. */
  lemma DeliveryExact(cap: nat, steps: seq<Step>, s: nat)
    requires Run(cap, steps).Some? && s < |Run(cap, steps).value.taps|
    ensures var t, sent := Run(cap, steps).value.taps[s], SentRequests(steps);
            && t.since <= t.pos <= |sent|
            && (exists m: nat :: AttachedAt(steps, s, m, t))
            && var due := t.snapshot + sent[t.since..];
            && Distinct(due)
            && t.yielded + t.backlog + sent[t.pos..] == Kept(due, t.lost)
            && (NeverLags(cap, steps, s) ==> t.yielded + t.backlog + sent[t.pos..] == due)
  {
    RunKeepsInv(cap, steps);
    LostExactly(cap, steps, s);
    LogIsSent(cap, steps);
    SnapshotExact(cap, steps, s);
    var w := Run(cap, steps).value;
    assert TapInv(cap, w.hub, w.taps[s]);
    DueDistinct(w.hub, w.taps[s]);
    KeptAll(Due(w.hub, w.taps[s]));
  }

  /** In every run a receive that lags drops exactly what exceeds the capacity:
      the oldest queued requests, and none of the newest `cap`. */
  lemma LagDropsExactly(cap: nat, steps: seq<Step>, s: nat)
    requires Run(cap, steps).Some? && s < |Run(cap, steps).value.taps|
    ensures var w := Run(cap, steps).value;
            var t, excess := w.taps[s], |w.hub.log| - w.taps[s].pos - cap;
            var t' := NextTap(w.hub.log, t, cap);
            t.backlog == [] && excess > 0 ==>
              && t'.pos == |w.hub.log| - cap && t'.yielded == t.yielded && t'.backlog == []
              && |t'.lost| == |t.lost| + excess && t.lost <= t'.lost
              && forall k :: |t.lost| <= k < |t'.lost| ==>
                   t'.lost[k] == |t.snapshot| + (t.pos - t.since) + (k - |t.lost|)
  {
    RunKeepsInv(cap, steps);
    var w := Run(cap, steps).value;
    assert TapInv(cap, w.hub, w.taps[s]);
  }

  lemma KeptAll(rs: seq<Request>)
    ensures Kept(rs, []) == rs
  {
    KeptTail(rs, 0, []);
    assert Kept(rs[..0], []) == [];
  }

  /** A stream cannot lag before more requests than the capacity were sent since it attached. */
  lemma CapacityNeverLags(cap: nat, steps: seq<Step>, s: nat)
    requires Run(cap, steps).Some? && s < |Run(cap, steps).value.taps|
    ensures var w := Run(cap, steps).value;
            |w.hub.log| - w.taps[s].since <= cap ==> NeverLags(cap, steps, s)
  {
    RunKeepsInv(cap, steps);
    LostExactly(cap, steps, s);
    var w := Run(cap, steps).value;
    assert TapInv(cap, w.hub, w.taps[s]);
  }

  ghost predicate Distinct(rs: seq<Request>) {
    forall k, l :: 0 <= k < l < |rs| ==> rs[k].id != rs[l].id
  }

  lemma DueDistinct(h: Hub, t: Tap)
    requires HubInv(h) && t.since <= |h.log| && SnapshotOk(h, t)
    ensures Distinct(Due(h, t))
  {
    var due := Due(h, t);
    forall k | 0 <= k < |due|
      ensures due[k].reply < |h.log| && h.log[due[k].reply] == due[k]
      ensures k < |t.snapshot| <==> due[k].reply < t.since
    {
      if k >= |t.snapshot| {
        assert due[k] == h.log[t.since + k - |t.snapshot|];
      }
    }
    forall k, l | 0 <= k < l < |due| ensures due[k].id != due[l].id {
      assert due[k].reply != due[l].reply by {
        if k >= |t.snapshot| {
          assert due[k] == h.log[t.since + k - |t.snapshot|];
          assert due[l] == h.log[t.since + l - |t.snapshot|];
        }
      }
    }
  }

  /** Request `r` is in the list, and nothing else there has its id. */
  ghost predicate OnceIn(rs: seq<Request>, r: Request) {
    exists k :: 0 <= k < |rs| && rs[k] == r && forall l :: 0 <= l < |rs| && rs[l].id == r.id ==> l == k
  }

  lemma DistinctOnce(rs: seq<Request>, r: Request)
    requires Distinct(rs) && r in rs
    ensures OnceIn(rs, r)
  {
    var k :| 0 <= k < |rs| && rs[k] == r;
    assert forall l :: 0 <= l < |rs| && rs[l].id == r.id ==> l == k;
  }

  lemma PendingIsDue(h: Hub, t: Tap, id: u32)
    requires HubInv(h) && t.since <= |h.log| && SnapshotOk(h, t) && id in h.requests
    ensures h.requests[id] in Due(h, t)
  {
    var r := h.requests[id];
    assert IsPending(h, r.reply);
    if r.reply >= t.since {
      assert Due(h, t)[|t.snapshot| + r.reply - t.since] == r;
    }
  }

  lemma {:induction false} KeptSubset(rs: seq<Request>, lost: seq<nat>)
    ensures forall r :: r in Kept(rs, lost) ==> r in rs
  {
    if rs != [] {
      KeptSubset(rs[..|rs| - 1], lost);
    }
  }

  lemma {:induction false} KeptDistinct(rs: seq<Request>, lost: seq<nat>)
    requires Distinct(rs)
    ensures Distinct(Kept(rs, lost))
  {
    if rs != [] {
      var n := |rs| - 1;
      var kept := Kept(rs[..n], lost);
      KeptDistinct(rs[..n], lost);
      forall k | 0 <= k < |kept| ensures kept[k].id != rs[n].id {
        KeptSubset(rs[..n], lost);
        assert kept[k] in rs[..n];
      }
    }
  }

  lemma {:induction false} KeptPlace(rs: seq<Request>, lost: seq<nat>, k: nat)
    requires Distinct(rs) && k < |rs|
    ensures rs[k] in Kept(rs, lost) <==> k !in lost
  {
    var n := |rs| - 1;
    if k < n {
      KeptPlace(rs[..n], lost, k);
      assert rs[k] != rs[n];
    } else {
      KeptSubset(rs[..n], lost);
    }
  }

  lemma PlacesOfPending(due: seq<Request>, lost: seq<nat>, r: Request)
    requires Distinct(due) && r in due
    ensures OnceIn(due, r)
    ensures r in Kept(due, lost) ==> OnceIn(Kept(due, lost), r)
    ensures forall k :: 0 <= k < |due| && due[k] == r ==> (OnceIn(Kept(due, lost), r) <==> k !in lost)
  {
    DistinctOnce(due, r);
    KeptDistinct(due, lost);
    if r in Kept(due, lost) {
      DistinctOnce(Kept(due, lost), r);
    }
    forall k | 0 <= k < |due| && due[k] == r ensures OnceIn(Kept(due, lost), r) <==> k !in lost {
      KeptPlace(due, lost, k);
    }
  }

  /** In every run, every pending request is at one place of what a stream is due;
      it was yielded, is in the backlog or is queued, and then exactly once, if
      and only if that place was not dropped. For a stream that never lags this
      is so for every pending request, however many were sent. */
  lemma PendingNotLost(cap: nat, steps: seq<Step>, s: nat, id: u32)
    requires Run(cap, steps).Some? && s < |Run(cap, steps).value.taps|
    requires id in Run(cap, steps).value.hub.requests
    ensures var w := Run(cap, steps).value;
            var t, r := w.taps[s], w.hub.requests[id];
            && t.since <= t.pos <= |w.hub.log|
            && OnceIn(Due(w.hub, t), r)
            && var places := t.yielded + t.backlog + w.hub.log[t.pos..];
            && (forall k :: 0 <= k < |Due(w.hub, t)| && Due(w.hub, t)[k] == r ==> (OnceIn(places, r) <==> k !in t.lost))
            && (r in places ==> OnceIn(places, r))
            && (NeverLags(cap, steps, s) ==> OnceIn(places, r))
  {
    RunKeepsInv(cap, steps);
    LostExactly(cap, steps, s);
    var w := Run(cap, steps).value;
    var t, r := w.taps[s], w.hub.requests[id];
    assert TapInv(cap, w.hub, t);
    DueDistinct(w.hub, t);
    KeptAll(Due(w.hub, t));
    PendingIsDue(w.hub, t, id);
    PlacesOfPending(Due(w.hub, t), t.lost, r);
  }

  /** In every run, answering never blocks under the lock; every reply channel
      carries at most one response, the requester's own; a requester that still
      listens is either pending or answered; and the connection counter is the
      number of live streams. */
  lemma RepliesExact(cap: nat, steps: seq<Step>)
    requires Run(cap, steps).Some?
    ensures var w := Run(cap, steps).value;
            && (forall resp :: RespondOutcome(w.hub, resp) != Blocked)
            && (forall resp :: RespondOutcome(w.hub, resp) == Delivered <==>
                  resp.id in w.hub.requests && w.hub.requests[resp.id].reply < |w.hub.slots|
                  && w.hub.slots[w.hub.requests[resp.id].reply].open)
            && |w.hub.slots| == |w.hub.log|
            && (forall i :: 0 <= i < |w.hub.log| ==>
                  && w.hub.log[i].reply == i
                  && |w.hub.slots[i].put| <= 1
                  && (w.hub.slots[i].put != [] ==> w.hub.slots[i].put[0].id == w.hub.log[i].id)
                  && (w.hub.slots[i].open ==> w.hub.log[i].id in w.hub.requests || w.hub.slots[i].put != []))
            && w.hub.connections == LiveCount(w.taps)
  {
    RunKeepsInv(cap, steps);
    var w := Run(cap, steps).value;
    forall resp
      ensures RespondOutcome(w.hub, resp) != Blocked
      ensures RespondOutcome(w.hub, resp) == Delivered <==>
              resp.id in w.hub.requests && w.hub.requests[resp.id].reply < |w.hub.slots|
              && w.hub.slots[w.hub.requests[resp.id].reply].open
    {
      RespondKeepsHub(w.hub, resp);
      RespondExactly(w.hub, resp);
    }
    forall i | 0 <= i < |w.hub.log|
      ensures |w.hub.slots[i].put| <= 1
      ensures w.hub.slots[i].put != [] ==> w.hub.slots[i].put[0].id == w.hub.log[i].id
      ensures w.hub.slots[i].open ==> w.hub.log[i].id in w.hub.requests || w.hub.slots[i].put != []
    {
      assert SlotOk(w.hub, i);
    }
  }

  /** After a response to `resp.id`, nothing is pending under that id, whether or not anybody listened. */
  lemma RespondForgets(h: Hub, resp: Response)
    ensures AfterRespond(h, resp).requests == h.requests - {resp.id}
  {
    if resp.id !in h.requests {
      assert (h.requests - {resp.id}).Keys == h.requests.Keys;
    }
  }

  /** The ids sent and not responded to since. */
  function Outstanding(steps: seq<Step>): set<u32> {
    if steps == [] then {}
    else
      var before := Outstanding(steps[..|steps| - 1]);
      match steps[|steps| - 1]
      case Send(id, _) => before + {id}
      case Respond(resp) => before - {resp.id}
      case _ => before
  }

  /** In every run exactly these are pending: attaching, receiving, dropping
      streams and giving up on an answer remove nothing. */
  lemma {:induction false} PendingExactly(cap: nat, steps: seq<Step>)
    requires Run(cap, steps).Some?
    ensures Run(cap, steps).value.hub.requests.Keys == Outstanding(steps)
  {
    if steps != [] {
      var before, step := steps[..|steps| - 1], steps[|steps| - 1];
      PendingExactly(cap, before);
      if step.Respond? {
        RespondForgets(Run(cap, before).value.hub, step.resp);
      }
    }
  }

  /** Once answered, request `i` keeps its answer; once forgotten, it stays forgotten. */
  ghost predicate AnswerKept(h: Hub, h': Hub, i: nat)
    requires i < |h.log| == |h.slots|
  {
    && i < |h'.log| == |h'.slots|
    && h'.log[i] == h.log[i]
    && (h.slots[i].put != [] ==> h'.slots[i].put == h.slots[i].put)
    && (!IsPending(h, i) ==> !IsPending(h', i))
  }

  lemma RespondKeepsAnswer(h: Hub, resp: Response, i: nat)
    requires HubInv(h) && i < |h.log|
    ensures AnswerKept(h, AfterRespond(h, resp), i)
  {
    if resp.id in h.requests {
      assert SlotOk(h, h.requests[resp.id].reply);
    }
  }

  lemma StepKeepsAnswer(cap: nat, w: World, step: Step, i: nat)
    requires HubInv(w.hub) && Enabled(w, step) && i < |w.hub.log|
    ensures AnswerKept(w.hub, Apply(cap, w, step).hub, i)
  {
    if step.Respond? {
      RespondKeepsAnswer(w.hub, step.resp, i);
    }
  }

  lemma {:induction false} RunKeepsAnswer(cap: nat, steps: seq<Step>, m: nat, i: nat)
    requires m <= |steps| && Run(cap, steps).Some?
    ensures Run(cap, steps[..m]).Some? && HubInv(Run(cap, steps[..m]).value.hub)
    ensures i < |Run(cap, steps[..m]).value.hub.log| ==>
              AnswerKept(Run(cap, steps[..m]).value.hub, Run(cap, steps).value.hub, i)
  {
    if m < |steps| {
      var n := |steps| - 1;
      RunKeepsAnswer(cap, steps[..n], m, i);
      assert steps[..n][..m] == steps[..m];
      RunKeepsInv(cap, steps[..n]);
      if i < |Run(cap, steps[..m]).value.hub.log| {
        StepKeepsAnswer(cap, Run(cap, steps[..n]).value, steps[n], i);
      }
    } else {
      assert steps[..m] == steps;
      RunKeepsInv(cap, steps);
    }
  }

  lemma AnswerNow(h: Hub, resp: Response)
    requires HubInv(h) && resp.id in h.requests
    ensures var i, h' := h.requests[resp.id].reply, AfterRespond(h, resp);
            && i < |h.slots| == |h'.slots| && h'.log == h.log && h.log[i].id == resp.id && !IsPending(h', i)
            && (h.slots[i].open ==> h'.slots[i].put == [resp])
  {
    assert SlotOk(h, h.requests[resp.id].reply);
  }

  /** The request that `resp` answers at hub `h` is settled at the later hub `h'`. */
  ghost predicate Settled(h: Hub, resp: Response, h': Hub) {
    resp.id in h.requests ==>
      var i := h.requests[resp.id].reply;
      && i < |h.slots| && i < |h'.slots|
      && (h.slots[i].open ==> h'.slots[i].put == [resp])
      && forall second: Response :: second.id == resp.id ==> AfterRespond(h', second) == h'
  }

  lemma AnswerSettles(h: Hub, resp: Response, h': Hub)
    requires HubInv(h) && HubInv(AfterRespond(h, resp)) && resp.id in h.requests
    requires AnswerKept(AfterRespond(h, resp), h', h.requests[resp.id].reply)
    ensures Settled(h, resp, h')
  {
    AnswerNow(h, resp);
  }

  /** The hub right after the response at step `m`, and what later steps keep of it. */
  lemma AfterResponse(cap: nat, steps: seq<Step>, m: nat, i: nat)
    requires m < |steps| && steps[m].Respond? && Run(cap, steps).Some?
    ensures Run(cap, steps[..m]).Some? && HubInv(Run(cap, steps[..m]).value.hub)
    ensures var h := AfterRespond(Run(cap, steps[..m]).value.hub, steps[m].resp);
            HubInv(h) && (i < |h.log| ==> AnswerKept(h, Run(cap, steps).value.hub, i))
  {
    RunKeepsAnswer(cap, steps, m + 1, i);
    var upto := steps[..m + 1];
    assert upto[..m] == steps[..m] && upto[m] == steps[m];
    RunKeepsInv(cap, steps[..m]);
    assert Run(cap, upto).value.hub == AfterRespond(Run(cap, steps[..m]).value.hub, steps[m].resp);
  }

  /** In every run, a waiting requester is answered by the first response to its
      request; at every later point it still has this answer and no other, and
      further responses change nothing. */
  lemma FirstResponseWins(cap: nat, steps: seq<Step>, m: nat)
    requires m < |steps| && steps[m].Respond? && Run(cap, steps).Some?
    ensures Run(cap, steps[..m]).Some?
    ensures Settled(Run(cap, steps[..m]).value.hub, steps[m].resp, Run(cap, steps).value.hub)
  {
    AfterResponse(cap, steps, m, 0);
    var h, resp := Run(cap, steps[..m]).value.hub, steps[m].resp;
    if resp.id in h.requests {
      AfterResponse(cap, steps, m, h.requests[resp.id].reply);
      AnswerSettles(h, resp, Run(cap, steps).value.hub);
    }
  }

  lemma StepSlot(cap: nat, w: World, step: Step, i: nat)
    requires HubInv(w.hub) && Enabled(w, step) && i < |w.hub.log|
    ensures var h, h' := w.hub, Apply(cap, w, step).hub;
            && |h'.slots| == |h.slots| + (if step.Send? then 1 else 0)
            && (step.Send? ==> h'.slots[|h.slots|] == Slot([], 0, true))
            && (h'.slots[i].open <==> h.slots[i].open && step != Abandon(i))
            && h'.slots[i].put
            == if step.Respond? && step.resp.id == h.log[i].id && IsPending(h, i) && h.slots[i].open then [step.resp]
               else h.slots[i].put
  {
    if step.Respond? {
      RespondKeepsHub(w.hub, step.resp);
      RespondExactly(w.hub, step.resp);
    }
    assert SlotOk(w.hub, i);
  }

  lemma {:induction false} AbandonedExist(cap: nat, steps: seq<Step>, i: nat)
    requires Run(cap, steps).Some? && Abandon(i) in steps
    ensures i < |Run(cap, steps).value.hub.slots|
  {
    var before, step := steps[..|steps| - 1], steps[|steps| - 1];
    AbandonedBefore(steps, i);
    if step != Abandon(i) {
      AbandonedExist(cap, before, i);
    }
  }

  lemma AbandonedBefore(steps: seq<Step>, i: nat)
    requires steps != []
    ensures Abandon(i) in steps <==> Abandon(i) in steps[..|steps| - 1] || steps[|steps| - 1] == Abandon(i)
  {
  }

  /** In every run a requester listens from its send until it gives up. */
  lemma {:induction false} OpenExactly(cap: nat, steps: seq<Step>, i: nat)
    requires Run(cap, steps).Some? && i < |Run(cap, steps).value.hub.slots|
    ensures Run(cap, steps).value.hub.slots[i].open <==> Abandon(i) !in steps
  {
    var before, step := steps[..|steps| - 1], steps[|steps| - 1];
    var w := Run(cap, before).value;
    RunKeepsInv(cap, before);
    AbandonedBefore(steps, i);
    if i < |w.hub.slots| {
      StepSlot(cap, w, step, i);
      OpenExactly(cap, before, i);
    } else if Abandon(i) in before {
      AbandonedExist(cap, before, i);
    }
  }

  /** Step `m` is the first response to request `i`, while its requester listens. */
  predicate AnswersAt(steps: seq<Step>, m: nat, i: nat, resp: Response) {
    && m < |steps| && steps[m] == Respond(resp)
    && i < |SentRequests(steps[..m])| && SentRequests(steps[..m])[i].id == resp.id
    && resp.id in Outstanding(steps[..m]) && Abandon(i) !in steps[..m]
  }

  lemma AnswersBefore(steps: seq<Step>, i: nat, resp: Response)
    requires steps != []
    ensures var n := |steps| - 1;
            (exists m: nat :: AnswersAt(steps, m, i, resp)) <==>
            (AnswersAt(steps, n, i, resp) || exists m: nat :: AnswersAt(steps[..n], m, i, resp))
  {
    var n := |steps| - 1;
    forall m: nat | m < n ensures AnswersAt(steps, m, i, resp) <==> AnswersAt(steps[..n], m, i, resp) {
      assert steps[..n][..m] == steps[..m];
    }
  }

  /** In every run the reply channel of request `i` has been given `resp` iff this
      is the first response after the request was sent, and the requester had not
      given up by then. */
  lemma {:induction false} AnswerExact(cap: nat, steps: seq<Step>, i: nat, resp: Response)
    requires Run(cap, steps).Some? && i < |Run(cap, steps).value.hub.slots|
    ensures resp in Run(cap, steps).value.hub.slots[i].put <==> exists m: nat :: AnswersAt(steps, m, i, resp)
  {
    var n := |steps| - 1;
    var before, step := steps[..n], steps[n];
    var h, h' := Run(cap, before).value.hub, Run(cap, steps).value.hub;
    RunKeepsInv(cap, before);
    RunKeepsInv(cap, steps);
    LogIsSent(cap, before);
    PendingExactly(cap, before);
    AnswersBefore(steps, i, resp);
    if i < |h.slots| {
      StepSlot(cap, Run(cap, before).value, step, i);
      OpenExactly(cap, before, i);
      AnswerExact(cap, before, i, resp);
      assert SlotOk(h, i);
    } else {
      assert step.Send?;
      if m: nat :| AnswersAt(before, m, i, resp) {
        SentGrows(before, m);
      }
    }
  }

  lemma {:induction false} SentGrows(steps: seq<Step>, m: nat)
    requires m <= |steps|
    ensures |SentRequests(steps[..m])| <= |SentRequests(steps)|
  {
    if m < |steps| {
      assert steps[..|steps| - 1][..m] == steps[..m];
      SentGrows(steps[..|steps| - 1], m);
    } else {
      assert steps[..m] == steps;
    }
  }
}
