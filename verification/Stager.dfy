/** The staging area for signer requests: requests are kept until answered,
    broadcast to all attached signers, and replayed to late ones.

    Every method runs under one lock or touches only its own stream, so each is
    one atomic step. A broadcast channel is the log of everything sent, with a
    read position per receiver and the capacity as a parameter; a reply channel
    holds one response and is the list of what was put into it so far. */
module Stager {
  import opened Prims

  /** `reply` names the reply channel created together with the request. */
  datatype Request = Request(id: u32, raw: seq<u8>, reply: nat)

  datatype Response = Response(id: u32, raw: seq<u8>)

  /** A one-slot reply channel: all responses put so far, how many were taken
      out, and whether the requester still holds the receiving end. */
  datatype Slot = Slot(put: seq<Response>, taken: nat, open: bool) {
    predicate Full() { |put| > taken }
  }

  datatype Hub = Hub(requests: map<u32, Request>, log: seq<Request>, connections: int, slots: seq<Slot>)

  /** `Blocked` is the await on a full reply channel while the lock is held. */
  datatype Responded = Delivered | Unknown | RequesterGone | Blocked

  datatype Received = Got(request: Request) | Lagged(missed: nat) | Pending

  function Sent(h: Hub, id: u32, raw: seq<u8>): Hub {
    var r := Request(id, raw, |h.slots|);
    h.(requests := h.requests[id := r], log := h.log + [r], slots := h.slots + [Slot([], 0, true)])
  }

  function Removed(h: Hub, id: u32): Hub {
    h.(requests := map k | k in h.requests && k != id :: h.requests[k])
  }

  /** A reply channel that was never created counts as closed. */
  function SlotAt(h: Hub, i: nat): Slot {
    if i < |h.slots| then h.slots[i] else Slot([], 0, false)
  }

  function RespondOutcome(h: Hub, resp: Response): Responded {
    if resp.id !in h.requests then Unknown
    else
      var slot := SlotAt(h, h.requests[resp.id].reply);
      if !slot.open then RequesterGone else if slot.Full() then Blocked else Delivered
  }

  function AfterRespond(h: Hub, resp: Response): Hub {
    match RespondOutcome(h, resp)
    case Unknown => h
    case Delivered =>
      var i := h.requests[resp.id].reply;
      Removed(h, resp.id).(slots := h.slots[i := h.slots[i].(put := h.slots[i].put + [resp])])
    case _ => Removed(h, resp.id)
  }

  /** A receive from the broadcast log of length `n` at read position `pos`. */
  function Receive(log: seq<Request>, pos: nat, cap: nat): Received {
    if pos >= |log| then Pending
    else if |log| - pos > cap then Lagged(|log| - cap - pos)
    else Got(log[pos])
  }

  /** `order` lists the pending requests, each once, in whatever order the hash map yields them. */
  ghost predicate Enumerates(order: seq<Request>, requests: map<u32, Request>) {
    && (forall k :: 0 <= k < |order| ==> order[k].id in requests && requests[order[k].id] == order[k])
    && (forall id :: id in requests ==> requests[id] in order)
    && (forall k, l :: 0 <= k < l < |order| ==> order[k] != order[l])
  }

  class Stage {
    const capacity: nat
    var requests: map<u32, Request>
    var log: seq<Request>
    var connections: int
    var slots: seq<Slot>

    function View(): Hub
      reads this
    {
      Hub(requests, log, connections, slots)
    }

    /** Each pending request is stored under its own id and holds a reply channel of this stage. */
    ghost predicate Valid()
      reads this
    {
      forall id :: id in requests ==> requests[id].id == id && requests[id].reply < |slots|
    }

    constructor (capacity: nat)
      ensures Valid() && View() == Hub(map[], [], 0, []) && this.capacity == capacity
    {
      this.capacity := capacity;
      requests, log, connections, slots := map[], [], 0, [];
    }

    method Send(id: u32, raw: seq<u8>) returns (reply: nat)
      requires Valid()
      modifies this
      ensures Valid() && View() == Sent(old(View()), id, raw)
      ensures reply == |old(slots)|
      ensures requests == old(requests)[id := Request(id, raw, reply)]
      ensures log == old(log) + [Request(id, raw, reply)] && slots == old(slots) + [Slot([], 0, true)]
    {
      reply := |slots|;
      slots := slots + [Slot([], 0, true)];
      var r := Request(id, raw, reply);
      requests := requests[id := r];
      log := log + [r];
    }

    method MyStream() returns (s: StageStream)
      requires Valid()
      modifies this
      ensures Valid() && View() == old(View()).(connections := old(connections) + 1)
      ensures fresh(s) && s.stage == this && Enumerates(s.backlog, requests) && s.pos == |log|
    {
      connections := connections + 1;
      var backlog: seq<Request>, todo := [], requests.Keys;
      while todo != {}
        invariant todo <= requests.Keys
        invariant forall k :: 0 <= k < |backlog| ==>
                    backlog[k].id in requests && backlog[k].id !in todo && requests[backlog[k].id] == backlog[k]
        invariant forall id :: id in requests && id !in todo ==> requests[id] in backlog
        invariant forall k, l :: 0 <= k < l < |backlog| ==> backlog[k] != backlog[l]
        decreases todo
      {
        var id :| id in todo;
        backlog := backlog + [requests[id]];
        todo := todo - {id};
      }
      s := new StageStream(this, backlog);
    }

    method Respond(resp: Response) returns (r: Responded)
      requires Valid()
      modifies this
      ensures Valid() && View() == AfterRespond(old(View()), resp)
      ensures r == RespondOutcome(old(View()), resp)
      ensures r == Unknown <==> resp.id !in old(requests)
      ensures requests == old(requests) - {resp.id}
    {
      if resp.id in requests {
        var req := requests[resp.id];
        requests := map k | k in requests && k != resp.id :: requests[k];
        var slot := slots[req.reply];
        if !slot.open {
          r := RequesterGone;
        } else if slot.Full() {
          r := Blocked;
        } else {
          slots := slots[req.reply := slot.(put := slot.put + [resp])];
          r := Delivered;
        }
      } else {
        r := Unknown;
      }
    }

    /** Whether a request of message type 5 or 28, big-endian in its first two
        bytes, is pending; `None` is the index panic on a shorter message. */
    method IsStuck() returns (r: Option<bool>)
      ensures r == None <==> exists id :: id in requests && |requests[id].raw| < 2
      ensures r.Some? ==> (r.value <==> exists id :: id in requests && IsSticky(requests[id].raw))
    {
      var sticky, todo := false, requests.Keys;
      while todo != {}
        invariant todo <= requests.Keys
        invariant forall id :: id in requests && id !in todo ==> |requests[id].raw| >= 2
        invariant sticky <==> exists id :: id in requests && id !in todo && IsSticky(requests[id].raw)
        decreases todo
      {
        var id :| id in todo;
        var raw := requests[id].raw;
        if |raw| < 2 {
          return None;
        }
        var head0: int, head1: int := raw[0], raw[1];
        var typ := head0 * 256 + head1;
        if typ == 5 || typ == 28 {
          sticky := true;
        }
        todo := todo - {id};
      }
      r := Some(sticky);
    }
  }

  /** The message starts with the bytes 0, 5 or 0, 28. */
  predicate IsSticky(raw: seq<u8>) {
    |raw| >= 2 && raw[0] == 0 && (raw[1] == 5 || raw[1] == 28)
  }

  class StageStream {
    const stage: Stage
    var backlog: seq<Request>
    var pos: nat

    constructor (stage: Stage, backlog: seq<Request>)
      ensures this.stage == stage && this.backlog == backlog && pos == |stage.log|
    {
      this.stage := stage;
      this.backlog := backlog;
      this.pos := |stage.log|;
    }

    method Next() returns (r: Received)
      modifies this
      ensures old(backlog) != [] ==> r == Got(old(backlog)[0]) && backlog == old(backlog)[1..] && pos == old(pos)
      ensures old(backlog) == [] ==>
                && r == Receive(stage.log, old(pos), stage.capacity)
                && backlog == []
                && pos == Advance(stage.log, old(pos), stage.capacity)
      ensures old(backlog) == [] && old(pos) >= |stage.log| ==> r == Pending && pos == old(pos)
      ensures old(backlog) == [] && 0 < |stage.log| - old(pos) <= stage.capacity ==>
                r == Got(stage.log[old(pos)]) && pos == old(pos) + 1
      ensures old(backlog) == [] && |stage.log| - old(pos) > stage.capacity ==>
                r == Lagged(pos - old(pos)) && pos == |stage.log| - stage.capacity
    {
      if |backlog| > 0 {
        r := Got(backlog[0]);
        backlog := backlog[1..];
      } else if pos >= |stage.log| {
        r := Pending;
      } else if |stage.log| - pos > stage.capacity {
        r := Lagged(|stage.log| - stage.capacity - pos);
        pos := |stage.log| - stage.capacity;
      } else {
        r := Got(stage.log[pos]);
        pos := pos + 1;
      }
    }

    method Drop()
      modifies stage
      ensures stage.View() == old(stage.View()).(connections := old(stage.connections) - 1)
    {
      stage.connections := stage.connections - 1;
    }
  }

  /** The read position after a receive. */
  function Advance(log: seq<Request>, pos: nat, cap: nat): nat {
    match Receive(log, pos, cap)
    case Pending => pos
    case Lagged(missed) => pos + missed
    case Got(_) => pos + 1
  }
}
