/** The multi-channel allocator of trampoline payments: a backtracking search
    that splits a target amount over channels, each with a lower bound (its
    minimum HTLC) and an upper bound (what it can spend).

    A Rust slice `&channels[i..]` is modelled by the pair of the whole list
    `cs` and the offset `i`, so that a contribution can name the position of
    the channel it borrows. */
module Trampoline {
  import opened Prims

  datatype Channel = Channel(scid: nat, spendable: u64, minHtlc: u64)

  datatype Contribution = Contribution(pos: nat, channel: Channel, amount: u64)

  datatype AllocResult = Success | Impossible | NeedSpace(shortfall: u64)

  predicate Usable(ch: Channel) {
    ch.minHtlc <= ch.spendable && ch.spendable > 0
  }

  function Min(a: nat, b: nat): nat {
    if a <= b then a else b
  }

  /** The verdict of the search for target `t` over the channels from `i` on,
      branch for branch. Amounts are naturals, so the well-formedness of every
      subtraction here is the absence of u64 underflow. */
  function Verdict(cs: seq<Channel>, i: nat, t: nat): AllocResult
    requires i <= |cs|
    decreases |cs| - i
  {
    if t == 0 then Success
    else if i == |cs| then Impossible
    else if !Usable(cs[i]) then Verdict(cs, i + 1, t)
    else
      var lower := cs[i].minHtlc;
      var upper := Min(cs[i].spendable, t);
      if t < lower then
        if Verdict(cs, i + 1, t) == Success then Success else NeedSpace(lower - t)
      else
        match Verdict(cs, i + 1, t - upper)
        case Success => Success
        case Impossible => Impossible
        case NeedSpace(s) =>
          var free := upper - lower;
          if s <= free then
            var adjusted := upper - s;
            if Verdict(cs, i + 1, t - adjusted) == Success then Success else Verdict(cs, i + 1, t)
          else NeedSpace(s - free)
  }

  /** `Vec::pop` on a non-empty vector. */
  function Popped<T>(s: seq<T>): seq<T>
    requires s != []
  {
    s[..|s| - 1]
  }

  lemma PopAbove<T>(entry: seq<T>, above: seq<T>)
    requires above != []
    ensures Popped(entry + above) == entry + Popped(above)
  {
  }

  /** What the search leaves on top of the shared stack. It does not depend on
      what the stack held before: a pop never reaches below the entry height. */
  function Appended(cs: seq<Channel>, i: nat, t: nat): seq<Contribution>
    requires i <= |cs|
    decreases |cs| - i
  {
    if t == 0 || i == |cs| then []
    else if !Usable(cs[i]) then Appended(cs, i + 1, t)
    else
      var lower := cs[i].minHtlc;
      var upper := Min(cs[i].spendable, t);
      if t < lower then Appended(cs, i + 1, t)
      else
        var tried := [Contribution(i, cs[i], upper)] + Appended(cs, i + 1, t - upper);
        match Verdict(cs, i + 1, t - upper)
        case Success => tried
        case Impossible => tried
        case NeedSpace(s) =>
          if s <= upper - lower then
            var adjusted := upper - s;
            var retried := Popped(tried) + [Contribution(i, cs[i], adjusted)] + Appended(cs, i + 1, t - adjusted);
            if Verdict(cs, i + 1, t - adjusted) == Success then retried
            else Popped(retried) + Appended(cs, i + 1, t)
          else Popped(tried)
  }

  /** The vector `allocations` that every recursive call shares. */
  class Allocations {
    var items: seq<Contribution>

    constructor ()
      ensures items == []
    {
      items := [];
    }

    method Push(c: Contribution)
      modifies this
      ensures items == old(items) + [c]
    {
      items := items + [c];
    }

    method Pop()
      requires items != []
      modifies this
      ensures items == Popped(old(items))
    {
      items := Popped(items);
    }

    method TryAllocate(cs: seq<Channel>, i: nat, t: u64) returns (r: AllocResult)
      requires i <= |cs|
      modifies this
      ensures r == Verdict(cs, i, t)
      ensures items == old(items) + Appended(cs, i, t)
      decreases |cs| - i
    {
      if t == 0 {
        return Success;
      }
      if i == |cs| {
        return Impossible;
      }
      var ch := cs[i];
      if !Usable(ch) {
        r := TryAllocate(cs, i + 1, t);
        return;
      }
      var lower := ch.minHtlc;
      var upper := Min(ch.spendable, t);
      if t < lower {
        r := TryAllocate(cs, i + 1, t);
        if r != Success {
          r := NeedSpace(lower - t);
        }
        return;
      }
      ghost var entry := items;
      ghost var left := [Contribution(i, ch, upper)] + Appended(cs, i + 1, t - upper);
      Push(Contribution(i, ch, upper));
      r := TryAllocate(cs, i + 1, t - upper);
      assert items == entry + left;
      if r.NeedSpace? {
        var free: u64 := upper - lower;
        var shortfall := r.shortfall;
        PopAbove(entry, left);
        Pop();
        left := Popped(left);
        if shortfall <= free {
          var adjusted: u64 := upper - shortfall;
          Push(Contribution(i, ch, adjusted));
          r := TryAllocate(cs, i + 1, t - adjusted);
          left := left + [Contribution(i, ch, adjusted)] + Appended(cs, i + 1, t - adjusted);
          assert items == entry + left;
          if r != Success {
            PopAbove(entry, left);
            Pop();
            r := TryAllocate(cs, i + 1, t);
            Regroup(entry, Popped(left), Appended(cs, i + 1, t));
            left := Popped(left) + Appended(cs, i + 1, t);
          }
        } else {
          r := NeedSpace(shortfall - free);
        }
      }
      assert left == Appended(cs, i, t);
    }
  }

  method FindAllocation(cs: seq<Channel>, t: u64) returns (r: Option<seq<Contribution>>)
    ensures r == Found(cs, t)
    ensures t == 0 ==> r == None
  {
    if t == 0 {
      return None;
    }
    var allocations := new Allocations();
    var v := allocations.TryAllocate(cs, 0, t);
    assert [] + Appended(cs, 0, t) == Appended(cs, 0, t);
    r := if v == Success then Some(allocations.items) else None;
  }

  /** The answer of `find_allocation` as a function of its arguments. */
  function Found(cs: seq<Channel>, t: nat): Option<seq<Contribution>> {
    if t > 0 && Verdict(cs, 0, t) == Success then Some(Appended(cs, 0, t)) else None
  }
}
