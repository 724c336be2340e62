/** The two sorting front ends of the allocator, and the payment's ascending-then-descending fallback.
    Line numbers refer to libs/gl-plugin/src/tramp.rs. */
module TrampolinePayment {
  import opened Prims
  import opened Trampoline
  import opened TrampolineTheory
  import opened TrampolineStack

  datatype Order = Up | Down

  /** The comparators: spendable amount up or down, then minimum HTLC up. */
  predicate Leq(o: Order, a: Channel, b: Channel) {
    if a.spendable == b.spendable then a.minHtlc <= b.minHtlc
    else if o == Up then a.spendable < b.spendable
    else a.spendable > b.spendable
  }

  ghost predicate SortedBy(o: Order, cs: seq<Channel>) {
    forall j, k :: 0 <= j < k < |cs| ==> Leq(o, cs[j], cs[k])
  }

  function Insert(o: Order, c: Channel, cs: seq<Channel>): seq<Channel> {
    if cs == [] || Leq(o, c, cs[0]) then [c] + cs else [cs[0]] + Insert(o, c, cs[1..])
  }

  function Sort(o: Order, cs: seq<Channel>): seq<Channel> {
    if cs == [] then [] else Insert(o, cs[0], Sort(o, cs[1..]))
  }

  lemma {:induction false} InsertMembers(o: Order, c: Channel, cs: seq<Channel>)
    ensures forall x :: x in Insert(o, c, cs) <==> x == c || x in cs
  {
    if cs != [] && !Leq(o, c, cs[0]) {
      InsertMembers(o, c, cs[1..]);
    }
  }

  lemma {:induction false} InsertSorted(o: Order, c: Channel, cs: seq<Channel>)
    requires SortedBy(o, cs)
    ensures SortedBy(o, Insert(o, c, cs))
  {
    if cs != [] && !Leq(o, c, cs[0]) {
      InsertSorted(o, c, cs[1..]);
      InsertMembers(o, c, cs[1..]);
      forall x | x in Insert(o, c, cs[1..]) ensures Leq(o, cs[0], x) {
      }
    }
  }

  lemma {:induction false} InsertMultiset(o: Order, c: Channel, cs: seq<Channel>)
    ensures multiset(Insert(o, c, cs)) == multiset{c} + multiset(cs)
  {
    if cs != [] && !Leq(o, c, cs[0]) {
      InsertMultiset(o, c, cs[1..]);
      assert cs == [cs[0]] + cs[1..];
    }
  }

  function Key(c: Channel): (u64, u64) {
    (c.spendable, c.minHtlc)
  }

  /** The channels that compare as equal to key `x`, in the order of the list. */
  function WithKey(x: (u64, u64), cs: seq<Channel>): seq<Channel> {
    if cs == [] then [] else (if Key(cs[0]) == x then [cs[0]] else []) + WithKey(x, cs[1..])
  }

  lemma {:induction false} InsertStable(x: (u64, u64), o: Order, c: Channel, cs: seq<Channel>)
    ensures WithKey(x, Insert(o, c, cs)) == (if Key(c) == x then [c] else []) + WithKey(x, cs)
  {
    if cs != [] && !Leq(o, c, cs[0]) {
      InsertStable(x, o, c, cs[1..]);
      assert Insert(o, c, cs)[1..] == Insert(o, c, cs[1..]);
    } else {
      assert ([c] + cs)[1..] == cs;
    }
  }

  /** The sort keeps the order of channels that compare as equal. */
  lemma {:induction false} SortStable(x: (u64, u64), o: Order, cs: seq<Channel>)
    ensures WithKey(x, Sort(o, cs)) == WithKey(x, cs)
  {
    if cs != [] {
      SortStable(x, o, cs[1..]);
      InsertStable(x, o, cs[0], Sort(o, cs[1..]));
    }
  }

  lemma {:induction false} SortCorrect(o: Order, cs: seq<Channel>)
    ensures SortedBy(o, Sort(o, cs))
    ensures multiset(Sort(o, cs)) == multiset(cs)
  {
    if cs != [] {
      SortCorrect(o, cs[1..]);
      InsertMultiset(o, cs[0], Sort(o, cs[1..]));
      InsertSorted(o, cs[0], Sort(o, cs[1..]));
      assert cs == [cs[0]] + cs[1..];
    }
  }

  /** Spendable amounts up, or down, and for equal ones the smaller minimum first. */
  lemma SortOrders(cs: seq<Channel>, j: nat, k: nat)
    requires j < k < |cs|
    ensures |Sort(Up, cs)| == |cs| == |Sort(Down, cs)|
    ensures var a, b := Sort(Up, cs)[j], Sort(Up, cs)[k];
            a.spendable < b.spendable || (a.spendable == b.spendable && a.minHtlc <= b.minHtlc)
    ensures var a, b := Sort(Down, cs)[j], Sort(Down, cs)[k];
            a.spendable > b.spendable || (a.spendable == b.spendable && a.minHtlc <= b.minHtlc)
  {
    SortCorrect(Up, cs);
    SortCorrect(Down, cs);
    assert |multiset(Sort(Up, cs))| == |multiset(cs)| == |multiset(Sort(Down, cs))|;
    assert Leq(Up, Sort(Up, cs)[j], Sort(Up, cs)[k]) && Leq(Down, Sort(Down, cs)[j], Sort(Down, cs)[k]);
  }

  lemma SortUpAscends(cs: seq<Channel>)
    ensures Ascending(Sort(Up, cs))
  {
    SortCorrect(Up, cs);
    var s := Sort(Up, cs);
    forall j, k | 0 <= j < k < |s| ensures s[j].spendable <= s[k].spendable {
      assert Leq(Up, s[j], s[k]);
    }
  }

  method FindAllocationOrdered(channels: array<Channel>, o: Order, t: u64) returns (r: Option<seq<Contribution>>)
    modifies channels
    ensures channels[..] == Sort(o, old(channels[..]))
    ensures r == Found(channels[..], t)
  {
    var sorted := Sort(o, channels[..]);
    SortCorrect(o, channels[..]);
    assert |sorted| == channels.Length by {
      assert |multiset(sorted)| == |multiset(channels[..])|;
    }
    forall k | 0 <= k < channels.Length {
      channels[k] := sorted[k];
    }
    assert channels[..] == sorted;
    r := FindAllocation(channels[..], t);
  }

  /** Ascending first, and descending if that finds nothing; `None` is the insufficient-funds error. */
  method Allocate(channels: array<Channel>, t: u64) returns (r: Option<seq<Contribution>>)
    modifies channels
    ensures r == Allocated(old(channels[..]), t)
    ensures var up := Sort(Up, old(channels[..]));
            if Found(up, t).Some? then channels[..] == up && r.Some? && IsAllocation(channels[..], 0, r.value, t)
            else channels[..] == Sort(Down, up)
  {
    ghost var listed := channels[..];
    r := FindAllocationOrdered(channels, Up, t);
    FoundNotEmpty(channels[..], t);
    SortUpAscends(listed);
    AscendingSound(channels[..], t);
    if r == None || r.value == [] {
      r := FindAllocationOrdered(channels, Down, t);
      FoundNotEmpty(channels[..], t);
      if r != None && r.value == [] {
        r := None;
      }
    }
  }

  /** The outcome of `Allocate`; the second sort starts from the first one's result. */
  function Allocated(cs: seq<Channel>, t: nat): Option<seq<Contribution>> {
    var up := Sort(Up, cs);
    if Found(up, t).Some? then Found(up, t) else Found(Sort(Down, up), t)
  }

  /** The emptiness filters (lines 460 and 466) never reject an answer. */
  lemma FoundNotEmpty(cs: seq<Channel>, t: nat)
    ensures Found(cs, t).Some? ==> Found(cs, t).value != []
  {
    if Found(cs, t).Some? {
      FoundSoundExactly(cs, t);
    }
  }

  /** The payment is split correctly iff the single pass succeeds in ascending
      order or the descending search does not retry over stale entries; otherwise
      it overpays. Both conditions are on the amounts of the channels alone. */
  lemma PaymentSoundExactly(cs: seq<Channel>, t: nat)
    requires Allocated(cs, t).Some?
    ensures var up, down := Sort(Up, cs), Sort(Down, Sort(Up, cs));
            var a := Allocated(cs, t).value;
            && (IsAllocation(up, 0, a, t) || IsAllocation(down, 0, a, t) <==>
                SinglePass(up, 0, t, 0) || !RetriesOverStaleEntries(down, 0, t))
            && (Total(a) == t <==> SinglePass(up, 0, t, 0) || !RetriesOverStaleEntries(down, 0, t))
            && Total(a) >= t
  {
    var up := Sort(Up, cs);
    SortUpAscends(cs);
    SuccessIsSinglePass(up, 0, t);
    if Found(up, t).Some? {
      AscendingSound(up, t);
    } else {
      FoundSoundExactly(Sort(Down, up), t);
    }
  }

  /** A payment is split correctly if no channel blocks it in descending order. */
  lemma PaymentSoundWithoutBlocker(cs: seq<Channel>, t: nat)
    requires Allocated(cs, t).Some? && forall j: nat :: !Blocks(Sort(Down, Sort(Up, cs)), 0, t, j)
    ensures var up, down, a := Sort(Up, cs), Sort(Down, Sort(Up, cs)), Allocated(cs, t).value;
            IsAllocation(up, 0, a, t) || IsAllocation(down, 0, a, t)
  {
    NoBlockerNoRetry(Sort(Down, Sort(Up, cs)), 0, t);
    PaymentSoundExactly(cs, t);
  }

  // ---------------------------------------------------------------- permutations

  lemma {:induction false} SpendableCons(c: Channel, cs: seq<Channel>, i: nat)
    requires i <= |cs|
    ensures Spendable([c] + cs, i + 1, |cs| + 1) == Spendable(cs, i, |cs|)
    decreases |cs| - i
  {
    if i < |cs| {
      SpendableCons(c, cs, i + 1);
      assert ([c] + cs)[i + 1] == cs[i];
    }
  }

  lemma {:induction false} SpendableInsert(o: Order, c: Channel, cs: seq<Channel>)
    ensures |Insert(o, c, cs)| == |cs| + 1
    ensures Spendable(Insert(o, c, cs), 0, |cs| + 1) == Spendable([c] + cs, 0, |cs| + 1)
  {
    if cs != [] && !Leq(o, c, cs[0]) {
      SpendableInsert(o, c, cs[1..]);
      assert cs == [cs[0]] + cs[1..];
      SpendableCons(cs[0], Insert(o, c, cs[1..]), 0);
      SpendableCons(c, cs, 0);
      SpendableCons(c, cs[1..], 0);
      SpendableCons(cs[0], cs[1..], 0);
    }
  }

  lemma {:induction false} SpendableSort(o: Order, cs: seq<Channel>)
    ensures |Sort(o, cs)| == |cs|
    ensures Spendable(Sort(o, cs), 0, |cs|) == Spendable(cs, 0, |cs|)
  {
    if cs != [] {
      SpendableSort(o, cs[1..]);
      assert cs == [cs[0]] + cs[1..];
      SpendableInsert(o, cs[0], Sort(o, cs[1..]));
      SpendableCons(cs[0], Sort(o, cs[1..]), 0);
      SpendableCons(cs[0], cs[1..], 0);
    }
  }

  // ---------------------------------------------------------------- the insufficient-funds error

  /** Channel `j` blocks, the minimums up to it exceed the target, and the later channels cannot place the rest. */
  predicate RefusesAt(cs: seq<Channel>, t: nat, j: nat) {
    && Blocks(cs, 0, t, j)
    && Minimums(cs, 0, j + 1) > t
    && !SinglePass(cs, j + 1, t - Spendable(cs, 0, j), 0)
  }

  ghost predicate Refuses(cs: seq<Channel>, t: nat) {
    exists j: nat :: RefusesAt(cs, t, j)
  }

  /** The same in ascending order: no later channel takes the rest. */
  ghost predicate RefusesUpAt(cs: seq<Channel>, t: nat, j: nat) {
    && Blocks(cs, 0, t, j)
    && Minimums(cs, 0, j + 1) > t
    && forall k :: j < k < |cs| && Usable(cs[k]) ==> cs[k].minHtlc > t - Spendable(cs, 0, j)
  }

  ghost predicate RefusesUp(cs: seq<Channel>, t: nat) {
    exists j: nat :: RefusesUpAt(cs, t, j)
  }

  lemma RefusalAt(cs: seq<Channel>, t: nat, j: nat)
    requires Blocks(cs, 0, t, j)
    ensures Verdict(cs, 0, t) != Success <==> RefusesAt(cs, t, j)
    ensures Ascending(cs) ==> (RefusesAt(cs, t, j) <==> RefusesUpAt(cs, t, j))
  {
    var rest := t - Spendable(cs, 0, j);
    DecisionWithBlocker(cs, 0, t, j);
    SuccessIsSinglePass(cs, j + 1, rest);
    if Ascending(cs) {
      DecisionPastBlocker(cs, j + 1, rest);
    }
  }

  /** The search finds nothing exactly if the usable funds are short or it refuses. */
  lemma NotFoundExactly(cs: seq<Channel>, t: nat)
    requires t > 0
    ensures Found(cs, t) == None <==> t > Spendable(cs, 0, |cs|) || Refuses(cs, t)
    ensures Ascending(cs) ==> (Refuses(cs, t) <==> RefusesUp(cs, t))
  {
    VerdictBoundsFunds(cs, 0, t);
    forall j: nat | Blocks(cs, 0, t, j)
      ensures Verdict(cs, 0, t) != Success <==> RefusesAt(cs, t, j)
      ensures Ascending(cs) ==> (RefusesAt(cs, t, j) <==> RefusesUpAt(cs, t, j))
    {
      RefusalAt(cs, t, j);
    }
    if forall j: nat :: !Blocks(cs, 0, t, j) {
      DecisionWithoutBlocker(cs, 0, t);
    }
  }

  /** The error is raised exactly if the usable funds are short, or both orders refuse the target. */
  lemma RefusedExactly(cs: seq<Channel>, t: nat)
    requires t > 0
    ensures Allocated(cs, t) == None <==>
            t > Spendable(cs, 0, |cs|) || (RefusesUp(Sort(Up, cs), t) && Refuses(Sort(Down, Sort(Up, cs)), t))
  {
    var up := Sort(Up, cs);
    SortUpAscends(cs);
    SpendableSort(Up, cs);
    SpendableSort(Down, up);
    NotFoundExactly(up, t);
    NotFoundExactly(Sort(Down, up), t);
  }

  /** Some choice of the usable channels from `i` on, added to minimums `mins` and
      maximums `maxs` already chosen, has the target between its bounds. */
  predicate Selectable(cs: seq<Channel>, i: nat, mins: nat, maxs: nat, t: nat)
    requires i <= |cs|
    decreases |cs| - i
  {
    if i == |cs| then mins <= t <= maxs
    else
      || Selectable(cs, i + 1, mins, maxs, t)
      || (Usable(cs[i]) && Selectable(cs, i + 1, mins + cs[i].minHtlc, maxs + cs[i].spendable, t))
  }

  lemma {:induction false} SplitIsSelectable(cs: seq<Channel>, i: nat, a: seq<Contribution>, placed: nat,
                                             mins: nat, maxs: nat, chosen: nat)
    requires i <= |cs| && IsAllocation(cs, i, a, placed) && mins <= chosen <= maxs
    ensures Selectable(cs, i, mins, maxs, placed + chosen)
    decreases |cs| - i
  {
    if i == |cs| {
      if a != [] {
        FirstInBounds(cs, i, a, placed);
      }
    } else if a != [] && a[0].pos == i {
      FirstInBounds(cs, i, a, placed);
      AllocationTail(cs, i, a, placed);
      SplitIsSelectable(cs, i + 1, a[1..], placed - a[0].amount,
                        mins + cs[i].minHtlc, maxs + cs[i].spendable, chosen + a[0].amount);
    } else {
      forall k | 0 <= k < |a| ensures InBounds(cs, i + 1, a[k]) {
        assert InBounds(cs, i, a[0]) && InBounds(cs, i, a[k]) && a[0].pos <= a[k].pos;
      }
      SplitIsSelectable(cs, i + 1, a, placed, mins, maxs, chosen);
    }
  }

  lemma FirstInBounds(cs: seq<Channel>, lo: nat, a: seq<Contribution>, t: nat)
    requires IsAllocation(cs, lo, a, t) && a != []
    ensures InBounds(cs, lo, a[0])
  {
  }

  lemma AllocationTail(cs: seq<Channel>, i: nat, a: seq<Contribution>, t: nat)
    requires IsAllocation(cs, i, a, t) && a != [] && a[0].pos == i
    ensures a[0].amount <= t && IsAllocation(cs, i + 1, a[1..], t - a[0].amount)
  {
    forall k | 0 <= k < |a[1..]| ensures InBounds(cs, i + 1, a[1..][k]) {
      assert InBounds(cs, i, a[k + 1]) && a[0].pos < a[k + 1].pos;
    }
  }

  lemma {:induction false} SelectableSplits(cs: seq<Channel>, i: nat, mins: nat, maxs: nat, t: nat)
    returns (a: seq<Contribution>, chosen: nat)
    requires i <= |cs| && mins <= maxs && Selectable(cs, i, mins, maxs, t)
    ensures mins <= chosen <= maxs && chosen <= t && IsAllocation(cs, i, a, t - chosen)
    decreases |cs| - i
  {
    if i == |cs| {
      a, chosen := [], t;
    } else if Selectable(cs, i + 1, mins, maxs, t) {
      a, chosen := SelectableSplits(cs, i + 1, mins, maxs, t);
      AllocationWeaken(cs, i, i + 1, a, t - chosen);
    } else {
      var ch := cs[i];
      a, chosen := SelectableSplits(cs, i + 1, mins + ch.minHtlc, maxs + ch.spendable, t);
      var amount: u64 := if chosen - maxs > ch.minHtlc then chosen - maxs else ch.minHtlc;
      AllocationCons(cs, Contribution(i, ch, amount), a, t - chosen);
      a, chosen := [Contribution(i, ch, amount)] + a, chosen - amount;
    }
  }

  /** A correct split exists exactly if some choice of usable channels has the target between its bounds. */
  lemma SplitExistsExactly(cs: seq<Channel>, t: nat)
    ensures (exists a :: IsAllocation(cs, 0, a, t)) <==> Selectable(cs, 0, 0, 0, t)
  {
    if a :| IsAllocation(cs, 0, a, t) {
      SplitIsSelectable(cs, 0, a, t, 0, 0, 0);
    }
    if Selectable(cs, 0, 0, 0, t) {
      var a, chosen := SelectableSplits(cs, 0, 0, 0, t);
      assert IsAllocation(cs, 0, a, t);
    }
  }

  lemma {:induction false} AllSelectable(cs: seq<Channel>, i: nat, mins: nat, maxs: nat)
    requires i <= |cs| && mins <= maxs
    ensures Selectable(cs, i, mins, maxs, maxs + Spendable(cs, i, |cs|))
    decreases |cs| - i
  {
    if i < |cs| {
      if Usable(cs[i]) {
        AllSelectable(cs, i + 1, mins + cs[i].minHtlc, maxs + cs[i].spendable);
      } else {
        AllSelectable(cs, i + 1, mins, maxs);
      }
    }
  }

  /** The usable funds are the most that can be split over the channels. */
  lemma FundsAreMost(cs: seq<Channel>)
    ensures exists a :: IsAllocation(cs, 0, a, Spendable(cs, 0, |cs|))
    ensures forall a, t: nat :: IsAllocation(cs, 0, a, t) ==> t <= Spendable(cs, 0, |cs|)
  {
    AllSelectable(cs, 0, 0, 0);
    SplitExistsExactly(cs, Spendable(cs, 0, |cs|));
    forall a, t: nat | IsAllocation(cs, 0, a, t) ensures t <= Spendable(cs, 0, |cs|) {
      SplitExistsExactly(cs, t);
      SelectableWithinFunds(cs, 0, 0, 0, t);
    }
  }

  lemma {:induction false} SelectableWithinFunds(cs: seq<Channel>, i: nat, mins: nat, maxs: nat, t: nat)
    requires i <= |cs| && Selectable(cs, i, mins, maxs, t)
    ensures t <= maxs + Spendable(cs, i, |cs|)
    decreases |cs| - i
  {
    if i < |cs| {
      if Selectable(cs, i + 1, mins, maxs, t) {
        SelectableWithinFunds(cs, i + 1, mins, maxs, t);
      } else {
        SelectableWithinFunds(cs, i + 1, mins + cs[i].minHtlc, maxs + cs[i].spendable, t);
      }
    }
  }

  /** The error is wrong exactly if both orders refuse a target that some choice of channels can carry. */
  lemma ErrorWrongExactly(cs: seq<Channel>, t: nat)
    requires t > 0
    ensures Allocated(cs, t) == None && (exists a :: IsAllocation(cs, 0, a, t)) <==>
            && RefusesUp(Sort(Up, cs), t) && Refuses(Sort(Down, Sort(Up, cs)), t)
            && Selectable(cs, 0, 0, 0, t)
  {
    RefusedExactly(cs, t);
    SplitExistsExactly(cs, t);
    if Selectable(cs, 0, 0, 0, t) {
      SelectableWithinFunds(cs, 0, 0, 0, t);
    }
  }

  /** With minimums of at most 1 the insufficient-funds error is exactly right. */
  lemma InsufficientFundsHonest(cs: seq<Channel>, t: nat)
    requires t > 0 && forall k :: 0 <= k < |cs| && Usable(cs[k]) ==> cs[k].minHtlc <= 1
    ensures Allocated(cs, t) == None <==> t > Spendable(cs, 0, |cs|)
  {
    var up := Sort(Up, cs);
    SpendableSort(Up, cs);
    SortKeepsMembers(Up, cs);
    TinyMinimumsComplete(up, t);
    SpendableSort(Down, up);
    SortKeepsMembers(Down, up);
    TinyMinimumsComplete(Sort(Down, up), t);
  }

  lemma SortKeepsMembers(o: Order, cs: seq<Channel>)
    ensures forall k :: 0 <= k < |Sort(o, cs)| ==> Sort(o, cs)[k] in cs
  {
    SortCorrect(o, cs);
    forall k | 0 <= k < |Sort(o, cs)| ensures Sort(o, cs)[k] in cs {
      assert Sort(o, cs)[k] in multiset(Sort(o, cs));
    }
  }

  // ---------------------------------------------------------------- witnesses

  lemma {:induction false} InsertLargest(o: Order, c: Channel, cs: seq<Channel>)
    requires forall x :: x in cs ==> !Leq(o, c, x)
    ensures Insert(o, c, cs) == cs + [c]
  {
    if cs != [] {
      InsertLargest(o, c, cs[1..]);
    }
  }

  /** The smallest channel goes first in one order and last in the other. */
  lemma SortSmallest(c: Channel, cs: seq<Channel>)
    requires forall x :: x in cs ==> c.spendable < x.spendable
    ensures Sort(Up, [c] + cs) == [c] + Sort(Up, cs)
    ensures Sort(Down, [c] + cs) == Sort(Down, cs) + [c]
  {
    assert ([c] + cs)[1..] == cs;
    SortKeepsMembers(Up, cs);
    SortKeepsMembers(Down, cs);
    InsertLargest(Down, c, Sort(Down, cs));
  }

  lemma SortThree(a: Channel, b: Channel, c: Channel)
    requires a.spendable < b.spendable < c.spendable
    ensures Sort(Up, [a, b, c]) == [a, b, c] && Sort(Down, [a, b, c]) == [c, b, a]
  {
    SortSmallest(c, []);
    SortSmallest(b, [c]);
    SortSmallest(a, [b, c]);
    assert [c] + [] == [c] && [b] + [c] == [b, c] && [a] + [b, c] == [a, b, c];
  }

  const LARGE := Channel(1, 2000, 1700)
  const MIDDLE := Channel(2, 1500, 1300)
  const SMALL := Channel(3, 400, 100)

  /** A payment of 3000 that the node splits into 5000: the descending pass
      retries the first channel on top of what the failed attempt left. */
  lemma OverpaymentWitness()
    ensures Allocated([SMALL, MIDDLE, LARGE], 3000) ==
            Some([Contribution(0, LARGE, 2000), Contribution(0, LARGE, 1700), Contribution(1, MIDDLE, 1300)])
    ensures IsAllocation([LARGE, MIDDLE, SMALL], 0, [Contribution(0, LARGE, 1700), Contribution(1, MIDDLE, 1300)], 3000)
  {
    SortThree(SMALL, MIDDLE, LARGE);
    assert Verdict([SMALL, MIDDLE, LARGE], 0, 3000).NeedSpace? by {
      assert Verdict([SMALL, MIDDLE, LARGE], 2, 1100) == NeedSpace(600);
      assert Verdict([SMALL, MIDDLE, LARGE], 1, 2600) == NeedSpace(400);
    }
    OverpaymentDescending();
    TotalAppend([Contribution(0, LARGE, 1700)], [Contribution(1, MIDDLE, 1300)]);
  }

  lemma OverpaymentDescending()
    ensures Found([LARGE, MIDDLE, SMALL], 3000) ==
            Some([Contribution(0, LARGE, 2000), Contribution(0, LARGE, 1700), Contribution(1, MIDDLE, 1300)])
  {
    var down := [LARGE, MIDDLE, SMALL];
    assert Verdict(down, 2, 1000) == Impossible;
    assert Verdict(down, 1, 1000) == NeedSpace(300);
    assert Verdict(down, 1, 1300) == Success;
    assert Appended(down, 2, 1000) == [Contribution(2, SMALL, 400)];
    assert Appended(down, 1, 1300) == [Contribution(1, MIDDLE, 1300)];
    var tried := [Contribution(0, LARGE, 2000)] + [Contribution(2, SMALL, 400)];
    var retried := Popped(tried) + [Contribution(0, LARGE, 1700)];
    assert retried == [Contribution(0, LARGE, 2000), Contribution(0, LARGE, 1700)];
    assert Verdict(down, 0, 3000) == Success;
    assert Appended(down, 0, 3000) == retried + [Contribution(1, MIDDLE, 1300)];
    assert retried + [Contribution(1, MIDDLE, 1300)]
        == [Contribution(0, LARGE, 2000), Contribution(0, LARGE, 1700), Contribution(1, MIDDLE, 1300)];
  }

  /** The search is incomplete: both passes give up on 8 although the first and the last channel can hold it. */
  lemma IncompletenessWitness()
    ensures var x, y, z := Channel(1, 3, 2), Channel(2, 4, 3), Channel(3, 7, 6);
            && Allocated([x, y, z], 8) == None
            && IsAllocation([x, y, z], 0, [Contribution(0, x, 2), Contribution(2, z, 6)], 8)
  {
    var x, y, z := Channel(1, 3, 2), Channel(2, 4, 3), Channel(3, 7, 6);
    SortThree(x, y, z);
    assert Verdict([x, y, z], 0, 8).NeedSpace? by {
      assert Verdict([x, y, z], 2, 1) == NeedSpace(5);
      assert Verdict([x, y, z], 1, 5) == NeedSpace(4);
    }
    assert Verdict([z, y, x], 0, 8).NeedSpace? by {
      assert Verdict([z, y, x], 2, 1) == NeedSpace(1);
      assert Verdict([z, y, x], 1, 1) == NeedSpace(2);
    }
    TotalAppend([Contribution(0, x, 2)], [Contribution(2, z, 6)]);
  }

  // ---------------------------------------------------------------- independence of the listing

  ghost predicate SameKeys(a: seq<Channel>, b: seq<Channel>) {
    |a| == |b| && forall k :: 0 <= k < |a| ==> Key(a[k]) == Key(b[k])
  }

  /** How often key `x` occurs. */
  function Count(x: (u64, u64), cs: seq<Channel>): nat {
    if cs == [] then 0 else (if Key(cs[0]) == x then 1 else 0) + Count(x, cs[1..])
  }

  lemma {:induction false} CountOfKey(x: (u64, u64), cs: seq<Channel>)
    ensures Count(x, cs) == |WithKey(x, cs)|
  {
    if cs != [] {
      CountOfKey(x, cs[1..]);
    }
  }

  lemma CountSort(x: (u64, u64), o: Order, cs: seq<Channel>)
    ensures Count(x, Sort(o, cs)) == Count(x, cs)
  {
    SortStable(x, o, cs);
    CountOfKey(x, cs);
    CountOfKey(x, Sort(o, cs));
  }

  lemma {:induction false} CountPositive(x: (u64, u64), cs: seq<Channel>)
    ensures Count(x, cs) > 0 <==> exists k :: 0 <= k < |cs| && Key(cs[k]) == x
  {
    if cs != [] {
      CountPositive(x, cs[1..]);
      if k :| 0 <= k < |cs| && Key(cs[k]) == x {
        assert k > 0 ==> Key(cs[1..][k - 1]) == x;
      }
    }
  }

  /** A sorted list is determined, up to channel names, by how often each key occurs. */
  lemma {:induction false} SortedUnique(o: Order, a: seq<Channel>, b: seq<Channel>)
    requires SortedBy(o, a) && SortedBy(o, b)
    requires forall x :: Count(x, a) == Count(x, b)
    ensures SameKeys(a, b)
  {
    if a == [] || b == [] {
      if a != [] {
        assert Count(Key(a[0]), a) > 0;
      }
      if b != [] {
        assert Count(Key(b[0]), b) > 0;
      }
    } else {
      CountPositive(Key(a[0]), b);
      CountPositive(Key(b[0]), a);
      assert Count(Key(a[0]), a) > 0 && Count(Key(b[0]), b) > 0;
      var k :| 0 <= k < |b| && Key(b[k]) == Key(a[0]);
      var l :| 0 <= l < |a| && Key(a[l]) == Key(b[0]);
      assert Leq(o, b[0], b[k]) || k == 0;
      assert Leq(o, a[0], a[l]) || l == 0;
      forall x ensures Count(x, a[1..]) == Count(x, b[1..]) {
        assert Count(x, a) == Count(x, b);
      }
      SortedUnique(o, a[1..], b[1..]);
      forall m | 0 <= m < |a| ensures Key(a[m]) == Key(b[m]) {
        if m > 0 {
          assert Key(a[1..][m - 1]) == Key(b[1..][m - 1]);
        }
      }
    }
  }

  lemma {:induction false} VerdictOfKeys(a: seq<Channel>, b: seq<Channel>, i: nat, t: nat)
    requires SameKeys(a, b) && i <= |a|
    ensures Verdict(a, i, t) == Verdict(b, i, t)
    decreases |a| - i
  {
    if t > 0 && i < |a| {
      assert Key(a[i]) == Key(b[i]);
      VerdictOfKeys(a, b, i + 1, t);
      if Usable(a[i]) && t >= a[i].minHtlc {
        var upper := Min(a[i].spendable, t);
        VerdictOfKeys(a, b, i + 1, t - upper);
        if Verdict(a, i + 1, t - upper).NeedSpace? && Verdict(a, i + 1, t - upper).shortfall <= upper - a[i].minHtlc {
          VerdictOfKeys(a, b, i + 1, t - (upper - Verdict(a, i + 1, t - upper).shortfall));
        }
      }
    }
  }

  /** Whether a payment can be split does not depend on the order in which the node lists its channels. */
  lemma DecisionIgnoresListing(cs: seq<Channel>, ds: seq<Channel>, t: nat)
    requires forall x :: Count(x, cs) == Count(x, ds)
    ensures Allocated(cs, t).Some? <==> Allocated(ds, t).Some?
  {
    SortsAgree(Up, cs, ds);
    SortsAgree(Down, Sort(Up, cs), Sort(Up, ds));
    VerdictOfKeys(Sort(Up, cs), Sort(Up, ds), 0, t);
    VerdictOfKeys(Sort(Down, Sort(Up, cs)), Sort(Down, Sort(Up, ds)), 0, t);
  }

  lemma SortsAgree(o: Order, cs: seq<Channel>, ds: seq<Channel>)
    requires forall x :: Count(x, cs) == Count(x, ds)
    ensures SameKeys(Sort(o, cs), Sort(o, ds))
    ensures forall x :: Count(x, Sort(o, cs)) == Count(x, Sort(o, ds))
  {
    SortCorrect(o, cs);
    SortCorrect(o, ds);
    forall x ensures Count(x, Sort(o, cs)) == Count(x, Sort(o, ds)) {
      CountSort(x, o, cs);
      CountSort(x, o, ds);
    }
    SortedUnique(o, Sort(o, cs), Sort(o, ds));
  }
}
