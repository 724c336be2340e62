/** When the entries the search leaves on the shared stack are a correct allocation.
    Line numbers refer to libs/gl-plugin/src/tramp.rs. */
module TrampolineStack {
  import opened Prims
  import opened Trampoline
  import opened TrampolineTheory

  function Total(a: seq<Contribution>): nat {
    if a == [] then 0 else a[0].amount + Total(a[1..])
  }

  lemma {:induction false} TotalAppend(a: seq<Contribution>, b: seq<Contribution>)
    ensures Total(a + b) == Total(a) + Total(b)
  {
    if a == [] {
      assert a + b == b;
    } else {
      assert (a + b)[1..] == a[1..] + b;
      TotalAppend(a[1..], b);
    }
  }

  /** The entry borrows a channel with funds at or after `lo` and stays within its bounds. */
  predicate InBounds(cs: seq<Channel>, lo: nat, e: Contribution) {
    && lo <= e.pos < |cs|
    && e.channel == cs[e.pos]
    && e.channel.spendable > 0
    && e.channel.minHtlc <= e.amount <= e.channel.spendable
  }

  /** A correct allocation of `t` over the channels from `lo` on: within every
      channel's bounds, no channel used twice, and adding up to the target. */
  ghost predicate IsAllocation(cs: seq<Channel>, lo: nat, a: seq<Contribution>, t: nat) {
    && (forall k :: 0 <= k < |a| ==> InBounds(cs, lo, a[k]))
    && (forall k, l :: 0 <= k < l < |a| ==> a[k].pos < a[l].pos)
    && Total(a) == t
  }

  lemma AllocationCons(cs: seq<Channel>, e: Contribution, a: seq<Contribution>, t: nat)
    requires InBounds(cs, e.pos, e) && IsAllocation(cs, e.pos + 1, a, t)
    ensures IsAllocation(cs, e.pos, [e] + a, e.amount + t)
  {
    assert ([e] + a)[1..] == a;
    forall k | 0 <= k < |[e] + a| ensures InBounds(cs, e.pos, ([e] + a)[k]) {
      if k > 0 {
        assert InBounds(cs, e.pos + 1, a[k - 1]);
      }
    }
  }

  lemma AllocationWeaken(cs: seq<Channel>, lo: nat, hi: nat, a: seq<Contribution>, t: nat)
    requires lo <= hi && IsAllocation(cs, hi, a, t)
    ensures IsAllocation(cs, lo, a, t)
  {
    forall k | 0 <= k < |a| ensures InBounds(cs, lo, a[k]) {
      assert InBounds(cs, hi, a[k]);
    }
  }

  /** A failing search leaves entries behind exactly when it runs dry after its
      last blocked channel: the skip (lines 843-846) turns an `Impossible`, which
      does not pop, into a `NeedSpace`, which promises a clean stack. */
  predicate LeavesEntries(cs: seq<Channel>, i: nat, t: nat)
    requires i <= |cs|
    decreases |cs| - i
  {
    if t == 0 || i == |cs| then false
    else if !Usable(cs[i]) || t < cs[i].minHtlc then LeavesEntries(cs, i + 1, t)
    else
      var rest := t - Min(cs[i].spendable, t);
      RunsDry(cs, i + 1, rest) || LeavesEntries(cs, i + 1, rest)
  }

  /** The search retries a channel (line 878) after an attempt that left entries
      behind. This is a condition on the amounts: single passes say which channels
      keep their maximum, give some of it back, or are skipped. */
  predicate RetriesOverStaleEntries(cs: seq<Channel>, i: nat, t: nat)
    requires i <= |cs|
    decreases |cs| - i
  {
    if t == 0 || i == |cs| then false
    else if !Usable(cs[i]) || t < cs[i].minHtlc then RetriesOverStaleEntries(cs, i + 1, t)
    else
      var upper := Min(cs[i].spendable, t);
      var rest := t - upper;
      if SinglePass(cs, i + 1, rest, 0) then RetriesOverStaleEntries(cs, i + 1, rest)
      else
        && SinglePass(cs, i + 1, rest, upper - cs[i].minHtlc)
        && (LeavesEntries(cs, i + 1, rest) || RetriesOverStaleEntries(cs, i + 1, rest + Lacking(cs, i + 1, rest)))
  }

  /** The single passes and scans at offset `i` say what the search answers there. */
  lemma Scans(cs: seq<Channel>, i: nat, t: nat, free: nat)
    requires i <= |cs|
    ensures SinglePass(cs, i, t, 0) <==> Verdict(cs, i, t) == Success
    ensures RunsDry(cs, i, t) <==> Verdict(cs, i, t) == Impossible
    ensures Verdict(cs, i, t).NeedSpace? ==>
              && Lacking(cs, i, t) == Verdict(cs, i, t).shortfall
              && (SinglePass(cs, i, t, free) <==> Verdict(cs, i, t).shortfall <= free)
  {
    SuccessIsSinglePass(cs, i, t);
    ImpossibleIsDry(cs, i, t);
    SinglePassDecides(cs, i, t, free);
    if Verdict(cs, i, t).NeedSpace? {
      ShortfallIsLacking(cs, i, t);
    }
  }

  lemma {:induction false} LeftoverExact(cs: seq<Channel>, i: nat, t: nat)
    requires i <= |cs| && Verdict(cs, i, t) != Success
    ensures Appended(cs, i, t) != [] <==> LeavesEntries(cs, i, t)
    decreases |cs| - i
  {
    if i < |cs| {
      if !Usable(cs[i]) || t < cs[i].minHtlc {
        LeftoverExact(cs, i + 1, t);
      } else {
        var rest := t - Min(cs[i].spendable, t);
        ImpossibleIsDry(cs, i + 1, rest);
        LeftoverExact(cs, i + 1, rest);
        if Verdict(cs, i + 1, rest).NeedSpace? {
          RetrySucceeds(cs, i, t);
        }
      }
    }
  }

  ghost predicate UsesTwice(a: seq<Contribution>) {
    exists k, l :: 0 <= k < l < |a| && a[k].pos == a[l].pos
  }

  lemma UsesTwiceWithin(p: seq<Contribution>, a: seq<Contribution>)
    requires UsesTwice(a)
    ensures UsesTwice(p + a)
  {
    var k, l :| 0 <= k < l < |a| && a[k].pos == a[l].pos;
    assert (p + a)[|p| + k] == a[k] && (p + a)[|p| + l] == a[l];
  }

  /** Either a correct allocation, or (`corrupt`) too much in total with some channel used twice. */
  ghost predicate Outcome(cs: seq<Channel>, lo: nat, a: seq<Contribution>, t: nat, corrupt: bool) {
    if corrupt then Total(a) > t && UsesTwice(a) else IsAllocation(cs, lo, a, t)
  }

  /** Entry `e` is followed by an outcome for the later channels. */
  lemma Extend(cs: seq<Channel>, e: Contribution, a: seq<Contribution>, t: nat, corrupt: bool)
    requires InBounds(cs, e.pos, e) && Outcome(cs, e.pos + 1, a, t, corrupt)
    ensures Outcome(cs, e.pos, [e] + a, e.amount + t, corrupt)
  {
    if corrupt {
      UsesTwiceWithin([e], a);
      TotalAppend([e], a);
    } else {
      AllocationCons(cs, e, a, t);
    }
  }

  /** Entries left below a retried channel: it is used twice, and its first amount is paid on top. */
  lemma StaleEntriesOverpay(first: Contribution, left: seq<Contribution>, again: seq<Contribution>)
    requires left != [] && again != [] && first.pos == again[0].pos && first.amount > 0
    ensures var a := Popped([first] + left) + again;
            Total(a) > Total(again) && UsesTwice(a)
  {
    var stale := Popped([first] + left);
    var a := stale + again;
    assert a[0] == first && a[|stale|] == again[0];
    TotalAppend(stale, again);
  }

  /** The channel is tried at its maximum, fails, and is retried with less. */
  ghost predicate Retried(cs: seq<Channel>, i: nat, t: nat, adjusted: nat, left: seq<Contribution>)
  {
    && i < |cs| && Usable(cs[i]) && cs[i].minHtlc <= adjusted < Min(cs[i].spendable, t)
    && Verdict(cs, i + 1, t - adjusted) == Success
    && Appended(cs, i, t) ==
       Popped([Contribution(i, cs[i], Min(cs[i].spendable, t))] + left)
       + ([Contribution(i, cs[i], adjusted)] + Appended(cs, i + 1, t - adjusted))
    && (RetriesOverStaleEntries(cs, i, t) <==> left != [] || RetriesOverStaleEntries(cs, i + 1, t - adjusted))
  }

  lemma RetryAppends(cs: seq<Channel>, i: nat, t: nat, s: nat)
    requires i < |cs| && t > 0 && Usable(cs[i]) && t >= cs[i].minHtlc
    requires var upper := Min(cs[i].spendable, t);
             && Verdict(cs, i + 1, t - upper).NeedSpace? && Verdict(cs, i + 1, t - upper).shortfall == s
             && s <= upper - cs[i].minHtlc && Verdict(cs, i + 1, t - (upper - s)) == Success
    ensures var upper := Min(cs[i].spendable, t);
            Appended(cs, i, t) ==
            Popped([Contribution(i, cs[i], upper)] + Appended(cs, i + 1, t - upper))
            + ([Contribution(i, cs[i], upper - s)] + Appended(cs, i + 1, t - (upper - s)))
  {
    var upper := Min(cs[i].spendable, t);
    var tried := [Contribution(i, cs[i], upper)] + Appended(cs, i + 1, t - upper);
    Regroup(Popped(tried), [Contribution(i, cs[i], upper - s)], Appended(cs, i + 1, t - (upper - s)));
  }

  lemma RetryStale(cs: seq<Channel>, i: nat, t: nat, s: nat)
    requires i < |cs| && t > 0 && Usable(cs[i]) && t >= cs[i].minHtlc
    requires var upper := Min(cs[i].spendable, t);
             && Verdict(cs, i + 1, t - upper).NeedSpace? && Verdict(cs, i + 1, t - upper).shortfall == s
             && s <= upper - cs[i].minHtlc
    ensures var rest := t - Min(cs[i].spendable, t);
            RetriesOverStaleEntries(cs, i, t) <==>
            LeavesEntries(cs, i + 1, rest) || RetriesOverStaleEntries(cs, i + 1, rest + s)
  {
    var upper := Min(cs[i].spendable, t);
    Scans(cs, i + 1, t - upper, upper - cs[i].minHtlc);
  }

  lemma {:induction false} RetryShape(cs: seq<Channel>, i: nat, t: nat) returns (adjusted: u64, left: seq<Contribution>)
    requires i < |cs| && t > 0 && Usable(cs[i]) && t >= cs[i].minHtlc
    requires Verdict(cs, i, t) == Success
    requires Verdict(cs, i + 1, t - Min(cs[i].spendable, t)) != Success
    ensures Retried(cs, i, t, adjusted, left)
  {
    var upper := Min(cs[i].spendable, t);
    var s := Verdict(cs, i + 1, t - upper).shortfall;
    ShortfallExact(cs, i + 1, t - upper, 0);
    RetrySucceeds(cs, i, t);
    adjusted, left := upper - s, Appended(cs, i + 1, t - upper);
    RetryAppends(cs, i, t, s);
    RetryStale(cs, i, t, s);
    LeftoverExact(cs, i + 1, t - upper);
    assert t - upper + s == t - adjusted;
  }

  lemma OutcomeOverStale(cs: seq<Channel>, first: Contribution, left: seq<Contribution>, again: seq<Contribution>,
                         t: nat, corrupt: bool)
    requires again != [] && first.pos == again[0].pos && first.amount > 0
    requires Outcome(cs, first.pos, again, t, corrupt)
    ensures Outcome(cs, first.pos, Popped([first] + left) + again, t, left != [] || corrupt)
  {
    if left != [] {
      StaleEntriesOverpay(first, left, again);
    } else {
      assert Popped([first] + left) + again == again;
    }
  }

  lemma TriedOutcome(cs: seq<Channel>, i: nat, t: nat)
    requires i < |cs| && t > 0 && Usable(cs[i]) && t >= cs[i].minHtlc
    requires var rest := t - Min(cs[i].spendable, t);
             && Verdict(cs, i + 1, rest) == Success
             && Outcome(cs, i + 1, Appended(cs, i + 1, rest), rest, RetriesOverStaleEntries(cs, i + 1, rest))
    ensures Outcome(cs, i, Appended(cs, i, t), t, RetriesOverStaleEntries(cs, i, t))
  {
    var upper := Min(cs[i].spendable, t);
    SuccessIsSinglePass(cs, i + 1, t - upper);
    Extend(cs, Contribution(i, cs[i], upper), Appended(cs, i + 1, t - upper), t - upper,
           RetriesOverStaleEntries(cs, i + 1, t - upper));
  }

  lemma RetriedOutcome(cs: seq<Channel>, i: nat, t: nat, adjusted: u64, left: seq<Contribution>)
    requires Retried(cs, i, t, adjusted, left)
    requires Outcome(cs, i + 1, Appended(cs, i + 1, t - adjusted), t - adjusted,
                     RetriesOverStaleEntries(cs, i + 1, t - adjusted))
    ensures Outcome(cs, i, Appended(cs, i, t), t, RetriesOverStaleEntries(cs, i, t))
  {
    var e, rest := Contribution(i, cs[i], adjusted), t - adjusted;
    var stale := RetriesOverStaleEntries(cs, i + 1, rest);
    Extend(cs, e, Appended(cs, i + 1, rest), rest, stale);
    var first := Contribution(i, cs[i], Min(cs[i].spendable, t));
    OutcomeOverStale(cs, first, left, [e] + Appended(cs, i + 1, rest), t, stale);
  }

  /** The exact result of a successful search, in any order of the channels: a
      correct allocation iff no retry ran over stale entries; otherwise it pays
      more than the target and uses some channel twice. */
  lemma {:induction false} SuccessExact(cs: seq<Channel>, i: nat, t: nat)
    requires i <= |cs| && Verdict(cs, i, t) == Success
    ensures Outcome(cs, i, Appended(cs, i, t), t, RetriesOverStaleEntries(cs, i, t))
    decreases |cs| - i
  {
    if t > 0 {
      if !Usable(cs[i]) || t < cs[i].minHtlc {
        SuccessExact(cs, i + 1, t);
        if !RetriesOverStaleEntries(cs, i, t) {
          AllocationWeaken(cs, i, i + 1, Appended(cs, i + 1, t), t);
        }
      } else if Verdict(cs, i + 1, t - Min(cs[i].spendable, t)) == Success {
        SuccessExact(cs, i + 1, t - Min(cs[i].spendable, t));
        TriedOutcome(cs, i, t);
      } else {
        var adjusted, left := RetryShape(cs, i, t);
        SuccessExact(cs, i + 1, t - adjusted);
        RetriedOutcome(cs, i, t, adjusted, left);
      }
    }
  }

  // ---------------------------------------------------------------- when the stack stays clean

  /** In ascending order `NeedSpace` leaves the stack as it was on entry, and no retry meets stale entries. */
  lemma {:induction false} AscendingStaysClean(cs: seq<Channel>, i: nat, t: nat)
    requires i <= |cs| && Ascending(cs)
    ensures Verdict(cs, i, t).NeedSpace? ==> !LeavesEntries(cs, i, t) && Appended(cs, i, t) == []
    ensures Verdict(cs, i, t) == Success ==> !RetriesOverStaleEntries(cs, i, t)
    decreases |cs| - i
  {
    if t > 0 && i < |cs| {
      if !Usable(cs[i]) {
        AscendingStaysClean(cs, i + 1, t);
      } else if t < cs[i].minHtlc {
        AscendingStaysClean(cs, i + 1, t);
        SkipStaysClean(cs, i, t);
      } else {
        var upper := Min(cs[i].spendable, t);
        AscendingStaysClean(cs, i + 1, t - upper);
        ImpossibleIsDry(cs, i + 1, t - upper);
        SuccessIsSinglePass(cs, i + 1, t - upper);
        if Verdict(cs, i + 1, t - upper).NeedSpace? {
          RetrySucceeds(cs, i, t);
          var s := Verdict(cs, i + 1, t - upper).shortfall;
          if s <= upper - cs[i].minHtlc {
            AscendingStaysClean(cs, i + 1, t - upper + s);
            RetryStale(cs, i, t, s);
          }
        }
      }
      if Verdict(cs, i, t).NeedSpace? {
        LeftoverExact(cs, i, t);
      }
    }
  }

  /** A search that skips the blocking channel `i` runs dry only if nothing usable follows. */
  lemma SkipStaysClean(cs: seq<Channel>, i: nat, t: nat)
    requires i < |cs| && Ascending(cs) && 0 < t < cs[i].minHtlc && Usable(cs[i])
    ensures Verdict(cs, i + 1, t) == Impossible ==> !LeavesEntries(cs, i + 1, t)
  {
    DecisionPastBlocker(cs, i + 1, t);
    if Verdict(cs, i + 1, t) == Impossible {
      NothingUsableLeavesNothing(cs, i + 1, t);
    }
  }

  lemma {:induction false} NothingUsableLeavesNothing(cs: seq<Channel>, i: nat, t: nat)
    requires i <= |cs| && forall k :: i <= k < |cs| ==> !Usable(cs[k])
    ensures !LeavesEntries(cs, i, t)
    decreases |cs| - i
  {
    if i < |cs| {
      NothingUsableLeavesNothing(cs, i + 1, t);
    }
  }

  /** In any order: without a blocking channel nothing is ever retried. */
  lemma {:induction false} NoBlockerNoRetry(cs: seq<Channel>, i: nat, t: nat)
    requires i <= |cs|
    requires forall j: nat :: !Blocks(cs, i, t, j)
    ensures !RetriesOverStaleEntries(cs, i, t)
    decreases |cs| - i
  {
    if t > 0 && i < |cs| {
      assert !Blocks(cs, i, t, i);
      var taken := if Usable(cs[i]) then Min(cs[i].spendable, t) else 0;
      var i', t' := i + 1, t - taken;
      forall j: nat ensures !Blocks(cs, i', t', j) {
        assert !Blocks(cs, i, t, j);
      }
      NoBlockerNoRetry(cs, i', t');
      DecisionWithoutBlocker(cs, i', t');
      SuccessIsSinglePass(cs, i', t');
      if Usable(cs[i]) {
        SinglePassDecides(cs, i', t', taken - cs[i].minHtlc);
      }
    }
  }

  // ---------------------------------------------------------------- main results

  /** Ascending order: whatever is returned is a correct allocation of the
      target, in positive parts if the minimums are positive. */
  lemma AscendingSound(cs: seq<Channel>, t: nat)
    requires Ascending(cs)
    ensures Found(cs, t).Some? ==>
              var a := Found(cs, t).value;
              && IsAllocation(cs, 0, a, t)
              && ((forall k :: 0 <= k < |cs| && Usable(cs[k]) ==> cs[k].minHtlc >= 1) ==>
                    forall k :: 0 <= k < |a| ==> a[k].amount > 0)
  {
    if Found(cs, t).Some? {
      AscendingStaysClean(cs, 0, t);
      SuccessExact(cs, 0, t);
      if forall k :: 0 <= k < |cs| && Usable(cs[k]) ==> cs[k].minHtlc >= 1 {
        PartsPositive(cs, Found(cs, t).value, t);
      }
    }
  }

  /** Any order: what is returned is a correct allocation iff the search did not
      retry over stale entries, and otherwise it overpays. */
  lemma FoundSoundExactly(cs: seq<Channel>, t: nat)
    requires Found(cs, t).Some?
    ensures IsAllocation(cs, 0, Found(cs, t).value, t) <==> !RetriesOverStaleEntries(cs, 0, t)
    ensures Total(Found(cs, t).value) == t <==> !RetriesOverStaleEntries(cs, 0, t)
    ensures Total(Found(cs, t).value) >= t
  {
    SuccessExact(cs, 0, t);
  }

  /** Any order: minimums of at most 1 make the returned allocation correct. */
  lemma TinyMinimumsSound(cs: seq<Channel>, t: nat)
    requires forall k :: 0 <= k < |cs| && Usable(cs[k]) ==> cs[k].minHtlc <= 1
    ensures Found(cs, t).Some? ==> IsAllocation(cs, 0, Found(cs, t).value, t)
  {
    NoBlockerNoRetry(cs, 0, t);
    if Found(cs, t).Some? {
      SuccessExact(cs, 0, t);
    }
  }

  /** Any order: a `Success` verdict is never wrong, even where the stack is. The
      witness is what the search would leave if each failed attempt were truncated. */
  lemma {:induction false} VerdictSound(cs: seq<Channel>, i: nat, t: nat) returns (a: seq<Contribution>)
    requires i <= |cs| && Verdict(cs, i, t) == Success
    ensures IsAllocation(cs, i, a, t)
    decreases |cs| - i
  {
    if t == 0 {
      a := [];
    } else if !Usable(cs[i]) || t < cs[i].minHtlc {
      a := VerdictSound(cs, i + 1, t);
      AllocationWeaken(cs, i, i + 1, a, t);
    } else {
      var amount := Min(cs[i].spendable, t);
      if Verdict(cs, i + 1, t - amount).NeedSpace? {
        RetrySucceeds(cs, i, t);
        amount := amount - Verdict(cs, i + 1, t - amount).shortfall;
      }
      a := VerdictSound(cs, i + 1, t - amount);
      AllocationCons(cs, Contribution(i, cs[i], amount), a, t - amount);
      a := [Contribution(i, cs[i], amount)] + a;
    }
  }

  /** Every part of a correct allocation is a positive amount if the minimums are. */
  lemma PartsPositive(cs: seq<Channel>, a: seq<Contribution>, t: nat)
    requires IsAllocation(cs, 0, a, t)
    requires forall k :: 0 <= k < |cs| && Usable(cs[k]) ==> cs[k].minHtlc >= 1
    ensures forall k :: 0 <= k < |a| ==> a[k].amount > 0
  {
    forall k | 0 <= k < |a| ensures a[k].amount > 0 {
      assert InBounds(cs, 0, a[k]);
    }
  }
}
