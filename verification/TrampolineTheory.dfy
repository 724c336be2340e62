/** What the allocator's verdict guarantees. Line numbers refer to libs/gl-plugin/src/tramp.rs. */
module TrampolineTheory {
  import opened Prims
  import opened Trampoline

  // ---------------------------------------------------------------- usable channels

  /** The channel can carry a part of amount `a`. */
  predicate Takes(ch: Channel, a: nat) {
    0 < a && ch.minHtlc <= a <= ch.spendable
  }

  /** The channels that the search does not skip are those that can carry any part at all. */
  lemma UsableExactly(ch: Channel)
    ensures Usable(ch) <==> exists a: nat :: Takes(ch, a)
  {
    assert Takes(ch, ch.spendable) <==> Usable(ch);
  }

  /** A single channel is allocated exactly the amounts it can carry. */
  lemma SingleChannelExactly(ch: Channel, t: nat)
    ensures Found([ch], t).Some? <==> Takes(ch, t)
    ensures Takes(ch, t) ==> Found([ch], t) == Some([Contribution(0, ch, t)])
  {
    var cs := [ch];
    if t > 0 {
      assert Verdict(cs, 1, t) == Impossible;
      if Usable(ch) && t >= ch.minHtlc {
        var rest := t - Min(ch.spendable, t);
        assert Verdict(cs, 1, rest) == if rest == 0 then Success else Impossible;
        assert Appended(cs, 0, t) == [Contribution(0, ch, Min(ch.spendable, t))] + Appended(cs, 1, rest);
        assert Appended(cs, 1, rest) == [];
        var part := Contribution(0, ch, Min(ch.spendable, t));
        assert [part] + [] == [part];
      }
    }
  }

  // ---------------------------------------------------------------- shortfalls

  /** A reported shortfall is exact: with `d` more to place, the same channels
      ask for exactly `d` less or succeed, and with the whole shortfall they succeed. */
  lemma {:induction false} ShortfallExact(cs: seq<Channel>, i: nat, t: nat, d: nat)
    requires i <= |cs|
    requires Verdict(cs, i, t).NeedSpace? && d <= Verdict(cs, i, t).shortfall
    ensures Verdict(cs, i, t).shortfall > 0
    ensures d == Verdict(cs, i, t).shortfall ==> Verdict(cs, i, t + d) == Success
    ensures d < Verdict(cs, i, t).shortfall ==>
              Verdict(cs, i, t + d) == Success
              || Verdict(cs, i, t + d) == NeedSpace(Verdict(cs, i, t).shortfall - d)
    decreases |cs| - i, 1
  {
    var ch := cs[i];
    if !Usable(ch) {
      ShortfallExact(cs, i + 1, t, d);
    } else if t >= ch.minHtlc {
      var upper := Min(ch.spendable, t);
      var s := Verdict(cs, i + 1, t - upper).shortfall;
      var free := upper - ch.minHtlc;
      assert upper == ch.spendable;
      RetrySucceeds(cs, i, t);
      ShortfallExact(cs, i + 1, t - upper, d);
      ShortfallExact(cs, i + 1, t - upper, s);
      assert t + d - upper == t - upper + d;
      if Verdict(cs, i + 1, t + d - upper).NeedSpace? {
        RetrySucceeds(cs, i, t + d);
      }
    }
  }

  /** Line 878: once enough room was freed, the retry succeeds. */
  lemma {:induction false} RetrySucceeds(cs: seq<Channel>, i: nat, t: nat)
    requires i < |cs| && Usable(cs[i]) && t >= cs[i].minHtlc
    requires Verdict(cs, i + 1, t - Min(cs[i].spendable, t)).NeedSpace?
    ensures var upper := Min(cs[i].spendable, t);
            var s := Verdict(cs, i + 1, t - upper).shortfall;
            s <= upper - cs[i].minHtlc ==> Verdict(cs, i + 1, t - (upper - s)) == Success
    decreases |cs| - i, 0
  {
    var upper := Min(cs[i].spendable, t);
    var s := Verdict(cs, i + 1, t - upper).shortfall;
    ShortfallExact(cs, i + 1, t - upper, s);
    if s <= upper - cs[i].minHtlc {
      assert t - (upper - s) == t - upper + s;
    }
  }

  /** The search without the skip-this-channel fallback of lines 880-884. */
  function VerdictWithoutFallback(cs: seq<Channel>, i: nat, t: nat): AllocResult
    requires i <= |cs|
    decreases |cs| - i
  {
    if t == 0 then Success
    else if i == |cs| then Impossible
    else if !Usable(cs[i]) then VerdictWithoutFallback(cs, i + 1, t)
    else
      var lower := cs[i].minHtlc;
      var upper := Min(cs[i].spendable, t);
      if t < lower then
        if VerdictWithoutFallback(cs, i + 1, t) == Success then Success else NeedSpace(lower - t)
      else
        match VerdictWithoutFallback(cs, i + 1, t - upper)
        case NeedSpace(s) => if s <= upper - lower then Success else NeedSpace(s - (upper - lower))
        case v => v
  }

  /** Hence the fallback is dead code: dropping it changes no verdict. */
  lemma {:induction false} FallbackUnreachable(cs: seq<Channel>, i: nat, t: nat)
    requires i <= |cs|
    ensures VerdictWithoutFallback(cs, i, t) == Verdict(cs, i, t)
    decreases |cs| - i
  {
    if t > 0 && i < |cs| {
      FallbackUnreachable(cs, i + 1, t);
      if Usable(cs[i]) && t >= cs[i].minHtlc {
        FallbackUnreachable(cs, i + 1, t - Min(cs[i].spendable, t));
        if Verdict(cs, i + 1, t - Min(cs[i].spendable, t)).NeedSpace? {
          RetrySucceeds(cs, i, t);
        }
      }
    }
  }

  // ---------------------------------------------------------------- capacity and minimums

  /** Spendable amount of the usable channels at positions [i, j). */
  function Spendable(cs: seq<Channel>, i: nat, j: nat): nat
    requires i <= j <= |cs|
    decreases j - i
  {
    if i == j then 0
    else (if Usable(cs[i]) then cs[i].spendable else 0) + Spendable(cs, i + 1, j)
  }

  /** Minimum HTLC amounts of the usable channels at positions [i, j). */
  function Minimums(cs: seq<Channel>, i: nat, j: nat): nat
    requires i <= j <= |cs|
    decreases j - i
  {
    if i == j then 0
    else (if Usable(cs[i]) then cs[i].minHtlc else 0) + Minimums(cs, i + 1, j)
  }

  lemma {:induction false} SpendableSplit(cs: seq<Channel>, i: nat, j: nat, k: nat)
    requires i <= j <= k <= |cs|
    ensures Spendable(cs, i, k) == Spendable(cs, i, j) + Spendable(cs, j, k)
    decreases j - i
  {
    if i < j {
      SpendableSplit(cs, i + 1, j, k);
    }
  }

  /** `Success` needs the funds to be there; `Impossible` says that they are not. */
  lemma {:induction false} VerdictBoundsFunds(cs: seq<Channel>, i: nat, t: nat)
    requires i <= |cs|
    ensures Verdict(cs, i, t) == Success ==> t <= Spendable(cs, i, |cs|)
    ensures Verdict(cs, i, t) == Impossible ==> t > Spendable(cs, i, |cs|)
    decreases |cs| - i
  {
    if t > 0 && i < |cs| {
      VerdictBoundsFunds(cs, i + 1, t);
      if Usable(cs[i]) && t >= cs[i].minHtlc {
        var upper := Min(cs[i].spendable, t);
        VerdictBoundsFunds(cs, i + 1, t - upper);
        if Verdict(cs, i + 1, t - upper).NeedSpace? {
          var s := Verdict(cs, i + 1, t - upper).shortfall;
          RetrySucceeds(cs, i, t);
          if s <= upper - cs[i].minHtlc {
            VerdictBoundsFunds(cs, i + 1, t - (upper - s));
          }
        }
      }
    }
  }

  // ---------------------------------------------------------------- closed form

  /** Channel `j` blocks target `t`: draining every usable channel before it
      leaves something to place, but less than its minimum. */
  predicate Blocks(cs: seq<Channel>, i: nat, t: nat, j: nat)
    requires i <= |cs|
  {
    && i <= j < |cs|
    && Usable(cs[j])
    && Spendable(cs, i, j) < t < Spendable(cs, i, j) + cs[j].minHtlc
  }

  /** At most one channel blocks a given target. */
  lemma BlockerUnique(cs: seq<Channel>, i: nat, t: nat, j: nat, k: nat)
    requires i <= |cs| && Blocks(cs, i, t, j) && Blocks(cs, i, t, k)
    ensures j == k
  {
    if j < k {
      SpendableSplit(cs, i, j, k);
    } else if k < j {
      SpendableSplit(cs, i, k, j);
    }
  }

  /** In any order: when no channel blocks, the search decides exactly whether
      the usable funds cover the target. */
  lemma {:induction false} DecisionWithoutBlocker(cs: seq<Channel>, i: nat, t: nat)
    requires i <= |cs|
    requires forall j: nat :: !Blocks(cs, i, t, j)
    ensures Verdict(cs, i, t) == if t <= Spendable(cs, i, |cs|) then Success else Impossible
    decreases |cs| - i
  {
    if t > 0 && i < |cs| {
      var taken := if Usable(cs[i]) then Min(cs[i].spendable, t) else 0;
      assert !Blocks(cs, i, t, i);
      var i', t' := i + 1, t - taken;
      forall j: nat ensures !Blocks(cs, i', t', j) {
        assert !Blocks(cs, i, t, j);
      }
      DecisionWithoutBlocker(cs, i', t');
    }
  }

  /** Verdict `v` is success if `success`, and else asks for exactly `excess`. */
  predicate Decides(v: AllocResult, success: bool, excess: int) {
    if success then v == Success else v.NeedSpace? && v.shortfall == excess
  }

  /** In any order: past the blocking channel `j`, the search succeeds iff the
      later channels can place what is left, or the minimums of the usable
      channels up to and including `j` fit into the target; else it reports the
      exact excess of those minimums. */
  lemma {:induction false} DecisionWithBlocker(cs: seq<Channel>, i: nat, t: nat, j: nat)
    requires i <= |cs| && Blocks(cs, i, t, j)
    ensures Decides(Verdict(cs, i, t),
                    Verdict(cs, j + 1, t - Spendable(cs, i, j)) == Success || Minimums(cs, i, j + 1) <= t,
                    Minimums(cs, i, j + 1) - t)
    decreases |cs| - i
  {
    if i < j {
      var taken := if Usable(cs[i]) then cs[i].spendable else 0;
      assert Spendable(cs, i, j) == taken + Spendable(cs, i + 1, j);
      DecisionWithBlocker(cs, i + 1, t - taken, j);
      if Usable(cs[i]) && Verdict(cs, i + 1, t - taken).NeedSpace? {
        RetrySucceeds(cs, i, t);
      }
    } else {
      assert Minimums(cs, i, i + 1) == cs[i].minHtlc + Minimums(cs, i + 1, i + 1);
    }
  }

  ghost predicate Ascending(cs: seq<Channel>) {
    forall j, k :: 0 <= j < k < |cs| ==> cs[j].spendable <= cs[k].spendable
  }

  /** Past a blocker in ascending order, any one usable channel takes all of the rest or nothing. */
  lemma {:induction false} DecisionPastBlocker(cs: seq<Channel>, m: nat, t: nat)
    requires m <= |cs| && t > 0
    requires forall k :: m <= k < |cs| && Usable(cs[k]) ==> t < cs[k].spendable
    ensures Verdict(cs, m, t) == Success <==> exists k :: m <= k < |cs| && Usable(cs[k]) && cs[k].minHtlc <= t
    ensures Verdict(cs, m, t) == Impossible ==> forall k :: m <= k < |cs| ==> !Usable(cs[k])
    decreases |cs| - m
  {
    if m < |cs| {
      DecisionPastBlocker(cs, m + 1, t);
    }
  }

  /** The exact decision in ascending order when channel `j` blocks, in terms of
      amounts alone: success iff a later channel can take all of what is left, or
      the minimums up to `j` fit. (Without a blocker, see `DecisionWithoutBlocker`.) */
  lemma AscendingDecision(cs: seq<Channel>, t: nat, j: nat)
    requires Ascending(cs) && Blocks(cs, 0, t, j)
    ensures Decides(Verdict(cs, 0, t),
                    (exists k :: j < k < |cs| && Usable(cs[k]) && cs[k].minHtlc <= t - Spendable(cs, 0, j))
                    || Minimums(cs, 0, j + 1) <= t,
                    Minimums(cs, 0, j + 1) - t)
  {
    DecisionWithBlocker(cs, 0, t, j);
    DecisionPastBlocker(cs, j + 1, t - Spendable(cs, 0, j));
  }

  // ---------------------------------------------------------------- one pass over the amounts

  /** A single pass without backtracking: place as much as each channel takes,
      keep the sum of what the placed channels could give back as `slack`, and at
      a channel whose minimum is too large either draw on the slack or skip it
      and start a new sum. `r` is what remains to be placed. */
  predicate SinglePass(cs: seq<Channel>, i: nat, r: nat, slack: nat)
    requires i <= |cs|
    decreases |cs| - i
  {
    if r == 0 then true
    else if i == |cs| then false
    else if !Usable(cs[i]) then SinglePass(cs, i + 1, r, slack)
    else if r < cs[i].minHtlc then cs[i].minHtlc - r <= slack || SinglePass(cs, i + 1, r, 0)
    else
      var upper := Min(cs[i].spendable, r);
      SinglePass(cs, i + 1, r - upper, slack + (upper - cs[i].minHtlc))
  }

  /** The backtracking search succeeds, or lacks at most `slack`, exactly if the single pass says so. */
  lemma {:induction false} SinglePassDecides(cs: seq<Channel>, i: nat, r: nat, slack: nat)
    requires i <= |cs|
    ensures SinglePass(cs, i, r, slack) <==>
            Verdict(cs, i, r) == Success || (Verdict(cs, i, r).NeedSpace? && Verdict(cs, i, r).shortfall <= slack)
    decreases |cs| - i
  {
    if r > 0 && i < |cs| {
      if !Usable(cs[i]) {
        SinglePassDecides(cs, i + 1, r, slack);
      } else if r < cs[i].minHtlc {
        SinglePassDecides(cs, i + 1, r, 0);
        if Verdict(cs, i + 1, r).NeedSpace? {
          ShortfallExact(cs, i + 1, r, 0);
        }
      } else {
        var upper := Min(cs[i].spendable, r);
        SinglePassDecides(cs, i + 1, r - upper, slack + (upper - cs[i].minHtlc));
        if Verdict(cs, i + 1, r - upper).NeedSpace? {
          RetrySucceeds(cs, i, r);
        }
      }
    }
  }

  /** The search succeeds exactly if the single pass does. */
  lemma SuccessIsSinglePass(cs: seq<Channel>, i: nat, r: nat)
    requires i <= |cs|
    ensures Verdict(cs, i, r) == Success <==> SinglePass(cs, i, r, 0)
  {
    SinglePassDecides(cs, i, r, 0);
    if Verdict(cs, i, r).NeedSpace? {
      ShortfallExact(cs, i, r, 0);
    }
  }

  /** Every usable channel is drained without a blocker, and something remains. */
  predicate RunsDry(cs: seq<Channel>, i: nat, r: nat)
    requires i <= |cs|
    decreases |cs| - i
  {
    if r == 0 then false
    else if i == |cs| then true
    else if !Usable(cs[i]) then RunsDry(cs, i + 1, r)
    else r >= cs[i].minHtlc && RunsDry(cs, i + 1, r - Min(cs[i].spendable, r))
  }

  lemma {:induction false} ImpossibleIsDry(cs: seq<Channel>, i: nat, r: nat)
    requires i <= |cs|
    ensures Verdict(cs, i, r) == Impossible <==> RunsDry(cs, i, r)
    decreases |cs| - i
  {
    if r > 0 && i < |cs| {
      if !Usable(cs[i]) {
        ImpossibleIsDry(cs, i + 1, r);
      } else if r >= cs[i].minHtlc {
        ImpossibleIsDry(cs, i + 1, r - Min(cs[i].spendable, r));
        if Verdict(cs, i + 1, r - Min(cs[i].spendable, r)).NeedSpace? {
          RetrySucceeds(cs, i, r);
        }
      }
    }
  }

  /** What the first blocker lacks after all channels before it gave back down to their minimums. */
  function Lacking(cs: seq<Channel>, i: nat, r: nat): nat
    requires i <= |cs|
    decreases |cs| - i
  {
    if r == 0 || i == |cs| then 0
    else if !Usable(cs[i]) then Lacking(cs, i + 1, r)
    else if r < cs[i].minHtlc then cs[i].minHtlc - r
    else
      var upper := Min(cs[i].spendable, r);
      var free, lacking := upper - cs[i].minHtlc, Lacking(cs, i + 1, r - upper);
      if lacking > free then lacking - free else 0
  }

  lemma {:induction false} ShortfallIsLacking(cs: seq<Channel>, i: nat, r: nat)
    requires i <= |cs| && Verdict(cs, i, r).NeedSpace?
    ensures Verdict(cs, i, r).shortfall == Lacking(cs, i, r)
    decreases |cs| - i
  {
    if !Usable(cs[i]) {
      ShortfallIsLacking(cs, i + 1, r);
    } else if r >= cs[i].minHtlc {
      RetrySucceeds(cs, i, r);
      ShortfallIsLacking(cs, i + 1, r - Min(cs[i].spendable, r));
    }
  }

  /** With minimums of at most 1 the search is complete in any order. */
  lemma TinyMinimumsComplete(cs: seq<Channel>, t: nat)
    requires forall k :: 0 <= k < |cs| && Usable(cs[k]) ==> cs[k].minHtlc <= 1
    ensures Found(cs, t).Some? <==> 0 < t <= Spendable(cs, 0, |cs|)
  {
    DecisionWithoutBlocker(cs, 0, t);
  }
}
