// How recalculation turns the congestion state of all subflows into traffic shares.

module Allocation {
  import opened Numeric
  import opened Congestion

  predicate IsRest(s: SubflowState) {
    !IsCongested(s) && !IsLossy(s)
  }

  function TotalTested(v: seq<SubflowState>): real {
    if v == [] then 0.0 else TotalTested(v[..|v| - 1]) + v[|v| - 1].tested
  }

  function TotalCongested(v: seq<SubflowState>): real {
    if v == [] then 0.0 else TotalCongested(v[..|v| - 1]) + v[|v| - 1].congested
  }

  // TB summed over the subflows that are neither congested nor lossy.
  function RestTested(v: seq<SubflowState>): real {
    if v == [] then 0.0
    else RestTested(v[..|v| - 1]) + if IsRest(v[|v| - 1]) then v[|v| - 1].tested else 0.0
  }

  function CongestedCount(v: seq<SubflowState>): (n: nat)
    ensures n <= |v|
  {
    if v == [] then 0
    else CongestedCount(v[..|v| - 1]) + if IsCongested(v[|v| - 1]) then 1 else 0
  }

  predicate AllReady(v: seq<SubflowState>) {
    forall i :: 0 <= i < |v| ==> v[i].ready
  }

  function Weight(s: SubflowState): real {
    if IsCongested(s) then BETA else GAMMA
  }

  // The share of a congested or lossy subflow. A stream bitrate of zero turns the cap into infinity
  // or NaN; std::min then keeps its first argument.
  function LimitedShare(s: SubflowState, total: real, sb: real): real
    requires total != 0.0
  {
    var fair := s.tested / total;
    if sb == 0.0 then fair
    else if Weight(s) * s.congested / sb < fair then Weight(s) * s.congested / sb else fair
  }

  // The sum AP of the shares given to congested and lossy subflows.
  function AssignedShare(v: seq<SubflowState>, total: real, sb: real): real
    requires total != 0.0
  {
    if v == [] then 0.0
    else
      AssignedShare(v[..|v| - 1], total, sb)
      + if IsRest(v[|v| - 1]) then 0.0 else LimitedShare(v[|v| - 1], total, sb)
  }

  // The divisors recalculation uses are not zero; an infinite cap needs a non-negative CB.
  predicate Divisible(v: seq<SubflowState>, sb: real) {
    AllReady(v) ==>
      && (CongestedCount(v) < |v| ==> TotalTested(v) != 0.0)
      && (CongestedCount(v) == |v| > 0 ==> TotalCongested(v) != 0.0)
      && (sb == 0.0 ==> forall i :: 0 <= i < |v| ==> v[i].congested >= 0.0)
  }

  // A rest member's part of what is left.
  function RestPart(tested: real, sum: real, left: real): real
    requires sum != 0.0
  {
    (tested / sum) * left
  }

  // The stepwise branch on its own.
  function StepwiseShare(v: seq<SubflowState>, sb: real, i: nat): real
    requires i < |v| && TotalTested(v) != 0.0
  {
    var total := TotalTested(v);
    if !IsRest(v[i]) then LimitedShare(v[i], total, sb)
    else if RestTested(v) == 0.0 then v[i].share
    else RestPart(v[i].tested, RestTested(v), 1.0 - AssignedShare(v, total, sb))
  }

  // The share subflow i holds after recalculation.
  function NewShare(v: seq<SubflowState>, sb: real, i: nat): real
    requires i < |v| && Divisible(v, sb)
  {
    if !AllReady(v) then v[i].share
    else if CongestedCount(v) == |v| then v[i].congested / TotalCongested(v)
    else if CongestedCount(v) == 0 && IsRest(v[i]) && RestTested(v) == 0.0 then v[i].tested / TotalTested(v)
    else StepwiseShare(v, sb, i)
  }

  function NewShares(v: seq<SubflowState>, sb: real): (xs: seq<real>)
    requires Divisible(v, sb)
    ensures |xs| == |v|
  {
    seq(|v|, i requires 0 <= i < |v| => NewShare(v, sb, i))
  }

  ghost predicate AllInv(v: seq<SubflowState>) {
    forall i :: 0 <= i < |v| ==> Inv(v[i])
  }

  function WithShares(v: seq<SubflowState>, xs: seq<real>): (w: seq<SubflowState>)
    requires |xs| == |v|
    ensures |w| == |v| && forall i :: 0 <= i < |v| ==> w[i] == v[i].(share := xs[i])
  {
    seq(|v|, i requires 0 <= i < |v| => v[i].(share := xs[i]))
  }

  // ----- sums -----

  // None of the sums depends on the shares held before.
  lemma {:induction false} SharesKeepSums(v: seq<SubflowState>, xs: seq<real>, total: real, sb: real)
    requires |xs| == |v| && total != 0.0
    ensures var w := WithShares(v, xs);
            && TotalTested(w) == TotalTested(v)
            && TotalCongested(w) == TotalCongested(v)
            && RestTested(w) == RestTested(v)
            && CongestedCount(w) == CongestedCount(v)
            && AssignedShare(w, total, sb) == AssignedShare(v, total, sb)
  {
    if v != [] {
      var last := |v| - 1;
      SharesKeepSums(v[..last], xs[..last], total, sb);
      assert WithShares(v, xs)[..last] == WithShares(v[..last], xs[..last]);
    }
  }

  lemma PrefixStep(v: seq<SubflowState>, n: nat)
    requires n < |v|
    ensures v[..n + 1][..n] == v[..n] && v[..n + 1][n] == v[n]
  {
  }

  lemma AddFractions(a: real, b: real, t: real)
    requires t != 0.0
    ensures a / t + b / t == (a + b) / t
  {
  }

  lemma {:induction false} SumsNonNegative(v: seq<SubflowState>)
    requires AllInv(v)
    ensures 0.0 <= RestTested(v) <= TotalTested(v)
    ensures forall i :: 0 <= i < |v| ==> v[i].tested <= TotalTested(v)
    ensures RestTested(v) == 0.0 ==> forall i :: 0 <= i < |v| && IsRest(v[i]) ==> v[i].tested == 0.0
  {
    if v != [] {
      SumsNonNegative(v[..|v| - 1]);
      assert forall i :: 0 <= i < |v| - 1 ==> v[..|v| - 1][i] == v[i];
    }
  }

  lemma {:induction false} CountAll(v: seq<SubflowState>)
    ensures CongestedCount(v) == |v| <==> forall i :: 0 <= i < |v| ==> IsCongested(v[i])
    ensures CongestedCount(v) == 0 <==> forall i :: 0 <= i < |v| ==> !IsCongested(v[i])
  {
    if v != [] {
      CountAll(v[..|v| - 1]);
      assert forall i :: 0 <= i < |v| - 1 ==> v[..|v| - 1][i] == v[i];
    }
  }

  lemma {:induction false} CongestedSumsAgree(v: seq<SubflowState>)
    requires AllInv(v) && forall i :: 0 <= i < |v| ==> IsCongested(v[i])
    ensures TotalCongested(v) == TotalTested(v)
  {
    if v != [] {
      CongestedSumsAgree(v[..|v| - 1]);
    }
  }

  // In reachable states recalculation divides by zero exactly when every subflow is ready, there is
  // at least one, and all tested bitrates are zero. The all-congested divisor needs no assumption
  // of its own.
  lemma DivisibleExactly(v: seq<SubflowState>, sb: real)
    requires AllInv(v)
    ensures Divisible(v, sb) <==> (AllReady(v) && v != [] ==> TotalTested(v) > 0.0)
  {
    SumsNonNegative(v);
    CountAll(v);
    if CongestedCount(v) == |v| {
      CongestedSumsAgree(v);
    }
  }

  // ----- the shares handed to congested and lossy subflows -----

  lemma LimitedShareBounds(s: SubflowState, total: real, sb: real)
    requires Inv(s) && total > 0.0 && sb >= 0.0
    ensures 0.0 <= LimitedShare(s, total, sb) <= s.tested / total
    ensures s.indicator > 0 && s.tested > 0.0 ==> LimitedShare(s, total, sb) > 0.0
  {
  }

  lemma {:induction false} AssignedBounds(v: seq<SubflowState>, total: real, sb: real)
    requires AllInv(v) && total > 0.0 && sb >= 0.0
    ensures 0.0 <= AssignedShare(v, total, sb) <= (TotalTested(v) - RestTested(v)) / total
    ensures forall i :: 0 <= i < |v| && !IsRest(v[i]) ==>
              LimitedShare(v[i], total, sb) <= AssignedShare(v, total, sb)
  {
    if v != [] {
      var u, s := v[..|v| - 1], v[|v| - 1];
      AssignedBounds(u, total, sb);
      LimitedShareBounds(s, total, sb);
      AddFractions(TotalTested(u) - RestTested(u), s.tested, total);
      assert forall i :: 0 <= i < |u| ==> u[i] == v[i];
    }
  }

  // A share vector that gives rest members TB*k and the others their limited share adds up thus.
  lemma {:induction false} SumStepwise(v: seq<SubflowState>, xs: seq<real>, n: nat, k: real, total: real, sb: real)
    requires n <= |v| == |xs| && total != 0.0
    requires forall i :: 0 <= i < n ==>
               xs[i] == if IsRest(v[i]) then Times(v[i].tested, k) else LimitedShare(v[i], total, sb)
    ensures Sum(xs[..n]) == Times(RestTested(v[..n]), k) + AssignedShare(v[..n], total, sb)
  {
    hide LimitedShare, Times;
    if n > 0 {
      SumStepwise(v, xs, n - 1, k, total, sb);
      SumStep(xs, n - 1);
      PrefixStep(v, n - 1);
      var r := RestTested(v[..n - 1]);
      if IsRest(v[n - 1]) {
        TimesAdd(r, v[n - 1].tested, k);
      }
    } else {
      TimesAdd(0.0, 0.0, k);
    }
  }

  lemma {:induction false} SumProportional(v: seq<SubflowState>, xs: seq<real>, n: nat, total: real)
    requires n <= |v| == |xs| && total != 0.0
    requires forall i :: 0 <= i < n ==> xs[i] == v[i].tested / total
    ensures Sum(xs[..n]) == TotalTested(v[..n]) / total
  {
    if n > 0 {
      SumProportional(v, xs, n - 1, total);
      SumStep(xs, n - 1);
      PrefixStep(v, n - 1);
      AddFractions(TotalTested(v[..n - 1]), v[n - 1].tested, total);
    } else {
      assert xs[..n] == [] && v[..n] == [];
    }
  }

  // ----- the main results -----

  // The case in which rest members keep whatever share they held before.
  predicate Stale(v: seq<SubflowState>) {
    && 0 < CongestedCount(v) < |v|
    && RestTested(v) == 0.0
    && exists i :: 0 <= i < |v| && IsRest(v[i])
  }

  ghost predicate Shareable(v: seq<SubflowState>, sb: real) {
    AllInv(v) && AllReady(v) && TotalTested(v) > 0.0 && sb >= 0.0
  }

  lemma ShareableDivisible(v: seq<SubflowState>, sb: real)
    requires Shareable(v, sb)
    ensures Divisible(v, sb)
  {
    DivisibleExactly(v, sb);
  }

  // The factor each rest member's TB is multiplied with, unless shares go stale.
  function RestFactor(v: seq<SubflowState>, sb: real): real
    requires TotalTested(v) != 0.0
  {
    if RestTested(v) == 0.0 then 0.0
    else (1.0 - AssignedShare(v, TotalTested(v), sb)) / RestTested(v)
  }

  lemma RegroupShare(t: real, r: real, left: real)
    requires r > 0.0
    ensures (t / r) * left == t * (left / r)
  {
  }

  lemma DivideMonotone(a: real, b: real, r: real)
    requires r > 0.0 && a <= b
    ensures a / r <= b / r
  {
  }

  lemma CancelShare(r: real, total: real)
    requires r > 0.0 && total > 0.0
    ensures (r / total) / r == 1.0 / total > 0.0
  {
  }

  lemma SelfQuotient(t: real)
    requires t != 0.0
    ensures t / t == 1.0
  {
  }

  lemma CrossProduct(a: real, b: real, k: real)
    ensures Times(Times(a, k), b) == Times(Times(b, k), a)
  {
  }

  lemma MultiplyMonotone(t: real, a: real, b: real)
    requires t >= 0.0 && a <= b
    ensures t * a <= t * b
  {
  }

  lemma RestArithmetic(t: real, r: real, total: real, given: real, factor: real)
    requires t >= 0.0 && 0.0 < r <= total && given <= (total - r) / total
    requires factor == (1.0 - given) / r
    ensures (t / r) * (1.0 - given) == Times(t, factor)
    ensures Times(t, factor) >= t / total >= 0.0
  {
    AddFractions(total - r, r, total);
    RegroupShare(t, r, 1.0 - given);
    DivideMonotone(r / total, 1.0 - given, r);
    CancelShare(r, total);
    MultiplyMonotone(t, 1.0 / total, factor);
  }

  lemma RestValues(v: seq<SubflowState>, sb: real, i: nat)
    requires i < |v| && IsRest(v[i]) && TotalTested(v) != 0.0 && RestTested(v) > 0.0
    ensures RestFactor(v, sb) == (1.0 - AssignedShare(v, TotalTested(v), sb)) / RestTested(v)
    ensures StepwiseShare(v, sb, i) ==
            (v[i].tested / RestTested(v)) * (1.0 - AssignedShare(v, TotalTested(v), sb))
  {
    hide LimitedShare, AssignedShare;
  }

  // What the stepwise branch gives a rest member when the rest has a positive TB sum.
  lemma RestShare(v: seq<SubflowState>, sb: real, i: nat)
    requires Shareable(v, sb) && i < |v| && IsRest(v[i]) && RestTested(v) > 0.0
    ensures StepwiseShare(v, sb, i) == Times(v[i].tested, RestFactor(v, sb))
    ensures StepwiseShare(v, sb, i) >= v[i].tested / TotalTested(v) >= 0.0
  {
    hide LimitedShare, AssignedShare, TotalTested, RestTested, StepwiseShare, RestFactor;
    var total := TotalTested(v);
    AssignedBounds(v, total, sb);
    SumsNonNegative(v);
    RestValues(v, sb, i);
    RestArithmetic(v[i].tested, RestTested(v), total, AssignedShare(v, total, sb), RestFactor(v, sb));
  }

  lemma AllCongestedShare(v: seq<SubflowState>, sb: real, i: nat)
    requires Shareable(v, sb) && i < |v| && CongestedCount(v) == |v|
    ensures Divisible(v, sb)
    ensures NewShare(v, sb, i) == v[i].tested / TotalTested(v) >= 0.0
  {
    hide TotalTested, TotalCongested, CongestedCount;
    ShareableDivisible(v, sb);
    CountAll(v);
    CongestedSumsAgree(v);
    assert v[i].congested == v[i].tested;
  }

  lemma StepwiseCases(v: seq<SubflowState>, sb: real, i: nat)
    requires Divisible(v, sb) && AllReady(v) && i < |v| && CongestedCount(v) < |v| && !Stale(v)
    ensures NewShare(v, sb, i) ==
            if !IsRest(v[i]) then LimitedShare(v[i], TotalTested(v), sb)
            else if RestTested(v) == 0.0 then v[i].tested / TotalTested(v)
            else StepwiseShare(v, sb, i)
  {
    hide LimitedShare, AssignedShare, TotalTested, RestTested;
  }

  // Outside the stale case every share has one of two forms.
  lemma StepwiseForm(v: seq<SubflowState>, sb: real, i: nat)
    requires Shareable(v, sb) && i < |v| && CongestedCount(v) < |v| && !Stale(v)
    ensures Divisible(v, sb)
    ensures NewShare(v, sb, i) == if IsRest(v[i]) then Times(v[i].tested, RestFactor(v, sb))
                                  else LimitedShare(v[i], TotalTested(v), sb)
    ensures NewShare(v, sb, i) >= 0.0
  {
    hide LimitedShare, AssignedShare, TotalTested, RestTested, StepwiseShare, NewShare, RestFactor, Times;
    ShareableDivisible(v, sb);
    SumsNonNegative(v);
    StepwiseCases(v, sb, i);
    if !IsRest(v[i]) {
      LimitedShareBounds(v[i], TotalTested(v), sb);
    } else if RestTested(v) > 0.0 {
      RestShare(v, sb, i);
    } else {
      assert v[i].tested == 0.0;
      TimesAdd(0.0, 0.0, RestFactor(v, sb));
    }
  }

  lemma RestFactorValue(v: seq<SubflowState>, sb: real)
    requires TotalTested(v) != 0.0
    ensures RestFactor(v, sb) == if RestTested(v) == 0.0 then 0.0
                                 else (1.0 - AssignedShare(v, TotalTested(v), sb)) / RestTested(v)
  {
  }

  lemma TotalArithmetic(r: real, total: real, given: real, factor: real)
    requires 0.0 <= r <= total && total > 0.0 && 0.0 <= given <= (total - r) / total
    requires factor == if r == 0.0 then 0.0 else (1.0 - given) / r
    ensures Times(r, factor) + given <= 1.0
    ensures r > 0.0 ==> Times(r, factor) + given == 1.0
  {
    DivideMonotone(total - r, total, total);
  }

  lemma AllCongestedTotal(v: seq<SubflowState>, sb: real)
    requires Shareable(v, sb) && CongestedCount(v) == |v|
    ensures Divisible(v, sb)
    ensures forall i :: 0 <= i < |v| ==> NewShares(v, sb)[i] >= 0.0
    ensures Sum(NewShares(v, sb)) == 1.0
  {
    hide NewShare, TotalTested, CongestedCount;
    ShareableDivisible(v, sb);
    var xs, total := NewShares(v, sb), TotalTested(v);
    assert xs[..|v|] == xs && v[..|v|] == v;
    forall i | 0 <= i < |v| ensures xs[i] == v[i].tested / total && xs[i] >= 0.0 {
      AllCongestedShare(v, sb, i);
    }
    SumProportional(v, xs, |v|, total);
    SelfQuotient(total);
  }

  lemma StepwiseTotal(v: seq<SubflowState>, sb: real)
    requires Shareable(v, sb) && !Stale(v) && CongestedCount(v) < |v|
    ensures Divisible(v, sb)
    ensures forall i :: 0 <= i < |v| ==> NewShares(v, sb)[i] >= 0.0
    ensures Sum(NewShares(v, sb)) <= 1.0
    ensures RestTested(v) > 0.0 ==> Sum(NewShares(v, sb)) == 1.0
  {
    hide LimitedShare, AssignedShare, TotalTested, RestTested, NewShare, RestFactor, Times, CongestedCount, Stale;
    ShareableDivisible(v, sb);
    SumsNonNegative(v);
    var xs, total, factor := NewShares(v, sb), TotalTested(v), RestFactor(v, sb);
    assert xs[..|v|] == xs && v[..|v|] == v;
    forall i | 0 <= i < |v|
      ensures xs[i] >= 0.0
      ensures xs[i] == if IsRest(v[i]) then Times(v[i].tested, factor) else LimitedShare(v[i], total, sb)
    {
      StepwiseForm(v, sb, i);
    }
    SumStepwise(v, xs, |v|, factor, total, sb);
    AssignedBounds(v, total, sb);
    RestFactorValue(v, sb);
    TotalArithmetic(RestTested(v), total, AssignedShare(v, total, sb), factor);
  }

  // Recalculation leaves non-negative shares that add up to at most one, and to exactly one when
  // every subflow is congested or the subflows without trouble have a positive TB between them.
  lemma SharesAreDistribution(v: seq<SubflowState>, sb: real)
    requires Shareable(v, sb) && !Stale(v)
    ensures Divisible(v, sb)
    ensures forall i :: 0 <= i < |v| ==> NewShares(v, sb)[i] >= 0.0
    ensures Sum(NewShares(v, sb)) <= 1.0
    ensures CongestedCount(v) == |v| || RestTested(v) > 0.0 ==> Sum(NewShares(v, sb)) == 1.0
  {
    if CongestedCount(v) == |v| {
      AllCongestedTotal(v, sb);
    } else {
      StepwiseTotal(v, sb);
    }
  }

  // With a positive TB everywhere no share is ever stale.
  lemma PositiveRatesSettle(v: seq<SubflowState>, sb: real)
    requires AllInv(v) && AllReady(v) && v != [] && sb >= 0.0
    requires forall i :: 0 <= i < |v| ==> v[i].tested > 0.0
    ensures Shareable(v, sb) && !Stale(v)
    ensures (exists i :: 0 <= i < |v| && IsRest(v[i])) ==> RestTested(v) > 0.0
  {
    SumsNonNegative(v);
    assert v[0].tested > 0.0;
  }

  // The shares the rest members hold, between them.
  function KeptShare(v: seq<SubflowState>): real {
    if v == [] then 0.0
    else KeptShare(v[..|v| - 1]) + if IsRest(v[|v| - 1]) then v[|v| - 1].share else 0.0
  }

  lemma {:induction false} SumKept(v: seq<SubflowState>, xs: seq<real>, n: nat, total: real, sb: real)
    requires n <= |v| == |xs| && total != 0.0
    requires forall i :: 0 <= i < n ==> xs[i] == if IsRest(v[i]) then v[i].share else LimitedShare(v[i], total, sb)
    ensures Sum(xs[..n]) == KeptShare(v[..n]) + AssignedShare(v[..n], total, sb)
  {
    hide LimitedShare;
    if n > 0 {
      SumKept(v, xs, n - 1, total, sb);
      SumStep(xs, n - 1);
      PrefixStep(v, n - 1);
    }
  }

  lemma {:induction false} SomeTrouble(v: seq<SubflowState>) returns (j: nat)
    requires AllInv(v) && RestTested(v) < TotalTested(v)
    ensures j < |v| && !IsRest(v[j]) && v[j].tested > 0.0
  {
    var last := |v| - 1;
    if !IsRest(v[last]) && v[last].tested > 0.0 {
      j := last;
    } else {
      j := SomeTrouble(v[..last]);
    }
  }

  // In the stale case the total is what the rest members keep and what the others are assigned.
  lemma StaleTotal(v: seq<SubflowState>, sb: real)
    requires Shareable(v, sb) && Stale(v)
    ensures Divisible(v, sb)
    ensures Sum(NewShares(v, sb)) == KeptShare(v) + AssignedShare(v, TotalTested(v), sb)
    ensures 0.0 < AssignedShare(v, TotalTested(v), sb) <= 1.0
  {
    ShareableDivisible(v, sb);
    SumsNonNegative(v);
    var xs, total := NewShares(v, sb), TotalTested(v);
    assert xs[..|v|] == xs && v[..|v|] == v;
    AssignedBounds(v, total, sb);
    var j := SomeTrouble(v);
    LimitedShareBounds(v[j], total, sb);
    hide LimitedShare, AssignedShare, TotalTested, RestTested, CongestedCount;
    SumKept(v, xs, |v|, total, sb);
    SelfQuotient(total);
  }

  // After recalculation the total is at most one exactly when the state is not stale or what its
  // rest members keep leaves room for what the others are assigned.
  lemma TotalBoundedExactly(v: seq<SubflowState>, sb: real)
    requires Shareable(v, sb)
    ensures Divisible(v, sb)
    ensures Sum(NewShares(v, sb)) <= 1.0 <==>
            (Stale(v) ==> KeptShare(v) <= 1.0 - AssignedShare(v, TotalTested(v), sb))
  {
    if Stale(v) {
      StaleTotal(v, sb);
    } else {
      SharesAreDistribution(v, sb);
    }
    hide NewShares, AssignedShare, KeptShare, Stale, TotalTested;
  }

  // ----- the limits on subflows in trouble -----

  lemma CapArithmetic(fair: real, weighted: real, sb: real, share: real)
    requires sb > 0.0
    requires share == if weighted / sb < fair then weighted / sb else fair
    ensures share <= fair && Times(share, sb) <= weighted
    ensures share == fair || Times(share, sb) == weighted
  {
    QuotientTimes(weighted, sb);
    if weighted / sb >= fair {
      TimesOrder(fair, weighted / sb, sb);
    }
  }

  // While some subflow is not congested, a congested one (CI of three) is held to half its CB and a
  // lossy one to three quarters of it, both relative to the stream bitrate, and both to their part of
  // the TB sum; they get the larger share these limits allow. Without a stream bitrate the part of
  // the TB sum is the only limit.
  lemma TroubleIsLimited(v: seq<SubflowState>, sb: real, i: nat)
    requires Shareable(v, sb) && i < |v| && CongestedCount(v) < |v| && v[i].indicator > 0
    ensures Divisible(v, sb)
    ensures var share, fair := NewShare(v, sb, i), v[i].tested / TotalTested(v);
            var limit := (if v[i].indicator == 3 then 0.5 else 0.75) * v[i].congested;
            && share <= fair && (sb > 0.0 ==> Times(share, sb) <= limit)
            && (share == fair || (sb > 0.0 && Times(share, sb) == limit))
  {
    ShareableDivisible(v, sb);
    var x, total := v[i], TotalTested(v);
    assert NewShare(v, sb, i) == LimitedShare(x, total, sb) by {
      hide TotalTested, RestTested, AssignedShare, CongestedCount, LimitedShare;
    }
    hide TotalTested, RestTested, AssignedShare, CongestedCount, NewShare;
    if sb > 0.0 {
      CapArithmetic(x.tested / total, Weight(x) * x.congested, sb, LimitedShare(x, total, sb));
    }
  }

  // ----- comparisons between the branches -----

  lemma {:induction false} AllRestSums(v: seq<SubflowState>, total: real, sb: real)
    requires total != 0.0 && forall j :: 0 <= j < |v| ==> IsRest(v[j])
    ensures RestTested(v) == TotalTested(v) && AssignedShare(v, total, sb) == 0.0
  {
    if v != [] {
      AllRestSums(v[..|v| - 1], total, sb);
    }
  }

  lemma NoTroubleShare(v: seq<SubflowState>, sb: real, i: nat)
    requires Shareable(v, sb) && i < |v| && forall j :: 0 <= j < |v| ==> IsRest(v[j])
    ensures Divisible(v, sb)
    ensures NewShare(v, sb, i) == StepwiseShare(v, sb, i) == v[i].tested / TotalTested(v)
  {
    ShareableDivisible(v, sb);
    CountAll(v);
    AllRestSums(v, TotalTested(v), sb);
  }

  // Total congestion and no trouble at all give the same split, proportional to TB; falling through
  // into the stepwise branch does not disturb it.
  lemma ExtremesAgree(v: seq<SubflowState>, sb: real, i: nat)
    requires Shareable(v, sb) && i < |v|
    requires (forall j :: 0 <= j < |v| ==> IsCongested(v[j])) || (forall j :: 0 <= j < |v| ==> IsRest(v[j]))
    ensures Divisible(v, sb)
    ensures NewShare(v, sb, i) == v[i].tested / TotalTested(v)
  {
    CountAll(v);
    if forall j :: 0 <= j < |v| ==> IsRest(v[j]) {
      NoTroubleShare(v, sb, i);
    } else {
      AllCongestedShare(v, sb, i);
    }
  }

  // With no congested subflow the whole function equals its stepwise branch alone, except for rest
  // members whose TBs are all zero: those get zero instead of keeping their old share.
  lemma FallThroughExactly(v: seq<SubflowState>, sb: real, i: nat)
    requires Shareable(v, sb) && i < |v| && CongestedCount(v) == 0
    ensures Divisible(v, sb)
    ensures (NewShare(v, sb, i) == StepwiseShare(v, sb, i)) <==>
            (!IsRest(v[i]) || RestTested(v) > 0.0 || v[i].share == 0.0)
    ensures IsRest(v[i]) && RestTested(v) == 0.0 ==> NewShare(v, sb, i) == 0.0
  {
    hide TotalTested, TotalCongested, CongestedCount, RestTested, AssignedShare, LimitedShare, RestPart;
    ShareableDivisible(v, sb);
    SumsNonNegative(v);
  }

  // Who gains and who loses against the proportional split when some, not all, are congested.
  lemma StepwiseOrder(v: seq<SubflowState>, sb: real, i: nat)
    requires Shareable(v, sb) && i < |v| && CongestedCount(v) < |v| && !Stale(v)
    ensures Divisible(v, sb)
    ensures !IsRest(v[i]) ==> NewShare(v, sb, i) <= v[i].tested / TotalTested(v)
    ensures IsRest(v[i]) ==> NewShare(v, sb, i) >= v[i].tested / TotalTested(v)
  {
    StepwiseForm(v, sb, i);
    SumsNonNegative(v);
    if !IsRest(v[i]) {
      LimitedShareBounds(v[i], TotalTested(v), sb);
    } else if RestTested(v) > 0.0 {
      RestShare(v, sb, i);
    }
  }

  lemma RestStaysProportional(v: seq<SubflowState>, sb: real, i: nat, j: nat)
    requires Shareable(v, sb) && i < |v| && j < |v| && CongestedCount(v) < |v| && !Stale(v)
    requires IsRest(v[i]) && IsRest(v[j])
    ensures Divisible(v, sb)
    ensures Times(NewShare(v, sb, i), v[j].tested) == Times(NewShare(v, sb, j), v[i].tested)
  {
    hide LimitedShare, AssignedShare, TotalTested, RestTested, NewShare, RestFactor, Times;
    StepwiseForm(v, sb, i);
    StepwiseForm(v, sb, j);
    CrossProduct(v[i].tested, v[j].tested, RestFactor(v, sb));
  }

  lemma CongestedBelowLossy(x: SubflowState, y: SubflowState, total: real, sb: real)
    requires Inv(x) && Inv(y) && IsCongested(x) && IsLossy(y) && x.tested == y.tested && total > 0.0 && sb >= 0.0
    ensures LimitedShare(x, total, sb) <= LimitedShare(y, total, sb)
  {
    if sb > 0.0 {
      assert BETA * x.congested <= GAMMA * y.congested;
      DivideMonotone(BETA * x.congested, GAMMA * y.congested, sb);
    }
  }

  // At equal TB congestion never pays: a congested subflow gets no more than a lossy one, and a
  // lossy one no more than an untroubled one.
  lemma TroubleNeverPays(v: seq<SubflowState>, sb: real, i: nat, j: nat)
    requires Shareable(v, sb) && i < |v| && j < |v| && CongestedCount(v) < |v| && !Stale(v)
    requires v[i].tested == v[j].tested
    requires (IsCongested(v[i]) && IsLossy(v[j])) || (IsLossy(v[i]) && IsRest(v[j]))
    ensures Divisible(v, sb)
    ensures NewShare(v, sb, i) <= NewShare(v, sb, j)
  {
    hide LimitedShare, AssignedShare, TotalTested, RestTested, NewShare, RestFactor, Times, Stale, CongestedCount;
    StepwiseForm(v, sb, i);
    StepwiseForm(v, sb, j);
    if IsCongested(v[i]) {
      CongestedBelowLossy(v[i], v[j], TotalTested(v), sb);
    } else {
      StepwiseOrder(v, sb, i);
      StepwiseOrder(v, sb, j);
    }
  }
}
