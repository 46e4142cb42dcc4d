// The weighted draw that picks the subflow for the next packet.

module Selection {
  import opened Numeric

  // rand() % 101 leaves the values 0..100.
  const DRAWS := 101

  // The first index at or after i whose cumulative share exceeds draw/100, or the front.
  function PickFrom(xs: seq<real>, draw: nat, i: nat): nat
    requires i <= |xs|
    decreases |xs| - i
  {
    if i == |xs| then 0
    else if Sum(xs[..i + 1]) > draw as real / 100.0 then i
    else PickFrom(xs, draw, i + 1)
  }

  function Pick(xs: seq<real>, draw: nat): (i: nat)
    requires xs != []
  {
    PickFrom(xs, draw, 0)
  }

  // How many of the draws 0..n-1 choose subflow i.
  function Picks(xs: seq<real>, i: nat, n: nat): nat
    requires xs != []
  {
    if n == 0 then 0 else Picks(xs, i, n - 1) + if Pick(xs, n - 1) == i then 1 else 0
  }

  function PicksOfFirst(xs: seq<real>, m: nat, n: nat): nat
    requires xs != []
  {
    if m == 0 then 0 else PicksOfFirst(xs, m - 1, n) + Picks(xs, m - 1, n)
  }

  // The number of draws of 0..n-1 that fall below the cumulative share of the first j subflows.
  function Covered(xs: seq<real>, j: nat, n: nat): int
    requires j <= |xs|
  {
    var c := Ceiling(100.0 * Sum(xs[..j]));
    if c < n then c else n
  }

  ghost predicate NonNegative(xs: seq<real>) {
    forall k :: 0 <= k < |xs| ==> xs[k] >= 0.0
  }

  // Draw is below a cumulative share exactly when it is below its ceiling in hundredths.
  lemma BelowCeiling(draw: nat, p: real)
    ensures p > draw as real / 100.0 <==> draw < Ceiling(100.0 * p)
  {
  }

  lemma {:induction false} PickFromExactly(xs: seq<real>, draw: nat, i: nat, j: nat)
    requires NonNegative(xs) && i <= |xs| && j < |xs|
    requires Sum(xs[..i]) <= draw as real / 100.0
    ensures var r := PickFrom(xs, draw, i); var d := draw as real / 100.0;
            r == j <==> (i <= j && Sum(xs[..j]) <= d < Sum(xs[..j + 1])) || (j == 0 && Sum(xs) <= d)
    decreases |xs| - i
  {
    var d := draw as real / 100.0;
    SumPrefixMonotone(xs, i, |xs|);
    assert xs[..|xs|] == xs;
    if i < |xs| {
      SumPrefixMonotone(xs, i + 1, |xs|);
      if j < i {
        SumPrefixMonotone(xs, j + 1, i);
      } else if i < j {
        SumPrefixMonotone(xs, i + 1, j);
      }
      if Sum(xs[..i + 1]) <= d {
        PickFromExactly(xs, draw, i + 1, j);
      }
    } else {
      SumPrefixMonotone(xs, j + 1, |xs|);
    }
  }

  // A subflow is chosen by the draws between its own and the preceding cumulative share; the front
  // also gets every draw no share covers.
  lemma PickExactly(xs: seq<real>, draw: nat, j: nat)
    requires NonNegative(xs) && j < |xs|
    ensures var d := draw as real / 100.0;
            Pick(xs, draw) == j <==> Sum(xs[..j]) <= d < Sum(xs[..j + 1]) || (j == 0 && Sum(xs) <= d)
  {
    assert xs[..0] == [];
    PickFromExactly(xs, draw, 0, j);
  }

  lemma {:induction false} PicksExactly(xs: seq<real>, j: nat, n: nat)
    requires NonNegative(xs) && j < |xs|
    ensures Picks(xs, j, n) == Covered(xs, j + 1, n) - Covered(xs, j, n)
                               + if j == 0 then n - Covered(xs, |xs|, n) else 0
    decreases n
  {
    assert xs[..|xs|] == xs && xs[..0] == [];
    SumPrefixMonotone(xs, j, j + 1);
    SumPrefixMonotone(xs, j + 1, |xs|);
    if n > 0 {
      PicksExactly(xs, j, n - 1);
      PickExactly(xs, n - 1, j);
      BelowCeiling(n - 1, Sum(xs[..j]));
      BelowCeiling(n - 1, Sum(xs[..j + 1]));
      BelowCeiling(n - 1, Sum(xs));
    }
  }

  lemma {:induction false} PicksAddUp(xs: seq<real>, m: nat, n: nat)
    requires NonNegative(xs) && 0 < m <= |xs|
    ensures PicksOfFirst(xs, m, n) == Covered(xs, m, n) + n - Covered(xs, |xs|, n)
  {
    PicksExactly(xs, m - 1, n);
    if m > 1 {
      PicksAddUp(xs, m - 1, n);
    } else {
      assert xs[..0] == [];
    }
  }

  lemma CoveredWithinOne(xs: seq<real>, j: nat)
    requires NonNegative(xs) && j <= |xs| && Sum(xs) <= 1.0
    ensures var p := 100.0 * Sum(xs[..j]); var c := Covered(xs, j, DRAWS);
            c == Ceiling(p) <= 100 && p <= c as real < p + 1.0
  {
    assert xs[..|xs|] == xs;
    SumPrefixMonotone(xs, j, |xs|);
  }

  lemma FirstPrefixes(xs: seq<real>)
    requires xs != []
    ensures Sum(xs[..0]) == 0.0 && Sum(xs[..1]) == xs[0] && Covered(xs, 0, DRAWS) == 0
  {
    SumStep(xs, 0);
  }

  // Over all draws a distribution is followed to within one draw, front excepted: the front takes
  // its own slots and all uncovered draws, so never none.
  lemma DrawsFollowShares(xs: seq<real>, j: nat)
    requires NonNegative(xs) && j < |xs| && Sum(xs) <= 1.0
    ensures j > 0 ==> -1.0 < Picks(xs, j, DRAWS) as real - 100.0 * xs[j] < 1.0
    ensures j > 0 && xs[j] == 0.0 ==> Picks(xs, j, DRAWS) == 0
    ensures j == 0 ==> Picks(xs, 0, DRAWS) == Ceiling(100.0 * xs[0]) + DRAWS - Ceiling(100.0 * Sum(xs)) > 0
    ensures PicksOfFirst(xs, |xs|, DRAWS) == DRAWS
  {
    hide Sum, Picks, PicksOfFirst, Covered, Ceiling;
    assert xs[..|xs|] == xs;
    PicksExactly(xs, j, DRAWS);
    PicksAddUp(xs, |xs|, DRAWS);
    CoveredWithinOne(xs, j);
    CoveredWithinOne(xs, j + 1);
    CoveredWithinOne(xs, |xs|);
    SumStep(xs, j);
    FirstPrefixes(xs);
  }

  // Before the first recalculation every share is one half: the third subflow gets a single draw
  // of the 101 and the ones after it none.
  lemma HalfSharesReachThree(xs: seq<real>, draw: nat)
    requires xs != [] && draw < DRAWS && forall k :: 0 <= k < |xs| ==> xs[k] == 0.5
    ensures Pick(xs, draw) < |xs| && Pick(xs, draw) < 3
    ensures Pick(xs, draw) == 2 <==> draw == 100 && |xs| >= 3
    ensures Pick(xs, draw) == 1 <==> 50 <= draw < 100 && |xs| >= 2
  {
    assert Sum(xs[..0]) == 0.0 && xs[..|xs|] == xs;
    SumStep(xs, 0);
    if |xs| > 1 {
      SumStep(xs, 1);
    }
    if |xs| > 2 {
      SumStep(xs, 2);
    }
    PickExactly(xs, draw, if draw < 50 then 0 else if draw < 100 then (if |xs| > 1 then 1 else 0)
                          else if |xs| > 2 then 2 else 0);
  }

  // A prefix whose shares add up to more than the draw contains the subflow drawn.
  lemma {:induction false} CoveredPrefix(xs: seq<real>, draw: nat, i: nat, k: nat)
    requires i < k <= |xs| && Sum(xs[..k]) > draw as real / 100.0
    ensures PickFrom(xs, draw, i) < k
    decreases k - i
  {
    if Sum(xs[..i + 1]) <= draw as real / 100.0 {
      CoveredPrefix(xs, draw, i + 1, k);
    }
  }

  lemma {:induction false} PickInRange(xs: seq<real>, draw: nat, i: nat)
    requires xs != [] && i <= |xs|
    ensures PickFrom(xs, draw, i) < |xs|
    decreases |xs| - i
  {
    if i < |xs| {
      PickInRange(xs, draw, i + 1);
    }
  }
}
