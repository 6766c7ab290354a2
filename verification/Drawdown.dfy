/** Profit, loss and drawdown of a setup's closed trades (bot/dashboard/analytics.py), one pass each. */
module Drawdown {
  import opened Prelude

  /** Cumulative result, in R, after the first k trades. */
  function Curve(rs: seq<real>, k: nat): real
    requires k <= |rs|
  {
    if k == 0 then 0.0 else Curve(rs, k - 1) + rs[k - 1]
  }

  /** Losses of the first k trades, counted positive. */
  function Losses(rs: seq<real>, k: nat): real
    requires k <= |rs|
  {
    if k == 0 then 0.0 else Losses(rs, k - 1) + Abs(Min(rs[k - 1], 0.0))
  }

  function Profits(rs: seq<real>, k: nat): real
    requires k <= |rs|
  {
    if k == 0 then 0.0 else Profits(rs, k - 1) + Max(rs[k - 1], 0.0)
  }

  /** Results of the first k trades, all counted positive. */
  function Turnover(rs: seq<real>, k: nat): real
    requires k <= |rs|
  {
    if k == 0 then 0.0 else Turnover(rs, k - 1) + Abs(rs[k - 1])
  }

  /** `d` is the change of the curve between some two points in time order, the start included. */
  ghost predicate IsFall(rs: seq<real>, d: real) {
    exists i, j :: 0 <= i <= j <= |rs| && d == Curve(rs, j) - Curve(rs, i)
  }

  method GrossProfitAndLoss(rs: seq<real>)
    returns (grossProfit: real, grossLoss: real, profitFactor: Option<real>)
    ensures grossProfit == Profits(rs, |rs|) && grossLoss == Losses(rs, |rs|)
    ensures Curve(rs, |rs|) == grossProfit - grossLoss
    ensures Turnover(rs, |rs|) == grossProfit + grossLoss
    ensures profitFactor == None <==> grossLoss == 0.0
    ensures profitFactor.Some? ==> profitFactor.value * grossLoss == grossProfit
    ensures profitFactor.Some? ==> (profitFactor.value > 1.0 <==> Curve(rs, |rs|) > 0.0)
  {
    grossProfit, grossLoss := 0.0, 0.0;
    for k := 0 to |rs|
      invariant grossProfit == Profits(rs, k)
    {
      grossProfit := grossProfit + Max(rs[k], 0.0);
    }
    for k := 0 to |rs|
      invariant 0.0 <= grossLoss == Losses(rs, k)
    {
      grossLoss := grossLoss + Abs(Min(rs[k], 0.0));
    }
    profitFactor := if grossLoss > 0.0 then Some(grossProfit / grossLoss) else None;
    ProfitsLessLosses(rs, |rs|);
    if grossLoss > 0.0 {
      RatioAboveOne(grossProfit, grossLoss);
    }
  }

  /** Highest point of the curve so far, and deepest fall below it, after k trades. */
  function Peak(rs: seq<real>, k: nat): real
    requires k <= |rs|
  {
    if k == 0 then 0.0 else Max(Peak(rs, k - 1), Curve(rs, k))
  }

  function Deepest(rs: seq<real>, k: nat): real
    requires k <= |rs|
  {
    if k == 0 then 0.0 else Min(Deepest(rs, k - 1), Curve(rs, k) - Peak(rs, k))
  }

  /** One pass with a running peak finds the deepest fall between any two points. */
  method MaxDrawdown(rs: seq<real>) returns (maxDrawdown: real)
    ensures IsFall(rs, maxDrawdown)
    ensures forall i, j :: 0 <= i <= j <= |rs| ==> maxDrawdown <= Curve(rs, j) - Curve(rs, i)
    ensures -Losses(rs, |rs|) <= maxDrawdown <= 0.0
  {
    var curve, peak := 0.0, 0.0;
    maxDrawdown := 0.0;
    for k := 0 to |rs|
      invariant curve == Curve(rs, k) && peak == Peak(rs, k) && maxDrawdown == Deepest(rs, k)
    {
      curve := curve + rs[k];
      peak := Max(peak, curve);
      maxDrawdown := Min(maxDrawdown, curve - peak);
    }
    DeepestIsMinimalFall(rs);
  }

  lemma DeepestIsMinimalFall(rs: seq<real>)
    ensures IsFall(rs, Deepest(rs, |rs|))
    ensures forall i, j :: 0 <= i <= j <= |rs| ==> Deepest(rs, |rs|) <= Curve(rs, j) - Curve(rs, i)
    ensures -Losses(rs, |rs|) <= Deepest(rs, |rs|) <= 0.0
  {
    var from, to := DeepestIsAttained(rs, |rs|);
    FallIsAtMostLosses(rs, from, to);
    FallIsAtMostLosses(rs, 0, from);
    FallIsAtMostLosses(rs, to, |rs|);
    forall i, j | 0 <= i <= j <= |rs| ensures Deepest(rs, |rs|) <= Curve(rs, j) - Curve(rs, i) {
      DeepestBounds(rs, i, j, |rs|);
    }
    DeepestBounds(rs, 0, 0, |rs|);
  }

  lemma {:induction false} PeakBounds(rs: seq<real>, i: nat, k: nat)
    requires i <= k <= |rs|
    ensures Curve(rs, i) <= Peak(rs, k)
  {
    if i == k {
    } else {
      PeakBounds(rs, i, k - 1);
    }
  }

  lemma {:induction false} PeakIsAttained(rs: seq<real>, k: nat) returns (i: nat)
    requires k <= |rs|
    ensures i <= k && Peak(rs, k) == Curve(rs, i)
  {
    if k == 0 || Curve(rs, k) > Peak(rs, k - 1) {
      i := k;
    } else {
      i := PeakIsAttained(rs, k - 1);
    }
  }

  lemma {:induction false} DeepestBounds(rs: seq<real>, i: nat, j: nat, k: nat)
    requires i <= j <= k <= |rs|
    ensures Deepest(rs, k) <= Curve(rs, j) - Curve(rs, i)
  {
    if j < k {
      DeepestBounds(rs, i, j, k - 1);
    } else {
      PeakBounds(rs, i, k);
    }
  }

  lemma {:induction false} DeepestIsAttained(rs: seq<real>, k: nat) returns (i: nat, j: nat)
    requires k <= |rs|
    ensures i <= j <= k && Deepest(rs, k) == Curve(rs, j) - Curve(rs, i)
  {
    if k == 0 {
      i, j := 0, 0;
    } else if Curve(rs, k) - Peak(rs, k) < Deepest(rs, k - 1) {
      i := PeakIsAttained(rs, k);
      j := k;
    } else {
      i, j := DeepestIsAttained(rs, k - 1);
    }
  }

  lemma RatioAboveOne(a: real, b: real)
    requires b > 0.0
    ensures a / b > 1.0 <==> a > b
  {
    assert a == a / b * b;
    if a / b > 1.0 {
      assert (a / b - 1.0) * b > 0.0;
    } else {
      assert (1.0 - a / b) * b >= 0.0;
    }
  }

  lemma {:induction false} ProfitsLessLosses(rs: seq<real>, k: nat)
    requires k <= |rs|
    ensures Curve(rs, k) == Profits(rs, k) - Losses(rs, k)
    ensures Turnover(rs, k) == Profits(rs, k) + Losses(rs, k)
  {
    if k == 0 {
    } else {
      ProfitsLessLosses(rs, k - 1);
    }
  }

  /** Between two points the curve falls by no more than the losses taken between them. */
  lemma {:induction false} FallIsAtMostLosses(rs: seq<real>, i: nat, j: nat)
    requires i <= j <= |rs|
    ensures Losses(rs, i) <= Losses(rs, j)
    ensures Curve(rs, i) - Curve(rs, j) <= Losses(rs, j) - Losses(rs, i)
  {
    if i == j {
    } else {
      FallIsAtMostLosses(rs, i, j - 1);
    }
  }
}
