/** Wilder's smoothing in closed form: which weight every entry of the series has in the average. */
module WilderAverage {
  import opened Prelude
  import opened Rsi

  function Power(base: real, exponent: nat): real {
    if exponent == 0 then 1.0 else base * Power(base, exponent - 1)
  }

  /** What one more entry leaves of the average before it. */
  function Decay(period: nat): real
    requires period >= 1
  {
    1.0 - 1.0 / period as real
  }

  /** Entry i of n: the first `period` entries weigh the same, later ones decay from 1 / period with age. */
  function Weight(period: nat, n: nat, i: nat): real
    requires 1 <= period <= n && i < n
  {
    Power(Decay(period), if i < period then n - period else n - 1 - i) / period as real
  }

  /** The first k of n entries, each times its weight. */
  function Weighted(xs: seq<real>, period: nat, n: nat, k: nat): real
    requires 1 <= period <= n <= |xs| && k <= n
  {
    if k == 0 then 0.0 else Weighted(xs, period, n, k - 1) + Weight(period, n, k - 1) * xs[k - 1]
  }

  lemma ReciprocalTimes(period: nat)
    requires period >= 1
    ensures (1.0 / period as real) * period as real == 1.0
    ensures Decay(period) * period as real == period as real - 1.0
  {
    assert (1.0 - 1.0 / period as real) * period as real == period as real - (1.0 / period as real) * period as real;
  }

  /** One smoothing step keeps the share `Decay` of the average and gives the new entry the rest. */
  lemma StepAsDecay(average: real, x: real, period: nat)
    requires period >= 1
    ensures SmoothStep(average, x, period) == Decay(period) * average + x / period as real
  {
    var p, q := period as real, 1.0 / period as real;
    assert q * p == 1.0;
    assert (period - 1) as real == p - 1.0;
    Divide(average * (p - 1.0) + x, q, p);
    Divide(x, q, p);
    assert (average * (p - 1.0) + x) * q == average * (p * q) - average * q + x * q;
  }

  lemma Divide(a: real, q: real, p: real)
    requires p > 0.0 && q * p == 1.0
    ensures a / p == a * q
  {
    assert a * q * p == a * (q * p);
    QuotientOf(a * q, p);
  }

  lemma WeightDecays(period: nat, n: nat, i: nat)
    requires 1 <= period < n && i < n
    ensures i < n - 1 ==> Weight(period, n, i) == Decay(period) * Weight(period, n - 1, i)
    ensures i == n - 1 ==> Weight(period, n, i) == 1.0 / period as real
  {
    if i < n - 1 {
      var e := if i < period then n - 1 - period else n - 2 - i;
      assert Power(Decay(period), e + 1) == Decay(period) * Power(Decay(period), e);
      ScaledQuotient(Decay(period), Power(Decay(period), e), period as real);
    }
  }

  lemma ScaledQuotient(d: real, a: real, p: real)
    requires p > 0.0
    ensures d * a / p == d * (a / p)
  {
    var x := a / p;
    assert x * p == a;
    assert d * x * p == d * a;
    QuotientOf(d * x, p);
  }

  lemma {:induction false} WeightedDecays(xs: seq<real>, period: nat, n: nat, k: nat)
    requires 1 <= period < n <= |xs| && k < n
    ensures Weighted(xs, period, n, k) == Decay(period) * Weighted(xs, period, n - 1, k)
  {
    hide Weight, Power, Decay;
    if k == 0 {
    } else {
      WeightedDecays(xs, period, n, k - 1);
      WeightDecays(period, n, k - 1);
      Factor(Decay(period), Weighted(xs, period, n - 1, k - 1), Weight(period, n - 1, k - 1), xs[k - 1],
        Weighted(xs, period, n, k - 1), Weight(period, n, k - 1));
    }
  }

  lemma Factor(d: real, a: real, w: real, x: real, a': real, w': real)
    requires a' == d * a && w' == d * w
    ensures a' + w' * x == d * (a + w * x)
  {
    assert w' * x == d * (w * x);
  }

  lemma {:induction false} EqualWeights(xs: seq<real>, period: nat, k: nat)
    requires 1 <= period <= |xs| && k <= period
    ensures Weighted(xs, period, period, k) == Total(xs, k) / period as real
  {
    if k == 0 {
      QuotientIsZeroIff(0.0, period as real);
    } else {
      EqualWeights(xs, period, k - 1);
      var p, q := period as real, 1.0 / period as real;
      assert q * p == 1.0;
      Divide(Total(xs, k - 1), q, p);
      Divide(Total(xs, k), q, p);
      assert Weight(period, period, k - 1) == q;
      assert Total(xs, k) * q == Total(xs, k - 1) * q + xs[k - 1] * q;
    }
  }

  /** The smoothed value is the sum of the entries, each times its weight. */
  lemma {:induction false} SmoothedIsWeighted(xs: seq<real>, period: nat, n: nat)
    requires 1 <= period <= n <= |xs|
    ensures Smoothed(xs, period, n) == Weighted(xs, period, n, n)
  {
    hide Weight, Power, Decay, SmoothStep, Mean;
    if n == period {
      EqualWeights(xs, period, n);
      assert Smoothed(xs, period, n) == Mean(Total(xs, n), period);
      MeanIsQuotient(Total(xs, n), period);
    } else {
      SmoothedIsWeighted(xs, period, n - 1);
      StepAsDecay(Smoothed(xs, period, n - 1), xs[n - 1], period);
      WeightedDecays(xs, period, n, n - 1);
      WeightDecays(period, n, n - 1);
      LastTerm(xs[n - 1], period as real, xs[n - 1] / period as real, Weight(period, n, n - 1));
    }
  }

  lemma MeanIsQuotient(total: real, period: nat)
    requires period >= 1
    ensures Mean(total, period) == total / period as real
  {
  }

  lemma LastTerm(x: real, p: real, share: real, weight: real)
    requires p > 0.0 && share == x / p && weight == 1.0 / p
    ensures share == weight * x
  {
    assert weight * p == 1.0;
    Divide(x, weight, p);
  }

  /** A series of ones, to speak of the weights alone. */
  function Units(n: nat): seq<real> {
    seq(n, _ => 1.0)
  }

  /** The weights add up to 1: the smoothed value is an average. */
  lemma {:induction false} WeightsAddUp(period: nat, n: nat)
    requires 1 <= period <= n
    ensures Weighted(Units(n), period, n, n) == 1.0
  {
    hide SmoothStep, Mean;
    SmoothedIsWeighted(Units(n), period, n);
    OnesStayOne(period, n, n);
  }

  lemma {:induction false} OnesStayOne(period: nat, size: nat, n: nat)
    requires 1 <= period <= n <= size
    ensures Smoothed(Units(size), period, n) == 1.0
  {
    var p := period as real;
    if n == period {
      TotalOfOnes(size, period);
      QuotientOf(1.0, p);
    } else {
      OnesStayOne(period, size, n - 1);
      assert 1.0 * (period - 1) as real + 1.0 == p;
      QuotientOf(1.0, p);
    }
  }

  lemma {:induction false} TotalOfOnes(size: nat, k: nat)
    requires k <= size
    ensures Total(Units(size), k) == k as real
  {
    if k == 0 {
    } else {
      TotalOfOnes(size, k - 1);
    }
  }

  // ----- the index

  /** The rise or fall of close i + 1, each counted positive, never both. */
  lemma MovesOf(closes: seq<real>, i: nat)
    requires i + 1 < |closes|
    ensures |Gains(closes)| == |Losses(closes)| == |closes| - 1
    ensures var g, l := Gains(closes)[i], Losses(closes)[i];
      g - l == closes[i + 1] - closes[i] && g >= 0.0 && l >= 0.0 && (g == 0.0 || l == 0.0)
  {
  }

  /**
   * The index is the share of the gains in all movement, in percent, both sides
   * weighted as above; it is 100 without any loss, and nothing for a series
   * without a close beyond the first period.
   */
  lemma RsiIsWeightedShare(closes: seq<real>, period: nat)
    requires period >= 1
    ensures WilderRsi(closes, period) == None <==> |closes| < period + 2
    ensures |closes| >= period + 2 ==>
      var n := |closes| - 1;
      var g, l := Weighted(Gains(closes), period, n, n), Weighted(Losses(closes), period, n, n);
      && g >= 0.0 && l >= 0.0
      && (l == 0.0 ==> WilderRsi(closes, period) == Some(100.0))
      && (l > 0.0 ==> WilderRsi(closes, period).value * (g + l) == 100.0 * g)
  {
    hide Smoothed, Index, Weighted;
    if |closes| >= period + 2 {
      var n := |closes| - 1;
      var g, l := Gains(closes), Losses(closes);
      SmoothedIsWeighted(g, period, n);
      SmoothedIsWeighted(l, period, n);
      SmoothedIsNonNegative(g, period, n);
      SmoothedIsNonNegative(l, period, n);
      var x, y := Smoothed(g, period, n), Smoothed(l, period, n);
      IndexInRange(x, y);
      if y > 0.0 {
        IndexIsShare(x, y);
      }
    }
  }
}
