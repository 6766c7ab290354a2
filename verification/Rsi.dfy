/** Wilder's relative strength index (scripts/beat_independent_check.py), over exact reals. */
module Rsi {
  import opened Prelude

  /** `gains` and `losses` of a close series: entry i compares close i+1 with close i. */
  function Gain(closes: seq<real>, i: nat): real
    requires i + 1 < |closes|
  {
    Max(closes[i + 1] - closes[i], 0.0)
  }

  function Loss(closes: seq<real>, i: nat): real
    requires i + 1 < |closes|
  {
    Max(-(closes[i + 1] - closes[i]), 0.0)
  }

  function Total(xs: seq<real>, n: nat): real
    requires n <= |xs|
  {
    if n == 0 then 0.0 else Total(xs, n - 1) + xs[n - 1]
  }

  function Mean(total: real, period: nat): real
    requires period >= 1
  {
    total / period as real
  }

  /** One smoothing step: the new entry weighs one part in `period`. */
  function SmoothStep(average: real, x: real, period: nat): real
    requires period >= 1
  {
    Mean(average * (period - 1) as real + x, period)
  }

  /** The plain mean of the first `period` entries, then one smoothing step an entry. */
  function Smoothed(xs: seq<real>, period: nat, n: nat): real
    requires 1 <= period <= n <= |xs|
  {
    if n == period then Mean(Total(xs, period), period)
    else SmoothStep(Smoothed(xs, period, n - 1), xs[n - 1], period)
  }

  function Index(avgGain: real, avgLoss: real): real
    requires avgGain >= 0.0 && avgLoss >= 0.0
  {
    if avgLoss == 0.0 then 100.0
    else
      RatioIsNonNegative(avgGain, avgLoss);
      100.0 - 100.0 / (1.0 + avgGain / avgLoss)
  }

  function Gains(closes: seq<real>): (r: seq<real>)
    ensures forall i :: 0 <= i < |r| ==> r[i] >= 0.0
  {
    seq(if |closes| == 0 then 0 else |closes| - 1, i requires 0 <= i && i + 1 < |closes| => Gain(closes, i))
  }

  function Losses(closes: seq<real>): (r: seq<real>)
    ensures forall i :: 0 <= i < |r| ==> r[i] >= 0.0
  {
    seq(if |closes| == 0 then 0 else |closes| - 1, i requires 0 <= i && i + 1 < |closes| => Loss(closes, i))
  }

  function WilderRsi(closes: seq<real>, period: nat): Option<real>
    requires period >= 1
  {
    if |closes| < period + 2 then None
    else
      var g, l := Gains(closes), Losses(closes);
      SmoothedIsNonNegative(g, period, |g|);
      SmoothedIsNonNegative(l, period, |l|);
      Some(Index(Smoothed(g, period, |g|), Smoothed(l, period, |l|)))
  }

  method ComputeWilderRsi(closes: seq<real>, period: nat) returns (r: Option<real>)
    requires period >= 1
    ensures r == WilderRsi(closes, period)
  {
    hide SmoothStep, Mean;
    if |closes| < period + 2 {
      return None;
    }
    var gains, losses: seq<real> := [], [];
    for i := 1 to |closes|
      invariant |gains| == |losses| == i - 1
      invariant gains == Gains(closes)[..i - 1] && losses == Losses(closes)[..i - 1]
    {
      var d := closes[i] - closes[i - 1];
      gains := gains + [Max(d, 0.0)];
      losses := losses + [Max(-d, 0.0)];
    }
    assert gains == Gains(closes) && losses == Losses(closes);
    var avgGain := Mean(Total(gains, period), period);
    var avgLoss := Mean(Total(losses, period), period);
    for i := period to |gains|
      invariant avgGain == Smoothed(gains, period, i) && avgLoss == Smoothed(losses, period, i)
    {
      avgGain := SmoothStep(avgGain, gains[i], period);
      avgLoss := SmoothStep(avgLoss, losses[i], period);
    }
    SmoothedIsNonNegative(gains, period, |gains|);
    SmoothedIsNonNegative(losses, period, |losses|);
    if avgLoss == 0.0 {
      return Some(100.0);
    }
    RatioIsNonNegative(avgGain, avgLoss);
    var rs := avgGain / avgLoss;
    r := Some(100.0 - 100.0 / (1.0 + rs));
  }

  // ----- arithmetic of the index

  lemma RatioIsNonNegative(g: real, l: real)
    requires g >= 0.0 && l > 0.0
    ensures g / l >= 0.0
  {
  }

  /** The index is the share of gains in the total movement. */
  lemma IndexIsShare(g: real, l: real)
    requires g >= 0.0 && l >= 0.0 && g + l > 0.0
    ensures Index(g, l) * (g + l) == 100.0 * g
  {
    if l > 0.0 {
      var q := g / l;
      RatioIsNonNegative(g, l);
      assert q * l == g;
      var t := 100.0 / (1.0 + q);
      assert t * (1.0 + q) == 100.0;
      assert t * (g + l) == t * (1.0 + q) * l;
    }
  }

  lemma ShareDetermines(a: real, b: real, t: real)
    requires t > 0.0 && a * t == b * t
    ensures a == b
  {
    assert (a - b) * t == 0.0;
  }

  lemma IndexInRange(g: real, l: real)
    requires g >= 0.0 && l >= 0.0
    ensures 0.0 <= Index(g, l) <= 100.0
    ensures Index(g, l) == 100.0 <==> l == 0.0
  {
    if l > 0.0 {
      IndexIsShare(g, l);
      ShareBounds(Index(g, l), g, g + l);
    }
  }

  lemma ShareBounds(x: real, g: real, t: real)
    requires 0.0 <= g < t && x * t == 100.0 * g
    ensures 0.0 <= x < 100.0
  {
    assert x < 0.0 ==> x * t < 0.0;
    assert x >= 100.0 ==> (x - 100.0) * t >= 0.0;
  }

  // ----- smoothing

  lemma {:induction false} TotalIsNonNegative(xs: seq<real>, n: nat)
    requires n <= |xs| && forall i :: 0 <= i < |xs| ==> xs[i] >= 0.0
    ensures Total(xs, n) >= 0.0
    ensures Total(xs, n) == 0.0 <==> forall i :: 0 <= i < n ==> xs[i] == 0.0
  {
    if n == 0 {
    } else {
      TotalIsNonNegative(xs, n - 1);
    }
  }

  lemma {:induction false} SmoothedIsNonNegative(xs: seq<real>, period: nat, n: nat)
    requires 1 <= period <= n <= |xs| && forall i :: 0 <= i < |xs| ==> xs[i] >= 0.0
    ensures Smoothed(xs, period, n) >= 0.0
  {
    if n == period {
      TotalIsNonNegative(xs, n);
    } else {
      SmoothedIsNonNegative(xs, period, n - 1);
    }
  }

  /** Smoothing never forgets a positive entry, unless the period is 1 and only the last one counts. */
  lemma {:induction false} SmoothedIsZeroIff(xs: seq<real>, period: nat, n: nat)
    requires 1 <= period <= n <= |xs| && forall i :: 0 <= i < |xs| ==> xs[i] >= 0.0
    ensures period >= 2 ==> (Smoothed(xs, period, n) == 0.0 <==> forall i :: 0 <= i < n ==> xs[i] == 0.0)
    ensures period == 1 ==> (Smoothed(xs, period, n) == 0.0 <==> xs[n - 1] == 0.0)
  {
    if n == period {
      TotalIsNonNegative(xs, n);
      QuotientIsZeroIff(Total(xs, n), period as real);
    } else {
      SmoothedIsZeroIff(xs, period, n - 1);
      SmoothedIsNonNegative(xs, period, n - 1);
      var before, weight := Smoothed(xs, period, n - 1), (period - 1) as real;
      QuotientIsZeroIff(before * weight + xs[n - 1], period as real);
      if period >= 2 && before > 0.0 {
        assert before * weight > 0.0;
      }
    }
  }

  lemma QuotientIsZeroIff(a: real, b: real)
    requires b > 0.0
    ensures a / b == 0.0 <==> a == 0.0
  {
    assert a / b * b == a;
  }

  lemma {:induction false} TotalScales(xs: seq<real>, ys: seq<real>, a: real, n: nat)
    requires |xs| == |ys| >= n && forall i :: 0 <= i < |xs| ==> ys[i] == a * xs[i]
    ensures Total(ys, n) == a * Total(xs, n)
  {
    if n == 0 {
    } else {
      TotalScales(xs, ys, a, n - 1);
    }
  }

  lemma {:induction false} SmoothedScales(
    xs: seq<real>, ys: seq<real>, a: real, period: nat, n: nat, x: real, y: real)
    requires |xs| == |ys| && 1 <= period <= n <= |xs| && forall i :: 0 <= i < |xs| ==> ys[i] == a * xs[i]
    requires x == Smoothed(xs, period, n) && y == Smoothed(ys, period, n)
    ensures y == a * x
  {
    hide SmoothStep, Mean, Total;
    if n == period {
      TotalScales(xs, ys, a, n);
      MeanScales(Total(xs, n), Total(ys, n), a, period);
    } else {
      var x', y' := Smoothed(xs, period, n - 1), Smoothed(ys, period, n - 1);
      SmoothedScales(xs, ys, a, period, n - 1, x', y');
      StepScales(x', xs[n - 1], y', ys[n - 1], a, period);
    }
  }

  lemma StepScales(s: real, x: real, s': real, x': real, a: real, period: nat)
    requires period >= 1 && s' == a * s && x' == a * x
    ensures SmoothStep(s', x', period) == a * SmoothStep(s, x, period)
  {
    var w := (period - 1) as real;
    assert s' * w + x' == a * (s * w + x);
    MeanScales(s * w + x, s' * w + x', a, period);
  }

  lemma MeanScales(t: real, t': real, a: real, period: nat)
    requires period >= 1 && t' == a * t
    ensures Mean(t', period) == a * Mean(t, period)
  {
    var p, q := period as real, Mean(t, period);
    assert q * p == t;
    assert a * q * p == t';
    QuotientOf(a * q, p);
  }

  // ----- what the index says about a series

  ghost predicate NeverFalls(closes: seq<real>) {
    forall i :: 0 <= i && i + 1 < |closes| ==> closes[i] <= closes[i + 1]
  }

  ghost predicate Flat(closes: seq<real>) {
    forall i :: 0 <= i && i + 1 < |closes| ==> closes[i] == closes[i + 1]
  }

  lemma RsiRange(closes: seq<real>, period: nat)
    requires period >= 1 && |closes| >= period + 2
    ensures 0.0 <= WilderRsi(closes, period).value <= 100.0
    ensures period >= 2 ==> (WilderRsi(closes, period) == Some(100.0) <==> NeverFalls(closes))
    ensures period == 1 ==> (WilderRsi(closes, period) == Some(100.0) <==> closes[|closes| - 2] <= closes[|closes| - 1])
  {
    var g, l := Gains(closes), Losses(closes);
    SmoothedIsNonNegative(g, period, |g|);
    SmoothedIsNonNegative(l, period, |l|);
    IndexInRange(Smoothed(g, period, |g|), Smoothed(l, period, |l|));
    SmoothedIsZeroIff(l, period, |l|);
    forall i | 0 <= i < |l| ensures l[i] == 0.0 <==> closes[i] <= closes[i + 1] {
    }
    if forall i :: 0 <= i < |l| ==> l[i] == 0.0 {
      forall i | 0 <= i && i + 1 < |closes| ensures closes[i] <= closes[i + 1] {
        assert l[i] == 0.0;
      }
    }
  }

  function Affine(closes: seq<real>, a: real, b: real): seq<real> {
    seq(|closes|, i requires 0 <= i < |closes| => a * closes[i] + b)
  }

  lemma RsiIgnoresUnits(closes: seq<real>, a: real, b: real, period: nat)
    requires period >= 1 && a > 0.0
    ensures WilderRsi(Affine(closes, a, b), period) == WilderRsi(closes, period)
  {
    hide Smoothed, Index;
    var moved := Affine(closes, a, b);
    AffineScales(closes, a, b);
    if |closes| >= period + 2 {
      var g, l, g', l' := Gains(closes), Losses(closes), Gains(moved), Losses(moved);
      var x, y := Smoothed(g, period, |g|), Smoothed(l, period, |l|);
      var x', y' := Smoothed(g', period, |g'|), Smoothed(l', period, |l'|);
      SmoothedScales(g, g', a, period, |g|, x, x');
      SmoothedScales(l, l', a, period, |l|, y, y');
      SmoothedIsNonNegative(g, period, |g|);
      SmoothedIsNonNegative(l, period, |l|);
      IndexIgnoresScale(x, y, x', y', a);
    }
  }

  lemma AffineScales(closes: seq<real>, a: real, b: real)
    requires a > 0.0
    ensures forall i :: 0 <= i < |Gains(closes)| ==>
      && Gains(Affine(closes, a, b))[i] == a * Gains(closes)[i]
      && Losses(Affine(closes, a, b))[i] == a * Losses(closes)[i]
  {
    var moved := Affine(closes, a, b);
    forall i | 0 <= i < |Gains(closes)|
      ensures Gains(moved)[i] == a * Gains(closes)[i] && Losses(moved)[i] == a * Losses(closes)[i]
    {
      assert moved[i] == a * closes[i] + b && moved[i + 1] == a * closes[i + 1] + b;
      ScaledStep(a, b, closes[i], closes[i + 1]);
    }
  }

  lemma ScaledStep(a: real, b: real, x: real, y: real)
    requires a > 0.0
    ensures Max((a * y + b) - (a * x + b), 0.0) == a * Max(y - x, 0.0)
    ensures Max(-((a * y + b) - (a * x + b)), 0.0) == a * Max(-(y - x), 0.0)
  {
    assert (a * y + b) - (a * x + b) == a * (y - x);
    if y - x >= 0.0 { assert a * (y - x) >= 0.0; } else { assert a * (y - x) < 0.0; }
  }

  lemma IndexIgnoresScale(g: real, l: real, g': real, l': real, a: real)
    requires g >= 0.0 && l >= 0.0 && a > 0.0 && g' == a * g && l' == a * l
    ensures g' >= 0.0 && l' >= 0.0 && Index(g', l') == Index(g, l)
  {
    if l > 0.0 {
      assert l' > 0.0;
      var q := g / l;
      assert q * l == g;
      assert g' == q * l';
      QuotientOf(q, l');
    }
  }

  lemma QuotientOf(q: real, m: real)
    requires m > 0.0
    ensures q * m / m == q
  {
    ShareDetermines(q * m / m, q, m);
  }

  function Mirror(closes: seq<real>, c: real): seq<real> {
    seq(|closes|, i requires 0 <= i < |closes| => c - closes[i])
  }

  /** No change among the closes that count: all of them, but for period 1 only the last two. */
  ghost predicate Unmoved(closes: seq<real>, period: nat)
    requires |closes| >= 2
  {
    if period == 1 then closes[|closes| - 2] == closes[|closes| - 1] else Flat(closes)
  }

  /** Prices mirrored about a level: the index is mirrored about 50, except on an unmoved series. */
  lemma RsiMirrors(closes: seq<real>, c: real, period: nat)
    requires period >= 1 && |closes| >= period + 2
    ensures Unmoved(closes, period) ==> WilderRsi(Mirror(closes, c), period) == WilderRsi(closes, period) == Some(100.0)
    ensures !Unmoved(closes, period) ==>
      WilderRsi(Mirror(closes, c), period).value == 100.0 - WilderRsi(closes, period).value
  {
    MirrorSwaps(closes, c);
    var g, l := Gains(closes), Losses(closes);
    SmoothedIsNonNegative(g, period, |g|);
    SmoothedIsNonNegative(l, period, |l|);
    var x, y := Smoothed(g, period, |g|), Smoothed(l, period, |l|);
    assert x + y == 0.0 <==> Unmoved(closes, period) by {
      SmoothedIsZeroIff(g, period, |g|);
      SmoothedIsZeroIff(l, period, |l|);
      FlatIff(closes);
    }
    if x + y > 0.0 {
      IndexMirrors(x, y);
    }
  }

  lemma MirrorSwaps(closes: seq<real>, c: real)
    ensures Gains(Mirror(closes, c)) == Losses(closes) && Losses(Mirror(closes, c)) == Gains(closes)
  {
  }

  lemma FlatIff(closes: seq<real>)
    ensures Flat(closes) <==>
      (forall i :: 0 <= i < |Gains(closes)| ==> Gains(closes)[i] == 0.0) &&
      (forall i :: 0 <= i < |Losses(closes)| ==> Losses(closes)[i] == 0.0)
  {
    var g, l := Gains(closes), Losses(closes);
    forall i | 0 <= i && i + 1 < |closes|
      ensures closes[i] == closes[i + 1] <==> g[i] == 0.0 && l[i] == 0.0
    {
    }
  }

  lemma IndexMirrors(x: real, y: real)
    requires x >= 0.0 && y >= 0.0 && x + y > 0.0
    ensures Index(y, x) == 100.0 - Index(x, y)
  {
    IndexIsShare(x, y);
    IndexIsShare(y, x);
    ShareDetermines(Index(y, x), 100.0 - Index(x, y), x + y);
  }
}
