/** `normalize_scale_weights` (engine/contract.py), with Python's half-to-even rounding to four places. */
module ScaleWeights {
  import opened Prelude
  import opened Rounding

  datatype Triple = Triple(a: real, b: real, c: real)

  const DEFAULT_SCALE_WEIGHTS := Triple(0.5, 0.3, 0.2)

  function Sum(t: Triple): real {
    t.a + t.b + t.c
  }

  function Shares(v: Triple): Triple
    requires Sum(v) > 0.0
  {
    Triple(Round4(v.a / Sum(v)), Round4(v.b / Sum(v)), Round4(v.c / Sum(v)))
  }

  /** The rounding error of the three shares, which the first of them absorbs. */
  function Drift(shares: Triple): real {
    Round4(1.0 - Sum(shares))
  }

  function Cleaned(w: seq<real>): Triple
    requires |w| == 3
  {
    Triple(Max(0.0, w[0]), Max(0.0, w[1]), Max(0.0, w[2]))
  }

  function NormalizeScaleWeights(weights: Option<seq<real>>): Triple {
    if weights == None || |weights.value| != 3 || Sum(Cleaned(weights.value)) <= 0.0 then
      DEFAULT_SCALE_WEIGHTS
    else
      var shares := Shares(Cleaned(weights.value));
      Triple(shares.a + Drift(shares), shares.b, shares.c)
  }

  method ComputeScaleWeights(weights: Option<seq<real>>) returns (r: Triple)
    ensures r == NormalizeScaleWeights(weights)
  {
    if weights == None || |weights.value| != 3 {
      return DEFAULT_SCALE_WEIGHTS;
    }
    var cleaned: seq<real> := [];
    for i := 0 to |weights.value|
      invariant |cleaned| == i && forall k :: 0 <= k < i ==> cleaned[k] == Max(0.0, weights.value[k])
    {
      cleaned := cleaned + [Max(0.0, weights.value[i])];
    }
    var v := Triple(cleaned[0], cleaned[1], cleaned[2]);
    var total := Sum(v);
    if total <= 0.0 {
      return DEFAULT_SCALE_WEIGHTS;
    }
    var normalized := Shares(v);
    var drift := Drift(normalized);
    r := Triple(normalized.a + drift, normalized.b, normalized.c);
  }

  // ----- three rounded shares miss 1 by at most one unit, and never for a zero first share

  /** In units of 0.0001: the three roundings of numbers that add up to 10000. */
  lemma UnitsNearlyAddUp(x: real, y: real, z: real)
    requires x >= 0.0 && y >= 0.0 && z >= 0.0 && x + y + z == 10000.0
    ensures -1 <= 10000 - (RoundHalfEven(x) + RoundHalfEven(y) + RoundHalfEven(z)) <= 1
    ensures RoundHalfEven(x) + (10000 - (RoundHalfEven(x) + RoundHalfEven(y) + RoundHalfEven(z))) >= 0
  {
    RoundIsMonotone(0.0, x);
    RoundKeepsIntegers(0);
    TwoTiesDoNotBothRoundUp(y, z);
  }

  /** Two numbers up to 10000 together never round to 10001: that would take two ties, and both to an even number. */
  lemma TwoTiesDoNotBothRoundUp(y: real, z: real)
    requires y + z <= 10000.0
    ensures RoundHalfEven(y) + RoundHalfEven(z) <= 10000
  {
    var q, r := RoundHalfEven(y), RoundHalfEven(z);
    if q as real - y == 0.5 && r as real - z == 0.5 {
      hide RoundHalfEven;
      assert (q + r) % 2 == 0;
    } else {
      hide RoundHalfEven;
      assert (q + r) as real < 10001.0;
    }
  }

  lemma SharesAddUp(a: real, b: real, c: real, t: real, p: real, q: real, r: real)
    requires a >= 0.0 && b >= 0.0 && c >= 0.0 && t == a + b + c > 0.0
    requires p == a / t && q == b / t && r == c / t
    ensures p >= 0.0 && q >= 0.0 && r >= 0.0 && p + q + r == 1.0
  {
    assert p * t == a && q * t == b && r * t == c;
    assert (p + q + r - 1.0) * t == 0.0;
  }

  /** Whatever comes in, the three weights are non-negative and add up to exactly 1. */
  lemma WeightsAddUpToOne(weights: Option<seq<real>>)
    ensures var w := NormalizeScaleWeights(weights);
      Sum(w) == 1.0 && w.a >= 0.0 && w.b >= 0.0 && w.c >= 0.0
  {
    if weights != None && |weights.value| == 3 && Sum(Cleaned(weights.value)) > 0.0 {
      DriftIsOneUnit(Cleaned(weights.value));
    }
  }

  lemma DriftIsOneUnit(v: Triple)
    requires v.a >= 0.0 && v.b >= 0.0 && v.c >= 0.0 && Sum(v) > 0.0
    ensures var s := Shares(v);
      && Drift(s) in {-0.0001, 0.0, 0.0001}
      && Sum(s) + Drift(s) == 1.0
      && s.a + Drift(s) >= 0.0 && s.b >= 0.0 && s.c >= 0.0
  {
    var t := Sum(v);
    var p, q, r := v.a / t, v.b / t, v.c / t;
    SharesAddUp(v.a, v.b, v.c, t, p, q, r);
    DriftOfRoundings(p, q, r, Shares(v));
  }

  lemma DriftOfRoundings(p: real, q: real, r: real, s: Triple)
    requires p >= 0.0 && q >= 0.0 && r >= 0.0 && p + q + r == 1.0
    requires s == Triple(Round4(p), Round4(q), Round4(r))
    ensures Drift(s) in {-0.0001, 0.0, 0.0001} && Sum(s) + Drift(s) == 1.0
    ensures s.a + Drift(s) >= 0.0 && s.b >= 0.0 && s.c >= 0.0
  {
    hide RoundHalfEven;
    UnitsNearlyAddUp(p * 10000.0, q * 10000.0, r * 10000.0);
    var d := 10000 - (Units(p) + Units(q) + Units(r));
    assert (1.0 - Sum(s)) * 10000.0 == d as real;
    RoundKeepsIntegers(d);
    RoundIsMonotone(0.0, q * 10000.0);
    RoundIsMonotone(0.0, r * 10000.0);
    RoundKeepsIntegers(0);
  }

  // ----- which requested weights leave a target without a share

  /** A weight is nearest to n units of 0.0001 of the total, a tie going to the even number. */
  predicate IsNearest(weight: real, total: real, n: int) {
    var miss := 2.0 * Abs(10000.0 * weight - n as real * total);
    miss < total || (miss == total && n % 2 == 0)
  }

  /** The second or third weight is nearest to no units, or those two are nearest to units that make up all 10000. */
  ghost predicate LeavesZeroShare(weights: Option<seq<real>>) {
    weights.Some? && |weights.value| == 3 &&
    var v := Cleaned(weights.value);
    var total := Sum(v);
    total > 0.0 && (
      || IsNearest(v.b, total, 0)
      || IsNearest(v.c, total, 0)
      || exists n: nat :: n <= 10000 && IsNearest(v.b, total, n) && IsNearest(v.c, total, 10000 - n))
  }

  lemma NearestIsRounded(weight: real, total: real, p: real, n: int)
    requires total > 0.0 && p == weight / total
    ensures IsNearest(weight, total, n) <==> Units(p) == n
  {
    assert p * total == weight;
    var x := p * 10000.0;
    assert 10000.0 * weight - n as real * total == (x - n as real) * total;
    ScaledMiss(x - n as real, total, 10000.0 * weight - n as real * total);
    NearestInteger(x, n);
  }

  lemma ScaledMiss(d: real, total: real, m: real)
    requires total > 0.0 && m == d * total
    ensures 2.0 * Abs(m) < total <==> Abs(d) < 0.5
    ensures 2.0 * Abs(m) == total <==> Abs(d) == 0.5
  {
    SignOfProduct(d - 0.5, total, m - 0.5 * total);
    SignOfProduct(d + 0.5, total, m + 0.5 * total);
    SignOfProduct(d, total, m);
  }

  lemma SignOfProduct(d: real, total: real, m: real)
    requires total > 0.0 && m == d * total
    ensures (m > 0.0 <==> d > 0.0) && (m < 0.0 <==> d < 0.0)
  {
  }

  lemma NearestInteger(x: real, n: int)
    ensures Abs(x - n as real) < 0.5 || (Abs(x - n as real) == 0.5 && n % 2 == 0) <==> RoundHalfEven(x) == n
  {
    var r := RoundHalfEven(x);
    if n > r {
      assert n as real >= r as real + 1.0;
    } else if n < r {
      assert n as real <= r as real - 1.0;
    }
  }

  /**
   * Exactly which requests leave a target without a share; the first target
   * loses its own only with at most one unit of the total.
   */
  lemma ZeroShareIff(weights: Option<seq<real>>)
    ensures var w := NormalizeScaleWeights(weights);
      w.a <= 0.0 || w.b <= 0.0 || w.c <= 0.0 <==> LeavesZeroShare(weights)
    ensures weights.Some? && |weights.value| == 3 && Sum(Cleaned(weights.value)) > 0.0 ==>
      var v := Cleaned(weights.value);
      && (NormalizeScaleWeights(weights).a <= 0.0 ==> v.a * 10000.0 <= Sum(v))
      && (v.a <= 0.0 ==> NormalizeScaleWeights(weights).a <= 0.0)
  {
    if weights != None && |weights.value| == 3 && Sum(Cleaned(weights.value)) > 0.0 {
      var v := Cleaned(weights.value);
      assert v.a >= 0.0 && v.b >= 0.0 && v.c >= 0.0;
      hide Cleaned;
      ZeroSharesOf(v);
      WeightsAddUpToOne(weights);
      hide IsNearest, Units, Drift;
    }
  }

  /**
   * The second and third share are nearest to their own weight and the first
   * gets the rest; without three weights, or any positive one, all are default.
   */
  lemma SharesAreNearest(weights: Option<seq<real>>)
    ensures weights.Some? && |weights.value| == 3 && Sum(Cleaned(weights.value)) > 0.0 ==>
      var v, w := Cleaned(weights.value), NormalizeScaleWeights(weights);
      && v == Triple(Max(weights.value[0], 0.0), Max(weights.value[1], 0.0), Max(weights.value[2], 0.0))
      && exists m: int, n: int ::
           IsNearest(v.b, Sum(v), m) && IsNearest(v.c, Sum(v), n)
           && 10000.0 * w.b == m as real && 10000.0 * w.c == n as real && w.a == 1.0 - w.b - w.c
    ensures !(weights.Some? && |weights.value| == 3 && Sum(Cleaned(weights.value)) > 0.0) ==>
      NormalizeScaleWeights(weights) == Triple(0.5, 0.3, 0.2)
  {
    if weights.Some? && |weights.value| == 3 && Sum(Cleaned(weights.value)) > 0.0 {
      var v, w := Cleaned(weights.value), NormalizeScaleWeights(weights);
      WeightsAddUpToOne(weights);
      assert v == Triple(Max(weights.value[0], 0.0), Max(weights.value[1], 0.0), Max(weights.value[2], 0.0));
      assert v.a >= 0.0 && v.b >= 0.0 && v.c >= 0.0;
      hide Cleaned;
      var m, n := Units(v.b / Sum(v)), Units(v.c / Sum(v));
      hide Units, IsNearest;
      NearestIsRounded(v.b, Sum(v), v.b / Sum(v), m);
      NearestIsRounded(v.c, Sum(v), v.c / Sum(v), n);
      assert w.b == m as real / 10000.0 && w.c == n as real / 10000.0;
    }
  }

  lemma ZeroSharesOf(v: Triple)
    requires v.a >= 0.0 && v.b >= 0.0 && v.c >= 0.0 && Sum(v) > 0.0
    ensures var s, total := Shares(v), Sum(v);
      && (s.b <= 0.0 <==> IsNearest(v.b, total, 0))
      && (s.c <= 0.0 <==> IsNearest(v.c, total, 0))
      && (s.b + s.c >= 1.0 <==> exists n: nat :: n <= 10000 && IsNearest(v.b, total, n) && IsNearest(v.c, total, 10000 - n))
      && (s.b + s.c >= 1.0 ==> v.a * 10000.0 <= total)
      && (v.a <= 0.0 ==> s.b + s.c >= 1.0)
  {
    hide IsNearest, Units;
    var total := Sum(v);
    var n, m := Units(v.b / total), Units(v.c / total);
    UnitsOfShares(v.a, v.b, v.c, total, v.a / total, v.b / total, v.c / total);
    assert Shares(v).b == n as real / 10000.0 && Shares(v).c == m as real / 10000.0;
    hide Shares;
    if n + m >= 10000 {
      assert IsNearest(v.b, total, n) && IsNearest(v.c, total, 10000 - n);
    }
  }

  lemma UnitsOfShares(a: real, b: real, c: real, total: real, p: real, q: real, r: real)
    requires a >= 0.0 && b >= 0.0 && c >= 0.0 && total == a + b + c > 0.0
    requires p == a / total && q == b / total && r == c / total
    ensures 0 <= Units(q) && 0 <= Units(r) && Units(q) + Units(r) <= 10000
    ensures Units(q) + Units(r) >= 10000 ==> a * 10000.0 <= total
    ensures a <= 0.0 ==> Units(q) + Units(r) >= 10000
    ensures forall n :: (IsNearest(b, total, n) <==> Units(q) == n) && (IsNearest(c, total, n) <==> Units(r) == n)
  {
    hide IsNearest, RoundHalfEven;
    SharesAddUp(a, b, c, total, p, q, r);
    forall n ensures (IsNearest(b, total, n) <==> Units(q) == n) && (IsNearest(c, total, n) <==> Units(r) == n) {
      NearestIsRounded(b, total, q, n);
      NearestIsRounded(c, total, r, n);
    }
    RoundIsMonotone(0.0, q * 10000.0);
    RoundIsMonotone(0.0, r * 10000.0);
    RoundKeepsIntegers(0);
    TwoTiesDoNotBothRoundUp(q * 10000.0, r * 10000.0);
    TwoSharesBound(p * 10000.0, q * 10000.0, r * 10000.0);
    UnitOfTotal(a, total, p);
  }

  lemma UnitOfTotal(a: real, total: real, p: real)
    requires a >= 0.0 && total > 0.0 && p == a / total
    ensures p * 10000.0 <= 1.0 ==> a * 10000.0 <= total
    ensures a <= 0.0 ==> p * 10000.0 <= 0.0
  {
    assert p * total == a;
    SignOfProduct(p * 10000.0 - 1.0, total, a * 10000.0 - total);
  }

  /** Two roundings reach all 10000 only if at most one unit is left, and do if nothing is. */
  lemma TwoSharesBound(x: real, y: real, z: real)
    requires x >= 0.0 && y >= 0.0 && z >= 0.0 && x + y + z == 10000.0
    ensures RoundHalfEven(y) + RoundHalfEven(z) >= 10000 ==> x <= 1.0
    ensures x <= 0.0 ==> RoundHalfEven(y) + RoundHalfEven(z) >= 10000
  {
    var n, m := RoundHalfEven(y), RoundHalfEven(z);
    if x <= 0.0 {
      assert (n + m) as real >= 9999.0;
    }
  }
}
