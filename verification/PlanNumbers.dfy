/** The numbers of a plan, in terms of the numbers of its request (engine/contract.py, `build_trade_plan`). */
module PlanNumbers {
  import opened Prelude
  import opened Rounding
  import opened ScaleWeights
  import opened Targets
  import opened TradePlans

  /** How near counts as the same price: a hundred-millionth of the anchor, at least of 1. */
  function Nearness(anchor: real): real {
    if anchor > 1.0 then anchor / 100000000.0 else 0.00000001
  }

  /** How far the request lets the zone reach from the anchor. */
  function Reach(q: PlanRequest): real {
    if q.entryPadAtrMult > 0.0 then q.atr * q.entryPadAtrMult else 0.0
  }

  /** Exactly which requests get a plan. */
  lemma PlanExistsIff(q: PlanRequest)
    ensures BuildTradePlan(q).Some? <==>
      && q.direction.Some? && q.priceAnchor > 0.0 && q.atr > 0.0 && q.stopLoss > 0.0
      && (q.direction == Some(Long) ==> q.stopLoss < q.priceAnchor - Nearness(q.priceAnchor))
      && (q.direction == Some(Short) ==> q.stopLoss > q.priceAnchor + Nearness(q.priceAnchor))
  {
    hide NormalizeTargets;
    assert q.priceAnchor > 0.0 ==> AnchorTolerance(q.priceAnchor) == Nearness(q.priceAnchor);
    if Acceptable(q) {
      PlanGeometry(q);
    }
  }

  lemma PlanIsAcceptable(q: PlanRequest)
    ensures BuildTradePlan(q).Some? ==> Acceptable(q) && AnchorTolerance(q.priceAnchor) == Nearness(q.priceAnchor)
  {
    hide NormalizeTargets;
  }

  /** The fields of a plan, one by one. */
  lemma PlanFields(q: PlanRequest, p: TradePlan)
    requires BuildTradePlan(q) == Some(p)
    ensures q.direction == Some(p.direction) && q.priceAnchor > 0.0 && q.atr > 0.0
    ensures AnchorTolerance(q.priceAnchor) == Nearness(q.priceAnchor)
    ensures p.entryLow == EntryLow(q) < EntryMid(q) < EntryHigh(q) == p.entryHigh && p.entryLow > 0.0
    ensures p.stopLoss == ClampedStop(q, p.direction) != EntryMid(q)
  {
    PlanIsAcceptable(q);
    hide BuildTradePlan, EntryLow, EntryHigh, EntryMid, ClampedStop, AnchorTolerance, Nearness;
    PlanGeometry(q);
  }

  lemma MiddleOfPlan(q: PlanRequest, p: TradePlan)
    requires BuildTradePlan(q) == Some(p)
    ensures (p.entryLow + p.entryHigh) / 2.0 == EntryMid(q)
  {
    hide BuildTradePlan, EntryLow, EntryHigh;
    PlanFields(q, p);
  }

  /**
   * The zone reaches from the anchor as far as the request says, at least one
   * part in 2000, but not below the smallest price, and is not empty.
   */
  lemma ZoneOfRequest(q: PlanRequest, p: TradePlan)
    requires BuildTradePlan(q) == Some(p)
    ensures var anchor, near := q.priceAnchor, Nearness(q.priceAnchor);
      && LeastAbove(p.entryHigh, [anchor + Reach(q), 1.0005 * anchor, p.entryLow + near])
      && p.entryLow >= near
      && (p.entryLow > near ==> GreatestBelow(p.entryLow, [anchor - Reach(q), 0.9995 * anchor]))
      && (p.entryLow == near ==> anchor - Reach(q) <= near || 0.9995 * anchor <= near)
      && (p.entryLow < anchor < p.entryHigh <==> anchor > 0.00000001)
  {
    hide BuildTradePlan, EntryMid, ClampedStop, EntryPad, Reach, AnchorTolerance;
    PlanFields(q, p);
    PadIsReach(q);
    ZoneEdges(q.priceAnchor, Nearness(q.priceAnchor), Reach(q), p.entryLow, p.entryHigh);
  }

  lemma ZoneEdges(anchor: real, near: real, reach: real, low: real, high: real)
    requires anchor > 0.0 && near == Nearness(anchor)
    requires low == Max(near, anchor - Max(reach, anchor * 0.0005))
    requires high == Max(low + near, anchor + Max(reach, anchor * 0.0005))
    ensures LeastAbove(high, [anchor + reach, 1.0005 * anchor, low + near]) && low >= near
    ensures low > near ==> GreatestBelow(low, [anchor - reach, 0.9995 * anchor])
    ensures low == near ==> anchor - reach <= near || 0.9995 * anchor <= near
    ensures low < anchor < high <==> anchor > 0.00000001
  {
    var upper, lower := [anchor + reach, 1.0005 * anchor, low + near], [anchor - reach, 0.9995 * anchor];
    assert upper[0] in upper && upper[1] in upper && upper[2] in upper;
    assert lower[0] in lower && lower[1] in lower;
  }

  lemma PadIsReach(q: PlanRequest)
    requires q.atr > 0.0
    ensures EntryPad(q) == Max(Reach(q), q.priceAnchor * 0.0005)
  {
  }

  /** A stop outside the zone is kept; one inside moves out by a fiftieth of the range, at least four times the nearness. */
  lemma StopOfRequest(q: PlanRequest, p: TradePlan)
    requires BuildTradePlan(q) == Some(p)
    ensures var near := Nearness(q.priceAnchor);
      && q.direction == Some(p.direction)
      && (p.direction == Long ==>
            if q.stopLoss < p.entryLow then p.stopLoss == q.stopLoss
            else GreatestBelow(p.stopLoss, [p.entryLow - q.atr / 50.0, p.entryLow - 4.0 * near]))
      && (p.direction == Short ==>
            if q.stopLoss > p.entryHigh then p.stopLoss == q.stopLoss
            else LeastAbove(p.stopLoss, [p.entryHigh + q.atr / 50.0, p.entryHigh + 4.0 * near]))
  {
    hide BuildTradePlan, EntryLow, EntryHigh, EntryMid, AnchorTolerance, Nearness;
    PlanFields(q, p);
    var near := Nearness(q.priceAnchor);
    var below, above := [p.entryLow - q.atr / 50.0, p.entryLow - 4.0 * near], [p.entryHigh + q.atr / 50.0, p.entryHigh + 4.0 * near];
    assert below[0] in below && below[1] in below && above[0] in above && above[1] in above;
  }

  /** The targets, their flags and weights are those of the two normalisations, against the plan's own zone and stop. */
  lemma PlanParts(q: PlanRequest, p: TradePlan)
    requires BuildTradePlan(q) == Some(p)
    ensures NormalizeTargets(p.direction, (p.entryLow + p.entryHigh) / 2.0, p.stopLoss, q.tp1, q.tp2, q.tp3, q.targetRr)
      == Some(Targets(p.targets, p.single, p.integrityStatus))
    ensures p.scaleWeights == NormalizeScaleWeights(q.scaleWeights)
  {
    hide NormalizeTargets, NormalizeScaleWeights, EntryLow, EntryHigh, EntryMid, ClampedStop, RiskReward, Acceptable,
      ValidUntilFrom, PlanTtl, Clamp96;
    PlanFields(q, p);
    MiddleOfPlan(q, p);
  }

  /** Rewards are in units of the risk, the width in percent of the middle of the zone. */
  lemma PlanRatios(q: PlanRequest, p: TradePlan)
    requires BuildTradePlan(q) == Some(p)
    ensures var mid := (p.entryLow + p.entryHigh) / 2.0;
      var risk := Abs(mid - p.stopLoss);
      && risk > 0.0 && mid > 0.0
      && p.riskReward.a * risk == Abs(p.targets.a - mid)
      && p.riskReward.b * risk == Abs(p.targets.b - mid)
      && p.riskReward.c * risk == Abs(p.targets.c - mid)
      && p.entryZoneWidthPct * mid == 100.0 * (p.entryHigh - p.entryLow)
  {
    hide BuildTradePlan, EntryLow, EntryHigh, EntryMid, ClampedStop;
    PlanFields(q, p);
    MiddleOfPlan(q, p);
    RatiosAsDivided(q, p);
    var mid := EntryMid(q);
    var risk := Abs(mid - p.stopLoss);
    QuotientTimes(Abs(p.targets.a - mid), risk);
    QuotientTimes(Abs(p.targets.b - mid), risk);
    QuotientTimes(Abs(p.targets.c - mid), risk);
    PercentTimes(p.entryHigh - p.entryLow, mid, p.entryZoneWidthPct);
  }

  lemma RatiosAsDivided(q: PlanRequest, p: TradePlan)
    requires BuildTradePlan(q) == Some(p)
    ensures var risk := Abs(EntryMid(q) - p.stopLoss);
      && risk > 0.0 && EntryMid(q) > 0.0
      && p.riskReward == Triple(
           RiskReward(p.targets.a, EntryMid(q), risk), RiskReward(p.targets.b, EntryMid(q), risk),
           RiskReward(p.targets.c, EntryMid(q), risk))
      && p.entryZoneWidthPct == (p.entryHigh - p.entryLow) / EntryMid(q) * 100.0
  {
    hide NormalizeTargets, NormalizeScaleWeights, EntryLow, EntryHigh, EntryMid, ClampedStop, RiskReward, Acceptable,
      ValidUntilFrom, PlanTtl, Clamp96;
    PlanFields(q, p);
  }

  lemma QuotientTimes(a: real, b: real)
    requires b > 0.0
    ensures a / b * b == a
  {
  }

  lemma PercentTimes(a: real, b: real, c: real)
    requires b > 0.0 && c == a / b * 100.0
    ensures c * b == 100.0 * a
  {
    var x := a / b;
    QuotientTimes(a, b);
    assert x * 100.0 * b == 100.0 * (x * b);
  }

  // ----- lifetime

  /** The bars a request asks for or its setup's table lists. */
  function ListedBars(q: PlanRequest): Option<int> {
    if q.ttlBars.Some? then q.ttlBars
    else if q.tables.minutes.Some? then None
    else if q.tables.bars.Some? then q.tables.bars
    else q.tables.familyBars
  }

  function Distance(x: int, y: int): int {
    if x >= y then x - y else y - x
  }

  /**
   * The number of bars is the one from 1 to 96 nearest to what is listed; where
   * minutes are listed, it is the one whose duration is nearest to them.
   */
  lemma LifetimeOfRequest(q: PlanRequest, p: TradePlan)
    requires BuildTradePlan(q) == Some(p)
    ensures 1 <= p.ttlBars <= 96 && p.validUntil == q.createdAt + q.timeframeMinutes * p.ttlBars
    ensures ListedBars(q).Some? ==>
      forall k :: 1 <= k <= 96 ==> Distance(p.ttlBars, ListedBars(q).value) <= Distance(k, ListedBars(q).value)
    ensures q.ttlBars == None && q.tables.minutes.Some? ==>
      var bar := if q.timeframeMinutes == 0 then 1 else q.timeframeMinutes;
      forall k :: 1 <= k <= 96 ==>
        Distance(p.ttlBars * bar, q.tables.minutes.value) <= Distance(k * bar, q.tables.minutes.value)
    ensures ListedBars(q) == None && q.tables.minutes == None ==> p.ttlBars == if q.timeframeMinutes >= 60 then 8 else 24
  {
    hide BuildTradePlan, Clamp96, Distance, RoundHalfEven;
    BarsOfPlan(q, p);
    if ListedBars(q).Some? {
      assert PlanTtl(q) == ListedBars(q).value;
      NearestInRange(ListedBars(q).value);
    } else if q.tables.minutes.Some? {
      var minutes, bar: nat := q.tables.minutes.value, if q.timeframeMinutes == 0 then 1 else q.timeframeMinutes;
      BarsOfMinutes(q, minutes, bar);
      NearestBarsOfAll(minutes, bar);
    } else {
      ClampKeepsInside();
    }
  }

  lemma NearestInRange(n: int)
    ensures forall k :: 1 <= k <= 96 ==> Distance(Clamp96(n), n) <= Distance(k, n)
  {
  }

  lemma ClampKeepsInside()
    ensures Clamp96(8) == 8 && Clamp96(24) == 24
  {
  }

  lemma BarsOfMinutes(q: PlanRequest, minutes: int, bar: nat)
    requires q.ttlBars == None && q.tables.minutes == Some(minutes)
    requires bar == if q.timeframeMinutes == 0 then 1 else q.timeframeMinutes
    ensures bar >= 1 && Clamp96(PlanTtl(q)) == Clamp96(RoundHalfEven(minutes as real / bar as real))
  {
    hide RoundHalfEven;
  }

  lemma NearestBarsOfAll(minutes: int, bar: nat)
    requires bar >= 1
    ensures var b := Clamp96(RoundHalfEven(minutes as real / bar as real));
      forall k :: 1 <= k <= 96 ==> Distance(b * bar, minutes) <= Distance(k * bar, minutes)
  {
    hide Clamp96, RoundHalfEven, Distance;
    var b := Clamp96(RoundHalfEven(minutes as real / bar as real));
    forall k | 1 <= k <= 96 ensures Distance(b * bar, minutes) <= Distance(k * bar, minutes) {
      NearestBars(minutes, bar, k);
    }
  }

  lemma BarsOfPlan(q: PlanRequest, p: TradePlan)
    requires BuildTradePlan(q) == Some(p)
    ensures p.ttlBars == Clamp96(PlanTtl(q)) && 1 <= p.ttlBars <= 96
    ensures p.validUntil == q.createdAt + q.timeframeMinutes * p.ttlBars
  {
    hide NormalizeTargets, NormalizeScaleWeights, PlanTtl, EntryLow, EntryHigh, EntryMid, ClampedStop, Acceptable, RiskReward;
    PlanFields(q, p);
  }

  lemma NearestBars(minutes: int, bar: nat, k: int)
    requires bar >= 1 && 1 <= k <= 96
    ensures Distance(Clamp96(RoundHalfEven(minutes as real / bar as real)) * bar, minutes) <= Distance(k * bar, minutes)
  {
    var x := minutes as real / bar as real;
    var n := RoundHalfEven(x);
    var b := Clamp96(n);
    HalfABarOff(minutes, bar, x, n, n * bar);
    hide RoundHalfEven;
    MultiplesApart(bar, n, b, n * bar, b * bar);
    MultiplesApart(bar, b, k, b * bar, k * bar);
    MultiplesApart(bar, n, k, n * bar, k * bar);
  }

  lemma HalfABarOff(minutes: int, bar: nat, x: real, n: int, nb: int)
    requires bar >= 1 && x == minutes as real / bar as real && -0.5 <= x - n as real <= 0.5 && nb == n * bar
    ensures 2 * Distance(nb, minutes) <= bar
  {
    var d, b := x - n as real, bar as real;
    assert x * b == minutes as real;
    assert n as real * b == nb as real;
    assert d * b == minutes as real - nb as real;
    HalfTimes(d, b, minutes as real - nb as real);
  }

  lemma HalfTimes(d: real, b: real, m: real)
    requires -0.5 <= d <= 0.5 && b > 0.0 && m == d * b
    ensures -0.5 * b <= m <= 0.5 * b
  {
    assert (d + 0.5) * b >= 0.0 && (0.5 - d) * b >= 0.0;
  }

  lemma MultiplesApart(bar: nat, i: int, j: int, ib: int, jb: int)
    requires bar >= 1 && ib == i * bar && jb == j * bar
    ensures i == j ==> ib == jb
    ensures i < j ==> ib + bar <= jb
    ensures i > j ==> jb + bar <= ib
  {
    Distribute(i, j, bar);
    AtLeastOnce(j - i, bar, jb - ib);
    AtLeastOnce(i - j, bar, ib - jb);
  }

  lemma Distribute(i: int, j: int, bar: int)
    ensures j * bar - i * bar == (j - i) * bar && i * bar - j * bar == (i - j) * bar
  {
  }

  lemma AtLeastOnce(d: int, bar: nat, m: int)
    requires bar >= 1 && m == d * bar
    ensures d >= 1 ==> m >= bar
    ensures d == 0 ==> m == 0
  {
    if d >= 1 {
      assert (d - 1) * bar >= 0;
      assert m == (d - 1) * bar + bar;
    }
  }
}
