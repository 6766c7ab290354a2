/** The trade-plan builder (engine/contract.py): entry zone, stop, targets, weights and lifetime of a plan. */
module TradePlans {
  import opened Prelude
  import opened Rounding
  import opened ScaleWeights
  import opened Targets

  const RISK_REWARD_EPSILON := 0.000000001

  /** What the TTL tables say about a setup: minutes, bars and its family's bars, each if listed. */
  datatype TtlTables = TtlTables(minutes: Option<int>, bars: Option<int>, familyBars: Option<int>)

  function Clamp96(n: int): (r: int)
    ensures 1 <= r <= 96 && (1 <= n <= 96 ==> r == n)
  {
    if n < 1 then 1 else if n > 96 then 96 else n
  }

  function DefaultTtlBars(tables: TtlTables, timeframeMinutes: nat): int {
    if tables.minutes.Some? then
      var tf := if timeframeMinutes < 1 then 1 else timeframeMinutes;
      Clamp96(RoundHalfEven(tables.minutes.value as real / tf as real))
    else if tables.bars.Some? then tables.bars.value
    else if tables.familyBars.Some? then tables.familyBars.value
    else if timeframeMinutes <= 5 then 24
    else if timeframeMinutes >= 60 then 8
    else 24
  }

  /** Expiry, in minutes on the clock `createdAt` is read from. */
  function ValidUntilFrom(createdAt: int, timeframeMinutes: nat, bars: int): int {
    createdAt + timeframeMinutes * Clamp96(bars)
  }

  datatype PlanRequest = PlanRequest(
    direction: Option<Direction>, tables: TtlTables, timeframeMinutes: nat,
    priceAnchor: real, atr: real, stopLoss: real,
    tp1: Option<real>, tp2: Option<real>, tp3: Option<real>,
    entryPadAtrMult: real, createdAt: int, ttlBars: Option<int>,
    scaleWeights: Option<seq<real>>, targetRr: Triple)

  datatype TradePlan = TradePlan(
    direction: Direction, entryLow: real, entryHigh: real, stopLoss: real, targets: Triple,
    validUntil: int, scaleWeights: Triple, ttlBars: int, entryZoneWidthPct: real,
    riskReward: Triple, single: bool, integrityStatus: Status)

  // ----- entry zone and stop

  function AnchorTolerance(anchor: real): real {
    Max(anchor * 0.00000001, 0.00000001)
  }

  function EntryPad(q: PlanRequest): real {
    Max(q.atr * Max(0.0, q.entryPadAtrMult), q.priceAnchor * 0.0005)
  }

  function EntryLow(q: PlanRequest): real {
    Max(AnchorTolerance(q.priceAnchor), q.priceAnchor - EntryPad(q))
  }

  function EntryHigh(q: PlanRequest): real {
    Max(EntryLow(q) + AnchorTolerance(q.priceAnchor), q.priceAnchor + EntryPad(q))
  }

  function EntryMid(q: PlanRequest): real {
    (EntryLow(q) + EntryHigh(q)) / 2.0
  }

  function StopClearance(q: PlanRequest): real {
    Max(q.atr * 0.02, AnchorTolerance(q.priceAnchor) * 4.0)
  }

  /** The stop, moved just outside the zone if the caller put it inside. */
  function ClampedStop(q: PlanRequest, direction: Direction): real {
    if direction == Long && q.stopLoss >= EntryLow(q) then EntryLow(q) - StopClearance(q)
    else if direction == Short && q.stopLoss <= EntryHigh(q) then EntryHigh(q) + StopClearance(q)
    else q.stopLoss
  }

  /** The requests that get a plan: a known side, positive numbers, a stop on the right side of the anchor. */
  predicate Acceptable(q: PlanRequest) {
    && q.direction.Some?
    && q.priceAnchor > 0.0 && q.atr > 0.0 && q.stopLoss > 0.0
    && (q.direction == Some(Long) ==> q.stopLoss < q.priceAnchor - AnchorTolerance(q.priceAnchor))
    && (q.direction == Some(Short) ==> q.stopLoss > q.priceAnchor + AnchorTolerance(q.priceAnchor))
  }

  function RiskReward(target: real, entryMid: real, risk: real): real
    requires risk > 0.0
  {
    Abs(target - entryMid) / risk
  }

  function PlanTtl(q: PlanRequest): int {
    if q.ttlBars.Some? then q.ttlBars.value else DefaultTtlBars(q.tables, q.timeframeMinutes)
  }

  function BuildTradePlan(q: PlanRequest): Option<TradePlan> {
    if !Acceptable(q) then None
    else
      var direction := q.direction.value;
      var low, high, mid, stop := EntryLow(q), EntryHigh(q), EntryMid(q), ClampedStop(q, direction);
      var targets := NormalizeTargets(direction, mid, stop, q.tp1, q.tp2, q.tp3, q.targetRr);
      var risk := Abs(mid - stop);
      if targets == None || risk <= 0.0 then None
      else
        var t := targets.value.prices;
        Some(TradePlan(
          direction, Min(low, high), Max(low, high), stop, t,
          ValidUntilFrom(q.createdAt, q.timeframeMinutes, PlanTtl(q)),
          NormalizeScaleWeights(q.scaleWeights), Clamp96(PlanTtl(q)),
          if mid > 0.0 then (high - low) / mid * 100.0 else 0.0,
          Triple(RiskReward(t.a, mid, risk), RiskReward(t.b, mid, risk), RiskReward(t.c, mid, risk)),
          targets.value.single, targets.value.status))
  }

  method ComputeTradePlan(q: PlanRequest) returns (r: Option<TradePlan>)
    ensures r == BuildTradePlan(q)
  {
    hide NormalizeTargets, NormalizeScaleWeights, EntryPad, StopClearance, Max, Min, Abs, RiskReward;
    if q.direction == None || q.priceAnchor <= 0.0 || q.atr <= 0.0 || q.stopLoss <= 0.0 {
      return None;
    }
    var direction, anchor, stopValue := q.direction.value, q.priceAnchor, q.stopLoss;
    var tolerance := AnchorTolerance(anchor);
    if direction == Long && stopValue >= anchor - tolerance {
      return None;
    }
    if direction == Short && stopValue <= anchor + tolerance {
      return None;
    }
    var entryPad := EntryPad(q);
    var entryLow := Max(tolerance, anchor - entryPad);
    var entryHigh := Max(entryLow + tolerance, anchor + entryPad);
    var stopClearance := StopClearance(q);
    if direction == Long && stopValue >= entryLow {
      stopValue := entryLow - stopClearance;
    } else if direction == Short && stopValue <= entryHigh {
      stopValue := entryHigh + stopClearance;
    }
    var entryMid := (entryLow + entryHigh) / 2.0;
    var targets := ComputeTargets(direction, entryMid, stopValue, q.tp1, q.tp2, q.tp3, q.targetRr);
    if targets == None {
      return None;
    }
    var t := targets.value.prices;
    var risk := Abs(entryMid - stopValue);
    if risk <= 0.0 {
      return None;
    }
    var ttl := if q.ttlBars.Some? then q.ttlBars.value else DefaultTtlBars(q.tables, q.timeframeMinutes);
    var weights := ComputeScaleWeights(q.scaleWeights);
    r := Some(TradePlan(
      direction, Min(entryLow, entryHigh), Max(entryLow, entryHigh), stopValue, t,
      ValidUntilFrom(q.createdAt, q.timeframeMinutes, ttl), weights, Clamp96(ttl),
      if entryMid > 0.0 then (entryHigh - entryLow) / entryMid * 100.0 else 0.0,
      Triple(RiskReward(t.a, entryMid, risk), RiskReward(t.b, entryMid, risk), RiskReward(t.c, entryMid, risk)),
      targets.value.single, targets.value.status));
  }

  // ----- geometry of every plan

  lemma ZoneGeometry(q: PlanRequest)
    requires q.priceAnchor > 0.0 && q.atr > 0.0
    ensures 0.00000001 < EntryMid(q) && 0.0 < EntryLow(q) < EntryMid(q) < EntryHigh(q)
    ensures StopClearance(q) > 0.0 && AnchorTolerance(q.priceAnchor) > 0.0
  {
    hide EntryPad;
  }

  /** Every acceptable request gets a plan; its zone is a range and its stop lies strictly outside. */
  lemma PlanGeometry(q: PlanRequest)
    requires Acceptable(q)
    ensures BuildTradePlan(q).Some?
    ensures var p := BuildTradePlan(q).value;
      && p.direction == q.direction.value
      && 0.0 < p.entryLow == EntryLow(q) < EntryMid(q) < EntryHigh(q) == p.entryHigh
      && p.stopLoss == ClampedStop(q, p.direction)
      && (p.direction == Long ==> p.stopLoss < p.entryLow)
      && (p.direction == Short ==> p.stopLoss > p.entryHigh)
  {
    hide EntryLow, EntryHigh, EntryMid, StopClearance, AnchorTolerance, RiskReward, NormalizeScaleWeights, NormalizeTargets,
      ClampedStop, ValidUntilFrom, PlanTtl, Clamp96;
    ZoneGeometry(q);
    StopOutside(q, q.direction.value);
    TargetsExist(q.direction.value, EntryMid(q), ClampedStop(q, q.direction.value), q.tp1, q.tp2, q.tp3, q.targetRr);
  }

  lemma StopOutside(q: PlanRequest, direction: Direction)
    requires StopClearance(q) > 0.0
    ensures direction == Long ==> ClampedStop(q, direction) < EntryLow(q)
    ensures direction == Short ==> ClampedStop(q, direction) > EntryHigh(q)
  {
    hide EntryLow, EntryHigh, StopClearance;
  }

  lemma TargetsExist(
    direction: Direction, mid: real, stop: real, tp1: Option<real>, tp2: Option<real>, tp3: Option<real>, rr: Triple)
    ensures NormalizeTargets(direction, mid, stop, tp1, tp2, tp3, rr).Some? <==> mid != stop
  {
  }

  /** The long stop comes out non-positive exactly when it was in a zone no higher than the clearance. */
  lemma StopIsPositiveUnless(q: PlanRequest)
    requires Acceptable(q)
    ensures BuildTradePlan(q).Some?
    ensures BuildTradePlan(q).value.stopLoss <= 0.0 <==>
      q.direction == Some(Long) && q.stopLoss >= EntryLow(q) && EntryLow(q) <= StopClearance(q)
  {
    hide NormalizeTargets, EntryLow, EntryHigh, StopClearance;
    PlanGeometry(q);
  }

  /** Expiry and bar count agree: the plan lives `ttlBars` bars, at least 1 and at most 96. */
  lemma PlanExpiry(q: PlanRequest)
    requires Acceptable(q)
    ensures BuildTradePlan(q).Some?
    ensures var p := BuildTradePlan(q).value;
      1 <= p.ttlBars <= 96 && p.validUntil == q.createdAt + q.timeframeMinutes * p.ttlBars
  {
    hide NormalizeTargets;
    PlanGeometry(q);
  }
}
