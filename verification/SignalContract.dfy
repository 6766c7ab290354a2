/** `validate_signal_contract` (engine/contract.py) and what it says about the builder's own plans. */
module SignalContract {
  import opened Prelude
  import opened ScaleWeights
  import opened Targets
  import opened TradePlans

  datatype Field =
    | SideField | EntryLowField | EntryHighField | StopField | Tp1Field | Tp2Field | Tp3Field
    | ZoneField | TargetsField | RewardField | WeightsField | ExpiryField

  datatype Reason =
    | Invalid | MissingOrNonPositive | NotARange
    | LongStopNotBelowEntryLow | ShortStopNotAboveEntryHigh | LongStopNotBelowEntry | ShortStopNotAboveEntry
    | LongTargetsNotOrdered | ShortTargetsNotOrdered
    | ZeroOrNegativeRisk | Tp1RrBelowMinimum
    | LessThanTwoEntryAllocations | NonPositiveOrNonFinite | FractionSumAboveOne | PercentSumAbove100
    | MissingOrNotDatetime | Expired

  datatype Issue = Issue(field: Field, reason: Reason)

  datatype Signal = Signal(
    direction: Option<Direction>, entryLow: Option<real>, entryHigh: Option<real>, stopLoss: Option<real>,
    tp1: Option<real>, tp2: Option<real>, tp3: Option<real>,
    scaleWeights: seq<real>, validUntil: Option<int>)

  function Positive(value: Option<real>): Option<real> {
    if value.Some? && value.value > 0.0 then value else None
  }

  function When(condition: bool, field: Field, reason: Reason): seq<Issue> {
    if condition then [Issue(field, reason)] else []
  }

  function MissingIssues(fields: seq<(Field, Option<real>)>): seq<Issue> {
    if fields == [] then []
    else
      var last := fields[|fields| - 1];
      MissingIssues(fields[..|fields| - 1]) + When(Positive(last.1) == None, last.0, MissingOrNonPositive)
  }

  function RequiredFields(s: Signal): seq<(Field, Option<real>)> {
    [(EntryLowField, s.entryLow), (EntryHighField, s.entryHigh), (StopField, s.stopLoss),
     (Tp1Field, s.tp1), (Tp2Field, s.tp2), (Tp3Field, s.tp3)]
  }

  function StopIssues(direction: Direction, low: real, high: real, stop: real): seq<Issue> {
    var mid := (low + high) / 2.0;
    When(direction == Long && stop >= low, StopField, LongStopNotBelowEntryLow)
    + When(direction == Short && stop <= high, StopField, ShortStopNotAboveEntryHigh)
    + When(direction == Long && stop >= mid, StopField, LongStopNotBelowEntry)
    + When(direction == Short && stop <= mid, StopField, ShortStopNotAboveEntry)
  }

  function TargetIssues(direction: Direction, mid: real, t: Triple): seq<Issue> {
    When(direction == Long && !IsOrdered(Long, mid, t), TargetsField, LongTargetsNotOrdered)
    + When(direction == Short && !IsOrdered(Short, mid, t), TargetsField, ShortTargetsNotOrdered)
  }

  function RiskIssues(mid: real, stop: real, tp1: real, minRr: real): seq<Issue> {
    var risk := Abs(mid - stop);
    if risk <= 0.0 then [Issue(RewardField, ZeroOrNegativeRisk)]
    else When(RiskReward(tp1, mid, risk) + RISK_REWARD_EPSILON < minRr, RewardField, Tp1RrBelowMinimum)
  }

  function ZoneIssues(direction: Direction, low: real, high: real, stop: Option<real>, targets: Option<Triple>, minRr: real): seq<Issue> {
    var mid := (low + high) / 2.0;
    When(low >= high, ZoneField, NotARange)
    + (if stop.Some? then StopIssues(direction, low, high, stop.value) else [])
    + (if targets.Some? then TargetIssues(direction, mid, targets.value) else [])
    + (if targets.Some? && stop.Some? then RiskIssues(mid, stop.value, targets.value.a, minRr) else [])
  }

  function Total(weights: seq<real>): real {
    if weights == [] then 0.0 else Total(weights[..|weights| - 1]) + weights[|weights| - 1]
  }

  function Largest(weights: seq<real>): real
    requires weights != []
  {
    if |weights| == 1 then weights[0] else Max(Largest(weights[..|weights| - 1]), weights[|weights| - 1])
  }

  function WeightIssues(weights: seq<real>): seq<Issue> {
    if |weights| < 2 then [Issue(WeightsField, LessThanTwoEntryAllocations)]
    else if exists w :: w in weights && w <= 0.0 then [Issue(WeightsField, NonPositiveOrNonFinite)]
    else
      When(Largest(weights) <= 1.0 && Total(weights) > 1.000001, WeightsField, FractionSumAboveOne)
      + When(Largest(weights) > 1.0 && Total(weights) > 100.000001, WeightsField, PercentSumAbove100)
  }

  function ExpiryIssues(validUntil: Option<int>, now: int): seq<Issue> {
    if validUntil == None then [Issue(ExpiryField, MissingOrNotDatetime)]
    else When(validUntil.value <= now, ExpiryField, Expired)
  }

  function TargetsOf(s: Signal): Option<Triple> {
    if Positive(s.tp1).Some? && Positive(s.tp2).Some? && Positive(s.tp3).Some?
    then Some(Triple(s.tp1.value, s.tp2.value, s.tp3.value)) else None
  }

  function Issues(s: Signal, now: int, minRr: real): seq<Issue> {
    var direction := if s.direction.Some? then s.direction.value else Long;
    When(s.direction == None, SideField, Invalid)
    + MissingIssues(RequiredFields(s))
    + (if Positive(s.entryLow).Some? && Positive(s.entryHigh).Some?
       then ZoneIssues(direction, s.entryLow.value, s.entryHigh.value, Positive(s.stopLoss), TargetsOf(s), minRr)
       else [])
    + WeightIssues(s.scaleWeights)
    + ExpiryIssues(s.validUntil, now)
  }

  method ValidateSignalContract(s: Signal, now: int, minRr: real) returns (issues: seq<Issue>)
    ensures issues == Issues(s, now, minRr)
  {
    hide ZoneIssues, WeightIssues, ExpiryIssues, MissingIssues, RequiredFields, Positive;
    issues := [];
    var direction := Long;
    if s.direction == None {
      issues := issues + [Issue(SideField, Invalid)];
    } else {
      direction := s.direction.value;
    }
    var missing := CheckRequired(RequiredFields(s));
    issues := issues + missing;
    var low, high, stop := Positive(s.entryLow), Positive(s.entryHigh), Positive(s.stopLoss);
    if low.Some? && high.Some? {
      PositiveKeeps(s.entryLow);
      PositiveKeeps(s.entryHigh);
      var zone := CheckZone(direction, low.value, high.value, stop, TargetsOf(s), minRr);
      issues := issues + zone;
    }
    issues := issues + WeightIssues(s.scaleWeights);
    issues := issues + ExpiryIssues(s.validUntil, now);
  }

  method CheckRequired(required: seq<(Field, Option<real>)>) returns (issues: seq<Issue>)
    ensures issues == MissingIssues(required)
  {
    issues := [];
    for i := 0 to |required|
      invariant issues == MissingIssues(required[..i])
    {
      assert required[..i + 1][..i] == required[..i];
      if Positive(required[i].1) == None {
        issues := issues + [Issue(required[i].0, MissingOrNonPositive)];
      }
    }
    assert required[..|required|] == required;
  }

  method CheckZone(direction: Direction, low: real, high: real, stop: Option<real>, targets: Option<Triple>, minRr: real)
    returns (issues: seq<Issue>)
    ensures issues == ZoneIssues(direction, low, high, stop, targets, minRr)
  {
    hide StopIssues, TargetIssues, RiskIssues;
    issues := [];
    if low >= high {
      issues := issues + [Issue(ZoneField, NotARange)];
    }
    var mid := (low + high) / 2.0;
    if stop.Some? {
      issues := issues + StopIssues(direction, low, high, stop.value);
    }
    if targets.Some? {
      issues := issues + TargetIssues(direction, mid, targets.value);
      if stop.Some? {
        issues := issues + RiskIssues(mid, stop.value, targets.value.a, minRr);
      }
    }
  }

  lemma PositiveKeeps(v: Option<real>)
    ensures Positive(v).Some? ==> Positive(v) == v
  {
  }

  // ----- the builder's plans before the validator

  function AsSignal(p: TradePlan): Signal {
    Signal(Some(p.direction), Some(p.entryLow), Some(p.entryHigh), Some(p.stopLoss),
      Some(p.targets.a), Some(p.targets.b), Some(p.targets.c),
      [p.scaleWeights.a, p.scaleWeights.b, p.scaleWeights.c], Some(p.validUntil))
  }

  /** The price a short would need to reach the minimum reward lies below the price floor. */
  predicate FloorTooClose(mid: real, stop: real, minRr: real) {
    mid - PriceFloor(mid) < (minRr - RISK_REWARD_EPSILON) * (stop - mid)
  }

  predicate HasZeroWeight(w: Triple) {
    w.a <= 0.0 || w.b <= 0.0 || w.c <= 0.0
  }

  /**
   * With an ascending ladder that starts at the minimum or above, these are
   * all the objections a plan of the builder can meet, and when it meets them.
   */
  lemma PlanIssues(q: PlanRequest, p: TradePlan, now: int, minRr: real)
    requires BuildTradePlan(q) == Some(p)
    requires q.targetRr.a > 0.0 && Ascending(q.targetRr) && minRr <= q.targetRr.a
    ensures Issues(AsSignal(p), now, minRr) ==
      When(p.stopLoss <= 0.0, StopField, MissingOrNonPositive)
      + When(p.direction == Short && FloorTooClose(EntryMid(q), p.stopLoss, minRr), RewardField, Tp1RrBelowMinimum)
      + When(HasZeroWeight(p.scaleWeights), WeightsField, NonPositiveOrNonFinite)
      + When(p.validUntil <= now, ExpiryField, Expired)
  {
    hide EntryMid, FloorTooClose, WeightIssues, ExpiryIssues, HasZeroWeight, IsOrdered, BuildTradePlan, ZoneIssues, MissingIssues, When;
    PlanIsFromAcceptable(q);
    PlanGeometry(q);
    PlanTargets(q, p);
    WeightsVerdict(q.scaleWeights, p, q);
    PlanMissing(p);
    ZoneVerdict(q, p, minRr);
    assert Issues(AsSignal(p), now, minRr)
      == When(false, SideField, Invalid)
      + MissingIssues(RequiredFields(AsSignal(p)))
      + ZoneIssues(p.direction, p.entryLow, p.entryHigh, Positive(Some(p.stopLoss)), Some(p.targets), minRr)
      + WeightIssues(AsSignal(p).scaleWeights)
      + ExpiryIssues(Some(p.validUntil), now);
    NothingWhenFalse(SideField, Invalid);
    ExpiryOf(p.validUntil, now);
  }

  lemma NothingWhenFalse(field: Field, reason: Reason)
    ensures When(false, field, reason) == []
  {
  }

  lemma ExpiryOf(validUntil: int, now: int)
    ensures ExpiryIssues(Some(validUntil), now) == When(validUntil <= now, ExpiryField, Expired)
  {
  }

  /** Between zone, stop and targets of a plan, only the reward can be found wanting. */
  lemma ZoneVerdict(q: PlanRequest, p: TradePlan, minRr: real)
    requires BuildTradePlan(q) == Some(p) && Acceptable(q)
    requires q.targetRr.a > 0.0 && Ascending(q.targetRr) && minRr <= q.targetRr.a
    ensures ZoneIssues(p.direction, p.entryLow, p.entryHigh, Positive(Some(p.stopLoss)), Some(p.targets), minRr)
      == When(p.direction == Short && FloorTooClose(EntryMid(q), p.stopLoss, minRr), RewardField, Tp1RrBelowMinimum)
  {
    hide BuildTradePlan, EntryLow, EntryHigh, EntryMid, ClampedStop, FloorTooClose, RiskIssues;
    PlanGeometry(q);
    PlanTargets(q, p);
    MidOfPlan(q, p);
    if p.stopLoss > 0.0 {
      RiskVerdict(q, p, minRr);
    }
  }

  lemma PlanIsFromAcceptable(q: PlanRequest)
    ensures BuildTradePlan(q).Some? ==> Acceptable(q)
  {
    hide NormalizeTargets;
  }

  lemma MidOfPlan(q: PlanRequest, p: TradePlan)
    requires BuildTradePlan(q) == Some(p) && Acceptable(q)
    ensures (p.entryLow + p.entryHigh) / 2.0 == EntryMid(q)
  {
    hide BuildTradePlan, EntryLow, EntryHigh;
    PlanGeometry(q);
  }

  lemma PlanMissing(p: TradePlan)
    requires p.entryLow > 0.0 && p.entryHigh > 0.0 && p.targets.a > 0.0 && p.targets.b > 0.0 && p.targets.c > 0.0
    ensures MissingIssues(RequiredFields(AsSignal(p))) == When(p.stopLoss <= 0.0, StopField, MissingOrNonPositive)
  {
    var a, b, c, d, e, f := (EntryLowField, Some(p.entryLow)), (EntryHighField, Some(p.entryHigh)),
      (StopField, Some(p.stopLoss)), (Tp1Field, Some(p.targets.a)), (Tp2Field, Some(p.targets.b)), (Tp3Field, Some(p.targets.c));
    hide MissingIssues;
    NothingMissing();
    MissingOneMore([], a);
    MissingOneMore([a], b);
    MissingOneMore([a, b], c);
    MissingOneMore([a, b, c], d);
    MissingOneMore([a, b, c, d], e);
    MissingOneMore([a, b, c, d, e], f);
    assert [] + [a] == [a] && [a] + [b] == [a, b] && [a, b] + [c] == [a, b, c] && [a, b, c] + [d] == [a, b, c, d];
    assert [a, b, c, d] + [e] == [a, b, c, d, e] && [a, b, c, d, e] + [f] == [a, b, c, d, e, f];
  }

  lemma NothingMissing()
    ensures MissingIssues([]) == []
  {
  }

  lemma MissingOneMore(fields: seq<(Field, Option<real>)>, x: (Field, Option<real>))
    ensures MissingIssues(fields + [x])
      == MissingIssues(fields) + When(Positive(x.1) == None, x.0, MissingOrNonPositive)
  {
    assert (fields + [x])[..|fields|] == fields;
  }

  /** The prices of a plan: in order, positive, and beyond the first rung unless the floor is in the way. */
  lemma PlanTargets(q: PlanRequest, p: TradePlan)
    requires BuildTradePlan(q) == Some(p) && Acceptable(q)
    requires q.targetRr.a > 0.0 && Ascending(q.targetRr)
    ensures IsOrdered(p.direction, EntryMid(q), p.targets)
    ensures p.targets.a > 0.0 && p.targets.b > 0.0 && p.targets.c > 0.0
    ensures p.direction == Long ==> p.targets.a - EntryMid(q) >= (EntryMid(q) - p.stopLoss) * q.targetRr.a
    ensures p.direction == Short ==> p.targets.a >= PriceFloor(EntryMid(q))
    ensures p.direction == Short && p.targets.a > PriceFloor(EntryMid(q)) ==>
      EntryMid(q) - p.targets.a >= (p.stopLoss - EntryMid(q)) * q.targetRr.a
  {
    hide EntryLow, EntryHigh, EntryMid, ClampedStop, Chosen, Rungs, RawTargets, BuildTradePlan;
    PlanGeometry(q);
    ZoneGeometry(q);
    PlanChosen(q, p);
    var mid, risk := EntryMid(q), Abs(EntryMid(q) - p.stopLoss);
    var rungs := Rungs(p.direction, mid, risk, q.targetRr);
    ChosenReward(p.direction, mid, risk, q.targetRr, RawTargets(rungs, q.tp1, q.tp2, q.tp3), rungs);
  }

  lemma ClassifiedKeeps(mid: real, raw: Triple, t: Triple)
    ensures Classified(mid, raw, t).prices == t
  {
  }

  lemma ChosenReward(direction: Direction, mid: real, risk: real, rr: Triple, raw: Triple, rungs: Triple)
    requires mid > 0.00000001 && risk > 0.0 && rr.a > 0.0 && Ascending(rr) && rungs == Rungs(direction, mid, risk, rr)
    ensures var t := Chosen(direction, mid, raw, rungs);
      && IsOrdered(direction, mid, t) && t.a > 0.0 && t.b > 0.0 && t.c > 0.0
      && (direction == Long ==> t.a - mid >= risk * rr.a)
      && (direction == Short ==> t.a >= PriceFloor(mid) && (t.a > PriceFloor(mid) ==> mid - t.a >= risk * rr.a))
  {
    hide Sorted, Rungs, Max, Min;
    RungsOrder(direction, mid, risk, rr);
    FirstRung(direction, mid, risk, rr);
    if direction == Long {
      LongFirst(mid, raw, rungs);
    } else {
      FloorIsLow(mid);
      ShortFirst(mid, raw, rungs);
    }
  }

  lemma FirstRung(direction: Direction, mid: real, risk: real, rr: Triple)
    ensures Rungs(direction, mid, risk, rr).a == if direction == Long then mid + risk * rr.a else mid - risk * rr.a
  {
  }

  lemma LongFirst(mid: real, raw: Triple, rungs: Triple)
    requires mid > 0.0 && IsOrdered(Long, mid, rungs)
    ensures var t := Chosen(Long, mid, raw, rungs);
      IsOrdered(Long, mid, t) && t.a >= rungs.a
  {
    LongIsOrderedIff(mid, raw, rungs);
  }

  lemma ShortFirst(mid: real, raw: Triple, rungs: Triple)
    requires 0.0 < PriceFloor(mid) < mid && IsOrdered(Short, mid, rungs)
    ensures var t := Chosen(Short, mid, raw, rungs);
      && IsOrdered(Short, mid, t) && t.a >= t.b >= t.c >= PriceFloor(mid)
      && (t.a > PriceFloor(mid) ==> t.a <= rungs.a)
  {
    ShortIsAlwaysOrdered(mid, raw, rungs);
    ShortTwice(PriceFloor(mid), raw, rungs);
  }

  /** The reward test on a plan: never fails a long, fails a short exactly when the floor is too close. */
  lemma RiskVerdict(q: PlanRequest, p: TradePlan, minRr: real)
    requires BuildTradePlan(q) == Some(p) && Acceptable(q) && p.stopLoss > 0.0
    requires q.targetRr.a > 0.0 && Ascending(q.targetRr) && minRr <= q.targetRr.a
    ensures RiskIssues(EntryMid(q), p.stopLoss, p.targets.a, minRr)
      == When(p.direction == Short && FloorTooClose(EntryMid(q), p.stopLoss, minRr), RewardField, Tp1RrBelowMinimum)
  {
    hide BuildTradePlan, EntryLow, EntryHigh, EntryMid, ClampedStop, PriceFloor, RiskReward;
    PlanGeometry(q);
    PlanTargets(q, p);
    var mid := EntryMid(q);
    var risk, reward := Abs(mid - p.stopLoss), Abs(p.targets.a - mid);
    RatioBelow(p.targets.a, mid, risk, reward, minRr);
    RewardAgainst(risk, reward, q.targetRr.a, minRr, mid - PriceFloor(mid), p.direction == Short);
  }

  lemma RatioBelow(target: real, mid: real, risk: real, reward: real, minRr: real)
    requires risk > 0.0 && reward == Abs(target - mid)
    ensures RiskReward(target, mid, risk) + RISK_REWARD_EPSILON < minRr <==>
      reward < (minRr - RISK_REWARD_EPSILON) * risk
  {
    var x, m := RiskReward(target, mid, risk), minRr - RISK_REWARD_EPSILON;
    assert x * risk == reward;
    assert x < m ==> (m - x) * risk > 0.0;
    assert x >= m ==> (x - m) * risk >= 0.0;
  }

  lemma RewardAgainst(risk: real, reward: real, rr: real, minRr: real, room: real, floored: bool)
    requires risk > 0.0 && minRr <= rr
    requires if floored then reward <= room && (reward < room ==> reward >= risk * rr) else reward >= risk * rr
    ensures reward < (minRr - RISK_REWARD_EPSILON) * risk <==>
      floored && room < (minRr - RISK_REWARD_EPSILON) * risk
  {
    var m := minRr - RISK_REWARD_EPSILON;
    assert (rr - m) * risk > 0.0;
    assert risk * rr > m * risk;
  }

  lemma WeightsVerdict(weights: Option<seq<real>>, p: TradePlan, q: PlanRequest)
    requires BuildTradePlan(q) == Some(p) && weights == q.scaleWeights
    ensures WeightIssues(AsSignal(p).scaleWeights)
      == When(HasZeroWeight(p.scaleWeights), WeightsField, NonPositiveOrNonFinite)
  {
    assert p.scaleWeights == NormalizeScaleWeights(weights) by { hide NormalizeTargets, NormalizeScaleWeights; }
    WeightsAddUpToOne(weights);
    UnitWeights(p.scaleWeights);
  }

  lemma UnitWeights(w: Triple)
    requires Sum(w) == 1.0 && w.a >= 0.0 && w.b >= 0.0 && w.c >= 0.0
    ensures WeightIssues([w.a, w.b, w.c]) == When(HasZeroWeight(w), WeightsField, NonPositiveOrNonFinite)
  {
    var s := [w.a, w.b, w.c];
    assert w.a in s && w.b in s && w.c in s;
    var one, two := [w.a], [w.a, w.b];
    assert s[..2] == two && two[..1] == one && one[..0] == [];
    assert Total(one) == w.a;
    assert Total(two) == w.a + w.b;
    assert Largest(two) == Max(w.a, w.b);
  }

  // ----- consequences

  /** The plan of a request passes exactly when the request meets four conditions; default weights meet theirs. */
  lemma PlanPassesIff(q: PlanRequest, p: TradePlan, now: int, minRr: real)
    requires BuildTradePlan(q) == Some(p)
    requires q.targetRr.a > 0.0 && Ascending(q.targetRr) && minRr <= q.targetRr.a
    ensures Issues(AsSignal(p), now, minRr) == [] <==>
      && !(q.direction == Some(Long) && q.stopLoss >= EntryLow(q) && EntryLow(q) <= StopClearance(q))
      && !(q.direction == Some(Short) && FloorTooClose(EntryMid(q), ClampedStop(q, Short), minRr))
      && !LeavesZeroShare(q.scaleWeights)
      && now < q.createdAt + q.timeframeMinutes * Clamp96(PlanTtl(q))
    ensures q.scaleWeights == None ==> !HasZeroWeight(p.scaleWeights)
  {
    hide Issues, FloorTooClose, EntryLow, EntryMid, StopClearance, ClampedStop, LeavesZeroShare, NormalizeTargets,
      NormalizeScaleWeights, Ascending, Clamp96, PlanTtl;
    PlanIsFromAcceptable(q);
    PlanIssues(q, p, now, minRr);
    PlanGeometry(q);
    StopIsPositiveUnless(q);
    ZeroShareIff(q.scaleWeights);
    DefaultIsShared(q.scaleWeights);
    assert p.validUntil == q.createdAt + q.timeframeMinutes * Clamp96(PlanTtl(q));
  }

  lemma DefaultIsShared(weights: Option<seq<real>>)
    ensures weights == None ==> !LeavesZeroShare(weights)
  {
  }

  /** A short whose first rung stays above the price floor is never rejected for its reward. */
  lemma RungAboveFloorIsEnough(mid: real, stop: real, rr: real, minRr: real)
    requires stop > mid && minRr <= rr && mid - (stop - mid) * rr >= PriceFloor(mid)
    ensures !FloorTooClose(mid, stop, minRr)
  {
    hide PriceFloor;
    assert (rr - (minRr - RISK_REWARD_EPSILON)) * (stop - mid) > 0.0;
  }

  /** Targets are ordered under any positive ladder for shorts; for longs the ladder, or the moved inputs, must be. */
  lemma PlanOrderIff(q: PlanRequest, p: TradePlan)
    requires BuildTradePlan(q) == Some(p)
    requires q.targetRr.a > 0.0 && q.targetRr.b > 0.0 && q.targetRr.c > 0.0
    ensures var rungs := Rungs(p.direction, EntryMid(q), Abs(EntryMid(q) - p.stopLoss), q.targetRr);
      IsOrdered(p.direction, EntryMid(q), p.targets) <==>
        || p.direction == Short
        || Ascending(q.targetRr)
        || IsOrdered(Long, EntryMid(q), Above(Sorted(RawTargets(rungs, q.tp1, q.tp2, q.tp3)), rungs))
  {
    hide EntryLow, EntryHigh, EntryMid, Chosen, Rungs, RawTargets, IsOrdered, PriceFloor, Sorted, BuildTradePlan;
    PlanIsFromAcceptable(q);
    PlanGeometry(q);
    ZoneGeometry(q);
    var mid, risk := EntryMid(q), Abs(EntryMid(q) - p.stopLoss);
    var rungs := Rungs(p.direction, mid, risk, q.targetRr);
    var raw := RawTargets(rungs, q.tp1, q.tp2, q.tp3);
    PlanChosen(q, p);
    RungsOrder(p.direction, mid, risk, q.targetRr);
    if p.direction == Long {
      LongIsOrderedIff(mid, raw, rungs);
    } else {
      FloorIsLow(mid);
      ShortIsAlwaysOrdered(mid, raw, rungs);
    }
  }

  /** The targets of a plan are those chosen against the plan's own stop. */
  lemma PlanChosen(q: PlanRequest, p: TradePlan)
    requires BuildTradePlan(q) == Some(p)
    ensures var rungs := Rungs(p.direction, EntryMid(q), Abs(EntryMid(q) - p.stopLoss), q.targetRr);
      p.targets == Chosen(p.direction, EntryMid(q), RawTargets(rungs, q.tp1, q.tp2, q.tp3), rungs)
  {
    hide EntryLow, EntryHigh, EntryMid, ClampedStop, RiskReward, NormalizeScaleWeights, Chosen, Rungs, RawTargets, Classified,
      Abs, ValidUntilFrom, PlanTtl, Clamp96;
    var mid, risk := EntryMid(q), Abs(EntryMid(q) - p.stopLoss);
    var rungs := Rungs(p.direction, mid, risk, q.targetRr);
    var raw := RawTargets(rungs, q.tp1, q.tp2, q.tp3);
    ClassifiedKeeps(mid, raw, Chosen(p.direction, mid, raw, rungs));
  }

  const NO_TABLES := TtlTables(None, None, None)
  const VOLATILE_LONG := PlanRequest(Some(Long), NO_TABLES, 15, 100.0, 1000.0, 50.0,
    None, None, None, 0.35, 0, None, None, DEFAULT_TARGET_RR)
  const WIDE_SHORT := PlanRequest(Some(Short), NO_TABLES, 15, 100.0, 10.0, 300.0,
    None, None, None, 0.35, 0, None, None, DEFAULT_TARGET_RR)

  /** A volatile long: the clamp pushes the stop below zero and the validator sees no stop. */
  lemma RejectedLong()
    ensures var plan := BuildTradePlan(VOLATILE_LONG);
      plan.Some? && Issues(AsSignal(plan.value), 0, 1.9) == [Issue(StopField, MissingOrNonPositive)]
  {
    hide BuildTradePlan, Issues;
    VolatileLongZone();
    hide VOLATILE_LONG, EntryLow, StopClearance, Acceptable, PlanTtl, FloorTooClose, HasZeroWeight;
    ExamplePlan(VOLATILE_LONG);
    PlanGeometry(VOLATILE_LONG);
    StopIsPositiveUnless(VOLATILE_LONG);
  }

  lemma VolatileLongZone()
    ensures var q := VOLATILE_LONG;
      && q.direction == Some(Long) && q.stopLoss == 50.0 && q.createdAt == 0 && q.timeframeMinutes == 15
      && q.scaleWeights == None && q.targetRr == DEFAULT_TARGET_RR
      && Acceptable(q) && EntryLow(q) == 0.000001 && StopClearance(q) == 20.0
  {
  }

  /** A short stopped three times above its entry: the price floor caps the reward below the minimum. */
  lemma RejectedShort()
    ensures var plan := BuildTradePlan(WIDE_SHORT);
      plan.Some? && Issues(AsSignal(plan.value), 0, 1.9) == [Issue(RewardField, Tp1RrBelowMinimum)]
  {
    hide BuildTradePlan, Issues;
    WideShortZone();
    hide WIDE_SHORT, EntryHigh, EntryMid, ClampedStop, Acceptable, PlanTtl, FloorTooClose, HasZeroWeight;
    ExamplePlan(WIDE_SHORT);
    PlanGeometry(WIDE_SHORT);
    StopIsPositiveUnless(WIDE_SHORT);
  }

  lemma WideShortZone()
    ensures var q := WIDE_SHORT;
      && q.direction == Some(Short) && q.createdAt == 0 && q.timeframeMinutes == 15
      && q.scaleWeights == None && q.targetRr == DEFAULT_TARGET_RR
      && Acceptable(q) && EntryMid(q) == 100.0 && ClampedStop(q, Short) == 300.0
      && FloorTooClose(100.0, 300.0, 1.9)
  {
    var q := WIDE_SHORT;
    assert EntryLow(q) == 96.5 && EntryHigh(q) == 103.5;
    assert PriceFloor(100.0) == 2.0;
  }

  /** What the two examples share: default weights and an expiry after time 0. */
  lemma ExamplePlan(q: PlanRequest)
    requires Acceptable(q) && q.targetRr == DEFAULT_TARGET_RR && q.scaleWeights == None
    requires q.createdAt == 0 && q.timeframeMinutes == 15
    ensures BuildTradePlan(q).Some?
    ensures var p := BuildTradePlan(q).value;
      Issues(AsSignal(p), 0, 1.9) ==
        When(p.stopLoss <= 0.0, StopField, MissingOrNonPositive)
        + When(p.direction == Short && FloorTooClose(EntryMid(q), p.stopLoss, 1.9), RewardField, Tp1RrBelowMinimum)
  {
    hide BuildTradePlan, Issues, EntryMid, FloorTooClose, HasZeroWeight, Acceptable, PlanTtl;
    PlanGeometry(q);
    PlanExpiry(q);
    var p := BuildTradePlan(q).value;
    PlanIssues(q, p, 0, 1.9);
    PlanPassesIff(q, p, 0, 1.9);
  }
}
