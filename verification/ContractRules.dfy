/** What `validate_signal_contract` (engine/contract.py) objects to, as one list of rules over the fields of any signal. */
module ContractRules {
  import opened Prelude
  import opened Targets
  import opened TradePlans
  import opened SignalContract

  /** An objection, and whether the signal gives cause for it. */
  datatype Rule = Rule(issue: Issue, broken: bool)

  // ----- the rules, in the order in which they are checked

  predicate Given(v: Option<real>) {
    v.Some? && v.value > 0.0
  }

  function Value(v: Option<real>): real {
    if v.Some? then v.value else 0.0
  }

  predicate HasZone(s: Signal) {
    Given(s.entryLow) && Given(s.entryHigh)
  }

  predicate HasStop(s: Signal) {
    HasZone(s) && Given(s.stopLoss)
  }

  predicate HasTargets(s: Signal) {
    HasZone(s) && Given(s.tp1) && Given(s.tp2) && Given(s.tp3)
  }

  /** A signal of unknown side is checked as a long one. */
  predicate IsShort(s: Signal) {
    s.direction == Some(Short)
  }

  /** Twice the middle of the zone. */
  function Edges(s: Signal): real {
    Value(s.entryLow) + Value(s.entryHigh)
  }

  function SideRules(s: Signal): seq<Rule> {
    [Rule(Issue(SideField, Invalid), s.direction == None)]
  }

  function MissingRules(s: Signal): seq<Rule> {
    [Rule(Issue(EntryLowField, MissingOrNonPositive), !Given(s.entryLow)),
     Rule(Issue(EntryHighField, MissingOrNonPositive), !Given(s.entryHigh)),
     Rule(Issue(StopField, MissingOrNonPositive), !Given(s.stopLoss)),
     Rule(Issue(Tp1Field, MissingOrNonPositive), !Given(s.tp1)),
     Rule(Issue(Tp2Field, MissingOrNonPositive), !Given(s.tp2)),
     Rule(Issue(Tp3Field, MissingOrNonPositive), !Given(s.tp3))]
  }

  function ZoneRules(s: Signal): seq<Rule> {
    [Rule(Issue(ZoneField, NotARange), HasZone(s) && Value(s.entryLow) >= Value(s.entryHigh))]
  }

  function StopRules(s: Signal): seq<Rule> {
    var stop := Value(s.stopLoss);
    [Rule(Issue(StopField, LongStopNotBelowEntryLow), HasStop(s) && !IsShort(s) && stop >= Value(s.entryLow)),
     Rule(Issue(StopField, ShortStopNotAboveEntryHigh), HasStop(s) && IsShort(s) && stop <= Value(s.entryHigh)),
     Rule(Issue(StopField, LongStopNotBelowEntry), HasStop(s) && !IsShort(s) && 2.0 * stop >= Edges(s)),
     Rule(Issue(StopField, ShortStopNotAboveEntry), HasStop(s) && IsShort(s) && 2.0 * stop <= Edges(s))]
  }

  function TargetRules(s: Signal): seq<Rule> {
    var a, b, c := Value(s.tp1), Value(s.tp2), Value(s.tp3);
    [Rule(Issue(TargetsField, LongTargetsNotOrdered),
       HasTargets(s) && !IsShort(s) && (2.0 * a <= Edges(s) || b < a || c < b)),
     Rule(Issue(TargetsField, ShortTargetsNotOrdered),
       HasTargets(s) && IsShort(s) && (2.0 * a >= Edges(s) || b > a || c > b))]
  }

  /** The first target's reward is short of the minimum, in units of the risk, by more than a billionth. */
  predicate RewardTooSmall(s: Signal, minRr: real) {
    Abs(2.0 * Value(s.tp1) - Edges(s)) < (minRr - 0.000000001) * Abs(2.0 * Value(s.stopLoss) - Edges(s))
  }

  function RewardRules(s: Signal, minRr: real): seq<Rule> {
    var risky := 2.0 * Value(s.stopLoss) != Edges(s);
    [Rule(Issue(RewardField, ZeroOrNegativeRisk), HasStop(s) && HasTargets(s) && !risky),
     Rule(Issue(RewardField, Tp1RrBelowMinimum), HasStop(s) && HasTargets(s) && risky && RewardTooSmall(s, minRr))]
  }

  function SumOf(weights: seq<real>): real {
    if weights == [] then 0.0 else weights[0] + SumOf(weights[1..])
  }

  ghost predicate AllPositive(weights: seq<real>) {
    forall i :: 0 <= i < |weights| ==> weights[i] > 0.0
  }

  /** Weights up to 1 are fractions, others percentages. */
  ghost predicate AreFractions(weights: seq<real>) {
    forall i :: 0 <= i < |weights| ==> weights[i] <= 1.0
  }

  ghost function WeightRules(s: Signal): seq<Rule> {
    var w := s.scaleWeights;
    [Rule(Issue(WeightsField, LessThanTwoEntryAllocations), |w| < 2),
     Rule(Issue(WeightsField, NonPositiveOrNonFinite), |w| >= 2 && !AllPositive(w)),
     Rule(Issue(WeightsField, FractionSumAboveOne), |w| >= 2 && AllPositive(w) && AreFractions(w) && SumOf(w) > 1.000001),
     Rule(Issue(WeightsField, PercentSumAbove100), |w| >= 2 && AllPositive(w) && !AreFractions(w) && SumOf(w) > 100.000001)]
  }

  function ExpiryRules(s: Signal, now: int): seq<Rule> {
    [Rule(Issue(ExpiryField, MissingOrNotDatetime), s.validUntil == None),
     Rule(Issue(ExpiryField, Expired), s.validUntil.Some? && s.validUntil.value <= now)]
  }

  ghost function Rules(s: Signal, now: int, minRr: real): seq<Rule> {
    SideRules(s) + MissingRules(s) + ZoneRules(s) + StopRules(s) + TargetRules(s) + RewardRules(s, minRr)
    + WeightRules(s) + ExpiryRules(s, now)
  }

  function Broken(rules: seq<Rule>): seq<Issue> {
    if rules == [] then []
    else (if rules[0].broken then [rules[0].issue] else []) + Broken(rules[1..])
  }

  // ----- the validator follows the rules

  lemma {:induction false} BrokenConcat(a: seq<Rule>, b: seq<Rule>)
    ensures Broken(a + b) == Broken(a) + Broken(b)
  {
    if a == [] {
      assert a + b == b;
    } else {
      BrokenConcat(a[1..], b);
      BrokenHead(a);
      BrokenHead(a + b);
      assert (a + b)[1..] == a[1..] + b && (a + b)[0] == a[0];
      hide Broken, When;
      Regrouped(When(a[0].broken, a[0].issue.field, a[0].issue.reason), Broken(a[1..]), Broken(b));
    }
  }

  lemma BrokenHead(rules: seq<Rule>)
    requires rules != []
    ensures Broken(rules) == When(rules[0].broken, rules[0].issue.field, rules[0].issue.reason) + Broken(rules[1..])
  {
  }

  lemma Regrouped(x: seq<Issue>, y: seq<Issue>, z: seq<Issue>)
    ensures (x + y) + z == x + (y + z)
  {
  }

  lemma BrokenOne(r: Rule)
    ensures Broken([r]) == When(r.broken, r.issue.field, r.issue.reason)
  {
    assert [r][1..] == [];
    assert Broken([]) == [];
  }

  lemma BrokenTwo(a: Rule, b: Rule)
    ensures Broken([a, b]) == When(a.broken, a.issue.field, a.issue.reason) + When(b.broken, b.issue.field, b.issue.reason)
  {
    assert [a, b] == [a] + [b];
    BrokenConcat([a], [b]);
    BrokenOne(a);
    BrokenOne(b);
  }

  lemma MissingFollow(s: Signal)
    ensures MissingIssues(RequiredFields(s)) == Broken(MissingRules(s))
  {
    hide MissingIssues, Broken, When;
    var f, r := RequiredFields(s), MissingRules(s);
    NothingMissing();
    assert f[..0] == [] && r[..0] == [] && f[..6] == f && r[..6] == r;
    assert Broken(r[..0]) == [] by { BrokenNothing(); }
    MissingFollowsNext(f, r, 0);
    MissingFollowsNext(f, r, 1);
    MissingFollowsNext(f, r, 2);
    MissingFollowsNext(f, r, 3);
    MissingFollowsNext(f, r, 4);
    MissingFollowsNext(f, r, 5);
  }

  lemma BrokenNothing()
    ensures Broken([]) == []
  {
  }

  lemma MissingFollowsNext(fields: seq<(Field, Option<real>)>, rules: seq<Rule>, k: nat)
    requires k < |fields| == |rules|
    requires rules[k] == Rule(Issue(fields[k].0, MissingOrNonPositive), !Given(fields[k].1))
    requires MissingIssues(fields[..k]) == Broken(rules[..k])
    ensures MissingIssues(fields[..k + 1]) == Broken(rules[..k + 1])
  {
    hide MissingIssues, Broken;
    assert fields[..k + 1] == fields[..k] + [fields[k]] && rules[..k + 1] == rules[..k] + [rules[k]];
    MissingOneMore(fields[..k], fields[k]);
    BrokenConcat(rules[..k], [rules[k]]);
    BrokenOne(rules[k]);
  }

  lemma StopsFollow(s: Signal)
    requires HasZone(s)
    ensures (if Positive(s.stopLoss).Some? then StopIssues(SideOf(s), s.entryLow.value, s.entryHigh.value, s.stopLoss.value) else [])
      == Broken(StopRules(s))
  {
    hide Broken;
    var r := StopRules(s);
    assert r == [r[0], r[1]] + [r[2], r[3]];
    BrokenConcat([r[0], r[1]], [r[2], r[3]]);
    BrokenTwo(r[0], r[1]);
    BrokenTwo(r[2], r[3]);
  }

  function SideOf(s: Signal): Direction {
    if s.direction.Some? then s.direction.value else Long
  }

  lemma TargetsFollow(s: Signal)
    requires HasZone(s)
    ensures (if TargetsOf(s).Some? then TargetIssues(SideOf(s), Edges(s) / 2.0, TargetsOf(s).value) else [])
      == Broken(TargetRules(s))
  {
    hide Broken;
    var r := TargetRules(s);
    BrokenTwo(r[0], r[1]);
  }

  lemma RewardFollows(s: Signal, minRr: real)
    requires HasZone(s)
    ensures (if TargetsOf(s).Some? && Positive(s.stopLoss).Some?
             then RiskIssues(Edges(s) / 2.0, s.stopLoss.value, TargetsOf(s).value.a, minRr) else [])
      == Broken(RewardRules(s, minRr))
  {
    hide Broken, RewardTooSmall, RiskReward;
    var r := RewardRules(s, minRr);
    BrokenTwo(r[0], r[1]);
    if TargetsOf(s).Some? && Positive(s.stopLoss).Some? && 2.0 * s.stopLoss.value != Edges(s) {
      var mid := Edges(s) / 2.0;
      RatioBelow(s.tp1.value, mid, Abs(mid - s.stopLoss.value), Abs(s.tp1.value - mid), minRr);
      DoubledReward(s, minRr, mid);
    }
  }

  lemma DoubledReward(s: Signal, minRr: real, mid: real)
    requires mid == Edges(s) / 2.0
    ensures RewardTooSmall(s, minRr) <==>
      Abs(Value(s.tp1) - mid) < (minRr - RISK_REWARD_EPSILON) * Abs(mid - Value(s.stopLoss))
  {
    var risk, m := Abs(mid - Value(s.stopLoss)), minRr - RISK_REWARD_EPSILON;
    assert Abs(2.0 * Value(s.stopLoss) - Edges(s)) == 2.0 * risk;
    assert Abs(2.0 * Value(s.tp1) - Edges(s)) == 2.0 * Abs(Value(s.tp1) - mid);
    assert m * (2.0 * risk) == 2.0 * (m * risk);
  }

  lemma ZoneFollows(s: Signal, minRr: real)
    ensures (if HasZone(s)
             then ZoneIssues(SideOf(s), s.entryLow.value, s.entryHigh.value, Positive(s.stopLoss), TargetsOf(s), minRr) else [])
      == Broken(ZoneRules(s)) + Broken(StopRules(s)) + Broken(TargetRules(s)) + Broken(RewardRules(s, minRr))
  {
    if HasZone(s) {
      ZoneInParts(s, minRr);
      hide HasZone, Broken, StopRules, TargetRules, RewardRules, ZoneIssues, StopIssues, TargetIssues, RiskIssues, TargetsOf, Positive,
        When, Edges, SideOf;
      BrokenOne(ZoneRules(s)[0]);
      StopsFollow(s);
      TargetsFollow(s);
      RewardFollows(s, minRr);
    } else {
      NoZoneNoRules(s, minRr);
    }
  }

  lemma ZoneInParts(s: Signal, minRr: real)
    requires HasZone(s)
    ensures ZoneIssues(SideOf(s), s.entryLow.value, s.entryHigh.value, Positive(s.stopLoss), TargetsOf(s), minRr) ==
      When(Value(s.entryLow) >= Value(s.entryHigh), ZoneField, NotARange)
      + (if Positive(s.stopLoss).Some? then StopIssues(SideOf(s), s.entryLow.value, s.entryHigh.value, s.stopLoss.value) else [])
      + (if TargetsOf(s).Some? then TargetIssues(SideOf(s), Edges(s) / 2.0, TargetsOf(s).value) else [])
      + (if TargetsOf(s).Some? && Positive(s.stopLoss).Some?
         then RiskIssues(Edges(s) / 2.0, s.stopLoss.value, TargetsOf(s).value.a, minRr) else [])
  {
    hide StopIssues, TargetIssues, RiskIssues, TargetsOf, When;
  }

  lemma NoZoneNoRules(s: Signal, minRr: real)
    requires !HasZone(s)
    ensures Broken(ZoneRules(s)) == Broken(StopRules(s)) == Broken(TargetRules(s)) == Broken(RewardRules(s, minRr)) == []
  {
    hide Broken;
    var z, r, t, w := ZoneRules(s), StopRules(s), TargetRules(s), RewardRules(s, minRr);
    assert r == [r[0], r[1]] + [r[2], r[3]];
    BrokenConcat([r[0], r[1]], [r[2], r[3]]);
    BrokenOne(z[0]);
    BrokenTwo(r[0], r[1]);
    BrokenTwo(r[2], r[3]);
    BrokenTwo(t[0], t[1]);
    BrokenTwo(w[0], w[1]);
  }

  lemma {:induction false} SumFromEitherEnd(weights: seq<real>)
    ensures Total(weights) == SumOf(weights)
    decreases |weights|
  {
    if weights == [] {
    } else {
      var init, last := weights[..|weights| - 1], weights[|weights| - 1];
      SumFromEitherEnd(init);
      assert weights == init + [last];
      SumOfSnoc(init, last);
    }
  }

  lemma {:induction false} SumOfSnoc(weights: seq<real>, x: real)
    ensures SumOf(weights + [x]) == SumOf(weights) + x
  {
    if weights == [] {
      assert (weights + [x])[1..] == [];
    } else {
      assert (weights + [x])[1..] == weights[1..] + [x];
      SumOfSnoc(weights[1..], x);
    }
  }

  lemma {:induction false} LargestUpToOne(weights: seq<real>)
    requires weights != []
    ensures Largest(weights) <= 1.0 <==> AreFractions(weights)
    decreases |weights|
  {
    if |weights| == 1 {
    } else {
      LargestUpToOne(weights[..|weights| - 1]);
    }
  }

  lemma WeightsFollow(s: Signal)
    ensures WeightIssues(s.scaleWeights) == Broken(WeightRules(s))
  {
    hide Broken, Total, SumOf, Largest;
    var w, r := s.scaleWeights, WeightRules(s);
    assert r == [r[0], r[1]] + [r[2], r[3]];
    BrokenConcat([r[0], r[1]], [r[2], r[3]]);
    BrokenTwo(r[0], r[1]);
    BrokenTwo(r[2], r[3]);
    SumFromEitherEnd(w);
    PositiveThroughout(w);
    if w != [] {
      LargestUpToOne(w);
    }
  }

  lemma PositiveThroughout(weights: seq<real>)
    ensures AllPositive(weights) <==> !exists w :: w in weights && w <= 0.0
  {
    if !AllPositive(weights) {
      var i :| 0 <= i < |weights| && weights[i] <= 0.0;
      assert weights[i] in weights;
    }
  }

  /** The validator reports exactly the broken rules, in their order, for every signal. */
  lemma IssuesAreBrokenRules(s: Signal, now: int, minRr: real)
    ensures Issues(s, now, minRr) == Broken(Rules(s, now, minRr))
  {
    hide Broken, MissingIssues, ZoneIssues, WeightIssues, ExpiryIssues, SideRules, MissingRules, ZoneRules, StopRules, TargetRules,
      RewardRules, WeightRules, ExpiryRules, When, RequiredFields, TargetsOf;
    BrokenEight(SideRules(s), MissingRules(s), ZoneRules(s), StopRules(s), TargetRules(s), RewardRules(s, minRr),
      WeightRules(s), ExpiryRules(s, now));
    SideFollows(s);
    MissingFollow(s);
    ZoneFollows(s, minRr);
    WeightsFollow(s);
    ExpiryFollows(s, now);
  }

  lemma BrokenEight(
    a: seq<Rule>, b: seq<Rule>, c: seq<Rule>, d: seq<Rule>, e: seq<Rule>, f: seq<Rule>, g: seq<Rule>, h: seq<Rule>)
    ensures Broken(a + b + c + d + e + f + g + h) ==
      Broken(a) + Broken(b) + (Broken(c) + Broken(d) + Broken(e) + Broken(f)) + Broken(g) + Broken(h)
  {
    hide Broken;
    BrokenConcat(a, b);
    BrokenConcat(a + b, c);
    BrokenConcat(a + b + c, d);
    BrokenConcat(a + b + c + d, e);
    BrokenConcat(a + b + c + d + e, f);
    BrokenConcat(a + b + c + d + e + f, g);
    BrokenConcat(a + b + c + d + e + f + g, h);
    Regroup(Broken(a) + Broken(b), Broken(c), Broken(d), Broken(e), Broken(f));
  }

  lemma Regroup(x: seq<Issue>, c: seq<Issue>, d: seq<Issue>, e: seq<Issue>, f: seq<Issue>)
    ensures x + c + d + e + f == x + (c + d + e + f)
  {
  }

  lemma SideFollows(s: Signal)
    ensures When(s.direction == None, SideField, Invalid) == Broken(SideRules(s))
  {
    hide Broken;
    BrokenOne(SideRules(s)[0]);
  }

  lemma ExpiryFollows(s: Signal, now: int)
    ensures ExpiryIssues(s.validUntil, now) == Broken(ExpiryRules(s, now))
  {
    hide Broken;
    var r := ExpiryRules(s, now);
    BrokenTwo(r[0], r[1]);
  }

  // ----- what that means for a signal and for a reason

  /** What the contract asks of a signal. */
  ghost predicate Conforms(s: Signal, now: int, minRr: real) {
    && s.direction.Some? && HasZone(s) && HasStop(s) && HasTargets(s)
    && s.entryLow.value < s.entryHigh.value
    && (s.direction == Some(Long) ==>
          s.stopLoss.value < s.entryLow.value && Edges(s) < 2.0 * s.tp1.value && s.tp1.value <= s.tp2.value <= s.tp3.value)
    && (s.direction == Some(Short) ==>
          s.stopLoss.value > s.entryHigh.value && Edges(s) > 2.0 * s.tp1.value && s.tp1.value >= s.tp2.value >= s.tp3.value)
    && !RewardTooSmall(s, minRr)
    && |s.scaleWeights| >= 2 && AllPositive(s.scaleWeights)
    && SumOf(s.scaleWeights) <= (if AreFractions(s.scaleWeights) then 1.000001 else 100.000001)
    && s.validUntil.Some? && now < s.validUntil.value
  }

  ghost predicate Unbroken(rules: seq<Rule>) {
    forall i :: 0 <= i < |rules| ==> !rules[i].broken
  }

  lemma {:induction false} NothingIffUnbroken(rules: seq<Rule>)
    ensures Broken(rules) == [] <==> Unbroken(rules)
  {
    if rules == [] {
    } else {
      NothingIffUnbroken(rules[1..]);
      assert Unbroken(rules) <==> !rules[0].broken && Unbroken(rules[1..]) by {
        assert forall i :: 0 <= i < |rules| - 1 ==> rules[1..][i] == rules[i + 1];
        assert forall i :: 1 <= i < |rules| ==> rules[i] == rules[1..][i - 1];
      }
    }
  }

  lemma UnbrokenConcat(a: seq<Rule>, b: seq<Rule>)
    ensures Unbroken(a + b) <==> Unbroken(a) && Unbroken(b)
  {
    hide Broken;
    NothingIffUnbroken(a);
    NothingIffUnbroken(b);
    NothingIffUnbroken(a + b);
    BrokenConcat(a, b);
  }

  /** A signal gets no objection exactly when it conforms. */
  lemma NoIssuesIff(s: Signal, now: int, minRr: real)
    ensures Issues(s, now, minRr) == [] <==> Conforms(s, now, minRr)
  {
    var a, b, c, d, e, f, g, h := SideRules(s), MissingRules(s), ZoneRules(s), StopRules(s), TargetRules(s),
      RewardRules(s, minRr), WeightRules(s), ExpiryRules(s, now);
    UnbrokenMeans(s, now, minRr);
    hide Issues, Broken, Unbroken, SideRules, MissingRules, ZoneRules, StopRules, TargetRules, RewardRules, WeightRules, ExpiryRules,
      Conforms;
    IssuesAreBrokenRules(s, now, minRr);
    NothingIffUnbroken(Rules(s, now, minRr));
    UnbrokenConcat(a, b);
    UnbrokenConcat(a + b, c);
    UnbrokenConcat(a + b + c, d);
    UnbrokenConcat(a + b + c + d, e);
    UnbrokenConcat(a + b + c + d + e, f);
    UnbrokenConcat(a + b + c + d + e + f, g);
    UnbrokenConcat(a + b + c + d + e + f + g, h);
  }

  lemma UnbrokenMeans(s: Signal, now: int, minRr: real)
    ensures Conforms(s, now, minRr) <==>
      && Unbroken(SideRules(s)) && Unbroken(MissingRules(s)) && Unbroken(ZoneRules(s)) && Unbroken(StopRules(s))
      && Unbroken(TargetRules(s)) && Unbroken(RewardRules(s, minRr)) && Unbroken(WeightRules(s)) && Unbroken(ExpiryRules(s, now))
  {
    hide RewardTooSmall, SumOf, AllPositive, AreFractions;
    UnbrokenBits(SideRules(s));
    UnbrokenBits(MissingRules(s));
    UnbrokenBits(ZoneRules(s));
    UnbrokenBits(StopRules(s));
    UnbrokenBits(TargetRules(s));
    UnbrokenBits(RewardRules(s, minRr));
    UnbrokenBits(WeightRules(s));
    UnbrokenBits(ExpiryRules(s, now));
    hide Unbroken;
    match s.direction
    case None => assert !Conforms(s, now, minRr) && SideRules(s)[0].broken;
    case Some(side) => assert side == Long || side == Short;
  }

  lemma UnbrokenBits(r: seq<Rule>)
    ensures |r| == 1 ==> (Unbroken(r) <==> !r[0].broken)
    ensures |r| == 2 ==> (Unbroken(r) <==> !r[0].broken && !r[1].broken)
    ensures |r| == 4 ==> (Unbroken(r) <==> !r[0].broken && !r[1].broken && !r[2].broken && !r[3].broken)
    ensures |r| == 6 ==> (Unbroken(r) <==>
      !r[0].broken && !r[1].broken && !r[2].broken && !r[3].broken && !r[4].broken && !r[5].broken)
  {
  }

  lemma {:induction false} BrokenIffMember(rules: seq<Rule>, issue: Issue)
    ensures issue in Broken(rules) <==> exists i :: 0 <= i < |rules| && rules[i] == Rule(issue, true)
  {
    if rules == [] {
    } else {
      BrokenIffMember(rules[1..], issue);
      if exists i :: 0 <= i < |rules| && rules[i] == Rule(issue, true) {
        var i :| 0 <= i < |rules| && rules[i] == Rule(issue, true);
        assert i > 0 ==> rules[1..][i - 1] == rules[i];
      }
      if issue in Broken(rules[1..]) {
        var i :| 0 <= i < |rules| - 1 && rules[1..][i] == Rule(issue, true);
        assert rules[i + 1] == Rule(issue, true);
      }
    }
  }

  /** The place of an objection among the rules. */
  function Place(issue: Issue): nat {
    match issue.reason
    case Invalid => 0
    case MissingOrNonPositive =>
      (match issue.field
       case EntryLowField => 1
       case EntryHighField => 2
       case StopField => 3
       case Tp1Field => 4
       case Tp2Field => 5
       case _ => 6)
    case NotARange => 7
    case LongStopNotBelowEntryLow => 8
    case ShortStopNotAboveEntryHigh => 9
    case LongStopNotBelowEntry => 10
    case ShortStopNotAboveEntry => 11
    case LongTargetsNotOrdered => 12
    case ShortTargetsNotOrdered => 13
    case ZeroOrNegativeRisk => 14
    case Tp1RrBelowMinimum => 15
    case LessThanTwoEntryAllocations => 16
    case NonPositiveOrNonFinite => 17
    case FractionSumAboveOne => 18
    case PercentSumAbove100 => 19
    case MissingOrNotDatetime => 20
    case Expired => 21
  }

  lemma RulesAreDistinct(s: Signal, now: int, minRr: real, k: nat)
    requires k < |Rules(s, now, minRr)|
    ensures |Rules(s, now, minRr)| == 22 && Place(Rules(s, now, minRr)[k].issue) == k
  {
    hide AllPositive, AreFractions, SumOf, RewardTooSmall, HasZone, HasStop, HasTargets, Given, IsShort;
    assert k in {0, 1, 2, 3, 4, 5, 6, 7, 8, 9, 10, 11, 12, 13, 14, 15, 16, 17, 18, 19, 20, 21};
  }

  /** Each objection is made exactly when its own rule is broken. */
  lemma ReportedIff(s: Signal, now: int, minRr: real, k: nat)
    requires k < |Rules(s, now, minRr)|
    ensures Rules(s, now, minRr)[k].issue in Issues(s, now, minRr) <==> Rules(s, now, minRr)[k].broken
  {
    hide Broken, Issues, Place, Rules;
    var rules := Rules(s, now, minRr);
    IssuesAreBrokenRules(s, now, minRr);
    BrokenIffMember(rules, rules[k].issue);
    forall i | 0 <= i < |rules| && rules[i].issue == rules[k].issue ensures i == k {
      RulesAreDistinct(s, now, minRr, i);
      RulesAreDistinct(s, now, minRr, k);
    }
    if rules[k].broken {
      assert rules[k] == Rule(rules[k].issue, true);
    }
  }
}
