/** `_normalize_targets` (engine/contract.py): three take-profit prices made to respect the risk-reward ladder. */
module Targets {
  import opened Prelude
  import opened ScaleWeights

  datatype Direction = Long | Short

  datatype Status = Valid | SingleTarget | Normalized | NormalizedSingleTarget

  datatype Targets = Targets(prices: Triple, single: bool, status: Status)

  const DEFAULT_TARGET_RR := Triple(1.9, 3.0, 5.0)

  function PositiveOr(value: Option<real>, fallback: real): real {
    if value.Some? && value.value > 0.0 then value.value else fallback
  }

  function TargetFromRisk(direction: Direction, entryMid: real, risk: real, rr: real): real {
    if direction == Long then entryMid + risk * rr else entryMid - risk * rr
  }

  /** The prices at which each rung of the ladder is reached. */
  function Rungs(direction: Direction, entryMid: real, risk: real, rr: Triple): Triple {
    Triple(
      TargetFromRisk(direction, entryMid, risk, rr.a),
      TargetFromRisk(direction, entryMid, risk, rr.b),
      TargetFromRisk(direction, entryMid, risk, rr.c))
  }

  predicate Ascending(t: Triple) {
    t.a <= t.b <= t.c
  }

  predicate IsOrdered(direction: Direction, entryMid: real, t: Triple) {
    if direction == Long then entryMid < t.a <= t.b <= t.c else entryMid > t.a >= t.b >= t.c
  }

  ghost predicate SameElements(s: Triple, t: Triple) {
    multiset{s.a, s.b, s.c} == multiset{t.a, t.b, t.c}
  }

  /** Python's `sorted` on three numbers. */
  function Sorted(t: Triple): (r: Triple)
    ensures Ascending(r) && SameElements(r, t)
  {
    var lo, hi := Min(t.a, t.b), Max(t.a, t.b);
    if t.c <= lo then Triple(t.c, lo, hi)
    else if t.c <= hi then Triple(lo, t.c, hi)
    else Triple(lo, hi, t.c)
  }

  function Reversed(t: Triple): Triple {
    Triple(t.c, t.b, t.a)
  }

  function Above(s: Triple, t: Triple): Triple {
    Triple(Max(s.a, t.a), Max(s.b, t.b), Max(s.c, t.c))
  }

  function Below(s: Triple, t: Triple): Triple {
    Triple(Min(s.a, t.a), Min(s.b, t.b), Min(s.c, t.c))
  }

  function Floored(floor: real, t: Triple): Triple {
    Triple(Max(floor, t.a), Max(floor, t.b), Max(floor, t.c))
  }

  function PriceFloor(entryMid: real): real {
    Max(entryMid * 0.02, 0.00000001)
  }

  /** Each sorted price moved to its rung if it falls short of it; short targets kept above the floor. */
  function Candidates(direction: Direction, floor: real, raw: Triple, rungs: Triple): Triple {
    if direction == Long then Above(Sorted(raw), rungs)
    else Reversed(Sorted(Floored(floor, Below(Reversed(Sorted(raw)), rungs))))
  }

  /** The bare ladder, used when the candidates come out of order. */
  function Fallback(direction: Direction, floor: real, rungs: Triple): Triple {
    if direction == Long then rungs else Reversed(Sorted(Floored(floor, rungs)))
  }

  function Chosen(direction: Direction, entryMid: real, raw: Triple, rungs: Triple): Triple {
    var candidates := Candidates(direction, PriceFloor(entryMid), raw, rungs);
    if IsOrdered(direction, entryMid, candidates) then candidates
    else Fallback(direction, PriceFloor(entryMid), rungs)
  }

  function Tolerance(entryMid: real, t: Triple): real {
    Max(Max(Abs(entryMid), Max(Abs(t.a), Max(Abs(t.b), Abs(t.c)))), 1.0) * 0.00000001
  }

  predicate Single(t: Triple, tolerance: real) {
    Abs(t.b - t.a) <= tolerance && Abs(t.c - t.b) <= tolerance
  }

  predicate Close(s: Triple, t: Triple, tolerance: real) {
    Abs(s.a - t.a) <= tolerance && Abs(s.b - t.b) <= tolerance && Abs(s.c - t.c) <= tolerance
  }

  function Classified(entryMid: real, raw: Triple, t: Triple): Targets {
    var single := Single(t, Tolerance(entryMid, t));
    Targets(t, single,
      match (Close(raw, t, Tolerance(entryMid, t)), single)
      case (true, false) => Valid
      case (true, true) => SingleTarget
      case (false, false) => Normalized
      case (false, true) => NormalizedSingleTarget)
  }

  function RawTargets(rungs: Triple, tp1: Option<real>, tp2: Option<real>, tp3: Option<real>): Triple {
    Triple(PositiveOr(tp1, rungs.a), PositiveOr(tp2, rungs.b), PositiveOr(tp3, rungs.c))
  }

  function NormalizeTargets(
    direction: Direction, entryMid: real, stopLoss: real,
    tp1: Option<real>, tp2: Option<real>, tp3: Option<real>, targetRr: Triple): Option<Targets>
  {
    var risk := Abs(entryMid - stopLoss);
    if risk <= 0.0 then None
    else
      var rungs := Rungs(direction, entryMid, risk, targetRr);
      var raw := RawTargets(rungs, tp1, tp2, tp3);
      Some(Classified(entryMid, raw, Chosen(direction, entryMid, raw, rungs)))
  }

  /** A price that is missing or not positive is replaced by its rung. */
  method ResolveTargets(rungs: Triple, tp1: Option<real>, tp2: Option<real>, tp3: Option<real>) returns (raw: Triple)
    ensures raw == RawTargets(rungs, tp1, tp2, tp3)
    ensures raw.a == if tp1.Some? && tp1.value > 0.0 then tp1.value else rungs.a
    ensures raw.b == if tp2.Some? && tp2.value > 0.0 then tp2.value else rungs.b
    ensures raw.c == if tp3.Some? && tp3.value > 0.0 then tp3.value else rungs.c
  {
    var values, ladder := [tp1, tp2, tp3], [rungs.a, rungs.b, rungs.c];
    for idx := 0 to 3
      invariant |values| == 3
      invariant forall k :: 0 <= k < idx ==>
        values[k] == Some(PositiveOr([tp1, tp2, tp3][k], ladder[k]))
      invariant forall k :: idx <= k < 3 ==> values[k] == [tp1, tp2, tp3][k]
    {
      if values[idx] == None || values[idx].value <= 0.0 {
        values := values[idx := Some(ladder[idx])];
      }
    }
    raw := Triple(values[0].value, values[1].value, values[2].value);
  }

  method ComputeTargets(
    direction: Direction, entryMid: real, stopLoss: real,
    tp1: Option<real>, tp2: Option<real>, tp3: Option<real>, targetRr: Triple) returns (r: Option<Targets>)
    ensures r == NormalizeTargets(direction, entryMid, stopLoss, tp1, tp2, tp3, targetRr)
  {
    hide Sorted, Max, Min, Abs, PriceFloor, Rungs, RawTargets, Tolerance, Close, Single, IsOrdered;
    var risk := Abs(entryMid - stopLoss);
    if risk <= 0.0 {
      return None;
    }
    var floor, rungs := PriceFloor(entryMid), Rungs(direction, entryMid, risk, targetRr);
    var targets := ResolveTargets(rungs, tp1, tp2, tp3);
    var candidates;
    if direction == Long {
      candidates := Sorted(targets);
      candidates := candidates.(a := Max(candidates.a, rungs.a));
      candidates := candidates.(b := Max(candidates.b, rungs.b));
      candidates := candidates.(c := Max(candidates.c, rungs.c));
    } else {
      candidates := Reversed(Sorted(targets));
      candidates := candidates.(a := Max(floor, Min(candidates.a, rungs.a)));
      candidates := candidates.(b := Max(floor, Min(candidates.b, rungs.b)));
      candidates := candidates.(c := Max(floor, Min(candidates.c, rungs.c)));
      candidates := Reversed(Sorted(candidates));
    }
    var normalized := candidates;
    if !IsOrdered(direction, entryMid, normalized) {
      if direction == Long {
        normalized := rungs;
      } else {
        normalized := Reversed(Sorted(Floored(floor, rungs)));
      }
    }
    var tolerance := Tolerance(entryMid, normalized);
    var single := Single(normalized, tolerance);
    var status := Valid;
    if !Close(targets, normalized, tolerance) {
      status := Normalized;
    }
    if single {
      status := if status == Valid then SingleTarget else NormalizedSingleTarget;
    }
    r := Some(Targets(normalized, single, status));
  }

  // ----- the ladder

  lemma ProductOrder(risk: real, x: real, y: real, p: real, q: real)
    requires risk > 0.0 && p == risk * x && q == risk * y
    ensures x <= y <==> p <= q
    ensures x > 0.0 <==> p > 0.0
  {
    assert x < y ==> risk * (y - x) > 0.0;
    assert x > y ==> risk * (x - y) > 0.0;
    assert x > 0.0 ==> risk * x > 0.0;
    assert x < 0.0 ==> risk * x < 0.0;
  }

  /** Rungs of a positive ladder lie beyond the entry; they are in order exactly when the ladder ascends. */
  lemma RungsOrder(direction: Direction, entryMid: real, risk: real, rr: Triple)
    requires risk > 0.0 && rr.a > 0.0 && rr.b > 0.0 && rr.c > 0.0
    ensures var r := Rungs(direction, entryMid, risk, rr);
      && (direction == Long ==> entryMid < r.a && entryMid < r.b && entryMid < r.c)
      && (direction == Short ==> entryMid > r.a && entryMid > r.b && entryMid > r.c)
      && (IsOrdered(direction, entryMid, r) <==> Ascending(rr))
  {
    var p, q, s := risk * rr.a, risk * rr.b, risk * rr.c;
    ProductOrder(risk, rr.a, rr.b, p, q);
    ProductOrder(risk, rr.b, rr.c, q, s);
    ProductOrder(risk, rr.c, rr.c, s, s);
  }

  // ----- order

  /** Short targets are in order under every positive ladder. */
  lemma ShortIsAlwaysOrdered(entryMid: real, raw: Triple, rungs: Triple)
    requires PriceFloor(entryMid) < entryMid && rungs.a < entryMid && rungs.b < entryMid && rungs.c < entryMid
    ensures IsOrdered(Short, entryMid, Chosen(Short, entryMid, raw, rungs))
    ensures Chosen(Short, entryMid, raw, rungs) == Candidates(Short, PriceFloor(entryMid), raw, rungs)
    ensures Chosen(Short, entryMid, raw, rungs).c >= PriceFloor(entryMid)
  {
    var moved := Floored(PriceFloor(entryMid), Below(Reversed(Sorted(raw)), rungs));
    var s := Sorted(moved);
    assert s.c in multiset{s.a, s.b, s.c} && s.a in multiset{s.a, s.b, s.c};
    assert s.c in multiset{moved.a, moved.b, moved.c} && s.a in multiset{moved.a, moved.b, moved.c};
  }

  /** Long targets are in order exactly when the ladder is, or the moved candidates are. */
  lemma LongIsOrderedIff(entryMid: real, raw: Triple, rungs: Triple)
    ensures IsOrdered(Long, entryMid, Chosen(Long, entryMid, raw, rungs)) <==>
      IsOrdered(Long, entryMid, rungs) || IsOrdered(Long, entryMid, Above(Sorted(raw), rungs))
    ensures IsOrdered(Long, entryMid, rungs) ==>
      Chosen(Long, entryMid, raw, rungs) == Above(Sorted(raw), rungs)
    ensures !IsOrdered(Long, entryMid, Above(Sorted(raw), rungs)) ==> Chosen(Long, entryMid, raw, rungs) == rungs
  {
  }

  // ----- least change, idempotence, order of the inputs

  ghost predicate PointwiseAtMost(s: Triple, t: Triple) {
    s.a <= t.a && s.b <= t.b && s.c <= t.c
  }

  /** For longs the result is the least ordered triple above both the sorted inputs and the ladder. */
  lemma LongIsLeast(entryMid: real, raw: Triple, rungs: Triple, other: Triple)
    requires IsOrdered(Long, entryMid, rungs)
    ensures var r := Chosen(Long, entryMid, raw, rungs);
      && IsOrdered(Long, entryMid, r) && PointwiseAtMost(Sorted(raw), r) && PointwiseAtMost(rungs, r)
      && (IsOrdered(Long, entryMid, other) && PointwiseAtMost(Sorted(raw), other) && PointwiseAtMost(rungs, other)
          ==> PointwiseAtMost(r, other))
  {
    LongIsOrderedIff(entryMid, raw, rungs);
  }

  /** For shorts, the greatest descending triple below both, kept above the floor. */
  lemma ShortIsGreatest(entryMid: real, raw: Triple, rungs: Triple, other: Triple)
    requires entryMid > 0.00000001 && IsOrdered(Short, entryMid, rungs)
    ensures var r := Chosen(Short, entryMid, raw, rungs);
      var s, floor := Reversed(Sorted(raw)), PriceFloor(entryMid);
      && r.a >= floor && r.b >= floor && r.c >= floor
      && (r.a > floor ==> r.a <= s.a && r.a <= rungs.a)
      && (r.b > floor ==> r.b <= s.b && r.b <= rungs.b)
      && (r.c > floor ==> r.c <= s.c && r.c <= rungs.c)
      && (PointwiseAtMost(other, s) && PointwiseAtMost(other, rungs) ==> PointwiseAtMost(other, r))
  {
    hide Sorted, PriceFloor, Candidates;
    FloorIsLow(entryMid);
    ShortIsAlwaysOrdered(entryMid, raw, rungs);
    ShortTwice(PriceFloor(entryMid), raw, rungs);
  }

  lemma SortedIsUnique(s: Triple, t: Triple)
    requires Ascending(s) && Ascending(t) && SameElements(s, t)
    ensures s == t
  {
    var m := multiset{s.a, s.b, s.c};
    assert s.a in m && s.b in m && s.c in m && t.a in m && t.b in m && t.c in m;
    assert m[s.a] == multiset{t.a, t.b, t.c}[s.a];
    assert m[s.c] == multiset{t.a, t.b, t.c}[s.c];
    assert s.a == t.a && s.c == t.c;
    assert m - multiset{s.a, s.c} == multiset{s.b};
    assert multiset{t.a, t.b, t.c} - multiset{t.a, t.c} == multiset{t.b};
    assert s.b in multiset{t.b};
  }

  /** The order in which three prices are given does not matter to the prices that come out. */
  lemma OrderOfInputsIsIrrelevant(direction: Direction, entryMid: real, raw: Triple, shuffled: Triple, rungs: Triple)
    requires SameElements(raw, shuffled)
    ensures Chosen(direction, entryMid, raw, rungs) == Chosen(direction, entryMid, shuffled, rungs)
  {
    SortedIsUnique(Sorted(raw), Sorted(shuffled));
  }

  /** Normalising what was normalised changes nothing, and says so. */
  lemma NormalizingTwice(
    direction: Direction, entryMid: real, stopLoss: real,
    tp1: Option<real>, tp2: Option<real>, tp3: Option<real>, rr: Triple, first: Targets)
    requires entryMid > 0.00000001 && rr.a > 0.0 && Ascending(rr)
    requires NormalizeTargets(direction, entryMid, stopLoss, tp1, tp2, tp3, rr) == Some(first)
    ensures var p := first.prices;
      NormalizeTargets(direction, entryMid, stopLoss, Some(p.a), Some(p.b), Some(p.c), rr)
        == Some(Targets(p, first.single, if first.single then SingleTarget else Valid))
  {
    hide Abs, Rungs, Chosen, Single, Tolerance, Close;
    var risk := Abs(entryMid - stopLoss);
    var rungs := Rungs(direction, entryMid, risk, rr);
    RungsOrder(direction, entryMid, risk, rr);
    ChosenTwice(direction, entryMid, RawTargets(rungs, tp1, tp2, tp3), rungs);
    CloseToItself(first.prices, Tolerance(entryMid, first.prices));
    TolerancePositive(entryMid, first.prices);
  }

  lemma CloseToItself(t: Triple, tolerance: real)
    ensures tolerance > 0.0 ==> Close(t, t, tolerance)
  {
  }

  lemma TolerancePositive(entryMid: real, t: Triple)
    ensures Tolerance(entryMid, t) > 0.0
  {
    assert Max(Max(Abs(entryMid), Max(Abs(t.a), Max(Abs(t.b), Abs(t.c)))), 1.0) >= 1.0;
  }

  lemma ChosenTwice(direction: Direction, entryMid: real, raw: Triple, rungs: Triple)
    requires entryMid > 0.00000001 && IsOrdered(direction, entryMid, rungs)
    ensures var p := Chosen(direction, entryMid, raw, rungs);
      p.a > 0.0 && p.b > 0.0 && p.c > 0.0 && Chosen(direction, entryMid, p, rungs) == p
  {
    if direction == Long {
      LongTwice(entryMid, raw, rungs);
    } else {
      hide Sorted, Candidates, Max;
      assert PriceFloor(entryMid) < entryMid && PriceFloor(entryMid) > 0.0 by { FloorIsLow(entryMid); }
      ShortTwice(PriceFloor(entryMid), raw, rungs);
      ShortIsAlwaysOrdered(entryMid, raw, rungs);
    }
  }

  lemma FloorIsLow(entryMid: real)
    requires entryMid > 0.00000001
    ensures 0.0 < PriceFloor(entryMid) < entryMid
  {
  }

  lemma LongTwice(entryMid: real, raw: Triple, rungs: Triple)
    requires entryMid > 0.0 && IsOrdered(Long, entryMid, rungs)
    ensures var p := Chosen(Long, entryMid, raw, rungs);
      p.a > 0.0 && p.b > 0.0 && p.c > 0.0 && Chosen(Long, entryMid, p, rungs) == p
  {
    var p := Chosen(Long, entryMid, raw, rungs);
    LongIsOrderedIff(entryMid, raw, rungs);
    SortedIsUnique(Sorted(p), p);
  }

  lemma ShortTwice(floor: real, raw: Triple, rungs: Triple)
    requires rungs.a >= rungs.b >= rungs.c
    ensures var p := Candidates(Short, floor, raw, rungs);
      && p == Floored(floor, Below(Reversed(Sorted(raw)), rungs)) && p.a >= p.b >= p.c
      && Candidates(Short, floor, p, rungs) == p
  {
    var moved := Floored(floor, Below(Reversed(Sorted(raw)), rungs));
    assert moved.a >= moved.b >= moved.c;
    SortedIsUnique(Sorted(moved), Reversed(moved));
    var again := Floored(floor, Below(moved, rungs));
    assert again == moved;
  }
}
