/** The numbers behind the targets (engine/contract.py): how near is near, the price floor, what the status says. */
module TargetNumbers {
  import opened Prelude
  import opened ScaleWeights
  import opened Targets

  /** What prices are compared against: the largest of entry, targets and 1. */
  predicate IsScale(scale: real, entryMid: real, t: Triple) {
    LeastAbove(scale, [1.0, Abs(entryMid), Abs(t.a), Abs(t.b), Abs(t.c)])
  }

  predicate Within(x: real, y: real, scale: real) {
    100000000.0 * Abs(x - y) <= scale
  }

  lemma ToleranceOfScale(entryMid: real, t: Triple, scale: real)
    requires IsScale(scale, entryMid, t)
    ensures Tolerance(entryMid, t) * 100000000.0 == scale
  {
    hide Abs;
    var bounds := [1.0, Abs(entryMid), Abs(t.a), Abs(t.b), Abs(t.c)];
    assert bounds[0] <= scale && bounds[1] <= scale && bounds[2] <= scale && bounds[3] <= scale && bounds[4] <= scale;
    assert scale in bounds;
  }

  /** The floor is a fiftieth of the entry price, and at least 0.00000001. */
  lemma FloorIsLeast(entryMid: real)
    ensures LeastAbove(PriceFloor(entryMid), [entryMid / 50.0, 0.00000001])
  {
    var bounds := [entryMid / 50.0, 0.00000001];
    assert bounds[0] in bounds && bounds[1] in bounds;
  }

  /**
   * The status tells whether every price asked for is within a
   * hundred-millionth of the target it got, and whether the targets are within
   * it of one another.
   */
  lemma StatusMeans(
    direction: Direction, entryMid: real, stopLoss: real,
    tp1: Option<real>, tp2: Option<real>, tp3: Option<real>, rr: Triple, r: Targets, scale: real)
    requires NormalizeTargets(direction, entryMid, stopLoss, tp1, tp2, tp3, rr) == Some(r)
    requires IsScale(scale, entryMid, r.prices)
    ensures var t, rungs := r.prices, Rungs(direction, entryMid, Abs(entryMid - stopLoss), rr);
      && (r.single <==> Within(t.a, t.b, scale) && Within(t.b, t.c, scale))
      && (r.status in {SingleTarget, NormalizedSingleTarget} <==> r.single)
      && (r.status in {Valid, SingleTarget} <==>
            && Within(if tp1.Some? && tp1.value > 0.0 then tp1.value else rungs.a, t.a, scale)
            && Within(if tp2.Some? && tp2.value > 0.0 then tp2.value else rungs.b, t.b, scale)
            && Within(if tp3.Some? && tp3.value > 0.0 then tp3.value else rungs.c, t.c, scale))
  {
    hide Rungs, Chosen, Tolerance, IsScale;
    ToleranceOfScale(entryMid, r.prices, scale);
  }

  /** A rung lies as many units of the risk beyond the entry as the ladder says. */
  lemma RungDistances(direction: Direction, entryMid: real, risk: real, rr: Triple)
    ensures var r := Rungs(direction, entryMid, risk, rr);
      && (direction == Long ==> r.a - entryMid == risk * rr.a && r.b - entryMid == risk * rr.b && r.c - entryMid == risk * rr.c)
      && (direction == Short ==> entryMid - r.a == risk * rr.a && entryMid - r.b == risk * rr.b && entryMid - r.c == risk * rr.c)
  {
  }

  /** Without prices of its own, an ascending ladder gives a long exactly its rungs, a short those above the floor. */
  lemma BareLadder(direction: Direction, entryMid: real, stopLoss: real, rr: Triple)
    requires entryMid > 0.00000001 && entryMid != stopLoss && rr.a > 0.0 && Ascending(rr)
    ensures NormalizeTargets(direction, entryMid, stopLoss, None, None, None, rr).Some?
    ensures var rungs := Rungs(direction, entryMid, Abs(entryMid - stopLoss), rr);
      var p := NormalizeTargets(direction, entryMid, stopLoss, None, None, None, rr).value.prices;
      if direction == Long then p == rungs
      else
        && LeastAbove(p.a, [rungs.a, PriceFloor(entryMid)])
        && LeastAbove(p.b, [rungs.b, PriceFloor(entryMid)])
        && LeastAbove(p.c, [rungs.c, PriceFloor(entryMid)])
  {
    hide Rungs, NormalizeTargets, IsOrdered, Chosen, Floored, LeastAbove, PriceFloor;
    var risk := Abs(entryMid - stopLoss);
    var rungs := Rungs(direction, entryMid, risk, rr);
    RungsOrder(direction, entryMid, risk, rr);
    BarePrices(direction, entryMid, stopLoss, rr);
    BareChoice(direction, entryMid, rungs);
    FlooredIsLeast(PriceFloor(entryMid), rungs);
  }

  lemma FlooredIsLeast(floor: real, t: Triple)
    ensures var p := Floored(floor, t);
      LeastAbove(p.a, [t.a, floor]) && LeastAbove(p.b, [t.b, floor]) && LeastAbove(p.c, [t.c, floor])
  {
    LeastOfTwo(t.a, floor);
    LeastOfTwo(t.b, floor);
    LeastOfTwo(t.c, floor);
  }

  lemma BarePrices(direction: Direction, entryMid: real, stopLoss: real, rr: Triple)
    requires Abs(entryMid - stopLoss) > 0.0
    ensures var rungs := Rungs(direction, entryMid, Abs(entryMid - stopLoss), rr);
      var r := NormalizeTargets(direction, entryMid, stopLoss, None, None, None, rr);
      r.Some? && r.value.prices == Chosen(direction, entryMid, rungs, rungs)
  {
    hide Abs, Rungs, Chosen, Tolerance, Single, Close;
  }

  lemma LeastOfTwo(x: real, y: real)
    ensures LeastAbove(Max(y, x), [x, y])
  {
    var bounds := [x, y];
    assert bounds[0] in bounds && bounds[1] in bounds;
  }

  lemma BareChoice(direction: Direction, entryMid: real, rungs: Triple)
    requires entryMid > 0.00000001 && IsOrdered(direction, entryMid, rungs)
    ensures Chosen(direction, entryMid, rungs, rungs)
      == if direction == Long then rungs else Floored(PriceFloor(entryMid), rungs)
  {
    hide PriceFloor;
    if direction == Long {
      SortedIsUnique(Sorted(rungs), rungs);
    } else {
      hide Sorted, Candidates;
      SortedReversed(rungs);
      FloorIsLow(entryMid);
      ShortIsAlwaysOrdered(entryMid, rungs, rungs);
      ShortTwice(PriceFloor(entryMid), rungs, rungs);
    }
  }

  lemma SortedReversed(t: Triple)
    requires t.a >= t.b >= t.c
    ensures Reversed(Sorted(t)) == t
  {
    SortedIsUnique(Sorted(t), Reversed(t));
  }
}
