/** When the order in which three prices are given matters to `_normalize_targets`: never to the prices, sometimes to the status. */
module TargetOrder {
  import opened Prelude
  import opened ScaleWeights
  import opened Targets

  /** The status, unlike the prices, does depend on the order of the inputs. */
  lemma StatusDependsOnOrder()
    ensures NormalizeTargets(Long, 100.0, 99.0, Some(102.0), Some(104.0), Some(106.0), DEFAULT_TARGET_RR)
      == Some(Targets(Triple(102.0, 104.0, 106.0), false, Valid))
    ensures NormalizeTargets(Long, 100.0, 99.0, Some(106.0), Some(104.0), Some(102.0), DEFAULT_TARGET_RR)
      == Some(Targets(Triple(102.0, 104.0, 106.0), false, Normalized))
  {
  }

  /** The elements of an ascending triple, in the order in which those of another triple stand. */
  function Arranged(s: Triple, like: Triple): Triple {
    if like.a <= like.b then
      if like.b <= like.c then s
      else if like.a <= like.c then Triple(s.a, s.c, s.b)
      else Triple(s.b, s.c, s.a)
    else
      if like.a <= like.c then Triple(s.b, s.a, s.c)
      else if like.b <= like.c then Triple(s.c, s.a, s.b)
      else Triple(s.c, s.b, s.a)
  }

  lemma ArrangedIsReordered(s: Triple, like: Triple)
    ensures SameElements(s, Arranged(s, like))
  {
  }

  lemma ArrangedIsAsClose(s: Triple, t: Triple, tolerance: real)
    ensures Close(Arranged(s, t), t, tolerance) <==> Close(s, Sorted(t), tolerance)
  {
    SortedByCases(t);
    hide Abs, Sorted, SameElements, Ascending;
  }

  lemma SortedByCases(t: Triple)
    ensures Sorted(t) ==
      if t.a <= t.b then
        if t.b <= t.c then t else if t.a <= t.c then Triple(t.a, t.c, t.b) else Triple(t.c, t.a, t.b)
      else
        if t.a <= t.c then Triple(t.b, t.a, t.c) else if t.b <= t.c then Triple(t.b, t.c, t.a) else Reversed(t)
  {
    hide SameElements;
  }

  lemma ExtremesAreClose(x: real, y: real, x': real, y': real, tolerance: real)
    requires Abs(x - x') <= tolerance && Abs(y - y') <= tolerance
    ensures Abs(Min(x, y) - Min(x', y')) <= tolerance && Abs(Max(x, y) - Max(x', y')) <= tolerance
  {
  }

  lemma SortedByExtremes(t: Triple)
    ensures var lo, hi := Min(t.a, t.b), Max(t.a, t.b);
      Sorted(t) == Triple(Min(lo, t.c), Max(lo, Min(hi, t.c)), Max(hi, t.c))
  {
    hide SameElements;
  }

  /** No order of two triples brings them closer than ascending order of both. */
  lemma SortedIsNearest(r: Triple, t: Triple, tolerance: real)
    requires Close(r, t, tolerance)
    ensures Close(Sorted(r), Sorted(t), tolerance)
  {
    hide Min, Max, Abs, Sorted, SameElements, Ascending;
    SortedByExtremes(r);
    SortedByExtremes(t);
    ExtremesAreClose(r.a, r.b, t.a, t.b, tolerance);
    var lo, hi, lo', hi' := Min(r.a, r.b), Max(r.a, r.b), Min(t.a, t.b), Max(t.a, t.b);
    ExtremesAreClose(lo, r.c, lo', t.c, tolerance);
    ExtremesAreClose(hi, r.c, hi', t.c, tolerance);
    ExtremesAreClose(lo, Min(hi, r.c), lo', Min(hi', t.c), tolerance);
  }

  /** Nor does any order take them farther apart than ascending order of one and descending order of the other. */
  lemma ReversedIsFarthest(r: Triple, t: Triple, tolerance: real)
    requires Close(Reversed(Sorted(r)), Sorted(t), tolerance)
    ensures Close(r, t, tolerance)
  {
    WithinExtremes(r);
    WithinExtremes(t);
    hide Sorted, SameElements;
  }

  lemma WithinExtremes(t: Triple)
    ensures Sorted(t).a <= t.a <= Sorted(t).c && Sorted(t).a <= t.b <= Sorted(t).c && Sorted(t).a <= t.c <= Sorted(t).c
  {
    hide SameElements;
  }

  /**
   * Every reordering of the prices gets the same result, status included,
   * exactly when even in ascending order they miss the result by more than the
   * tolerance, or even in descending order they do not.
   */
  lemma SameResultIff(direction: Direction, entryMid: real, raw: Triple, rungs: Triple)
    ensures var t := Chosen(direction, entryMid, raw, rungs);
      var tolerance := Tolerance(entryMid, t);
      OrderIsIrrelevant(direction, entryMid, raw, rungs) <==>
        !Close(Sorted(raw), Sorted(t), tolerance) || Close(Reversed(Sorted(raw)), Sorted(t), tolerance)
  {
    hide Chosen, Tolerance, Sorted, Close, Arranged, Single, SameElements;
    var s, t := Sorted(raw), Chosen(direction, entryMid, raw, rungs);
    var tolerance := Tolerance(entryMid, t);
    forall r | SameElements(raw, r)
      ensures Chosen(direction, entryMid, r, rungs) == t && Sorted(r) == s
    {
      OrderOfInputsIsIrrelevant(direction, entryMid, raw, r, rungs);
      SortedIsTheSame(raw, r);
    }
    var near, far := Arranged(s, t), Arranged(Reversed(s), t);
    ArrangedIsAsClose(s, t, tolerance);
    ArrangedIsAsClose(Reversed(s), t, tolerance);
    ReorderingsOf(raw, t);
    if Close(s, Sorted(t), tolerance) {
      if Close(Reversed(s), Sorted(t), tolerance) {
        forall r | SameElements(raw, r) ensures Close(r, t, tolerance) {
          ReversedIsFarthest(r, t, tolerance);
        }
      } else {
        assert Classified(entryMid, near, t) != Classified(entryMid, far, t);
      }
    } else {
      forall r | SameElements(raw, r) ensures !Close(r, t, tolerance) {
        if Close(r, t, tolerance) {
          SortedIsNearest(r, t, tolerance);
        }
      }
    }
  }

  ghost predicate OrderIsIrrelevant(direction: Direction, entryMid: real, raw: Triple, rungs: Triple) {
    forall r :: SameElements(raw, r) ==>
      Classified(entryMid, r, Chosen(direction, entryMid, r, rungs))
        == Classified(entryMid, raw, Chosen(direction, entryMid, raw, rungs))
  }

  lemma SortedIsTheSame(s: Triple, t: Triple)
    requires SameElements(s, t)
    ensures Sorted(s) == Sorted(t)
  {
    SortedIsUnique(Sorted(s), Sorted(t));
  }

  lemma ReorderingsOf(raw: Triple, t: Triple)
    ensures SameElements(raw, raw)
    ensures SameElements(raw, Arranged(Sorted(raw), t)) && SameElements(raw, Arranged(Reversed(Sorted(raw)), t))
  {
    var s := Sorted(raw);
    ArrangedIsReordered(s, t);
    ArrangedIsReordered(Reversed(s), t);
    ReversedIsReordered(s);
    hide Arranged, Reversed, Sorted;
    SameTrans(raw, s, Arranged(s, t));
    SameTrans(raw, s, Reversed(s));
    SameTrans(raw, Reversed(s), Arranged(Reversed(s), t));
  }

  lemma ReversedIsReordered(s: Triple)
    ensures SameElements(s, Reversed(s))
  {
  }

  lemma SameTrans(s: Triple, m: Triple, t: Triple)
    ensures SameElements(s, s) && (SameElements(s, m) ==> SameElements(m, s))
    ensures SameElements(s, m) && SameElements(m, t) ==> SameElements(s, t)
  {
  }

  /** A price falls short of its rung by more than the tolerance. */
  predicate FallsShort(s: Triple, rungs: Triple, tolerance: real) {
    rungs.a - s.a > tolerance || rungs.b - s.b > tolerance || rungs.c - s.c > tolerance
  }

  /** Whether `_normalize_targets` gives every order of three prices the same answer. */
  ghost predicate OrderIsIgnored(direction: Direction, entryMid: real, stopLoss: real, raw: Triple, rr: Triple) {
    forall r :: SameElements(raw, r) ==>
      NormalizeTargets(direction, entryMid, stopLoss, Some(r.a), Some(r.b), Some(r.c), rr)
        == NormalizeTargets(direction, entryMid, stopLoss, Some(raw.a), Some(raw.b), Some(raw.c), rr)
  }

  /**
   * Under an ascending ladder the order of three long prices does not matter
   * exactly when, sorted, one falls short of its rung, or when lowest price
   * and highest target are no farther apart than the tolerance.
   */
  lemma LongOrderIsIgnoredIff(entryMid: real, stopLoss: real, raw: Triple, rr: Triple)
    requires entryMid != stopLoss && rr.a > 0.0 && Ascending(rr)
    requires raw.a > 0.0 && raw.b > 0.0 && raw.c > 0.0
    ensures var rungs := Rungs(Long, entryMid, Abs(entryMid - stopLoss), rr);
      var s := Sorted(raw);
      var tolerance := Tolerance(entryMid, Above(s, rungs));
      OrderIsIgnored(Long, entryMid, stopLoss, raw, rr) <==>
        FallsShort(s, rungs, tolerance) || Max(s.c, rungs.c) - s.a <= tolerance
  {
    hide Rungs, Tolerance, Chosen, Close, Abs, NormalizeTargets, SameElements, Sorted, FallsShort, Max;
    var rungs, s := Rungs(Long, entryMid, Abs(entryMid - stopLoss), rr), Sorted(raw);
    var t := Above(s, rungs);
    var tolerance := Tolerance(entryMid, t);
    Lifted(Long, entryMid, stopLoss, raw, rr);
    RungsOrder(Long, entryMid, Abs(entryMid - stopLoss), rr);
    LongIsOrderedIff(entryMid, raw, rungs);
    SameResultIff(Long, entryMid, raw, rungs);
    AboveIsSorted(s, rungs);
    TolerancePositive(entryMid, t);
    LongDistance(s, rungs, tolerance);
  }

  lemma AboveIsSorted(s: Triple, rungs: Triple)
    requires Ascending(s) && Ascending(rungs)
    ensures Sorted(Above(s, rungs)) == Above(s, rungs)
  {
    SortedIsUnique(Sorted(Above(s, rungs)), Above(s, rungs));
  }

  lemma LongDistance(s: Triple, rungs: Triple, tolerance: real)
    requires Ascending(s) && Ascending(rungs) && tolerance > 0.0
    ensures Close(s, Above(s, rungs), tolerance) <==> !FallsShort(s, rungs, tolerance)
    ensures Close(Reversed(s), Above(s, rungs), tolerance) <==> Max(s.c, rungs.c) - s.a <= tolerance
  {
  }

  /** Shorts: exactly when the descending prices miss the moved ones, or even the ascending prices do not. */
  lemma ShortOrderIsIgnoredIff(entryMid: real, stopLoss: real, raw: Triple, rr: Triple)
    requires entryMid > 0.00000001 && entryMid != stopLoss && rr.a > 0.0 && Ascending(rr)
    requires raw.a > 0.0 && raw.b > 0.0 && raw.c > 0.0
    ensures var rungs := Rungs(Short, entryMid, Abs(entryMid - stopLoss), rr);
      var s := Sorted(raw);
      var t := Floored(PriceFloor(entryMid), Below(Reversed(s), rungs));
      var tolerance := Tolerance(entryMid, t);
      OrderIsIgnored(Short, entryMid, stopLoss, raw, rr) <==> !Close(Reversed(s), t, tolerance) || Close(s, t, tolerance)
  {
    hide Rungs, Tolerance, Chosen, Close, Abs, NormalizeTargets, SameElements, Sorted, Max, PriceFloor, Candidates;
    var rungs, s := Rungs(Short, entryMid, Abs(entryMid - stopLoss), rr), Sorted(raw);
    var t := Floored(PriceFloor(entryMid), Below(Reversed(s), rungs));
    Lifted(Short, entryMid, stopLoss, raw, rr);
    RungsOrder(Short, entryMid, Abs(entryMid - stopLoss), rr);
    FloorIsLow(entryMid);
    ShortIsAlwaysOrdered(entryMid, raw, rungs);
    ShortTwice(PriceFloor(entryMid), raw, rungs);
    SameResultIff(Short, entryMid, raw, rungs);
    DescendingSorted(t);
    CloseReversed(s, t, Tolerance(entryMid, t));
  }

  lemma DescendingSorted(t: Triple)
    requires t.a >= t.b >= t.c
    ensures Sorted(t) == Reversed(t)
  {
    SortedIsUnique(Sorted(t), Reversed(t));
  }

  lemma CloseReversed(s: Triple, t: Triple, tolerance: real)
    ensures Close(s, Reversed(t), tolerance) <==> Close(Reversed(s), t, tolerance)
    ensures Close(Reversed(s), Reversed(t), tolerance) <==> Close(s, t, tolerance)
  {
  }

  /** Three positive prices reach the choice of targets as they are. */
  lemma Lifted(direction: Direction, entryMid: real, stopLoss: real, raw: Triple, rr: Triple)
    requires entryMid != stopLoss && raw.a > 0.0 && raw.b > 0.0 && raw.c > 0.0
    ensures Abs(entryMid - stopLoss) > 0.0
    ensures OrderIsIgnored(direction, entryMid, stopLoss, raw, rr)
      <==> OrderIsIrrelevant(direction, entryMid, raw, Rungs(direction, entryMid, Abs(entryMid - stopLoss), rr))
  {
    hide Rungs, Tolerance, Chosen, Classified;
    var rungs := Rungs(direction, entryMid, Abs(entryMid - stopLoss), rr);
    forall r | SameElements(raw, r) ensures RawTargets(rungs, Some(r.a), Some(r.b), Some(r.c)) == r {
      PositiveReordered(raw, r);
    }
    PositiveReordered(raw, raw);
  }

  lemma PositiveReordered(raw: Triple, r: Triple)
    requires raw.a > 0.0 && raw.b > 0.0 && raw.c > 0.0
    ensures SameElements(raw, r) ==> r.a > 0.0 && r.b > 0.0 && r.c > 0.0
  {
    var m := multiset{r.a, r.b, r.c};
    assert r.a in m && r.b in m && r.c in m;
  }
}
