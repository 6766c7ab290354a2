/**
 * How well the score predicted the outcome (bot/dashboard/outcomes_insights.py):
 * the least-squares line through (score, won) points and its R squared.
 */
module Regression {
  import opened Prelude
  import opened Rounding
  import opened Vectors

  datatype Row = Row(score: Option<real>, featureScore: Option<real>, result: string)
  datatype Pair = Pair(x: real, y: real)

  const WIN_RESULTS := {"tp1_hit", "tp2_hit", "tp3_hit", "breakeven_stop", "trailing_stop"}
  const LOSS_RESULTS := {"stop_loss"}

  /** A row counts when it has a score, its own or its features', and a decided result. */
  function PairOf(row: Row): Option<Pair> {
    var score := if row.score.Some? then row.score else row.featureScore;
    if score == None then None
    else if row.result in WIN_RESULTS then Some(Pair(score.value, 1.0))
    else if row.result in LOSS_RESULTS then Some(Pair(score.value, 0.0))
    else None
  }

  function Pairs(rows: seq<Row>): seq<Pair> {
    if rows == [] then []
    else
      var last := PairOf(rows[|rows| - 1]);
      Pairs(rows[..|rows| - 1]) + if last.Some? then [last.value] else []
  }

  function Xs(pairs: seq<Pair>): seq<real> {
    seq(|pairs|, i requires 0 <= i < |pairs| => pairs[i].x)
  }

  function Ys(pairs: seq<Pair>): seq<real> {
    seq(|pairs|, i requires 0 <= i < |pairs| => pairs[i].y)
  }

  function Mean(xs: seq<real>): real
    requires xs != []
  {
    Dot(xs, Ones(|xs|)) / |xs| as real
  }

  /** x - mean(x) for every x. */
  function Centered(xs: seq<real>): (r: seq<real>)
    requires xs != []
    ensures |r| == |xs|
  {
    Combine(xs, -Mean(xs), Ones(|xs|))
  }

  /** y - (slope * x + intercept) for every point. */
  function Residuals(xs: seq<real>, ys: seq<real>, slope: real, intercept: real): (r: seq<real>)
    requires |xs| == |ys|
    ensures |r| == |xs|
  {
    Combine(Combine(ys, -slope, xs), -intercept, Ones(|ys|))
  }

  function SquaredError(xs: seq<real>, ys: seq<real>, slope: real, intercept: real): real
    requires |xs| == |ys|
  {
    var r := Residuals(xs, ys, slope, intercept);
    Dot(r, r)
  }

  function VarX(xs: seq<real>): real
    requires xs != []
  {
    Dot(Centered(xs), Centered(xs))
  }

  function Cov(xs: seq<real>, ys: seq<real>): real
    requires |xs| == |ys| && xs != []
  {
    Dot(Centered(xs), Centered(ys))
  }

  function Slope(xs: seq<real>, ys: seq<real>): real
    requires |xs| == |ys| && xs != [] && VarX(xs) > 0.0
  {
    Cov(xs, ys) / VarX(xs)
  }

  function Intercept(xs: seq<real>, ys: seq<real>): real
    requires |xs| == |ys| && xs != [] && VarX(xs) > 0.0
  {
    Mean(ys) - Slope(xs, ys) * Mean(xs)
  }

  function Explained(ssRes: real, ssTot: real): real
    requires ssTot > 0.0
  {
    1.0 - ssRes / ssTot
  }

  function RSquared(xs: seq<real>, ys: seq<real>): real
    requires |xs| == |ys| && xs != [] && VarX(xs) > 0.0 && VarX(ys) > 0.0
  {
    Explained(SquaredError(xs, ys, Slope(xs, ys), Intercept(xs, ys)), VarX(ys))
  }

  /** Which rows count and for what: their own score before their features', a win 1 and a loss 0. */
  lemma PairMeans(row: Row)
    ensures PairOf(row).Some? <==>
      && (row.score.Some? || row.featureScore.Some?)
      && row.result in {"tp1_hit", "tp2_hit", "tp3_hit", "breakeven_stop", "trailing_stop", "stop_loss"}
    ensures PairOf(row).Some? && row.score.Some? ==> PairOf(row).value.x == row.score.value
    ensures PairOf(row).Some? && row.score == None ==> PairOf(row).value.x == row.featureScore.value
    ensures PairOf(row).Some? ==> PairOf(row).value.y == if row.result == "stop_loss" then 0.0 else 1.0
  {
    assert "stop_loss" !in WIN_RESULTS;
  }

  lemma PairsOne(row: Row)
    ensures Pairs([row]) == if PairOf(row).Some? then [PairOf(row).value] else []
  {
    hide PairOf;
    assert [row][..0] == [];
    assert Pairs([]) == [];
  }

  /** Rows give their pairs in order; with `PairsOne`, every row that counts gives one. */
  lemma {:induction false} PairsInOrder(a: seq<Row>, b: seq<Row>)
    ensures Pairs(a + b) == Pairs(a) + Pairs(b)
    decreases |b|
  {
    hide PairOf;
    if b == [] {
      assert a + b == a;
    } else {
      assert (a + b)[..|a + b| - 1] == a + b[..|b| - 1];
      PairsInOrder(a, b[..|b| - 1]);
    }
  }

  /** The figure the dashboard shows: nothing for fewer than five pairs or for a constant score or outcome. */
  method ScoreOutcomeRSquared(rows: seq<Row>) returns (r: Option<real>)
    ensures var pairs := Pairs(rows);
      r == if |pairs| < 5 || VarX(Xs(pairs)) <= 0.0 || VarX(Ys(pairs)) <= 0.0 then None
           else Some(Round4(RSquared(Xs(pairs), Ys(pairs))))
  {
    hide Dot, Combine, Round4, Mean, Explained, Slope, Intercept;
    var pairs := CollectPairs(rows);
    if |pairs| < 5 {
      return None;
    }
    var xs, ys := Xs(pairs), Ys(pairs);
    var varX := VarX(xs);
    if varX <= 0.0 {
      return None;
    }
    var slope := Slope(xs, ys);
    var intercept := Intercept(xs, ys);
    var ssRes := SquaredError(xs, ys, slope, intercept);
    var ssTot := VarX(ys);
    if ssTot <= 0.0 {
      return None;
    }
    r := Some(Round4(Explained(ssRes, ssTot)));
  }

  method CollectPairs(rows: seq<Row>) returns (pairs: seq<Pair>)
    ensures pairs == Pairs(rows)
  {
    pairs := [];
    for i := 0 to |rows|
      invariant pairs == Pairs(rows[..i])
    {
      assert rows[..i + 1][..i] == rows[..i];
      var row := rows[i];
      var score := row.score;
      if score == None {
        score := row.featureScore;
      }
      if score == None {
        continue;
      }
      var outcome := if row.result in WIN_RESULTS then Some(1.0)
                     else if row.result in LOSS_RESULTS then Some(0.0) else None;
      if outcome == None {
        continue;
      }
      pairs := pairs + [Pair(score.value, outcome.value)];
    }
    assert rows[..|rows|] == rows;
  }

  // ----- least squares

  lemma CenteredSumsToZero(xs: seq<real>)
    requires xs != []
    ensures Dot(Centered(xs), Ones(|xs|)) == 0.0
  {
    hide Dot, Combine;
    var n, m, s := |xs| as real, Mean(xs), Dot(xs, Ones(|xs|));
    MeanTimesCount(s, n, m);
    OnesCount(|xs|);
    CombinedDot(xs, -m, Ones(|xs|), Ones(|xs|), s, n, Dot(Centered(xs), Ones(|xs|)));
  }

  lemma MeanTimesCount(total: real, n: real, mean: real)
    requires n > 0.0 && mean == total / n
    ensures total + -mean * n == 0.0
  {
  }

  lemma SlopeTimesVariance(xs: seq<real>, ys: seq<real>, s: real, varX: real, cov: real)
    requires |xs| == |ys| && xs != [] && varX == VarX(xs) > 0.0 && cov == Cov(xs, ys) && s == Slope(xs, ys)
    ensures s * varX == cov
  {
    hide Dot, Combine;
    assert s == cov / varX;
  }

  lemma InterceptIs(xs: seq<real>, ys: seq<real>, s: real, t: real, mx: real, my: real)
    requires |xs| == |ys| && xs != [] && VarX(xs) > 0.0 && s == Slope(xs, ys) && t == Intercept(xs, ys)
    requires mx == Mean(xs) && my == Mean(ys)
    ensures t == my - s * mx
  {
    hide Dot, Combine, Slope, Mean;
  }

  /** The residuals of the line with slope s through the means are v - s * u. */
  lemma FittedResiduals(
    xs: seq<real>, ys: seq<real>, s: real, t: real, mx: real, my: real, u: seq<real>, v: seq<real>)
    requires |xs| == |ys| && t == my - s * mx
    requires u == Combine(xs, -mx, Ones(|xs|)) && v == Combine(ys, -my, Ones(|ys|))
    ensures Residuals(xs, ys, s, t) == Combine(v, -s, u)
  {
    hide Dot, Combine;
    var first, l, r := Combine(ys, -s, xs), Residuals(xs, ys, s, t), Combine(v, -s, u);
    forall i | 0 <= i < |xs| ensures l[i] == r[i] {
      FittedPoint(xs[i], ys[i], s, mx, my, t, first[i], l[i], u[i], v[i], r[i]);
    }
  }

  lemma FittedLine(xs: seq<real>, ys: seq<real>, s: real, t: real)
    requires |xs| == |ys| && xs != [] && VarX(xs) > 0.0 && s == Slope(xs, ys) && t == Intercept(xs, ys)
    ensures Residuals(xs, ys, s, t) == Combine(Centered(ys), -s, Centered(xs))
  {
    hide Dot, Combine, Slope, Intercept, Mean, Residuals;
    InterceptIs(xs, ys, s, t, Mean(xs), Mean(ys));
    FittedResiduals(xs, ys, s, t, Mean(xs), Mean(ys), Centered(xs), Centered(ys));
  }

  lemma FittedPoint(
    x: real, y: real, s: real, mx: real, my: real, t: real, first: real, l: real, u: real, v: real, r: real)
    requires t == my - s * mx && first == y + -s * x && l == first + -t * 1.0
    requires u == x + -mx * 1.0 && v == y + -my * 1.0 && r == v + -s * u
    ensures l == r
  {
  }

  /** Any line's residuals are those of slope s plus a multiple of the centred xs plus a constant. */
  lemma OtherResiduals(
    xs: seq<real>, ys: seq<real>, s: real, mx: real, my: real, u: seq<real>, v: seq<real>, a: real, b: real)
    requires |xs| == |ys|
    requires u == Combine(xs, -mx, Ones(|xs|)) && v == Combine(ys, -my, Ones(|ys|))
    ensures Residuals(xs, ys, a, b)
      == Combine(Combine(Combine(v, -s, u), s - a, u), my - a * mx - b, Ones(|xs|))
  {
    hide Dot, Combine;
    var d, c := s - a, my - a * mx - b;
    var first, l := Combine(ys, -a, xs), Residuals(xs, ys, a, b);
    var r, w := Combine(v, -s, u), Combine(Combine(v, -s, u), d, u);
    var q := Combine(w, c, Ones(|xs|));
    forall i | 0 <= i < |xs| ensures l[i] == q[i] {
      OtherPoint(xs[i], ys[i], s, mx, my, a, b, first[i], l[i], u[i], v[i], r[i], w[i], q[i]);
    }
  }

  lemma OtherPoint(
    x: real, y: real, s: real, mx: real, my: real, a: real, b: real,
    first: real, l: real, u: real, v: real, r: real, w: real, q: real)
    requires first == y + -a * x && l == first + -b * 1.0
    requires u == x + -mx * 1.0 && v == y + -my * 1.0 && r == v + -s * u
    requires w == r + (s - a) * u && q == w + (my - a * mx - b) * 1.0
    ensures l == q
  {
    assert w == v - a * u;
    assert a * u == a * x - a * mx;
  }

  /** The fitted residuals sum to zero and are orthogonal to the scores. */
  lemma ResidualsAreOrthogonal(xs: seq<real>, ys: seq<real>, s: real, t: real)
    requires |xs| == |ys| && xs != [] && VarX(xs) > 0.0
    requires s == Slope(xs, ys) && t == Intercept(xs, ys)
    ensures Dot(Residuals(xs, ys, s, t), Ones(|xs|)) == 0.0
    ensures Dot(Residuals(xs, ys, s, t), xs) == 0.0
  {
    hide *;
    var u, v, r := Centered(xs), Centered(ys), Residuals(xs, ys, s, t);
    FittedLine(xs, ys, s, t);
    CenteredSumsToZero(xs);
    CenteredSumsToZero(ys);
    SlopeTimesVariance(xs, ys, s, VarX(xs), Cov(xs, ys));
    VarianceIsDot(xs, ys);
    NormalEquations(u, v, Ones(|xs|), s, VarX(xs), Cov(xs, ys), r);
    OrthogonalToShifted(xs, Mean(xs), Ones(|xs|), u, r);
  }

  lemma VarianceIsDot(xs: seq<real>, ys: seq<real>)
    requires |xs| == |ys| && xs != []
    ensures |Ones(|xs|)| == |xs| && Centered(xs) == Combine(xs, -Mean(xs), Ones(|xs|))
    ensures VarX(xs) == Dot(Centered(xs), Centered(xs)) && Cov(xs, ys) == Dot(Centered(xs), Centered(ys))
  {
  }

  lemma NormalEquations(
    u: seq<real>, v: seq<real>, one: seq<real>, s: real, varX: real, cov: real, r: seq<real>)
    requires |u| == |v| == |one| && r == Combine(v, -s, u)
    requires Dot(u, one) == 0.0 && Dot(v, one) == 0.0
    requires Dot(u, u) == varX && Dot(u, v) == cov && s * varX == cov
    ensures Dot(r, one) == 0.0 && Dot(r, u) == 0.0
  {
    hide Dot, Combine;
    CombinedDot(v, -s, u, one, 0.0, 0.0, Dot(r, one));
    DotIsSymmetric(u, v);
    CombinedDot(v, -s, u, u, cov, varX, Dot(r, u));
  }

  lemma OrthogonalToShifted(xs: seq<real>, mx: real, one: seq<real>, u: seq<real>, r: seq<real>)
    requires |xs| == |one| == |r| && u == Combine(xs, -mx, one)
    requires Dot(r, one) == 0.0 && Dot(r, u) == 0.0
    ensures Dot(r, xs) == 0.0
  {
    hide Dot, Combine;
    DotIsSymmetric(r, u);
    DotIsSymmetric(r, xs);
    DotIsSymmetric(r, one);
    CombinedDot(xs, -mx, one, r, Dot(xs, r), 0.0, 0.0);
  }

  /** Among all lines the fitted one, and no other, has the least squared error. */
  lemma LeastSquares(xs: seq<real>, ys: seq<real>, s: real, t: real, a: real, b: real)
    requires |xs| == |ys| && xs != [] && VarX(xs) > 0.0
    requires s == Slope(xs, ys) && t == Intercept(xs, ys)
    ensures SquaredError(xs, ys, s, t) <= SquaredError(xs, ys, a, b)
    ensures SquaredError(xs, ys, s, t) == SquaredError(xs, ys, a, b) <==> a == s && b == t
  {
    hide Dot, Combine, Slope, Intercept, Mean, Explained, Round4;
    var u, v, one, mx, my := Centered(xs), Centered(ys), Ones(|xs|), Mean(xs), Mean(ys);
    FittedLine(xs, ys, s, t);
    InterceptIs(xs, ys, s, t, mx, my);
    OtherResiduals(xs, ys, s, mx, my, u, v, a, b);
    CenteredSumsToZero(xs);
    CenteredSumsToZero(ys);
    SlopeTimesVariance(xs, ys, s, VarX(xs), Cov(xs, ys));
    NormalEquations(u, v, one, s, VarX(xs), Cov(xs, ys), Combine(v, -s, u));
    ErrorOfShift(Combine(v, -s, u), u, one, s - a, my - a * mx - b, VarX(xs));
    SamePoint(s, a, mx, my, t, b);
  }

  lemma ErrorOfShift(r: seq<real>, u: seq<real>, one: seq<real>, d: real, c: real, varX: real)
    requires |r| == |u| == |one| > 0 && one == Ones(|r|)
    requires Dot(r, one) == 0.0 && Dot(r, u) == 0.0 && Dot(u, one) == 0.0 && Dot(u, u) == varX > 0.0
    ensures var q := Combine(Combine(r, d, u), c, one);
      Dot(r, r) <= Dot(q, q) && (Dot(r, r) == Dot(q, q) <==> d == 0.0 && c == 0.0)
  {
    hide Dot, Combine;
    var w, n := Combine(r, d, u), |r| as real;
    var q := Combine(w, c, one);
    var rr, ww, qq := Dot(r, r), Dot(w, w), Dot(q, q);
    OnesCount(|r|);
    SquareOfSum(r, d, u, rr, 0.0, varX, ww);
    CombinedDot(r, d, u, one, 0.0, 0.0, Dot(w, one));
    SquareOfSum(w, c, one, ww, 0.0, n, qq);
    ExcessError(rr, d, varX, c, n, ww, qq);
  }

  lemma ExcessError(rr: real, d: real, varX: real, c: real, n: real, ww: real, qq: real)
    requires varX > 0.0 && n > 0.0
    requires ww == rr + 2.0 * d * 0.0 + d * d * varX && qq == ww + 2.0 * c * 0.0 + c * c * n
    ensures rr <= qq && (rr == qq <==> d == 0.0 && c == 0.0)
  {
    ScalarSquare(d, d * d);
    ScalarSquare(c, c * c);
    Scaled(d * d, varX, d * d * varX);
    Scaled(c * c, n, c * c * n);
  }

  lemma Scaled(a: real, b: real, c: real)
    requires a >= 0.0 && b > 0.0 && c == a * b
    ensures c >= 0.0 && (c == 0.0 <==> a == 0.0)
  {
  }

  lemma SamePoint(s: real, a: real, mx: real, my: real, t: real, b: real)
    requires t == my - s * mx
    ensures s - a == 0.0 && my - a * mx - b == 0.0 <==> a == s && b == t
  {
  }

  /** R squared is cov^2 / (var_x * ss_tot), and lies in [0, 1]: the Cauchy-Schwarz inequality. */
  lemma RSquaredIsCorrelation(xs: seq<real>, ys: seq<real>, cov: real, varX: real, ssTot: real, r2: real)
    requires |xs| == |ys| && xs != []
    requires cov == Cov(xs, ys) && varX == VarX(xs) > 0.0 && ssTot == VarX(ys) > 0.0
    requires r2 == RSquared(xs, ys)
    ensures varX * ssTot > 0.0 && r2 == cov * cov / (varX * ssTot)
    ensures cov * cov <= varX * ssTot
    ensures 0.0 <= r2 <= 1.0 && 0.0 <= Round4(r2) <= 1.0
  {
    hide Dot, Combine, Slope, Intercept, Mean, Explained, Round4;
    var u, v, s, t := Centered(xs), Centered(ys), Slope(xs, ys), Intercept(xs, ys);
    FittedLine(xs, ys, s, t);
    var rr := SquaredErrorOfSlope(u, v, s, cov, varX, ssTot);
    SlopeTimesVariance(xs, ys, s, varX, cov);
    CorrelationAlgebra(cov, varX, ssTot, s, rr, r2);
    Round4KeepsUnitInterval(r2);
  }

  lemma SquaredErrorOfSlope(u: seq<real>, v: seq<real>, s: real, cov: real, varX: real, ssTot: real) returns (rr: real)
    requires |u| == |v| && cov == Dot(u, v) && varX == Dot(u, u) && ssTot == Dot(v, v)
    ensures rr == Dot(Combine(v, -s, u), Combine(v, -s, u)) >= 0.0
    ensures rr == ssTot + 2.0 * -s * cov + -s * -s * varX
  {
    hide Dot, Combine;
    var r := Combine(v, -s, u);
    rr := Dot(r, r);
    DotIsSymmetric(u, v);
    SquareOfSum(v, -s, u, ssTot, cov, varX, rr);
    SquareIsNonNegative(r);
  }

  lemma CorrelationAlgebra(cov: real, varX: real, ssTot: real, s: real, rr: real, r2: real)
    requires varX > 0.0 && ssTot > 0.0 && s * varX == cov && rr >= 0.0
    requires rr == ssTot + 2.0 * -s * cov + -s * -s * varX
    requires r2 == Explained(rr, ssTot)
    ensures varX * ssTot > 0.0 && r2 == cov * cov / (varX * ssTot)
    ensures 0.0 <= r2 <= 1.0 && cov * cov <= varX * ssTot
  {
    var t, q := varX * ssTot, rr / ssTot;
    SameSign(varX, ssTot, t);
    assert q * ssTot == rr;
    assert r2 * t == cov * cov by { CrossMultiply(cov, varX, ssTot, s, rr, q); }
    QuotientIs(r2, t, cov * cov);
    NonNegativeFactor(q, ssTot, rr);
    NonNegativeFactor(r2, t, cov * cov);
    assert (1.0 - r2) * t >= 0.0;
  }

  lemma CrossMultiply(cov: real, varX: real, ssTot: real, s: real, rr: real, q: real)
    requires s * varX == cov && q * ssTot == rr
    requires rr == ssTot + 2.0 * -s * cov + -s * -s * varX
    ensures (1.0 - q) * (varX * ssTot) == cov * cov
  {
    assert -s * -s * varX == s * cov;
    assert rr == ssTot - s * cov;
    assert (1.0 - q) * (varX * ssTot) == varX * (ssTot - rr);
    assert varX * (s * cov) == cov * cov;
  }

  lemma NonNegativeFactor(q: real, d: real, p: real)
    requires d > 0.0 && q * d == p && p >= 0.0
    ensures q >= 0.0
  {
    assert q < 0.0 ==> q * d < 0.0;
  }

  lemma QuotientIs(q: real, d: real, p: real)
    requires d > 0.0 && q * d == p
    ensures p / d == q
  {
    assert (p / d - q) * d == 0.0;
  }

  // ----- when there is nothing to show

  ghost predicate Constant(xs: seq<real>) {
    forall i :: 0 <= i < |xs| ==> xs[i] == xs[0]
  }

  /** The two variance guards turn away exactly the constant series. */
  lemma VarianceIsZeroIffConstant(xs: seq<real>)
    requires xs != []
    ensures VarX(xs) >= 0.0 && (VarX(xs) <= 0.0 <==> Constant(xs))
  {
    hide Dot, Combine;
    var u := Centered(xs);
    SquareIsNonNegative(u);
    CenteredSumsToZero(xs);
    CenteredIsShifted(xs, Mean(xs));
    if Constant(xs) {
      SumOfConstant(u, u[0]);
    }
  }

  lemma CenteredIsShifted(xs: seq<real>, m: real)
    requires xs != [] && m == Mean(xs)
    ensures forall i :: 0 <= i < |xs| ==> Centered(xs)[i] == xs[i] - m
  {
  }

  lemma {:induction false} SumOfConstant(us: seq<real>, c: real)
    requires us != [] && forall i :: 0 <= i < |us| ==> us[i] == c
    ensures c > 0.0 ==> Dot(us, Ones(|us|)) > 0.0
    ensures c < 0.0 ==> Dot(us, Ones(|us|)) < 0.0
  {
    assert Ones(|us|)[1..] == Ones(|us| - 1);
    if |us| > 1 {
      SumOfConstant(us[1..], c);
    } else {
      assert us[1..] == [];
    }
  }
}
