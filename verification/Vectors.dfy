/** Inner products of real sequences, enough to do least squares without expanding sums. */
module Vectors {
  function Dot(us: seq<real>, vs: seq<real>): real
    requires |us| == |vs|
  {
    if us == [] then 0.0 else us[0] * vs[0] + Dot(us[1..], vs[1..])
  }

  function Ones(n: nat): seq<real> {
    seq(n, _ => 1.0)
  }

  /** us + d * vs */
  function Combine(us: seq<real>, d: real, vs: seq<real>): (r: seq<real>)
    requires |us| == |vs|
    ensures |r| == |us|
    ensures forall i :: 0 <= i < |r| ==> r[i] == us[i] + d * vs[i]
  {
    if us == [] then [] else [us[0] + d * vs[0]] + Combine(us[1..], d, vs[1..])
  }

  lemma {:induction false} DotIsSymmetric(us: seq<real>, vs: seq<real>)
    requires |us| == |vs|
    ensures Dot(us, vs) == Dot(vs, us)
  {
    if us == [] {
    } else {
      DotIsSymmetric(us[1..], vs[1..]);
    }
  }

  lemma {:induction false} DotIsLinear(us: seq<real>, d: real, vs: seq<real>, ws: seq<real>)
    requires |us| == |vs| == |ws|
    ensures Dot(Combine(us, d, vs), ws) == Dot(us, ws) + d * Dot(vs, ws)
  {
    if us == [] {
    } else {
      DotIsLinear(us[1..], d, vs[1..], ws[1..]);
      Distribute(us[0], d, vs[0], ws[0], Dot(us[1..], ws[1..]), Dot(vs[1..], ws[1..]));
    }
  }

  lemma Distribute(u: real, d: real, v: real, w: real, p: real, q: real)
    ensures (u + d * v) * w + (p + d * q) == (u * w + p) + d * (v * w + q)
  {
  }

  lemma {:induction false} SquareIsNonNegative(us: seq<real>)
    ensures Dot(us, us) >= 0.0
    ensures Dot(us, us) == 0.0 <==> forall i :: 0 <= i < |us| ==> us[i] == 0.0
  {
    if us == [] {
    } else {
      var tail := us[1..];
      SquareIsNonNegative(tail);
      ScalarSquare(us[0], us[0] * us[0]);
      assert Dot(us, us) == us[0] * us[0] + Dot(tail, tail);
      if forall i :: 0 <= i < |us| ==> us[i] == 0.0 {
        assert us[0] == 0.0 && forall i :: 0 <= i < |tail| ==> tail[i] == us[i + 1];
      } else if us[0] == 0.0 {
        var i :| 0 <= i < |us| && us[i] != 0.0;
        assert tail[i - 1] == us[i];
      }
    }
  }

  lemma ScalarSquare(x: real, y: real)
    requires y == x * x
    ensures x != 0.0 ==> y > 0.0
    ensures x == 0.0 ==> y == 0.0
  {
    if x != 0.0 {
      SameSign(x, x, y);
    }
  }

  lemma SameSign(a: real, b: real, c: real)
    requires (a > 0.0 && b > 0.0) || (a < 0.0 && b < 0.0)
    requires c == a * b
    ensures c > 0.0
  {
  }

  lemma {:induction false} OnesCount(n: nat)
    ensures Dot(Ones(n), Ones(n)) == n as real
  {
    if n == 0 {
    } else {
      OnesCount(n - 1);
      assert Ones(n)[1..] == Ones(n - 1);
    }
  }

  /** The inner product with a combination, for named values of the three products. */
  lemma CombinedDot(us: seq<real>, d: real, vs: seq<real>, ws: seq<real>, a: real, b: real, p: real)
    requires |us| == |vs| == |ws|
    requires a == Dot(us, ws) && b == Dot(vs, ws) && p == Dot(Combine(us, d, vs), ws)
    ensures p == a + d * b
  {
    DotIsLinear(us, d, vs, ws);
  }

  /** |us + d * vs|^2, expanded. */
  lemma SquareOfSum(us: seq<real>, d: real, vs: seq<real>, a: real, b: real, c: real, rr: real)
    requires |us| == |vs|
    requires a == Dot(us, us) && b == Dot(us, vs) && c == Dot(vs, vs)
    requires rr == Dot(Combine(us, d, vs), Combine(us, d, vs))
    ensures rr == a + 2.0 * d * b + d * d * c
  {
    hide Dot;
    var r := Combine(us, d, vs);
    DotIsSymmetric(us, vs);
    DotIsSymmetric(us, r);
    DotIsSymmetric(vs, r);
    var p, q := Dot(r, us), Dot(r, vs);
    CombinedDot(us, d, vs, us, a, b, p);
    CombinedDot(us, d, vs, vs, b, c, q);
    CombinedDot(us, d, vs, r, p, q, rr);
    ExpandSquare(a, b, c, d, p, q);
  }

  lemma ExpandSquare(a: real, b: real, c: real, d: real, p: real, q: real)
    requires p == a + d * b && q == b + d * c
    ensures p + d * q == a + 2.0 * d * b + d * d * c
  {
  }
}
