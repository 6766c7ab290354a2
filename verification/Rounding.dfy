/** Python's `round`: to the nearest, ties to the even neighbour, over exact reals. */
module Rounding {
  function RoundHalfEven(x: real): (n: int)
    ensures -0.5 <= x - n as real <= 0.5
    ensures x - n as real in {-0.5, 0.5} ==> n % 2 == 0
  {
    var low := x.Floor;
    var part := x - low as real;
    if part < 0.5 then low
    else if part > 0.5 then low + 1
    else if low % 2 == 0 then low
    else low + 1
  }

  /** `round(x, 4)` counted in units of 0.0001. */
  function Units(x: real): int {
    RoundHalfEven(x * 10000.0)
  }

  function Round4(x: real): real {
    Units(x) as real / 10000.0
  }

  lemma RoundKeepsIntegers(n: int)
    ensures RoundHalfEven(n as real) == n
  {
  }

  lemma RoundIsMonotone(x: real, y: real)
    requires x <= y
    ensures RoundHalfEven(x) <= RoundHalfEven(y)
  {
    var a, b := x.Floor, y.Floor;
    assert a <= b;
    if a == b {
      assert x - a as real <= y - b as real;
    }
  }

  lemma Round4KeepsUnitInterval(x: real)
    requires 0.0 <= x <= 1.0
    ensures 0.0 <= Round4(x) <= 1.0
  {
    RoundIsMonotone(0.0, x * 10000.0);
    RoundIsMonotone(x * 10000.0, 10000.0);
    RoundKeepsIntegers(0);
    RoundKeepsIntegers(10000);
  }
}
