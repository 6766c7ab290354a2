/** Small vocabulary shared by the models. */
module Prelude {
  datatype Option<+T> = None | Some(value: T)

  function Min(a: real, b: real): real {
    if a <= b then a else b
  }

  function Max(a: real, b: real): real {
    if a >= b then a else b
  }

  function Abs(a: real): real {
    if a >= 0.0 then a else -a
  }

  /** The greatest of some numbers, and the least, said without computing them. */
  predicate LeastAbove(x: real, bounds: seq<real>) {
    x in bounds && forall i :: 0 <= i < |bounds| ==> x >= bounds[i]
  }

  predicate GreatestBelow(x: real, bounds: seq<real>) {
    x in bounds && forall i :: 0 <= i < |bounds| ==> x <= bounds[i]
  }
}
