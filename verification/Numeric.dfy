/** Numbers shared by every component: the tolerance constants of the exchange and Python's
    `math.isclose`. Energies, prices and rates are exact reals. */
module Numeric {

  datatype Option<+T> = None | Some(value: T)

  // FLOATING_POINT_TOLERANCE of gsy_framework.constants_limits.
  const TOL: real := 0.00001

  // Below this energy the relative part of `isclose` (1e-9) is no wider than TOL.
  const MAX_ENERGY: real := 10000.0

  function Abs(x: real): real {
    if x < 0.0 then -x else x
  }

  function Max(x: real, y: real): real {
    if x < y then y else x
  }

  function Min(x: real, y: real): real {
    if y < x then y else x
  }

  // math.isclose(a, b, abs_tol=absTol), with Python's default relative tolerance 1e-9.
  predicate IsClose(a: real, b: real, absTol: real) {
    Abs(a - b) <= Max(0.000000001 * Max(Abs(a), Abs(b)), absTol)
  }

  // `sum(...)` of n equal tolerances, used to bound what n trades may drop.
  function Times(n: nat, x: real): real {
    if n == 0 then 0.0 else Times(n - 1, x) + x
  }
}
