/** The JavaScript `Math` primitives the plugin relies on, over exact reals.
    There is no `-0`, `NaN` or `Infinity` here: every number is a Dafny `real`. */
module JsMath {

  /** `Math.sign`: -1, 0 or 1. */
  function Sign(x: real): (s: real)
    ensures s == 1.0 <==> x > 0.0
    ensures s == -1.0 <==> x < 0.0
    ensures s == 0.0 <==> x == 0.0
  {
    if x > 0.0 then 1.0 else if x < 0.0 then -1.0 else 0.0
  }

  /** `Math.abs`. */
  function Abs(x: real): (r: real)
    ensures r >= 0.0
    ensures r == x || r == -x
  {
    if x < 0.0 then -x else x
  }

  /** `Math.round`: the nearest integer, a half rounded up (towards +infinity). */
  function Round(y: real): (r: int)
    ensures y - 0.5 < r as real <= y + 0.5
  {
    (y + 0.5).Floor
  }

  /** `Math.floor`. */
  function Floor(y: real): (r: int)
    ensures r as real <= y < r as real + 1.0
  {
    y.Floor
  }

  /** `Math.ceil`. */
  function Ceil(y: real): (r: int)
    ensures r as real - 1.0 < y <= r as real
  {
    -((-y).Floor)
  }

  function MinReal(a: real, b: real): (r: real)
    ensures r <= a && r <= b && (r == a || r == b)
  {
    if a <= b then a else b
  }

  function MinInt(a: int, b: int): (r: int)
    ensures r <= a && r <= b && (r == a || r == b)
  {
    if a <= b then a else b
  }

  function MaxInt(a: int, b: int): (r: int)
    ensures r >= a && r >= b && (r == a || r == b)
  {
    if a >= b then a else b
  }

  /** True when `x` is a whole multiple of `1/n`. */
  predicate MultipleOf(x: real, n: nat)
  {
    (x * n as real).Floor as real == x * n as real
  }
}
