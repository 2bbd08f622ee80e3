/** The scalar helpers of the top-level utility file: a `round` to three
    decimals, the rounded `subtractScalar` that the character's acceleration
    uses, `limitScalar`, and the direction predicates over the keypad codes. */
module Utils {
  import opened JsMath
  import opened Constants

  /** `round`: the nearest multiple of 1/1000, halves rounded up. */
  function Round(num: real): (r: real)
    ensures MultipleOf(r, 1000)
    ensures -1.0 / 2000.0 < r - num <= 1.0 / 2000.0
  {
    var n := JsMath.Round(num * 1000.0);
    var r := n as real / 1000.0;
    assert r * 1000.0 == n as real;
    r
  }

  /** Rounding a value that is not negative never gives a negative result,
      and rounding one that is not positive never gives a positive one. */
  lemma RoundKeepsSign(num: real)
    ensures num >= 0.0 ==> Round(num) >= 0.0
    ensures num <= 0.0 ==> Round(num) <= 0.0
  {
    var n := JsMath.Round(num * 1000.0);
    if num <= 0.0 {
      assert num * 1000.0 <= 0.0;
      assert n <= 0;
    }
  }

  /** `subtractScalar` (rounded variant): move `scalar` towards zero by `add`,
      rounding the result to three decimals; zero stays zero. */
  function SubtractScalar(scalar: real, add: real): (r: real)
    ensures scalar == 0.0 ==> r == 0.0
    ensures scalar != 0.0 ==> MultipleOf(r, 1000)
    ensures scalar != 0.0 ==>
      -1.0 / 2000.0 < r - Sign(scalar) * (JsMath.Abs(scalar) - add) <= 1.0 / 2000.0
    ensures 0.0 <= add <= JsMath.Abs(scalar) ==> r == 0.0 || Sign(r) == Sign(scalar)
    ensures JsMath.Abs(scalar) <= add ==> r == 0.0 || Sign(r) == -Sign(scalar)
  {
    if Sign(scalar) == 1.0 then
      RoundKeepsSign(scalar - add);
      Round(scalar - add)
    else if Sign(scalar) == -1.0 then
      RoundKeepsSign(scalar + add);
      Round(scalar + add)
    else 0.0
  }

  /** `limitScalar`: clamp the magnitude of `scalar` to `limit`. */
  function LimitScalar(scalar: real, limit: real): (r: real)
    ensures limit >= 0.0 ==> JsMath.Abs(r) <= limit
    ensures JsMath.Abs(scalar) <= limit ==> r == scalar
    ensures limit >= 0.0 && JsMath.Abs(scalar) > limit ==> JsMath.Abs(r) == limit
    ensures limit >= 0.0 ==> r == 0.0 || Sign(r) == Sign(scalar)
  {
    if JsMath.Abs(scalar) > limit then Sign(scalar) * limit else scalar
  }

  /** Limiting twice to the same non-negative limit is limiting once. */
  lemma LimitScalarIdempotent(scalar: real, limit: real)
    requires limit >= 0.0
    ensures LimitScalar(LimitScalar(scalar, limit), limit) == LimitScalar(scalar, limit)
  {
  }

  predicate IsDownDirection(dir: int)
  {
    dir in [DOWN_LEFT, DOWN, DOWN_RIGHT]
  }

  predicate IsLeftDirection(dir: int)
  {
    dir in [DOWN_LEFT, LEFT, UP_LEFT]
  }

  predicate IsRightDirection(dir: int)
  {
    dir in [DOWN_RIGHT, RIGHT, UP_RIGHT]
  }

  predicate IsUpDirection(dir: int)
  {
    dir in [UP_LEFT, UP, UP_RIGHT]
  }

  /** True for every value except DOWN and UP (out-of-range codes included). */
  predicate IsHorzDirection(dir: int)
  {
    !(dir in [DOWN, UP])
  }

  /** True for LEFT and RIGHT only (the source's naming, kept as written). */
  predicate IsVertDirection(dir: int)
  {
    dir in [LEFT, RIGHT]
  }

  /** How the direction predicates relate over all integers. */
  lemma DirectionPredicateFacts(dir: int)
    ensures !(IsLeftDirection(dir) && IsRightDirection(dir))
    ensures !(IsUpDirection(dir) && IsDownDirection(dir))
    ensures IsVertDirection(dir) <==> dir == LEFT || dir == RIGHT
    ensures IsVertDirection(dir) ==> IsHorzDirection(dir)
    ensures IsHorzDirection(dir) <==> dir != DOWN && dir != UP
  {
  }
}
