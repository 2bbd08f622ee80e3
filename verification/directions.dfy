/** The direction predicates of the direction utility file. They repeat the
    ones in the top-level utility file and add `isDiagonal`. */
module Directions {
  import opened Constants
  import Utils

  predicate IsDownDirection(dir: int)
  {
    dir in [DOWN_LEFT, DOWN, DOWN_RIGHT]
  }

  predicate IsLeftDirection(dir: int)
  {
    dir in [DOWN_LEFT, LEFT, UP_LEFT]
  }

  predicate IsRightDirection(dir: int)
  {
    dir in [DOWN_RIGHT, RIGHT, UP_RIGHT]
  }

  predicate IsUpDirection(dir: int)
  {
    dir in [UP_LEFT, UP, UP_RIGHT]
  }

  predicate IsHorzDirection(dir: int)
  {
    !(dir in [DOWN, UP])
  }

  predicate IsVertDirection(dir: int)
  {
    dir in [LEFT, RIGHT]
  }

  /** True for everything that is not one of the four cardinal codes. */
  predicate IsDiagonal(dir: int)
  {
    !(dir in [LEFT, RIGHT, UP, DOWN])
  }

  /** A horizontal component (left or right). */
  predicate HasHorizontalComponent(dir: int)
  {
    IsLeftDirection(dir) || IsRightDirection(dir)
  }

  /** A vertical component (up or down). */
  predicate HasVerticalComponent(dir: int)
  {
    IsUpDirection(dir) || IsDownDirection(dir)
  }

  /** The two copies of the predicates agree on every integer. */
  lemma AgreesWithUtils(dir: int)
    ensures IsDownDirection(dir) == Utils.IsDownDirection(dir)
    ensures IsLeftDirection(dir) == Utils.IsLeftDirection(dir)
    ensures IsRightDirection(dir) == Utils.IsRightDirection(dir)
    ensures IsUpDirection(dir) == Utils.IsUpDirection(dir)
    ensures IsHorzDirection(dir) == Utils.IsHorzDirection(dir)
    ensures IsVertDirection(dir) == Utils.IsVertDirection(dir)
  {
  }

  /** Opposite components exclude each other, every code has a component,
      and nothing outside the eight codes has one. */
  lemma ComponentFacts(dir: int)
    ensures !(IsLeftDirection(dir) && IsRightDirection(dir))
    ensures !(IsUpDirection(dir) && IsDownDirection(dir))
    ensures IsDirectionCode(dir) <==> HasHorizontalComponent(dir) || HasVerticalComponent(dir)
    ensures IsHorzDirection(dir) <==> dir != DOWN && dir != UP
    ensures IsVertDirection(dir) <==> dir == LEFT || dir == RIGHT
  {
  }

  /** On the eight codes a diagonal is exactly a code with both components;
      any value that is not cardinal, in range or not, counts as diagonal. */
  lemma DiagonalFacts(dir: int)
    ensures IsDirectionCode(dir) ==>
      (IsDiagonal(dir) <==> HasHorizontalComponent(dir) && HasVerticalComponent(dir))
    ensures IsDiagonal(dir) <==> !IsCardinal(dir)
  {
  }
}
