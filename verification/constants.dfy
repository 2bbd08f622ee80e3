/** The shared constants: the eight compass codes of the numeric keypad and
    the gravitational constant (an acceleration, in tiles per frame squared). */
module Constants {

  const DOWN_LEFT: int := 1
  const DOWN: int := 2
  const DOWN_RIGHT: int := 3
  const LEFT: int := 4
  const RIGHT: int := 6
  const UP_LEFT: int := 7
  const UP: int := 8
  const UP_RIGHT: int := 9

  /** The eight values of `DIRECTIONS`. */
  predicate IsDirectionCode(d: int)
  {
    d in {DOWN_LEFT, DOWN, DOWN_RIGHT, LEFT, RIGHT, UP_LEFT, UP, UP_RIGHT}
  }

  /** The four cardinal values of `DIRECTIONS`. */
  predicate IsCardinal(d: int)
  {
    d in {DOWN, LEFT, RIGHT, UP}
  }

  const GRAVITATIONAL_CONSTANT: real := 0.01
}
