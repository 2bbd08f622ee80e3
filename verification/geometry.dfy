/** Axis-aligned boxes as the plugin reads them off characters, hitboxes and
    tile collision objects: `x1 <= x2` is the horizontal extent and `y1 <= y2`
    the vertical one (y grows downwards, as on the screen). */
module Geometry {

  datatype Box = Box(x1: real, x2: real, y1: real, y2: real)
  {
    /** The corners are in order; the source never builds an inverted box. */
    predicate WellFormed()
    {
      x1 <= x2 && y1 <= y2
    }
  }
}
