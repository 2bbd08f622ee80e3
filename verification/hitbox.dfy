/** `RectangleHitbox`: the strip of a given depth that lies directly in front
    of a character's box, on the side the character faces. Only the four
    cardinal directions have such a strip; any other direction is an error. */
module Hitbox {
  import opened Constants
  import opened Geometry
  import NumberExt

  datatype HitboxResult =
    | Hitbox(box: Box)
    /** The constructor's `throw` for a direction without a strip. */
    | CannotCreate(direction: int)

  /** The strip in front of `body` facing `direction`, `|distance|` deep. */
  function RectangleHitbox(body: Box, direction: int, distance: real): (r: HitboxResult)
    ensures r.Hitbox? <==> IsCardinal(direction)
    ensures r.CannotCreate? ==> r.direction == direction
    ensures r.Hitbox? && body.WellFormed() ==> r.box.WellFormed()
    // Facing down or up, the strip spans the character's columns; left or
    // right, its rows.
    ensures r.Hitbox? && (direction == DOWN || direction == UP) ==>
      r.box.x1 == body.x1 && r.box.x2 == body.x2 && r.box.y2 - r.box.y1 == NumberExt.Abs(distance)
    ensures r.Hitbox? && (direction == LEFT || direction == RIGHT) ==>
      r.box.y1 == body.y1 && r.box.y2 == body.y2 && r.box.x2 - r.box.x1 == NumberExt.Abs(distance)
    // The strip touches the character along the facing edge and lies
    // outside it.
    ensures r.Hitbox? && direction == DOWN ==> r.box.y1 == body.y2
    ensures r.Hitbox? && direction == UP ==> r.box.y2 == body.y1
    ensures r.Hitbox? && direction == LEFT ==> r.box.x2 == body.x1
    ensures r.Hitbox? && direction == RIGHT ==> r.box.x1 == body.x2
  {
    var d := NumberExt.Abs(distance);
    if direction == DOWN then Hitbox(Box(body.x1, body.x2, body.y2, body.y2 + d))
    else if direction == LEFT then Hitbox(Box(body.x1 - d, body.x1, body.y1, body.y2))
    else if direction == RIGHT then Hitbox(Box(body.x2, body.x2 + d, body.y1, body.y2))
    else if direction == UP then Hitbox(Box(body.x1, body.x2, body.y1 - d, body.y1))
    else CannotCreate(direction)
  }

  /** `a` lies inside `b`. */
  predicate Within(a: Box, b: Box)
  {
    b.x1 <= a.x1 && a.x2 <= b.x2 && b.y1 <= a.y1 && a.y2 <= b.y2
  }

  /** The sign of the distance is ignored, and a deeper strip contains a
      shallower one in the same direction. */
  lemma HitboxDepth(body: Box, direction: int, near: real, far: real)
    requires IsCardinal(direction)
    requires NumberExt.Abs(near) <= NumberExt.Abs(far)
    ensures RectangleHitbox(body, direction, -near) == RectangleHitbox(body, direction, near)
    ensures Within(RectangleHitbox(body, direction, near).box, RectangleHitbox(body, direction, far).box)
  {
    NumberExt.AbsEven(near);
  }

  /** For a well-formed character the strip never overlaps the character's
      interior: the two boxes meet at most along the facing edge. */
  lemma HitboxOutsideCharacter(body: Box, direction: int, distance: real)
    requires body.WellFormed()
    requires IsCardinal(direction)
    ensures var h := RectangleHitbox(body, direction, distance).box;
      h.x2 <= body.x1 || body.x2 <= h.x1 || h.y2 <= body.y1 || body.y2 <= h.y1
  {
  }
}
