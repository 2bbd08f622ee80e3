/** The physics added to `Game_CharacterBase`: a character carries a mass,
    the forces applied during the current frame and the momentum left from
    the last one. Each frame friction is taken off the planar push, the rest
    becomes an acceleration, the acceleration (rounded to four decimals) is
    the velocity, the velocity moves the character, and the momentum is set
    from what was moved. Height `realZ` is drawn by shifting the sprite up,
    so a vertical move also moves `realY` the other way. */
module Character {
  import opened JsMath
  import opened Constants
  import NumberExt
  import Utils

  datatype Character = Character(
    realX: real, realY: real, realZ: real,
    mass: real,
    forceX: real, forceY: real, forceZ: real,
    momentumX: real, momentumY: real, momentumZ: real,
    direction: int,
    heading: int)
  {
    /** Every character the plugin builds has a positive mass (1 by default,
        and nothing in the core changes it). */
    predicate Valid()
    {
      mass > 0.0
    }

    /** Friction: the mass times the gravitational constant. */
    function FrictionalForce(): real
    {
      mass * GRAVITATIONAL_CONSTANT
    }

    function AccelerationX(): real
      requires Valid()
    {
      FrictionalAcceleration(momentumX + forceX, mass)
    }

    function AccelerationY(): real
      requires Valid()
    {
      FrictionalAcceleration(momentumY + forceY, mass)
    }

    /** Vertical motion has no friction. */
    function AccelerationZ(): real
      requires Valid()
    {
      (momentumZ + forceZ) / mass
    }

    function VelocityX(): real
      requires Valid()
    {
      NumberExt.Round(AccelerationX())
    }

    function VelocityY(): real
      requires Valid()
    {
      NumberExt.Round(AccelerationY())
    }

    function VelocityZ(): real
      requires Valid()
    {
      NumberExt.Round(AccelerationZ())
    }

    /** `isMoving`: some velocity component is non-zero. */
    predicate IsMoving()
      requires Valid()
    {
      VelocityX() != 0.0 || VelocityY() != 0.0 || VelocityZ() != 0.0
    }

    /** `isGrounded`: exactly at height zero. */
    predicate IsGrounded()
    {
      realZ == 0.0
    }

    /** `canMove`: only a grounded character can move itself. */
    predicate CanMove()
    {
      IsGrounded()
    }
  }

  /** The planar acceleration produced by a push `force` on a body of the
      given mass once friction has been taken off: zero when friction eats
      the push or would turn it round. */
  function FrictionalAcceleration(force: real, mass: real): (r: real)
    requires mass > 0.0
    ensures r == 0.0 || Sign(r) == Sign(force)
    ensures Abs(force) <= mass * GRAVITATIONAL_CONSTANT ==> r == 0.0
    ensures Abs(force) > mass * GRAVITATIONAL_CONSTANT + 1.0 / 2000.0 ==> r != 0.0
    ensures r != 0.0 ==> r * mass == Utils.SubtractScalar(force, mass * GRAVITATIONAL_CONSTANT)
  {
    NetAcceleration(force, mass * GRAVITATIONAL_CONSTANT, mass)
  }

  /** A non-zero acceleration, times the mass, is the push less friction,
      to within the rounding of `subtractScalar`. */
  lemma FrictionalAccelerationApprox(force: real, mass: real)
    requires mass > 0.0
    ensures var r := FrictionalAcceleration(force, mass);
      r != 0.0 ==> -1.0 / 2000.0 < r * mass - Sign(force) * (Abs(force) - mass * GRAVITATIONAL_CONSTANT) <= 1.0 / 2000.0
  {
    var r := FrictionalAcceleration(force, mass);
    if r != 0.0 {
      var n := Utils.SubtractScalar(force, mass * GRAVITATIONAL_CONSTANT);
      assert r * mass == n;
      assert force != 0.0;
    }
  }

  /** The acceleration left once a friction that is not negative has been
      taken off the push. */
  function NetAcceleration(force: real, friction: real, mass: real): (r: real)
    requires mass > 0.0 && friction >= 0.0
    ensures r == 0.0 || Sign(r) == Sign(force)
    ensures Abs(force) <= friction ==> r == 0.0
    ensures Abs(force) > friction + 1.0 / 2000.0 ==> r != 0.0
    ensures r != 0.0 ==> r * mass == Utils.SubtractScalar(force, friction)
  {
    var netForce := Utils.SubtractScalar(force, friction);
    NetForceFacts(force, friction);
    if netForce != 0.0 && Sign(force) == Sign(netForce) then
      DivideFacts(netForce, mass);
      netForce / mass
    else
      0.0
  }

  /** Friction either keeps the push's sign or cancels the push: a push no
      larger than the friction never survives with its own sign, and one
      clearly larger always does. */
  lemma NetForceFacts(force: real, friction: real)
    requires friction >= 0.0
    ensures var n := Utils.SubtractScalar(force, friction);
      && (Abs(force) <= friction ==> !(n != 0.0 && Sign(force) == Sign(n)))
      && (Abs(force) > friction + 1.0 / 2000.0 ==> n != 0.0 && Sign(n) == Sign(force))
  {
    var n := Utils.SubtractScalar(force, friction);
    if Abs(force) > friction + 1.0 / 2000.0 {
      if force > 0.0 {
        assert n > force - friction - 1.0 / 2000.0;
      } else {
        assert force < 0.0;
        assert n <= -(Abs(force) - friction) + 1.0 / 2000.0;
      }
    }
  }

  /** Dividing by a positive number keeps the sign and is undone by
      multiplying back. */
  lemma DivideFacts(n: real, m: real)
    requires m > 0.0
    ensures (n / m) * m == n
    ensures n > 0.0 ==> n / m > 0.0
    ensures n < 0.0 ==> n / m < 0.0
  {
  }

  /** `initMembers`: unit mass, on the ground, no forces, no momentum, and
      heading the way the character faces. */
  function InitMembers(realX: real, realY: real, direction: int): (c: Character)
    ensures c.Valid() && c.IsGrounded() && c.mass == 1.0
    ensures c.realX == realX && c.realY == realY
    ensures c.forceX == 0.0 && c.forceY == 0.0 && c.forceZ == 0.0
    ensures c.momentumX == 0.0 && c.momentumY == 0.0 && c.momentumZ == 0.0
    ensures c.heading == c.direction == direction
  {
    SetMomentum(SetForces(Character(realX, realY, 0.0, 1.0, 0.0, 0.0, 0.0, 0.0, 0.0, 0.0, direction, direction)), 0.0, 0.0, 0.0)
  }

  /** `setForces` with its defaults: clears the frame's forces. */
  function SetForces(c: Character): (r: Character)
    ensures r.forceX == 0.0 && r.forceY == 0.0 && r.forceZ == 0.0
    ensures r.(forceX := c.forceX, forceY := c.forceY, forceZ := c.forceZ) == c
  {
    c.(forceX := 0.0, forceY := 0.0, forceZ := 0.0)
  }

  /** `applyForce`: forces accumulate over a frame. */
  function ApplyForce(c: Character, fx: real, fy: real, fz: real): (r: Character)
    ensures r.forceX - c.forceX == fx && r.forceY - c.forceY == fy && r.forceZ - c.forceZ == fz
    ensures r.(forceX := c.forceX, forceY := c.forceY, forceZ := c.forceZ) == c
  {
    c.(forceX := c.forceX + fx, forceY := c.forceY + fy, forceZ := c.forceZ + fz)
  }

  /** `setMomentum`: momentum is velocity times mass. */
  function SetMomentum(c: Character, vx: real, vy: real, vz: real): (r: Character)
    ensures c.mass != 0.0 ==>
      r.momentumX / c.mass == vx && r.momentumY / c.mass == vy && r.momentumZ / c.mass == vz
    ensures r.(momentumX := c.momentumX, momentumY := c.momentumY, momentumZ := c.momentumZ) == c
  {
    c.(momentumX := vx * c.mass, momentumY := vy * c.mass, momentumZ := vz * c.mass)
  }

  /** Applying forces in two steps is applying their sum, and clearing
      after applying is just clearing. */
  lemma ForcesCompose(c: Character, a: real, b: real, p: real, q: real, s: real, t: real)
    ensures ApplyForce(ApplyForce(c, a, p, s), b, q, t) == ApplyForce(c, a + b, p + q, s + t)
    ensures SetForces(ApplyForce(c, a, p, s)) == SetForces(c)
  {
  }

  /** `applyGravitationalForce`: only a character above the ground is
      pulled down, by its weight. */
  function ApplyGravitationalForce(c: Character): (r: Character)
    ensures c.realZ > 0.0 ==> r.forceZ == c.forceZ - c.mass * GRAVITATIONAL_CONSTANT
    ensures c.realZ <= 0.0 ==> r == c
    ensures r.(forceZ := c.forceZ) == c
  {
    if c.realZ <= 0.0 then c
    else ApplyForce(c, 0.0, 0.0, -(c.mass * GRAVITATIONAL_CONSTANT))
  }

  /** `updateMove`: move by the velocity. A vertical step never takes the
      character below the ground; what was moved becomes the new momentum. */
  function UpdateMove(c: Character): (r: Character)
    requires c.Valid()
    ensures r.Valid() && r.mass == c.mass
    ensures r.realX == c.realX + c.VelocityX()
    // Height is drawn as a shift up the screen: y plus z only follows the
    // planar velocity.
    ensures r.realY + r.realZ == c.realY + c.realZ + c.VelocityY()
    ensures c.realZ >= 0.0 ==> r.realZ >= 0.0
    ensures c.VelocityZ() != 0.0 && c.realZ + c.VelocityZ() < 0.0 ==> r.realZ == 0.0
    ensures c.VelocityZ() == 0.0 || c.realZ + c.VelocityZ() >= 0.0 ==> r.realZ == c.realZ + c.VelocityZ()
    ensures r.momentumX == c.VelocityX() * c.mass && r.momentumY == c.VelocityY() * c.mass
    ensures r.momentumZ == (r.realZ - c.realZ) * c.mass
    ensures r.forceX == c.forceX && r.forceY == c.forceY && r.forceZ == c.forceZ
    ensures r.direction == c.direction && r.heading == c.heading
  {
    Move(c, c.VelocityX(), c.VelocityY(), c.VelocityZ())
  }

  /** The body of `updateMove` for given velocities. */
  function Move(c: Character, vx: real, vy: real, vz: real): (r: Character)
    ensures r.mass == c.mass
    ensures r.realX == c.realX + vx
    ensures r.realY + r.realZ == c.realY + c.realZ + vy
    ensures vz != 0.0 && c.realZ + vz < 0.0 ==> r.realZ == 0.0
    ensures vz == 0.0 || c.realZ + vz >= 0.0 ==> r.realZ == c.realZ + vz
    ensures r.momentumX == vx * c.mass && r.momentumY == vy * c.mass
    ensures r.momentumZ == (r.realZ - c.realZ) * c.mass
    ensures r.forceX == c.forceX && r.forceY == c.forceY && r.forceZ == c.forceZ
    ensures r.direction == c.direction && r.heading == c.heading
  {
    var c1 := if vx != 0.0 then c.(realX := c.realX + vx) else c;
    var c2 := if vy != 0.0 then c1.(realY := c1.realY + vy) else c1;
    var successfulMovementZ := if vz != 0.0 then (if c2.realZ + vz < 0.0 then -c2.realZ else vz) else 0.0;
    var c3 := if vz != 0.0 then c2.(realZ := c2.realZ + successfulMovementZ, realY := c2.realY - successfulMovementZ) else c2;
    assert c3.realZ - c.realZ == successfulMovementZ;
    c3.(momentumX := vx * c.mass, momentumY := vy * c.mass, momentumZ := successfulMovementZ * c.mass)
  }

  /** `update`, without the animation and stop bookkeeping: gravity, the
      move, then the frame's forces are cleared. */
  function Update(c: Character): (r: Character)
    requires c.Valid()
    ensures r.Valid() && r.mass == c.mass
    ensures r.forceX == 0.0 && r.forceY == 0.0 && r.forceZ == 0.0
    ensures c.realZ >= 0.0 ==> r.realZ >= 0.0
    ensures r.direction == c.direction && r.heading == c.heading
  {
    SetForces(UpdateMove(ApplyGravitationalForce(c)))
  }

  /** A grounded character with no momentum and no force stays exactly where
      and as it is. */
  lemma RestIsStable(c: Character)
    requires c.Valid() && c.IsGrounded()
    requires c.forceX == 0.0 && c.forceY == 0.0 && c.forceZ == 0.0
    requires c.momentumX == 0.0 && c.momentumY == 0.0 && c.momentumZ == 0.0
    ensures !c.IsMoving()
    ensures Update(c) == c
  {
    assert c.AccelerationX() == 0.0;
    assert c.AccelerationY() == 0.0;
    assert c.AccelerationZ() == 0.0;
    assert NumberExt.Round(0.0) == 0.0;
  }

  /** A character in the air with no vertical momentum or force drops by
      one frame of gravity, or lands if that is closer than the ground. */
  lemma AirborneFalls(c: Character)
    requires c.Valid() && c.realZ > 0.0
    requires c.forceZ == 0.0 && c.momentumZ == 0.0
    ensures Update(c).realZ == (if c.realZ < GRAVITATIONAL_CONSTANT then 0.0 else c.realZ - GRAVITATIONAL_CONSTANT)
    ensures Update(c).momentumZ < 0.0
  {
    var g := ApplyGravitationalForce(c);
    assert g.AccelerationZ() == -GRAVITATIONAL_CONSTANT;
    RoundGravity();
    assert g.VelocityZ() == -GRAVITATIONAL_CONSTANT;
  }

  /** The gravitational constant is already a multiple of 1/10000. */
  lemma RoundGravity()
    ensures NumberExt.Round(-GRAVITATIONAL_CONSTANT) == -GRAVITATIONAL_CONSTANT
  {
    assert JsMath.Abs(-GRAVITATIONAL_CONSTANT) * 10000.0 == 100.0;
    assert JsMath.Round(100.0) == 100;
  }

  /** `isMoving` and `canMove` against the pushes: a character whose planar
      pushes friction absorbs and which has no vertical push is not moving,
      and a planar move needs a push beyond friction; a character that can
      move and is not pushed upward can still move after the frame. */
  lemma MovementStatus(c: Character)
    requires c.Valid()
    ensures (&& Abs(c.momentumX + c.forceX) <= c.FrictionalForce()
             && Abs(c.momentumY + c.forceY) <= c.FrictionalForce()
             && c.momentumZ + c.forceZ == 0.0) ==> !c.IsMoving()
    ensures c.VelocityX() != 0.0 ==> Abs(c.momentumX + c.forceX) > c.FrictionalForce()
    ensures c.VelocityY() != 0.0 ==> Abs(c.momentumY + c.forceY) > c.FrictionalForce()
    ensures c.CanMove() && c.momentumZ + c.forceZ <= 0.0 ==> Update(c).CanMove()
  {
    assert NumberExt.Round(0.0) == 0.0;
    if c.momentumZ + c.forceZ == 0.0 {
      assert c.AccelerationZ() == 0.0;
    }
    if c.CanMove() && c.momentumZ + c.forceZ <= 0.0 {
      assert ApplyGravitationalForce(c) == c;
      assert c.VelocityZ() <= 0.0 by {
        assert c.AccelerationZ() <= 0.0 by {
          DivideFacts(c.momentumZ + c.forceZ, c.mass);
        }
      }
    }
  }

  /** The cardinal directions a keypad code points along. */
  function Components(dir: int): (s: set<int>)
    ensures s <= {DOWN, LEFT, RIGHT, UP}
    ensures IsCardinal(dir) ==> s == {dir}
  {
    (if Utils.IsDownDirection(dir) then {DOWN} else {})
    + (if Utils.IsLeftDirection(dir) then {LEFT} else {})
    + (if Utils.IsRightDirection(dir) then {RIGHT} else {})
    + (if Utils.IsUpDirection(dir) then {UP} else {})
  }

  /** `updateDirection`: turn to face a new heading. A change of heading
      turns a cardinal facing toward a component of the new heading, the
      opposite one first, then the horizontal, then the vertical. */
  function UpdateDirection(c: Character, dir: int): (r: Character)
    ensures c.heading == dir ==> r == c
    ensures r.heading == dir
    ensures r.(direction := c.direction, heading := c.heading) == c
    ensures !IsCardinal(c.direction) ==> r.direction == c.direction
    ensures IsCardinal(c.direction) ==> IsCardinal(r.direction)
  {
    if c.heading == dir then c
    else
      var d := c.direction;
      var newDirection :=
        if d == DOWN then
          if Utils.IsUpDirection(dir) then UP
          else if Utils.IsLeftDirection(dir) then LEFT
          else if Utils.IsRightDirection(dir) then RIGHT
          else d
        else if d == LEFT then
          if Utils.IsRightDirection(dir) then RIGHT
          else if Utils.IsUpDirection(dir) then UP
          else if Utils.IsDownDirection(dir) then DOWN
          else d
        else if d == RIGHT then
          if Utils.IsLeftDirection(dir) then LEFT
          else if Utils.IsUpDirection(dir) then UP
          else if Utils.IsDownDirection(dir) then DOWN
          else d
        else if d == UP then
          if Utils.IsDownDirection(dir) then DOWN
          else if Utils.IsLeftDirection(dir) then LEFT
          else if Utils.IsRightDirection(dir) then RIGHT
          else d
        else d;
      c.(direction := newDirection, heading := dir)
  }

  /** For a new heading that is one of the eight codes, a cardinal facing
      ends up along the heading: exactly the heading when that is cardinal,
      and on a diagonal always the component it was not facing before. */
  lemma UpdateDirectionFollowsHeading(c: Character, dir: int)
    requires IsCardinal(c.direction) && IsDirectionCode(dir) && c.heading != dir
    ensures UpdateDirection(c, dir).direction in Components(dir)
    ensures IsCardinal(dir) ==> UpdateDirection(c, dir).direction == dir
    ensures !IsCardinal(dir) ==> UpdateDirection(c, dir).direction != c.direction
  {
  }

  /** The priority among the components of the new heading: the direction
      opposite the facing first, then a perpendicular one; a heading with no
      component other than the facing leaves the facing as it is. */
  lemma UpdateDirectionPriority(c: Character, dir: int)
    requires IsCardinal(c.direction) && c.heading != dir
    ensures 10 - c.direction in Components(dir) ==> UpdateDirection(c, dir).direction == 10 - c.direction
    ensures 10 - c.direction !in Components(dir) ==>
      forall p :: p in Components(dir) && p != c.direction ==> UpdateDirection(c, dir).direction == p
    ensures Components(dir) <= {c.direction} ==> UpdateDirection(c, dir).direction == c.direction
  {
  }

  /** Repeating a heading changes nothing. */
  lemma UpdateDirectionIdempotent(c: Character, dir: int)
    ensures UpdateDirection(UpdateDirection(c, dir), dir) == UpdateDirection(c, dir)
  {
  }
}
