/** The three-component `Vector` class: componentwise arithmetic, the dot
    product, projection, and the two collision results built on them (a
    reflection off a tile, and the two-body elastic collision along the line
    between the bodies' centres). */
module Vector3D {
  import opened JsMath
  import NumberExt
  import opened Geometry

  datatype Vector = Vector(x: real, y: real, z: real)
  {
    function Add(v: Vector): (r: Vector)
      ensures r.x == x + v.x && r.y == y + v.y && r.z == z + v.z
    {
      Vector(x + v.x, y + v.y, z + v.z)
    }

    function Subtract(v: Vector): (r: Vector)
      ensures r.x == x - v.x && r.y == y - v.y && r.z == z - v.z
    {
      Vector(x - v.x, y - v.y, z - v.z)
    }

    /** Componentwise `Number.prototype.subtractMagnitude`. */
    function SubtractMagnitude(v: Vector): (r: Vector)
      ensures r.x == NumberExt.SubtractMagnitude(x, v.x)
      ensures r.y == NumberExt.SubtractMagnitude(y, v.y)
      ensures r.z == NumberExt.SubtractMagnitude(z, v.z)
    {
      Vector(NumberExt.SubtractMagnitude(x, v.x), NumberExt.SubtractMagnitude(y, v.y), NumberExt.SubtractMagnitude(z, v.z))
    }

    function Multiply(scalar: real): (r: Vector)
      ensures r.x == x * scalar && r.y == y * scalar && r.z == z * scalar
    {
      Vector(x * scalar, y * scalar, z * scalar)
    }

    /** The x and y components; z becomes 0. */
    function Planar(): (r: Vector)
      ensures r.x == x && r.y == y && r.z == 0.0
    {
      Vector(x, y, 0.0)
    }

    function Divide(scalar: real): (r: Vector)
      requires scalar != 0.0
      ensures r.x == x / scalar && r.y == y / scalar && r.z == z / scalar
    {
      Vector(x / scalar, y / scalar, z / scalar)
    }

    /** Strict equality of the three components. */
    predicate Equals(v: Vector)
    {
      x == v.x && y == v.y && z == v.z
    }

    function Dot(v: Vector): real
    {
      x * v.x + y * v.y + z * v.z
    }
  }

  /** Subtraction and addition of the same vector cancel, and so do
      multiplication and division by the same non-zero scalar. */
  lemma InverseOperations(a: Vector, b: Vector, s: real)
    requires s != 0.0
    ensures a.Subtract(b).Add(b) == a
    ensures a.Add(b).Subtract(b) == a
    ensures a.Multiply(s).Divide(s) == a
  {
  }

  /** `equals` is exactly equality of vectors. */
  lemma EqualsIsEquality(a: Vector, b: Vector)
    ensures a.Equals(b) <==> a == b
  {
  }

  /** Planar projection forgets z only, and doing it twice is doing it once. */
  lemma PlanarIdempotent(a: Vector)
    ensures a.Planar().Planar() == a.Planar()
    ensures a.Planar().Dot(a.Planar()) == a.x * a.x + a.y * a.y
  {
  }

  /** Componentwise magnitude subtraction commutes with negating the vector,
      and leaves the zero vector at zero. */
  lemma SubtractMagnitudeOdd(a: Vector, s: Vector)
    ensures a.Multiply(-1.0).SubtractMagnitude(s) == a.SubtractMagnitude(s).Multiply(-1.0)
    ensures Vector(0.0, 0.0, 0.0).SubtractMagnitude(s) == Vector(0.0, 0.0, 0.0)
  {
    NumberExt.SubtractMagnitudeOdd(a.x, s.x);
    NumberExt.SubtractMagnitudeOdd(a.y, s.y);
    NumberExt.SubtractMagnitudeOdd(a.z, s.z);
  }

  /** The dot product is symmetric and a vector's dot product with itself
      (its squared length) is not negative. */
  lemma DotFacts(a: Vector, b: Vector)
    ensures a.Dot(b) == b.Dot(a)
    ensures a.Dot(a) >= 0.0
  {
    assert a.Dot(b) == b.Dot(a) by {
      assert a.x * b.x == b.x * a.x && a.y * b.y == b.y * a.y && a.z * b.z == b.z * a.z;
    }
    Square(a.x);
    Square(a.y);
    Square(a.z);
  }

  /** A square is not negative, and positive unless the number is zero. */
  lemma Square(x: real)
    ensures x * x >= 0.0
    ensures x != 0.0 ==> x * x > 0.0
  {
    if x > 0.0 {
      assert x * x > 0.0;
    } else if x < 0.0 {
      assert (-x) * (-x) > 0.0;
    }
  }

  /** The dot product is linear in its first argument. */
  lemma DotLinear(a: Vector, b: Vector, k: real, w: Vector)
    ensures a.Subtract(b.Multiply(k)).Dot(w) == a.Dot(w) - k * b.Dot(w)
    ensures a.Add(b.Multiply(k)).Dot(w) == a.Dot(w) + k * b.Dot(w)
  {
    assert (a.x - b.x * k) * w.x == a.x * w.x - k * (b.x * w.x);
    assert (a.y - b.y * k) * w.y == a.y * w.y - k * (b.y * w.y);
    assert (a.z - b.z * k) * w.z == a.z * w.z - k * (b.z * w.z);
    assert (a.x + b.x * k) * w.x == a.x * w.x + k * (b.x * w.x);
    assert (a.y + b.y * k) * w.y == a.y * w.y + k * (b.y * w.y);
    assert (a.z + b.z * k) * w.z == a.z * w.z + k * (b.z * w.z);
  }

  /** `Vector.projection`: the vector projection of `a` onto `b`; the squared
      length of `b` is its dot product with itself. */
  function Projection(a: Vector, b: Vector): (r: Vector)
    requires b.Dot(b) != 0.0
    ensures r.x * b.y == r.y * b.x && r.y * b.z == r.z * b.y && r.x * b.z == r.z * b.x
  {
    var k := a.Dot(b) / b.Dot(b);
    var r := b.Multiply(k);
    assert r.x * b.y == k * (b.x * b.y) == r.y * b.x;
    assert r.y * b.z == k * (b.y * b.z) == r.z * b.y;
    assert r.x * b.z == k * (b.x * b.z) == r.z * b.x;
    r
  }

  /** What is left after projecting onto `b` is perpendicular to `b`;
      projecting a projection changes nothing; `b` projects onto itself. */
  lemma ProjectionFacts(a: Vector, b: Vector)
    requires b.Dot(b) != 0.0
    ensures a.Subtract(Projection(a, b)).Dot(b) == 0.0
    ensures Projection(Projection(a, b), b) == Projection(a, b)
    ensures Projection(b, b) == b
  {
    var L := b.Dot(b);
    var k := a.Dot(b) / L;
    var p := Projection(a, b);
    assert p == b.Multiply(k);
    DotLinear(a, b, k, b);
    assert k * L == a.Dot(b);
    DotScale(b, k, b);
    assert p.Dot(b) / L == k;
    assert Projection(p, b) == b.Multiply(k);
    assert L / L == 1.0;
    assert Projection(b, b) == b.Multiply(1.0);
  }

  /** Scaling the first argument scales the dot product. */
  lemma DotScale(a: Vector, k: real, w: Vector)
    ensures a.Multiply(k).Dot(w) == k * a.Dot(w)
  {
    assert (a.x * k) * w.x == k * (a.x * w.x);
    assert (a.y * k) * w.y == k * (a.y * w.y);
    assert (a.z * k) * w.z == k * (a.z * w.z);
  }

  /** `getTileCollisionResult`: when one of the subject's x-edges lies within
      0.0001 of the tile's opposite x-edge the hit is on x and the velocity's
      x is negated; otherwise its y is. The result is a one-element list. */
  function GetTileCollisionResult(velocity: Vector, subject: Box, tile: Box): (r: seq<Vector>)
    ensures |r| == 1
    ensures r[0].z == velocity.z
    ensures IsXCollision(subject, tile) ==> r[0].x == -velocity.x && r[0].y == velocity.y
    ensures !IsXCollision(subject, tile) ==> r[0].x == velocity.x && r[0].y == -velocity.y
  {
    var isXCollision := NumberExt.Abs(tile.x2 - subject.x1) <= 0.0001 || NumberExt.Abs(tile.x1 - subject.x2) <= 0.0001;
    var colliderVector := if isXCollision then Vector(-velocity.x, velocity.y, velocity.z) else Vector(velocity.x, -velocity.y, velocity.z);
    [colliderVector]
  }

  /** The subject's x-edge touches the tile's opposite x-edge (to 0.0001). */
  predicate IsXCollision(subject: Box, tile: Box)
  {
    -0.0001 <= tile.x2 - subject.x1 <= 0.0001 || -0.0001 <= tile.x1 - subject.x2 <= 0.0001
  }

  /** Bouncing off the same tile twice restores the velocity, and a bounce
      keeps the speed. */
  lemma TileCollisionResultFacts(velocity: Vector, subject: Box, tile: Box)
    ensures GetTileCollisionResult(GetTileCollisionResult(velocity, subject, tile)[0], subject, tile)[0] == velocity
    ensures GetTileCollisionResult(velocity, subject, tile)[0].Dot(GetTileCollisionResult(velocity, subject, tile)[0]) == velocity.Dot(velocity)
  {
  }

  /** `finalVectorForElasticCollisionBetweenTwoMovingObjects`: the velocity
      of body 1 (mass `m1`, velocity `v1`, centre `x1`) after an elastic
      collision with body 2. Only the component along `x1 - x2` changes. */
  function FinalVectorForElasticCollision(v1: Vector, m1: real, x1: Vector, v2: Vector, m2: real, x2: Vector): (r: Vector)
    requires m1 + m2 != 0.0
    requires x1.Subtract(x2).Dot(x1.Subtract(x2)) != 0.0
    ensures forall w: Vector :: w.Dot(x1.Subtract(x2)) == 0.0 ==> r.Dot(w) == v1.Dot(w)
  {
    var posDiffVector := x1.Subtract(x2);
    var coefficient := 2.0 * m2 / (m1 + m2);
    var dotProduct := v1.Subtract(v2).Dot(posDiffVector);
    var k := coefficient * dotProduct / posDiffVector.Dot(posDiffVector);
    var r := v1.Subtract(posDiffVector.Multiply(k));
    assert forall w: Vector :: w.Dot(posDiffVector) == 0.0 ==> r.Dot(w) == v1.Dot(w) by {
      forall w: Vector | w.Dot(posDiffVector) == 0.0
        ensures r.Dot(w) == v1.Dot(w)
      {
        DotLinear(v1, posDiffVector, k, w);
        DotFacts(w, posDiffVector);
      }
    }
    r
  }

  /** The scalar `k` such that the body's new velocity is `v1 - (x1 - x2) * k`;
      a name for a proof step, not a claim about the source. */
  function ImpulseScale(v1: Vector, m1: real, x1: Vector, v2: Vector, m2: real, x2: Vector): real
    requires m1 + m2 != 0.0
    requires x1.Subtract(x2).Dot(x1.Subtract(x2)) != 0.0
  {
    var d := x1.Subtract(x2);
    (2.0 * m2 / (m1 + m2)) * v1.Subtract(v2).Dot(d) / d.Dot(d)
  }

  /** The character-versus-character result: both bodies' new velocities,
      with the centres taken in the plane (z = 0). */
  function GetCharCollisionResult(v1: Vector, m1: real, c1x: real, c1y: real,
                                  v2: Vector, m2: real, c2x: real, c2y: real): (r: seq<Vector>)
    requires m1 + m2 != 0.0
    requires PlanarDistanceSquared(c1x, c1y, c2x, c2y) != 0.0
    ensures |r| == 2
    ensures r[0].z == v1.z && r[1].z == v2.z
  {
    var x1 := Vector(c1x, c1y, 0.0);
    var x2 := Vector(c2x, c2y, 0.0);
    CentresApart(x1, x2);
    var v1Prime := FinalVectorForElasticCollision(v1, m1, x1, v2, m2, x2);
    var v2Prime := FinalVectorForElasticCollision(v2, m2, x2, v1, m1, x1);
    assert Vector(0.0, 0.0, 1.0).Dot(x1.Subtract(x2)) == 0.0;
    assert Vector(0.0, 0.0, 1.0).Dot(x2.Subtract(x1)) == 0.0;
    assert v1Prime.Dot(Vector(0.0, 0.0, 1.0)) == v1.Dot(Vector(0.0, 0.0, 1.0));
    assert v2Prime.Dot(Vector(0.0, 0.0, 1.0)) == v2.Dot(Vector(0.0, 0.0, 1.0));
    [v1Prime, v2Prime]
  }

  /** The squared distance between two points of the plane. */
  function PlanarDistanceSquared(px: real, py: real, qx: real, qy: real): real
  {
    (px - qx) * (px - qx) + (py - qy) * (py - qy)
  }

  /** The squared distance between the planar centres, in either order, is
      the dot product of their difference with itself. */
  lemma CentresApart(x1: Vector, x2: Vector)
    requires x1.z == 0.0 && x2.z == 0.0
    requires PlanarDistanceSquared(x1.x, x1.y, x2.x, x2.y) != 0.0
    ensures x1.Subtract(x2).Dot(x1.Subtract(x2)) != 0.0
    ensures x2.Subtract(x1).Dot(x2.Subtract(x1)) != 0.0
  {
    var dx := x1.x - x2.x;
    var dy := x1.y - x2.y;
    assert x1.Subtract(x2).Dot(x1.Subtract(x2)) == dx * dx + dy * dy;
    assert (-dx) * (-dx) == dx * dx && (-dy) * (-dy) == dy * dy;
    assert x2.Subtract(x1).Dot(x2.Subtract(x1)) == dx * dx + dy * dy;
  }

  /** The elastic result moves body 1 by a multiple of `x1 - x2`. A proof
      step that unfolds the definition for the collision lemmas below. */
  lemma FinalVectorAlongCentres(v1: Vector, m1: real, x1: Vector, v2: Vector, m2: real, x2: Vector)
    requires m1 + m2 != 0.0
    requires x1.Subtract(x2).Dot(x1.Subtract(x2)) != 0.0
    ensures FinalVectorForElasticCollision(v1, m1, x1, v2, m2, x2)
      == v1.Subtract(x1.Subtract(x2).Multiply(ImpulseScale(v1, m1, x1, v2, m2, x2)))
  {
  }

  /** The two impulse scales, weighted by the masses, balance. */
  lemma ImpulseBalance(v1: Vector, m1: real, x1: Vector, v2: Vector, m2: real, x2: Vector)
    requires m1 + m2 != 0.0
    requires x1.Subtract(x2).Dot(x1.Subtract(x2)) != 0.0
    requires x2.Subtract(x1).Dot(x2.Subtract(x1)) != 0.0
    ensures m1 * ImpulseScale(v1, m1, x1, v2, m2, x2) == m2 * ImpulseScale(v2, m2, x2, v1, m1, x1)
  {
    var d := x1.Subtract(x2);
    var L := d.Dot(d);
    var P := v1.Subtract(v2).Dot(d);
    SwappedDifferences(v1, x1, v2, x2);
    ScaleBalance(m1, m2, P, L);
  }

  /** Swapping the two bodies negates both differences, which leaves their
      dot products unchanged. */
  lemma SwappedDifferences(v1: Vector, x1: Vector, v2: Vector, x2: Vector)
    ensures x2.Subtract(x1).Dot(x2.Subtract(x1)) == x1.Subtract(x2).Dot(x1.Subtract(x2))
    ensures v2.Subtract(v1).Dot(x2.Subtract(x1)) == v1.Subtract(v2).Dot(x1.Subtract(x2))
  {
    NegatedProduct(x1.x - x2.x, x1.x - x2.x);
    NegatedProduct(x1.y - x2.y, x1.y - x2.y);
    NegatedProduct(x1.z - x2.z, x1.z - x2.z);
    NegatedProduct(v1.x - v2.x, x1.x - x2.x);
    NegatedProduct(v1.y - v2.y, x1.y - x2.y);
    NegatedProduct(v1.z - v2.z, x1.z - x2.z);
  }

  lemma NegatedProduct(a: real, b: real)
    ensures (-a) * (-b) == a * b
  {
  }

  /** The scalar core of the balance: with the coefficients `2 m2 / M` and
      `2 m1 / M`, both weighted scales equal `2 m1 m2 P / (M L)`. */
  lemma ScaleBalance(m1: real, m2: real, P: real, L: real)
    requires m1 + m2 != 0.0 && L != 0.0
    ensures m1 * ((2.0 * m2 / (m1 + m2)) * P / L) == m2 * ((2.0 * m1 / (m1 + m2)) * P / L)
  {
    var M := m1 + m2;
    var t := 2.0 / M;
    var k := (t * P) / L;
    FactorScale(m2, t, P, L, M);
    FactorScale(m1, t, P, L, M);
    assert m1 * (m2 * k) == m2 * (m1 * k);
  }

  /** `(2 m / M) P / L` is `m` times a factor that does not depend on `m`. */
  lemma FactorScale(m: real, t: real, P: real, L: real, M: real)
    requires M != 0.0 && L != 0.0 && t == 2.0 / M
    ensures (2.0 * m / M) * P / L == m * ((t * P) / L)
  {
    assert 2.0 * m / M == m * t by { DivFactor(m, 2.0, M); }
    assert (m * t) * P == m * (t * P);
    DivFactor(m, t * P, L);
  }

  lemma DivFactor(a: real, b: real, c: real)
    requires c != 0.0
    ensures (a * b) / c == a * (b / c)
  {
  }

  /** The two-body result conserves total momentum. */
  lemma CharCollisionConservesMomentum(v1: Vector, m1: real, c1x: real, c1y: real,
                                       v2: Vector, m2: real, c2x: real, c2y: real)
    requires m1 + m2 != 0.0
    requires PlanarDistanceSquared(c1x, c1y, c2x, c2y) != 0.0
    ensures var r := GetCharCollisionResult(v1, m1, c1x, c1y, v2, m2, c2x, c2y);
      r[0].Multiply(m1).Add(r[1].Multiply(m2)) == v1.Multiply(m1).Add(v2.Multiply(m2))
  {
    var x1 := Vector(c1x, c1y, 0.0);
    var x2 := Vector(c2x, c2y, 0.0);
    CentresApart(x1, x2);
    var d := x1.Subtract(x2);
    var e := x2.Subtract(x1);
    var s1 := ImpulseScale(v1, m1, x1, v2, m2, x2);
    var s2 := ImpulseScale(v2, m2, x2, v1, m1, x1);
    ImpulseBalance(v1, m1, x1, v2, m2, x2);
    var r := GetCharCollisionResult(v1, m1, c1x, c1y, v2, m2, c2x, c2y);
    assert r[0] == v1.Subtract(d.Multiply(s1)) by {
      FinalVectorAlongCentres(v1, m1, x1, v2, m2, x2);
    }
    assert r[1] == v2.Subtract(e.Multiply(s2)) by {
      FinalVectorAlongCentres(v2, m2, x2, v1, m1, x1);
    }
    MomentumVector(r[0], r[1], v1, v2, d, e, s1, s2, m1, m2);
  }

  /** Opposite pushes along the same line, weighted by the masses, cancel. */
  lemma MomentumVector(p: Vector, q: Vector, a: Vector, b: Vector, d: Vector, e: Vector,
                       s1: real, s2: real, m1: real, m2: real)
    requires p == a.Subtract(d.Multiply(s1)) && q == b.Subtract(e.Multiply(s2))
    requires e.x == -d.x && e.y == -d.y && e.z == -d.z
    requires m1 * s1 == m2 * s2
    ensures p.Multiply(m1).Add(q.Multiply(m2)) == a.Multiply(m1).Add(b.Multiply(m2))
  {
    MomentumComponent(p.x, q.x, a.x, b.x, d.x, e.x, s1, s2, m1, m2);
    MomentumComponent(p.y, q.y, a.y, b.y, d.y, e.y, s1, s2, m1, m2);
    MomentumComponent(p.z, q.z, a.z, b.z, d.z, e.z, s1, s2, m1, m2);
  }

  /** One component of the momentum balance: opposite pushes along the same
      line, weighted by the masses, cancel. */
  lemma MomentumComponent(p: real, q: real, a: real, b: real, d: real, e: real, s1: real, s2: real, m1: real, m2: real)
    requires p == a - d * s1 && q == b - e * s2
    requires e == -d
    requires m1 * s1 == m2 * s2
    ensures p * m1 + q * m2 == a * m1 + b * m2
  {
    assert (a - d * s1) * m1 == a * m1 - d * (m1 * s1);
    assert (b - e * s2) * m2 == b * m2 + d * (m2 * s2);
  }

  /** Along the line between the centres the relative velocity reverses:
      its component along `c1 - c2` after the collision is the negation of
      the one before. */
  lemma CharCollisionReversesApproach(v1: Vector, m1: real, c1x: real, c1y: real,
                                      v2: Vector, m2: real, c2x: real, c2y: real)
    requires m1 + m2 != 0.0
    requires PlanarDistanceSquared(c1x, c1y, c2x, c2y) != 0.0
    ensures var r := GetCharCollisionResult(v1, m1, c1x, c1y, v2, m2, c2x, c2y);
      var d := Vector(c1x - c2x, c1y - c2y, 0.0);
      r[0].Subtract(r[1]).Dot(d) == -v1.Subtract(v2).Dot(d)
  {
    var x1 := Vector(c1x, c1y, 0.0);
    var x2 := Vector(c2x, c2y, 0.0);
    CentresApart(x1, x2);
    var d := x1.Subtract(x2);
    var e := x2.Subtract(x1);
    var s1 := ImpulseScale(v1, m1, x1, v2, m2, x2);
    var s2 := ImpulseScale(v2, m2, x2, v1, m1, x1);
    var r := GetCharCollisionResult(v1, m1, c1x, c1y, v2, m2, c2x, c2y);
    assert r[0] == v1.Subtract(d.Multiply(s1)) by {
      FinalVectorAlongCentres(v1, m1, x1, v2, m2, x2);
    }
    assert r[1] == v2.Subtract(e.Multiply(s2)) by {
      FinalVectorAlongCentres(v2, m2, x2, v1, m1, x1);
    }
    var L := d.Dot(d);
    var P := v1.Subtract(v2).Dot(d);
    SwappedDifferences(v1, x1, v2, x2);
    assert s1 == (2.0 * m2 / (m1 + m2)) * P / L;
    assert s2 == (2.0 * m1 / (m1 + m2)) * P / L;
    ScaleSum(m1, m2, P, L);
    ReversalVector(r[0], r[1], v1, v2, d, e, s1, s2, L, P);
  }

  /** The two impulses along the line, each times the squared distance, add
      up to twice the approach speed times that distance. */
  lemma ScaleSum(m1: real, m2: real, P: real, L: real)
    requires m1 + m2 != 0.0 && L != 0.0
    ensures ((2.0 * m2 / (m1 + m2)) * P / L) * L + ((2.0 * m1 / (m1 + m2)) * P / L) * L == 2.0 * P
  {
    var M := m1 + m2;
    var c1 := 2.0 * m2 / M;
    var c2 := 2.0 * m1 / M;
    assert (c1 * P / L) * L == c1 * P;
    assert (c2 * P / L) * L == c2 * P;
    assert c1 + c2 == 2.0 by {
      assert c1 * M == 2.0 * m2;
      assert c2 * M == 2.0 * m1;
      assert (c1 + c2) * M == c1 * M + c2 * M;
      assert (c1 + c2 - 2.0) * M == 0.0;
    }
    assert c1 * P + c2 * P == (c1 + c2) * P;
  }

  /** Opposite pushes along `d` whose sizes add up to twice the approach
      speed `P` turn the relative velocity's component along `d` from `P`
      into `-P`. */
  lemma ReversalVector(p: Vector, q: Vector, a: Vector, b: Vector, d: Vector, e: Vector,
                       s1: real, s2: real, L: real, P: real)
    requires p == a.Subtract(d.Multiply(s1)) && q == b.Subtract(e.Multiply(s2))
    requires e.x == -d.x && e.y == -d.y && e.z == -d.z
    requires L == d.Dot(d) && P == a.Subtract(b).Dot(d)
    requires s1 * L + s2 * L == 2.0 * P
    ensures p.Subtract(q).Dot(d) == -P
  {
    assert p.Dot(d) == a.Dot(d) - s1 * L by {
      DotLinear(a, d, s1, d);
    }
    assert e.Dot(d) == -L by {
      OppositeDot(d, e);
    }
    assert q.Dot(d) == b.Dot(d) - s2 * e.Dot(d) by {
      DotLinear(b, e, s2, d);
    }
    assert p.Subtract(q).Dot(d) == p.Dot(d) - q.Dot(d) by {
      DotSubtract(p, q, d);
    }
    assert P == a.Dot(d) - b.Dot(d) by {
      DotSubtract(a, b, d);
    }
  }

  /** The opposite of a vector meets it with minus its squared length. */
  lemma OppositeDot(d: Vector, e: Vector)
    requires e.x == -d.x && e.y == -d.y && e.z == -d.z
    ensures e.Dot(d) == -d.Dot(d)
  {
    assert e.x * d.x == -(d.x * d.x);
    assert e.y * d.y == -(d.y * d.y);
    assert e.z * d.z == -(d.z * d.z);
  }

  /** The dot product distributes over a difference in its first argument. */
  lemma DotSubtract(a: Vector, b: Vector, w: Vector)
    ensures a.Subtract(b).Dot(w) == a.Dot(w) - b.Dot(w)
  {
    assert (a.x - b.x) * w.x == a.x * w.x - b.x * w.x;
    assert (a.y - b.y) * w.y == a.y * w.y - b.y * w.y;
    assert (a.z - b.z) * w.z == a.z * w.z - b.z * w.z;
  }

  /** Each body keeps every velocity component perpendicular to the line
      between the centres (including z). */
  lemma CharCollisionKeepsPerpendicular(v1: Vector, m1: real, c1x: real, c1y: real,
                                        v2: Vector, m2: real, c2x: real, c2y: real, w: Vector)
    requires m1 + m2 != 0.0
    requires PlanarDistanceSquared(c1x, c1y, c2x, c2y) != 0.0
    requires w.x * (c1x - c2x) + w.y * (c1y - c2y) == 0.0
    ensures var r := GetCharCollisionResult(v1, m1, c1x, c1y, v2, m2, c2x, c2y);
      r[0].Dot(w) == v1.Dot(w) && r[1].Dot(w) == v2.Dot(w)
  {
    var x1 := Vector(c1x, c1y, 0.0);
    var x2 := Vector(c2x, c2y, 0.0);
    assert w.Dot(x1.Subtract(x2)) == 0.0;
    assert w.Dot(x2.Subtract(x1)) == 0.0 by {
      assert w.x * (c2x - c1x) + w.y * (c2y - c1y) == -(w.x * (c1x - c2x) + w.y * (c1y - c2y));
    }
  }
}
