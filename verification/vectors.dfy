/** The array-vector helpers of the collision response: dot products,
    reflections, the one-dimensional elastic collision formula applied per
    axis, and the mass and velocity a collision target contributes. A vector
    is a sequence of reals; the plugin always passes two components. */
module Vectors {
  import opened JsMath

  /** `dotProduct`: a left fold over the components of `a`, pairing each with
      the component of `b` at the same index. */
  function DotProduct(a: seq<real>, b: seq<real>): real
    requires |a| <= |b|
  {
    if |a| == 0 then 0.0
    else DotProduct(a[..|a| - 1], b) + a[|a| - 1] * b[|a| - 1]
  }

  /** `vectorMultiply`: every component scaled by `k`. */
  function VectorMultiply(v: seq<real>, k: real): (r: seq<real>)
    ensures |r| == |v|
    ensures forall i :: 0 <= i < |v| ==> r[i] == v[i] * k
  {
    seq(|v|, i requires 0 <= i < |v| => v[i] * k)
  }

  /** The dot product of equally long vectors is symmetric. */
  lemma {:induction false} DotProductSymmetric(a: seq<real>, b: seq<real>)
    requires |a| == |b|
    ensures DotProduct(a, b) == DotProduct(b, a)
  {
    if |a| > 0 {
      DotProductSymmetric(a[..|a| - 1], b[..|b| - 1]);
      DotProductPrefix(a[..|a| - 1], b);
      DotProductPrefix(b[..|b| - 1], a);
    }
  }

  /** Only the first `|a|` components of `b` matter. */
  lemma {:induction false} DotProductPrefix(a: seq<real>, b: seq<real>)
    requires |a| <= |b|
    ensures DotProduct(a, b[..|a|]) == DotProduct(a, b)
  {
    if |a| > 0 {
      DotProductPrefix(a[..|a| - 1], b);
      DotProductPrefix(a[..|a| - 1], b[..|a|]);
      assert b[..|a|][..|a| - 1] == b[..|a| - 1];
    }
  }

  /** A vector's dot product with itself (its squared length) is never negative. */
  lemma {:induction false} DotProductSelfNonNegative(v: seq<real>)
    ensures DotProduct(v, v) >= 0.0
  {
    if |v| > 0 {
      DotProductPrefix(v[..|v| - 1], v);
      DotProductSelfNonNegative(v[..|v| - 1]);
      assert v[..|v| - 1][..|v| - 1] == v[..|v| - 1];
      assert v[|v| - 1] * v[|v| - 1] >= 0.0;
    }
  }

  /** Scaling the second argument scales the dot product. */
  lemma {:induction false} DotProductScales(a: seq<real>, b: seq<real>, k: real)
    requires |a| <= |b|
    ensures DotProduct(a, VectorMultiply(b, k)) == k * DotProduct(a, b)
  {
    if |a| > 0 {
      DotProductScales(a[..|a| - 1], b, k);
      var n := |a| - 1;
      assert a[n] * (b[n] * k) == k * (a[n] * b[n]);
    }
  }

  /** `reflectX`: a two-component vector with x negated. */
  function ReflectX(v: seq<real>): (r: seq<real>)
    requires |v| >= 2
    ensures |r| == 2
    ensures r[0] == -v[0] && r[1] == v[1]
  {
    [-v[0], v[1]]
  }

  /** `reflectY`: a two-component vector with y negated. */
  function ReflectY(v: seq<real>): (r: seq<real>)
    requires |v| >= 2
    ensures |r| == 2
    ensures r[0] == v[0] && r[1] == -v[1]
  {
    [v[0], -v[1]]
  }

  /** Each reflection undoes itself, touches one component only, and keeps
      the squared length. */
  lemma ReflectionFacts(v: seq<real>)
    requires |v| >= 2
    ensures ReflectX(ReflectX(v)) == v[..2]
    ensures ReflectY(ReflectY(v)) == v[..2]
    ensures ReflectX(v)[0] == -v[0] && ReflectX(v)[1] == v[1]
    ensures ReflectY(v)[0] == v[0] && ReflectY(v)[1] == -v[1]
    ensures DotProduct(ReflectX(v), ReflectX(v)) == DotProduct(v[..2], v[..2])
    ensures DotProduct(ReflectY(v), ReflectY(v)) == DotProduct(v[..2], v[..2])
  {
    DotProductTwo(v[..2], v[..2]);
    DotProductTwo(ReflectX(v), ReflectX(v));
    DotProductTwo(ReflectY(v), ReflectY(v));
  }

  /** The dot product of two-component vectors written out. */
  lemma DotProductTwo(a: seq<real>, b: seq<real>)
    requires |a| == 2 <= |b|
    ensures DotProduct(a, b) == a[0] * b[0] + a[1] * b[1]
  {
    assert a[..1][..0] == [];
    assert DotProduct(a[..1], b) == a[0] * b[0];
  }

  /** `collisionFinalVectors`: the final velocities of a one-dimensional
      elastic collision of masses `m1`, `m2` moving at `v1`, `v2`. Momentum
      is conserved and the relative velocity reverses; for `m1 + m2 != 0`
      these two equations have exactly one solution. */
  function CollisionFinalVectors(m1: real, v1: real, m2: real, v2: real): (r: (real, real))
    requires m1 != 0.0 && m1 + m2 != 0.0
    ensures m1 * v1 + m2 * v2 == m1 * r.0 + m2 * r.1
    ensures v1 + r.0 == v2 + r.1
  {
    assert 1.0 + m2 / m1 != 0.0 by {
      assert (1.0 + m2 / m1) * m1 == m1 + m2;
    }
    var v1f := (v1 + (2.0 * v2 * m2 / m1) - (v1 * m2 / m1)) / (1.0 + m2 / m1);
    var v2f := v1 + v1f - v2;
    FormulaConservesMomentum(m1, v1, m2, v2, v1f);
    (v1f, v2f)
  }

  /** The algebra behind the first postcondition above. */
  lemma FormulaConservesMomentum(m1: real, v1: real, m2: real, v2: real, v1f: real)
    requires m1 != 0.0 && m1 + m2 != 0.0 && 1.0 + m2 / m1 != 0.0
    requires v1f == (v1 + (2.0 * v2 * m2 / m1) - (v1 * m2 / m1)) / (1.0 + m2 / m1)
    ensures m1 * v1 + m2 * v2 == m1 * v1f + m2 * (v1 + v1f - v2)
  {
    var k := m2 / m1;
    assert m2 == k * m1;
    assert v1f == (v1 + 2.0 * k * v2 - k * v1) / (1.0 + k) by {
      assert 2.0 * v2 * m2 / m1 == 2.0 * k * v2;
      assert v1 * m2 / m1 == k * v1;
    }
    assert (1.0 + k) * v1f == v1 + 2.0 * k * v2 - k * v1;
    calc {
      m1 * v1f + m2 * (v1 + v1f - v2);
    ==
      (m1 + m2) * v1f + m2 * v1 - m2 * v2;
    ==  { assert m1 + m2 == m1 * (1.0 + k); }
      m1 * ((1.0 + k) * v1f) + m2 * v1 - m2 * v2;
    ==
      m1 * (v1 + 2.0 * k * v2 - k * v1) + m2 * v1 - m2 * v2;
    ==  { assert m1 * k == m2; }
      m1 * v1 + m2 * v2;
    }
  }

  /** The two conservation equations fix the result: any pair that conserves
      momentum and reverses the relative velocity is the function's. */
  lemma CollisionFinalVectorsUnique(m1: real, v1: real, m2: real, v2: real, a: real, b: real)
    requires m1 != 0.0 && m1 + m2 != 0.0
    requires m1 * v1 + m2 * v2 == m1 * a + m2 * b
    requires v1 + a == v2 + b
    ensures (a, b) == CollisionFinalVectors(m1, v1, m2, v2)
  {
    var r := CollisionFinalVectors(m1, v1, m2, v2);
    assert b - r.1 == a - r.0;
    assert m1 * (a - r.0) + m2 * (b - r.1) == 0.0;
    var t := a - r.0;
    assert (m1 + m2) * t == 0.0;
    assert t == 0.0;
  }

  /** With momentum conserved and `v1 + v1f == v2 + v2f`, kinetic energy is
      conserved too. */
  lemma CollisionConservesEnergy(m1: real, v1: real, m2: real, v2: real)
    requires m1 != 0.0 && m1 + m2 != 0.0
    ensures var r := CollisionFinalVectors(m1, v1, m2, v2);
      m1 * v1 * v1 + m2 * v2 * v2 == m1 * r.0 * r.0 + m2 * r.1 * r.1
  {
    var r := CollisionFinalVectors(m1, v1, m2, v2);
    var a, b := r.0, r.1;
    assert m1 * (v1 - a) == m2 * (b - v2);
    assert v1 + a == v2 + b;
    calc {
      m1 * v1 * v1 - m1 * a * a;
    ==
      (m1 * (v1 - a)) * (v1 + a);
    ==
      (m2 * (b - v2)) * (v1 + a);
    ==
      (m2 * (b - v2)) * (v2 + b);
    ==
      m2 * b * b - m2 * v2 * v2;
    }
  }

  /** `elasticCollisionVectors`: the one-dimensional formula on x and on y
      independently; the first result is the subject's, the second the target's. */
  function ElasticCollisionVectors(m1: real, v1: seq<real>, m2: real, v2: seq<real>): (r: (seq<real>, seq<real>))
    requires |v1| >= 2 && |v2| >= 2
    requires m1 != 0.0 && m1 + m2 != 0.0
    ensures |r.0| == 2 && |r.1| == 2
    ensures forall i :: 0 <= i < 2 ==> m1 * v1[i] + m2 * v2[i] == m1 * r.0[i] + m2 * r.1[i]
    ensures forall i :: 0 <= i < 2 ==> v1[i] + r.0[i] == v2[i] + r.1[i]
  {
    var fx := CollisionFinalVectors(m1, v1[0], m2, v2[0]);
    var fy := CollisionFinalVectors(m1, v1[1], m2, v2[1]);
    ([fx.0, fy.0], [fx.1, fy.1])
  }

  /** The tile branch of `getCollidingVector`: for an x-collision the
      velocity's y is negated, otherwise its x (the crossed mapping is the
      source's). */
  function TileCollidingVector(velocity: seq<real>, isXCollision: bool): (r: seq<real>)
    requires |velocity| >= 2
    ensures |r| == 2
    ensures isXCollision ==> r[0] == velocity[0] && r[1] == -velocity[1]
    ensures !isXCollision ==> r[0] == -velocity[0] && r[1] == velocity[1]
  {
    if isXCollision then ReflectY(velocity) else ReflectX(velocity)
  }

  /** Bouncing off the same tile edge twice restores the velocity, and a
      bounce keeps the speed. */
  lemma TileCollidingVectorFacts(velocity: seq<real>, isXCollision: bool)
    requires |velocity| >= 2
    ensures TileCollidingVector(TileCollidingVector(velocity, isXCollision), isXCollision) == velocity[..2]
    ensures var r := TileCollidingVector(velocity, isXCollision);
      DotProduct(r, r) == DotProduct(velocity[..2], velocity[..2])
  {
    ReflectionFacts(velocity);
  }

  /** What the subject collides with. */
  datatype Target = Tile | Character(mass: real, momentum: seq<real>)

  const TILE_MASS: real := 1000000.0

  /** `getTargetMassAndVector`: a tile is a very heavy body at rest; a
      character contributes its mass and the velocity of its momentum. */
  function GetTargetMassAndVector(target: Target): (r: (real, seq<real>))
    requires target.Character? ==> target.mass != 0.0
    ensures target.Tile? ==> r == (TILE_MASS, [0.0, 0.0])
    ensures target.Character? ==> r.0 == target.mass
    ensures target.Character? ==> VectorMultiply(r.1, target.mass) == target.momentum
  {
    match target
    case Tile => (TILE_MASS, [0.0, 0.0])
    case Character(mass, momentum) =>
      var v := VectorMultiply(momentum, 1.0 / mass);
      var back := VectorMultiply(v, mass);
      assert back == momentum by {
        assert |back| == |momentum|;
        forall i | 0 <= i < |back|
          ensures back[i] == momentum[i]
        {
          assert v[i] == momentum[i] * (1.0 / mass);
          assert back[i] == v[i] * mass;
        }
      }
      (mass, v)
  }

  /** `getCollisionVectors` against a tile: the reflected velocity collides
      elastically with the tile's mass at rest. Momentum is conserved and the
      relative velocity reverses on both axes. */
  function TileCollisionVectors(m1: real, velocity: seq<real>, isXCollision: bool): (r: (seq<real>, seq<real>))
    requires |velocity| >= 2
    requires m1 > 0.0
    ensures |r.0| == 2 && |r.1| == 2
    ensures RestCollision(m1, TileCollidingVector(velocity, isXCollision), TILE_MASS, r)
  {
    var v1 := TileCollidingVector(velocity, isXCollision);
    var mv := GetTargetMassAndVector(Tile);
    ElasticAgainstRest(m1, v1, mv.0, mv.1);
    ElasticCollisionVectors(m1, v1, mv.0, mv.1)
  }

  /** A subject with mass `m1` and velocity `v1` hits a target of mass `m2`
      at rest and they leave with velocities `r.0` and `r.1`: on both axes
      momentum is conserved and the subject's velocity before plus its
      velocity after equals the target's velocity after (the relative
      velocity reverses). */
  predicate RestCollision(m1: real, v1: seq<real>, m2: real, r: (seq<real>, seq<real>))
  {
    && |v1| >= 2 && |r.0| == 2 && |r.1| == 2
    && (forall i :: 0 <= i < 2 ==> m1 * v1[i] == m1 * r.0[i] + m2 * r.1[i])
    && (forall i :: 0 <= i < 2 ==> v1[i] + r.0[i] == r.1[i])
  }

  /** The elastic formula against a target at rest satisfies `RestCollision`. */
  lemma ElasticAgainstRest(m1: real, v1: seq<real>, m2: real, v2: seq<real>)
    requires |v1| >= 2 && |v2| >= 2 && v2[0] == 0.0 && v2[1] == 0.0
    requires m1 != 0.0 && m1 + m2 != 0.0
    ensures RestCollision(m1, v1, m2, ElasticCollisionVectors(m1, v1, m2, v2))
  {
    var r := ElasticCollisionVectors(m1, v1, m2, v2);
    forall i | 0 <= i < 2
      ensures m1 * v1[i] == m1 * r.0[i] + m2 * r.1[i] && v1[i] + r.0[i] == r.1[i]
    {
      assert v2[i] == 0.0;
    }
  }

  /** `subtractScalar` (unrounded variant). */
  function SubtractScalar(scalar: real, add: real): (r: real)
    ensures scalar == 0.0 ==> r == 0.0
    ensures scalar != 0.0 ==> r == Sign(scalar) * (Abs(scalar) - add)
    ensures 0.0 <= add <= Abs(scalar) ==> r == 0.0 || Sign(r) == Sign(scalar)
  {
    if Sign(scalar) == 1.0 then scalar - add
    else if Sign(scalar) == -1.0 then scalar + add
    else 0.0
  }

  lemma SubtractScalarOdd(scalar: real, add: real)
    ensures SubtractScalar(-scalar, add) == -SubtractScalar(scalar, add)
  {
  }
}
