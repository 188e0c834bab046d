/** Two-dimensional vectors over the reals, standing in for XNA's `Vector2`.
    Floating-point rounding is idealised away; `Vector2.Distance` comparisons are
    expressed through squared lengths, and `Vector2.Normalize` is a function the
    host supplies (see `IsNormalizer`), because the reals here have no square root. */
module Vectors {

  datatype Vec = Vec(x: real, y: real)

  const Zero: Vec := Vec(0.0, 0.0)

  function Add(a: Vec, b: Vec): Vec { Vec(a.x + b.x, a.y + b.y) }

  function Sub(a: Vec, b: Vec): Vec { Vec(a.x - b.x, a.y - b.y) }

  function Scale(a: Vec, k: real): Vec { Vec(a.x * k, a.y * k) }

  function Dot(a: Vec, b: Vec): real { a.x * b.x + a.y * b.y }

  /** The z component of the 3D cross product: zero exactly when `a` and `b` are parallel. */
  function Cross(a: Vec, b: Vec): real { a.x * b.y - a.y * b.x }

  function LengthSq(a: Vec): (r: real)
    ensures r >= 0.0
    ensures a == Zero ==> r == 0.0
  {
    SquareNonNegative(a.x);
    SquareNonNegative(a.y);
    a.x * a.x + a.y * a.y
  }

  /** `Vector2.Lerp(a, b, t)`. */
  function Lerp(a: Vec, b: Vec, t: real): Vec { Add(a, Scale(Sub(b, a), t)) }

  /** `Vector2.Distance(a, b) > t`, decided without a square root. */
  predicate FartherThan(a: Vec, b: Vec, t: real)
  {
    t < 0.0 || LengthSq(Sub(a, b)) > t * t
  }

  /** What `Vector2.Normalize` promises for a non-zero vector: a unit vector
      pointing the same way. (For the zero vector the real one yields NaN;
      nothing is promised here.) */
  ghost predicate IsNormalizer(normalize: Vec -> Vec)
  {
    forall v :: v != Zero ==>
      LengthSq(normalize(v)) == 1.0 && Cross(normalize(v), v) == 0.0 && Dot(normalize(v), v) > 0.0
  }

  /** `FartherThan` is exactly the comparison the source makes with `Vector2.Distance`:
      for the true (non-negative) distance `dist` between `a` and `b`, it holds iff `dist > t`. */
  lemma FartherThanIsDistance(a: Vec, b: Vec, t: real, dist: real)
    requires dist >= 0.0 && dist * dist == LengthSq(Sub(a, b))
    ensures FartherThan(a, b, t) <==> dist > t
  {
    if t >= 0.0 {
      if dist > t {
        assert dist * dist > t * t by {
          ProductPositive(dist - t, dist + t);
          assert dist * dist - t * t == (dist - t) * (dist + t);
        }
      } else {
        assert dist * dist <= t * t by { assert t * t - dist * dist == (t - dist) * (t + dist); }
      }
    }
  }

  lemma ProductPositive(a: real, b: real)
    requires a > 0.0 && b > 0.0
    ensures a * b > 0.0
  {
  }

  lemma SquareNonNegative(a: real)
    ensures a * a >= 0.0
  {
    if a < 0.0 {
      assert (-a) * (-a) == a * a;
    }
  }

  /** No point is farther than a non-negative distance from itself. */
  lemma NeverFartherFromItself(p: Vec, t: real)
    requires t >= 0.0
    ensures !FartherThan(p, p, t)
  {
    assert Sub(p, p) == Zero;
    SquareNonNegative(t);
  }

  /** Lerp at weight 0 is its first argument, exactly. */
  lemma LerpAtZero(a: Vec, b: Vec)
    ensures Lerp(a, b, 0.0) == a
  {
  }

  lemma ScaleFacts(u: Vec, v: Vec, k: real)
    ensures LengthSq(Scale(u, k)) == k * k * LengthSq(u)
    ensures Cross(Scale(u, k), v) == k * Cross(u, v)
    ensures Dot(Scale(u, k), v) == k * Dot(u, v)
  {
    calc {
      LengthSq(Scale(u, k));
      (u.x * k) * (u.x * k) + (u.y * k) * (u.y * k);
      k * k * (u.x * u.x + u.y * u.y);
    }
  }
}
