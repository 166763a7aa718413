/** Two-dimensional vector algebra of the engine, over the reals.

    The C source computes in `float`; here every operation is exact, so the
    algebraic identities below hold outright. The square root behind
    `vec2Length`, `vec2Dist` and `vec2Normalize` has no counterpart on `real`:
    a length is described by the predicate `IsLength`, and `Normalize` is
    handed the length of its argument by its caller. */
module VectorMath {

  datatype Vector2 = Vector2(x: real, y: real)

  const Zero := Vector2(0.0, 0.0)

  /** Scalar cross product: the z-component of the 3D cross product. */
  function Cross(v1: Vector2, v2: Vector2): (r: real)
  {
    v1.x * v2.y - v1.y * v2.x
  }

  function Negate(v: Vector2): (r: Vector2)
  {
    Vector2(-v.x, -v.y)
  }

  /** Counter-clockwise quarter turn. */
  function Perp(v: Vector2): (r: Vector2)
  {
    Vector2(-v.y, v.x)
  }

  function Add(v1: Vector2, v2: Vector2): (r: Vector2)
  {
    Vector2(v1.x + v2.x, v1.y + v2.y)
  }

  function Sub(v1: Vector2, v2: Vector2): (r: Vector2)
  {
    Vector2(v1.x - v2.x, v1.y - v2.y)
  }

  function Scale(v: Vector2, scalar: real): (r: Vector2)
  {
    Vector2(v.x * scalar, v.y * scalar)
  }

  function Dot(v1: Vector2, v2: Vector2): (r: real)
  {
    v1.x * v2.x + v1.y * v2.y
  }

  function LengthSquared(v: Vector2): (r: real)
    ensures r >= 0.0
  {
    v.x * v.x + v.y * v.y
  }

  function DistSquared(v1: Vector2, v2: Vector2): (r: real)
    ensures r >= 0.0
  {
    LengthSquared(Sub(v1, v2))
  }

  /** `length` is what `vec2Length(v)` computes: the non-negative square root
      of the squared length. */
  predicate IsLength(v: Vector2, length: real)
  {
    length >= 0.0 && length * length == LengthSquared(v)
  }

  /** `d` is what `vec2Dist(v1, v2)` computes. */
  predicate IsDistance(v1: Vector2, v2: Vector2, d: real)
  {
    IsLength(Sub(v1, v2), d)
  }

  /** `vec2Normalize`, with the length of `v` supplied by the caller: each
      component is divided by it, so scaling back by it gives `v`. */
  function Normalize(v: Vector2, length: real): (r: Vector2)
    requires length != 0.0
    ensures Scale(r, length) == v
  {
    Vector2(v.x / length, v.y / length)
  }

  /** Dividing a vector of non-zero length by that length gives a vector of
      length 1, whichever way the vector points. */
  lemma NormalizeIsUnit(v: Vector2, length: real)
    requires IsLength(v, length) && length != 0.0
    ensures IsLength(Normalize(v, length), 1.0)
  {
    var u := Normalize(v, length);
    assert v.x == u.x * length && v.y == u.y * length;
    calc {
      length * length;
      v.x * v.x + v.y * v.y;
      (u.x * length) * (u.x * length) + (u.y * length) * (u.y * length);
      (u.x * u.x + u.y * u.y) * (length * length);
    }
  }

  lemma CrossSelfIsZero(v: Vector2)
    ensures Cross(v, v) == 0.0
  {
  }

  lemma CrossAntisymmetric(a: Vector2, b: Vector2)
    ensures Cross(a, b) == -Cross(b, a)
  {
  }

  lemma CrossIsPerpDot(a: Vector2, b: Vector2)
    ensures Cross(a, b) == Dot(Perp(a), b)
  {
  }

  lemma PerpIsOrthogonal(v: Vector2)
    ensures Dot(Perp(v), v) == 0.0
  {
  }

  lemma PerpTwiceIsNegate(v: Vector2)
    ensures Perp(Perp(v)) == Negate(v)
  {
  }

  lemma NegateInvolutive(v: Vector2)
    ensures Negate(Negate(v)) == v
  {
  }

  lemma SubUndoesAdd(a: Vector2, b: Vector2)
    ensures Sub(Add(a, b), b) == a
  {
  }

  lemma AddCommutative(a: Vector2, b: Vector2)
    ensures Add(a, b) == Add(b, a)
  {
  }

  lemma LengthSquaredIsSelfDot(v: Vector2)
    ensures LengthSquared(v) == Dot(v, v)
  {
  }

  lemma DistSquaredSymmetric(a: Vector2, b: Vector2)
    ensures DistSquared(a, b) == LengthSquared(Sub(a, b))
    ensures DistSquared(a, b) == DistSquared(b, a)
  {
    assert Sub(b, a) == Negate(Sub(a, b));
  }

  lemma ScaleByOne(v: Vector2)
    ensures Scale(v, 1.0) == v
  {
  }

  lemma DotOfScale(v: Vector2, s: real, w: Vector2)
    ensures Dot(Scale(v, s), w) == s * Dot(v, w)
  {
  }

  lemma DotScaledRight(v: Vector2, w: Vector2, s: real)
    ensures Dot(v, Scale(w, s)) == s * Dot(v, w)
  {
  }

  lemma DistanceSymmetric(a: Vector2, b: Vector2, d: real)
    requires IsDistance(a, b, d)
    ensures IsDistance(b, a, d)
  {
    DistSquaredSymmetric(a, b);
  }
}
