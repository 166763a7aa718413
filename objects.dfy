/** The data model of the engine (shapes, bodies, collision results) and the
    moment of inertia of a polygon shape.

    Raw pointers of the source become values: a shape holds its vertex lists
    as sequences, a body owns its shape, and a collision result names its two
    bodies by index. */
module Objects {
  import opened VectorMath
  import opened Floats

  /** The bounding-box type; its definition is not part of this model. */
  type AABB

  /** A convex polygon: `numPoints` vertices in local space (`pointArray`) and
      their world-space copies (`globalPointArray`). */
  datatype PolygonCollisionShape = PolygonCollisionShape(
    numPoints: int,
    pointArray: seq<Vector2>,
    globalPointArray: seq<Vector2>)

  datatype PhysicsObject = PhysicsObject(
    staticFriction: real,
    dynamicFriction: real,
    mass: real,
    inertia: real,
    invMass: real,
    invInertia: real,
    position: Vector2,
    velocity: Vector2,
    angularVelocity: real,
    rotation: real,
    gravityStrength: real,
    isStaticBody: bool,
    box: AABB,
    collisionShape: PolygonCollisionShape)

  /** A reference from a collision result to one of the bodies, by index;
      `Unset` where the source leaves the pointer uninitialised. */
  datatype BodyRef = Unset | BodyIndex(index: nat)

  datatype CollisionResult = CollisionResult(
    normal: Vector2,
    contact1: Vector2,
    contact2: Vector2,
    numContacts: int,
    penetrationDepth: real,
    isCollided: bool,
    object1: BodyRef,
    object2: BodyRef)

  /** The sum of `Cross(s[i], s[i + 1])` along the open chain of vertices `s`. */
  function ChainSum(s: seq<Vector2>): real
    decreases |s|
  {
    if |s| < 2 then 0.0 else Cross(s[0], s[1]) + ChainSum(s[1..])
  }

  /** The shoelace sum of the closed polygon `s`: every edge, including the
      closing edge from the last vertex back to the first. It is twice the
      signed area of the polygon. */
  function Shoelace(s: seq<Vector2>): real
  {
    if |s| == 0 then 0.0 else ChainSum(s) + Cross(s[|s| - 1], s[0])
  }

  /** What one iteration of the loop in `getPolygonInertia` adds, for the
      edge from vertex `i` to vertex `(i + 1) % n`: `term1` is zero, so it is
      the cross product of the edge's two ends. */
  function InertiaTerm(points: seq<Vector2>, n: nat, i: nat): (r: real)
    requires n <= |points| && i < n
    ensures r == Cross(points[i], points[(i + 1) % n])
  {
    var point1 := points[i];
    var point2 := points[(i + 1) % n];
    CrossSelfIsZero(point1);
    CrossSelfIsZero(point2);
    var term1 := Cross(point1, point1) + Cross(point2, point2);
    var term2 := Cross(point1, point2);
    term1 + term2
  }

  /** The accumulator of `getPolygonInertia` after its first `k` iterations. */
  function InertiaPrefix(points: seq<Vector2>, n: nat, k: nat): real
    requires n <= |points| && k <= n
  {
    if k == 0 then 0.0 else InertiaPrefix(points, n, k - 1) + InertiaTerm(points, n, k - 1)
  }

  /** The vertex count the loop runs over: a negative `numPoints` runs it
      zero times. */
  function LoopCount(numPoints: int): nat
  {
    if numPoints < 0 then 0 else numPoints
  }

  /** `getPolygonInertia`: the absolute shoelace sum of the first `numPoints`
      vertices, over 12. The source's `term1` is a cross product of a vertex
      with itself and contributes nothing. */
  method GetPolygonInertia(poly: PolygonCollisionShape) returns (r: real)
    requires poly.numPoints <= |poly.pointArray|
    ensures r >= 0.0
    ensures poly.numPoints <= 0 ==> r == 0.0
    ensures r == FAbs(Shoelace(poly.pointArray[..LoopCount(poly.numPoints)])) / 12.0
  {
    var points := poly.pointArray;
    var inertia := 0.0;
    var i := 0;
    while i < poly.numPoints
      invariant 0 <= i <= LoopCount(poly.numPoints)
      invariant inertia == InertiaPrefix(points, LoopCount(poly.numPoints), i)
    {
      var point1 := points[i];
      var point2 := points[(i + 1) % poly.numPoints];
      var term1 := Cross(point1, point1) + Cross(point2, point2);
      var term2 := Cross(point1, point2);
      inertia := inertia + term1 + term2;
      i := i + 1;
    }
    InertiaPrefixIsShoelace(points, LoopCount(poly.numPoints));
    r := FAbs(inertia) / 12.0;
  }

  /** Appending a vertex to a chain adds the edge to it. */
  lemma {:induction false} ChainSumAppend(s: seq<Vector2>, v: Vector2)
    requires |s| >= 1
    ensures ChainSum(s + [v]) == ChainSum(s) + Cross(s[|s| - 1], v)
    decreases |s|
  {
    if |s| == 1 {
      assert s + [v] == [s[0], v];
      assert ([s[0], v])[1..] == [v];
    } else {
      assert (s + [v])[1..] == s[1..] + [v];
      ChainSumAppend(s[1..], v);
    }
  }

  /** An iteration before the last one adds the cross product of its edge:
      its `term1` is zero and its next vertex does not wrap. */
  lemma InertiaTermOfInnerEdge(points: seq<Vector2>, n: nat, i: nat)
    requires n <= |points| && i + 1 < n
    ensures InertiaTerm(points, n, i) == Cross(points[i], points[i + 1])
  {
    assert (i + 1) % n == i + 1;
  }

  /** After `k < n` iterations the accumulator is the chain sum of the first
      `k + 1` vertices. */
  lemma {:induction false} InertiaPrefixIsChain(points: seq<Vector2>, n: nat, k: nat)
    requires n <= |points| && k < n
    ensures InertiaPrefix(points, n, k) == ChainSum(points[..k + 1])
  {
    if k > 0 {
      InertiaPrefixIsChain(points, n, k - 1);
      InertiaTermOfInnerEdge(points, n, k - 1);
      var chain := points[..k];
      assert points[..k + 1] == chain + [points[k]];
      assert chain[|chain| - 1] == points[k - 1];
      ChainSumAppend(chain, points[k]);
    }
  }

  /** The whole loop sums exactly the shoelace formula over `points[..n]`:
      the wrap-around of its last iteration is the closing edge. */
  lemma InertiaPrefixIsShoelace(points: seq<Vector2>, n: nat)
    requires n <= |points|
    ensures InertiaPrefix(points, n, n) == Shoelace(points[..n])
  {
    if n > 0 {
      InertiaPrefixIsChain(points, n, n - 1);
      CrossSelfIsZero(points[n - 1]);
      CrossSelfIsZero(points[0]);
      assert (n - 1 + 1) % n == 0;
    }
  }

  /** The last edge the loop visits runs from vertex `n - 1` back to vertex 0. */
  lemma InertiaLastEdgeWraps(points: seq<Vector2>, n: nat)
    requires 0 < n <= |points|
    ensures InertiaTerm(points, n, n - 1) == Cross(points[n - 1], points[0])
  {
    assert (n - 1 + 1) % n == 0;
  }

  /** The vertex list in the opposite order. */
  function Reverse(s: seq<Vector2>): (r: seq<Vector2>)
    ensures |r| == |s|
    ensures forall i :: 0 <= i < |s| ==> r[i] == s[|s| - 1 - i]
    decreases |s|
  {
    if |s| == 0 then [] else Reverse(s[1..]) + [s[0]]
  }

  /** Moving the first vertex to the end does not change the shoelace sum. */
  lemma ShoelaceRotateOnce(s: seq<Vector2>)
    requires |s| >= 1
    ensures Shoelace(s[1..] + [s[0]]) == Shoelace(s)
  {
    if |s| >= 2 {
      ChainSumAppend(s[1..], s[0]);
    } else {
      assert s[1..] + [s[0]] == s;
    }
  }

  /** Starting the vertex list at any vertex gives the same shoelace sum. */
  lemma {:induction false} ShoelaceRotate(s: seq<Vector2>, k: nat)
    requires k <= |s|
    ensures Shoelace(s[k..] + s[..k]) == Shoelace(s)
  {
    if k == 0 {
      assert s[0..] + s[..0] == s;
    } else {
      ShoelaceRotate(s, k - 1);
      var t := s[k - 1..] + s[..k - 1];
      assert t[0] == s[k - 1];
      assert t[1..] + [t[0]] == s[k..] + s[..k];
      ShoelaceRotateOnce(t);
    }
  }

  lemma {:induction false} ChainSumReverse(s: seq<Vector2>)
    ensures ChainSum(Reverse(s)) == -ChainSum(s)
    decreases |s|
  {
    if |s| >= 2 {
      ChainSumReverse(s[1..]);
      ChainSumAppend(Reverse(s[1..]), s[0]);
      CrossAntisymmetric(s[1], s[0]);
    } else {
      assert Reverse(s) == s;
    }
  }

  /** Reversing the winding order negates the shoelace sum. */
  lemma ShoelaceReverse(s: seq<Vector2>)
    ensures Shoelace(Reverse(s)) == -Shoelace(s)
  {
    if |s| > 0 {
      ChainSumReverse(s);
      CrossAntisymmetric(s[0], s[|s| - 1]);
    }
  }

  /** The inertia the engine computes is the same whichever vertex the list
      starts at and whichever way it winds. */
  lemma InertiaRotationAndReversal(s: seq<Vector2>, k: nat)
    requires k <= |s|
    ensures FAbs(Shoelace(s[k..] + s[..k])) / 12.0 == FAbs(Shoelace(s)) / 12.0
    ensures FAbs(Shoelace(Reverse(s))) / 12.0 == FAbs(Shoelace(s)) / 12.0
  {
    ShoelaceRotate(s, k);
    ShoelaceReverse(s);
  }
}
