# shart2D narrow phase, modelled in Dafny

shart2D is a small C engine for 2D rigid bodies with convex polygon shapes.
This project models three parts of it:

- **Vector algebra** (`vectormath.dfy`, module `VectorMath`): cross, negate,
  perp, add, sub, scale, dot, squared length and squared distance. These are
  total functions over `real`, with their algebraic identities proved as
  lemmas. The length and distance functions need a square root, so they are
  the predicates `IsLength` and `IsDistance`. `Normalize` is given the length
  of its argument.
- **Float sentinels** (`floats.dfy`, module `Floats`): the engine seeds its
  running minima and maxima with `INFINITY` and `-INFINITY`. `ExtReal` holds
  them exactly, so empty vertex lists behave as they do in the source. The
  module also has the subtraction, `fminf` and `fabsf` the engine uses.
- **Body data model and polygon inertia** (`objects.dfy`, module `Objects`):
  - the shape, body and collision-result structs, as datatypes;
  - `getPolygonInertia` as a method with its loop. It is proved equal to
    `|shoelace sum| / 12` of the first `numPoints` vertices, because the
    source's `term1` is a cross product of a vertex with itself and is always
    zero.
  - lemmas that the result does not change when the vertex list is rotated or
    its winding is reversed.
- **Separating Axis Theorem test** (`collision.dfy`, module `Collision`):
  - `getOverlap` and `polygonIntersect` are methods that keep the source's
    loops and the early `return`. They are proved against recursive
    specification functions:
    - `MinProjection`, `MaxProjection` and `Overlap` model the projection
      loops;
    - `SweepUpTo` models the axis walk over `SatAxes`, the wrap-around edge
      axes of both polygons.
  - Lemmas state what the walk computes:
    - the polygons are reported collided exactly when every axis has a
      positive overlap;
    - the walk stops at the first separating axis, without resetting the
      normal and depth;
    - on collision, the depth is the least overlap and the normal is the
      first axis that attains it; when at least one axis is tested, the depth
      is strictly positive;
    - swapping the polygons keeps the verdict and the depth;
    - the verdict does not depend on the edge axes being of unit length.
  - The edge axis is `normalize(Perp(edge))` for a `normalize` function that
    the caller supplies.
- **Examples** (`scenarios.dfy`, module `Scenarios`): worked cases on unit
  squares. The inertia is 1/6. A copy of the square moved by `dx >= 0` along
  x collides exactly when `dx < 1`. For `0 < dx < 1` the depth is `1 - dx`
  and the normal is the x axis.

The engine also comes with a prose design description, which is not part of
this project. That description and the code disagree in four places. The
model follows the code in each.

- The design description has the normal sign-corrected after detection so that it
  points from the first body to the second. `polygonIntersect` does no such
  correction. So `IntersectSwapSymmetric` proves that the verdict and the
  depth agree when the two polygons are swapped, but says nothing about the
  normal.
- The design description has degenerate edges skipped. The code normalizes every
  edge.
- The design description resolves an exactly-zero overlap with an epsilon. The
  code compares with `== 0.0f`, which is exact equality over the reals here.
- The design description rejects shapes with fewer than three vertices. The code
  accepts any count. The model does the same: two empty vertex lists give
  "collided" with depth 0 and a zero normal (`IntersectPicksFirstLeastOverlap`).

## Model

| member | source | states |
|---|---|---|
| VectorMath.Cross | src/include/vectormath.h:1-3 | `vec2Cross` over reals; no contract of its own: its properties are `CrossSelfIsZero`, `CrossAntisymmetric` and `CrossIsPerpDot` |
| VectorMath.Negate | src/include/vectormath.h:5-7 | `vec2Negate` over reals; no contract of its own: `NegateInvolutive` and `PerpTwiceIsNegate` state its properties |
| VectorMath.Perp | src/include/vectormath.h:9-11 | `vec2Perp`, the counter-clockwise quarter turn; no contract of its own: `PerpIsOrthogonal`, `PerpTwiceIsNegate` and `CrossIsPerpDot` state its properties |
| VectorMath.Add | src/include/vectormath.h:13-15 | `vec2Add` over reals; no contract of its own: `AddCommutative` and `SubUndoesAdd` state its properties |
| VectorMath.Sub | src/include/vectormath.h:17-19 | `vec2Sub` over reals; no contract of its own: `SubUndoesAdd` and `DistSquaredSymmetric` state its properties |
| VectorMath.Scale | src/include/vectormath.h:21-23 | `vec2Scale` over reals; no contract of its own: `ScaleByOne`, `DotOfScale` and `DotScaledRight` state its properties |
| VectorMath.Dot | src/include/vectormath.h:25-27 | `vec2Dot` over reals; no contract of its own: `LengthSquaredIsSelfDot`, `PerpIsOrthogonal` and `DotOfScale` state its properties |
| VectorMath.IsLength | src/include/vectormath.h:33-35 | holds when `length` is the non-negative square root of `lengthSquared(v)`, the value `vec2Length` returns; no contract of its own: `NormalizeIsUnit` uses it |
| VectorMath.IsDistance | src/include/vectormath.h:42-44 | holds when `d` is the length of `sub(v1, v2)`, the value `vec2Dist` returns; no contract of its own: `DistanceSymmetric` states its symmetry |
| VectorMath.LengthSquared | src/include/vectormath.h:29-31 | the squared length is never negative |
| VectorMath.DistSquared | src/include/vectormath.h:37-40 | the squared distance is never negative |
| VectorMath.Normalize | src/include/vectormath.h:46-49 | each component is divided by the given non-zero length, so scaling the result back by that length gives the input |
| VectorMath.NormalizeIsUnit | src/include/vectormath.h:46-49 | when the given length is the vector's true length (as `vec2Length` computes it) and is non-zero, the normalized vector has length 1 |
| VectorMath.CrossSelfIsZero | src/include/vectormath.h:1-3 | `cross(v, v) == 0` |
| VectorMath.CrossAntisymmetric | src/include/vectormath.h:1-3 | `cross(a, b) == -cross(b, a)` |
| VectorMath.CrossIsPerpDot | src/include/vectormath.h:1-11 | `cross(a, b) == dot(perp(a), b)` |
| VectorMath.PerpIsOrthogonal | src/include/vectormath.h:9-11 | `dot(perp(v), v) == 0` |
| VectorMath.PerpTwiceIsNegate | src/include/vectormath.h:5-11 | two quarter turns make a negation |
| VectorMath.NegateInvolutive | src/include/vectormath.h:5-7 | negating twice gives the vector back |
| VectorMath.SubUndoesAdd | src/include/vectormath.h:13-19 | `sub(add(a, b), b) == a` |
| VectorMath.AddCommutative | src/include/vectormath.h:13-15 | `add(a, b) == add(b, a)` |
| VectorMath.LengthSquaredIsSelfDot | src/include/vectormath.h:25-31 | `lengthSquared(v) == dot(v, v)` |
| VectorMath.DistSquaredSymmetric | src/include/vectormath.h:37-40 | `distSquared(a, b)` is `lengthSquared(sub(a, b))` and equals `distSquared(b, a)` |
| VectorMath.ScaleByOne | src/include/vectormath.h:21-23 | scaling by 1 gives the vector back |
| VectorMath.DotOfScale | src/include/vectormath.h:21-27 | `dot(scale(v, s), w) == s * dot(v, w)` |
| VectorMath.DotScaledRight | src/include/vectormath.h:21-27 | `dot(v, scale(w, s)) == s * dot(v, w)` |
| VectorMath.DistanceSymmetric | src/include/vectormath.h:42-44 | a distance from `a` to `b` is also one from `b` to `a` |
| Floats.Minus | src/include/collision.h:31-32 | the difference of two extended reals is infinite exactly when one operand is, with the sign this implies, and is the real difference when both are finite |
| Floats.FMin | src/include/collision.h:39 | `fminf` returns one of its arguments, and it is no greater than either |
| Floats.FAbs | src/include/objects.h:53 | `fabsf` is non-negative and is the argument or its negation |
| Objects.InertiaTerm | src/include/objects.h:44-50 | what one iteration adds is the cross product of vertex `i` with vertex `(i + 1) % n`: `term1` is zero |
| Objects.InertiaPrefix | src/include/objects.h:43-50 | the accumulator after `k` iterations; no contract of its own: `InertiaPrefixIsChain` and `InertiaPrefixIsShoelace` state what it equals |
| Objects.GetPolygonInertia | src/include/objects.h:38-54 | the result is non-negative, is 0 when `numPoints <= 0`, and is `|shoelace sum| / 12` of the first `numPoints` vertices, closing edge included |
| Objects.InertiaTermOfInnerEdge | src/include/objects.h:44-50 | an iteration before the last adds the cross product of vertex `i` with vertex `i + 1`: the `% n` does not wrap |
| Objects.InertiaPrefixIsChain | src/include/objects.h:43-50 | after `k` iterations the accumulator is the edge cross-product sum along vertices `0..k`: `term1` adds nothing |
| Objects.InertiaPrefixIsShoelace | src/include/objects.h:43-51 | the full loop sums exactly the shoelace formula of the polygon |
| Objects.InertiaLastEdgeWraps | src/include/objects.h:45 | the last iteration's edge runs from vertex `n - 1` back to vertex 0 |
| Objects.ChainSumAppend | src/include/objects.h:43-50 | appending a vertex adds the cross product of the new edge |
| Objects.ShoelaceRotate | src/include/objects.h:43-53 | starting the vertex list at any vertex gives the same sum |
| Objects.ShoelaceReverse | src/include/objects.h:43-53 | reversing the winding order negates the sum |
| Objects.InertiaRotationAndReversal | src/include/objects.h:43-53 | the inertia is unchanged by rotating the vertex list and by reversing it |
| Collision.MinProjection | src/include/collision.h:12-19 | the running minimum is never `-INFINITY`, and it is `INFINITY` exactly when the list is empty |
| Collision.MaxProjection | src/include/collision.h:12-19 | the running maximum is never `INFINITY`, and it is `-INFINITY` exactly when the list is empty |
| Collision.Overlap | src/include/collision.h:30-40 | the overlap is never negative, and it is 0 when either list is empty |
| Collision.GetOverlap | src/include/collision.h:11-41 | the two projection loops and the final comparison compute `Overlap` |
| Collision.MinProjectionIsLeast | src/include/collision.h:12-19 | for a non-empty list, `min1` is finite, no greater than any vertex's projection, and equal to one of them |
| Collision.MaxProjectionIsGreatest | src/include/collision.h:12-19 | for a non-empty list, `max1` is finite, no less than any vertex's projection, and equal to one of them |
| Collision.ProjectionIntervalOrdered | src/include/collision.h:12-28 | for a non-empty list, the minimum projection is at most the maximum |
| Collision.MaxBeyondMinIff | src/include/collision.h:31-32 | `max1 > min2` exactly when some vertex of the first polygon projects beyond some vertex of the second |
| Collision.OverlapPositiveIff | src/include/collision.h:31-40 | the overlap is positive exactly when each polygon has a vertex projecting beyond one of the other's |
| Collision.OverlapOfIntervals | src/include/collision.h:31-40 | for non-empty lists, a negative `max1 - min2` or `max2 - min1` gives 0; otherwise the result is the smaller of the two |
| Collision.OverlapSymmetric | src/include/collision.h:31-39 | swapping the two point sets gives the same overlap |
| Collision.NextIndex | src/include/collision.h:52 | the next vertex index is `(i + 1) % n`, a valid index: `i + 1`, or 0 after the last vertex |
| Collision.EdgeAxes | src/include/collision.h:51-54 | there is one axis per vertex, the normalized perpendicular of the edge to the next vertex, wrapping at the end |
| Collision.SatAxisOfFirst | src/include/collision.h:52-54 | the axis built by the first loop at `i` is axis `i` of the walk |
| Collision.SatAxisOfSecond | src/include/collision.h:66-68 | the axis built by the second loop at `i` is axis `numPoints1 + i` of the walk |
| Collision.SatAxes | src/include/collision.h:51-77 | the walk tests `numPoints1 + numPoints2` axes, one per edge of either polygon |
| Collision.Step | src/include/collision.h:55-62 | one iteration of an edge loop on the walk's state; no contract of its own: `IterationStep`, `SweepKeepsSeparated` and `SweepKeepsFirstLeastOverlap` state its effect |
| Collision.SweepUpTo | src/include/collision.h:49-77 | the state after the first `k` axes, from `minOverlap = INFINITY`, zero normal and zero depth; no contract of its own: `SweepSeparatedIff`, `SweepKeepsFirstLeastOverlap` and `SweepStopsAtFirstSeparatingAxis` state what it holds |
| Collision.OverlapsOf | src/include/collision.h:55 | there is one overlap per axis |
| Collision.OverlapsOfAt | src/include/collision.h:55 | entry `k` is the overlap along axis `k` |
| Collision.OverlapsOfEntries | src/include/collision.h:55 | every entry is the overlap along its axis, and none is negative |
| Collision.Intersect | src/include/collision.h:43-82 | the outcome of the whole test; no contract of its own: `IntersectCollidedIff`, `IntersectPicksFirstLeastOverlap` and `IntersectSwapSymmetric` state what it holds |
| Collision.IntersectAt | src/include/collision.h:51-79 | the walk has `numPoints1 + numPoints2` axes, and `Intersect` is the walk over all of them |
| Collision.PolygonIntersect | src/include/collision.h:43-82 | the collided flag, the normal and the depth are those of the walk `Intersect`, early exit included |
| Collision.IterationStep | src/include/collision.h:55-62 | one loop iteration on axis `k`: a zero overlap fixes the final state as separated with normal and depth unchanged; a strictly smaller overlap replaces the normal, the depth and `minOverlap`; any other overlap leaves them |
| Collision.IntersectCollidedIff | src/include/collision.h:51-79 | the polygons are reported collided exactly when every edge axis of both gives a positive overlap |
| Collision.SweepKeepsSeparated | src/include/collision.h:56-57 | after a separating axis, the remaining axes change nothing |
| Collision.SweepSeparatedIff | src/include/collision.h:56-57 | the walk has stopped as separated exactly when a zero overlap was met |
| Collision.SweepKeepsFirstLeastOverlap | src/include/collision.h:58-61 | while not separated, the depth is the least overlap seen, and the normal is the first axis that attains it |
| Collision.SweepPicksFirstLeastOverlap | src/include/collision.h:58-61 | conversely, a positive least overlap with only strictly larger overlaps before it is the one reported |
| Collision.IntersectPicksFirstLeastOverlap | src/include/collision.h:49-79 | when collided, the depth is positive, no greater than any axis's overlap, and belongs to the first axis attaining it; with no axes, the result is collided with zero normal and depth |
| Collision.FirstZero | src/include/collision.h:56-57 | the result `e` is at most `m`; when `e < m`, the overlap at `e` is zero, and no overlap before `e` is |
| Collision.SweepStopsAtFirstSeparatingAxis | src/include/collision.h:56-57 | the result at an early exit is the state just before the first separating axis, with only the verdict changed: normal and depth are not reset |
| Collision.IntersectSwapSymmetric | src/include/collision.h:43-82 | testing the pair in the other order gives the same verdict and, on collision, the same depth |
| Collision.OverlapsCarryOver | src/include/collision.h:55 | every overlap of the pair is also an overlap of the swapped pair |
| Collision.SweepVerdictCarriesOver | src/include/collision.h:56-57 | a walk over overlaps that all occur in a second walk is separated only if the second one is |
| Collision.SweepDepthCarriesOver | src/include/collision.h:58-61 | on collision, a walk whose overlaps all occur in a second walk has a depth no smaller than the second's |
| Collision.SomeBeyondScaled | src/include/collision.h:16-18 | scaling the axis by a positive factor keeps every projection comparison |
| Collision.OverlapPositiveScaled | src/include/collision.h:11-41 | a positive factor on the axis keeps the overlap's positivity |
| Collision.IntersectVerdictIgnoresAxisLength | src/include/collision.h:54 | the collided flag is the same for any two `normalize` functions that differ by a positive factor per edge |
| Scenarios.UnitSquareInertia | src/include/objects.h:38-54 | a unit square has shoelace sum 2 and inertia 1/6 |
| Scenarios.SquareAxes | src/include/collision.h:51-54 | the four edge axes of a counter-clockwise unit square point down, right, up and left |
| Scenarios.SquareIntervals | src/include/collision.h:12-28 | the projected intervals of a unit square on its four axes |
| Scenarios.ShiftedSquareOverlaps | src/include/collision.h:30-40 | a square and a copy moved by `dx` along x overlap by 1 on the horizontal edges' axes, and by `1 - dx` (or 0) on the vertical ones |
| Scenarios.ShiftedSquareAxes | src/include/collision.h:51-77 | the walk for the two squares tests the four square axes twice |
| Scenarios.ShiftedSquareBounds | src/include/collision.h:30-40 | every axis of the two squares has an overlap of at least `1 - dx` (or 0) |
| Scenarios.ShiftedSquaresSeparate | src/include/collision.h:56-57 | the squares are reported separated once `dx >= 1` |
| Scenarios.ShiftedSquaresCollide | src/include/collision.h:79 | the squares are reported collided when `0 <= dx < 1` |
| Scenarios.LeastOverlapAtSecond | src/include/collision.h:55 | overlap bounds stated per axis hold of the overlap list: the second entry is `d`, the first exceeds it, and none is below it |
| Scenarios.IntersectLeastAtSecond | src/include/collision.h:43-82 | if the second axis tested overlaps by a positive `d`, the first by more and none by less, the result is collided with depth `d` and that axis as normal |
| Scenarios.ShiftedSquaresDepthAndNormal | src/include/collision.h:43-82 | for `0 < dx < 1` the squares collide with depth `1 - dx` and normal `(1, 0)` |
| Scenarios.ShiftedSquaresCollideIff | src/include/collision.h:43-82 | the squares are reported collided exactly when `0 <= dx < 1` |

## Left out

- Square roots. `vec2Length` and `vec2Dist` are the predicates `IsLength`
  and `IsDistance`. `Normalize` is given its length. `PolygonIntersect`
  takes the edge normalization as a function parameter. So no property
  about collisions depends on the axes being unit vectors.
- The duplicate `vec2Length` and `vec2Normalize` at the top of
  `src/include/collision.h` are modelled once, by the definitions in
  `vectormath.dfy`.
- IEEE-754 behaviour: rounding, the NaN axis that normalizing a zero-length
  edge produces, and NaN in `fminf`. Arithmetic is exact over `real`, and
  `== 0.0f` is exact equality. `Minus` excludes the two NaN-valued
  differences of equal infinities, which the source never forms.
- VectorMath.Normalize: requires a non-zero length, where the C division
  by zero gives infinite or NaN components.
- `numPoints1` and `numPoints2` are the lengths of the vertex sequences.
  This loses nothing: in the source a negative count runs no iteration,
  just as an empty list does.
- NaN axes. In C, a zero-length edge normalizes to a NaN axis. Every
  comparison in the projection loops is then false, the sentinels stay, and
  `getOverlap` returns 0. So `polygonIntersect` reports a polygon with a
  repeated consecutive vertex as not colliding. The `normalize` parameter is
  unconstrained and does not capture this.
- Pointers and memory. Vertex arrays are sequences that the methods
  only read, so the source's read-only use of them holds by construction.
  The shape pointer of a body is the shape itself. The body pointers of a
  collision result are indices.
- The result fields that `polygonIntersect` leaves uninitialised (contact
  points, contact count, body pointers) are zero or `Unset` in the model,
  and its contract says nothing about them.
- `AABB` has no definition among the core files, so it is an opaque type.
- `globalPointArray` is carried in the shape but not used by any
  operation modelled here.
- Objects.GetPolygonInertia: requires `numPoints` not to exceed the
  vertex list, which the source assumes silently. Reading past the array is
  undefined behaviour in C.
- Collision.IntersectSwapSymmetric: proves that the verdict and the depth
  are the same when the polygons are swapped, not that the normals are
  antiparallel. The source applies no sign correction, and the least
  overlap may be attained by a different axis in the other order.
- `src/main.c` (window, frame loop and drawing), broad phase, contact
  manifolds, the impulse solver and the integrator: these are not part of
  this model.
