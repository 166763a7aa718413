/** The narrow phase: the Separating Axis Theorem test between two convex
    polygons given by their world-space vertex lists.

    `GetOverlap` and `PolygonIntersect` keep the loops of the source and are
    proved against the recursive specification functions `Overlap` and
    `SweepUpTo`; the lemmas below say what those functions mean. The axis of
    every edge is `normalize(Perp(edge))`, where `normalize` is supplied by the
    caller (the engine's `vec2Normalize` needs a square root). Nothing here
    depends on the axes being of unit length. */
module Collision {
  import opened VectorMath
  import opened Floats
  import opened Objects

  /** The running minimum of `Dot(p, axis)` that a projection loop of
      `getOverlap` holds after visiting `points`, starting from INFINITY. */
  function MinProjection(points: seq<Vector2>, axis: Vector2): (m: ExtReal)
    ensures !m.NegInf?
    ensures m.PosInf? <==> |points| == 0
    decreases |points|
  {
    if |points| == 0 then PosInf
    else
      var m := MinProjection(points[..|points| - 1], axis);
      var dotProduct := Dot(points[|points| - 1], axis);
      if Less(Fin(dotProduct), m) then Fin(dotProduct) else m
  }

  /** The running maximum, starting from -INFINITY. */
  function MaxProjection(points: seq<Vector2>, axis: Vector2): (m: ExtReal)
    ensures !m.PosInf?
    ensures m.NegInf? <==> |points| == 0
    decreases |points|
  {
    if |points| == 0 then NegInf
    else
      var m := MaxProjection(points[..|points| - 1], axis);
      var dotProduct := Dot(points[|points| - 1], axis);
      if Less(m, Fin(dotProduct)) then Fin(dotProduct) else m
  }

  /** What `getOverlap` returns: the smaller of the two interval overlaps
      along `axis`, or 0 when either is negative. */
  function Overlap(axis: Vector2, points1: seq<Vector2>, points2: seq<Vector2>): (r: real)
    ensures r >= 0.0
    ensures |points1| == 0 || |points2| == 0 ==> r == 0.0
  {
    var overlap1 := Minus(MaxProjection(points1, axis), MinProjection(points2, axis));
    var overlap2 := Minus(MaxProjection(points2, axis), MinProjection(points1, axis));
    if Less(overlap1, Fin(0.0)) || Less(overlap2, Fin(0.0)) then 0.0
    else FMin(overlap1.value, overlap2.value)
  }

  /** `getOverlap`: projects both point lists onto `axis`, keeping a running
      minimum and maximum for each. */
  method GetOverlap(axis: Vector2, points1: seq<Vector2>, points2: seq<Vector2>) returns (r: real)
    ensures r == Overlap(axis, points1, points2)
  {
    var min1, max1 := PosInf, NegInf;
    var i := 0;
    while i < |points1|
      invariant 0 <= i <= |points1|
      invariant min1 == MinProjection(points1[..i], axis)
      invariant max1 == MaxProjection(points1[..i], axis)
    {
      var dotProduct := points1[i].x * axis.x + points1[i].y * axis.y;
      assert dotProduct == Dot(points1[..i + 1][i], axis);
      assert points1[..i + 1][..i] == points1[..i];
      if Less(Fin(dotProduct), min1) { min1 := Fin(dotProduct); }
      if Less(max1, Fin(dotProduct)) { max1 := Fin(dotProduct); }
      i := i + 1;
    }
    assert points1[..i] == points1;

    var min2, max2 := PosInf, NegInf;
    i := 0;
    while i < |points2|
      invariant 0 <= i <= |points2|
      invariant min2 == MinProjection(points2[..i], axis)
      invariant max2 == MaxProjection(points2[..i], axis)
    {
      var dotProduct := points2[i].x * axis.x + points2[i].y * axis.y;
      assert dotProduct == Dot(points2[..i + 1][i], axis);
      assert points2[..i + 1][..i] == points2[..i];
      if Less(Fin(dotProduct), min2) { min2 := Fin(dotProduct); }
      if Less(max2, Fin(dotProduct)) { max2 := Fin(dotProduct); }
      i := i + 1;
    }
    assert points2[..i] == points2;

    var overlap1 := Minus(max1, min2);
    var overlap2 := Minus(max2, min1);
    if Less(overlap1, Fin(0.0)) || Less(overlap2, Fin(0.0)) {
      r := 0.0;
    } else {
      r := FMin(overlap1.value, overlap2.value);
    }
  }

  /** On a non-empty list the running minimum is the least projection, and
      some vertex attains it. */
  lemma {:induction false} MinProjectionIsLeast(points: seq<Vector2>, axis: Vector2)
    requires |points| > 0
    ensures MinProjection(points, axis).Fin?
    ensures forall i :: 0 <= i < |points| ==> MinProjection(points, axis).value <= Dot(points[i], axis)
    ensures exists i :: 0 <= i < |points| && MinProjection(points, axis).value == Dot(points[i], axis)
    decreases |points|
  {
    var n := |points|;
    var m := MinProjection(points, axis);
    var last := Dot(points[n - 1], axis);
    if n == 1 {
      assert m.value == Dot(points[0], axis);
    } else {
      var pre := points[..n - 1];
      MinProjectionIsLeast(pre, axis);
      var mp := MinProjection(pre, axis);
      assert m.value <= mp.value && m.value <= last;
      forall i | 0 <= i < n
        ensures m.value <= Dot(points[i], axis)
      {
        if i < n - 1 {
          assert points[i] == pre[i];
        }
      }
      if m.value == last {
        assert m.value == Dot(points[n - 1], axis);
      } else {
        var j :| 0 <= j < |pre| && mp.value == Dot(pre[j], axis);
        assert points[j] == pre[j];
        assert m.value == Dot(points[j], axis);
      }
    }
  }

  /** On a non-empty list the running maximum is the greatest projection, and
      some vertex attains it. */
  lemma {:induction false} MaxProjectionIsGreatest(points: seq<Vector2>, axis: Vector2)
    requires |points| > 0
    ensures MaxProjection(points, axis).Fin?
    ensures forall i :: 0 <= i < |points| ==> Dot(points[i], axis) <= MaxProjection(points, axis).value
    ensures exists i :: 0 <= i < |points| && MaxProjection(points, axis).value == Dot(points[i], axis)
    decreases |points|
  {
    var n := |points|;
    var m := MaxProjection(points, axis);
    var last := Dot(points[n - 1], axis);
    if n == 1 {
      assert m.value == Dot(points[0], axis);
    } else {
      var pre := points[..n - 1];
      MaxProjectionIsGreatest(pre, axis);
      var mp := MaxProjection(pre, axis);
      assert mp.value <= m.value && last <= m.value;
      forall i | 0 <= i < n
        ensures Dot(points[i], axis) <= m.value
      {
        if i < n - 1 {
          assert points[i] == pre[i];
        }
      }
      if m.value == last {
        assert m.value == Dot(points[n - 1], axis);
      } else {
        var j :| 0 <= j < |pre| && mp.value == Dot(pre[j], axis);
        assert points[j] == pre[j];
        assert m.value == Dot(points[j], axis);
      }
    }
  }

  /** Each polygon's projected interval is well formed: `min <= max`. */
  lemma ProjectionIntervalOrdered(points: seq<Vector2>, axis: Vector2)
    requires |points| > 0
    ensures MinProjection(points, axis).value <= MaxProjection(points, axis).value
  {
    MinProjectionIsLeast(points, axis);
    MaxProjectionIsGreatest(points, axis);
    assert MinProjection(points, axis).value <= Dot(points[0], axis);
  }

  /** Some vertex of `p` projects strictly beyond some vertex of `q`. */
  ghost predicate SomeBeyond(p: seq<Vector2>, q: seq<Vector2>, axis: Vector2)
  {
    exists i, j :: 0 <= i < |p| && 0 <= j < |q| && Dot(p[i], axis) > Dot(q[j], axis)
  }

  /** The maximum of `p` lies beyond the minimum of `q` exactly when some
      vertex of `p` projects beyond some vertex of `q`. */
  lemma MaxBeyondMinIff(p: seq<Vector2>, q: seq<Vector2>, axis: Vector2)
    requires |p| > 0 && |q| > 0
    ensures MaxProjection(p, axis).value > MinProjection(q, axis).value <==> SomeBeyond(p, q, axis)
  {
    MaxProjectionIsGreatest(p, axis);
    MinProjectionIsLeast(q, axis);
    if MaxProjection(p, axis).value > MinProjection(q, axis).value {
      var i :| 0 <= i < |p| && MaxProjection(p, axis).value == Dot(p[i], axis);
      var j :| 0 <= j < |q| && MinProjection(q, axis).value == Dot(q[j], axis);
      assert Dot(p[i], axis) > Dot(q[j], axis);
    }
  }

  /** The overlap is positive exactly when the two projected intervals cross
      in both directions; otherwise the axis separates the polygons. */
  lemma OverlapPositiveIff(axis: Vector2, points1: seq<Vector2>, points2: seq<Vector2>)
    ensures Overlap(axis, points1, points2) > 0.0
        <==> SomeBeyond(points1, points2, axis) && SomeBeyond(points2, points1, axis)
  {
    if |points1| > 0 && |points2| > 0 {
      MaxBeyondMinIff(points1, points2, axis);
      MaxBeyondMinIff(points2, points1, axis);
    }
  }

  /** For non-empty lists, the overlap is `min(max1 - min2, max2 - min1)` when
      both differences are non-negative, and 0 when either is negative. */
  lemma OverlapOfIntervals(axis: Vector2, points1: seq<Vector2>, points2: seq<Vector2>)
    requires |points1| > 0 && |points2| > 0
    ensures var min1, max1 := MinProjection(points1, axis).value, MaxProjection(points1, axis).value;
            var min2, max2 := MinProjection(points2, axis).value, MaxProjection(points2, axis).value;
            && MinProjection(points1, axis).Fin? && MaxProjection(points1, axis).Fin?
            && MinProjection(points2, axis).Fin? && MaxProjection(points2, axis).Fin?
            && (max1 - min2 < 0.0 || max2 - min1 < 0.0 ==> Overlap(axis, points1, points2) == 0.0)
            && (max1 - min2 >= 0.0 && max2 - min1 >= 0.0 ==>
                  Overlap(axis, points1, points2) <= max1 - min2
                  && Overlap(axis, points1, points2) <= max2 - min1
                  && (Overlap(axis, points1, points2) == max1 - min2
                      || Overlap(axis, points1, points2) == max2 - min1))
  {
  }

  /** Swapping the two polygons does not change the overlap. */
  lemma OverlapSymmetric(axis: Vector2, points1: seq<Vector2>, points2: seq<Vector2>)
    ensures Overlap(axis, points1, points2) == Overlap(axis, points2, points1)
  {
  }

  /** The candidate axes of one polygon, edge by edge: edge `i` runs from
      vertex `i` to the next one, and the last edge wraps to vertex 0. */
  function EdgeAxes(normalize: Vector2 -> Vector2, points: seq<Vector2>): (axes: seq<Vector2>)
    ensures |axes| == |points|
    ensures forall i {:trigger axes[i]} :: 0 <= i < |points| ==> axes[i] == normalize(Perp(Sub(points[i], points[NextIndex(i, |points|)])))
  {
    seq(|points|, i requires 0 <= i < |points| => normalize(Perp(Sub(points[i], points[NextIndex(i, |points|)]))))
  }

  /** The index after `i` around a polygon of `n` vertices: `(i + 1) % n`. */
  function NextIndex(i: nat, n: nat): (j: nat)
    requires i < n
    ensures j < n
    ensures j == (i + 1) % n
    ensures i + 1 < n ==> j == i + 1
    ensures i + 1 == n ==> j == 0
  {
    if i + 1 < n then i + 1 else 0
  }

  /** The axis `polygonIntersect` derives from edge `i` of the first polygon,
      with the source's wrap-around index `next`. */
  lemma SatAxisOfFirst(normalize: Vector2 -> Vector2, points1: seq<Vector2>, points2: seq<Vector2>, i: nat, next: nat)
    requires i < |points1| && next == (i + 1) % |points1|
    ensures SatAxes(normalize, points1, points2)[i] == normalize(Perp(Sub(points1[i], points1[next])))
  {
    assert next == NextIndex(i, |points1|);
  }

  /** The axis `polygonIntersect` derives from edge `i` of the second
      polygon: the one tested after all `k == |points1| + i` before it. */
  lemma SatAxisOfSecond(normalize: Vector2 -> Vector2, points1: seq<Vector2>, points2: seq<Vector2>, i: nat, next: nat, k: nat)
    requires i < |points2| && next == (i + 1) % |points2| && k == |points1| + i
    ensures SatAxes(normalize, points1, points2)[k] == normalize(Perp(Sub(points2[i], points2[next])))
  {
    assert next == NextIndex(i, |points2|);
  }

  /** All axes `polygonIntersect` tests, in its order: the edges of the first
      polygon, then those of the second. */
  function SatAxes(normalize: Vector2 -> Vector2, points1: seq<Vector2>, points2: seq<Vector2>): (axes: seq<Vector2>)
    ensures |axes| == |points1| + |points2|
  {
    EdgeAxes(normalize, points1) + EdgeAxes(normalize, points2)
  }

  /** The state of `polygonIntersect` while it walks the axes: whether it has
      met a separating axis, the normal and depth stored in its result, and
      its `minOverlap`. */
  datatype Sweep = Sweep(separated: bool, normal: Vector2, depth: real, minOverlap: ExtReal)

  const Start := Sweep(false, Zero, 0.0, PosInf)

  /** One iteration of an edge loop of `polygonIntersect`, for an axis whose
      overlap is `overlap`. */
  function Step(s: Sweep, axis: Vector2, overlap: real): Sweep
  {
    if s.separated then s
    else if overlap == 0.0 then s.(separated := true)
    else if Less(Fin(overlap), s.minOverlap) then Sweep(false, axis, overlap, Fin(overlap))
    else s
  }

  /** The state after walking the first `k` of `axes` in order,
      `overlaps[i]` being the overlap along `axes[i]`; once a separating axis
      is met, the rest is not looked at. */
  function SweepUpTo(axes: seq<Vector2>, overlaps: seq<real>, k: nat): Sweep
    requires |overlaps| == |axes| && k <= |axes|
  {
    if k == 0 then Start
    else Step(SweepUpTo(axes, overlaps, k - 1), axes[k - 1], overlaps[k - 1])
  }

  /** The overlap of the two polygons along each of `axes`, in order. */
  function OverlapsOf(axes: seq<Vector2>, points1: seq<Vector2>, points2: seq<Vector2>): (overlaps: seq<real>)
    ensures |overlaps| == |axes|
    decreases |axes|
  {
    if |axes| == 0 then []
    else OverlapsOf(axes[..|axes| - 1], points1, points2) + [Overlap(axes[|axes| - 1], points1, points2)]
  }

  /** Entry `k` of `OverlapsOf` is the overlap along axis `k`. */
  lemma {:induction false} OverlapsOfAt(axes: seq<Vector2>, points1: seq<Vector2>, points2: seq<Vector2>, k: nat)
    requires k < |axes|
    ensures OverlapsOf(axes, points1, points2)[k] == Overlap(axes[k], points1, points2)
    decreases |axes|
  {
    var n := |axes|;
    if k < n - 1 {
      var pre := axes[..n - 1];
      OverlapsOfAt(pre, points1, points2, k);
      assert pre[k] == axes[k];
    }
  }

  /** Every entry of `OverlapsOf` is the overlap along its axis, and none is
      negative. */
  lemma OverlapsOfEntries(axes: seq<Vector2>, points1: seq<Vector2>, points2: seq<Vector2>)
    ensures forall k :: 0 <= k < |axes| ==> OverlapsOf(axes, points1, points2)[k] == Overlap(axes[k], points1, points2)
    ensures forall k :: 0 <= k < |axes| ==> OverlapsOf(axes, points1, points2)[k] >= 0.0
  {
    forall k | 0 <= k < |axes|
      ensures OverlapsOf(axes, points1, points2)[k] == Overlap(axes[k], points1, points2)
    {
      OverlapsOfAt(axes, points1, points2, k);
    }
  }

  /** The outcome of the whole test. */
  function Intersect(normalize: Vector2 -> Vector2, points1: seq<Vector2>, points2: seq<Vector2>): Sweep
  {
    var axes := SatAxes(normalize, points1, points2);
    SweepUpTo(axes, OverlapsOf(axes, points1, points2), |axes|)
  }

  /** `polygonIntersect`. The contact points, contact count and body
      references of the result are left uninitialised by the source; here
      they are zero and `Unset`. */
  method PolygonIntersect(normalize: Vector2 -> Vector2, points1: seq<Vector2>, points2: seq<Vector2>)
    returns (result: CollisionResult)
    ensures var s := Intersect(normalize, points1, points2);
            && result.isCollided == !s.separated
            && result.normal == s.normal
            && result.penetrationDepth == s.depth
  {
    ghost var axes := SatAxes(normalize, points1, points2);
    ghost var overlaps := OverlapsOf(axes, points1, points2);
    result := CollisionResult(Zero, Zero, Zero, 0, 0.0, false, Unset, Unset);
    var minOverlap := PosInf;

    ghost var done := 0;
    var i := 0;
    while i < |points1|
      invariant 0 <= i <= |points1| && done == i
      invariant SweepUpTo(axes, overlaps, done) == Sweep(false, result.normal, result.penetrationDepth, minOverlap)
      invariant !result.isCollided
    {
      var nextIndex := (i + 1) % |points1|;
      var edge := Sub(points1[i], points1[nextIndex]);
      var axis := normalize(Perp(edge));
      SatAxisOfFirst(normalize, points1, points2, i, nextIndex);
      var overlap := GetOverlap(axis, points1, points2);
      ghost var next := done + 1;
      OverlapsOfAt(axes, points1, points2, done);
      IterationStep(axes, overlaps, done, next, axis, overlap,
                    result.normal, result.penetrationDepth, minOverlap);
      if overlap == 0.0 {
        return;
      } else if Less(Fin(overlap), minOverlap) {
        result := result.(normal := axis, penetrationDepth := overlap);
        minOverlap := Fin(overlap);
      }
      i := i + 1;
      done := next;
    }

    i := 0;
    while i < |points2|
      invariant 0 <= i <= |points2| && done == |points1| + i
      invariant SweepUpTo(axes, overlaps, done) == Sweep(false, result.normal, result.penetrationDepth, minOverlap)
      invariant !result.isCollided
    {
      var nextIndex := (i + 1) % |points2|;
      var edge := Sub(points2[i], points2[nextIndex]);
      var axis := normalize(Perp(edge));
      SatAxisOfSecond(normalize, points1, points2, i, nextIndex, done);
      var overlap := GetOverlap(axis, points1, points2);
      ghost var next := done + 1;
      OverlapsOfAt(axes, points1, points2, done);
      IterationStep(axes, overlaps, done, next, axis, overlap,
                    result.normal, result.penetrationDepth, minOverlap);
      if overlap == 0.0 {
        return;
      } else if Less(Fin(overlap), minOverlap) {
        result := result.(normal := axis, penetrationDepth := overlap);
        minOverlap := Fin(overlap);
      }
      i := i + 1;
      done := next;
    }

    IntersectAt(normalize, points1, points2, axes, overlaps, done);
    result := result.(isCollided := true);
  }

  /** `Intersect` is the walk over all `n` axes of `SatAxes`. */
  lemma IntersectAt(normalize: Vector2 -> Vector2, points1: seq<Vector2>, points2: seq<Vector2>,
                    axes: seq<Vector2>, overlaps: seq<real>, n: nat)
    requires axes == SatAxes(normalize, points1, points2)
    requires overlaps == OverlapsOf(axes, points1, points2)
    requires n == |points1| + |points2|
    ensures n == |axes| == |overlaps|
    ensures Intersect(normalize, points1, points2) == SweepUpTo(axes, overlaps, n)
  {
  }

  /** One iteration of an edge loop on axis `k`, in terms of the running
      state of the loop: a zero overlap ends the walk as separated with the
      normal and depth unchanged; a strictly smaller overlap replaces the
      normal, the depth and the minimum; any other leaves them as they are. */
  lemma IterationStep(axes: seq<Vector2>, overlaps: seq<real>, k: nat, next: nat, axis: Vector2, overlap: real,
                      normal: Vector2, depth: real, minOverlap: ExtReal)
    requires |overlaps| == |axes|
    requires k < |axes| && next == k + 1 && axes[k] == axis && overlaps[k] == overlap
    requires SweepUpTo(axes, overlaps, k) == Sweep(false, normal, depth, minOverlap)
    ensures overlap == 0.0 ==> SweepUpTo(axes, overlaps, |axes|) == Sweep(true, normal, depth, minOverlap)
    ensures overlap != 0.0 && Less(Fin(overlap), minOverlap) ==>
              SweepUpTo(axes, overlaps, next) == Sweep(false, axis, overlap, Fin(overlap))
    ensures overlap != 0.0 && !Less(Fin(overlap), minOverlap) ==>
              SweepUpTo(axes, overlaps, next) == Sweep(false, normal, depth, minOverlap)
  {
    if overlap == 0.0 {
      SweepKeepsSeparated(axes, overlaps, next, |axes|);
    }
  }

  /** The verdict of the Separating Axis Theorem: the polygons collide
      exactly when every edge axis of both has a positive overlap. */
  lemma IntersectCollidedIff(normalize: Vector2 -> Vector2, points1: seq<Vector2>, points2: seq<Vector2>)
    ensures var axes := SatAxes(normalize, points1, points2);
            (!Intersect(normalize, points1, points2).separated)
              <==> (forall k :: 0 <= k < |axes| ==> Overlap(axes[k], points1, points2) > 0.0)
  {
    var axes := SatAxes(normalize, points1, points2);
    OverlapsOfEntries(axes, points1, points2);
    SweepSeparatedIff(axes, OverlapsOf(axes, points1, points2), |axes|);
  }

  /** What a collided result holds: the depth is the least overlap over all
      axes, it is positive, and the normal is the first axis attaining it
      (the comparison is strict). With no axes at all the result is the
      initial one: collided, zero normal, zero depth. */
  lemma IntersectPicksFirstLeastOverlap(normalize: Vector2 -> Vector2, points1: seq<Vector2>, points2: seq<Vector2>)
    ensures var axes := SatAxes(normalize, points1, points2);
            var s := Intersect(normalize, points1, points2);
            && (|axes| == 0 ==> !s.separated && s.normal == Zero && s.depth == 0.0)
            && (|axes| > 0 && !s.separated ==>
                  && s.depth > 0.0
                  && (forall k :: 0 <= k < |axes| ==> s.depth <= Overlap(axes[k], points1, points2))
                  && exists j :: 0 <= j < |axes|
                       && s.normal == axes[j]
                       && s.depth == Overlap(axes[j], points1, points2)
                       && forall k :: 0 <= k < j ==> s.depth < Overlap(axes[k], points1, points2))
  {
    var axes := SatAxes(normalize, points1, points2);
    var overlaps := OverlapsOf(axes, points1, points2);
    var s := SweepUpTo(axes, overlaps, |axes|);
    OverlapsOfEntries(axes, points1, points2);
    if |axes| > 0 && !s.separated {
      SweepSeparatedIff(axes, overlaps, |axes|);
      SweepKeepsFirstLeastOverlap(axes, overlaps, |axes|);
      var j :| 0 <= j < |axes| && s.normal == axes[j] && s.depth == overlaps[j]
               && forall k :: 0 <= k < j ==> s.depth < overlaps[k];
      assert overlaps[j] != 0.0;
    }
  }

  /** Once a separating axis has been met, the remaining axes change nothing:
      the early `return` of the source. */
  lemma {:induction false} SweepKeepsSeparated(axes: seq<Vector2>, overlaps: seq<real>, k: nat, m: nat)
    requires |overlaps| == |axes| && k <= m <= |axes|
    requires SweepUpTo(axes, overlaps, k).separated
    ensures SweepUpTo(axes, overlaps, m) == SweepUpTo(axes, overlaps, k)
    decreases m
  {
    if k < m {
      SweepKeepsSeparated(axes, overlaps, k, m - 1);
    }
  }

  /** The walk over the first `m` axes ends separated exactly when one of
      them has zero overlap. */
  lemma {:induction false} SweepSeparatedIff(axes: seq<Vector2>, overlaps: seq<real>, m: nat)
    requires |overlaps| == |axes| && m <= |axes|
    ensures SweepUpTo(axes, overlaps, m).separated <==> exists k :: 0 <= k < m && overlaps[k] == 0.0
    decreases m
  {
    if m > 0 {
      SweepSeparatedIff(axes, overlaps, m - 1);
    }
  }

  /** When no axis separates, the result holds the first axis of least
      overlap (the comparison is strict), and that overlap is the
      penetration depth: positive and no larger than any tested overlap. */
  lemma {:induction false} SweepKeepsFirstLeastOverlap(axes: seq<Vector2>, overlaps: seq<real>, m: nat)
    requires |overlaps| == |axes| && m <= |axes|
    requires forall k :: 0 <= k < m ==> overlaps[k] >= 0.0
    requires !SweepUpTo(axes, overlaps, m).separated
    ensures m == 0 ==> SweepUpTo(axes, overlaps, m) == Start
    ensures m > 0 ==>
      var s := SweepUpTo(axes, overlaps, m);
      && s.depth > 0.0
      && s.minOverlap == Fin(s.depth)
      && (forall k :: 0 <= k < m ==> s.depth <= overlaps[k])
      && exists j :: 0 <= j < m
           && s.normal == axes[j]
           && s.depth == overlaps[j]
           && forall k :: 0 <= k < j ==> s.depth < overlaps[k]
    decreases m
  {
    if m > 0 {
      var s := SweepUpTo(axes, overlaps, m - 1);
      assert !s.separated;
      SweepKeepsFirstLeastOverlap(axes, overlaps, m - 1);
      var overlap := overlaps[m - 1];
      assert overlap > 0.0;
      if m == 1 {
        assert SweepUpTo(axes, overlaps, m) == Sweep(false, axes[0], overlap, Fin(overlap));
      } else if Less(Fin(overlap), s.minOverlap) {
        assert SweepUpTo(axes, overlaps, m) == Sweep(false, axes[m - 1], overlap, Fin(overlap));
      } else {
        assert SweepUpTo(axes, overlaps, m) == s;
      }
    }
  }

  /** The converse: an axis whose overlap is positive and least, with every
      earlier axis overlapping strictly more, is the one the result holds. */
  lemma SweepPicksFirstLeastOverlap(axes: seq<Vector2>, overlaps: seq<real>, j: nat)
    requires |overlaps| == |axes| && j < |axes|
    requires overlaps[j] > 0.0
    requires forall k :: 0 <= k < |overlaps| ==> overlaps[j] <= overlaps[k]
    requires forall k :: 0 <= k < j ==> overlaps[j] < overlaps[k]
    ensures !SweepUpTo(axes, overlaps, |axes|).separated
    ensures SweepUpTo(axes, overlaps, |axes|).normal == axes[j]
    ensures SweepUpTo(axes, overlaps, |axes|).depth == overlaps[j]
  {
    SweepSeparatedIff(axes, overlaps, |axes|);
    SweepKeepsFirstLeastOverlap(axes, overlaps, |axes|);
    var s := SweepUpTo(axes, overlaps, |axes|);
    var i :| 0 <= i < |axes| && s.normal == axes[i] && s.depth == overlaps[i]
             && forall k :: 0 <= k < i ==> s.depth < overlaps[k];
    if i < j {
      assert false;
    } else if i > j {
      assert false;
    }
  }

  /** The index of the first zero among the first `m` overlaps, or `m` if
      there is none. */
  function FirstZero(overlaps: seq<real>, m: nat): (e: nat)
    requires m <= |overlaps|
    ensures e <= m
    ensures e < m ==> overlaps[e] == 0.0
    ensures forall k :: 0 <= k < e ==> overlaps[k] != 0.0
  {
    if m == 0 then 0
    else
      var e := FirstZero(overlaps, m - 1);
      if e < m - 1 then e
      else if overlaps[m - 1] == 0.0 then m - 1
      else m
  }

  /** When a separating axis is met, it is the first axis of zero overlap,
      and the normal and depth are still those of the axes before it: the
      early exit does not reset them. */
  lemma SweepStopsAtFirstSeparatingAxis(axes: seq<Vector2>, overlaps: seq<real>)
    requires |overlaps| == |axes|
    ensures var e := FirstZero(overlaps, |overlaps|);
            && (SweepUpTo(axes, overlaps, |axes|).separated <==> e < |axes|)
            && !SweepUpTo(axes, overlaps, e).separated
            && (e < |axes| ==>
                  SweepUpTo(axes, overlaps, |axes|) == SweepUpTo(axes, overlaps, e).(separated := true))
  {
    var e := FirstZero(overlaps, |overlaps|);
    SweepSeparatedIff(axes, overlaps, e);
    if e < |axes| {
      SweepKeepsSeparated(axes, overlaps, e + 1, |axes|);
    }
  }

  /** Testing the pair in the other order gives the same verdict and, when
      the polygons collide, the same penetration depth. (The normal may be
      a different axis of the same overlap; the source does not correct its
      sign.) */
  lemma IntersectSwapSymmetric(normalize: Vector2 -> Vector2, points1: seq<Vector2>, points2: seq<Vector2>)
    ensures Intersect(normalize, points1, points2).separated == Intersect(normalize, points2, points1).separated
    ensures !Intersect(normalize, points1, points2).separated ==>
              Intersect(normalize, points1, points2).depth == Intersect(normalize, points2, points1).depth
  {
    var a := SatAxes(normalize, points1, points2);
    var b := SatAxes(normalize, points2, points1);
    var oa, ob := OverlapsOf(a, points1, points2), OverlapsOf(b, points2, points1);
    OverlapsOfEntries(a, points1, points2);
    OverlapsOfEntries(b, points2, points1);
    OverlapsCarryOver(a, b, points1, points2, oa, ob);
    OverlapsCarryOver(b, a, points2, points1, ob, oa);
    SweepVerdictCarriesOver(a, oa, b, ob);
    SweepVerdictCarriesOver(b, ob, a, oa);
    if !SweepUpTo(a, oa, |a|).separated && |a| > 0 {
      SweepDepthCarriesOver(a, oa, b, ob);
      SweepDepthCarriesOver(b, ob, a, oa);
    }
  }

  /** When `b` holds every axis of `a`, every overlap of the pair along `a`
      is also an overlap of the swapped pair along `b`. The two axis lists of
      `polygonIntersect` for a pair and for the swapped pair are `E1 + E2` and
      `E2 + E1`, so each holds every axis of the other. */
  lemma OverlapsCarryOver(a: seq<Vector2>, b: seq<Vector2>, points1: seq<Vector2>, points2: seq<Vector2>,
                          oa: seq<real>, ob: seq<real>)
    requires forall v :: v in a ==> v in b
    requires oa == OverlapsOf(a, points1, points2) && ob == OverlapsOf(b, points2, points1)
    ensures forall x :: x in oa ==> x in ob
  {
    forall x | x in oa
      ensures x in ob
    {
      var j :| 0 <= j < |oa| && oa[j] == x;
      assert a[j] in b;
      var m :| 0 <= m < |b| && b[m] == a[j];
      OverlapsOfAt(a, points1, points2, j);
      OverlapsOfAt(b, points2, points1, m);
      OverlapSymmetric(a[j], points1, points2);
      assert ob[m] == x;
    }
  }

  /** If every overlap in `oa` occurs in `ob`, a walk over `oa` that meets a
      separating axis makes the walk over `ob` meet one too. */
  lemma SweepVerdictCarriesOver(a: seq<Vector2>, oa: seq<real>, b: seq<Vector2>, ob: seq<real>)
    requires |oa| == |a| && |ob| == |b|
    requires forall x :: x in oa ==> x in ob
    ensures SweepUpTo(a, oa, |a|).separated ==> SweepUpTo(b, ob, |b|).separated
  {
    SweepSeparatedIff(a, oa, |a|);
    SweepSeparatedIff(b, ob, |b|);
    if SweepUpTo(a, oa, |a|).separated {
      var k :| 0 <= k < |a| && oa[k] == 0.0;
      assert oa[k] in ob;
      var m :| 0 <= m < |ob| && ob[m] == oa[k];
      assert ob[m] == 0.0;
    }
  }

  /** If every overlap of `oa` occurs in `ob` and neither walk meets a
      separating axis, the depth the walk over `ob` keeps is no larger than
      the one over `oa` keeps. */
  lemma SweepDepthCarriesOver(a: seq<Vector2>, oa: seq<real>, b: seq<Vector2>, ob: seq<real>)
    requires |oa| == |a| && |ob| == |b| && |a| > 0 && |b| > 0
    requires forall k :: 0 <= k < |oa| ==> oa[k] >= 0.0
    requires forall k :: 0 <= k < |ob| ==> ob[k] >= 0.0
    requires forall x :: x in oa ==> x in ob
    requires !SweepUpTo(a, oa, |a|).separated && !SweepUpTo(b, ob, |b|).separated
    ensures SweepUpTo(b, ob, |b|).depth <= SweepUpTo(a, oa, |a|).depth
  {
    var sa, sb := SweepUpTo(a, oa, |a|), SweepUpTo(b, ob, |b|);
    SweepKeepsFirstLeastOverlap(a, oa, |a|);
    var j :| 0 <= j < |a| && sa.normal == a[j] && sa.depth == oa[j]
             && forall k :: 0 <= k < j ==> sa.depth < oa[k];
    assert oa[j] in ob;
    var m :| 0 <= m < |ob| && ob[m] == oa[j];
    SweepKeepsFirstLeastOverlap(b, ob, |b|);
    assert sb.depth <= ob[m];
  }

  /** Multiplying both sides by a positive factor keeps a strict order. */
  lemma ScaledGreater(c: real, x: real, y: real)
    requires c > 0.0
    ensures c * x > c * y <==> x > y
  {
    if x > y {
      assert c * x - c * y == c * (x - y);
    } else {
      assert c * y - c * x == c * (y - x);
    }
  }

  /** Stretching the axis by a positive factor changes no comparison between
      projections. */
  lemma SomeBeyondScaled(p: seq<Vector2>, q: seq<Vector2>, axis: Vector2, c: real)
    requires c > 0.0
    ensures SomeBeyond(p, q, Scale(axis, c)) <==> SomeBeyond(p, q, axis)
  {
    var scaled := Scale(axis, c);
    forall i, j | 0 <= i < |p| && 0 <= j < |q|
      ensures Dot(p[i], scaled) > Dot(q[j], scaled) <==> Dot(p[i], axis) > Dot(q[j], axis)
    {
      var x, y := Dot(p[i], axis), Dot(q[j], axis);
      var sx, sy := Dot(p[i], scaled), Dot(q[j], scaled);
      DotScaledRight(p[i], axis, c);
      DotScaledRight(q[j], axis, c);
      assert sx == c * x && sy == c * y;
      ScaledGreater(c, x, y);
    }
    if SomeBeyond(p, q, scaled) {
      var i, j :| 0 <= i < |p| && 0 <= j < |q| && Dot(p[i], scaled) > Dot(q[j], scaled);
      assert Dot(p[i], axis) > Dot(q[j], axis);
    }
    if SomeBeyond(p, q, axis) {
      var i, j :| 0 <= i < |p| && 0 <= j < |q| && Dot(p[i], axis) > Dot(q[j], axis);
      assert Dot(p[i], scaled) > Dot(q[j], scaled);
    }
  }

  /** Whether an axis separates the polygons does not depend on its length. */
  lemma OverlapPositiveScaled(axis: Vector2, c: real, points1: seq<Vector2>, points2: seq<Vector2>)
    requires c > 0.0
    ensures Overlap(Scale(axis, c), points1, points2) > 0.0 <==> Overlap(axis, points1, points2) > 0.0
  {
    OverlapPositiveIff(axis, points1, points2);
    OverlapPositiveIff(Scale(axis, c), points1, points2);
    SomeBeyondScaled(points1, points2, axis, c);
    SomeBeyondScaled(points2, points1, axis, c);
  }

  /** The collided flag of `polygonIntersect` is the same for any two
      normalizations that differ by a positive factor on each edge, so it
      does not rely on `vec2Normalize` returning unit vectors. */
  lemma IntersectVerdictIgnoresAxisLength(normalize1: Vector2 -> Vector2, normalize2: Vector2 -> Vector2,
                                          factor: Vector2 -> real, points1: seq<Vector2>, points2: seq<Vector2>)
    requires forall v :: factor(v) > 0.0 && normalize2(v) == Scale(normalize1(v), factor(v))
    ensures Intersect(normalize1, points1, points2).separated == Intersect(normalize2, points1, points2).separated
  {
    var axes1 := SatAxes(normalize1, points1, points2);
    var axes2 := SatAxes(normalize2, points1, points2);
    forall k | 0 <= k < |axes1|
      ensures Overlap(axes1[k], points1, points2) == 0.0 <==> Overlap(axes2[k], points1, points2) == 0.0
    {
      var edge := if k < |points1| then Sub(points1[k], points1[NextIndex(k, |points1|)])
                  else Sub(points2[k - |points1|], points2[NextIndex(k - |points1|, |points2|)]);
      assert axes1[k] == normalize1(Perp(edge));
      assert axes2[k] == normalize2(Perp(edge));
      OverlapPositiveScaled(axes1[k], factor(Perp(edge)), points1, points2);
    }
    OverlapsOfEntries(axes1, points1, points2);
    OverlapsOfEntries(axes2, points1, points2);
    SweepSeparatedIff(axes1, OverlapsOf(axes1, points1, points2), |axes1|);
    SweepSeparatedIff(axes2, OverlapsOf(axes2, points1, points2), |axes2|);
  }
}
