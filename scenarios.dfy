/** Worked configurations: unit squares, for which the inertia and the
    collision verdict can be stated in closed form. The edges of an
    axis-aligned unit square already have unit length, so the engine's
    normalization leaves them unchanged and `Identity` stands in for it. */
module Scenarios {
  import opened VectorMath
  import opened Floats
  import opened Objects
  import opened Collision

  /** The unit square with lower-left corner `(x0, y0)`, counter-clockwise. */
  function Square(x0: real, y0: real): (s: seq<Vector2>)
    ensures |s| == 4
  {
    [Vector2(x0, y0), Vector2(x0 + 1.0, y0), Vector2(x0 + 1.0, y0 + 1.0), Vector2(x0, y0 + 1.0)]
  }

  /** The normalization that is exact on the unit-length edges of `Square`. */
  function Identity(v: Vector2): Vector2 { v }

  /** A unit square has shoelace sum 2 (twice its area) wherever it lies, so
      its polygon inertia is 1/6. */
  lemma UnitSquareInertia(x0: real, y0: real)
    ensures Shoelace(Square(x0, y0)) == 2.0
    ensures FAbs(Shoelace(Square(x0, y0))) / 12.0 == 1.0 / 6.0
  {
    var s := Square(x0, y0);
    var a, b, c, d := s[0], s[1], s[2], s[3];
    assert s[1..][1..] == [c, d];
    assert ChainSum([c, d]) == Cross(c, d);
    assert ChainSum(s[1..]) == Cross(b, c) + Cross(c, d);
    assert ChainSum(s) == Cross(a, b) + Cross(b, c) + Cross(c, d);
  }

  /** The axes of a square's four edges, in vertex order: down, right, up, left. */
  const SquareAxisList := [Vector2(0.0, -1.0), Vector2(1.0, 0.0), Vector2(0.0, 1.0), Vector2(-1.0, 0.0)]

  lemma SquareAxes(x0: real, y0: real)
    ensures EdgeAxes(Identity, Square(x0, y0)) == SquareAxisList
  {
    var s := Square(x0, y0);
    var e := EdgeAxes(Identity, s);
    assert Perp(Sub(s[0], s[1])) == SquareAxisList[0];
    assert Perp(Sub(s[1], s[2])) == SquareAxisList[1];
    assert Perp(Sub(s[2], s[3])) == SquareAxisList[2];
    assert Perp(Sub(s[3], s[0])) == SquareAxisList[3];
    SameFour(e, SquareAxisList);
  }

  /** Two four-element sequences with the same elements are equal. */
  lemma SameFour(a: seq<Vector2>, b: seq<Vector2>)
    requires |a| == 4 && |b| == 4
    requires a[0] == b[0] && a[1] == b[1] && a[2] == b[2] && a[3] == b[3]
    ensures a == b
  {
    assert forall i :: 0 <= i < 4 ==> a[i] == b[i];
  }

  /** The projected interval of a four-vertex list, from its extreme
      vertices `iLo` and `iHi`. */
  lemma IntervalOfFour(s: seq<Vector2>, axis: Vector2, iLo: nat, iHi: nat)
    requires |s| == 4 && iLo < 4 && iHi < 4
    requires Dot(s[iLo], axis) <= Dot(s[0], axis) <= Dot(s[iHi], axis)
    requires Dot(s[iLo], axis) <= Dot(s[1], axis) <= Dot(s[iHi], axis)
    requires Dot(s[iLo], axis) <= Dot(s[2], axis) <= Dot(s[iHi], axis)
    requires Dot(s[iLo], axis) <= Dot(s[3], axis) <= Dot(s[iHi], axis)
    ensures MinProjection(s, axis) == Fin(Dot(s[iLo], axis))
    ensures MaxProjection(s, axis) == Fin(Dot(s[iHi], axis))
  {
    MinProjectionIsLeast(s, axis);
    MaxProjectionIsGreatest(s, axis);
    var i :| 0 <= i < |s| && MinProjection(s, axis).value == Dot(s[i], axis);
    var j :| 0 <= j < |s| && MaxProjection(s, axis).value == Dot(s[j], axis);
    assert Dot(s[iLo], axis) <= Dot(s[i], axis) by {
      if i == 0 {} else if i == 1 {} else if i == 2 {} else {}
    }
    assert Dot(s[j], axis) <= Dot(s[iHi], axis) by {
      if j == 0 {} else if j == 1 {} else if j == 2 {} else {}
    }
  }

  /** The projected intervals of a square on its own four axes. */
  lemma SquareIntervals(x0: real, y0: real)
    ensures var s := Square(x0, y0);
            && MinProjection(s, Vector2(0.0, -1.0)) == Fin(-y0 - 1.0) && MaxProjection(s, Vector2(0.0, -1.0)) == Fin(-y0)
            && MinProjection(s, Vector2(1.0, 0.0)) == Fin(x0) && MaxProjection(s, Vector2(1.0, 0.0)) == Fin(x0 + 1.0)
            && MinProjection(s, Vector2(0.0, 1.0)) == Fin(y0) && MaxProjection(s, Vector2(0.0, 1.0)) == Fin(y0 + 1.0)
            && MinProjection(s, Vector2(-1.0, 0.0)) == Fin(-x0 - 1.0) && MaxProjection(s, Vector2(-1.0, 0.0)) == Fin(-x0)
  {
    var s := Square(x0, y0);
    assert MinProjection(s, Vector2(0.0, -1.0)) == Fin(-y0 - 1.0) && MaxProjection(s, Vector2(0.0, -1.0)) == Fin(-y0) by {
      IntervalOfFour(s, Vector2(0.0, -1.0), 2, 0);
    }
    assert MinProjection(s, Vector2(1.0, 0.0)) == Fin(x0) && MaxProjection(s, Vector2(1.0, 0.0)) == Fin(x0 + 1.0) by {
      IntervalOfFour(s, Vector2(1.0, 0.0), 0, 1);
    }
    assert MinProjection(s, Vector2(0.0, 1.0)) == Fin(y0) && MaxProjection(s, Vector2(0.0, 1.0)) == Fin(y0 + 1.0) by {
      IntervalOfFour(s, Vector2(0.0, 1.0), 0, 2);
    }
    assert MinProjection(s, Vector2(-1.0, 0.0)) == Fin(-x0 - 1.0) && MaxProjection(s, Vector2(-1.0, 0.0)) == Fin(-x0) by {
      IntervalOfFour(s, Vector2(-1.0, 0.0), 1, 0);
    }
  }

  /** The overlaps of a unit square and a copy of it moved `dx >= 0` along x:
      a full side across the horizontal edges' axes, `1 - dx` (or 0 once
      `dx >= 1`) across the vertical ones. */
  lemma ShiftedSquareOverlaps(x0: real, y0: real, dx: real)
    requires dx >= 0.0
    ensures var p, q := Square(x0, y0), Square(x0 + dx, y0);
            var d := if dx <= 1.0 then 1.0 - dx else 0.0;
            && Overlap(SquareAxisList[0], p, q) == 1.0
            && Overlap(SquareAxisList[1], p, q) == d
            && Overlap(SquareAxisList[2], p, q) == 1.0
            && Overlap(SquareAxisList[3], p, q) == d
  {
    SquareIntervals(x0, y0);
    SquareIntervals(x0 + dx, y0);
  }

  /** The eight axes tested for two unit squares: each square's four. */
  lemma ShiftedSquareAxes(x0: real, y0: real, dx: real)
    ensures SatAxes(Identity, Square(x0, y0), Square(x0 + dx, y0)) == SquareAxisList + SquareAxisList
  {
    SquareAxes(x0, y0);
    SquareAxes(x0 + dx, y0);
  }

  /** With `d` the overlap across the vertical edges' axes: every tested
      axis overlaps by at least `d`, and the second one, the x axis, by
      exactly `d`. */
  lemma ShiftedSquareBounds(x0: real, y0: real, dx: real)
    requires dx >= 0.0
    ensures var p, q := Square(x0, y0), Square(x0 + dx, y0);
            var axes := SatAxes(Identity, p, q);
            var d := if dx <= 1.0 then 1.0 - dx else 0.0;
            && |axes| == 8
            && axes[0] == Vector2(0.0, -1.0) && axes[1] == Vector2(1.0, 0.0)
            && Overlap(axes[0], p, q) == 1.0 && Overlap(axes[1], p, q) == d
            && forall k :: 0 <= k < 8 ==> Overlap(axes[k], p, q) >= d
  {
    var p, q := Square(x0, y0), Square(x0 + dx, y0);
    var axes := SatAxes(Identity, p, q);
    ShiftedSquareAxes(x0, y0, dx);
    ShiftedSquareOverlaps(x0, y0, dx);
    forall k | 0 <= k < 8
      ensures Overlap(axes[k], p, q) >= if dx <= 1.0 then 1.0 - dx else 0.0
    {
      if k == 0 || k == 4 {
        assert axes[k] == SquareAxisList[0];
      } else if k == 1 || k == 5 {
        assert axes[k] == SquareAxisList[1];
      } else if k == 2 || k == 6 {
        assert axes[k] == SquareAxisList[2];
      } else {
        assert axes[k] == SquareAxisList[3];
      }
    }
  }

  /** From `dx == 1` on, the x axis separates the squares. */
  lemma ShiftedSquaresSeparate(x0: real, y0: real, dx: real)
    requires dx >= 1.0
    ensures Intersect(Identity, Square(x0, y0), Square(x0 + dx, y0)).separated
  {
    var p, q := Square(x0, y0), Square(x0 + dx, y0);
    ShiftedSquareBounds(x0, y0, dx);
    var axes := SatAxes(Identity, p, q);
    OverlapsOfAt(axes, p, q, 1);
    SweepSeparatedIff(axes, OverlapsOf(axes, p, q), |axes|);
  }

  /** Below `dx == 1` every axis overlaps, and the squares collide. */
  lemma ShiftedSquaresCollide(x0: real, y0: real, dx: real)
    requires 0.0 <= dx < 1.0
    ensures !Intersect(Identity, Square(x0, y0), Square(x0 + dx, y0)).separated
  {
    var p, q := Square(x0, y0), Square(x0 + dx, y0);
    ShiftedSquareBounds(x0, y0, dx);
    var axes := SatAxes(Identity, p, q);
    OverlapsOfEntries(axes, p, q);
    SweepSeparatedIff(axes, OverlapsOf(axes, p, q), |axes|);
  }

  /** Overlap bounds on the axes carry over to the overlap list. */
  lemma LeastOverlapAtSecond(axes: seq<Vector2>, p: seq<Vector2>, q: seq<Vector2>, d: real)
    requires |axes| >= 2
    requires Overlap(axes[0], p, q) > d && Overlap(axes[1], p, q) == d
    requires forall k :: 0 <= k < |axes| ==> Overlap(axes[k], p, q) >= d
    ensures var overlaps := OverlapsOf(axes, p, q);
            && overlaps[0] > d && overlaps[1] == d
            && forall k :: 0 <= k < |overlaps| ==> overlaps[1] <= overlaps[k]
  {
    OverlapsOfEntries(axes, p, q);
  }

  /** If the second tested axis overlaps by a positive `d`, the first by
      more and none by less, the result holds `d` and that second axis. */
  lemma IntersectLeastAtSecond(normalize: Vector2 -> Vector2, p: seq<Vector2>, q: seq<Vector2>, d: real)
    requires var axes := SatAxes(normalize, p, q);
             && |axes| >= 2 && d > 0.0
             && Overlap(axes[0], p, q) > d && Overlap(axes[1], p, q) == d
             && forall k :: 0 <= k < |axes| ==> Overlap(axes[k], p, q) >= d
    ensures var s := Intersect(normalize, p, q);
            && !s.separated && s.depth == d && s.normal == SatAxes(normalize, p, q)[1]
  {
    var axes := SatAxes(normalize, p, q);
    var overlaps := OverlapsOf(axes, p, q);
    LeastOverlapAtSecond(axes, p, q, d);
    assert forall k :: 0 <= k < 1 ==> overlaps[1] < overlaps[k];
    SweepPicksFirstLeastOverlap(axes, overlaps, 1);
  }

  /** For a proper partial overlap, `0 < dx < 1`, the result holds the
      depth `1 - dx` and the x axis as the normal: the x axis is the first
      one attaining the least overlap, since the axis before it overlaps by
      a full side. */
  lemma ShiftedSquaresDepthAndNormal(x0: real, y0: real, dx: real)
    requires 0.0 < dx < 1.0
    ensures var s := Intersect(Identity, Square(x0, y0), Square(x0 + dx, y0));
            && !s.separated
            && s.depth == 1.0 - dx
            && s.normal == Vector2(1.0, 0.0)
  {
    ShiftedSquareBounds(x0, y0, dx);
    IntersectLeastAtSecond(Identity, Square(x0, y0), Square(x0 + dx, y0), 1.0 - dx);
  }

  /** Two unit squares, the second moved `dx >= 0` along x, collide exactly
      when `dx < 1`. */
  lemma ShiftedSquaresCollideIff(x0: real, y0: real, dx: real)
    requires dx >= 0.0
    ensures !Intersect(Identity, Square(x0, y0), Square(x0 + dx, y0)).separated <==> dx < 1.0
  {
    if dx < 1.0 {
      ShiftedSquaresCollide(x0, y0, dx);
    } else {
      ShiftedSquaresSeparate(x0, y0, dx);
    }
  }
}
