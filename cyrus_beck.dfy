/** The Cyrus-Beck clipper: the parameter interval [t0, t1] of the segment,
    starting at [0, 1], is narrowed by each half-space of a fixed list in
    turn; a plane the segment runs parallel to either rejects the segment
    or is skipped. */
module CyrusBeck {
  import opened RealArith
  import opened Geometry

  /** A clipping plane: the half-space n . p >= d is the inside. */
  datatype Plane = Plane(normal: Point3, d: real)

  /** p lies on the inner side of the plane (or on it). */
  predicate Inside(pl: Plane, p: Point3) {
    Dot(pl.normal, p) >= pl.d
  }

  /** p lies inside every plane of the list. */
  predicate InsideAll(planes: seq<Plane>, p: Point3) {
    forall pl :: pl in planes ==> Inside(pl, p)
  }

  /** The six planes of a box in the order of the planes list: left, right,
      bottom, top, near, far. */
  function BoxPlanes(box: Box): (planes: seq<Plane>)
    ensures |planes| == 6
  {
    [ Plane(Point3(1.0, 0.0, 0.0), box.xmin),
      Plane(Point3(-1.0, 0.0, 0.0), -box.xmax),
      Plane(Point3(0.0, 1.0, 0.0), box.ymin),
      Plane(Point3(0.0, -1.0, 0.0), -box.ymax),
      Plane(Point3(0.0, 0.0, 1.0), box.zmin),
      Plane(Point3(0.0, 0.0, -1.0), -box.zmax) ]
  }

  /** A point is inside the six planes of a box exactly when it is in the
      (closed) box. */
  lemma BoxPlanesInside(box: Box, p: Point3)
    ensures InsideAll(BoxPlanes(box), p) <==> box.Contains(p)
  {
    var planes := BoxPlanes(box);
    BoxOffsets(box, p);
    if box.Contains(p) {
      forall pl | pl in planes
        ensures Inside(pl, p)
      {
        var i :| 0 <= i < 6 && planes[i] == pl;
      }
    } else {
      assert exists i :: 0 <= i < 6 && !Inside(planes[i], p);
    }
  }

  /** n . p - d for each plane of a box: how far p is inside along the axis. */
  lemma BoxOffsets(box: Box, p: Point3)
    ensures Offset(BoxPlanes(box)[0], p) == p.x - box.xmin
    ensures Offset(BoxPlanes(box)[1], p) == box.xmax - p.x
    ensures Offset(BoxPlanes(box)[2], p) == p.y - box.ymin
    ensures Offset(BoxPlanes(box)[3], p) == box.ymax - p.y
    ensures Offset(BoxPlanes(box)[4], p) == p.z - box.zmin
    ensures Offset(BoxPlanes(box)[5], p) == box.zmax - p.z
  {
  }

  /** n . (P1 - P0) for each plane of a box: the direction along the axis,
      with the sign of the plane's normal. */
  lemma BoxDenoms(box: Box, p0: Point3, p1: Point3)
    ensures Denom(BoxPlanes(box)[0], p0, p1) == p1.x - p0.x
    ensures Denom(BoxPlanes(box)[1], p0, p1) == p0.x - p1.x
    ensures Denom(BoxPlanes(box)[2], p0, p1) == p1.y - p0.y
    ensures Denom(BoxPlanes(box)[3], p0, p1) == p0.y - p1.y
    ensures Denom(BoxPlanes(box)[4], p0, p1) == p1.z - p0.z
    ensures Denom(BoxPlanes(box)[5], p0, p1) == p0.z - p1.z
  {
  }

  /** The global planes list of the clipper. */
  const Planes: seq<Plane> := BoxPlanes(ClipBox)

  /** How the clipper decides a parallel plane: as the programs are written,
      the segment is rejected when n . P0 - d > 0; as intended, when
      n . P0 - d < 0, that is, when P0 (and so the whole line) is outside. */
  datatype ParallelTest = AsWritten | Corrected

  predicate ParallelRejects(test: ParallelTest, num: real) {
    match test
    case AsWritten => num > 0.0
    case Corrected => num < 0.0
  }

  /** denom of the loop: the plane normal against the segment direction. */
  function Denom(pl: Plane, p0: Point3, p1: Point3): real {
    Dot(pl.normal, Sub(p1, p0))
  }

  /** num of the loop: how far P0 is on the inner side of the plane. */
  function Offset(pl: Plane, p0: Point3): real {
    Dot(pl.normal, p0) - pl.d
  }

  predicate Parallel(pl: Plane, p0: Point3, p1: Point3) {
    Denom(pl, p0, p1) == 0.0
  }

  /** The state of the parameter interval: rejected by a parallel plane, or
      the current [t0, t1] (possibly empty). */
  datatype Range = Rejected | Interval(t0: real, t1: real)

  /** One pass of the loop over a plane. */
  function Step(test: ParallelTest, r: Range, pl: Plane, p0: Point3, p1: Point3): Range {
    match r
    case Rejected => Rejected
    case Interval(t0, t1) =>
      var denom, num := Denom(pl, p0, p1), Offset(pl, p0);
      if denom > 0.0 then
        var t := -num / denom;
        Interval(if t > t0 then t else t0, t1)
      else if denom < 0.0 then
        var t := -num / denom;
        Interval(t0, if t < t1 then t else t1)
      else if ParallelRejects(test, num) then Rejected
      else r
  }

  /** The loop over the planes, from the first to the last. */
  function Narrow(test: ParallelTest, r: Range, planes: seq<Plane>, p0: Point3, p1: Point3): Range
    decreases |planes|
  {
    if |planes| == 0 then r else Narrow(test, Step(test, r, planes[0], p0, p1), planes[1..], p0, p1)
  }

  /** Some plane of the list is parallel to the segment and rejects it. */
  predicate RejectingPlane(test: ParallelTest, planes: seq<Plane>, p0: Point3, p1: Point3) {
    exists pl :: pl in planes && Parallel(pl, p0, p1) && ParallelRejects(test, Offset(pl, p0))
  }

  /** P(t) lies inside every plane of the list the segment is not parallel
      to. */
  predicate Admits(planes: seq<Plane>, p0: Point3, p1: Point3, t: real) {
    forall pl :: pl in planes && !Parallel(pl, p0, p1) ==> Inside(pl, ParametricLine(t, p0, p1))
  }

  lemma RejectingWitness(test: ParallelTest, planes: seq<Plane>, pl: Plane, p0: Point3, p1: Point3)
    requires pl in planes && Parallel(pl, p0, p1) && ParallelRejects(test, Offset(pl, p0))
    ensures RejectingPlane(test, planes, p0, p1)
  {
  }

  /** Along the segment the signed distance to a plane is affine in t. */
  lemma OffsetAlongLine(pl: Plane, t: real, p0: Point3, p1: Point3)
    ensures Offset(pl, ParametricLine(t, p0, p1)) == Offset(pl, p0) + t * Denom(pl, p0, p1)
  {
    DotAlongLine(pl.normal, t, p0, p1);
  }

  /** -num / denom is the parameter at which the line meets the plane
      n . p == d. */
  lemma CrossingOnPlane(pl: Plane, p0: Point3, p1: Point3)
    requires Denom(pl, p0, p1) != 0.0
    ensures Dot(pl.normal, ParametricLine(-Offset(pl, p0) / Denom(pl, p0, p1), p0, p1)) == pl.d
  {
    var t := -Offset(pl, p0) / Denom(pl, p0, p1);
    OffsetAlongLine(pl, t, p0, p1);
    DivTimes(-Offset(pl, p0), Denom(pl, p0, p1));
  }

  /** Entering plane (denom > 0): P(t) is inside exactly from -num / denom on;
      leaving plane (denom < 0): exactly up to -num / denom; parallel plane:
      for every t or for none, as P0 is. */
  lemma InsideAlongLine(pl: Plane, t: real, p0: Point3, p1: Point3)
    ensures Denom(pl, p0, p1) > 0.0 ==>
      (Inside(pl, ParametricLine(t, p0, p1)) <==> t >= -Offset(pl, p0) / Denom(pl, p0, p1))
    ensures Denom(pl, p0, p1) < 0.0 ==>
      (Inside(pl, ParametricLine(t, p0, p1)) <==> t <= -Offset(pl, p0) / Denom(pl, p0, p1))
    ensures Denom(pl, p0, p1) == 0.0 ==>
      (Inside(pl, ParametricLine(t, p0, p1)) <==> Offset(pl, p0) >= 0.0)
  {
    var num, denom := Offset(pl, p0), Denom(pl, p0, p1);
    OffsetAlongLine(pl, t, p0, p1);
    assert Inside(pl, ParametricLine(t, p0, p1)) <==> num + t * denom >= 0.0;
    if denom > 0.0 {
      AffineAbove(num, denom, t);
    } else if denom < 0.0 {
      AffineBelow(num, denom, t);
    }
  }

  /** One step rejects exactly on a parallel plane the test rejects. */
  lemma StepRejects(test: ParallelTest, lo: real, hi: real, pl: Plane, p0: Point3, p1: Point3)
    ensures Step(test, Interval(lo, hi), pl, p0, p1) == Rejected <==>
      Parallel(pl, p0, p1) && ParallelRejects(test, Offset(pl, p0))
  {
  }

  /** Otherwise one step keeps exactly the parameters of the old interval
      whose points are inside the plane; a parallel plane constrains
      nothing. */
  lemma StepAt(test: ParallelTest, lo: real, hi: real, pl: Plane, p0: Point3, p1: Point3, t: real)
    ensures Step(test, Interval(lo, hi), pl, p0, p1).Interval? ==>
      var r := Step(test, Interval(lo, hi), pl, p0, p1);
      (r.t0 <= t <= r.t1 <==> lo <= t <= hi && (!Parallel(pl, p0, p1) ==> Inside(pl, ParametricLine(t, p0, p1))))
  {
    InsideAlongLine(pl, t, p0, p1);
  }

  /** A rejection is final: the remaining planes are skipped. */
  lemma RejectedStays(test: ParallelTest, planes: seq<Plane>, p0: Point3, p1: Point3)
    ensures Narrow(test, Rejected, planes, p0, p1) == Rejected
    decreases |planes|
  {
    if |planes| > 0 {
      RejectedStays(test, planes[1..], p0, p1);
    }
  }

  /** The loop rejects exactly when some plane of the list is parallel to
      the segment and rejecting, whatever the order of the planes. */
  lemma {:induction false} NarrowRejects(test: ParallelTest, lo: real, hi: real, planes: seq<Plane>, p0: Point3, p1: Point3)
    ensures Narrow(test, Interval(lo, hi), planes, p0, p1) == Rejected <==> RejectingPlane(test, planes, p0, p1)
    decreases |planes|
  {
    if |planes| > 0 {
      var pl, rest := planes[0], planes[1..];
      assert planes == [pl] + rest;
      StepRejects(test, lo, hi, pl, p0, p1);
      var s := Step(test, Interval(lo, hi), pl, p0, p1);
      if s == Rejected {
        RejectedStays(test, rest, p0, p1);
        assert pl in planes;
      } else {
        NarrowRejects(test, s.t0, s.t1, rest, p0, p1);
        assert RejectingPlane(test, planes, p0, p1) <==> RejectingPlane(test, rest, p0, p1);
      }
    }
  }

  /** When the loop ends with an interval, a parameter is in it exactly
      when it is in the start interval and its point is inside every
      non-parallel plane of the list. */
  lemma {:induction false} NarrowAt(test: ParallelTest, lo: real, hi: real, planes: seq<Plane>, p0: Point3, p1: Point3, t: real)
    ensures Narrow(test, Interval(lo, hi), planes, p0, p1).Interval? ==>
      var r := Narrow(test, Interval(lo, hi), planes, p0, p1);
      (r.t0 <= t <= r.t1 <==> lo <= t <= hi && Admits(planes, p0, p1, t))
    decreases |planes|
  {
    if |planes| > 0 {
      var pl, rest := planes[0], planes[1..];
      assert planes == [pl] + rest;
      var s := Step(test, Interval(lo, hi), pl, p0, p1);
      if s == Rejected {
        RejectedStays(test, rest, p0, p1);
      } else {
        StepAt(test, lo, hi, pl, p0, p1, t);
        NarrowAt(test, s.t0, s.t1, rest, p0, p1, t);
        assert Admits(planes, p0, p1, t) <==>
          (!Parallel(pl, p0, p1) ==> Inside(pl, ParametricLine(t, p0, p1))) && Admits(rest, p0, p1, t);
      }
    }
  }

  /** What the whole loop computes, for either parallel test: it rejects
      exactly when some plane of the list is parallel and rejecting, and
      otherwise ends with exactly the parameters of the start interval
      whose points are inside every non-parallel plane. */
  lemma NarrowSolves(test: ParallelTest, lo: real, hi: real, planes: seq<Plane>, p0: Point3, p1: Point3)
    ensures Narrow(test, Interval(lo, hi), planes, p0, p1) == Rejected <==> RejectingPlane(test, planes, p0, p1)
    ensures Narrow(test, Interval(lo, hi), planes, p0, p1).Interval? ==>
      var r := Narrow(test, Interval(lo, hi), planes, p0, p1);
      forall t :: r.t0 <= t <= r.t1 <==> lo <= t <= hi && Admits(planes, p0, p1, t)
  {
    NarrowRejects(test, lo, hi, planes, p0, p1);
    var r := Narrow(test, Interval(lo, hi), planes, p0, p1);
    if r.Interval? {
      forall t
        ensures r.t0 <= t <= r.t1 <==> lo <= t <= hi && Admits(planes, p0, p1, t)
      {
        NarrowAt(test, lo, hi, planes, p0, p1, t);
      }
    }
  }

  /** The loop only narrows: t0 is never lowered and t1 never raised. */
  lemma {:induction false} NarrowShrinks(test: ParallelTest, lo: real, hi: real, planes: seq<Plane>, p0: Point3, p1: Point3)
    ensures Narrow(test, Interval(lo, hi), planes, p0, p1).Interval? ==>
      lo <= Narrow(test, Interval(lo, hi), planes, p0, p1).t0 && Narrow(test, Interval(lo, hi), planes, p0, p1).t1 <= hi
    decreases |planes|
  {
    if |planes| > 0 {
      var s := Step(test, Interval(lo, hi), planes[0], p0, p1);
      if s.Interval? {
        NarrowShrinks(test, s.t0, s.t1, planes[1..], p0, p1);
      } else {
        RejectedStays(test, planes[1..], p0, p1);
      }
    }
  }

  /** The for-loop of cyrusBeckClip / cyrus_beck_clip (with the parallel
      test as a parameter): accept and the final [t0, t1] are those of the
      loop over the planes, t0 stays at least 0 and t1 at most 1. */
  method ClipRange(test: ParallelTest, planes: seq<Plane>, p0: Point3, p1: Point3)
    returns (accept: bool, t0: real, t1: real)
    ensures accept <==> Narrow(test, Interval(0.0, 1.0), planes, p0, p1).Interval?
    ensures accept ==> Narrow(test, Interval(0.0, 1.0), planes, p0, p1) == Interval(t0, t1)
    ensures 0.0 <= t0 && t1 <= 1.0
  {
    t0, t1 := 0.0, 1.0;
    accept := true;
    for i := 0 to |planes|
      invariant 0.0 <= t0 && t1 <= 1.0
      invariant Narrow(test, Interval(t0, t1), planes[i..], p0, p1) == Narrow(test, Interval(0.0, 1.0), planes, p0, p1)
    {
      var plane := planes[i];
      assert planes[i..] == [plane] + planes[i + 1..];
      var dir := Sub(p1, p0);
      var denom := Dot(plane.normal, dir);
      if denom > 0.0 {
        // Entering the half-space: raise t0.
        var num := Dot(plane.normal, p0) - plane.d;
        var t := -num / denom;
        if t > t0 { t0 := t; }
      } else if denom < 0.0 {
        // Leaving the half-space: lower t1.
        var num := Dot(plane.normal, p0) - plane.d;
        var t := -num / denom;
        if t < t1 { t1 := t; }
      } else if ParallelRejects(test, Dot(plane.normal, p0) - plane.d) {
        // Parallel to the plane and taken to be outside it.
        RejectedStays(test, planes[i + 1..], p0, p1);
        accept := false;
        break;
      }
    }
  }

  /** The parameter, on the input segment, of the point at t1 of the
      segment from P(t0) to P1. */
  function DriftParameter(t0: real, t1: real): real {
    t0 + t1 * (1.0 - t0)
  }

  /** The second clipped endpoint as both programs compute it, from the
      already overwritten first one: P(t1) taken on the segment from P(t0)
      to P1 is the point at t0 + t1 * (1 - t0) of the input segment, which
      is P(t1) only when t0 == 0 or t1 == 1 (for a segment of non-zero
      length). */
  lemma SecondEndpointDrift(t0: real, t1: real, p0: Point3, p1: Point3)
    ensures ParametricLine(t1, ParametricLine(t0, p0, p1), p1) == ParametricLine(DriftParameter(t0, t1), p0, p1)
    ensures p0 != p1 ==>
      (ParametricLine(t1, ParametricLine(t0, p0, p1), p1) == ParametricLine(t1, p0, p1) <==> t0 == 0.0 || t1 == 1.0)
  {
    ParametricCompose(t1, t0, 1.0, p0, p1);
    if p0 != p1 {
      ParametricInjective(DriftParameter(t0, t1), t1, p0, p1);
      DriftZero(t0, t1);
    }
  }

  /** cyrusBeckClip as the C++ program writes it. It returns false exactly
      when a plane the segment is parallel to has n . P0 - d > 0; it returns
      true otherwise, even when the interval ends up empty, and then leaves
      the endpoints as they were. When the interval is not empty the
      endpoints are overwritten, the second one from the new first one. */
  method CyrusBeckClipCpp(planes: seq<Plane>, p0: Point3, p1: Point3) returns (accept: bool, q0: Point3, q1: Point3)
    ensures accept <==> !RejectingPlane(AsWritten, planes, p0, p1)
    ensures var r := Narrow(AsWritten, Interval(0.0, 1.0), planes, p0, p1);
      && (accept && r.Interval? && r.t0 < r.t1 ==>
            q0 == ParametricLine(r.t0, p0, p1) && q1 == ParametricLine(DriftParameter(r.t0, r.t1), p0, p1))
      && (!(accept && r.Interval? && r.t0 < r.t1) ==> q0 == p0 && q1 == p1)
  {
    var t0, t1;
    accept, t0, t1 := ClipRange(AsWritten, planes, p0, p1);
    NarrowSolves(AsWritten, 0.0, 1.0, planes, p0, p1);
    q0, q1 := p0, p1;
    if !(accept && t0 < t1) {
      return;
    }
    q0 := ParametricLine(t0, q0, q1);
    q1 := ParametricLine(t1, q0, q1);
    SecondEndpointDrift(t0, t1, p0, p1);
  }

  /** cyrus_beck_clip as the Python program writes it: None unless no
      parallel plane has n . P0 - d > 0 and the interval is not empty; the
      second endpoint is computed from the rebound first one. */
  method CyrusBeckClipPy(planes: seq<Plane>, p0: Point3, p1: Point3) returns (r: Option<Segment>)
    ensures var n := Narrow(AsWritten, Interval(0.0, 1.0), planes, p0, p1);
      && (r.Some? <==> !RejectingPlane(AsWritten, planes, p0, p1) && n.Interval? && n.t0 < n.t1)
      && (r.Some? ==> n.Interval? && r.value == Segment(ParametricLine(n.t0, p0, p1), ParametricLine(DriftParameter(n.t0, n.t1), p0, p1)))
  {
    var accept, t0, t1 := ClipRange(AsWritten, planes, p0, p1);
    NarrowSolves(AsWritten, 0.0, 1.0, planes, p0, p1);
    if accept && t0 < t1 {
      var x0 := ParametricLine(t0, p0, p1);
      var x1 := ParametricLine(t1, x0, p1);
      SecondEndpointDrift(t0, t1, p0, p1);
      r := Some(Segment(x0, x1));
    } else {
      r := None;
    }
  }

  /** With the corrected parallel test, the loop describes the visible part
      exactly: a rejection means no point of the line is inside all planes,
      and an interval holds exactly the parameters in [0, 1] whose points
      are inside all planes. */
  lemma CorrectedExact(planes: seq<Plane>, p0: Point3, p1: Point3)
    ensures Narrow(Corrected, Interval(0.0, 1.0), planes, p0, p1) == Rejected ==>
      forall t :: !InsideAll(planes, ParametricLine(t, p0, p1))
    ensures Narrow(Corrected, Interval(0.0, 1.0), planes, p0, p1).Interval? ==>
      var r := Narrow(Corrected, Interval(0.0, 1.0), planes, p0, p1);
      forall t :: r.t0 <= t <= r.t1 <==> 0.0 <= t <= 1.0 && InsideAll(planes, ParametricLine(t, p0, p1))
  {
    NarrowSolves(Corrected, 0.0, 1.0, planes, p0, p1);
    var r := Narrow(Corrected, Interval(0.0, 1.0), planes, p0, p1);
    if r == Rejected {
      var pl :| pl in planes && Parallel(pl, p0, p1) && Offset(pl, p0) < 0.0;
      forall t
        ensures !InsideAll(planes, ParametricLine(t, p0, p1))
      {
        InsideAlongLine(pl, t, p0, p1);
      }
    } else {
      forall t
        ensures Admits(planes, p0, p1, t) <==> InsideAll(planes, ParametricLine(t, p0, p1))
      {
        AdmitsAll(planes, p0, p1, t);
      }
    }
  }

  /** When no plane rejects under the corrected test, the parallel planes
      hold every point of the line, so being inside the non-parallel planes
      is being inside all of them. */
  lemma AdmitsAll(planes: seq<Plane>, p0: Point3, p1: Point3, t: real)
    requires !RejectingPlane(Corrected, planes, p0, p1)
    ensures Admits(planes, p0, p1, t) <==> InsideAll(planes, ParametricLine(t, p0, p1))
  {
    forall pl | pl in planes && Parallel(pl, p0, p1)
      ensures Inside(pl, ParametricLine(t, p0, p1))
    {
      InsideAlongLine(pl, t, p0, p1);
    }
  }

  /** The clipper with the three defects corrected: a parallel plane rejects
      when P0 is outside it, the second endpoint is P(t1) of the input
      segment, and an empty interval gives no segment. The result is the visible part exactly: a segment from P(a)
      to P(b), a < b, whose parameters are exactly those in [0, 1] with
      points inside every plane; None when at most one point is visible. */
  method CyrusBeckClip(planes: seq<Plane>, p0: Point3, p1: Point3) returns (r: Option<Segment>, ghost a: real, ghost b: real)
    ensures r.Some? ==> a < b && r.value == Segment(ParametricLine(a, p0, p1), ParametricLine(b, p0, p1))
    ensures r.Some? ==> forall t :: a <= t <= b <==> 0.0 <= t <= 1.0 && InsideAll(planes, ParametricLine(t, p0, p1))
    ensures r.None? ==> forall t, u ::
      (0.0 <= t <= 1.0 && InsideAll(planes, ParametricLine(t, p0, p1)) &&
       0.0 <= u <= 1.0 && InsideAll(planes, ParametricLine(u, p0, p1))) ==> t == u
  {
    var accept, t0, t1 := ClipRange(Corrected, planes, p0, p1);
    CorrectedExact(planes, p0, p1);
    a, b := t0, t1;
    if accept && t0 < t1 {
      r := Some(Segment(ParametricLine(t0, p0, p1), ParametricLine(t1, p0, p1)));
    } else {
      r := None;
    }
  }

  /** As written, two planes the segment is parallel to whose offsets at
      P0 add up to more than zero reject the segment: one of the two offsets
      is positive. */
  lemma ParallelPairRejects(planes: seq<Plane>, i: nat, j: nat, p0: Point3, p1: Point3)
    requires i < |planes| && j < |planes|
    requires Parallel(planes[i], p0, p1) && Parallel(planes[j], p0, p1)
    requires Offset(planes[i], p0) + Offset(planes[j], p0) > 0.0
    ensures Narrow(AsWritten, Interval(0.0, 1.0), planes, p0, p1) == Rejected
  {
    if Offset(planes[i], p0) > 0.0 {
      RejectingWitness(AsWritten, planes, planes[i], p0, p1);
    } else {
      RejectingWitness(AsWritten, planes, planes[j], p0, p1);
    }
    NarrowRejects(AsWritten, 0.0, 1.0, planes, p0, p1);
  }

  /** As written, a segment that keeps one coordinate fixed is rejected
      against the planes of any box with some extent along that axis, even
      when it lies inside the box: it is parallel to both planes of that
      axis, and P0 is strictly on the inner side of at least one of them. */
  lemma AxisParallelRejected(box: Box, p0: Point3, p1: Point3)
    requires (p0.x == p1.x && box.xmin < box.xmax) || (p0.y == p1.y && box.ymin < box.ymax)
          || (p0.z == p1.z && box.zmin < box.zmax)
    ensures Narrow(AsWritten, Interval(0.0, 1.0), BoxPlanes(box), p0, p1) == Rejected
  {
    var planes := BoxPlanes(box);
    BoxOffsets(box, p0);
    BoxDenoms(box, p0, p1);
    if p0.x == p1.x && box.xmin < box.xmax {
      ParallelPairRejects(planes, 0, 1, p0, p1);
    } else if p0.y == p1.y && box.ymin < box.ymax {
      ParallelPairRejects(planes, 2, 3, p0, p1);
    } else {
      ParallelPairRejects(planes, 4, 5, p0, p1);
    }
  }

  /** In particular a segment of zero length is always rejected by a box
      with some width. */
  lemma ZeroLengthRejected(box: Box, p: Point3)
    requires box.xmin < box.xmax
    ensures Narrow(AsWritten, Interval(0.0, 1.0), BoxPlanes(box), p, p) == Rejected
  {
    AxisParallelRejected(box, p, p);
  }

  /** Corrected, a plane both endpoints are inside leaves [0, 1] as it is:
      an entering plane is crossed at or before 0, a leaving one at or after
      1, and a parallel one does not reject. */
  lemma StepKeepsInside(pl: Plane, p0: Point3, p1: Point3)
    requires Inside(pl, p0) && Inside(pl, p1)
    ensures Step(Corrected, Interval(0.0, 1.0), pl, p0, p1) == Interval(0.0, 1.0)
  {
    InsideAlongLine(pl, 0.0, p0, p1);
    InsideAlongLine(pl, 1.0, p0, p1);
  }

  /** Planes that each leave the range as it is leave it as it is together. */
  lemma {:induction false} NarrowKeeps(test: ParallelTest, r: Range, planes: seq<Plane>, p0: Point3, p1: Point3)
    requires forall pl :: pl in planes ==> Step(test, r, pl, p0, p1) == r
    ensures Narrow(test, r, planes, p0, p1) == r
    decreases |planes|
  {
    if |planes| > 0 {
      assert planes[0] in planes;
      assert forall pl :: pl in planes[1..] ==> pl in planes;
      NarrowKeeps(test, r, planes[1..], p0, p1);
    }
  }

  /** Corrected, a segment whose two endpoints are inside every plane is kept
      whole: the loop ends with [0, 1]. */
  lemma InsideKeptWhole(planes: seq<Plane>, p0: Point3, p1: Point3)
    requires InsideAll(planes, p0) && InsideAll(planes, p1)
    ensures Narrow(Corrected, Interval(0.0, 1.0), planes, p0, p1) == Interval(0.0, 1.0)
  {
    forall pl | pl in planes
      ensures Step(Corrected, Interval(0.0, 1.0), pl, p0, p1) == Interval(0.0, 1.0)
    {
      StepKeepsInside(pl, p0, p1);
    }
    NarrowKeeps(Corrected, Interval(0.0, 1.0), planes, p0, p1);
  }

  /** A segment of zero length is parallel to every plane. */
  lemma ZeroDirection(pl: Plane, p: Point3)
    ensures Parallel(pl, p, p)
  {
    assert Sub(p, p) == Point3(0.0, 0.0, 0.0);
  }

  /** Against planes that are all parallel to the segment the loop changes
      nothing unless a plane rejects it. */
  lemma {:induction false} NarrowAllParallel(test: ParallelTest, lo: real, hi: real, planes: seq<Plane>, p0: Point3, p1: Point3)
    requires forall pl :: pl in planes ==> Parallel(pl, p0, p1)
    ensures Narrow(test, Interval(lo, hi), planes, p0, p1)
         == if RejectingPlane(test, planes, p0, p1) then Rejected else Interval(lo, hi)
    decreases |planes|
  {
    NarrowRejects(test, lo, hi, planes, p0, p1);
    if |planes| > 0 {
      assert planes[0] in planes;
      if Step(test, Interval(lo, hi), planes[0], p0, p1).Interval? {
        assert forall pl :: pl in planes[1..] ==> pl in planes;
        NarrowAllParallel(test, lo, hi, planes[1..], p0, p1);
      }
    }
  }

  /** Corrected, when every plane is parallel to the segment, a plane
      rejects it exactly when P0 is outside some plane. */
  lemma ParallelRejectsOutside(planes: seq<Plane>, p0: Point3, p1: Point3)
    requires forall pl :: pl in planes ==> Parallel(pl, p0, p1)
    ensures RejectingPlane(Corrected, planes, p0, p1) <==> !InsideAll(planes, p0)
  {
  }

  /** Corrected, a segment of zero length is kept whole when its point is
      inside every plane and rejected otherwise. */
  lemma ZeroLengthCorrected(planes: seq<Plane>, p: Point3)
    ensures Narrow(Corrected, Interval(0.0, 1.0), planes, p, p)
         == if InsideAll(planes, p) then Interval(0.0, 1.0) else Rejected
  {
    forall pl | pl in planes
      ensures Parallel(pl, p, p)
    {
      ZeroDirection(pl, p);
    }
    NarrowAllParallel(Corrected, 0.0, 1.0, planes, p, p);
    ParallelRejectsOutside(planes, p, p);
  }
}
