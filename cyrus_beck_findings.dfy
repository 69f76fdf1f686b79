/** Concrete segments on which the Cyrus-Beck clipper as written departs
    from the visible part of the segment, all against the 5 x 4 x 3 box of
    the programs. */
module CyrusBeckFindings {
  import opened Geometry
  import opened CyrusBeck

  /** A segment lying wholly inside the box, parallel to the bottom and top
      planes: as written, the parallel test rejects it; corrected, the loop
      keeps all of it. */
  lemma ParallelInsideRejected()
    ensures Narrow(AsWritten, Interval(0.0, 1.0), Planes, Point3(1.0, 1.0, 1.0), Point3(2.0, 1.0, 1.0)) == Rejected
  {
    AxisParallelRejected(ClipBox, Point3(1.0, 1.0, 1.0), Point3(2.0, 1.0, 1.0));
  }

  /** Corrected, the loop keeps the whole of that segment. */
  lemma ParallelInsideKept()
    ensures Narrow(Corrected, Interval(0.0, 1.0), Planes, Point3(1.0, 1.0, 1.0), Point3(2.0, 1.0, 1.0)) == Interval(0.0, 1.0)
  {
    var a, b := Point3(1.0, 1.0, 1.0), Point3(2.0, 1.0, 1.0);
    BoxPlanesInside(ClipBox, a);
    BoxPlanesInside(ClipBox, b);
    InsideKeptWhole(Planes, a, b);
  }

  /** Every point of that segment is inside all six planes. */
  lemma ParallelInsideVisible()
    ensures forall t :: 0.0 <= t <= 1.0 ==>
      InsideAll(Planes, ParametricLine(t, Point3(1.0, 1.0, 1.0), Point3(2.0, 1.0, 1.0)))
  {
    var a, b := Point3(1.0, 1.0, 1.0), Point3(2.0, 1.0, 1.0);
    forall t | 0.0 <= t <= 1.0
      ensures InsideAll(Planes, ParametricLine(t, a, b))
    {
      ContainsBetween(ClipBox, a, b, 0.0, t, 1.0);
      BoxPlanesInside(ClipBox, ParametricLine(t, a, b));
    }
  }

  /** The segment the programs draw, from (-1, 2, 1) to (6, 5, 4): the loop
      ends with [1/7, 2/3], so the visible part ends at P(2/3) = (11/3, 4, 3),
      but the second endpoint as written, taken from the overwritten first
      one, is (4, 29/7, 22/7), which is outside the box (22/7 > 3). */
  lemma DemoSecondEndpoint()
    ensures Narrow(AsWritten, Interval(0.0, 1.0), Planes, Point3(-1.0, 2.0, 1.0), Point3(6.0, 5.0, 4.0))
         == Interval(1.0 / 7.0, 2.0 / 3.0)
    ensures Narrow(Corrected, Interval(0.0, 1.0), Planes, Point3(-1.0, 2.0, 1.0), Point3(6.0, 5.0, 4.0))
         == Interval(1.0 / 7.0, 2.0 / 3.0)
    ensures ParametricLine(2.0 / 3.0, Point3(-1.0, 2.0, 1.0), Point3(6.0, 5.0, 4.0)) == Point3(11.0 / 3.0, 4.0, 3.0)
    ensures ParametricLine(1.0 / 7.0, Point3(-1.0, 2.0, 1.0), Point3(6.0, 5.0, 4.0)) == Point3(0.0, 17.0 / 7.0, 10.0 / 7.0)
    ensures ParametricLine(2.0 / 3.0, Point3(0.0, 17.0 / 7.0, 10.0 / 7.0), Point3(6.0, 5.0, 4.0))
         == Point3(4.0, 29.0 / 7.0, 22.0 / 7.0)
    ensures ClipBox.Contains(Point3(11.0 / 3.0, 4.0, 3.0))
    ensures !ClipBox.Contains(Point3(4.0, 29.0 / 7.0, 22.0 / 7.0))
  {
  }

  /** A segment from (-3, 1, 1) to (-1, 2, 2), wholly left of the box: no
      plane rejects it and the loop ends with the empty [3/2, 1], so the C++
      program returns true with both endpoints unchanged, outside the box. */
  lemma EmptyIntervalAccepted()
    ensures Narrow(AsWritten, Interval(0.0, 1.0), Planes, Point3(-3.0, 1.0, 1.0), Point3(-1.0, 2.0, 2.0))
         == Interval(3.0 / 2.0, 1.0)
    ensures !ClipBox.Contains(Point3(-3.0, 1.0, 1.0)) && !ClipBox.Contains(Point3(-1.0, 2.0, 2.0))
  {
  }

  /** So no plane rejects it, and the C++ clipper accepts it. */
  lemma EmptyIntervalNotRejected()
    ensures !RejectingPlane(AsWritten, Planes, Point3(-3.0, 1.0, 1.0), Point3(-1.0, 2.0, 2.0))
  {
    EmptyIntervalAccepted();
    NarrowRejects(AsWritten, 0.0, 1.0, Planes, Point3(-3.0, 1.0, 1.0), Point3(-1.0, 2.0, 2.0));
  }

  /** No point of that segment is inside all six planes: along it x = -3 + 2t
      stays at most -1. */
  lemma EmptyIntervalInvisible()
    ensures forall t :: 0.0 <= t <= 1.0 ==>
      !InsideAll(Planes, ParametricLine(t, Point3(-3.0, 1.0, 1.0), Point3(-1.0, 2.0, 2.0)))
  {
    var a, b := Point3(-3.0, 1.0, 1.0), Point3(-1.0, 2.0, 2.0);
    forall t | 0.0 <= t <= 1.0
      ensures !InsideAll(Planes, ParametricLine(t, a, b))
    {
      BoxPlanesInside(ClipBox, ParametricLine(t, a, b));
    }
  }
}
