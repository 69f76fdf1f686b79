/** Facts about products and quotients of reals, each stated on as few
    variables as possible so that the solver's nonlinear reasoning stays
    local. */
module RealArith {

  lemma MulNonneg(x: real, y: real)
    requires 0.0 <= x && 0.0 <= y
    ensures 0.0 <= x * y
  {
  }

  lemma MulMono(x: real, y: real, w: real)
    requires x <= y && 0.0 <= w
    ensures x * w <= y * w
  {
  }

  lemma MulStrict(x: real, y: real, w: real)
    requires x < y && 0.0 < w
    ensures x * w < y * w
  {
  }

  lemma MulCancel(x: real, y: real, w: real)
    requires x * w == y * w && w != 0.0
    ensures x == y
  {
  }

  /** a + s * (b - a) lies between a and b for s in [0, 1]. */
  lemma ScaleBetween(s: real, a: real, b: real)
    requires 0.0 <= s <= 1.0 && a <= b
    ensures a <= a + s * (b - a) <= b
  {
    MulNonneg(s, b - a);
    MulMono(s, 1.0, b - a);
  }

  lemma DivUnitPos(num: real, den: real)
    requires 0.0 < den && 0.0 <= num <= den
    ensures 0.0 <= num / den <= 1.0
    ensures num != 0.0 ==> 0.0 < num / den
    ensures num != den ==> num / den < 1.0
  {
  }

  lemma DivUnitNeg(num: real, den: real)
    requires den < 0.0 && den <= num <= 0.0
    ensures 0.0 <= num / den <= 1.0
    ensures num != 0.0 ==> 0.0 < num / den
    ensures num != den ==> num / den < 1.0
  {
  }

  lemma DivTimes(x: real, y: real)
    requires y != 0.0
    ensures (x / y) * y == x
  {
  }

  /** For den > 0, num + t * den >= 0 exactly when t >= -num / den. */
  lemma AffineAbove(num: real, den: real, t: real)
    requires den > 0.0
    ensures num + t * den >= 0.0 <==> t >= -num / den
  {
    var c := -num / den;
    DivTimes(-num, den);
    assert c * den == -num;
    if t >= c {
      MulMono(c, t, den);
      assert num + t * den >= num + c * den == 0.0;
    } else {
      MulStrict(t, c, den);
      assert num + t * den < num + c * den == 0.0;
    }
  }

  /** For den < 0, num + t * den >= 0 exactly when t <= -num / den. */
  lemma AffineBelow(num: real, den: real, t: real)
    requires den < 0.0
    ensures num + t * den >= 0.0 <==> t <= -num / den
  {
    AffineAbove(-num, -den, -t);
    assert (-t) * (-den) == t * den;
    assert -(-num) / (-den) == -num / den;
  }

  /** t0 + t1 * (1 - t0) == t1 exactly when t0 == 0 or t1 == 1. */
  lemma DriftZero(t0: real, t1: real)
    ensures t0 + t1 * (1.0 - t0) == t1 <==> t0 == 0.0 || t1 == 1.0
  {
    assert t0 + t1 * (1.0 - t0) - t1 == t0 * (1.0 - t1);
    if t0 != 0.0 && t1 != 1.0 {
      MulNonzero(t0, 1.0 - t1);
    }
  }

  lemma MulNonzero(x: real, y: real)
    requires x != 0.0 && y != 0.0
    ensures x * y != 0.0
  {
  }

  /** A quotient of two numbers of the same sign, the numerator no larger
      in magnitude, lies in [0, 1]. */
  lemma QuotientWithin(num: real, den: real)
    requires den != 0.0
    requires (0.0 <= num <= den) || (den <= num <= 0.0)
    ensures 0.0 <= num / den <= 1.0
    ensures num != 0.0 ==> 0.0 < num / den
    ensures num != den ==> num / den < 1.0
  {
    if den > 0.0 { DivUnitPos(num, den); } else { DivUnitNeg(num, den); }
  }
}

/** Geometric primitives shared by both clippers: points, segments, the
    axis-aligned clipping box, the dot product and the parametric line.
    Coordinates are exact reals, so the formulas of the clippers are exact. */
module Geometry {
  import opened RealArith

  /** A point (or a vector) of 3D space. */
  datatype Point3 = Point3(x: real, y: real, z: real)

  /** A segment from p0 to p1; its direction is p1 - p0. */
  datatype Segment = Segment(p0: Point3, p1: Point3)

  /** What a clipper returns where the source returns a value or None. */
  datatype Option<T> = None | Some(value: T)

  /** An axis-aligned clipping volume [xmin,xmax] x [ymin,ymax] x [zmin,zmax]. */
  datatype Box = Box(xmin: real, xmax: real, ymin: real, ymax: real, zmin: real, zmax: real)
  {
    predicate WellFormed() {
      xmin <= xmax && ymin <= ymax && zmin <= zmax
    }

    /** The closed box: points on a face count as inside. */
    predicate Contains(p: Point3) {
      xmin <= p.x <= xmax && ymin <= p.y <= ymax && zmin <= p.z <= zmax
    }
  }

  /** The box both programs clip against. */
  const ClipBox: Box := Box(0.0, 5.0, 0.0, 4.0, 0.0, 3.0)

  lemma ClipBoxWellFormed()
    ensures ClipBox.WellFormed()
  {
  }

  function Sub(a: Point3, b: Point3): Point3 {
    Point3(a.x - b.x, a.y - b.y, a.z - b.z)
  }

  /** dotProduct: the component-wise sum of products. */
  function Dot(a: Point3, b: Point3): real {
    a.x * b.x + a.y * b.y + a.z * b.z
  }

  /** One coordinate of the parametric line: c0 + t * (c1 - c0). */
  function Lerp(t: real, c0: real, c1: real): real {
    c0 + t * (c1 - c0)
  }

  /** parametricLine: the point P0 + t * (P1 - P0). */
  function ParametricLine(t: real, p0: Point3, p1: Point3): (p: Point3)
    ensures t == 0.0 ==> p == p0
    ensures t == 1.0 ==> p == p1
  {
    Point3(Lerp(t, p0.x, p1.x), Lerp(t, p0.y, p1.y), Lerp(t, p0.z, p1.z))
  }

  /** Along the line the dot product with a fixed vector is affine in t:
      n . P(t) == n . P0 + t * (n . (P1 - P0)). */
  lemma DotAlongLine(n: Point3, t: real, p0: Point3, p1: Point3)
    ensures Dot(n, ParametricLine(t, p0, p1)) == Dot(n, p0) + t * Dot(n, Sub(p1, p0))
  {
    var p := ParametricLine(t, p0, p1);
    calc {
      Dot(n, p);
      n.x * (p0.x + t * (p1.x - p0.x)) + n.y * (p0.y + t * (p1.y - p0.y)) + n.z * (p0.z + t * (p1.z - p0.z));
      (n.x * p0.x + n.y * p0.y + n.z * p0.z) + t * (n.x * (p1.x - p0.x) + n.y * (p1.y - p0.y) + n.z * (p1.z - p0.z));
    }
  }

  lemma LerpCompose(s: real, a: real, b: real, c0: real, c1: real)
    ensures Lerp(s, Lerp(a, c0, c1), Lerp(b, c0, c1)) == Lerp(a + s * (b - a), c0, c1)
  {
    calc {
      Lerp(s, Lerp(a, c0, c1), Lerp(b, c0, c1));
      c0 + a * (c1 - c0) + s * ((b - a) * (c1 - c0));
      { assert s * ((b - a) * (c1 - c0)) == (s * (b - a)) * (c1 - c0); }
      c0 + (a + s * (b - a)) * (c1 - c0);
    }
  }

  /** A point taken at parameter s on the sub-segment from P(a) to P(b) is the
      point at parameter a + s * (b - a) of the whole line. */
  lemma ParametricCompose(s: real, a: real, b: real, p0: Point3, p1: Point3)
    ensures ParametricLine(s, ParametricLine(a, p0, p1), ParametricLine(b, p0, p1))
         == ParametricLine(a + s * (b - a), p0, p1)
  {
    LerpCompose(s, a, b, p0.x, p1.x);
    LerpCompose(s, a, b, p0.y, p1.y);
    LerpCompose(s, a, b, p0.z, p1.z);
  }

  lemma LerpCancel(s: real, t: real, c0: real, c1: real)
    requires Lerp(s, c0, c1) == Lerp(t, c0, c1) && c0 != c1
    ensures s == t
  {
    MulCancel(s, t, c1 - c0);
  }

  /** Points of a non-degenerate segment at different parameters differ. */
  lemma ParametricInjective(s: real, t: real, p0: Point3, p1: Point3)
    requires p0 != p1
    ensures ParametricLine(s, p0, p1) == ParametricLine(t, p0, p1) <==> s == t
  {
    if ParametricLine(s, p0, p1) == ParametricLine(t, p0, p1) {
      if p1.x != p0.x {
        LerpCancel(s, t, p0.x, p1.x);
      } else if p1.y != p0.y {
        LerpCancel(s, t, p0.y, p1.y);
      } else {
        LerpCancel(s, t, p0.z, p1.z);
      }
    }
  }

  /** Along a segment each coordinate moves monotonically: between parameters
      a <= s <= b the coordinate lies between its values at a and at b, and
      strictly inside where it actually moves. */
  lemma LerpBetween(a: real, s: real, b: real, c0: real, c1: real)
    requires a <= s <= b
    ensures c0 <= c1 ==> Lerp(a, c0, c1) <= Lerp(s, c0, c1) <= Lerp(b, c0, c1)
    ensures c1 <= c0 ==> Lerp(b, c0, c1) <= Lerp(s, c0, c1) <= Lerp(a, c0, c1)
    ensures Lerp(a, c0, c1) != Lerp(b, c0, c1) && s < b ==> Lerp(s, c0, c1) != Lerp(b, c0, c1)
    ensures Lerp(a, c0, c1) != Lerp(b, c0, c1) && a < s ==> Lerp(s, c0, c1) != Lerp(a, c0, c1)
  {
    var d := c1 - c0;
    assert Lerp(a, c0, c1) == c0 + a * d && Lerp(s, c0, c1) == c0 + s * d && Lerp(b, c0, c1) == c0 + b * d;
    if d >= 0.0 {
      MulMono(a, s, d);
      MulMono(s, b, d);
    } else {
      MulMono(a, s, -d);
      MulMono(s, b, -d);
    }
    if d > 0.0 {
      if s < b { MulStrict(s, b, d); }
      if a < s { MulStrict(a, s, d); }
    } else if d < 0.0 {
      if s < b { MulStrict(s, b, -d); }
      if a < s { MulStrict(a, s, -d); }
    }
  }

  /** The closed box is convex: the part of a segment between two points
      of the box lies in the box. */
  lemma ContainsBetween(box: Box, p0: Point3, p1: Point3, a: real, s: real, b: real)
    requires a <= s <= b
    requires box.Contains(ParametricLine(a, p0, p1)) && box.Contains(ParametricLine(b, p0, p1))
    ensures box.Contains(ParametricLine(s, p0, p1))
  {
    LerpBetween(a, s, b, p0.x, p1.x);
    LerpBetween(a, s, b, p0.y, p1.y);
    LerpBetween(a, s, b, p0.z, p1.z);
  }
}
