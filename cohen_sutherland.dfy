/** The Cohen-Sutherland clipper: region codes of the endpoints against the
    box, trivial accept and reject, and subdivision against one violated
    face at a time in a fixed priority order. */
module CohenSutherland {
  import opened RealArith
  import opened Geometry

  /** A region code. The programs keep it in an int; only the six low bits
      are ever set. */
  type OutCode = bv32

  const INSIDE: OutCode := 0
  const LEFT: OutCode := 1
  const RIGHT: OutCode := 2
  const BOTTOM: OutCode := 4
  const TOP: OutCode := 8
  const NEAR: OutCode := 16
  const FAR: OutCode := 32

  /** The six faces of the box, one per region-code bit. */
  datatype Face = Left | Right | Bottom | Top | Near | Far

  function Bit(f: Face): OutCode {
    match f
    case Left => LEFT
    case Right => RIGHT
    case Bottom => BOTTOM
    case Top => TOP
    case Near => NEAR
    case Far => FAR
  }

  /** The coordinate a face constrains. */
  function Coord(f: Face, p: Point3): real {
    match f
    case Left | Right => p.x
    case Bottom | Top => p.y
    case Near | Far => p.z
  }

  /** The plane value of a face. */
  function Bound(box: Box, f: Face): real {
    match f
    case Left => box.xmin
    case Right => box.xmax
    case Bottom => box.ymin
    case Top => box.ymax
    case Near => box.zmin
    case Far => box.zmax
  }

  /** Faces that bound a coordinate from above. */
  predicate IsUpper(f: Face) {
    f == Right || f == Top || f == Far
  }

  /** The point lies strictly on the outer side of the face. */
  predicate Beyond(box: Box, f: Face, p: Point3) {
    if IsUpper(f) then Coord(f, p) > Bound(box, f) else Coord(f, p) < Bound(box, f)
  }

  /** computeOutCode: one bit per violated face; on each axis the upper
      face is tested only when the lower one is not violated. */
  function ComputeOutCode(box: Box, p: Point3): (code: OutCode)
    ensures code == INSIDE <==> box.Contains(p)
    ensures code < 64
    ensures code & (LEFT | RIGHT) != LEFT | RIGHT
    ensures code & (BOTTOM | TOP) != BOTTOM | TOP
    ensures code & (NEAR | FAR) != NEAR | FAR
  {
    var cx := if p.x < box.xmin then INSIDE | LEFT else if p.x > box.xmax then INSIDE | RIGHT else INSIDE;
    var cy := if p.y < box.ymin then cx | BOTTOM else if p.y > box.ymax then cx | TOP else cx;
    var cz := if p.z < box.zmin then cy | NEAR else if p.z > box.zmax then cy | FAR else cy;
    cz
  }

  /** In a well-formed box, each bit of the region code says exactly that
      the point is beyond the corresponding face. */
  lemma OutCodeBits(box: Box, p: Point3)
    requires box.WellFormed()
    ensures forall f :: ComputeOutCode(box, p) & Bit(f) != 0 <==> Beyond(box, f, p)
  {
  }

  /** The position of a face in the order in which the clipper tests them. */
  function Rank(f: Face): nat {
    match f
    case Top => 0
    case Bottom => 1
    case Right => 2
    case Left => 3
    case Far => 4
    case Near => 5
  }

  /** The face a subdivision step clips against: the first face, in the
      order TOP, BOTTOM, RIGHT, LEFT, FAR, NEAR, whose bit is set; NEAR when
      none of the others is. */
  function ChosenFace(code: OutCode): (f: Face)
    ensures code != INSIDE && code < 64 ==> code & Bit(f) != 0
    ensures forall g :: Rank(g) < Rank(f) ==> code & Bit(g) == 0
  {
    if code & TOP != 0 then Top
    else if code & BOTTOM != 0 then Bottom
    else if code & RIGHT != 0 then Right
    else if code & LEFT != 0 then Left
    else if code & FAR != 0 then Far
    else Near
  }

  /** The parameter t at which the segment from p0 to p1 meets the plane of
      face f. The denominator is never zero, because exactly one endpoint is
      beyond the face. */
  function CrossingParameter(box: Box, f: Face, p0: Point3, p1: Point3): (t: real)
    requires Beyond(box, f, p0) != Beyond(box, f, p1)
    ensures 0.0 <= t <= 1.0
    ensures Beyond(box, f, p0) ==> 0.0 < t
    ensures Beyond(box, f, p1) ==> t < 1.0
    ensures Lerp(t, Coord(f, p0), Coord(f, p1)) == Bound(box, f)
  {
    var c0, c1, bound := Coord(f, p0), Coord(f, p1), Bound(box, f);
    var t := (bound - c0) / (c1 - c0);
    QuotientWithin(bound - c0, c1 - c0);
    assert t * (c1 - c0) == bound - c0;
    t
  }

  /** The intersection point of a subdivision step: the clipped coordinate is
      set to the bound itself, the other two follow the parametric line. */
  function Intersect(box: Box, f: Face, p0: Point3, p1: Point3): (q: Point3)
    requires Beyond(box, f, p0) != Beyond(box, f, p1)
    ensures q == ParametricLine(CrossingParameter(box, f, p0, p1), p0, p1)
    ensures Coord(f, q) == Bound(box, f)
  {
    var t := CrossingParameter(box, f, p0, p1);
    match f
    case Top | Bottom => Point3(Lerp(t, p0.x, p1.x), Bound(box, f), Lerp(t, p0.z, p1.z))
    case Right | Left => Point3(Bound(box, f), Lerp(t, p0.y, p1.y), Lerp(t, p0.z, p1.z))
    case Far | Near => Point3(Lerp(t, p0.x, p1.x), Lerp(t, p0.y, p1.y), Bound(box, f))
  }

  /** Number of face bits set in a code. */
  function Violations(code: OutCode): (n: nat)
    ensures n <= 6
    ensures n == 0 <==> code & 63 == 0
  {
    (if code & LEFT != 0 then 1 else 0) + (if code & RIGHT != 0 then 1 else 0)
    + (if code & BOTTOM != 0 then 1 else 0) + (if code & TOP != 0 then 1 else 0)
    + (if code & NEAR != 0 then 1 else 0) + (if code & FAR != 0 then 1 else 0)
  }

  /** Every bit of `code` is a bit of `within`. */
  predicate SubCode(code: OutCode, within: OutCode) {
    code & !within == 0
  }

  /** A code that loses a bit and gains none has fewer violations. */
  lemma ViolationsDecrease(code: OutCode, within: OutCode, f: Face)
    requires SubCode(code, within & !Bit(f)) && within & Bit(f) != 0
    ensures Violations(code) < Violations(within)
  {
  }

  /** Between two points that are not beyond a face, no point of the
      segment is beyond it. */
  lemma NotBeyondBetween(box: Box, g: Face, p0: Point3, p1: Point3, a: real, s: real, b: real)
    requires a <= s <= b
    requires !Beyond(box, g, ParametricLine(a, p0, p1)) && !Beyond(box, g, ParametricLine(b, p0, p1))
    ensures !Beyond(box, g, ParametricLine(s, p0, p1))
  {
    LerpBetween(a, s, b, Coord(g, p0), Coord(g, p1));
  }

  /** Between two points beyond the same face, every point is beyond it. */
  lemma BeyondBetween(box: Box, g: Face, p0: Point3, p1: Point3, a: real, s: real, b: real)
    requires a <= s <= b
    requires Beyond(box, g, ParametricLine(a, p0, p1)) && Beyond(box, g, ParametricLine(b, p0, p1))
    ensures Beyond(box, g, ParametricLine(s, p0, p1))
  {
    LerpBetween(a, s, b, Coord(g, p0), Coord(g, p1));
  }

  /** What a subdivision step of cohenSutherlandClip does, when neither
      trivial test applies: the endpoint with the non-zero code (the first
      one if both are) is beyond the chosen face and the other one is not,
      so the division is safe; the intersection point is not beyond the
      chosen face, and beyond no face that neither endpoint was beyond, so
      the union of the two codes loses the chosen bit and gains none. */
  lemma SubdivisionStep(box: Box, q0: Point3, q1: Point3)
    requires box.WellFormed()
    requires ComputeOutCode(box, q0) | ComputeOutCode(box, q1) != INSIDE
    requires ComputeOutCode(box, q0) & ComputeOutCode(box, q1) == INSIDE
    ensures var c0, c1 := ComputeOutCode(box, q0), ComputeOutCode(box, q1);
      var out := if c0 != INSIDE then c0 else c1;
      var f := ChosenFace(out);
      && (c0 | c1) & Bit(f) != 0
      && Beyond(box, f, q0) == (out == c0)
      && Beyond(box, f, q1) == (out != c0)
      && var q := Intersect(box, f, q0, q1);
      && (out == c0 ==> SubCode(ComputeOutCode(box, q) | c1, (c0 | c1) & !Bit(f)))
      && (out != c0 ==> SubCode(c0 | ComputeOutCode(box, q), (c0 | c1) & !Bit(f)))
  {
    var c0, c1 := ComputeOutCode(box, q0), ComputeOutCode(box, q1);
    var out := if c0 != INSIDE then c0 else c1;
    var f := ChosenFace(out);
    ChosenEndpoint(box, q0, q1);
    var q := Intersect(box, f, q0, q1);
    IntersectionFaces(box, f, q0, q1);
    var cq := ComputeOutCode(box, q);
    assert cq & Bit(Left) != 0 ==> (c0 | c1) & Bit(Left) != 0;
    assert cq & Bit(Right) != 0 ==> (c0 | c1) & Bit(Right) != 0;
    assert cq & Bit(Bottom) != 0 ==> (c0 | c1) & Bit(Bottom) != 0;
    assert cq & Bit(Top) != 0 ==> (c0 | c1) & Bit(Top) != 0;
    assert cq & Bit(Near) != 0 ==> (c0 | c1) & Bit(Near) != 0;
    assert cq & Bit(Far) != 0 ==> (c0 | c1) & Bit(Far) != 0;
    CodeShrinks(c0, c1, cq, Bit(f), out == c0);
  }

  /** The chosen face separates the endpoints: the endpoint whose code was
      chosen is beyond it, the other one is not. */
  lemma ChosenEndpoint(box: Box, q0: Point3, q1: Point3)
    requires box.WellFormed()
    requires ComputeOutCode(box, q0) | ComputeOutCode(box, q1) != INSIDE
    requires ComputeOutCode(box, q0) & ComputeOutCode(box, q1) == INSIDE
    ensures var c0, c1 := ComputeOutCode(box, q0), ComputeOutCode(box, q1);
      var out := if c0 != INSIDE then c0 else c1;
      var f := ChosenFace(out);
      && out & Bit(f) != 0
      && Beyond(box, f, q0) == (out == c0)
      && Beyond(box, f, q1) == (out != c0)
  {
    var c0, c1 := ComputeOutCode(box, q0), ComputeOutCode(box, q1);
    var out := if c0 != INSIDE then c0 else c1;
    var f := ChosenFace(out);
    OutCodeBits(box, q0);
    OutCodeBits(box, q1);
    assert out & Bit(f) != 0;
    if out == c0 {
      assert c1 & Bit(f) == 0;
    } else {
      assert c0 & Bit(f) == 0;
    }
  }

  /** The intersection point is not beyond the face it was clipped to, and
      beyond no face that neither endpoint is beyond. */
  lemma IntersectionFaces(box: Box, f: Face, q0: Point3, q1: Point3)
    requires box.WellFormed()
    requires Beyond(box, f, q0) != Beyond(box, f, q1)
    ensures var c := ComputeOutCode(box, Intersect(box, f, q0, q1));
      && c & Bit(f) == 0
      && forall g :: c & Bit(g) != 0 ==> (ComputeOutCode(box, q0) | ComputeOutCode(box, q1)) & Bit(g) != 0
  {
    var t := CrossingParameter(box, f, q0, q1);
    var q := Intersect(box, f, q0, q1);
    OutCodeBits(box, q0);
    OutCodeBits(box, q1);
    OutCodeBits(box, q);
    assert !Beyond(box, f, q);
    forall g | Beyond(box, g, q)
      ensures Beyond(box, g, q0) || Beyond(box, g, q1)
    {
      if !Beyond(box, g, q0) && !Beyond(box, g, q1) {
        NotBeyondBetween(box, g, q0, q1, 0.0, t, 1.0);
      }
    }
  }

  /** The bit arithmetic of a subdivision step: replacing one code by a
      code that lacks the chosen bit m and has no bit outside the union
      leaves a union without m and without new bits. */
  lemma CodeShrinks(c0: OutCode, c1: OutCode, cq: OutCode, m: OutCode, first: bool)
    requires cq < 64 && cq & m == 0
    requires cq & LEFT != 0 ==> (c0 | c1) & LEFT != 0
    requires cq & RIGHT != 0 ==> (c0 | c1) & RIGHT != 0
    requires cq & BOTTOM != 0 ==> (c0 | c1) & BOTTOM != 0
    requires cq & TOP != 0 ==> (c0 | c1) & TOP != 0
    requires cq & NEAR != 0 ==> (c0 | c1) & NEAR != 0
    requires cq & FAR != 0 ==> (c0 | c1) & FAR != 0
    requires first ==> c1 & m == 0
    requires !first ==> c0 & m == 0
    ensures first ==> SubCode(cq | c1, (c0 | c1) & !m)
    ensures !first ==> SubCode(c0 | cq, (c0 | c1) & !m)
  {
  }

  /** The state of the clipping loop: q0 and q1 are the points at
      parameters a <= b of the input segment, and every point of the input
      segment that lies in the box has its parameter between a and b. */
  ghost predicate Tracks(box: Box, p0: Point3, p1: Point3, a: real, b: real, q0: Point3, q1: Point3) {
    && 0.0 <= a <= b <= 1.0
    && q0 == ParametricLine(a, p0, p1) && q1 == ParametricLine(b, p0, p1)
    && forall t :: 0.0 <= t <= 1.0 && box.Contains(ParametricLine(t, p0, p1)) ==> a <= t <= b
  }

  /** The intersection point lies on the segment, at a parameter t in
      [0, 1], and on the plane of the chosen face. */
  lemma IntersectOnFace(box: Box, f: Face, q0: Point3, q1: Point3) returns (t: real)
    requires Beyond(box, f, q0) != Beyond(box, f, q1)
    ensures 0.0 <= t <= 1.0
    ensures Intersect(box, f, q0, q1) == ParametricLine(t, q0, q1)
    ensures Coord(f, ParametricLine(t, q0, q1)) == Bound(box, f)
  {
    t := CrossingParameter(box, f, q0, q1);
  }

  /** The point at parameter t of the sub-segment from P(a) to P(b) is the
      point of the input segment at a parameter s between a and b. */
  lemma OnInput(t: real, a: real, b: real, p0: Point3, p1: Point3, q0: Point3, q1: Point3) returns (s: real)
    requires 0.0 <= t <= 1.0 && a <= b
    requires q0 == ParametricLine(a, p0, p1) && q1 == ParametricLine(b, p0, p1)
    ensures a <= s <= b
    ensures ParametricLine(t, q0, q1) == ParametricLine(s, p0, p1)
  {
    s := a + t * (b - a);
    ScaleBetween(t, a, b);
    ParametricCompose(t, a, b, p0, p1);
  }

  /** The part of the segment a subdivision step cuts away lies beyond the
      chosen face, so it holds no point of the box. */
  lemma CutAwayIsOutside(box: Box, f: Face, p0: Point3, p1: Point3, a: real, b: real, s: real, u: real)
    requires a <= s <= b
    requires Beyond(box, f, ParametricLine(a, p0, p1)) != Beyond(box, f, ParametricLine(b, p0, p1))
    requires Coord(f, ParametricLine(s, p0, p1)) == Bound(box, f)
    ensures Beyond(box, f, ParametricLine(a, p0, p1)) && a <= u < s ==> Beyond(box, f, ParametricLine(u, p0, p1))
    ensures Beyond(box, f, ParametricLine(b, p0, p1)) && s < u <= b ==> Beyond(box, f, ParametricLine(u, p0, p1))
  {
    var c0, c1 := Coord(f, p0), Coord(f, p1);
    assert Coord(f, ParametricLine(s, p0, p1)) == Lerp(s, c0, c1);
    if a <= u < s {
      LerpBetween(a, u, s, c0, c1);
    }
    if s < u <= b {
      LerpBetween(s, u, b, c0, c1);
    }
  }

  lemma BeyondNotContained(box: Box, f: Face, p: Point3)
    requires Beyond(box, f, p)
    ensures !box.Contains(p)
  {
  }

  /** Cutting the tracked sub-segment at a point s on the chosen face keeps
      track of the visible part, whichever end is cut away. */
  lemma CutKeepsTrack(box: Box, f: Face, p0: Point3, p1: Point3, a: real, b: real, s: real, q0: Point3, q1: Point3)
    requires Tracks(box, p0, p1, a, b, q0, q1)
    requires a <= s <= b && Coord(f, ParametricLine(s, p0, p1)) == Bound(box, f)
    requires Beyond(box, f, q0) != Beyond(box, f, q1)
    ensures Beyond(box, f, q0) ==> Tracks(box, p0, p1, s, b, ParametricLine(s, p0, p1), q1)
    ensures Beyond(box, f, q1) ==> Tracks(box, p0, p1, a, s, q0, ParametricLine(s, p0, p1))
  {
    forall u | 0.0 <= u <= 1.0 && box.Contains(ParametricLine(u, p0, p1))
      ensures Beyond(box, f, q0) ==> s <= u
      ensures Beyond(box, f, q1) ==> u <= s
    {
      CutAwayIsOutside(box, f, p0, p1, a, b, s, u);
      if Beyond(box, f, ParametricLine(u, p0, p1)) {
        BeyondNotContained(box, f, ParametricLine(u, p0, p1));
      }
    }
  }

  /** A subdivision step keeps track of the visible part; s is the
      parameter of the intersection point on the input segment. */
  lemma SubdivisionKeepsTrack(box: Box, f: Face, p0: Point3, p1: Point3, a: real, b: real, q0: Point3, q1: Point3)
    returns (s: real)
    requires Tracks(box, p0, p1, a, b, q0, q1)
    requires Beyond(box, f, q0) != Beyond(box, f, q1)
    ensures Intersect(box, f, q0, q1) == ParametricLine(s, p0, p1)
    ensures Beyond(box, f, q0) ==> Tracks(box, p0, p1, s, b, ParametricLine(s, p0, p1), q1)
    ensures Beyond(box, f, q1) ==> Tracks(box, p0, p1, a, s, q0, ParametricLine(s, p0, p1))
  {
    var t := IntersectOnFace(box, f, q0, q1);
    s := OnInput(t, a, b, p0, p1, q0, q1);
    CutKeepsTrack(box, f, p0, p1, a, b, s, q0, q1);
  }

  /** When the loop stops, the tracked parameters describe the visible part:
      all of [a, b] after a trivial accept, nothing after a trivial reject. */
  lemma TrackedResult(box: Box, p0: Point3, p1: Point3, a: real, b: real, q0: Point3, q1: Point3)
    requires Tracks(box, p0, p1, a, b, q0, q1)
    ensures box.Contains(q0) && box.Contains(q1) ==>
      forall t :: 0.0 <= t <= 1.0 ==> (box.Contains(ParametricLine(t, p0, p1)) <==> a <= t <= b)
    ensures (exists g :: Beyond(box, g, q0) && Beyond(box, g, q1)) ==>
      forall t :: 0.0 <= t <= 1.0 ==> !box.Contains(ParametricLine(t, p0, p1))
  {
    if box.Contains(q0) && box.Contains(q1) {
      forall t | a <= t <= b
        ensures box.Contains(ParametricLine(t, p0, p1))
      {
        ContainsBetween(box, p0, p1, a, t, b);
      }
    }
    if g :| Beyond(box, g, q0) && Beyond(box, g, q1) {
      forall t | a <= t <= b
        ensures Beyond(box, g, ParametricLine(t, p0, p1))
      {
        BeyondBetween(box, g, p0, p1, a, t, b);
      }
    }
  }

  /** The invariant of the clipping loop after `steps` subdivisions. */
  ghost predicate ClipState(box: Box, p0: Point3, p1: Point3, a: real, b: real, q0: Point3, q1: Point3, steps: nat) {
    && Tracks(box, p0, p1, a, b, q0, q1)
    && steps + Violations(ComputeOutCode(box, q0) | ComputeOutCode(box, q1)) <= 6
    && (box.Contains(p0) && box.Contains(p1) ==> steps == 0)
    && (steps == 0 ==> a == 0.0 && b == 1.0)
  }

  /** One pass through the subdivision branch of the loop keeps the
      invariant and lowers the number of violated faces. */
  lemma ClipStep(box: Box, p0: Point3, p1: Point3, a: real, b: real, q0: Point3, q1: Point3, steps: nat)
    returns (s: real)
    requires box.WellFormed() && ClipState(box, p0, p1, a, b, q0, q1, steps)
    requires ComputeOutCode(box, q0) | ComputeOutCode(box, q1) != INSIDE
    requires ComputeOutCode(box, q0) & ComputeOutCode(box, q1) == INSIDE
    ensures var c0, c1 := ComputeOutCode(box, q0), ComputeOutCode(box, q1);
      var out := if c0 != INSIDE then c0 else c1;
      var f := ChosenFace(out);
      && Beyond(box, f, q0) != Beyond(box, f, q1)
      && var q := Intersect(box, f, q0, q1);
      var cq := ComputeOutCode(box, q);
      && (out == c0 ==> ClipState(box, p0, p1, s, b, q, q1, steps + 1) && Violations(cq | c1) < Violations(c0 | c1))
      && (out != c0 ==> ClipState(box, p0, p1, a, s, q0, q, steps + 1) && Violations(c0 | cq) < Violations(c0 | c1))
  {
    var c0, c1 := ComputeOutCode(box, q0), ComputeOutCode(box, q1);
    var out := if c0 != INSIDE then c0 else c1;
    var f := ChosenFace(out);
    SubdivisionStep(box, q0, q1);
    s := SubdivisionKeepsTrack(box, f, p0, p1, a, b, q0, q1);
    var q := Intersect(box, f, q0, q1);
    var cq := ComputeOutCode(box, q);
    if out == c0 {
      ViolationsDecrease(cq | c1, c0 | c1, f);
    } else {
      ViolationsDecrease(c0 | cq, c0 | c1, f);
    }
  }

  /** ClipStep for the codes the loop holds: the endpoint replaced is the
      first one exactly when its code is not INSIDE. */
  lemma ClipStepCodes(box: Box, p0: Point3, p1: Point3, a: real, b: real, q0: Point3, q1: Point3, steps: nat,
                      c0: OutCode, c1: OutCode)
    returns (s: real)
    requires box.WellFormed() && ClipState(box, p0, p1, a, b, q0, q1, steps)
    requires c0 == ComputeOutCode(box, q0) && c1 == ComputeOutCode(box, q1)
    requires c0 | c1 != INSIDE && c0 & c1 == INSIDE
    ensures var f := ChosenFace(if c0 != INSIDE then c0 else c1);
      Beyond(box, f, q0) != Beyond(box, f, q1)
    ensures var f := ChosenFace(c0);
      c0 != INSIDE ==>
      && ClipState(box, p0, p1, s, b, Intersect(box, f, q0, q1), q1, steps + 1)
      && Violations(ComputeOutCode(box, Intersect(box, f, q0, q1)) | c1) < Violations(c0 | c1)
    ensures var f := ChosenFace(c1);
      c0 == INSIDE ==>
      && ClipState(box, p0, p1, a, s, q0, Intersect(box, f, q0, q1), steps + 1)
      && Violations(c0 | ComputeOutCode(box, Intersect(box, f, q0, q1))) < Violations(c0 | c1)
  {
    s := ClipStep(box, p0, p1, a, b, q0, q1, steps);
    if c0 != INSIDE {
      assert (if c0 != INSIDE then c0 else c1) == c0;
    } else {
      assert (if c0 != INSIDE then c0 else c1) == c1;
    }
  }

  /** When the loop stops, the invariant gives every postcondition of the
      clipper. */
  lemma ClipResult(box: Box, p0: Point3, p1: Point3, a: real, b: real, q0: Point3, q1: Point3, steps: nat, accept: bool)
    requires box.WellFormed() && ClipState(box, p0, p1, a, b, q0, q1, steps)
    requires accept ==> ComputeOutCode(box, q0) | ComputeOutCode(box, q1) == INSIDE
    requires !accept ==> ComputeOutCode(box, q0) & ComputeOutCode(box, q1) != INSIDE
    ensures accept ==> box.Contains(q0) && box.Contains(q1)
    ensures box.Contains(p0) && box.Contains(p1) ==> accept && q0 == p0 && q1 == p1
    ensures forall t :: 0.0 <= t <= 1.0 ==>
      (box.Contains(ParametricLine(t, p0, p1)) <==> accept && a <= t <= b)
  {
    TrackedResult(box, p0, p1, a, b, q0, q1);
    if !accept {
      var g := ChosenFace(ComputeOutCode(box, q0) & ComputeOutCode(box, q1));
      OutCodeBits(box, q0);
      OutCodeBits(box, q1);
      assert Beyond(box, g, q0) && Beyond(box, g, q1);
    }
  }

  /** The subdivision branch of the loop: clip the endpoint that is
      outside (the first one if both are) to the first face its code names,
      and recompute that endpoint's code. The chosen face separates the two
      endpoints, and the replaced endpoint is the intersection with it. */
  method Subdivide(box: Box, ghost p0: Point3, ghost p1: Point3, q0: Point3, q1: Point3,
                   outcode0: OutCode, outcode1: OutCode, ghost a: real, ghost b: real, ghost steps: nat)
    returns (r0: Point3, r1: Point3, code0: OutCode, code1: OutCode, ghost a': real, ghost b': real)
    requires box.WellFormed() && ClipState(box, p0, p1, a, b, q0, q1, steps)
    requires outcode0 == ComputeOutCode(box, q0) && outcode1 == ComputeOutCode(box, q1)
    requires outcode0 | outcode1 != INSIDE && outcode0 & outcode1 == INSIDE
    ensures ClipState(box, p0, p1, a', b', r0, r1, steps + 1)
    ensures code0 == ComputeOutCode(box, r0) && code1 == ComputeOutCode(box, r1)
    ensures Violations(code0 | code1) < Violations(outcode0 | outcode1)
    ensures outcode0 != INSIDE ==> r1 == q1 && b' == b
    ensures outcode0 == INSIDE ==> r0 == q0 && a' == a
    ensures var face := ChosenFace(if outcode0 != INSIDE then outcode0 else outcode1);
      Beyond(box, face, q0) != Beyond(box, face, q1)
      && (outcode0 != INSIDE ==> r0 == Intersect(box, face, q0, q1))
      && (outcode0 == INSIDE ==> r1 == Intersect(box, face, q0, q1))
  {
    var outcodeOut := if outcode0 != INSIDE then outcode0 else outcode1;
    var face := ChosenFace(outcodeOut);
    ghost var s := ClipStepCodes(box, p0, p1, a, b, q0, q1, steps, outcode0, outcode1);
    var q := Intersect(box, face, q0, q1);
    r0, r1, code0, code1, a', b' := q0, q1, outcode0, outcode1, a, b;
    if outcodeOut == outcode0 {
      assert outcode0 != INSIDE;
      r0 := q;
      code0 := ComputeOutCode(box, r0);
      a' := s;
    } else {
      assert outcode0 == INSIDE;
      r1 := q;
      code1 := ComputeOutCode(box, r1);
      b' := s;
    }
  }

  /** cohenSutherlandClip / cohen_sutherland_clip. The endpoints the C++
      version overwrites through its reference parameters, and the Python
      version rebinds and returns, are the results q0 and q1. The ghost
      results a and b are the parameters of q0 and q1 on the input segment,
      and steps counts the subdivisions.

      The result describes the clipped segment exactly: a parameter of the
      input segment gives a point of the box if and only if the segment was
      accepted and the parameter lies between a and b. */
  method CohenSutherlandClip(box: Box, p0: Point3, p1: Point3)
    returns (accept: bool, q0: Point3, q1: Point3, ghost a: real, ghost b: real, ghost steps: nat)
    requires box.WellFormed()
    ensures 0.0 <= a <= b <= 1.0
    ensures q0 == ParametricLine(a, p0, p1) && q1 == ParametricLine(b, p0, p1)
    ensures accept ==> box.Contains(q0) && box.Contains(q1)
    ensures !accept ==> ComputeOutCode(box, q0) & ComputeOutCode(box, q1) != INSIDE
    ensures box.Contains(p0) && box.Contains(p1) ==> accept && q0 == p0 && q1 == p1
    ensures forall t :: 0.0 <= t <= 1.0 ==>
      (box.Contains(ParametricLine(t, p0, p1)) <==> accept && a <= t <= b)
    ensures steps <= 6
  {
    var outcode0 := ComputeOutCode(box, p0);
    var outcode1 := ComputeOutCode(box, p1);
    q0, q1 := p0, p1;
    a, b, steps := 0.0, 1.0, 0;
    accept := false;

    while true
      invariant ClipState(box, p0, p1, a, b, q0, q1, steps)
      invariant outcode0 == ComputeOutCode(box, q0) && outcode1 == ComputeOutCode(box, q1)
      decreases Violations(outcode0 | outcode1)
    {
      if outcode0 | outcode1 == INSIDE {
        // Trivial accept: both endpoints are inside.
        accept := true;
        break;
      } else if outcode0 & outcode1 != INSIDE {
        // Trivial reject: both endpoints are beyond a common face.
        break;
      } else {
        q0, q1, outcode0, outcode1, a, b := Subdivide(box, p0, p1, q0, q1, outcode0, outcode1, a, b, steps);
        steps := steps + 1;
      }
    }

    ClipResult(box, p0, p1, a, b, q0, q1, steps, accept);
  }
}
