# 3D line clipping: Cohen-Sutherland and Cyrus-Beck

This project models the two line-segment clippers of the repository and proves
what they compute. Each clipper exists twice, in C++ and in Python, and the two
versions do the same arithmetic.

- **Cohen-Sutherland**: a 6-bit region code (`computeOutCode` /
  `compute_outcode`) classifies a point against the box
  [0,5] x [0,4] x [0,3]. The clipping loop (`cohenSutherlandClip` /
  `cohen_sutherland_clip`) has three outcomes:
  - it accepts when the OR of the two codes is zero;
  - it rejects when their AND is non-zero;
  - otherwise it moves one endpoint onto the first violated face, taken in the
    order TOP, BOTTOM, RIGHT, LEFT, FAR, NEAR.
- **Cyrus-Beck**: `cyrusBeckClip` / `cyrus_beck_clip` narrows the parameter
  interval [t0, t1], starting from [0, 1], over an ordered list of six
  half-spaces n . p >= d. A plane parallel to the segment either rejects the
  segment or is skipped. The clipped endpoints are then computed with
  `parametricLine`.

Coordinates are exact reals, so every formula of the programs is exact rational
arithmetic.

Files:

- `geometry.dfy`:
  - module `RealArith` holds small facts about products and quotients;
  - module `Geometry` holds points, segments, the box, `Dot` (`dotProduct`)
    and `ParametricLine` (`parametricLine`).
- `cohen_sutherland.dfy` (module `CohenSutherland`):
  - the region codes (as `bv32`, since the C++ code keeps them in an `int`);
  - the face order, the intersection step, and the clipping loop as a method
    with a `while` loop.
  - The method's ghost results `a` and `b` are the parameters of the final
    endpoints on the input segment.
  - The loop invariant `ClipState` says four things:
    - the current endpoints are P(a) and P(b);
    - every point of the box on the input segment has its parameter in [a, b];
    - the number of subdivisions so far plus the number of violated faces is at
      most 6;
    - a segment that starts inside is never touched.
- `cyrus_beck.dfy` (module `CyrusBeck`):
  - the plane list; one pass of the loop (`Step`); the whole loop as a fold
    (`Narrow`); and the loop itself as the method `ClipRange`.
  - `ClipRange` takes the parallel-plane test as a parameter: `AsWritten`
    (n . P0 - d > 0, as both programs write it) or `Corrected`
    (n . P0 - d < 0).
  - `CyrusBeckClipCpp` and `CyrusBeckClipPy` model the two programs as written.
  - `CyrusBeckClip` is the clipper with the defects listed under Findings
    corrected.
- `cyrus_beck_findings.dfy` (module `CyrusBeckFindings`): concrete segments
  that show each finding.

## Model

| member | source | states |
|---|---|---|
| `Geometry.ParametricLine` | Cyrus-Beck.cpp:45-49 | P0 + t (P1 - P0), which is P0 at t = 0 and P1 at t = 1 |
| `Geometry.DotAlongLine` | Cyrus-Beck.cpp:52-54 | along the line the dot product with a fixed normal is affine in t: n . P(t) = n . P0 + t n . (P1 - P0) |
| `Geometry.ParametricCompose` | Cyrus-Beck.cpp:84-85 | the point at s on the sub-segment from P(a) to P(b) is the point at a + s (b - a) of the whole line |
| `Geometry.ParametricInjective` | Cyrus-Beck.py:37-41 | on a segment of non-zero length, different parameters give different points |
| `Geometry.LerpBetween` | Cohen-Sutherland.py:71-72 | every coordinate moves monotonically along the segment, strictly where it moves at all |
| `Geometry.ContainsBetween` | Cohen-Sutherland.cpp:69-72 | the closed box is convex: between two points of the box every point of the segment is in the box |
| `Geometry.ClipBoxWellFormed` | Cohen-Sutherland.cpp:10-12 | the box [0,5] x [0,4] x [0,3] of the programs has min <= max on every axis |
| `CohenSutherland.ComputeOutCode` | Cohen-Sutherland.cpp:49-58 | the code is INSIDE exactly when the point is in the closed box (boundaries count as inside); it is below 64; it never has LEFT and RIGHT, BOTTOM and TOP, or NEAR and FAR both set |
| `CohenSutherland.OutCodeBits` | Cohen-Sutherland.py:41-46 | in a well-formed box each bit is set exactly when the point is strictly beyond that face |
| `CohenSutherland.ChosenFace` | Cohen-Sutherland.cpp:82-112 | the chosen face has its bit set in a non-zero code, and no face earlier in the order TOP, BOTTOM, RIGHT, LEFT, FAR, NEAR has |
| `CohenSutherland.CrossingParameter` | Cohen-Sutherland.cpp:84-109 | when exactly one endpoint is beyond the face (so the divisor is non-zero), t lies in [0, 1], strictly above 0 when the first endpoint is beyond and strictly below 1 when the second is, and the clipped coordinate reaches the bound at t |
| `CohenSutherland.Intersect` | Cohen-Sutherland.py:68-97 | the intersection point is the point of the segment at the crossing parameter, and its clipped coordinate equals the bound exactly |
| `CohenSutherland.Violations` | Cohen-Sutherland.cpp:19-27 | the number of violated faces is at most 6, and zero exactly when no face bit is set |
| `CohenSutherland.ViolationsDecrease` | Cohen-Sutherland.cpp:68-123 | a code that loses the chosen bit and gains none has fewer violated faces |
| `CohenSutherland.NotBeyondBetween` | Cohen-Sutherland.cpp:82-91 | between two points that are not beyond a face, no point of the segment is beyond it |
| `CohenSutherland.BeyondBetween` | Cohen-Sutherland.cpp:73-75 | between two points beyond the same face, every point of the segment is beyond it |
| `CohenSutherland.SubdivisionStep` | Cohen-Sutherland.cpp:73-121 | in a subdivision step the chosen endpoint is beyond the chosen face and the other is not, so the division is safe; the union of the codes loses the chosen bit and gains none |
| `CohenSutherland.ChosenEndpoint` | Cohen-Sutherland.py:65 | the endpoint whose code is chosen (the first one when its code is non-zero) is beyond the chosen face and the other endpoint is not |
| `CohenSutherland.IntersectionFaces` | Cohen-Sutherland.cpp:114-121 | the new point is not beyond the face it was clipped to, and beyond no face that neither endpoint was beyond |
| `CohenSutherland.CodeShrinks` | Cohen-Sutherland.py:99-105 | replacing one endpoint's code by the new point's code leaves a union without the chosen bit and with no bit that was not there before |
| `CohenSutherland.IntersectOnFace` | Cohen-Sutherland.cpp:82-112 | the intersection point lies on the current segment at a parameter in [0, 1], on the plane of the chosen face |
| `CohenSutherland.OnInput` | Cohen-Sutherland.cpp:115-120 | a point of the current sub-segment is the point of the input segment at a parameter between a and b |
| `CohenSutherland.CutAwayIsOutside` | Cohen-Sutherland.cpp:114-121 | the part of the segment that a step cuts away is beyond the chosen face |
| `CohenSutherland.BeyondNotContained` | Cohen-Sutherland.cpp:51-56 | a point beyond a face is not in the box |
| `CohenSutherland.CutKeepsTrack` | Cohen-Sutherland.py:100-105 | cutting at the point on the chosen face keeps every point of the box between the new a and b, whichever endpoint is replaced |
| `CohenSutherland.SubdivisionKeepsTrack` | Cohen-Sutherland.cpp:78-121 | the intersection point is the input segment's point at some s, and the cut sub-segment still holds every point of the box |
| `CohenSutherland.TrackedResult` | Cohen-Sutherland.cpp:69-75 | after a trivial accept the visible part is exactly [a, b]; after a trivial reject no point of the input segment is in the box |
| `CohenSutherland.ClipStep` | Cohen-Sutherland.cpp:76-122 | one subdivision keeps the loop invariant, with one more step, and strictly lowers the number of violated faces of the union |
| `CohenSutherland.ClipResult` | Cohen-Sutherland.py:56-62 | when the loop stops, the invariant gives the clipper's postconditions |
| `CohenSutherland.ClipStepCodes` | Cohen-Sutherland.cpp:78-121 | the same step stated for the codes the loop holds: the chosen face separates the endpoints, and replacing the first endpoint (when its code is not INSIDE) or else the second by the intersection keeps the invariant and lowers the violated faces |
| `CohenSutherland.Subdivide` | Cohen-Sutherland.cpp:78-121 | the subdivision branch: the face chosen from the outside endpoint's code separates the endpoints, the replaced endpoint is exactly the intersection with that face (clipped coordinate at the bound), the other endpoint is unchanged, both codes are recomputed correctly, the invariant holds after the step and the violated faces decrease |
| `CohenSutherland.CohenSutherlandClip` | Cohen-Sutherland.cpp:63-125 | the results are P(a) and P(b) with 0 <= a <= b <= 1; accept puts both in the box; a rejection leaves codes that share a bit; an input inside the box is accepted unchanged; a point of the input segment is in the box exactly when accept holds and its parameter is in [a, b]; at most 6 subdivisions happen |
| `CyrusBeck.BoxPlanesInside` | Cyrus-Beck.cpp:21-28 | a point is inside the six planes of a box exactly when it is in the closed box |
| `CyrusBeck.BoxOffsets` | Cyrus-Beck.py:18-25 | n . p - d for each of the six planes is the distance inside along its axis |
| `CyrusBeck.BoxDenoms` | Cyrus-Beck.cpp:64-65 | n . (P1 - P0) for each of the six planes is the direction along its axis, with the normal's sign |
| `CyrusBeck.RejectingWitness` | Cyrus-Beck.cpp:75-78 | one parallel plane with a rejecting offset makes the segment rejected |
| `CyrusBeck.OffsetAlongLine` | Cyrus-Beck.cpp:65-68 | the signed distance to a plane along the segment is num + t denom |
| `CyrusBeck.CrossingOnPlane` | Cyrus-Beck.cpp:69-73 | -num / denom is the parameter at which the line meets the plane n . p = d |
| `CyrusBeck.InsideAlongLine` | Cyrus-Beck.cpp:67-79 | on an entering plane P(t) is inside exactly from -num / denom on; on a leaving plane exactly up to it; on a parallel plane for all t or none, as P0 is |
| `CyrusBeck.StepRejects` | Cyrus-Beck.py:66-69 | one pass rejects exactly on a parallel plane that the test rejects |
| `CyrusBeck.StepAt` | Cyrus-Beck.cpp:67-74 | otherwise one pass keeps exactly the parameters of the old interval whose point is inside the plane (a parallel plane constrains nothing) |
| `CyrusBeck.RejectedStays` | Cyrus-Beck.cpp:77-78 | after a rejection the remaining planes change nothing |
| `CyrusBeck.NarrowRejects` | Cyrus-Beck.cpp:61-80 | the loop rejects exactly when some plane of the list is parallel and rejecting |
| `CyrusBeck.NarrowAt` | Cyrus-Beck.py:52-69 | a parameter is in the final interval exactly when it is in the start interval and its point is inside every non-parallel plane |
| `CyrusBeck.NarrowSolves` | Cyrus-Beck.cpp:58-80 | the two facts above together, for any start interval and either test |
| `CyrusBeck.NarrowShrinks` | Cyrus-Beck.py:61-65 | the loop only narrows: t0 is never lowered and t1 never raised |
| `CyrusBeck.ClipRange` | Cyrus-Beck.cpp:58-80 | the for-loop with its break: accept holds exactly when the fold ends in an interval, and that interval is [t0, t1]; t0 >= 0 and t1 <= 1 |
| `CyrusBeck.SecondEndpointDrift` | Cyrus-Beck.cpp:84-85 | P(t1) taken from the overwritten first endpoint is the input segment's point at t0 + t1 (1 - t0); on a segment of non-zero length this is P(t1) only when t0 = 0 or t1 = 1 |
| `CyrusBeck.CyrusBeckClipCpp` | Cyrus-Beck.cpp:57-89 | true exactly when no parallel plane has n . P0 - d > 0; with a non-empty interval the endpoints become P(t0) and the drifted point, otherwise (also for an empty interval) they are unchanged |
| `CyrusBeck.CyrusBeckClipPy` | Cyrus-Beck.py:48-76 | a segment is returned exactly when no parallel plane rejects and t0 < t1, namely P(t0) and the drifted point; None otherwise |
| `CyrusBeck.CorrectedExact` | Cyrus-Beck.cpp:75-79 | with the corrected test, a rejection means no point of the line is inside all planes, and a final interval holds exactly the parameters in [0, 1] whose points are inside all planes |
| `CyrusBeck.AdmitsAll` | Cyrus-Beck.py:66-67 | when no plane rejects under the corrected test, inside the non-parallel planes is inside all planes |
| `CyrusBeck.CyrusBeckClip` | Cyrus-Beck.cpp:57-89 | corrected clipper: a returned segment is P(a) to P(b) with a < b, and [a, b] is exactly the set of visible parameters in [0, 1]; None means at most one point is visible |
| `CyrusBeck.ParallelPairRejects` | Cyrus-Beck.cpp:75-78 | as written, two parallel planes whose offsets add up to more than zero reject the segment |
| `CyrusBeck.AxisParallelRejected` | Cyrus-Beck.py:18-25 | as written, any segment that keeps one coordinate fixed is rejected by a box with extent on that axis, inside or not |
| `CyrusBeck.ZeroLengthRejected` | Cyrus-Beck.py:66-69 | as written, a zero-length segment is always rejected by a box with some width |
| `CyrusBeck.StepKeepsInside` | Cyrus-Beck.cpp:67-79 | corrected, a plane both endpoints are inside leaves [0, 1] as it is |
| `CyrusBeck.NarrowKeeps` | Cyrus-Beck.cpp:61 | planes that each leave the range as it is leave it as it is together |
| `CyrusBeck.InsideKeptWhole` | Cyrus-Beck.py:52-69 | corrected, a segment with both endpoints inside every plane is kept whole |
| `CyrusBeck.ZeroDirection` | Cyrus-Beck.py:55-56 | a zero-length segment is parallel to every plane |
| `CyrusBeck.NarrowAllParallel` | Cyrus-Beck.py:66-69 | against planes all parallel to the segment, the loop leaves the interval as it is unless a plane rejects |
| `CyrusBeck.ParallelRejectsOutside` | Cyrus-Beck.cpp:75 | corrected, with all planes parallel, a plane rejects exactly when P0 is outside some plane |
| `CyrusBeck.ZeroLengthCorrected` | Cyrus-Beck.cpp:75-79 | corrected, a zero-length segment is kept whole when its point is inside every plane and rejected otherwise |
| `CyrusBeckFindings.ParallelInsideRejected` | Cyrus-Beck.cpp:75-78 | the segment (1,1,1) to (2,1,1) is rejected as written |
| `CyrusBeckFindings.ParallelInsideKept` | Cyrus-Beck.py:66-69 | the corrected test keeps all of that segment |
| `CyrusBeckFindings.ParallelInsideVisible` | Cyrus-Beck.cpp:22-27 | every point of that segment is inside all six planes |
| `CyrusBeckFindings.DemoSecondEndpoint` | Cyrus-Beck.py:73-74 | on the demo segment (-1,2,1) to (6,5,4) the interval is [1/7, 2/3]; the visible part ends at (11/3, 4, 3), but the second endpoint as written is (4, 29/7, 22/7), outside the box |
| `CyrusBeckFindings.EmptyIntervalAccepted` | Cyrus-Beck.cpp:83-88 | the segment (-3,1,1) to (-1,2,2), outside the box, ends the loop with the empty [3/2, 1] |
| `CyrusBeckFindings.EmptyIntervalNotRejected` | Cyrus-Beck.cpp:88 | no plane rejects that segment, so the C++ clipper returns true for it |
| `CyrusBeckFindings.EmptyIntervalInvisible` | Cyrus-Beck.cpp:82-86 | no point of that segment is inside the six planes |

## Left out

- The OpenGL/GLUT code (`drawText`, `drawBox`, `display`, `init`, `main`,
  `timer` and its angle).
  - Reason: it only renders and runs the event loop, through foreign calls.
- `coordToStr` / `coord_to_str`.
  - Reason: it is fixed-precision float formatting done by library streams
    and f-strings.
- 3D-ClippingViewing.cpp and 3D-ClippingViewing.py are not part of this model.
  - Reason: they contain no clipping algorithm; OpenGL's projection does the
    clipping there.
- IEEE-754 single and double precision rounding, NaN and infinity.
  - Coordinates are exact reals, so the drift that float rounding would add
    is not modelled.
- The C++ reference parameters and the Python returned tuples are modelled as
  method results.
- The box and the plane list are parameters; `ClipBox` and `Planes` are the
  programs' values.
- CohenSutherland.CohenSutherlandClip: requires a well-formed box
  (min <= max on each axis). The programs use one fixed box that meets this,
  as `ClipBoxWellFormed` shows.
- CyrusBeck.ClipRange: its loop invariant keeps only the bounds 0 <= t0 and
  t1 <= 1 and the fold. That t0 never falls and t1 never rises is proved about
  the fold (`NarrowShrinks`), not as a step-by-step invariant of the loop.

## Findings

| source | as written | input that shows it | evidently intended | confidence | as-written member | corrected member |
|---|---|---|---|---|---|---|
| Cyrus-Beck.cpp:75-78 | a plane parallel to the segment rejects it when n . P0 - d > 0, which with these normals is the inside of the plane (the same test is at Cyrus-Beck.py:66-69) | P0 = (1,1,1), P1 = (2,1,1), wholly inside the box: rejected | reject when n . P0 - d < 0, i.e. when the parallel line lies outside | not executed | CyrusBeckFindings.ParallelInsideRejected | CyrusBeck.CyrusBeckClip |
| Cyrus-Beck.cpp:84-85 | the second endpoint is computed from the already overwritten first one, giving the point at t0 + t1 (1 - t0) (the same at Cyrus-Beck.py:73-74) | P0 = (-1,2,1), P1 = (6,5,4), the programs' own segment: the second endpoint is (4, 29/7, 22/7), outside the box | the second endpoint is P(t1) = (11/3, 4, 3) of the input segment | not executed | CyrusBeckFindings.DemoSecondEndpoint | CyrusBeck.CyrusBeckClip |
| Cyrus-Beck.cpp:83-88 | returns true when t0 >= t1, with the endpoints unchanged, so the caller draws the whole unclipped segment | P0 = (-3,1,1), P1 = (-1,2,2), wholly outside the box: the loop ends with [3/2, 1] and the function returns true | return no segment, as the Python version does | not executed | CyrusBeckFindings.EmptyIntervalAccepted | CyrusBeck.CyrusBeckClip |
