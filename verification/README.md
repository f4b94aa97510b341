# Bounce: the collision core

This project models the collision engine of the `levels` package of
ssoroka/bounce in Dafny. The engine is a small 2D physics loop: circles bounce
inside a rectangular arena (a `CubeBoundary`), and rotating rectangles
(`Cube`s) are checked against each other and against the arena. The model
covers four layers:

- **Value algebra** (`types.dfy`, `edgemath.dfy`): points, vectors and sizes,
  with reflection, normalisation, rotation about a pivot, the `dot` helper
  and the edge-normal helper `normal`.
- **Segments** (`lines.dfy`): length, direction, normal, the
  segment-intersection test (Cramer's rule on the two segment parameters)
  and the epsilon point-on-segment test.
- **Rectangles** (`rects.dfy`, `cubes.dfy`, `boundaries.dfy`): the four
  corners rotated about the centre, cached in fields. `Cube` and
  `CubeBoundary` are classes, because `RecalculateCorners`, `Update` and
  `Scale` overwrite those fields. This layer also holds the circle-in-arena
  wall test.
- **Narrow phase and the tick** (`collisions.dfy`, `level1.dfy`):
  - the shape-pair dispatch `CheckCollision`;
  - the circle-circle test;
  - the axis-aligned and Separating-Axis tests for two cubes;
  - the corner-versus-edge test for a cube in an arena;
  - `Game.CheckCollisions`, which tests every pair `i < j` in row-major
    order and resolves each hit before testing the next pair.

The source's loops are modelled as Dafny methods with loops:

- `projectCorners`, `CubeVsCubeSAT` and `CubeVsBoundary`;
- the two nested loops of `CheckCollisions`.

Each method is proved equal to a recursive specification function. For
`projectCorners` that function is a fold over the first n corners
(`ProjMin`/`ProjMax`). The others describe the work left at any point of
the loop: `SatScan`, `EdgeScan`, and `FoldPairs` over `Row`/`PairsFrom`.
The properties are then proved about those functions.

Modelling choices:

- **Numbers.** `float32` values are Dafny `real`s.
- **`math.Sqrt`, `math.Sin` and `math.Cos`.** These are foreign code. They
  are passed in as the function record `GoMath.Math`. Lemmas that depend on
  what they mean require `SqrtLaws` (the non-negative root) or `TrigLaws`
  (sin² + cos² = 1, sin 0 = 0, cos 0 = 1).
- **Circles.** A circle is a value (`Circles.Circle`). The list of game
  objects is a `seq<Body>` that the tick reads and writes back, so a later
  pair sees the circles an earlier pair moved, as it does through Go's
  pointers.
- **`collisionCount`.** This package-level counter is the field
  `Game.CollisionCount`.
- **The boundary push.** When the arena is first in a pair and hits a
  circle, levels/level1.go:95-102 moves the circle along the collision
  normal to push it out of the wall. But `CheckCollision` has already
  negated that normal (levels/collisions.go:21), so the circle moves Depth
  further out through the wall; only its reflected velocity brings it back.
  The model keeps the code as written (`Level1.BoundaryPushDeepens`), and
  `Level1.BoundaryPushIntended` proves that pushing along the un-negated
  normal would leave the circle exactly touching the wall.
- **Rotation units.** `CubeVsCube` compares `floatMod(rotation, 90)`
  of the two cubes (levels/collisions.go:80), but rotations are radians.
  For any rotation of magnitude below 90 that is plain equality
  (`Collisions.CubeVsCubeBranch`). So two cubes with the same nonzero
  rotation take the AABB branch, which tests their unrotated X, Y, W, H
  rectangles.
- **AABB against SAT.** On two unrotated cubes the two tests agree on
  every strict overlap: both hit, with the same depth
  (`Collisions.SatAgreesWithAabb`). They differ, as the code is written,
  in three ways:
  - Touching edges: AABB reports no hit, while SAT reports a hit of
    depth 0.
  - Equal X and Y overlaps: SAT keeps the X axis, while AABB takes Y.
  - Normal direction: AABB's normal points from b toward a, while SAT's
    points from a toward b (`Collisions.BoxSat`, `Collisions.AabbResponse`).
- **Panics.** A type assertion to `*Circle` that would panic ends the tick;
  the model reports it as the `panicked` result.

## Model

| member | source | states |
|---|---|---|
| Types.SizeScaleCompose | levels/types.go:41-43 | scaling by a then by b is scaling by a·b, scaling by 1 changes nothing, and the ratio W : H is kept |
| Types.PointAddSub | levels/types.go:10-16 | adding then subtracting the same point, in either order, gives back the original point |
| Types.VectorAddSub | levels/types.go:47-49 | adding then subtracting the same vector, in either order, gives back the original vector (Sub is at types.go:59-61) |
| Types.DotSymmetric | levels/types.go:71-73 | the vector dot product is symmetric |
| Types.NormalizeZero | levels/types.go:75-81 | normalising the zero vector returns the zero vector instead of dividing by zero, whatever Sqrt returns |
| Types.NormalizeUnit | levels/types.go:67-81 | under the square-root law a nonzero vector has positive length, normalises to a unit vector, and is that unit vector scaled by its length |
| Types.ReflectIsSub | levels/types.go:51-57 | reflection subtracts the normal scaled by twice the component along it |
| Types.ReflectDot | levels/types.go:51-57 | measured along any w, reflection subtracts 2(v·n)(n·w) |
| Types.ReflectFlipsNormal | levels/types.go:51-57 | for a unit normal, the reflected velocity's component along the normal is the negation of the original one |
| Types.ReflectInvolution | levels/types.go:51-57 | reflecting twice off the same unit normal gives back the original vector |
| Types.ReflectKeepsTangent | levels/types.go:51-57 | the component along any direction perpendicular to the normal is unchanged by reflection |
| Types.ReflectNegatedNormal | levels/types.go:51-57 | reflecting off n or off -n gives the same vector, so negating a collision normal does not change the bounce |
| Types.ScaleDot | levels/types.go:63-65 | scaling a vector by k scales its dot product with any vector by k |
| Types.SubDot | levels/types.go:59-61 | the dot product distributes over vector subtraction |
| Types.AddDot | levels/types.go:47-49 | the dot product distributes over vector addition |
| Types.RotateAroundPivot | levels/types.go:26-34 | rotating the pivot about itself leaves it in place, for every angle and any sine and cosine |
| Types.RotateAroundKeepsDistance | levels/types.go:26-34 | under sin² + cos² = 1, rotation keeps the squared distance to the pivot |
| EdgeMath.Dot | levels/math.go:5-7 | `dot(x1, x2, y1, y2)` with its interleaved argument order is the dot product of (x1, y1) and (x2, y2) |
| EdgeMath.NormalDefinedIff | levels/math.go:17-19 | under the square-root law, `normal` divides by a nonzero length exactly when the two points differ |
| EdgeMath.NormalMatchesLineNormal | levels/math.go:12-20 | the vector `normal` returns equals `Line{p1, p2}.Normal()` (levels/line.go:29-32) |
| EdgeMath.NormalPerpendicular | levels/math.go:12-20 | the returned normal is perpendicular to p2 - p1 |
| EdgeMath.NormalUnit | levels/math.go:12-20 | for distinct points and under the square-root law, the returned normal is defined and has unit length |
| EdgeMath.NormalLine | levels/math.go:10-25 | the returned line starts at the midpoint of p1 and p2 and ends 50 normals further on |
| Lines.IntersectParallel | levels/line.go:38-43 | parallel segments (zero denominator) report no hit and the zero point |
| Lines.IntersectSound | levels/line.go:34-60 | a reported hit has t and u in [0,1], and its point is At(t) on this segment and At(u) on the other, so it lies on both |
| Lines.IntersectComplete | levels/line.go:34-60 | conversely, non-parallel segments that share a point At(s) == other.At(v) with s and v in [0,1] report exactly that point |
| Lines.IntersectExamples | levels/line_test.go:7-93 | the nine cases of the Intersect test table, on exact reals: hits and their points, parallel segments, segments that fall short, and a crossing only when extended |
| Lines.ContainsSegmentPoints | levels/line.go:63-85 | every point At(s) of the segment, s in [0,1], is contained |
| Lines.ContainsEndpoints | levels/line.go:63-85 | both endpoints are contained |
| Lines.ContainsPointBounds | levels/line.go:63-85 | a contained point is inside the bounding box widened by eps and has \|cross\| < eps; any point outside the widened box is not contained |
| Lines.ContainsPointExamples | levels/line_test.go:102-178 | eight of the ten cases of the ContainsPoint test table, on exact reals; the other two, the segment's endpoints, are covered by Lines.ContainsEndpoints |
| Lines.LineDotDirection | levels/line.go:24-27 | Line.Dot depends only on the direction To - From: reversing the segment negates it, translating both endpoints keeps it, and it is linear in v |
| Lines.NormalPerpendicular | levels/line.go:24-32 | `Dot(Normal())` is 0: the normal is perpendicular to the direction, whatever Sqrt returns |
| Lines.NormalAndNormalizedUnit | levels/line.go:10-32 | for a segment of nonzero length and under the square-root law, Normalized equals Vector.Normalize of the direction, and Normal and Normalized have unit length |
| Lines.DegenerateLine | levels/line.go:10-32 | a zero-length segment has length 0, and its Normal and Normalized fall back to (0,0) |
| Rects.RotateKeepsDistance | levels/cube.go:73-99 | under sin² + cos² = 1, the `rotate` closure keeps a corner's squared distance from the centre |
| Rects.CornersSymmetric | levels/cube.go:73-99 | for any sine and cosine, tl + br == tr + bl == twice the centre (X + W/2, Y + H/2); the same code is at levels/boundary.go:44-70 |
| Rects.CornersUnrotated | levels/cube.go:73-99 | with sine 0 and cosine 1 the corners are (X,Y), (X+W,Y), (X,Y+H), (X+W,Y+H) |
| Rects.CornersEdges | levels/cube.go:73-99 | for any sine and cosine, the top and bottom edges are W times (cos, sin), and the left and right edges are H times (-sin, cos) |
| Rects.CornersRectangle | levels/cube.go:73-99 | under the trigonometric laws, the edges have squared lengths W² and H² and meet at a right angle |
| Cubes.Cube.constructor | levels/cube.go:23-31 | NewCube stores x, y, w, h with rotation 0 and zero velocity, and its corners are fresh |
| Cubes.Cube.RecalculateCorners | levels/cube.go:73-99 | the cached corners become the rotated corners of the current fields; no other field changes |
| Cubes.Cube.Update | levels/cube.go:56-62 | X and Y move by one velocity step and delta is ignored; size, rotation and velocity are kept, and the corners are fresh |
| Cubes.LinesFollowCorners | levels/cube.go:101-128 | line k of GetLines runs from corner k to corner k+1 (mod 4) of GetCorners, so the four lines form a closed loop in the order tl, tr, br, bl |
| Cubes.CenterIsMidpoint | levels/cube.go:69-99 | with fresh corners, Center() is the midpoint of both diagonals |
| Cubes.NewCubeCorners | levels/cube.go:23-31 | a cube with rotation 0 has its axis-aligned corners |
| Cubes.AxesPerpendicular | levels/cube.go:130-137 | the two axes are perpendicular for every rotation, and are unit vectors under the trigonometric laws |
| Cubes.EdgesAlongAxes | levels/cube.go:121-137 | with fresh corners, each line of GetLines is the side length times one of the axes of GetAxes, or the negation of one |
| Cubes.RadiusReachesCorners | levels/cube.go:65-67 | for a square cube with fresh corners, every corner is exactly Radius() = W/2·√2 from the centre |
| Boundaries.CubeBoundary.constructor | levels/boundary.go:23-32 | NewCubeBoundary stores the position, size and stroke width with rotation 0, and its corners are fresh |
| Boundaries.CubeBoundary.Scale | levels/boundary.go:34-42 | the centre (X + W/2, Y + H/2) is kept, W and H are multiplied by the factor, and the corners are recomputed |
| Boundaries.CubeBoundary.RecalculateCorners | levels/boundary.go:44-70 | the cached corners become the rotated corners of the current fields; no other field changes |
| Boundaries.Clamp | levels/boundary.go:162-170 | the result lies in [min, max] when min <= max, is the value itself when that is already inside, and is always one of the three inputs |
| Boundaries.CheckCircleCollisionFirstWall | levels/boundary.go:104-160 | a hit is reported exactly when some wall qualifies (distance < Radius and moving toward it). The reported wall is the first qualifying one in the order left, right, top, bottom. With no hit the result is the zero Collision |
| Boundaries.WallCollisionContact | levels/boundary.go:116-123 | a reported wall has depth Radius - dist > 0 and carries the wall's normal. For a unit normal, the contact point lies on the wall's line, and centre + normal·Depth equals contact point + normal·Radius |
| Boundaries.UnrotatedWalls | levels/boundary.go:105-108 | for an unrotated arena of positive size, the walls have inward normals (1,0), (-1,0), (0,1), (0,-1) and each wall distance is the centre's distance from that side |
| Boundaries.AxisNormal | levels/math.go:9-28 | `normal` of an axis-parallel edge of positive length is the expected axis unit vector |
| Collisions.CircleVsCircleHit | levels/collisions.go:48-68 | under the square-root law, two circles hit exactly when rA + rB > 0 and the squared centre distance is below (rA + rB)²; otherwise the result is the zero Collision |
| Collisions.CircleVsCircleContact | levels/collisions.go:48-68 | on a hit, Depth = rA + rB - dist > 0. For distinct centres, the normal is the unit vector from a toward b and the point is a's centre + normal·rA. For equal centres the normal falls back to (0,0) |
| Collisions.CircleVsCube | levels/collisions.go:74-76 | the circle-cube test never reports a hit |
| Collisions.Trunc | levels/collisions.go:147-149 | `int(a)` truncates toward zero: it is within 1 of a, on a's side of 0 |
| Collisions.FloatModSmall | levels/collisions.go:147-149 | for \|a\| < b, floatMod(a, b) == a |
| Collisions.FloatModRange | levels/collisions.go:147-149 | for b > 0, floatMod keeps the sign of a and has magnitude below b |
| Collisions.AabbOverlap | levels/collisions.go:80-99 | for cubes of positive size, the axis-aligned test hits exactly when some point is strictly inside both rectangles; otherwise it returns the zero Collision |
| Collisions.AabbResponse | levels/collisions.go:83-97 | on a hit, depth = min(dx, dy) > 0. The shorter axis wins and a tie goes to Y. The normal is the unit axis vector pointing from b toward a |
| Collisions.ProjBounds | levels/collisions.go:200-213 | the folded minimum and maximum bound every projection, and each is attained by some corner |
| Collisions.ProjectCorners | levels/collisions.go:200-213 | the loop returns the folded minimum and maximum projection of the four corners |
| Collisions.SatScanOverlapping | levels/collisions.go:160-182 | the axis loop ends without a gap exactly when no remaining axis separates the two projections |
| Collisions.SatScanBound | levels/collisions.go:160-182 | the final depth is at most the running minimum and every remaining overlap, and is not negative when the start is not |
| Collisions.SatScanFirst | levels/collisions.go:175-180 | either no overlap beat the running minimum, or the result is the first axis of least overlap (strict `<`, so the first wins ties) |
| Collisions.OverlapNonneg | levels/collisions.go:175-176 | where no axis separates, the overlap is not negative |
| Collisions.SatSeparation | levels/collisions.go:151-198 | the SAT test reports no hit, and the zero Collision, exactly when one of the axes separates the projections |
| Collisions.SatDepth | levels/collisions.go:151-198 | on a hit, the depth is in [0, MaxFloat32] and at most the overlap on every axis |
| Collisions.SatFacesDir | levels/collisions.go:187-197 | on a hit, the normal is the chosen axis or its negation, and its dot product with the top-left difference (b.X - a.X, b.Y - a.Y) is not negative |
| Collisions.SatAxis | levels/collisions.go:151-198 | on a hit, either no overlap fell below MaxFloat32 and the normal is (0,0), or the depth is the overlap of the first axis of least overlap and the normal is that axis up to sign |
| Collisions.BoxProjections | levels/collisions.go:200-213 | projected onto the X and Y axes, the four corners of an unrotated w × h box span exactly [x, x + w] and [y, y + h] |
| Collisions.SatScanTwoAxes | levels/collisions.go:160-182 | over the axes p, q, p, q with no gap on either, the loop ends with the smaller of the two overlaps, keeping p on a tie (strict `<`), when that is below the starting minimum |
| Collisions.BoxSat | levels/collisions.go:151-198 | SAT on two unrotated boxes hits exactly when the closed boxes meet, and otherwise gives the zero Collision. On a hit below MaxFloat32, the depth is min(dx, dy), X is kept on a tie, and the normal is that axis pointing from a toward b |
| Collisions.SatAgreesWithAabb | levels/collisions.go:78-198 | for unrotated cubes with fresh corners, the SAT result hits exactly when the closed rectangles meet. On every AABB hit it also hits with the same depth, and its normal is an axis unit vector. Where SAT hits but AABB does not (touching edges), the SAT depth is 0 |
| Collisions.CubeVsCubeSAT | levels/collisions.go:151-198 | the loop over the four axes computes the SAT specification for a's two axes then b's two axes, with the top-left difference as direction |
| Collisions.EdgeScanHit | levels/collisions.go:112-144 | the edge and corner loops report a hit exactly when some (edge, corner) pair has dist < 1 and velocity·normal < 0; otherwise they return the zero Collision |
| Collisions.EdgeScanFirst | levels/collisions.go:112-144 | a reported hit is the collision (edge normal, depth 1 - dist) of the first such pair in loop order, edges outside and corners inside |
| Collisions.CubeVsBoundary | levels/collisions.go:107-145 | the nested loops with their first-match return compute EdgeScan over the given edges |
| Collisions.CubeVsCube | levels/collisions.go:78-105 | the axis-aligned test when the two rotations agree modulo 90, the SAT test otherwise |
| Collisions.CubeVsCubeBranch | levels/collisions.go:80 | for rotations in (-90, 90), the axis-aligned branch is taken exactly when the two rotations are equal |
| Collisions.CheckCollision | levels/collisions.go:15-46 | the type switch computes the dispatch function Collide |
| Collisions.CollideDispatch | levels/collisions.go:15-46 | (boundary, circle) gives the wall test with only the normal negated. A circle and a cube, in either order, never hit. (circle, boundary) and (boundary, boundary) give the zero Collision |
| Collisions.CollideHitKinds | levels/collisions.go:15-46 | a pair that hits is a boundary before a circle, two circles, or has a cube that is not paired with a circle |
| Level1.Row | levels/level1.go:86-89 | every pair the inner loop visits for row i from j on is (i, j') with j <= j' and i < j' < n |
| Level1.PairsFrom | levels/level1.go:85-89 | every pair the two loops visit from row i on is (a, b) with i <= a < b < n |
| Level1.RowMembers | levels/level1.go:85-89 | row i from j on holds exactly the pairs (i, j') with j <= j' and i < j' < n |
| Level1.RowSorted | levels/level1.go:86-89 | a row is in increasing order of j' |
| Level1.RowLength | levels/level1.go:86-89 | row i from j on holds n - max(j, i + 1) pairs, or none when that is not positive |
| Level1.PairsFromMembers | levels/level1.go:85-89 | from row i on, the loops visit exactly the pairs i <= a < b < n |
| Level1.PairsFromSorted | levels/level1.go:85-89 | from row i on, the pairs come in row-major order |
| Level1.PairsFromLength | levels/level1.go:85-89 | from row i on, the loops visit (n - i)(n - i - 1)/2 pairs |
| Level1.PairsExactlyOnce | levels/level1.go:85-89 | one tick visits each pair a < b < n exactly once, in row-major order, n(n-1)/2 pairs in all |
| Level1.BounceConserves | levels/level1.go:118-131 | the circle-pair resolution keeps the radii, the summed position and the summed velocity. For a unit normal, it negates the relative velocity along the normal and keeps the kinetic energy. Each circle keeps its velocity along any direction perpendicular to the normal |
| Level1.BounceExampleAt | levels/collisions.go:48-68 | circles of radius 10 at (0, 0) and (15, 0) collide with normal (1, 0), depth 5 and contact point (10, 0) |
| Level1.BounceExample | levels/level1.go:112-143 | the head-on case: circles of radius 10 at (0, 0) and (15, 0), moving at (1, 0) and (-1, 0), give depth 5 and normal (1, 0); resolving the hit moves them to x = -2.5 and x = 17.5 and swaps their velocities |
| Level1.BounceTouches | levels/level1.go:118-121 | after a circle-circle hit with distinct centres, the separated circles exactly touch: their centre difference is the unit normal times the sum of the radii |
| Level1.BoundaryPushIntended | levels/level1.go:95-102 | pushing the circle Depth along the wall's own inward normal, as the branch intends (moving the circle out of the wall), leaves it at wall distance exactly Radius, i.e. touching, with its velocity reflected back into the arena |
| Level1.BoundaryPushDeepens | levels/level1.go:95-102 | the boundary-at-i branch, with the normal already negated by CheckCollision, moves the circle Depth further out through the wall (its wall distance becomes 2·dist - Radius). The reflection makes its velocity point back into the arena |
| Level1.ResolveChangesPair | levels/level1.go:90-143 | resolving a hit changes only circles, and only the two of the pair, and adds one to collisionCount |
| Level1.Step | levels/level1.go:90-143 | one pair: only circles change, and only the pair's two. The count grows by one exactly when the pair hits. A pair that does not hit changes nothing |
| Level1.FoldPairs | levels/level1.go:85-147 | a run of pairs changes only circles, never turns one kind of object into another, and keeps the arena's walls well defined |
| Level1.FoldPairsBounds | levels/level1.go:85-147 | over a run of pairs, collisionCount grows by at most one per pair and only circles change; a panicked state stays as it is |
| Level1.StepNoCubes | levels/level1.go:95-131 | without cubes a pair never panics and no cube appears |
| Level1.FoldPairsNoCubes | levels/level1.go:85-147 | a tick over circles and boundaries only never panics |
| Level1.BoundarySecondPanics | levels/level1.go:104-111 | the boundary-at-j branch can only be reached with a cube at i, because a circle before a boundary never hits, so a hit there always panics |
| Level1.BoundaryFirstResolves | levels/level1.go:95-102 | a boundary at i hitting a circle at j pushes the circle with the negated normal of the first qualifying wall (left, right, top, bottom); every other object is unchanged and the count grows by one |
| Level1.ResolvePair | levels/level1.go:90-143 | the inner loop body for the pair (i, j): CheckCollision, then resolution of a hit; it computes Step |
| Level1.ApplyHit | levels/level1.go:91-143 | the three resolution branches with their type assertions compute Resolve, and stop with `panicked` where an assertion fails |
| Level1.FoldPairsAdvance | levels/level1.go:86-90 | the fold over row i from j on is Step(i, j) followed by the fold from j + 1 on |
| Level1.FoldPairsAppend | levels/level1.go:85-86 | folding over two runs of pairs is folding over the first, then over the second |
| Level1.VisitPair | levels/level1.go:86-90 | one inner iteration moves the row's fold on by one j, skipping j <= i; after a panic its state is the fold's result |
| Level1.CheckRow | levels/level1.go:86-145 | the inner loop computes the fold over row i, stopping where a panic happens |
| Level1.FoldRowThenRest | levels/level1.go:85-146 | the fold from row i on is the fold over row i, then the fold from row i + 1 on; a panicked state stays |
| Level1.CheckAllPairs | levels/level1.go:85-146 | the two nested loops compute the whole tick over all pairs |
| Level1.Game.CheckCollisions | levels/level1.go:84-147 | Objects, the collision count and the panic flag become the tick's result |
| Level1.TickNoCubes | levels/level1.go:84-147 | a tick over objects without cubes (the level holds a boundary and circles) never panics, and the count grows by at most n(n-1)/2 |

## Left out

- Rendering and UI are not modelled: every `Draw` method, `Layout`, the debug
  normal lines and the graphics-library calls.
- Input and setup are not modelled: `CheckKeyboardInput`, `Level1`,
  `createCircle` (random numbers and the monitor size) and `main.go`.
- `Game.Update` and `Circle.Update` read the wall clock; they are left out.
  `Circle` keeps only its centre, radius and velocity.
- levels/recording.go is left out: it spawns ffmpeg and writes files.
- levels/colors.go and the colour fields are left out.
- The `fmt.Printf` debug output in `CubeVsBoundary` is left out.
- `CubeBoundary.Update` does nothing and is left out. `Cube.Update` always
  returns a nil error; the error result is dropped.
- `float32` rounding is not modelled: every value is an exact real. The
  lemmas hold for exact arithmetic, and the line-test tables are checked
  without their float tolerance.
- `EdgeMath.Normal`: Go divides by a zero length and gets Inf/NaN for a
  degenerate edge. The model requires `NormalDefined` (distinct endpoints
  under the square-root law) instead, and so does
  `CubeBoundary.CheckCircleCollision` for its four walls.
- `boundary.GetEdges()` is called by `CubeVsBoundary` but is defined in none
  of the `levels/` files modelled here. The model takes the edges as a given sequence of lines
  (the `getEdges` parameter of `Collide` and of the tick).
- `Collisions.FloatMod`: `int(a)` is unbounded here. Go's conversion of a
  float32 outside the int range is not modelled.
- `Cubes.Cube.Radius`: `math.Sqrt2` is modelled as `Sqrt(2.0)` of the
  square-root parameter.
- `Collisions.CubeVsCubeSAT`: the direction that orients the normal is the
  difference of the top-left corners, as written, not the difference of
  the centres.
- `Level1.Game.CheckCollisions`: its `delta` parameter is unused in the
  source and is kept, unused, in the model.
- `Level1.Game.CheckCollisions`: circles are values in a sequence, not
  shared pointers, so one `*Circle` stored twice in `Objects` (aliasing) is
  not modelled.
- `Level1.Game.CheckCollisions`: Go's panic from a failed type assertion is
  modelled as a `panicked` result. The tick then stops with the state it had
  at that point.
