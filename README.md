# foillib airfoil generators in Dafny

This project models the coordinate generators of foillib: the NACA 4-digit
family of NACA Report 460, the NACA 5-digit family of NACA Report 537, and
the piecewise quadratic Bezier airfoil. All arithmetic is over Dafny `real`.
The math-library functions `sqrt`, `cos`, `sin` and `atan` are fields of a
`MathLib` value passed to every generator. The proofs assume only a few
laws about them:

- `SqrtLaws`: `sqrt(1) = 1`, and `sqrt(y) >= 0` with `sqrt(y)^2 = y` for `y >= 0`;
- `CosLaws`: `cos(pi) = -1` and `|cos| <= 1`;
- `AtanLaws`: the cosine of an arctangent is positive.

Modules, one per source file, each followed by a module of its properties:

- `Common` (`_common.py`): station spacing and the spacing-mode check.
- `NacaCommon` (`_naca_common.py`): the half-thickness polynomial and its
  trailing-edge override. It also holds the surface-point placement and the
  outline assembly that `naca4` and `naca5` perform identically.
- `NacaFour` / `NacaFourProperties` (`_naca4.py`): the 4-digit generator.
- `NacaFive` / `NacaFiveProperties` (`_naca5.py`): the camber-line table and
  the 5-digit generator.
- `Naca` / `NacaProperties` (`naca.py`): the designation dispatcher.
- `Bezier` / `BezierProperties` (`bezier.py`): evaluation, inversion and
  stitching of quadratic Bezier segments, and the airfoil built from them.
- `Transcendentals` and `Wrappers`: the `MathLib` parameter with its laws,
  and `Option`/`Result`.

Each generator that works step by step is a `method`, proved equal to a
specification function:

- `Naca4` against `Naca4Outline`, `Naca5` against `Naca5Outline`;
- `Naca` against `NacaSpec`;
- `QuadraticBezier` against `Curve` of `Segments`;
- `BezierAirfoil` against `BezierSpec`;
- `ThicknessDistribution` against `Thickness`.

The lemmas state what the source promises about those functions.

Where the code and the prose description of the library differ, the model
follows the code:

- A 4- or 5-character designation containing a dash matches no branch of
  `naca`, which then returns `None`. It is not rejected.
- `quadratic_bezier` with three control points builds two overlapping
  segments, not one.
- The camber-type check of the 5-digit branch can never fail. Every table
  prefix already ends in `0` or `1` (`NacaProperties.CamberTypeCheckUnreachable`).

## Model

| member | source | states |
|---|---|---|
| Common.ParseSpacingMethod | src/foillib/_common.py:12 | exactly "equal" and "cosine" are accepted, each mapped to its own mode; every other name is rejected |
| Common.Spacing | src/foillib/_common.py:7-16 | one station per requested point, none for a non-positive count |
| Common.EqualSpacing | src/foillib/_common.py:13-14 | equal station i is (i+1)/npts, lies in (0,1] (the leading edge 0 is never emitted), strictly increases, and the last is exactly 1 |
| Common.CosineSpacing | src/foillib/_common.py:15-16 | under \|cos\| <= 1 every cosine station lies in [0,1]; under cos(pi) = -1 the last is exactly 1 |
| Common.CosineSpacingIncreasing | src/foillib/_common.py:15-16 | if cos strictly decreases on [0, pi], the cosine stations strictly increase |
| Common.StationAngles | src/foillib/_common.py:16 | the angles k/npts * pi of two stations i < j lie in order within [0, pi] |
| Common.SpacingInUnit | src/foillib/_common.py:13-16 | the stations of either mode lie in [0,1] |
| Common.SpacingEndsAtOne | src/foillib/_common.py:13-16 | either mode ends at exactly x = 1 |
| NacaCommon.Thickness | src/foillib/_naca_common.py:22-32 | one half-thickness per station |
| NacaCommon.ThicknessDistribution | src/foillib/_naca_common.py:22-32 | filling a buffer with the polynomial and overwriting its last element for a sharp trailing edge gives Thickness |
| NacaCommon.ThicknessOverride | src/foillib/_naca_common.py:26-32 | every element is 5t(a0123(x) + a4 x^4) of its own station, except that a sharp trailing edge sets the last element, and only it, to exactly 0 |
| NacaCommon.ZeroThickness | src/foillib/_naca_common.py:27-31 | t = 0 gives all zeros |
| NacaCommon.TrailingEdgeHalfThickness | src/foillib/_naca_common.py:6-27 | at x = 1, A0+A1+A2+A3 with the sharp a4 is exactly 0, and with the finite a4 the half-thickness is 5t * 0.0021, positive for t > 0 |
| NacaCommon.FiniteTrailingEdgeThickness | src/foillib/_naca_common.py:26-32 | a finite trailing edge with t > 0 and the last station at 1 has a positive last half-thickness |
| NacaCommon.Rotate | src/foillib/_naca4.py:50-54 | for any angle the upper and lower points are symmetric about the camber point (xu+xl = 2x, yu+yl = 2yc), and coincide with it when the half-thickness is 0 |
| NacaCommon.Assemble | src/foillib/_naca4.py:57-58 | the assembled coordinate has \|u\|+1+\|l\| entries, 0 at index \|u\|, the upper values reversed before it and the lower values in order after it |
| NacaCommon.SymmetricOutline | src/foillib/_naca4.py:31-33 | a symmetric outline has 2n+1 points |
| NacaCommon.CamberedOutline | src/foillib/_naca4.py:57-58 | a cambered outline has 2n+1 points |
| NacaCommon.CamberedOrder | src/foillib/_naca4.py:57-58 | index k < n holds the upper point of station n-1-k, index n is (0,0), index n+1+k holds the lower point of station k |
| NacaCommon.CamberedStations | src/foillib/_naca4.py:57-58 | station k sits at indices n-1-k (upper) and n+1+k (lower), with (0,0) at index n |
| NacaCommon.PlacedSymmetry | src/foillib/_naca4.py:50-58 | in the outline the two points of every station are symmetric about that station's camber point |
| NacaCommon.ColumnsAssemble | src/foillib/_naca4.py:40-58 | four coordinate lists that agree with the surface points station by station assemble into the cambered outline |
| NacaCommon.AssembleMirror | src/foillib/_naca4.py:31 | x = reverse(xc) + [0] + xc is mirrored about its centre: x[i] = x[j] when i + j = 2n |
| NacaCommon.AssembleAntiMirror | src/foillib/_naca4.py:32 | y = reverse(yt) + [0] + (-yt) is odd about its centre: y[i] = -y[j] when i + j = 2n |
| NacaCommon.CamberedEnds | src/foillib/_naca4.py:57-58 | the first outline point is the upper point of the last station, the final one its lower point |
| NacaCommon.SymmetricEnds | src/foillib/_naca4.py:31-33 | a symmetric outline starts at +yt[n-1] and ends at -yt[n-1] |
| NacaCommon.TrailingEdgePoints | src/foillib/_naca4.py:50-54 | where the camber line meets the chord, a zero half-thickness puts both points on it, and a positive one (with cos(atan) > 0) puts the upper point above and the lower point below |
| NacaFour.Naca4Points | src/foillib/_naca4.py:41-54 | one pair of surface points per station |
| NacaFour.Naca4Surfaces | src/foillib/_naca4.py:40-58 | the station loop filling xu, yu, xl, yl by index and assembling them yields the cambered outline of the per-station points |
| NacaFour.Naca4 | src/foillib/_naca4.py:9-59 | naca4 returns Naca4Outline: the symmetric assembly for P = 0, the cambered one otherwise |
| NacaFourProperties.Naca4Shape | src/foillib/_naca4.py:30-58 | both branches give 2n+1 points with (0,0) at index n |
| NacaFourProperties.Naca4Symmetric | src/foillib/_naca4.py:30-33 | for P = 0, x = reverse(xc) + [0] + xc and y = reverse(yt) + [0] + (-yt) for the thickness yt, so x is mirrored and y is odd about the centre |
| NacaFourProperties.Naca4Cambered | src/foillib/_naca4.py:40-58 | for P in 1..9 every station k sits at indices n-1-k and n+1+k, and its two points are symmetric about its camber point |
| NacaFourProperties.CamberedPlacement | src/foillib/_naca4.py:40-58 | the same placement and symmetry for any camber m and position 0 < p < 1 |
| NacaFourProperties.Naca4SymmetricIgnoresM | src/foillib/_naca4.py:30-36 | for P = 0 the digit M does not change the outline |
| NacaFourProperties.Naca4CamberContinuous | src/foillib/_naca4.py:42-47 | both camber branches give yc = m and gradient 0 at x = p |
| NacaFourProperties.Naca4CamberEnds | src/foillib/_naca4.py:43-46 | the fore branch gives yc(0) = 0, the aft branch yc(1) = 0 |
| NacaFourProperties.Naca4FlatCamber | src/foillib/_naca4.py:42-47 | M = 0 gives yc = 0 and gradient 0 everywhere |
| NacaFourProperties.Naca4SymmetricTrailingEdge | src/foillib/_naca4.py:21-33 | a symmetric profile with a finite trailing edge and XX > 0 starts above the chord and ends below it |
| NacaFourProperties.Naca4SharpTrailingEdge | src/foillib/_naca4.py:21-58 | with a sharp trailing edge both ends of the outline lie on the chord, for P = 0 and for P in 1..9 |
| NacaFourProperties.SharpLastStation | src/foillib/_naca4.py:40-58 | a last station at x = 1 with zero half-thickness puts both outline ends on the chord |
| NacaFourProperties.Naca4CamberedTrailingEdge | src/foillib/_naca4.py:21-58 | a cambered profile with a finite trailing edge and XX > 0 starts above the chord and ends below it |
| NacaFourProperties.CamberedForm | src/foillib/_naca4.py:36-58 | for P in 1..9, 0 < p < 1 and naca4 builds the cambered outline of m = M/100, p = P/10 |
| NacaFourProperties.FiniteCamberedEnds | src/foillib/_naca4.py:27-58 | with a finite trailing edge, t > 0 and the last station at 1, the cambered outline starts above and ends below the chord |
| NacaFourProperties.CamberedLastStation | src/foillib/_naca4.py:40-58 | a last station at x = 1 with positive half-thickness puts the first point above the chord and the last below it |
| NacaFive.DigitChar | src/foillib/_naca5.py:49 | formats a single digit as the character whose value is that digit |
| NacaFive.Naca5Points | src/foillib/_naca5.py:73-115 | one pair of surface points per station |
| NacaFive.Naca5Surfaces | src/foillib/_naca5.py:73-118 | the station loop filling xu, yu, xl, yl by index and assembling them yields the cambered outline of the per-station points |
| NacaFive.Naca5 | src/foillib/_naca5.py:29-119 | naca5 returns Naca5Outline for the tabulated row of "LPS" |
| NacaFiveProperties.TableKeys | src/foillib/_naca5.py:10-26 | the table has camber types 0 and 1, with exactly the keys 210-250 and 221-251 |
| NacaFiveProperties.TableRows | src/foillib/_naca5.py:10-26 | every key has three characters and ends in its camber-type digit; its row is simple exactly for type 0; its break point r lies in (0,1) |
| NacaFiveProperties.SimpleCamberContinuous | src/foillib/_naca5.py:78-85 | at x = r the cubic and the straight part agree: yc = (k1 r^3/6)(1-r) and slope -k1 r^3/6 |
| NacaFiveProperties.SimpleCamberEnds | src/foillib/_naca5.py:77-85 | yc(0) = 0 and yc(1) = 0, and past r yc is linear with the constant slope -k1 r^3/6 |
| NacaFiveProperties.ReflexedCamberContinuous | src/foillib/_naca5.py:88-108 | both reflexed cubics give the same yc and gradient at x = r |
| NacaFiveProperties.ReflexedCamberEnds | src/foillib/_naca5.py:88-105 | the reflexed camber line has yc(0) = 0 and yc(1) = 0 |
| NacaFiveProperties.Naca5CamberEnds | src/foillib/_naca5.py:58-108 | every table row gives a camber line through both chord ends |
| NacaFiveProperties.Naca5IgnoresP | src/foillib/_naca5.py:58-108 | the fetched position p never affects the surface points |
| NacaFiveProperties.Naca5Shape | src/foillib/_naca5.py:73-118 | 2n+1 points, (0,0) at index n, station k at indices n-1-k and n+1+k, each pair symmetric about its camber point |
| NacaFiveProperties.RowOutline | src/foillib/_naca5.py:73-118 | the same placement and symmetry for any one table row |
| NacaFiveProperties.Naca5SharpTrailingEdge | src/foillib/_naca5.py:48-118 | with a sharp trailing edge both outline ends lie on the chord |
| NacaFiveProperties.SharpLastStation | src/foillib/_naca5.py:110-118 | a last station at x = 1 with zero half-thickness, where the camber line meets the chord, puts both outline ends on the chord |
| NacaFiveProperties.Naca5FiniteTrailingEdge | src/foillib/_naca5.py:48-118 | a finite trailing edge with TT > 0 makes the outline start above the chord and end below it |
| NacaFiveProperties.CamberedLastStation | src/foillib/_naca5.py:110-118 | a last station at x = 1 with positive half-thickness puts the first point above the chord and the last below it |
| Naca.DigitValue | src/foillib/naca.py:17-18 | a character reads as a digit exactly when it is an ASCII digit '0'..'9', and then as the digit DigitChar formats back to it |
| Naca.IntOfTwo | src/foillib/naca.py:19 | int() of a two-character string, when it succeeds, is in 0..99 |
| Naca.FivePrefixInTable | src/foillib/naca.py:26-42 | a designation dispatched to naca5 names a table entry, so naca5's lookup never misses |
| Naca.Naca | src/foillib/naca.py:8-45 | naca returns NacaSpec: the failure of the first check that fails, None when no branch applies, or the outline of naca4 or naca5 |
| Naca.NacaDefault | src/foillib/naca.py:8-10 | the defaults are 100 stations, a finite trailing edge and cosine spacing |
| NacaProperties.LengthCheck | src/foillib/naca.py:12 | exactly the designations whose length is neither 4 nor 5 fail the length check, "001" among them |
| NacaProperties.DashMatchesNoBranch | src/foillib/naca.py:11-45 | a designation of length 4 or 5 with a dash, and only such a one, matches no branch |
| NacaProperties.IntOfTwoDigits | src/foillib/naca.py:19 | int() reads every two-digit text, leading zero included, back to its value |
| NacaProperties.FourDispatch | src/foillib/naca.py:15-23 | naca4 is called with (M, P, XX) exactly when the designation has 4 characters, no dash, and reads as M, P and the two-character XX |
| NacaProperties.FourRoundTrip | src/foillib/naca.py:15-23 | formatting single digits M, P and a two-digit XX and dispatching calls naca4 with those values |
| NacaProperties.FiveDispatch | src/foillib/naca.py:26-42 | naca5 is called with (L, P, S, TT) exactly when the designation has 5 characters, no dash, its prefix is the table key formed from L, P, S, and its last two characters read as TT |
| NacaProperties.CamberTypeCheckUnreachable | src/foillib/naca.py:27-33 | the camber-type assertion never fails |
| NacaProperties.UnsupportedDesignCheck | src/foillib/naca.py:26-29 | a dash-free 5-character designation with an untabulated prefix is an unsupported design |
| NacaProperties.TrailingEdge0012 | tests/test_naca.py:5-18 | "0012" with the defaults starts above the chord and ends below it |
| NacaProperties.TrailingEdge24012 | tests/test_naca.py:21-29 | "24012" with the defaults starts above the chord and ends below it |
| NacaProperties.SharpTrailingEdge | src/foillib/naca.py:8-42 | with a sharp trailing edge every designation naca accepts gives an outline whose two ends lie on the chord |
| Bezier.Mid | src/foillib/bezier.py:61-75 | the midpoint is equidistant from both control points in x and in y |
| Bezier.Clamp | src/foillib/bezier.py:29 | max(min(1, t), 0) lies in [0,1] and leaves t in [0,1] unchanged |
| Bezier.B2FindT | src/foillib/bezier.py:20-29 | the parameter returned always lies in [0,1] |
| Bezier.Within | src/foillib/bezier.py:39 | the kept stations are exactly those of the input with p0.x < x <= p2.x |
| BezierProperties.WithinIncreasing | src/foillib/bezier.py:39 | the filter keeps the input order: increasing stations stay increasing |
| Bezier.B2Segment | src/foillib/bezier.py:32-48 | one curve point per kept station |
| Bezier.Segments | src/foillib/bezier.py:59-76 | N >= 4 control points give N-2 segments, and 3 give 2 |
| Bezier.QuadraticBezier | src/foillib/bezier.py:51-78 | accumulating the first, intermediate and last segments' samples gives Curve of Segments |
| Bezier.Radii | src/foillib/bezier.py:123-124 | there are always two leading-edge radii |
| Bezier.CheckInputs | src/foillib/bezier.py:101-117 | the checking loops report exactly the first failing condition of BezierCheck |
| Bezier.BezierAirfoil | src/foillib/bezier.py:81-140 | bezier returns BezierSpec: the first failed check, or the outline from the top and bottom control points |
| BezierProperties.B2Ends | src/foillib/bezier.py:17 | b2(0) = p0 and b2(1) = p2 |
| BezierProperties.B2Expanded | src/foillib/bezier.py:17 | b2 in powers of t: (a+c-2b)t^2 + 2(b-a)t + a |
| BezierProperties.DiscriminantSplit | src/foillib/bezier.py:24 | d = (b-x)^2 + (x-a)(c-x), non-negative for x in [a,c], so abs leaves it unchanged there |
| BezierProperties.DiscriminantFromA | src/foillib/bezier.py:24-26 | d - (a-b)^2 = (x-a)(a+c-2b) |
| BezierProperties.DiscriminantFromC | src/foillib/bezier.py:24-26 | d - (c-b)^2 = (x-c)(a+c-2b) |
| BezierProperties.QuadraticRootSolves | src/foillib/bezier.py:24-26 | when a+c != 2b and d >= 0, the root t satisfies b2(t,a,b,c) = x |
| BezierProperties.LinearRootSolves | src/foillib/bezier.py:27-28 | when a+c = 2b and b != c, the root t satisfies b2(t,a,b,c) = x exactly |
| BezierProperties.LinearRootEnds | src/foillib/bezier.py:27-28 | the linear root is 0 at x = a and 1 at x = c |
| BezierProperties.LinearRootInUnit | src/foillib/bezier.py:27-29 | for a < c and x in [a,c] the linear root already lies in [0,1] |
| BezierProperties.QuadraticRootInUnit | src/foillib/bezier.py:24-29 | for a < c and x in [a,c], whatever the middle value b, the quadratic root already lies in [0,1] |
| BezierProperties.B2FindTInverts | src/foillib/bezier.py:20-29 | for a < c and x in [a,c], whatever the middle value b, b2_find_t inverts b2: b2(b2_find_t(x)) = x |
| BezierProperties.SegmentOnCurve | src/foillib/bezier.py:32-48 | for a segment with p0.x < p2.x, every point of b2_segment keeps its station's x unchanged, in the order Within keeps, and has y = b2 at a t in [0,1] with b2(t) = x |
| BezierProperties.B2SegmentXs | src/foillib/bezier.py:39-48 | the x values b2_segment emits are the kept stations |
| BezierProperties.WithinSplit | src/foillib/bezier.py:39 | for increasing stations, the ranges (lo,mid] and (mid,hi] together keep exactly the stations of (lo,hi] |
| BezierProperties.CurveXs | src/foillib/bezier.py:51-78 | segments that join end to end sample exactly the stations between the first start and the last end |
| BezierProperties.QuadraticBezierStations | src/foillib/bezier.py:51-78 | with x non-decreasing over at least four control points, quadratic_bezier samples each station in (x first, x last] once, in order |
| BezierProperties.SegmentsForm | src/foillib/bezier.py:59-76 | N >= 4 control points give N-2 segments: the first starts at the first control point, the last ends at the last, and the others run between midpoints around their apex |
| BezierProperties.SegmentAt | src/foillib/bezier.py:59-76 | the control points of segment j in terms of the original control points |
| BezierProperties.SegmentsG1 | src/foillib/bezier.py:59-76 | the curve starts at the first control point and ends at the last; each segment ends where the next starts, with equal tangents (G1) |
| BezierProperties.IncreasingXPairwise | src/foillib/bezier.py:106-117 | control points passing the neighbour check increase pairwise |
| BezierProperties.LeadingEdgeTangent | src/foillib/bezier.py:123-132 | both curves start at (0,0) heading vertically to (0, r_top) and (0, -r_bot) with positive radii; a single radius serves both |
| BezierProperties.JoinedOutline | src/foillib/bezier.py:138-140 | reverse(top) + [(0,0)] + bottom unzips to \|t\|+1+\|b\| points, (0,0) at index \|t\|, top reversed before and bottom in order after |
| BezierProperties.BezierShape | src/foillib/bezier.py:119-140 | the airfoil outline is the top curve reversed, (0,0), then the bottom curve |
| BezierProperties.BezierSymmetricWithoutBottom | src/foillib/bezier.py:134-140 | without bottom control points the outline has 2n+1 points, x mirrored and y odd about the centre |
| BezierProperties.MirroredOutline | src/foillib/bezier.py:135-138 | joining a curve with its reflection gives a mirrored x and an odd y |
| BezierProperties.SurfaceControlsOrdered | src/foillib/bezier.py:127-132 | user points increasing in x within [0,1], framed by (0,0), (0,r) and (1, te/2), give control points whose x never decreases |
| BezierProperties.SurfaceSamplesStations | src/foillib/bezier.py:127-133 | such a framed surface samples every increasing station in (0,1] exactly once, in order |
| BezierProperties.TopSamplesStations | src/foillib/bezier.py:127-128 | the top curve samples exactly the stations |
| BezierProperties.BottomSamplesStations | src/foillib/bezier.py:131-133 | a given bottom curve samples exactly the stations |
| BezierProperties.CurvesSampleStations | src/foillib/bezier.py:127-135 | both curves sample exactly the stations, the mirrored bottom curve included |
| BezierProperties.StationsOutline | src/foillib/bezier.py:138-140 | two curves sampled at the same stations give outline x = reverse(xc) + [0] + xc |
| BezierProperties.BezierSamplesStations | src/foillib/bezier.py:119-140 | for increasing stations in (0,1] and control points inside the chord, the outline x is reverse(xc) + [0] + xc |

## Left out

- Floating point: all arithmetic is over `real`. The clamp in `b2_find_t` and the `abs` under its square root only absorb rounding. The model proves they change nothing for every station x with p0.x <= x <= p2.x of a segment with p0.x < p2.x, wherever p1.x lies.
- `sqrt`, `cos`, `sin` and `atan` are uninterpreted parameters with the laws listed above. Beyond that, the camber angle theta is treated as opaque.
- Common.CosineSpacingIncreasing: needs cosine to decrease strictly on [0, pi], a law the rest of the model does not assume. Without it, only the [0,1] bounds and the exact last station are proved.
- NacaFour.Naca4: for P = 10 (p = 1) it requires `|cos| <= 1`. That keeps every station at or before the trailing edge, so the aft branch never divides by (1 - p)^2 = 0. With an arbitrary `cos` the source could divide by zero there.
- NacaFour.Naca4Surfaces: the four lists `xu`, `yu`, `xl`, `yl` are local sequences updated by index, not arrays. They are local to the call, so no aliasing is lost.
- NacaFive.Naca5Surfaces: the same local-sequence modelling of the four lists as in `naca4`.
- NacaFive.Naca5Camber branches on the kind of table row, not on `S`. `NacaFiveProperties.TableRows` proves that the row is simple exactly when `S = 0`.
- `pow(p, 2)` and `pow(1 - p, 2)` are written as two divisions (m / p / p), which is equal over the reals.
- Naca.DigitValue: reads only the ASCII digits '0'..'9'. Python's `int()` also accepts every other Unicode decimal digit (Arabic-Indic, Devanagari, fullwidth and the like), which the model reads as `NotADigit`.
- Naca.IntOfTwo: models `int()` on ASCII digits, the ASCII whitespace `int()` strips (space, tab, line feed, vertical tab, form feed, carriage return, U+001C..U+001F) and a leading `+`. Non-ASCII digits and non-ASCII whitespace (U+0085, U+00A0, U+2000..U+200A, U+3000 and the like), which Python's `int()` also accepts, read as `NotADigit`.
- NacaCommon.Thickness: requires a station when the trailing edge is sharp. There the source's overwrite of the last element raises IndexError; `Naca.NacaSpec` reports it as `TrailingEdgeIndex`.
- `naca5`'s default argument `spacing_method=SpacingMethod`, a type object, is not modelled. The dispatcher always passes a mode.
- Bezier.B2FindT: requires that not all of a, b, c are equal. In that case the source fails on an unbound `t`. `b2_segment` never reaches it for segments with p0.x < p2.x.
- BezierProperties.SegmentsG1: stated for at least four control points. With three, `quadratic_bezier` builds two overlapping segments, which `Segments` models, but joining them proves nothing useful. `bezier` always passes at least five control points.
- BezierProperties.BezierSamplesStations: assumes strictly increasing stations in (0,1] and user control points with x in [0,1]. `bezier` does not check the latter, and strict increase of cosine stations depends on the cosine law above.
- `bezier`'s default arguments (te = 0.00252, 100 points, cosine spacing) are not modelled. `BezierAirfoil` takes every argument explicitly.
- The final `list(zip(*xy))` of `bezier` is modelled as two coordinate sequences (`Unzip`).
- The maximum-thickness check of the tests (0.12 within 1e-4) depends on floating-point values of `sqrt` and is not modelled.
- docs/docs.py (plotting and image export) is not part of this model.
