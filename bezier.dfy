/**
 * The piecewise quadratic Bezier airfoil (src/foillib/bezier.py): a curve is
 * sampled at given chord stations by inverting each segment's x polynomial
 * for its parameter t and evaluating its y polynomial there.
 */
module Bezier {
  import opened Wrappers
  import opened Transcendentals
  import opened Common

  /** A control point or curve point (x, y). */
  datatype Point = Point(x: real, y: real)

  /** The midpoint of two control points. */
  function Mid(p: Point, q: Point): (r: Point)
    ensures r.x - p.x == q.x - r.x && r.y - p.y == q.y - r.y
  {
    Point((p.x + q.x) / 2.0, (p.y + q.y) / 2.0)
  }

  /** The quadratic Bezier polynomial of one coordinate at parameter t. */
  function B2(t: real, p0: real, p1: real, p2: real): real {
    p1 + (p0 - p1) * (1.0 - t) * (1.0 - t) + (p2 - p1) * t * t
  }

  function Abs(v: real): real {
    if v < 0.0 then -v else v
  }

  /** The discriminant term under the square root of b2_find_t, before its absolute value. */
  function Discriminant(x: real, a: real, b: real, c: real): real {
    c * x + x * a - 2.0 * x * b + b * b - c * a
  }

  /** The root formula of b2_find_t for a genuinely quadratic x polynomial. */
  function QuadraticRoot(m: MathLib, x: real, a: real, b: real, c: real): real
    requires a + c != 2.0 * b
  {
    (a - b + m.sqrt(Abs(Discriminant(x, a, b, c)))) / (c + a - 2.0 * b)
  }

  /** The root formula of b2_find_t for an x polynomial that is linear in t. */
  function LinearRoot(x: real, b: real, c: real): real
    requires b != c
  {
    -(-2.0 * b + c + x) / (2.0 * (b - c))
  }

  /** max(min(1, t), 0). */
  function Clamp(t: real): (r: real)
    ensures 0.0 <= r <= 1.0
    ensures 0.0 <= t <= 1.0 ==> r == t
  {
    var lo := if 1.0 <= t then 1.0 else t;
    if lo >= 0.0 then lo else 0.0
  }

  /**
   * b2_find_t: the parameter t at which the x polynomial with coefficients
   * a, b, c takes the value x, clamped to [0, 1]. When a = b = c neither
   * branch binds t and the source fails; the segment code never gets there.
   */
  function B2FindT(m: MathLib, x: real, a: real, b: real, c: real): (t: real)
    requires !(a == b && b == c)
    ensures 0.0 <= t <= 1.0
  {
    if a + c != 2.0 * b then Clamp(QuadraticRoot(m, x, a, b, c))
    else Clamp(LinearRoot(x, b, c))
  }

  /** The chord stations v of xs with lo < v <= hi, in their input order. */
  function Within(xs: seq<real>, lo: real, hi: real): (r: seq<real>)
    ensures |r| <= |xs|
    ensures forall v :: v in r <==> v in xs && lo < v <= hi
  {
    if xs == [] then []
    else (if lo < xs[0] <= hi then [xs[0]] else []) + Within(xs[1..], lo, hi)
  }

  /** The three control points of one quadratic segment. */
  datatype Segment = Segment(p0: Point, p1: Point, p2: Point)

  /** The curve point of a segment above a station strictly inside its x range. */
  function SegmentPoint(m: MathLib, s: Segment, v: real): Point
    requires s.p0.x < v <= s.p2.x
  {
    Point(v, B2(B2FindT(m, v, s.p0.x, s.p1.x, s.p2.x), s.p0.y, s.p1.y, s.p2.y))
  }

  /**
   * b2_segment: the stations inside the segment's x range, each paired with
   * the y value of the segment at the parameter that inverts its x.
   */
  function B2Segment(m: MathLib, xs: seq<real>, s: Segment): (r: seq<Point>)
    ensures |r| == |Within(xs, s.p0.x, s.p2.x)|
  {
    var ws := Within(xs, s.p0.x, s.p2.x);
    seq(|ws|, i requires 0 <= i < |ws| => assert ws[i] in ws; SegmentPoint(m, s, ws[i]))
  }

  /** An intermediate segment of quadratic_bezier: between the midpoints around control point i + 1. */
  function Inner(cps: seq<Point>, i: int): Segment
    requires 1 <= i && i + 2 < |cps|
  {
    Segment(Mid(cps[i], cps[i + 1]), cps[i + 1], Mid(cps[i + 1], cps[i + 2]))
  }

  /**
   * The segments quadratic_bezier builds: the first from the first two
   * control points to a midpoint, one per intermediate control point, and
   * the last from a midpoint to the last two control points.
   */
  function Segments(cps: seq<Point>): (segs: seq<Segment>)
    requires |cps| >= 3
    ensures |segs| == if |cps| >= 4 then |cps| - 2 else 2
  {
    var n := |cps|;
    var inner := if n >= 4 then n - 4 else 0;
    [Segment(cps[0], cps[1], Mid(cps[1], cps[2]))]
    + seq(inner, j requires 0 <= j < inner => Inner(cps, j + 1))
    + [Segment(Mid(cps[n - 3], cps[n - 2]), cps[n - 2], cps[n - 1])]
  }

  /** The sampled points of a sequence of segments, concatenated in segment order. */
  function Curve(m: MathLib, xs: seq<real>, segs: seq<Segment>): (r: seq<Point>)
    decreases |segs|
  {
    if segs == [] then []
    else Curve(m, xs, segs[..|segs| - 1]) + B2Segment(m, xs, segs[|segs| - 1])
  }

  /**
   * quadratic_bezier: accumulates the sampled points of the first segment,
   * of each intermediate segment and of the last segment.
   */
  method QuadraticBezier(m: MathLib, xs: seq<real>, cps: seq<Point>) returns (curve: seq<Point>)
    requires |cps| >= 3
    ensures curve == Curve(m, xs, Segments(cps))
  {
    var n := |cps|;
    ghost var segs := Segments(cps);
    curve := [];
    curve := curve + B2Segment(m, xs, Segment(cps[0], cps[1], Mid(cps[1], cps[2])));
    assert segs[..1][..0] == [];
    var i := 1;
    while i < n - 3
      invariant 1 <= i && (i <= n - 3 || i == 1)
      invariant curve == Curve(m, xs, segs[..i])
    {
      curve := curve + B2Segment(m, xs, Inner(cps, i));
      assert segs[..i + 1][..i] == segs[..i];
      i := i + 1;
    }
    curve := curve + B2Segment(m, xs, Segment(Mid(cps[n - 3], cps[n - 2]), cps[n - 2], cps[n - 1]));
    assert segs[..i + 1] == segs;
    assert segs[..i + 1][..i] == segs[..i];
  }

  /** The assertion of bezier that fails first, in the order the source checks them. */
  datatype BezierError =
    | TooFewTopPoints
    | BadRadiusCount
    | NonPositiveRadius
    | TopNotIncreasing
    | TooFewBottomPoints
    | BottomNotIncreasing

  /** Each control point lies strictly to the right of its predecessor. */
  predicate IncreasingX(ps: seq<Point>) {
    forall i :: 0 <= i < |ps| - 1 ==> ps[i].x < ps[i + 1].x
  }

  /** Every leading-edge radius is positive. */
  predicate PositiveRadii(le: seq<real>) {
    forall i :: 0 <= i < |le| ==> le[i] > 0.0
  }

  /** The input checks of bezier: None when all pass, otherwise the first that fails. */
  function BezierCheck(le: seq<real>, top: seq<Point>, bot: Option<seq<Point>>): Option<BezierError> {
    if |top| < 2 then Some(TooFewTopPoints)
    else if |le| != 1 && |le| != 2 then Some(BadRadiusCount)
    else if !PositiveRadii(le) then Some(NonPositiveRadius)
    else if !IncreasingX(top) then Some(TopNotIncreasing)
    else if bot.Some? && |bot.value| < 2 then Some(TooFewBottomPoints)
    else if bot.Some? && !IncreasingX(bot.value) then Some(BottomNotIncreasing)
    else None
  }

  /** The two leading-edge radii: a single radius serves both surfaces. */
  function Radii(le: seq<real>): (r: seq<real>)
    requires |le| == 1 || |le| == 2
    ensures |r| == 2
  {
    if |le| == 1 then [Abs(le[0]), Abs(le[0])] else le
  }

  /** The control points of the upper curve: leading edge, radius point, user points, trailing edge. */
  function TopControls(radii: seq<real>, top: seq<Point>, te: real): seq<Point>
    requires |radii| == 2
  {
    [Point(0.0, 0.0), Point(0.0, radii[0])] + top + [Point(1.0, te / 2.0)]
  }

  /** The control points of the lower curve, below the chord. */
  function BottomControls(radii: seq<real>, bot: seq<Point>, te: real): seq<Point>
    requires |radii| == 2
  {
    [Point(0.0, 0.0), Point(0.0, -radii[1])] + bot + [Point(1.0, -te / 2.0)]
  }

  /** The points reflected in the chord line. */
  function NegateY(ps: seq<Point>): (r: seq<Point>)
    ensures |r| == |ps|
  {
    seq(|ps|, i requires 0 <= i < |ps| => Point(ps[i].x, -ps[i].y))
  }

  /** The points in reverse order. */
  function ReversePoints(ps: seq<Point>): (r: seq<Point>)
    ensures |r| == |ps|
  {
    seq(|ps|, i requires 0 <= i < |ps| => ps[|ps| - 1 - i])
  }

  /** The x and y coordinate sequences of a list of points. */
  function Unzip(ps: seq<Point>): (seq<real>, seq<real>) {
    (seq(|ps|, i requires 0 <= i < |ps| => ps[i].x), seq(|ps|, i requires 0 <= i < |ps| => ps[i].y))
  }

  /** The upper curve of a validated Bezier airfoil sampled at the stations xc. */
  function TopCurve(m: MathLib, le: seq<real>, top: seq<Point>, te: real, xc: seq<real>): seq<Point>
    requires |le| == 1 || |le| == 2
  {
    Curve(m, xc, Segments(TopControls(Radii(le), top, te)))
  }

  /** The lower curve: its own control points when given, otherwise the upper curve mirrored. */
  function BottomCurve(m: MathLib, le: seq<real>, top: seq<Point>, bot: Option<seq<Point>>, te: real, xc: seq<real>): seq<Point>
    requires |le| == 1 || |le| == 2
  {
    match bot
    case Some(b) => Curve(m, xc, Segments(BottomControls(Radii(le), b, te)))
    case None => NegateY(TopCurve(m, le, top, te, xc))
  }

  /** The outline bezier returns: the upper curve reversed, the leading edge, the lower curve. */
  function BezierOutline(m: MathLib, le: seq<real>, top: seq<Point>, bot: Option<seq<Point>>, te: real, npts: int, mode: SpacingMethod)
    : (seq<real>, seq<real>)
    requires |le| == 1 || |le| == 2
  {
    var xc := Spacing(m, npts, mode);
    Unzip(ReversePoints(TopCurve(m, le, top, te, xc)) + [Point(0.0, 0.0)] + BottomCurve(m, le, top, bot, te, xc))
  }

  /** The result of bezier: the first failed check, or the outline. */
  function BezierSpec(m: MathLib, le: seq<real>, top: seq<Point>, bot: Option<seq<Point>>, te: real, npts: int, mode: SpacingMethod)
    : Result<(seq<real>, seq<real>), BezierError>
  {
    match BezierCheck(le, top, bot)
    case Some(e) => Failure(e)
    case None => Success(BezierOutline(m, le, top, bot, te, npts, mode))
  }

  /** The input checks of bezier, run as loops over the radii and the control points. */
  method CheckInputs(le: seq<real>, top: seq<Point>, bot: Option<seq<Point>>) returns (err: Option<BezierError>)
    ensures err == BezierCheck(le, top, bot)
  {
    if |top| < 2 {
      return Some(TooFewTopPoints);
    }
    if |le| != 1 && |le| != 2 {
      return Some(BadRadiusCount);
    }
    for k := 0 to |le|
      invariant forall j :: 0 <= j < k ==> le[j] > 0.0
    {
      if le[k] <= 0.0 {
        return Some(NonPositiveRadius);
      }
    }
    for i := 0 to |top| - 1
      invariant forall j :: 0 <= j < i ==> top[j].x < top[j + 1].x
    {
      if top[i].x >= top[i + 1].x {
        return Some(TopNotIncreasing);
      }
    }
    if bot.Some? {
      var b := bot.value;
      if |b| < 2 {
        return Some(TooFewBottomPoints);
      }
      for i := 0 to |b| - 1
        invariant forall j :: 0 <= j < i ==> b[j].x < b[j + 1].x
      {
        if b[i].x >= b[i + 1].x {
          return Some(BottomNotIncreasing);
        }
      }
    }
    return None;
  }

  /** bezier: checks its inputs, then builds both curves and assembles the outline. */
  method BezierAirfoil(m: MathLib, le: seq<real>, top: seq<Point>, bot: Option<seq<Point>>, te: real, npts: int, mode: SpacingMethod)
    returns (r: Result<(seq<real>, seq<real>), BezierError>)
    ensures r == BezierSpec(m, le, top, bot, te, npts, mode)
  {
    var err := CheckInputs(le, top, bot);
    if err.Some? {
      return Failure(err.value);
    }
    var xc := Spacing(m, npts, mode);
    var radii := le;
    if |le| == 1 {
      radii := [Abs(le[0]), Abs(le[0])];
    }
    assert radii == Radii(le);
    var topC := [Point(0.0, 0.0), Point(0.0, radii[0])] + top + [Point(1.0, te / 2.0)];
    assert topC == TopControls(radii, top, te);
    var xyTop := QuadraticBezier(m, xc, topC);
    var xyBot;
    if bot.Some? {
      var botC := [Point(0.0, 0.0), Point(0.0, -radii[1])] + bot.value + [Point(1.0, -te / 2.0)];
      assert botC == BottomControls(radii, bot.value, te);
      xyBot := QuadraticBezier(m, xc, botC);
    } else {
      xyBot := NegateY(xyTop);
    }
    assert xyBot == BottomCurve(m, le, top, bot, te, xc);
    return Success(Unzip(ReversePoints(xyTop) + [Point(0.0, 0.0)] + xyBot));
  }
}

/** Properties of the Bezier evaluation and inversion. */
module BezierProperties {
  import opened Wrappers
  import opened Transcendentals
  import opened Bezier
  import opened Common

  /** The curve starts at its first control value and ends at its last. */
  lemma B2Ends(p0: real, p1: real, p2: real)
    ensures B2(0.0, p0, p1, p2) == p0
    ensures B2(1.0, p0, p1, p2) == p2
  {
  }

  /** The x polynomial written in powers of t: A t^2 + 2 (b - a) t + a, with A = a + c - 2b. */
  lemma B2Expanded(t: real, a: real, b: real, c: real)
    ensures B2(t, a, b, c) == (a + c - 2.0 * b) * t * t + 2.0 * (b - a) * t + a
  {
  }

  /**
   * The discriminant is (b - x)^2 + (x - a)(c - x), so it is non-negative
   * for x between a and c and the absolute value leaves it unchanged.
   */
  lemma DiscriminantSplit(x: real, a: real, b: real, c: real)
    ensures Discriminant(x, a, b, c) == (b - x) * (b - x) + (x - a) * (c - x)
    ensures a <= x <= c ==> Discriminant(x, a, b, c) >= 0.0 && Abs(Discriminant(x, a, b, c)) == Discriminant(x, a, b, c)
  {
    if a <= x <= c {
      assert (x - a) * (c - x) >= 0.0;
    }
  }

  /** The discriminant measured from (a - b)^2: it exceeds it by (x - a) A. */
  lemma DiscriminantFromA(x: real, a: real, b: real, c: real)
    ensures Discriminant(x, a, b, c) - (a - b) * (a - b) == (x - a) * (a + c - 2.0 * b)
  {
  }

  /** The discriminant measured from (c - b)^2: it exceeds it by (x - c) A. */
  lemma DiscriminantFromC(x: real, a: real, b: real, c: real)
    ensures Discriminant(x, a, b, c) - (c - b) * (c - b) == (x - c) * (a + c - 2.0 * b)
  {
  }

  /**
   * The algebra behind the root formula: if A t = (a - b) + s and
   * s^2 - (a - b)^2 = (x - a) A, then A t^2 + 2 (b - a) t + a = x.
   */
  lemma RootAlgebra(A: real, t: real, s: real, a: real, b: real, x: real)
    requires A != 0.0 && A * t == a - b + s
    requires s * s - (a - b) * (a - b) == (x - a) * A
    ensures A * t * t + 2.0 * (b - a) * t + a == x
  {
    var u := a - b + s;
    var v := A * t * t + 2.0 * (b - a) * t;
    assert A * v == u * u + 2.0 * (b - a) * u by {
      assert A * v == (A * t) * (A * t) + 2.0 * (b - a) * (A * t);
    }
    assert u * u + 2.0 * (b - a) * u == s * s - (a - b) * (a - b);
    assert A * v == A * (x - a);
  }

  /**
   * The quadratic root solves the x polynomial exactly: wherever the
   * discriminant is non-negative, B2 at that root gives back x.
   */
  lemma QuadraticRootSolves(m: MathLib, x: real, a: real, b: real, c: real)
    requires SqrtLaws(m) && a + c != 2.0 * b && Discriminant(x, a, b, c) >= 0.0
    ensures B2(QuadraticRoot(m, x, a, b, c), a, b, c) == x
  {
    var A := a + c - 2.0 * b;
    var d := Discriminant(x, a, b, c);
    var s := m.sqrt(d);
    assert s * s == d;
    var t := QuadraticRoot(m, x, a, b, c);
    assert A * t == a - b + s;
    B2Expanded(t, a, b, c);
    DiscriminantFromA(x, a, b, c);
    RootAlgebra(A, t, s, a, b, x);
  }

  /**
   * The linear root solves the x polynomial exactly when a + c = 2b, and
   * takes the values 0 at x = a and 1 at x = c.
   */
  lemma LinearRootSolves(x: real, a: real, b: real, c: real)
    requires a + c == 2.0 * b && b != c
    ensures B2(LinearRoot(x, b, c), a, b, c) == x
  {
    var n := 2.0 * (b - c);
    var t := LinearRoot(x, b, c);
    DivCancel(-(-2.0 * b + c + x), n);
    assert t * n == 2.0 * b - c - x;
    B2Expanded(t, a, b, c);
    assert (a + c - 2.0 * b) * t * t == 0.0;
    assert 2.0 * (b - a) == -n;
    assert 2.0 * (b - a) * t == -(t * n);
  }

  /** The linear root formula maps the end values a and c to the parameters 0 and 1. */
  lemma LinearRootEnds(a: real, b: real, c: real)
    requires a + c == 2.0 * b && b != c
    ensures LinearRoot(a, b, c) == 0.0
    ensures LinearRoot(c, b, c) == 1.0
  {
    var n := 2.0 * (b - c);
    assert -(-2.0 * b + c + a) == 0.0;
    assert 0.0 / n == 0.0;
    assert -(-2.0 * b + c + c) == n;
    DivCancel(n, n);
    assert (n / n - 1.0) * n == 0.0;
  }

  /** For a linear segment with a < c the root of every x in [a, c] lies in [0, 1]. */
  lemma LinearRootInUnit(x: real, a: real, b: real, c: real)
    requires a + c == 2.0 * b && a < c && a <= x <= c
    ensures 0.0 <= LinearRoot(x, b, c) <= 1.0
  {
    var n := 2.0 * (b - c);
    var t := LinearRoot(x, b, c);
    DivCancel(-(-2.0 * b + c + x), n);
    assert t * n == a - x;
    assert (t - 1.0) * n == c - x;
    ProductSigns(t, n);
    ProductSigns(t - 1.0, n);
  }


  /**
   * For a segment whose end x values satisfy a < c, wherever its middle
   * value b lies, the root b2_find_t picks already lies in [0, 1], so the
   * clamp changes nothing and B2 at the returned t gives back every x in [a, c].
   */
  lemma B2FindTInverts(m: MathLib, x: real, a: real, b: real, c: real)
    requires SqrtLaws(m) && a < c && a <= x <= c
    ensures B2(B2FindT(m, x, a, b, c), a, b, c) == x
  {
    var A := a + c - 2.0 * b;
    if A != 0.0 {
      DiscriminantSplit(x, a, b, c);
      QuadraticRootInUnit(m, x, a, b, c);
      QuadraticRootSolves(m, x, a, b, c);
    } else {
      LinearRootSolves(x, a, b, c);
      LinearRootInUnit(x, a, b, c);
    }
  }

  /**
   * For a < c and x in [a, c] the quadratic root lies in [0, 1], wherever
   * the middle control value b lies.
   */
  lemma QuadraticRootInUnit(m: MathLib, x: real, a: real, b: real, c: real)
    requires SqrtLaws(m) && a < c && a <= x <= c && a + c != 2.0 * b
    ensures 0.0 <= QuadraticRoot(m, x, a, b, c) <= 1.0
  {
    var A := a + c - 2.0 * b;
    DiscriminantSplit(x, a, b, c);
    DiscriminantFromA(x, a, b, c);
    DiscriminantFromC(x, a, b, c);
    var d := Discriminant(x, a, b, c);
    var s := m.sqrt(d);
    var t := QuadraticRoot(m, x, a, b, c);
    assert Abs(d) == d;
    assert t == (a - b + s) / (c + a - 2.0 * b);
    assert c + a - 2.0 * b == A;
    DivCancel(a - b + s, A);
    assert A * t == a - b + s;
    ProductSigns(x - a, A);
    ProductSigns(x - c, A);
    if A > 0.0 {
      assert c - b > 0.0;
      SqrtBetween(m, d, if b - a >= 0.0 then b - a else 0.0, c - b);
    } else {
      assert b - a > 0.0;
      SqrtBetween(m, d, if c - b >= 0.0 then c - b else 0.0, b - a);
    }
    UnitFromScaled(A, t, a - b + s);
  }

  /** A t = u between 0 and A, in either order, puts t in [0, 1]. */
  lemma UnitFromScaled(A: real, t: real, u: real)
    requires A * t == u
    requires (A > 0.0 && 0.0 <= u <= A) || (A < 0.0 && A <= u <= 0.0)
    ensures 0.0 <= t <= 1.0
  {
    assert A * (t - 1.0) == u - A;
    ProductSigns(A, t);
    ProductSigns(A, t - 1.0);
  }


  /**
   * Every point b2_segment emits lies on the segment: for a segment whose
   * end x values satisfy p0.x < p2.x, the parameter found for the station lies
   * in [0, 1], the x polynomial gives back the station exactly and the y
   * value is the y polynomial at the same parameter.
   */
  lemma SegmentOnCurve(m: MathLib, xs: seq<real>, s: Segment)
    requires SqrtLaws(m) && s.p0.x < s.p2.x
    ensures var r := B2Segment(m, xs, s);
      forall i :: 0 <= i < |r| ==>
        var t := B2FindT(m, r[i].x, s.p0.x, s.p1.x, s.p2.x);
        && r[i].x == Within(xs, s.p0.x, s.p2.x)[i]
        && 0.0 <= t <= 1.0
        && B2(t, s.p0.x, s.p1.x, s.p2.x) == r[i].x
        && r[i].y == B2(t, s.p0.y, s.p1.y, s.p2.y)
  {
    var r := B2Segment(m, xs, s);
    var ws := Within(xs, s.p0.x, s.p2.x);
    forall i | 0 <= i < |r|
      ensures B2(B2FindT(m, r[i].x, s.p0.x, s.p1.x, s.p2.x), s.p0.x, s.p1.x, s.p2.x) == r[i].x
    {
      assert ws[i] in ws;
      B2FindTInverts(m, r[i].x, s.p0.x, s.p1.x, s.p2.x);
    }
  }

  /** For at least four control points there are n - 2 segments, each of the form SegmentForm states. */
  lemma SegmentsForm(cps: seq<Point>)
    requires |cps| >= 4
    ensures var segs := Segments(cps);
      |segs| == |cps| - 2 && forall j :: 0 <= j < |segs| ==> SegmentForm(cps, segs[j], j)
  {
    forall j | 0 <= j < |cps| - 2
      ensures SegmentForm(cps, Segments(cps)[j], j)
    {
      SegmentAt(cps, j);
    }
  }

  /**
   * Segment j of control points cps (at least four) runs from the midpoint
   * of control points j and j+1 (the first control point for j = 0),
   * through control point j+1, to the midpoint of control points j+1 and
   * j+2 (the last control point for the last segment).
   */
  ghost predicate SegmentForm(cps: seq<Point>, s: Segment, j: int)
    requires |cps| >= 4 && 0 <= j < |cps| - 2
  {
    && s.p0 == (if j == 0 then cps[0] else Mid(cps[j], cps[j + 1]))
    && s.p1 == cps[j + 1]
    && s.p2 == (if j == |cps| - 3 then cps[|cps| - 1] else Mid(cps[j + 1], cps[j + 2]))
  }

  /** SegmentsForm for one segment j. */
  lemma SegmentAt(cps: seq<Point>, j: int)
    requires |cps| >= 4 && 0 <= j < |cps| - 2
    ensures SegmentForm(cps, Segments(cps)[j], j)
  {
    var n := |cps|;
    var first := Segment(cps[0], cps[1], Mid(cps[1], cps[2]));
    var inner := seq(n - 4, i requires 0 <= i < n - 4 => Inner(cps, i + 1));
    var last := Segment(Mid(cps[n - 3], cps[n - 2]), cps[n - 2], cps[n - 1]);
    var segs := Segments(cps);
    assert segs == [first] + inner + [last];
    if j == 0 {
      assert segs[j] == first;
    } else if j == n - 3 {
      assert segs[j] == last;
    } else {
      assert segs[j] == inner[j - 1];
    }
  }




  /** The tangent direction from one point to another. */
  function Direction(p: Point, q: Point): Point {
    Point(q.x - p.x, q.y - p.y)
  }

  /**
   * Segment j and segment j + 1 meet at the midpoint of the control points
   * they share, and the end tangent p2 - p1 of the first equals the start
   * tangent p1 - p0 of the second.
   */
  ghost predicate JoinAt(cps: seq<Point>, segs: seq<Segment>, j: int)
    requires 0 <= j < |segs| - 1 && |segs| + 2 <= |cps|
  {
    && segs[j].p2 == segs[j + 1].p0 == Mid(cps[j + 1], cps[j + 2])
    && Direction(segs[j].p1, segs[j].p2) == Direction(segs[j + 1].p0, segs[j + 1].p1)
  }

  /** Every pair of consecutive segments joins with a matching tangent. */
  ghost predicate JoinedG1(cps: seq<Point>, segs: seq<Segment>)
    requires |segs| + 2 <= |cps|
  {
    forall j :: 0 <= j < |segs| - 1 ==> JoinAt(cps, segs, j)
  }

  /**
   * G1 continuity of quadratic_bezier for at least four control points: the
   * curve starts at the first control point, ends at the last, and its
   * segments join with matching tangents.
   */
  lemma SegmentsG1(cps: seq<Point>)
    requires |cps| >= 4
    ensures var segs := Segments(cps);
      && segs[0].p0 == cps[0] && segs[|segs| - 1].p2 == cps[|cps| - 1]
      && JoinedG1(cps, segs)
  {
    var segs := Segments(cps);
    SegmentsForm(cps);
    forall j | 0 <= j < |segs| - 1 ensures JoinAt(cps, segs, j) {
      assert segs[j].p2 == Mid(cps[j + 1], cps[j + 2]);
      assert segs[j + 1].p0 == Mid(cps[j + 1], cps[j + 2]);
    }
  }

  /** The x coordinates of a list of points. */
  function Xs(ps: seq<Point>): (r: seq<real>)
    ensures |r| == |ps|
  {
    seq(|ps|, i requires 0 <= i < |ps| => ps[i].x)
  }

  lemma XsAppend(a: seq<Point>, b: seq<Point>)
    ensures Xs(a + b) == Xs(a) + Xs(b)
  {
  }

  /** The x coordinates b2_segment emits are exactly the stations inside the segment's x range. */
  lemma B2SegmentXs(m: MathLib, xs: seq<real>, s: Segment)
    ensures Xs(B2Segment(m, xs, s)) == Within(xs, s.p0.x, s.p2.x)
  {
  }

  /** Stations in increasing order stay in increasing order: the filter keeps their input order. */
  lemma {:induction false} WithinIncreasing(xs: seq<real>, lo: real, hi: real)
    requires StrictlyIncreasing(xs)
    ensures StrictlyIncreasing(Within(xs, lo, hi))
  {
    if xs != [] {
      var rest := xs[1..];
      assert StrictlyIncreasing(rest) by {
        forall i, j | 0 <= i < j < |rest| ensures rest[i] < rest[j] {
          assert rest[i] == xs[i + 1] && rest[j] == xs[j + 1];
        }
      }
      WithinIncreasing(rest, lo, hi);
      var w := Within(rest, lo, hi);
      forall k | 0 <= k < |w| ensures xs[0] < w[k] {
        assert w[k] in rest;
      }
    }
  }

  /** Every station above mid and lo <= mid: raising the lower bound from lo to mid keeps the same stations. */
  lemma {:induction false} WithinRaiseLow(xs: seq<real>, lo: real, mid: real, hi: real)
    requires lo <= mid && forall i :: 0 <= i < |xs| ==> xs[i] > mid
    ensures Within(xs, lo, hi) == Within(xs, mid, hi)
  {
    if xs != [] {
      WithinRaiseLow(xs[1..], lo, mid, hi);
    }
  }

  /** Stations in increasing order split at an intermediate bound: those up to mid, then those above it. */
  lemma {:induction false} WithinSplit(xs: seq<real>, lo: real, mid: real, hi: real)
    requires StrictlyIncreasing(xs) && lo <= mid <= hi
    ensures Within(xs, lo, mid) + Within(xs, mid, hi) == Within(xs, lo, hi)
  {
    if xs != [] {
      var rest := xs[1..];
      assert StrictlyIncreasing(rest) by {
        forall i, j | 0 <= i < j < |rest| ensures rest[i] < rest[j] {
          assert rest[i] == xs[i + 1] && rest[j] == xs[j + 1];
        }
      }
      if xs[0] <= mid {
        WithinSplit(rest, lo, mid, hi);
      } else {
        assert forall i :: 0 <= i < |xs| ==> xs[i] > mid by {
          forall i | 0 < i < |xs| ensures xs[i] > mid {
            assert xs[0] < xs[i];
          }
        }
        var below := Within(xs, lo, mid);
        if below != [] {
          assert below[0] in below;
        }
        WithinRaiseLow(xs, lo, mid, hi);
      }
    }
  }

  /** Stations that all lie in (lo, hi] are all kept, in order. */
  lemma {:induction false} WithinAll(xs: seq<real>, lo: real, hi: real)
    requires forall i :: 0 <= i < |xs| ==> lo < xs[i] <= hi
    ensures Within(xs, lo, hi) == xs
  {
    if xs != [] {
      WithinAll(xs[1..], lo, hi);
    }
  }

  /**
   * A chain of segments whose x ranges meet end to start and never run
   * backwards samples exactly the stations between the first start and the
   * last end, each once and in order.
   */
  lemma {:induction false} CurveXs(m: MathLib, xs: seq<real>, segs: seq<Segment>)
    requires |segs| >= 1 && StrictlyIncreasing(xs)
    requires forall j :: 0 <= j < |segs| - 1 ==> segs[j].p2.x == segs[j + 1].p0.x
    requires forall i, j :: 0 <= i <= j < |segs| ==> segs[i].p0.x <= segs[j].p2.x
    ensures Xs(Curve(m, xs, segs)) == Within(xs, segs[0].p0.x, segs[|segs| - 1].p2.x)
  {
    var k := |segs| - 1;
    var init := segs[..k];
    assert Curve(m, xs, segs) == Curve(m, xs, init) + B2Segment(m, xs, segs[k]);
    XsAppend(Curve(m, xs, init), B2Segment(m, xs, segs[k]));
    B2SegmentXs(m, xs, segs[k]);
    if k > 0 {
      CurveXs(m, xs, init);
      WithinSplit(xs, segs[0].p0.x, segs[k - 1].p2.x, segs[k].p2.x);
    }
  }

  /** Control points whose x coordinates never decrease. */
  ghost predicate NonDecreasingX(cps: seq<Point>) {
    forall i, j :: 0 <= i <= j < |cps| ==> cps[i].x <= cps[j].x
  }

  /**
   * quadratic_bezier over at least four control points whose x never
   * decreases samples exactly the increasing stations in (x of the first
   * control point, x of the last], each once and in order.
   */
  lemma QuadraticBezierStations(m: MathLib, xs: seq<real>, cps: seq<Point>)
    requires |cps| >= 4 && StrictlyIncreasing(xs) && NonDecreasingX(cps)
    ensures Xs(Curve(m, xs, Segments(cps))) == Within(xs, cps[0].x, cps[|cps| - 1].x)
  {
    var segs := Segments(cps);
    SegmentsForm(cps);
    forall i, j | 0 <= i <= j < |segs|
      ensures segs[i].p0.x <= segs[j].p2.x
    {
      assert cps[i].x <= cps[j + 1].x;
      if j < |segs| - 1 {
        assert cps[i + 1].x <= cps[j + 2].x;
      }
    }
    CurveXs(m, xs, segs);
  }

  /** The adjacent check of bezier orders every pair of control points. */
  lemma {:induction false} IncreasingXPairwise(ps: seq<Point>)
    requires IncreasingX(ps)
    ensures forall i, j :: 0 <= i < j < |ps| ==> ps[i].x < ps[j].x
  {
    if |ps| > 1 {
      var rest := ps[1..];
      assert IncreasingX(rest) by {
        forall i | 0 <= i < |rest| - 1 ensures rest[i].x < rest[i + 1].x {
          assert rest[i] == ps[i + 1] && rest[i + 1] == ps[i + 2];
        }
      }
      IncreasingXPairwise(rest);
      forall i, j | 0 <= i < j < |ps| ensures ps[i].x < ps[j].x {
        if 0 < i {
          assert ps[i] == rest[i - 1] && ps[j] == rest[j - 1];
        } else if 1 < j {
          assert ps[1] == rest[0] && ps[j] == rest[j - 1];
        }
      }
    }
  }

  /**
   * The leading edge of a validated Bezier airfoil: the upper curve starts at
   * (0, 0) heading straight up to (0, r1) and the lower curve starts at (0, 0)
   * heading straight down to (0, -r2), with both radii positive, so the two
   * curves leave the nose along one vertical tangent line. A single radius
   * serves both surfaces.
   */
  lemma LeadingEdgeTangent(le: seq<real>, top: seq<Point>, bot: Option<seq<Point>>, te: real)
    requires BezierCheck(le, top, bot) == None && bot.Some?
    ensures var radii := Radii(le);
      var ts := Segments(TopControls(radii, top, te));
      var bs := Segments(BottomControls(radii, bot.value, te));
      && ts[0].p0 == Point(0.0, 0.0) && ts[0].p1 == Point(0.0, radii[0]) && radii[0] > 0.0
      && bs[0].p0 == Point(0.0, 0.0) && bs[0].p1 == Point(0.0, -radii[1]) && radii[1] > 0.0
      && (|le| == 1 ==> radii[0] == radii[1] == le[0])
  {
    var radii := Radii(le);
    SegmentsForm(TopControls(radii, top, te));
    SegmentsForm(BottomControls(radii, bot.value, te));
  }

  /**
   * Joining two sampled curves as bezier does: the first reversed, the
   * leading edge (0, 0), then the second.
   */
  lemma JoinedOutline(t: seq<Point>, b: seq<Point>)
    ensures var (x, y) := Unzip(ReversePoints(t) + [Point(0.0, 0.0)] + b);
      && |x| == |y| == |t| + 1 + |b|
      && x[|t|] == 0.0 && y[|t|] == 0.0
      && (forall k :: 0 <= k < |t| ==> x[k] == t[|t| - 1 - k].x && y[k] == t[|t| - 1 - k].y)
      && (forall k :: 0 <= k < |b| ==> x[|t| + 1 + k] == b[k].x && y[|t| + 1 + k] == b[k].y)
  {
    var ps := ReversePoints(t) + [Point(0.0, 0.0)] + b;
    assert forall k :: 0 <= k < |t| ==> ps[k] == t[|t| - 1 - k];
    assert forall k :: 0 <= k < |b| ==> ps[|t| + 1 + k] == b[k];
  }

  /**
   * The outline bezier returns has one point per upper sample, the leading
   * edge (0, 0) at index |upper|, and one point per lower sample; the upper
   * samples come reversed, so the outline runs from the trailing edge over
   * the top to the nose and back along the bottom.
   */
  lemma BezierShape(m: MathLib, le: seq<real>, top: seq<Point>, bot: Option<seq<Point>>, te: real, npts: int, mode: SpacingMethod)
    requires BezierCheck(le, top, bot) == None
    ensures var (x, y) := BezierOutline(m, le, top, bot, te, npts, mode);
      var xc := Spacing(m, npts, mode);
      var t := TopCurve(m, le, top, te, xc);
      var b := BottomCurve(m, le, top, bot, te, xc);
      && |x| == |y| == |t| + 1 + |b|
      && x[|t|] == 0.0 && y[|t|] == 0.0
      && (forall k :: 0 <= k < |t| ==> x[k] == t[|t| - 1 - k].x && y[k] == t[|t| - 1 - k].y)
      && (forall k :: 0 <= k < |b| ==> x[|t| + 1 + k] == b[k].x && y[|t| + 1 + k] == b[k].y)
  {
    var xc := Spacing(m, npts, mode);
    var t := TopCurve(m, le, top, te, xc);
    var b := BottomCurve(m, le, top, bot, te, xc);
    assert BezierOutline(m, le, top, bot, te, npts, mode) == Unzip(ReversePoints(t) + [Point(0.0, 0.0)] + b);
    JoinedOutline(t, b);
  }

  /**
   * Without bottom control points the lower surface is the upper surface
   * reflected in the chord: the outline's x coordinates mirror about the
   * leading edge and its y coordinates change sign.
   */
  lemma BezierSymmetricWithoutBottom(m: MathLib, le: seq<real>, top: seq<Point>, te: real, npts: int, mode: SpacingMethod)
    requires BezierCheck(le, top, None) == None
    ensures var (x, y) := BezierOutline(m, le, top, None, te, npts, mode);
      var n := |TopCurve(m, le, top, te, Spacing(m, npts, mode))|;
      && |x| == |y| == 2 * n + 1
      && forall i, j :: 0 <= i < j < |x| && i + j == 2 * n ==> x[i] == x[j] && y[i] == -y[j]
  {
    var xc := Spacing(m, npts, mode);
    var t := TopCurve(m, le, top, te, xc);
    assert BottomCurve(m, le, top, None, te, xc) == NegateY(t);
    MirroredOutline(t);
  }

  /** A curve joined with its own reflection in the chord gives an outline mirrored in x and odd in y. */
  lemma MirroredOutline(t: seq<Point>)
    ensures var (x, y) := Unzip(ReversePoints(t) + [Point(0.0, 0.0)] + NegateY(t));
      var n := |t|;
      && |x| == |y| == 2 * n + 1
      && forall i, j :: 0 <= i < j < |x| && i + j == 2 * n ==> x[i] == x[j] && y[i] == -y[j]
  {
    var n := |t|;
    JoinedOutline(t, NegateY(t));
    var (x, y) := Unzip(ReversePoints(t) + [Point(0.0, 0.0)] + NegateY(t));
    forall i, j | 0 <= i < j < |x| && i + j == 2 * n
      ensures x[i] == x[j] && y[i] == -y[j]
    {
      var k := n - 1 - i;
      assert j == n + 1 + k;
      assert x[i] == t[k].x && y[i] == t[k].y;
      assert x[j] == NegateY(t)[k].x && y[j] == NegateY(t)[k].y;
    }
  }

  /**
   * The control points of one surface, from the nose (0, 0) and the radius
   * point above or below it, through the user's points, to the trailing edge
   * at x = 1, never run backwards in x when the user's points increase and
   * lie in [0, 1].
   */
  lemma SurfaceControlsOrdered(y1: real, ps: seq<Point>, yEnd: real)
    requires |ps| >= 1 && IncreasingX(ps) && 0.0 <= ps[0].x && ps[|ps| - 1].x <= 1.0
    ensures NonDecreasingX([Point(0.0, 0.0), Point(0.0, y1)] + ps + [Point(1.0, yEnd)])
  {
    var cps := [Point(0.0, 0.0), Point(0.0, y1)] + ps + [Point(1.0, yEnd)];
    IncreasingXPairwise(ps);
    forall i, j | 0 <= i <= j < |cps| ensures cps[i].x <= cps[j].x {
      if 2 <= i <= j < |cps| - 1 {
        assert cps[i] == ps[i - 2] && cps[j] == ps[j - 2];
        if i < j { assert ps[i - 2].x < ps[j - 2].x; }
      } else if 2 <= i < |cps| - 1 {
        assert cps[i] == ps[i - 2];
        if i - 2 < |ps| - 1 { assert ps[i - 2].x < ps[|ps| - 1].x; }
      } else if i < 2 && 2 <= j < |cps| - 1 {
        assert cps[j] == ps[j - 2];
        if 0 < j - 2 { assert ps[0].x < ps[j - 2].x; }
      }
    }
  }

  /** One surface samples every station when its control points stay in [0, 1] and the stations lie in (0, 1]. */
  lemma SurfaceSamplesStations(m: MathLib, xc: seq<real>, y1: real, ps: seq<Point>, yEnd: real)
    requires |ps| >= 2 && IncreasingX(ps) && 0.0 <= ps[0].x && ps[|ps| - 1].x <= 1.0
    requires StrictlyIncreasing(xc) && forall i :: 0 <= i < |xc| ==> 0.0 < xc[i] <= 1.0
    ensures Xs(Curve(m, xc, Segments([Point(0.0, 0.0), Point(0.0, y1)] + ps + [Point(1.0, yEnd)]))) == xc
  {
    var cps := [Point(0.0, 0.0), Point(0.0, y1)] + ps + [Point(1.0, yEnd)];
    SurfaceControlsOrdered(y1, ps, yEnd);
    QuadraticBezierStations(m, xc, cps);
    WithinAll(xc, 0.0, 1.0);
  }

  /** The user's control points of one surface lie within the chord. */
  predicate InChord(ps: seq<Point>)
    requires |ps| >= 1
  {
    0.0 <= ps[0].x && ps[|ps| - 1].x <= 1.0
  }

  /**
   * When the stations increase strictly within (0, 1] and the control points
   * lie within the chord, each surface is sampled at every station exactly
   * once, so the outline's x coordinates are the stations from the trailing
   * edge to the nose, the nose 0, and the stations again back to the
   * trailing edge.
   */
  lemma BezierSamplesStations(m: MathLib, le: seq<real>, top: seq<Point>, bot: Option<seq<Point>>, te: real, npts: int, mode: SpacingMethod)
    requires BezierCheck(le, top, bot) == None
    requires InChord(top) && (bot.Some? ==> InChord(bot.value))
    requires var xc := Spacing(m, npts, mode);
      StrictlyIncreasing(xc) && forall i :: 0 <= i < |xc| ==> 0.0 < xc[i] <= 1.0
    ensures StationXs(BezierOutline(m, le, top, bot, te, npts, mode).0, Spacing(m, npts, mode))
  {
    var xc := Spacing(m, npts, mode);
    var t := TopCurve(m, le, top, te, xc);
    var b := BottomCurve(m, le, top, bot, te, xc);
    assert BezierOutline(m, le, top, bot, te, npts, mode) == Unzip(ReversePoints(t) + [Point(0.0, 0.0)] + b);
    CurvesSampleStations(m, le, top, bot, te, xc);
    StationsOutline(t, b, xc);
  }

  /** Both surfaces of a validated airfoil whose control points lie within the chord sample every station in (0, 1]. */
  lemma CurvesSampleStations(m: MathLib, le: seq<real>, top: seq<Point>, bot: Option<seq<Point>>, te: real, xc: seq<real>)
    requires BezierCheck(le, top, bot) == None
    requires InChord(top) && (bot.Some? ==> InChord(bot.value))
    requires StrictlyIncreasing(xc) && forall i :: 0 <= i < |xc| ==> 0.0 < xc[i] <= 1.0
    ensures Xs(TopCurve(m, le, top, te, xc)) == xc && Xs(BottomCurve(m, le, top, bot, te, xc)) == xc
  {
    TopSamplesStations(m, le, top, te, xc);
    match bot {
      case Some(bv) =>
        BottomSamplesStations(m, le, bv, te, xc);
      case None =>
        assert Xs(BottomCurve(m, le, top, bot, te, xc)) == Xs(TopCurve(m, le, top, te, xc));
    }
  }

  /** The upper curve samples every station in (0, 1]. */
  lemma TopSamplesStations(m: MathLib, le: seq<real>, top: seq<Point>, te: real, xc: seq<real>)
    requires (|le| == 1 || |le| == 2) && |top| >= 2 && IncreasingX(top) && InChord(top)
    requires StrictlyIncreasing(xc) && forall i :: 0 <= i < |xc| ==> 0.0 < xc[i] <= 1.0
    ensures Xs(TopCurve(m, le, top, te, xc)) == xc
  {
    var cps := [Point(0.0, 0.0), Point(0.0, Radii(le)[0])] + top + [Point(1.0, te / 2.0)];
    assert TopControls(Radii(le), top, te) == cps;
    SurfaceSamplesStations(m, xc, Radii(le)[0], top, te / 2.0);
  }

  /** The lower curve built from its own control points samples every station in (0, 1]. */
  lemma BottomSamplesStations(m: MathLib, le: seq<real>, bv: seq<Point>, te: real, xc: seq<real>)
    requires (|le| == 1 || |le| == 2) && |bv| >= 2 && IncreasingX(bv) && InChord(bv)
    requires StrictlyIncreasing(xc) && forall i :: 0 <= i < |xc| ==> 0.0 < xc[i] <= 1.0
    ensures Xs(Curve(m, xc, Segments(BottomControls(Radii(le), bv, te)))) == xc
  {
    var cps := [Point(0.0, 0.0), Point(0.0, -Radii(le)[1])] + bv + [Point(1.0, -te / 2.0)];
    assert BottomControls(Radii(le), bv, te) == cps;
    SurfaceSamplesStations(m, xc, -Radii(le)[1], bv, -te / 2.0);
  }


  /**
   * Outline x coordinates over stations xc: the stations from the last to
   * the first, the nose 0, then the stations again in order.
   */
  ghost predicate StationXs(x: seq<real>, xc: seq<real>) {
    var n := |xc|;
    && |x| == 2 * n + 1 && x[n] == 0.0
    && (forall k :: 0 <= k < n ==> x[k] == xc[n - 1 - k])
    && (forall k :: 0 <= k < n ==> x[n + 1 + k] == xc[k])
  }

  /** Two curves sampled at the same stations join into an outline whose x coordinates are those stations reversed, 0, then in order. */
  lemma StationsOutline(t: seq<Point>, b: seq<Point>, xc: seq<real>)
    requires Xs(t) == xc && Xs(b) == xc
    ensures StationXs(Unzip(ReversePoints(t) + [Point(0.0, 0.0)] + b).0, xc)
  {
    JoinedOutline(t, b);
  }

}
