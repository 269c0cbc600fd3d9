/** The NACA 5-digit generator "LPSTT" of NACA Report 537 (src/foillib/_naca5.py). */
module NacaFive {
  import opened Transcendentals
  import opened Common
  import opened NacaCommon

  /**
   * One entry of the camber-line table: the position p of maximum camber,
   * the break point r of the camber line, the scale k1 and, for a reflexed
   * line, the ratio k2/k1.
   */
  datatype Row =
    | Simple(p: real, r: real, k1: real)
    | Reflexed(p: real, r: real, k1: real, k2k1: real)

  /** The camber-line table, keyed by the camber type S and then by the three-digit profile "LPS". */
  const Prk1: map<int, map<string, Row>> := map[
    0 := map[
      "210" := Simple(0.05, 0.0580, 361.40),
      "220" := Simple(0.10, 0.1260, 51.640),
      "230" := Simple(0.15, 0.2025, 15.957),
      "240" := Simple(0.20, 0.2900, 6.643),
      "250" := Simple(0.25, 0.3910, 3.230)
    ],
    1 := map[
      "221" := Reflexed(0.05, 0.0580, 361.40, 0.000764),
      "231" := Reflexed(0.15, 0.2170, 15.793, 0.00677),
      "241" := Reflexed(0.20, 0.3180, 6.520, 0.0303),
      "251" := Reflexed(0.25, 0.4410, 3.191, 0.1355)
    ]
  ]

  /** The decimal character of a single digit. */
  function DigitChar(d: int): (c: char)
    requires 0 <= d <= 9
    ensures '0' <= c <= '9' && c as int - '0' as int == d
  {
    ('0' as int + d) as char
  }

  /** The profile key "LPS" of single digits L, P and S. */
  function Profile(L: int, P: int, S: int): string
    requires 0 <= L <= 9 && 0 <= P <= 9 && 0 <= S <= 9
  {
    [DigitChar(L), DigitChar(P), DigitChar(S)]
  }

  /**
   * The digits select a table entry. The source formats L, P and S into the
   * key and looks it up, raising KeyError when it is absent; every key has
   * three characters, so only single digits can match.
   */
  predicate InTable(L: int, P: int, S: int) {
    && 0 <= L <= 9 && 0 <= P <= 9 && 0 <= S <= 9
    && S in Prk1 && Profile(L, P, S) in Prk1[S]
  }

  /** The cubic part of the simple camber line, ahead of r. */
  function SimpleFore(r: real, k1: real, x: real): Camber {
    Camber(k1 / 6.0 * (x * x * x - 3.0 * r * x * x + r * r * (3.0 - r) * x),
           k1 / 6.0 * (3.0 * x * x - 6.0 * r * x + r * r * (3.0 - r)))
  }

  /** The straight part of the simple camber line, behind r. */
  function SimpleAft(r: real, k1: real, x: real): Camber {
    Camber(k1 * r * r * r / 6.0 * (1.0 - x), -(k1 * r * r * r / 6.0))
  }

  /** The simple camber line: a cubic up to r, then a straight line down to the trailing edge. */
  function SimpleCamber(r: real, k1: real, x: real): Camber {
    if x <= r then SimpleFore(r, k1, x) else SimpleAft(r, k1, x)
  }

  /** The fore cubic of the reflexed camber line, with k = k2/k1. */
  function ReflexedFore(r: real, k1: real, k: real, x: real): Camber {
    var s := 1.0 - r;
    Camber(k1 / 6.0 * ((x - r) * (x - r) * (x - r) - k * s * s * s * x - r * r * r * x + r * r * r),
           k1 / 6.0 * (3.0 * (x - r) * (x - r) - k * s * s * s - r * r * r))
  }

  /** The aft cubic of the reflexed camber line, its cubic term scaled by k = k2/k1. */
  function ReflexedAft(r: real, k1: real, k: real, x: real): Camber {
    var s := 1.0 - r;
    Camber(k1 / 6.0 * (k * (x - r) * (x - r) * (x - r) - k * s * s * s * x - r * r * r * x + r * r * r),
           k1 / 6.0 * (3.0 * k * (x - r) * (x - r) - k * s * s * s - r * r * r))
  }

  /** The reflexed camber line: two cubics joined at r. */
  function ReflexedCamber(r: real, k1: real, k: real, x: real): Camber {
    if x <= r then ReflexedFore(r, k1, k, x) else ReflexedAft(r, k1, k, x)
  }

  /** The camber line of a table entry: simple rows are those of S = 0, reflexed rows those of S = 1. */
  function Naca5Camber(row: Row, x: real): Camber {
    match row
    case Simple(_, r, k1) => SimpleCamber(r, k1, x)
    case Reflexed(_, r, k1, k) => ReflexedCamber(r, k1, k, x)
  }

  /** The surface points of a 5-digit profile, one per station. */
  function Naca5Points(tr: MathLib, row: Row, xc: seq<real>, yt: seq<real>): (pts: seq<SurfacePoints>)
    requires |yt| == |xc|
    ensures |pts| == |xc|
  {
    seq(|xc|, i requires 0 <= i < |xc| => Rotate(tr, xc[i], Naca5Camber(row, xc[i]), yt[i]))
  }

  /** The camber point of each station. */
  function Naca5Cambers(row: Row, xc: seq<real>): (cs: seq<Camber>)
    ensures |cs| == |xc|
  {
    seq(|xc|, i requires 0 <= i < |xc| => Naca5Camber(row, xc[i]))
  }

  /** The outline naca5 returns, as a pair of coordinate sequences. */
  function Naca5Outline(tr: MathLib, L: int, P: int, S: int, TT: int, npts: int, finiteTe: bool, mode: SpacingMethod): (seq<real>, seq<real>)
    requires InTable(L, P, S)
    requires npts > 0 || finiteTe
  {
    var xc := Spacing(tr, npts, mode);
    var yt := Thickness(tr, TT as real / 100.0, finiteTe, xc);
    CamberedOutline(Naca5Points(tr, Prk1[S][Profile(L, P, S)], xc, yt))
  }

  /**
   * The station loop of naca5: fills the four surface lists index by
   * index from the camber line and the half-thickness, then assembles them.
   */
  method Naca5Surfaces(tr: MathLib, row: Row, xc: seq<real>, yt: seq<real>) returns (x: seq<real>, y: seq<real>)
    requires |yt| == |xc|
    ensures (x, y) == CamberedOutline(Naca5Points(tr, row, xc, yt))
  {
    var n := |xc|;
    ghost var pts := Naca5Points(tr, row, xc, yt);
    var zeros := seq(n, _ => 0.0);
    var xu, yu, xl, yl := zeros, zeros, zeros, zeros;
    for i := 0 to n
      invariant |xu| == |yu| == |xl| == |yl| == n
      invariant forall j :: 0 <= j < i ==> SurfacePoints(xu[j], yu[j], xl[j], yl[j]) == pts[j]
    {
      var c := Naca5Camber(row, xc[i]);
      var s := Rotate(tr, xc[i], c, yt[i]);
      xu, yu, xl, yl := xu[i := s.xu], yu[i := s.yu], xl[i := s.xl], yl[i := s.yl];
    }
    x := Assemble(xu, xl);
    y := Assemble(yu, yl);
    ColumnsAssemble(xu, yu, xl, yl, pts);
  }

  /** naca5: looks up the camber parameters of "LPS", then runs the station loop. */
  method Naca5(tr: MathLib, L: int, P: int, S: int, TT: int, npts: int, finiteTe: bool, mode: SpacingMethod)
    returns (x: seq<real>, y: seq<real>)
    requires InTable(L, P, S)
    requires npts > 0 || finiteTe
    ensures (x, y) == Naca5Outline(tr, L, P, S, TT, npts, finiteTe, mode)
  {
    var t := TT as real / 100.0;
    var profile := Profile(L, P, S);
    var xc := Spacing(tr, npts, mode);
    var yt := ThicknessDistribution(tr, t, finiteTe, xc);
    var row := Prk1[S][profile];
    x, y := Naca5Surfaces(tr, row, xc, yt);
  }
}

/** Properties of the NACA 5-digit model. */
module NacaFiveProperties {
  import opened Transcendentals
  import opened Common
  import opened NacaCommon
  import opened NacaFive

  /**
   * The table has the camber types 0 and 1; type 0 holds exactly the simple
   * profiles 210 to 250, type 1 exactly the reflexed profiles 221 to 251.
   */
  lemma TableKeys()
    ensures Prk1.Keys == {0, 1}
    ensures Prk1[0].Keys == {"210", "220", "230", "240", "250"}
    ensures Prk1[1].Keys == {"221", "231", "241", "251"}
  {
  }

  /**
   * Every key has three characters and ends in the digit of its camber type;
   * its row is simple exactly for type 0, and its break point lies strictly
   * inside the chord.
   */
  lemma TableRows(S: int, key: string)
    requires S in Prk1 && key in Prk1[S]
    ensures |key| == 3 && key[2] == DigitChar(S)
    ensures Prk1[S][key].Simple? <==> S == 0
    ensures 0.0 < Prk1[S][key].r < 1.0
  {
    TableKeys();
  }

  /**
   * The simple camber line joins its straight part smoothly at r: the cubic
   * and the straight line agree there in ordinate, (k1 r^3 / 6)(1 - r), and
   * in slope, -k1 r^3 / 6.
   */
  lemma SimpleCamberContinuous(r: real, k1: real)
    ensures SimpleFore(r, k1, r) == SimpleAft(r, k1, r)
    ensures SimpleFore(r, k1, r).yc == k1 * r * r * r / 6.0 * (1.0 - r)
    ensures SimpleFore(r, k1, r).slope == -(k1 * r * r * r / 6.0)
  {
    assert r * r * r - 3.0 * r * r * r + r * r * (3.0 - r) * r == r * r * r * (1.0 - r);
    assert 3.0 * r * r - 6.0 * r * r + r * r * (3.0 - r) == -(r * r * r);
  }

  /**
   * The simple camber line starts at the leading edge; behind r it falls
   * with the constant slope -k1 r^3 / 6 and reaches the chord at x = 1.
   */
  lemma SimpleCamberEnds(r: real, k1: real)
    requires 0.0 < r < 1.0
    ensures SimpleCamber(r, k1, 0.0).yc == 0.0
    ensures SimpleCamber(r, k1, 1.0).yc == 0.0
    ensures forall x1, x2 :: r < x1 && r < x2 ==>
      SimpleCamber(r, k1, x2).yc - SimpleCamber(r, k1, x1).yc == -(k1 * r * r * r / 6.0) * (x2 - x1)
    ensures forall x :: r < x ==> SimpleCamber(r, k1, x).slope == -(k1 * r * r * r / 6.0)
  {
  }

  /** The two cubics of the reflexed camber line agree in ordinate and slope at r. */
  lemma ReflexedCamberContinuous(r: real, k1: real, k: real)
    ensures ReflexedFore(r, k1, k, r) == ReflexedAft(r, k1, k, r)
  {
  }

  /** The reflexed camber line vanishes at both ends of the chord. */
  lemma ReflexedCamberEnds(r: real, k1: real, k: real)
    requires 0.0 < r < 1.0
    ensures ReflexedCamber(r, k1, k, 0.0).yc == 0.0
    ensures ReflexedCamber(r, k1, k, 1.0).yc == 0.0
  {
    var s := 1.0 - r;
    assert (0.0 - r) * (0.0 - r) * (0.0 - r) == -(r * r * r);
    assert (1.0 - r) * (1.0 - r) * (1.0 - r) == s * s * s;
  }

  /** Every table entry gives a camber line through both ends of the chord. */
  lemma Naca5CamberEnds(S: int, key: string)
    requires S in Prk1 && key in Prk1[S]
    ensures Naca5Camber(Prk1[S][key], 0.0).yc == 0.0
    ensures Naca5Camber(Prk1[S][key], 1.0).yc == 0.0
  {
    TableRows(S, key);
    var row := Prk1[S][key];
    match row
    case Simple(_, r, k1) => SimpleCamberEnds(r, k1);
    case Reflexed(_, r, k1, k) => ReflexedCamberEnds(r, k1, k);
  }

  /** The tabulated position p of maximum camber is fetched but never affects the camber line. */
  lemma Naca5IgnoresP(tr: MathLib, row: Row, q: real, xc: seq<real>, yt: seq<real>)
    requires |yt| == |xc|
    ensures Naca5Points(tr, row.(p := q), xc, yt) == Naca5Points(tr, row, xc, yt)
  {
    forall x ensures Naca5Camber(row.(p := q), x) == Naca5Camber(row, x) {
    }
  }

  /**
   * The 5-digit outline has 2n+1 points with the leading edge (0,0) at index
   * n; index n-1-k holds the upper and index n+1+k the lower point of
   * station k, and each such pair is symmetric about the camber point of
   * that station.
   */
  lemma Naca5Shape(tr: MathLib, L: int, P: int, S: int, TT: int, npts: int, finiteTe: bool, mode: SpacingMethod)
    requires InTable(L, P, S) && (npts > 0 || finiteTe)
    ensures var o := Naca5Outline(tr, L, P, S, TT, npts, finiteTe, mode);
      var xc := Spacing(tr, npts, mode);
      var yt := Thickness(tr, TT as real / 100.0, finiteTe, xc);
      var row := Prk1[S][Profile(L, P, S)];
      var pts := Naca5Points(tr, row, xc, yt);
      && |o.0| == 2 * |xc| + 1 && |o.1| == 2 * |xc| + 1
      && o.0[|xc|] == 0.0 && o.1[|xc|] == 0.0
      && (forall k :: 0 <= k < |xc| ==> StationAt(o.0, o.1, pts, k))
      && (forall k :: 0 <= k < |xc| ==> PairAbout(o.0, o.1, xc, Naca5Cambers(row, xc), k))
  {
    var xc := Spacing(tr, npts, mode);
    var yt := Thickness(tr, TT as real / 100.0, finiteTe, xc);
    var row := Prk1[S][Profile(L, P, S)];
    assert Naca5Outline(tr, L, P, S, TT, npts, finiteTe, mode) == CamberedOutline(Naca5Points(tr, row, xc, yt));
    RowOutline(tr, row, xc, yt);
  }

  /** The shape of Naca5Shape for any one row of the table. */
  lemma RowOutline(tr: MathLib, row: Row, xc: seq<real>, yt: seq<real>)
    requires |yt| == |xc|
    ensures var pts := Naca5Points(tr, row, xc, yt);
      var o := CamberedOutline(pts);
      && |o.0| == 2 * |xc| + 1 && |o.1| == 2 * |xc| + 1
      && o.0[|xc|] == 0.0 && o.1[|xc|] == 0.0
      && (forall k :: 0 <= k < |xc| ==> StationAt(o.0, o.1, pts, k))
      && (forall k :: 0 <= k < |xc| ==> PairAbout(o.0, o.1, xc, Naca5Cambers(row, xc), k))
  {
    var pts := Naca5Points(tr, row, xc, yt);
    CamberedStations(pts);
    PlacedSymmetry(tr, xc, yt, Naca5Cambers(row, xc), pts);
  }

  /**
   * With a sharp trailing edge both ends of the 5-digit outline lie exactly
   * on the chord line.
   */
  lemma Naca5SharpTrailingEdge(tr: MathLib, L: int, P: int, S: int, TT: int, npts: int, mode: SpacingMethod)
    requires CosLaws(tr) && InTable(L, P, S) && npts > 0
    ensures var o := Naca5Outline(tr, L, P, S, TT, npts, false, mode);
      o.1[0] == 0.0 && o.1[2 * npts] == 0.0
  {
    var xc := Spacing(tr, npts, mode);
    var yt := Thickness(tr, TT as real / 100.0, false, xc);
    var row := Prk1[S][Profile(L, P, S)];
    assert Naca5Outline(tr, L, P, S, TT, npts, false, mode) == CamberedOutline(Naca5Points(tr, row, xc, yt));
    SpacingEndsAtOne(tr, npts, mode);
    Naca5CamberEnds(S, Profile(L, P, S));
    SharpLastStation(tr, row, xc, yt);
  }

  /** With the last station at the trailing edge and zero half-thickness there, both ends of the outline lie on the chord. */
  lemma SharpLastStation(tr: MathLib, row: Row, xc: seq<real>, yt: seq<real>)
    requires |xc| > 0 && |yt| == |xc| && Naca5Camber(row, 1.0).yc == 0.0
    requires xc[|xc| - 1] == 1.0 && yt[|xc| - 1] == 0.0
    ensures var o := CamberedOutline(Naca5Points(tr, row, xc, yt));
      o.1[0] == 0.0 && o.1[2 * |xc|] == 0.0
  {
    var n := |xc|;
    var pts := Naca5Points(tr, row, xc, yt);
    assert pts[n - 1] == Rotate(tr, 1.0, Naca5Camber(row, 1.0), 0.0);
    CamberedEnds(pts);
  }

  /**
   * The trailing-edge thickness the tests expect of a 5-digit profile such
   * as "24012": the camber line ends on the chord, so with a finite trailing
   * edge and a positive thickness the first point lies above the chord and
   * the last below it.
   */
  lemma Naca5FiniteTrailingEdge(tr: MathLib, L: int, P: int, S: int, TT: int, npts: int, mode: SpacingMethod)
    requires Lawful(tr) && AtanLaws(tr) && InTable(L, P, S) && TT > 0 && npts > 0
    ensures var o := Naca5Outline(tr, L, P, S, TT, npts, true, mode);
      o.1[0] > 0.0 && o.1[2 * npts] < 0.0
  {
    var t := TT as real / 100.0;
    var xc := Spacing(tr, npts, mode);
    var yt := Thickness(tr, t, true, xc);
    var row := Prk1[S][Profile(L, P, S)];
    assert Naca5Outline(tr, L, P, S, TT, npts, true, mode) == CamberedOutline(Naca5Points(tr, row, xc, yt));
    SpacingEndsAtOne(tr, npts, mode);
    FiniteTrailingEdgeThickness(tr, t, xc);
    Naca5CamberEnds(S, Profile(L, P, S));
    CamberedLastStation(tr, row, xc, yt);
  }

  /**
   * With the last station at the trailing edge, where the camber line meets
   * the chord, and a positive half-thickness there, the first point of the
   * outline lies above the chord and the last below it.
   */
  lemma CamberedLastStation(tr: MathLib, row: Row, xc: seq<real>, yt: seq<real>)
    requires AtanLaws(tr) && |xc| > 0 && |yt| == |xc| && Naca5Camber(row, 1.0).yc == 0.0
    requires xc[|xc| - 1] == 1.0 && yt[|xc| - 1] > 0.0
    ensures var o := CamberedOutline(Naca5Points(tr, row, xc, yt));
      o.1[0] > 0.0 && o.1[2 * |xc|] < 0.0
  {
    var n := |xc|;
    var c := Naca5Camber(row, 1.0);
    var pts := Naca5Points(tr, row, xc, yt);
    assert pts[n - 1] == Rotate(tr, 1.0, c, yt[n - 1]);
    TrailingEdgePoints(tr, c, yt[n - 1]);
    CamberedEnds(pts);
  }
}
