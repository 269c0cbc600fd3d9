/** The NACA 4-digit generator "MPXX" of NACA Report 460 (src/foillib/_naca4.py). */
module NacaFour {
  import opened Transcendentals
  import opened Common
  import opened NacaCommon

  /** The camber line ahead of its maximum (x <= p); m / p^2 is written m / p / p. */
  function ForeCamber(m: real, p: real, x: real): Camber
    requires p != 0.0
  {
    Camber(m / p / p * (2.0 * p * x - x * x), 2.0 * m / p / p * (p - x))
  }

  /** The camber line behind its maximum (x > p); m / (1 - p)^2 is written m / (1 - p) / (1 - p). */
  function AftCamber(m: real, p: real, x: real): Camber
    requires p != 1.0
  {
    Camber(m / (1.0 - p) / (1.0 - p) * ((1.0 - 2.0 * p) + 2.0 * p * x - x * x), 2.0 * m / (1.0 - p) / (1.0 - p) * (p - x))
  }

  /** The two-branch parabolic camber line with maximum m at x = p. */
  function Naca4Camber(m: real, p: real, x: real): Camber
    requires p != 0.0 && (x > p ==> p != 1.0)
  {
    if x <= p then ForeCamber(m, p, x) else AftCamber(m, p, x)
  }

  /** Stations no further aft than the trailing edge never reach a division by (1 - p)^2 = 0 when p = 1. */
  ghost predicate InChord(xc: seq<real>) {
    forall i :: 0 <= i < |xc| ==> NotAft(xc, i)
  }

  /** Station i lies no further aft than the trailing edge. */
  ghost predicate NotAft(xc: seq<real>, i: int)
    requires 0 <= i < |xc|
  {
    xc[i] <= 1.0
  }

  /** The surface points of a cambered profile, one per station. */
  function Naca4Points(tr: MathLib, m: real, p: real, xc: seq<real>, yt: seq<real>): (pts: seq<SurfacePoints>)
    requires p != 0.0 && (p == 1.0 ==> InChord(xc)) && |yt| == |xc|
    ensures |pts| == |xc|
  {
    seq(|xc|, i requires 0 <= i < |xc| => assert p == 1.0 ==> NotAft(xc, i); Rotate(tr, xc[i], Naca4Camber(m, p, xc[i]), yt[i]))
  }

  /** The camber point of each station. */
  function Naca4Cambers(m: real, p: real, xc: seq<real>): (cs: seq<Camber>)
    requires p != 0.0 && (p == 1.0 ==> InChord(xc))
    ensures |cs| == |xc|
  {
    seq(|xc|, i requires 0 <= i < |xc| => assert p == 1.0 ==> NotAft(xc, i); Naca4Camber(m, p, xc[i]))
  }

  /** The outline naca4 returns, as a pair of coordinate sequences. */
  function Naca4Outline(tr: MathLib, M: int, P: int, XX: int, npts: int, finiteTe: bool, mode: SpacingMethod): (seq<real>, seq<real>)
    requires P == 10 ==> CosLaws(tr)
    requires npts > 0 || finiteTe
  {
    var xc := Spacing(tr, npts, mode);
    var yt := Thickness(tr, XX as real / 100.0, finiteTe, xc);
    if P == 0 then SymmetricOutline(xc, yt)
    else
      var p := P as real / 10.0;
      assert p == 1.0 ==> InChord(xc) by {
        if P == 10 { SpacingInUnit(tr, npts, mode); }
      }
      CamberedOutline(Naca4Points(tr, M as real / 100.0, p, xc, yt))
  }

  /**
   * The station loop of naca4: fills the four surface lists index by
   * index from the camber line and the half-thickness, then assembles them.
   */
  method Naca4Surfaces(tr: MathLib, m: real, p: real, xc: seq<real>, yt: seq<real>) returns (x: seq<real>, y: seq<real>)
    requires p != 0.0 && (p == 1.0 ==> InChord(xc)) && |yt| == |xc|
    ensures (x, y) == CamberedOutline(Naca4Points(tr, m, p, xc, yt))
  {
    var n := |xc|;
    ghost var pts := Naca4Points(tr, m, p, xc, yt);
    var zeros := seq(n, _ => 0.0);
    var xu, yu, xl, yl := zeros, zeros, zeros, zeros;
    for i := 0 to n
      invariant |xu| == |yu| == |xl| == |yl| == n
      invariant forall j :: 0 <= j < i ==> SurfacePoints(xu[j], yu[j], xl[j], yl[j]) == pts[j]
    {
      assert p == 1.0 ==> NotAft(xc, i);
      var c := Naca4Camber(m, p, xc[i]);
      var s := Rotate(tr, xc[i], c, yt[i]);
      xu, yu, xl, yl := xu[i := s.xu], yu[i := s.yu], xl[i := s.xl], yl[i := s.yl];
    }
    x := Assemble(xu, xl);
    y := Assemble(yu, yl);
    ColumnsAssemble(xu, yu, xl, yl, pts);
  }

  /**
   * naca4: a symmetric profile is assembled directly from the stations and
   * half-thicknesses; a cambered one goes through the station loop.
   */
  method Naca4(tr: MathLib, M: int, P: int, XX: int, npts: int, finiteTe: bool, mode: SpacingMethod)
    returns (x: seq<real>, y: seq<real>)
    requires P == 10 ==> CosLaws(tr)
    requires npts > 0 || finiteTe
    ensures (x, y) == Naca4Outline(tr, M, P, XX, npts, finiteTe, mode)
  {
    var t := XX as real / 100.0;
    var xc := Spacing(tr, npts, mode);
    var yt := ThicknessDistribution(tr, t, finiteTe, xc);
    if P == 0 {
      x := Assemble(xc, xc);
      y := Assemble(yt, Negate(yt));
      return;
    }
    var m := M as real / 100.0;
    var p := P as real / 10.0;
    if P == 10 {
      SpacingInUnit(tr, npts, mode);
    }
    x, y := Naca4Surfaces(tr, m, p, xc, yt);
  }
}

/** Properties of the NACA 4-digit model. */
module NacaFourProperties {
  import opened Transcendentals
  import opened Common
  import opened NacaCommon
  import opened NacaFour

  /**
   * Both branches of naca4 give 2n+1 points with the leading edge (0,0) at
   * index n, the upper surface reversed before it and the lower surface in
   * station order after it.
   */
  lemma Naca4Shape(tr: MathLib, M: int, P: int, XX: int, npts: int, finiteTe: bool, mode: SpacingMethod)
    requires (P == 10 ==> CosLaws(tr)) && (npts > 0 || finiteTe)
    ensures var (x, y) := Naca4Outline(tr, M, P, XX, npts, finiteTe, mode);
      var n := if npts > 0 then npts else 0;
      && |x| == 2 * n + 1 && |y| == 2 * n + 1
      && x[n] == 0.0 && y[n] == 0.0
  {
  }

  /**
   * A symmetric profile (P = 0) is the stations reversed, 0, the stations;
   * its y is the thickness reversed, 0, the thickness negated, so x is
   * mirrored and y is odd about the centre index n.
   */
  lemma Naca4Symmetric(tr: MathLib, M: int, XX: int, npts: int, finiteTe: bool, mode: SpacingMethod)
    requires npts > 0 || finiteTe
    ensures var (x, y) := Naca4Outline(tr, M, 0, XX, npts, finiteTe, mode);
      var xc := Spacing(tr, npts, mode);
      var n := |xc|;
      var yt := Thickness(tr, XX as real / 100.0, finiteTe, xc);
      && x == Reverse(xc) + [0.0] + xc
      && |y| == 2 * n + 1 && y[n] == 0.0
      && (forall k :: 0 <= k < n ==> y[n - 1 - k] == yt[k] && y[n + 1 + k] == -yt[k])
      && (forall i, j :: 0 <= i < j < |x| && i + j == 2 * n ==> x[i] == x[j])
      && (forall i, j :: 0 <= i < j < |y| && i + j == 2 * n ==> y[i] == -y[j])
  {
    var xc := Spacing(tr, npts, mode);
    AssembleMirror(xc);
    AssembleAntiMirror(Thickness(tr, XX as real / 100.0, finiteTe, xc));
  }

  /**
   * A cambered profile places, for every station k, the upper point at
   * index n-1-k and the lower point at index n+1+k, and the two are
   * symmetric about the camber point of that station whatever the angle.
   */
  lemma Naca4Cambered(tr: MathLib, M: int, P: int, XX: int, npts: int, finiteTe: bool, mode: SpacingMethod)
    requires 1 <= P <= 9 && (npts > 0 || finiteTe)
    ensures var o := Naca4Outline(tr, M, P, XX, npts, finiteTe, mode);
      var xc := Spacing(tr, npts, mode);
      var yt := Thickness(tr, XX as real / 100.0, finiteTe, xc);
      var m, p := M as real / 100.0, P as real / 10.0;
      var pts := Naca4Points(tr, m, p, xc, yt);
      && |o.0| == 2 * |xc| + 1 && |o.1| == 2 * |xc| + 1
      && o.0[|xc|] == 0.0 && o.1[|xc|] == 0.0
      && (forall k :: 0 <= k < |xc| ==> StationAt(o.0, o.1, pts, k))
      && (forall k :: 0 <= k < |xc| ==> PairAbout(o.0, o.1, xc, Naca4Cambers(m, p, xc), k))
  {
    var xc := Spacing(tr, npts, mode);
    var yt := Thickness(tr, XX as real / 100.0, finiteTe, xc);
    var m, p := M as real / 100.0, P as real / 10.0;
    assert 0.0 < p < 1.0;
    assert Naca4Outline(tr, M, P, XX, npts, finiteTe, mode) == CamberedOutline(Naca4Points(tr, m, p, xc, yt));
    CamberedPlacement(tr, m, p, xc, yt);
  }

  /** The shape of Naca4Cambered for any camber m and position 0 < p < 1. */
  lemma CamberedPlacement(tr: MathLib, m: real, p: real, xc: seq<real>, yt: seq<real>)
    requires 0.0 < p < 1.0 && |yt| == |xc|
    ensures var pts := Naca4Points(tr, m, p, xc, yt);
      var o := CamberedOutline(pts);
      && |o.0| == 2 * |xc| + 1 && |o.1| == 2 * |xc| + 1
      && o.0[|xc|] == 0.0 && o.1[|xc|] == 0.0
      && (forall k :: 0 <= k < |xc| ==> StationAt(o.0, o.1, pts, k))
      && (forall k :: 0 <= k < |xc| ==> PairAbout(o.0, o.1, xc, Naca4Cambers(m, p, xc), k))
  {
    var pts := Naca4Points(tr, m, p, xc, yt);
    CamberedStations(pts);
    PlacedSymmetry(tr, xc, yt, Naca4Cambers(m, p, xc), pts);
  }

  /** When P = 0 the camber digit M has no effect on the outline. */
  lemma Naca4SymmetricIgnoresM(tr: MathLib, M1: int, M2: int, XX: int, npts: int, finiteTe: bool, mode: SpacingMethod)
    requires npts > 0 || finiteTe
    ensures Naca4Outline(tr, M1, 0, XX, npts, finiteTe, mode) == Naca4Outline(tr, M2, 0, XX, npts, finiteTe, mode)
  {
  }

  /**
   * The camber line is continuous at its maximum x = p: both branches give
   * the ordinate m and a zero gradient there.
   */
  lemma Naca4CamberContinuous(m: real, p: real)
    requires p != 0.0 && p != 1.0
    ensures ForeCamber(m, p, p) == Camber(m, 0.0)
    ensures AftCamber(m, p, p) == Camber(m, 0.0)
  {
    assert m / p / p * (2.0 * p * p - p * p) == m by {
      assert 2.0 * p * p - p * p == p * p;
      assert m / p * p == m;
      assert m / p / p * p == m / p;
    }
    var q := 1.0 - p;
    assert m / q / q * ((1.0 - 2.0 * p) + 2.0 * p * p - p * p) == m by {
      assert (1.0 - 2.0 * p) + 2.0 * p * p - p * p == q * q;
      assert m / q * q == m;
      assert m / q / q * q == m / q;
    }
  }

  /** The camber line vanishes at both ends of the chord. */
  lemma Naca4CamberEnds(m: real, p: real)
    requires p != 0.0 && p != 1.0
    ensures ForeCamber(m, p, 0.0).yc == 0.0
    ensures AftCamber(m, p, 1.0).yc == 0.0
  {
  }

  /** A zero maximum camber m gives a flat camber line with zero gradient everywhere. */
  lemma Naca4FlatCamber(p: real)
    requires p != 0.0 && p != 1.0
    ensures forall x :: Naca4Camber(0.0, p, x) == Camber(0.0, 0.0)
  {
    assert 0.0 / (1.0 - p) == 0.0;
  }

  /**
   * The trailing-edge thickness the tests expect of a symmetric profile such
   * as "0012": with a finite trailing edge and a positive thickness the first
   * point lies above the chord and the last below it.
   */
  lemma Naca4SymmetricTrailingEdge(tr: MathLib, M: int, XX: int, npts: int, mode: SpacingMethod)
    requires Lawful(tr) && XX > 0 && npts > 0
    ensures var o := Naca4Outline(tr, M, 0, XX, npts, true, mode);
      o.1[0] > 0.0 && o.1[2 * npts] < 0.0
  {
    var t := XX as real / 100.0;
    var xc := Spacing(tr, npts, mode);
    var yt := Thickness(tr, t, true, xc);
    assert Naca4Outline(tr, M, 0, XX, npts, true, mode) == SymmetricOutline(xc, yt);
    SpacingEndsAtOne(tr, npts, mode);
    FiniteTrailingEdgeThickness(tr, t, xc);
    SymmetricEnds(xc, yt);
  }

  /**
   * With a sharp trailing edge both ends of the outline lie exactly on the
   * chord line, symmetric or cambered (P a single digit).
   */
  lemma Naca4SharpTrailingEdge(tr: MathLib, M: int, P: int, XX: int, npts: int, mode: SpacingMethod)
    requires CosLaws(tr) && 0 <= P <= 9 && npts > 0
    ensures var o := Naca4Outline(tr, M, P, XX, npts, false, mode);
      o.1[0] == 0.0 && o.1[2 * npts] == 0.0
  {
    var xc := Spacing(tr, npts, mode);
    var yt := Thickness(tr, XX as real / 100.0, false, xc);
    SpacingEndsAtOne(tr, npts, mode);
    assert yt[npts - 1] == 0.0;
    if P == 0 {
      assert Naca4Outline(tr, M, P, XX, npts, false, mode) == SymmetricOutline(xc, yt);
      SymmetricEnds(xc, yt);
    } else {
      var m, p := M as real / 100.0, P as real / 10.0;
      assert 0.0 < p < 1.0;
      assert Naca4Outline(tr, M, P, XX, npts, false, mode) == CamberedOutline(Naca4Points(tr, m, p, xc, yt));
      SharpLastStation(tr, m, p, xc, yt);
    }
  }

  /** With the last station at the trailing edge and zero half-thickness there, a cambered outline starts and ends on the chord. */
  lemma SharpLastStation(tr: MathLib, m: real, p: real, xc: seq<real>, yt: seq<real>)
    requires 0.0 < p < 1.0 && |xc| > 0 && |yt| == |xc|
    requires xc[|xc| - 1] == 1.0 && yt[|xc| - 1] == 0.0
    ensures var o := CamberedOutline(Naca4Points(tr, m, p, xc, yt));
      o.1[0] == 0.0 && o.1[2 * |xc|] == 0.0
  {
    var n := |xc|;
    var pts := Naca4Points(tr, m, p, xc, yt);
    Naca4CamberEnds(m, p);
    assert pts[n - 1] == Rotate(tr, 1.0, AftCamber(m, p, 1.0), 0.0);
    CamberedEnds(pts);
  }

  /**
   * The trailing-edge thickness the tests expect also holds for a cambered
   * profile: the camber line ends on the chord, so with a finite trailing
   * edge the first point lies above it and the last below it.
   */
  lemma Naca4CamberedTrailingEdge(tr: MathLib, M: int, P: int, XX: int, npts: int, mode: SpacingMethod)
    requires Lawful(tr) && AtanLaws(tr) && 1 <= P <= 9 && XX > 0 && npts > 0
    ensures var o := Naca4Outline(tr, M, P, XX, npts, true, mode);
      o.1[0] > 0.0 && o.1[2 * npts] < 0.0
  {
    SpacingEndsAtOne(tr, npts, mode);
    CamberedForm(tr, M, P, XX, npts, true, mode);
    FiniteCamberedEnds(tr, XX as real / 100.0, M as real / 100.0, P as real / 10.0, Spacing(tr, npts, mode));
  }

  /** For a single camber digit P, naca4 builds the cambered outline of m = M/100 and p = P/10. */
  lemma CamberedForm(tr: MathLib, M: int, P: int, XX: int, npts: int, finiteTe: bool, mode: SpacingMethod)
    requires 1 <= P <= 9 && (npts > 0 || finiteTe)
    ensures var xc := Spacing(tr, npts, mode);
      var yt := Thickness(tr, XX as real / 100.0, finiteTe, xc);
      var p := P as real / 10.0;
      && 0.0 < p < 1.0
      && Naca4Outline(tr, M, P, XX, npts, finiteTe, mode) == CamberedOutline(Naca4Points(tr, M as real / 100.0, p, xc, yt))
  {
  }

  /** Naca4CamberedTrailingEdge for any stations ending at the trailing edge. */
  lemma FiniteCamberedEnds(tr: MathLib, t: real, m: real, p: real, xc: seq<real>)
    requires SqrtLaws(tr) && AtanLaws(tr) && t > 0.0 && 0.0 < p < 1.0
    requires |xc| > 0 && xc[|xc| - 1] == 1.0
    ensures var o := CamberedOutline(Naca4Points(tr, m, p, xc, Thickness(tr, t, true, xc)));
      o.1[0] > 0.0 && o.1[2 * |xc|] < 0.0
  {
    FiniteTrailingEdgeThickness(tr, t, xc);
    CamberedLastStation(tr, m, p, xc, Thickness(tr, t, true, xc));
  }

  /**
   * With the last station at the trailing edge and a positive half-thickness
   * there, the first point of a cambered outline lies above the chord and
   * the last below it.
   */
  lemma CamberedLastStation(tr: MathLib, m: real, p: real, xc: seq<real>, yt: seq<real>)
    requires AtanLaws(tr) && 0.0 < p < 1.0 && |xc| > 0 && |yt| == |xc|
    requires xc[|xc| - 1] == 1.0 && yt[|xc| - 1] > 0.0
    ensures var o := CamberedOutline(Naca4Points(tr, m, p, xc, yt));
      o.1[0] > 0.0 && o.1[2 * |xc|] < 0.0
  {
    var n := |xc|;
    var c := AftCamber(m, p, 1.0);
    var pts := Naca4Points(tr, m, p, xc, yt);
    Naca4CamberEnds(m, p);
    assert pts[n - 1] == Rotate(tr, 1.0, c, yt[n - 1]);
    TrailingEdgePoints(tr, c, yt[n - 1]);
    CamberedEnds(pts);
  }
}
