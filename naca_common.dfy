/**
 * The half-thickness polynomial shared by the NACA 4- and 5-digit families
 * (src/foillib/_naca_common.py), and the surface-placement and outline
 * assembly steps that both generators perform in the same way
 * (src/foillib/_naca4.py and src/foillib/_naca5.py).
 */
module NacaCommon {
  import opened Transcendentals

  // The thickness-polynomial coefficients of NACA Report 460.
  const A0: real := 0.2969
  const A1: real := -0.1260
  const A2: real := -0.3516
  const A3: real := 0.2843

  /** The first four terms of the thickness polynomial. */
  function A0123(m: MathLib, x: real): real {
    A0 * m.sqrt(x) + A1 * x + A2 * x * x + A3 * x * x * x
  }

  /** The quartic coefficient: the finite trailing edge keeps the smaller magnitude. */
  function A4(finiteTe: bool): real {
    if finiteTe then -0.1015 else -0.1036
  }

  /** The half-thickness of a profile of thickness ratio t at station x. */
  function HalfThickness(m: MathLib, t: real, finiteTe: bool, x: real): real {
    5.0 * t * (A0123(m, x) + A4(finiteTe) * x * x * x * x)
  }

  /**
   * The half-thickness sequence: the polynomial at every station, with the
   * last element forced to 0 when the trailing edge is sharp. Overwriting the
   * last element of an empty list is an index error in the source, hence
   * the precondition.
   */
  function Thickness(m: MathLib, t: real, finiteTe: bool, xc: seq<real>): (yt: seq<real>)
    requires finiteTe || |xc| > 0
    ensures |yt| == |xc|
  {
    seq(|xc|, i requires 0 <= i < |xc| =>
      if !finiteTe && i == |xc| - 1 then 0.0 else HalfThickness(m, t, finiteTe, xc[i]))
  }

  /**
   * thickness_distribution: evaluates the polynomial into a fresh buffer,
   * then overwrites its last element in place for a sharp trailing edge.
   */
  method ThicknessDistribution(m: MathLib, t: real, finiteTe: bool, xc: seq<real>) returns (yt: seq<real>)
    requires finiteTe || |xc| > 0
    ensures yt == Thickness(m, t, finiteTe, xc)
  {
    var buf := new real[|xc|](i requires 0 <= i < |xc| => HalfThickness(m, t, finiteTe, xc[i]));
    if !finiteTe {
      buf[buf.Length - 1] := 0.0;
    }
    yt := buf[..];
    assert forall i :: 0 <= i < |xc| ==> yt[i] == Thickness(m, t, finiteTe, xc)[i];
  }

  /**
   * What the trailing-edge override does: the result has one element per
   * station; only the last element is touched, and only for a sharp trailing
   * edge, where it becomes exactly 0; every other element is the polynomial
   * at its own station.
   */
  lemma ThicknessOverride(m: MathLib, t: real, finiteTe: bool, xc: seq<real>)
    requires finiteTe || |xc| > 0
    ensures var yt := Thickness(m, t, finiteTe, xc);
      && |yt| == |xc|
      && (forall i :: 0 <= i < |xc| && (finiteTe || i < |xc| - 1) ==> yt[i] == HalfThickness(m, t, finiteTe, xc[i]))
      && (!finiteTe ==> yt[|xc| - 1] == 0.0)
  {
  }

  /** A zero thickness ratio gives zero half-thickness everywhere. */
  lemma ZeroThickness(m: MathLib, finiteTe: bool, xc: seq<real>)
    requires finiteTe || |xc| > 0
    ensures forall i :: 0 <= i < |xc| ==> Thickness(m, 0.0, finiteTe, xc)[i] == 0.0
  {
  }

  /**
   * At the trailing edge x = 1 the four fixed coefficients sum to 0.1036:
   * the sharp-edge coefficient cancels them exactly, while the finite-edge
   * coefficient leaves 5t * 0.0021, positive for a positive thickness.
   */
  lemma TrailingEdgeHalfThickness(m: MathLib, t: real)
    requires SqrtLaws(m)
    ensures A0 + A1 + A2 + A3 + A4(false) == 0.0
    ensures HalfThickness(m, t, false, 1.0) == 0.0
    ensures HalfThickness(m, t, true, 1.0) == 5.0 * t * 0.0021
    ensures t > 0.0 ==> HalfThickness(m, t, true, 1.0) > 0.0
  {
    assert A0123(m, 1.0) == A0 + A1 + A2 + A3;
  }

  /**
   * With a finite trailing edge, a positive thickness and the last station
   * at x = 1, the last half-thickness is positive.
   */
  lemma FiniteTrailingEdgeThickness(m: MathLib, t: real, xc: seq<real>)
    requires SqrtLaws(m) && t > 0.0 && |xc| > 0 && xc[|xc| - 1] == 1.0
    ensures Thickness(m, t, true, xc)[|xc| - 1] > 0.0
  {
    TrailingEdgeHalfThickness(m, t);
  }

  /** The mean-camber ordinate and its gradient at one station. */
  datatype Camber = Camber(yc: real, slope: real)

  /** The upper and lower surface points placed about one camber point. */
  datatype SurfacePoints = SurfacePoints(xu: real, yu: real, xl: real, yl: real)

  /**
   * Places the half-thickness perpendicular to the camber line, at the angle
   * atan(slope). Whatever sin and cos return, the two surface points are
   * mirror images through the camber point, and with zero half-thickness
   * both coincide with it.
   */
  function Rotate(m: MathLib, x: real, c: Camber, yt: real): (s: SurfacePoints)
    ensures s.xu + s.xl == 2.0 * x && s.yu + s.yl == 2.0 * c.yc
    ensures yt == 0.0 ==> s == SurfacePoints(x, c.yc, x, c.yc)
  {
    var theta := m.atan(c.slope);
    SurfacePoints(x - yt * m.sin(theta), c.yc + yt * m.cos(theta),
                  x + yt * m.sin(theta), c.yc - yt * m.cos(theta))
  }

  /** Python's s[::-1]. */
  function Reverse(s: seq<real>): (r: seq<real>)
    ensures |r| == |s|
  {
    seq(|s|, i requires 0 <= i < |s| => s[|s| - 1 - i])
  }

  /** Element-wise negation, [-v for v in s]. */
  function Negate(s: seq<real>): (r: seq<real>)
    ensures |r| == |s|
  {
    seq(|s|, i requires 0 <= i < |s| => -s[i])
  }

  /**
   * One coordinate of the outline: the upper-surface values reversed (from
   * trailing edge to leading edge), the leading-edge 0, then the lower-surface
   * values in station order. The leading edge sits at index |upper|; index
   * k before it holds upper value |upper|-1-k, index |upper|+1+k holds lower
   * value k.
   */
  function Assemble(upper: seq<real>, lower: seq<real>): (r: seq<real>)
    ensures |r| == |upper| + 1 + |lower|
    ensures r[|upper|] == 0.0
    ensures forall k :: 0 <= k < |upper| ==> r[k] == upper[|upper| - 1 - k]
    ensures forall k :: 0 <= k < |lower| ==> r[|upper| + 1 + k] == lower[k]
  {
    Reverse(upper) + [0.0] + lower
  }

  /** The outline of a symmetric profile: the stations on both sides, half-thickness above and below. */
  function SymmetricOutline(xc: seq<real>, yt: seq<real>): (r: (seq<real>, seq<real>))
    ensures |r.0| == 2 * |xc| + 1 && |r.1| == 2 * |yt| + 1
  {
    (Assemble(xc, xc), Assemble(yt, Negate(yt)))
  }

  /** The outline of a cambered profile from its per-station surface points. */
  function CamberedOutline(pts: seq<SurfacePoints>): (r: (seq<real>, seq<real>))
    ensures |r.0| == 2 * |pts| + 1 && |r.1| == 2 * |pts| + 1
  {
    var n := |pts|;
    (Assemble(seq(n, i requires 0 <= i < n => pts[i].xu), seq(n, i requires 0 <= i < n => pts[i].xl)),
     Assemble(seq(n, i requires 0 <= i < n => pts[i].yu), seq(n, i requires 0 <= i < n => pts[i].yl)))
  }

  /**
   * A cambered outline has 2n+1 points: index k < n holds the upper point of
   * station n-1-k, index n is the leading edge (0,0), and index n+1+k holds
   * the lower point of station k.
   */
  lemma CamberedOrder(pts: seq<SurfacePoints>)
    ensures var (x, y) := CamberedOutline(pts);
      var n := |pts|;
      && |x| == 2 * n + 1 && |y| == 2 * n + 1
      && x[n] == 0.0 && y[n] == 0.0
      && (forall k :: 0 <= k < n ==> x[k] == pts[n - 1 - k].xu && y[k] == pts[n - 1 - k].yu)
      && (forall k :: 0 <= k < n ==> x[n + 1 + k] == pts[k].xl && y[n + 1 + k] == pts[k].yl)
  {
  }

  /**
   * Station k sits in outline columns x and y: its upper point at index
   * n-1-k and its lower point at index n+1+k, for n = |pts| stations.
   */
  ghost predicate StationAt(x: seq<real>, y: seq<real>, pts: seq<SurfacePoints>, k: int)
    requires |x| == |y| == 2 * |pts| + 1 && 0 <= k < |pts|
  {
    var n := |pts|;
    x[n - 1 - k] == pts[k].xu && y[n - 1 - k] == pts[k].yu && x[n + 1 + k] == pts[k].xl && y[n + 1 + k] == pts[k].yl
  }

  /** The two points of station k are symmetric about its camber point (xc[k], cs[k].yc). */
  ghost predicate PairAbout(x: seq<real>, y: seq<real>, xc: seq<real>, cs: seq<Camber>, k: int)
    requires |x| == |y| == 2 * |xc| + 1 && |cs| == |xc| && 0 <= k < |xc|
  {
    var n := |xc|;
    x[n - 1 - k] + x[n + 1 + k] == 2.0 * xc[k] && y[n - 1 - k] + y[n + 1 + k] == 2.0 * cs[k].yc
  }

  /**
   * The cambered outline read station by station: station k contributes
   * the upper point at index n-1-k and the lower point at index n+1+k.
   */
  lemma CamberedStations(pts: seq<SurfacePoints>)
    ensures var o := CamberedOutline(pts);
      && |o.0| == 2 * |pts| + 1 && |o.1| == 2 * |pts| + 1
      && o.0[|pts|] == 0.0 && o.1[|pts|] == 0.0
      && forall k :: 0 <= k < |pts| ==> StationAt(o.0, o.1, pts, k)
  {
    var o := CamberedOutline(pts);
    var n := |pts|;
    CamberedOrder(pts);
    forall k | 0 <= k < n
      ensures StationAt(o.0, o.1, pts, k)
    {
      var j := n - 1 - k;
      assert o.0[j] == pts[n - 1 - j].xu && o.1[j] == pts[n - 1 - j].yu;
    }
  }

  /**
   * Surface points placed by Rotate about camber points cs: in the cambered
   * outline the two points of each station are symmetric about that
   * station's camber point, whatever the slope and the half-thickness.
   */
  lemma PlacedSymmetry(tr: MathLib, xc: seq<real>, yt: seq<real>, cs: seq<Camber>, pts: seq<SurfacePoints>)
    requires |xc| == |yt| == |cs| == |pts|
    requires forall k :: 0 <= k < |pts| ==> pts[k] == Rotate(tr, xc[k], cs[k], yt[k])
    ensures var o := CamberedOutline(pts);
      && |o.0| == 2 * |xc| + 1 && |o.1| == 2 * |xc| + 1
      && forall k :: 0 <= k < |xc| ==> PairAbout(o.0, o.1, xc, cs, k)
  {
    var o := CamberedOutline(pts);
    CamberedStations(pts);
    forall k | 0 <= k < |xc|
      ensures PairAbout(o.0, o.1, xc, cs, k)
    {
      assert StationAt(o.0, o.1, pts, k);
      assert pts[k] == Rotate(tr, xc[k], cs[k], yt[k]);
    }
  }

  /**
   * Four coordinate columns that agree with the surface points station by
   * station assemble into the cambered outline.
   */
  lemma ColumnsAssemble(xu: seq<real>, yu: seq<real>, xl: seq<real>, yl: seq<real>, pts: seq<SurfacePoints>)
    requires |xu| == |yu| == |xl| == |yl| == |pts|
    requires forall j :: 0 <= j < |pts| ==> SurfacePoints(xu[j], yu[j], xl[j], yl[j]) == pts[j]
    ensures (Assemble(xu, xl), Assemble(yu, yl)) == CamberedOutline(pts)
  {
    var n := |pts|;
    assert xu == seq(n, i requires 0 <= i < n => pts[i].xu);
    assert yu == seq(n, i requires 0 <= i < n => pts[i].yu);
    assert xl == seq(n, i requires 0 <= i < n => pts[i].xl);
    assert yl == seq(n, i requires 0 <= i < n => pts[i].yl);
  }

  /** Assembling a sequence with itself mirrors the outline about its centre. */
  lemma AssembleMirror(u: seq<real>)
    ensures var r := Assemble(u, u);
      forall i, j :: 0 <= i < j < |r| && i + j == 2 * |u| ==> r[i] == r[j]
  {
    var r := Assemble(u, u);
    forall i, j | 0 <= i < j < |r| && i + j == 2 * |u|
      ensures r[i] == r[j]
    {
      if i < |u| {
        assert r[|u| + 1 + (|u| - 1 - i)] == u[|u| - 1 - i];
      }
    }
  }

  /** Assembling a sequence with its negation makes the outline odd about its centre. */
  lemma AssembleAntiMirror(u: seq<real>)
    ensures var r := Assemble(u, Negate(u));
      forall i, j :: 0 <= i < j < |r| && i + j == 2 * |u| ==> r[i] == -r[j]
  {
    var r := Assemble(u, Negate(u));
    forall i, j | 0 <= i < j < |r| && i + j == 2 * |u|
      ensures r[i] == -r[j]
    {
      var k := |u| - 1 - i;
      assert r[i] == u[k];
      assert j == |u| + 1 + k;
      assert r[j] == Negate(u)[k] == -u[k];
    }
  }

  /**
   * The first point of a cambered outline is the upper point of the last
   * station and its final point the lower point of that station.
   */
  lemma CamberedEnds(pts: seq<SurfacePoints>)
    requires |pts| > 0
    ensures var (x, y) := CamberedOutline(pts);
      var n := |pts|;
      && x[0] == pts[n - 1].xu && y[0] == pts[n - 1].yu
      && x[2 * n] == pts[n - 1].xl && y[2 * n] == pts[n - 1].yl
  {
    CamberedOrder(pts);
  }

  /**
   * The first point of a symmetric outline is the upper trailing-edge point
   * and its final point the lower one, at plus and minus the last
   * half-thickness.
   */
  lemma SymmetricEnds(xc: seq<real>, yt: seq<real>)
    requires |xc| == |yt| > 0
    ensures var (x, y) := SymmetricOutline(xc, yt);
      var n := |xc|;
      && y[0] == yt[n - 1] && y[2 * n] == -yt[n - 1]
  {
  }

  /**
   * At a trailing edge where the camber line meets the chord, a zero
   * half-thickness puts both surface points on the chord, and a positive one
   * puts the upper point above it and the lower point below it whenever the
   * cosine of the camber angle is positive.
   */
  lemma TrailingEdgePoints(tr: MathLib, c: Camber, h: real)
    requires c.yc == 0.0
    ensures h == 0.0 ==> Rotate(tr, 1.0, c, h).yu == 0.0 && Rotate(tr, 1.0, c, h).yl == 0.0
    ensures h > 0.0 && tr.cos(tr.atan(c.slope)) > 0.0 ==> Rotate(tr, 1.0, c, h).yu > 0.0 && Rotate(tr, 1.0, c, h).yl < 0.0
  {
    var cs := tr.cos(tr.atan(c.slope));
    if h > 0.0 && cs > 0.0 {
      assert h * cs > 0.0;
    }
  }
}
