/** Chordwise station spacing (src/foillib/_common.py). */
module Common {
  import opened Wrappers
  import opened Transcendentals

  /** The two spacing modes the library accepts. */
  datatype SpacingMethod = Equal | Cosine

  /** The mode check: only "equal" and "cosine" name a spacing mode. */
  function ParseSpacingMethod(s: string): (r: Option<SpacingMethod>)
    ensures r.Some? <==> s == "equal" || s == "cosine"
    ensures r == Some(Equal) <==> s == "equal"
    ensures r == Some(Cosine) <==> s == "cosine"
  {
    if s == "equal" then Some(Equal)
    else if s == "cosine" then Some(Cosine)
    else None
  }

  /** The k-th station (k counted from 1) of an `npts`-point spacing. */
  function Station(m: MathLib, npts: int, mode: SpacingMethod, k: int): real
    requires npts > 0
  {
    match mode
    case Equal => k as real / npts as real
    case Cosine => (1.0 - m.cos(k as real / npts as real * Pi)) / 2.0
  }

  /**
   * The stations from leading edge to trailing edge; the leading-edge
   * station 0 is not part of it. A non-positive count gives no stations.
   */
  function Spacing(m: MathLib, npts: int, mode: SpacingMethod): (xs: seq<real>)
    ensures |xs| == if npts > 0 then npts else 0
  {
    if npts <= 0 then []
    else seq(npts, i requires 0 <= i < npts => Station(m, npts, mode, i + 1))
  }

  ghost predicate StrictlyIncreasing(xs: seq<real>) {
    forall i, j :: 0 <= i < j < |xs| ==> xs[i] < xs[j]
  }

  /** Equal spacing: element i is (i+1)/npts, strictly increasing, inside (0,1], ending at exactly 1. */
  lemma EqualSpacing(m: MathLib, npts: int)
    requires npts > 0
    ensures var xs := Spacing(m, npts, Equal);
      && (forall i :: 0 <= i < npts ==> xs[i] == (i + 1) as real / npts as real)
      && (forall i :: 0 <= i < npts ==> 0.0 < xs[i] <= 1.0)
      && StrictlyIncreasing(xs)
      && xs[npts - 1] == 1.0
  {
    var xs := Spacing(m, npts, Equal);
    var n := npts as real;
    DivPositive(n, n, n);
    assert n / n == 1.0 by {
      assert (n / n - 1.0) * n == 0.0;
    }
    forall i | 0 <= i < npts
      ensures 0.0 < xs[i] <= 1.0
    {
      assert xs[i] == (i + 1) as real / n;
      DivPositive(0.0, (i + 1) as real, n);
      DivPositive((i + 1) as real, n, n);
    }
    forall i, j | 0 <= i < j < npts
      ensures xs[i] < xs[j]
    {
      DivPositive((i + 1) as real, (j + 1) as real, n);
    }
  }

  /** Cosine spacing lies in [0,1] and ends at exactly 1, since cos(pi) = -1. */
  lemma CosineSpacing(m: MathLib, npts: int)
    requires CosLaws(m) && npts > 0
    ensures var xs := Spacing(m, npts, Cosine);
      && (forall i :: 0 <= i < npts ==> 0.0 <= xs[i] <= 1.0)
      && xs[npts - 1] == 1.0
  {
    var xs := Spacing(m, npts, Cosine);
    DivPositive(npts as real, npts as real, npts as real);
    forall i | 0 <= i < npts
      ensures 0.0 <= xs[i] <= 1.0
    {
      var c := m.cos((i + 1) as real / npts as real * Pi);
      assert -1.0 <= c <= 1.0;
    }
  }

  /**
   * Where cosine is strictly decreasing on [0, pi] (a law the model does not
   * assume elsewhere), cosine spacing is strictly increasing as well.
   */
  lemma CosineSpacingIncreasing(m: MathLib, npts: int)
    requires npts > 0
    requires forall a, b :: 0.0 <= a < b <= Pi ==> m.cos(b) < m.cos(a)
    ensures StrictlyIncreasing(Spacing(m, npts, Cosine))
  {
    var xs := Spacing(m, npts, Cosine);
    forall i, j | 0 <= i < j < npts
      ensures xs[i] < xs[j]
    {
      StationAngles(i, j, npts);
    }
  }

  /** The angles of two cosine stations i < j lie in order within [0, pi]. */
  lemma StationAngles(i: int, j: int, npts: int)
    requires 0 <= i < j < npts
    ensures var n := npts as real;
      0.0 <= (i + 1) as real / n * Pi < (j + 1) as real / n * Pi <= Pi
  {
    var n := npts as real;
    var a := (i + 1) as real / n;
    var b := (j + 1) as real / n;
    DivPositive(0.0, (i + 1) as real, n);
    DivPositive((i + 1) as real, (j + 1) as real, n);
    DivPositive((j + 1) as real, n, n);
    assert n / n == 1.0 by {
      assert (n / n - 1.0) * n == 0.0;
    }
    assert 0.0 < a < b <= 1.0;
    ProductSigns(a, Pi);
    ProductSigns(b - a, Pi);
    ProductSigns(1.0 - b, Pi);
  }


  /** Where |cos| <= 1, every station of either mode lies in [0,1]. */
  lemma SpacingInUnit(m: MathLib, npts: int, mode: SpacingMethod)
    requires CosLaws(m)
    ensures forall i :: 0 <= i < |Spacing(m, npts, mode)| ==> 0.0 <= Spacing(m, npts, mode)[i] <= 1.0
  {
    if npts > 0 {
      match mode
      case Equal => EqualSpacing(m, npts);
      case Cosine => CosineSpacing(m, npts);
    }
  }

  /** Either mode ends at exactly the trailing edge x = 1. */
  lemma SpacingEndsAtOne(m: MathLib, npts: int, mode: SpacingMethod)
    requires CosLaws(m) && npts > 0
    ensures Spacing(m, npts, mode)[npts - 1] == 1.0
  {
    match mode
    case Equal => EqualSpacing(m, npts);
    case Cosine => CosineSpacing(m, npts);
  }
}
