/**
 * The designation dispatcher naca(digits) (src/foillib/naca.py): checks the
 * length of the designation, then hands a 4-character one to the 4-digit
 * generator and a 5-character one, whose first three characters must name
 * a tabulated camber line, to the 5-digit generator.
 */
module Naca {
  import opened Wrappers
  import opened Transcendentals
  import opened Common
  import opened NacaCommon
  import opened NacaFour
  import opened NacaFive

  /** The generator call a designation selects, with its integer arguments. */
  datatype Design =
    | Four(M: int, P: int, XX: int)
    | Five(L: int, P: int, S: int, TT: int)

  /** The ways naca fails: its assertions, int() of a non-digit, and the trailing-edge index error. */
  datatype NacaError =
    | UnsupportedLength
    | UnsupportedDesign
    | UnsupportedCamberType
    | NotADigit
    | TrailingEdgeIndex

  /**
   * What the designation alone decides: a generator call, no branch at all
   * (a dash in a designation of accepted length, for which naca returns
   * None), or a rejection.
   */
  datatype Dispatch =
    | Call(design: Design)
    | NoBranch
    | Rejected(error: NacaError)

  /** The value of an ASCII decimal digit. */
  function DigitValue(c: char): (r: Option<int>)
    ensures r.Some? <==> '0' <= c <= '9'
    ensures r.Some? ==> 0 <= r.value <= 9 && DigitChar(r.value) == c
  {
    if '0' <= c <= '9' then Some(c as int - '0' as int) else None
  }

  /**
   * The ASCII whitespace int() strips around its argument: space, tab,
   * line feed, vertical tab, form feed, carriage return and the four
   * separators U+001C..U+001F.
   */
  predicate IsSpace(c: char) {
    || c == ' ' || c == '\t' || c == '\n' || c == '\r' || c == '\U{0B}' || c == '\U{0C}'
    || c == '\U{1C}' || c == '\U{1D}' || c == '\U{1E}' || c == '\U{1F}'
  }

  /**
   * int() of a two-character string: two digits, or one digit with
   * surrounding whitespace or a leading plus sign.
   */
  function IntOfTwo(s: string): (r: Option<int>)
    requires |s| == 2
    ensures r.Some? ==> 0 <= r.value <= 99
  {
    match (DigitValue(s[0]), DigitValue(s[1]))
    case (Some(a), Some(b)) => Some(10 * a + b)
    case (None, Some(b)) => if IsSpace(s[0]) || s[0] == '+' then Some(b) else None
    case (Some(a), None) => if IsSpace(s[1]) then Some(a) else None
    case (None, None) => None
  }

  /** The two-digit decimal text of 0 <= n <= 99, with a leading zero. */
  function TwoDigits(n: int): (s: string)
    requires 0 <= n <= 99
    ensures |s| == 2
  {
    [DigitChar(n / 10), DigitChar(n % 10)]
  }

  /** The camber-table prefixes the 5-character check accepts. */
  predicate KnownPrefix(key: string) {
    key in Prk1[0] || key in Prk1[1]
  }

  /**
   * The checks of naca, in its order: the length, the dash, then for four
   * characters the three int() conversions and for five characters the
   * table prefix, the camber-type digit and the four int() conversions.
   */
  function Parse(digits: string): Dispatch {
    if |digits| != 4 && |digits| != 5 then Rejected(UnsupportedLength)
    else if '-' in digits then NoBranch
    else if |digits| == 4 then
      match (DigitValue(digits[0]), DigitValue(digits[1]), IntOfTwo(digits[2..]))
      case (Some(M), Some(P), Some(XX)) => Call(Four(M, P, XX))
      case _ => Rejected(NotADigit)
    else if !KnownPrefix(digits[..3]) then Rejected(UnsupportedDesign)
    else if digits[2] != '0' && digits[2] != '1' then Rejected(UnsupportedCamberType)
    else
      match (DigitValue(digits[0]), DigitValue(digits[1]), DigitValue(digits[2]), IntOfTwo(digits[3..]))
      case (Some(L), Some(P), Some(S), Some(TT)) => Call(Five(L, P, S, TT))
      case _ => Rejected(NotADigit)
  }

  /** A designation that passed the prefix check names a table entry, so naca5's lookup never misses. */
  lemma FivePrefixInTable(digits: string)
    requires Parse(digits).Call? && Parse(digits).design.Five?
    ensures var d := Parse(digits).design;
      InTable(d.L, d.P, d.S) && Profile(d.L, d.P, d.S) == digits[..3]
  {
    var d := Parse(digits).design;
    assert Profile(d.L, d.P, d.S) == digits[..3];
  }

  /**
   * The result of naca: a failure, None when no branch applies, or the
   * outline of the selected generator. A sharp trailing edge with no
   * stations fails on the override of the last half-thickness.
   */
  function NacaSpec(tr: MathLib, digits: string, npts: int, finiteTe: bool, mode: SpacingMethod)
    : Result<Option<(seq<real>, seq<real>)>, NacaError>
  {
    match Parse(digits)
    case Rejected(e) => Failure(e)
    case NoBranch => Success(None)
    case Call(d) =>
      if npts <= 0 && !finiteTe then Failure(TrailingEdgeIndex)
      else match d
        case Four(M, P, XX) => Success(Some(Naca4Outline(tr, M, P, XX, npts, finiteTe, mode)))
        case Five(L, P, S, TT) =>
          FivePrefixInTable(digits);
          Success(Some(Naca5Outline(tr, L, P, S, TT, npts, finiteTe, mode)))
  }

  /** naca: validates the designation, then delegates to naca4 or naca5. */
  method Naca(tr: MathLib, digits: string, npts: int, finiteTe: bool, mode: SpacingMethod)
    returns (r: Result<Option<(seq<real>, seq<real>)>, NacaError>)
    ensures r == NacaSpec(tr, digits, npts, finiteTe, mode)
  {
    var dispatch := Parse(digits);
    match dispatch
    case Rejected(e) =>
      return Failure(e);
    case NoBranch =>
      return Success(None);
    case Call(d) =>
      if npts <= 0 && !finiteTe {
        return Failure(TrailingEdgeIndex);
      }
      match d
      case Four(M, P, XX) =>
        var x, y := Naca4(tr, M, P, XX, npts, finiteTe, mode);
        return Success(Some((x, y)));
      case Five(L, P, S, TT) =>
        FivePrefixInTable(digits);
        var x, y := Naca5(tr, L, P, S, TT, npts, finiteTe, mode);
        return Success(Some((x, y)));
  }

  /** naca with its defaults: 100 stations, a finite trailing edge and cosine spacing. */
  method NacaDefault(tr: MathLib, digits: string) returns (r: Result<Option<(seq<real>, seq<real>)>, NacaError>)
    ensures r == NacaSpec(tr, digits, 100, true, Cosine)
  {
    r := Naca(tr, digits, 100, true, Cosine);
  }
}

/** Properties of the designation dispatcher. */
module NacaProperties {
  import opened Wrappers
  import opened Transcendentals
  import opened Common
  import opened NacaCommon
  import opened NacaFour
  import opened NacaFourProperties
  import opened NacaFive
  import opened NacaFiveProperties
  import opened Naca

  /** Exactly the designations of length other than 4 and 5, such as "001", fail the length assertion. */
  lemma LengthCheck(digits: string)
    ensures Parse(digits) == Rejected(UnsupportedLength) <==> |digits| != 4 && |digits| != 5
    ensures Parse("001") == Rejected(UnsupportedLength)
  {
  }

  /** A designation of accepted length containing a dash matches no branch, and naca returns None. */
  lemma DashMatchesNoBranch(digits: string)
    ensures Parse(digits) == NoBranch <==> (|digits| == 4 || |digits| == 5) && '-' in digits
  {
  }

  /** int() of two characters reads every two-digit text, leading zero included, back to its value. */
  lemma IntOfTwoDigits(n: int)
    requires 0 <= n <= 99
    ensures IntOfTwo(TwoDigits(n)) == Some(n)
  {
    var s := TwoDigits(n);
    assert DigitValue(s[0]) == Some(n / 10);
    assert DigitValue(s[1]) == Some(n % 10);
  }

  /**
   * A 4-character designation is dispatched to naca4 exactly when it has no
   * dash and its characters read as M, P and the two-character XX.
   */
  lemma FourDispatch(digits: string, M: int, P: int, XX: int)
    ensures Parse(digits) == Call(Four(M, P, XX)) <==>
      && |digits| == 4 && '-' !in digits
      && DigitValue(digits[0]) == Some(M) && DigitValue(digits[1]) == Some(P)
      && IntOfTwo(digits[2..]) == Some(XX)
  {
  }

  /** Formatting the digits of a 4-digit design and dispatching it calls naca4 with those digits. */
  lemma FourRoundTrip(M: int, P: int, XX: int)
    requires 0 <= M <= 9 && 0 <= P <= 9 && 0 <= XX <= 99
    ensures Parse([DigitChar(M), DigitChar(P)] + TwoDigits(XX)) == Call(Four(M, P, XX))
  {
    var digits := [DigitChar(M), DigitChar(P)] + TwoDigits(XX);
    IntOfTwoDigits(XX);
    assert digits[2..] == TwoDigits(XX);
    assert '-' !in digits by {
      forall i | 0 <= i < 4 ensures digits[i] != '-' {
      }
    }
  }

  /**
   * A 5-character designation is dispatched to naca5 exactly when it has no
   * dash, its first three characters are a key of the table of camber type
   * S formed from L, P and S, and its last two read as TT.
   */
  lemma FiveDispatch(digits: string, L: int, P: int, S: int, TT: int)
    ensures Parse(digits) == Call(Five(L, P, S, TT)) <==>
      && |digits| == 5 && '-' !in digits
      && InTable(L, P, S) && digits[..3] == Profile(L, P, S)
      && IntOfTwo(digits[3..]) == Some(TT)
  {
    if Parse(digits) == Call(Five(L, P, S, TT)) {
      FivePrefixInTable(digits);
    }
    if && |digits| == 5 && '-' !in digits
       && InTable(L, P, S) && digits[..3] == Profile(L, P, S)
       && IntOfTwo(digits[3..]) == Some(TT)
    {
      TableRows(S, digits[..3]);
      assert digits[0] == digits[..3][0] && digits[1] == digits[..3][1] && digits[2] == digits[..3][2];
    }
  }

  /**
   * The camber-type assertion never fires: every prefix the table accepts
   * already ends in '0' or '1'.
   */
  lemma CamberTypeCheckUnreachable(digits: string)
    ensures Parse(digits) != Rejected(UnsupportedCamberType)
  {
    if |digits| == 5 && KnownPrefix(digits[..3]) {
      var key := digits[..3];
      if key in Prk1[0] { TableRows(0, key); } else { TableRows(1, key); }
      assert digits[2] == key[2];
    }
  }

  /** A 5-character designation without a dash whose prefix is not tabulated, such as "26012", is an unsupported design. */
  lemma UnsupportedDesignCheck(digits: string)
    requires |digits| == 5 && '-' !in digits && !KnownPrefix(digits[..3])
    ensures Parse(digits) == Rejected(UnsupportedDesign)
  {
  }

  /**
   * The 4-digit trailing-edge test: "0012" with the defaults yields an
   * outline whose first point lies above the chord and whose last point
   * lies below it.
   */
  lemma TrailingEdge0012(tr: MathLib)
    requires Lawful(tr)
    ensures var r := NacaSpec(tr, "0012", 100, true, Cosine);
      && r.Success? && r.value.Some?
      && r.value.value.1[0] > 0.0 && r.value.value.1[200] < 0.0
  {
    assert Parse("0012") == Call(Four(0, 0, 12)) by {
      assert "0012"[2..] == "12";
    }
    Naca4SymmetricTrailingEdge(tr, 0, 12, 100, Cosine);
  }

  /**
   * The 5-digit trailing-edge test: "24012" with the defaults yields an
   * outline whose first point lies above the chord and whose last point
   * lies below it.
   */
  lemma TrailingEdge24012(tr: MathLib)
    requires Lawful(tr) && AtanLaws(tr)
    ensures var r := NacaSpec(tr, "24012", 100, true, Cosine);
      && r.Success? && r.value.Some?
      && r.value.value.1[0] > 0.0 && r.value.value.1[200] < 0.0
  {
    assert Parse("24012") == Call(Five(2, 4, 0, 12)) by {
      assert "24012"[..3] == "240";
      assert "24012"[3..] == "12";
    }
    Naca5FiniteTrailingEdge(tr, 2, 4, 0, 12, 100, Cosine);
  }

  /**
   * With a sharp trailing edge and at least one station, every designation
   * naca accepts yields an outline whose two ends lie on the chord line.
   */
  lemma SharpTrailingEdge(tr: MathLib, digits: string, npts: int, mode: SpacingMethod)
    requires CosLaws(tr) && npts > 0 && Parse(digits).Call?
    ensures var r := NacaSpec(tr, digits, npts, false, mode);
      && r.Success? && r.value.Some?
      && r.value.value.1[0] == 0.0 && r.value.value.1[2 * npts] == 0.0
  {
    match Parse(digits).design
    case Four(M, P, XX) =>
      Naca4SharpTrailingEdge(tr, M, P, XX, npts, mode);
    case Five(L, P, S, TT) =>
      FivePrefixInTable(digits);
      Naca5SharpTrailingEdge(tr, L, P, S, TT, npts, mode);
  }
}
