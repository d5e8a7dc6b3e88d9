/**
 The compact printer's numbers: shortest round-trip digits written without an exponent. The
 formatter itself is a parameter; what it promises is stated here, and which doubles the parser
 then reads back, and which it cannot, follows.
 */
module Shortest {
  import opened Wrappers
  import opened Arith
  import opened BigNum
  import opened Number
  import opened NumberText
  import opened JsonNumber
  import opened Json
  import opened JsonPrint
  import opened JsonResults
  import NumberResults

  // ---- what shortest formatting promises -------------------------------

  const MOST_DIGITS: nat := 17

  /** Digits that say something: few, and no zero at either end. */
  ghost predicate Significant(d: seq<int>) {
    Digits(d) && 1 <= |d| <= MOST_DIGITS && d[0] != 0 && d[|d| - 1] != 0
  }

  /** The digits, filled up with zeros to the decimal point. */
  ghost function Padded(d: seq<int>, x: int): (r: seq<int>)
    requires Digits(d) && d != []
    ensures Digits(r) && |r| > IntegerDigits(x) - 1
  {
    if x < 0 then Zeros(-x) + d else if |d| <= x then d + Zeros(x + 1 - |d|) else d
  }

  function IntegerDigits(x: int): (n: nat)
    ensures n >= 1
  {
    if x < 0 then 1 else x + 1
  }

  /** `D1.D2D3... * 10^x` without an exponent. */
  ghost function PlainText(d: seq<int>, x: int): string
    requires Digits(d) && d != []
  {
    PointText(Padded(d, x), IntegerDigits(x))
  }

  /** The decimal is off by less than a factor of two: any that is rounded to the double is. */
  ghost predicate Near(d: seq<int>, x: int, n: Double)
    requires n.Finite?
  {
    Size(n) < 2.0 * Denote(d, x) && Denote(d, x) < 2.0 * Size(n)
  }

  ghost predicate IsShortest(t: string, n: Double)
    requires n.Finite?
  {
    if n.M() == 0 then t == Signed(n.neg, "0")
    else exists d: seq<int>, x: int :: Significant(d) && Near(d, x, n) && t == Signed(n.neg, PlainText(d, x))
  }

  /** Every finite double is shown by at most 17 digits near it, with the sign bit's sign and no exponent. */
  ghost predicate ShowsShortest(show: Double -> string) {
    forall n: Double :: n.Finite? ==> IsShortest(show(n), n)
  }

  /** What is shown converts back to the same bits. */
  ghost predicate ReadsOwn(show: Double -> string, toDouble: string -> Double) {
    forall n: Double :: n.Finite? ==> toDouble(show(n)) == n
  }

  // ---- the texts -------------------------------------------------------

  lemma SignedNumeric(t: string, neg: bool)
    requires t != "" && IsDigit(t[0]) && IsNumberText(t)
    ensures Numeric(Signed(neg, t))
  {
    SignedIsNumber(t);
  }

  lemma PlainNumeric(d: seq<int>, x: int, neg: bool)
    requires Digits(d) && d != []
    ensures Numeric(Signed(neg, PlainText(d, x)))
  {
    hide PointText, IsNumberText;
    var t := PlainText(d, x);
    PointNumeric(Padded(d, x), IntegerDigits(x));
    SignedNumeric(t, neg);
  }

  lemma PointNumeric(d: seq<int>, n: nat)
    requires Digits(d) && 1 <= n <= |d|
    ensures PointText(d, n) != "" && IsDigit(PointText(d, n)[0]) && IsNumberText(PointText(d, n))
  {
    PointIsNumber(d, n);
    PointPlain(d, n);
  }

  /** Such a formatter writes number texts. */
  lemma ShowsShortestNumbers(show: Double -> string)
    requires ShowsShortest(show)
    ensures ShowsNumbers(show)
  {
    hide Numeric, PlainText, Near, Significant;
    forall n: Double | n.Finite? ensures Numeric(show(n)) { ShortestNumeric(show(n), n); }
  }

  lemma ShortestNumeric(t: string, n: Double)
    requires n.Finite? && IsShortest(t, n)
    ensures Numeric(t)
  {
    hide PlainText, Near, IsNumberText;
    if n.M() == 0 {
      IntTextIsNumber(0);
      SignedNumeric("0", n.neg);
    } else {
      var d: seq<int>, x: int :| Significant(d) && Near(d, x, n) && t == Signed(n.neg, PlainText(d, x));
      PlainNumeric(d, x, n.neg);
    }
  }

  /** How long the text is. */
  lemma PlainLength(d: seq<int>, x: int)
    requires Digits(d) && d != []
    ensures |PlainText(d, x)| == if x < 0 then |d| + 1 - x else if |d| <= x + 1 then x + 1 else |d| + 1
  {}

  // ---- which doubles the parser reads ----------------------------------

  /** Zero, or a magnitude from 2 * 10^-44 up to 10^62 / 2. */
  ghost predicate Moderate(n: Double) {
    n.Finite? && (n.M() == 0 || (2.0 * Ten(-44) <= Size(n) && 2.0 * Size(n) <= Ten(62)))
  }

  /** A magnitude of at least 2 * 10^63, or a positive one of at most 10^-61 / 2. */
  ghost predicate Extreme(n: Double) {
    n.Finite? && n.M() != 0 && (2.0 * Ten(63) <= Size(n) || 2.0 * Size(n) <= Ten(-61))
  }

  lemma ModerateReadable(n: Double, show: Double -> string)
    requires ShowsShortest(show) && Moderate(n)
    ensures Readable(Compact(show))(n)
  {
    hide Ten, Size, PlainText, Denote;
    assert IsShortest(show(n), n);
    if n.M() != 0 {
      var d: seq<int>, x: int :| Significant(d) && Near(d, x, n) && show(n) == Signed(n.neg, PlainText(d, x));
      NumberResults.DenoteRange(d, x);
      NumberResults.TenBelow(-44, x + 1);
      NumberResults.TenBelow(x, 62);
      PlainLength(d, x);
    }
  }

  lemma ExtremeUnreadable(n: Double, show: Double -> string)
    requires ShowsShortest(show) && Extreme(n)
    ensures !Readable(Compact(show))(n)
  {
    hide Ten, Size, PlainText, Denote;
    assert IsShortest(show(n), n);
    var d: seq<int>, x: int :| Significant(d) && Near(d, x, n) && show(n) == Signed(n.neg, PlainText(d, x));
    NumberResults.DenoteRange(d, x);
    if 2.0 * Ten(63) <= Size(n) { NumberResults.TenBelow(63, x + 1); } else { NumberResults.TenBelow(x, -61); }
    PlainLength(d, x);
  }

  /** Every finite double keeps its bits, if it is read at all. */
  lemma KeptIsFinite(n: Double, show: Double -> string, toDouble: string -> Double)
    requires ReadsOwn(show, toDouble)
    ensures JsonResults.Kept(Compact(show), toDouble)(n) <==> FiniteOnly()(n)
  {
    hide JsonResults.Kept;
    KeptMeans(Compact(show), toDouble, n);
  }

  lemma KeptNumbers(v: Value, show: Double -> string, toDouble: string -> Double)
    requires ReadsOwn(show, toDouble)
    ensures Numbers(v, JsonResults.Kept(Compact(show), toDouble)) <==> Numbers(v, FiniteOnly())
  {
    hide JsonResults.Kept, FiniteOnly, Numbers, ReadsOwn;
    forall n: Double ensures JsonResults.Kept(Compact(show), toDouble)(n) <==>
      FiniteOnly()(n) { KeptIsFinite(n, show, toDouble); }
    NumbersImply(v, JsonResults.Kept(Compact(show), toDouble), FiniteOnly());
    NumbersImply(v, FiniteOnly(), JsonResults.Kept(Compact(show), toDouble));
  }

  // ---- round trips -----------------------------------------------------

  /**
   The compact round trip with such a formatter: accepted exactly when nesting is at most 1000 and
   no number's text exceeds 63 characters, and the same value exactly when in addition no string
   has a NUL and every number is finite.
   */
  lemma ShortestRoundTrip(v: Value, show: Double -> string, toDouble: string -> Double)
    requires ShowsShortest(show) && ReadsOwn(show, toDouble)
    ensures var back := ParseDocument(Print(Compact(show), v, 0), toDouble);
      var accepted := Nesting(v) <= NESTING_LIMIT && Numbers(v, Readable(Compact(show)));
      && (back.Some? <==> accepted)
      && (back == Some(v) <==> accepted && NulFree(v) && Numbers(v, FiniteOnly()))
  {
    hide *;
    ShowsShortestNumbers(show);
    CompactRoundTrip(v, show, toDouble);
    KeptNumbers(v, show, toDouble);
  }

  ghost function ModerateOnly(): Double -> bool {
    (n: Double) => Moderate(n)
  }

  ghost function NoneExtreme(): Double -> bool {
    (n: Double) => !Extreme(n)
  }

  /** In terms of magnitudes alone: moderate numbers make it safe, one extreme number loses the whole value. */
  lemma MagnitudesDecide(v: Value, show: Double -> string, toDouble: string -> Double)
    requires ShowsShortest(show) && ReadsOwn(show, toDouble)
    ensures var back := ParseDocument(Print(Compact(show), v, 0), toDouble);
      && (Numbers(v, ModerateOnly()) && Nesting(v) <= NESTING_LIMIT && NulFree(v) ==> back == Some(v))
      && (!Numbers(v, NoneExtreme()) ==> back == None)
  {
    hide *;
    ShortestRoundTrip(v, show, toDouble);
    ReadableNumbers(v, show);
  }

  lemma ReadableNumbers(v: Value, show: Double -> string)
    requires ShowsShortest(show)
    ensures Numbers(v, ModerateOnly()) ==> Numbers(v, Readable(Compact(show))) && Numbers(v, FiniteOnly())
    ensures Numbers(v, Readable(Compact(show))) ==> Numbers(v, NoneExtreme())
  {
    hide Numbers, Readable, Moderate, Extreme, ShowsShortest;
    forall n: Double ensures ModerateOnly()(n) ==> Readable(Compact(show))(n) && FiniteOnly()(n) {
      if Moderate(n) { ModerateReadable(n, show); ModerateFinite(n); }
    }
    forall n: Double ensures Readable(Compact(show))(n) ==> NoneExtreme()(n) {
      if Extreme(n) { ExtremeUnreadable(n, show); }
    }
    NumbersImply(v, ModerateOnly(), Readable(Compact(show)));
    NumbersImply(v, ModerateOnly(), FiniteOnly());
    NumbersImply(v, Readable(Compact(show)), NoneExtreme());
  }

  lemma ModerateFinite(n: Double)
    requires Moderate(n)
    ensures n.Finite?
  {}

  /** So the compact writer can write a text that the parser rejects. */
  lemma HugeNumberRejected(n: Double, show: Double -> string, toDouble: string -> Double)
    requires ShowsShortest(show) && Extreme(n)
    ensures ParseDocument(Print(Compact(show), Value.Number(n), 0), toDouble) == None
  {
    hide Print, ParseDocument, ShowsNumbers, ShowsShortest, Readable, Extreme;
    ShowsShortestNumbers(show);
    ExtremeUnreadable(n, show);
    CompactRoundTrip(Value.Number(n), show, toDouble);
  }

  // ---- whole numbers ---------------------------------------------------

  lemma WholeSize(n: Double)
    requires n.Finite? && Integral(n)
    ensures Size(n) == Whole(n) as real && (n.M() == 0 <==> Whole(n) == 0)
  {
    hide BinaryValue, Whole, Integral;
    WholeValue(n);
    NumberResults.BinarySign(n.M(), n.E2());
  }

  /**
   Whole numbers below 10^61 are moderate, so they are read and keep their bits; from 2 * 10^63 on
   they are not read.
   */
  lemma WholeNumbersCompact(n: Double, show: Double -> string, toDouble: string -> Double)
    requires ShowsShortest(show) && ReadsOwn(show, toDouble) && n.Finite? && Integral(n)
    ensures JsonResults.Kept(Compact(show), toDouble)(n)
    ensures Whole(n) <= Pow(10, 61) ==> Moderate(n) && Readable(Compact(show))(n)
    ensures Whole(n) >= 2 * Pow(10, 63) ==> !Readable(Compact(show))(n)
  {
    hide JsonResults.Kept, ReadsOwn, ShowsShortest, Size, Readable, Moderate, Extreme, Pow, Ten, Whole, Integral;
    KeptIsFinite(n, show, toDouble);
    WholeSize(n);
    Sizes(Whole(n));
    if Whole(n) <= Pow(10, 61) {
      ModerateSize(n, Whole(n));
      ModerateReadable(n, show);
    } else if Whole(n) >= 2 * Pow(10, 63) {
      ExtremeSize(n, Whole(n));
      ExtremeUnreadable(n, show);
    }
  }

  /** Where whole magnitudes stand among the powers of ten. */
  lemma Sizes(k: nat)
    ensures k >= 1 ==> 2.0 * Ten(-44) <= k as real
    ensures k <= Pow(10, 61) ==> 2.0 * k as real <= Ten(62)
    ensures Pow(10, 61) < 2 * Pow(10, 63) && (k >= 2 * Pow(10, 63) ==> k > 0 && 2.0 * Ten(63) <= k as real)
  {
    hide Ten, Pow;
    TenMonotone(-44, -1);
    TenStep(-1);
    NumberResults.TenWhole(0);
    NumberResults.TenWhole(62);
    NumberResults.TenWhole(63);
    PowTen(61);
    PowTen(62);
    PowPositive(10, 61);
  }

  lemma PowTen(e: nat)
    ensures Pow(10, e + 1) == 10 * Pow(10, e)
  {}

  lemma ModerateSize(n: Double, k: nat)
    requires n.Finite? && Size(n) == k as real && (n.M() == 0 <==> k == 0)
    requires k >= 1 ==> 2.0 * Ten(-44) <= k as real && 2.0 * k as real <= Ten(62)
    ensures Moderate(n)
  {
    hide Size, Ten;
  }

  lemma ExtremeSize(n: Double, k: nat)
    requires n.Finite? && Size(n) == k as real && n.M() != 0 && 2.0 * Ten(63) <= k as real
    ensures Extreme(n)
  {
    hide Size, Ten;
  }
}
