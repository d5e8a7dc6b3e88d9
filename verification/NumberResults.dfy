/**
 What the printed text means: it denotes the `p`-digit decimal nearest the double, ties
 go to the even one, and printing is monotone.
 */
module NumberResults {
  import opened Arith
  import opened BigNum
  import opened Number
  import opened NumberText

  ghost function RAbs(x: real): real {
    if x < 0.0 then -x else x
  }

  lemma ScaleDistance(a: int, b: int, n: int, u: real)
    requires u > 0.0 && Abs(a - n) <= Abs(b - n)
    ensures RAbs(a as real * u - n as real * u) <= RAbs(b as real * u - n as real * u)
    ensures Abs(a - n) < Abs(b - n) ==> RAbs(a as real * u - n as real * u) < RAbs(b as real * u - n as real * u)
  {
    hide *;
    Difference(a, n, u);
    Difference(b, n, u);
    ScaleLe(Abs(a - n), Abs(b - n), u);
  }

  lemma ScaleLe(s: int, t: int, u: real)
    requires u > 0.0
    ensures s <= t ==> s as real * u <= t as real * u
    ensures s < t ==> s as real * u < t as real * u
  {
    if s < t { RealMulLt(u, s as real, t as real); }
  }

  lemma Difference(a: int, n: int, u: real)
    requires u > 0.0
    ensures RAbs(a as real * u - n as real * u) == Abs(a - n) as real * u
  {
    if a >= n {
      RealMulLe(u, n as real, a as real);
      Spread(a, n, u);
    } else {
      RealMulLt(u, a as real, n as real);
      Spread(n, a, u);
    }
  }

  lemma Spread(a: int, n: int, u: real)
    ensures a as real * u - n as real * u == (a - n) as real * u
  {
  }

  /** A magnitude whose digits get rounded, and the grid of `p`-digit numbers around it. */
  ghost predicate Long(d: seq<int>, p: nat) {
    p >= 1 && Digits(d) && |d| > p && d[0] != 0
  }

  ghost function RoundedDenotes(d: seq<int>, x: int, p: nat): real
    requires Long(d, p)
  {
    Denote(RoundToOf(d, x, p).0, RoundToOf(d, x, p).1)
  }

  ghost function Quotient(d: seq<int>, p: nat): (q: int)
    requires Long(d, p)
    ensures Pow(10, p - 1) <= q <= Pow(10, p)
  {
    RoundedRange(d, p);
    RoundHalfEven(Dec(d), Pow(10, |d| - p))
  }

  lemma RoundedOnGrid(d: seq<int>, x: int, p: nat)
    requires Long(d, p)
    ensures RoundedDenotes(d, x, p) == Decimal(Quotient(d, p), x - p + 1)
    ensures RoundedDenotes(d, x, p) == Decimal(Quotient(d, p) * Pow(10, |d| - p), x - |d| + 1)
  {
    hide Decimal;
    RoundedRange(d, p);
    var q := Quotient(d, p);
    RoundedLength(q, p);
    DecimalShift(q, x - |d| + 1, |d| - p);
  }

  /** No multiple of the grid's unit is nearer; an equally near one means an even quotient. */
  lemma NearestOnGrid(d: seq<int>, x: int, p: nat, k: int)
    requires Long(d, p)
    ensures RAbs(RoundedDenotes(d, x, p) - Denote(d, x)) <= RAbs(Decimal(k, x - p + 1) - Denote(d, x))
    ensures RAbs(RoundedDenotes(d, x, p) - Denote(d, x)) == RAbs(Decimal(k, x - p + 1) - Denote(d, x))
      ==> k == Quotient(d, p) || Quotient(d, p) % 2 == 0
  {
    var t := Pow(10, |d| - p);
    PowPositive(10, |d| - p);
    RoundedOnGrid(d, x, p);
    DecimalShift(k, x - |d| + 1, |d| - p);
    RoundHalfEvenNearest(Dec(d), t, k);
    TenPositive(x - |d| + 1);
    GridCompare(Quotient(d, p) * t, k * t, Dec(d), x - |d| + 1);
  }

  lemma GridCompare(a: int, b: int, n: int, j: int)
    requires Abs(a - n) <= Abs(b - n)
    ensures RAbs(Decimal(a, j) - Decimal(n, j)) <= RAbs(Decimal(b, j) - Decimal(n, j))
    ensures Abs(a - n) < Abs(b - n) ==> RAbs(Decimal(a, j) - Decimal(n, j)) < RAbs(Decimal(b, j) - Decimal(n, j))
  {
    hide Ten, RAbs, Abs;
    TenPositive(j);
    ScaleDistance(a, b, n, Ten(j));
    assert Decimal(a, j) == a as real * Ten(j) && Decimal(b, j) == b as real * Ten(j)
      && Decimal(n, j) == n as real * Ten(j);
  }

  lemma DecimalLe(a: int, b: int, j: int)
    requires a <= b
    ensures Decimal(a, j) <= Decimal(b, j)
  {
    TenPositive(j);
    RealMulLe(Ten(j), a as real, b as real);
  }

  lemma DecimalLt(a: int, b: int, j: int)
    requires a < b
    ensures Decimal(a, j) < Decimal(b, j)
  {
    hide Ten;
    TenPositive(j);
    RealMulLt(Ten(j), a as real, b as real);
  }

  /** A `p`-digit number finer than the grid is at most the leading power of ten, which is on the grid. */
  lemma FinerIsSmaller(d: seq<int>, x: int, p: nat, k: int, j: int)
    requires Long(d, p) && k <= Pow(10, p) && j < x - p + 1
    ensures Decimal(k, j) <= Decimal(Pow(10, p - 1), x - p + 1) <= Denote(d, x)
  {
    hide Decimal;
    DecimalLe(k, Pow(10, p), j);
    DecimalShift(1, j, p);
    DecimalShift(1, x - p + 1, p - 1);
    assert Decimal(1, j + p) <= Decimal(1, x) by {
      TenMonotone(j + p, x);
      DecimalOne(j + p);
      DecimalOne(x);
    }
    DecLeading(d);
    DecimalShift(1, x - |d| + 1, |d| - 1);
    DecimalLe(Pow(10, |d| - 1), Dec(d), x - |d| + 1);
  }

  lemma DecimalOne(j: int)
    ensures Decimal(1, j) == Ten(j)
  {}

  /** The leading exponent brackets the number. */
  lemma DenoteRange(d: seq<int>, x: int)
    requires Digits(d) && d != [] && d[0] != 0
    ensures Ten(x) <= Denote(d, x) < Ten(x + 1)
  {
    hide Decimal, Ten, Pow, Dec;
    var j, k := x - |d| + 1, |d|;
    DecLeading(d);
    DecimalLe(Pow(10, k - 1), Dec(d), j);
    DecimalLt(Dec(d), Pow(10, k), j);
    DecimalShift(1, j, k - 1);
    DecimalShift(1, j, k);
    DecimalOne(x);
    DecimalOne(x + 1);
  }

  lemma TenWhole(e: nat)
    ensures Ten(e) == Pow(10, e) as real && Pow(10, 0) == 1
  {}

  lemma TenBelow(e: int, f: int)
    requires Ten(e) < Ten(f)
    ensures e < f
  {
    hide Ten;
    if f <= e { TenMonotone(f, e); }
  }

  /** Nearest among all numbers with at most `p` significant digits, of any exponent. */
  lemma NearestMagnitude(d: seq<int>, x: int, p: nat, k: int, j: int)
    requires Long(d, p) && Abs(k) <= Pow(10, p)
    ensures RAbs(RoundedDenotes(d, x, p) - Denote(d, x)) <= RAbs(Decimal(k, j) - Denote(d, x))
    ensures RAbs(RoundedDenotes(d, x, p) - Denote(d, x)) == RAbs(Decimal(k, j) - Denote(d, x))
      ==> Decimal(k, j) == RoundedDenotes(d, x, p) || Quotient(d, p) % 2 == 0
  {
    hide Decimal, RAbs, Denote, RoundedDenotes, Quotient, Pow;
    RoundedOnGrid(d, x, p);
    if j >= x - p + 1 {
      var a := j - (x - p + 1);
      DecimalShift(k, x - p + 1, a);
      NearestOnGrid(d, x, p, k * Pow(10, a));
    } else {
      FinerIsSmaller(d, x, p, k, j);
      NearestOnGrid(d, x, p, Pow(10, p - 1));
      Between(RoundedDenotes(d, x, p), Denote(d, x), Decimal(k, j), Decimal(Pow(10, p - 1), x - p + 1));
    }
  }

  lemma Between(r: real, v: real, c: real, g: real)
    requires c <= g <= v && RAbs(r - v) <= RAbs(g - v)
    ensures RAbs(r - v) <= RAbs(c - v)
    ensures RAbs(r - v) == RAbs(c - v) ==> c == g && RAbs(r - v) == RAbs(g - v)
  {}

  // ---- the printed text ------------------------------------------------

  /** The signed value of a double and of its printed text, as one sign times a magnitude. */
  lemma TextMagnitude(v: Double, p: nat)
    requires v.Finite? && p >= 1
    ensures var (d, x) := MagnitudeDigits(v);
      && BinaryValue(v.M(), v.E2()) == Denote(d, x)
      && (|d| <= p ==> Rounded(v, p) == (d, x))
      && (|d| > p ==> Long(d, p) && Rounded(v, p) == RoundToOf(d, x, p))
  {
    hide Denote, Decimal, Dec;
    var (d, x) := MagnitudeDigits(v);
    if v.M() == 0 {
      ZeroDenotes(d, x);
      ZeroBinary(v.E2());
    } else {
      ExactDigitsDenote(v.M(), v.E2());
    }
    if |d| > p { RoundedRange(d, p); }
  }

  lemma ZeroBinary(e2: int)
    ensures BinaryValue(0, e2) == 0.0
  {
    if e2 < 0 { PowPositive(2, -e2); }
  }

  lemma Mirror(r: real, v: real, k: int, j: int)
    ensures RAbs(-r - -v) == RAbs(r - v)
    ensures RAbs(Decimal(k, j) - -v) == RAbs(Decimal(-k, j) - v)
  {
    hide Decimal;
    NegateDecimal(k, j);
  }

  /**
   The printed text denotes a `p`-digit decimal nearest the double: no number with at most
   `p` significant digits, of any exponent, is nearer.
   */
  lemma FormatGNearest(v: Double, p: nat, k: int, j: int)
    requires v.Finite? && p >= 1 && Abs(k) <= Pow(10, p)
    ensures RAbs(TextValue(FormatGText(v, p)) - RealValue(v)) <= RAbs(Decimal(k, j) - RealValue(v))
  {
    hide Decimal, Denote, Dec, FormatGText, TextValue, BinaryValue, Pow, Rounded, MagnitudeDigits, RoundToOf;
    var (d, x) := MagnitudeDigits(v);
    FormatGReads(v, p);
    TextMagnitude(v, p);
    var k' := if v.neg then -k else k;
    assert Abs(k') <= Pow(10, p);
    if |d| > p { NearestMagnitude(d, x, p, k', j); }
    var (d', x') := Rounded(v, p);
    Mirror(Denote(d', x'), Denote(d, x), k, j);
  }

  /**
   The printed number itself has at most `p` significant digits; if a different such number
   is equally near the double, the printed one ends in an even digit.
   */
  lemma FormatGTiesToEven(v: Double, p: nat, k: int, j: int) returns (q: int, e: int)
    requires v.Finite? && p >= 1 && Abs(k) <= Pow(10, p)
    ensures TextValue(FormatGText(v, p)) == Decimal(q, e) && Abs(q) <= Pow(10, p)
    ensures RAbs(TextValue(FormatGText(v, p)) - RealValue(v)) == RAbs(Decimal(k, j) - RealValue(v))
      ==> Decimal(k, j) == TextValue(FormatGText(v, p)) || q % 2 == 0
  {
    hide Decimal, Dec, FormatGText, TextValue, BinaryValue, Pow, Rounded, MagnitudeDigits, RoundToOf, Quotient;
    var (d, x) := MagnitudeDigits(v);
    FormatGReads(v, p);
    TextMagnitude(v, p);
    var k' := if v.neg then -k else k;
    var (d', x') := Rounded(v, p);
    var m: int;
    if |d| > p {
      NearestMagnitude(d, x, p, k', j);
      RoundedOnGrid(d, x, p);
      m, e := Quotient(d, p), x - p + 1;
    } else {
      ShortBound(d, p);
      m, e := Dec(d), x - |d| + 1;
    }
    Mirror(Denote(d', x'), Denote(d, x), k, j);
    NegateDecimal(m, e);
    NegateDecimal(k, j);
    q := if v.neg then -m else m;
  }

  lemma ShortBound(d: seq<int>, p: nat)
    requires Digits(d) && |d| <= p
    ensures 0 <= Dec(d) <= Pow(10, p)
  {
    DecBound(d);
    PowExponentMonotone(10, |d|, p);
  }

  // ---- monotone --------------------------------------------------------

  lemma BinaryShift(m: int, e: int, n: nat)
    ensures BinaryValue(m, e + n) == BinaryValue(m * Pow(2, n), e)
  {
    hide Pow;
    if e >= 0 {
      ShiftAbove(m, e, n);
    } else if e + n >= 0 {
      ShiftAcross(m, -e, n);
    } else {
      ShiftBelow(m, -e, n);
    }
  }

  lemma ShiftAbove(m: int, e: nat, n: nat)
    ensures m * Pow(2, e + n) == m * Pow(2, n) * Pow(2, e)
  {
    PowAdd(2, n, e);
    MulAssoc(m, Pow(2, n), Pow(2, e));
  }

  lemma ShiftAcross(m: int, k: nat, n: nat)
    requires k <= n
    ensures BinaryValue(m, n - k) == (m * Pow(2, n)) as real / Inverse2(k)
  {
    PowPositive(2, k);
    PowAdd(2, k, n - k);
    BinaryCancel(m, Pow(2, k), Pow(2, n - k));
  }

  lemma ShiftBelow(m: int, k: nat, n: nat)
    requires n < k
    ensures BinaryValue(m, n - k) == (m * Pow(2, n)) as real / Inverse2(k)
  {
    PowAdd(2, k - n, n);
    PowPositive(2, k - n);
    PowPositive(2, n);
    BinaryDivide(m, Pow(2, k - n), Pow(2, n));
  }

  ghost function Inverse2(k: nat): (r: real)
    ensures r > 0.0
  {
    PowPositive(2, k);
    Pow(2, k) as real
  }

  lemma BinaryCancel(m: int, a: nat, b: nat)
    requires a > 0
    ensures (m * b) as real == (m * (a * b)) as real / a as real
  {
    assert m * (a * b) == (m * b) * a;
    RealProduct(m * b, a);
  }

  lemma BinaryDivide(m: int, a: nat, b: nat)
    requires a > 0 && b > 0
    ensures a * b > 0 && m as real / a as real == (m * b) as real / (a * b) as real
  {
    RealProduct(m, b);
    RealProduct(a, b);
    var x, y, z := m as real, a as real, b as real;
    assert (x / y) * (y * z) == x * z by {
      RealAssoc(x / y, y, z);
    }
    assert y * z > 0.0;
    DivideBy(x * z, y * z, x / y);
  }

  lemma RealAssoc(a: real, b: real, c: real)
    ensures a * (b * c) == (a * b) * c
  {}

  lemma BinaryInjective(m: int, n: int, e: int)
    requires BinaryValue(m, e) == BinaryValue(n, e)
    ensures m == n
  {
    if e >= 0 {
      PowPositive(2, e);
      MultipleWithinOne(m - n, Pow(2, e));
      assert (m - n) * Pow(2, e) == m * Pow(2, e) - n * Pow(2, e);
    } else {
      PowPositive(2, -e);
      var u := Pow(2, -e) as real;
      assert (m as real / u) * u == m as real && (n as real / u) * u == n as real;
    }
  }

  /** A finite double's magnitude determines its significand and, when not zero, its exponent. */
  lemma MagnitudeDetermines(a: Double, b: Double)
    requires a.Finite? && b.Finite? && BinaryValue(a.M(), a.E2()) == BinaryValue(b.M(), b.E2())
    ensures a.M() == b.M() && (a.M() != 0 ==> a.E2() == b.E2())
  {
    if a.E2() <= b.E2() {
      MagnitudeOrdered(a, b);
    } else {
      MagnitudeOrdered(b, a);
    }
  }

  lemma MagnitudeOrdered(a: Double, b: Double)
    requires a.Finite? && b.Finite? && BinaryValue(a.M(), a.E2()) == BinaryValue(b.M(), b.E2())
    requires a.E2() <= b.E2()
    ensures a.M() == b.M() && (a.M() != 0 ==> a.E2() == b.E2())
  {
    hide BinaryValue;
    var n := b.E2() - a.E2();
    BinaryShift(b.M(), a.E2(), n);
    BinaryInjective(a.M(), b.M() * Pow(2, n), a.E2());
    assert Pow(2, 0) == 1;
    if n > 0 {
      PowPositive(2, n - 1);
      TwiceAtLeast(b.M(), Pow(2, n - 1));
    }
  }

  lemma TwiceAtLeast(m: int, q: nat)
    requires m >= 0 && q >= 1
    ensures m * (2 * q) >= 2 * m
  {
    assert m * (q - 1) >= 0;
  }

  /** A larger double never prints as a smaller number. */
  lemma FormatGMonotone(a: Double, b: Double, p: nat)
    requires a.Finite? && b.Finite? && p >= 1 && RealValue(a) <= RealValue(b)
    ensures TextValue(FormatGText(a, p)) <= TextValue(FormatGText(b, p))
  {
    hide *;
    var (q, e) := Representative(a, p);
    var (r, f) := Representative(b, p);
    FormatGNearest(a, p, r, f);
    FormatGNearest(b, p, q, e);
    NearestOrdered(TextValue(FormatGText(a, p)), TextValue(FormatGText(b, p)), RealValue(a), RealValue(b));
    if RealValue(a) == RealValue(b) { SameValueSameText(a, b, p); }
  }

  ghost function Representative(v: Double, p: nat): (r: (int, int))
    requires v.Finite? && p >= 1
    ensures Abs(r.0) <= Pow(10, p)
    ensures TextValue(FormatGText(v, p)) == Decimal(r.0, r.1)
  {
    HasRepresentative(v, p);
    var q, e :| Abs(q) <= Pow(10, p) && TextValue(FormatGText(v, p)) == Decimal(q, e);
    (q, e)
  }

  lemma HasRepresentative(v: Double, p: nat)
    requires v.Finite? && p >= 1
    ensures exists q: int, e: int :: Abs(q) <= Pow(10, p) && TextValue(FormatGText(v, p)) == Decimal(q, e)
  {
    hide FormatGText, TextValue, Decimal, RealValue;
    PowPositive(10, p);
    var q, e := FormatGTiesToEven(v, p, 0, 0);
  }

  lemma NearestOrdered(ra: real, rb: real, a: real, b: real)
    requires a <= b && RAbs(ra - a) <= RAbs(rb - a) && RAbs(rb - b) <= RAbs(ra - b)
    ensures ra <= rb || a == b
  {}

  lemma SameValueSameText(a: Double, b: Double, p: nat)
    requires a.Finite? && b.Finite? && p >= 1 && RealValue(a) == RealValue(b)
    ensures TextValue(FormatGText(a, p)) == TextValue(FormatGText(b, p))
  {
    hide Decimal, Dec, FormatGText, TextValue, BinaryValue;
    BinarySign(a.M(), a.E2());
    BinarySign(b.M(), b.E2());
    MagnitudeDetermines(a, b);
    FormatGReads(a, p);
    FormatGReads(b, p);
    assert Rounded(a, p) == Rounded(b, p);
    if a.M() == 0 {
      ZeroDenotes(Rounded(a, p).0, Rounded(a, p).1);
    }
  }

  lemma BinarySign(m: int, e2: int)
    requires m >= 0
    ensures BinaryValue(m, e2) >= 0.0
    ensures BinaryValue(m, e2) == 0.0 <==> m == 0
  {
    ZeroBinary(e2);
    if BinaryValue(m, e2) == 0.0 { BinaryInjective(m, 0, e2); }
    if e2 >= 0 { PowPositive(2, e2); MulLe(0, m, 0, Pow(2, e2)); }
    else { PowPositive(2, -e2); Ratio(m as real, Pow(2, -e2) as real); }
  }

  lemma Ratio(a: real, b: real)
    requires a >= 0.0 && b > 0.0
    ensures a / b >= 0.0
  {
    assert (a / b) * b == a;
  }
}
