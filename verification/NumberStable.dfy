/**
 When a canonical number prints the same text again after it has been converted back. Conversion
 is correctly rounded: it gives a double nearest the text's number.
 */
module NumberStable {
  import opened Wrappers
  import opened Arith
  import opened BigNum
  import opened Number
  import opened NumberText
  import opened NumberResults
  import opened JsonNumber

  // ---- correct rounding ------------------------------------------------

  /** No finite double is nearer the text's number, and the sign is the text's. */
  ghost predicate Converts(t: string, m: Double) {
    && m.Finite? && t != "" && (m.neg <==> t[0] == '-')
    && forall k: Double :: k.Finite? ==> RAbs(TextValue(t) - RealValue(m)) <= RAbs(TextValue(t) - RealValue(k))
  }

  /** Every printed number converts to a nearest double; none is too large to. */
  ghost predicate Correct(toDouble: string -> Double) {
    forall n: Double :: n.Finite? ==> Converts(JsonNumberText(n), toDouble(JsonNumberText(n)))
  }

  /** The text of the double its text converts to is the same. */
  ghost predicate PrintsSame(n: Double, toDouble: string -> Double) {
    JsonNumberText(toDouble(JsonNumberText(n))) == JsonNumberText(n)
  }

  /** The magnitude printed by `%.8g`. */
  ghost function Printed(n: Double): real
    requires n.Finite?
  {
    Denote(Rounded(n, 8).0, Rounded(n, 8).1)
  }

  /** Printed with an exponent, though the number printed is within the integer gate. */
  ghost predicate InGap(n: Double)
    requires n.Finite?
  {
    Rounded(n, 8).1 >= 8 && Printed(n) <= INTEGER_GATE as real
  }

  /**
   `n` prints as a power of ten, and the double `m` nearest that power lies below it, by more than
   half a unit of the finer digits that start there.
   */
  ghost predicate Slips(n: Double, m: Double)
    requires n.Finite? && m.Finite?
  {
    var x := MagnitudeDigits(n).1;
    Size(m) < Ten(x) && 2.0 * (Ten(x) - Size(m)) > Ten(x - 8)
  }

  /** `m` is nearest `r` among magnitudes. */
  ghost predicate NearestTo(r: real, m: Double) {
    m.Finite? && forall k: Double :: k.Finite? ==> RAbs(r - Size(m)) <= RAbs(r - Size(k))
  }

  /** The sign plays no part. */
  lemma NearestSize(t: string, m: Double, r: real)
    requires Converts(t, m) && TextValue(t) == if m.neg then -r else r
    ensures NearestTo(r, m)
  {
    hide TextValue, BinaryValue;
    forall k: Double | k.Finite? ensures RAbs(r - Size(m)) <= RAbs(r - Size(k)) {
      var k': Double := Finite(m.neg, k.rawExp, k.frac);
      assert RAbs(TextValue(t) - RealValue(m)) <= RAbs(TextValue(t) - RealValue(k'));
    }
  }

  lemma NearestExact(r: real, m: Double, k: Double)
    requires NearestTo(r, m) && k.Finite? && Size(k) == r
    ensures Size(m) == r
  {
    hide BinaryValue;
  }

  // ---- equal magnitudes print alike ------------------------------------

  lemma SizeText(a: Double, b: Double)
    requires a.Finite? && b.Finite? && Size(a) == Size(b) && (a.neg == b.neg || Size(a) == 0.0)
    ensures JsonNumberText(a) == JsonNumberText(b) && (PrintsAsInteger(a) <==> PrintsAsInteger(b))
  {
    hide BinaryValue, Rounded, StripZeros, Layout, IntText;
    MagnitudeDetermines(a, b);
    BinarySign(a.M(), a.E2());
    if a.M() == 0 {
      ZeroWhole(a);
      ZeroWhole(b);
    }
  }

  lemma ZeroWhole(a: Double)
    requires a.Finite? && a.M() == 0
    ensures PrintsAsInteger(a) && Whole(a) == 0
  {
    if a.E2() < 0 { PowPositive(2, -a.E2()); }
  }

  // ---- the distance to the rounded number ------------------------------

  lemma HalfEvenNear(n: int, t: int)
    requires t > 0
    ensures 2 * Abs(RoundHalfEven(n, t) * t - n) <= t
    ensures 2 * Abs(RoundHalfEven(n, t) * t - n) == t ==> RoundHalfEven(n, t) % 2 == 0
  {
    var q, r := n / t, n % t;
    assert n == q * t + r;
    assert (q + 1) * t == q * t + t;
  }

  /** The rounded magnitude is within half a unit, exactly half only when even. */
  lemma HalfUnit(d: seq<int>, x: int, p: nat)
    requires Long(d, p)
    ensures RoundedDenotes(d, x, p) == Decimal(Quotient(d, p), x - p + 1)
    ensures 2.0 * RAbs(RoundedDenotes(d, x, p) - Denote(d, x)) <= Ten(x - p + 1)
    ensures 2.0 * RAbs(RoundedDenotes(d, x, p) - Denote(d, x)) == Ten(x - p + 1) ==> Quotient(d, p) % 2 == 0
  {
    hide RAbs, Ten, Pow, RoundedDenotes, Dec, Decimal, RoundHalfEven;
    RoundedOnGrid(d, x, p);
    TenAdd(x - |d| + 1, |d| - p);
    PowPositive(10, |d| - p);
    var t := Pow(10, |d| - p);
    HalfEvenNear(Dec(d), t);
    var q := RoundHalfEven(Dec(d), t);
    hide Quotient;
    HalfScaled(q * t, Dec(d), t, x - |d| + 1);
  }

  lemma DecimalDistance(a: int, b: int, j: int)
    ensures RAbs(Decimal(a, j) - Decimal(b, j)) == Abs(a - b) as real * Ten(j)
  {
    hide Ten;
    TenPositive(j);
    Difference(a, b, Ten(j));
  }

  lemma HalfScaled(a: int, b: int, t: nat, j: int)
    ensures 2 * Abs(a - b) <= t ==> 2.0 * RAbs(Decimal(a, j) - Decimal(b, j)) <= Ten(j) * t as real
    ensures 2.0 * RAbs(Decimal(a, j) - Decimal(b, j)) == Ten(j) * t as real ==> 2 * Abs(a - b) == t
  {
    hide Ten, RAbs, Decimal;
    TenPositive(j);
    DecimalDistance(a, b, j);
    Doubled(Abs(a - b), t, Ten(j));
  }

  lemma Doubled(a: nat, t: nat, u: real)
    requires u > 0.0
    ensures 2 * a <= t ==> 2.0 * (a as real * u) <= u * t as real
    ensures 2.0 * (a as real * u) == u * t as real ==> 2 * a == t
  {
    var e := (t - 2 * a) as real;
    assert u * t as real - 2.0 * (a as real * u) == e * u;
    if e > 0.0 { assert e * u > 0.0; } else if e < 0.0 { assert (-e) * u > 0.0; }
  }

  // ---- rounding a magnitude near a grid point --------------------------

  /** Two decimals within half a unit of one number are equal, or neighbours with ties on both sides. */
  lemma GridPoints(k: int, q: int, j: int, mid: real)
    requires 2.0 * RAbs(Decimal(q, j) - mid) <= Ten(j)
    requires RAbs(Decimal(k, j) - mid) <= RAbs(Decimal(q, j) - mid)
    ensures k == q || (Abs(k - q) == 1 && 2.0 * RAbs(Decimal(q, j) - mid) == Ten(j)
      && RAbs(Decimal(k, j) - mid) == RAbs(Decimal(q, j) - mid))
  {
    hide Ten, RAbs, Decimal;
    TenPositive(j);
    var s := Abs(k - q);
    DecimalDistance(k, q, j);
    AtLeastTwo(s, Ten(j));
    Triangle(Decimal(q, j), Decimal(k, j), mid, Ten(j));
  }

  lemma Triangle(a: real, b: real, mid: real, u: real)
    requires 2.0 * RAbs(a - mid) <= u && RAbs(b - mid) <= RAbs(a - mid)
    ensures RAbs(b - a) <= u
    ensures RAbs(b - a) == u ==> 2.0 * RAbs(a - mid) == u && RAbs(b - mid) == RAbs(a - mid)
  {}

  lemma AtLeastTwo(s: nat, u: real)
    requires u > 0.0
    ensures s >= 2 ==> s as real * u > u
    ensures s == 1 ==> s as real * u == u
  {
    if s >= 2 { assert (s - 2) as real * u >= 0.0; }
  }

  ghost predicate IsMagnitude(d: seq<int>) {
    Digits(d) && d != [] && d[0] != 0
  }

  /** What rounding to eight digits denotes. */
  ghost function RoundedTo8(d: seq<int>, x: int): real
    requires IsMagnitude(d)
  {
    if |d| > 8 then RoundedDenotes(d, x, 8) else Denote(d, x)
  }

  lemma ScaledUp(k: int, j: int, e: int) returns (k': int)
    requires j <= e
    ensures Decimal(k', j) == Decimal(k, e) && (j < e ==> k' % 2 == 0) && (j == e ==> k' == k)
  {
    DecimalShift(k, j, e - j);
    k' := k * Pow(10, e - j);
    if j < e {
      assert Pow(10, e - j) == 10 * Pow(10, e - j - 1);
      EvenTimes(k, Pow(10, e - j - 1));
    }
  }

  lemma EvenTimes(k: int, p: int)
    ensures (k * (10 * p)) % 2 == 0
  {
    assert k * (10 * p) == 2 * (k * (5 * p));
  }

  /** A magnitude within half a unit of a decimal on or above its grid rounds to it, an even one on a tie. */
  lemma RoundsTo(d: seq<int>, x: int, q: int, j: int)
    requires IsMagnitude(d) && j <= x - 7 && 0 <= q <= Pow(10, 8)
    requires 2.0 * RAbs(Decimal(q, j) - Denote(d, x)) <= Ten(j)
    requires 2.0 * RAbs(Decimal(q, j) - Denote(d, x)) == Ten(j) ==> q % 2 == 0
    ensures RoundedTo8(d, x) == Decimal(q, j)
  {
    RoundedCases(d, x);
    NatAbs(q);
    hide *;
    if |d| > 8 {
      LongOne(d);
      RoundedOnGrid(d, x, 8);
      var k := ScaledUp(Quotient(d, 8), j, x - 7);
      NearestMagnitude(d, x, 8, q, j);
      GridPoints(k, q, j, Denote(d, x));
      if k % 2 == 0 && q % 2 == 0 { NotBothEven(k, q); }
    } else {
      var k := ScaledUp(Dec(d), j, x - |d| + 1);
      NotNearer(Decimal(q, j), Denote(d, x));
      GridPoints(k, q, j, Denote(d, x));
    }
  }

  lemma RoundedCases(d: seq<int>, x: int)
    requires IsMagnitude(d)
    ensures |d| > 8 ==> Long(d, 8) && RoundedTo8(d, x) == RoundedDenotes(d, x, 8)
    ensures |d| <= 8 ==> RoundedTo8(d, x) == Denote(d, x)
    ensures Denote(d, x) == Decimal(Dec(d), x - |d| + 1)
  {}

  lemma NatAbs(q: int)
    requires q >= 0
    ensures Abs(q) == q
  {}

  lemma NotNearer(a: real, b: real)
    ensures RAbs(b - b) == 0.0 && RAbs(b - b) <= RAbs(a - b)
    ensures RAbs(b - b) == RAbs(a - b) ==> a == b
  {}

  lemma NotBothEven(k: int, q: int)
    requires k % 2 == 0 && q % 2 == 0
    ensures Abs(k - q) != 1
  {}

  lemma LongOne(d: seq<int>)
    requires IsMagnitude(d) && |d| > 8
    ensures Long(d, 8)
  {}

  // ---- digits are determined by the number -----------------------------

  /** Equal numbers, first digits not zero: the same exponent. */
  lemma SameExponent(d: seq<int>, x: int, e: seq<int>, y: int)
    requires IsMagnitude(d) && IsMagnitude(e) && Denote(d, x) == Denote(e, y)
    ensures x == y
  {
    hide Ten, Denote;
    DenoteRange(d, x);
    DenoteRange(e, y);
    TenBelow(x, y + 1);
    TenBelow(y, x + 1);
  }

  /** And after stripping zeros the same digits. */
  lemma SameStripped(d: seq<int>, e: seq<int>, x: int, keep: nat)
    requires IsMagnitude(d) && IsMagnitude(e) && Denote(d, x) == Denote(e, x)
    requires keep >= 1 && |d| >= keep && |e| >= keep
    ensures StripZeros(d, keep) == StripZeros(e, keep)
  {
    hide Denote, StripZeros;
    var s, r := StripZeros(d, keep), StripZeros(e, keep);
    StripKeeps(d, keep);
    StripKeeps(e, keep);
    StripDenotes(d, keep, x);
    StripDenotes(e, keep, x);
    StripDigits(d, keep);
    StripDigits(e, keep);
    if |s| <= |r| { StrippedEqual(s, r, x, keep); } else { StrippedEqual(r, s, x, keep); }
  }

  lemma StripDigits(d: seq<int>, keep: nat)
    requires IsMagnitude(d) && StripZeros(d, keep) != []
    ensures IsMagnitude(StripZeros(d, keep))
    ensures var s := StripZeros(d, keep); |s| > keep ==> s[|s| - 1] != 0
  {}

  lemma StrippedEqual(s: seq<int>, r: seq<int>, x: int, keep: nat)
    requires Digits(s) && Digits(r) && s != [] && r != [] && keep <= |s| <= |r|
    requires |r| > keep ==> r[|r| - 1] != 0
    requires Denote(s, x) == Denote(r, x)
    ensures s == r
  {
    hide Ten, Pow, Decimal, Dec;
    var j, a := x - |r| + 1, |r| - |s|;
    var k := ScaledUp(Dec(s), j, x - |s| + 1);
    DecimalSame(k, Dec(r), j);
    if a > 0 {
      assert k == Dec(s) * Pow(10, a) by {
        DecimalShift(Dec(s), j, a);
        DecimalSame(k, Dec(s) * Pow(10, a), j);
      }
      LastDigitZero(r, Dec(s), a);
    } else {
      DecInjective(s, r);
    }
  }

  lemma DecimalSame(a: int, b: int, j: int)
    requires Decimal(a, j) == Decimal(b, j)
    ensures a == b
  {
    if a < b { DecimalLt(a, b, j); } else if b < a { DecimalLt(b, a, j); }
  }

  lemma LastDigitZero(r: seq<int>, k: int, a: nat)
    requires Digits(r) && r != [] && a > 0 && Dec(r) == k * Pow(10, a)
    ensures r[|r| - 1] == 0
  {
    var head, last := Dec(r[..|r| - 1]), r[|r| - 1];
    var p := Pow(10, a - 1);
    assert Pow(10, a) == 10 * p;
    assert k * (10 * p) == 10 * (k * p);
  }

  /** `%.8g` prints a magnitude's rounded number and nothing else of it. */
  lemma SamePrinted(a: Double, b: Double)
    requires a.Finite? && b.Finite? && a.M() != 0 && b.M() != 0 && a.neg == b.neg
    ensures FormatGText(a, 8) == FormatGText(b, 8) <==> Printed(a) == Printed(b)
  {
    hide Rounded, Layout, StripZeros, Signed, Denote, Scientific;
    FormatGReads(a, 8);
    FormatGReads(b, 8);
    if Printed(a) == Printed(b) {
      var (d, x) := Rounded(a, 8);
      var (e, y) := Rounded(b, 8);
      RoundedFirst(a, 8);
      RoundedFirst(b, 8);
      SameExponent(d, x, e, y);
      KeptDigits(a);
      KeptDigits(b);
      SameStripped(d, e, x, Kept(x, 8));
    }
  }

  lemma KeptDigits(a: Double)
    requires a.Finite?
    ensures 1 <= Kept(Rounded(a, 8).1, 8) <= |Rounded(a, 8).0|
  {
    hide Rounded;
    RoundedDigits(a, 8);
  }

  // ---- from a double to its text's double ------------------------------

  /** A positive magnitude by its digits. */
  lemma MagnitudeOf(n: Double)
    requires n.Finite? && n.M() != 0
    ensures var (d, x) := MagnitudeDigits(n);
      IsMagnitude(d) && Size(n) == Denote(d, x) && Printed(n) == RoundedTo8(d, x) && Ten(x) <= Size(n) < Ten(x + 1)
  {
    hide Ten, Denote, Rounded, RoundToOf;
    TextMagnitude(n, 8);
    ExactDigitsDenote(n.M(), n.E2());
    var (d, x) := MagnitudeDigits(n);
    DenoteRange(d, x);
    assert Printed(n) == RoundedTo8(d, x);
  }

  /** The printed number on its grid, and how near the double it converts to is. */
  lemma OnGrid(n: Double, m: Double) returns (q: int)
    requires n.Finite? && n.M() != 0 && |MagnitudeDigits(n).0| > 8 && NearestTo(Printed(n), m)
    ensures var x := MagnitudeDigits(n).1;
      && Printed(n) == Decimal(q, x - 7) && Pow(10, 7) <= q <= Pow(10, 8)
      && 2.0 * RAbs(Printed(n) - Size(m)) <= Ten(x - 7)
      && (2.0 * RAbs(Printed(n) - Size(m)) == Ten(x - 7) ==> q % 2 == 0)
      && Ten(x) <= Printed(n) <= Ten(x + 1) && 10000000.0 * Ten(x - 7) == Ten(x)
  {
    hide Ten, Pow, Denote, Dec, RAbs, Size, Printed, MagnitudeDigits, RoundedDenotes, Decimal, Quotient;
    MagnitudeOf(n);
    var (d, x) := MagnitudeDigits(n);
    LongOne(d);
    q := Quotient(d, 8);
    HalfUnit(d, x, 8);
    assert RAbs(Printed(n) - Size(m)) <= RAbs(Printed(n) - Size(n));
    Mirrored(Printed(n), Size(n));
    GridEnds(q, x);
  }

  lemma Mirrored(a: real, b: real)
    ensures RAbs(a - b) == RAbs(b - a)
  {}

  lemma SevenDigits()
    ensures Pow(10, 7) == 10000000 && Pow(10, 8) == 100000000
  {
    Billion();
    assert Pow(10, 9) == 10 * Pow(10, 8) && Pow(10, 8) == 10 * Pow(10, 7);
  }

  /** Eight digits from `10^x` to `10^(x+1)`. */
  lemma GridEnds(q: int, x: int)
    requires Pow(10, 7) <= q <= Pow(10, 8)
    ensures Ten(x) <= Decimal(q, x - 7) <= Ten(x + 1)
    ensures 10000000.0 * Ten(x - 7) == Ten(x) && 10.0 * Ten(x - 8) == Ten(x - 7) && 10.0 * Ten(x) == Ten(x + 1)
    ensures Decimal(100000000, x - 8) == Ten(x) && Ten(x - 8) > 0.0
  {
    hide Ten, Pow;
    SevenDigits();
    DecimalLe(10000000, q, x - 7);
    DecimalLe(q, 100000000, x - 7);
    TenAdd(x - 7, 7);
    TenStep(x - 8);
    TenStep(x);
    TenPositive(x - 8);
  }

  /** Above the decade's start the converted double rounds to the same number. */
  lemma AboveStart(n: Double, m: Double)
    requires n.Finite? && n.M() != 0 && |MagnitudeDigits(n).0| > 8 && NearestTo(Printed(n), m)
    requires Size(m) >= Ten(MagnitudeDigits(n).1)
    ensures m.M() != 0 && Printed(m) == Printed(n)
  {
    hide Ten, Pow, Denote, Decimal, Dec, RAbs, Size, Printed, MagnitudeDigits, RoundedTo8;
    var q := OnGrid(n, m);
    var x := MagnitudeDigits(n).1;
    TenPositive(x);
    SizeZero(m);
    MagnitudeOf(m);
    var (e, y) := MagnitudeDigits(m);
    TenBelow(x, y + 1);
    RoundsTo(e, y, q, x - 7);
  }

  lemma SizeZero(m: Double)
    requires m.Finite?
    ensures Size(m) >= 0.0 && (Size(m) == 0.0 <==> m.M() == 0)
  {
    BinarySign(m.M(), m.E2());
  }

  /** Below it the number printed is the power of ten, and what lies below is printed finer. */
  lemma BelowStart(n: Double, m: Double)
    requires n.Finite? && n.M() != 0 && |MagnitudeDigits(n).0| > 8 && NearestTo(Printed(n), m)
    requires Size(m) < Ten(MagnitudeDigits(n).1)
    ensures m.M() != 0 && (Printed(m) == Printed(n) <==> !Slips(n, m)) && Printed(n) == Ten(MagnitudeDigits(n).1)
  {
    hide Ten, Pow, Denote, Decimal, Dec, RAbs, Size, Printed, MagnitudeDigits, RoundedTo8;
    var q := OnGrid(n, m);
    var x := MagnitudeDigits(n).1;
    GridEnds(q, x);
    SevenDigits();
    SizeZero(m);
    Apart(Printed(n), Size(m));
    StartOfGrid(q, x, Size(m));
    assert m.M() != 0;
    MagnitudeOf(m);
    var (e, y) := MagnitudeDigits(m);
    TenBelow(y, x);
    if 2.0 * (Ten(x) - Size(m)) <= Ten(x - 8) {
      TenStep(x - 1);
      TenBelow(x - 1, y + 1);
      RoundsTo(e, y, 100000000, x - 8);
    } else {
      FinerError(e, y, x, Size(m));
    }
  }

  lemma Apart(a: real, b: real)
    requires b <= a
    ensures RAbs(a - b) == a - b
  {}

  /** Half a unit above a number below the decade's start, the grid has only the start. */
  lemma StartOfGrid(q: int, x: int, s: real)
    requires Pow(10, 7) <= q && s < Ten(x) && 2.0 * (Decimal(q, x - 7) - s) <= Ten(x - 7)
    requires 10000000.0 * Ten(x - 7) == Ten(x)
    ensures Decimal(q, x - 7) == Ten(x)
  {
    hide Ten, Pow;
    SevenDigits();
    TenPositive(x - 7);
    var u := Ten(x - 7);
    if q > 10000000 {
      assert (q - 10000001) as real * u >= 0.0;
      assert q as real * u == (q - 10000001) as real * u + 10000001.0 * u;
    }
  }

  /** A magnitude below the start is off by at most half a finer unit. */
  lemma FinerError(e: seq<int>, y: int, x: int, s: real)
    requires IsMagnitude(e) && Denote(e, y) == s && y < x && s < Ten(x) && 2.0 * (Ten(x) - s) > Ten(x - 8)
    ensures RoundedTo8(e, y) != Ten(x)
  {
    hide Ten, Pow, Denote, Decimal, Dec, RAbs, RoundedDenotes, Quotient;
    if |e| > 8 {
      LongOne(e);
      HalfUnit(e, y, 8);
      TenMonotone(y - 7, x - 8);
      Apart(Ten(x), s);
    }
  }

  /** For a number of more than eight digits: the same is printed again unless it slips. */
  lemma SlipIff(n: Double, m: Double)
    requires n.Finite? && n.M() != 0 && |MagnitudeDigits(n).0| > 8 && NearestTo(Printed(n), m)
    ensures m.M() != 0 && (Printed(m) == Printed(n) <==> !Slips(n, m))
  {
    hide Ten, Size, Printed, MagnitudeDigits;
    if Size(m) >= Ten(MagnitudeDigits(n).1) { AboveStart(n, m); } else { BelowStart(n, m); }
  }

  // ---- whole numbers ---------------------------------------------------

  /** A double with a whole magnitude is that whole number. */
  lemma WholeOf(d: Double, k: nat)
    requires d.Finite? && Size(d) == k as real
    ensures Integral(d) && Whole(d) == k
  {
    if d.E2() < 0 { QuotientWhole(d.M(), Two(-d.E2()), k); }
  }

  lemma QuotientWhole(m: nat, p: nat, k: nat)
    requires p > 0 && m as real / p as real == k as real
    ensures m % p == 0 && m / p == k
  {
    RealProduct(k, p);
    assert m as real == k as real * p as real;
    assert m == k * p;
    DivModUnique(m, p, k, 0);
  }

  /** A printed integer's magnitude. */
  lemma WholePrinted(m: Double)
    requires PrintsAsInteger(m)
    ensures Size(m) == Whole(m) as real && 0 <= Whole(m) <= INTEGER_GATE
    ensures m.M() != 0 ==> Whole(m) > 0
  {
    hide BinaryValue, Whole, Integral;
    WholeValue(m);
    BinarySign(m.M(), m.E2());
  }

  // ---- the text --------------------------------------------------------

  lemma FormattedText(n: Double)
    requires n.Finite? && !PrintsAsInteger(n)
    ensures n.M() != 0 && JsonNumberText(n) == FormatGText(n, 8)
    ensures TextValue(JsonNumberText(n)) == if n.neg then -Printed(n) else Printed(n)
    ensures JsonNumberText(n) != "" && (JsonNumberText(n)[0] == '-' <==> n.neg)
  {
    hide Rounded, StripZeros, Layout, Denote;
    if n.M() == 0 { ZeroWhole(n); }
    FormatGReads(n, 8);
    var (d, x) := Rounded(n, 8);
    StripKeeps(d, Kept(x, 8));
    RoundedDigits(n, 8);
    LayoutReads(StripZeros(d, Kept(x, 8)), x, 8);
  }

  /** The double a printed number converts to. */
  lemma ConvertedSize(n: Double, toDouble: string -> Double)
    requires Correct(toDouble) && n.Finite? && !PrintsAsInteger(n)
    ensures var m := toDouble(JsonNumberText(n));
      m.Finite? && m.neg == n.neg && NearestTo(Printed(n), m)
  {
    hide JsonNumberText, FormatGText, TextValue, Printed, PrintsAsInteger;
    FormattedText(n);
    assert Converts(JsonNumberText(n), toDouble(JsonNumberText(n)));
    NearestSize(JsonNumberText(n), toDouble(JsonNumberText(n)), Printed(n));
  }

  lemma IntegerPlain(m: Double)
    requires PrintsAsInteger(m)
    ensures 'e' !in JsonNumberText(m)
  {
    hide Integral, Whole;
    var t := IntText(Whole(m));
    IntTextReads(Whole(m));
    assert forall i :: 0 <= i < |t| ==> IsDigit(t[i]);
  }

  lemma ExponentMarked(mant: string, exp: string, neg: bool)
    ensures 'e' in Signed(neg, mant + "e" + exp)
  {
    var t := mant + "e" + exp;
    assert t[|mant|] == 'e';
    assert neg ==> ("-" + t)[|mant| + 1] == 'e';
  }

  lemma FormattedExponent(n: Double)
    requires n.Finite? && Rounded(n, 8).1 >= 8
    ensures 'e' in FormatGText(n, 8)
  {
    hide Rounded, StripZeros, ExponentText, PointText, Signed;
    var (d, x) := Rounded(n, 8);
    StripKeeps(d, Kept(x, 8));
    ExponentMarked(PointText(StripZeros(d, Kept(x, 8)), 1), ExponentText(x), n.neg && n.M() != 0);
  }

  /** With an exponent the text is no printed integer's. */
  lemma ExponentDiffers(n: Double, m: Double)
    requires n.Finite? && !PrintsAsInteger(n) && Rounded(n, 8).1 >= 8 && PrintsAsInteger(m)
    ensures JsonNumberText(m) != JsonNumberText(n)
  {
    hide *;
    IntegerPlain(m);
    FormattedText(n);
    FormattedExponent(n);
  }

  /** A whole number's digits, laid out without an exponent. */
  lemma WholeLayout(d: seq<int>, x: int, w: nat)
    requires IsMagnitude(d) && Denote(d, x) == w as real && w > 0 && x < 8 && |d| >= Kept(x, 8) && |d| >= x + 1
    ensures var s := StripZeros(d, Kept(x, 8)); s != [] && Layout(s, x, 8) == IntText(w)
  {
    hide Ten, Denote, Decimal, Dec, StripZeros, DecimalDigits;
    DenoteRange(d, x);
    PositiveExponent(x, w);
    var s := StripZeros(d, x + 1);
    StripKeeps(d, x + 1);
    StripDigits(d, x + 1);
    StripDenotes(d, x + 1, x);
    WholeDigits(s, x, w);
    DecimalDigitsUnique(s);
    assert s[..x + 1] == s;
  }

  lemma PositiveExponent(x: int, w: nat)
    requires w as real < Ten(x + 1) && w > 0
    ensures x >= 0
  {
    hide Ten;
    TenWhole(0);
    TenBelow(0, x + 1);
  }

  lemma WholeDigits(s: seq<int>, x: int, w: nat)
    requires IsMagnitude(s) && x >= 0 && |s| >= x + 1 && (|s| > x + 1 ==> s[|s| - 1] != 0) && Denote(s, x) == w as real
    ensures |s| == x + 1 && Dec(s) == w
  {
    hide Ten, Decimal, Dec;
    var j := x - |s| + 1;
    assert Decimal(w, 0) == w as real by { DecimalWhole(w); }
    var k := ScaledUp(w, j, 0);
    assert k == w * Pow(10, -j) by {
      DecimalShift(w, j, -j);
      DecimalSame(k, w * Pow(10, -j), j);
    }
    DecimalSame(Dec(s), k, j);
    if j < 0 { LastDigitZero(s, w, -j); }
  }

  /** A whole number near a point of a grid no coarser than one is that point. */
  lemma WholeNear(q: int, j: int, w: nat)
    requires j <= 0 && 2.0 * RAbs(Decimal(q, j) - w as real) <= Ten(j)
    ensures Decimal(q, j) == w as real
  {
    hide Ten, RAbs, Decimal;
    assert Decimal(w, 0) == w as real by { DecimalWhole(w); }
    var k := ScaledUp(w, j, 0);
    DecimalDistance(q, k, j);
    TenPositive(j);
    var s := Abs(q - k);
    if s >= 1 { AtLeastTwo(s, Ten(j)); }
  }

  lemma ExponentOrder(n: Double)
    requires n.Finite? && n.M() != 0 && |MagnitudeDigits(n).0| > 8
    ensures MagnitudeDigits(n).1 <= Rounded(n, 8).1
    ensures Printed(n) < Ten(Rounded(n, 8).1 + 1) && Ten(Rounded(n, 8).1) <= Printed(n)
  {
    hide Ten, Decimal, Denote, Dec, MagnitudeDigits, RoundedDenotes, Quotient;
    MagnitudeOf(n);
    var (d, x) := MagnitudeDigits(n);
    LongOne(d);
    HalfUnit(d, x, 8);
    GridEnds(Quotient(d, 8), x);
    RoundedFirst(n, 8);
    hide Rounded;
    DenoteRange(Rounded(n, 8).0, Rounded(n, 8).1);
    TenBelow(x, Rounded(n, 8).1 + 1);
  }

  /** Without an exponent, converting to a whole number prints the same digits. */
  lemma IntegerAgain(n: Double, m: Double)
    requires n.Finite? && !PrintsAsInteger(n) && n.M() != 0 && |MagnitudeDigits(n).0| > 8 && Rounded(n, 8).1 < 8
    requires NearestTo(Printed(n), m) && PrintsAsInteger(m) && m.neg == n.neg && m.M() != 0
    ensures JsonNumberText(m) == JsonNumberText(n) && Size(m) == Printed(n)
  {
    hide Ten, Decimal, Dec, MagnitudeDigits, Rounded, StripZeros, Layout, IntText, Whole, Size, RAbs, Denote;
    var q := OnGrid(n, m);
    ExponentOrder(n);
    WholePrinted(m);
    WholeNear(q, MagnitudeDigits(n).1 - 7, Whole(m));
    var (d, x) := Rounded(n, 8);
    RoundedFirst(n, 8);
    KeptDigits(n);
    RoundedDigits(n, 8);
    PlainNotScientific(x, d, Whole(m));
    WholeLayout(d, x, Whole(m));
    FormattedText(n);
  }

  lemma PlainNotScientific(x: int, d: seq<int>, w: nat)
    requires IsMagnitude(d) && Denote(d, x) == w as real && w > 0 && x < 8
    ensures x >= 0 && !Scientific(x, 8)
  {
    hide Ten, Denote;
    DenoteRange(d, x);
    PositiveExponent(x, w);
  }

  // ---- the gap ---------------------------------------------------------

  /** The integer gate is a double. */
  const GATE: Double := Finite(false, 1085, 4480775372629504)

  /** The first double without a fraction of its own: 2^53. */
  const TOP: Double := Finite(false, 1076, 0)

  lemma LargeDoubles()
    ensures Size(GATE) == INTEGER_GATE as real && Size(TOP) == 0x20_0000_0000_0000 as real
  {
    assert Pow(2, 1) == 2;
    assert Pow(2, 5) == 32;
    PowAdd(2, 5, 5);
    assert GATE.M() == 8984375000000000 && GATE.E2() == 10;
    assert TOP.M() == 0x10_0000_0000_0000 && TOP.E2() == 1;
  }

  /** `v` halved `e` times, its significand filled up. */
  function Normal(v: nat, e: nat): (r: Double)
    requires 0 < v < 0x20_0000_0000_0000 && e <= 52 && Two(e) <= v
    ensures r.Finite?
    decreases 0x20_0000_0000_0000 - v
  {
    if v >= 0x10_0000_0000_0000 then Finite(false, 1075 - e, v - 0x10_0000_0000_0000)
    else
      AtMost52(v, e);
      Normal(2 * v, e + 1)
  }

  lemma AtMost52(v: nat, e: nat)
    requires v < 0x10_0000_0000_0000 && Two(e) <= v
    ensures e + 1 <= 52 && Two(e + 1) <= 2 * v
  {
    TwoTo52();
    if e >= 52 { PowExponentMonotone(2, 52, e); }
  }

  lemma TwoTo52()
    ensures Two(52) == 0x10_0000_0000_0000
  {
    hide Pow;
    TwoTo13();
    PowAdd(2, 13, 13);
    PowAdd(2, 26, 26);
  }

  lemma TwoTo13()
    ensures Pow(2, 13) == 8192
  {
    assert Pow(2, 3) == 8;
    assert Pow(2, 5) == 32;
    PowAdd(2, 5, 5);
    PowAdd(2, 10, 3);
  }

  lemma {:induction false} NormalSize(v: nat, e: nat)
    requires 0 < v < 0x20_0000_0000_0000 && e <= 52 && Two(e) <= v
    ensures Size(Normal(v, e)) == BinaryValue(v, 0 - e)
    decreases 0x20_0000_0000_0000 - v
  {
    if v < 0x10_0000_0000_0000 {
      AtMost52(v, e);
      NormalSize(2 * v, e + 1);
      BinaryShift(v, 0 - e - 1, 1);
      assert Pow(2, 1) == 2;
    }
  }

  /** Every whole number below 2^53 is a double. */
  lemma WholeDouble(w: nat) returns (k: Double)
    requires 0 < w < 0x20_0000_0000_0000
    ensures k.Finite? && Size(k) == w as real
  {
    assert Two(0) == 1;
    k := Normal(w, 0);
    NormalSize(w, 0);
  }

  /** A double with a fraction bit is below 2^52. */
  lemma FractionSmall(m: Double)
    requires m.Finite? && m.E2() < 0
    ensures 2.0 * Size(m) < 0x20_0000_0000_0000 as real
  {
    var k := -m.E2();
    PowPositive(2, k - 1);
    assert Pow(2, k) == 2 * Pow(2, k - 1);
    HalfOrLess(m.M(), Pow(2, k));
  }

  lemma HalfOrLess(m: nat, p: nat)
    requires p >= 2 && m < 0x20_0000_0000_0000
    ensures 2.0 * (m as real / p as real) < 0x20_0000_0000_0000 as real
  {
    var r := m as real / p as real;
    assert r * p as real == m as real;
    assert r >= 0.0;
    assert r * p as real >= r * 2.0;
  }

  /** The double nearest a whole number within the gate is a whole number within it. */
  lemma GapConverts(w: nat, m: Double)
    requires 0 < w <= INTEGER_GATE && NearestTo(w as real, m)
    ensures PrintsAsInteger(m)
  {
    hide Size, Integral, Whole;
    LargeDoubles();
    SizeZero(m);
    assert RAbs(w as real - Size(m)) <= RAbs(w as real - Size(GATE));
    if m.E2() < 0 {
      FractionSmall(m);
      assert RAbs(w as real - Size(m)) <= RAbs(w as real - Size(TOP));
      var k := WholeDouble(w);
      NearestExact(w as real, m, k);
      WholeOf(m, w);
    } else {
      WholeAbove(m);
    }
  }

  lemma WholeAbove(m: Double)
    requires m.Finite? && m.E2() >= 0
    ensures Integral(m) && Size(m) == Whole(m) as real
  {}

  /** Digits up to an exponent of eight or more denote a whole number. */
  lemma WholeDenoted(d: seq<int>, x: int) returns (w: int)
    requires Digits(d) && |d| <= x + 1
    ensures Denote(d, x) == w as real
  {
    hide Ten, Decimal, Dec;
    w := ScaledUp(Dec(d), 0, x - |d| + 1);
    WholeValued(w);
  }

  lemma WholeValued(w: int)
    ensures Decimal(w, 0) == w as real
  {
    assert Ten(0) == 1.0;
  }

  /** A number in the gap converts to one that prints as an integer. */
  lemma GapIsWhole(n: Double, m: Double)
    requires n.Finite? && n.M() != 0 && |MagnitudeDigits(n).0| > 8 && InGap(n) && NearestTo(Printed(n), m)
    ensures PrintsAsInteger(m)
  {
    hide Ten, Decimal, Dec, MagnitudeDigits, Rounded, Size, PrintsAsInteger, Denote;
    ExponentOrder(n);
    RoundedShort(n);
    var w := WholeDenoted(Rounded(n, 8).0, Rounded(n, 8).1);
    TenPositive(Rounded(n, 8).1);
    GapConverts(w, m);
  }

  lemma RoundedShort(n: Double)
    requires n.Finite? && n.M() != 0 && |MagnitudeDigits(n).0| > 8
    ensures |Rounded(n, 8).0| <= 9
  {
    hide Dec, RoundHalfEven, MagnitudeDigits;
    var (d, x) := MagnitudeDigits(n);
    MagnitudeOf(n);
    RoundedRange(d, 8);
    RoundedLength(RoundHalfEven(Dec(d), Pow(10, |d| - 8)), 8);
  }

  /** Past the gate nothing converts back to within it. */
  lemma PastGate(n: Double, m: Double)
    requires n.Finite? && n.M() != 0 && |MagnitudeDigits(n).0| > 8 && NearestTo(Printed(n), m)
    requires Printed(n) > INTEGER_GATE as real
    ensures !PrintsAsInteger(m)
  {
    hide Ten, Pow, Decimal, Dec, MagnitudeDigits, Size, Printed, RAbs, Whole, Integral;
    var q := OnGrid(n, m);
    var x := MagnitudeDigits(n).1;
    if PrintsAsInteger(m) {
      WholePrinted(m);
      GridEnds(q, x);
      TenPositive(x - 7);
      if x <= 24 { GateOnGrid(q, x, Size(m)); } else { FarPast(x, Printed(n), Size(m)); }
    }
  }

  /** The gate is a point of every grid up to 10^17. */
  lemma GateOnGrid(q: int, x: int, s: real)
    requires x <= 24 && Decimal(q, x - 7) > INTEGER_GATE as real
    requires 2.0 * RAbs(Decimal(q, x - 7) - s) <= Ten(x - 7)
    ensures s > INTEGER_GATE as real
  {
    hide Ten, Pow, Decimal;
    GateDecimal();
    var g := ScaledUp(92, x - 7, 17);
    if q <= g { DecimalLe(q, g, x - 7); }
    assert q > g;
    DecimalLe(g + 1, q, x - 7);
    DecimalNext(g, x - 7);
    TenPositive(x - 7);
  }

  lemma DecimalNext(g: int, j: int)
    ensures Decimal(g + 1, j) == Decimal(g, j) + Ten(j)
  {}

  lemma GateDecimal()
    ensures Decimal(92, 17) == INTEGER_GATE as real
  {
    hide Pow;
    SevenDigits();
    PowAdd(10, 8, 8);
    PowTenStep(16);
  }

  lemma PowTenStep(e: nat)
    ensures Pow(10, e + 1) == 10 * Pow(10, e)
  {}

  lemma FarPast(x: int, r: real, s: real)
    requires x > 24 && r >= Ten(x) && 2.0 * RAbs(r - s) <= Ten(x - 7) && 10000000.0 * Ten(x - 7) == Ten(x)
    ensures s > INTEGER_GATE as real
  {
    hide Ten, Pow;
    TenMonotone(19, x);
    TenPositive(x - 7);
    SevenDigits();
    PowAdd(10, 8, 8);
    PowTenStep(16);
    PowTenStep(17);
    PowTenStep(18);
    TenWhole(19);
  }

  // ---- when the same text is printed again -----------------------------

  lemma IntegerStable(n: Double, toDouble: string -> Double)
    requires Correct(toDouble) && PrintsAsInteger(n)
    ensures PrintsSame(n, toDouble)
  {
    hide JsonNumberText, Integral, Whole, TextValue, RealValue;
    var t := JsonNumberText(n);
    var m := toDouble(t);
    WholeNumberReads(n);
    assert Converts(t, m);
    SameReal(t, m, n);
    IntegerSign(n);
    SizeText(m, n);
  }

  lemma SameReal(t: string, m: Double, n: Double)
    requires Converts(t, m) && n.Finite? && TextValue(t) == RealValue(n)
    ensures Size(m) == Size(n) && RealValue(m) == RealValue(n)
  {
    hide TextValue, BinaryValue;
    assert RAbs(TextValue(t) - RealValue(m)) <= RAbs(TextValue(t) - RealValue(n));
    SizeZero(m);
    SizeZero(n);
  }

  lemma IntegerSign(n: Double)
    requires PrintsAsInteger(n)
    ensures (JsonNumberText(n) != "" && (JsonNumberText(n)[0] == '-' <==> n.neg)) || Size(n) == 0.0
  {
    hide Whole, Integral, IntText, BinaryValue;
    WholePrinted(n);
    IntTextIsNumber(Whole(n));
  }

  /** At most eight digits: nothing is lost, and the number is not whole within the gate. */
  lemma ShortStable(n: Double, toDouble: string -> Double)
    requires Correct(toDouble) && n.Finite? && !PrintsAsInteger(n) && n.M() != 0 && |MagnitudeDigits(n).0| <= 8
    ensures var m := toDouble(JsonNumberText(n));
      m.Finite? && PrintsSame(n, toDouble) && !InGap(n) && !Slips(n, m)
  {
    hide Ten, Denote, MagnitudeDigits, Rounded, Size, JsonNumberText, PrintsAsInteger;
    var m := toDouble(JsonNumberText(n));
    ConvertedSize(n, toDouble);
    MagnitudeOf(n);
    TextMagnitude(n, 8);
    NearestExact(Printed(n), m, n);
    SizeText(m, n);
    if InGap(n) {
      var (d, x) := MagnitudeDigits(n);
      var w := WholeDenoted(d, x);
      TenPositive(x);
      WholeOf(n, w);
      GateWhole(n, w);
    }
  }

  lemma GateWhole(n: Double, w: nat)
    requires n.Finite? && Integral(n) && Whole(n) == w && w <= INTEGER_GATE
    ensures PrintsAsInteger(n)
  {}

  lemma LongStable(n: Double, toDouble: string -> Double)
    requires Correct(toDouble) && n.Finite? && !PrintsAsInteger(n) && n.M() != 0 && |MagnitudeDigits(n).0| > 8
    ensures var m := toDouble(JsonNumberText(n));
      m.Finite? && (PrintsSame(n, toDouble) <==> !InGap(n) && !Slips(n, m))
  {
    hide MagnitudeDigits, Rounded, Size, JsonNumberText, PrintsAsInteger, NearestTo, Slips, Printed, FormatGText, Ten;
    var m := toDouble(JsonNumberText(n));
    ConvertedSize(n, toDouble);
    SlipIff(n, m);
    if PrintsAsInteger(m) {
      if Rounded(n, 8).1 < 8 {
        IntegerAgain(n, m);
        WholeNoSlip(n, m);
      } else {
        ExponentDiffers(n, m);
        if Printed(n) > INTEGER_GATE as real { PastGate(n, m); }
      }
    } else {
      if InGap(n) { GapIsWhole(n, m); }
      FormattedText(n);
      FormattedText(m);
      SamePrinted(m, n);
    }
  }

  lemma WholeNoSlip(n: Double, m: Double)
    requires n.Finite? && n.M() != 0 && |MagnitudeDigits(n).0| > 8 && NearestTo(Printed(n), m) && Size(m) == Printed(n)
    ensures !Slips(n, m)
  {
    hide MagnitudeDigits, Ten, Size, Printed, RAbs, Pow, Decimal;
    var q := OnGrid(n, m);
  }

  /**
   Printing a number, converting the text and printing again gives the same text exactly when the
   number prints as an integer, or it neither falls in the gap (its text has an exponent although
   the number printed is within the integer gate) nor slips below a power of ten.
   */
  lemma PrintsSameIff(n: Double, toDouble: string -> Double)
    requires Correct(toDouble) && n.Finite?
    ensures var m := toDouble(JsonNumberText(n));
      m.Finite? && (PrintsSame(n, toDouble) <==> PrintsAsInteger(n) || (!InGap(n) && !Slips(n, m)))
  {
    hide MagnitudeDigits, Rounded, JsonNumberText, PrintsAsInteger, InGap, Slips, PrintsSame;
    assert Converts(JsonNumberText(n), toDouble(JsonNumberText(n)));
    if PrintsAsInteger(n) {
      IntegerStable(n, toDouble);
    } else {
      FormattedText(n);
      if |MagnitudeDigits(n).0| > 8 { LongStable(n, toDouble); } else { ShortStable(n, toDouble); }
    }
  }

  // ---- the two exceptions ----------------------------------------------

  /** Every number from 10^8 on that is not whole is in the gap. */
  lemma FractionInGap(n: Double)
    requires n.Finite? && !Integral(n) && Size(n) >= 100000000.0
    ensures !PrintsAsInteger(n) && InGap(n)
  {
    hide Ten, Pow, Decimal, Dec, MagnitudeDigits, Rounded, Denote, Size, Integral, Quotient, RoundedDenotes;
    FractionBelow(n);
    SizeZero(n);
    MagnitudeOf(n);
    var (d, x) := MagnitudeDigits(n);
    EightTens();
    TenBelow(8, x + 1);
    TenBelow(x, 16);
    if |d| > 8 {
      ExponentOrder(n);
      TenMonotone(x + 1, 16);
      LongOne(d);
      HalfUnit(d, x, 8);
      GridEnds(Quotient(d, 8), x);
    } else {
      var w := WholeDenoted(d, x);
      WholeOf(n, w);
    }
  }

  lemma FractionBelow(n: Double)
    requires n.Finite? && !Integral(n)
    ensures 2.0 * Size(n) < 0x20_0000_0000_0000 as real && !PrintsAsInteger(n)
  {
    FractionSmall(n);
  }

  lemma EightTens()
    ensures Ten(8) == 100000000.0 && Ten(16) == 10000000000000000.0
  {
    hide Pow;
    SevenDigits();
    PowAdd(10, 8, 8);
  }

  lemma BinaryLinear(a: int, e: int)
    ensures BinaryValue(a, e) == a as real * BinaryValue(1, e) && BinaryValue(1, e) > 0.0
  {
    if e >= 0 {
      PowPositive(2, e);
      RealProduct(a, Pow(2, e));
    } else {
      PowPositive(2, 0 - e);
      Reciprocal(a as real, Pow(2, 0 - e) as real);
    }
  }

  lemma Reciprocal(a: real, p: real)
    requires p > 0.0
    ensures a / p == a * (1.0 / p) && 1.0 / p > 0.0
  {
    assert (1.0 / p) * p == 1.0;
    assert (a * (1.0 / p)) * p == a;
    DivideBy(a, p, a * (1.0 / p));
  }

  /** A larger unit exponent, a larger number. */
  lemma BinaryUnits(a: nat, e: int, f: int)
    requires e <= f
    ensures BinaryValue(a, e) <= BinaryValue(a, f)
  {
    hide BinaryValue;
    BinaryShift(a, e, f - e);
    PowPositive(2, f - e);
    BinaryLinear(a, e);
    BinaryLinear(a * Pow(2, f - e), e);
    MulLe(1, Pow(2, f - e), a, a);
    RealMulLe(BinaryValue(1, e), a as real, (a * Pow(2, f - e)) as real);
  }

  /** The next double's magnitude is one unit more. */
  lemma NextDouble(m: Double) returns (k: Double)
    requires m.Finite? && (m.E2() < 971 || m.frac + 1 < 0x10_0000_0000_0000)
    ensures k.Finite? && Size(k) == BinaryValue(m.M() + 1, m.E2())
  {
    if m.frac + 1 < 0x10_0000_0000_0000 {
      k := Finite(false, m.rawExp, m.frac + 1);
    } else {
      k := Finite(false, m.rawExp + 1, 0);
      if m.rawExp > 0 {
        BinaryShift(0x10_0000_0000_0000, m.E2(), 1);
        assert Pow(2, 1) == 2;
      }
    }
  }

  /** Below another double there is a next one. */
  lemma HasNext(m: Double, n: Double)
    requires m.Finite? && n.Finite? && Size(m) < Size(n)
    ensures m.E2() < 971 || m.frac + 1 < 0x10_0000_0000_0000
  {
    hide BinaryValue;
    if m.E2() == 971 && m.frac + 1 >= 0x10_0000_0000_0000 {
      BinaryLinear(n.M(), 971);
      BinaryLinear(m.M(), 971);
      RealMulLe(BinaryValue(1, 971), n.M() as real, m.M() as real);
      BinaryUnits(n.M(), n.E2(), 971);
    }
  }

  /** Nothing lies between the nearest double below a number and the number but less than one unit. */
  lemma UnitAway(r: real, m: Double, n: Double)
    requires n.Finite? && NearestTo(r, m) && Size(m) < r <= Size(n)
    ensures r - Size(m) <= BinaryValue(1, m.E2())
  {
    hide BinaryValue;
    HasNext(m, n);
    var k := NextDouble(m);
    BinaryLinear(m.M() + 1, m.E2());
    BinaryLinear(m.M(), m.E2());
    assert Size(k) == Size(m) + BinaryValue(1, m.E2());
    assert RAbs(r - Size(m)) <= RAbs(r - Size(k));
  }

  /** Only a subnormal number slips: the doubles nearest to it are further apart than its last digits. */
  lemma SlipsSubnormal(n: Double, m: Double)
    requires n.Finite? && m.Finite? && n.M() != 0 && |MagnitudeDigits(n).0| > 8
    requires NearestTo(Printed(n), m) && Slips(n, m)
    ensures n.rawExp == 0 && m.rawExp == 0
  {
    hide Ten, Pow, Denote, Decimal, Dec, RAbs, BinaryValue, Printed, MagnitudeDigits, NearestTo,
      Quotient, RoundedDenotes;
    BelowStart(n, m);
    MagnitudeOf(n);
    var (d, x) := MagnitudeDigits(n);
    LongOne(d);
    HalfUnit(d, x, 8);
    GridEnds(Quotient(d, 8), x);
    UnitAway(Ten(x), m, n);
    BinaryLinear(m.M(), m.E2());
    FewUnits(m.M(), BinaryValue(1, m.E2()), 200000000, Ten(x), Ten(x - 8));
    assert m.rawExp == 0;
    Within(Ten(x), Size(n), Ten(x - 7));
    NormalIsLarge(n);
  }

  lemma NormalIsLarge(n: Double)
    requires n.Finite?
    ensures n.rawExp > 0 ==> Size(n) >= 0x10_0000_0000_0000 as real * BinaryValue(1, -1074)
    ensures BinaryValue(1, -1074) > 0.0
  {
    hide BinaryValue;
    BinaryUnits(n.M(), -1074, n.E2());
    BinaryLinear(n.M(), -1074);
    if n.rawExp > 0 { RealMulLe(BinaryValue(1, -1074), 0x10_0000_0000_0000 as real, n.M() as real); }
  }

  lemma Within(a: real, b: real, u: real)
    requires 2.0 * RAbs(a - b) <= u
    ensures 2.0 * b <= 2.0 * a + u
  {}

  /** A number below `t` of units larger than half of `f`, of which `t` has 10^8. */
  lemma FewUnits(a: nat, u: real, k: nat, t: real, f: real)
    requires u > 0.0 && a as real * u < t && t == 100000000.0 * f && f < 2.0 * u && k == 200000000
    ensures a < k
  {
    ScaleLe(k, a, u);
  }

  /** So a normal number prints the same again exactly when it is an integer's or outside the gap. */
  lemma NormalSameIff(n: Double, toDouble: string -> Double)
    requires Correct(toDouble) && n.Finite? && n.rawExp > 0
    ensures PrintsSame(n, toDouble) <==> PrintsAsInteger(n) || !InGap(n)
  {
    hide MagnitudeDigits, Rounded, JsonNumberText, InGap, Slips, PrintsSame, PrintsAsInteger, Size, Printed, NearestTo;
    PrintsSameIff(n, toDouble);
    if !PrintsAsInteger(n) {
      FormattedText(n);
      ConvertedSize(n, toDouble);
      var m := toDouble(JsonNumberText(n));
      if Slips(n, m) {
        if |MagnitudeDigits(n).0| > 8 { SlipsSubnormal(n, m); } else { ShortStable(n, toDouble); }
      }
    }
  }

  /** A number from 10^8 on that is not whole never does. */
  lemma FractionDiffers(n: Double, toDouble: string -> Double)
    requires Correct(toDouble) && n.Finite? && !Integral(n) && Size(n) >= 100000000.0
    ensures !PrintsSame(n, toDouble)
  {
    hide InGap, Slips, PrintsSame, PrintsAsInteger, Size, Integral;
    FractionInGap(n);
    PrintsSameIff(n, toDouble);
  }
}
