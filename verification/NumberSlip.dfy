/**
 A double that slips: 20240226 units of 2^-1074 prints as `1e-316`, which converts to one unit less,
 which prints as `9.9999998e-317`.
 */
module NumberSlip {
  import opened Wrappers
  import opened Arith
  import opened BigNum
  import opened Number
  import opened NumberText
  import opened NumberResults
  import opened JsonNumber
  import opened NumberStable

  const UNITS: nat := 20240226

  const SLIPPING: Double := Finite(false, 0, 20240226)

  // ---- how many units 10^-316 is ---------------------------------------

  const FIVES: nat :=
    273691106313440834164790934236311744390676160522756986671302399197224820837082148727859021164476871490478515625

  const TWOS: nat :=
    1231312693637327475383720003129487931408741852202045208373384168882678805359287831606695820465153613775207124697088

  lemma FivePowers()
    ensures Pow(5, 158) == FIVES
  {
    hide Pow;
    FiveToTwenty();
    PowAdd(5, 20, 20);
    PowAdd(5, 40, 40);
    FiveStep(79);
    PowAdd(5, 79, 79);
  }

  lemma FiveToTwenty()
    ensures Pow(5, 20) == 95367431640625
  {
    assert Pow(5, 4) == 625;
    assert Pow(5, 5) == 3125;
    PowAdd(5, 5, 5);
    PowAdd(5, 10, 10);
  }

  lemma FiveStep(e: nat)
    ensures Pow(5, e + 1) == 5 * Pow(5, e)
  {}

  lemma TwoPowers()
    ensures Pow(2, 379) == TWOS
  {
    hide Pow;
    TwoTo52();
    PowAdd(2, 52, 52);
    PowAdd(2, 104, 104);
    PowAdd(2, 208, 104);
    PowAdd(2, 312, 52);
    TwoToFifteen();
    PowAdd(2, 364, 15);
  }

  lemma TwoToFifteen()
    ensures Pow(2, 15) == 32768
  {
    assert Pow(2, 5) == 32;
    PowAdd(2, 5, 5);
    PowAdd(2, 10, 5);
  }

  /** `2^758 / 5^316` is 20240225.33..., in whole numbers. */
  lemma UnitsCounted()
    ensures var two, five := Pow(2, 758), Pow(5, 316);
      && five > 0
      && (UNITS - 1) * five < two < UNITS * five
      && 2 * two < (2 * UNITS - 1) * five
      && 200000000 * (two - (UNITS - 1) * five) > two
      && 20000000 * (UNITS * five - two) < two
  {
    hide Pow;
    FivePowers();
    TwoPowers();
    PowAdd(5, 158, 158);
    PowAdd(2, 379, 379);
  }

  ghost const UNIT: real := BinaryValue(1, -1074)

  /** `10^-316 * 5^316` is `2^758` units. */
  lemma TenInUnits()
    ensures UNIT > 0.0 && Ten(-316) * Pow(5, 316) as real == UNIT * Pow(2, 758) as real
  {
    hide Pow;
    PowProduct(2, 5, 316);
    PowAdd(2, 316, 758);
    PowPositive(2, 316);
    PowPositive(2, 758);
    PowPositive(5, 316);
    TenDown(316);
    assert UNIT == 1.0 / Pow(2, 1074) as real;
    Cancel(Pow(2, 316), Pow(5, 316), Pow(2, 758));
  }

  lemma TenDown(k: nat)
    requires k > 0
    ensures Pow(10, k) > 0 && Ten(0 - k) == 1.0 / Pow(10, k) as real
  {
    PowPositive(10, k);
  }

  lemma Cancel(a: nat, b: nat, c: nat)
    requires a > 0 && b > 0 && c > 0
    ensures a * b > 0 && a * c > 0
    ensures 1.0 / (a * b) as real * b as real == 1.0 / (a * c) as real * c as real
    ensures 1.0 / (a * c) as real > 0.0
  {
    OneOver(a, b);
    OneOver(a, c);
  }

  lemma OneOver(a: nat, b: nat)
    requires a > 0 && b > 0
    ensures a * b > 0 && 1.0 / (a * b) as real * b as real == 1.0 / a as real && 1.0 / (a * b) as real > 0.0
  {
    RealProduct(a, b);
    var r := 1.0 / (a * b) as real;
    assert r * (a * b) as real == 1.0;
    assert (r * b as real) * a as real == r * (a as real * b as real);
    DivideBy(1.0, a as real, r * b as real);
  }

  /** Where 10^-316 lies among the units. */
  lemma Located()
    ensures var t, a := Ten(-316), (UNITS - 1) as real * UNIT;
      && UNIT > 0.0 && a < t < a + UNIT && 2.0 * t < 2.0 * a + UNIT
      && 200000000.0 * (t - a) > t
      && 20000000.0 * (a + UNIT - t) < t
  {
    hide *;
    UnitsCounted();
    TenInUnits();
    ScaledBounds(Ten(-316), UNIT, Pow(5, 316), Pow(2, 758));
  }

  lemma ScaledBounds(t: real, u: real, five: int, two: int)
    requires u > 0.0 && five > 0 && t * five as real == u * two as real
    requires (UNITS - 1) * five < two < UNITS * five && 2 * two < (2 * UNITS - 1) * five
    requires 200000000 * (two - (UNITS - 1) * five) > two && 20000000 * (UNITS * five - two) < two
    ensures var a := (UNITS - 1) as real * u;
      && a < t < a + u && 2.0 * t < 2.0 * a + u && 200000000.0 * (t - a) > t && 20000000.0 * (a + u - t) < t
  {
    var k: int := UNITS - 1;
    InUnits(k, 1, t, u, five, two);
    InUnits(k + 1, 1, t, u, five, two);
    InUnits(2 * k + 1, 2, t, u, five, two);
    InUnits(200000000 * k, 199999999, t, u, five, two);
    InUnits(20000000 * (k + 1), 20000001, t, u, five, two);
  }

  /** A comparison of `k` units with `c` times the number, scaled by `5^316`. */
  lemma InUnits(k: int, c: int, t: real, u: real, five: int, two: int)
    requires u > 0.0 && five > 0 && t * five as real == u * two as real
    ensures k * five < c * two ==> k as real * u < c as real * t
    ensures k * five > c * two ==> k as real * u > c as real * t
  {
    var f, a, b := five as real, k as real * u, c as real * t;
    RealProduct(k, five);
    RealProduct(c, two);
    assert a * f == u * (k * five) as real;
    assert b * f == u * (c * two) as real by { RealShuffle(c as real, t, f); RealShuffle(u, c as real, two as real); }
    if k * five < c * two {
      RealMulLt(u, (k * five) as real, (c * two) as real);
      Unscaled(a, b, f);
    } else if k * five > c * two {
      RealMulLt(u, (c * two) as real, (k * five) as real);
      Unscaled(b, a, f);
    }
  }

  lemma Unscaled(a: real, b: real, f: real)
    requires f > 0.0 && a * f < b * f
    ensures a < b
  {
    if a >= b { RealMulLe(f, b, a); }
  }

  // ---- the double and its neighbour ------------------------------------

  /** Every finite double is a whole number of units. */
  lemma Units(k: Double) returns (s: nat)
    requires k.Finite?
    ensures Size(k) == s as real * UNIT
  {
    BinaryShift(k.M(), -1074, k.E2() + 1074);
    PowPositive(2, k.E2() + 1074);
    MulLe(0, k.M(), 0, Pow(2, k.E2() + 1074));
    s := k.M() * Pow(2, k.E2() + 1074);
    BinaryLinear(s, -1074);
  }

  lemma SlippingUnits()
    ensures Size(SLIPPING) == UNITS as real * UNIT
    ensures Size(Finite(false, 0, UNITS - 1)) == (UNITS - 1) as real * UNIT
  {
    BinaryLinear(UNITS, -1074);
    BinaryLinear(UNITS - 1, -1074);
  }

  /** The double nearest 10^-316 is the one below. */
  lemma NearestUnits(m: Double)
    requires NearestTo(Ten(-316), m)
    ensures Size(m) == (UNITS - 1) as real * UNIT
  {
    hide Ten, Size, RAbs, UNIT;
    Located();
    SlippingUnits();
    var s := Units(m);
    var k: Double := Finite(false, 0, UNITS - 1);
    assert RAbs(Ten(-316) - Size(m)) <= RAbs(Ten(-316) - Size(k));
    var a := (UNITS - 1) as real * UNIT;
    Closest(Ten(-316), a, UNIT, Size(m));
    OneUnit(s, UNITS - 1, a, UNIT);
  }

  lemma Closest(t: real, a: real, u: real, r: real)
    requires u > 0.0 && a < t && 2.0 * t < 2.0 * a + u && RAbs(t - r) <= RAbs(t - a)
    ensures a - u < r < a + u
  {}

  lemma OneUnit(s: int, k: int, a: real, u: real)
    requires u > 0.0 && a == k as real * u && a - u < s as real * u < a + u
    ensures s == k
  {
    ScaleLe(k + 1, s, u);
    ScaleLe(s, k - 1, u);
    assert (k + 1) as real * u == k as real * u + u;
    assert (k - 1) as real * u == k as real * u - u;
  }

  /** The exponent of the double is -316, and it prints as that power of ten. */
  lemma SlippingPrinted()
    ensures SLIPPING.M() != 0 && MagnitudeDigits(SLIPPING).1 == -316 && Printed(SLIPPING) == Ten(-316)
    ensures !PrintsAsInteger(SLIPPING)
  {
    hide Ten, Size, MagnitudeDigits, Printed, RoundedTo8, Denote, Decimal, RAbs;
    Located();
    SlippingUnits();
    MagnitudeOf(SLIPPING);
    var (d, x) := MagnitudeDigits(SLIPPING);
    TenStep(-316);
    TenBelow(-316, x + 1);
    TenBelow(x, -315);
    SevenDigits();
    GridEnds(10000000, x);
    AtStart(x);
    Near(Ten(x), Size(SLIPPING), Ten(x - 7));
    RoundsTo(d, x, 10000000, x - 7);
    NotWhole();
  }

  lemma AtStart(x: int)
    ensures Decimal(10000000, x - 7) == Ten(x)
  {
    hide Ten;
    TenAdd(x - 7, 7);
    SevenDigits();
  }

  lemma Near(a: real, b: real, u: real)
    requires a < b && 20000000.0 * (b - a) < a && 10000000.0 * u == a
    ensures 2.0 * RAbs(a - b) < u
  {}

  lemma NotWhole()
    ensures !PrintsAsInteger(SLIPPING)
  {
    hide Ten, Size, Whole, Integral;
    Located();
    SlippingUnits();
    TenMonotone(-316, -1);
    TenStep(-1);
    TenWhole(0);
    if PrintsAsInteger(SLIPPING) { WholePrinted(SLIPPING); }
  }

  /** However texts are converted to nearest doubles, this one does not print the same again. */
  lemma SlippingDiffers(toDouble: string -> Double)
    requires Correct(toDouble)
    ensures !PrintsSame(SLIPPING, toDouble)
  {
    hide Ten, Size, MagnitudeDigits, Printed, PrintsAsInteger, JsonNumberText, InGap, NearestTo, PrintsSame, Correct;
    SlippingPrinted();
    ConvertedSize(SLIPPING, toDouble);
    var m := toDouble(JsonNumberText(SLIPPING));
    NearestUnits(m);
    Located();
    TenEighth(-316);
    PrintsSameIff(SLIPPING, toDouble);
  }

  lemma TenEighth(x: int)
    ensures 100000000.0 * Ten(x - 8) == Ten(x)
  {
    hide Ten;
    TenAdd(x - 8, 8);
    SevenDigits();
  }
}
