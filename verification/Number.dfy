/**
 The number printer: the exact decimal expansion of a double, rounding to `p` significant digits
 with ties to even, and the layout of C's `%.{p}g` (section 7.21.6.1 of C11).
 */
module Number {
  import opened Arith
  import opened BigNum

  // The specification of each step is arithmetic on whole numbers; the methods work on digits with
  // carries, as the program does.

  // ---- doubles ---------------------------------------------------------

  /** The bit fields of an IEEE-754 double, split by class. */
  datatype DoubleBits =
    | NaN(neg: bool)
    | Infinite(neg: bool)
    | Finite(neg: bool, rawExp: int, frac: int)
  {
    ghost predicate Valid() {
      Finite? ==> 0 <= rawExp <= 2046 && 0 <= frac < 0x10_0000_0000_0000
    }

    /** The integer significand. */
    function M(): int
      requires Finite?
    {
      if rawExp == 0 then frac else frac + 0x10_0000_0000_0000
    }

    /** The binary exponent of the significand's unit. */
    function E2(): int
      requires Finite?
    {
      if rawExp == 0 then -1074 else rawExp - 1075
    }
  }

  type Double = d: DoubleBits | d.Valid() witness Finite(false, 0, 0)

  /** `m * 2^e2` as a real number. */
  ghost function BinaryValue(m: int, e2: int): real
  {
    if e2 >= 0 then (m * Pow(2, e2)) as real
    else PowPositive(2, -e2); m as real / Pow(2, -e2) as real
  }

  ghost function RealValue(v: Double): real
    requires v.Finite?
  {
    if v.neg then -BinaryValue(v.M(), v.E2()) else BinaryValue(v.M(), v.E2())
  }

  /** The magnitude. */
  ghost function Size(v: Double): real
    requires v.Finite?
  {
    BinaryValue(v.M(), v.E2())
  }

  // ---- decimal numbers -------------------------------------------------

  /** `k * 10^j`. */
  ghost function Decimal(k: int, j: int): real
  {
    k as real * Ten(j)
  }

  /** The number `D1.D2D3... * 10^x`. */
  ghost function Denote(d: seq<int>, x: int): real
  {
    Decimal(Dec(d), x - |d| + 1)
  }

  /** The decimal digits of a positive number; none for zero. */
  function DecimalDigits(n: nat): (d: seq<int>)
    ensures Digits(d) && Dec(d) == n
    ensures n > 0 ==> d != [] && d[0] != 0
    decreases n
  {
    if n == 0 then [] else
      DecSnoc(DecimalDigits(n / 10), n % 10);
      DecimalDigits(n / 10) + [n % 10]
  }

  lemma DecimalDigitsUnique(d: seq<int>)
    requires Digits(d) && d != [] && d[0] != 0
    ensures Dec(d) > 0 && DecimalDigits(Dec(d)) == d
  {
    hide Pow, Dec;
    DecLeading(d);
    PowPositive(10, |d| - 1);
    var c := DecimalDigits(Dec(d));
    DecLeading(c);
    PowExponentStrict(10, |d| - 1, |c|);
    PowExponentStrict(10, |c| - 1, |d|);
    DecInjective(c, d);
  }

  // ---- exact digits ----------------------------------------------------

  /** The whole number whose digits are the exact expansion: `m*2^e2`, or `m*5^k` when `e2 = -k`. */
  ghost function ExpansionNumber(m: int, e2: int): int
  {
    if e2 >= 0 then m * Pow(2, e2) else m * Pow(5, -e2)
  }

  lemma ExpansionPositive(m: int, e2: int)
    requires m > 0
    ensures ExpansionNumber(m, e2) > 0
  {
    if e2 >= 0 { PowPositive(2, e2); AtLeastOne(m, Pow(2, e2)); }
    else { PowPositive(5, -e2); AtLeastOne(m, Pow(5, -e2)); }
  }

  ghost function ExactDigitsOf(m: int, e2: int): (r: (seq<int>, int))
    requires m > 0
  {
    ExpansionPositive(m, e2);
    var d := DecimalDigits(ExpansionNumber(m, e2));
    (d, if e2 >= 0 then |d| - 1 else |d| - 1 + e2)
  }

  /** The expansion is exact: its digits, read at exponent `x`, are `m * 2^e2`. */
  lemma ExactDigitsDenote(m: int, e2: int)
    requires m > 0
    ensures var (d, x) := ExactDigitsOf(m, e2);
      Digits(d) && d != [] && d[0] != 0 && x < |d| && Denote(d, x) == BinaryValue(m, e2)
  {
    ExpansionPositive(m, e2);
    var (d, x) := ExactDigitsOf(m, e2);
    if e2 >= 0 { WholeExpansion(m, e2); } else { FractionExpansion(m, -e2); }
  }

  lemma WholeExpansion(m: int, e2: nat)
    ensures Decimal(m * Pow(2, e2), 0) == BinaryValue(m, e2)
  {
    assert Ten(0) == 1.0;
  }

  lemma FractionExpansion(m: int, k: nat)
    requires k > 0
    ensures Decimal(m * Pow(5, k), 0 - k) == BinaryValue(m, 0 - k)
  {
    PowProduct(2, 5, k);
    PowPositive(2, k);
    PowPositive(5, k);
    assert Ten(0 - k) == 1.0 / Pow(10, k) as real;
    CancelFives(m, Pow(2, k), Pow(5, k));
  }

  lemma CancelFives(m: int, two: int, five: int)
    requires two > 0 && five > 0
    ensures two * five > 0
    ensures (m * five) as real * (1.0 / (two * five) as real) == m as real / two as real
  {
    var a, b, c := m as real, two as real, five as real;
    assert (two * five) as real == b * c;
    assert (m * five) as real == a * c;
    assert b * c > 0.0;
    var t := 1.0 / (b * c);
    assert t * (b * c) == 1.0;
    assert (a * c) * t * b == a * (t * (b * c));
    DivideBy(a, b, (a * c) * t);
  }

  lemma DivideBy(a: real, b: real, q: real)
    requires b > 0.0 && q * b == a
    ensures q == a / b
  {}

  method ExactDigits(m: u64, e2: int) returns (digits: seq<u8>, x: int)
    requires m > 0
    ensures (digits, x) == ExactDigitsOf(m, e2)
  {
    ExpansionPositive(m, e2);
    var big := new Big.FromU64(m);
    if e2 >= 0 {
      big.ShlBits(e2);
      digits := big.ToDecimal();
      x := |digits| - 1;
    } else {
      var k := -e2;
      big.MulPow5(k);
      digits := big.ToDecimal();
      x := |digits| - 1 - k;
    }
    DecimalDigitsUnique(digits);
  }

  // ---- rounding --------------------------------------------------------

  /** The multiple count of `t` nearest to `n`, ties to even. */
  function RoundHalfEven(n: int, t: int): int
    requires t > 0
  {
    var q, r := n / t, n % t;
    if 2 * r > t || (2 * r == t && q % 2 == 1) then q + 1 else q
  }

  function Abs(x: int): (r: nat)
    ensures x <= r && -x <= r
  {
    if x < 0 then -x else x
  }

  lemma RoundHalfEvenNearest(n: int, t: int, k: int)
    requires t > 0
    ensures var q := RoundHalfEven(n, t);
      && Abs(q * t - n) <= Abs(k * t - n)
      && (Abs(q * t - n) == Abs(k * t - n) && k != q ==> q % 2 == 0)
  {
    var f, r := n / t, n % t;
    assert n == f * t + r;
    GridDistance(f, k, t);
    assert (f + 1) * t == f * t + t;
  }

  lemma GridDistance(f: int, k: int, t: int)
    requires t > 0
    ensures k == f ==> k * t == f * t
    ensures k == f + 1 ==> k * t == f * t + t
    ensures k > f + 1 ==> k * t >= f * t + 2 * t
    ensures k < f ==> k * t <= f * t - t
  {
    var e := k - f;
    assert k * t == f * t + e * t;
    if e >= 2 { MultipleAtLeast(e - 2, t); assert e * t == (e - 2) * t + 2 * t; }
    if e <= -1 { MultipleAtLeast(-1 - e, t); assert e * t == -((-1 - e) * t) - t; }
  }

  lemma MultipleAtLeast(e: nat, t: nat)
    ensures e * t >= 0
  {}

  /** Rounding to `p` significant digits, stated on the digits' value. */
  ghost function RoundToOf(d: seq<int>, x: int, p: nat): (r: (seq<int>, int))
    requires p >= 1 && Digits(d) && (|d| > p ==> d[0] != 0)
  {
    if |d| <= p then (d, x) else
      PowPositive(10, |d| - p);
      var q := RoundHalfEven(Dec(d), Pow(10, |d| - p));
      RoundedRange(d, p);
      (DecimalDigits(q), if q == Pow(10, p) then x + 1 else x)
  }

  /** The kept part is the value's quotient, the dropped part its remainder. */
  lemma SplitDigits(d: seq<int>, p: nat)
    requires p < |d| && Digits(d)
    ensures Pow(10, |d| - p) > 0
    ensures Dec(d) / Pow(10, |d| - p) == Dec(d[..p])
    ensures Dec(d) % Pow(10, |d| - p) == Dec(d[p..])
  {
    assert d == d[..p] + d[p..];
    DecAppend(d[..p], d[p..]);
    DecBound(d[p..]);
    PowPositive(10, |d| - p);
    DivModUnique(Dec(d), Pow(10, |d| - p), Dec(d[..p]), Dec(d[p..]));
  }

  lemma RoundedRange(d: seq<int>, p: nat)
    requires p >= 1 && Digits(d) && |d| > p && d[0] != 0
    ensures Pow(10, |d| - p) > 0
    ensures Pow(10, p - 1) <= RoundHalfEven(Dec(d), Pow(10, |d| - p)) <= Pow(10, p)
  {
    SplitDigits(d, p);
    DecLeading(d[..p]);
  }

  /** The dropped digits against one half of the last kept place. */
  lemma HalfTest(r: seq<int>)
    requires Digits(r) && r != []
    ensures r[0] > 5 ==> 2 * Dec(r) > Pow(10, |r|)
    ensures r[0] < 5 ==> 2 * Dec(r) < Pow(10, |r|)
    ensures r[0] == 5 ==> (2 * Dec(r) == Pow(10, |r|) <==> forall i :: 1 <= i < |r| ==> r[i] == 0)
    ensures r[0] == 5 ==> 2 * Dec(r) >= Pow(10, |r|)
  {
    assert r == r[..1] + r[1..];
    DecAppend(r[..1], r[1..]);
    assert Dec(r[..1]) == r[0] by { assert r[..1][..0] == []; }
    DecBound(r[1..]);
    DecZero(r[1..]);
    assert (forall i :: 0 <= i < |r[1..]| ==> r[1..][i] == 0) <==> (forall i :: 1 <= i < |r| ==> r[i] == 0) by {
      assert forall i :: 1 <= i < |r| ==> r[i] == r[1..][i - 1];
    }
    var h := Pow(10, |r| - 1);
    LeadScale(r[0], h);
  }

  lemma LeadScale(a: int, h: nat)
    requires 0 <= a <= 9
    ensures a >= 6 ==> a * h >= 6 * h
    ensures a <= 4 ==> a * h <= 4 * h
  {
    if a >= 6 { assert (a - 6) * h >= 0; }
    if a <= 4 { assert (4 - a) * h >= 0; }
  }

  lemma {:induction false} DecZero(d: seq<int>)
    requires Digits(d)
    ensures Dec(d) == 0 <==> forall i :: 0 <= i < |d| ==> d[i] == 0
  {
    if d != [] {
      var n := |d| - 1;
      DecZero(d[..n]);
      DecBound(d[..n]);
      assert forall i :: 0 <= i < n ==> d[i] == d[..n][i];
    }
  }

  /** Whether the kept digits go up: past one half, or on a tie when the last kept digit is odd. */
  method RoundsUp(digits: seq<u8>, p: nat) returns (up: bool)
    requires 1 <= p < |digits| && Digits(digits) && digits[0] != 0
    ensures Pow(10, |digits| - p) > 0
    ensures RoundHalfEven(Dec(digits), Pow(10, |digits| - p)) == Dec(digits[..p]) + (if up then 1 else 0)
  {
    hide Dec, Pow, RoundHalfEven;
    var firstDropped := digits[p];
    if firstDropped > 5 {
      up := true;
    } else if firstDropped < 5 {
      up := false;
    } else if forall i :: p + 1 <= i < |digits| ==> digits[i] == 0 {
      up := digits[p - 1] % 2 == 1;
    } else {
      up := true;
    }
    RoundUpDecision(digits, p, up);
  }

  /** Rounds digits half-to-even; a carry out of the first digit yields `1` and `p` zeros. */
  method RoundTo(digits: seq<u8>, x: int, p: nat) returns (kept: seq<u8>, x': int)
    requires p >= 1 && Digits(digits) && (|digits| > p ==> digits[0] != 0)
    ensures (kept, x') == RoundToOf(digits, x, p)
  {
    x' := x;
    if |digits| <= p {
      kept := digits;
      return;
    }
    kept := digits[..p];
    hide Dec, Pow, RoundHalfEven;
    var roundUp := RoundsUp(digits, p);
    RoundedAs(digits, x, p, Dec(kept) + if roundUp then 1 else 0);
    DecLeading(kept);
    hide RoundToOf;
    if !roundUp {
      DecimalDigitsUnique(kept);
      return;
    }
    var carried;
    kept, carried := Increment(kept);
    if carried {
      kept := [1] + seq(p, _ => 0);
      assert kept == [1] + Zeros(p);
      CarriedDigits(p);
      x' := x + 1;
    } else {
      DecBound(kept);
      DecimalDigitsUnique(kept);
    }
  }

  /** What rounding gives when the rounded quotient is `q`. */
  lemma RoundedAs(d: seq<int>, x: int, p: nat, q: int)
    requires p >= 1 && Digits(d) && |d| > p && d[0] != 0 && Pow(10, |d| - p) > 0
    requires q == RoundHalfEven(Dec(d), Pow(10, |d| - p))
    ensures 0 < Pow(10, p - 1) <= q <= Pow(10, p)
    ensures RoundToOf(d, x, p) == (DecimalDigits(q), if q == Pow(10, p) then x + 1 else x)
  {
    hide Dec, Pow, RoundHalfEven;
    RoundedRange(d, p);
    PowPositive(10, p - 1);
  }

  /** Adds one to the last digit with carries; `carried` when every digit was a nine. */
  method Increment(digits: seq<u8>) returns (kept: seq<u8>, carried: bool)
    requires Digits(digits) && digits != [] && digits[0] != 0
    ensures carried <==> Dec(digits) + 1 == Pow(10, |digits|)
    ensures |kept| == |digits| && Digits(kept)
    ensures !carried ==> Dec(kept) == Dec(digits) + 1 && kept[0] != 0
  {
    kept := digits;
    var p := |digits|;
    var i := p;
    assert kept[..i] == kept;
    assert Pow(10, 0) == 1;
    while true
      invariant 0 <= i <= p == |kept|
      invariant Digits(kept)
      invariant i > 0 ==> kept[0] != 0
      invariant (Dec(kept[..i]) + 1) * Pow(10, p - i) == Dec(digits) + 1
      invariant forall k :: i <= k < p ==> kept[k] == 0
      decreases i
    {
      if i == 0 {
        assert kept[..0] == [];
        return kept, true;
      }
      i := i - 1;
      CarryPlace(kept, i);
      if kept[i] == 9 {
        kept := kept[i := 0];
      } else {
        CarryEnds(kept, i, p);
        kept := kept[i := kept[i] + 1];
        DecBound(kept);
        return kept, false;
      }
    }
  }

  /** The carry into place `i` when its digit is a nine. */
  lemma CarryPlace(kept: seq<int>, i: nat)
    requires i < |kept|
    ensures kept[i := 0][..i] == kept[..i]
    ensures kept[i] == 9 ==>
      (Dec(kept[..i + 1]) + 1) * Pow(10, |kept| - i - 1) == (Dec(kept[..i]) + 1) * Pow(10, |kept| - i)
  {
    assert kept[..i + 1] == kept[..i] + [kept[i]];
    DecSnoc(kept[..i], kept[i]);
    var h, s := Dec(kept[..i]) + 1, Pow(10, |kept| - i - 1);
    assert Pow(10, |kept| - i) == 10 * s;
    MulAssoc(h, 10, s);
  }

  lemma CarryEnds(kept: seq<int>, i: nat, p: nat)
    requires i < p == |kept| && forall k :: i < k < p ==> kept[k] == 0
    ensures Dec(kept[i := kept[i] + 1]) == (Dec(kept[..i + 1]) + 1) * Pow(10, p - i - 1)
  {
    var up := kept[i := kept[i] + 1];
    assert up == up[..i + 1] + Zeros(p - i - 1);
    DecAppend(up[..i + 1], Zeros(p - i - 1));
    DecZeros(p - i - 1);
    assert up[..i + 1] == kept[..i] + [kept[i] + 1] && kept[..i + 1] == kept[..i] + [kept[i]];
    DecSnoc(kept[..i], kept[i] + 1);
    DecSnoc(kept[..i], kept[i]);
  }

  lemma CarriedDigits(p: nat)
    ensures DecimalDigits(Pow(10, p)) == [1] + Zeros(p)
  {
    DecOne();
    hide Dec, Pow, DecimalDigits;
    DecAppend([1], Zeros(p));
    DecZeros(p);
    var d := [1] + Zeros(p);
    assert Digits(d) && d[0] == 1;
    DecimalDigitsUnique(d);
  }

  lemma DecOne()
    ensures Dec([1]) == 1
  {
    assert [1][..0] == [];
  }

  /** The digit comparison decides the rounding as the remainder against half a unit does. */
  lemma RoundUpDecision(d: seq<int>, p: nat, up: bool)
    requires p >= 1 && Digits(d) && |d| > p && d[0] != 0
    requires up <==> d[p] > 5 || (d[p] == 5 && ((exists i :: p + 1 <= i < |d| && d[i] != 0) || d[p - 1] % 2 == 1))
    ensures Pow(10, |d| - p) > 0
    ensures RoundHalfEven(Dec(d), Pow(10, |d| - p)) == Dec(d[..p]) + (if up then 1 else 0)
  {
    hide Dec, Pow;
    SplitDigits(d, p);
    var r := d[p..];
    HalfTest(r);
    assert (exists i :: p + 1 <= i < |d| && d[i] != 0) <==> !(forall i :: 1 <= i < |r| ==> r[i] == 0) by {
      assert forall i :: p <= i < |d| ==> d[i] == r[i - p];
    }
    LastDigitParity(d[..p]);
    RoundByHalf(Dec(d), Pow(10, |d| - p), up, Dec(d[..p]), Dec(r));
  }

  lemma LastDigitParity(d: seq<int>)
    requires d != []
    ensures Dec(d) % 2 == d[|d| - 1] % 2
  {}

  lemma RoundByHalf(n: int, t: int, up: bool, q: int, r: int)
    requires t > 0 && n / t == q && n % t == r
    requires up <==> 2 * r > t || (2 * r == t && q % 2 == 1)
    ensures RoundHalfEven(n, t) == q + (if up then 1 else 0)
  {}
}
