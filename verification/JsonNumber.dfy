/**
 Number tokens of the JSON parser: the longest-prefix scan that mirrors C's `strtod`,
 against a declarative grammar; and the printed numbers, which are such tokens.
 */
module JsonNumber {
  import opened Wrappers
  import opened Arith
  import opened BigNum
  import opened Number
  import opened NumberText

  predicate IsSign(c: char) {
    c == '+' || c == '-'
  }

  predicate IsExponentMark(c: char) {
    c == 'e' || c == 'E'
  }

  predicate InNumberCharset(c: char) {
    IsDigit(c) || IsSign(c) || IsExponentMark(c) || c == '.'
  }

  // ---- the grammar -----------------------------------------------------

  ghost predicate DigitRun(t: string, from: nat, to: nat) {
    from <= to <= |t| && forall i :: from <= i < to ==> IsDigit(t[i])
  }

  /** `t` is a sign up to `a`, digits up to `b`, a fraction up to `c`, then an exponent. */
  ghost predicate Shape(t: string, a: nat, b: nat, c: nat) {
    && a <= b <= c <= |t|
    && (a == 0 || (a == 1 && IsSign(t[0])))
    && DigitRun(t, a, b)
    && (b == c || (t[b] == '.' && DigitRun(t, b + 1, c)))
    && (a < b || b + 1 < c)
    && (c == |t| || Exponent(t, c))
  }

  /** A complete exponent from `c` to the end: mark, optional sign, one or more digits. */
  ghost predicate Exponent(t: string, c: nat) {
    && c + 1 < |t|
    && IsExponentMark(t[c])
    && (DigitRun(t, c + 1, |t|) || (IsSign(t[c + 1]) && c + 2 < |t| && DigitRun(t, c + 2, |t|)))
  }

  ghost predicate IsNumberText(t: string) {
    exists a: nat, b: nat, c: nat :: Shape(t, a, b, c)
  }

  // ---- the scan --------------------------------------------------------

  function DigitsEnd(s: string, i: nat): (j: nat)
    requires i <= |s|
    ensures i <= j <= |s|
    ensures forall k :: i <= k < j ==> IsDigit(s[k])
    ensures j < |s| ==> !IsDigit(s[j])
    decreases |s| - i
  {
    if i < |s| && IsDigit(s[i]) then DigitsEnd(s, i + 1) else i
  }

  function SignEnd(s: string, i: nat): (j: nat)
    requires i <= |s|
    ensures i <= j <= |s|
  {
    if i < |s| && IsSign(s[i]) then i + 1 else i
  }

  function FractionEnd(s: string, i: nat): (j: nat)
    requires i <= |s|
    ensures i <= j <= |s|
  {
    if i < |s| && s[i] == '.' then DigitsEnd(s, i + 1) else i
  }

  /** Where a complete exponent starting at `i` ends, or `i` when there is none. */
  function ExponentEnd(s: string, i: nat): (j: nat)
    requires i <= |s|
    ensures i <= j <= |s|
  {
    if i < |s| && IsExponentMark(s[i]) then
      var d := SignEnd(s, i + 1);
      var e := DigitsEnd(s, d);
      if e > d then e else i
    else i
  }

  /** The number of characters the scan consumes; zero when there is no number. */
  function ScanLength(s: string): (n: nat)
    ensures n <= |s|
  {
    var a := SignEnd(s, 0);
    var b := DigitsEnd(s, a);
    var c := FractionEnd(s, b);
    if a == b && c <= b + 1 then 0 else ExponentEnd(s, c)
  }

  method SkipDigits(s: string, from: nat) returns (i: nat)
    requires from <= |s|
    ensures i == DigitsEnd(s, from)
  {
    i := from;
    while i < |s| && IsDigit(s[i])
      invariant from <= i <= |s|
      invariant DigitsEnd(s, i) == DigitsEnd(s, from)
    {
      i := i + 1;
    }
  }

  method StrtodScan(s: string) returns (i: nat)
    ensures i == ScanLength(s)
  {
    hide DigitsEnd;
    i := 0;
    if |s| > 0 && IsSign(s[0]) {
      i := i + 1;
    }
    assert i == SignEnd(s, 0);
    var start := i;
    i := SkipDigits(s, i);
    var intDigits := i - start;
    var fracDigits := 0;
    if i < |s| && s[i] == '.' {
      start := i + 1;
      i := SkipDigits(s, i + 1);
      fracDigits := i - start;
    }
    assert i == FractionEnd(s, DigitsEnd(s, SignEnd(s, 0)));
    if intDigits == 0 && fracDigits == 0 {
      return 0;
    }
    i := SkipExponent(s, i);
  }

  /** An exponent is only consumed when fully formed. */
  method SkipExponent(s: string, from: nat) returns (i: nat)
    requires from <= |s|
    ensures i == ExponentEnd(s, from)
  {
    hide DigitsEnd;
    i := from;
    if i < |s| && IsExponentMark(s[i]) {
      var j := i + 1;
      if j < |s| && IsSign(s[j]) {
        j := j + 1;
      }
      var expStart := j;
      j := SkipDigits(s, j);
      if j > expStart {
        i := j;
      }
    }
  }

  /** A consumed prefix is a number. */
  lemma ScanIsNumber(s: string)
    requires ScanLength(s) > 0
    ensures IsNumberText(s[..ScanLength(s)])
  {
    var a := SignEnd(s, 0);
    var b := DigitsEnd(s, a);
    var c := FractionEnd(s, b);
    var t := s[..ScanLength(s)];
    if |t| > c {
      var d := SignEnd(s, c + 1);
      assert Exponent(t, c);
    }
    assert Shape(t, a, b, c);
  }

  /** No longer prefix is a number: the greedy scan is maximal. */
  lemma ScanIsLongest(s: string, k: nat)
    requires k <= |s| && IsNumberText(s[..k])
    ensures 0 < k <= ScanLength(s)
  {
    var t := s[..k];
    var a: nat, b: nat, c: nat :| Shape(t, a, b, c);
    assert forall i :: 0 <= i < k ==> t[i] == s[i];
    assert a == SignEnd(s, 0) by { FirstIsSign(s, t, a, b, c); }
    var end := DigitsEnd(s, a);
    assert b <= end by { RunWithin(s, t, a, b); }
    if b < end {
      assert IsDigit(s[b]);
      assert k == b;
      BoundKnown(s, a, end, k);
    } else {
      LongestFraction(s, k, a, b, c);
    }
  }

  lemma FirstIsSign(s: string, t: string, a: nat, b: nat, c: nat)
    requires |t| <= |s| && t == s[..|t|] && Shape(t, a, b, c)
    ensures a == SignEnd(s, 0)
  {
    assert t[0] == s[0];
  }

  lemma RunWithin(s: string, t: string, from: nat, to: nat)
    requires |t| <= |s| && t == s[..|t|] && DigitRun(t, from, to)
    ensures to <= DigitsEnd(s, from)
  {
    assert forall i :: 0 <= i < |t| ==> t[i] == s[i];
  }

  lemma BoundKnown(s: string, a: nat, b: nat, k: nat)
    requires a == SignEnd(s, 0) && b == DigitsEnd(s, a) && a <= k < b
    ensures k <= ScanLength(s)
  {}

  lemma LongestFraction(s: string, k: nat, a: nat, b: nat, c: nat)
    requires k <= |s| && Shape(s[..k], a, b, c)
    requires a == SignEnd(s, 0) && b == DigitsEnd(s, a)
    ensures k <= ScanLength(s)
  {
    var t := s[..k];
    assert forall i :: 0 <= i < k ==> t[i] == s[i];
    var f := FractionEnd(s, b);
    if c > b {
      RunWithin(s, t, b + 1, c);
      if c < f {
        assert IsDigit(s[c]);
        assert k == c;
      } else {
        LongestExponent(s, k, c);
      }
    } else if k > c {
      assert s[c] == t[c] && c == f;
      LongestExponent(s, k, c);
    }
  }

  lemma LongestExponent(s: string, k: nat, c: nat)
    requires c <= k <= |s| && (c == k || Exponent(s[..k], c))
    ensures k <= ExponentEnd(s, c)
  {
    var t := s[..k];
    assert forall i :: 0 <= i < k ==> t[i] == s[i];
    if c < k {
      var d := SignEnd(s, c + 1);
      if DigitRun(t, c + 1, |t|) {
        assert IsDigit(t[c + 1]);
        RunWithin(s, t, c + 1, k);
      } else {
        RunWithin(s, t, c + 2, k);
      }
    }
  }

  /** A number text is scanned completely. */
  lemma ScanWhole(t: string)
    requires IsNumberText(t)
    ensures ScanLength(t) == |t| > 0
  {
    assert t[..|t|] == t;
    ScanIsLongest(t, |t|);
  }

  lemma NumberCharset(t: string)
    requires IsNumberText(t)
    ensures forall i :: 0 <= i < |t| ==> InNumberCharset(t[i])
  {
    var a: nat, b: nat, c: nat :| Shape(t, a, b, c);
  }

  // ---- printed numbers -------------------------------------------------

  /** The value is a whole number. */
  predicate Integral(v: Double)
    requires v.Finite?
  {
    v.E2() >= 0 || v.M() % Two(-v.E2()) == 0
  }

  /** The whole number's magnitude. */
  function Whole(v: Double): (n: int)
    requires v.Finite?
    ensures n >= 0
  {
    if v.E2() >= 0 then
      MulLe(0, v.M(), 0, Two(v.E2()));
      v.M() * Two(v.E2())
    else
      v.M() / Two(-v.E2())
  }

  const INTEGER_GATE: int := 9_200_000_000_000_000_000

  predicate PrintsAsInteger(v: Double) {
    v.Finite? && Integral(v) && Whole(v) <= INTEGER_GATE
  }

  function SignedIntText(neg: bool, n: nat): string {
    Signed(neg && n != 0, IntText(n))
  }

  /** Whole numbers within the gate print as integers (`-0` as `0`), the rest as `%.8g`. */
  ghost function JsonNumberText(v: Double): string {
    if PrintsAsInteger(v) then SignedIntText(v.neg, Whole(v)) else FormatGText(v, 8)
  }

  method FormatJsonNumber(v: Double) returns (out: string)
    ensures out == JsonNumberText(v)
  {
    if PrintsAsInteger(v) {
      out := SignedIntText(v.neg, Whole(v));
    } else {
      out := FormatGPrecision(v, 8);
    }
  }

  lemma WholeValue(v: Double)
    requires v.Finite? && Integral(v)
    ensures BinaryValue(v.M(), v.E2()) == Whole(v) as real
  {
    if v.E2() < 0 {
      var p := Two(-v.E2());
      assert v.M() == Whole(v) * p;
      RealProduct(Whole(v), p);
      DivideBy(v.M() as real, p as real, Whole(v) as real);
    }
  }

  lemma IntTextIsNumber(n: nat)
    ensures IsNumberText(IntText(n))
    ensures IntText(n) != "" && IsDigit(IntText(n)[0])
  {
    IntTextReads(n);
    assert Shape(IntText(n), 0, |IntText(n)|, |IntText(n)|);
  }

  lemma SignedIsNumber(t: string)
    requires t != "" && IsDigit(t[0]) && IsNumberText(t)
    ensures IsNumberText("-" + t)
  {
    hide Shape;
    var a: nat, b: nat, c: nat :| Shape(t, a, b, c);
    SignedShape(t, a, b, c);
  }

  lemma SignedShape(t: string, a: nat, b: nat, c: nat)
    requires t != "" && IsDigit(t[0]) && Shape(t, a, b, c)
    ensures Shape("-" + t, 1, b + 1, c + 1)
  {
    hide DigitRun, Exponent;
    var s := "-" + t;
    assert a == 0;
    RunShift(t, s, 0, b);
    if b < c {
      assert s[b + 1] == t[b];
      RunShift(t, s, b + 1, c);
    }
    if c < |t| { ExponentShift(t, s, c); }
  }

  lemma RunShift(t: string, s: string, from: nat, to: nat)
    requires s == "-" + t && DigitRun(t, from, to)
    ensures DigitRun(s, from + 1, to + 1)
  {
    assert forall i :: from < i <= to ==> s[i] == t[i - 1];
  }

  lemma ExponentShift(t: string, s: string, c: nat)
    requires s == "-" + t && Exponent(t, c)
    ensures Exponent(s, c + 1)
  {
    hide DigitRun;
    assert s[c + 1] == t[c] && s[c + 2] == t[c + 1];
    if DigitRun(t, c + 1, |t|) { RunShift(t, s, c + 1, |t|); } else { RunShift(t, s, c + 2, |t|); }
  }

  lemma PointIsNumber(d: seq<int>, n: nat)
    requires Digits(d) && 1 <= n <= |d|
    ensures Shape(PointText(d, n), 0, n, |PointText(d, n)|)
  {
    var t := PointText(d, n);
    assert forall i :: 0 <= i < n ==> t[i] == Text(d[..n])[i];
    assert n < |d| ==> t[n] == '.' && forall i :: n < i < |t| ==> t[i] == Text(d[n..])[i - n - 1];
  }

  lemma LayoutIsNumber(d: seq<int>, x: int, p: nat)
    requires Digits(d) && d != []
    requires !Scientific(x, p) ==> |d| >= x + 1
    ensures IsNumberText(Layout(d, x, p))
  {
    var t := Layout(d, x, p);
    if Scientific(x, p) {
      PointIsNumber(d, 1);
      WithExponentIsNumber(PointText(d, 1), x);
    } else if x >= 0 {
      PointIsNumber(d, x + 1);
      assert Shape(t, 0, x + 1, |t|);
    } else {
      SmallText(d, x, p);
      PointIsNumber(Zeros(-x) + d, 1);
      assert Shape(t, 0, 1, |t|);
    }
  }

  lemma WithExponentIsNumber(m: string, x: int)
    requires Shape(m, 0, 1, |m|)
    ensures IsNumberText(m + "e" + ExponentText(x))
  {
    hide Exponent, DigitRun, TwoDigits;
    TwoDigitsReads(Abs(x));
    MarkedExponent(m, if x < 0 then '-' else '+', TwoDigits(Abs(x)));
    var t := m + "e" + ExponentText(x);
    ShapeExtends(m, t);
  }

  lemma MarkedExponent(m: string, sign: char, digits: string)
    requires IsSign(sign) && AllDigits(digits) && digits != ""
    ensures Exponent(m + "e" + ([sign] + digits), |m|)
  {
    var t := m + "e" + ([sign] + digits);
    assert t[|m|] == 'e' && t[|m| + 1] == sign;
    assert forall i :: |m| + 2 <= i < |t| ==> t[i] == digits[i - |m| - 2];
  }

  lemma ShapeExtends(m: string, t: string)
    requires Shape(m, 0, 1, |m|) && |m| <= |t| && t[..|m|] == m && Exponent(t, |m|)
    ensures Shape(t, 0, 1, |m|)
  {
    hide Exponent;
    assert forall i :: 0 <= i < |m| ==> t[i] == m[i];
  }

  // ---- bounds on the exponent, and the text's length -------------------

  lemma DigitCountBound(d: seq<int>, n: nat)
    requires Digits(d) && d != [] && d[0] != 0 && Dec(d) < Pow(10, n)
    ensures |d| <= n
  {
    DecLeading(d);
    PowExponentStrict(10, |d| - 1, n);
  }

  lemma SignificandBound(v: Double)
    requires v.Finite?
    ensures 0 <= v.M() < Pow(10, 17)
    ensures -1074 <= v.E2() <= 971
  {
    Billion();
    PowAdd(10, 9, 8);
    assert Pow(10, 4) == 10000;
    PowAdd(10, 4, 4);
  }

  /** The leading exponent of a double's expansion stays below four digits. */
  lemma ExponentBound(v: Double)
    requires v.Finite?
    ensures -1074 <= MagnitudeDigits(v).1 < 1000
  {
    SignificandBound(v);
    if v.M() != 0 {
      var m, e2 := v.M(), v.E2();
      ExpansionPositive(m, e2);
      var d := DecimalDigits(ExpansionNumber(m, e2));
      var k := Abs(e2);
      PowMonotone(2, 10, k);
      PowMonotone(5, 10, k);
      var f := if e2 >= 0 then Pow(2, k) else Pow(5, k);
      PowPositive(if e2 >= 0 then 2 else 5, k);
      ProductBelow(m, Pow(10, 17), f, Pow(10, k));
      PowAdd(10, 17, k);
      DigitCountBound(d, 17 + k);
    }
  }

  lemma ProductBelow(a: nat, b: nat, c: nat, d: nat)
    requires a < b && 0 < c <= d
    ensures a * c < b * d
  {
    assert (b - a) * c > 0;
    MulLe(b, b, c, d);
    assert (b - a) * c == b * c - a * c;
  }

  lemma RoundedBound(v: Double)
    requires v.Finite?
    ensures |Rounded(v, 8).0| <= 9
    ensures -1074 <= Rounded(v, 8).1 <= 1000
  {
    ExponentBound(v);
    var (d, x) := MagnitudeDigits(v);
    if |d| > 8 {
      RoundedRange(d, 8);
      RoundedLength(RoundHalfEven(Dec(d), Pow(10, |d| - 8)), 8);
    }
  }

  lemma IntTextLength(n: nat, k: nat)
    requires n < Pow(10, k) && k >= 1
    ensures |IntText(n)| <= k
  {
    if n > 0 { DigitCountBound(DecimalDigits(n), k); }
  }

  lemma LayoutLength(d: seq<int>, x: int)
    requires Digits(d) && 1 <= |d| <= 9 && -1074 <= x <= 1000
    ensures |Layout(d, x, 8)| <= 20
  {
    assert Pow(10, 4) == 10000;
    IntTextLength(Abs(x), 4);
  }

  /** Every finite double prints as a number token short enough to be read back whole. */
  lemma JsonNumberIsToken(v: Double)
    requires v.Finite?
    ensures IsNumberText(JsonNumberText(v))
    ensures |JsonNumberText(v)| < 63
    ensures JsonNumberText(v)[0] == '-' || IsDigit(JsonNumberText(v)[0])
  {
    if PrintsAsInteger(v) {
      var n := Whole(v);
      IntTextIsNumber(n);
      SignedIsNumber(IntText(n));
      Billion();
      PowAdd(10, 9, 9);
      PowAdd(10, 18, 1);
      assert Pow(10, 1) == 10 by { assert Pow(10, 0) == 1; }
      IntTextLength(n, 19);
    } else {
      var (d, x) := Rounded(v, 8);
      RoundedBound(v);
      RoundedDigits(v, 8);
      StripKeeps(d, Kept(x, 8));
      FormatGIsToken(v, StripZeros(d, Kept(x, 8)), x);
    }
  }

  lemma FormatGIsToken(v: Double, s: seq<int>, x: int)
    requires Digits(s) && 1 <= |s| <= 9 && -1074 <= x <= 1000
    requires !Scientific(x, 8) ==> |s| >= x + 1
    ensures forall neg :: IsNumberText(Signed(neg, Layout(s, x, 8)))
    ensures forall neg :: |Signed(neg, Layout(s, x, 8))| < 63
    ensures forall neg :: Signed(neg, Layout(s, x, 8))[0] == '-' || IsDigit(Signed(neg, Layout(s, x, 8))[0])
  {
    LayoutIsNumber(s, x, 8);
    LayoutReads(s, x, 8);
    LayoutLength(s, x);
    SignedIsNumber(Layout(s, x, 8));
  }

  /** A whole number within the gate is printed exactly. */
  lemma WholeNumberReads(v: Double)
    requires PrintsAsInteger(v)
    ensures TextValue(JsonNumberText(v)) == RealValue(v)
  {
    hide TextValue, Decimal, BinaryValue, IntText, Whole, Integral;
    var n := Whole(v);
    WholeValue(v);
    IntTextPlain(n);
    IntTextIsNumber(n);
    SignReads(IntText(n), v.neg && n != 0, n, 0);
    DecimalWhole(n);
    NegateDecimal(n, 0);
    assert TextValue(JsonNumberText(v)) == RealValue(v);
  }

  lemma IntTextPlain(n: nat)
    ensures Unsigned(IntText(n)).k == n && Unsigned(IntText(n)).j == 0
  {
    IntTextReads(n);
    var body := IntText(n);
    NoExponent(body);
    DigitsHaveNo(body, '.');
    assert WithoutPoint(body) == body by { assert body[..|body|] + "" == body; }
    MantissaOf(body, CharDigits(body), 0, 0);
  }

  lemma DecimalWhole(n: nat)
    ensures Decimal(n, 0) == n as real
  {
    assert Ten(0) == 1.0;
  }
}
