/**
 The text of a number: `%.{p}g` layout, the canonical JSON number, and an independent
 reader of decimal text. The main results read the printed text back.
 */
module NumberText {
  import opened Wrappers
  import opened Arith
  import opened BigNum
  import opened Number

  // ---- characters ------------------------------------------------------

  predicate IsDigit(c: char) {
    '0' <= c <= '9'
  }

  function DigitChar(d: int): (c: char)
    requires 0 <= d <= 9
    ensures IsDigit(c) && c as int == 48 + d
  {
    (48 + d) as char
  }

  function Text(d: seq<int>): (t: string)
    requires Digits(d)
    ensures |t| == |d| && forall i :: 0 <= i < |t| ==> t[i] == DigitChar(d[i])
  {
    seq(|d|, i requires 0 <= i < |d| => DigitChar(d[i]))
  }

  ghost predicate AllDigits(s: string) {
    forall i :: 0 <= i < |s| ==> IsDigit(s[i])
  }

  function CharDigits(s: string): (d: seq<int>)
    ensures |d| == |s| && forall i :: 0 <= i < |s| ==> d[i] == s[i] as int - 48
  {
    seq(|s|, i requires 0 <= i < |s| => s[i] as int - 48)
  }

  lemma ReadsBack(d: seq<int>)
    requires Digits(d)
    ensures CharDigits(Text(d)) == d && AllDigits(Text(d))
  {}

  // ---- an independent reader of decimal text ---------------------------

  function IndexOf(s: string, c: char): (i: nat)
    ensures i <= |s| && (i < |s| ==> s[i] == c) && forall k :: 0 <= k < i ==> s[k] != c
  {
    if s == "" then 0 else if s[0] == c then 0 else
      var i := IndexOf(s[1..], c);
      assert forall k :: 0 < k < i + 1 ==> s[k] == s[1..][k - 1];
      i + 1
  }

  ghost function SignedInteger(s: string): int {
    if s != "" && s[0] == '-' then -Dec(CharDigits(s[1..]))
    else if s != "" && s[0] == '+' then Dec(CharDigits(s[1..]))
    else Dec(CharDigits(s))
  }

  /** A whole number `k` times ten to `j`. */
  datatype Scaled = Scaled(k: int, j: int)

  /** `iii.fff` scaled by ten to `e`. */
  ghost function Mantissa(s: string, e: int): (r: Scaled) {
    Scaled(Dec(CharDigits(WithoutPoint(s))), e - |Fraction(s)|)
  }

  ghost function Fraction(s: string): string {
    var i := IndexOf(s, '.');
    if i < |s| then s[i + 1..] else ""
  }

  ghost function WithoutPoint(s: string): string {
    s[..IndexOf(s, '.')] + Fraction(s)
  }

  function ExponentAt(s: string): (i: nat)
    ensures i <= |s|
  {
    var i := IndexOf(s, 'e');
    var j := IndexOf(s, 'E');
    if i < j then i else j
  }

  ghost function Unsigned(s: string): (r: Scaled) {
    var i := ExponentAt(s);
    Mantissa(s[..i], if i < |s| then SignedInteger(s[i + 1..]) else 0)
  }

  /** The number a decimal text denotes. */
  ghost function TextValue(s: string): real {
    var r := Unsigned(if s != "" && (s[0] == '-' || s[0] == '+') then s[1..] else s);
    Decimal(if s != "" && s[0] == '-' then -r.k else r.k, r.j)
  }

  // ---- layout ----------------------------------------------------------

  /** Drops trailing zeros, keeping at least `keep` digits. */
  function StripZeros(d: seq<int>, keep: nat): (r: seq<int>)
    ensures |r| <= |d| && r == d[..|r|]
    ensures |r| > keep ==> r[|r| - 1] != 0
    ensures forall i :: |r| <= i < |d| ==> d[i] == 0
  {
    if |d| > keep && d[|d| - 1] == 0 then StripZeros(d[..|d| - 1], keep) else d
  }

  function IntText(n: nat): (t: string)
    ensures |t| > 0
  {
    if n == 0 then "0" else Text(DecimalDigits(n))
  }

  /** An exponent's magnitude with at least two digits. */
  function TwoDigits(n: nat): (t: string)
    ensures |t| > 0
  {
    if n < 10 then "0" + IntText(n) else IntText(n)
  }

  predicate Scientific(x: int, p: nat) {
    x < -4 || x >= p
  }

  /** How many digits the layout never strips. */
  function Kept(x: int, p: nat): nat {
    if Scientific(x, p) then 1 else if x + 1 > 1 then x + 1 else 1
  }

  function PointText(d: seq<int>, n: nat): string
    requires Digits(d) && n <= |d|
  {
    Text(d[..n]) + if n < |d| then "." + Text(d[n..]) else ""
  }

  function Repeat(c: char, n: nat): (s: string)
    ensures |s| == n && forall i :: 0 <= i < n ==> s[i] == c
  {
    seq(n, _ => c)
  }

  function Signed(neg: bool, body: string): string {
    if neg then "-" + body else body
  }

  function ExponentText(x: int): string {
    (if x < 0 then "-" else "+") + TwoDigits(Abs(x))
  }

  function Layout(d: seq<int>, x: int, p: nat): string
    requires Digits(d) && d != []
  {
    if Scientific(x, p) then
      PointText(d, 1) + "e" + ExponentText(x)
    else if x >= 0 then
      PointText(d, if x + 1 <= |d| then x + 1 else |d|)
    else
      "0" + ("." + (Repeat('0', -x - 1) + Text(d)))
  }

  /** The digits and exponent of a finite double's magnitude before rounding. */
  ghost function MagnitudeDigits(v: Double): (r: (seq<int>, int))
    requires v.Finite?
    ensures Digits(r.0) && r.0 != [] && (|r.0| > 1 ==> r.0[0] != 0)
  {
    if v.M() == 0 then ([0], 0) else
      ExactDigitsDenote(v.M(), v.E2());
      ExactDigitsOf(v.M(), v.E2())
  }

  ghost function Rounded(v: Double, p: nat): (r: (seq<int>, int))
    requires v.Finite? && p >= 1
    ensures Digits(r.0) && r.0 != []
  {
    var (d, x) := MagnitudeDigits(v);
    if |d| > p then RoundedRange(d, p); PowPositive(10, p - 1); RoundToOf(d, x, p)
    else RoundToOf(d, x, p)
  }

  ghost function FormatGText(v: Double, p: nat): string
    requires p >= 1
  {
    match v
    case NaN(neg) => if neg then "-nan" else "nan"
    case Infinite(neg) => if neg then "-inf" else "inf"
    case Finite(neg, _, _) =>
      var (d, x) := Rounded(v, p);
      var s := StripZeros(d, Kept(x, p));
      StripKeeps(d, Kept(x, p));
      Signed(neg && v.M() != 0, Layout(s, x, p))
  }

  lemma {:induction false} StripKeeps(d: seq<int>, keep: nat)
    requires d != [] && keep >= 1
    ensures StripZeros(d, keep) != []
    ensures |d| >= keep ==> |StripZeros(d, keep)| >= keep
  {
    if |d| > keep && d[|d| - 1] == 0 { StripKeeps(d[..|d| - 1], keep); }
  }

  // ---- the printer -----------------------------------------------------

  method PushDigits(out: string, d: seq<u8>) returns (out': string)
    requires Digits(d)
    ensures out' == out + Text(d)
  {
    out' := out;
    for i := 0 to |d|
      invariant out' == out + Text(d[..i])
    {
      out' := out' + [DigitChar(d[i])];
      assert Text(d[..i + 1]) == Text(d[..i]) + [DigitChar(d[i])];
    }
    assert d[..|d|] == d;
  }

  method PopZeros(digits: seq<u8>, keep: nat) returns (d: seq<u8>)
    requires digits != []
    ensures d == StripZeros(digits, keep)
  {
    d := digits;
    while |d| > keep && d[|d| - 1] == 0
      invariant StripZeros(d, keep) == StripZeros(digits, keep)
    {
      d := d[..|d| - 1];
    }
  }

  method FormatGPrecision(v: Double, precision: nat) returns (out: string)
    requires precision >= 1
    ensures out == FormatGText(v, precision)
  {
    hide Layout, StripZeros, ExactDigitsOf, RoundToOf, Dec, Denote;
    if v.NaN? {
      return if v.neg then "-nan" else "nan";
    }
    if v.Infinite? {
      return if v.neg then "-inf" else "inf";
    }
    var m: u64, e2 := v.M(), v.E2();
    var digits: seq<u8>, x;
    if m == 0 {
      digits, x := [0], 0;
    } else {
      ExactDigitsDenote(m, e2);
      digits, x := ExactDigits(m, e2);
    }
    digits, x := RoundTo(digits, x, precision);
    assert (digits, x) == Rounded(v, precision);
    StripKeeps(digits, Kept(x, precision));
    if x < -4 || x >= precision {
      digits := PopZeros(digits, 1);
    } else {
      digits := PopZeros(digits, if x + 1 > 1 then x + 1 else 1);
    }
    out := if v.neg && m != 0 then "-" else "";
    var body := LayoutDigits(digits, x, precision);
    out := out + body;
  }

  method LayoutDigits(digits: seq<u8>, x: int, precision: nat) returns (out: string)
    requires Digits(digits) && digits != []
    ensures out == Layout(digits, x, precision)
  {
    out := "";
    if x < -4 || x >= precision {
      out := LayoutScientific(digits, x);
    } else if x >= 0 {
      var intDigits := if x + 1 <= |digits| then x + 1 else |digits|;
      out := PushDigits(out, digits[..intDigits]);
      assert out == Text(digits[..intDigits]);
      if intDigits < |digits| {
        out := out + ".";
        out := PushDigits(out, digits[intDigits..]);
      }
    } else {
      out := LayoutSmall(digits, -x - 1);
    }
  }

  /** One digit, the fraction and the exponent. */
  method LayoutScientific(digits: seq<u8>, x: int) returns (out: string)
    requires Digits(digits) && digits != []
    ensures out == PointText(digits, 1) + "e" + ExponentText(x)
  {
    hide TwoDigits;
    out := [DigitChar(digits[0])];
    assert out == Text(digits[..1]);
    if |digits| > 1 {
      out := out + ".";
      out := PushDigits(out, digits[1..]);
    }
    assert out == PointText(digits, 1);
    out := out + "e";
    ghost var mant := out;
    out := out + if x < 0 then "-" else "+";
    out := out + TwoDigits(Abs(x));
    assert out == mant + ExponentText(x);
  }

  /** A value below one: the zeros after the point, then the digits. */
  method LayoutSmall(digits: seq<u8>, zeros: nat) returns (out: string)
    requires Digits(digits)
    ensures out == "0" + ("." + (Repeat('0', zeros) + Text(digits)))
  {
    out := "0.";
    var i := 0;
    while i < zeros
      invariant 0 <= i <= zeros
      invariant out == "0." + Repeat('0', i)
    {
      out := out + "0";
      i := i + 1;
    }
    out := PushDigits(out, digits);
    assert out == "0" + ("." + (Repeat('0', i) + Text(digits)));
  }

  // ---- reading the layout back -----------------------------------------

  lemma DecimalShift(k: int, j: int, n: nat)
    ensures Decimal(k, j + n) == Decimal(k * Pow(10, n), j)
  {
    hide Ten, Pow;
    TenAdd(j, n);
    ShiftReal(k, Pow(10, n), Ten(j));
  }

  lemma ShiftReal(k: int, p: int, t: real)
    ensures k as real * (t * p as real) == (k * p) as real * t
  {
    RealProduct(k, p);
    RealShuffle(k as real, p as real, t);
    RealShuffle(k as real, t, p as real);
  }

  /** Stripping trailing zeros leaves the denoted number alone. */
  lemma {:induction false} StripDenotes(d: seq<int>, keep: nat, x: int)
    requires d != [] && keep >= 1
    ensures Denote(StripZeros(d, keep), x) == Denote(d, x)
  {
    if |d| > keep && d[|d| - 1] == 0 {
      var c := d[..|d| - 1];
      StripDenotes(c, keep, x);
      assert Dec(d) == 10 * Dec(c);
      DecimalShift(Dec(c), x - |d| + 1, 1);
      assert Pow(10, 1) == 10 by { assert Pow(10, 0) == 1; }
    }
  }

  lemma DigitsHaveNo(s: string, c: char)
    requires AllDigits(s) && !IsDigit(c)
    ensures IndexOf(s, c) == |s|
  {}

  /** A digit text with an optional point reads as its digits, shifted by the fraction's length. */
  lemma PointReads(d: seq<int>, n: nat, e: int)
    requires Digits(d) && 1 <= n <= |d|
    ensures Mantissa(PointText(d, n), e).k == Dec(d)
    ensures Mantissa(PointText(d, n), e).j == e - |d| + n
  {
    var s := PointText(d, n);
    PointSplits(d, n);
    ReadsBack(d);
    assert CharDigits(WithoutPoint(s)) == d;
    MantissaOf(s, d, |d| - n, e);
  }

  lemma MantissaOf(s: string, d: seq<int>, f: nat, e: int)
    requires CharDigits(WithoutPoint(s)) == d && |Fraction(s)| == f
    ensures Mantissa(s, e).k == Dec(d)
    ensures Mantissa(s, e).j == e - f
  {}

  lemma PointSplits(d: seq<int>, n: nat)
    requires Digits(d) && 1 <= n <= |d|
    ensures WithoutPoint(PointText(d, n)) == Text(d)
    ensures |Fraction(PointText(d, n))| == |d| - n
  {
    var s := PointText(d, n);
    if n == |d| {
      assert s == Text(d);
      DigitsHaveNo(s, '.');
      assert s[..|s|] + "" == Text(d);
    } else {
      assert s[n] == '.' && IndexOf(s, '.') == n;
      assert s[..n] + s[n + 1..] == Text(d);
    }
  }

  lemma NoExponent(s: string)
    requires forall i :: 0 <= i < |s| ==> s[i] != 'e' && s[i] != 'E'
    ensures ExponentAt(s) == |s|
    ensures Unsigned(s) == Mantissa(s, 0)
  {
    assert s[..|s|] == s;
  }

  lemma IntTextReads(n: nat)
    ensures AllDigits(IntText(n)) && Dec(CharDigits(IntText(n))) == n
  {
    if n == 0 {
      assert CharDigits("0") == [0];
      assert Dec([0]) == 0 by { assert [0][..0] == []; }
    } else {
      ReadsBack(DecimalDigits(n));
    }
  }

  lemma TwoDigitsReads(n: nat)
    ensures AllDigits(TwoDigits(n)) && Dec(CharDigits(TwoDigits(n))) == n
  {
    hide IntText, Dec;
    IntTextReads(n);
    if n < 10 { LeadingZeroReads(IntText(n)); }
  }

  lemma LeadingZeroReads(t: string)
    requires AllDigits(t)
    ensures AllDigits("0" + t) && Dec(CharDigits("0" + t)) == Dec(CharDigits(t))
  {
    assert CharDigits("0" + t) == [0] + CharDigits(t);
    DecAppend([0], CharDigits(t));
    assert Dec([0]) == 0 by { assert [0][..0] == []; }
  }

  lemma ExponentReads(x: int)
    ensures SignedInteger(ExponentText(x)) == x
  {
    TwoDigitsReads(Abs(x));
    var s := ExponentText(x);
    assert s[1..] == TwoDigits(Abs(x));
  }

  /** The layout denotes its digits: in `%f` form they must reach the decimal point. */
  lemma LayoutReads(d: seq<int>, x: int, p: nat)
    requires Digits(d) && d != []
    requires !Scientific(x, p) ==> |d| >= x + 1
    ensures Unsigned(Layout(d, x, p)).k == Dec(d)
    ensures Unsigned(Layout(d, x, p)).j == x - |d| + 1
    ensures Layout(d, x, p) != "" && IsDigit(Layout(d, x, p)[0])
  {
    hide *;
    if Scientific(x, p) {
      ScientificReads(d, x, p);
    } else if x >= 0 {
      IntegerReads(d, x, p);
    } else {
      SmallReads(d, x, p);
    }
  }

  lemma IntegerReads(d: seq<int>, x: int, p: nat)
    requires Digits(d) && d != [] && !Scientific(x, p) && 0 <= x < |d|
    ensures Unsigned(Layout(d, x, p)).k == Dec(d)
    ensures Unsigned(Layout(d, x, p)).j == x - |d| + 1
    ensures Layout(d, x, p) != "" && IsDigit(Layout(d, x, p)[0])
  {
    assert Layout(d, x, p) == PointText(d, x + 1);
    hide *;
    PlainReads(d, x + 1);
    assert Unsigned(Layout(d, x, p)).k == Dec(d);
    assert Unsigned(Layout(d, x, p)).j == x - |d| + 1;
  }

  lemma PlainReads(d: seq<int>, n: nat)
    requires Digits(d) && 1 <= n <= |d|
    ensures Unsigned(PointText(d, n)).k == Dec(d)
    ensures Unsigned(PointText(d, n)).j == n - |d|
    ensures PointText(d, n) != "" && IsDigit(PointText(d, n)[0])
  {
    PointPlain(d, n);
    NoExponent(PointText(d, n));
    PointReads(d, n, 0);
  }

  lemma ScientificReads(d: seq<int>, x: int, p: nat)
    requires Digits(d) && d != [] && Scientific(x, p)
    ensures Unsigned(Layout(d, x, p)).k == Dec(d)
    ensures Unsigned(Layout(d, x, p)).j == x - |d| + 1
    ensures Layout(d, x, p) != "" && IsDigit(Layout(d, x, p)[0])
  {
    var mant, exp := PointText(d, 1), ExponentText(x);
    PointPlain(d, 1);
    ExponentReads(x);
    PointReads(d, 1, x);
    UnsignedOf(mant, exp);
    assert Layout(d, x, p) == mant + "e" + exp;
  }

  lemma UnsignedOf(mant: string, exp: string)
    requires forall i :: 0 <= i < |mant| ==> mant[i] != 'e' && mant[i] != 'E'
    ensures Unsigned(mant + "e" + exp) == Mantissa(mant, SignedInteger(exp))
  {
    var s := mant + "e" + exp;
    assert s[|mant|] == 'e';
    assert IndexOf(s, 'e') == |mant|;
    assert IndexOf(s, 'E') >= |mant|;
    assert s[..|mant|] == mant && s[|mant| + 1..] == exp;
  }

  lemma SmallReads(d: seq<int>, x: int, p: nat)
    requires Digits(d) && d != [] && !Scientific(x, p) && x < 0
    ensures Unsigned(Layout(d, x, p)).k == Dec(d)
    ensures Unsigned(Layout(d, x, p)).j == x - |d| + 1
    ensures Layout(d, x, p) != "" && IsDigit(Layout(d, x, p)[0])
  {
    SmallText(d, x, p);
    PlainReads(Zeros(-x) + d, 1);
    LeadingZeros(-x, d);
  }

  lemma SmallText(d: seq<int>, x: int, p: nat)
    requires Digits(d) && d != [] && !Scientific(x, p) && x < 0
    ensures Layout(d, x, p) == PointText(Zeros(-x) + d, 1)
  {
    var z := Zeros(-x) + d;
    assert Text(z[..1]) == "0";
    assert Text(z[1..]) == Repeat('0', -x - 1) + Text(d);
  }

  lemma LeadingZeros(n: nat, d: seq<int>)
    ensures Dec(Zeros(n) + d) == Dec(d)
  {
    DecAppend(Zeros(n), d);
    DecZeros(n);
  }

  lemma PointPlain(d: seq<int>, n: nat)
    requires Digits(d) && 1 <= n <= |d|
    ensures forall i :: 0 <= i < |PointText(d, n)| ==> PointText(d, n)[i] != 'e' && PointText(d, n)[i] != 'E'
    ensures PointText(d, n) != "" && IsDigit(PointText(d, n)[0])
  {}

  // ---- the rounded magnitude -------------------------------------------

  /** The grid of `p`-digit numbers around a magnitude with leading exponent `x`. */
  lemma RoundedDigits(v: Double, p: nat)
    requires v.Finite? && p >= 1
    ensures !Scientific(Rounded(v, p).1, p) ==> |Rounded(v, p).0| >= Rounded(v, p).1 + 1
  {
    var (d, x) := MagnitudeDigits(v);
    if v.M() != 0 { ExactDigitsDenote(v.M(), v.E2()); }
    if |d| > p {
      RoundedRange(d, p);
      var q := RoundHalfEven(Dec(d), Pow(10, |d| - p));
      RoundedLength(q, p);
    }
  }

  lemma RoundedLength(q: nat, p: nat)
    requires p >= 1 && Pow(10, p - 1) <= q <= Pow(10, p)
    ensures |DecimalDigits(q)| == if q == Pow(10, p) then p + 1 else p
  {
    hide Pow, Dec;
    PowPositive(10, p - 1);
    var c := DecimalDigits(q);
    DecLeading(c);
    if q == Pow(10, p) {
      CarriedDigits(p);
    } else {
      PowExponentStrict(10, |c| - 1, p);
      PowExponentStrict(10, p - 1, |c|);
    }
  }

  /** Reading the text back yields the rounded magnitude with the double's sign. */
  lemma FormatGReads(v: Double, p: nat)
    requires v.Finite? && p >= 1
    ensures TextValue(FormatGText(v, p)) ==
      if v.neg then -Denote(Rounded(v, p).0, Rounded(v, p).1) else Denote(Rounded(v, p).0, Rounded(v, p).1)
  {
    var (d, x) := Rounded(v, p);
    StripKeeps(d, Kept(x, p));
    var s := StripZeros(d, Kept(x, p));
    var neg := v.neg && v.M() != 0;
    assert FormatGText(v, p) == Signed(neg, Layout(s, x, p));
    assert Scientific(x, p) || |s| >= x + 1 by { RoundedDigits(v, p); }
    FormatGValue(d, s, x, p, neg);
    assert v.M() == 0 ==> d == [0];
    if v.M() == 0 { ZeroDenotes(d, x); }
  }

  lemma FormatGValue(d: seq<int>, s: seq<int>, x: int, p: nat, neg: bool)
    requires Digits(d) && d != [] && s == StripZeros(d, Kept(x, p)) && s != []
    requires Scientific(x, p) || |s| >= x + 1
    ensures TextValue(Signed(neg, Layout(s, x, p))) == if neg then -Denote(d, x) else Denote(d, x)
  {
    hide Decimal, Dec, Layout, Signed, TextValue, StripZeros;
    SignedLayoutReads(s, x, p, neg);
    StripDenotes(d, Kept(x, p), x);
    NegateDecimal(Dec(s), x - |s| + 1);
    assert TextValue(Signed(neg, Layout(s, x, p))) == if neg then -Denote(d, x) else Denote(d, x);
  }

  lemma NegateDecimal(k: int, j: int)
    ensures Decimal(-k, j) == -Decimal(k, j)
  {}

  lemma SignedLayoutReads(d: seq<int>, x: int, p: nat, neg: bool)
    requires Digits(d) && d != []
    requires !Scientific(x, p) ==> |d| >= x + 1
    ensures TextValue(Signed(neg, Layout(d, x, p))) == Decimal(if neg then -Dec(d) else Dec(d), x - |d| + 1)
  {
    hide *;
    LayoutReads(d, x, p);
    SignReads(Layout(d, x, p), neg, Dec(d), x - |d| + 1);
    assert TextValue(Signed(neg, Layout(d, x, p))) == Decimal(if neg then -Dec(d) else Dec(d), x - |d| + 1);
  }

  lemma SignReads(body: string, neg: bool, k: int, j: int)
    requires body != "" && IsDigit(body[0])
    requires Unsigned(body).k == k && Unsigned(body).j == j
    ensures TextValue(Signed(neg, body)) == Decimal(if neg then -k else k, j)
  {
    hide Unsigned, Decimal;
    var s := Signed(neg, body);
    assert neg ==> s[1..] == body;
    assert TextValue(s) == Decimal(if neg then -k else k, j);
  }

  // ---- no trailing zeros in a fraction ---------------------------------

  /** A text with a point ends its mantissa in a digit other than zero. */
  ghost predicate Trimmed(t: string) {
    var e := ExponentAt(t);
    IndexOf(t, '.') < |t| ==> e > 0 && IsDigit(t[e - 1]) && t[e - 1] != '0'
  }

  /** The last digit of a text with a point is its last digit before the exponent. */
  lemma PointTrimmed(d: seq<int>, n: nat)
    requires Digits(d) && 1 <= n <= |d| && (n < |d| ==> d[|d| - 1] != 0)
    ensures IndexOf(PointText(d, n), '.') < |PointText(d, n)| ==> n < |d|
    ensures var t := PointText(d, n); n < |d| ==> t != "" && IsDigit(t[|t| - 1]) && t[|t| - 1] != '0'
  {
    var t := PointText(d, n);
    if n == |d| {
      assert t == Text(d);
      DigitsHaveNo(t, '.');
    } else {
      assert t[|t| - 1] == DigitChar(d[|d| - 1]);
    }
  }

  lemma PlainTrimmed(d: seq<int>, n: nat, neg: bool)
    requires Digits(d) && 1 <= n <= |d| && (n < |d| ==> d[|d| - 1] != 0)
    ensures Trimmed(Signed(neg, PointText(d, n)))
  {
    var t := PointText(d, n);
    PointPlain(d, n);
    PointTrimmed(d, n);
    SignShifts(t, neg);
    NoExponent(t);
  }

  lemma ScientificTrimmed(d: seq<int>, x: int, neg: bool)
    requires Digits(d) && d != [] && (|d| > 1 ==> d[|d| - 1] != 0)
    ensures Trimmed(Signed(neg, PointText(d, 1) + "e" + ExponentText(x)))
  {
    hide PointText, ExponentText, ExponentAt;
    var mant, exp := PointText(d, 1), ExponentText(x);
    var t := mant + "e" + exp;
    PointPlain(d, 1);
    PointTrimmed(d, 1);
    ExponentPlain(x);
    ExponentFound(mant, exp);
    SignShifts(t, neg);
    assert t[|mant| - 1] == mant[|mant| - 1];
  }

  lemma ExponentPlain(x: int)
    ensures forall i :: 0 <= i < |ExponentText(x)| ==> ExponentText(x)[i] != '.'
  {
    hide TwoDigits, IntText, Dec, CharDigits;
    TwoDigitsReads(Abs(x));
    var t := ExponentText(x);
    assert forall i :: 0 < i < |t| ==> t[i] == TwoDigits(Abs(x))[i - 1];
  }

  lemma ExponentFound(mant: string, exp: string)
    requires mant != "" && forall i :: 0 <= i < |mant| ==> mant[i] != 'e' && mant[i] != 'E'
    requires forall i :: 0 <= i < |exp| ==> exp[i] != '.'
    ensures var t := mant + "e" + exp;
      ExponentAt(t) == |mant| && (IndexOf(t, '.') < |t| ==> IndexOf(mant, '.') < |mant|) && t != "" && t[0] == mant[0]
  {
    var t := mant + "e" + exp;
    assert t[|mant|] == 'e';
    assert forall i :: 0 <= i < |mant| ==> t[i] == mant[i];
    assert IndexOf(t, 'e') == |mant| && IndexOf(t, 'E') >= |mant|;
    assert forall i :: |mant| < i < |t| ==> t[i] == exp[i - |mant| - 1];
  }

  /** A sign moves the point and the exponent by one. */
  lemma SignShifts(t: string, neg: bool)
    requires t != "" && IsDigit(t[0])
    ensures var s := Signed(neg, t);
      var k := if neg then 1 else 0;
      |s| == |t| + k && IndexOf(s, '.') == IndexOf(t, '.') + k && ExponentAt(s) == ExponentAt(t) + k
      && forall i :: 0 <= i < |t| ==> s[i + k] == t[i]
  {
    if neg {
      var s := "-" + t;
      assert s[1..] == t;
    }
  }

  lemma RoundedFirst(v: Double, p: nat)
    requires v.Finite? && p >= 1
    ensures v.M() == 0 ==> Rounded(v, p).1 == 0
    ensures v.M() != 0 ==> Rounded(v, p).0[0] != 0
  {
    var (d, x) := MagnitudeDigits(v);
    if v.M() != 0 {
      ExactDigitsDenote(v.M(), v.E2());
      if |d| > p {
        RoundedRange(d, p);
        PowPositive(10, p - 1);
      }
    }
  }

  /** No printed number ends a fraction in zeros. */
  lemma FormatGTrimmed(v: Double, p: nat)
    requires v.Finite? && p >= 1
    ensures Trimmed(FormatGText(v, p))
  {
    hide Trimmed, PointText, Signed, ExponentText, MagnitudeDigits, RoundToOf;
    var (d, x) := Rounded(v, p);
    var s := StripZeros(d, Kept(x, p));
    var neg := v.neg && v.M() != 0;
    StripKeeps(d, Kept(x, p));
    RoundedDigits(v, p);
    RoundedFirst(v, p);
    LayoutTrimmed(s, x, p, neg);
  }

  lemma LayoutTrimmed(s: seq<int>, x: int, p: nat, neg: bool)
    requires Digits(s) && s != [] && (|s| > Kept(x, p) ==> s[|s| - 1] != 0)
    requires !Scientific(x, p) ==> |s| >= x + 1
    requires x < 0 ==> s[0] != 0
    ensures Trimmed(Signed(neg, Layout(s, x, p)))
  {
    hide Trimmed, PointText, Signed, ExponentText;
    if Scientific(x, p) {
      ScientificTrimmed(s, x, neg);
    } else if x >= 0 {
      PlainTrimmed(s, x + 1, neg);
    } else {
      SmallText(s, x, p);
      PlainTrimmed(Zeros(-x) + s, 1, neg);
    }
  }

  lemma ZeroDenotes(d: seq<int>, x: int)
    requires d == [0]
    ensures Denote(d, x) == 0.0
  {
    assert Dec([0]) == 0 by { assert [0][..0] == []; }
  }
}
