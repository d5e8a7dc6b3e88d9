/**
 The form of a printed number, on its characters: when it has an exponent, how many digits the
 exponent has, which zeros are written. Form and number together leave one text.
 */
module NumberForm {
  import opened Wrappers
  import opened Arith
  import opened BigNum
  import opened Number
  import opened NumberText
  import opened NumberResults
  import opened JsonNumber

  // ---- the form --------------------------------------------------------

  /** Small or large enough for an exponent at precision `p`. */
  ghost predicate NeedsExponent(r: real, p: nat) {
    r != 0.0 && (RAbs(r) < Ten(-4) || RAbs(r) >= Ten(p))
  }

  /** From `c` on: a mark, one sign, and digits that start with zero only when there are two. */
  ghost predicate MarkedForm(t: string, c: nat) {
    && c + 4 <= |t| && t[c] == 'e' && IsSign(t[c + 1]) && DigitRun(t, c + 2, |t|)
    && (c + 4 < |t| ==> t[c + 2] != '0')
  }

  /** A minus sign up to `a`, digits up to `b`, a fraction up to `c`, an exponent: each written only as needed. */
  ghost predicate FormAt(t: string, a: nat, b: nat, c: nat) {
    && a < b <= c <= |t|
    && a == (if t[0] == '-' then 1 else 0)
    && DigitRun(t, a, b) && (b > a + 1 ==> t[a] != '0')
    && (b < c ==> t[b] == '.' && b + 1 < c && DigitRun(t, b + 1, c) && t[c - 1] != '0')
    && (c < |t| ==> MarkedForm(t, c) && b == a + 1 && t[a] != '0')
  }

  /** The form of C's `%g` at precision `p`, by the text's characters and the number it denotes. */
  ghost predicate GForm(t: string, p: nat) {
    exists a: nat, b: nat, c: nat :: FormAt(t, a, b, c) && (c < |t| <==> NeedsExponent(TextValue(t), p))
      && (a == 1 <==> TextValue(t) < 0.0)
  }

  // ---- the printed text has the form -----------------------------------

  /** Digits and exponent as they are laid out: no needless zero at either end. */
  ghost predicate Normal(d: seq<int>, x: int, p: nat) {
    && p >= 1 && Digits(d) && d != [] && (d[0] != 0 || (d == [0] && x == 0))
    && (!Scientific(x, p) ==> |d| >= x + 1)
    && (|d| > Kept(x, p) ==> d[|d| - 1] != 0)
  }

  ghost function SignedNumber(neg: bool, r: real): real {
    if neg then -r else r
  }

  lemma LayoutValue(d: seq<int>, x: int, p: nat, neg: bool)
    requires Normal(d, x, p)
    ensures TextValue(Signed(neg, Layout(d, x, p))) == SignedNumber(neg, Denote(d, x))
  {
    hide TextValue, Layout, Decimal, Dec;
    SignedLayoutReads(d, x, p, neg);
    NegateDecimal(Dec(d), x - |d| + 1);
  }

  /** The leading exponent decides. */
  lemma ExponentNeeded(d: seq<int>, x: int, p: nat, neg: bool)
    requires p >= 1 && Digits(d) && d != [] && (d[0] != 0 || (d == [0] && x == 0))
    ensures NeedsExponent(SignedNumber(neg, Denote(d, x)), p) <==> Scientific(x, p)
    ensures SignedNumber(neg, Denote(d, x)) < 0.0 <==> neg && d[0] != 0
    ensures Denote(d, x) == 0.0 <==> d[0] == 0
  {
    hide Denote, Ten;
    if d[0] == 0 {
      ZeroDenotes(d, x);
    } else {
      DenoteRange(d, x);
      TenPositive(x);
      Threshold(Denote(d, x), x, -4);
      Threshold(Denote(d, x), x, p);
    }
  }

  lemma Threshold(r: real, x: int, e: int)
    requires Ten(x) <= r < Ten(x + 1)
    ensures r >= Ten(e) <==> x >= e
  {
    hide Ten;
    if x >= e { TenMonotone(e, x); } else { TenMonotone(x + 1, e); }
  }

  lemma PointForm(d: seq<int>, n: nat)
    requires Digits(d) && 1 <= n <= |d| && (n > 1 ==> d[0] != 0) && (n < |d| ==> d[|d| - 1] != 0)
    ensures FormAt(PointText(d, n), 0, n, |PointText(d, n)|)
  {
    var t := PointText(d, n);
    PointIsNumber(d, n);
    PointPlain(d, n);
    assert t[0] == DigitChar(d[0]);
    PointTrimmed(d, n);
  }

  lemma MarkForm(m: string, x: int)
    ensures MarkedForm(m + "e" + ExponentText(x), |m|)
  {
    hide IntText, Dec, CharDigits;
    var t, e := m + "e" + ExponentText(x), TwoDigits(Abs(x));
    TwoDigitsReads(Abs(x));
    TwoDigitsLead(Abs(x));
    assert t[|m|] == 'e' && t[|m| + 1] == ExponentText(x)[0];
    assert forall i :: |m| + 2 <= i < |t| ==> t[i] == e[i - |m| - 2];
  }

  lemma TwoDigitsLead(n: nat)
    ensures |TwoDigits(n)| >= 2 && (|TwoDigits(n)| > 2 ==> TwoDigits(n)[0] != '0')
  {
    var d := DecimalDigits(n);
    if n > 0 { DecimalSize(d); }
  }

  lemma DecimalSize(d: seq<int>)
    requires Digits(d) && d != [] && d[0] != 0
    ensures |d| == 1 <==> Dec(d) < 10
  {
    hide Dec;
    DecLeading(d);
  }

  lemma ScientificForm(d: seq<int>, x: int)
    requires Digits(d) && d != [] && d[0] != 0 && (|d| > 1 ==> d[|d| - 1] != 0)
    ensures FormAt(PointText(d, 1) + "e" + ExponentText(x), 0, 1, |PointText(d, 1)|)
  {
    hide ExponentText, MarkedForm;
    var m := PointText(d, 1);
    var t := m + "e" + ExponentText(x);
    PointForm(d, 1);
    MarkForm(m, x);
    assert forall i :: 0 <= i < |m| ==> t[i] == m[i];
    assert m[0] == DigitChar(d[0]);
  }

  /** A minus sign moves everything by one. */
  lemma SignForm(t: string, b: nat, c: nat)
    requires FormAt(t, 0, b, c)
    ensures FormAt("-" + t, 1, b + 1, c + 1)
  {
    var s := "-" + t;
    assert forall i :: 0 <= i < |t| ==> s[i + 1] == t[i];
    assert forall i :: 1 <= i < |s| ==> s[i] == t[i - 1];
  }

  lemma LayoutForm(d: seq<int>, x: int, p: nat, neg: bool)
    requires Normal(d, x, p) && (neg ==> d[0] != 0)
    ensures GForm(Signed(neg, Layout(d, x, p)), p)
  {
    hide TextValue, NeedsExponent, FormAt, PointText, ExponentText, Denote;
    LayoutValue(d, x, p, neg);
    ExponentNeeded(d, x, p, neg);
    var body := Layout(d, x, p);
    var b, c := BodyForm(d, x, p);
    if neg {
      SignForm(body, b, c);
      assert FormAt("-" + body, 1, b + 1, c + 1);
    }
  }

  lemma BodyForm(d: seq<int>, x: int, p: nat) returns (b: nat, c: nat)
    requires Normal(d, x, p)
    ensures FormAt(Layout(d, x, p), 0, b, c) && (c < |Layout(d, x, p)| <==> Scientific(x, p))
  {
    hide FormAt, PointText, ExponentText;
    if Scientific(x, p) {
      ScientificForm(d, x);
      b, c := 1, |PointText(d, 1)|;
    } else if x >= 0 {
      PointForm(d, x + 1);
      b, c := x + 1, |PointText(d, x + 1)|;
    } else {
      SmallText(d, x, p);
      PointForm(Zeros(-x) + d, 1);
      b, c := 1, |Layout(d, x, p)|;
    }
  }

  /** What is laid out for a double. */
  lemma PrintedNormal(v: Double, p: nat)
    requires v.Finite? && p >= 1
    ensures var (d, x) := Rounded(v, p);
      var s := StripZeros(d, Kept(x, p));
      Normal(s, x, p) && (v.M() != 0 ==> s[0] != 0)
  {
    hide RoundToOf, MagnitudeDigits;
    var (d, x) := Rounded(v, p);
    StripKeeps(d, Kept(x, p));
    RoundedDigits(v, p);
    RoundedFirst(v, p);
    if v.M() == 0 { ZeroRounded(v, p); }
  }

  lemma ZeroRounded(v: Double, p: nat)
    requires v.Finite? && p >= 1 && v.M() == 0
    ensures Rounded(v, p) == ([0], 0)
  {}

  /** Every finite double's text has the form. */
  lemma FormatGForm(v: Double, p: nat)
    requires v.Finite? && p >= 1
    ensures GForm(FormatGText(v, p), p)
  {
    hide Layout, GForm, Normal, Rounded, StripZeros;
    PrintedNormal(v, p);
    var (d, x) := Rounded(v, p);
    StripKeeps(d, Kept(x, p));
    LayoutForm(StripZeros(d, Kept(x, p)), x, p, v.neg && v.M() != 0);
  }

  // ---- and no other text has form and number ---------------------------

  lemma TextOf(t: string)
    requires AllDigits(t)
    ensures Digits(CharDigits(t)) && Text(CharDigits(t)) == t
  {}

  /** The text after the point, if there is one. */
  ghost function AfterPoint(t: string, b: nat): string
    requires 1 <= b <= |t|
  {
    if b < |t| then t[b + 1..] else ""
  }

  lemma PointRuns(t: string, b: nat)
    requires 1 <= b <= |t| && DigitRun(t, 0, b) && (b < |t| ==> DigitRun(t, b + 1, |t|))
    ensures AllDigits(t[..b]) && AllDigits(AfterPoint(t, b))
  {}

  /** Digits with a point after the first `b`, from the text. */
  lemma PointParts(t: string, b: nat)
    requires 1 <= b <= |t| && DigitRun(t, 0, b) && (b < |t| ==> t[b] == '.' && DigitRun(t, b + 1, |t|) && b + 1 < |t|)
    ensures var d := CharDigits(t[..b] + AfterPoint(t, b));
      Digits(d) && b <= |d| && t == PointText(d, b) && d[0] == t[0] as int - 48
      && (b < |d| <==> b < |t|) && (b < |d| ==> d[|d| - 1] == t[|t| - 1] as int - 48)
  {
    hide *;
    PointRuns(t, b);
    PointSplit(t, b);
    PointJoined(t[..b], AfterPoint(t, b));
    PointEnds(t[..b], AfterPoint(t, b), t);
  }

  lemma PointJoined(i: string, f: string)
    requires AllDigits(i) && AllDigits(f)
    ensures var d := CharDigits(i + f);
      Digits(d) && |d| == |i| + |f| && PointText(d, |i|) == i + (if f != "" then "." + f else "")
  {
    hide PointText, Text, AllDigits;
    Joined(i, f);
    JoinedText(CharDigits(i + f), i, f);
  }

  lemma PointSplit(t: string, b: nat)
    requires 1 <= b <= |t| && (b < |t| ==> t[b] == '.' && b + 1 < |t|)
    ensures t == t[..b] + (if b < |t| then "." + AfterPoint(t, b) else "")
    ensures b < |t| <==> AfterPoint(t, b) != ""
  {
    if b < |t| {
      assert t == t[..b] + ([t[b]] + t[b + 1..]);
    } else {
      assert t == t[..b];
    }
  }

  lemma PointEnds(i: string, f: string, t: string)
    requires i != "" && t == i + (if f != "" then "." + f else "")
    ensures var d := CharDigits(i + f);
      d[0] == t[0] as int - 48 && (f != "" ==> d[|d| - 1] == t[|t| - 1] as int - 48)
  {}

  lemma JoinedText(d: seq<int>, i: string, f: string)
    requires Digits(d) && |d| == |i| + |f| && Digits(d[..|i|]) && Digits(d[|i|..])
    requires Text(d[..|i|]) == i && Text(d[|i|..]) == f
    ensures PointText(d, |i|) == i + (if f != "" then "." + f else "")
  {
    hide Text;
  }

  lemma Joined(i: string, f: string)
    requires AllDigits(i) && AllDigits(f)
    ensures var d := CharDigits(i + f);
      Digits(d) && d[..|i|] == CharDigits(i) && d[|i|..] == CharDigits(f)
      && Digits(d[..|i|]) && Digits(d[|i|..]) && Text(d[..|i|]) == i && Text(d[|i|..]) == f
  {
    TextOf(i);
    TextOf(f);
    assert AllDigits(i + f);
    TextOf(i + f);
    assert CharDigits(i + f)[..|i|] == CharDigits(i);
    assert CharDigits(i + f)[|i|..] == CharDigits(f);
  }

  /** The exponent's text is determined by its value, unless that is zero. */
  lemma MarkParts(t: string, c: nat) returns (x: int)
    requires MarkedForm(t, c)
    ensures SignedInteger(t[c + 1..]) == x && (x != 0 ==> t[c..] == "e" + ExponentText(x))
  {
    hide Dec, TwoDigits, CharDigits;
    var e := t[c + 2..];
    var s := t[c + 1..];
    assert s == [t[c + 1]] + e && s[1..] == e && t[c..] == "e" + s;
    DigitsBack(e);
    x := if s[0] == '-' then -Dec(CharDigits(e)) else Dec(CharDigits(e));
  }

  lemma DigitsBack(e: string)
    requires |e| >= 2 && AllDigits(e) && (|e| > 2 ==> e[0] != '0')
    ensures Dec(CharDigits(e)) >= 0 && TwoDigits(Dec(CharDigits(e))) == e
  {
    TextOf(e);
    var d := CharDigits(e);
    if d[0] != 0 {
      hide *;
      DecimalDigitsUnique(d);
      DecimalSize(d);
      LongBack(d, e);
    } else {
      ShortBack(e);
    }
  }

  lemma LongBack(d: seq<int>, e: string)
    requires Digits(d) && Dec(d) >= 10 && DecimalDigits(Dec(d)) == d && Text(d) == e
    ensures TwoDigits(Dec(d)) == e
  {
    hide Dec, DecimalDigits, Text;
  }

  lemma ShortBack(e: string)
    requires |e| == 2 && e[0] == '0' && IsDigit(e[1])
    ensures Dec(CharDigits(e)) >= 0 && TwoDigits(Dec(CharDigits(e))) == e
  {
    hide Dec, IntText;
    var k := e[1] as int - 48;
    assert e == "0" + [e[1]] && CharDigits([e[1]]) == [k];
    LeadingZeroReads([e[1]]);
    OneDigit(k);
  }

  lemma OneDigit(k: int)
    requires 0 <= k <= 9
    ensures Dec([k]) == k && IntText(k) == [DigitChar(k)]
  {
    assert [k][..0] == [];
    if k > 0 { DecimalDigitsUnique([k]); }
  }

  /** The digits and exponent that a text of the form was laid out from. */
  ghost predicate LaidOut(t: string, marked: bool, d: seq<int>, x: int) {
    && Digits(d) && d != [] && (d[0] != 0 || (d == [0] && x == 0))
    && t != "" && IsDigit(t[0]) && Unsigned(t).k == Dec(d) && Unsigned(t).j == x - |d| + 1
    && forall p: nat :: p >= 1 && (Scientific(x, p) <==> marked) ==> Normal(d, x, p) && t == Layout(d, x, p)
  }

  lemma MarkedBody(t: string, b: nat, c: nat) returns (d: seq<int>, x: int)
    requires FormAt(t, 0, b, c) && c < |t|
    ensures LaidOut(t, true, d, x)
  {
    var m := t[..c];
    d := MarkedDigits(t, b, c);
    x := MarkParts(t, c);
    hide *;
    MarkedReads(t, c, d, x);
    MarkedLaidOut(t, d, x);
  }

  lemma MarkedDigits(t: string, b: nat, c: nat) returns (d: seq<int>)
    requires FormAt(t, 0, b, c) && c < |t|
    ensures t[c] == 'e' && Significant(d) && t[..c] == PointText(d, 1)
  {
    hide PointText;
    var m := t[..c];
    PointParts(m, 1);
    d := CharDigits(m[..1] + AfterPoint(m, 1));
  }

  /** Digits without a zero at either end. */
  ghost predicate Significant(d: seq<int>) {
    Digits(d) && d != [] && d[0] != 0 && (|d| > 1 ==> d[|d| - 1] != 0)
  }

  lemma MarkedReads(t: string, c: nat, d: seq<int>, x: int)
    requires c < |t| && t[c] == 'e' && Significant(d) && t[..c] == PointText(d, 1) && SignedInteger(t[c + 1..]) == x
    requires x != 0 ==> t[c..] == "e" + ExponentText(x)
    ensures x != 0 ==> t == PointText(d, 1) + "e" + ExponentText(x)
    ensures t != "" && IsDigit(t[0]) && Unsigned(t).k == Dec(d) && Unsigned(t).j == x - |d| + 1
  {
    hide Mantissa, SignedInteger, ExponentText, PointText, Unsigned, Dec;
    var m, e := t[..c], t[c + 1..];
    assert t == m + t[c..] && t == m + "e" + e && t[c..] == "e" + e;
    if x != 0 { assert m + ("e" + ExponentText(x)) == m + "e" + ExponentText(x); }
    PointPlain(d, 1);
    UnsignedOf(m, e);
    PointReads(d, 1, x);
  }

  lemma MarkedLaidOut(t: string, d: seq<int>, x: int)
    requires Significant(d) && (x != 0 ==> t == PointText(d, 1) + "e" + ExponentText(x))
    requires t != "" && IsDigit(t[0]) && Unsigned(t).k == Dec(d) && Unsigned(t).j == x - |d| + 1
    ensures LaidOut(t, true, d, x)
  {
    hide Unsigned, PointText, ExponentText, Dec;
  }

  lemma PlainBody(t: string, b: nat) returns (d: seq<int>, x: int)
    requires FormAt(t, 0, b, |t|)
    ensures LaidOut(t, false, d, x)
  {
    hide *;
    var all := PlainDigits(t, b);
    d, x := DigitsBody(t, all, b);
  }

  lemma DigitsBody(t: string, all: seq<int>, b: nat) returns (d: seq<int>, x: int)
    requires Digits(all) && 1 <= b <= |all| && t == PointText(all, b) && (all[0] == 0 ==> b == 1)
    requires b < |all| ==> all[|all| - 1] != 0
    ensures LaidOut(t, false, d, x)
  {
    hide *;
    PlainReads(all, b);
    if all[0] == 0 && |all| > 1 {
      assert b == 1;
      d, x := SmallBody(t, all);
    } else {
      d, x := all, b - 1;
      PlainLaidOut(t, d, b);
    }
  }

  lemma SmallBody(t: string, all: seq<int>) returns (d: seq<int>, x: int)
    requires Digits(all) && |all| > 1 && all[0] == 0 && all[|all| - 1] != 0 && t == PointText(all, 1)
    requires t != "" && IsDigit(t[0]) && Unsigned(t).k == Dec(all) && Unsigned(t).j == 1 - |all|
    ensures LaidOut(t, false, d, x)
  {
    hide LaidOut, PointText, Unsigned, Dec, Digits;
    var z := LeadZeros(all);
    d, x := all[z..], -(z as int);
    SmallLaidOut(t, all, d, x);
  }

  lemma PlainDigits(t: string, b: nat) returns (d: seq<int>)
    requires FormAt(t, 0, b, |t|)
    ensures Digits(d) && 1 <= b <= |d| && t == PointText(d, b) && (d[0] == 0 ==> b == 1)
    ensures b < |d| ==> d[|d| - 1] != 0
  {
    hide PointText;
    PointParts(t, b);
    d := CharDigits(t[..b] + AfterPoint(t, b));
  }

  lemma PlainLaidOut(t: string, d: seq<int>, b: nat)
    requires Digits(d) && 1 <= b <= |d| && t == PointText(d, b) && (b < |d| ==> d[|d| - 1] != 0)
    requires d[0] == 0 ==> b == 1 && |d| == 1
    requires t != "" && IsDigit(t[0]) && Unsigned(t).k == Dec(d) && Unsigned(t).j == b - |d|
    ensures LaidOut(t, false, d, b - 1)
  {
    hide Unsigned, PointText, Dec;
  }

  lemma SmallLaidOut(t: string, all: seq<int>, d: seq<int>, x: int)
    requires Digits(all) && 1 <= -x < |all| && d == all[-x..] && d[0] != 0 && d[|d| - 1] != 0
    requires t == PointText(all, 1) && forall i :: 0 <= i < -x ==> all[i] == 0
    requires t != "" && IsDigit(t[0]) && Unsigned(t).k == Dec(all) && Unsigned(t).j == 1 - |all|
    ensures LaidOut(t, false, d, x)
  {
    hide Unsigned, PointText, Dec, Layout;
    assert all == Zeros(-x) + d;
    LeadingZeros(-x, d);
    forall p: nat | p >= 1 && !Scientific(x, p) ensures Normal(d, x, p) && t == Layout(d, x, p) {
      SmallText(d, x, p);
    }
  }

  lemma LeadZeros(d: seq<int>) returns (z: nat)
    requires d != [] && d[|d| - 1] != 0
    ensures z < |d| && d[z] != 0 && forall i :: 0 <= i < z ==> d[i] == 0
  {
    z := 0;
    while d[z] == 0
      invariant z < |d| && forall i :: 0 <= i < z ==> d[i] == 0
      decreases |d| - z
    {
      z := z + 1;
    }
  }

  /** Every text of the form is laid out from some digits. */
  lemma FormIsLayout(t: string, p: nat) returns (d: seq<int>, x: int, neg: bool)
    requires p >= 1 && GForm(t, p)
    ensures Normal(d, x, p) && (neg ==> d[0] != 0) && t == Signed(neg, Layout(d, x, p))
    ensures TextValue(t) == SignedNumber(neg, Denote(d, x))
  {
    hide FormAt, NeedsExponent, TextValue, Normal, Layout, Denote;
    var a: nat, b: nat, c: nat :| FormAt(t, a, b, c) && (c < |t| <==> NeedsExponent(TextValue(t), p))
      && (a == 1 <==> TextValue(t) < 0.0);
    d, x := PartsOfForm(t, a, b, c, p);
    neg := a == 1;
  }

  lemma PartsOfForm(t: string, a: nat, b: nat, c: nat, p: nat) returns (d: seq<int>, x: int)
    requires p >= 1 && FormAt(t, a, b, c) && (c < |t| <==> NeedsExponent(TextValue(t), p))
      && (a == 1 <==> TextValue(t) < 0.0)
    ensures Normal(d, x, p) && (a == 1 ==> d[0] != 0) && t == Signed(a == 1, Layout(d, x, p))
    ensures TextValue(t) == SignedNumber(a == 1, Denote(d, x))
  {
    hide TextValue, FormAt, NeedsExponent, LaidOut, Normal, Layout, Denote;
    WithoutSign(t, a, b, c);
    Bounds(t, a, b, c);
    d, x := BodyIsLayout(t[a..], b - a, c - a);
    BodyValue(t, t[a..], c < |t|, d, x, p, a == 1);
    assert d != [] by { NormalDigits(d, x, p); }
  }

  lemma NormalDigits(d: seq<int>, x: int, p: nat)
    requires Normal(d, x, p)
    ensures Digits(d) && d != []
  {}

  lemma Bounds(t: string, a: nat, b: nat, c: nat)
    requires FormAt(t, a, b, c)
    ensures a <= 1 && a < b <= c <= |t|
  {}

  lemma BodyIsLayout(t: string, b: nat, c: nat) returns (d: seq<int>, x: int)
    requires FormAt(t, 0, b, c)
    ensures LaidOut(t, c < |t|, d, x)
  {
    hide LaidOut;
    if c < |t| { d, x := MarkedBody(t, b, c); } else { d, x := PlainBody(t, b); }
  }

  lemma BodyValue(t: string, body: string, marked: bool, d: seq<int>, x: int, p: nat, neg: bool)
    requires p >= 1 && LaidOut(body, marked, d, x) && t == Signed(neg, body)
    requires (marked <==> NeedsExponent(TextValue(t), p)) && (neg <==> TextValue(t) < 0.0)
    ensures Normal(d, x, p) && (neg ==> d[0] != 0) && t == Signed(neg, Layout(d, x, p))
    ensures TextValue(t) == SignedNumber(neg, Denote(d, x))
  {
    hide TextValue, NeedsExponent, Unsigned, Dec, Decimal, Layout, Scientific, Kept, Normal;
    SignReads(body, neg, Dec(d), x - |d| + 1);
    NegateDecimal(Dec(d), x - |d| + 1);
    ExponentNeeded(d, x, p, neg);
  }

  lemma WithoutSign(t: string, a: nat, b: nat, c: nat)
    requires FormAt(t, a, b, c)
    ensures a <= 1 && t == Signed(a == 1, t[a..]) && FormAt(t[a..], 0, b - a, c - a)
  {
    hide MarkedForm, DigitRun;
    var s := t[a..];
    RunDrop(t, a, a, b);
    if b < c { RunDrop(t, a, b + 1, c); }
    if c < |t| { MarkDrop(t, a, c); }
    assert DigitRun(t, a, b) ==> t[a] != '-' by { RunFirst(t, a, b); }
    assert s[0] == t[a] && (b < c ==> s[b - a] == t[b] && s[c - a - 1] == t[c - 1]);
  }

  lemma RunFirst(t: string, a: nat, b: nat)
    requires a < b <= |t| && DigitRun(t, a, b)
    ensures IsDigit(t[a])
  {}

  lemma RunDrop(t: string, a: nat, from: nat, to: nat)
    requires DigitRun(t, from, to) && a <= from
    ensures DigitRun(t[a..], from - a, to - a)
  {}

  lemma MarkDrop(t: string, a: nat, c: nat)
    requires MarkedForm(t, c) && a <= c
    ensures MarkedForm(t[a..], c - a)
  {}

  /** Two layouts of one number are the same. */
  lemma NormalUnique(d: seq<int>, x: int, e: seq<int>, y: int, p: nat)
    requires Normal(d, x, p) && Normal(e, y, p) && Denote(d, x) == Denote(e, y)
    ensures d == e && x == y
  {
    hide Denote, Ten;
    ExponentNeeded(d, x, p, false);
    ExponentNeeded(e, y, p, false);
    if d[0] != 0 {
      DenoteRange(d, x);
      DenoteRange(e, y);
      TenBelow(x, y + 1);
      TenBelow(y, x + 1);
      if |d| <= |e| { SameDigits(d, e, x, p); } else { SameDigits(e, d, x, p); }
    }
  }

  lemma SameDigits(d: seq<int>, e: seq<int>, x: int, p: nat)
    requires Normal(d, x, p) && Normal(e, x, p) && |d| <= |e| && Denote(d, x) == Denote(e, x)
    ensures d == e
  {
    hide Dec, Ten, Pow, Decimal;
    var n, j := |e| - |d|, x - |e| + 1;
    var z := d + Zeros(n);
    DecAppend(d, Zeros(n));
    DecZeros(n);
    DecimalShift(Dec(d), j, n);
    if Dec(z) < Dec(e) { DecimalLt(Dec(z), Dec(e), j); } else if Dec(e) < Dec(z) { DecimalLt(Dec(e), Dec(z), j); }
    DecInjective(z, e);
    assert z[|z| - 1] == e[|e| - 1];
  }

  /** The form and the number leave one text: a text of the form that denotes what is printed is what is printed. */
  lemma FormatGOnly(v: Double, p: nat, t: string)
    requires v.Finite? && p >= 1
    ensures GForm(t, p) && TextValue(t) == TextValue(FormatGText(v, p)) <==> t == FormatGText(v, p)
  {
    hide *;
    FormatGForm(v, p);
    if GForm(t, p) && TextValue(t) == TextValue(FormatGText(v, p)) { SameText(t, FormatGText(v, p), p); }
  }

  lemma SameText(s: string, t: string, p: nat)
    requires p >= 1 && GForm(s, p) && GForm(t, p) && TextValue(s) == TextValue(t)
    ensures s == t
  {
    hide GForm, TextValue, Layout, Normal, Denote;
    var d, x, neg := FormIsLayout(s, p);
    var e, y, neg' := FormIsLayout(t, p);
    NormalSign(d, x, p, neg);
    NormalSign(e, y, p, neg');
    NormalUnique(d, x, e, y, p);
  }

  lemma NormalSign(d: seq<int>, x: int, p: nat, neg: bool)
    requires Normal(d, x, p) && (neg ==> d[0] != 0)
    ensures SignedNumber(neg, Denote(d, x)) < 0.0 <==> neg
  {
    hide Denote, NeedsExponent;
    ExponentNeeded(d, x, p, neg);
  }

  // ---- canonical numbers -----------------------------------------------

  /** The choice between the two layouts, by the number alone: whole and within 9.2e18. */
  lemma PrintsAsIntegerIff(v: Double)
    requires v.Finite?
    ensures var r := RealValue(v);
      PrintsAsInteger(v) <==> r == r.Floor as real && RAbs(r) <= 9200000000000000000.0
  {
    hide BinaryValue, Integral, Whole;
    var r := RealValue(v);
    if Integral(v) {
      WholeValue(v);
      FloorOf(r, if v.neg then -Whole(v) else Whole(v));
    } else {
      FractionWhole(v, if v.neg then -r.Floor else r.Floor);
    }
  }

  lemma FloorOf(r: real, n: int)
    requires r == n as real
    ensures r.Floor == n
  {}

  lemma FractionWhole(v: Double, n: int)
    requires v.Finite? && !Integral(v)
    ensures BinaryValue(v.M(), v.E2()) != n as real
  {
    NotWhole(v.M(), v.E2(), n);
  }

  lemma NotWhole(m: int, e2: int, n: int)
    requires e2 < 0 && m % Two(-e2) != 0
    ensures BinaryValue(m, e2) != n as real
  {
    var p := Two(-e2);
    if m as real / p as real == n as real {
      RealProduct(n, p);
      Undivide(m as real, p as real, n as real);
      DivModUnique(m, p, n, 0);
    }
  }

  lemma Undivide(a: real, b: real, q: real)
    requires b > 0.0 && a / b == q
    ensures a == q * b
  {}

  /** A whole number's text is its digits after a sign, with no needless zero. */
  lemma WholeNumberForm(v: Double)
    requires PrintsAsInteger(v)
    ensures var t := JsonNumberText(v); t != "" && FormAt(t, if t[0] == '-' then 1 else 0, |t|, |t|)
  {
    hide Whole, Integral;
    var n := Whole(v);
    var d := if n == 0 then [0] else DecimalDigits(n);
    PointForm(d, |d|);
    assert IntText(n) == PointText(d, |d|) by { assert d[..|d|] == d; }
    if v.neg && n != 0 { SignForm(IntText(n), |d|, |d|); }
  }
}
