/**
 Powers and positional notation over the integers and the reals. A little-endian list of limbs
 denotes a number in any base; the facts here are the ones the bignum and the number printer
 need: how such a number changes when its list grows at the far end or is put together from two,
 and how powers of a base, and powers of ten with negative exponents, combine and compare.
 */
module Arith {

  ghost function Pow(b: nat, e: nat): nat
  {
    if e == 0 then 1 else b * Pow(b, e - 1)
  }

  lemma {:induction false} PowPositive(b: nat, e: nat)
    requires b > 0
    ensures Pow(b, e) > 0
  {
    if e > 0 { PowPositive(b, e - 1); }
  }

  lemma {:induction false} PowAdd(b: nat, e: nat, f: nat)
    ensures Pow(b, e + f) == Pow(b, e) * Pow(b, f)
  {
    if e == 0 {
      assert Pow(b, e + f) == Pow(b, f);
    } else {
      PowAdd(b, e - 1, f);
      MulAssoc(b, Pow(b, e - 1), Pow(b, f));
      assert Pow(b, e + f) == b * Pow(b, e - 1 + f);
    }
  }

  lemma {:induction false} PowProduct(a: nat, b: nat, e: nat)
    ensures Pow(a * b, e) == Pow(a, e) * Pow(b, e)
  {
    if e > 0 {
      PowProduct(a, b, e - 1);
      MulSwap(a, b, Pow(a, e - 1), Pow(b, e - 1));
    }
  }

  lemma {:induction false} PowMonotone(a: nat, b: nat, e: nat)
    requires a <= b
    ensures Pow(a, e) <= Pow(b, e)
  {
    if e > 0 {
      PowMonotone(a, b, e - 1);
      MulLe(a, b, Pow(a, e - 1), Pow(b, e - 1));
    }
  }

  lemma {:induction false} PowExponentMonotone(b: nat, e: nat, f: nat)
    requires b > 0 && e <= f
    ensures Pow(b, e) <= Pow(b, f)
    decreases f
  {
    if e < f {
      PowExponentMonotone(b, e, f - 1);
      PowPositive(b, f - 1);
      MulLe(1, b, Pow(b, f - 1), Pow(b, f - 1));
    }
  }

  lemma {:induction false} PowExponentStrict(b: nat, e: nat, f: nat)
    requires b > 1 && Pow(b, e) < Pow(b, f)
    ensures e < f
  {
    if f <= e { PowExponentMonotone(b, f, e); }
  }

  lemma MulAssoc(a: int, b: int, c: int)
    ensures a * b * c == a * (b * c)
  {}

  lemma MulSwap(a: int, b: int, c: int, d: int)
    ensures (a * b) * (c * d) == (a * c) * (b * d)
  {
    MulAssoc(a, b, c * d);
    MulAssoc(b, c, d);
    MulAssoc(c, b, d);
    MulAssoc(a, c, b * d);
  }

  lemma MulLe(a: nat, b: nat, c: nat, d: nat)
    requires a <= b && c <= d
    ensures a * c <= b * d
  {
    assert a * c <= b * c;
    assert b * c <= b * d;
  }

  /** Quotient and remainder are determined by the division identity. */
  lemma DivModUnique(n: int, d: int, q: int, r: int)
    requires d > 0 && n == q * d + r && 0 <= r < d
    ensures n / d == q && n % d == r
  {
    var q' := n / d;
    var r' := n % d;
    assert n == q' * d + r';
    assert (q - q') * d == r' - r;
    MultipleWithinOne(q - q', d);
  }

  /** The only multiple of `d` strictly between `-d` and `d` is zero. */
  lemma MultipleWithinOne(k: int, d: int)
    requires d > 0
    ensures -d < k * d < d ==> k == 0
  {
    if k >= 1 {
      assert k * d >= d;
    } else if k <= -1 {
      assert k * d <= -d;
    }
  }

  lemma Distribute(a: int, b: int, c: int)
    ensures a * (b + c) == a * b + a * c
  {}

  /** The value of little-endian digits in a base. */
  ghost function LittleEndian(base: nat, l: seq<int>): int
  {
    if l == [] then 0 else l[0] + base * LittleEndian(base, l[1..])
  }

  lemma {:induction false} LittleEndianNonNegative(base: nat, l: seq<int>)
    requires forall i :: 0 <= i < |l| ==> l[i] >= 0
    ensures LittleEndian(base, l) >= 0
  {
    if l != [] {
      LittleEndianNonNegative(base, l[1..]);
      assert base * LittleEndian(base, l[1..]) >= 0;
    }
  }

  lemma {:induction false} LittleEndianSnoc(base: nat, l: seq<int>, x: int)
    ensures LittleEndian(base, l + [x]) == LittleEndian(base, l) + x * Pow(base, |l|)
  {
    if l == [] {
      assert l + [x] == [x];
      assert LittleEndian(base, [x]) == x + base * LittleEndian(base, []);
    } else {
      assert (l + [x])[1..] == l[1..] + [x];
      LittleEndianSnoc(base, l[1..], x);
      var v, p := LittleEndian(base, l[1..]), Pow(base, |l| - 1);
      SnocStep(base, v, x, p);
    }
  }

  lemma SnocStep(base: int, v: int, x: int, p: int)
    ensures base * (v + x * p) == base * v + x * (base * p)
  {
    Distribute(base, v, x * p);
    assert base * (x * p) == x * (base * p);
  }

  lemma {:induction false} LittleEndianAppend(base: nat, a: seq<int>, b: seq<int>)
    ensures LittleEndian(base, a + b) == LittleEndian(base, a) + Pow(base, |a|) * LittleEndian(base, b)
  {
    if a == [] {
      assert a + b == b;
    } else {
      assert (a + b)[1..] == a[1..] + b;
      LittleEndianAppend(base, a[1..], b);
      var v, p, w := LittleEndian(base, a[1..]), Pow(base, |a| - 1), LittleEndian(base, b);
      Distribute(base, v, p * w);
      MulAssoc(base, p, w);
    }
  }

  lemma {:induction false} LittleEndianZero(base: nat, l: seq<int>)
    requires base > 0 && forall i :: 0 <= i < |l| ==> l[i] >= 0
    ensures LittleEndian(base, l) == 0 <==> forall i :: 0 <= i < |l| ==> l[i] == 0
  {
    if l != [] {
      LittleEndianZero(base, l[1..]);
      LittleEndianNonNegative(base, l[1..]);
      var v := LittleEndian(base, l[1..]);
      assert v > 0 ==> base * v > 0;
      assert forall i :: 0 < i < |l| ==> l[i] == l[1..][i - 1];
    }
  }

  /** Ten to an integer power, possibly negative. */
  ghost function Ten(e: int): real
  {
    if e >= 0 then Pow(10, e) as real else 1.0 / Inverse(-e)
  }

  ghost function Inverse(k: nat): (r: real)
    ensures r > 0.0
  {
    PowPositive(10, k);
    Pow(10, k) as real
  }

  lemma TenPositive(e: int)
    ensures Ten(e) > 0.0
  {
    if e >= 0 { PowPositive(10, e); }
  }

  lemma TenStep(e: int)
    ensures Ten(e + 1) == 10.0 * Ten(e)
  {
    if e >= 0 {
      RealProduct(10, Pow(10, e));
    } else {
      var k := -e;
      RealProduct(10, Pow(10, k - 1));
      var s := Inverse(k - 1);
      assert Inverse(k) == 10.0 * s;
      ReciprocalScale(s);
      if e == -1 {
        assert Ten(0) == 1.0;
        assert s == 1.0;
      }
    }
  }

  lemma ReciprocalScale(s: real)
    requires s > 0.0
    ensures 10.0 * s > 0.0 && 10.0 * (1.0 / (10.0 * s)) == 1.0 / s
  {
    var t := 1.0 / (10.0 * s);
    assert t * (10.0 * s) == 1.0;
    assert (10.0 * t) * s == 1.0;
  }

  lemma RealProduct(a: int, b: int)
    ensures (a * b) as real == (a as real) * (b as real)
  {}

  lemma {:induction false} TenAdd(e: int, f: nat)
    ensures Ten(e + f) == Ten(e) * (Pow(10, f) as real)
    decreases f
  {
    hide Ten;
    if f == 0 {
      assert Pow(10, f) == 1;
    } else {
      TenAdd(e, f - 1);
      TenStep(e + f - 1);
      var p := Pow(10, f - 1);
      assert Pow(10, f) == 10 * p;
      RealProduct(10, p);
      RealShuffle(10.0, Ten(e), p as real);
    }
  }

  lemma RealShuffle(a: real, b: real, c: real)
    ensures a * (b * c) == b * (a * c)
  {
    assert a * (b * c) == (a * b) * c;
    assert (a * b) * c == (b * a) * c;
  }

  lemma TenMonotone(e: int, f: int)
    requires e <= f
    ensures Ten(e) <= Ten(f)
  {
    hide Ten;
    TenAdd(e, f - e);
    TenPositive(e);
    var p := Pow(10, f - e);
    PowPositive(10, f - e);
    assert e + (f - e) == f;
    RealMulLe(Ten(e), 1.0, p as real);
  }

  lemma RealMulLt(a: real, b: real, c: real)
    requires a > 0.0 && b < c
    ensures a * b < a * c
  {
    assert a * (c - b) > 0.0;
  }

  lemma RealMulLe(a: real, b: real, c: real)
    requires a >= 0.0 && b <= c
    ensures a * b <= a * c
  {
    assert a * (c - b) >= 0.0;
  }
}
