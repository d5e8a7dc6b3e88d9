/**
 The base-2^32 bignum of the number printer: a little-endian limb vector that is
 shifted, multiplied and divided in place, and its expansion into decimal digits.
 Machine integers are subset types, so every assignment to one is an overflow check.
 */
module BigNum {
  import opened Arith

  const B32: int := 0x1_0000_0000
  const B64: int := 0x1_0000_0000_0000_0000
  const GROUP: int := 1_000_000_000

  type u8 = x: int | 0 <= x < 256
  type u32 = x: int | 0 <= x < B32
  type u64 = x: int | 0 <= x < B64

  /** The value of decimal digits, most significant first. */
  ghost function Dec(d: seq<int>): int
  {
    if d == [] then 0 else 10 * Dec(d[..|d| - 1]) + d[|d| - 1]
  }

  ghost predicate Digits(d: seq<int>)
  {
    forall i :: 0 <= i < |d| ==> 0 <= d[i] <= 9
  }

  ghost function Zeros(n: nat): (z: seq<int>)
  {
    seq(n, _ => 0)
  }

  lemma {:induction false} DecAppend(a: seq<int>, b: seq<int>)
    ensures Dec(a + b) == Dec(a) * Pow(10, |b|) + Dec(b)
  {
    if b == [] {
      assert a + b == a;
    } else {
      var c, x := b[..|b| - 1], b[|b| - 1];
      assert (a + b)[..|a + b| - 1] == a + c;
      DecAppend(a, c);
      var v, p := Dec(a), Pow(10, |c|);
      assert 10 * (v * p) == v * (10 * p);
    }
  }

  lemma DecSnoc(a: seq<int>, x: int)
    ensures Dec(a + [x]) == 10 * Dec(a) + x
  {
    assert (a + [x])[..|a|] == a;
  }

  lemma {:induction false} DecBound(d: seq<int>)
    requires Digits(d)
    ensures 0 <= Dec(d) < Pow(10, |d|)
  {
    if d != [] { DecBound(d[..|d| - 1]); }
  }

  lemma {:induction false} DecZeros(n: nat)
    ensures Dec(Zeros(n)) == 0
  {
    if n > 0 {
      assert Zeros(n)[..n - 1] == Zeros(n - 1);
      DecZeros(n - 1);
    }
  }

  /** A number without a leading zero fills its digits: `10^(len-1) <= value < 10^len`. */
  lemma DecLeading(d: seq<int>)
    requires Digits(d) && d != [] && d[0] != 0
    ensures Pow(10, |d| - 1) <= Dec(d) < Pow(10, |d|)
  {
    DecBound(d);
    assert d == d[..1] + d[1..];
    DecAppend(d[..1], d[1..]);
    DecBound(d[1..]);
    assert Dec(d[..1]) == d[0] by { assert d[..1][..0] == []; }
    AtLeastOne(d[0], Pow(10, |d| - 1));
  }

  lemma AtLeastOne(k: int, p: nat)
    requires k >= 1
    ensures k * p >= p
  {
    assert (k - 1) * p >= 0;
  }

  /** Two digit strings of equal value and no leading zero are the same string. */
  lemma {:induction false} DecInjective(a: seq<int>, b: seq<int>)
    requires Digits(a) && Digits(b) && |a| == |b| && Dec(a) == Dec(b)
    ensures a == b
  {
    if a != [] {
      var n := |a| - 1;
      DecInjective(a[..n], b[..n]);
      assert a == a[..n] + [a[n]] && b == b[..n] + [b[n]];
    }
  }

  lemma {:induction false} LittleEndianReversed(l: seq<int>)
    ensures Dec(Reverse(l)) == LittleEndian(10, l)
  {
    if l != [] {
      LittleEndianReversed(l[1..]);
      DecSnoc(Reverse(l[1..]), l[0]);
      assert Reverse(l) == Reverse(l[1..]) + [l[0]];
    }
  }

  function Reverse(l: seq<int>): (r: seq<int>)
    ensures |r| == |l| && forall i :: 0 <= i < |l| ==> r[i] == l[|l| - 1 - i]
  {
    if l == [] then [] else Reverse(l[1..]) + [l[0]]
  }

  /** Divides limbs in place, most significant first; returns the remainder. */
  method DivmodSmall(limbs: array<u32>, d: u32) returns (r: u32)
    requires d > 0
    modifies limbs
    ensures r < d
    ensures LittleEndian(B32, old(limbs[..])) == LittleEndian(B32, limbs[..]) * d + r
  {
    var rem: u64 := 0;
    var i := limbs.Length;
    assert limbs[i..] == [];
    while i > 0
      invariant 0 <= i <= limbs.Length
      invariant rem < d
      invariant limbs[..i] == old(limbs[..i])
      invariant LittleEndian(B32, old(limbs[i..])) == LittleEndian(B32, limbs[i..]) * d + rem
    {
      i := i - 1;
      ghost var above := limbs[i + 1..];
      var limb := limbs[i];
      DivStep(rem, d, limb, LittleEndian(B32, above), LittleEndian(B32, old(limbs[i + 1..])));
      var cur: u64 := rem * B32 + limb;
      limbs[i] := cur / d;
      rem := cur % d;
      assert limbs[i..] == [cur / d] + above;
      assert old(limbs[i..]) == [limb] + old(limbs[i + 1..]);
    }
    assert limbs[0..] == limbs[..];
    r := rem;
  }

  lemma DivStep(rem: int, d: int, limb: int, high: int, was: int)
    requires 0 <= rem < d < B32 && 0 <= limb < B32 && was == high * d + rem
    ensures 0 <= rem * B32 + limb < B64
    ensures 0 <= (rem * B32 + limb) / d < B32
    ensures limb + B32 * was == ((rem * B32 + limb) / d + B32 * high) * d + (rem * B32 + limb) % d
  {
    var cur := rem * B32 + limb;
    var q := cur / d;
    assert cur == q * d + cur % d;
    QuotientBound(cur, d, B32);
    assert B32 * (high * d) == (B32 * high) * d by { MulAssoc(B32, high, d); }
    assert (q + B32 * high) * d == q * d + (B32 * high) * d;
  }

  lemma QuotientBound(n: int, d: int, b: int)
    requires d > 0 && 0 <= n < d * b
    ensures 0 <= n / d < b
  {
    var q := n / d;
    assert q * d <= n;
    assert q >= b ==> q * d >= b * d;
  }

  method AllZero(limbs: array<u32>) returns (z: bool)
    ensures z <==> LittleEndian(B32, limbs[..]) == 0
    ensures LittleEndian(B32, limbs[..]) >= 0
  {
    z := forall i :: 0 <= i < limbs.Length ==> limbs[i] == 0;
    LittleEndianZero(B32, limbs[..]);
    LittleEndianNonNegative(B32, limbs[..]);
    assert z <==> forall i :: 0 <= i < |limbs[..]| ==> limbs[..][i] == 0 by {
      assert forall i :: 0 <= i < limbs.Length ==> limbs[..][i] == limbs[i];
    }
  }

  class Big {
    var limbs: seq<u32>

    ghost function Value(): int
      reads this
    {
      LittleEndian(B32, limbs)
    }

    constructor FromU64(v: u64)
      ensures Value() == v
    {
      limbs := [v % B32, v / B32];
      assert LittleEndian(B32, [v % B32, v / B32]) == v by {
        var low, high := v % B32, v / B32;
        LittleEndianSnoc(B32, [low], high);
        assert [low] + [high] == [low, high];
        assert LittleEndian(B32, [low]) == low by { assert [low][1..] == []; }
        assert Pow(B32, 1) == B32 by { assert Pow(B32, 0) == 1; }
        assert v == B32 * high + low;
      }
    }

    /** Multiplies by `2^n`: whole limbs first, then the remaining bits with a carry.
        The disjoint bits of `(limb << n) | carry` are added. */
    method ShlBits(n: nat)
      modifies this
      ensures Value() == old(Value()) * Pow(2, n)
      decreases n
    {
      if n >= 32 {
        var whole := n / 32;
        var rest := n % 32;
        ghost var zeros: seq<u32> := seq(whole, _ => 0);
        limbs := seq(whole, _ => 0) + limbs;
        assert limbs == zeros + old(limbs);
        ShiftWhole(zeros, old(limbs));
        ShlBits(rest);
        ShiftSplit(old(Value()), whole, rest);
        return;
      }
      if n == 0 {
        return;
      }
      var carry: u32 := 0;
      var i := 0;
      ghost var l := limbs;
      assert l[..0] == [];
      PowPositive(2, n);
      while i < |limbs|
        invariant 0 <= i <= |limbs| == |l|
        invariant limbs[i..] == l[i..]
        invariant carry < Pow(2, n)
        invariant LittleEndian(B32, limbs[..i]) + carry * Pow(B32, i) == LittleEndian(B32, l[..i]) * Pow(2, n)
      {
        var limb := limbs[i];
        TwoTo32(n);
        ShiftLimb(limb, Pow(2, n), Pow(2, 32 - n), carry);
        var newCarry: u32 := limb / Two(32 - n);
        var low: u32 := limb * Two(n) % B32 + carry;
        LimbStep(limbs[..i], l[..i], limb, low, carry, newCarry, Pow(2, n), i);
        assert limbs[i := low][..i + 1] == limbs[..i] + [low];
        assert l[..i + 1] == l[..i] + [limb];
        limbs := limbs[i := low];
        carry := newCarry;
        i := i + 1;
      }
      assert limbs[..i] == limbs && l[..i] == l;
      if carry != 0 {
        LittleEndianSnoc(B32, limbs, carry);
        limbs := limbs + [carry];
      }
    }

    /** Multiplies by a small factor, pushing a final carry. */
    method MulSmall(m: u32)
      modifies this
      ensures Value() == old(Value()) * m
    {
      hide LittleEndian, Pow;
      var carry: u64 := 0;
      var i := 0;
      ghost var l := limbs;
      NothingMultiplied(limbs, m);
      while i < |limbs|
        invariant 0 <= i <= |limbs| == |l|
        invariant limbs[i..] == l[i..]
        invariant carry < B32
        invariant LittleEndian(B32, limbs[..i]) + carry * Pow(B32, i) == LittleEndian(B32, l[..i]) * m
      {
        var limb := limbs[i];
        ProductFits(limb, m, carry);
        var prod: u64 := limb * m + carry;
        var low: u32 := prod % B32;
        LimbStep(limbs[..i], l[..i], limb, low, carry, prod / B32, m, i);
        ghost var before := limbs[..i];
        limbs := limbs[i := low];
        assert limbs[..i + 1] == before + [low];
        assert l[..i + 1] == l[..i] + [limb];
        carry := prod / B32;
        i := i + 1;
      }
      assert limbs[..i] == limbs && l[..i] == l;
      if carry != 0 {
        LittleEndianSnoc(B32, limbs, carry);
        limbs := limbs + [carry];
      } else {
        assert carry * Pow(B32, i) == 0;
      }
    }

    /** Multiplies by `5^k`, thirteen factors at a time. */
    method MulPow5(k: nat)
      modifies this
      ensures Value() == old(Value()) * Pow(5, k)
    {
      var left := k;
      while left >= 13
        invariant 0 <= left <= k
        invariant Value() * Pow(5, left) == old(Value()) * Pow(5, k)
      {
        Five13(left, Value());
        MulSmall(1220703125);
        left := left - 13;
      }
      var j := 0;
      while j < left
        invariant 0 <= j <= left
        invariant Value() * Pow(5, left - j) == old(Value()) * Pow(5, k)
      {
        MulAssoc(Value(), 5, Pow(5, left - j - 1));
        MulSmall(5);
        j := j + 1;
      }
      assert Pow(5, 0) == 1;
    }

    /** The decimal digits, most significant first, without leading zeros (`[0]` for zero). */
    method ToDecimal() returns (digits: seq<u8>)
      ensures Digits(digits) && Dec(digits) == Value()
      ensures Value() == 0 ==> digits == [0]
      ensures Value() > 0 ==> digits != [] && digits[0] != 0
    {
      var quotient := new u32[|limbs|](i requires 0 <= i < |limbs| reads this => limbs[i]);
      assert quotient[..] == limbs;
      hide LittleEndian, Dec;
      var zero := AllZero(quotient);
      if zero {
        digits := [0];
        DecOfZero();
        return;
      }
      var groups := Groups(quotient, Value());
      digits := TopGroup(groups[|groups| - 1]);
      var i := |groups| - 1;
      OneGroup(groups, i);
      while i > 0
        invariant 0 <= i < |groups|
        invariant Digits(digits) && digits != [] && digits[0] != 0
        invariant Dec(digits) == LittleEndian(GROUP, groups[i..])
      {
        i := i - 1;
        var nine := PaddedGroup(groups[i]);
        NextGroup(digits, nine, groups, i);
        digits := digits + nine;
      }
      assert groups[0..] == groups;
    }
  }

  lemma NothingMultiplied(l: seq<int>, m: int)
    ensures l[..0] == [] && LittleEndian(B32, l[..0]) + 0 * Pow(B32, 0) == LittleEndian(B32, l[..0]) * m
  {}

  lemma DecOfZero()
    ensures Dec([0]) == 0
  {
    assert [0][..0] == [];
  }

  lemma OneGroup(groups: seq<int>, i: nat)
    requires i + 1 == |groups|
    ensures LittleEndian(GROUP, groups[i..]) == groups[i]
  {
    assert groups[i..] == [groups[i]] && groups[i..][1..] == [];
  }

  /** Nine more digits bring in the group below. */
  lemma NextGroup(digits: seq<int>, nine: seq<int>, groups: seq<int>, i: nat)
    requires i + 1 < |groups| && |nine| == 9 && Dec(nine) == groups[i]
    requires Dec(digits) == LittleEndian(GROUP, groups[i + 1..])
    ensures Dec(digits + nine) == LittleEndian(GROUP, groups[i..])
  {
    DecAppend(digits, nine);
    Billion();
    assert groups[i..][0] == groups[i] && groups[i..][1..] == groups[i + 1..];
  }

  /** Two to a small power, as the shifts compute it. */
  function Two(n: nat): (r: nat)
    ensures r == Pow(2, n) && r > 0
  {
    if n == 0 then 1 else 2 * Two(n - 1)
  }

  lemma TwoTo32(n: nat)
    requires n <= 32
    ensures Pow(2, n) * Pow(2, 32 - n) == B32
    ensures Pow(2, n) > 0 && Pow(2, 32 - n) > 0
  {
    PowAdd(2, n, 32 - n);
    assert Pow(2, 8) == 256;
    PowAdd(2, 8, 8);
    PowAdd(2, 16, 16);
    PowPositive(2, n);
    PowPositive(2, 32 - n);
  }

  lemma ShiftLimb(limb: int, p: int, t: int, carry: int)
    requires p > 0 && t > 0 && p * t == B32 && 0 <= limb < B32 && 0 <= carry < p
    ensures limb * p == limb / t * B32 + limb * p % B32
    ensures 0 <= limb / t < p
    ensures 0 <= limb * p % B32 + carry < B32
  {
    var q, r := limb / t, limb % t;
    assert limb == q * t + r;
    assert q * t * p == q * B32 by { MulAssoc(q, t, p); }
    assert limb * p == q * B32 + r * p;
    assert (t - 1 - r) * p >= 0;
    assert r * p <= t * p - p;
    assert r * p >= 0;
    DivModUnique(limb * p, B32, q, r * p);
    QuotientBound(limb, t, p);
  }

  lemma ProductFits(limb: int, m: int, carry: int)
    requires 0 <= limb < B32 && 0 <= m < B32 && 0 <= carry < B32
    ensures 0 <= limb * m && limb * m + carry < B64
    ensures (limb * m + carry) / B32 < B32
  {
    MulLe(limb, B32 - 1, m, B32 - 1);
  }

  /** One limb of a multiplication with carry. */
  lemma LimbStep(done: seq<int>, was: seq<int>, limb: int, low: int, carry: int, next: int, m: int, i: nat)
    requires |done| == |was| == i
    requires LittleEndian(B32, done) + carry * Pow(B32, i) == LittleEndian(B32, was) * m
    requires limb * m + carry == next * B32 + low
    ensures LittleEndian(B32, done + [low]) + next * Pow(B32, i + 1) == LittleEndian(B32, was + [limb]) * m
  {
    LittleEndianSnoc(B32, done, low);
    LittleEndianSnoc(B32, was, limb);
    LimbArithmetic(LittleEndian(B32, done), LittleEndian(B32, was), limb, low, carry, next, m, Pow(B32, i));
  }

  lemma LimbArithmetic(d: int, w: int, limb: int, low: int, carry: int, next: int, m: int, p: int)
    requires d + carry * p == w * m
    requires limb * m + carry == next * B32 + low
    ensures d + low * p + next * (B32 * p) == (w + limb * p) * m
  {
    assert (w + limb * p) * m == w * m + limb * m * p by { MulAssoc(limb, p, m); MulAssoc(limb, m, p); }
    assert (limb * m + carry) * p == limb * m * p + carry * p;
    assert (next * B32 + low) * p == next * (B32 * p) + low * p by { MulAssoc(next, B32, p); }
  }

  lemma ShiftWhole(zeros: seq<u32>, l: seq<u32>)
    requires forall i :: 0 <= i < |zeros| ==> zeros[i] == 0
    ensures LittleEndian(B32, zeros + l) == Pow(B32, |zeros|) * LittleEndian(B32, l)
  {
    LittleEndianAppend(B32, zeros, l);
    LittleEndianZero(B32, zeros);
  }

  lemma ShiftSplit(v: int, whole: nat, rest: nat)
    ensures Pow(B32, whole) * v * Pow(2, rest) == v * Pow(2, whole * 32 + rest)
  {
    WholeShift(whole);
    PowAdd(2, whole * 32, rest);
    var a, b := Pow(2, whole * 32), Pow(2, rest);
    MulAssoc(v, a, b);
    assert a * v == v * a;
  }

  lemma {:induction false} WholeShift(whole: nat)
    ensures Pow(B32, whole) == Pow(2, whole * 32)
  {
    if whole > 0 {
      WholeShift(whole - 1);
      PowAdd(2, 32, (whole - 1) * 32);
      TwoTo32(32);
      assert Pow(2, 0) == 1;
    }
  }

  lemma Five13(left: nat, v: int)
    requires left >= 13
    ensures v * Pow(5, left) == v * 1220703125 * Pow(5, left - 13)
  {
    PowAdd(5, 13, left - 13);
    assert Pow(5, 4) == 625;
    PowAdd(5, 4, 4);
    PowAdd(5, 8, 4);
    assert Pow(5, 13) == 5 * Pow(5, 12);
    MulAssoc(v, 1220703125, Pow(5, left - 13));
  }

  lemma Billion()
    ensures Pow(10, 9) == GROUP
  {
    assert Pow(10, 3) == 1000;
    PowAdd(10, 3, 3);
    PowAdd(10, 6, 3);
  }

  /** Repeated division by 10^9 collects base-10^9 groups, least significant first. */
  method Groups(quotient: array<u32>, ghost v: int) returns (groups: seq<u32>)
    requires v == LittleEndian(B32, quotient[..]) && v > 0
    modifies quotient
    ensures groups != [] && groups[|groups| - 1] > 0
    ensures forall i :: 0 <= i < |groups| ==> groups[i] < GROUP
    ensures LittleEndian(GROUP, groups) == v
  {
    groups := [];
    var zero := AllZero(quotient);
    assert Pow(GROUP, 0) == 1;
    while !zero
      invariant zero <==> LittleEndian(B32, quotient[..]) == 0
      invariant LittleEndian(B32, quotient[..]) >= 0
      invariant forall i :: 0 <= i < |groups| ==> groups[i] < GROUP
      invariant LittleEndian(GROUP, groups) + LittleEndian(B32, quotient[..]) * Pow(GROUP, |groups|) == v
      invariant zero ==> groups != [] && groups[|groups| - 1] > 0
      decreases LittleEndian(B32, quotient[..])
    {
      ghost var before := LittleEndian(B32, quotient[..]);
      var r := DivmodSmall(quotient, GROUP);
      zero := AllZero(quotient);
      ghost var after := LittleEndian(B32, quotient[..]);
      LittleEndianSnoc(GROUP, groups, r);
      GroupStep(LittleEndian(GROUP, groups), before, after, r, Pow(GROUP, |groups|));
      groups := groups + [r];
    }
  }

  lemma GroupStep(g: int, before: int, after: int, r: int, p: int)
    requires before == after * GROUP + r
    ensures g + before * p == g + r * p + after * (GROUP * p)
  {
    MulAssoc(after, GROUP, p);
    assert (after * GROUP + r) * p == after * GROUP * p + r * p;
  }

  /** The most significant group, without padding: digits collected backwards, then reversed. */
  method TopGroup(top: u32) returns (digits: seq<u8>)
    requires 0 < top < GROUP
    ensures Digits(digits) && digits != [] && digits[0] != 0
    ensures Dec(digits) == top
  {
    var buf := new u8[9](_ => 0);
    var n := 0;
    var t := top;
    hide LittleEndian, Pow, Dec;
    NothingCollected(buf[..], top);
    while t > 0
      invariant 0 <= n <= 9 && 0 <= t
      invariant forall i :: 0 <= i < n ==> buf[i] <= 9
      invariant LittleEndian(10, buf[..n]) + t * Pow(10, n) == top
      invariant t == 0 ==> n > 0 && buf[n - 1] > 0
      decreases t
    {
      TopFits(buf[..n], t, n, top);
      CollectDigit(buf[..n], t, n);
      ghost var l := buf[..n];
      buf[n] := t % 10;
      assert buf[..n + 1] == l + [t % 10];
      t := t / 10;
      n := n + 1;
    }
    digits := Reversed(buf, n);
    LittleEndianReversed(buf[..n]);
    assert 0 * Pow(10, n) == 0;
  }

  lemma NothingCollected(buf: seq<int>, top: int)
    ensures LittleEndian(10, buf[..0]) + top * Pow(10, 0) == top
  {
    assert buf[..0] == [];
  }

  lemma CollectDigit(l: seq<int>, t: int, n: nat)
    requires |l| == n
    ensures LittleEndian(10, l + [t % 10]) + t / 10 * Pow(10, n + 1) == LittleEndian(10, l) + t * Pow(10, n)
  {
    LittleEndianSnoc(10, l, t % 10);
    DigitStep(LittleEndian(10, l), t, Pow(10, n));
  }

  /** The first `n` collected digits, last one first. */
  method Reversed(buf: array<u8>, n: nat) returns (digits: seq<u8>)
    requires n <= buf.Length
    ensures digits == Reverse(buf[..n])
  {
    digits := [];
    var i := n;
    while i > 0
      invariant 0 <= i <= n
      invariant |digits| == n - i
      invariant forall k :: 0 <= k < n - i ==> digits[k] == buf[n - 1 - k]
    {
      i := i - 1;
      digits := digits + [buf[i]];
    }
  }

  lemma DigitStep(g: int, t: int, p: int)
    ensures g + t * p == g + t % 10 * p + t / 10 * (10 * p)
  {
    var q, r := t / 10, t % 10;
    assert t == q * 10 + r;
    Distribute(p, q * 10, r);
    MulAssoc(q, 10, p);
  }

  lemma TopFits(l: seq<int>, t: int, n: nat, top: int)
    requires n == |l| && n <= 9 && t > 0 && 0 < top < GROUP
    requires forall i :: 0 <= i < n ==> l[i] >= 0
    requires LittleEndian(10, l) + t * Pow(10, n) == top
    ensures n < 9
  {
    LittleEndianNonNegative(10, l);
    Billion();
    AtLeastOne(t, Pow(10, n));
  }

  /** A lower group, zero-padded to nine digits. */
  method PaddedGroup(g: u32) returns (digits: seq<u8>)
    requires g < GROUP
    ensures |digits| == 9 && Digits(digits) && Dec(digits) == g
  {
    digits := [];
    var div: u32 := 100_000_000;
    ghost var scale: nat := GROUP;
    while div > 0
      invariant |digits| <= 9 && Digits(digits)
      invariant scale > 0 && div == scale / 10 && (div > 0 ==> scale == 10 * div)
      invariant scale == Pow(10, 9 - |digits|)
      invariant Dec(digits) == g / scale
      decreases div
    {
      DivideByTen(g, div);
      DecSnoc(digits, g / div % 10);
      NineLeft(digits, scale);
      assert Pow(10, 9 - |digits|) == 10 * Pow(10, 8 - |digits|);
      ghost var was := digits;
      digits := digits + [g / div % 10];
      scale := div;
      div := div / 10;
      PowerOfTen(8 - |was|, scale);
    }
    NineLeft2(digits, scale);
  }

  lemma DivideByTen(g: nat, d: nat)
    requires d > 0
    ensures g / d == 10 * (g / (10 * d)) + g / d % 10
  {
    var q, r := g / d, g % d;
    assert g == q * d + r;
    var q1, r1 := q / 10, q % 10;
    SplitTens(q1, r1, d);
    MulLe(r1, 9, d, d);
    DivModUnique(g, 10 * d, q1, r1 * d + r);
  }

  lemma SplitTens(q: nat, r: nat, d: nat)
    ensures (10 * q + r) * d == q * (10 * d) + r * d
  {
    Distribute(d, 10 * q, r);
    MulAssoc(q, 10, d);
  }

  lemma NineLeft(digits: seq<int>, scale: nat)
    requires |digits| <= 9 && scale == Pow(10, 9 - |digits|) && scale / 10 > 0
    ensures |digits| < 9
  {
    assert Pow(10, 0) == 1;
  }

  lemma NineLeft2(digits: seq<int>, scale: nat)
    requires |digits| <= 9 && scale == Pow(10, 9 - |digits|) && scale / 10 == 0
    ensures |digits| == 9 && scale == 1
  {
    var rest := 9 - |digits|;
    assert rest > 0 ==> scale == 10 * Pow(10, rest - 1);
    PowPositive(10, if rest > 0 then rest - 1 else 0);
  }

  lemma PowerOfTen(e: nat, s: nat)
    requires s == Pow(10, e)
    ensures s / 10 > 0 ==> s == 10 * (s / 10)
  {
    if e > 0 { DivModUnique(s, 10, Pow(10, e - 1), 0); }
  }
}
