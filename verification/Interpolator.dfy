/**
 The polyphase true-peak interpolator: a circular delay line per channel, and the running maximum
 of its sub-filters' outputs. The windowed-sinc taps and the narrowing to single precision are
 parameters.
 */
module Interpolator {
  import opened Arith
  import opened Floats
  import opened Samples

  const TAPS: nat := 49

  /** Delays in frames and their coefficients. */
  datatype SubFilter = SubFilter(index: seq<nat>, coeff: seq<real>)

  function Max(a: real, b: real): real {
    if b > a then b else a
  }

  // ---- reference definition --------------------------------------------

  /** The sample of channel `c` at frame `m`; silence before the start. */
  function Tap(s: seq<real>, channels: nat, m: int, c: nat): real
    requires c < channels && (m + 1) * channels <= |s|
  {
    if m < 0 then 0.0 else
      Cell(m, c, channels, m + 1);
      s[m * channels + c]
  }

  predicate WellFormed(f: SubFilter, delay: nat) {
    |f.index| == |f.coeff| && forall t :: 0 <= t < |f.index| ==> f.index[t] < delay
  }

  /** The first `t` terms of a sub-filter's output at frame `m`. */
  function Fir(s: seq<real>, channels: nat, f: SubFilter, m: nat, c: nat, t: nat): real
    requires c < channels && (m + 1) * channels <= |s| && t <= |f.index| == |f.coeff|
  {
    if t == 0 then 0.0 else
      EarlierFrame(m, f.index[t - 1], channels);
      Fir(s, channels, f, m, c, t - 1) + Tap(s, channels, m - f.index[t - 1], c) * f.coeff[t - 1]
  }

  function Output(s: seq<real>, channels: nat, f: SubFilter, narrow: real -> real, m: nat, c: nat): real
    requires c < channels && (m + 1) * channels <= |s| && |f.index| == |f.coeff|
  {
    Abs(narrow(Fir(s, channels, f, m, c, |f.coeff|)))
  }

  /** The largest output of the first `i` sub-filters. */
  function FilterPeak(s: seq<real>, channels: nat, fs: seq<SubFilter>, narrow: real -> real, m: nat, c: nat,
      i: nat): real
    requires c < channels && (m + 1) * channels <= |s| && i <= |fs|
    requires forall k :: 0 <= k < |fs| ==> |fs[k].index| == |fs[k].coeff|
  {
    if i == 0 then 0.0
    else Max(FilterPeak(s, channels, fs, narrow, m, c, i - 1), Output(s, channels, fs[i - 1], narrow, m, c))
  }

  /** The largest output of a frame over its first `c` channels. */
  function FramePeak(s: seq<real>, channels: nat, fs: seq<SubFilter>, narrow: real -> real, m: nat, c: nat): real
    requires c <= channels && (m + 1) * channels <= |s|
    requires forall k :: 0 <= k < |fs| ==> |fs[k].index| == |fs[k].coeff|
  {
    if c == 0 then 0.0
    else Max(FramePeak(s, channels, fs, narrow, m, c - 1), FilterPeak(s, channels, fs, narrow, m, c - 1, |fs|))
  }

  /** The largest output over the first `n` frames. */
  function Peak(s: seq<real>, channels: nat, fs: seq<SubFilter>, narrow: real -> real, n: nat): real
    requires n * channels <= |s|
    requires forall k :: 0 <= k < |fs| ==> |fs[k].index| == |fs[k].coeff|
  {
    if n == 0 then 0.0 else
      EarlierFrame(n - 1, 1, channels);
      Max(Peak(s, channels, fs, narrow, n - 1), FramePeak(s, channels, fs, narrow, n - 1, channels))
  }

  // ---- the past does not change ----------------------------------------

  lemma {:induction false} FirExtends(s: seq<real>, more: seq<real>, channels: nat, f: SubFilter, m: nat, c: nat,
      t: nat)
    requires c < channels && (m + 1) * channels <= |s| && t <= |f.index| == |f.coeff|
    ensures Fir(s + more, channels, f, m, c, t) == Fir(s, channels, f, m, c, t)
  {
    if t > 0 {
      FirExtends(s, more, channels, f, m, c, t - 1);
      var e := m - f.index[t - 1];
      EarlierFrame(m, f.index[t - 1], channels);
      if e >= 0 { Cell(e, c, channels, e + 1); }
    }
  }

  lemma {:induction false} FilterPeakExtends(s: seq<real>, more: seq<real>, channels: nat, fs: seq<SubFilter>,
      narrow: real -> real, m: nat, c: nat, i: nat)
    requires c < channels && (m + 1) * channels <= |s| && i <= |fs|
    requires forall k :: 0 <= k < |fs| ==> |fs[k].index| == |fs[k].coeff|
    ensures FilterPeak(s + more, channels, fs, narrow, m, c, i) == FilterPeak(s, channels, fs, narrow, m, c, i)
  {
    if i > 0 {
      FilterPeakExtends(s, more, channels, fs, narrow, m, c, i - 1);
      FirExtends(s, more, channels, fs[i - 1], m, c, |fs[i - 1].coeff|);
    }
  }

  lemma {:induction false} FramePeakExtends(s: seq<real>, more: seq<real>, channels: nat, fs: seq<SubFilter>,
      narrow: real -> real, m: nat, c: nat)
    requires c <= channels && (m + 1) * channels <= |s|
    requires forall k :: 0 <= k < |fs| ==> |fs[k].index| == |fs[k].coeff|
    ensures FramePeak(s + more, channels, fs, narrow, m, c) == FramePeak(s, channels, fs, narrow, m, c)
  {
    if c > 0 {
      FramePeakExtends(s, more, channels, fs, narrow, m, c - 1);
      FilterPeakExtends(s, more, channels, fs, narrow, m, c - 1, |fs|);
    }
  }

  lemma {:induction false} PeakExtends(s: seq<real>, more: seq<real>, channels: nat, fs: seq<SubFilter>,
      narrow: real -> real, n: nat)
    requires n * channels <= |s|
    requires forall k :: 0 <= k < |fs| ==> |fs[k].index| == |fs[k].coeff|
    ensures Peak(s + more, channels, fs, narrow, n) == Peak(s, channels, fs, narrow, n)
  {
    if n > 0 {
      EarlierFrame(n - 1, 1, channels);
      PeakExtends(s, more, channels, fs, narrow, n - 1);
      FramePeakExtends(s, more, channels, fs, narrow, n - 1, channels);
    }
  }

  lemma {:induction false} PeakPositive(s: seq<real>, channels: nat, fs: seq<SubFilter>, narrow: real -> real, n: nat)
    requires n * channels <= |s|
    requires forall k :: 0 <= k < |fs| ==> |fs[k].index| == |fs[k].coeff|
    ensures Peak(s, channels, fs, narrow, n) >= 0.0
  {
    if n > 0 {
      EarlierFrame(n - 1, 1, channels);
      PeakPositive(s, channels, fs, narrow, n - 1);
    }
  }

  /** Every output is at most the peak. */
  lemma {:induction false} PeakBounds(s: seq<real>, channels: nat, fs: seq<SubFilter>, narrow: real -> real, n: nat,
      m: nat, c: nat, k: nat)
    requires m < n && n * channels <= |s| && c < channels && k < |fs|
    requires forall k :: 0 <= k < |fs| ==> |fs[k].index| == |fs[k].coeff|
    ensures (m + 1) * channels <= |s| && Output(s, channels, fs[k], narrow, m, c) <= Peak(s, channels, fs, narrow, n)
    decreases n
  {
    EarlierFrame(n - 1, 1, channels);
    if m < n - 1 {
      PeakBounds(s, channels, fs, narrow, n - 1, m, c, k);
    } else {
      FilterBounds(s, channels, fs, narrow, m, c, |fs|, k);
      FrameBound(s, channels, fs, narrow, m, channels, c);
    }
  }

  lemma {:induction false} FilterBounds(s: seq<real>, channels: nat, fs: seq<SubFilter>, narrow: real -> real, m: nat,
      c: nat, i: nat, k: nat)
    requires c < channels && (m + 1) * channels <= |s| && k < i <= |fs|
    requires forall k :: 0 <= k < |fs| ==> |fs[k].index| == |fs[k].coeff|
    ensures Output(s, channels, fs[k], narrow, m, c) <= FilterPeak(s, channels, fs, narrow, m, c, i)
    decreases i
  {
    if k < i - 1 { FilterBounds(s, channels, fs, narrow, m, c, i - 1, k); }
  }

  lemma {:induction false} FrameBound(s: seq<real>, channels: nat, fs: seq<SubFilter>, narrow: real -> real, m: nat,
      upto: nat, c: nat)
    requires c < upto <= channels && (m + 1) * channels <= |s|
    requires forall k :: 0 <= k < |fs| ==> |fs[k].index| == |fs[k].coeff|
    ensures FilterPeak(s, channels, fs, narrow, m, c, |fs|) <= FramePeak(s, channels, fs, narrow, m, upto)
    decreases upto
  {
    if c < upto - 1 { FrameBound(s, channels, fs, narrow, m, upto - 1, c); }
  }

  /** A positive peak is some frame's, channel's and sub-filter's output. */
  lemma {:induction false} PeakAttained(s: seq<real>, channels: nat, fs: seq<SubFilter>, narrow: real -> real, n: nat)
    returns (m: nat, c: nat, k: nat)
    requires n * channels <= |s| && forall k :: 0 <= k < |fs| ==> |fs[k].index| == |fs[k].coeff|
    requires Peak(s, channels, fs, narrow, n) > 0.0
    ensures m < n && c < channels && k < |fs| && (m + 1) * channels <= |s|
    ensures Output(s, channels, fs[k], narrow, m, c) == Peak(s, channels, fs, narrow, n)
    decreases n
  {
    EarlierFrame(n - 1, 1, channels);
    if Peak(s, channels, fs, narrow, n) == Peak(s, channels, fs, narrow, n - 1) {
      m, c, k := PeakAttained(s, channels, fs, narrow, n - 1);
    } else {
      m := n - 1;
      c := FrameAttained(s, channels, fs, narrow, m, channels);
      k := FilterAttained(s, channels, fs, narrow, m, c, |fs|);
    }
  }

  lemma {:induction false} FrameAttained(s: seq<real>, channels: nat, fs: seq<SubFilter>, narrow: real -> real, m: nat,
      upto: nat) returns (c: nat)
    requires upto <= channels && (m + 1) * channels <= |s|
    requires forall k :: 0 <= k < |fs| ==> |fs[k].index| == |fs[k].coeff|
    requires FramePeak(s, channels, fs, narrow, m, upto) > 0.0
    ensures c < upto && FilterPeak(s, channels, fs, narrow, m, c, |fs|) == FramePeak(s, channels, fs, narrow, m, upto)
    decreases upto
  {
    c := upto - 1;
    if FramePeak(s, channels, fs, narrow, m, upto) == FramePeak(s, channels, fs, narrow, m, upto - 1) {
      c := FrameAttained(s, channels, fs, narrow, m, upto - 1);
    }
  }

  lemma {:induction false} FilterAttained(s: seq<real>, channels: nat, fs: seq<SubFilter>, narrow: real -> real, m: nat,
      c: nat, i: nat) returns (k: nat)
    requires c < channels && (m + 1) * channels <= |s| && i <= |fs|
    requires forall k :: 0 <= k < |fs| ==> |fs[k].index| == |fs[k].coeff|
    requires FilterPeak(s, channels, fs, narrow, m, c, i) > 0.0
    ensures k < i && Output(s, channels, fs[k], narrow, m, c) == FilterPeak(s, channels, fs, narrow, m, c, i)
    decreases i
  {
    k := i - 1;
    if FilterPeak(s, channels, fs, narrow, m, c, i) == FilterPeak(s, channels, fs, narrow, m, c, i - 1) {
      k := FilterAttained(s, channels, fs, narrow, m, c, i - 1);
    }
  }

  // ---- the sub-filters -------------------------------------------------

  const ALMOST_ZERO: real := 0.000_001

  /** Every `factor`-th tap from `phase`, of the first `j`; near-zero taps are dropped. */
  function Phase(tap: nat -> real, factor: nat, phase: nat, j: nat): (f: SubFilter)
    requires factor > 0
    ensures |f.index| == |f.coeff| <= j
    ensures forall t :: 0 <= t < |f.index| ==> 0 <= f.index[t] <= (j - 1) / factor
  {
    if j == 0 then SubFilter([], []) else
      var f := Phase(tap, factor, phase, j - 1);
      PhaseBound(j, factor);
      if (j - 1) % factor == phase && Abs(tap(j - 1)) > ALMOST_ZERO
      then SubFilter(f.index + [(j - 1) / factor], f.coeff + [tap(j - 1)])
      else f
  }

  lemma PhaseBound(j: nat, factor: nat)
    requires j > 0 && factor > 0
    ensures (j - 2) / factor <= (j - 1) / factor
  {
    if j > 1 {
      FloorDiv((j - 2) / factor, factor, j - 2);
      FloorDiv((j - 2) / factor, factor, j - 1);
    }
  }

  function Phases(tap: nat -> real, factor: nat, j: nat): (fs: seq<SubFilter>)
    requires factor > 0
    ensures |fs| == factor
  {
    seq(factor, phase requires 0 <= phase < factor => Phase(tap, factor, phase, j))
  }

  /** The delay line's length, `TAPS / factor` rounded up. */
  function Delay(factor: nat): nat
    requires factor > 0
  {
    (TAPS + factor - 1) / factor
  }

  lemma PhasesFit(tap: nat -> real, factor: nat)
    requires factor > 0
    ensures Delay(factor) > 0
    ensures forall k :: 0 <= k < factor ==> WellFormed(Phases(tap, factor, TAPS)[k], Delay(factor))
  {
    DelayIs(factor);
    forall k | 0 <= k < factor ensures WellFormed(Phases(tap, factor, TAPS)[k], Delay(factor)) {
      PhaseFits(tap, factor, k);
    }
  }

  lemma DelayIs(factor: nat)
    requires factor > 0
    ensures Delay(factor) == (TAPS - 1) / factor + 1
  {
    var q, r := (TAPS - 1) / factor, (TAPS - 1) % factor;
    assert TAPS - 1 == q * factor + r;
    Distribute(factor, q, 1);
    DivModUnique(TAPS + factor - 1, factor, q + 1, r);
  }

  lemma PhaseFits(tap: nat -> real, factor: nat, phase: nat)
    requires factor > 0
    ensures WellFormed(Phase(tap, factor, phase, TAPS), (TAPS - 1) / factor + 1)
  {
    hide Phase;
  }

  /** One more tap goes to its phase. */
  lemma DealTap(tap: nat -> real, factor: nat, j: nat)
    requires factor > 0
    ensures j % factor < factor
    ensures var fs := Phases(tap, factor, j); var f := fs[j % factor];
      Phases(tap, factor, j + 1) ==
        if Abs(tap(j)) > ALMOST_ZERO then fs[j % factor := SubFilter(f.index + [j / factor], f.coeff + [tap(j)])]
          else fs
  {
    hide Abs;
    var fs, next := Phases(tap, factor, j), Phases(tap, factor, j + 1);
    forall k | 0 <= k < factor
      ensures next[k] == if k == j % factor && Abs(tap(j)) > ALMOST_ZERO
        then SubFilter(fs[k].index + [j / factor], fs[k].coeff + [tap(j)]) else fs[k]
    {
      assert next[k] == Phase(tap, factor, k, j + 1);
    }
  }

  method BuildFilters(tap: nat -> real, factor: nat) returns (fs: seq<SubFilter>)
    requires factor > 0
    ensures fs == Phases(tap, factor, TAPS)
  {
    fs := seq(factor, k => SubFilter([], []));
    for j := 0 to TAPS
      invariant fs == Phases(tap, factor, j)
    {
      DealTap(tap, factor, j);
      var c := tap(j);
      if Abs(c) > ALMOST_ZERO {
        var f := fs[j % factor];
        fs := fs[j % factor := SubFilter(f.index + [j / factor], f.coeff + [c])];
      }
    }
  }

  // ---- the delay line --------------------------------------------------

  lemma Slot(c: nat, i: nat, channels: nat, delay: nat)
    requires c < channels && i < delay
    ensures c * delay + i < channels * delay
  {
    Distribute(delay, c, 1);
    MulLe(c + 1, channels, delay, delay);
  }

  lemma ModNext(m: nat, delay: nat)
    requires delay > 0
    ensures (m + 1) % delay == if m % delay + 1 == delay then 0 else m % delay + 1
  {
    var q, r := m / delay, m % delay;
    assert m == q * delay + r;
    if r + 1 == delay {
      assert (q + 1) * delay == q * delay + delay;
      DivModUnique(m + 1, delay, q + 1, 0);
    } else {
      DivModUnique(m + 1, delay, q, r + 1);
    }
  }

  /** Channel `c`'s slots hold the `delay` frames before `upto`. */
  ghost predicate Line(z: seq<real>, s: seq<real>, channels: nat, delay: nat, c: nat, upto: nat)
    requires c < channels && delay > 0 && |z| == channels * delay && upto * channels <= |s|
  {
    forall d :: 0 < d <= delay ==> HoldsTap(z, s, channels, delay, c, upto, d)
  }

  /** The slot of the frame `d` before `upto` holds it. */
  ghost predicate HoldsTap(z: seq<real>, s: seq<real>, channels: nat, delay: nat, c: nat, upto: nat, d: nat)
    requires c < channels && 0 < d <= delay && |z| == channels * delay && upto * channels <= |s|
  {
    Slot(c, (upto - d) % delay, channels, delay);
    EarlierFrame(upto - 1, d - 1, channels);
    z[c * delay + (upto - d) % delay] == Tap(s, channels, upto - d, c)
  }

  lemma BackDiffers(m: nat, d: nat, delay: nat)
    requires 0 < d < delay
    ensures (m - d) % delay != m % delay
  {
    ModBack(m, d, delay);
  }

  lemma HoldsNewest(z: seq<real>, s: seq<real>, channels: nat, delay: nat, c: nat, n: nat)
    requires c < channels && 0 < delay && |z| == channels * delay && (n + 1) * channels <= |s|
    requires c * delay + n % delay < |z| && z[c * delay + n % delay] == Tap(s, channels, n, c)
    ensures HoldsTap(z, s, channels, delay, c, n + 1, 1)
  {
    hide Tap;
    assert n + 1 - 1 == n;
  }

  lemma HoldsOlder(z: seq<real>, z': seq<real>, s: seq<real>, channels: nat, delay: nat, c: nat, n: nat, d: nat)
    requires c < channels && 0 < d < delay && |z| == channels * delay && (n + 1) * channels <= |s|
      && n * channels <= |s|
    requires HoldsTap(z, s, channels, delay, c, n, d) && (n - d) % delay != n % delay
    requires c * delay + n % delay < |z| && |z'| == |z|
    requires forall k :: 0 <= k < |z| && k != c * delay + n % delay ==> z'[k] == z[k]
    ensures HoldsTap(z', s, channels, delay, c, n + 1, d + 1)
  {
    hide Tap;
    assert n + 1 - (d + 1) == n - d;
    Slot(c, (n - d) % delay, channels, delay);
    assert z'[c * delay + (n - d) % delay] == z[c * delay + (n - d) % delay];
  }

  lemma HoldsPushed(z: seq<real>, z': seq<real>, s: seq<real>, channels: nat, delay: nat, c: nat, n: nat, d: nat)
    requires c < channels && 0 < d <= delay && |z| == channels * delay && (n + 1) * channels <= |s|
      && n * channels <= |s|
    requires Line(z, s, channels, delay, c, n)
    requires c * delay + n % delay < |z| && z' == z[c * delay + n % delay := Tap(s, channels, n, c)]
    ensures HoldsTap(z', s, channels, delay, c, n + 1, d)
  {
    hide Tap;
    if d == 1 {
      HoldsNewest(z', s, channels, delay, c, n);
    } else {
      assert HoldsTap(z, s, channels, delay, c, n, d - 1);
      BackDiffers(n, d - 1, delay);
      HoldsOlder(z, z', s, channels, delay, c, n, d - 1);
    }
  }

  lemma LinePush(z: seq<real>, s: seq<real>, channels: nat, delay: nat, c: nat, n: nat)
    requires c < channels && delay > 0 && |z| == channels * delay && (n + 1) * channels <= |s| && n * channels <= |s|
    requires Line(z, s, channels, delay, c, n)
    ensures c * delay + n % delay < |z|
    ensures Line(z[c * delay + n % delay := Tap(s, channels, n, c)], s, channels, delay, c, n + 1)
  {
    hide Tap, HoldsTap;
    Slot(c, n % delay, channels, delay);
    var z', upto := z[c * delay + n % delay := Tap(s, channels, n, c)], n + 1;
    forall d | 0 < d <= delay ensures HoldsTap(z', s, channels, delay, c, upto, d) {
      HoldsPushed(z, z', s, channels, delay, c, n, d);
    }
  }

  lemma HoldsOther(z: seq<real>, z': seq<real>, s: seq<real>, channels: nat, delay: nat, c: nat, upto: nat, d: nat,
      c': nat, i: nat, x: real)
    requires c < channels && c' < channels && c != c' && i < delay && |z| == channels * delay && upto * channels <= |s|
    requires 0 < d <= delay && HoldsTap(z, s, channels, delay, c, upto, d)
    requires c' * delay + i < |z| && z' == z[c' * delay + i := x]
    ensures HoldsTap(z', s, channels, delay, c, upto, d)
  {
    hide Tap;
    Slot(c, (upto - d) % delay, channels, delay);
    if c' * delay + i == c * delay + (upto - d) % delay {
      SlotsDiffer(c', i, c, (upto - d) % delay, delay);
    }
  }

  lemma LineOther(z: seq<real>, s: seq<real>, channels: nat, delay: nat, c: nat, upto: nat, c': nat, i: nat, x: real)
    requires c < channels && c' < channels && c != c' && i < delay && |z| == channels * delay && upto * channels <= |s|
    requires Line(z, s, channels, delay, c, upto)
    ensures c' * delay + i < |z| && Line(z[c' * delay + i := x], s, channels, delay, c, upto)
  {
    hide HoldsTap;
    Slot(c', i, channels, delay);
    var z' := z[c' * delay + i := x];
    forall d | 0 < d <= delay ensures HoldsTap(z', s, channels, delay, c, upto, d) {
      HoldsOther(z, z', s, channels, delay, c, upto, d, c', i, x);
    }
  }

  lemma LineExtends(z: seq<real>, s: seq<real>, more: seq<real>, channels: nat, delay: nat, c: nat, upto: nat)
    requires c < channels && delay > 0 && |z| == channels * delay && upto * channels <= |s|
    requires Line(z, s, channels, delay, c, upto)
    ensures Line(z, s + more, channels, delay, c, upto)
  {
    forall d | 0 < d <= delay ensures HoldsTap(z, s + more, channels, delay, c, upto, d) {
      assert HoldsTap(z, s, channels, delay, c, upto, d);
      EarlierFrame(upto - 1, d - 1, channels);
      if upto - d >= 0 { Cell(upto - d, c, channels, upto - d + 1); }
    }
  }

  /** Channel `b` has taken frame `m` exactly when it is among the first `c`. */
  ghost predicate LineAt(z: seq<real>, s: seq<real>, channels: nat, delay: nat, m: nat, c: nat, b: nat)
    requires b < channels && delay > 0 && |z| == channels * delay && m * channels <= (m + 1) * channels <= |s|
  {
    Line(z, s, channels, delay, b, if b < c then m + 1 else m)
  }

  ghost predicate Lines(z: seq<real>, s: seq<real>, channels: nat, delay: nat, m: nat, c: nat)
    requires c <= channels && delay > 0 && |z| == channels * delay && m * channels <= (m + 1) * channels <= |s|
  {
    forall b :: 0 <= b < channels ==> LineAt(z, s, channels, delay, m, c, b)
  }

  lemma LinesPush(z: seq<real>, s: seq<real>, channels: nat, delay: nat, m: nat, c: nat)
    requires c < channels && delay > 0 && |z| == channels * delay && m * channels <= (m + 1) * channels <= |s|
    requires Lines(z, s, channels, delay, m, c)
    ensures c * delay + m % delay < |z| && Line(z, s, channels, delay, c, m)
    ensures Lines(z[c * delay + m % delay := Tap(s, channels, m, c)], s, channels, delay, m, c + 1)
  {
    hide Line, Tap;
    assert LineAt(z, s, channels, delay, m, c, c);
    LinePush(z, s, channels, delay, c, m);
    var z', x, next := z[c * delay + m % delay := Tap(s, channels, m, c)], Tap(s, channels, m, c), c + 1;
    forall b | 0 <= b < channels ensures LineAt(z', s, channels, delay, m, next, b) {
      assert LineAt(z, s, channels, delay, m, c, b);
      if b != c {
        LineOther(z, s, channels, delay, b, if b < c then m + 1 else m, c, m % delay, x);
      }
    }
  }

  ghost predicate AllLines(z: seq<real>, s: seq<real>, channels: nat, delay: nat, upto: nat)
    requires delay > 0 && |z| == channels * delay && upto * channels <= |s|
  {
    forall b :: 0 <= b < channels ==> Line(z, s, channels, delay, b, upto)
  }

  lemma LinesConvert(z: seq<real>, s: seq<real>, channels: nat, delay: nat, m: nat)
    requires delay > 0 && |z| == channels * delay && m * channels <= (m + 1) * channels <= |s|
    ensures AllLines(z, s, channels, delay, m) ==> Lines(z, s, channels, delay, m, 0)
    ensures Lines(z, s, channels, delay, m, channels) ==> AllLines(z, s, channels, delay, m + 1)
  {
    hide Line;
    var n := m + 1;
    if Lines(z, s, channels, delay, m, channels) {
      forall b | 0 <= b < channels ensures Line(z, s, channels, delay, b, n) {
        assert LineAt(z, s, channels, delay, m, channels, b);
      }
    }
  }

  lemma LinesExtend(z: seq<real>, s: seq<real>, more: seq<real>, channels: nat, delay: nat, upto: nat)
    requires delay > 0 && |z| == channels * delay && upto * channels <= |s| && AllLines(z, s, channels, delay, upto)
    ensures AllLines(z, s + more, channels, delay, upto)
  {
    hide Line;
    var t := s + more;
    forall b | 0 <= b < channels ensures Line(z, t, channels, delay, b, upto) {
      LineExtends(z, s, more, channels, delay, b, upto);
    }
  }

  /** Before anything is fed a silent line holds silence. */
  lemma SilentLines(z: seq<real>, channels: nat, delay: nat)
    requires delay > 0 && |z| == channels * delay && forall i :: 0 <= i < |z| ==> z[i] == 0.0
    ensures AllLines(z, [], channels, delay, 0)
  {
    forall b | 0 <= b < channels ensures Line(z, [], channels, delay, b, 0) {
      forall d | 0 < d <= delay ensures HoldsTap(z, [], channels, delay, b, 0, d) {
        Slot(b, (0 - d) % delay, channels, delay);
      }
    }
  }

  /** The `i`-th frame of a call, in the whole stream. */
  lemma FrameInStream(s: seq<real>, t: seq<real>, all: seq<real>, channels: nat, n: nat, k: nat, i: nat, m: nat)
    requires channels > 0 && |s| == n * channels && |t| == k * channels && i < k && all == s + t && m == n + i
    ensures (i + 1) * channels == i * channels + channels <= |t|
    ensures m * channels <= (m + 1) * channels <= |all|
    ensures forall c :: 0 <= c < channels ==> t[i * channels + c] == Tap(all, channels, m, c)
  {
    MulLe(i + 1, k, channels, channels);
    MulLe(n + i + 1, n + k, channels, channels);
    Distribute(channels, n, i);
    Distribute(channels, n, k);
  }

  // ---- the interpolator ------------------------------------------------

  class Interpolator {
    const channels: nat
    const delay: nat
    const filters: seq<SubFilter>
    const narrow: real -> real
    const z: array<real>
    var zi: nat
    /** Everything interpolated so far. */
    ghost var fed: seq<real>

    ghost predicate Config() {
      channels > 0 && delay > 0 && z.Length == channels * delay && forall k :: 0 <= k < |filters| ==>
        WellFormed(filters[k], delay)
    }

    /** Whole frames fed. */
    ghost function Count(): nat
      requires channels > 0
      reads this
    {
      |fed| / channels
    }

    ghost predicate Valid()
      reads this, z
    {
      && Config() && |fed| == Count() * channels && zi == Count() % delay
      && AllLines(z[..], fed, channels, delay, Count())
    }

    /** One sub-filter's output at frame `m`, whose slot is `zi`. */
    method Apply(f: SubFilter, c: nat, ghost s: seq<real>, ghost m: nat) returns (abs: real)
      requires Config() && c < channels && WellFormed(f, delay) && (m + 1) * channels <= |s|
      requires zi == m % delay && Line(z[..], s, channels, delay, c, m + 1)
      ensures abs == Output(s, channels, f, narrow, m, c)
    {
      hide Tap;
      var acc := 0.0;
      var base := c * delay;
      for t := 0 to |f.coeff|
        invariant acc == Fir(s, channels, f, m, c, t)
      {
        var i := zi - f.index[t];
        if i < 0 {
          i := i + delay;
        }
        ModBack(m, f.index[t], delay);
        Slot(c, i, channels, delay);
        assert HoldsTap(z[..], s, channels, delay, c, m + 1, f.index[t] + 1);
        acc := acc + z[base + i] * f.coeff[t];
      }
      var value := narrow(acc);
      abs := if value < 0.0 then -value else value;
    }

    /** Interpolates channel `c` of frame `m`. */
    method PushSample(c: nat, x: real, peak: real, ghost s: seq<real>, ghost m: nat) returns (peak': real)
      requires Config() && c < channels && m * channels <= (m + 1) * channels <= |s|
      requires peak >= 0.0 && zi == m % delay && x == Tap(s, channels, m, c)
      requires Line(z[..], s, channels, delay, c, m)
      modifies z
      ensures Line(z[..], s, channels, delay, c, m + 1)
      ensures c * delay + zi < z.Length && z[..] == old(z[..])[c * delay + zi := x]
      ensures peak' == Max(peak, FilterPeak(s, channels, filters, narrow, m, c, |filters|))
    {
      hide Line, Output;
      LinePush(z[..], s, channels, delay, c, m);
      var base := c * delay;
      z[base + zi] := x;
      ghost var line := z[..];
      assert line == old(z[..])[c * delay + zi := x];
      peak' := peak;
      for i := 0 to |filters|
        invariant z[..] == line
        invariant peak' == Max(peak, FilterPeak(s, channels, filters, narrow, m, c, i))
      {
        var abs := Apply(filters[i], c, s, m);
        if abs > peak' {
          peak' := abs;
        }
      }
    }

    /** Interpolates one frame and moves the write position. */
    method PushFrame(frame: seq<real>, peak: real, ghost s: seq<real>, ghost m: nat) returns (peak': real)
      requires Config() && |frame| == channels && m * channels <= (m + 1) * channels <= |s|
      requires peak >= 0.0 && zi == m % delay && forall c :: 0 <= c < channels ==> frame[c] == Tap(s, channels, m, c)
      requires Lines(z[..], s, channels, delay, m, 0)
      modifies `zi, z
      ensures Lines(z[..], s, channels, delay, m, channels) && zi == (m + 1) % delay
      ensures peak' == Max(peak, FramePeak(s, channels, filters, narrow, m, channels))
    {
      hide Line, FilterPeak, Tap;
      peak' := peak;
      for c := 0 to channels
        invariant Lines(z[..], s, channels, delay, m, c) && zi == m % delay
        invariant peak' == Max(peak, FramePeak(s, channels, filters, narrow, m, c))
      {
        LinesPush(z[..], s, channels, delay, m, c);
        peak' := PushSample(c, frame[c], peak', s, m);
      }
      ModNext(m, delay);
      zi := zi + 1;
      if zi == delay {
        zi := 0;
      }
    }

    constructor (tap: nat -> real, factor: nat, channels: nat, narrow: real -> real)
      requires factor > 0 && channels > 0
      ensures Valid() && fresh(z) && fed == []
      ensures this.channels == channels && this.filters == Phases(tap, factor, TAPS) && this.narrow == narrow
    {
      var fs := BuildFilters(tap, factor);
      PhasesFit(tap, factor);
      this.channels, this.delay, this.narrow, this.filters := channels, Delay(factor), narrow, fs;
      zi, fed := 0, [];
      z := new real[channels * Delay(factor)](_ => 0.0);
      new;
      hide Phases, Lines, Line, AllLines, WellFormed;
      SilentLines(z[..], channels, delay);
    }

    /** The largest magnitude interpolated from a call's frames; with the maximum so far it is the stream's. */
    method MaxAbs(input: seq<real>) returns (peak: real)
      requires Valid() && |input| % channels == 0
      modifies this, z
      ensures Valid() && fed == old(fed) + input
      ensures peak >= 0.0
      ensures Count() * channels <= |fed| && old(Count()) * channels <= |old(fed)|
      ensures Max(Peak(old(fed), channels, filters, narrow, old(Count())), peak) ==
        Peak(fed, channels, filters, narrow, Count())
    {
      hide Line, FramePeak, Tap, Lines, AllLines;
      peak := 0.0;
      var frames := |input| / channels;
      ghost var n, s := Count(), fed + input;
      LinesExtend(z[..], fed, input, channels, delay, n);
      PeakExtends(fed, input, channels, filters, narrow, n);
      PeakPositive(s, channels, filters, narrow, n);
      CountExtends(fed, input, channels, n, frames);
      for i := 0 to frames
        invariant fed == old(fed) && zi == (n + i) % delay && (n + i) * channels <= |s| && n * channels <= |s|
        invariant AllLines(z[..], s, channels, delay, n + i) && peak >= 0.0
        invariant Max(Peak(s, channels, filters, narrow, n), peak) == Peak(s, channels, filters, narrow, n + i)
      {
        FrameInStream(old(fed), input, s, channels, n, frames, i, n + i);
        LinesConvert(z[..], s, channels, delay, n + i);
        peak := PushFrame(input[i * channels..(i + 1) * channels], peak, s, n + i);
        LinesConvert(z[..], s, channels, delay, n + i);
      }
      fed := s;
    }
  }
}
