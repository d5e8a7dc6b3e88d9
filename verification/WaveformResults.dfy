/** What the bytes of the envelope say: the peak and the root mean square of each 100 ms of the stream. */
module WaveformResults {
  import opened Arith
  import opened Floats
  import opened Samples
  import opened Wrappers
  import opened Waveform

  // ---- a bucket of the stream ------------------------------------------

  /** Sample `i` of the interleaved stream belongs to bucket `b`: its frame's time does. */
  predicate InBucket(i: nat, b: nat, channels: nat, rate: nat)
    requires channels > 0 && rate > 0
  {
    var frame := i / channels;
    if rate >= 10 then 10 * frame / rate == b else frame == b
  }

  ghost function Bucket(b: nat, channels: nat, rate: nat): nat -> bool
    requires channels > 0 && rate > 0
  {
    (i: nat) => InBucket(i, b, channels, rate)
  }

  /** How many of the first `n` indices are chosen. */
  ghost function Count(n: nat, chosen: nat -> bool): nat {
    if n == 0 then 0 else Count(n - 1, chosen) + if chosen(n - 1) then 1 else 0
  }

  /** The sum of squares of the chosen samples among the first `n`. */
  ghost function Squares(s: seq<F64>, n: nat, chosen: nat -> bool): real
    requires n <= |s|
  {
    if n == 0 then 0.0
    else Squares(s, n - 1, chosen) + if chosen(n - 1) then Sanitize(s[n - 1]) * Sanitize(s[n - 1]) else 0.0
  }

  /** The largest magnitude of the chosen samples. */
  ghost predicate IsPeak(peak: real, s: seq<F64>, chosen: nat -> bool) {
    && (forall i: nat :: i < |s| && chosen(i) ==> Abs(Sanitize(s[i])) <= peak)
    && (exists i: nat :: i < |s| && chosen(i) && Abs(Sanitize(s[i])) == peak)
  }

  /** Two bytes say the peak and the root mean square of the chosen samples; silence is zero. */
  ghost predicate Says(p: seq<u8>, k: Kernel, s: seq<F64>, chosen: nat -> bool) {
    exists peak: real :: IsPeak(peak, s, chosen) && p == Bytes(peak, s, chosen, k)
  }

  ghost function Bytes(peak: real, s: seq<F64>, chosen: nat -> bool, k: Kernel): seq<u8> {
    var n := Count(|s|, chosen);
    if peak == 0.0 || n == 0 then [0, 0]
    else [k.quantize(peak), k.quantize(k.sqrt(Squares(s, |s|, chosen) / n as real))]
  }

  // ---- ranges ----------------------------------------------------------

  /** Chosen are the indices `from..to`. */
  ghost predicate IsRange(len: nat, chosen: nat -> bool, from: nat, to: nat) {
    from < to <= len && forall i: nat :: i < len ==> (chosen(i) <==> from <= i < to)
  }

  lemma {:induction false} RangeCounts(s: seq<F64>, chosen: nat -> bool, from: nat, to: nat, n: nat)
    requires IsRange(|s|, chosen, from, to) && n <= |s|
    ensures Count(n, chosen) == if n <= from then 0 else Min(n, to) - from
    ensures Squares(s, n, chosen) == if n <= from then 0.0 else SumSquares(s[from..Min(n, to)])
  {
    hide Sanitize, SumSquares;
    if n > 0 {
      RangeCounts(s, chosen, from, to, n - 1);
      if from < n <= to { OneMoreSample(s, from, n); }
    }
  }

  lemma OneMoreSample(s: seq<F64>, from: nat, n: nat)
    requires from < n <= |s|
    ensures SumSquares(s[from..n]) ==
      (if n - 1 <= from then 0.0 else SumSquares(s[from..n - 1])) + Sanitize(s[n - 1]) * Sanitize(s[n - 1])
  {
    var r := s[from..n];
    assert r[..|r| - 1] == s[from..n - 1];
    if n - 1 == from { assert r[..|r| - 1] == []; }
  }

  lemma {:induction false} SquaresPositive(s: seq<F64>)
    ensures MaxAbs(s) == 0.0 ==> SumSquares(s) == 0.0
    ensures MaxAbs(s) != 0.0 ==> MaxAbs(s) > 0.0 && SumSquares(s) > 0.0
  {
    if s != [] {
      SquaresPositive(s[..|s| - 1]);
      var x := Sanitize(s[|s| - 1]);
      var square := SquareSign(x);
      OneMoreSquare(MaxAbs(s[..|s| - 1]), SumSquares(s[..|s| - 1]), x, square);
    }
  }

  lemma OneMoreSquare(peak: real, sum: real, x: real, square: real)
    requires (peak == 0.0 && sum == 0.0) || (peak > 0.0 && sum > 0.0)
    requires (x == 0.0 && square == 0.0) || (x != 0.0 && square > 0.0)
    ensures var p := if Abs(x) > peak then Abs(x) else peak;
      (p == 0.0 && sum + square == 0.0) || (p > 0.0 && sum + square > 0.0)
  {}

  ghost function Product(a: real, b: real): real {
    a * b
  }

  lemma SquareSign(x: real) returns (y: real)
    ensures y == x * x
    ensures x == 0.0 ==> y == 0.0
    ensures x != 0.0 ==> y > 0.0
  {
    y := Product(x, x);
    assert y == x * x;
    hide Product;
    if x > 0.0 { PositiveProduct(x, x); } else if x < 0.0 { NegativeProduct(x, x); } else { ZeroProduct(x, x); }
  }

  lemma PositiveProduct(a: real, b: real)
    requires a > 0.0 && b > 0.0
    ensures Product(a, b) > 0.0
  {
    RealMulLt(a, 0.0, b);
  }

  lemma NegativeProduct(a: real, b: real)
    requires a < 0.0 && b < 0.0
    ensures Product(a, b) > 0.0
  {
    PositiveProduct(-a, -b);
    assert Product(-a, -b) == Product(a, b);
  }

  lemma ZeroProduct(a: real, b: real)
    requires a == 0.0
    ensures Product(a, b) == 0.0
  {}

  lemma RangeSays(s: seq<F64>, chosen: nat -> bool, from: nat, to: nat, k: Kernel)
    requires IsRange(|s|, chosen, from, to)
    ensures Says(PointOf(s[from..to], k), k, s, chosen)
  {
    hide SumSquares, MaxAbs, Squares, Count;
    var r := s[from..to];
    MaxAbsIsMax(r);
    SquaresPositive(r);
    RangeCounts(s, chosen, from, to, |s|);
    RangePeak(s, chosen, from, to);
    MeanPositive(SumSquares(r), |r|);
    assert PointOf(r, k) == Bytes(MaxAbs(r), s, chosen, k);
  }

  lemma RangePeak(s: seq<F64>, chosen: nat -> bool, from: nat, to: nat)
    requires IsRange(|s|, chosen, from, to)
    ensures IsPeak(MaxAbs(s[from..to]), s, chosen)
  {
    hide MaxAbs, Abs, Sanitize;
    var r := s[from..to];
    MaxAbsIsMax(r);
    var j :| 0 <= j < |r| && Abs(Sanitize(r[j])) == MaxAbs(r);
    assert s[from + j] == r[j] && chosen(from + j);
    assert forall i :: from <= i < to ==> s[i] == r[i - from];
  }

  lemma MeanPositive(sum: real, n: nat)
    requires n > 0
    ensures sum > 0.0 ==> sum / n as real > 0.0
  {}

  // ---- the envelope ----------------------------------------------------

  lemma BucketRange(i: nat, b: nat, channels: nat, rate: nat)
    requires channels > 0 && rate > 0
    ensures InBucket(i, b, channels, rate) <==> Start(b, rate) * channels <= i < Start(b + 1, rate) * channels
  {
    hide Start;
    var m := i / channels;
    FrameInBucket(m, b, rate);
    FloorDiv(Start(b, rate), channels, i);
    FloorDiv(Start(b + 1, rate), channels, i);
  }

  lemma SliceSays(s: seq<F64>, channels: nat, rate: nat, k: Kernel, b: nat, to: nat)
    requires channels > 0 && rate > 0 && Aligned(s, channels) && Start(b, rate) < to <= Frames(s, channels)
    requires to == Start(b + 1, rate) || (to == Frames(s, channels) < Start(b + 1, rate))
    ensures |Slice(s, channels, Start(b, rate), to)| > 0
    ensures Says(PointOf(Slice(s, channels, Start(b, rate), to), k), k, s, Bucket(b, channels, rate))
  {
    hide Start, PointOf, Says, InBucket;
    var from := Start(b, rate);
    FrameBounds(|s|, channels, from, to);
    SliceNonempty(to - from, channels);
    forall i: nat | i < |s| ensures Bucket(b, channels, rate)(i) <==> from * channels <= i < to * channels {
      BucketRange(i, b, channels, rate);
      if to < Start(b + 1, rate) { MulLe(to, Start(b + 1, rate), channels, channels); }
    }
    RangeSays(s, Bucket(b, channels, rate), from * channels, to * channels, k);
  }

  /** Point `b` of the payload says the peak and the root mean square of the samples in bucket `b`. */
  lemma EnvelopeSays(s: seq<F64>, channels: nat, rate: nat, k: Kernel, b: nat)
    requires channels > 0 && rate > 0 && Aligned(s, channels)
    requires 2 * b + 2 <= |Envelope(s, channels, rate, k)|
    ensures Says(Envelope(s, channels, rate, k)[2 * b..2 * b + 2], k, s, Bucket(b, channels, rate))
  {
    hide Start, PointOf, Says, Complete, Points, Slice;
    var n := Frames(s, channels);
    var c := Min(Complete(n, rate), MAX_POINTS);
    var points := Points(s, channels, rate, k, c);
    if b < c {
      PointsAt(s, channels, rate, k, c, b);
      SliceSays(s, channels, rate, k, b, Start(b + 1, rate));
      assert Envelope(s, channels, rate, k)[2 * b..2 * b + 2] == points[2 * b..2 * b + 2];
    } else {
      StartIff(c + 1, n, rate);
      SliceSays(s, channels, rate, k, c, n);
      var last := PointOf(Slice(s, channels, Start(c, rate), n), k);
      assert Envelope(s, channels, rate, k) == points + last;
      assert (points + last)[2 * c..2 * c + 2] == last;
    }
  }
}
