/**
 The streaming waveform envelope: buckets of 100 ms on a cumulative sample clock, each with a peak
 and an RMS byte, the same however the input is split into calls.
 */
module Waveform {
  import opened Arith
  import opened Floats
  import opened Samples
  import opened Wrappers

  // Samples are exact reals once sanitized; the logarithmic quantizer and the square root are
  // parameters.

  const MAX_POINTS: nat := 864_000

  type u8 = x: int | 0 <= x < 256

  datatype Kernel = Kernel(quantize: real -> u8, sqrt: real -> real)

  // ---- reference definition --------------------------------------------

  function SumSquares(s: seq<F64>): real {
    if s == [] then 0.0 else
      SumSquares(s[..|s| - 1]) + Sanitize(s[|s| - 1]) * Sanitize(s[|s| - 1])
  }

  /** One bucket's peak and RMS bytes; silence bypasses the quantizer. */
  function Point(peak: real, sumSq: real, count: nat, k: Kernel): (p: seq<u8>)
    requires count > 0
    ensures |p| == 2
  {
    if sumSq == 0.0 && peak == 0.0 then [0, 0] else
      var mean := sumSq / count as real;
      [k.quantize(peak), k.quantize(if mean > 0.0 then k.sqrt(mean) else 0.0)]
  }

  function PointOf(s: seq<F64>, k: Kernel): (p: seq<u8>)
    requires s != []
    ensures |p| == 2
  {
    Point(MaxAbs(s), SumSquares(s), |s|, k)
  }

  /** The first frame of bucket `b`. */
  function Start(b: nat, rate: nat): nat {
    MaxInt(b, (b * rate + 9) / 10)
  }

  /** How many buckets are complete after `n` frames; below 10 Hz every frame completes one. */
  function Complete(n: nat, rate: nat): nat
    requires rate > 0
  {
    Min(n, 10 * n / rate)
  }

  /** The samples of frames `from..to`. */
  function Slice(s: seq<F64>, channels: nat, from: nat, to: nat): (r: seq<F64>)
    requires channels > 0 && from <= to <= Frames(s, channels)
    ensures |r| == (to - from) * channels
  {
    FrameBounds(|s|, channels, from, to);
    s[from * channels..to * channels]
  }

  /** The first `c` buckets. */
  function Points(s: seq<F64>, channels: nat, rate: nat, k: Kernel, c: nat): (p: seq<u8>)
    requires channels > 0 && rate > 0 && c <= Complete(Frames(s, channels), rate)
    ensures |p| == 2 * c
  {
    if c == 0 then [] else
      BucketNonempty(c - 1, rate);
      StartIff(c, Frames(s, channels), rate);
      SliceNonempty(Start(c, rate) - Start(c - 1, rate), channels);
      Points(s, channels, rate, k, c - 1) + PointOf(Slice(s, channels, Start(c - 1, rate), Start(c, rate)), k)
  }

  /** The payload of a whole stream: complete buckets up to the limit, then a partial one. */
  function Envelope(s: seq<F64>, channels: nat, rate: nat, k: Kernel): seq<u8>
    requires channels > 0 && rate > 0 && Aligned(s, channels)
  {
    var n := Frames(s, channels);
    var c := Min(Complete(n, rate), MAX_POINTS);
    StartIff(c, n, rate);
    Points(s, channels, rate, k, c) +
    if c < MAX_POINTS && Start(c, rate) < n then
      SliceNonempty(n - Start(c, rate), channels);
      PointOf(Slice(s, channels, Start(c, rate), n), k)
    else []
  }

  // ---- the sample clock ------------------------------------------------

  lemma EmptySlice(s: seq<F64>, channels: nat, at: nat)
    requires channels > 0 && Aligned(s, channels) && Frames(s, channels) == at
    ensures Slice(s, channels, at, at) == []
  {}

  lemma SliceNonempty(n: nat, channels: nat)
    requires n > 0 && channels > 0
    ensures n * channels > 0
  {}

  /** Bucket `b` has started after `n` frames exactly when `b` buckets are complete. */
  lemma StartIff(b: nat, n: nat, rate: nat)
    requires rate > 0
    ensures Start(b, rate) <= n <==> b <= Complete(n, rate)
  {
    FloorDiv(b, rate, 10 * n);
  }

  lemma BucketNonempty(b: nat, rate: nat)
    requires rate > 0
    ensures Start(b, rate) < Start(b + 1, rate)
  {
    assert (b + 1) * rate == b * rate + rate;
  }

  lemma {:induction false} StartGrows(a: nat, b: nat, rate: nat)
    requires rate > 0 && a <= b
    ensures Start(a, rate) <= Start(b, rate)
    decreases b
  {
    if a < b {
      StartGrows(a, b - 1, rate);
      BucketNonempty(b - 1, rate);
    }
  }

  lemma AddDiv(x: nat, a: nat, d: nat)
    requires d > 0
    ensures a <= d ==> x / d <= (x + a) / d <= x / d + 1
    ensures a >= d ==> (x + a) / d >= x / d + 1
  {
    var q := x / d;
    FloorDiv(q, d, x);
    FloorDiv(q, d, x + a);
    FloorDiv(q + 1, d, x);
    FloorDiv(q + 1, d, x + a);
    FloorDiv(q + 2, d, x + a);
    assert (q + 1) * d == q * d + d && (q + 2) * d == q * d + 2 * d;
  }

  lemma TenfoldDiv(n: nat, d: nat)
    requires d > 0
    ensures d >= 10 ==> 10 * n / d <= n
    ensures d <= 10 ==> 10 * n / d >= n
  {
    FloorDiv(n, d, 10 * n);
    FloorDiv(n + 1, d, 10 * n);
    if d >= 10 { MulLe(n + 1, n + 1, 10, d); } else { MulLe(n, n, d, 10); }
  }

  /** A frame completes one bucket exactly when the clock's index moves, and none otherwise. */
  lemma CompleteStep(n: nat, rate: nat)
    requires rate > 0
    ensures Complete(n + 1, rate) == if 10 * (n + 1) / rate > 10 * n / rate then Complete(n, rate) + 1
      else Complete(n, rate)
  {
    AddDiv(10 * n, 10, rate);
    TenfoldDiv(n, rate);
    TenfoldDiv(n + 1, rate);
  }

  /** The clock counts milliseconds over a bucket's hundred. */
  lemma ClockReduces(n: nat, rate: nat)
    requires rate > 0
    ensures n * 1000 / (rate * 100) == 10 * n / rate
  {
    var q := 10 * n / rate;
    FloorDiv(q, rate, 10 * n);
    FloorDiv(q + 1, rate, 10 * n);
    FloorDiv(q, rate * 100, n * 1000);
    FloorDiv(q + 1, rate * 100, n * 1000);
    assert q * (rate * 100) == q * rate * 100;
    assert (q + 1) * (rate * 100) == (q + 1) * rate * 100;
  }

  // ---- the envelope of a growing stream --------------------------------

  lemma SliceExtends(s: seq<F64>, t: seq<F64>, channels: nat, from: nat, to: nat)
    requires channels > 0 && from <= to <= Frames(s, channels)
    ensures to <= Frames(s + t, channels) && Slice(s + t, channels, from, to) == Slice(s, channels, from, to)
  {
    FrameBounds(|s|, channels, from, to);
    FloorDiv(to, channels, |s| + |t|);
  }

  lemma CompleteGrows(n: nat, m: nat, rate: nat)
    requires rate > 0 && n <= m
    ensures Complete(n, rate) <= Complete(m, rate)
  {
    StartIff(Complete(n, rate), n, rate);
    StartIff(Complete(n, rate), m, rate);
  }

  /** Complete buckets do not change when more is fed. */
  lemma {:induction false} PointsExtend(s: seq<F64>, t: seq<F64>, channels: nat, rate: nat, k: Kernel, c: nat)
    requires channels > 0 && rate > 0 && Aligned(s, channels) && Aligned(t, channels)
    requires c <= Complete(Frames(s, channels), rate)
    ensures c <= Complete(Frames(s + t, channels), rate)
    ensures Points(s + t, channels, rate, k, c) == Points(s, channels, rate, k, c)
    decreases c
  {
    hide PointOf, Slice, Start, Complete;
    FramesExtend(s, t, channels);
    CompleteGrows(Frames(s, channels), Frames(s + t, channels), rate);
    if c > 0 {
      PointsExtend(s, t, channels, rate, k, c - 1);
      StartIff(c, Frames(s, channels), rate);
      BucketNonempty(c - 1, rate);
      SliceExtends(s, t, channels, Start(c - 1, rate), Start(c, rate));
    }
  }

  /** A slice up to the last whole frame is everything from its first sample. */
  lemma SliceToEnd(s: seq<F64>, channels: nat, from: nat)
    requires channels > 0 && Aligned(s, channels) && from <= Frames(s, channels)
    ensures from * channels <= |s| && Slice(s, channels, from, Frames(s, channels)) == s[from * channels..]
  {
    FrameBounds(|s|, channels, from, Frames(s, channels));
  }

  lemma SliceGrows(s: seq<F64>, frame: seq<F64>, channels: nat, from: nat)
    requires channels > 0 && Aligned(s, channels) && |frame| == channels && from <= Frames(s, channels)
    ensures Aligned(s + frame, channels) && Frames(s + frame, channels) == Frames(s, channels) + 1
    ensures Slice(s + frame, channels, from, Frames(s, channels) + 1) ==
      Slice(s, channels, from, Frames(s, channels)) + frame
  {
    hide Slice;
    OneFrame(channels);
    FramesExtend(s, frame, channels);
    SliceToEnd(s, channels, from);
    SliceToEnd(s + frame, channels, from);
    assert (s + frame)[from * channels..] == s[from * channels..] + frame;
  }

  lemma OneFrame(channels: nat)
    requires channels > 0
    ensures channels % channels == 0 && channels / channels == 1
  {
    DivModUnique(channels, channels, 1, 0);
  }

  /** The effect of one more frame on the open bucket and the complete ones. */
  lemma FrameAppended(s: seq<F64>, frame: seq<F64>, channels: nat, rate: nat, k: Kernel)
    requires channels > 0 && rate > 0 && Aligned(s, channels) && |frame| == channels
    ensures var n, t := Frames(s, channels), s + frame; var c := Complete(n, rate);
      && Aligned(t, channels) && Frames(t, channels) == n + 1
      && Start(c, rate) <= n && c <= Complete(n + 1, rate)
      && Slice(t, channels, Start(c, rate), n + 1) == Slice(s, channels, Start(c, rate), n) + frame
      && Points(t, channels, rate, k, c) == Points(s, channels, rate, k, c)
    ensures var n, t := Frames(s, channels), s + frame; var c := Complete(n, rate);
      Complete(n + 1, rate) == c + 1 ==>
        Start(c + 1, rate) == n + 1 && Points(t, channels, rate, k, c + 1) == Points(s, channels, rate, k, c) +
          PointOf(Slice(s, channels, Start(c, rate), n) + frame, k)
  {
    hide PointOf, Slice, Start, Complete;
    var n := Frames(s, channels);
    var c := Complete(n, rate);
    StartIff(c, n, rate);
    SliceGrows(s, frame, channels, Start(c, rate));
    DivModUnique(channels, channels, 1, 0);
    PointsExtend(s, frame, channels, rate, k, c);
    StartIff(c + 1, n, rate);
    StartIff(c + 1, n + 1, rate);
  }

  lemma OneMore(s: seq<F64>, x: F64)
    ensures SumSquares(s + [x]) == SumSquares(s) + Sanitize(x) * Sanitize(x)
    ensures MaxAbs(s + [x]) == if Abs(Sanitize(x)) > MaxAbs(s) then Abs(Sanitize(x)) else MaxAbs(s)
  {
    MaxAbsSnoc(s, x);
    assert (s + [x])[..|s|] == s;
  }

  // ---- what the accumulator's fields mean ------------------------------

  datatype Tally = Tally(peakAbs: real, sumSq: real, bucketSamples: nat)

  function TallyOf(s: seq<F64>): Tally {
    Tally(MaxAbs(s), SumSquares(s), |s|)
  }

  datatype Clock = Clock(totalFrames: nat, bucketIndex: nat)

  /** The samples after the last complete bucket. */
  function OpenSamples(s: seq<F64>, channels: nat, rate: nat): seq<F64>
    requires channels > 0 && rate > 0 && Aligned(s, channels)
  {
    var n := Frames(s, channels);
    StartIff(Complete(n, rate), n, rate);
    Slice(s, channels, Start(Complete(n, rate), rate), n)
  }

  /** Clock, open bucket and payload follow from what was fed, and nothing had to be refused. */
  ghost predicate Follows(clock: Clock, tally: Tally, buckets: seq<u8>, s: seq<F64>, channels: nat, rate: nat,
      k: Kernel)
    requires channels > 0 && rate > 0 && Aligned(s, channels)
  {
    var n := Frames(s, channels);
    var c := Complete(n, rate);
    && c <= MAX_POINTS
    && clock == Clock(n, 10 * n / rate)
    && tally == TallyOf(OpenSamples(s, channels, rate))
    && buckets == Points(s, channels, rate, k, c)
  }

  /** The payload is the complete points and, below the cap, the open bucket's. */
  lemma EnvelopeIs(s: seq<F64>, channels: nat, rate: nat, k: Kernel)
    requires channels > 0 && rate > 0 && Aligned(s, channels)
    ensures var c := Min(Complete(Frames(s, channels), rate), MAX_POINTS);
      Envelope(s, channels, rate, k) == Points(s, channels, rate, k, c) +
        if c < MAX_POINTS && OpenSamples(s, channels, rate) != [] then PointOf(OpenSamples(s, channels, rate), k)
          else []
  {
    hide PointOf, Points, Complete, Start;
    var n := Frames(s, channels);
    var c := Min(Complete(n, rate), MAX_POINTS);
    StartIff(c, n, rate);
    if Start(c, rate) < n { SliceNonempty(n - Start(c, rate), channels); }
  }

  /** A frame inside the open bucket. */
  lemma FollowsWithin(clock: Clock, tally: Tally, buckets: seq<u8>, s: seq<F64>, frame: seq<F64>, channels: nat,
      rate: nat, k: Kernel)
    requires channels > 0 && rate > 0 && Aligned(s, channels) && |frame| == channels
    requires Follows(clock, tally, buckets, s, channels, rate, k)
    requires (clock.totalFrames + 1) * 1000 / (rate * 100) <= clock.bucketIndex
    ensures Aligned(s + frame, channels) && Frames(s + frame, channels) == Frames(s, channels) + 1
    ensures Complete(Frames(s, channels) + 1, rate) == Complete(Frames(s, channels), rate)
    ensures Follows(Clock(clock.totalFrames + 1, clock.bucketIndex), TallyOf(OpenSamples(s, channels, rate) + frame),
      buckets,
      s + frame, channels, rate, k)
  {
    hide PointOf, Slice, Start, Complete, Points, TallyOf;
    var n := Frames(s, channels);
    FrameAppended(s, frame, channels, rate, k);
    CompleteStep(n, rate);
    ClockReduces(n + 1, rate);
    AddDiv(10 * n, 10, rate);
    ClockNotBack(n, rate);
  }

  lemma ClockNotBack(n: nat, rate: nat)
    requires rate > 0
    ensures 10 * n / rate <= 10 * (n + 1) / rate
  {
    var q := 10 * n / rate;
    FloorDiv(q, rate, 10 * n);
    FloorDiv(q, rate, 10 * (n + 1));
  }

  /** A frame that completes the open bucket. */
  lemma FollowsFlush(clock: Clock, tally: Tally, buckets: seq<u8>, s: seq<F64>, frame: seq<F64>, channels: nat,
      rate: nat, k: Kernel)
    requires channels > 0 && rate > 0 && Aligned(s, channels) && |frame| == channels
    requires Follows(clock, tally, buckets, s, channels, rate, k)
    requires (clock.totalFrames + 1) * 1000 / (rate * 100) > clock.bucketIndex
    ensures Aligned(s + frame, channels) && Frames(s + frame, channels) == Frames(s, channels) + 1
    ensures Complete(Frames(s, channels) + 1, rate) == Complete(Frames(s, channels), rate) + 1
    ensures Complete(Frames(s, channels), rate) < MAX_POINTS ==>
      Follows(Clock(clock.totalFrames + 1, (clock.totalFrames + 1) * 1000 / (rate * 100)), TallyOf([]),
        buckets + PointOf(OpenSamples(s, channels, rate) + frame, k), s + frame, channels, rate, k)
  {
    hide PointOf, Slice, Start, Complete, Points, TallyOf;
    var n := Frames(s, channels);
    FrameAppended(s, frame, channels, rate, k);
    CompleteStep(n, rate);
    ClockReduces(n + 1, rate);
    EmptySlice(s + frame, channels, n + 1);
  }

  /** The `frame`-th frame of a call, and what is left after it. */
  lemma NextFrame(s: seq<F64>, t: seq<F64>, channels: nat, frame: nat)
    requires channels > 0 && Aligned(t, channels) && frame < Frames(t, channels)
    ensures (frame + 1) * channels == frame * channels + channels <= |t|
    ensures var base := frame * channels;
      && s + t[..base] + t[base..base + channels] == s + t[..(frame + 1) * channels]
      && s + t == s + t[..base] + (t[base..base + channels] + t[base + channels..])
  {
    FrameBounds(|t|, channels, frame, frame + 1);
  }

  /** A refusal fixes the payload for good. */
  lemma Refused(s: seq<F64>, frame: seq<F64>, rest: seq<F64>, channels: nat, rate: nat, k: Kernel)
    requires channels > 0 && rate > 0 && Aligned(s, channels) && |frame| == channels
    requires Complete(Frames(s, channels), rate) <= MAX_POINTS < Complete(Frames(s, channels) + 1, rate)
    requires Aligned(s + (frame + rest), channels)
    ensures Complete(Frames(s, channels), rate) == MAX_POINTS
    ensures Complete(Frames(s + (frame + rest), channels), rate) > MAX_POINTS
    ensures Points(s + (frame + rest), channels, rate, k, MAX_POINTS) == Points(s, channels, rate, k, MAX_POINTS)
  {
    hide Complete, Points;
    var n := Frames(s, channels);
    CompleteStep(n, rate);
    DivModUnique(channels, channels, 1, 0);
    AlignedRest(|s|, |frame + rest|, channels);
    FramesExtend(s, frame + rest, channels);
    AtLeastOne(|frame + rest|, channels);
    CompleteGrows(n + 1, Frames(s + (frame + rest), channels), rate);
    PointsExtend(s, frame + rest, channels, rate, k, MAX_POINTS);
  }

  lemma AlignedRest(x: nat, y: nat, d: nat)
    requires d > 0 && x % d == 0 && (x + y) % d == 0
    ensures y % d == 0
  {
    var a, b := x / d, (x + y) / d;
    assert x == a * d && x + y == b * d;
    Distribute(d, b, -a);
    DivModUnique(y, d, b - a, 0);
  }

  lemma AtLeastOne(x: nat, d: nat)
    requires x >= d > 0
    ensures x / d >= 1
  {}

  // ---- the accumulator -------------------------------------------------

  datatype Outcome = Accepted | Misaligned | Full

  class WaveformAccumulator {
    const sampleRate: nat
    const channels: nat
    const kernel: Kernel
    var totalFrames: nat
    var bucketIndex: nat
    var peakAbs: real
    var sumSq: real
    var bucketSamples: nat
    var buckets: seq<u8>
    /** Every sample offered in whole frames, refused or not. */
    ghost var fed: seq<F64>

    ghost predicate Config() {
      sampleRate > 0 && 1 <= channels <= 8
    }

    /** Whole frames offered. */
    ghost function Offered(): nat
      requires Config()
      reads this
    {
      Frames(fed, channels)
    }

    /** The open bucket holds exactly these samples. */
    ghost predicate Open(cur: seq<F64>)
      reads this
    {
      Tally(peakAbs, sumSq, bucketSamples) == TallyOf(cur)
    }

    /** Nothing has been refused. */
    ghost predicate Tracks()
      reads this
    {
      Config() && Aligned(fed, channels)
        && Follows(Clock(totalFrames, bucketIndex), Tally(peakAbs, sumSq, bucketSamples), buckets, fed, channels,
        sampleRate, kernel)
    }

    ghost predicate Valid()
      reads this
    {
      && Config() && Aligned(fed, channels)
      && var c := Min(Complete(Offered(), sampleRate), MAX_POINTS);
      && buckets == Points(fed, channels, sampleRate, kernel, c)
      && (c < MAX_POINTS ==> Tracks())
    }

    constructor (sampleRate: nat, channels: nat, kernel: Kernel)
      requires sampleRate > 0 && 1 <= channels <= 8
      ensures Valid() && fed == []
      ensures this.sampleRate == sampleRate && this.channels == channels && this.kernel == kernel
    {
      this.sampleRate, this.channels, this.kernel := sampleRate, channels, kernel;
      totalFrames, bucketIndex, peakAbs, sumSq, bucketSamples, buckets := 0, 0, 0.0, 0.0, 0, [];
      fed := [];
    }

    /** Emits the open bucket, which holds `cur`, and opens the next. */
    method FlushBucket(ghost cur: seq<F64>) returns (ok: bool)
      requires Open(cur)
      modifies `buckets, `peakAbs, `sumSq, `bucketSamples
      ensures ok <==> cur == [] || old(|buckets|) / 2 < MAX_POINTS
      ensures ok ==> Open([])
      ensures buckets == if ok && cur != [] then old(buckets) + PointOf(cur, kernel) else old(buckets)
    {
      if bucketSamples == 0 {
        return true;
      }
      if |buckets| / 2 >= MAX_POINTS {
        return false;
      }
      buckets := buckets + Point(peakAbs, sumSq, bucketSamples, kernel);
      sumSq := 0.0;
      peakAbs := 0.0;
      bucketSamples := 0;
      return true;
    }

    method AddSample(x: F64, ghost cur: seq<F64>)
      requires Open(cur)
      modifies `peakAbs, `sumSq, `bucketSamples
      ensures Open(cur + [x])
    {
      OneMore(cur, x);
      hide MaxAbs, SumSquares;
      var sample := Sanitize(x);
      var abs := Abs(sample);
      if abs > peakAbs {
        peakAbs := abs;
      }
      sumSq := sumSq + sample * sample;
      bucketSamples := bucketSamples + 1;
    }

    /** Accumulates the samples of one frame. */
    method AddSamples(frame: seq<F64>, ghost cur: seq<F64>)
      requires Open(cur)
      modifies `peakAbs, `sumSq, `bucketSamples
      ensures Open(cur + frame)
    {
      assert cur + frame[..0] == cur;
      for channel := 0 to |frame|
        invariant Open(cur + frame[..channel])
      {
        AddSample(frame[channel], cur + frame[..channel]);
        assert cur + frame[..channel] + [frame[channel]] == cur + frame[..channel + 1];
      }
      assert frame[..|frame|] == frame;
    }

    /** Accumulates one frame and moves the clock. */
    method FeedFrame(frame: seq<F64>) returns (ok: bool)
      requires Tracks() && |frame| == channels
      modifies this
      ensures fed == old(fed) + frame
      ensures ok <==> Complete(old(Offered()) + 1, sampleRate) <= MAX_POINTS
      ensures ok ==> Tracks()
      ensures !ok ==> buckets == old(buckets)
    {
      hide PointOf, OpenSamples, Complete, Points, TallyOf;
      ghost var cur := OpenSamples(fed, channels, sampleRate);
      ghost var clock, tally := Clock(totalFrames, bucketIndex), Tally(peakAbs, sumSq, bucketSamples);
      AddSamples(frame, cur);
      totalFrames := totalFrames + 1;
      var index := totalFrames * 1000 / (sampleRate * 100);
      if index > bucketIndex {
        FollowsFlush(clock, tally, buckets, fed, frame, channels, sampleRate, kernel);
        fed := fed + frame;
        ok := FlushBucket(cur + frame);
        if !ok {
          return;
        }
        bucketIndex := index;
      } else {
        FollowsWithin(clock, tally, buckets, fed, frame, channels, sampleRate, kernel);
        fed := fed + frame;
      }
      assert Tracks();
      return true;
    }

    /** Feeds the `frame`-th frame of a call; when it is refused the rest of the call goes with it. */
    method FeedNext(interleaved: seq<F64>, frame: nat, ghost start: seq<F64>) returns (ok: bool)
      requires Tracks() && Aligned(interleaved, channels) && frame < Frames(interleaved, channels)
      requires frame * channels <= |interleaved| && fed == start + interleaved[..frame * channels]
      requires Aligned(start + interleaved, channels)
      modifies this
      ensures ok ==>
        Tracks() && (frame + 1) * channels <= |interleaved| && fed == start + interleaved[..(frame + 1) * channels]
      ensures !ok ==> fed == start + interleaved && Complete(Offered(), sampleRate) > MAX_POINTS
      ensures !ok ==> buckets == Points(fed, channels, sampleRate, kernel, MAX_POINTS)
    {
      hide PointOf, Complete, Points, TallyOf, Follows;
      var base := frame * channels;
      NextFrame(start, interleaved, channels, frame);
      ghost var before, chunk, rest := fed, interleaved[base..base + channels], interleaved[base + channels..];
      assert before + (chunk + rest) == start + interleaved;
      TracksBound();
      ok := FeedFrame(interleaved[base..base + channels]);
      if !ok {
        Refused(before, chunk, rest, channels, sampleRate, kernel);
        fed := before + (chunk + rest);
      }
    }

    /** Feeds whole frames until one is refused. */
    method FeedFrames(interleaved: seq<F64>) returns (ok: bool)
      requires Tracks() && Aligned(interleaved, channels)
      modifies this
      ensures fed == old(fed) + interleaved && Aligned(fed, channels)
      ensures ok <==> Complete(Offered(), sampleRate) <= MAX_POINTS
      ensures ok ==> Tracks()
      ensures !ok ==> buckets == Points(fed, channels, sampleRate, kernel, MAX_POINTS)
    {
      hide PointOf, Complete, Points, TallyOf, Follows;
      FramesExtend(fed, interleaved, channels);
      var frames := |interleaved| / channels;
      for frame := 0 to frames
        invariant Tracks() && frame * channels <= |interleaved|
        invariant fed == old(fed) + interleaved[..frame * channels]
      {
        ok := FeedNext(interleaved, frame, old(fed));
        if !ok {
          return;
        }
      }
      assert fed == old(fed) + interleaved;
      TracksBound();
      return true;
    }

    lemma TracksBound()
      requires Tracks()
      ensures Complete(Offered(), sampleRate) <= MAX_POINTS
      ensures buckets == Points(fed, channels, sampleRate, kernel, Complete(Offered(), sampleRate)) && Valid()
    {}

    /**
     Feeds interleaved samples; a refusal for fullness still leaves the payload determined by all
     that was offered.
     */
    method Feed(interleaved: seq<F64>) returns (r: Outcome)
      requires Valid()
      modifies this
      ensures Valid()
      ensures r.Misaligned? <==> !Aligned(interleaved, channels)
      ensures r.Misaligned? ==> fed == old(fed) && buckets == old(buckets)
      ensures !r.Misaligned? ==> fed == old(fed) + interleaved
      ensures !r.Misaligned? ==>
        (r.Full? <==>
          Complete(old(Offered()), sampleRate) >= MAX_POINTS || Complete(Offered(), sampleRate) > MAX_POINTS)
    {
      hide PointOf, Complete, Points, TallyOf, Follows;
      if |interleaved| % channels != 0 {
        return Misaligned;
      }
      FramesExtend(fed, interleaved, channels);
      CompleteGrows(Offered(), Frames(fed + interleaved, channels), sampleRate);
      if |buckets| / 2 >= MAX_POINTS {
        PointsExtend(fed, interleaved, channels, sampleRate, kernel, MAX_POINTS);
        fed := fed + interleaved;
        return Full;
      }
      var ok := FeedFrames(interleaved);
      if ok {
        TracksBound();
        return Accepted;
      }
      return Full;
    }

    /** The payload, whatever the calls that fed it. */
    method Finish() returns (payload: seq<u8>)
      requires Valid()
      modifies this
      ensures payload == Envelope(old(fed), channels, sampleRate, kernel)
    {
      hide Complete, Points, MaxAbs, SumSquares, OpenSamples, Envelope, PointOf;
      EnvelopeIs(fed, channels, sampleRate, kernel);
      if bucketSamples > 0 && |buckets| / 2 < MAX_POINTS {
        var ok := FlushBucket(OpenSamples(fed, channels, sampleRate));
      }
      payload := buckets;
      assert old(buckets) + [] == old(buckets);
    }
  }

  /** A new accumulator, unless the stream's parameters are refused. */
  method NewAccumulator(sampleRate: nat, channels: nat, kernel: Kernel) returns (r: Option<WaveformAccumulator>)
    ensures r.Some? <==> sampleRate > 0 && 1 <= channels <= 8
    ensures r.Some? ==> fresh(r.value) && r.value.Valid() && r.value.fed == []
  {
    if sampleRate == 0 || channels == 0 || channels > 8 {
      return None;
    }
    var acc := new WaveformAccumulator(sampleRate, channels, kernel);
    return Some(acc);
  }

  // ---- results ---------------------------------------------------------

  /** While nothing is refused, a 64-bit frame count cannot overflow for any 32-bit sample rate. */
  lemma ClockFits(n: nat, rate: nat)
    requires 0 < rate < 0x1_0000_0000 && Complete(n, rate) <= MAX_POINTS
    ensures n + 1 < 0x1_0000_0000_0000_0000
  {
    StartIff(MAX_POINTS + 1, n, rate);
  }

  /** Frame `n`, counted from zero, lies in bucket `Complete(n)` and no other. */
  lemma FrameInBucket(n: nat, b: nat, rate: nat)
    requires rate > 0
    ensures Start(b, rate) <= n < Start(b + 1, rate) <==> b == Complete(n, rate)
    ensures rate >= 10 ==> Complete(n, rate) == 10 * n / rate
    ensures rate <= 10 ==> Complete(n, rate) == n
  {
    StartIff(b, n, rate);
    StartIff(b + 1, n, rate);
    TenfoldDiv(n, rate);
  }

  /** The payload has a point for every bucket up to the last frame's, limited to the cap. */
  lemma EnvelopeSize(s: seq<F64>, channels: nat, rate: nat, k: Kernel)
    requires channels > 0 && rate > 0 && Aligned(s, channels)
    ensures s == [] ==> Envelope(s, channels, rate, k) == []
    ensures s != [] ==>
      |Envelope(s, channels, rate, k)| == 2 * Min(Complete(Frames(s, channels) - 1, rate) + 1, MAX_POINTS)
  {
    hide Complete, Start, Points, PointOf;
    var n := Frames(s, channels);
    if s == [] {
      NoneComplete(rate);
    } else {
      CompleteStep(n - 1, rate);
      StartIff(Complete(n, rate), n - 1, rate);
    }
  }

  lemma NoneComplete(rate: nat)
    requires rate > 0
    ensures Complete(0, rate) == 0 && Start(0, rate) == 0
  {}

  /** The `b`-th point of the payload summarises exactly the frames of bucket `b`. */
  lemma {:induction false} PointsAt(s: seq<F64>, channels: nat, rate: nat, k: Kernel, c: nat, b: nat)
    requires channels > 0 && rate > 0 && b < c <= Complete(Frames(s, channels), rate)
    ensures Start(b, rate) < Start(b + 1, rate) <= Frames(s, channels)
    ensures |Slice(s, channels, Start(b, rate), Start(b + 1, rate))| > 0
    ensures Points(s, channels, rate, k, c)[2 * b..2 * b + 2] ==
      PointOf(Slice(s, channels, Start(b, rate), Start(b + 1, rate)), k)
    decreases c
  {
    hide PointOf, Slice, Start, Complete;
    BucketNonempty(b, rate);
    StartIff(b + 1, Frames(s, channels), rate);
    SliceNonempty(Start(b + 1, rate) - Start(b, rate), channels);
    if b < c - 1 {
      PointsAt(s, channels, rate, k, c - 1, b);
    }
  }

  /** However a stream is cut into calls, the payload is that of the whole stream. */
  method Measure(chunks: seq<seq<F64>>, channels: nat, rate: nat, k: Kernel) returns (payload: seq<u8>)
    requires rate > 0 && 1 <= channels <= 8
    requires forall i :: 0 <= i < |chunks| ==> Aligned(chunks[i], channels)
    ensures Aligned(Flatten(chunks), channels)
    ensures payload == Envelope(Flatten(chunks), channels, rate, k)
  {
    var acc := new WaveformAccumulator(rate, channels, k);
    for i := 0 to |chunks|
      invariant acc.Valid() && fresh(acc)
      invariant acc.channels == channels && acc.sampleRate == rate && acc.kernel == k
      invariant acc.fed == Flatten(chunks[..i])
    {
      assert chunks[..i + 1][..i] == chunks[..i];
      var r := acc.Feed(chunks[i]);
    }
    assert chunks[..|chunks|] == chunks;
    payload := acc.Finish();
  }
}
