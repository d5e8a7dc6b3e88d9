/**
 What the K-weighting filter and the gate compute, apart from how: the filter's outputs are the one
 solution of its difference equation, the gated energies are mean squares of that solution, and
 the relative gate keeps what is within ten decibels of the mean.
 */
module LoudnessResults {
  import opened Arith
  import opened Floats
  import opened Wrappers
  import opened Samples
  import opened Loudness

  // ---- signals ---------------------------------------------------------

  /** Frame `m` is in the stream. */
  ghost predicate InStream(s: seq<F64>, channels: nat, c: nat, m: int) {
    0 <= m && c < channels && (m + 1) * channels <= |s|
  }

  /** A channel's sanitized samples, zero outside the stream. */
  ghost function Input(s: seq<F64>, channels: nat, c: nat): int -> real {
    (m: int) => if InStream(s, channels, c, m) then InputAt(s, m * channels + c) else 0.0
  }

  ghost function InputAt(s: seq<F64>, i: int): real {
    if 0 <= i < |s| then Sanitize(s[i]) else 0.0
  }

  /** A channel's weighted samples. */
  ghost function Output(k: Coeffs, s: seq<F64>, channels: nat, c: nat): int -> real {
    (m: int) => if InStream(s, channels, c, m) then Weighted(k, s, channels, c, m) else 0.0
  }

  /** The filter's difference equation at frame `m`. */
  ghost predicate Balances(k: Coeffs, x: int -> real, y: int -> real, m: int) {
    y(m) + k.a1 * y(m - 1) + k.a2 * y(m - 2) + k.a3 * y(m - 3) + k.a4 * y(m - 4) ==
      k.b0 * x(m) + k.b1 * x(m - 1) + k.b2 * x(m - 2) + k.b3 * x(m - 3) + k.b4 * x(m - 4)
  }

  /** `y` is silent before the start and balances the first `n` frames. */
  ghost predicate Solves(k: Coeffs, x: int -> real, y: int -> real, n: nat) {
    (forall m: int :: m < 0 ==> y(m) == 0.0) && forall m: nat :: m < n ==> Balances(k, x, y, m)
  }

  // ---- the filter solves its equation ----------------------------------

  /** The filter's inner signal. */
  ghost function Inner(k: Coeffs, s: seq<F64>, channels: nat, c: nat, m: int): real {
    if !InStream(s, channels, c, m) then 0.0 else
      EarlierFrame(m, 1, channels);
      Newest(k, FilterAt(k, s, channels, c, m), Sample(s, channels, m, c))
  }

  /** The memory holds the last four inner values. */
  lemma {:induction false} MemoryIs(k: Coeffs, s: seq<F64>, channels: nat, c: nat, m: nat)
    requires c < channels && m * channels <= |s|
    ensures FilterAt(k, s, channels, c, m) == Filter(Inner(k, s, channels, c, m - 1), Inner(k, s, channels, c, m - 2),
      Inner(k, s, channels, c, m - 3), Inner(k, s, channels, c, m - 4))
    decreases m
  {
    hide Newest, Sample;
    if m > 0 {
      EarlierFrame(m - 1, 1, channels);
      MemoryIs(k, s, channels, c, m - 1);
    }
  }

  /** Input and output in terms of the inner signal. */
  lemma Inside(k: Coeffs, s: seq<F64>, channels: nat, c: nat, m: int)
    requires m >= 0 ==> InStream(s, channels, c, m)
    ensures Input(s, channels, c)(m) ==
      FromInner(1.0, k.a1, k.a2, k.a3, k.a4, Inner(k, s, channels, c, m), Inner(k, s, channels, c, m - 1),
        Inner(k, s, channels, c, m - 2), Inner(k, s, channels, c, m - 3), Inner(k, s, channels, c, m - 4))
    ensures Output(k, s, channels, c)(m) ==
      FromInner(k.b0, k.b1, k.b2, k.b3, k.b4, Inner(k, s, channels, c, m), Inner(k, s, channels, c, m - 1),
        Inner(k, s, channels, c, m - 2), Inner(k, s, channels, c, m - 3), Inner(k, s, channels, c, m - 4))
  {
    hide FromInner, Newest, FilterAt, Sample, Response;
    if m >= 0 {
      EarlierFrame(m, 1, channels);
      SampleIs(s, channels, m, c);
      MemoryIs(k, s, channels, c, m);
      StepReads(k, FilterAt(k, s, channels, c, m), Sample(s, channels, m, c));
    } else {
      Silence(1.0, k.a1, k.a2, k.a3, k.a4);
      Silence(k.b0, k.b1, k.b2, k.b3, k.b4);
    }
  }

  lemma SampleIs(s: seq<F64>, channels: nat, m: nat, c: nat)
    requires InStream(s, channels, c, m)
    ensures Sample(s, channels, m, c) == InputAt(s, m * channels + c)
  {
    Cell(m, c, channels, m + 1);
  }

  lemma StepReads(k: Coeffs, f: Filter, x: real)
    ensures x == FromInner(1.0, k.a1, k.a2, k.a3, k.a4, Newest(k, f, x), f.v1, f.v2, f.v3, f.v4)
    ensures Response(k, f, x) == FromInner(k.b0, k.b1, k.b2, k.b3, k.b4, Newest(k, f, x), f.v1, f.v2, f.v3, f.v4)
  {}

  lemma Silence(c0: real, c1: real, c2: real, c3: real, c4: real)
    ensures FromInner(c0, c1, c2, c3, c4, 0.0, 0.0, 0.0, 0.0, 0.0) == 0.0
  {}

  ghost function FromInner(c0: real, c1: real, c2: real, c3: real, c4: real, w0: real, w1: real, w2: real, w3: real,
      w4: real): real {
    c0 * w0 + c1 * w1 + c2 * w2 + c3 * w3 + c4 * w4
  }

  ghost function Term(b: real, a: real, w: real): real {
    b * (a * w)
  }

  ghost function Plain(b: real, w: real): real {
    b * w
  }

  /** A coefficient of one half times the other half's sum. */
  lemma Row(a: real, k: Coeffs, w0: real, w1: real, w2: real, w3: real, w4: real)
    ensures a * FromInner(k.b0, k.b1, k.b2, k.b3, k.b4, w0, w1, w2, w3, w4) ==
      Term(k.b0, a, w0) + Term(k.b1, a, w1) + Term(k.b2, a, w2) + Term(k.b3, a, w3) + Term(k.b4, a, w4)
  {
    Swap(a, k.b0, w0);
    Swap(a, k.b1, w1);
    Swap(a, k.b2, w2);
    Swap(a, k.b3, w3);
    Swap(a, k.b4, w4);
    Spread5(a, k.b0 * w0, k.b1 * w1, k.b2 * w2, k.b3 * w3, k.b4 * w4);
  }

  lemma Swap(a: real, b: real, w: real)
    ensures a * (b * w) == b * (a * w)
  {}

  lemma Spread5(a: real, p: real, q: real, r: real, s: real, t: real)
    ensures a * (p + q + r + s + t) == a * p + a * q + a * r + a * s + a * t
  {}

  lemma Top(k: Coeffs, w0: real, w1: real, w2: real, w3: real, w4: real)
    ensures FromInner(k.b0, k.b1, k.b2, k.b3, k.b4, w0, w1, w2, w3, w4) ==
      Plain(k.b0, w0) + Plain(k.b1, w1) + Plain(k.b2, w2) + Plain(k.b3, w3) + Plain(k.b4, w4)
  {}

  lemma Column(b: real, k: Coeffs, w0: real, w1: real, w2: real, w3: real, w4: real)
    ensures b * FromInner(1.0, k.a1, k.a2, k.a3, k.a4, w0, w1, w2, w3, w4) ==
      Plain(b, w0) + Term(b, k.a1, w1) + Term(b, k.a2, w2) + Term(b, k.a3, w3) + Term(b, k.a4, w4)
  {
    Spread5(b, 1.0 * w0, k.a1 * w1, k.a2 * w2, k.a3 * w3, k.a4 * w4);
  }

  /** The second half applied to the inner signal `w`, newest first, `i` frames back. */
  ghost function Feedforward(k: Coeffs, w: seq<real>, i: nat): real
    requires |w| == 9 && i <= 4
  {
    FromInner(k.b0, k.b1, k.b2, k.b3, k.b4, w[i], w[i + 1], w[i + 2], w[i + 3], w[i + 4])
  }

  /** The first half undone. */
  ghost function Feedback(k: Coeffs, w: seq<real>, i: nat): real
    requires |w| == 9 && i <= 4
  {
    FromInner(1.0, k.a1, k.a2, k.a3, k.a4, w[i], w[i + 1], w[i + 2], w[i + 3], w[i + 4])
  }

  /** The two halves in either order. */
  lemma Exchange(k: Coeffs, w: seq<real>)
    requires |w| == 9
    ensures Feedforward(k, w, 0) + k.a1 * Feedforward(k, w, 1) + k.a2 * Feedforward(k, w, 2)
        + k.a3 * Feedforward(k, w, 3) + k.a4 * Feedforward(k, w, 4) ==
      k.b0 * Feedback(k, w, 0) + k.b1 * Feedback(k, w, 1) + k.b2 * Feedback(k, w, 2)
        + k.b3 * Feedback(k, w, 3) + k.b4 * Feedback(k, w, 4)
  {
    hide FromInner, Term, Plain;
    Top(k, w[0], w[1], w[2], w[3], w[4]);
    Row(k.a1, k, w[1], w[2], w[3], w[4], w[5]);
    Row(k.a2, k, w[2], w[3], w[4], w[5], w[6]);
    Row(k.a3, k, w[3], w[4], w[5], w[6], w[7]);
    Row(k.a4, k, w[4], w[5], w[6], w[7], w[8]);
    Column(k.b0, k, w[0], w[1], w[2], w[3], w[4]);
    Column(k.b1, k, w[1], w[2], w[3], w[4], w[5]);
    Column(k.b2, k, w[2], w[3], w[4], w[5], w[6]);
    Column(k.b3, k, w[3], w[4], w[5], w[6], w[7]);
    Column(k.b4, k, w[4], w[5], w[6], w[7], w[8]);
  }

  lemma InnerAt(k: Coeffs, s: seq<F64>, channels: nat, c: nat, m: nat, w: seq<real>, i: nat)
    requires InStream(s, channels, c, m) && i <= 4
    requires |w| == 9 && forall j :: 0 <= j < 9 ==> w[j] == Inner(k, s, channels, c, m - j)
    ensures Output(k, s, channels, c)(m - i) == Feedforward(k, w, i)
    ensures Input(s, channels, c)(m - i) == Feedback(k, w, i)
  {
    hide Inner, Input, Output, FromInner;
    assert m - i >= 0 ==> InStream(s, channels, c, m - i) by { EarlierFrame(m, i, channels); }
    Inside(k, s, channels, c, m - i);
  }

  /** The weighted samples satisfy the filter's difference equation, for every stream, channel and frame. */
  lemma DifferenceEquation(k: Coeffs, s: seq<F64>, channels: nat, c: nat, m: nat)
    requires InStream(s, channels, c, m)
    ensures Balances(k, Input(s, channels, c), Output(k, s, channels, c), m)
  {
    hide Inner, Input, Output, Feedforward, Feedback, InStream;
    var w := seq(9, j => Inner(k, s, channels, c, m - j));
    InnerAt(k, s, channels, c, m, w, 0);
    InnerAt(k, s, channels, c, m, w, 1);
    InnerAt(k, s, channels, c, m, w, 2);
    InnerAt(k, s, channels, c, m, w, 3);
    InnerAt(k, s, channels, c, m, w, 4);
    Exchange(k, w);
  }

  lemma OutputSolves(k: Coeffs, s: seq<F64>, channels: nat, c: nat, n: nat)
    requires c < channels && n * channels <= |s|
    ensures Solves(k, Input(s, channels, c), Output(k, s, channels, c), n)
  {
    hide Balances;
    forall m: nat | m < n ensures Balances(k, Input(s, channels, c), Output(k, s, channels, c), m) {
      MulLe(m + 1, n, channels, channels);
      DifferenceEquation(k, s, channels, c, m);
    }
  }

  /** The equation has one solution. */
  lemma {:induction false} SolutionUnique(k: Coeffs, x: int -> real, y: int -> real, z: int -> real, n: nat, m: int)
    requires Solves(k, x, y, n) && Solves(k, x, z, n) && m < n
    ensures y(m) == z(m)
    decreases if m < 0 then 0 else m + 1
  {
    if m >= 0 {
      SolutionUnique(k, x, y, z, n, m - 1);
      SolutionUnique(k, x, y, z, n, m - 2);
      SolutionUnique(k, x, y, z, n, m - 3);
      SolutionUnique(k, x, y, z, n, m - 4);
      assert Balances(k, x, y, m) && Balances(k, x, z, m);
    }
  }

  // ---- energies --------------------------------------------------------

  ghost function Total(n: nat, f: nat -> real): real {
    if n == 0 then 0.0 else Total(n - 1, f) + f(n - 1)
  }

  ghost function Squares(y: int -> real, from: int): nat -> real {
    (i: nat) => y(from + i) * y(from + i)
  }

  /** The mean square of gating block `j` over all channels: frames `j * hop` to `(j + 4) * hop`. */
  ghost function MeanSquare(ys: nat -> int -> real, channels: nat, hop: nat, j: nat): real
    requires hop > 0
  {
    Total(channels, (c: nat) => Total(4 * hop, Squares(ys(c), j * hop))) / (4 * hop) as real
  }

  ghost function Energies(ys: nat -> int -> real, channels: nat, hop: nat): nat -> real
    requires hop > 0
  {
    (j: nat) => MeanSquare(ys, channels, hop, j)
  }

  /** Of the first `n` values those at or above the threshold, in order. */
  ghost function Loud(n: nat, e: nat -> real, threshold: real): seq<real> {
    if n == 0 then [] else Loud(n - 1, e, threshold) + if e(n - 1) >= threshold then [e(n - 1)] else []
  }

  /** Every channel's signal solves the difference equation on the whole stream. */
  ghost predicate AllSolve(k: Coeffs, s: seq<F64>, channels: nat, ys: nat -> int -> real)
    requires channels > 0
  {
    forall c: nat :: c < channels ==> Solves(k, Input(s, channels, c), ys(c), |s| / channels)
  }

  lemma WeightedIs(k: Coeffs, s: seq<F64>, channels: nat, c: nat, y: int -> real, m: nat)
    requires c < channels && Solves(k, Input(s, channels, c), y, |s| / channels) && (m + 1) * channels <= |s|
    ensures Weighted(k, s, channels, c, m) == y(m)
  {
    hide Solves, Weighted;
    var n := |s| / channels;
    FloorDiv(m + 1, channels, |s|);
    FloorDiv(n, channels, |s|);
    OutputSolves(k, s, channels, c, n);
    SolutionUnique(k, Input(s, channels, c), Output(k, s, channels, c), y, n, m);
  }

  lemma {:induction false} ChannelEnergyIs(k: Coeffs, s: seq<F64>, channels: nat, c: nat, y: int -> real, from: nat,
      count: nat)
    requires c < channels && Solves(k, Input(s, channels, c), y, |s| / channels) && (from + count) * channels <= |s|
    ensures ChannelEnergy(k, s, channels, c, from, count) == Total(count, Squares(y, from))
    decreases count
  {
    hide Solves, Weighted;
    if count > 0 {
      EarlierFrame(from + count - 1, 1, channels);
      ChannelEnergyIs(k, s, channels, c, y, from, count - 1);
      WeightedIs(k, s, channels, c, y, from + count - 1);
    }
  }

  ghost function ChannelTotals(ys: nat -> int -> real, from: nat, count: nat): nat -> real {
    (c: nat) => Total(count, Squares(ys(c), from))
  }

  lemma {:induction false} FramesEnergyIs(k: Coeffs, s: seq<F64>, channels: nat, ys: nat -> int -> real, c: nat,
      from: nat, count: nat)
    requires channels > 0 && AllSolve(k, s, channels, ys) && c <= channels && (from + count) * channels <= |s|
    ensures FramesEnergy(k, s, channels, c, from, count) == Total(c, ChannelTotals(ys, from, count))
  {
    hide ChannelEnergy, Squares, Solves;
    if c > 0 {
      FramesEnergyIs(k, s, channels, ys, c - 1, from, count);
      ChannelEnergyIs(k, s, channels, c - 1, ys(c - 1), from, count);
    }
  }

  lemma BlockEnergyIs(k: Coeffs, s: seq<F64>, channels: nat, ys: nat -> int -> real, hop: nat, j: nat)
    requires channels > 0 && AllSolve(k, s, channels, ys) && hop > 0 && (j * hop + 4 * hop) * channels <= |s|
    ensures BlockEnergy(k, s, channels, hop, j) == MeanSquare(ys, channels, hop, j)
  {
    hide FramesEnergy, AllSolve, Squares;
    FramesEnergyIs(k, s, channels, ys, channels, j * hop, 4 * hop);
    SameTotal(channels, ChannelTotals(ys, j * hop, 4 * hop), (c: nat) => Total(4 * hop, Squares(ys(c), j * hop)));
  }

  lemma {:induction false} SameTotal(n: nat, f: nat -> real, g: nat -> real)
    requires forall i: nat :: i < n ==> f(i) == g(i)
    ensures Total(n, f) == Total(n, g)
  {
    if n > 0 { SameTotal(n - 1, f, g); }
  }

  /**
   The gated energies of a whole stream: for every solution of the difference equation, the mean
   squares of the blocks that reach the threshold, in order. `Output` is a solution.
   */
  lemma {:induction false} GatedEnergies(k: Coeffs, s: seq<F64>, channels: nat, ys: nat -> int -> real, hop: nat,
      threshold: real, n: nat)
    requires channels > 0 && AllSolve(k, s, channels, ys) && hop > 0 && n <= BlockCount(|s| / channels, hop)
    ensures Gated(k, s, channels, hop, threshold, n) == Loud(n, Energies(ys, channels, hop), threshold)
  {
    hide BlockEnergy, MeanSquare, AllSolve, BlockCount;
    if n > 0 {
      BlockFits(|s|, channels, hop, n - 1);
      GatedEnergies(k, s, channels, ys, hop, threshold, n - 1);
      BlockEnergyIs(k, s, channels, ys, hop, n - 1);
    }
  }

  // ---- the relative gate -----------------------------------------------

  /** Ten times the block's energy reaches the mean of all. */
  ghost predicate WithinTen(blocks: seq<real>, i: nat)
    requires i < |blocks|
  {
    10.0 * blocks[i] * |blocks| as real >= Total(|blocks|, Entries(blocks))
  }

  ghost function Entries(blocks: seq<real>): nat -> real {
    (i: nat) => if i < |blocks| then blocks[i] else 0.0
  }

  ghost function Marks(blocks: seq<real>): nat -> real {
    (i: nat) => if i < |blocks| && WithinTen(blocks, i) then 1.0 else 0.0
  }

  ghost function Counted(blocks: seq<real>): nat -> real {
    (i: nat) => if i < |blocks| && WithinTen(blocks, i) then blocks[i] else 0.0
  }

  lemma {:induction false} SumIs(blocks: seq<real>, n: nat)
    requires n <= |blocks|
    ensures Sum(blocks[..n]) == Total(n, Entries(blocks))
  {
    if n > 0 {
      SumIs(blocks, n - 1);
      assert blocks[..n][..n - 1] == blocks[..n - 1];
    }
  }

  lemma ThresholdIs(blocks: seq<real>, i: nat)
    requires i < |blocks|
    ensures blocks[i] >= RelativeThreshold(blocks) <==> WithinTen(blocks, i)
  {
    hide Sum, Total;
    SumIs(blocks, |blocks|);
    assert blocks[..|blocks|] == blocks;
    Tenth(blocks[i], Sum(blocks), |blocks|);
  }

  lemma Tenth(e: real, sum: real, n: nat)
    requires n > 0
    ensures e >= sum / n as real * 0.1 <==> 10.0 * e * n as real >= sum
  {
    hide *;
    MeanBound(sum, n, 10.0 * e);
    var m := sum / n as real;
    Undo(10.0 * e - m, n as real);
    Spread2(10.0 * e, m, n as real);
  }

  lemma Undo(d: real, n: real)
    requires n > 0.0
    ensures d >= 0.0 <==> d * n >= 0.0
  {}

  lemma Spread2(a: real, b: real, n: real)
    ensures (a - b) * n == a * n - b * n
  {}

  lemma {:induction false} KeptIs(blocks: seq<real>, n: nat)
    requires blocks != [] && n <= |blocks|
    ensures var kept := AtLeast(blocks[..n], RelativeThreshold(blocks));
      |kept| as real == Total(n, Marks(blocks)) && Sum(kept) == Total(n, Counted(blocks))
  {
    hide RelativeThreshold, WithinTen;
    if n > 0 {
      KeptIs(blocks, n - 1);
      ThresholdIs(blocks, n - 1);
      assert blocks[..n][..n - 1] == blocks[..n - 1];
    }
  }

  /** The gated mean is the mean of the blocks whose energy is at least a tenth of the mean of all. */
  lemma GatedMeanIs(blocks: seq<real>)
    requires blocks != []
    ensures var count := Total(|blocks|, Marks(blocks));
      var m := GatedMeanOf(blocks);
      && (m.None? <==> count == 0.0)
      && (m.Some? ==> m.value * count == Total(|blocks|, Counted(blocks)))
  {
    hide RelativeThreshold, WithinTen, AtLeast, Sum;
    KeptIs(blocks, |blocks|);
    assert blocks[..|blocks|] == blocks;
    var kept := AtLeast(blocks, RelativeThreshold(blocks));
    if kept != [] { MeanBound(Sum(kept), |kept|, 0.0); }
  }

  // ---- blocks ----------------------------------------------------------

  /** Block `j` counts exactly when its last frame, `(j + 4)` hops in, is there. */
  lemma BlockCountIff(n: nat, hop: nat, j: nat)
    requires hop > 0
    ensures j < BlockCount(n, hop) <==> (j + 4) * hop <= n
  {
    FloorDiv(j + 4, hop, n);
  }

  /** A hop is a tenth of a second, to the nearest frame. */
  lemma HopIsTenth(rate: nat)
    ensures -5 <= rate - 10 * Hop(rate) <= 5
  {}
}
