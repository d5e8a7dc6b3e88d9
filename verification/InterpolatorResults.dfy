/**
 What the polyphase sub-filters compute: the stream with zeros stuffed between its frames, filtered
 by all the taps at the higher rate.
 */
module InterpolatorResults {
  import opened Arith
  import opened Floats
  import opened Samples
  import opened Interpolator

  // ---- the oversampled stream ------------------------------------------

  /** Channel `c` at the higher rate: its samples `factor` steps apart, zero in between and before the start. */
  ghost function Stuffed(s: seq<real>, channels: nat, factor: nat, c: nat): int -> real
    requires factor > 0
  {
    (i: int) => if i % factor == 0 && 0 <= i / factor * channels + c < |s| && i >= 0 then s[i / factor * channels + c]
      else 0.0
  }

  /** A tap, dropped when it is almost zero. */
  ghost function Effective(tap: nat -> real): nat -> real {
    (j: nat) => if Abs(tap(j)) > ALMOST_ZERO then tap(j) else 0.0
  }

  /** The first `j` terms of a convolution at step `i`. */
  ghost function Convolved(x: int -> real, h: nat -> real, i: int, j: nat): real {
    if j == 0 then 0.0 else Convolved(x, h, i, j - 1) + x(i - (j - 1)) * h(j - 1)
  }

  // ---- dealing out the taps --------------------------------------------

  lemma {:induction false} FirPrefix(s: seq<real>, channels: nat, f: SubFilter, g: SubFilter, m: nat, c: nat, t: nat)
    requires c < channels && (m + 1) * channels <= |s|
    requires t <= |f.index| == |f.coeff| <= |g.index| == |g.coeff|
    requires f.index == g.index[..|f.index|] && f.coeff == g.coeff[..|f.coeff|]
    ensures Fir(s, channels, g, m, c, t) == Fir(s, channels, f, m, c, t)
  {
    hide Tap;
    if t > 0 { FirPrefix(s, channels, f, g, m, c, t - 1); }
  }

  /** The step that tap `j` meets at frame `m` and phase `phase` holds a sample exactly when the tap is dealt to it. */
  lemma Step(m: nat, factor: nat, phase: nat, j: nat)
    requires factor > 0 && phase < factor
    ensures (m * factor + phase - j) % factor == 0 <==> j % factor == phase
    ensures j % factor == phase ==> (m * factor + phase - j) / factor == m - j / factor
  {
    var q, r := j / factor, j % factor;
    assert j == q * factor + r;
    var i := m * factor + phase - j;
    assert (m - q) * factor == m * factor - q * factor;
    assert i == (m - q) * factor + (phase - r);
    if r <= phase {
      DivModUnique(i, factor, m - q, phase - r);
    } else {
      assert (m - q - 1) * factor == (m - q) * factor - factor;
      DivModUnique(i, factor, m - q - 1, phase - r + factor);
    }
  }

  lemma StuffedAt(s: seq<real>, channels: nat, factor: nat, m: nat, c: nat, phase: nat, j: nat)
    requires factor > 0 && phase < factor && c < channels && (m + 1) * channels <= |s|
    ensures (m - j / factor + 1) * channels <= |s|
    ensures Stuffed(s, channels, factor, c)(m * factor + phase - j) ==
      if j % factor == phase then Tap(s, channels, m - j / factor, c) else 0.0
  {
    Step(m, factor, phase, j);
    EarlierFrame(m, j / factor, channels);
    var e := m - j / factor;
    if j % factor == phase {
      var i := m * factor + phase - j;
      if e >= 0 {
        Cell(e, c, channels, e + 1);
        NonNegative(e, factor, i);
      } else {
        Before(e, factor, i);
      }
    }
  }

  lemma NonNegative(e: int, factor: nat, i: int)
    requires factor > 0 && i % factor == 0 && i / factor == e && e >= 0
    ensures i >= 0 && e * factor >= 0
  {}

  lemma Before(e: int, factor: nat, i: int)
    requires factor > 0 && i / factor == e && e < 0
    ensures i < 0
  {}

  lemma FirSnoc(s: seq<real>, channels: nat, f: SubFilter, d: nat, h: real, m: nat, c: nat)
    requires c < channels && (m + 1) * channels <= |s| && |f.index| == |f.coeff|
    ensures (m - d + 1) * channels <= |s|
    ensures Fir(s, channels, SubFilter(f.index + [d], f.coeff + [h]), m, c, |f.index| + 1) ==
      Fir(s, channels, f, m, c, |f.index|) + Tap(s, channels, m - d, c) * h
  {
    hide Tap;
    EarlierFrame(m, d, channels);
    FirPrefix(s, channels, f, SubFilter(f.index + [d], f.coeff + [h]), m, c, |f.index|);
  }

  lemma PhaseStep(tap: nat -> real, factor: nat, phase: nat, j: nat)
    requires factor > 0
    ensures var f := Phase(tap, factor, phase, j);
      Phase(tap, factor, phase, j + 1) ==
        if j % factor == phase && Effective(tap)(j) != 0.0
        then SubFilter(f.index + [j / factor], f.coeff + [tap(j)]) else f
    ensures Effective(tap)(j) != 0.0 ==> Effective(tap)(j) == tap(j)
  {}

  /** A tap adds one term, whether or not it is dealt to the phase. */
  lemma DealStep(s: seq<real>, channels: nat, tap: nat -> real, factor: nat, phase: nat, m: nat, c: nat, j: nat, i: int)
    requires factor > 0 && phase < factor && c < channels && (m + 1) * channels <= |s| && i == m * factor + phase
    ensures var f, g := Phase(tap, factor, phase, j), Phase(tap, factor, phase, j + 1);
      Fir(s, channels, g, m, c, |g.index|) ==
        Fir(s, channels, f, m, c, |f.index|) + Stuffed(s, channels, factor, c)(i - j) * Effective(tap)(j)
  {
    hide *;
    var f, g := Phase(tap, factor, phase, j), Phase(tap, factor, phase, j + 1);
    PhaseStep(tap, factor, phase, j);
    StuffedAt(s, channels, factor, m, c, phase, j);
    var x, h := Stuffed(s, channels, factor, c)(i - j), Effective(tap)(j);
    if j % factor == phase && h != 0.0 {
      FirSnoc(s, channels, f, j / factor, tap(j), m, c);
      assert x == Tap(s, channels, m - j / factor, c) && h == tap(j);
    } else {
      NoTerm(x, h);
    }
  }

  /** A sub-filter's output is the convolution at its step. */
  lemma {:induction false} PhaseConvolves(s: seq<real>, channels: nat, tap: nat -> real, factor: nat, phase: nat,
      m: nat, c: nat, j: nat, i: int)
    requires factor > 0 && phase < factor && c < channels && (m + 1) * channels <= |s| && i == m * factor + phase
    ensures var f := Phase(tap, factor, phase, j);
      Fir(s, channels, f, m, c, |f.index|) == Convolved(Stuffed(s, channels, factor, c), Effective(tap), i, j)
  {
    hide *;
    if j == 0 {
      NothingDealt(s, channels, tap, factor, phase, m, c, i);
    } else {
      PhaseConvolves(s, channels, tap, factor, phase, m, c, j - 1, i);
      DealStep(s, channels, tap, factor, phase, m, c, j - 1, i);
      ConvolvedSnoc(Stuffed(s, channels, factor, c), Effective(tap), i, j - 1);
    }
  }

  lemma NothingDealt(s: seq<real>, channels: nat, tap: nat -> real, factor: nat, phase: nat, m: nat, c: nat, i: int)
    requires factor > 0 && c < channels && (m + 1) * channels <= |s|
    ensures Fir(s, channels, Phase(tap, factor, phase, 0), m, c, |Phase(tap, factor, phase, 0).index|) == 0.0
    ensures Convolved(Stuffed(s, channels, factor, c), Effective(tap), i, 0) == 0.0
  {}

  lemma ConvolvedSnoc(x: int -> real, h: nat -> real, i: int, j: nat)
    ensures Convolved(x, h, i, j + 1) == Convolved(x, h, i, j) + x(i - j) * h(j)
  {}

  lemma NoTerm(x: real, h: real)
    requires x == 0.0 || h == 0.0
    ensures x * h == 0.0
  {}

  /** One step of the oversampled, filtered stream, narrowed. */
  ghost function Oversampled(s: seq<real>, channels: nat, factor: nat, tap: nat -> real, narrow: real -> real, c: nat,
      i: int): real
    requires factor > 0
  {
    narrow(Convolved(Stuffed(s, channels, factor, c), Effective(tap), i, TAPS))
  }

  lemma OutputIs(s: seq<real>, channels: nat, tap: nat -> real, factor: nat, narrow: real -> real, phase: nat, m: nat,
      c: nat)
    requires factor > 0 && phase < factor && c < channels && (m + 1) * channels <= |s|
    ensures Output(s, channels, Phases(tap, factor, TAPS)[phase], narrow, m, c) ==
      Abs(Oversampled(s, channels, factor, tap, narrow, c, m * factor + phase))
  {
    hide Fir, Convolved, Phase, Stuffed, Effective, Abs;
    PhaseConvolves(s, channels, tap, factor, phase, m, c, TAPS, m * factor + phase);
  }

  /** The peak bounds every step of every channel of the oversampled stream. */
  lemma PeakBoundsOversampled(s: seq<real>, channels: nat, tap: nat -> real, factor: nat, narrow: real -> real, n: nat,
      c: nat, i: nat)
    requires factor > 0 && c < channels && n * channels <= |s| && i < n * factor
    ensures Abs(Oversampled(s, channels, factor, tap, narrow, c, i)) <=
      Peak(s, channels, Phases(tap, factor, TAPS), narrow, n)
  {
    hide Oversampled, Output, Peak, Phase, Abs;
    var m, phase := i / factor, i % factor;
    FloorDiv(n, factor, i);
    MulLe(m + 1, n, channels, channels);
    assert i == m * factor + phase;
    PeakBounds(s, channels, Phases(tap, factor, TAPS), narrow, n, m, c, phase);
    OutputIs(s, channels, tap, factor, narrow, phase, m, c);
  }

  /** And a positive peak is the magnitude of one of them. */
  lemma PeakIsOversampled(s: seq<real>, channels: nat, tap: nat -> real, factor: nat, narrow: real -> real, n: nat)
    returns (c: nat, i: nat)
    requires factor > 0 && n * channels <= |s| && Peak(s, channels, Phases(tap, factor, TAPS), narrow, n) > 0.0
    ensures c < channels && i < n * factor
    ensures Abs(Oversampled(s, channels, factor, tap, narrow, c, i)) ==
      Peak(s, channels, Phases(tap, factor, TAPS), narrow, n)
  {
    hide Oversampled, Output, Peak, Phase, Abs;
    var m, channel, phase := PeakAttained(s, channels, Phases(tap, factor, TAPS), narrow, n);
    OutputIs(s, channels, tap, factor, narrow, phase, m, channel);
    c, i := channel, m * factor + phase;
    MulLe(m + 1, n, factor, factor);
    Distribute(factor, m, 1);
  }
}
