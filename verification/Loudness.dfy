/**
 The gated loudness meter: K-weighted samples go through a circular buffer, and every 100 ms the
 energy of the last 400 ms is gated, the same however the input is split into calls.
 */
module Loudness {
  import opened Arith
  import opened Floats
  import opened Wrappers
  import opened Samples
  import I = Interpolator

  // Arithmetic is over exact reals; the filter coefficients and the absolute threshold are
  // parameters, and decibels are left out.

  // ---- K-weighting -----------------------------------------------------

  datatype Coeffs = Coeffs(a1: real, a2: real, a3: real, a4: real, b0: real, b1: real, b2: real, b3: real, b4: real)

  /** One channel's filter memory, newest first. */
  datatype Filter = Filter(v1: real, v2: real, v3: real, v4: real)

  const SILENT: Filter := Filter(0.0, 0.0, 0.0, 0.0)

  function Newest(k: Coeffs, f: Filter, x: real): real {
    x - k.a1 * f.v1 - k.a2 * f.v2 - k.a3 * f.v3 - k.a4 * f.v4
  }

  function Push(k: Coeffs, f: Filter, x: real): Filter {
    Filter(Newest(k, f, x), f.v1, f.v2, f.v3)
  }

  function Response(k: Coeffs, f: Filter, x: real): real {
    k.b0 * Newest(k, f, x) + k.b1 * f.v1 + k.b2 * f.v2 + k.b3 * f.v3 + k.b4 * f.v4
  }

  // ---- reference definition --------------------------------------------

  /** The sample of channel `c` at frame `m`. */
  function Sample(s: seq<F64>, channels: nat, m: nat, c: nat): real
    requires c < channels && (m + 1) * channels <= |s|
  {
    Cell(m, c, channels, m + 1);
    Sanitize(s[m * channels + c])
  }

  /** A channel's filter memory after `m` frames. */
  function FilterAt(k: Coeffs, s: seq<F64>, channels: nat, c: nat, m: nat): Filter
    requires c < channels && m * channels <= |s|
    decreases m
  {
    if m == 0 then SILENT else
      EarlierFrame(m - 1, 1, channels);
      Push(k, FilterAt(k, s, channels, c, m - 1), Sample(s, channels, m - 1, c))
  }

  /** The K-weighted sample of channel `c` at frame `m`. */
  function Weighted(k: Coeffs, s: seq<F64>, channels: nat, c: nat, m: nat): real
    requires c < channels && (m + 1) * channels <= |s|
  {
    EarlierFrame(m, 1, channels);
    Response(k, FilterAt(k, s, channels, c, m), Sample(s, channels, m, c))
  }

  /** The sum of squares of `count` weighted samples of a channel. */
  function ChannelEnergy(k: Coeffs, s: seq<F64>, channels: nat, c: nat, from: nat, count: nat): real
    requires c < channels && (from + count) * channels <= |s|
    decreases count
  {
    if count == 0 then 0.0 else
      EarlierFrame(from + count - 1, 1, channels);
      var y := Weighted(k, s, channels, c, from + count - 1);
      ChannelEnergy(k, s, channels, c, from, count - 1) + y * y
  }

  /** The same over the first `c` channels. */
  function FramesEnergy(k: Coeffs, s: seq<F64>, channels: nat, c: nat, from: nat, count: nat): real
    requires c <= channels && (from + count) * channels <= |s|
    decreases c
  {
    if c == 0 then 0.0
    else FramesEnergy(k, s, channels, c - 1, from, count) + ChannelEnergy(k, s, channels, c - 1, from, count)
  }

  /** Gating block `j`: the mean energy of frames `j * hop` to `(j + 4) * hop`. */
  function BlockEnergy(k: Coeffs, s: seq<F64>, channels: nat, hop: nat, j: nat): real
    requires hop > 0 && (j * hop + 4 * hop) * channels <= |s|
  {
    FramesEnergy(k, s, channels, channels, j * hop, 4 * hop) / (4 * hop) as real
  }

  /** How many gating blocks `n` frames complete. */
  function BlockCount(n: nat, hop: nat): nat
    requires hop > 0
  {
    MaxInt(n / hop - 3, 0)
  }

  /** The energies at or above the threshold of the first `j` blocks, in order. */
  function Gated(k: Coeffs, s: seq<F64>, channels: nat, hop: nat, threshold: real, j: nat): seq<real>
    requires hop > 0 && channels > 0 && j <= BlockCount(|s| / channels, hop)
    decreases j
  {
    if j == 0 then [] else
      BlockFits(|s|, channels, hop, j - 1);
      var energy := BlockEnergy(k, s, channels, hop, j - 1);
      Gated(k, s, channels, hop, threshold, j - 1) + if energy >= threshold then [energy] else []
  }

  /** The frames still needed to complete the next block. */
  function Needed(n: nat, hop: nat): nat
    requires hop > 0
  {
    if n < 4 * hop then 4 * hop - n else hop - n % hop
  }

  // ---- block arithmetic ------------------------------------------------

  lemma BlockFits(len: nat, channels: nat, hop: nat, j: nat)
    requires hop > 0 && channels > 0 && j < BlockCount(len / channels, hop)
    ensures (j * hop + 4 * hop) * channels <= len
  {
    FloorDiv(j + 4, hop, len / channels);
    Distribute(hop, j, 4);
    FloorDiv((j + 4) * hop, channels, len);
  }

  /** Short of the next boundary no block is completed. */
  lemma WithinHop(n: nat, r: nat, hop: nat)
    requires hop > 0 && r < Needed(n, hop)
    ensures BlockCount(n + r, hop) == BlockCount(n, hop) && Needed(n + r, hop) == Needed(n, hop) - r
  {
    if n + r < 4 * hop {
      FloorDiv(4, hop, n + r);
      FloorDiv(4, hop, n);
    } else {
      var q := n / hop;
      assert n == q * hop + n % hop;
      DivModUnique(n + r, hop, q, n % hop + r);
    }
  }

  /** At the boundary exactly one more block is complete, ending there. */
  lemma AtHop(n: nat, hop: nat)
    requires hop > 0
    ensures var e := n + Needed(n, hop);
      && BlockCount(e, hop) == BlockCount(n, hop) + 1
      && BlockCount(n, hop) * hop + 4 * hop == e && Needed(e, hop) == hop
  {
    var e := n + Needed(n, hop);
    if n < 4 * hop {
      FloorDiv(4, hop, n);
      DivModUnique(e, hop, 4, 0);
    } else {
      var q := n / hop;
      FloorDiv(4, hop, n);
      assert n == q * hop + n % hop;
      Distribute(hop, q, 1);
      Distribute(hop, q - 3, 4);
      DivModUnique(e, hop, q + 1, 0);
    }
  }

  /** A chunk up to the next boundary ends within the ring, which holds whole hops. */
  lemma ChunkFits(n: nat, hop: nat, ring: nat)
    requires hop > 0 && ring % hop == 0 && ring >= 4 * hop
    ensures n % ring + Needed(n, hop) <= ring
  {
    DivIdentity(n, ring);
    DivIdentity(ring, hop);
    if n < 4 * hop {
      DivModUnique(n, ring, 0, n);
    } else {
      RoomInRing(n, n / ring, n % ring, ring / hop, hop);
    }
  }

  lemma DivIdentity(n: nat, d: nat)
    requires d > 0
    ensures n == n / d * d + n % d && 0 <= n % d < d && n / d >= 0
  {}

  /** A position in a ring of `r` hops has room for the rest of its hop. */
  lemma RoomInRing(n: nat, turns: nat, t: nat, r: nat, hop: nat)
    requires hop > 0 && t < r * hop && n == turns * (r * hop) + t
    ensures n % hop == t % hop && t + hop - t % hop <= r * hop
  {
    var q := t / hop;
    assert t == q * hop + t % hop;
    MulAssoc(turns, r, hop);
    Distribute(hop, turns * r, q);
    DivModUnique(n, hop, turns * r + q, t % hop);
    FloorDiv(r, hop, t);
    MulLe(q + 1, r, hop, hop);
    Distribute(hop, q, 1);
  }

  /** The end of a chunk, within the ring or exactly at its end. */
  lemma RingEnd(n: nat, r: nat, ring: nat)
    requires ring > 0 && n % ring + r <= ring
    ensures (n + r) % ring == if n % ring + r == ring then 0 else n % ring + r
  {
    var q := n / ring;
    assert n == q * ring + n % ring;
    if n % ring + r == ring {
      Distribute(ring, q, 1);
      DivModUnique(n + r, ring, q + 1, 0);
    } else {
      DivModUnique(n + r, ring, q, n % ring + r);
    }
  }

  // ---- the past does not change ----------------------------------------

  lemma {:induction false} FilterExtends(k: Coeffs, s: seq<F64>, more: seq<F64>, channels: nat, c: nat, m: nat)
    requires c < channels && m * channels <= |s|
    ensures FilterAt(k, s + more, channels, c, m) == FilterAt(k, s, channels, c, m)
    decreases m
  {
    if m > 0 {
      EarlierFrame(m - 1, 1, channels);
      FilterExtends(k, s, more, channels, c, m - 1);
      Cell(m - 1, c, channels, m);
    }
  }

  lemma WeightedExtends(k: Coeffs, s: seq<F64>, more: seq<F64>, channels: nat, c: nat, m: nat)
    requires c < channels && (m + 1) * channels <= |s|
    ensures Weighted(k, s + more, channels, c, m) == Weighted(k, s, channels, c, m)
  {
    EarlierFrame(m, 1, channels);
    FilterExtends(k, s, more, channels, c, m);
    Cell(m, c, channels, m + 1);
  }

  lemma {:induction false} ChannelEnergyExtends(k: Coeffs, s: seq<F64>, more: seq<F64>, channels: nat, c: nat,
      from: nat, count: nat)
    requires c < channels && (from + count) * channels <= |s|
    ensures ChannelEnergy(k, s + more, channels, c, from, count) == ChannelEnergy(k, s, channels, c, from, count)
    decreases count
  {
    hide Weighted;
    if count > 0 {
      EarlierFrame(from + count - 1, 1, channels);
      ChannelEnergyExtends(k, s, more, channels, c, from, count - 1);
      WeightedExtends(k, s, more, channels, c, from + count - 1);
    }
  }

  lemma {:induction false} FramesEnergyExtends(k: Coeffs, s: seq<F64>, more: seq<F64>, channels: nat, c: nat, from: nat,
      count: nat)
    requires c <= channels && (from + count) * channels <= |s|
    ensures FramesEnergy(k, s + more, channels, c, from, count) == FramesEnergy(k, s, channels, c, from, count)
    decreases c
  {
    if c > 0 {
      FramesEnergyExtends(k, s, more, channels, c - 1, from, count);
      ChannelEnergyExtends(k, s, more, channels, c - 1, from, count);
    }
  }

  lemma {:induction false} GatedExtends(k: Coeffs, s: seq<F64>, more: seq<F64>, channels: nat, hop: nat,
      threshold: real, j: nat)
    requires hop > 0 && channels > 0 && j <= BlockCount(|s| / channels, hop)
      && j <= BlockCount(|s + more| / channels, hop)
    ensures Gated(k, s + more, channels, hop, threshold, j) == Gated(k, s, channels, hop, threshold, j)
    decreases j
  {
    hide FramesEnergy, BlockCount;
    if j > 0 {
      BlockFits(|s|, channels, hop, j - 1);
      GatedExtends(k, s, more, channels, hop, threshold, j - 1);
      FramesEnergyExtends(k, s, more, channels, channels, (j - 1) * hop, 4 * hop);
    }
  }

  /** One more block complete. */
  lemma GatedSnoc(k: Coeffs, s: seq<F64>, src: seq<F64>, channels: nat, n: nat, frames: nat, hop: nat, threshold: real,
      j: nat)
    requires hop > 0 && channels > 0 && |s| == n * channels && |src| == frames * channels
    requires j == BlockCount(n, hop) && BlockCount(n + frames, hop) == j + 1
    ensures |s + src| / channels == n + frames && (j * hop + 4 * hop) * channels <= |s + src| && |s| / channels == n
    ensures var energy := BlockEnergy(k, s + src, channels, hop, j);
      Gated(k, s + src, channels, hop, threshold, j + 1) ==
        Gated(k, s, channels, hop, threshold, j) + if energy >= threshold then [energy] else []
  {
    hide BlockEnergy, BlockCount;
    CountExtends(s, src, channels, n, frames);
    DivModUnique(|s|, channels, n, 0);
    BlockFits(|s + src|, channels, hop, j);
    GatedExtends(k, s, src, channels, hop, threshold, j);
  }

  lemma GatedSame(k: Coeffs, s: seq<F64>, src: seq<F64>, channels: nat, n: nat, frames: nat, hop: nat, threshold: real,
      j: nat)
    requires hop > 0 && channels > 0 && |s| == n * channels && |src| == frames * channels
    requires j == BlockCount(n, hop) == BlockCount(n + frames, hop)
    ensures |s + src| / channels == n + frames && |s| / channels == n
    ensures Gated(k, s + src, channels, hop, threshold, j) == Gated(k, s, channels, hop, threshold, j)
  {
    hide BlockEnergy, BlockCount;
    CountExtends(s, src, channels, n, frames);
    DivModUnique(|s|, channels, n, 0);
    GatedExtends(k, s, src, channels, hop, threshold, j);
  }

  // ---- the ring --------------------------------------------------------

  /** The ring cell of channel `c` at frame `m` holds its weighted sample. */
  ghost predicate Holds(ring: seq<real>, frames: nat, k: Coeffs, s: seq<F64>, channels: nat, m: nat, c: nat)
    requires c < channels && frames > 0 && |ring| == frames * channels && (m + 1) * channels <= |s|
  {
    Cell(m % frames, c, channels, frames);
    ring[m % frames * channels + c] == Weighted(k, s, channels, c, m)
  }

  /**
   While frames `from..to` are filtered channel by channel: done are the first `c` channels and
   frames before `m` of channel `c`.
   */
  predicate Done(from: nat, c: nat, m: nat, m': nat, c': nat) {
    m' < from || c' < c || (c' == c && m' < m)
  }

  /** The ring holds every done cell of the window that ends at `to`. */
  ghost predicate Window(ring: seq<real>, frames: nat, k: Coeffs, s: seq<F64>, channels: nat, from: nat, to: nat,
      c: nat, m: nat)
    requires channels > 0 && frames > 0 && |ring| == frames * channels && to * channels <= |s|
  {
    forall m': nat, c': nat :: to - frames <= m' < to && c' < channels && Done(from, c, m, m', c') ==>
      InWindow(m', to, channels, |s|) && Holds(ring, frames, k, s, channels, m', c')
  }

  predicate InWindow(m: nat, to: nat, channels: nat, len: nat)
    requires m < to && to * channels <= len
    ensures (m + 1) * channels <= len
  {
    MulLe(m + 1, to, channels, channels);
    true
  }

  lemma {:induction false} ModDiffers(a: nat, b: nat, frames: nat)
    requires a < b < a + frames
    ensures a % frames != b % frames
  {
    ModBack(b, b - a, frames);
  }

  /** Writing the next cell keeps the others of the window. */
  lemma WindowWrite(ring: seq<real>, frames: nat, k: Coeffs, s: seq<F64>, channels: nat, from: nat, to: nat, c: nat,
      m: nat)
    requires c < channels && frames > 0 && |ring| == frames * channels && to * channels <= |s|
    requires from <= m < to <= from + frames && (m + 1) * channels <= |s|
    requires Window(ring, frames, k, s, channels, from, to, c, m)
    ensures m % frames * channels + c < |ring|
    ensures Window(ring[m % frames * channels + c := Weighted(k, s, channels, c, m)], frames, k, s, channels, from, to,
      c, m + 1)
  {
    hide Weighted;
    Cell(m % frames, c, channels, frames);
    var ring', next := ring[m % frames * channels + c := Weighted(k, s, channels, c, m)], m + 1;
    forall m': nat, c': nat | to - frames <= m' < to && c' < channels && Done(from, c, next, m', c')
      ensures InWindow(m', to, channels, |s|) && Holds(ring', frames, k, s, channels, m', c')
    {
      assert InWindow(m', to, channels, |s|);
      if m' != m || c' != c {
        assert Done(from, c, m, m', c');
        assert Holds(ring, frames, k, s, channels, m', c');
        CellsDiffer(m, c, m', c', channels, frames);
        HoldsWrite(ring, ring', frames, k, s, channels, m', c', m % frames * channels + c);
      }
    }
  }

  lemma HoldsWrite(ring: seq<real>, ring': seq<real>, frames: nat, k: Coeffs, s: seq<F64>, channels: nat, m: nat,
      c: nat, at: nat)
    requires c < channels && frames > 0 && |ring| == |ring'| == frames * channels && (m + 1) * channels <= |s|
    requires Holds(ring, frames, k, s, channels, m, c) && m % frames * channels + c != at
    requires forall i :: 0 <= i < |ring| && i != at ==> ring'[i] == ring[i]
    ensures Holds(ring', frames, k, s, channels, m, c)
  {
    hide Weighted;
    Cell(m % frames, c, channels, frames);
  }

  lemma CellsDiffer(m: nat, c: nat, m': nat, c': nat, channels: nat, frames: nat)
    requires c < channels && c' < channels && frames > 0 && (m != m' || c != c') && m - frames < m' < m + frames
    ensures m % frames * channels + c != m' % frames * channels + c'
  {
    if m % frames * channels + c == m' % frames * channels + c' {
      SlotsDiffer(m % frames, c, m' % frames, c', channels);
      if m < m' { ModDiffers(m, m', frames); } else if m' < m { ModDiffers(m', m, frames); }
    }
  }

  /** Before a chunk is filtered: the frames already there, of the longer stream. */
  lemma WindowEnter(ring: seq<real>, frames: nat, k: Coeffs, s: seq<F64>, all: seq<F64>, channels: nat, n: nat, to: nat)
    requires channels > 0 && frames > 0 && |ring| == frames * channels && n * channels <= |s| <= |all|
      && to * channels <= |all|
    requires all[..|s|] == s && n <= to && Window(ring, frames, k, s, channels, n, n, 0, n)
    ensures Window(ring, frames, k, all, channels, n, to, 0, n)
  {
    hide Weighted;
    forall m': nat, c': nat | to - frames <= m' < to && c' < channels && Done(n, 0, n, m', c')
      ensures InWindow(m', to, channels, |all|) && Holds(ring, frames, k, all, channels, m', c')
    {
      assert InWindow(m', to, channels, |all|);
      assert InWindow(m', n, channels, |s|) && Holds(ring, frames, k, s, channels, m', c');
      assert all == s + all[|s|..];
      WeightedExtends(k, s, all[|s|..], channels, c', m');
    }
  }

  /** One channel of the chunk is done. */
  lemma WindowNext(ring: seq<real>, frames: nat, k: Coeffs, s: seq<F64>, channels: nat, from: nat, to: nat, c: nat)
    requires channels > 0 && frames > 0 && |ring| == frames * channels && to * channels <= |s| && from <= to
    requires Window(ring, frames, k, s, channels, from, to, c, to)
    ensures Window(ring, frames, k, s, channels, from, to, c + 1, from)
  {
    hide Weighted, Holds;
    var next := c + 1;
    forall m': nat, c': nat | to - frames <= m' < to && c' < channels && Done(from, next, from, m', c')
      ensures InWindow(m', to, channels, |s|) && Holds(ring, frames, k, s, channels, m', c')
    {
      assert Done(from, c, to, m', c');
    }
  }

  /** All channels of the chunk are done. */
  lemma WindowLeave(ring: seq<real>, frames: nat, k: Coeffs, s: seq<F64>, channels: nat, from: nat, to: nat)
    requires channels > 0 && frames > 0 && |ring| == frames * channels && to * channels <= |s| && from <= to
    requires Window(ring, frames, k, s, channels, from, to, channels, from)
    ensures Window(ring, frames, k, s, channels, to, to, 0, to)
  {
    hide Weighted, Holds;
    forall m': nat, c': nat | to - frames <= m' < to && c' < channels && Done(to, 0, to, m', c')
      ensures InWindow(m', to, channels, |s|) && Holds(ring, frames, k, s, channels, m', c')
    {
      assert Done(from, channels, from, m', c');
    }
  }

  /** Sample `i`, `c` of a chunk, in the whole stream. */
  lemma ChunkSample(s: seq<F64>, src: seq<F64>, all: seq<F64>, channels: nat, n: nat, frames: nat, i: nat, c: nat)
    requires c < channels && i < frames && all == s + src && |s| == n * channels && |src| == frames * channels
    ensures (n + i) * channels <= (n + i + 1) * channels <= |all|
    ensures i * channels + c < |src| && Sample(all, channels, n + i, c) == Sanitize(src[i * channels + c])
  {
    Distribute(channels, n, frames);
    Distribute(channels, n, i);
    Cell(i, c, channels, frames);
    Cell(n + i, c, channels, n + frames);
  }

  /** Positions that differ by whole turns name the same slot, `d` frames back as well. */
  lemma SameSlot(w: nat, n: nat, turns: int, frames: nat, d: nat)
    requires frames > 0 && n == w + turns * frames && d <= frames && d <= n
    ensures (w + frames - d) % frames == (n - d) % frames
  {
    var q, r := (n - d) / frames, (n - d) % frames;
    assert n - d == q * frames + r;
    Distribute(frames, q, -turns);
    Distribute(frames, q - turns, 1);
    DivModUnique(w + frames - d, frames, q - turns + 1, r);
  }

  /** One sample moves the filter memory on and gives the weighted sample. */
  lemma FilterStep(k: Coeffs, s: seq<F64>, channels: nat, c: nat, m: nat)
    requires c < channels && m * channels <= (m + 1) * channels <= |s|
    ensures Weighted(k, s, channels, c, m) == Response(k, FilterAt(k, s, channels, c, m), Sample(s, channels, m, c))
    ensures FilterAt(k, s, channels, c, m + 1) == Push(k, FilterAt(k, s, channels, c, m), Sample(s, channels, m, c))
  {
    hide Push, Response, Sample;
  }

  /** The cell written for the `i`-th frame of a chunk is its frame's. */
  lemma RingCell(n: nat, i: nat, frames: nat, channels: nat)
    requires frames > 0 && n % frames + i < frames
    ensures n % frames * channels + i * channels == (n + i) % frames * channels
  {
    RingEnd(n, i, frames);
    Distribute(channels, n % frames, i);
  }

  /** Frames `frame..frame + n` of a call, and what has been fed after them. */
  lemma Slices(t: seq<F64>, channels: nat, frame: nat, n: nat, total: nat, s: seq<F64>)
    requires frame + n <= total && |t| == total * channels
    ensures frame * channels <= (frame + n) * channels <= |t|
    ensures |t[frame * channels..(frame + n) * channels]| == n * channels
    ensures s + t[..frame * channels] + t[frame * channels..(frame + n) * channels] == s + t[..(frame + n) * channels]
  {
    MulLe(frame, frame + n, channels, channels);
    MulLe(frame + n, total, channels, channels);
    Distribute(channels, frame, n);
  }

  // ---- configuration ---------------------------------------------------

  const MIN_RATE: nat := 16
  const MAX_RATE: nat := 2_822_400

  /** The 100 ms frame count. */
  function Hop(rate: nat): nat {
    (rate + 5) / 10
  }

  /** The ring's frames: 400 ms rounded up to whole hops, and at least four of them. */
  function RingFrames(rate: nat): (frames: nat)
    requires rate >= MIN_RATE
    ensures frames == if rate % 10 in {3, 4} then 5 * Hop(rate) else 4 * Hop(rate)
  {
    var hop := Hop(rate);
    var frames := rate * 400 / 1000;
    var rounded := if frames % hop != 0 then frames + hop - frames % hop else frames;
    RoundedUp(frames, hop);
    FourHops(rate);
    if rounded < 4 * hop then 4 * hop else rounded
  }

  /** A hop is rounded to the nearest frame; four are shorter than 400 ms only when it is rounded down enough. */
  lemma FourHops(rate: nat)
    ensures rate * 400 / 1000 > 4 * Hop(rate) <==> rate % 10 in {3, 4}
  {
    var k, r := rate / 10, rate % 10;
    assert rate == 10 * k + r;
    assert Hop(rate) == if r >= 5 then k + 1 else k;
    assert rate * 400 / 1000 == 4 * k + 4 * r / 10;
  }

  lemma RoundedUp(frames: nat, hop: nat)
    requires hop >= 2 && frames <= 4 * hop + 2
    ensures var rounded := if frames % hop != 0 then frames + hop - frames % hop else frames;
      if frames <= 4 * hop then rounded <= 4 * hop else rounded == 5 * hop
  {
    var q := frames / hop;
    assert frames == q * hop + frames % hop;
    FloorDiv(4, hop, frames);
    FloorDiv(5, hop, frames);
    FloorDiv(6, hop, frames);
    if q <= 3 {
      MulLe(q + 1, 4, hop, hop);
      Distribute(hop, q, 1);
    }
  }

  /** The oversampling factor, none from 192 kHz. */
  function Oversampling(rate: nat): Option<nat> {
    if rate < 96_000 then Some(4) else if rate < 192_000 then Some(2) else None
  }

  // ---- gating ----------------------------------------------------------

  function Sum(s: seq<real>): real {
    if s == [] then 0.0 else Sum(s[..|s| - 1]) + s[|s| - 1]
  }

  /** The values at or above `t`, in order. */
  function AtLeast(s: seq<real>, t: real): (r: seq<real>)
    ensures |r| <= |s|
    ensures forall x :: x in r <==> x in s && x >= t
  {
    if s == [] then [] else
      var rest, x := AtLeast(s[..|s| - 1], t), s[|s| - 1];
      assert s == s[..|s| - 1] + [x];
      if x >= t then rest + [x] else rest
  }

  function Mean(s: seq<real>): real
    requires s != []
  {
    Sum(s) / |s| as real
  }

  /** Ten LU below the mean energy. */
  function RelativeThreshold(blocks: seq<real>): real
    requires blocks != []
  {
    Mean(blocks) * 0.1
  }

  /** The mean of the energies at or above the relative threshold. */
  function GatedMeanOf(blocks: seq<real>): Option<real> {
    if blocks == [] then None else
      var kept := AtLeast(blocks, RelativeThreshold(blocks));
      if kept == [] then None else Some(Mean(kept))
  }

  /** The total of the differences from a level. */
  ghost function Excess(s: seq<real>, level: real): real {
    if s == [] then 0.0 else Excess(s[..|s| - 1], level) + (s[|s| - 1] - level)
  }

  lemma {:induction false} ExcessIsDifference(s: seq<real>, level: real)
    ensures Excess(s, level) == Sum(s) - |s| as real * level
  {
    if s != [] {
      ExcessIsDifference(s[..|s| - 1], level);
      OneMoreLevel(|s| - 1, level);
    }
  }

  /** Dropping values below `t` does not lower the excess over a level at or above `t`. */
  lemma {:induction false} DroppingRaises(s: seq<real>, t: real, level: real)
    requires t <= level
    ensures Excess(AtLeast(s, t), level) >= Excess(s, level)
  {
    if s != [] {
      var rest, x := s[..|s| - 1], s[|s| - 1];
      DroppingRaises(rest, t, level);
      if x >= t {
        var kept := AtLeast(rest, t);
        assert AtLeast(s, t) == kept + [x] && (kept + [x])[..|kept|] == kept;
      }
    }
  }

  lemma OneMoreLevel(n: nat, level: real)
    ensures (n + 1) as real * level == n as real * level + level
  {}

  lemma {:induction false} AllBelow(s: seq<real>, t: real)
    requires s != [] && forall i :: 0 <= i < |s| ==> s[i] < t
    ensures Sum(s) < |s| as real * t
  {
    var rest := s[..|s| - 1];
    assert |s| as real * t == |rest| as real * t + t;
    if rest != [] { AllBelow(rest, t); }
  }

  lemma {:induction false} SumNonNegative(s: seq<real>)
    requires forall i :: 0 <= i < |s| ==> s[i] >= 0.0
    ensures Sum(s) >= 0.0
  {
    if s != [] { SumNonNegative(s[..|s| - 1]); }
  }

  lemma MeanBound(sum: real, count: nat, level: real)
    requires count > 0
    ensures sum / count as real >= level <==> sum >= count as real * level
    ensures sum / count as real * count as real == sum
  {}

  lemma MeanLevels(s: seq<real>, level: real)
    requires s != []
    ensures Excess(s, Mean(s)) == 0.0
    ensures Mean(s) >= level <==> Excess(s, level) >= 0.0
  {
    hide Excess, Sum;
    ExcessIsDifference(s, Mean(s));
    ExcessIsDifference(s, level);
    MeanBound(Sum(s), |s|, level);
  }

  /** The relative gate keeps something, and never lowers the mean. */
  lemma GatedMeanAtLeastMean(blocks: seq<real>)
    requires blocks != [] && forall i :: 0 <= i < |blocks| ==> blocks[i] >= 0.0
    ensures GatedMeanOf(blocks).Some? && GatedMeanOf(blocks).value >= Mean(blocks)
  {
    hide Mean, AtLeast, Excess, RelativeThreshold;
    var t := RelativeThreshold(blocks);
    KeepsSome(blocks);
    DroppingRaises(blocks, t, Mean(blocks));
    MeanLevels(blocks, Mean(blocks));
    MeanLevels(AtLeast(blocks, t), Mean(blocks));
  }

  lemma KeepsSome(blocks: seq<real>)
    requires blocks != [] && forall i :: 0 <= i < |blocks| ==> blocks[i] >= 0.0
    ensures RelativeThreshold(blocks) <= Mean(blocks) && AtLeast(blocks, RelativeThreshold(blocks)) != []
  {
    hide Mean, AtLeast, Excess;
    MeanNonNegative(blocks);
    var t := RelativeThreshold(blocks);
    if forall i :: 0 <= i < |blocks| ==> blocks[i] < t {
      BelowMean(blocks, t);
    } else {
      var i :| 0 <= i < |blocks| && blocks[i] >= t;
      assert blocks[i] in AtLeast(blocks, t);
    }
  }

  lemma MeanNonNegative(s: seq<real>)
    requires s != [] && forall i :: 0 <= i < |s| ==> s[i] >= 0.0
    ensures Mean(s) >= 0.0
  {
    SumNonNegative(s);
    MeanBound(Sum(s), |s|, 0.0);
  }

  /** Values all below a level have their mean below it. */
  lemma BelowMean(s: seq<real>, t: real)
    requires s != [] && forall i :: 0 <= i < |s| ==> s[i] < t
    ensures Mean(s) < t
  {
    AllBelow(s, t);
    MeanBound(Sum(s), |s|, t);
  }

  // ---- the meter -------------------------------------------------------

  function Sanitized(s: seq<F64>): (r: seq<real>)
    ensures |r| == |s| && forall i :: 0 <= i < |s| ==> r[i] == Sanitize(s[i])
  {
    seq(|s|, i requires 0 <= i < |s| => Sanitize(s[i]))
  }

  /** All filters but channel `c`'s are the same. */
  ghost predicate Others(s: seq<Filter>, t: seq<Filter>, c: nat) {
    |s| == |t| && forall b :: 0 <= b < |s| && b != c ==> s[b] == t[b]
  }

  lemma SelfOthers(s: seq<Filter>, c: nat)
    ensures Others(s, s, c)
  {}

  lemma OthersStep(s: seq<Filter>, t: seq<Filter>, u: seq<Filter>, c: nat)
    requires Others(s, t, c) && Others(t, u, c)
    ensures Others(s, u, c)
  {}

  class LoudnessMeter {
    const channels: nat
    const samplesIn100ms: nat
    const framesPerBlock: nat
    const coeffs: Coeffs
    const absThreshold: real
    ghost const ringFrames: nat
    const ring: array<real>
    const interp: I.Interpolator?
    var ringIndex: nat
    var state: seq<Filter>
    var neededFrames: nat
    var blocks: seq<real>
    var samplePeak: real
    var interpPeak: real
    var resamplerInput: seq<real>
    /** Every sample fed so far. */
    ghost var fed: seq<F64>

    ghost function Repr(): set<object> {
      {this, ring} + if interp != null then {interp, interp.z} else {}
    }

    ghost function Count(): nat
      requires channels > 0
      reads `fed
    {
      |fed| / channels
    }

    ghost predicate Config()
      reads `fed, `resamplerInput
    {
      && 1 <= channels <= 2 && samplesIn100ms > 0 && framesPerBlock == 4 * samplesIn100ms
      && ring.Length == ringFrames * channels && ringFrames % samplesIn100ms == 0 && ringFrames >= framesPerBlock
      && (interp != null ==>
        interp.channels == channels && interp.z != ring && |resamplerInput| == framesPerBlock * channels)
      && |fed| == Count() * channels
    }

    /** The running true peak is that of stream `s` of `n` frames. */
    ghost predicate TruePeakOf(s: seq<F64>, n: nat)
      requires Config()
      reads `fed, `resamplerInput, `interpPeak, Repr() - {this}
    {
      && (interp == null ==> interpPeak == 0.0)
      && (interp != null ==>
        interp.Valid() && interp.fed == Sanitized(s) && |s| == n * channels &&
        interpPeak == I.Peak(interp.fed, channels, interp.filters, interp.narrow, n))
    }

    /** The filters and the ring have taken exactly the `n` frames of stream `s`. */
    ghost predicate FilteredOf(s: seq<F64>, n: nat)
      requires Config() && |s| == n * channels
      reads `fed, `resamplerInput, `state, ring
    {
      && |state| == channels && (forall c :: 0 <= c < channels ==> state[c] == FilterAt(coeffs, s, channels, c, n))
      && Window(ring[..], ringFrames, coeffs, s, channels, n, n, 0, n)
    }

    /** The block clock and the gated energies. */
    ghost predicate Clocked()
      requires Config()
      reads this
    {
      && ringIndex == Count() % ringFrames * channels
      && neededFrames == Needed(Count(), samplesIn100ms)
      && blocks == Gated(coeffs, fed, channels, samplesIn100ms, absThreshold, BlockCount(Count(), samplesIn100ms))
    }

    ghost predicate Valid()
      reads this, Repr()
    {
      Config() && samplePeak == MaxAbs(fed) && TruePeakOf(fed, Count()) && FilteredOf(fed, Count()) && Clocked()
    }

    /** The running sample peak over a chunk. */
    method MeasureSamplePeak(src: seq<F64>, frames: nat)
      requires channels > 0 && |src| == frames * channels && samplePeak == MaxAbs(fed)
      modifies `samplePeak
      ensures samplePeak == MaxAbs(fed + src)
    {
      hide MaxAbs;
      assert fed + src[..0] == fed;
      for i := 0 to frames
        invariant i * channels <= |src| && samplePeak == MaxAbs(fed + src[..i * channels])
      {
        var base := i * channels;
        Cell(i, 0, channels, frames);
        for c := 0 to channels
          invariant base + c <= |src| && samplePeak == MaxAbs(fed + src[..base + c])
        {
          Cell(i, c, channels, frames);
          assert fed + src[..base + c + 1] == fed + src[..base + c] + [src[base + c]];
          MaxAbsSnoc(fed + src[..base + c], src[base + c]);
          var value := Abs(Sanitize(src[base + c]));
          if value > samplePeak {
            samplePeak := value;
          }
        }
        Distribute(channels, i, 1);
      }
      assert src[..|src|] == src;
    }

    /** Sanitizes a chunk into the scratch input. */
    method FillResampler(src: seq<F64>, frames: nat)
      requires channels > 0 && |src| == frames * channels <= |resamplerInput|
      modifies `resamplerInput
      ensures |resamplerInput| == old(|resamplerInput|)
      ensures forall j :: 0 <= j < |src| ==> resamplerInput[j] == Sanitize(src[j])
    {
      for i := 0 to frames
        invariant |resamplerInput| == old(|resamplerInput|) && i * channels <= |src|
        invariant forall j :: 0 <= j < i * channels ==> resamplerInput[j] == Sanitize(src[j])
      {
        var base := i * channels;
        Cell(i, 0, channels, frames);
        Distribute(channels, i, 1);
        for c := 0 to channels
          invariant |resamplerInput| == old(|resamplerInput|) && base + c <= |src|
          invariant forall j :: 0 <= j < base + c ==> resamplerInput[j] == Sanitize(src[j])
        {
          Cell(i, c, channels, frames);
          resamplerInput := resamplerInput[base + c := Sanitize(src[base + c])];
        }
      }
    }

    /** The running true peak over a chunk. */
    method MeasureTruePeak(src: seq<F64>, frames: nat)
      requires Config() && TruePeakOf(fed, Count()) && interp != null && |src| == frames * channels
        && frames <= framesPerBlock
      modifies this`resamplerInput, this`interpPeak, interp, interp.z
      ensures |resamplerInput| == old(|resamplerInput|)
      ensures TruePeakOf(fed + src, Count() + frames)
    {
      MulLe(frames, framesPerBlock, channels, channels);
      FillResampler(src, frames);
      TakePeak(src, frames);
    }

    method TakePeak(src: seq<F64>, frames: nat)
      requires Config() && TruePeakOf(fed, Count()) && interp != null && |src| == frames * channels <= |resamplerInput|
      requires forall j :: 0 <= j < |src| ==> resamplerInput[j] == Sanitize(src[j])
      modifies this`interpPeak, interp, interp.z
      ensures TruePeakOf(fed + src, Count() + frames)
    {
      hide MaxAbs, I.Peak, Sanitize;
      CountExtends(Sanitized(fed), Sanitized(src), channels, Count(), frames);
      assert resamplerInput[..|src|] == Sanitized(src);
      assert Sanitized(fed) + Sanitized(src) == Sanitized(fed + src);
      DivModUnique(|src|, channels, frames, 0);
      var peak := interp.MaxAbs(resamplerInput[..frames * channels]);
      if peak > interpPeak {
        interpPeak := peak;
      }
    }

    /** The ring's next cell is the one of frame `n`, and the frames up to `to` fit before its end. */
    ghost predicate Placed(n: nat, to: nat)
      requires ringFrames > 0
      reads `ringIndex
    {
      ringIndex == n % ringFrames * channels && n <= to && n % ringFrames + (to - n) <= ringFrames
    }

    /** Filters one sample into the ring; `all` is the stream with the chunk, `n` the frames before it. */
    method FilterSample(x: F64, i: nat, c: nat, ghost all: seq<F64>, ghost n: nat, ghost to: nat)
      requires ringFrames > 0 && c < channels == |state| && ring.Length == ringFrames * channels
      requires Placed(n, to) && i < to - n && to * channels <= |all|
      requires (n + i) * channels <= (n + i + 1) * channels <= |all| && Sample(all, channels, n + i, c) == Sanitize(x)
      requires state[c] == FilterAt(coeffs, all, channels, c, n + i)
      requires Window(ring[..], ringFrames, coeffs, all, channels, n, to, c, n + i)
      modifies `state, ring
      ensures |state| == channels && state[c] == FilterAt(coeffs, all, channels, c, n + i + 1)
      ensures Others(old(state), state, c)
      ensures Window(ring[..], ringFrames, coeffs, all, channels, n, to, c, n + i + 1)
    {
      hide Window, Response, Push, Sample, Sanitize, FilterAt, Weighted;
      FilterStep(coeffs, all, channels, c, n + i);
      RingCell(n, i, ringFrames, channels);
      WindowWrite(ring[..], ringFrames, coeffs, all, channels, n, to, c, n + i);
      var y := Response(coeffs, state[c], Sanitize(x));
      ghost var before := ring[..];
      ring[ringIndex + i * channels + c] := y;
      assert ring[..] == before[(n + i) % ringFrames * channels + c := Weighted(coeffs, all, channels, c, n + i)];
      state := state[c := Push(coeffs, state[c], Sanitize(x))];
    }

    /** Filters one channel of a chunk. */
    method FilterChannel(src: seq<F64>, frames: nat, c: nat, ghost all: seq<F64>, ghost n: nat)
      requires ringFrames > 0 && c < channels == |state| && ring.Length == ringFrames * channels
      requires Placed(n, n + frames)
      requires |src| == frames * channels && all == fed + src && |fed| == n * channels
        && (n + frames) * channels == |all|
      requires state[c] == FilterAt(coeffs, all, channels, c, n)
      requires Window(ring[..], ringFrames, coeffs, all, channels, n, n + frames, c, n)
      modifies `state, ring
      ensures |state| == channels && state[c] == FilterAt(coeffs, all, channels, c, n + frames)
      ensures Others(old(state), state, c)
      ensures Window(ring[..], ringFrames, coeffs, all, channels, n, n + frames, c, n + frames)
    {
      SelfOthers(state, c);
      hide *;
      for i := 0 to frames
        invariant |state| == channels && (n + i) * channels <= |all|
          && state[c] == FilterAt(coeffs, all, channels, c, n + i)
        invariant Others(old(state), state, c)
        invariant Window(ring[..], ringFrames, coeffs, all, channels, n, n + frames, c, n + i)
      {
        ChunkSample(fed, src, all, channels, n, frames, i, c);
        ghost var before := state;
        FilterSample(src[i * channels + c], i, c, all, n, n + frames);
        OthersStep(old(state), before, state, c);
      }
    }

    /** The K-weighted chunk, channel by channel, into the ring. */
    method FilterChannels(src: seq<F64>, frames: nat)
      requires Config() && FilteredOf(fed, Count()) && ringIndex == Count() % ringFrames * channels
      requires Count() % ringFrames + frames <= ringFrames && |src| == frames * channels
      modifies `state, ring
      ensures (Count() + frames) * channels == |fed + src| && FilteredOf(fed + src, Count() + frames)
    {
      hide Window, Push, FilterAt;
      ghost var n, all := Count(), fed + src;
      Distribute(channels, n, frames);
      FiltersEnter(fed, src, n);
      WindowEnter(ring[..], ringFrames, coeffs, fed, all, channels, n, n + frames);
      for c := 0 to channels
        invariant |state| == channels
        invariant forall b :: 0 <= b < c ==> state[b] == FilterAt(coeffs, all, channels, b, n + frames)
        invariant forall b :: c <= b < channels ==> state[b] == FilterAt(coeffs, all, channels, b, n)
        invariant Window(ring[..], ringFrames, coeffs, all, channels, n, n + frames, c, n)
      {
        FilterChannel(src, frames, c, all, n);
        WindowNext(ring[..], ringFrames, coeffs, all, channels, n, n + frames, c);
      }
      WindowLeave(ring[..], ringFrames, coeffs, all, channels, n, n + frames);
    }

    lemma FiltersEnter(s: seq<F64>, src: seq<F64>, n: nat)
      requires n * channels <= |s|
      ensures forall c :: 0 <= c < channels ==>
        FilterAt(coeffs, s + src, channels, c, n) == FilterAt(coeffs, s, channels, c, n)
    {
      forall c | 0 <= c < channels ensures FilterAt(coeffs, s + src, channels, c, n) ==
        FilterAt(coeffs, s, channels, c, n) {
        FilterExtends(coeffs, s, src, channels, c, n);
      }
    }

    /** Takes a chunk into both peaks. */
    method MeasurePeaks(src: seq<F64>, frames: nat)
      requires Config() && samplePeak == MaxAbs(fed) && TruePeakOf(fed, Count()) && |src| == frames * channels
      requires frames <= framesPerBlock
      modifies this`samplePeak, this`interpPeak, this`resamplerInput, Repr() - {this, ring}
      ensures Config() && samplePeak == MaxAbs(fed + src) && TruePeakOf(fed + src, Count() + frames)
    {
      hide MaxAbs;
      MeasureSamplePeak(src, frames);
      if interp != null {
        MeasureTruePeak(src, frames);
      }
    }

    /** Takes a chunk into peaks, filters and ring. */
    method FilterChunk(src: seq<F64>, frames: nat)
      requires Config() && samplePeak == MaxAbs(fed) && TruePeakOf(fed, Count()) && FilteredOf(fed, Count())
      requires ringIndex == Count() % ringFrames * channels
      requires Count() % ringFrames + frames <= ringFrames && |src| == frames * channels && frames <= framesPerBlock
      modifies this`samplePeak, this`interpPeak, this`resamplerInput, this`state, this`fed, Repr() - {this}
      ensures fed == old(fed) + src && Config() && Count() == old(Count()) + frames
      ensures samplePeak == MaxAbs(fed) && TruePeakOf(fed, Count()) && FilteredOf(fed, Count())
    {
      hide Window, FilterAt, MaxAbs;
      CountExtends(fed, src, channels, Count(), frames);
      MeasurePeaks(src, frames);
      FilterChannels(src, frames);
      fed := fed + src;
    }

    /** The write position names the slot of frame `n`, perhaps one turn on at the ring's end. */
    ghost predicate AtFrame(n: nat)
      requires ringFrames > 0
      reads this
    {
      ringIndex == n % ringFrames * channels || (n % ringFrames == 0 && ringIndex == ringFrames * channels)
    }

    lemma WriteFrame(n: nat, d: nat)
      requires channels > 0 && ringFrames > 0 && AtFrame(n) && d <= ringFrames && d <= n
      ensures (ringIndex / channels + ringFrames - d) % ringFrames == (n - d) % ringFrames
    {
      var q := n / ringFrames;
      assert n == q * ringFrames + n % ringFrames;
      if ringIndex == n % ringFrames * channels {
        DivModUnique(ringIndex, channels, n % ringFrames, 0);
        SameSlot(n % ringFrames, n, q, ringFrames, d);
      } else {
        DivModUnique(ringIndex, channels, ringFrames, 0);
        Distribute(ringFrames, q, -1);
        SameSlot(ringFrames, n, q - 1, ringFrames, d);
      }
    }

    /** The energy of one channel's most recent 400 ms. */
    method ChannelSum(c: nat, ghost n: nat) returns (sum: real)
      requires Config() && n == Count() && FilteredOf(fed, n) && AtFrame(n) && n >= framesPerBlock && c < channels
      ensures sum == ChannelEnergy(coeffs, fed, channels, c, n - framesPerBlock, framesPerBlock)
    {
      hide Weighted, FilterAt;
      var frames := ring.Length / channels;
      var writeFrame := ringIndex / channels;
      DivModUnique(ring.Length, channels, ringFrames, 0);
      sum := 0.0;
      for k := 0 to framesPerBlock
        invariant (n - framesPerBlock + k) * channels <= |fed|
        invariant sum == ChannelEnergy(coeffs, fed, channels, c, n - framesPerBlock, k)
      {
        var frame := (writeFrame + frames - framesPerBlock + k) % frames;
        ghost var m := n - framesPerBlock + k;
        WriteFrame(n, framesPerBlock - k);
        Cell(frame, c, channels, frames);
        assert Done(n, 0, n, m, c) && InWindow(m, n, channels, |fed|)
          && Holds(ring[..], ringFrames, coeffs, fed, channels, m, c);
        var sample := ring[frame * channels + c];
        sum := sum + sample * sample;
      }
    }

    /** Gates the energy of the most recent 400 ms. */
    method CalcGatingBlock(ghost j: nat)
      requires Config() && FilteredOf(fed, Count()) && AtFrame(Count())
      requires j * samplesIn100ms + framesPerBlock == Count()
      modifies `blocks
      ensures (j * samplesIn100ms + 4 * samplesIn100ms) * channels <= |fed|
      ensures var energy := BlockEnergy(coeffs, fed, channels, samplesIn100ms, j);
        blocks == old(blocks) + if energy >= absThreshold then [energy] else []
    {
      hide ChannelEnergy, FilterAt, Window;
      ghost var n := Count();
      ghost var from := j * samplesIn100ms;
      assert n - framesPerBlock == from;
      var sum := 0.0;
      for c := 0 to channels
        invariant blocks == old(blocks) && sum == FramesEnergy(coeffs, fed, channels, c, from, framesPerBlock)
      {
        var channelSum := ChannelSum(c, n);
        sum := sum + channelSum;
      }
      sum := sum / framesPerBlock as real;
      assert sum == BlockEnergy(coeffs, fed, channels, samplesIn100ms, j);
      if sum >= absThreshold {
        blocks := blocks + [sum];
      } else {
        assert old(blocks) + [] == blocks;
      }
    }

    lemma Fits()
      requires Config() && Clocked()
      ensures Count() % ringFrames + neededFrames <= ringFrames && neededFrames <= framesPerBlock && neededFrames > 0
    {
      ChunkFits(Count(), samplesIn100ms, ringFrames);
    }

    /** A chunk that completes a block. */
    method TakeBlock(src: seq<F64>)
      requires Valid() && |src| == neededFrames * channels
      modifies Repr()
      ensures Valid() && fed == old(fed) + src
    {
      hide Window, FilterAt, MaxAbs, BlockEnergy, TruePeakOf, FilteredOf, Gated, BlockCount, Needed;
      ghost var n, s, hop := Count(), fed, samplesIn100ms;
      ghost var j := BlockCount(n, hop);
      Fits();
      AtHop(n, hop);
      RingEnd(n, neededFrames, ringFrames);
      Distribute(channels, n % ringFrames, neededFrames);
      var frames := neededFrames;
      FilterChunk(src, frames);
      ringIndex := ringIndex + frames * channels;
      CalcGatingBlock(j);
      GatedSnoc(coeffs, s, src, channels, n, frames, hop, absThreshold, j);
      neededFrames := samplesIn100ms;
      if n % ringFrames + frames < ringFrames { Cell(n % ringFrames + frames, 0, channels, ringFrames); }
      if ringIndex == ring.Length {
        ringIndex := 0;
      }
      assert Clocked();
    }

    /** A chunk that ends before the next boundary. */
    method TakeRest(src: seq<F64>, frames: nat)
      requires Valid() && |src| == frames * channels && frames < neededFrames
      modifies Repr()
      ensures Valid() && fed == old(fed) + src
    {
      hide Window, FilterAt, MaxAbs, BlockEnergy, TruePeakOf, FilteredOf, Gated, BlockCount, Needed;
      ghost var n, s, hop := Count(), fed, samplesIn100ms;
      Fits();
      WithinHop(n, frames, hop);
      RingEnd(n, frames, ringFrames);
      Distribute(channels, n % ringFrames, frames);
      GatedSame(coeffs, s, src, channels, n, frames, hop, absThreshold, BlockCount(n, hop));
      FilterChunk(src, frames);
      ringIndex := ringIndex + frames * channels;
      neededFrames := neededFrames - frames;
      assert Clocked();
    }

    /** Feeds interleaved samples; a misaligned call changes nothing. */
    method Process(interleaved: seq<F64>) returns (ok: bool)
      requires Valid()
      modifies Repr()
      ensures Valid()
      ensures ok <==> |interleaved| % channels == 0
      ensures fed == if ok then old(fed) + interleaved else old(fed)
    {
      hide Window, FilterAt, MaxAbs, TruePeakOf, FilteredOf, Gated, Clocked;
      if |interleaved| % channels != 0 {
        return false;
      }
      var remaining := |interleaved| / channels;
      ghost var total := remaining;
      var frame := 0;
      assert old(fed) + interleaved[..0] == old(fed);
      while remaining > 0
        invariant Valid() && frame + remaining == total && frame * channels <= |interleaved|
        invariant fed == old(fed) + interleaved[..frame * channels]
        decreases remaining
      {
        NeededPositive();
        Distribute(channels, frame, remaining);
        if remaining >= neededFrames {
          var n := neededFrames;
          Slices(interleaved, channels, frame, n, total, old(fed));
          TakeBlock(interleaved[frame * channels..(frame + n) * channels]);
          frame := frame + n;
          remaining := remaining - n;
        } else {
          Slices(interleaved, channels, frame, remaining, total, old(fed));
          TakeRest(interleaved[frame * channels..(frame + remaining) * channels], remaining);
          frame := frame + remaining;
          remaining := 0;
        }
      }
      assert interleaved[..|interleaved|] == interleaved;
      return true;
    }

    lemma NeededPositive()
      requires Config() && Clocked()
      ensures neededFrames > 0
    {}

    /** Nothing fed and everything silent is a valid start. */
    lemma SilentStart()
      requires Config() && fed == [] && samplePeak == 0.0 && interpPeak == 0.0
        && (interp != null ==> interp.Valid() && interp.fed == [])
      requires |state| == channels && forall c :: 0 <= c < channels ==> state[c] == SILENT
      requires ringIndex == 0 && neededFrames == 4 * samplesIn100ms && blocks == []
      ensures Valid()
    {
      assert Count() == 0;
    }

    constructor (channels: nat, rate: nat, coeffs: Coeffs, threshold: real, tap: nat -> real, narrow: real -> real)
      requires 1 <= channels <= 2 && MIN_RATE <= rate <= MAX_RATE
      ensures Valid() && fed == [] && fresh(Repr())
      ensures this.channels == channels && samplesIn100ms == Hop(rate) && this.coeffs == coeffs
        && absThreshold == threshold
      ensures (interp == null) == Oversampling(rate).None?
      ensures interp != null ==>
        interp.filters == I.Phases(tap, Oversampling(rate).value, I.TAPS) && interp.narrow == narrow
    {
      hide TruePeakOf, FilteredOf, Clocked;
      this.channels, this.coeffs, absThreshold := channels, coeffs, threshold;
      samplesIn100ms, framesPerBlock, ringFrames := Hop(rate), Hop(rate) * 4, RingFrames(rate);
      var ringData := new real[RingFrames(rate) * channels](_ => 0.0);
      ring := ringData;
      ringIndex, state, neededFrames, blocks := 0, seq(channels, _ => SILENT), Hop(rate) * 4, [];
      samplePeak, interpPeak, fed := 0.0, 0.0, [];
      var i: I.Interpolator? := null;
      var input := [];
      if Oversampling(rate).Some? {
        i := new I.Interpolator(tap, Oversampling(rate).value, channels, narrow);
        input := seq(Hop(rate) * 4 * channels, _ => 0.0);
      }
      interp, resamplerInput := i, input;
      new;
      DivModUnique(RingFrames(rate), Hop(rate), if RingFrames(rate) == 4 * Hop(rate) then 4 else 5, 0);
      SilentStart();
    }

    /** The ungated peak: the larger of the sample and interpolated maxima. */
    method PeakLinear() returns (r: real)
      requires Valid()
      ensures interp == null ==> r == MaxAbs(fed)
      ensures interp != null ==> |interp.fed| == Count() * channels && interp.fed == Sanitized(fed)
      ensures interp != null ==>
        r == I.Max(MaxAbs(fed), I.Peak(interp.fed, channels, interp.filters, interp.narrow, Count()))
    {
      MaxAbsIsMax(fed);
      r := I.Max(samplePeak, interpPeak);
    }

    /** The gated mean energy; none when every block was silent. */
    method GatedMean() returns (r: Option<real>)
      ensures r == GatedMeanOf(blocks)
    {
      if |blocks| == 0 {
        return None;
      }
      var sum := 0.0;
      for i := 0 to |blocks|
        invariant sum == Sum(blocks[..i])
      {
        assert blocks[..i + 1][..i] == blocks[..i];
        sum := sum + blocks[i];
      }
      assert blocks[..|blocks|] == blocks;
      var relative := sum / |blocks| as real * 0.1;
      var included, energySum := 0, 0.0;
      for i := 0 to |blocks|
        invariant included == |AtLeast(blocks[..i], relative)| && energySum == Sum(AtLeast(blocks[..i], relative))
      {
        ghost var kept := AtLeast(blocks[..i], relative);
        assert blocks[..i + 1][..i] == blocks[..i];
        if blocks[i] >= relative {
          assert (kept + [blocks[i]])[..|kept|] == kept;
          included := included + 1;
          energySum := energySum + blocks[i];
        }
      }
      if included == 0 {
        return None;
      }
      r := Some(energySum / included as real);
    }
  }

  /** A new meter, unless the stream's parameters are refused. */
  method NewMeter(channels: nat, rate: nat, coeffs: Coeffs, threshold: real, tap: nat -> real, narrow: real -> real)
    returns (r: Option<LoudnessMeter>)
    ensures r.Some? <==> 1 <= channels <= 2 && MIN_RATE <= rate <= MAX_RATE
    ensures r.Some? ==> r.value.Valid() && r.value.fed == [] && fresh(r.value.Repr())
  {
    if channels == 0 || channels > 2 {
      return None;
    }
    if rate < MIN_RATE || rate > MAX_RATE {
      return None;
    }
    var meter := new LoudnessMeter(channels, rate, coeffs, threshold, tap, narrow);
    return Some(meter);
  }

  // ---- results ---------------------------------------------------------

  /** Gated energies are at or above the threshold. */
  lemma {:induction false} GatedAbove(k: Coeffs, s: seq<F64>, channels: nat, hop: nat, threshold: real, j: nat)
    requires hop > 0 && channels > 0 && j <= BlockCount(|s| / channels, hop)
    ensures forall i :: 0 <= i < |Gated(k, s, channels, hop, threshold, j)| ==>
      Gated(k, s, channels, hop, threshold, j)[i] >= threshold
    decreases j
  {
    hide BlockEnergy, BlockCount;
    if j > 0 {
      BlockFits(|s|, channels, hop, j - 1);
      GatedAbove(k, s, channels, hop, threshold, j - 1);
    }
  }

  /** The largest magnitude of a stream: of its samples, and of the interpolated ones when it is oversampled. */
  ghost function TruePeak(s: seq<F64>, channels: nat, rate: nat, tap: nat -> real, narrow: real -> real): real
    requires channels > 0
  {
    var factor := Oversampling(rate);
    if factor.None? then MaxAbs(s) else
      WholeFrames(|s|, channels);
      I.PhasesFit(tap, factor.value);
      I.Max(MaxAbs(s), I.Peak(Sanitized(s), channels, I.Phases(tap, factor.value, I.TAPS), narrow, |s| / channels))
  }

  lemma WholeFrames(n: nat, channels: nat)
    requires channels > 0
    ensures n / channels * channels <= n
  {}

  /**
   However a stream is cut into calls, the gated energies, their gated mean and the true peak are
   those of the whole stream.
   */
  method Measure(chunks: seq<seq<F64>>, channels: nat, rate: nat, coeffs: Coeffs, threshold: real, tap: nat -> real,
      narrow: real -> real)
    returns (blocks: seq<real>, mean: Option<real>, peak: real)
    requires 1 <= channels <= 2 && MIN_RATE <= rate <= MAX_RATE
    requires forall i :: 0 <= i < |chunks| ==> Aligned(chunks[i], channels)
    ensures var s := Flatten(chunks);
      && blocks == Gated(coeffs, s, channels, Hop(rate), threshold, BlockCount(|s| / channels, Hop(rate)))
      && mean == GatedMeanOf(blocks)
      && peak == TruePeak(s, channels, rate, tap, narrow)
  {
    hide MaxAbs, I.Peak, I.Phases;
    var meter := new LoudnessMeter(channels, rate, coeffs, threshold, tap, narrow);
    for i := 0 to |chunks|
      invariant meter.Valid() && fresh(meter.Repr())
      invariant meter.channels == channels && meter.samplesIn100ms == Hop(rate)
      invariant meter.coeffs == coeffs && meter.absThreshold == threshold
      invariant meter.fed == Flatten(chunks[..i])
    {
      assert chunks[..i + 1][..i] == chunks[..i];
      var ok := meter.Process(chunks[i]);
    }
    assert chunks[..|chunks|] == chunks;
    blocks := meter.blocks;
    mean := meter.GatedMean();
    peak := meter.PeakLinear();
  }
}
