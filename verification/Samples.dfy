/**
 Interleaved samples: sanitizing, magnitudes, and the frames of a flat stream. A call whose length
 is not a whole number of frames is refused by the analysers, so the streams they see are always
 made of whole frames. Sanitizing reads NaN as silence and an infinity as full scale, after which a
 sample is an exact real.
 */
module Samples {
  import opened Arith
  import opened Floats

  /** NaN counts as silence, infinities as full scale. */
  function Sanitize(x: F64): real {
    match x
    case NaN => 0.0
    case PosInf => 1.0
    case NegInf => -1.0
    case Fin(r) => r
  }

  function Abs(x: real): (r: real)
    ensures r >= 0.0 && (r == x || r == -x)
  {
    if x < 0.0 then -x else x
  }

  /** The largest magnitude, zero when there is none. */
  function MaxAbs(s: seq<F64>): (r: real) {
    if s == [] then 0.0 else
      var rest, last := MaxAbs(s[..|s| - 1]), Abs(Sanitize(s[|s| - 1]));
      if last > rest then last else rest
  }

  lemma {:induction false} MaxAbsIsMax(s: seq<F64>)
    ensures forall k :: 0 <= k < |s| ==> Abs(Sanitize(s[k])) <= MaxAbs(s)
    ensures s != [] ==> exists k :: 0 <= k < |s| && Abs(Sanitize(s[k])) == MaxAbs(s)
    ensures s == [] ==> MaxAbs(s) == 0.0
  {
    if s != [] {
      var n := |s| - 1;
      MaxAbsIsMax(s[..n]);
      assert forall k :: 0 <= k < n ==> s[k] == s[..n][k];
    }
  }

  lemma MaxAbsSnoc(s: seq<F64>, x: F64)
    ensures MaxAbs(s + [x]) == if Abs(Sanitize(x)) > MaxAbs(s) then Abs(Sanitize(x)) else MaxAbs(s)
  {
    assert (s + [x])[..|s|] == s;
  }

  // ---- frames ----------------------------------------------------------

  /** A whole number of frames. */
  predicate Aligned(s: seq<F64>, channels: nat)
    requires channels > 0
  {
    |s| % channels == 0
  }

  function Frames(s: seq<F64>, channels: nat): nat
    requires channels > 0
  {
    |s| / channels
  }

  lemma FrameBounds(len: nat, channels: nat, from: nat, to: nat)
    requires channels > 0 && from <= to <= len / channels
    ensures 0 <= from * channels <= to * channels <= len
    ensures to * channels - from * channels == (to - from) * channels
  {
    assert (to - from) * channels >= 0;
    assert (len / channels - to) * channels >= 0;
  }

  lemma FloorDiv(b: nat, d: nat, x: nat)
    requires d > 0
    ensures b <= x / d <==> b * d <= x
  {
    if b <= x / d {
      assert (x / d - b) * d >= 0;
    } else {
      assert (b - x / d - 1) * d >= 0;
    }
  }

  lemma FramesExtend(s: seq<F64>, t: seq<F64>, channels: nat)
    requires channels > 0 && Aligned(s, channels) && Aligned(t, channels)
    ensures Aligned(s + t, channels) && Frames(s + t, channels) == Frames(s, channels) + Frames(t, channels)
  {
    AlignedSum(|s|, |t|, channels);
  }

  lemma AlignedSum(x: nat, y: nat, d: nat)
    requires d > 0 && x % d == 0 && y % d == 0
    ensures (x + y) % d == 0 && (x + y) / d == x / d + y / d
  {
    var a, b := x / d, y / d;
    assert x == a * d && y == b * d;
    Distribute(d, a, b);
    DivModUnique(x + y, d, a + b, 0);
  }

  lemma Cell(m: nat, c: nat, channels: nat, frames: nat)
    requires c < channels && m < frames
    ensures m * channels + c < (m + 1) * channels <= frames * channels
  {
    Distribute(channels, m, 1);
    MulLe(m + 1, frames, channels, channels);
  }

  lemma EarlierFrame(m: int, d: nat, channels: nat)
    ensures (m - d + 1) * channels <= (m + 1) * channels
  {
    assert d * channels >= 0;
    assert (m - d + 1) * channels == (m + 1) * channels - d * channels;
  }

  lemma CountExtends<T>(s: seq<T>, t: seq<T>, channels: nat, n: nat, k: nat)
    requires channels > 0 && |s| == n * channels && |t| == k * channels
    ensures |s + t| == (n + k) * channels && |s + t| / channels == n + k
  {
    Distribute(channels, n, k);
    DivModUnique(|s + t|, channels, n + k, 0);
  }

  /** The calls of a stream, put together. */
  function Flatten(chunks: seq<seq<F64>>): seq<F64> {
    if chunks == [] then [] else Flatten(chunks[..|chunks| - 1]) + chunks[|chunks| - 1]
  }

  // ---- circular buffers ------------------------------------------------

  lemma SlotsDiffer(c: nat, i: nat, c': nat, i': nat, delay: nat)
    requires i < delay && i' < delay && c * delay + i == c' * delay + i'
    ensures c == c' && i == i'
  {
    DivModUnique(c * delay + i, delay, c, i);
    DivModUnique(c * delay + i, delay, c', i');
  }

  /** Going back `d` frames in a line of `delay` slots, from the slot of frame `m`. */
  lemma ModBack(m: nat, d: nat, delay: nat)
    requires 0 <= d < delay
    ensures (m - d) % delay == if m % delay - d < 0 then m % delay - d + delay else m % delay - d
  {
    var q, r := m / delay, m % delay;
    assert m == q * delay + r;
    if r - d < 0 {
      assert (q - 1) * delay == q * delay - delay;
      DivModUnique(m - d, delay, q - 1, r - d + delay);
    } else {
      DivModUnique(m - d, delay, q, r - d);
    }
  }
}
