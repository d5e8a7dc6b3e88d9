/** The Fisher-Yates shuffle, and the next index under a repeat mode. */
module Order {
  import opened Wrappers
  import opened Floats

  // The random source is a stream of arbitrary doubles, read at a growing position.

  datatype RepeatMode = Off | One | All

  type Rng = nat -> F64

  /** The slot a raw random value selects among `0..=i`. */
  function Pick(raw: F64, i: nat): (j: nat)
    ensures j <= i
  {
    var scaled := Times(raw, i + 1);
    if Finite(scaled) then Clamp(scaled.r.Floor, 0, i) else 0
  }

  function Swap<T>(s: seq<T>, i: nat, j: nat): (r: seq<T>)
    requires i < |s| && j < |s|
    ensures |r| == |s|
  {
    s[i := s[j]][j := s[i]]
  }

  /** The shuffle's remaining swaps, from slot `i` down to 1. */
  function ShuffleFrom<T>(s: seq<T>, i: nat, rng: Rng, at: nat): (r: seq<T>)
    requires i < |s|
    ensures |r| == |s|
    decreases i
  {
    if i == 0 then s else ShuffleFrom(Swap(s, i, Pick(rng(at), i)), i - 1, rng, at + 1)
  }

  function Shuffled<T>(s: seq<T>, rng: Rng, at: nat): (r: seq<T>)
    ensures |r| == |s|
  {
    if s == [] then s else ShuffleFrom(s, |s| - 1, rng, at)
  }

  /** How many random values one shuffle draws. */
  function Draws(n: nat): nat {
    if n == 0 then 0 else n - 1
  }

  method ShuffleOrder<T>(upcoming: seq<T>, rng: Rng, at: nat) returns (out: seq<T>, at': nat)
    ensures out == Shuffled(upcoming, rng, at)
    ensures at' == at + Draws(|upcoming|)
  {
    out, at' := upcoming, at;
    if |out| == 0 {
      return;
    }
    var i := |out| - 1;
    while i > 0
      invariant 0 <= i < |out| == |upcoming|
      invariant at' == at + (|upcoming| - 1 - i)
      invariant ShuffleFrom(out, i, rng, at') == Shuffled(upcoming, rng, at)
    {
      var raw := rng(at');
      at' := at' + 1;
      var scaled := Times(raw, i + 1);
      var j := if Finite(scaled) then Clamp(scaled.r.Floor, 0, i) else 0;
      out := out[i := out[j]][j := out[i]];
      i := i - 1;
    }
  }

  lemma SwapPermutes<T>(s: seq<T>, i: nat, j: nat)
    requires i < |s| && j < |s|
    ensures multiset(Swap(s, i, j)) == multiset(s)
  {}

  /** The shuffle is a permutation whatever the random source returns. */
  lemma {:induction false} ShuffleFromPermutes<T>(s: seq<T>, i: nat, rng: Rng, at: nat)
    requires i < |s|
    ensures multiset(ShuffleFrom(s, i, rng, at)) == multiset(s)
    decreases i
  {
    if i > 0 {
      var j := Pick(rng(at), i);
      SwapPermutes(s, i, j);
      ShuffleFromPermutes(Swap(s, i, j), i - 1, rng, at + 1);
    }
  }

  lemma ShuffledPermutes<T>(s: seq<T>, rng: Rng, at: nat)
    ensures multiset(Shuffled(s, rng, at)) == multiset(s)
  {
    if s != [] { ShuffleFromPermutes(s, |s| - 1, rng, at); }
  }

  /** The index after `cursor`, wrapping to the first only under repeat-all. */
  function NextIndexUnderRepeat(cursor: int, length: nat, repeat: RepeatMode): (r: Option<int>)
    ensures r.Some? && cursor >= -1 ==> 0 <= r.value < length
    ensures r.None? <==> length == 0 || (cursor + 1 >= length && repeat != All)
    ensures r.Some? ==> r.value == cursor + 1 || (cursor + 1 >= length && r.value == 0)
  {
    if length == 0 then None
    else if cursor + 1 < length then Some(cursor + 1)
    else if repeat == All then Some(0)
    else None
  }
}
