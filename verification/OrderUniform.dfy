/** Which arrangements the shuffle makes: from random values in `[0, 1)`, each in exactly one way. */
module OrderUniform {
  import opened Floats
  import opened Order

  // ---- one choice ------------------------------------------------------

  /** The value lies in the `j`-th of the `i + 1` equal parts of `[0, 1)`. */
  ghost predicate Chosen(raw: F64, i: nat, j: nat) {
    raw.Fin? && j as real <= raw.r * (i + 1) as real < (j + 1) as real
  }

  /** Slot `j` is picked exactly from its part. */
  lemma PickIff(raw: F64, i: nat, j: nat)
    requires raw.Fin? && 0.0 <= raw.r < 1.0
    ensures Pick(raw, i) == j <==> Chosen(raw, i, j)
  {
    var x := TimesIs(raw, i + 1);
    hide *;
    PickFloor(raw, i, x);
    ChosenFloor(raw, i, j, x);
  }

  lemma TimesIs(raw: F64, n: nat) returns (x: real)
    requires raw.Fin? && 0.0 <= raw.r < 1.0 && n > 0
    ensures x == raw.r * n as real && Times(raw, n) == Fin(x) && 0.0 <= x < n as real
  {
    x := raw.r * n as real;
    Scaled(raw.r, n as real);
  }

  lemma PickFloor(raw: F64, i: nat, x: real)
    requires Times(raw, i + 1) == Fin(x) && 0.0 <= x < (i + 1) as real
    ensures Pick(raw, i) == x.Floor
  {
    hide Times;
    FloorWithin(x, i);
  }

  lemma ChosenFloor(raw: F64, i: nat, j: nat, x: real)
    requires raw.Fin? && x == raw.r * (i + 1) as real
    ensures Chosen(raw, i, j) <==> x.Floor == j
  {
    FloorIs(x, j);
  }

  lemma FloorIs(x: real, j: int)
    ensures x.Floor == j <==> j as real <= x < (j + 1) as real
  {}

  lemma FloorWithin(x: real, i: nat)
    requires 0.0 <= x < (i + 1) as real
    ensures 0 <= x.Floor <= i
  {}

  lemma Scaled(r: real, n: real)
    requires 0.0 <= r < 1.0 && n > 0.0
    ensures 0.0 <= r * n < n
  {}

  /** Every part is hit. */
  lemma PartHit(i: nat, j: nat) returns (raw: F64)
    requires j <= i
    ensures raw.Fin? && 0.0 <= raw.r < 1.0 && Chosen(raw, i, j)
  {
    var r := j as real / (i + 1) as real;
    Divided(j as real, (i + 1) as real);
    raw := Fin(r);
  }

  lemma Divided(a: real, n: real)
    requires 0.0 <= a < n
    ensures 0.0 <= a / n < 1.0 && a / n * n == a
  {}

  /** A random source outside `[0, 1)` still picks a slot: the last from one on, else the first. */
  lemma PickOutside(raw: F64, i: nat)
    requires raw.Fin? ==> raw.r < 0.0 || raw.r >= 1.0
    ensures Pick(raw, i) == if raw.Fin? && raw.r >= 1.0 then i else 0
  {
    if raw.Fin? {
      var x := raw.r * (i + 1) as real;
      assert Times(raw, i + 1) == Fin(x);
      if raw.r >= 1.0 { AtLeastAll(raw.r, (i + 1) as real); } else { BelowZero(raw.r, (i + 1) as real); }
    }
  }

  lemma AtLeastAll(r: real, n: real)
    requires r >= 1.0 && n > 0.0
    ensures r * n >= n
  {}

  lemma BelowZero(r: real, n: real)
    requires r < 0.0 && n > 0.0
    ensures r * n < 0.0
  {}

  // ---- sequences of choices --------------------------------------------

  /** One slot for each swap, from slot `i` down to 1. */
  ghost predicate Slots(js: seq<nat>, i: nat) {
    |js| == i && forall k :: 0 <= k < i ==> js[k] <= i - k
  }

  /** The random source makes these choices. */
  ghost predicate Makes(rng: Rng, at: nat, i: nat, js: seq<nat>) {
    Slots(js, i) && forall k: nat :: k < i ==> MakesAt(rng, at + k, i - k, js[k])
  }

  ghost predicate MakesAt(rng: Rng, at: nat, i: nat, j: nat) {
    Unit(rng(at)) && Chosen(rng(at), i, j)
  }

  ghost predicate Unit(raw: F64) {
    raw.Fin? && 0.0 <= raw.r < 1.0
  }

  ghost predicate Distinct<T>(s: seq<T>) {
    forall i, j :: 0 <= i < j < |s| ==> s[i] != s[j]
  }

  /** The remaining choices. */
  lemma MakesRest(rng: Rng, at: nat, i: nat, js: seq<nat>)
    requires i > 0 && Makes(rng, at, i, js)
    ensures Makes(rng, at + 1, i - 1, js[1..]) && Pick(rng(at), i) == js[0]
  {
    hide Chosen, MakesAt, Pick;
    assert MakesAt(rng, at + 0, i - 0, js[0]);
    FirstPick(rng, at, i, js[0]);
    forall k: nat | k < i - 1 ensures MakesAt(rng, at + 1 + k, i - 1 - k, js[1..][k]) {
      assert MakesAt(rng, at + (k + 1), i - (k + 1), js[k + 1]);
    }
  }

  lemma FirstPick(rng: Rng, at: nat, i: nat, j: nat)
    requires MakesAt(rng, at, i, j)
    ensures Pick(rng(at), i) == j
  {
    PickIff(rng(at), i, j);
  }

  /** Slots above `i` stay, and slot `i` gets what the first choice names. */
  lemma {:induction false} SettledSlots<T>(s: seq<T>, i: nat, rng: Rng, at: nat)
    requires i < |s|
    ensures forall k :: i < k < |s| ==> ShuffleFrom(s, i, rng, at)[k] == s[k]
    ensures ShuffleFrom(s, i, rng, at)[i] == if i == 0 then s[0] else s[Pick(rng(at), i)]
    decreases i
  {
    hide Pick;
    if i > 0 { SettledSlots(Swap(s, i, Pick(rng(at), i)), i - 1, rng, at + 1); }
  }

  lemma SwapDistinct<T>(s: seq<T>, i: nat, j: nat)
    requires i < |s| && j < |s| && Distinct(s)
    ensures Distinct(Swap(s, i, j))
  {}

  /** Different choices give different arrangements. */
  lemma {:induction false} ChoicesDetermined<T>(s: seq<T>, i: nat, rng: Rng, js: seq<nat>, rng': Rng, js': seq<nat>,
      at: nat)
    requires i < |s| && Distinct(s) && Makes(rng, at, i, js) && Makes(rng', at, i, js')
    requires ShuffleFrom(s, i, rng, at) == ShuffleFrom(s, i, rng', at)
    ensures js == js'
    decreases i
  {
    hide Pick, Makes, Swap;
    if i > 0 {
      MakesRest(rng, at, i, js);
      MakesRest(rng', at, i, js');
      SettledSlots(s, i, rng, at);
      SettledSlots(s, i, rng', at);
      assert js[0] == js'[0] by { SlotsOf(rng, at, i, js); SlotsOf(rng', at, i, js'); }
      SwapDistinct(s, i, js[0]);
      ChoicesDetermined(Swap(s, i, js[0]), i - 1, rng, js[1..], rng', js'[1..], at + 1);
      SlotsOf(rng, at, i, js);
      SlotsOf(rng', at, i, js');
      assert js == [js[0]] + js[1..] && js' == [js'[0]] + js'[1..];
    } else {
      SlotsOf(rng, at, i, js);
      SlotsOf(rng', at, i, js');
    }
  }

  lemma SlotsOf(rng: Rng, at: nat, i: nat, js: seq<nat>)
    requires Makes(rng, at, i, js)
    ensures |js| == i && (i > 0 ==> js[0] <= i)
  {}

  /** A source that makes given choices. */
  lemma {:induction false} SourceFor(i: nat, js: seq<nat>, at: nat) returns (rng: Rng)
    requires Slots(js, i)
    ensures Makes(rng, at, i, js)
    decreases i
  {
    hide Chosen;
    if i == 0 {
      rng := (_: nat) => NaN;
    } else {
      assert Slots(js[1..], i - 1) by { assert forall k :: 0 <= k < i - 1 ==> js[1..][k] == js[k + 1]; }
      var rest := SourceFor(i - 1, js[1..], at + 1);
      var first := PartHit(i, js[0]);
      rng := (k: nat) => if k == at then first else rest(k);
      forall k: nat | k < i ensures MakesAt(rng, at + k, i - k, js[k]) {
        if k > 0 { assert MakesAt(rest, at + 1 + (k - 1), i - 1 - (k - 1), js[1..][k - 1]); }
      }
    }
  }

  ghost predicate Arrives<T>(s: seq<T>, i: nat, js: seq<nat>, t: seq<T>)
    requires i < |s|
  {
    forall rng: Rng, at: nat :: Makes(rng, at, i, js) ==> ShuffleFrom(s, i, rng, at) == t
  }

  /** The choices that lead to an arrangement. */
  lemma {:induction false} ChoicesFor<T>(s: seq<T>, t: seq<T>, i: nat) returns (js: seq<nat>)
    requires i < |s| == |t| && Distinct(s) && Distinct(t) && multiset(s) == multiset(t)
    requires forall k :: i < k < |s| ==> s[k] == t[k]
    ensures Slots(js, i) && Arrives(s, i, js, t)
    decreases i
  {
    hide Pick, Makes;
    if i == 0 {
      js := [];
      FirstSettled(s, t);
      assert s == t;
    } else {
      var j := Whence(s, t, i);
      SwapPermutes(s, i, j);
      SwapDistinct(s, i, j);
      var rest := ChoicesFor(Swap(s, i, j), t, i - 1);
      js := [j] + rest;
      forall rng: Rng, at: nat | Makes(rng, at, i, js) ensures ShuffleFrom(s, i, rng, at) == t {
        MakesRest(rng, at, i, js);
        assert js[1..] == rest;
      }
    }
  }

  /** Where the element wanted at `i` stands. */
  lemma Whence<T>(s: seq<T>, t: seq<T>, i: nat) returns (j: nat)
    requires i < |s| == |t| && Distinct(t) && multiset(s) == multiset(t)
    requires forall k :: i < k < |s| ==> s[k] == t[k]
    ensures j <= i && s[j] == t[i]
  {
    assert t[i] in multiset(t);
    assert t[i] in s;
    j :| 0 <= j < |s| && s[j] == t[i];
  }

  lemma FirstSettled<T>(s: seq<T>, t: seq<T>)
    requires 0 < |s| == |t| && Distinct(t) && multiset(s) == multiset(t)
    requires forall k :: 0 < k < |s| ==> s[k] == t[k]
    ensures s[0] == t[0]
  {
    var j := Whence(s, t, 0);
  }

  lemma PermutedDistinct<T>(s: seq<T>, t: seq<T>)
    requires multiset(s) == multiset(t) && Distinct(s)
    ensures |s| == |t| && Distinct(t)
  {
    assert |multiset(s)| == |s| && |multiset(t)| == |t|;
    forall i, j | 0 <= i < j < |t| ensures t[i] != t[j] {
      if t[i] == t[j] {
        TwiceCounted(t, i, j);
        OnceCounted(s, t[i]);
        assert false;
      }
    }
  }

  lemma TwiceCounted<T>(t: seq<T>, i: nat, j: nat)
    requires i < j < |t| && t[i] == t[j]
    ensures multiset(t)[t[i]] >= 2
  {
    assert t == t[..i] + [t[i]] + t[i + 1..j] + [t[j]] + t[j + 1..];
  }

  lemma {:induction false} OnceCounted<T>(s: seq<T>, x: T)
    requires Distinct(s)
    ensures multiset(s)[x] <= 1
  {
    if s != [] {
      var n := |s| - 1;
      assert s == s[..n] + [s[n]];
      OnceCounted(s[..n], x);
      if s[n] == x { NotBefore(s, n); }
    }
  }

  lemma NotBefore<T>(s: seq<T>, n: nat)
    requires n < |s| && Distinct(s)
    ensures s[n] !in s[..n]
  {}

  /** The choices shuffle `s` to `t`, whichever source makes them. */
  ghost predicate Arranges<T>(s: seq<T>, js: seq<nat>, t: seq<T>)
    requires s != []
  {
    forall rng: Rng, at: nat :: Makes(rng, at, |s| - 1, js) ==> Shuffled(s, rng, at) == t
  }

  /** The source makes the choices, and they shuffle `s` to `t`. */
  ghost predicate Gives<T>(s: seq<T>, rng: Rng, at: nat, js: seq<nat>, t: seq<T>)
    requires s != []
  {
    Makes(rng, at, |s| - 1, js) && Shuffled(s, rng, at) == t
  }

  /**
   Every arrangement of distinct items comes from exactly one sequence of choices, and each choice
   is one of equal parts of `[0, 1)`: with uniform random values all arrangements are equally likely.
   */
  lemma ShuffleUniform<T>(s: seq<T>, t: seq<T>)
    requires s != [] && Distinct(s) && multiset(t) == multiset(s)
    ensures exists js :: Slots(js, |s| - 1) && Arranges(s, js, t)
    ensures forall rng: Rng, at: nat, js, rng': Rng, js' :: Gives(s, rng, at, js, t) && Gives(s, rng', at, js', t) ==>
      js == js'
  {
    hide Makes;
    PermutedDistinct(s, t);
    var js := ChoicesFor(s, t, |s| - 1);
    assert Slots(js, |s| - 1) && Arranges(s, js, t);
    forall rng: Rng, at: nat, js, rng': Rng, js' | Gives(s, rng, at, js, t) && Gives(s, rng', at, js', t)
      ensures js == js'
    {
      ChoicesDetermined(s, |s| - 1, rng, js, rng', js', at);
    }
  }

  /** And every sequence of choices can be made. */
  lemma ChoicesMade(i: nat, js: seq<nat>, at: nat)
    requires Slots(js, i)
    ensures exists rng: Rng :: Makes(rng, at, i, js)
  {
    var rng := SourceFor(i, js, at);
  }
}
