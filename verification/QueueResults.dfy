/** What every run of queue operations keeps, and what navigation retraces. */
module QueueResults {
  import opened Wrappers
  import opened Floats
  import opened Order
  import opened QueueSpec

  // ---- permutations ----------------------------------------------------

  function Range(n: nat): (r: seq<nat>)
    ensures |r| == n && forall k :: 0 <= k < n ==> r[k] == k
  {
    if n == 0 then [] else Range(n - 1) + [n - 1]
  }

  /** Every position below `n` exactly once. */
  ghost predicate Permutation(order: seq<nat>, n: nat) {
    multiset(order) == multiset(Range(n))
  }

  lemma {:induction false} UpcomingIsRest(n: nat, index: int)
    ensures multiset(Upcoming(n, index)) + Cursor(n, index) == multiset(Range(n))
  {
    hide Upcoming, Range, Cursor;
    if n == 0 {
      NothingUpcoming(index);
    } else {
      UpcomingIsRest(n - 1, index);
      RangeSnoc(n);
      UpcomingSnoc(n, index);
      var last := multiset{(n - 1) as nat};
      var u, c := multiset(Upcoming(n - 1, index)), Cursor(n - 1, index);
      assert u + last + c == u + c + last;
    }
  }

  lemma NothingUpcoming(index: int)
    ensures multiset(Upcoming(0, index)) + Cursor(0, index) == multiset(Range(0))
  {}

  lemma UpcomingSnoc(n: nat, index: int)
    requires n > 0
    ensures index == n - 1 ==> Upcoming(n, index) == Upcoming(n - 1, index)
    ensures index == n - 1 ==> Cursor(n, index) == multiset{(n - 1) as nat} && Cursor(n - 1, index) == multiset{}
    ensures index != n - 1 ==> Cursor(n, index) == Cursor(n - 1, index)
    ensures index != n - 1 ==>
      multiset(Upcoming(n, index)) == multiset(Upcoming(n - 1, index)) + multiset{(n - 1) as nat}
  {}

  lemma RangeSnoc(n: nat)
    requires n > 0
    ensures multiset(Range(n)) == multiset(Range(n - 1)) + multiset{(n - 1) as nat}
  {}

  function Cursor(n: nat, index: int): multiset<nat> {
    if 0 <= index < n then multiset{index as nat} else multiset{}
  }

  lemma EmptyRange()
    ensures Range(0) == []
  {}

  lemma {:induction false} RangeCount(n: nat, x: nat)
    ensures multiset(Range(n))[x] == if x < n then 1 else 0
  {
    hide Range;
    if n > 0 {
      RangeCount(n - 1, x);
      RangeSnoc(n);
    } else {
      EmptyRange();
    }
  }

  /** A permutation's entries are in range and pairwise different. */
  lemma PermutationEntries(order: seq<nat>, n: nat)
    requires Permutation(order, n)
    ensures |order| == n
    ensures forall k :: 0 <= k < n ==> order[k] < n
    ensures forall j, k :: 0 <= j < k < n ==> order[j] != order[k]
    ensures forall x :: 0 <= x < n ==> x in order
  {
    assert |multiset(order)| == |multiset(Range(n))|;
    forall k | 0 <= k < n ensures order[k] < n {
      assert order[k] in multiset(order);
      RangeCount(n, order[k]);
    }
    forall j, k | 0 <= j < k < n ensures order[j] != order[k] {
      RangeCount(n, order[k]);
      if order[j] == order[k] { TwiceCounted(order, j, k); }
    }
    forall x | 0 <= x < n ensures x in order {
      RangeCount(n, x);
      assert x in multiset(order);
    }
  }

  lemma TwiceCounted(s: seq<nat>, j: nat, k: nat)
    requires j < k < |s| && s[j] == s[k]
    ensures multiset(s)[s[k]] >= 2
  {
    assert s == s[..k] + [s[k]] + s[k + 1..];
    assert s[j] in s[..k];
  }

  // ---- the invariant ---------------------------------------------------

  ghost predicate HistoryOk(h: seq<int>, n: nat) {
    |h| <= HISTORY_LIMIT && forall k :: 0 <= k < |h| ==> 0 <= h[k] < n
  }

  ghost predicate Inv(q: Queue) {
    && -1 <= q.index < |q.items|
    && HistoryOk(q.history, |q.items|)
    && (if q.shuffling then Permutation(q.order, |q.items|) else q.order == [])
  }

  /** Everything but the order, which a rebuild restores. */
  ghost predicate InvBeforeRebuild(q: Queue) {
    -1 <= q.index < |q.items| && HistoryOk(q.history, |q.items|)
  }

  lemma RebuildRestores(q: Queue, rng: Rng)
    requires InvBeforeRebuild(q)
    ensures Inv(RebuildOrder(q, rng))
    ensures RebuildOrder(q, rng).(order := q.order, drawn := q.drawn) == q
    ensures q.shuffling && q.index >= 0 ==> RebuildOrder(q, rng).order != [] && RebuildOrder(q, rng).order[0] == q.index
  {
    if q.shuffling && q.items != [] {
      RebuiltPermutation(q, rng);
    } else {
      assert Range(0) == [];
    }
  }

  lemma RebuiltPermutation(q: Queue, rng: Rng)
    requires InvBeforeRebuild(q) && q.shuffling && q.items != []
    ensures Permutation(RebuildOrder(q, rng).order, |q.items|)
  {
    hide Permutation;
    var n := |q.items|;
    var upcoming := Upcoming(n, q.index);
    var rest := Shuffled(upcoming, rng, q.drawn);
    ShuffledPermutes(upcoming, rng, q.drawn);
    UpcomingIsRest(n, q.index);
    LeadPermutes(rest, n, q.index);
  }

  lemma LeadPermutes(rest: seq<nat>, n: nat, index: int)
    requires index < n && multiset(rest) + Cursor(n, index) == multiset(Range(n))
    ensures Permutation((if index >= 0 then [index as nat] else []) + rest, n)
  {
    if index >= 0 {
      assert multiset([index as nat] + rest) == multiset{index as nat} + multiset(rest);
    } else {
      assert [] + rest == rest;
    }
  }

  datatype Op =
    | SetRepeatOp(mode: RepeatMode)
    | SetShuffleOp(on: bool)
    | PlaySequenceOp(items: seq<Item>, start: int)
    | PlayNowOp(item: Item)
    | PlayNextOp(item: Item)
    | EnqueueOp(more: seq<Item>)
    | NextOp
    | PreviousOp
    | MoveToOp(i: int)
    | MoveItemOp(from: int, to: int)
    | RemoveAtOp(i: int)
    | ClearOp

  function Step(q: Queue, op: Op, rng: Rng): Queue {
    match op
    case SetRepeatOp(mode) => SetRepeat(q, mode)
    case SetShuffleOp(on) => SetShuffle(q, on, rng)
    case PlaySequenceOp(items, start) => PlaySequence(q, items, start, rng)
    case PlayNowOp(item) => PlayNow(q, item, rng)
    case PlayNextOp(item) => PlayNext(q, item, rng)
    case EnqueueOp(more) => EnqueueMany(q, more, rng)
    case NextOp => Next(q, rng)
    case PreviousOp => Previous(q)
    case MoveToOp(i) => MoveTo(q, i)
    case MoveItemOp(from, to) => MoveItem(q, from, to, rng)
    case RemoveAtOp(i) => RemoveAt(q, i, rng)
    case ClearOp => Clear(q)
  }

  function Run(q: Queue, ops: seq<Op>, rng: Rng): Queue
    decreases |ops|
  {
    if ops == [] then q else Run(Step(q, ops[0], rng), ops[1..], rng)
  }

  lemma PushKeeps(h: seq<int>, n: nat, from: int)
    requires HistoryOk(h, n) && from < n
    ensures HistoryOk(PushHistory(h, from), n)
  {}

  lemma PeekedKeeps(q: Queue, rng: Rng)
    requires Inv(q)
    ensures Inv(Peeked(q, rng))
    ensures Peeked(q, rng).(order := q.order, drawn := q.drawn, history := q.history) == q
  {
    hide Permutation, PushHistory;
    PushKeeps(q.history, |q.items|, q.index);
    RebuildRestores(Pushed(q), rng);
  }

  lemma TargetInRange(q: Queue, rng: Rng)
    requires Inv(q)
    ensures NextTarget(q, rng).Some? ==> 0 <= NextTarget(q, rng).value < |q.items|
    ensures Reshuffles(q) && q.index >= 0 ==> NextTarget(q, rng) == Some(q.index)
  {
    hide Permutation, PushHistory;
    if q.shuffling {
      PermutationEntries(q.order, |q.items|);
      PeekedKeeps(q, rng);
      PermutationEntries(Peeked(q, rng).order, |q.items|);
      PushKeeps(q.history, |q.items|, q.index);
      RebuildRestores(Pushed(q), rng);
    }
  }

  lemma NextKeeps(q: Queue, rng: Rng)
    requires Inv(q)
    ensures Inv(Next(q, rng))
    ensures Next(q, rng).items == q.items && Next(q, rng).shuffling == q.shuffling && Next(q, rng).repeat == q.repeat
    ensures NextItem(q, rng).Some? ==> NextItem(q, rng) == Next(q, rng).Current()
    ensures NextTarget(q, rng).None? ==> Next(q, rng).index == q.index
    ensures q.index >= 0 ==> Next(q, rng).index >= 0
  {
    hide Permutation, PushHistory, NextTarget, Reshuffles;
    PeekedKeeps(q, rng);
    TargetInRange(q, rng);
  }

  lemma PopKeeps(h: seq<int>, n: nat, index: int)
    requires HistoryOk(h, n)
    ensures HistoryOk(PopHistory(h, n, index), n)
  {}

  lemma PreviousKeeps(q: Queue)
    requires Inv(q)
    ensures Inv(Previous(q)) && Previous(q).items == q.items
  {
    hide Permutation;
    PopKeeps(q.history, |q.items|, q.index);
    if q.shuffling { PermutationEntries(q.order, |q.items|); }
  }

  lemma StepKeeps(q: Queue, op: Op, rng: Rng)
    requires Inv(q)
    ensures Inv(Step(q, op, rng))
  {
    hide RebuildOrder, Permutation, Next, QueueSpec.Previous, Remap, Without;
    match op
    case SetShuffleOp(on) => RebuildRestores(q.(shuffling := on, history := []), rng);
    case PlaySequenceOp(items, start) =>
      if items != [] { RebuildRestores(q.(items := items, index := Clamp(start, 0, |items| - 1), history := []), rng); }
    case PlayNowOp(item) => RebuildRestores(q.(items := [item], index := 0, history := []), rng);
    case PlayNextOp(item) => RebuildRestores(BeforePlayNext(q, item), rng);
    case EnqueueOp(more) => RebuildRestores(q.(items := q.items + more), rng);
    case NextOp => NextKeeps(q, rng);
    case PreviousOp => PreviousKeeps(q);
    case MoveItemOp(from, to) =>
      if 0 <= from < |q.items| && 0 <= to < |q.items| && from != to { MoveKeeps(q, from, to, rng); }
    case RemoveAtOp(i) =>
      if 0 <= i < |q.items| { RemoveKeeps(q, i, rng); }
    case ClearOp => ClearKeeps(q);
    case _ =>
  }

  function BeforePlayNext(q: Queue, item: Item): Queue {
    if q.items == [] then q.(items := [item], index := 0)
    else q.(items := InsertAt(q.items, Min(MaxInt(q.index + 1, 0), |q.items|), item))
  }

  function BeforeMove(q: Queue, from: nat, to: nat): Queue
    requires from < |q.items| && to < |q.items|
  {
    q.(items := InsertAt(RemoveItem(q.items, from), to, q.items[from]),
       history := MapRemap(q.history, from, to),
       index := Remap(q.index, from, to))
  }

  function BeforeRemove(q: Queue, i: nat): Queue
    requires i < |q.items|
  {
    var items := RemoveItem(q.items, i);
    q.(items := items,
       history := ShiftDown(Without(q.history, i), i),
       index := if i == q.index then Min(q.index, |items| - 1) else if i < q.index then q.index - 1 else q.index)
  }

  lemma ClearKeeps(q: Queue)
    ensures Inv(Clear(q))
  {
    assert Range(0) == [];
  }

  lemma MoveKeeps(q: Queue, from: nat, to: nat, rng: Rng)
    requires Inv(q) && from < |q.items| && to < |q.items| && from != to
    ensures Inv(MoveItem(q, from, to, rng))
  {
    hide Permutation, RebuildOrder;
    RebuildRestores(BeforeMove(q, from, to), rng);
  }

  lemma RemoveIsRebuild(q: Queue, i: nat, rng: Rng)
    requires i < |q.items|
    ensures RemoveAt(q, i, rng) == RebuildOrder(BeforeRemove(q, i), rng)
  {}

  lemma RemoveKeeps(q: Queue, i: nat, rng: Rng)
    requires Inv(q) && i < |q.items|
    ensures InvBeforeRebuild(BeforeRemove(q, i))
    ensures RemoveAt(q, i, rng) == RebuildOrder(BeforeRemove(q, i), rng)
    ensures Inv(RemoveAt(q, i, rng))
  {
    var h := Without(q.history, i);
    forall k | 0 <= k < |h| ensures 0 <= h[k] < |q.items| && h[k] != i {
      assert h[k] in h;
    }
    RemoveIsRebuild(q, i, rng);
    RebuildRestores(BeforeRemove(q, i), rng);
  }

  /** Every run from the empty queue keeps cursor, history and order consistent. */
  lemma {:induction false} RunKeeps(q: Queue, ops: seq<Op>, rng: Rng)
    requires Inv(q)
    ensures Inv(Run(q, ops, rng))
    decreases |ops|
  {
    if ops != [] {
      StepKeeps(q, ops[0], rng);
      RunKeeps(Step(q, ops[0], rng), ops[1..], rng);
    }
  }

  lemma EmptyInv()
    ensures Inv(Empty())
  {}

  // ---- history read as items -------------------------------------------

  /** The items the history entries name. */
  function ItemsAt(items: seq<Item>, h: seq<int>): (r: seq<Item>)
    requires forall k :: 0 <= k < |h| ==> 0 <= h[k] < |items|
    ensures |r| == |h| && forall k :: 0 <= k < |h| ==> r[k] == items[h[k]]
  {
    seq(|h|, k requires 0 <= k < |h| => items[h[k]])
  }

  function HistoryItems(q: Queue): seq<Item>
    requires Inv(q)
  {
    ItemsAt(q.items, q.history)
  }

  lemma MovedItem(s: seq<Item>, from: nat, to: nat, k: nat)
    requires from < |s| && to < |s| && k < |s|
    ensures 0 <= Remap(k, from, to) < |s|
    ensures InsertAt(RemoveItem(s, from), to, s[from])[Remap(k, from, to)] == s[k]
  {
    var r := RemoveItem(s, from);
    assert forall x :: 0 <= x < |r| ==> r[x] == if x < from then s[x] else s[x + 1];
  }

  /** Moving an item changes neither the history nor the current item, read as items. */
  lemma MoveItemKeepsItems(q: Queue, from: int, to: int, rng: Rng)
    requires Inv(q)
    ensures Inv(MoveItem(q, from, to, rng))
    ensures HistoryItems(MoveItem(q, from, to, rng)) == HistoryItems(q)
    ensures MoveItem(q, from, to, rng).Current() == q.Current()
    ensures 0 <= from < |q.items| && 0 <= to < |q.items| ==> MoveItem(q, from, to, rng).At(to) == q.At(from)
  {
    StepKeeps(q, MoveItemOp(from, to), rng);
    var m := MoveItem(q, from, to, rng);
    if 0 <= from < |q.items| && 0 <= to < |q.items| && from != to {
      var b := BeforeMove(q, from, to);
      RebuildRestores(b, rng);
      forall k | 0 <= k < |q.history| ensures HistoryItems(m)[k] == HistoryItems(q)[k] {
        MovedItem(q.items, from, to, q.history[k]);
      }
      if q.index >= 0 { MovedItem(q.items, from, to, q.index); }
      MovedItem(q.items, from, to, from);
    }
  }

  lemma RemovedItem(s: seq<Item>, i: nat, k: nat)
    requires i < |s| && k < |s| && k != i
    ensures RemoveItem(s, i)[if k > i then k - 1 else k] == s[k]
  {}

  /** Removing an item takes exactly its entries out of the history, read as items. */
  lemma RemoveAtKeepsItems(q: Queue, i: nat, rng: Rng)
    requires Inv(q) && i < |q.items|
    ensures Inv(RemoveAt(q, i, rng))
    ensures forall k :: 0 <= k < |Without(q.history, i)| ==> 0 <= Without(q.history, i)[k] < |q.items|
    ensures HistoryItems(RemoveAt(q, i, rng)) == ItemsAt(q.items, Without(q.history, i))
    ensures q.index != i ==> RemoveAt(q, i, rng).Current() == q.Current()
    ensures q.index == i && i + 1 < |q.items| ==> RemoveAt(q, i, rng).Current() == q.At(i + 1)
    ensures q.index == i && i + 1 == |q.items| ==> RemoveAt(q, i, rng).Current() == q.At(i - 1)
  {
    hide Inv, RebuildOrder, RemoveAt;
    RemoveKeeps(q, i, rng);
    RebuildRestores(BeforeRemove(q, i), rng);
    RemovedHistory(q, i);
    RemovedCurrent(q, i);
  }

  lemma RemovedHistory(q: Queue, i: nat)
    requires Inv(q) && i < |q.items| && InvBeforeRebuild(BeforeRemove(q, i))
    ensures forall k :: 0 <= k < |Without(q.history, i)| ==> 0 <= Without(q.history, i)[k] < |q.items|
    ensures ItemsAt(BeforeRemove(q, i).items, BeforeRemove(q, i).history) == ItemsAt(q.items, Without(q.history, i))
  {
    var b := BeforeRemove(q, i);
    var h := Without(q.history, i);
    forall k | 0 <= k < |h| ensures 0 <= h[k] < |q.items| && h[k] != i && b.items[b.history[k]] == q.items[h[k]] {
      assert h[k] in h;
      RemovedItem(q.items, i, h[k]);
    }
  }

  lemma RemovedCurrent(q: Queue, i: nat)
    requires Inv(q) && i < |q.items|
    ensures q.index != i ==> BeforeRemove(q, i).Current() == q.Current()
    ensures q.index == i && i + 1 < |q.items| ==> BeforeRemove(q, i).Current() == q.At(i + 1)
    ensures q.index == i && i + 1 == |q.items| ==> BeforeRemove(q, i).Current() == q.At(i - 1)
  {
    if q.index >= 0 && q.index != i { RemovedItem(q.items, i, q.index); }
  }

  // ---- previous retraces next ------------------------------------------

  /** `k` successive `next` calls. */
  function NextTimes(q: Queue, k: nat, rng: Rng): Queue
    decreases k
  {
    if k == 0 then q else Next(NextTimes(q, k - 1, rng), rng)
  }

  function PreviousTimes(q: Queue, k: nat): Queue
    decreases k
  {
    if k == 0 then q else Previous(PreviousTimes(q, k - 1))
  }

  /** The cursor after `j` `next` calls. */
  function CursorAfter(q: Queue, j: nat, rng: Rng): int {
    NextTimes(q, j, rng).index
  }

  lemma {:induction false} NextTimesKeeps(q: Queue, k: nat, rng: Rng)
    requires Inv(q)
    ensures Inv(NextTimes(q, k, rng)) && NextTimes(q, k, rng).items == q.items
    ensures q.index >= 0 ==> NextTimes(q, k, rng).index >= 0
    decreases k
  {
    hide Inv, Next;
    if k > 0 {
      NextTimesKeeps(q, k - 1, rng);
      NextKeeps(NextTimes(q, k - 1, rng), rng);
    }
  }

  /** The newest `k` entries of `h`. */
  ghost predicate Trail(h: seq<int>, q: Queue, k: nat, rng: Rng) {
    |h| >= k && forall j :: 0 <= j < k ==> h[|h| - k + j] == CursorAfter(q, j, rng)
  }

  lemma NextHistory(q: Queue, rng: Rng)
    requires q.items != []
    ensures Next(q, rng).history == PushHistory(q.history, q.index)
  {}

  lemma PushTrail(h: seq<int>, q: Queue, k: nat, rng: Rng)
    requires Trail(h, q, k, rng) && CursorAfter(q, k, rng) >= 0 && k < HISTORY_LIMIT
    ensures Trail(PushHistory(h, CursorAfter(q, k, rng)), q, k + 1, rng)
  {
    hide CursorAfter, PushHistory;
    var p := PushHistory(h, CursorAfter(q, k, rng));
    var all := h + [CursorAfter(q, k, rng)];
    NewestKept(h, CursorAfter(q, k, rng));
    forall j | 0 <= j < k + 1 ensures p[|p| - (k + 1) + j] == CursorAfter(q, j, rng) {
      assert p[|p| - (k + 1) + j] == all[|all| - (k + 1) + j];
      if j < k { assert all[|all| - (k + 1) + j] == h[|h| - k + j]; }
    }
  }

  /** The history keeps its newest entries, at least as many as the limit allows. */
  lemma NewestKept(h: seq<int>, from: int)
    requires from >= 0
    ensures var p, all := PushHistory(h, from), h + [from];
      |p| == Min(|all|, HISTORY_LIMIT) && p == all[|all| - |p|..]
  {}

  lemma {:induction false} TrailFromItem(q: Queue, k: nat, rng: Rng)
    requires Inv(q) && q.index >= 0 && k <= HISTORY_LIMIT
    ensures Trail(NextTimes(q, k, rng).history, q, k, rng)
    decreases k
  {
    hide Inv, Next, Trail;
    if k > 0 {
      TrailFromItem(q, k - 1, rng);
      NextTimesKeeps(q, k - 1, rng);
      var p := NextTimes(q, k - 1, rng);
      CursorMeansItems(p);
      NextHistory(p, rng);
      PushTrail(p.history, q, k - 1, rng);
    } else {
      NoTrail(q, rng);
    }
  }

  lemma NoTrail(q: Queue, rng: Rng)
    ensures Trail(q.history, q, 0, rng)
  {}

  lemma CursorMeansItems(q: Queue)
    requires Inv(q) && q.index >= 0
    ensures q.items != []
  {}

  /** Whether `next` finds a first item from a cursor before the queue. */
  predicate Starts(q: Queue) {
    q.items != [] && (q.shuffling ==> q.repeat == All)
  }

  /** The first `next` from before the queue records nothing. */
  lemma StartStep(q: Queue, rng: Rng)
    requires Inv(q) && q.index == -1
    ensures NextItem(q, rng).Some? <==> Starts(q)
    ensures Starts(q) ==> 0 <= Next(q, rng).index < |q.items| && Next(q, rng).history == q.history
    ensures !Starts(q) ==> Next(q, rng) == q
  {
    hide Permutation;
    if q.shuffling {
      PermutationEntries(q.order, |q.items|);
      RebuildRestores(q, rng);
      PermutationEntries(RebuildOrder(q, rng).order, |q.items|);
    }
  }

  lemma {:induction false} NextTimesFirst(q: Queue, k: nat, rng: Rng)
    requires k > 0
    ensures NextTimes(q, k, rng) == NextTimes(Next(q, rng), k - 1, rng)
    decreases k
  {
    hide Next;
    if k > 1 { NextTimesFirst(q, k - 1, rng); }
  }

  lemma {:induction false} StaysBefore(q: Queue, k: nat, rng: Rng)
    requires Next(q, rng) == q
    ensures NextTimes(q, k, rng) == q
    decreases k
  {
    if k > 0 { StaysBefore(q, k - 1, rng); }
  }

  /** What `k` `next` calls leave in the history; a cursor before the queue is not recorded. */
  ghost predicate Recorded(q: Queue, k: nat, rng: Rng) {
    var h := NextTimes(q, k, rng).history;
    if q.index >= 0 then Trail(h, q, k, rng)
    else if Starts(q) then k > 0 ==> Trail(h, Next(q, rng), k - 1, rng)
    else NextTimes(q, k, rng) == q
  }

  /**
   After `k <= 500` `next` calls the newest history entries are the cursors left behind, all `k` of
   them, or all but the first when that one was before the queue; there `next` may find no item at
   all, and then it changes nothing.
   */
  lemma TrailRecorded(q: Queue, k: nat, rng: Rng)
    requires Inv(q) && k <= HISTORY_LIMIT
    ensures Recorded(q, k, rng)
  {
    hide Inv, Next, Trail, Starts;
    if q.index >= 0 {
      TrailFromItem(q, k, rng);
    } else {
      NoCursor(q);
      StartStep(q, rng);
      if !Starts(q) {
        StaysBefore(q, k, rng);
      } else if k > 0 {
        NextKeeps(q, rng);
        NextTimesFirst(q, k, rng);
        TrailFromItem(Next(q, rng), k - 1, rng);
      }
    }
  }

  lemma NoCursor(q: Queue)
    requires Inv(q) && q.index < 0
    ensures q.index == -1
  {}

  /** `previous` goes to the newest entry when that is a usable position. */
  lemma PreviousPops(q: Queue, rest: seq<int>, h: int)
    requires q.history == rest + [h] && Usable(h, |q.items|, q.index)
    ensures Previous(q) == q.(history := rest, index := h)
  {}

  /** What the queue is after `i` of the `k` steps back. */
  ghost predicate Retraced(p: Queue, end: Queue, q: Queue, k: nat, i: nat, rng: Rng) {
    && i <= k && i <= |end.history|
    && p.items == q.items
    && p.index == CursorAfter(q, k - i, rng)
    && p.history == end.history[..|end.history| - i]
  }

  lemma RetraceStep(p: Queue, end: Queue, q: Queue, k: nat, i: nat, rng: Rng)
    requires Retraced(p, end, q, k, i, rng) && i < k
    requires Trail(end.history, q, k, rng)
    requires Usable(CursorAfter(q, k - i - 1, rng), |q.items|, CursorAfter(q, k - i, rng))
    ensures Retraced(Previous(p), end, q, k, i + 1, rng)
  {
    hide CursorAfter;
    var n := |end.history|;
    var rest, h := end.history[..n - i - 1], CursorAfter(q, k - i - 1, rng);
    assert p.history == rest + [h];
    PreviousPops(p, rest, h);
  }

  lemma {:induction false} RetracesFromItem(q: Queue, k: nat, i: nat, rng: Rng)
    requires Inv(q) && q.index >= 0 && i <= k <= HISTORY_LIMIT
    requires forall j :: 0 <= j < k ==> CursorAfter(q, j, rng) != CursorAfter(q, j + 1, rng)
    ensures Retraced(PreviousTimes(NextTimes(q, k, rng), i), NextTimes(q, k, rng), q, k, i, rng)
    decreases i
  {
    hide Inv, Next, Trail, Previous, Retraced;
    var end := NextTimes(q, k, rng);
    TrailFromItem(q, k, rng);
    NextTimesKeeps(q, k, rng);
    if i > 0 {
      RetracesFromItem(q, k, i - 1, rng);
      CursorUsable(q, k - i, rng);
      RetraceStep(PreviousTimes(end, i - 1), end, q, k, i - 1, rng);
    } else {
      NotYet(end, q, k, rng);
    }
  }

  /**
   After `k <= 500` cursor-changing `next` calls, as many `previous` calls retrace the same items in
   reverse, or one fewer when the first of them started before the queue.
   */
  lemma PreviousRetraces(q: Queue, k: nat, i: nat, rng: Rng)
    requires Inv(q) && k <= HISTORY_LIMIT && i <= if q.index >= 0 then k else k - 1
    requires forall j :: 0 <= j < k ==> CursorAfter(q, j, rng) != CursorAfter(q, j + 1, rng)
    ensures Retraced(PreviousTimes(NextTimes(q, k, rng), i), NextTimes(q, k, rng), q, k, i, rng)
    ensures PreviousTimes(NextTimes(q, k, rng), i).Current() == NextTimes(q, k - i, rng).Current()
  {
    hide Inv, Next, Trail, Previous, Retraced, Starts;
    var end := NextTimes(q, k, rng);
    NextTimesKeeps(q, k, rng);
    NextTimesKeeps(q, k - i, rng);
    if q.index >= 0 {
      RetracesFromItem(q, k, i, rng);
    } else {
      NoCursor(q);
      StartStep(q, rng);
      NextTimesFirst(q, 1, rng);
      assert CursorAfter(q, 0, rng) == q.index && CursorAfter(q, 0 + 1, rng) == Next(q, rng).index;
      LaterCursors(q, k, rng);
      NextKeeps(q, rng);
      RetracesFromItem(Next(q, rng), k - 1, i, rng);
      NextTimesFirst(q, k, rng);
      NextTimesFirst(q, k - i, rng);
      RetracedFirst(PreviousTimes(end, i), end, q, k, i, rng);
    }
    RetracedItem(PreviousTimes(end, i), end, q, k, i, rng);
  }

  /** Cursors from the second on are those after the first `next`. */
  lemma LaterCursors(q: Queue, k: nat, rng: Rng)
    requires k > 0
    requires forall j :: 0 <= j < k ==> CursorAfter(q, j, rng) != CursorAfter(q, j + 1, rng)
    ensures var n := Next(q, rng); forall j :: 0 <= j < k - 1 ==> CursorAfter(n, j, rng) != CursorAfter(n, j + 1, rng)
  {
    hide Next;
    var n := Next(q, rng);
    forall j | 0 <= j < k - 1 ensures CursorAfter(n, j, rng) != CursorAfter(n, j + 1, rng) {
      NextTimesFirst(q, j + 1, rng);
      NextTimesFirst(q, j + 2, rng);
      assert CursorAfter(q, j + 1, rng) != CursorAfter(q, j + 2, rng);
    }
  }

  lemma RetracedFirst(p: Queue, end: Queue, q: Queue, k: nat, i: nat, rng: Rng)
    requires i < k && Retraced(p, end, Next(q, rng), k - 1, i, rng) && Next(q, rng).items == q.items
    requires NextTimes(q, k - i, rng) == NextTimes(Next(q, rng), k - i - 1, rng)
    ensures Retraced(p, end, q, k, i, rng)
  {
    hide NextTimes;
    assert k - 1 - i == k - i - 1;
  }

  lemma CursorUsable(q: Queue, j: nat, rng: Rng)
    requires Inv(q) && q.index >= 0 && CursorAfter(q, j, rng) != CursorAfter(q, j + 1, rng)
    ensures Usable(CursorAfter(q, j, rng), |q.items|, CursorAfter(q, j + 1, rng))
  {
    NextTimesKeeps(q, j, rng);
  }

  lemma NotYet(end: Queue, q: Queue, k: nat, rng: Rng)
    requires end == NextTimes(q, k, rng) && end.items == q.items
    ensures Retraced(end, end, q, k, 0, rng)
  {
    assert end.history[..|end.history|] == end.history;
  }

  lemma RetracedItem(p: Queue, end: Queue, q: Queue, k: nat, i: nat, rng: Rng)
    requires Retraced(p, end, q, k, i, rng) && NextTimes(q, k - i, rng).items == q.items
    ensures p.Current() == NextTimes(q, k - i, rng).Current()
  {}

  // ---- the preload target ----------------------------------------------

  /** The preload target is the item `next` moves to, whenever `next` does not reshuffle. */
  lemma PeekNamesNext(q: Queue, rng: Rng)
    requires Inv(q) && !Reshuffles(q)
    ensures PeekPreloadTarget(q, q.index) == NextItem(q, rng)
    ensures NextItem(q, rng).Some? ==> Next(q, rng).Current() == NextItem(q, rng)
  {
    hide Permutation;
    NextKeeps(q, rng);
    assert q.(index := q.index) == q;
    if q.shuffling { PermutationEntries(q.order, |q.items|); }
  }

  /** A reshuffling `next` starts the new order at the current item, so the preload is right only when they coincide. */
  lemma PeekAtReshuffle(q: Queue, rng: Rng)
    requires Inv(q) && Reshuffles(q) && q.index >= 0
    ensures NextItem(q, rng) == q.Current() && Next(q, rng).index == q.index && q.order != []
    ensures PeekPreloadTarget(q, q.index) == NextItem(q, rng) <==> q.At(q.order[0]) == q.Current()
  {
    hide Permutation, PushHistory;
    PermutationEntries(q.order, |q.items|);
    TargetInRange(q, rng);
    assert q.(index := q.index) == q;
  }

  // ---- one pass over a fresh shuffle -----------------------------------

  lemma PositionInPermutation(order: seq<nat>, n: nat, k: nat)
    requires Permutation(order, n) && k < n
    ensures |order| == n && PositionOf(order, order[k]) == Some(k)
  {
    PermutationEntries(order, n);
  }

  lemma LaterPosition(q: Queue, j: nat)
    requires Inv(q) && q.shuffling && j < |q.items|
    ensures |q.order| == |q.items| && PositionOf(q.order, q.order[j]) == Some(j)
  {
    PositionInPermutation(q.order, |q.items|, j);
  }

  /** One step along the order. */
  lemma PassStep(p: Queue, j: nat, rng: Rng)
    requires p.shuffling && p.items != [] && j + 1 < |p.order| && PositionOf(p.order, p.index) == Some(j)
    ensures Next(p, rng).index == p.order[j + 1] && Next(p, rng).order == p.order
    ensures Next(p, rng).repeat == p.repeat && Next(p, rng).shuffling && Next(p, rng).items == p.items
  {
    hide PositionOf, PushHistory;
  }

  /** Without repeat-all, the `j`-th `next` after a fresh shuffle is at the order's `j`-th entry. */
  lemma {:induction false} FreshShufflePass(q: Queue, j: nat, rng: Rng)
    requires Inv(q) && q.shuffling && q.repeat != All && j < |q.items| && q.order[0] == q.index
    ensures var p := NextTimes(q, j, rng);
      && |q.order| == |q.items|
      && p.index == q.order[j]
      && p.order == q.order && p.repeat == q.repeat && p.shuffling && p.items == q.items
    decreases j
  {
    hide Permutation, PositionOf, PushHistory, Inv;
    OrderEntries(q);
    if j > 0 {
      FreshShufflePass(q, j - 1, rng);
      LaterPosition(q, j - 1);
      PassStep(NextTimes(q, j - 1, rng), j - 1, rng);
    }
  }

  /**
   Turning shuffle on without repeat-all: the `next` calls visit every other item once and then
   stop; from before the queue they find nothing.
   */
  lemma FreshShuffleVisitsAll(q: Queue, rng: Rng)
    requires Inv(q) && !q.shuffling && q.repeat != All
    ensures var s, n := SetShuffle(q, true, rng), |q.items|;
      q.index >= 0 ==>
      && (forall i, j :: 0 <= i < j < n ==> CursorAfter(s, i, rng) != CursorAfter(s, j, rng))
      && (forall x :: 0 <= x < n ==> Visited(s, n, x, rng))
      && NextItem(NextTimes(s, n - 1, rng), rng) == None
    ensures var s := SetShuffle(q, true, rng);
      q.index < 0 ==> NextItem(s, rng) == None && forall k: nat :: NextTimes(s, k, rng) == s
  {
    hide Permutation, RebuildOrder, Next, NextItem, NextTimes;
    RebuildRestores(q.(shuffling := true, history := []), rng);
    var s := SetShuffle(q, true, rng);
    if q.index >= 0 {
      PassVisitsAll(s, rng);
    } else {
      StartStep(s, rng);
      forall k: nat ensures NextTimes(s, k, rng) == s { StaysBefore(s, k, rng); }
    }
  }

  lemma PassVisitsAll(s: Queue, rng: Rng)
    requires Inv(s) && s.shuffling && s.repeat != All && s.items != [] && s.order != [] && s.order[0] == s.index
    ensures forall i, j :: 0 <= i < j < |s.items| ==> CursorAfter(s, i, rng) != CursorAfter(s, j, rng)
    ensures forall x :: 0 <= x < |s.items| ==> Visited(s, |s.items|, x, rng)
    ensures NextItem(NextTimes(s, |s.items| - 1, rng), rng) == None
  {
    hide Permutation, Inv;
    var n := |s.items|;
    OrderEntries(s);
    forall j | 0 <= j < n ensures CursorAfter(s, j, rng) == s.order[j] { FreshShufflePass(s, j, rng); }
    forall x | 0 <= x < n ensures Visited(s, n, x, rng) {
      var k := Find(s.order, x);
      assert CursorAfter(s, k, rng) == x;
    }
    PassEnds(s, rng);
  }

  lemma OrderEntries(s: Queue)
    requires Inv(s) && s.shuffling
    ensures |s.order| == |s.items|
    ensures forall j, k :: 0 <= j < k < |s.items| ==> s.order[j] != s.order[k]
    ensures forall x :: 0 <= x < |s.items| ==> x in s.order
  {
    PermutationEntries(s.order, |s.items|);
  }

  lemma PassEnds(s: Queue, rng: Rng)
    requires Inv(s) && s.shuffling && s.repeat != All && s.items != [] && s.order != [] && s.order[0] == s.index
    ensures NextItem(NextTimes(s, |s.items| - 1, rng), rng) == None
  {
    hide Inv, NextTimes, NextItem, PositionOf;
    var n := |s.items|;
    FreshShufflePass(s, n - 1, rng);
    LastPosition(s);
    EndOfOrder(NextTimes(s, n - 1, rng), rng);
  }

  lemma LastPosition(s: Queue)
    requires Inv(s) && s.shuffling && s.items != []
    ensures |s.order| == |s.items| && PositionOf(s.order, s.order[|s.items| - 1]) == Some(|s.items| - 1)
  {
    hide Permutation;
    PermutationEntries(s.order, |s.items|);
    PositionInPermutation(s.order, |s.items|, |s.items| - 1);
  }

  lemma EndOfOrder(p: Queue, rng: Rng)
    requires p.shuffling && p.repeat != All && PositionOf(p.order, p.index) == Some(|p.order| - 1)
    ensures NextItem(p, rng) == None
  {}

  ghost predicate Visited(s: Queue, n: nat, x: int, rng: Rng) {
    exists j :: 0 <= j < n && CursorAfter(s, j, rng) == x
  }

  lemma Find(s: seq<nat>, x: nat) returns (k: nat)
    requires x in s
    ensures k < |s| && s[k] == x
  {
    k :| 0 <= k < |s| && s[k] == x;
  }
}
