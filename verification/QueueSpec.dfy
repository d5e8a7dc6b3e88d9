/**
 The queue as a value: canonical items and cursor, a presentation order while shuffling,
 and a history of cursor positions. Each operation maps a queue to the queue after it; the
 `QueueModel` class carries the same fields and is proved to take the same steps. Random values
 are drawn from a stream that is an argument of every operation that can shuffle.
 */
module QueueSpec {
  import opened Wrappers
  import opened Floats
  import opened Order

  /** A queue entry: its own identity, the track it plays and a duration hint in seconds. */
  datatype Item = Item(id: string, trackId: int, hint: Option<F64>)

  const HISTORY_LIMIT: nat := 500

  datatype Queue = Queue(
    items: seq<Item>,
    index: int,
    order: seq<nat>,
    history: seq<int>,
    repeat: RepeatMode,
    shuffling: bool,
    drawn: nat)
  {
    function At(i: int): Option<Item> {
      if 0 <= i < |items| then Some(items[i]) else None
    }

    function Current(): Option<Item> {
      At(index)
    }
  }

  function Empty(): Queue {
    Queue([], -1, [], [], Off, false, 0)
  }

  // ---- ordering --------------------------------------------------------

  /** All positions below `n` but the cursor, ascending. */
  function Upcoming(n: nat, index: int): (r: seq<nat>) {
    if n == 0 then []
    else if n - 1 != index then Upcoming(n - 1, index) + [n - 1]
    else Upcoming(n - 1, index)
  }

  /** A new presentation order, the cursor's item first. */
  function RebuildOrder(q: Queue, rng: Rng): Queue {
    if !q.shuffling || q.items == [] then q.(order := [])
    else
      var upcoming := Upcoming(|q.items|, q.index);
      var rest := Shuffled(upcoming, rng, q.drawn);
      q.(order := (if q.index >= 0 then [q.index] else []) + rest, drawn := q.drawn + Draws(|upcoming|))
  }

  /** The first position of `x`. */
  function PositionOf(s: seq<nat>, x: int): (r: Option<nat>)
    ensures r.None? ==> forall k :: 0 <= k < |s| ==> s[k] != x
    ensures r.Some? ==> r.value < |s| && s[r.value] == x && forall k :: 0 <= k < r.value ==> s[k] != x
  {
    if s == [] then None
    else if s[0] == x then Some(0)
    else match PositionOf(s[1..], x)
      case None =>
        assert forall k :: 0 < k < |s| ==> s[k] == s[1..][k - 1];
        None
      case Some(k) =>
        assert forall k :: 0 < k < |s| ==> s[k] == s[1..][k - 1];
        Some(k + 1)
  }

  // ---- operations ------------------------------------------------------

  function SetAll(q: Queue, items: seq<Item>, index: int): Queue {
    q.(items := items, index := index)
  }

  function SetRepeat(q: Queue, mode: RepeatMode): Queue {
    q.(repeat := mode)
  }

  function SetShuffle(q: Queue, on: bool, rng: Rng): Queue {
    if q.shuffling == on then q else RebuildOrder(q.(shuffling := on, history := []), rng)
  }

  function PlaySequence(q: Queue, items: seq<Item>, start: int, rng: Rng): Queue {
    if items == [] then q
    else RebuildOrder(q.(items := items, index := Clamp(start, 0, |items| - 1), history := []), rng)
  }

  function PlayNow(q: Queue, item: Item, rng: Rng): Queue {
    RebuildOrder(q.(items := [item], index := 0, history := []), rng)
  }

  function InsertAt(s: seq<Item>, at: nat, x: Item): (r: seq<Item>)
    requires at <= |s|
    ensures |r| == |s| + 1
  {
    s[..at] + [x] + s[at..]
  }

  function PlayNext(q: Queue, item: Item, rng: Rng): Queue {
    if q.items == [] then RebuildOrder(q.(items := [item], index := 0), rng)
    else RebuildOrder(q.(items := InsertAt(q.items, Min(MaxInt(q.index + 1, 0), |q.items|), item)), rng)
  }

  function EnqueueMany(q: Queue, items: seq<Item>, rng: Rng): Queue {
    RebuildOrder(q.(items := q.items + items), rng)
  }

  /** Remembers a cursor position, forgetting the oldest beyond the limit. */
  function PushHistory(history: seq<int>, from: int): (h: seq<int>)
    ensures |history| <= HISTORY_LIMIT ==> |h| <= HISTORY_LIMIT
  {
    var h := if from >= 0 then history + [from] else history;
    if |h| > HISTORY_LIMIT then h[|h| - HISTORY_LIMIT..] else h
  }

  /** The presentation order's successor of the cursor. */
  function OrderNext(q: Queue): Option<int> {
    var pos := PositionOf(q.order, q.index);
    if pos.Some? && pos.value + 1 < |q.order| then Some(q.order[pos.value + 1]) else None
  }

  /** Repeat-all has come to the end of a shuffled order. */
  predicate Reshuffles(q: Queue) {
    q.items != [] && q.shuffling && q.repeat == All && OrderNext(q).None?
  }

  function Pushed(q: Queue): Queue {
    q.(history := PushHistory(q.history, q.index))
  }

  /** The queue once `next` has looked ahead: history pushed, order rebuilt on a wrap. */
  function Peeked(q: Queue, rng: Rng): Queue {
    if q.items == [] then q
    else if Reshuffles(q) then RebuildOrder(Pushed(q), rng)
    else Pushed(q)
  }

  /** Where `next` goes. */
  function NextTarget(q: Queue, rng: Rng): Option<int> {
    if q.items == [] then None
    else if !q.shuffling then NextIndexUnderRepeat(q.index, |q.items|, q.repeat)
    else if OrderNext(q).Some? then OrderNext(q)
    else if q.repeat == All then
      var order := Peeked(q, rng).order;
      if order == [] then None else Some(order[0])
    else None
  }

  function Next(q: Queue, rng: Rng): Queue {
    var t := NextTarget(q, rng);
    if t.None? then Peeked(q, rng) else Peeked(q, rng).(index := t.value)
  }

  /** The item `next` reports. */
  function NextItem(q: Queue, rng: Rng): Option<Item> {
    var t := NextTarget(q, rng);
    if t.None? then None else q.At(t.value)
  }

  predicate Usable(h: int, n: nat, index: int) {
    0 <= h < n && h != index
  }

  /** Drops history entries from the newest until one is usable. */
  function PopHistory(history: seq<int>, n: nat, index: int): (r: seq<int>)
    ensures |r| <= |history| && r == history[..|r|]
  {
    if history == [] || Usable(history[|history| - 1], n, index) then history
    else PopHistory(history[..|history| - 1], n, index)
  }

  /** Where `previous` goes: the newest usable history entry, else one step back in play order. */
  function PrevTarget(q: Queue): Option<int> {
    if q.items == [] then None else
      var h := PopHistory(q.history, |q.items|, q.index);
      if h != [] then Some(h[|h| - 1])
      else if !q.shuffling then (if q.index - 1 >= 0 then Some(q.index - 1) else None)
      else match PositionOf(q.order, q.index)
        case Some(k) => if k > 0 then Some(q.order[k - 1] as int) else None
        case None => None
  }

  /** The queue with the history entries `previous` consumes popped. */
  function Popped(q: Queue): Queue {
    if q.items == [] then q else
      var h := PopHistory(q.history, |q.items|, q.index);
      q.(history := if h == [] then [] else h[..|h| - 1])
  }

  function Previous(q: Queue): Queue {
    var t := PrevTarget(q);
    if t.None? then Popped(q) else Popped(q).(index := t.value)
  }

  function PreviousItem(q: Queue): Option<Item> {
    var t := PrevTarget(q);
    if t.None? then None else q.At(t.value)
  }

  function MoveTo(q: Queue, i: int): Queue {
    if 0 <= i < |q.items| then q.(index := i) else q
  }

  function RemoveItem(s: seq<Item>, i: nat): (r: seq<Item>)
    requires i < |s|
    ensures |r| == |s| - 1
  {
    s[..i] + s[i + 1..]
  }

  /** Where position `i` ends up when the item at `from` moves to `to`. */
  function Remap(i: int, from: int, to: int): int {
    if i == from then to
    else if from < to && from < i <= to then i - 1
    else if from > to && to <= i < from then i + 1
    else i
  }

  function MapRemap(h: seq<int>, from: int, to: int): (r: seq<int>)
    ensures |r| == |h| && forall k :: 0 <= k < |h| ==> r[k] == Remap(h[k], from, to)
  {
    seq(|h|, k requires 0 <= k < |h| => Remap(h[k], from, to))
  }

  function MoveItem(q: Queue, from: int, to: int, rng: Rng): Queue {
    var n := |q.items|;
    if from < 0 || from >= n || to < 0 || to >= n || from == to then q
    else RebuildOrder(q.(
      items := InsertAt(RemoveItem(q.items, from), to, q.items[from]),
      history := MapRemap(q.history, from, to),
      index := Remap(q.index, from, to)), rng)
  }

  /** Entries other than `i`, in order. */
  function Without(h: seq<int>, i: int): (r: seq<int>)
    ensures |r| <= |h|
    ensures forall x :: x in r <==> x in h && x != i
  {
    if h == [] then [] else
      var t := Without(h[..|h| - 1], i);
      var x := h[|h| - 1];
      assert h == h[..|h| - 1] + [x];
      if x == i then t else t + [x]
  }

  /** Positions after the removal of position `i`. */
  function ShiftDown(h: seq<int>, i: int): (r: seq<int>)
    ensures |r| == |h| && forall k :: 0 <= k < |h| ==> r[k] == if h[k] > i then h[k] - 1 else h[k]
  {
    seq(|h|, k requires 0 <= k < |h| => if h[k] > i then h[k] - 1 else h[k])
  }

  function RemoveAt(q: Queue, i: int, rng: Rng): Queue {
    if i < 0 || i >= |q.items| then q else
      var items := RemoveItem(q.items, i);
      var index := if i < q.index then q.index - 1 else q.index;
      RebuildOrder(q.(
        items := items,
        history := ShiftDown(Without(q.history, i), i),
        index := if i == q.index then Min(index, |items| - 1) else index), rng)
  }

  function Clear(q: Queue): Queue {
    q.(items := [], index := -1, history := [], order := [])
  }

  /** What the player preloads: the item it expects `next` to move to from position `qi`. */
  function PeekPreloadTarget(q: Queue, qi: int): Option<Item> {
    if q.shuffling then
      var next := OrderNext(q.(index := qi));
      if next.Some? then q.At(next.value)
      else if q.repeat == All then (if q.order == [] then None else q.At(q.order[0]))
      else None
    else if qi + 1 < |q.items| then q.At(qi + 1)
    else if q.repeat == All && q.items != [] then q.At(0)
    else None
  }
}
