/** Where items stand after the list is edited, position by position. */
module QueueEdits {
  import opened Wrappers
  import opened Floats
  import opened Order
  import opened QueueSpec

  /** Skipping position `i`. */
  function Past(k: nat, i: nat): nat {
    if k < i then k else k + 1
  }

  /** A rebuild leaves items, cursor and history alone. */
  lemma RebuildEdits(q: Queue, rng: Rng)
    ensures var r := RebuildOrder(q, rng);
      r.items == q.items && r.index == q.index && r.history == q.history && r.shuffling == q.shuffling
      && r.repeat == q.repeat
  {
    hide Shuffled, Upcoming;
  }

  /** Moving puts the item where it was told and keeps the others in their order. */
  lemma MoveItemPlaces(q: Queue, from: nat, to: nat, rng: Rng)
    requires from < |q.items| && to < |q.items|
    ensures var r := MoveItem(q, from, to, rng);
      && |r.items| == |q.items| && r.items[to] == q.items[from]
      && forall k :: 0 <= k < |q.items| - 1 ==> r.items[Past(k, to)] == q.items[Past(k, from)]
  {
    hide RebuildOrder;
    if from != to {
      RebuildEdits(q.(items := InsertAt(RemoveItem(q.items, from), to, q.items[from]),
        history := MapRemap(q.history, from, to), index := Remap(q.index, from, to)), rng);
    }
  }

  /** Removing takes out that item alone. */
  lemma RemoveAtPlaces(q: Queue, i: nat, rng: Rng)
    requires i < |q.items|
    ensures var r := RemoveAt(q, i, rng);
      && |r.items| == |q.items| - 1 && forall k :: 0 <= k < |q.items| - 1 ==> r.items[k] == q.items[Past(k, i)]
  {
    hide RebuildOrder;
    var items := RemoveItem(q.items, i);
    var index := if i < q.index then q.index - 1 else q.index;
    RebuildEdits(q.(items := items, history := ShiftDown(Without(q.history, i), i),
      index := if i == q.index then Min(index, |items| - 1) else index), rng);
  }

  /** `play_next` inserts directly after the cursor, which stays; unless shuffling, that item is what `next` gives. */
  lemma PlayNextIsNext(q: Queue, item: Item, rng: Rng)
    requires -1 <= q.index < |q.items| && q.items != []
    ensures var r := PlayNext(q, item, rng);
      && |r.items| == |q.items| + 1 && r.items[q.index + 1] == item && r.index == q.index && r.history == q.history
      && (forall k :: 0 <= k < |q.items| ==> r.items[Past(k, q.index + 1)] == q.items[k])
      && (!q.shuffling ==> NextItem(r, rng) == Some(item))
  {
    hide RebuildOrder;
    RebuildEdits(q.(items := InsertAt(q.items, q.index + 1, item)), rng);
  }

  /** Into an empty queue it becomes the current item. */
  lemma PlayNextEmpty(q: Queue, item: Item, rng: Rng)
    requires q.items == []
    ensures PlayNext(q, item, rng).items == [item] && PlayNext(q, item, rng).Current() == Some(item)
  {
    RebuildEdits(q.(items := [item], index := 0), rng);
  }

  /** Enqueueing appends. */
  lemma EnqueueAppends(q: Queue, items: seq<Item>, rng: Rng)
    ensures var r := EnqueueMany(q, items, rng);
      && r.items == q.items + items && r.index == q.index && r.history == q.history
  {
    RebuildEdits(q.(items := q.items + items), rng);
  }

  /** A new sequence starts at the asked item, or the nearest there is, with nothing to go back to. */
  lemma PlaySequenceStarts(q: Queue, items: seq<Item>, start: int, rng: Rng)
    requires items != []
    ensures var r := PlaySequence(q, items, start, rng);
      && r.items == items && r.history == []
      && (0 <= start < |items| ==> r.Current() == Some(items[start]))
      && (start < 0 ==> r.Current() == Some(items[0]))
      && (start >= |items| ==> r.Current() == Some(items[|items| - 1]))
  {
    RebuildEdits(q.(items := items, index := Clamp(start, 0, |items| - 1), history := []), rng);
  }

  /** Out of shuffle, `next` walks the list and `previous` without history walks it back. */
  lemma PlainSteps(q: Queue, rng: Rng)
    requires !q.shuffling && 0 <= q.index < |q.items|
    ensures q.index + 1 < |q.items| ==> Next(q, rng).index == q.index + 1 && Next(q, rng).items == q.items
    ensures q.index + 1 == |q.items| && q.repeat == All ==> Next(q, rng).index == 0
    ensures q.index + 1 == |q.items| && q.repeat != All ==> Next(q, rng).index == q.index && NextItem(q, rng) == None
    ensures q.history == [] && q.index > 0 ==> QueueSpec.Previous(q).index == q.index - 1
    ensures q.history == [] && q.index == 0 ==> QueueSpec.Previous(q) == q && PreviousItem(q) == None
  {}
}
