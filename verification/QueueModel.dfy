/** The queue object, updated in place; each method's new state is its operation's value. */
module QueueModel {
  import opened Wrappers
  import opened Floats
  import opened Order
  import Q = QueueSpec

  type Item = Q.Item

  class QueueModel {
    const rng: Rng
    var items: seq<Item>
    var index: int
    var order: seq<nat>
    var history: seq<int>
    var repeat: RepeatMode
    var shuffling: bool
    /** How many random values have been drawn. */
    var drawn: nat

    function State(): Q.Queue
      reads this
    {
      Q.Queue(items, index, order, history, repeat, shuffling, drawn)
    }

    constructor (rng: Rng)
      ensures this.rng == rng && State() == Q.Empty()
    {
      this.rng := rng;
      items, index, order, history := [], -1, [], [];
      repeat, shuffling, drawn := Off, false, 0;
    }

    method At(i: int) returns (r: Option<Item>)
      ensures r == State().At(i)
    {
      if i < 0 {
        return None;
      }
      r := if i < |items| then Some(items[i]) else None;
    }

    method Current() returns (r: Option<Item>)
      ensures r == State().Current()
    {
      r := At(index);
    }

    method SetAll(items: seq<Item>, index: int)
      modifies this
      ensures State() == Q.SetAll(old(State()), items, index)
    {
      this.items := items;
      this.index := index;
    }

    method SetRepeat(mode: RepeatMode)
      modifies this
      ensures State() == Q.SetRepeat(old(State()), mode)
    {
      repeat := mode;
    }

    method SetShuffle(on: bool)
      modifies this
      ensures State() == Q.SetShuffle(old(State()), on, rng)
    {
      if shuffling == on {
        return;
      }
      shuffling := on;
      history := [];
      RebuildOrder();
    }

    method PlaySequence(items: seq<Item>, startIndex: int) returns (r: Option<Item>)
      modifies this
      ensures State() == Q.PlaySequence(old(State()), items, startIndex, rng)
      ensures r == if items == [] then None else State().Current()
    {
      if |items| == 0 {
        return None;
      }
      var i := Clamp(startIndex, 0, |items| - 1);
      this.items := items;
      this.index := i;
      history := [];
      RebuildOrder();
      r := Some(this.items[i]);
    }

    method PlayNow(item: Item)
      modifies this
      ensures State() == Q.PlayNow(old(State()), item, rng)
    {
      items := [item];
      index := 0;
      history := [];
      RebuildOrder();
    }

    method PlayNext(item: Item)
      modifies this
      ensures State() == Q.PlayNext(old(State()), item, rng)
    {
      if |items| == 0 {
        items := [item];
        index := 0;
      } else {
        var at := Min(MaxInt(index + 1, 0), |items|);
        items := items[..at] + [item] + items[at..];
      }
      RebuildOrder();
    }

    method Enqueue(item: Item)
      modifies this
      ensures State() == Q.EnqueueMany(old(State()), [item], rng)
    {
      items := items + [item];
      RebuildOrder();
    }

    method EnqueueMany(more: seq<Item>)
      modifies this
      ensures State() == Q.EnqueueMany(old(State()), more, rng)
    {
      items := items + more;
      RebuildOrder();
    }

    method Next() returns (r: Option<Item>)
      modifies this
      ensures State() == Q.Next(old(State()), rng) && r == Q.NextItem(old(State()), rng)
    {
      var target := PeekNextIndex();
      if target.None? {
        return None;
      }
      index := target.value;
      r := if 0 <= target.value < |items| then Some(items[target.value]) else None;
    }

    method Previous() returns (r: Option<Item>)
      modifies this
      ensures State() == Q.Previous(old(State())) && r == Q.PreviousItem(old(State()))
    {
      var target := PeekPrevIndex();
      if target.None? {
        return None;
      }
      index := target.value;
      r := if 0 <= target.value < |items| then Some(items[target.value]) else None;
    }

    method MoveTo(i: int)
      modifies this
      ensures State() == Q.MoveTo(old(State()), i)
    {
      if i < 0 || i >= |items| {
        return;
      }
      index := i;
    }

    method MoveItem(from: int, to: int)
      modifies this
      ensures State() == Q.MoveItem(old(State()), from, to, rng)
    {
      var n := |items|;
      if from < 0 || from >= n || to < 0 || to >= n || from == to {
        return;
      }
      var moved := items[from];
      items := items[..from] + items[from + 1..];
      items := items[..to] + [moved] + items[to..];
      history := Q.MapRemap(history, from, to);
      index := Q.Remap(index, from, to);
      RebuildOrder();
    }

    method RemoveAt(i: int)
      modifies this
      ensures State() == Q.RemoveAt(old(State()), i, rng)
    {
      if i < 0 || i >= |items| {
        return;
      }
      var shift := if i < index then 1 else 0;
      var wasCurrent := i == index;
      items := items[..i] + items[i + 1..];
      var next := index - shift;
      if wasCurrent {
        next := Min(next, |items| - 1);
      }
      history := Q.Without(history, i);
      history := Q.ShiftDown(history, i);
      index := next;
      RebuildOrder();
    }

    method Clear()
      modifies this
      ensures State() == Q.Clear(old(State()))
    {
      items, index, history, order := [], -1, [], [];
    }

    method RebuildOrder()
      modifies `order, `drawn
      ensures State() == Q.RebuildOrder(old(State()), rng)
    {
      if !shuffling || |items| == 0 {
        order := [];
        return;
      }
      var upcoming: seq<nat> := [];
      for i := 0 to |items|
        invariant upcoming == Q.Upcoming(i, index)
      {
        if i != index {
          upcoming := upcoming + [i];
        }
      }
      var rest;
      rest, drawn := ShuffleOrder(upcoming, rng, drawn);
      if index >= 0 {
        order := [index] + rest;
      } else {
        order := rest;
        assert [] + rest == rest;
      }
    }

    method PushHistory(from: int)
      modifies `history
      ensures history == Q.PushHistory(old(history), from)
    {
      if from >= 0 {
        history := history + [from];
      }
      if |history| > Q.HISTORY_LIMIT {
        var excess := |history| - Q.HISTORY_LIMIT;
        history := history[excess..];
      }
    }

    method PeekNextIndex() returns (r: Option<int>)
      modifies this
      ensures State() == Q.Peeked(old(State()), rng) && r == Q.NextTarget(old(State()), rng)
    {
      if |items| == 0 {
        return None;
      }
      var cursor := index;
      PushHistory(cursor);
      if !shuffling {
        return NextIndexUnderRepeat(cursor, |items|, repeat);
      }
      var pos := Q.PositionOf(order, cursor);
      if pos.Some? && pos.value + 1 < |order| {
        return Some(order[pos.value + 1]);
      }
      if repeat == All {
        RebuildOrder();
        return if order == [] then None else Some(order[0]);
      }
      return None;
    }

    method PeekPrevIndex() returns (r: Option<int>)
      modifies `history
      ensures State() == Q.Popped(old(State())) && r == Q.PrevTarget(old(State()))
    {
      if |items| == 0 {
        return None;
      }
      while |history| > 0
        invariant Q.PopHistory(history, |items|, index) == Q.PopHistory(old(history), |items|, index)
        decreases |history|
      {
        var prev := history[|history| - 1];
        history := history[..|history| - 1];
        if Q.Usable(prev, |items|, index) {
          return Some(prev);
        }
      }
      if !shuffling {
        return if index - 1 >= 0 then Some(index - 1) else None;
      }
      var pos := Q.PositionOf(order, index);
      return match pos
        case Some(k) => if k > 0 then Some(order[k - 1] as int) else None
        case None => None;
    }
  }
}
