/** The player's queue stays consistent over every run, and exactly when a restored session's does. */
module PlayerQueue {
  import opened Wrappers
  import opened Floats
  import opened Order
  import opened QueueSpec
  import opened PlayerSpec
  import opened PlayerResults
  import QR = QueueResults

  /** `q` has the queue of `p`, but perhaps with the cursor moved within it. */
  ghost predicate CursorOnly(p: Player, q: Player) {
    q.queue == p.queue || (0 <= q.queue.index < |p.queue.items| && q.queue == p.queue.(index := q.queue.index))
  }

  lemma CursorKeeps(p: Player, q: Player)
    requires QR.Inv(p.queue) && CursorOnly(p, q)
    ensures QR.Inv(q.queue)
  {}

  lemma LoadQueue(p: Player, resume: Option<u64>, e: LoadEnv)
    ensures Load(p, resume, e).queue == p.queue
  {
    hide LoadFinished;
    if LoadSucceeds(p, e) {
      LoadFinishedQueue(EnsureEngine(LoadStarted(p), e.resolve.value), p.queue.Current().value, e.open.value, resume,
        e);
    }
    assert Load(p, resume, e).queue == p.queue;
  }

  lemma LoadFinishedQueue(p: Player, item: Item, info: StreamInfo, resume: Option<u64>, e: LoadEnv)
    ensures LoadFinished(p, item, info, resume, e).queue == p.queue
  {
    hide Prepared, OffsetAt, LengthOf;
    PreparedFrame(p.(lengths := p.lengths[item.trackId := info.length], rate := info.rate), e.preload, e.prepare);
  }

  lemma CompleteQueue(p: Player, f: Fade, r: CrossfadeResult, e: ApplyEnv)
    ensures CursorOnly(p, CompleteFade(p, f, r, e))
  {
    hide Prepared, ShortenOutgoing, FinishRace;
    if Applies(p, f) {
      var idx := FindItem(p.queue.items, f.target).value;
      PreparedFrame(p.(
        queue := MoveTo(p.queue, idx),
        check := Some(Check(idx, f.gen)),
        lengths := ShortenOutgoing(p.lengths, f, r.overlap)[f.target.trackId := r.info.length],
        rate := r.info.rate,
        current := Some(f.target),
        armed := false), e.preload, e.prepare);
      RaceFrame(ApplyFade(p, f, r, e), f.race);
    }
  }

  lemma BeginQueue(p: Player, race: Option<Race>, e: FadeEnv)
    ensures CursorOnly(p, BeginFade(p, p.loadingSeq, race, e))
  {
    hide CompleteFade;
    if CanBegin(p, e) && e.start.Completed? {
      CompleteQueue(p.(fading := true), NewFade(p, p.loadingSeq, race), e.start.result, e.apply);
    }
  }

  lemma TickQueue(p: Player, e: TickEnv)
    ensures CursorOnly(p, Tick(p, e))
  {
    hide BeginFade, TickMoves, TickEnds, TickFades, AlbumPosition, CurrentIndexAt;
    var q := TickSettled(p, e);
    SettledQueue(p, e);
    BeginQueue(q.(armed := true), None, e.fade);
    TickFrom(p, e);
  }

  lemma SettledQueue(p: Player, e: TickEnv)
    ensures CursorOnly(p, TickSettled(p, e))
  {
    hide TickMoves, TickEnds, AlbumPosition, CurrentIndexAt;
  }

  lemma TickFrom(p: Player, e: TickEnv)
    ensures var q := TickSettled(p, e);
      Tick(p, e).queue in {p.queue, q.queue, BeginFade(q.(armed := true), q.loadingSeq, None, e.fade).queue}
  {
    hide TickSettled, BeginFade, TickFades, AlbumPosition, CurrentIndexAt;
  }

  lemma AdvanceQueue(p: Player, e: EosEnv, rng: Rng)
    requires QR.Inv(p.queue)
    ensures QR.Inv(EosAdvance(p, e, rng).queue)
  {
    hide Tick, Load, Next, NextItem, Gapless, QR.Inv;
    var same := p.(queue := MoveTo(p.queue, p.queue.index));
    QR.StepKeeps(p.queue, QR.MoveToOp(p.queue.index), rng);
    LoadQueue(same, Some(0), e.load);
    var q := p.(queue := Next(p.queue, rng));
    QR.NextKeeps(p.queue, rng);
    LoadQueue(q, None, e.load);
    TickQueue(q.(pendingEnded := true), e.tick);
    CursorKeeps(q, Tick(q.(pendingEnded := true), e.tick));
    forall item, info ensures Gapless(q, item, info, e).queue == q.queue { GaplessQueue(q, item, info, e); }
    assert QR.Inv(EosAdvance(p, e, rng).queue);
  }

  lemma GaplessQueue(p: Player, item: Item, info: StreamInfo, e: EosEnv)
    ensures Gapless(p, item, info, e).queue == p.queue
  {
    hide Prepared;
    PreparedFrame(p.(lengths := p.lengths[item.trackId := info.length], rate := info.rate), e.preload, e.prepare);
  }

  lemma EosQueue(p: Player, e: EosEnv, rng: Rng)
    requires QR.Inv(p.queue)
    ensures QR.Inv(Eos(p, e, rng).queue)
  {
    hide BeginFade, EosAdvance, FadeAtEosTakes, EosFadeWanted, QR.Inv;
    var q := p.(eosInFlight := true);
    var f := FadeAtEos(q, e.fade);
    BeginQueue(q, Some(EosRace(q, e.fade)), e.fade.fade);
    CursorKeeps(q, f);
    AdvanceQueue(f, e, rng);
    assert QR.Inv(Eos(p, e, rng).queue);
  }

  lemma SeekQueue(p: Player, seconds: F64, e: LoadEnv)
    ensures CursorOnly(p, Seek(p, seconds, e))
  {
    hide SeekTo, SeekSamples;
    var q := p.(transportSeq := p.transportSeq + 1, loadingSeq := p.loadingSeq + 1);
    var pos := SeekSamples(seconds, p.rate);
    if pos.Some? { SeekToQueue(q, pos.value, e); }
  }

  lemma SeekToQueue(p: Player, pos: u64, e: LoadEnv)
    ensures CursorOnly(p, SeekTo(p, pos, e))
  {
    hide Load, CurrentIndexAt, OffsetAt, WithinTrack, LoadSucceeds;
    var moved := p.(queue := MoveTo(p.queue, CurrentIndexAt(p, pos)));
    LoadQueue(moved, None, e);
    assert SeekTo(p, pos, e).queue in {p.queue, moved.queue};
  }

  lemma PlayItemQueue(p: Player, item: Item, e: LoadEnv, rng: Rng)
    ensures PlayItem(p, item, e, rng).queue == PlayNow(p.queue, item, rng)
  {
    hide Load, PlayNow;
    LoadQueue(p.(pauseIntent := false, state := Loading, queue := PlayNow(p.queue, item, rng)), None, e);
  }

  lemma PlayAllQueue(p: Player, items: seq<Item>, start: int, e: LoadEnv, rng: Rng)
    ensures PlayAll(p, items, start, e, rng).queue == PlaySequence(p.queue, items, start, rng)
  {
    hide Load, RebuildOrder;
    LoadQueue(p.(pauseIntent := false, state := Loading, queue := PlaySequence(p.queue, items, start, rng)), None, e);
  }

  lemma PlayIndexQueue(p: Player, i: int, e: LoadEnv)
    ensures PlayQueueIndex(p, i, e).queue == MoveTo(p.queue, i)
  {
    hide Load;
    LoadQueue(p.(pauseIntent := false, state := Loading, queue := MoveTo(p.queue, i)), None, e);
  }

  lemma SkipQueues(p: Player, late: bool, e: LoadEnv, rng: Rng)
    ensures SkipNext(p, e, rng).queue == QR.Step(p.queue, QR.NextOp, rng)
    ensures SkipPrevious(p, late, e).queue in {p.queue, QR.Step(p.queue, QR.PreviousOp, rng)}
  {
    hide Load, Next, QueueSpec.Previous, NextItem, PreviousItem;
    LoadQueue(p.(loadingSeq := p.loadingSeq + 1, queue := Next(p.queue, rng)), None, e);
    LoadQueue(p.(loadingSeq := p.loadingSeq + 1, queue := QueueSpec.Previous(p.queue)), None, e);
  }

  lemma OtherQueues(p: Player, plays: bool, e: LoadEnv)
    ensures Resume(p, plays, e).queue == p.queue
    ensures TogglePlay(p, plays, e).queue == p.queue
    ensures QueueChanged(p, e).queue == p.queue
  {
    hide Load;
    forall q: Player, resume, f ensures Load(q, resume, f).queue == q.queue { LoadQueue(q, resume, f); }
  }

  lemma NavigationQueue(p: Player, op: Op, rng: Rng)
    requires QR.Inv(p.queue) && Navigates(op)
    ensures QR.Inv(Step(p, op, rng).queue)
  {
    hide QR.Inv, PlayNow, PlaySequence, MoveTo, Next, QueueSpec.Previous;
    hide PlayItem, PlayAll, PlayQueueIndex, SkipNext, SkipPrevious, Seek;
    match op {
      case PlayItemOp(item, e) =>
        PlayItemQueue(p, item, e, rng);
        QR.StepKeeps(p.queue, QR.PlayNowOp(item), rng);
      case PlayAllOp(items, start, e) =>
        PlayAllQueue(p, items, start, e, rng);
        QR.StepKeeps(p.queue, QR.PlaySequenceOp(items, start), rng);
      case PlayQueueIndexOp(i, e) =>
        PlayIndexQueue(p, i, e);
        QR.StepKeeps(p.queue, QR.MoveToOp(i), rng);
      case NextOp(e) => SkipQueues(p, true, e, rng); QR.StepKeeps(p.queue, QR.NextOp, rng);
      case PreviousOp(late, e) => SkipQueues(p, late, e, rng); QR.StepKeeps(p.queue, QR.PreviousOp, rng);
      case SeekOp(seconds, e) => SeekQueue(p, seconds, e); CursorKeeps(p, Seek(p, seconds, e));
    }
    assert QR.Inv(Step(p, op, rng).queue);
  }

  lemma ReportQueue(p: Player, op: Op, rng: Rng)
    requires QR.Inv(p.queue) && Reports(op)
    ensures QR.Inv(Step(p, op, rng).queue)
  {
    hide Tick, Eos, CrossfadeComplete, Primed, BufferingReported, QR.Inv;
    match op
    case TickOp(e) => TickQueue(p, e); CursorKeeps(p, Tick(p, e));
    case EosOp(e) => EosQueue(p, e, rng);
    case CrossfadeCompleteOp(r, e) => CompletionQueue(p, r, e);
    case PrimedOp(plays) => PrimedQueue(p, plays);
    case BufferingOp => PrimedQueue(p, true);
    case EngineErrorOp =>
  }

  lemma PrimedQueue(p: Player, plays: bool)
    ensures Primed(p, plays).queue == p.queue && BufferingReported(p).queue == p.queue
  {}

  lemma CompletionQueue(p: Player, r: Option<CrossfadeResult>, e: ApplyEnv)
    requires QR.Inv(p.queue)
    ensures QR.Inv(CrossfadeComplete(p, r, e).queue)
  {
    hide CompleteFade, QR.Inv;
    if p.xfade.Some? && r.Some? {
      CompleteQueue(p.(xfade := None), p.xfade.value, r.value, e);
      CursorKeeps(p, CompleteFade(p.(xfade := None), p.xfade.value, r.value, e));
    }
  }

  lemma SettingQueue(p: Player, op: Op, rng: Rng)
    requires QR.Inv(p.queue) && (op.SetRepeatOp? || op.SetShuffleOp? || op.QueueMutOp?)
    ensures QR.Inv(Step(p, op, rng).queue)
  {
    hide QR.Inv, QR.Step, OffsetAt, SetShuffle;
    match op
    case SetRepeatOp(mode) => SettingQueues(p, mode, true, rng);
    case SetShuffleOp(on) => SettingQueues(p, One, on, rng);
    case QueueMutOp(mut) => QR.StepKeeps(p.queue, mut, rng);
  }

  lemma OtherQueue(p: Player, op: Op, rng: Rng)
    requires !Navigates(op) && !Reports(op) && !Replaces(op) && !op.SetRepeatOp? && !op.SetShuffleOp? && !op.QueueMutOp?
    ensures Step(p, op, rng).queue == p.queue
  {
    hide Resume, TogglePlay, QueueChanged;
    match op
    case ToggleOp(plays, e) => OtherQueues(p, plays, e);
    case ResumeOp(plays, e) => OtherQueues(p, plays, e);
    case QueueChangedOp(e) => OtherQueues(p, true, e);
    case _ =>
  }

  /** Items and cursor are replaced, and history and order perhaps not. */
  predicate Replaces(op: Op) {
    op.RestoreOp? || op.SetAllOp?
  }

  /** Every operation that does not replace the items wholesale keeps the queue consistent. */
  lemma StepKeepsQueue(p: Player, op: Op, rng: Rng)
    requires QR.Inv(p.queue) && !Replaces(op)
    ensures QR.Inv(Step(p, op, rng).queue)
  {
    hide QR.Inv, Step;
    if Navigates(op) {
      NavigationQueue(p, op, rng);
    } else if Reports(op) {
      ReportQueue(p, op, rng);
    } else if op.SetRepeatOp? || op.SetShuffleOp? || op.QueueMutOp? {
      SettingQueue(p, op, rng);
    } else {
      OtherQueue(p, op, rng);
    }
  }

  lemma SettingQueues(p: Player, mode: RepeatMode, on: bool, rng: Rng)
    requires QR.Inv(p.queue)
    ensures QR.Inv(SetRepeat(p.queue, mode)) && QR.Inv(SetShuffling(p, on, rng).queue)
  {
    hide OffsetAt, SetShuffle, QR.Inv;
    QR.StepKeeps(p.queue, QR.SetRepeatOp(mode), rng);
    QR.StepKeeps(p.queue, QR.SetShuffleOp(on), rng);
  }

  /** Over every run without a restore or a `set_all` the queue stays consistent. */
  lemma {:induction false} RunKeepsQueue(p: Player, ops: seq<Op>, rng: Rng)
    requires QR.Inv(p.queue) && forall k :: 0 <= k < |ops| ==> !Replaces(ops[k])
    ensures QR.Inv(Run(p, ops, rng).queue)
    decreases |ops|
  {
    hide QR.Inv, Step;
    if ops != [] {
      StepKeepsQueue(p, ops[0], rng);
      RunKeepsQueue(Step(p, ops[0], rng), ops[1..], rng);
    }
  }

  // ---- restoring -------------------------------------------------------

  /**
   `set_all` checks nothing and leaves history and order alone, so it is safe exactly when all
   three fit the new items.
   */
  lemma SetAllKeepsIff(q: Queue, items: seq<Item>, index: int)
    requires QR.Inv(q)
    ensures QR.Inv(SetAll(q, items, index)) <==>
      -1 <= index < |items| && (forall k :: 0 <= k < |q.history| ==> q.history[k] < |items|)
        && (q.shuffling ==> |items| == |q.items|)
  {
    hide QR.Permutation;
    if q.shuffling {
      QR.PermutationEntries(q.order, |q.items|);
      if QR.Permutation(q.order, |items|) { QR.PermutationEntries(q.order, |items|); }
    }
  }

  /** What a restore finds that its new items need not fit. */
  predicate Fits(q: Queue, items: seq<Item>, shuffle: bool) {
    if shuffle && !q.shuffling then true
    else (forall k :: 0 <= k < |q.history| ==> q.history[k] < |items|) && (q.shuffling ==> |items| == |q.items|)
  }

  /** A restored queue is consistent exactly when a reshuffle starts afresh or what was there fits. */
  lemma RestoreKeepsIff(p: Player, items: seq<Item>, index: int, position: F64, repeat: RepeatMode, shuffle: bool,
      crossfade: F64, rng: Rng)
    requires QR.Inv(p.queue)
    ensures QR.Inv(Restore(p, items, index, position, repeat, shuffle, crossfade, rng).queue) <==>
      items == [] || Fits(p.queue, items, shuffle)
  {
    hide RestoredWithin, LengthOf, FadeChoice, QR.Permutation, RebuildOrder;
    if items != [] {
      var i := Clamp(index, 0, |items| - 1);
      var q := SetRepeat(p.queue, repeat);
      SetAllKeepsIff(q, items, i);
      QR.RebuildRestores(SetAll(q, items, i).(shuffling := true, history := []), rng);
    }
  }

  /** A shuffle over two items from the first: the other one follows. */
  lemma PairOrder(q: Queue, rng: Rng)
    requires |q.items| == 2 && q.index == 0 && q.shuffling
    ensures RebuildOrder(q, rng).order == [0, 1]
  {
    assert Upcoming(2, 0) == [1] by { assert Upcoming(1, 0) == Upcoming(0, 0) == []; }
    assert Shuffled([1 as nat], rng, q.drawn) == [1];
  }

  /** A run that gets there: a longer queue played before leaves history that a restore keeps. */
  lemma RestoreBreaks(a: Item, b: Item, e: LoadEnv, position: F64, rng: Rng)
    ensures var p := Run(NewPlayer(Empty()), [PlayAllOp([a, b], 1, e), NextOp(e)], rng);
      QR.Inv(p.queue) && !QR.Inv(Step(p, RestoreOp([a], 0, position, Off, false, Fin(0.0)), rng).queue)
  {
    hide *;
    var p0 := NewPlayer(Empty());
    var p1 := Step(p0, PlayAllOp([a, b], 1, e), rng);
    var p := Step(p1, NextOp(e), rng);
    TwoSteps(p0, PlayAllOp([a, b], 1, e), NextOp(e), rng);
    LastPlayed(a, b, e, rng);
    RestoreStep(p, [a], position, false, rng);
    RestoreKeepsIff(p, [a], 0, position, Off, false, Fin(0.0), rng);
    HistoryTooLong(p.queue, a);
  }

  /** Playing the last of two items and asking for the next leaves its position in the history. */
  lemma LastPlayed(a: Item, b: Item, e: LoadEnv, rng: Rng)
    ensures var p1 := Step(NewPlayer(Empty()), PlayAllOp([a, b], 1, e), rng);
      var q := Step(p1, NextOp(e), rng).queue;
      QR.Inv(q) && q.history == [1]
  {
    hide QR.Inv, PlayAll, SkipNext;
    var p0 := NewPlayer(Empty());
    NewQueue();
    PlayAllQueue(p0, [a, b], 1, e, rng);
    QR.StepKeeps(p0.queue, QR.PlaySequenceOp([a, b], 1), rng);
    var p1 := Step(p0, PlayAllOp([a, b], 1, e), rng);
    SkipQueues(p1, true, e, rng);
    QR.NextKeeps(p1.queue, rng);
  }

  lemma RestoreStep(p: Player, items: seq<Item>, position: F64, shuffle: bool, rng: Rng)
    ensures Step(p, RestoreOp(items, 0, position, Off, shuffle, Fin(0.0)), rng)
      == Restore(p, items, 0, position, Off, shuffle, Fin(0.0), rng)
  {
    hide Restore;
  }

  lemma HistoryTooLong(q: Queue, a: Item)
    requires q.history == [1]
    ensures !Fits(q, [a], false)
  {
    assert q.history[0] == 1;
  }

  /** And a worse one: shuffling over a longer queue, restoring a shuffled session, and the cursor leaves the queue. */
  lemma RestoreLosesCursor(a: Item, b: Item, e: LoadEnv, position: F64, rng: Rng)
    ensures var p := Run(NewPlayer(Empty()), [PlayAllOp([a, b], 0, e), SetShuffleOp(true)], rng);
      var r := Step(p, RestoreOp([a], 0, position, Off, true, Fin(0.0)), rng);
      var n := Step(r, NextOp(e), rng);
      QR.Inv(p.queue) && n.queue.items == [a] && n.queue.index == 1 && n.queue.Current() == None
  {
    hide QR.Inv, Load, Restore;
    var p0 := NewPlayer(Empty());
    var p1 := Step(p0, PlayAllOp([a, b], 0, e), rng);
    var p := Step(p1, SetShuffleOp(true), rng);
    var r := Step(p, RestoreOp([a], 0, position, Off, true, Fin(0.0)), rng);
    NewQueue();
    StepKeepsQueue(p0, PlayAllOp([a, b], 0, e), rng);
    StepKeepsQueue(p1, SetShuffleOp(true), rng);
    PlayAllQueue(p0, [a, b], 0, e, rng);
    ShuffledPair(p1, rng);
    TwoSteps(p0, PlayAllOp([a, b], 0, e), SetShuffleOp(true), rng);
    RestoredQueue(p, [a], position, rng);
    SkipQueues(r, true, e, rng);
    StaleNext(r.queue, rng);
  }

  lemma NewQueue()
    ensures QR.Inv(NewPlayer(Empty()).queue)
  {}

  lemma TwoSteps(p: Player, first: Op, second: Op, rng: Rng)
    ensures Run(p, [first, second], rng) == Step(Step(p, first, rng), second, rng)
  {
    hide Step;
    var q := Step(p, first, rng);
    assert [first, second][1..] == [second] && [second][1..] == [];
    assert Run(q, [second], rng) == Run(Step(q, second, rng), [], rng);
  }

  lemma ShuffledPair(p: Player, rng: Rng)
    requires |p.queue.items| == 2 && p.queue.index == 0 && !p.queue.shuffling
    ensures var q := Step(p, SetShuffleOp(true), rng).queue;
      q.shuffling && q.items == p.queue.items && q.index == 0 && q.order == [0, 1]
  {
    hide OffsetAt, Upcoming, Shuffled;
    PairOrder(p.queue.(shuffling := true, history := []), rng);
  }

  lemma RestoredQueue(p: Player, items: seq<Item>, position: F64, rng: Rng)
    requires |items| == 1 && p.queue.shuffling
    ensures Step(p, RestoreOp(items, 0, position, Off, true, Fin(0.0)), rng).queue
      == p.queue.(items := items, index := 0, repeat := Off)
  {
    hide RestoredWithin, LengthOf, FadeChoice;
  }

  lemma StaleNext(q: Queue, rng: Rng)
    requires |q.items| == 1 && q.index == 0 && q.shuffling && q.order == [0, 1]
    ensures Next(q, rng).items == q.items && Next(q, rng).index == 1
  {
    assert PositionOf(q.order, 0) == Some(0);
  }
}
