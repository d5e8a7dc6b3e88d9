/** What the transport commands do: where a load starts, how play and pause toggle, where a restored session resumes. */
module PlayerTransport {
  import opened Wrappers
  import opened Floats
  import opened Order
  import opened QueueSpec
  import opened PlayerSpec
  import opened PlayerBoundary
  import opened PlayerSeek
  import PlayerResults
  import PlayerQueue
  import QR = QueueResults
  import QueueEdits

  // ---- loads -----------------------------------------------------------

  /** The player once the opened track's length and rate are known. */
  ghost function Opened(p: Player, item: Item, info: StreamInfo): Player {
    p.(lengths := p.lengths[item.trackId := info.length], rate := info.rate)
  }

  /** Where a load goes on: at the saved sample, but before the track's last one; else at its start. */
  ghost predicate GoesOnAt(resume: Option<u64>, length: u64, within: nat) {
    match resume
    case None => within == 0
    case Some(r) => within <= r && (length > 0 ==> within < length) && (within == r || within + 1 >= length)
  }

  /** The cursor's item is loaded on an engine of the resolved kind, and plays as soon as it can. */
  ghost predicate Loaded(p: Player, q: Player, e: LoadEnv) {
    && p.queue.Current().Some? && e.resolve.Some? && e.open.Some?
    && q.queue == p.queue && q.current == p.queue.Current()
    && q.engine && q.kind == e.resolve && q.rate == e.open.value.rate
    && q.epoch == (if p.engine && p.kind == e.resolve then p.epoch else p.epoch + 2)
    && q.loadingSeq == p.loadingSeq + 1 && q.transportSeq == p.transportSeq + 1
    && q.restored == None && !q.pendingEnded && !q.armed
    && q.state == (if p.pauseIntent then Paused else Buffering)
  }

  /** The clock stands `within` samples into the cursor's track, as its starts were when the track was opened. */
  ghost predicate StandsAt(p: Player, q: Player, e: LoadEnv, within: nat)
    requires p.queue.Current().Some? && e.open.Some? && p.queue.index >= 0
  {
    var k := Opened(p, p.queue.Current().value, e.open.value);
    Fits(k) && LengthSum(k, p.queue.index) + within <= U64_MAX && q.kind == Some(Musepack) ==>
      AlbumPosition(q, 0) == LengthSum(k, p.queue.index) + within
  }

  lemma LoadIs(p: Player, resume: Option<u64>, e: LoadEnv)
    requires p.queue.Current().Some? && e.resolve.Some? && e.open.Some?
    ensures Load(p, resume, e) ==
      LoadFinished(EnsureEngine(LoadStarted(p), e.resolve.value), p.queue.Current().value, e.open.value, resume, e)
  {
    hide LoadFinished, EnsureEngine;
  }

  lemma FinishedIs(a: Player, item: Item, info: StreamInfo, resume: Option<u64>, e: LoadEnv)
    ensures var q := LoadFinished(a, item, info, resume, e);
      var start := OffsetAt(Opened(a, item, info), a.queue.index);
      && q.queue == a.queue && q.current == Some(item) && q.engine == a.engine && q.kind == a.kind
      && q.rate == info.rate && q.epoch == a.epoch && q.loadingSeq == a.loadingSeq && q.transportSeq == a.transportSeq
      && q.restored == a.restored && q.pendingEnded == a.pendingEnded && q.armed == a.armed
      && q.state == PausedOr(a, Buffering)
      && q.resetOffset == SatAdd(start, ResumeAt(q, resume))
  {
    hide OffsetAt, LengthOf, Prepared, SatAdd, ResumeAt;
    var known := Opened(a, item, info);
    var ready := Prepared(known, e.preload, e.prepare);
    PreparedIs(known, e.preload, e.prepare);
    var q := LoadFinished(a, item, info, resume, e);
    ResumeReads(ready, q, resume);
  }

  /** Preparing a standby changes the length table alone. */
  lemma PreparedIs(p: Player, preload: bool, prepare: Option<StreamInfo>)
    ensures Prepared(p, preload, prepare) == p.(lengths := Prepared(p, preload, prepare).lengths)
  {
    hide Preload;
  }

  lemma ResumeReads(p: Player, q: Player, resume: Option<u64>)
    requires q.queue == p.queue && q.lengths == p.lengths && q.rate == p.rate
    ensures ResumeAt(q, resume) == ResumeAt(p, resume)
  {
    hide LengthOf;
    LengthReads(p, q, q.queue.index);
  }

  /** Lengths depend on the items, the table and the rate alone. */
  lemma LengthReads(p: Player, q: Player, i: int)
    requires q.queue.items == p.queue.items && q.lengths == p.lengths && q.rate == p.rate
    ensures LengthOf(q, i) == LengthOf(p, i)
  {}

  lemma {:induction false} SumReads(p: Player, q: Player, n: nat)
    requires q.queue.items == p.queue.items && q.lengths == p.lengths && q.rate == p.rate
    ensures LengthSum(q, n) == LengthSum(p, n)
  {
    if n > 0 {
      SumReads(p, q, n - 1);
      LengthReads(p, q, n - 1);
    }
  }

  /** A load that succeeds. */
  lemma LoadPlays(p: Player, resume: Option<u64>, e: LoadEnv) returns (within: nat)
    requires p.queue.Current().Some? && p.queue.index >= 0 && e.resolve.Some? && e.open.Some?
    ensures var q := Load(p, resume, e);
      Loaded(p, q, e) && GoesOnAt(resume, LengthOf(q, p.queue.index), within) && StandsAt(p, q, e, within)
  {
    hide LoadFinished, OffsetAt, LengthOf, LengthSum, Load;
    var a := EnsureEngine(LoadStarted(p), e.resolve.value);
    var item, info := p.queue.Current().value, e.open.value;
    LoadIs(p, resume, e);
    FinishedIs(a, item, info, resume, e);
    within := ResumeAt(Load(p, resume, e), resume);
    var k := Opened(p, item, info);
    if Fits(k) {
      var i: nat := p.queue.index;
      SumReads(k, Opened(a, item, info), i);
      SumReads(k, Opened(a, item, info), |p.queue.items|);
      StartIs(Opened(a, item, info), i);
    }
  }

  /** The opened track's length is known afterwards, and the prepared standby's; no other changes. */
  lemma LoadLengths(p: Player, resume: Option<u64>, e: LoadEnv, trackId: int)
    requires p.queue.Current().Some? && e.resolve.Some? && e.open.Some?
    ensures var q, next := Load(p, resume, e), PeekPreloadTarget(p.queue, p.queue.index);
      if next.Some? && e.preload && e.prepare.Some? && next.value.trackId == trackId then
        trackId in q.lengths && q.lengths[trackId] == e.prepare.value.length
      else if p.queue.Current().value.trackId == trackId then
        trackId in q.lengths && q.lengths[trackId] == e.open.value.length
      else
        && (trackId in q.lengths <==> trackId in p.lengths)
        && (trackId in p.lengths ==> q.lengths[trackId] == p.lengths[trackId])
  {
    hide OffsetAt, LengthOf, PeekPreloadTarget, ResumeAt, Load;
    LoadIs(p, resume, e);
  }

  // ---- the clock -------------------------------------------------------

  /** The album position runs with what is rendered: from the cursor's start, or from where playing began. */
  lemma ClockRuns(p: Player, rendered: u64)
    ensures !p.engine ==> AlbumPosition(p, rendered) == 0
    ensures p.engine && p.kind == Some(Musepack) ==>
      AlbumPosition(p, rendered) == Min(AlbumPosition(p, 0) + rendered, U64_MAX)
    ensures p.engine && p.kind == Some(Native) && 0 <= p.queue.index < |p.queue.items| && Fits(p) ==>
      AlbumPosition(p, rendered) == Min(LengthSum(p, p.queue.index) + rendered, U64_MAX)
  {
    hide OffsetAt, LengthOf, LengthSum;
    if 0 <= p.queue.index < |p.queue.items| && Fits(p) { StartIs(p, p.queue.index); }
  }

  /** A hinted length is the whole samples of the hinted seconds; one that is not positive and finite is nothing. */
  lemma HintIs(seconds: F64, rate: nat)
    ensures seconds.Fin? && seconds.r > 0.0 && seconds.r * rate as real < U64_MAX as real ==>
      HintSamples(seconds, rate) as real <= seconds.r * rate as real < HintSamples(seconds, rate) as real + 1.0
    ensures !seconds.Fin? || seconds.r <= 0.0 ==> HintSamples(seconds, rate) == 0
  {
    if seconds.Fin? {
      assert Times(seconds, rate) == Fin(seconds.r * rate as real);
      if seconds.r > 0.0 {
        PositiveProduct(seconds.r, rate as real);
        FloorOf(seconds.r * rate as real, U64_MAX);
      } else {
        NegativeProduct(seconds.r, rate as real);
      }
    }
  }

  lemma PositiveProduct(r: real, n: real)
    requires r >= 0.0 && n >= 0.0
    ensures r * n >= 0.0
  {}

  lemma FloorOf(x: real, max: int)
    requires x >= 0.0
    ensures 0 <= x.Floor && x.Floor as real <= x < x.Floor as real + 1.0 && (x < max as real ==> x.Floor <= max)
  {}

  // ---- commands that load ----------------------------------------------

  /** The next item is loaded; without one the queue's look ahead is kept and a load generation spent. */
  lemma NextLoads(p: Player, e: LoadEnv, rng: Rng)
    requires e.resolve.Some? && e.open.Some? && QR.Inv(p.queue)
    ensures var g, q := p.(loadingSeq := p.loadingSeq + 1, queue := Next(p.queue, rng)), SkipNext(p, e, rng);
      if NextItem(p.queue, rng).Some? then
        Loaded(g, q, e) && StandsAt(g, q, e, 0) && q.current == NextItem(p.queue, rng)
      else q == g
  {
    hide Load, Loaded, StandsAt, Next, NextTarget;
    if NextItem(p.queue, rng).Some? {
      NextCurrent(p.queue, rng);
      var g := p.(loadingSeq := p.loadingSeq + 1, queue := Next(p.queue, rng));
      var within := LoadPlays(g, None, e);
      LoadedCurrent(g, Load(g, None, e), e);
    }
  }

  lemma LoadedCurrent(p: Player, q: Player, e: LoadEnv)
    requires Loaded(p, q, e)
    ensures q.current == p.queue.Current()
  {}

  /** What `next` reports is current afterwards. */
  lemma NextCurrent(q: Queue, rng: Rng)
    requires QR.Inv(q) && NextItem(q, rng).Some?
    ensures Next(q, rng).Current() == NextItem(q, rng) && Next(q, rng).index >= 0
  {
    hide NextTarget, RebuildOrder;
    QR.TargetInRange(q, rng);
    QueueEdits.RebuildEdits(Pushed(q), rng);
  }

  /** The same for `previous`, unless three seconds have played: then the current track restarts. */
  lemma PreviousLoads(p: Player, late: bool, e: LoadEnv)
    requires e.resolve.Some? && e.open.Some? && !(p.current.Some? && late)
    ensures var g := p.(loadingSeq := p.loadingSeq + 1, queue := QueueSpec.Previous(p.queue));
      var q := SkipPrevious(p, late, e);
      if PreviousItem(p.queue).Some? then
        Loaded(g, q, e) && StandsAt(g, q, e, 0) && q.current == PreviousItem(p.queue)
      else q == g
  {
    hide Load, Loaded, StandsAt, QueueSpec.Previous, PrevTarget;
    if PreviousItem(p.queue).Some? {
      PreviousCurrent(p.queue);
      var g := p.(loadingSeq := p.loadingSeq + 1, queue := QueueSpec.Previous(p.queue));
      var within := LoadPlays(g, None, e);
      LoadedCurrent(g, Load(g, None, e), e);
    }
  }

  lemma PreviousCurrent(q: Queue)
    requires PreviousItem(q).Some?
    ensures QueueSpec.Previous(q).Current() == PreviousItem(q) && QueueSpec.Previous(q).index >= 0
  {
    hide PrevTarget, PopHistory;
  }

  /** A queue changed from outside: emptied it stops the player, another current item is loaded. */
  lemma QueueChangeActs(p: Player, e: LoadEnv)
    requires !p.mutating && e.resolve.Some? && e.open.Some? && p.queue.index >= 0
    ensures var q, cur := QueueChanged(p, e), p.queue.Current();
      if cur.None? then q.state == (if p.state == Error then Error else Idle) && q.queue == p.queue
      else if p.current.Some? && cur.value.id != p.current.value.id && p.state != Loading then
        Loaded(p, q, e) && StandsAt(p, q, e, 0)
      else q == p
  {
    hide Load, Loaded, StandsAt;
    if p.queue.Current().Some? { var within := LoadPlays(p, None, e); }
  }

  // ---- play and pause --------------------------------------------------

  /** Toggling while playing pauses, and changes nothing else but the command counter. */
  lemma TogglePauses(p: Player, plays: bool, e: LoadEnv)
    requires p.state == Playing
    ensures TogglePlay(p, plays, e) == p.(state := Paused, pauseIntent := true, transportSeq := p.transportSeq + 1)
  {
    hide Resume, Replay;
  }

  /** Toggling while paused resumes: playing at once when the engine is. */
  lemma ToggleResumes(p: Player, plays: bool, e: LoadEnv)
    requires p.state == Paused && p.engine
    ensures TogglePlay(p, plays, e) ==
      p.(state := if plays then Playing else Paused, pauseIntent := false, transportSeq := p.transportSeq + 1)
  {
    hide Replay;
  }

  /** Toggling twice plays on as before. */
  lemma ToggleTwice(p: Player, e: LoadEnv, e': LoadEnv)
    requires p.state == Playing && p.engine && !p.pauseIntent
    ensures TogglePlay(TogglePlay(p, true, e), true, e') == p.(transportSeq := p.transportSeq + 2)
  {
    TogglePauses(p, true, e);
    ToggleResumes(TogglePlay(p, true, e), true, e');
  }

  /** Toggling after the end, a stop or an error loads the current track again from its start. */
  lemma ToggleReplays(p: Player, plays: bool, e: LoadEnv)
    requires p.state in {Ended, Idle, Error} && p.current.Some? && p.queue.index >= 0
    requires p.queue.Current().Some? && e.resolve.Some? && e.open.Some?
    ensures var g, q := p.(pauseIntent := false), TogglePlay(p, plays, e);
      Loaded(g, q, e) && StandsAt(g, q, e, 0) && q.state == Buffering
  {
    hide Load, Loaded, StandsAt, Resume;
    var g := p.(pauseIntent := false);
    var within := LoadPlays(g, None, e);
    LoadedState(g, Load(g, None, e), e);
  }

  lemma LoadedState(p: Player, q: Player, e: LoadEnv)
    requires Loaded(p, q, e)
    ensures q.state == if p.pauseIntent then Paused else Buffering
  {}

  /** What the engine reports as primed starts playing, unless a pause has been asked for. */
  lemma PrimedPlays(p: Player, plays: bool)
    ensures var q := Primed(p, plays);
      && (p.state in {Loading, Buffering} && p.engine && plays && !p.pauseIntent ==> q == p.(state := Playing))
      && (!(p.state in {Loading, Buffering} && p.engine && plays && !p.pauseIntent) ==> q == p)
  {}

  /** Restarting goes to the current track's first sample. */
  lemma RestartLands(p: Player)
    requires p.engine && p.current.Some? && 0 <= p.queue.index < |p.queue.items| && Fits(p)
    ensures var q := Restart(p);
      && q.queue == p.queue && q.state == (if p.pauseIntent then Paused else Buffering)
      && (p.kind == Some(Musepack) ==> AlbumPosition(q, 0) == LengthSum(p, p.queue.index))
  {
    hide OffsetAt, LengthOf, LengthSum;
    StartIs(p, p.queue.index);
  }

  // ---- restored sessions -----------------------------------------------

  /** The saved position in samples, before the track's last one; a NaN or infinite one counts as the end. */
  ghost predicate SavedAt(position: F64, rate: nat, length: u64, within: nat) {
    match position
    case Fin(r) =>
      var asked := (r * rate as real).Floor;
      if asked < 0 then within == 0 else within == Min(asked, MaxInt(length - 1, 0))
    case NegInf => within == if rate > 0 then 0 else MaxInt(length - 1, 0)
    case _ => within == MaxInt(length - 1, 0)
  }

  lemma RestoredIs(position: F64, rate: nat, length: u64)
    ensures SavedAt(position, rate, length, RestoredWithin(position, rate, length))
  {
    if position.Fin? { assert Times(position, rate) == Fin(position.r * rate as real); }
  }

  /** Restoring a session leaves it paused at the saved item, or the nearest there is, without an engine's help. */
  lemma RestorePauses(p: Player, items: seq<Item>, index: int, position: F64, repeat: RepeatMode, shuffle: bool,
      crossfade: F64, rng: Rng)
    requires items != []
    ensures var q := Restore(p, items, index, position, repeat, shuffle, crossfade, rng);
      var i := MaxInt(0, Min(index, |items| - 1));
      && q.queue.items == items && q.queue.index == i && q.queue.repeat == repeat
      && q.state == Paused && q.current == Some(items[i]) && q.engine == p.engine
      && q.restored.Some? && q.restored.value.0 == i
      && SavedAt(position, p.rate, LengthOf(q, i), q.restored.value.1)
  {
    hide RestoredWithin, SavedAt, LengthOf;
    var q := Restore(p, items, index, position, repeat, shuffle, crossfade, rng);
    var i := Clamp(index, 0, |items| - 1);
    RestoredQueueIs(p, items, i, repeat, shuffle, crossfade, rng);
    var r := RestoredItems(RestoredSettings(p, repeat, crossfade), items, i, shuffle, rng);
    RestoredIs(position, p.rate, LengthOf(r, i));
    LengthReads(r, q, i);
  }

  lemma RestoredQueueIs(p: Player, items: seq<Item>, i: int, repeat: RepeatMode, shuffle: bool, crossfade: F64,
      rng: Rng)
    requires 0 <= i < |items|
    ensures var r := RestoredItems(RestoredSettings(p, repeat, crossfade), items, i, shuffle, rng);
      && r.queue.items == items && r.queue.index == i && r.queue.repeat == repeat
      && r.engine == p.engine && r.rate == p.rate
  {
    hide RebuildOrder;
    var q := SetAll(SetRepeat(p.queue, repeat), items, i);
    ShuffleItems(q, shuffle, rng);
  }

  lemma ShuffleItems(q: Queue, on: bool, rng: Rng)
    ensures var r := SetShuffle(q, on, rng); r.items == q.items && r.index == q.index && r.repeat == q.repeat
  {
    hide Shuffled, Upcoming;
  }

  /** Resuming it loads the item and goes on at the saved sample. */
  lemma RestoredResumes(p: Player, plays: bool, e: LoadEnv) returns (within: nat)
    requires !p.engine && p.state == Paused && p.current.Some? && p.queue.index >= 0
    requires p.restored.Some? && p.restored.value.0 == p.queue.index
    requires p.queue.Current().Some? && e.resolve.Some? && e.open.Some?
    ensures var q := Resume(p, plays, e);
      && Loaded(p, q, e) && StandsAt(p, q, e, within)
      && GoesOnAt(Some(p.restored.value.1), LengthOf(q, p.queue.index), within)
  {
    hide Load, Loaded, StandsAt, GoesOnAt, LengthOf;
    within := LoadPlays(p, Some(p.restored.value.1), e);
  }
}
