/** What every run of public player operations keeps, whatever the engine answers. */
module PlayerResults {
  import opened Wrappers
  import opened Floats
  import opened Order
  import opened QueueSpec
  import opened PlayerSpec
  import QR = QueueResults

  // ---- runs ------------------------------------------------------------

  datatype Op =
    | PlayItemOp(item: Item, e: LoadEnv)
    | PlayAllOp(items: seq<Item>, start: int, e: LoadEnv)
    | PlayQueueIndexOp(i: int, e: LoadEnv)
    | NextOp(e: LoadEnv)
    | PreviousOp(late: bool, e: LoadEnv)
    | SeekOp(seconds: F64, e: LoadEnv)
    | StopOp
    | TeardownOp
    | ToggleOp(plays: bool, e: LoadEnv)
    | PauseOp
    | ResumeOp(plays: bool, e: LoadEnv)
    | SetRepeatOp(mode: RepeatMode)
    | SetShuffleOp(on: bool)
    | SetCrossfadeOp(seconds: F64)
    | PrimedOp(plays: bool)
    | BufferingOp
    | EosOp(eos: EosEnv)
    | TickOp(tick: TickEnv)
    | EngineErrorOp
    | CrossfadeCompleteOp(result: Option<CrossfadeResult>, apply: ApplyEnv)
    | QueueMutOp(op: QR.Op)
    | SetAllOp(items: seq<Item>, cursor: int)
    | QueueChangedOp(e: LoadEnv)
    | RestoreOp(items: seq<Item>, index: int, position: F64, repeat: RepeatMode, shuffle: bool, crossfade: F64)

  function Step(p: Player, op: Op, rng: Rng): Player {
    match op
    case PlayItemOp(item, e) => PlayItem(p, item, e, rng)
    case PlayAllOp(items, start, e) => PlayAll(p, items, start, e, rng)
    case PlayQueueIndexOp(i, e) => PlayQueueIndex(p, i, e)
    case NextOp(e) => SkipNext(p, e, rng)
    case PreviousOp(late, e) => SkipPrevious(p, late, e)
    case SeekOp(seconds, e) => Seek(p, seconds, e)
    case StopOp => Stop(p)
    case TeardownOp => Teardown(p)
    case ToggleOp(plays, e) => TogglePlay(p, plays, e)
    case PauseOp => Pause(p)
    case ResumeOp(plays, e) => Resume(p, plays, e)
    case SetRepeatOp(mode) => p.(queue := SetRepeat(p.queue, mode))
    case SetShuffleOp(on) => SetShuffling(p, on, rng)
    case SetCrossfadeOp(seconds) => SetCrossfade(p, seconds)
    case PrimedOp(plays) => Primed(p, plays)
    case BufferingOp => BufferingReported(p)
    case EosOp(e) => Eos(p, e, rng)
    case TickOp(e) => Tick(p, e)
    case EngineErrorOp => Fail(p)
    case CrossfadeCompleteOp(result, e) => CrossfadeComplete(p, result, e)
    case QueueMutOp(op) => p.(queue := QR.Step(p.queue, op, rng))
    case SetAllOp(items, cursor) => p.(queue := SetAll(p.queue, items, cursor))
    case QueueChangedOp(e) => QueueChanged(p, e)
    case RestoreOp(items, index, position, repeat, shuffle, crossfade) =>
      Restore(p, items, index, position, repeat, shuffle, crossfade, rng)
  }

  function Run(p: Player, ops: seq<Op>, rng: Rng): Player
    decreases |ops|
  {
    if ops == [] then p else Run(Step(p, ops[0], rng), ops[1..], rng)
  }

  // ---- the invariant ---------------------------------------------------

  /** What holds even inside an operation. */
  ghost predicate Core(p: Player) {
    && (p.fading <==> p.xfade.Some?)
    && (p.engine <==> p.kind.Some?)
    && !p.mutating
    && (p.xfade.Some? ==> p.engine && p.xfade.value.gen <= p.loadingSeq && p.xfade.value.epoch <= p.epoch)
  }

  predicate Active(s: PlayerState) {
    s == Playing || s == Buffering
  }

  ghost predicate StateOk(p: Player) {
    p.state != Loading && (Active(p.state) ==> p.engine && !p.pauseIntent)
  }

  ghost predicate Inv(p: Player) {
    Core(p) && StateOk(p) && !p.eosInFlight
  }

  /** The generation counters never go back. */
  ghost predicate Later(p: Player, q: Player) {
    p.loadingSeq <= q.loadingSeq && p.transportSeq <= q.transportSeq && p.epoch <= q.epoch
  }

  /** A good step from `p` inside an operation. */
  ghost predicate Kept(p: Player, q: Player) {
    Core(q) && StateOk(q) && q.eosInFlight == p.eosInFlight && (p.engine ==> q.engine) && Later(p, q)
  }

  /** Nothing the invariant reads has changed, but perhaps the transport state. */
  ghost predicate Same(p: Player, q: Player) {
    && q.engine == p.engine && q.kind == p.kind && q.xfade == p.xfade && q.fading == p.fading
    && q.mutating == p.mutating && q.eosInFlight == p.eosInFlight && q.pauseIntent == p.pauseIntent
    && q.loadingSeq == p.loadingSeq && q.transportSeq == p.transportSeq && q.epoch == p.epoch
  }

  lemma LoadKeeps(p: Player, resume: Option<u64>, e: LoadEnv)
    requires Core(p) && (StateOk(p) || p.queue.Current().Some?)
    ensures Kept(p, Load(p, resume, e))
  {
    hide LoadFinished;
    if p.queue.Current().Some? && e.resolve.Some? && e.open.Some? {
      LoadFinishedFrame(EnsureEngine(LoadStarted(p), e.resolve.value), p.queue.Current().value, e.open.value, resume,
        e);
    }
    assert Kept(p, Load(p, resume, e));
  }

  lemma PreparedFrame(p: Player, preload: bool, prepare: Option<StreamInfo>)
    ensures Same(p, Prepared(p, preload, prepare)) && Prepared(p, preload, prepare).state == p.state
    ensures var q := Prepared(p, preload, prepare); q.queue == p.queue && q.current == p.current && q.rate == p.rate
  {
    hide Preload;
  }

  lemma LoadFinishedFrame(p: Player, item: Item, info: StreamInfo, resume: Option<u64>, e: LoadEnv)
    ensures var q := LoadFinished(p, item, info, resume, e); Same(p, q) && q.state == PausedOr(p, Buffering)
  {
    hide Prepared, OffsetAt, LengthOf;
    PreparedFrame(p.(lengths := p.lengths[item.trackId := info.length], rate := info.rate), e.preload, e.prepare);
  }

  lemma CompleteKeeps(p: Player, f: Fade, r: CrossfadeResult, e: ApplyEnv)
    ensures Same(p, CompleteFade(p, f, r, e)) && CompleteFade(p, f, r, e).state == p.state
  {
    hide Prepared, ShortenOutgoing, MoveTo, FinishRace;
    if Applies(p, f) {
      ApplyFrame(p, f, r, e);
      RaceFrame(ApplyFade(p, f, r, e), f.race);
    }
  }

  lemma RaceFrame(p: Player, race: Option<Race>)
    ensures Same(p, FinishRace(p, race)) && FinishRace(p, race).state == p.state
    ensures var q := FinishRace(p, race); q.queue == p.queue && q.current == p.current && q.rate == p.rate
  {
    if race.None? || race.value.rawLength == 0 {
      assert FinishRace(p, race) == p;
    }
  }

  lemma ApplyFrame(p: Player, f: Fade, r: CrossfadeResult, e: ApplyEnv)
    requires Applies(p, f)
    ensures Same(p, ApplyFade(p, f, r, e)) && ApplyFade(p, f, r, e).state == p.state
  {
    hide Prepared, ShortenOutgoing, MoveTo;
    var idx := FindItem(p.queue.items, f.target).value;
    PreparedFrame(p.(
        queue := MoveTo(p.queue, idx),
        check := Some(Check(idx, f.gen)),
        lengths := ShortenOutgoing(p.lengths, f, r.overlap)[f.target.trackId := r.info.length],
        rate := r.info.rate,
        current := Some(f.target),
        armed := false), e.preload, e.prepare);
  }

  lemma BeginKeeps(p: Player, race: Option<Race>, e: FadeEnv)
    requires Core(p) && StateOk(p) && !p.fading
    ensures Kept(p, BeginFade(p, p.loadingSeq, race, e))
  {
    hide CompleteFade;
    if CanBegin(p, e) && e.start.Completed? {
      CompleteKeeps(p.(fading := true), NewFade(p, p.loadingSeq, race), e.start.result, e.apply);
    }
  }

  lemma TickAdvancedFrame(p: Player, pos: u64)
    ensures Same(p, TickAdvanced(p, pos)) && TickAdvanced(p, pos).state == p.state
  {
    if !TickMoves(p, pos) {
      assert TickAdvanced(p, pos) == p.(check := None);
    }
  }

  lemma TickSettledFrame(p: Player, e: TickEnv)
    ensures Same(p, TickSettled(p, e)) && (TickSettled(p, e).state == p.state || TickSettled(p, e).state == Ended)
  {
    hide TickAdvanced;
    TickAdvancedFrame(p, AlbumPosition(p, e.rendered));
    SettleFrame(p, TickAdvanced(p, AlbumPosition(p, e.rendered)), e);
  }

  lemma SettleFrame(p: Player, a: Player, e: TickEnv)
    requires Same(p, a) && a.state == p.state && a == TickAdvanced(p, AlbumPosition(p, e.rendered))
    ensures Same(p, TickSettled(p, e)) && (TickSettled(p, e).state == p.state || TickSettled(p, e).state == Ended)
  {}

  lemma TickFadesIdle(p: Player, qi: int, idx: int, pos: u64, e: TickEnv)
    requires TickFades(p, qi, idx, pos, e)
    ensures !p.fading && p.state == Playing
  {}

  lemma TickKeeps(p: Player, e: TickEnv)
    requires Core(p) && StateOk(p)
    ensures Kept(p, Tick(p, e))
  {
    hide BeginFade, TickSettled, TickFades, AlbumPosition, CurrentIndexAt;
    TickSettledFrame(p, e);
    var q := TickSettled(p, e);
    var pos := AlbumPosition(p, e.rendered);
    if p.engine && TickFades(q, p.queue.index, CurrentIndexAt(p, pos), pos, e) {
      TickFadesIdle(q, p.queue.index, CurrentIndexAt(p, pos), pos, e);
      BeginKeeps(q.(armed := true), None, e.fade);
    }
  }

  lemma AdvanceKeeps(p: Player, e: EosEnv, rng: Rng)
    requires Core(p) && StateOk(p) && p.engine && !p.pauseIntent
    ensures Kept(p, EosAdvance(p, e, rng))
  {
    hide Tick, Load, Next, NextTarget;
    if p.queue.repeat == One {
      LoadKeeps(p.(queue := MoveTo(p.queue, p.queue.index)), Some(0), e.load);
    } else {
      var q := p.(queue := Next(p.queue, rng));
      TickKeeps(q.(pendingEnded := true), e.tick);
      LoadKeeps(q, None, e.load);
    }
  }

  lemma FadeAtEosKeeps(p: Player, e: EosFadeEnv)
    requires Core(p) && StateOk(p)
    ensures Kept(p, FadeAtEos(p, e))
  {
    hide BeginFade;
    if EosFadeWanted(p, e) { BeginKeeps(p, Some(EosRace(p, e)), e.fade); }
  }

  lemma EosKeeps(p: Player, e: EosEnv, rng: Rng)
    requires Core(p) && StateOk(p)
    ensures Core(Eos(p, e, rng)) && StateOk(Eos(p, e, rng)) && Later(p, Eos(p, e, rng))
    ensures !p.eosInFlight ==> !Eos(p, e, rng).eosInFlight
  {
    hide FadeAtEos, EosAdvance, FadeAtEosTakes;
    if p.engine {
      var q := p.(eosInFlight := true);
      FadeAtEosKeeps(q, e.fade);
      var f := FadeAtEos(q, e.fade);
      if !f.pauseIntent { AdvanceKeeps(f, e, rng); }
    }
  }

  lemma PlayItemKeeps(p: Player, item: Item, e: LoadEnv, rng: Rng)
    requires Core(p) && StateOk(p)
    ensures Kept(p, PlayItem(p, item, e, rng))
  {
    hide Load, PlayNow;
    PlayNowCurrent(p.queue, item, rng);
    LoadKeeps(p.(pauseIntent := false, state := Loading, queue := PlayNow(p.queue, item, rng)), None, e);
  }

  lemma PlayNowCurrent(q: Queue, item: Item, rng: Rng)
    ensures PlayNow(q, item, rng).Current() == Some(item)
  {}

  lemma PlayAllKeeps(p: Player, items: seq<Item>, start: int, e: LoadEnv, rng: Rng)
    requires Core(p) && StateOk(p)
    ensures Kept(p, PlayAll(p, items, start, e, rng))
  {
    hide Load, PlaySequence;
    if items != [] {
      PlaySequenceCurrent(p.queue, items, start, rng);
      LoadKeeps(p.(pauseIntent := false, state := Loading, queue := PlaySequence(p.queue, items, start, rng)), None, e);
    }
  }

  lemma PlaySequenceCurrent(q: Queue, items: seq<Item>, start: int, rng: Rng)
    requires items != []
    ensures PlaySequence(q, items, start, rng).Current() == Some(items[Clamp(start, 0, |items| - 1)])
  {}

  lemma PlayQueueIndexKeeps(p: Player, i: int, e: LoadEnv)
    requires Core(p) && StateOk(p)
    ensures Kept(p, PlayQueueIndex(p, i, e))
  {
    hide Load;
    if p.queue.At(i).Some? {
      LoadKeeps(p.(pauseIntent := false, state := Loading, queue := MoveTo(p.queue, i)), None, e);
    }
  }

  lemma SkipKeeps(p: Player, late: bool, e: LoadEnv, rng: Rng)
    requires Core(p) && StateOk(p)
    ensures Kept(p, SkipNext(p, e, rng))
    ensures Kept(p, SkipPrevious(p, late, e))
  {
    hide Load, Next, QueueSpec.Previous, OffsetAt, NextTarget, PrevTarget;
    LoadKeeps(p.(loadingSeq := p.loadingSeq + 1, queue := Next(p.queue, rng)), None, e);
    LoadKeeps(p.(loadingSeq := p.loadingSeq + 1, queue := QueueSpec.Previous(p.queue)), None, e);
  }

  lemma SeekToKeeps(p: Player, pos: u64, e: LoadEnv)
    requires Core(p) && StateOk(p) && p.engine
    ensures Kept(p, SeekTo(p, pos, e))
  {
    hide Load, CurrentIndexAt, OffsetAt, LengthOf;
    LoadKeeps(p.(queue := MoveTo(p.queue, CurrentIndexAt(p, pos))), None, e);
  }

  lemma SeekKeeps(p: Player, seconds: F64, e: LoadEnv)
    requires Core(p) && StateOk(p)
    ensures Kept(p, Seek(p, seconds, e))
  {
    hide SeekTo, SeekSamples;
    var q := p.(transportSeq := p.transportSeq + 1, loadingSeq := p.loadingSeq + 1);
    var pos := SeekSamples(seconds, p.rate);
    if p.engine && pos.Some? { SeekToKeeps(q, pos.value, e); }
  }

  lemma ResumeKeeps(p: Player, plays: bool, e: LoadEnv)
    requires Core(p) && StateOk(p)
    ensures Kept(p, Resume(p, plays, e)) && Kept(p, Replay(p, e))
  {
    hide Load;
    LoadKeeps(p, if p.restored.Some? && p.restored.value.0 == p.queue.index then Some(p.restored.value.1) else None, e);
    LoadKeeps(p.(pauseIntent := false), None, e);
  }

  lemma RestoreKeeps(p: Player, items: seq<Item>, index: int, position: F64, repeat: RepeatMode, shuffle: bool,
      crossfade: F64, rng: Rng)
    requires Inv(p)
    ensures var q := Restore(p, items, index, position, repeat, shuffle, crossfade, rng); Inv(q) && Later(p, q)
  {
    hide RestoredSettings, RestoredItems, RestoredWithin, LengthOf;
    var q := RestoredSettings(p, repeat, crossfade);
    SettingsFrame(p, repeat, crossfade);
    if items != [] {
      ItemsFrame(q, items, Clamp(index, 0, |items| - 1), shuffle, rng);
    }
  }

  lemma SettingsFrame(p: Player, repeat: RepeatMode, crossfade: F64)
    ensures Same(p, RestoredSettings(p, repeat, crossfade)) && RestoredSettings(p, repeat, crossfade).state == p.state
  {
    hide FadeChoice;
  }

  lemma ItemsFrame(p: Player, items: seq<Item>, i: int, shuffle: bool, rng: Rng)
    ensures Same(p, RestoredItems(p, items, i, shuffle, rng))
  {
    hide SetShuffle;
  }

  lemma CompletionKeeps(p: Player, result: Option<CrossfadeResult>, e: ApplyEnv)
    requires Inv(p)
    ensures Inv(CrossfadeComplete(p, result, e)) && Later(p, CrossfadeComplete(p, result, e))
  {
    hide CompleteFade;
    if p.xfade.Some? && result.Some? { CompleteKeeps(p.(xfade := None), p.xfade.value, result.value, e); }
  }

  predicate Navigates(op: Op) {
    op.PlayItemOp? || op.PlayAllOp? || op.PlayQueueIndexOp? || op.NextOp? || op.PreviousOp? || op.SeekOp?
  }

  lemma NavigationKeeps(p: Player, op: Op, rng: Rng)
    requires Inv(p) && Navigates(op)
    ensures Inv(Step(p, op, rng)) && Later(p, Step(p, op, rng))
  {
    hide PlayItem, PlayAll, PlayQueueIndex, SkipNext, SkipPrevious, Seek;
    match op
    case PlayItemOp(item, e) => PlayItemKeeps(p, item, e, rng);
    case PlayAllOp(items, start, e) => PlayAllKeeps(p, items, start, e, rng);
    case PlayQueueIndexOp(i, e) => PlayQueueIndexKeeps(p, i, e);
    case NextOp(e) => SkipKeeps(p, true, e, rng);
    case PreviousOp(late, e) => SkipKeeps(p, late, e, rng);
    case SeekOp(seconds, e) => SeekKeeps(p, seconds, e);
  }

  predicate Reports(op: Op) {
    op.EosOp? || op.TickOp? || op.PrimedOp? || op.BufferingOp? || op.EngineErrorOp? || op.CrossfadeCompleteOp?
  }

  lemma ReportKeeps(p: Player, op: Op, rng: Rng)
    requires Inv(p) && Reports(op)
    ensures Inv(Step(p, op, rng)) && Later(p, Step(p, op, rng))
  {
    hide Tick, Eos, CrossfadeComplete;
    match op
    case EosOp(e) => EosKeeps(p, e, rng);
    case TickOp(e) => TickKeeps(p, e);
    case CrossfadeCompleteOp(result, e) => CompletionKeeps(p, result, e);
    case _ =>
  }

  lemma OtherKeeps(p: Player, op: Op, rng: Rng)
    requires Inv(p) && !Navigates(op) && !Reports(op)
    ensures Inv(Step(p, op, rng)) && Later(p, Step(p, op, rng))
  {
    hide Load, Resume, Replay, SetShuffle, QR.Step, OffsetAt, Restore;
    match op
    case ToggleOp(plays, e) => ResumeKeeps(p, plays, e);
    case ResumeOp(plays, e) => ResumeKeeps(p, plays, e);
    case QueueChangedOp(e) => LoadKeeps(p, None, e);
    case RestoreOp(items, index, position, repeat, shuffle, crossfade) =>
      RestoreKeeps(p, items, index, position, repeat, shuffle, crossfade, rng);
    case _ =>
  }

  /** Every public operation keeps the invariant and moves no counter back. */
  lemma StepKeeps(p: Player, op: Op, rng: Rng)
    requires Inv(p)
    ensures Inv(Step(p, op, rng)) && Later(p, Step(p, op, rng))
  {
    hide Inv, Later, Step;
    if Navigates(op) {
      NavigationKeeps(p, op, rng);
    } else if Reports(op) {
      ReportKeeps(p, op, rng);
    } else {
      OtherKeeps(p, op, rng);
    }
  }

  /** Over every run: a recorded fade iff one is in progress, an engine iff its kind is known, never
      left loading or mutating, audible states have an engine and no pause intent, counters never go back. */
  lemma {:induction false} RunKeeps(p: Player, ops: seq<Op>, rng: Rng)
    requires Inv(p)
    ensures Inv(Run(p, ops, rng)) && Later(p, Run(p, ops, rng))
    decreases |ops|
  {
    hide Inv, Step;
    if ops != [] {
      StepKeeps(p, ops[0], rng);
      RunKeeps(Step(p, ops[0], rng), ops[1..], rng);
    }
  }

  lemma NewInv(queue: Queue)
    ensures Inv(NewPlayer(queue))
  {}
}
