/** Track boundaries: album geometry, ticks, and a crossfade's single cursor move. */
module PlayerBoundary {
  import opened Wrappers
  import opened Floats
  import opened Order
  import opened QueueSpec
  import opened PlayerSpec
  import opened PlayerResults

  // ---- geometry --------------------------------------------------------

  /** The exact sum of the first `n` lengths. */
  ghost function LengthSum(p: Player, n: nat): nat {
    if n == 0 then 0 else LengthSum(p, n - 1) + LengthOf(p, n - 1)
  }

  /** Starts are the exact prefix sums, saturated. */
  lemma {:induction false} OffsetsArePrefixSums(p: Player, n: nat)
    ensures forall i :: 0 <= i < n ==> OffsetsUpTo(p, n)[i] == Min(LengthSum(p, i), U64_MAX)
  {
    if n > 1 { OffsetsArePrefixSums(p, n - 1); }
  }

  lemma {:induction false} SumsGrow(p: Player, i: nat, j: nat)
    requires i <= j
    ensures LengthSum(p, i) <= LengthSum(p, j)
    decreases j
  {
    if i < j { SumsGrow(p, i, j - 1); }
  }

  lemma OffsetsMonotone(p: Player)
    ensures forall i, j :: 0 <= i <= j < |p.queue.items| ==> Offsets(p)[i] <= Offsets(p)[j]
  {
    OffsetsArePrefixSums(p, |p.queue.items|);
    forall i, j | 0 <= i <= j < |p.queue.items| ensures Offsets(p)[i] <= Offsets(p)[j] { SumsGrow(p, i, j); }
  }

  lemma {:induction false} LastStartIsLast(offs: seq<u64>, n: nat, pos: u64)
    requires n <= |offs|
    ensures forall k :: LastStart(offs, n, pos) < k < n ==> pos < offs[k]
    ensures n > 0 && pos >= offs[0] ==> offs[LastStart(offs, n, pos)] <= pos
  {
    if n > 0 && pos < offs[n - 1] { LastStartIsLast(offs, n - 1, pos); }
  }

  /** The track at a position is the last whose start is at or before it. */
  lemma CurrentIndexIsGreatest(p: Player, pos: u64, k: nat)
    requires k < |p.queue.items|
    ensures 0 <= CurrentIndexAt(p, pos) < |p.queue.items|
    ensures OffsetAt(p, k) <= pos <==> k <= CurrentIndexAt(p, pos)
  {
    hide LastStart, OffsetsUpTo, LengthSum, LengthOf;
    OffsetsMonotone(p);
    FirstStart(p, |p.queue.items|);
    LastStartIsLast(Offsets(p), |p.queue.items|, pos);
  }

  lemma {:induction false} FirstStart(p: Player, n: nat)
    requires n > 0
    ensures OffsetsUpTo(p, n)[0] == 0
  {
    if n > 1 { FirstStart(p, n - 1); }
  }

  /** Without saturation, the track at a position inside the album is the one containing it. */
  lemma CurrentIndexContains(p: Player, pos: u64)
    requires p.queue.items != [] && pos < LengthSum(p, |p.queue.items|) <= U64_MAX
    ensures var i := CurrentIndexAt(p, pos);
      i < |p.queue.items| && LengthSum(p, i) <= pos < LengthSum(p, i + 1)
  {
    hide CurrentIndexAt;
    var n := |p.queue.items|;
    var i := CurrentIndexAt(p, pos);
    OffsetsArePrefixSums(p, n);
    CurrentIndexIsGreatest(p, pos, 0);
    CurrentIndexIsGreatest(p, pos, i);
    SumsGrow(p, i, n);
    if i + 1 < n {
      CurrentIndexIsGreatest(p, pos, i + 1);
      SumsGrow(p, i + 1, n);
    }
  }

  // ---- ticks -----------------------------------------------------------

  /** A tick's own move: while playing, past the next track's start, onto a track of positive length. */
  ghost predicate ReachedNext(p: Player, pos: u64) {
    var next := p.queue.index + 1;
    && p.state == Playing && !p.pendingEnded && !p.fading && !p.eosInFlight
    && 0 <= next < |p.queue.items|
    && OffsetAt(p, next) <= pos
    && LengthOf(p, next) > 0
  }

  lemma TickMovesIff(p: Player, pos: u64)
    requires p.queue.index >= -1
    ensures TickMoves(p, pos) <==> ReachedNext(p, pos)
  {
    hide OffsetAt, CurrentIndexAt, LengthOf;
    var next := p.queue.index + 1;
    if next < |p.queue.items| {
      CurrentIndexIsGreatest(p, pos, next);
    } else {
      NoTrackPast(p, pos);
    }
    assert TickMoves(p, pos) <==> ReachedNext(p, pos);
  }

  /** At the last track or in an empty queue nothing lies ahead. */
  lemma NoTrackPast(p: Player, pos: u64)
    requires p.queue.index + 1 >= |p.queue.items| && p.queue.index >= -1
    ensures !TickMoves(p, pos)
  {
    if p.queue.items != [] { CurrentIndexIsGreatest(p, pos, 0); }
  }

  /** A tick that starts no fade leaves the cursor, or moves it one on exactly when the next track is reached. */
  lemma TickCursor(p: Player, e: TickEnv)
    requires p.engine && p.queue.index >= -1
    requires var pos := AlbumPosition(p, e.rendered);
      !TickFades(TickSettled(p, e), p.queue.index, CurrentIndexAt(p, pos), pos, e)
    ensures var pos := AlbumPosition(p, e.rendered);
      Tick(p, e).queue == if ReachedNext(p, pos) then p.queue.(index := p.queue.index + 1) else p.queue
  {
    hide TickFades, CurrentIndexAt, TickMoves, ReachedNext;
    var pos := AlbumPosition(p, e.rendered);
    TickMovesIff(p, pos);
    if TickMoves(p, pos) { MoveIsOne(p, pos); }
    assert Tick(p, e).queue == TickAdvanced(p, pos).queue;
  }

  lemma MoveIsOne(p: Player, pos: u64)
    requires p.queue.index >= -1 && TickMoves(p, pos) && ReachedNext(p, pos)
    ensures MoveTo(p.queue, Min(CurrentIndexAt(p, pos), p.queue.index + 1)) == p.queue.(index := p.queue.index + 1)
  {}

  // ---- a boundary is taken once ----------------------------------------

  /** Engine reports and pause or resume, which leave an in-flight fade alone. */
  predicate Waits(op: Op) {
    op.TickOp? || op.EosOp? || op.PrimedOp? || op.BufferingOp? || op.PauseOp? || op.ResumeOp?
  }

  ghost predicate SameBoundary(p: Player, q: Player) {
    && q.queue == p.queue && q.lengths == p.lengths && q.xfade == p.xfade
    && q.loadingSeq == p.loadingSeq && q.epoch == p.epoch && q.rate == p.rate && q.current == p.current
  }

  lemma TickWaits(p: Player, e: TickEnv)
    requires p.fading
    ensures SameBoundary(p, Tick(p, e))
  {
    hide TickSettled, BeginFade, TickFades, AlbumPosition, CurrentIndexAt;
    var q, pos := TickSettled(p, e), AlbumPosition(p, e.rendered);
    SettledWaits(p, e);
    FadingFades(q, p.queue.index, CurrentIndexAt(p, pos), pos, e);
  }

  lemma SettledWaits(p: Player, e: TickEnv)
    requires p.fading
    ensures SameBoundary(p, TickSettled(p, e)) && TickSettled(p, e).fading
  {
    hide AlbumPosition, CurrentIndexAt, TotalLength;
  }

  lemma FadingFades(p: Player, qi: int, idx: int, pos: u64, e: TickEnv)
    requires p.fading
    ensures !TickFades(p, qi, idx, pos, e)
  {}

  lemma EosWaits(p: Player, e: EosEnv, rng: Rng)
    requires p.fading
    ensures SameBoundary(p, Eos(p, e, rng))
  {
    hide EosAdvance, BeginFade, AlbumPosition;
  }

  lemma StepWaits(p: Player, op: Op, rng: Rng)
    requires Inv(p) && p.xfade.Some? && Waits(op)
    ensures SameBoundary(p, Step(p, op, rng))
  {
    hide Tick, Eos, Load;
    match op
    case TickOp(e) => TickWaits(p, e);
    case EosOp(e) => EosWaits(p, e, rng);
    case _ =>
  }

  /** While a fade is in flight, no run of engine reports, pauses and resumes moves the boundary. */
  lemma {:induction false} RunWaits(p: Player, ops: seq<Op>, rng: Rng)
    requires Inv(p) && p.xfade.Some? && forall k :: 0 <= k < |ops| ==> Waits(ops[k])
    ensures SameBoundary(p, Run(p, ops, rng)) && Inv(Run(p, ops, rng))
    decreases |ops|
  {
    hide Inv, Step;
    if ops != [] {
      StepWaits(p, ops[0], rng);
      StepKeeps(p, ops[0], rng);
      RunWaits(Step(p, ops[0], rng), ops[1..], rng);
    }
  }

  lemma BeginRecords(p: Player, race: Option<Race>, e: FadeEnv)
    requires p.xfade.None?
    ensures var q := BeginFade(p, p.loadingSeq, race, e);
      q.xfade.Some? ==> q.xfade.value.target in p.queue.items && q == p.(fading := true, xfade := q.xfade)
    ensures var q := BeginFade(p, p.loadingSeq, race, e);
      q.xfade.Some? ==> q.xfade.value.gen == p.loadingSeq && q.xfade.value.epoch == p.epoch
  {
    hide CompleteFade;
    if CanBegin(p, e) && e.start.Completed? {
      CompleteKeeps(p.(fading := true), NewFade(p, p.loadingSeq, race), e.start.result, e.apply);
    }
    assert forall i :: p.queue.At(i).Some? ==> p.queue.At(i).value in p.queue.items;
  }

  /** A queued target with unmoved counters applies. */
  lemma QueuedApplies(p: Player, f: Fade)
    requires f.gen == p.loadingSeq && f.epoch == p.epoch && f.target in p.queue.items
    ensures Applies(p, f)
  {}

  lemma TickRecords(p: Player, e: TickEnv)
    requires p.xfade.None? && Tick(p, e).xfade.Some?
    ensures Applies(Tick(p, e), Tick(p, e).xfade.value)
  {
    hide BeginFade, TickSettled, TickFades, AlbumPosition, CurrentIndexAt, Applies;
    var q := TickSettled(p, e);
    TickSettledFrame(p, e);
    var b := q.(armed := true);
    BeginRecords(b, None, e.fade);
    var t := Tick(p, e);
    assert t == BeginFade(b, b.loadingSeq, None, e.fade);
    QueuedApplies(t, t.xfade.value);
  }

  lemma FadeAtEosRecords(p: Player, e: EosFadeEnv)
    requires p.xfade.None? && FadeAtEos(p, e).xfade.Some?
    ensures Applies(FadeAtEos(p, e), FadeAtEos(p, e).xfade.value)
    ensures FadeAtEos(p, e).fading
  {
    hide BeginFade, EosFadeWanted, Applies;
    BeginRecords(p, Some(EosRace(p, e)), e.fade);
    var q := FadeAtEos(p, e);
    QueuedApplies(q, q.xfade.value);
  }

  lemma EosRecords(p: Player, e: EosEnv, rng: Rng)
    requires p.xfade.None? && Eos(p, e, rng).xfade.Some?
    ensures Applies(Eos(p, e, rng), Eos(p, e, rng).xfade.value)
  {
    hide FadeAtEos, EosAdvance, Applies, FadeAtEosTakes;
    var q := p.(eosInFlight := true);
    var f := FadeAtEos(q, e.fade);
    if f.xfade.Some? {
      FadeAtEosRecords(q, e.fade);
    } else {
      AdvanceRecords(f, e, rng);
    }
    var b := EosBoundary(q, e, rng);
    assert Eos(p, e, rng) == b.(eosInFlight := false);
    AppliesIgnores(b, b.xfade.value);
  }

  lemma AppliesIgnores(p: Player, f: Fade)
    ensures Applies(p.(eosInFlight := false), f) == Applies(p, f)
    ensures Applies(p.(xfade := None), f) == Applies(p, f)
  {}

  lemma AttachFade(p: Player, kind: EngineKind)
    ensures LoadStarted(p).xfade == p.xfade && EnsureEngine(LoadStarted(p), kind).xfade == p.xfade
  {}

  lemma LoadFade(p: Player, resume: Option<u64>, e: LoadEnv)
    ensures Load(p, resume, e).xfade == p.xfade
  {
    hide LoadFinished, LoadStarted, EnsureEngine;
    AttachFade(p, if e.resolve.Some? then e.resolve.value else Native);
    if p.queue.Current().Some? && e.resolve.Some? && e.open.Some? {
      LoadFinishedFrame(EnsureEngine(LoadStarted(p), e.resolve.value), p.queue.Current().value, e.open.value, resume,
        e);
    }
    assert Load(p, resume, e).xfade == p.xfade;
  }

  lemma GaplessFade(p: Player, item: Item, info: StreamInfo, e: EosEnv)
    ensures Gapless(p, item, info, e).xfade == p.xfade
  {
    hide Prepared;
    PreparedFrame(p.(lengths := p.lengths[item.trackId := info.length], rate := info.rate), e.preload, e.prepare);
  }

  lemma AdvanceRecords(p: Player, e: EosEnv, rng: Rng)
    requires p.xfade.None?
    ensures EosAdvance(p, e, rng).xfade.Some? ==> Applies(EosAdvance(p, e, rng), EosAdvance(p, e, rng).xfade.value)
  {
    hide Tick, Load, Next, NextItem, Applies, Gapless;
    LoadFade(p.(queue := MoveTo(p.queue, p.queue.index)), Some(0), e.load);
    var q := p.(queue := Next(p.queue, rng));
    LoadFade(q, None, e.load);
    if Tick(q.(pendingEnded := true), e.tick).xfade.Some? { TickRecords(q.(pendingEnded := true), e.tick); }
    forall item, info ensures Gapless(q, item, info, e).xfade == q.xfade { GaplessFade(q, item, info, e); }
    assert EosAdvance(p, e, rng).xfade.Some? ==> Applies(EosAdvance(p, e, rng), EosAdvance(p, e, rng).xfade.value);
  }

  /** Where a fade's completion moves the cursor. */
  function FadeIndex(p: Player, f: Fade): nat
    requires Applies(p, f)
  {
    FindItem(p.queue.items, f.target).value
  }

  /** The boundary is moved to the fade's target, with the new track's rate and item. */
  ghost predicate Moved(p: Player, f: Fade, r: CrossfadeResult, q: Player) {
    && Applies(p, f)
    && q.queue == p.queue.(index := FadeIndex(p, f))
    && q.current == Some(f.target) && q.rate == r.info.rate
    && q.xfade.None? && !q.fading
  }

  lemma CompleteMoves(p: Player, f: Fade, r: CrossfadeResult, e: ApplyEnv)
    requires Applies(p, f) && p.xfade.None?
    ensures Moved(p, f, r, CompleteFade(p, f, r, e).(fading := false))
  {
    hide Prepared, ShortenOutgoing, FinishRace;
    var idx := FadeIndex(p, f);
    var moved := p.(
      queue := MoveTo(p.queue, idx),
      check := Some(Check(idx, f.gen)),
      lengths := ShortenOutgoing(p.lengths, f, r.overlap)[f.target.trackId := r.info.length],
      rate := r.info.rate,
      current := Some(f.target),
      armed := false);
    PreparedFrame(moved, e.preload, e.prepare);
    RaceFrame(ApplyFade(p, f, r, e), f.race);
  }

  /** A completion moves the boundary exactly when it still applies; otherwise only the fade is forgotten. */
  lemma CompletionIff(p: Player, r: CrossfadeResult, e: ApplyEnv)
    requires p.xfade.Some?
    ensures var f, q := p.xfade.value, CrossfadeComplete(p, Some(r), e);
      if Applies(p, f) then Moved(p, f, r, q) else q == p.(xfade := None, fading := false)
    ensures CrossfadeComplete(p, None, e) == p.(xfade := None, fading := false)
  {
    hide CompleteFade, Moved;
    var f := p.xfade.value;
    AppliesIgnores(p, f);
    StaleStays(p.(xfade := None), f, r, e);
    if Applies(p, f) { CompleteMoves(p.(xfade := None), f, r, e); MovedSame(p, f, r, CrossfadeComplete(p, Some(r), e));
      }
  }

  lemma StaleStays(p: Player, f: Fade, r: CrossfadeResult, e: ApplyEnv)
    ensures !Applies(p, f) ==> CompleteFade(p, f, r, e) == p
  {}

  lemma MovedSame(p: Player, f: Fade, r: CrossfadeResult, q: Player)
    requires Moved(p.(xfade := None), f, r, q)
    ensures Moved(p, f, r, q)
  {}

  /** A pending fade begun by a tick or at the end of a source: while only engine reports, pauses and resumes
      follow, cursor and length table stay; the completion then moves the cursor to the recorded target, once. */
  lemma BoundaryTakenOnce(p: Player, op: Op, ops: seq<Op>, r: CrossfadeResult, e: ApplyEnv, rng: Rng)
    requires Inv(p) && p.xfade.None? && (op.TickOp? || op.EosOp?) && Step(p, op, rng).xfade.Some?
    requires forall k :: 0 <= k < |ops| ==> Waits(ops[k])
    ensures var begun := Step(p, op, rng);
      var waited := Run(begun, ops, rng);
      var done := CrossfadeComplete(waited, Some(r), e);
      && SameBoundary(begun, waited)
      && Moved(begun, begun.xfade.value, r, done)
      && (forall r2: Option<CrossfadeResult>, e2: ApplyEnv :: CrossfadeComplete(done, r2, e2) == done)
  {
    hide Tick, Eos, Run, Applies, Moved, Inv;
    var begun := Step(p, op, rng);
    if op.TickOp? { TickRecords(p, op.tick); } else { EosRecords(p, op.eos, rng); }
    StepKeeps(p, op, rng);
    RunWaits(begun, ops, rng);
    var waited := Run(begun, ops, rng);
    SameApplies(begun, waited, begun.xfade.value);
    CompletionIff(waited, r, e);
    var done := CrossfadeComplete(waited, Some(r), e);
    MovedFrom(begun, waited, begun.xfade.value, r, done);
    CompletedStays(done);
  }

  lemma SameApplies(p: Player, q: Player, f: Fade)
    requires SameBoundary(p, q)
    ensures Applies(p, f) == Applies(q, f)
  {}

  lemma MovedFrom(p: Player, q: Player, f: Fade, r: CrossfadeResult, done: Player)
    requires SameBoundary(p, q) && Moved(q, f, r, done)
    ensures Moved(p, f, r, done) && done.xfade.None?
  {}

  lemma CompletedStays(p: Player)
    requires p.xfade.None?
    ensures forall r: Option<CrossfadeResult>, e: ApplyEnv :: CrossfadeComplete(p, r, e) == p
  {}

  /** A fade overtaken by a load, a transport command or an engine change never moves the boundary,
      however the run goes on. */
  lemma SupersededFade(p: Player, ops: seq<Op>, r: CrossfadeResult, e: ApplyEnv, rng: Rng)
    requires Inv(p) && p.xfade.Some?
    requires p.xfade.value.gen != p.loadingSeq || p.xfade.value.epoch != p.epoch
    requires Run(p, ops, rng).xfade == p.xfade
    ensures var q := Run(p, ops, rng);
      CrossfadeComplete(q, Some(r), e) == q.(xfade := None, fading := false)
  {
    hide Run, CrossfadeComplete;
    RunKeeps(p, ops, rng);
    CompletionIff(Run(p, ops, rng), r, e);
  }
}
