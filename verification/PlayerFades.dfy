/** When a crossfade begins and what it leaves of the album, and what an end of source does without one. */
module PlayerFades {
  import opened Wrappers
  import opened Floats
  import opened Order
  import opened QueueSpec
  import opened PlayerSpec
  import opened PlayerBoundary
  import opened PlayerSeek
  import opened PlayerTransport
  import PlayerResults

  // ---- ticks -----------------------------------------------------------

  /** The planner's overlap and one second of priming reach over the `left` samples. */
  ghost predicate InLead(plan: Option<Plan>, rate: nat, left: nat) {
    match plan
    case None => true
    case Some(OtherPlan) => false
    case Some(SweetFade(overlap)) =>
      match overlap
      case Fin(r) => left as real <= (r + 1.0) * rate as real
      case PosInf => rate > 0
      case _ => false
  }

  /** A fade is due with `left` samples of the track to go. */
  ghost predicate FadeDue(p: Player, left: nat, e: TickEnv) {
    && p.state == Playing && !p.armed && !p.fading && !p.pendingEnded
    && p.queue.repeat != One && !(p.queue.repeat == All && |p.queue.items| == 1)
    && 0 < p.crossfadeSeconds && 0 < left <= p.crossfadeSeconds * p.rate
    && e.crossfade && PeekPreloadTarget(p.queue, p.queue.index).Some?
    && InLead(e.plan, p.rate, left)
  }

  lemma LeadIs(overlap: F64, rate: nat, left: u64)
    ensures LeadReached(overlap, rate, left) <==> InLead(Some(SweetFade(overlap)), rate, left)
  {
    if overlap.Fin? { FloorReached((overlap.r + 1.0) * rate as real, left); }
  }

  lemma FloorReached(x: real, n: int)
    ensures n <= x.Floor <==> n as real <= x
  {}

  /** Without a plan the fade's own length counts, which the distance to the end is already within. */
  lemma DefaultLead(seconds: nat, rate: nat, left: u64)
    requires left <= seconds * rate
    ensures LeadReached(Fin(seconds as real), rate, left)
  {
    LeadIs(Fin(seconds as real), rate, left);
    SecondsPlusOne(seconds, rate);
    assert left as real <= (seconds * rate) as real;
  }

  lemma SecondsPlusOne(seconds: nat, rate: nat)
    ensures (seconds * rate) as real <= (seconds as real + 1.0) * rate as real
  {
    assert (seconds as real + 1.0) * rate as real == seconds as real * rate as real + rate as real;
    assert (seconds * rate) as real == seconds as real * rate as real;
  }

  /** The samples left of the track under the position. */
  lemma LeftIs(p: Player, pos: u64, i: nat)
    requires Fits(p) && i < |p.queue.items| && LengthSum(p, i) <= pos <= LengthSum(p, i + 1)
    ensures TrackRemaining(p, i, pos) == LengthSum(p, i + 1) - pos
  {
    hide OffsetAt, LengthOf, LengthSum;
    StartIs(p, i);
  }

  /** A cursor move leaves everything that fades look at. */
  lemma SettledReads(p: Player, e: TickEnv)
    ensures var q := TickSettled(p, e);
      && q.queue.items == p.queue.items && q.lengths == p.lengths && q.rate == p.rate && q.armed == p.armed
      && q.fading == p.fading && q.crossfadeSeconds == p.crossfadeSeconds && q.queue.repeat == p.queue.repeat
      && PeekPreloadTarget(q.queue, p.queue.index) == PeekPreloadTarget(p.queue, p.queue.index)
      && (!p.pendingEnded ==> !q.pendingEnded && q.state == p.state)
      && (p.pendingEnded ==> q.pendingEnded || q.state == Ended)
  {
    hide CurrentIndexAt, AlbumPosition, TotalLength, LengthOf, PositionOf;
  }

  lemma RemainingReads(p: Player, q: Player, i: int, pos: u64)
    requires q.queue.items == p.queue.items && q.lengths == p.lengths && q.rate == p.rate
    ensures TrackRemaining(q, i, pos) == TrackRemaining(p, i, pos)
  {
    hide LengthOf;
    LengthReads(p, q, i);
    StartReads(p, q, |p.queue.items|);
  }

  lemma {:induction false} StartReads(p: Player, q: Player, n: nat)
    requires q.queue.items == p.queue.items && q.lengths == p.lengths && q.rate == p.rate
    ensures OffsetsUpTo(q, n) == OffsetsUpTo(p, n)
  {
    hide LengthOf;
    if n > 0 {
      StartReads(p, q, n - 1);
      LengthReads(p, q, n - 2);
    }
  }

  lemma FadesIff(p: Player, q: Player, pos: u64, i: nat, e: TickEnv)
    requires Fits(p) && i < |p.queue.items| && LengthSum(p, i) <= pos <= LengthSum(p, i + 1)
    requires q == TickSettled(p, e)
    ensures TickFades(q, p.queue.index, i, pos, e) <==> FadeDue(p, LengthSum(p, i + 1) - pos, e)
  {
    hide TickSettled, LengthSum, TrackRemaining, PeekPreloadTarget, LeadReached;
    SettledReads(p, e);
    RemainingReads(p, q, i, pos);
    LeftIs(p, pos, i);
    var left := LengthSum(p, i + 1) - pos;
    if e.plan.None? {
      if left <= p.crossfadeSeconds * p.rate { DefaultLead(p.crossfadeSeconds, p.rate, left); }
    } else if e.plan.value.SweetFade? {
      LeadIs(e.plan.value.overlap, p.rate, left);
    }
  }

  /** The tick after its fade trigger, unless the fade completes at once. */
  lemma FadeArms(p: Player, gen: nat, e: FadeEnv)
    requires !e.start.Completed?
    ensures BeginFade(p, gen, None, e).armed == p.armed
  {}

  /** A tick begins a fade exactly when one is due: the trigger is armed, once, and the engine is asked. */
  lemma TickFadesIff(p: Player, e: TickEnv, i: nat)
    requires p.engine && Fits(p) && i < |p.queue.items| && !e.fade.start.Completed?
    requires LengthSum(p, i) <= AlbumPosition(p, e.rendered) < LengthSum(p, i + 1)
    ensures Tick(p, e).armed <==> p.armed || FadeDue(p, LengthSum(p, i + 1) - AlbumPosition(p, e.rendered), e)
  {
    hide TickSettled, LengthSum, AlbumPosition, TickFades, FadeDue, BeginFade, CurrentIndexAt;
    var pos := AlbumPosition(p, e.rendered);
    var q := TickSettled(p, e);
    TrackOf(p, pos, i);
    SettledReads(p, e);
    FadesIff(p, q, pos, i, e);
    FadeArms(q.(armed := true), q.loadingSeq, e.fade);
  }

  /** At or past the album's end there is nothing left to fade. */
  lemma NoFadeAtEnd(p: Player, e: TickEnv)
    requires p.engine && Fits(p) && p.queue.items != []
    requires AlbumPosition(p, e.rendered) >= LengthSum(p, |p.queue.items|)
    ensures Tick(p, e) == TickSettled(p, e)
  {
    hide TickSettled, LengthSum, AlbumPosition, CurrentIndexAt, OffsetAt, LengthOf;
    var pos := AlbumPosition(p, e.rendered);
    var q := TickSettled(p, e);
    var last := |p.queue.items| - 1;
    LastTrack(p, pos);
    StartIs(p, last);
    SettledReads(p, e);
    RemainingReads(p, q, last, pos);
    assert TrackRemaining(p, last, pos) == 0;
  }

  /** A pending end is reached within 256 samples of the album's end, or when the engine has drained. */
  lemma TickEndsIff(p: Player, e: TickEnv)
    requires p.engine && p.state != Ended && Fits(p)
    ensures Tick(p, e).state == Ended <==>
      p.pendingEnded && (e.drained || AlbumPosition(p, e.rendered) + 256 >= LengthSum(p, |p.queue.items|))
    ensures Tick(p, e).state != Ended ==> Tick(p, e).state == p.state
  {
    hide TickSettled, LengthSum, AlbumPosition, CurrentIndexAt, TickFades, BeginFade;
    var q := TickSettled(p, e);
    SettledEnds(p, e);
    BeginState(q.(armed := true), q.loadingSeq, None, e.fade);
  }

  lemma SettledEnds(p: Player, e: TickEnv)
    requires p.state != Ended && Fits(p)
    ensures TickSettled(p, e).state ==
      if p.pendingEnded && (e.drained || AlbumPosition(p, e.rendered) + 256 >= LengthSum(p, |p.queue.items|)) then Ended
      else p.state
  {
    hide LengthSum, AlbumPosition, TickAdvanced, TotalLength;
    TotalIs(p);
    AdvancedState(p, AlbumPosition(p, e.rendered));
    Tolerance(AlbumPosition(p, e.rendered), TotalLength(p));
  }

  lemma AdvancedState(p: Player, pos: u64)
    ensures TickAdvanced(p, pos).state == p.state
  {
    hide *;
    AdvancedIs(p, pos);
  }

  lemma AdvancedIs(p: Player, pos: u64)
    ensures TickAdvanced(p, pos) == p.(check := None)
      || exists i: int :: TickAdvanced(p, pos) == p.(check := None).(queue := MoveTo(p.queue, i))
  {
    hide TickMoves, CurrentIndexAt, MoveTo;
  }

  lemma Tolerance(pos: u64, total: u64)
    ensures SatAdd(pos, END_TOLERANCE_SAMPLES) >= total <==> pos + 256 >= total
  {}

  lemma BeginState(p: Player, gen: nat, race: Option<Race>, e: FadeEnv)
    ensures BeginFade(p, gen, race, e).state == p.state
  {
    hide CompleteFade;
    if CanBegin(p, e) && e.start.Completed? {
      PlayerResults.CompleteKeeps(p.(fading := true), NewFade(p, gen, race), e.start.result, e.apply);
    }
  }

  lemma TotalIs(p: Player)
    requires Fits(p)
    ensures TotalLength(p) == LengthSum(p, |p.queue.items|)
  {
    hide LengthOf, OffsetAt;
    if p.queue.items != [] { StartIs(p, |p.queue.items| - 1); }
  }

  /** A fade that waits for its completion records when it began, where it goes and what it leaves. */
  lemma PendingRecords(p: Player, gen: nat, race: Option<Race>, e: FadeEnv)
    requires p.engine && e.crossfade && e.start.Pending? && PeekPreloadTarget(p.queue, p.queue.index).Some?
    ensures var q := BeginFade(p, gen, race, e);
      && q.fading && q.xfade.Some? && q.queue == p.queue && q.lengths == p.lengths
      && var f := q.xfade.value;
      && f.gen == gen && f.epoch == p.epoch && f.race == race
      && Some(f.target) == PeekPreloadTarget(p.queue, p.queue.index) && f.prevItem == p.queue.Current()
      && (f.prevLength.Some? <==> f.prevItem.Some? && f.prevItem.value.trackId in p.lengths)
      && (f.prevLength.Some? ==> f.prevLength.value == p.lengths[f.prevItem.value.trackId])
  {
    hide PeekPreloadTarget;
  }

  // ---- a fade's boundary -----------------------------------------------

  /** The standby prepared after the boundary is this track. */
  ghost predicate IsStandby(q: Player, e: ApplyEnv, trackId: int) {
    e.preload && e.prepare.Some? && Preload(q).Some? && Preload(q).value.trackId == trackId
  }

  /** The length of a track after the boundary. */
  ghost predicate LengthAfter(p: Player, q: Player, f: Fade, r: CrossfadeResult, trackId: int) {
    if trackId == f.target.trackId then trackId in q.lengths && q.lengths[trackId] == r.info.length
    else if f.prevItem.Some? && trackId == f.prevItem.value.trackId && f.prevLength.Some? && r.overlap > 0 then
      trackId in q.lengths && q.lengths[trackId] == MaxInt(f.prevLength.value - r.overlap, 0)
    else
      && (trackId in q.lengths <==> trackId in p.lengths)
      && (trackId in p.lengths ==> q.lengths[trackId] == p.lengths[trackId])
  }

  /** The incoming track gets its own length, the outgoing one is cut by the overlap, the rest stay. */
  lemma FadeLengths(p: Player, f: Fade, r: CrossfadeResult, e: ApplyEnv, trackId: int)
    requires Applies(p, f)
    ensures var q := ApplyFade(p, f, r, e);
      && q.queue.items == p.queue.items && q.rate == r.info.rate && q.current == Some(f.target)
      && 0 <= q.queue.index < |q.queue.items| && SameItem(q.queue.items[q.queue.index], f.target)
      && (forall k :: 0 <= k < q.queue.index ==> !SameItem(q.queue.items[k], f.target))
      && (!IsStandby(q, e, trackId) ==> LengthAfter(p, q, f, r, trackId))
  {
    hide PeekPreloadTarget;
  }

  /** Every other queued track keeps its length: it is neither of the fade's two nor the new standby. */
  ghost predicate Apart(p: Player, q: Player, f: Fade, e: ApplyEnv, k: int)
    requires 0 <= k < |p.queue.items|
  {
    var t := p.queue.items[k].trackId;
    t != f.target.trackId && (f.prevItem.Some? ==> t != f.prevItem.value.trackId) && !IsStandby(q, e, t)
  }

  lemma ApartLength(p: Player, f: Fade, r: CrossfadeResult, e: ApplyEnv, k: nat)
    requires Applies(p, f) && r.info.rate == p.rate && k < |p.queue.items| && Apart(p, ApplyFade(p, f, r, e), f, e, k)
    ensures LengthOf(ApplyFade(p, f, r, e), k) == LengthOf(p, k)
  {
    hide ApplyFade, Applies, IsStandby;
    FadeLengths(p, f, r, e, p.queue.items[k].trackId);
  }

  lemma {:induction false} ApartSum(p: Player, f: Fade, r: CrossfadeResult, e: ApplyEnv, n: nat)
    requires Applies(p, f) && r.info.rate == p.rate && n <= |p.queue.items|
    requires forall k :: 0 <= k < n ==> Apart(p, ApplyFade(p, f, r, e), f, e, k)
    ensures LengthSum(ApplyFade(p, f, r, e), n) == LengthSum(p, n)
  {
    hide ApplyFade, Applies, Apart, LengthOf;
    if n > 0 {
      ApartSum(p, f, r, e, n - 1);
      ApartLength(p, f, r, e, n - 1);
    }
  }

  /**
   The incoming track starts where the outgoing one, cut by the overlap, ends: for a fade from the item
   at `i` to the one after it, whatever the lengths before, when no track is queued twice up to there.
   */
  lemma IncomingStarts(p: Player, f: Fade, r: CrossfadeResult, e: ApplyEnv, i: nat)
    requires Applies(p, f) && r.info.rate == p.rate && i + 1 < |p.queue.items|
    requires f.prevItem == Some(p.queue.items[i]) && f.prevLength == Some(LengthOf(p, i)) && r.overlap > 0
    requires f.target.trackId == p.queue.items[i + 1].trackId != p.queue.items[i].trackId
    requires var q := ApplyFade(p, f, r, e);
      && (forall k :: 0 <= k < i ==> Apart(p, q, f, e, k))
      && !IsStandby(q, e, p.queue.items[i].trackId) && !IsStandby(q, e, f.target.trackId)
    ensures var q := ApplyFade(p, f, r, e);
      && LengthSum(q, i + 1) == LengthSum(p, i) + MaxInt(LengthOf(p, i) - r.overlap, 0)
      && LengthSum(q, i + 2) == LengthSum(q, i + 1) + r.info.length
  {
    hide ApplyFade, Applies, Apart, IsStandby;
    ApartSum(p, f, r, e, i);
    FadeLengths(p, f, r, e, p.queue.items[i].trackId);
    FadeLengths(p, f, r, e, f.target.trackId);
  }

  /** A fade that races the source's end leaves of the outgoing track exactly what was rendered. */
  lemma RaceLeavesRendered(p: Player, e: EosFadeEnv, i: nat)
    requires p.engine && Fits(p) && i < |p.queue.items| && p.queue.index == i && LengthOf(p, i) > 0
    requires LengthSum(p, i) <= AlbumPosition(p, e.rendered) <= LengthSum(p, i + 1)
    ensures var q, t := FinishRace(p, Some(EosRace(p, e))), p.queue.items[i].trackId;
      q == p.(lengths := p.lengths[t := AlbumPosition(p, e.rendered) - LengthSum(p, i)])
  {
    hide AlbumPosition, LengthSum, LengthOf, TrackRemaining;
    LeftIs(p, AlbumPosition(p, e.rendered), i);
    StartIs(p, i);
  }

  // ---- the end of a source ---------------------------------------------

  /** A fade at a source's end is tried while more than 256 samples of the track remain unrendered. */
  lemma EosFadeIff(p: Player, e: EosFadeEnv, i: nat)
    requires Fits(p) && i < |p.queue.items| && p.queue.index == i
    requires LengthSum(p, i) <= AlbumPosition(p, e.rendered) <= LengthSum(p, i + 1)
    ensures EosFadeWanted(p, e) <==>
      && p.crossfadeSeconds > 0 && p.queue.repeat != One && !p.pauseIntent && !p.pendingEnded && !p.fading
      && p.engine && e.crossfade && e.preload && PeekPreloadTarget(p.queue, i).Some?
      && LengthSum(p, i + 1) - AlbumPosition(p, e.rendered) > 256
      && (e.plan.None? || (e.plan.value.SweetFade? && Positive(e.plan.value.overlap)))
  {
    hide AlbumPosition, LengthSum, TrackRemaining, PeekPreloadTarget;
    LeftIs(p, AlbumPosition(p, e.rendered), i);
  }

  /** A NaN plan sets no limit. */
  ghost predicate Positive(overlap: F64) {
    overlap.PosInf? || overlap.NaN? || (overlap.Fin? && overlap.r > 0.0)
  }

  /** Without a fade: the source just ended, nothing is fading, nobody wants to pause. */
  ghost predicate EndsPlainly(p: Player, e: EosEnv) {
    p.engine && !p.fading && !p.pauseIntent && !EosFadeWanted(p.(eosInFlight := true), e.fade)
  }

  lemma EosIsAdvance(p: Player, e: EosEnv, rng: Rng)
    requires EndsPlainly(p, e)
    ensures Eos(p, e, rng) == EosAdvance(p.(eosInFlight := true), e, rng).(eosInFlight := false)
  {
    hide EosAdvance, EosFadeWanted, BeginFade;
  }

  /** Repeat-one loads the same item again from its start. */
  lemma EosRepeatsOne(p: Player, e: EosEnv, rng: Rng)
    requires EndsPlainly(p, e) && p.queue.repeat == One && p.queue.index >= 0
    requires p.queue.Current().Some? && e.load.resolve.Some? && e.load.open.Some?
    ensures var g, q := p.(eosInFlight := true), Eos(p, e, rng);
      q.queue == p.queue && Loaded(g, q, e.load) && StandsAt(g, q, e.load, 0)
  {
    hide EosFadeWanted, Load, LoadFinished;
    var g := p.(eosInFlight := true);
    EosIsAdvance(p, e, rng);
    var within := LoadPlays(g, Some(0), e.load);
    var l := Load(g, Some(0), e.load);
    NotInFlight(g, l, e.load);
  }

  lemma NotInFlight(g: Player, l: Player, e: LoadEnv)
    requires Loaded(g, l, e) && g.queue.index >= 0 && StandsAt(g, l, e, 0)
    ensures Loaded(g, l.(eosInFlight := false), e) && StandsAt(g, l.(eosInFlight := false), e, 0)
  {
    hide LengthSum;
    assert AlbumPosition(l.(eosInFlight := false), 0) == AlbumPosition(l, 0) || l.kind != Some(Musepack);
  }

  /** A promoted standby plays on: the queue is one step further and no load is spent. */
  lemma EosGapless(p: Player, e: EosEnv, rng: Rng)
    requires EndsPlainly(p, e) && p.queue.repeat != One && e.preload && e.advance.Some?
    requires NextItem(p.queue, rng).Some? && Preload(p).Some?
      && SameItem(NextItem(p.queue, rng).value, Preload(p).value)
    ensures var q, item := Eos(p, e, rng), NextItem(p.queue, rng).value;
      && q.queue == Next(p.queue, rng) && q.current == Some(item) && q.rate == e.advance.value.rate
      && q.loadingSeq == p.loadingSeq && q.transportSeq == p.transportSeq && q.epoch == p.epoch
      && q.state == (if e.plays then Playing else Paused)
      && (!(e.prepare.Some? && Preload(q).Some? && Preload(q).value.trackId == item.trackId) ==>
        item.trackId in q.lengths && q.lengths[item.trackId] == e.advance.value.length)
  {
    hide EosFadeWanted, NextTarget, Next, PeekPreloadTarget, Tick, Load;
    EosIsAdvance(p, e, rng);
  }

  /** A standby that is not the next item is not kept: the next item is loaded instead. */
  lemma EosLoadsNext(p: Player, e: EosEnv, rng: Rng)
    requires EndsPlainly(p, e) && p.queue.repeat != One && NextItem(p.queue, rng).Some?
    requires !(e.preload && e.advance.Some? && Preload(p).Some?
      && SameItem(NextItem(p.queue, rng).value, Preload(p).value))
    ensures Eos(p, e, rng) ==
      Load(p.(eosInFlight := true, queue := Next(p.queue, rng)), None, e.load).(eosInFlight := false)
  {
    hide EosFadeWanted, NextTarget, Next, PeekPreloadTarget, Tick, Load;
    EosIsAdvance(p, e, rng);
  }

  /** With no next item the end is pending, and the player ends once the album is played out. */
  lemma EosEnds(p: Player, e: EosEnv, rng: Rng)
    requires EndsPlainly(p, e) && p.queue.repeat != One && NextItem(p.queue, rng).None?
    requires p.state != Ended && Fits(p.(queue := Next(p.queue, rng)))
    ensures var g := p.(queue := Next(p.queue, rng));
      Eos(p, e, rng).state == if e.tick.drained
        || AlbumPosition(g, e.tick.rendered) + 256 >= LengthSum(g, |g.queue.items|) then Ended else p.state
  {
    hide EosFadeWanted, NextTarget, Next, PeekPreloadTarget, Tick, Load, LengthSum, OffsetAt;
    EosIsAdvance(p, e, rng);
    var g := p.(queue := Next(p.queue, rng));
    var w := g.(eosInFlight := true, pendingEnded := true);
    SumReads(g, w, |g.queue.items|);
    StartReads(g, w, |g.queue.items|);
    SamePosition(g, w, e.tick.rendered);
    TickEndsIff(w, e.tick);
  }

  lemma SamePosition(p: Player, q: Player, rendered: u64)
    requires q.queue == p.queue && q.lengths == p.lengths && q.rate == p.rate
    requires q.engine == p.engine && q.kind == p.kind && q.resetOffset == p.resetOffset
    ensures AlbumPosition(q, rendered) == AlbumPosition(p, rendered)
  {
    StartReads(p, q, |p.queue.items|);
  }
}
