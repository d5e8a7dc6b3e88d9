/**
 The player object, updated field by field. Each method's new state is its operation's value
 in `PlayerSpec`; the answers of engine and policy calls come from the environment argument.
 */
module Player {
  import opened Wrappers
  import opened Floats
  import opened Order
  import Q = QueueSpec
  import QM = QueueModel
  import S = PlayerSpec

  // Updates of several fields are grouped into small methods so that each proof stays small.

  type Item = Q.Item
  type u64 = S.u64

  class Player {
    const queue: QM.QueueModel
    var state: S.PlayerState
    var current: Option<Item>
    var engine: bool
    var kind: Option<S.EngineKind>
    var lengths: map<int, u64>
    var resetOffset: u64
    var pendingEnded: bool
    var eosInFlight: bool
    var check: Option<S.Check>
    var loadingSeq: nat
    var transportSeq: nat
    var epoch: nat
    var mutating: bool
    var pauseIntent: bool
    var restored: Option<(int, u64)>
    var crossfadeSeconds: nat
    var armed: bool
    var fading: bool
    var xfade: Option<S.Fade>
    var rate: nat

    function State(): S.Player
      reads this, queue
    {
      S.Player(queue.State(), state, current, engine, kind, lengths, resetOffset, pendingEnded, eosInFlight, check,
        loadingSeq, transportSeq, epoch, mutating, pauseIntent, restored, crossfadeSeconds, armed, fading, xfade, rate)
    }

    constructor (queue: QM.QueueModel)
      ensures this.queue == queue && State() == S.NewPlayer(old(queue.State()))
    {
      this.queue := queue;
      state, current, engine, kind, lengths, resetOffset := S.Idle, None, false, None, map[], 0;
      pendingEnded, eosInFlight, check := false, false, None;
      loadingSeq, transportSeq, epoch := 0, 0, 0;
      mutating, pauseIntent, restored := false, false, None;
      crossfadeSeconds, armed, fading, xfade, rate := 0, false, false, None, 44100;
    }

    // ---- geometry ------------------------------------------------------

    method LengthOf(i: int) returns (r: u64)
      ensures r == S.LengthOf(State(), i)
    {
      var item := queue.At(i);
      if item.None? {
        return 0;
      }
      if item.value.trackId in lengths {
        return lengths[item.value.trackId];
      }
      if item.value.hint.None? {
        return 0;
      }
      r := S.HintSamples(item.value.hint.value, rate);
    }

    method Offsets() returns (offs: seq<u64>)
      ensures offs == S.Offsets(State())
    {
      offs := [];
      var acc: u64 := 0;
      var n := |queue.items|;
      for i := 0 to n
        invariant offs == S.OffsetsUpTo(State(), i)
        invariant acc == if i == 0 then 0 else S.SatAdd(offs[i - 1], S.LengthOf(State(), i - 1))
      {
        offs := offs + [acc];
        var length := LengthOf(i);
        acc := S.SatAdd(acc, length);
      }
    }

    method OffsetAt(i: int) returns (r: u64)
      ensures r == S.OffsetAt(State(), i)
    {
      var offs := Offsets();
      r := if 0 <= i < |offs| then offs[i] else 0;
    }

    method TotalLength() returns (r: u64)
      ensures r == S.TotalLength(State())
    {
      var offs := Offsets();
      if |offs| == 0 {
        return 0;
      }
      var last := LengthOf(|offs| - 1);
      r := S.SatAdd(offs[|offs| - 1], last);
    }

    method AlbumPosition(rendered: u64) returns (r: u64)
      ensures r == S.AlbumPosition(State(), rendered)
    {
      if !engine {
        return 0;
      }
      if kind == Some(S.Musepack) {
        return S.SatAdd(resetOffset, rendered);
      }
      var base := OffsetAt(queue.index);
      r := S.SatAdd(base, rendered);
    }

    method CurrentIndexAt(pos: u64) returns (idx: int)
      ensures idx == S.CurrentIndexAt(State(), pos)
    {
      var offs := Offsets();
      idx := 0;
      for i := 0 to |offs|
        invariant idx == S.LastStart(offs, i, pos)
      {
        if pos >= offs[i] {
          idx := i;
        }
      }
    }

    method TrackRemaining(idx: int, pos: u64) returns (r: u64)
      ensures r == S.TrackRemaining(State(), idx, pos)
    {
      var start := OffsetAt(idx);
      var length := LengthOf(idx);
      r := S.SatSub(S.SatAdd(start, length), pos);
    }

    method PeekPreloadTarget(qi: int) returns (r: Option<Item>)
      ensures r == Q.PeekPreloadTarget(queue.State(), qi)
    {
      if queue.shuffling {
        var pos := Q.PositionOf(queue.order, qi);
        if pos.Some? && pos.value + 1 < |queue.order| {
          r := queue.At(queue.order[pos.value + 1]);
          return;
        }
        if queue.repeat == All {
          if queue.order == [] {
            return None;
          }
          r := queue.At(queue.order[0]);
          return;
        }
        return None;
      }
      if qi + 1 < |queue.items| {
        r := queue.At(qi + 1);
        return;
      }
      if queue.repeat == All && queue.items != [] {
        r := queue.At(0);
        return;
      }
      return None;
    }

    // ---- loading -------------------------------------------------------

    method Fail()
      modifies `state
      ensures State() == S.Fail(old(State()))
    {
      state := S.Error;
    }

    method DetachListeners()
      modifies `epoch
      ensures State() == old(State()).(epoch := old(epoch) + 1)
    {
      epoch := epoch + 1;
    }

    method EnsureEngine(wanted: S.EngineKind)
      modifies `engine, `kind, `epoch
      ensures State() == S.EnsureEngine(old(State()), wanted)
    {
      if engine && kind == Some(wanted) {
        return;
      }
      DetachListeners();
      BuildEngine(wanted);
    }

    /** A new engine of the wanted kind in place of the closed one. */
    method BuildEngine(wanted: S.EngineKind)
      modifies `engine, `kind, `epoch
      ensures State() == old(State()).(engine := true, kind := Some(wanted), epoch := old(epoch) + 1)
    {
      kind := Some(wanted);
      epoch := epoch + 1;
      engine := true;
    }

    method PrepareNext(preload: bool, prepare: Option<S.StreamInfo>)
      modifies `lengths
      ensures State() == S.Prepared(old(State()), preload, prepare)
    {
      var next := PeekPreloadTarget(queue.index);
      if next.Some? {
        if preload {
          if prepare.Some? {
            lengths := lengths[next.value.trackId := prepare.value.length];
          }
        }
      }
    }

    // ---- groups of fields ------------------------------------------------

    /** A new load generation and a new transport generation. */
    method NewGeneration()
      modifies `loadingSeq, `transportSeq
      ensures State() == old(State()).(loadingSeq := old(loadingSeq) + 1, transportSeq := old(transportSeq) + 1)
    {
      loadingSeq := loadingSeq + 1;
      transportSeq := transportSeq + 1;
    }

    /** The exact length and rate of an opened or promoted source. */
    method LearnStream(trackId: int, info: S.StreamInfo)
      modifies `lengths, `rate
      ensures State() == old(State()).(lengths := old(lengths)[trackId := info.length], rate := info.rate)
    {
      lengths := lengths[trackId := info.length];
      rate := info.rate;
    }

    method SetState(s: S.PlayerState)
      modifies `state
      ensures State() == old(State()).(state := s)
    {
      state := s;
    }

    method SetFading(on: bool)
      modifies `fading
      ensures State() == old(State()).(fading := on)
    {
      fading := on;
    }

    method SetFade(f: Option<S.Fade>)
      modifies `xfade
      ensures State() == old(State()).(xfade := f)
    {
      xfade := f;
    }

    method LandAt(offset: u64, s: S.PlayerState)
      modifies `resetOffset, `state
      ensures State() == old(State()).(resetOffset := offset, state := s)
    {
      resetOffset := offset;
      state := s;
    }

    method PausedOr(s: S.PlayerState) returns (r: S.PlayerState)
      ensures r == S.PausedOr(State(), s)
    {
      r := if pauseIntent then S.Paused else s;
    }

    method MoveCursor(i: int)
      requires !mutating
      modifies `mutating, queue
      ensures !mutating
      ensures State() == old(State()).(queue := Q.MoveTo(old(State()).queue, i))
    {
      mutating := true;
      queue.MoveTo(i);
      mutating := false;
    }

    // ---- loading, continued ----------------------------------------------

    method DropPending()
      modifies `pendingEnded, `restored, `armed
      ensures State() == old(State()).(pendingEnded := false, restored := None, armed := false)
    {
      pendingEnded := false;
      restored := None;
      armed := false;
    }

    method StartLoad()
      modifies this
      ensures State() == S.LoadStarted(old(State())) && mutating == old(mutating)
    {
      NewGeneration();
      DropPending();
      SetState(S.Loading);
    }

    method ResumeAt(resume: Option<u64>) returns (at: u64)
      ensures at == S.ResumeAt(State(), resume)
    {
      at := 0;
      if resume.Some? && resume.value > 0 {
        var length := LengthOf(queue.index);
        at := Min(resume.value, S.SatSub(length, 1));
      }
    }

    method Settle(item: Item, start: u64, resume: Option<u64>)
      modifies `current, `resetOffset, `state
      ensures State() == old(State()).(
        resetOffset := S.SatAdd(start, S.ResumeAt(old(State()), resume)), current := Some(item),
          state := S.PausedOr(old(State()), S.Buffering))
    {
      hide S.ResumeAt;
      var at := ResumeAt(resume);
      var next := PausedOr(S.Buffering);
      current := Some(item);
      LandAt(S.SatAdd(start, at), next);
    }

    method FinishLoad(item: Item, info: S.StreamInfo, resume: Option<u64>, e: S.LoadEnv)
      modifies this
      ensures State() == S.LoadFinished(old(State()), item, info, resume, e) && mutating == old(mutating)
    {
      hide S.Prepared, S.OffsetAt, S.ResumeAt;
      LearnStream(item.trackId, info);
      var start := OffsetAt(queue.index);
      PrepareNext(e.preload, e.prepare);
      Settle(item, start, resume);
      assert State() == S.LoadFinished(old(State()), item, info, resume, e);
    }

    method Load(resume: Option<u64>, e: S.LoadEnv) returns (ok: bool)
      modifies this
      ensures State() == S.Load(old(State()), resume, e) && mutating == old(mutating)
      ensures ok == S.LoadSucceeds(old(State()), e)
    {
      hide S.LoadStarted, S.EnsureEngine, S.LoadFinished, S.Fail;
      var item := queue.Current();
      if item.None? {
        return false;
      }
      StartLoad();
      if e.resolve.None? {
        Fail();
        return false;
      }
      EnsureEngine(e.resolve.value);
      if e.open.None? {
        Fail();
        return false;
      }
      FinishLoad(item.value, e.open.value, resume, e);
      return true;
    }

    // ---- crossfades ----------------------------------------------------

    method FindItem(target: Item) returns (r: Option<nat>)
      ensures r == S.FindItem(queue.items, target)
    {
      var items := queue.items;
      var i := 0;
      while i < |items|
        invariant 0 <= i <= |items|
        invariant forall k :: 0 <= k < i ==> !S.SameItem(items[k], target)
      {
        if S.SameItem(items[i], target) {
          return Some(i);
        }
        i := i + 1;
      }
      return None;
    }

    method ShortenOutgoing(f: S.Fade, overlap: u64)
      modifies `lengths
      ensures State() == old(State()).(lengths := S.ShortenOutgoing(old(lengths), f, overlap))
    {
      if f.prevItem.Some? && f.prevLength.Some? {
        if overlap > 0 {
          lengths := lengths[f.prevItem.value.trackId := S.SatSub(f.prevLength.value, overlap)];
        }
      }
    }

    method TakeUp(item: Item, idx: int, gen: nat)
      modifies `check, `current, `armed
      ensures State() == old(State()).(check := Some(S.Check(idx, gen)), current := Some(item), armed := false)
    {
      check := Some(S.Check(idx, gen));
      current := Some(item);
      armed := false;
    }

    /** The boundary move of a fade that still applies. */
    method MoveBoundary(f: S.Fade, idx: nat, r: S.CrossfadeResult)
      requires !mutating
      modifies this, queue
      ensures !mutating
      ensures State() == old(State()).(
        queue := Q.MoveTo(old(State()).queue, idx),
        check := Some(S.Check(idx, f.gen)),
        lengths := S.ShortenOutgoing(old(lengths), f, r.overlap)[f.target.trackId := r.info.length],
        rate := r.info.rate,
        current := Some(f.target),
        armed := false)
    {
      hide Q.MoveTo, S.ShortenOutgoing;
      ShortenOutgoing(f, r.overlap);
      MoveCursor(idx);
      LearnStream(f.target.trackId, r.info);
      TakeUp(f.target, idx, f.gen);
    }

    method ApplyCrossfadeResult(f: S.Fade, r: S.CrossfadeResult, e: S.ApplyEnv) returns (taken: bool)
      requires !mutating
      modifies this, queue
      ensures !mutating
      ensures State() == S.ApplyFade(old(State()), f, r, e) && taken == S.Applies(old(State()), f)
    {
      hide S.Prepared, S.ShortenOutgoing, Q.MoveTo;
      if f.gen != loadingSeq || f.epoch != epoch {
        return false;
      }
      var idx := FindItem(f.target);
      if idx.None? {
        return false;
      }
      MoveBoundary(f, idx.value, r);
      PrepareNext(e.preload, e.prepare);
      return true;
    }

    method FinishEosRace(race: Option<S.Race>)
      modifies `lengths
      ensures State() == S.FinishRace(old(State()), race)
    {
      if race.None? {
        return;
      }
      if race.value.rawLength == 0 {
        return;
      }
      lengths := lengths[race.value.trackId := S.SatSub(race.value.rawLength, race.value.remaining)];
    }

    /** A fade's result: the boundary and, when it was taken, the outgoing track's true length. */
    method CompleteFade(f: S.Fade, r: S.CrossfadeResult, e: S.ApplyEnv) returns (taken: bool)
      requires !mutating
      modifies this, queue
      ensures !mutating
      ensures State() == S.CompleteFade(old(State()), f, r, e) && taken == S.Applies(old(State()), f)
    {
      hide S.Applies, S.FinishRace;
      taken := ApplyCrossfadeResult(f, r, e);
      if taken {
        FinishEosRace(f.race);
      }
    }

    method NewFade(target: Item, race: Option<S.Race>) returns (f: S.Fade)
      requires S.Preload(State()) == Some(target)
      ensures f == S.NewFade(State(), loadingSeq, race)
    {
      var prevItem := queue.Current();
      var prevLength := if prevItem.Some? && prevItem.value.trackId in lengths
        then Some(lengths[prevItem.value.trackId]) else None;
      f := S.Fade(loadingSeq, epoch, target, prevItem, prevLength, race);
    }

    method StartFade(f: S.Fade, e: S.FadeEnv) returns (taken: bool)
      requires !mutating
      modifies this, queue
      ensures !mutating
      ensures State() == S.StartFade(old(State()), f, e) && taken == S.StartTakes(old(State()), f, e.start)
    {
      hide S.CompleteFade, S.Applies;
      S.FadingIgnored(State(), f);
      SetFading(true);
      match e.start {
        case Declined =>
          SetFading(false);
          taken := false;
        case Completed(result) =>
          taken := CompleteFade(f, result, e.apply);
          SetFading(false);
        case Pending =>
          SetFade(Some(f));
          taken := true;
      }
    }

    method BeginCrossfade(race: Option<S.Race>, e: S.FadeEnv) returns (taken: bool)
      requires !mutating
      modifies this, queue
      ensures !mutating
      ensures State() == S.BeginFade(old(State()), old(loadingSeq), race, e)
      ensures taken == S.BeginTakes(old(State()), old(loadingSeq), race, e)
    {
      hide S.StartFade, S.StartTakes, S.NewFade;
      if !engine {
        return false;
      }
      if !e.crossfade {
        return false;
      }
      var target := PeekPreloadTarget(queue.index);
      if target.None? {
        return false;
      }
      var f := NewFade(target.value, race);
      taken := StartFade(f, e);
    }

    method OnCrossfadeComplete(result: Option<S.CrossfadeResult>, e: S.ApplyEnv)
      requires !mutating
      modifies this, queue
      ensures !mutating
      ensures State() == S.CrossfadeComplete(old(State()), result, e)
    {
      hide S.CompleteFade;
      if xfade.Some? {
        var f := xfade.value;
        SetFade(None);
        if result.Some? {
          var taken := CompleteFade(f, result.value, e);
        }
        SetFading(false);
      }
    }

    // ---- ticks ---------------------------------------------------------

    method AdvanceCursor(pos: u64)
      requires !mutating
      modifies `check, `mutating, queue
      ensures !mutating
      ensures State() == S.TickAdvanced(old(State()), pos)
    {
      hide S.LengthOf, S.CurrentIndexAt, Q.MoveTo;
      var qi := queue.index;
      var idx := CurrentIndexAt(pos);
      var length := LengthOf(Min(idx, qi + 1));
      check := None;
      if state == S.Playing && idx > qi && !pendingEnded && !fading && !eosInFlight {
        if length > 0 {
          MoveCursor(Min(idx, qi + 1));
        }
      }
    }

    method SetEnded()
      modifies `state, `pendingEnded
      ensures State() == old(State()).(state := S.Ended, pendingEnded := false)
    {
      state := S.Ended;
      pendingEnded := false;
    }

    /** The part of a tick before its crossfade trigger. */
    method SettleTick(pos: u64, e: S.TickEnv)
      requires !mutating && pos == S.AlbumPosition(State(), e.rendered)
      modifies `check, `mutating, `state, `pendingEnded, queue
      ensures !mutating
      ensures State() == S.TickSettled(old(State()), e)
    {
      hide S.TotalLength, S.TickAdvanced, S.AlbumPosition;
      var total := TotalLength();
      var ended := pendingEnded && (S.SatAdd(pos, S.END_TOLERANCE_SAMPLES) >= total || e.drained);
      AdvanceCursor(pos);
      if ended {
        SetEnded();
      }
    }

    method FadeWanted(qi: int, idx: int, pos: u64, e: S.TickEnv) returns (r: bool)
      ensures r == S.TickFades(State(), qi, idx, pos, e)
    {
      hide S.TrackRemaining, Q.PeekPreloadTarget;
      if armed || fading || pendingEnded || crossfadeSeconds == 0 || queue.repeat == One || state != S.Playing {
        return false;
      }
      var remaining := TrackRemaining(idx, pos);
      if remaining > crossfadeSeconds * rate || remaining == 0 {
        return false;
      }
      if queue.repeat == All && |queue.items| == 1 {
        return false;
      }
      if !e.crossfade {
        return false;
      }
      var target := PeekPreloadTarget(qi);
      if target.None? {
        return false;
      }
      var plan := if e.plan.Some? then e.plan.value else S.SweetFade(Fin(crossfadeSeconds as real));
      r := plan.SweetFade? && S.LeadReached(plan.overlap, rate, remaining);
    }

    method SetArmed()
      modifies `armed
      ensures State() == old(State()).(armed := true)
    {
      armed := true;
    }

    method OnTick(e: S.TickEnv)
      requires !mutating
      modifies this, queue
      ensures !mutating
      ensures State() == S.Tick(old(State()), e)
    {
      hide S.TickSettled, S.TickFades, S.BeginFade, S.CurrentIndexAt, S.AlbumPosition;
      if !engine {
        return;
      }
      var pos := AlbumPosition(e.rendered);
      var qi := queue.index;
      var idx := CurrentIndexAt(pos);
      SettleTick(pos, e);
      var fades := FadeWanted(qi, idx, pos, e);
      if fades {
        SetArmed();
        var taken := BeginCrossfade(None, e.fade);
      }
    }

    // ---- end of a source -----------------------------------------------

    method FadeAtEosWanted(e: S.EosFadeEnv) returns (r: bool)
      ensures r == S.EosFadeWanted(State(), e)
    {
      hide S.TrackRemaining, S.AlbumPosition, Q.PeekPreloadTarget;
      if crossfadeSeconds == 0 || queue.repeat == One {
        return false;
      }
      if pauseIntent || pendingEnded || fading {
        return false;
      }
      if !engine || !e.crossfade || !e.preload {
        return false;
      }
      var target := PeekPreloadTarget(queue.index);
      if target.None? {
        return false;
      }
      var pos := AlbumPosition(e.rendered);
      var remaining := TrackRemaining(queue.index, pos);
      if remaining <= S.END_TOLERANCE_SAMPLES {
        return false;
      }
      if e.plan.None? {
        return true;
      }
      var outgoing := queue.Current();
      r := outgoing.Some? && e.plan.value.SweetFade? && S.PositiveOverlap(e.plan.value.overlap);
    }

    method TryFadeAtEos(e: S.EosFadeEnv) returns (taken: bool)
      requires !mutating
      modifies this, queue
      ensures !mutating
      ensures State() == S.FadeAtEos(old(State()), e) && taken == S.FadeAtEosTakes(old(State()), e)
    {
      hide S.EosFadeWanted, S.BeginFade, S.BeginTakes, S.LengthOf, S.TrackRemaining, S.AlbumPosition;
      var wanted := FadeAtEosWanted(e);
      if !wanted {
        return false;
      }
      var pos := AlbumPosition(e.rendered);
      var remaining := TrackRemaining(queue.index, pos);
      var rawLength := LengthOf(queue.index);
      var outgoing := queue.Current();
      var race := S.Race(if outgoing.Some? then outgoing.value.trackId else 0, rawLength, remaining);
      taken := BeginCrossfade(Some(race), e.fade);
    }

    method NextItem() returns (item: Option<Item>)
      requires !mutating
      modifies `mutating, queue
      ensures !mutating
      ensures State() == old(State()).(queue := Q.Next(old(State()).queue, queue.rng))
      ensures item == Q.NextItem(old(State()).queue, queue.rng)
    {
      mutating := true;
      item := queue.Next();
      mutating := false;
    }

    method SetPendingEnded()
      modifies `pendingEnded
      ensures State() == old(State()).(pendingEnded := true)
    {
      pendingEnded := true;
    }

    method TakeCurrent(item: Item, s: S.PlayerState)
      modifies `current, `state
      ensures State() == old(State()).(current := Some(item), state := s)
    {
      current := Some(item);
      state := s;
    }

    /** Plays on with the standby that the engine promoted. */
    method PlayOn(item: Item, info: S.StreamInfo, e: S.EosEnv)
      modifies this
      ensures State() == S.Gapless(old(State()), item, info, e) && mutating == old(mutating)
    {
      hide S.Prepared;
      LearnStream(item.trackId, info);
      PrepareNext(e.preload, e.prepare);
      TakeCurrent(item, if e.plays then S.Playing else S.Paused);
    }

    method AdvanceAtEos(e: S.EosEnv)
      requires !mutating
      modifies this, queue
      ensures !mutating
      ensures State() == S.EosAdvance(old(State()), e, queue.rng)
    {
      hide S.Load, S.Tick, S.Gapless, Q.Next, Q.NextItem, Q.MoveTo, Q.PeekPreloadTarget;
      var expected := PeekPreloadTarget(queue.index);
      var info := if e.preload then e.advance else None;
      if queue.repeat == One {
        MoveCursor(queue.index);
        var ok := Load(Some(0), e.load);
        return;
      }
      var item := NextItem();
      if item.None? {
        SetPendingEnded();
        OnTick(e.tick);
        return;
      }
      if info.None? || expected.None? || !S.SameItem(item.value, expected.value) {
        var ok := Load(None, e.load);
        return;
      }
      PlayOn(item.value, info.value, e);
    }

    method RunEosBoundary(e: S.EosEnv)
      requires !mutating
      modifies this, queue
      ensures !mutating
      ensures State() == S.EosBoundary(old(State()), e, queue.rng)
    {
      hide S.FadeAtEos, S.FadeAtEosTakes, S.EosAdvance;
      var taken := TryFadeAtEos(e.fade);
      if taken || fading || pauseIntent {
        return;
      }
      AdvanceAtEos(e);
    }

    method SetEosInFlight(on: bool)
      modifies `eosInFlight
      ensures State() == old(State()).(eosInFlight := on)
    {
      eosInFlight := on;
    }

    method OnEos(e: S.EosEnv)
      requires !mutating
      modifies this, queue
      ensures !mutating
      ensures State() == S.Eos(old(State()), e, queue.rng)
    {
      hide S.EosBoundary;
      if !engine {
        return;
      }
      SetEosInFlight(true);
      RunEosBoundary(e);
      SetEosInFlight(false);
    }

    // ---- other engine events -------------------------------------------

    method OnPrimed(plays: bool)
      modifies `state
      ensures State() == S.Primed(old(State()), plays)
    {
      if state != S.Loading && state != S.Buffering {
        return;
      }
      if !engine {
        return;
      }
      if plays && !pauseIntent {
        state := S.Playing;
      }
    }

    method OnBuffering()
      modifies `state
      ensures State() == S.BufferingReported(old(State()))
    {
      if state == S.Loading || state == S.Buffering || state == S.Playing {
        state := S.Buffering;
      }
    }

    // ---- commands ------------------------------------------------------

    method StartCommand()
      modifies `pauseIntent, `state
      ensures State() == old(State()).(pauseIntent := false, state := S.Loading)
    {
      pauseIntent := false;
      state := S.Loading;
    }

    method PlayItem(item: Item, e: S.LoadEnv)
      requires !mutating
      modifies this, queue
      ensures State() == S.PlayItem(old(State()), item, e, queue.rng)
    {
      hide S.Load, Q.PlayNow;
      StartCommand();
      mutating := true;
      queue.PlayNow(item);
      mutating := false;
      var ok := Load(None, e);
    }

    method PlaySequence(items: seq<Item>, start: int, e: S.LoadEnv)
      requires !mutating
      modifies this, queue
      ensures State() == S.PlayAll(old(State()), items, start, e, queue.rng)
    {
      hide S.Load, Q.PlaySequence;
      if items == [] {
        return;
      }
      StartCommand();
      mutating := true;
      var item := queue.PlaySequence(items, start);
      mutating := false;
      var ok := Load(None, e);
    }

    method PlayQueueIndex(i: int, e: S.LoadEnv)
      requires !mutating
      modifies this, queue
      ensures State() == S.PlayQueueIndex(old(State()), i, e)
    {
      hide S.Load, Q.MoveTo;
      var at := queue.At(i);
      if at.None? || i == queue.index {
        return;
      }
      StartCommand();
      MoveCursor(i);
      var ok := Load(None, e);
    }

    method NewLoad()
      modifies `loadingSeq
      ensures State() == old(State()).(loadingSeq := old(loadingSeq) + 1)
    {
      loadingSeq := loadingSeq + 1;
    }

    method Next(e: S.LoadEnv)
      requires !mutating
      modifies this, queue
      ensures State() == S.SkipNext(old(State()), e, queue.rng)
    {
      hide S.Load, Q.Next, Q.NextItem;
      NewLoad();
      var item := NextItem();
      if item.Some? {
        var ok := Load(None, e);
      }
    }

    method Previous(late: bool, e: S.LoadEnv)
      requires !mutating
      modifies this, queue
      ensures State() == S.SkipPrevious(old(State()), late, e)
    {
      hide S.Load, S.Restart, Q.Previous, Q.PreviousItem;
      if current.Some? && late {
        RestartCurrentTrack();
        return;
      }
      NewLoad();
      mutating := true;
      var item := queue.Previous();
      mutating := false;
      if item.Some? {
        var ok := Load(None, e);
      }
    }

    method RestartCurrentTrack()
      modifies this
      ensures State() == S.Restart(old(State()))
    {
      hide S.OffsetAt;
      if !engine || current.None? {
        return;
      }
      var base := OffsetAt(queue.index);
      NewGeneration();
      var next := PausedOr(S.Buffering);
      LandAt(base, next);
    }

    method WithinTrack(i: int, pos: u64) returns (r: u64)
      ensures r == S.WithinTrack(State(), i, pos)
    {
      hide S.OffsetAt, S.LengthOf;
      var base := OffsetAt(i);
      var length := LengthOf(i);
      r := Min(S.SatSub(pos, base), S.SatSub(length, 1));
    }

    /** Loads track `i` unless it is the current one. */
    method EnterTrack(i: int, e: S.LoadEnv) returns (ok: bool)
      requires !mutating
      modifies this, queue
      ensures var p := old(State());
        var moved := p.(queue := Q.MoveTo(p.queue, i));
        State() == (if i == p.queue.index then p else S.Load(moved, None, e))
        && ok == (i == p.queue.index || S.LoadSucceeds(moved, e))
    {
      hide S.Load, Q.MoveTo, S.LoadSucceeds;
      if i == queue.index {
        return true;
      }
      MoveCursor(i);
      ok := Load(None, e);
    }

    method SeekTo(pos: u64, e: S.LoadEnv) returns (asked: Option<u64>)
      requires !mutating
      modifies this, queue
      ensures State() == S.SeekTo(old(State()), pos, e) && asked == S.SeekToAsks(old(State()), pos, e)
    {
      hide S.Load, S.CurrentIndexAt, S.OffsetAt, S.WithinTrack, Q.MoveTo, S.LoadSucceeds, S.SatAdd, S.PausedOr;
      var qi := CurrentIndexAt(pos);
      var base := OffsetAt(qi);
      var within := WithinTrack(qi, pos);
      var ok := EnterTrack(qi, e);
      asked := None;
      if ok {
        var next := PausedOr(S.Buffering);
        LandAt(S.SatAdd(base, within), next);
        asked := Some(within);
      }
    }

    /** The state after a seek, and where in its track the engine is told to go on. */
    method Seek(seconds: F64, e: S.LoadEnv) returns (asked: Option<u64>)
      requires !mutating
      modifies this, queue
      ensures State() == S.Seek(old(State()), seconds, e) && asked == S.SeekAsks(old(State()), seconds, e)
    {
      hide S.SeekTo, S.SeekToAsks;
      if !engine || current.None? {
        return None;
      }
      var pos := S.SeekSamples(seconds, rate);
      NewGeneration();
      if pos.None? || |queue.items| == 0 {
        return None;
      }
      asked := SeekTo(pos.value, e);
    }

    method SetIntent(paused: bool)
      modifies `pauseIntent
      ensures State() == old(State()).(pauseIntent := paused)
    {
      pauseIntent := paused;
    }

    method Idle()
      modifies `pendingEnded, `state
      ensures State() == old(State()).(pendingEnded := false, state := S.Idle)
    {
      pendingEnded := false;
      state := S.Idle;
    }

    method Stop()
      modifies this
      ensures State() == S.Stop(old(State()))
    {
      NewGeneration();
      SetIntent(true);
      Idle();
    }

    method ForgetLengths()
      modifies `lengths, `resetOffset, `restored
      ensures State() == old(State()).(lengths := map[], resetOffset := 0, restored := None)
    {
      lengths := map[];
      resetOffset := 0;
      restored := None;
    }

    method CloseEngine()
      modifies `engine, `kind, `current
      ensures State() == old(State()).(engine := false, kind := None, current := None)
    {
      engine := false;
      kind := None;
      current := None;
    }

    method Teardown()
      modifies this
      ensures State() == S.Teardown(old(State()))
    {
      NewGeneration();
      SetIntent(false);
      ForgetLengths();
      SetFade(None);
      SetFading(false);
      CloseEngine();
      Idle();
    }

    method NewTransport(paused: bool)
      modifies `transportSeq, `pauseIntent
      ensures State() == old(State()).(transportSeq := old(transportSeq) + 1, pauseIntent := paused)
    {
      transportSeq := transportSeq + 1;
      pauseIntent := paused;
    }

    method Pause()
      modifies this
      ensures State() == S.Pause(old(State()))
    {
      NewTransport(true);
      SetState(S.Paused);
    }

    method Resume(plays: bool, e: S.LoadEnv)
      modifies this
      ensures State() == S.Resume(old(State()), plays, e)
    {
      hide S.Load;
      if !engine {
        if state == S.Paused && current.Some? {
          var within := if restored.Some? && restored.value.0 == queue.index then Some(restored.value.1) else None;
          var ok := Load(within, e);
        }
        return;
      }
      NewTransport(false);
      if plays {
        SetState(S.Playing);
      }
    }

    method TogglePlay(plays: bool, e: S.LoadEnv)
      modifies this
      ensures State() == S.TogglePlay(old(State()), plays, e)
    {
      hide S.Load, S.Resume, S.Pause;
      match state {
        case Playing => Pause();
        case Paused => Resume(plays, e);
        case Ended => Replay(e);
        case Idle => Replay(e);
        case Error => Replay(e);
        case _ => Resume(plays, e);
      }
    }

    method Replay(e: S.LoadEnv)
      modifies this
      ensures State() == S.Replay(old(State()), e)
    {
      hide S.Load;
      if current.Some? {
        SetIntent(false);
        var ok := Load(None, e);
      }
    }

    method SetShuffle(on: bool)
      modifies this, queue
      ensures State() == S.SetShuffling(old(State()), on, queue.rng)
    {
      hide S.OffsetAt, Q.SetShuffle;
      queue.SetShuffle(on);
      var base := OffsetAt(queue.index);
      resetOffset := base;
    }

    method SetCrossfade(seconds: F64)
      modifies `crossfadeSeconds
      ensures State() == S.SetCrossfade(old(State()), seconds)
    {
      var choice := S.FadeChoice(seconds);
      crossfadeSeconds := if choice.Some? then choice.value else 0;
    }

    method SetRepeat(mode: RepeatMode)
      modifies queue
      ensures State() == old(State()).(queue := Q.SetRepeat(old(State()).queue, mode))
    {
      queue.SetRepeat(mode);
    }

    method RestoreSettings(repeat: RepeatMode, crossfade: F64)
      modifies `crossfadeSeconds, queue
      ensures State() == S.RestoredSettings(old(State()), repeat, crossfade)
    {
      queue.SetRepeat(repeat);
      var choice := S.FadeChoice(crossfade);
      if choice.Some? {
        crossfadeSeconds := choice.value;
      }
    }

    method RestoreItems(items: seq<Item>, i: int, shuffle: bool)
      requires !mutating
      modifies `mutating, queue
      ensures State() == S.RestoredItems(old(State()), items, i, shuffle, queue.rng)
    {
      hide Q.SetShuffle;
      mutating := true;
      queue.SetAll(items, i);
      mutating := false;
      if shuffle {
        queue.SetShuffle(true);
      }
    }

    method PauseAt(i: int, within: u64, item: Option<Item>)
      modifies `restored, `current, `state
      ensures State() == old(State()).(restored := Some((i, within)), current := item, state := S.Paused)
    {
      restored := Some((i, within));
      current := item;
      state := S.Paused;
    }

    method Restore(items: seq<Item>, index: int, position: F64, repeat: RepeatMode, shuffle: bool, crossfade: F64)
      requires !mutating
      modifies this, queue
      ensures State() == S.Restore(old(State()), items, index, position, repeat, shuffle, crossfade, queue.rng)
    {
      hide S.RestoredItems, S.RestoredSettings, S.LengthOf, S.RestoredWithin;
      RestoreSettings(repeat, crossfade);
      if items == [] {
        return;
      }
      var i := Clamp(index, 0, |items| - 1);
      RestoreItems(items, i, shuffle);
      RestorePosition(i, position);
    }

    method RestorePosition(i: int, position: F64)
      modifies `restored, `current, `state
      ensures State() == old(State()).(
        restored := Some((i, S.RestoredWithin(position, old(rate), S.LengthOf(old(State()), i)))),
        current := old(State()).queue.Current(), state := S.Paused)
    {
      hide S.LengthOf, S.RestoredWithin;
      var item := queue.Current();
      var length := LengthOf(i);
      PauseAt(i, S.RestoredWithin(position, rate, length), item);
    }

    method OnQueueChanged(e: S.LoadEnv)
      modifies this
      ensures State() == S.QueueChanged(old(State()), e)
    {
      hide S.Load, S.Stop;
      if mutating {
        return;
      }
      var cur := queue.Current();
      if cur.None? {
        if state != S.Idle && state != S.Error {
          Stop();
        }
      } else if current.Some? {
        if cur.value.id != current.value.id && state != S.Loading {
          var ok := Load(None, e);
        }
      }
    }
  }
}
