/**
 The player as a value: queue, transport state, engine presence, exact lengths, generation
 counters and an in-flight crossfade. Each operation maps a player to the player after it.

 The engine and the host's policies are an environment: each operation takes the answers its
 calls would return, one field per call site (no call site runs twice in one operation).
 Positions shown to the user, gain and event payloads are not part of the model.
 */
module PlayerSpec {
  import opened Wrappers
  import opened Floats
  import opened Order
  import opened QueueSpec

  const U64_MAX: int := 0xFFFF_FFFF_FFFF_FFFF

  type u64 = x: int | 0 <= x <= U64_MAX

  const END_TOLERANCE_SAMPLES: int := 256

  /** One second of engine priming before an overlap starts. */
  const PRIME_LEAD_SECONDS: real := 1.0

  function SatAdd(a: u64, b: u64): u64 {
    if a + b > U64_MAX then U64_MAX else a + b
  }

  function SatSub(a: u64, b: u64): u64 {
    if a < b then 0 else a - b
  }

  // ---- the environment -------------------------------------------------

  datatype EngineKind = Musepack | Native

  datatype StreamInfo = StreamInfo(rate: nat, length: u64)

  datatype CrossfadeResult = CrossfadeResult(info: StreamInfo, overlap: u64)

  datatype CrossfadeStart = Declined | Completed(result: CrossfadeResult) | Pending

  datatype Plan = SweetFade(overlap: F64) | OtherPlan

  datatype LoadEnv = LoadEnv(resolve: Option<EngineKind>, open: Option<StreamInfo>, preload: bool,
      prepare: Option<StreamInfo>)

  datatype ApplyEnv = ApplyEnv(preload: bool, prepare: Option<StreamInfo>)

  datatype FadeEnv = FadeEnv(crossfade: bool, start: CrossfadeStart, apply: ApplyEnv)

  datatype TickEnv = TickEnv(rendered: u64, drained: bool, crossfade: bool, plan: Option<Plan>, fade: FadeEnv)

  datatype EosFadeEnv = EosFadeEnv(crossfade: bool, preload: bool, rendered: u64, plan: Option<Plan>, fade: FadeEnv)

  datatype EosEnv = EosEnv(
    fade: EosFadeEnv, preload: bool, advance: Option<StreamInfo>, prepare: Option<StreamInfo>, plays: bool,
    load: LoadEnv, tick: TickEnv)

  // ---- the state -------------------------------------------------------

  datatype PlayerState = Idle | Loading | Buffering | Playing | Paused | Ended | Error

  datatype Check = Check(idx: int, gen: nat)

  datatype Race = Race(trackId: int, rawLength: u64, remaining: u64)

  datatype Fade = Fade(gen: nat, epoch: nat, target: Item, prevItem: Option<Item>, prevLength: Option<u64>,
      race: Option<Race>)

  datatype Player = Player(
    queue: Queue,
    state: PlayerState,
    current: Option<Item>,
    engine: bool,
    kind: Option<EngineKind>,
    lengths: map<int, u64>,
    resetOffset: u64,
    pendingEnded: bool,
    eosInFlight: bool,
    check: Option<Check>,
    loadingSeq: nat,
    transportSeq: nat,
    epoch: nat,
    mutating: bool,
    pauseIntent: bool,
    restored: Option<(int, u64)>,
    crossfadeSeconds: nat,
    armed: bool,
    fading: bool,
    xfade: Option<Fade>,
    rate: nat)

  function NewPlayer(queue: Queue): Player {
    Player(queue, Idle, None, false, None, map[], 0, false, false, None, 0, 0, 0, false, false, None, 0, false, false,
      None, 44100)
  }

  // ---- geometry --------------------------------------------------------

  /** Seconds at a sample rate, truncated to whole samples; zero unless finite and positive. */
  function HintSamples(seconds: F64, rate: nat): u64 {
    var s := Times(seconds, rate);
    if Finite(s) && s.r > 0.0 then MaxInt(Min(s.r.Floor, U64_MAX), 0) else 0
  }

  /** The exact length when known, else the hint. */
  function ItemLength(item: Item, lengths: map<int, u64>, rate: nat): u64 {
    if item.trackId in lengths then lengths[item.trackId]
    else if item.hint.Some? then HintSamples(item.hint.value, rate)
    else 0
  }

  function LengthOf(p: Player, i: int): u64 {
    if 0 <= i < |p.queue.items| then ItemLength(p.queue.items[i], p.lengths, p.rate) else 0
  }

  /** Where each of the first `n` tracks starts. */
  function OffsetsUpTo(p: Player, n: nat): (offs: seq<u64>)
    ensures |offs| == n
  {
    if n == 0 then [] else
      var prev := OffsetsUpTo(p, n - 1);
      prev + [if n == 1 then 0 else SatAdd(prev[n - 2], LengthOf(p, n - 2))]
  }

  function Offsets(p: Player): (offs: seq<u64>)
    ensures |offs| == |p.queue.items|
  {
    OffsetsUpTo(p, |p.queue.items|)
  }

  function OffsetAt(p: Player, i: int): u64 {
    if 0 <= i < |p.queue.items| then Offsets(p)[i] else 0
  }

  function TotalLength(p: Player): u64 {
    var n := |p.queue.items|;
    if n == 0 then 0 else SatAdd(OffsetAt(p, n - 1), LengthOf(p, n - 1))
  }

  function AlbumPosition(p: Player, rendered: u64): u64 {
    if !p.engine then 0
    else if p.kind == Some(Musepack) then SatAdd(p.resetOffset, rendered)
    else SatAdd(OffsetAt(p, p.queue.index), rendered)
  }

  /** The last of the first `n` starts at or before `pos`; zero when there is none. */
  function LastStart(offs: seq<u64>, n: nat, pos: u64): (i: int)
    requires n <= |offs|
    ensures 0 <= i && (n > 0 ==> i < n)
  {
    if n == 0 then 0 else if pos >= offs[n - 1] then n - 1 else LastStart(offs, n - 1, pos)
  }

  function CurrentIndexAt(p: Player, pos: u64): int {
    LastStart(Offsets(p), |p.queue.items|, pos)
  }

  function TrackRemaining(p: Player, idx: int, pos: u64): u64 {
    SatSub(SatAdd(OffsetAt(p, idx), LengthOf(p, idx)), pos)
  }

  function Preload(p: Player): Option<Item> {
    PeekPreloadTarget(p.queue, p.queue.index)
  }

  // ---- loading ---------------------------------------------------------

  function Fail(p: Player): Player {
    p.(state := Error)
  }

  function EnsureEngine(p: Player, kind: EngineKind): Player {
    if p.engine && p.kind == Some(kind) then p
    else p.(engine := true, kind := Some(kind), epoch := p.epoch + 2)
  }

  /** Records the length of a prepared standby for the preload target. */
  function Prepared(p: Player, preload: bool, prepare: Option<StreamInfo>): Player {
    var next := Preload(p);
    if next.Some? && preload && prepare.Some? then
      p.(lengths := p.lengths[next.value.trackId := prepare.value.length])
    else p
  }

  function LoadStarted(p: Player): Player {
    p.(loadingSeq := p.loadingSeq + 1, transportSeq := p.transportSeq + 1, pendingEnded := false,
       restored := None, armed := false, state := Loading)
  }

  function PausedOr(p: Player, s: PlayerState): PlayerState {
    if p.pauseIntent then Paused else s
  }

  /** Where in the current track a load resumes, short of its last sample. */
  function ResumeAt(p: Player, resume: Option<u64>): u64 {
    if resume.Some? && resume.value > 0 then Min(resume.value, SatSub(LengthOf(p, p.queue.index), 1)) else 0
  }

  /** A track is open; its album offset is taken before the standby's length is known. */
  function LoadFinished(p: Player, item: Item, info: StreamInfo, resume: Option<u64>, e: LoadEnv): Player {
    var known := p.(lengths := p.lengths[item.trackId := info.length], rate := info.rate);
    var start := OffsetAt(known, known.queue.index);
    var ready := Prepared(known, e.preload, e.prepare);
    ready.(resetOffset := SatAdd(start, ResumeAt(ready, resume)), current := Some(item),
      state := PausedOr(p, Buffering))
  }

  function LoadSucceeds(p: Player, e: LoadEnv): bool {
    p.queue.Current().Some? && e.resolve.Some? && e.open.Some?
  }

  function Load(p: Player, resume: Option<u64>, e: LoadEnv): Player {
    var item := p.queue.Current();
    if item.None? then p
    else if e.resolve.None? then Fail(LoadStarted(p))
    else
      var attached := EnsureEngine(LoadStarted(p), e.resolve.value);
      if e.open.None? then Fail(attached)
      else LoadFinished(attached, item.value, e.open.value, resume, e)
  }

  // ---- crossfades ------------------------------------------------------

  predicate SameItem(a: Item, b: Item) {
    a.id == b.id && a.trackId == b.trackId
  }

  function FindItem(items: seq<Item>, target: Item): (r: Option<nat>)
    ensures r.Some? ==> r.value < |items| && SameItem(items[r.value], target)
    ensures r.Some? ==> forall k :: 0 <= k < r.value ==> !SameItem(items[k], target)
    ensures r.None? ==> forall k :: 0 <= k < |items| ==> !SameItem(items[k], target)
  {
    if items == [] then None
    else if SameItem(items[0], target) then Some(0)
    else
      var r := FindItem(items[1..], target);
      assert forall k :: 0 < k < |items| ==> items[k] == items[1..][k - 1];
      if r.None? then None else Some(r.value + 1)
  }

  /** A fade's completion still applies: no load or engine change since, and its target is still queued. */
  predicate Applies(p: Player, f: Fade) {
    f.gen == p.loadingSeq && f.epoch == p.epoch && FindItem(p.queue.items, f.target).Some?
  }

  lemma FadingIgnored(p: Player, f: Fade)
    ensures Applies(p.(fading := true), f) == Applies(p, f)
  {}

  function ShortenOutgoing(lengths: map<int, u64>, f: Fade, overlap: u64): map<int, u64> {
    if f.prevItem.Some? && f.prevLength.Some? && overlap > 0
    then lengths[f.prevItem.value.trackId := SatSub(f.prevLength.value, overlap)]
    else lengths
  }

  /** The boundary: the cursor moves to the fade's target and the length table follows. */
  function ApplyFade(p: Player, f: Fade, r: CrossfadeResult, e: ApplyEnv): Player {
    if !Applies(p, f) then p else
      var idx := FindItem(p.queue.items, f.target).value;
      Prepared(p.(
        queue := MoveTo(p.queue, idx),
        check := Some(Check(idx, f.gen)),
        lengths := ShortenOutgoing(p.lengths, f, r.overlap)[f.target.trackId := r.info.length],
        rate := r.info.rate,
        current := Some(f.target),
        armed := false), e.preload, e.prepare)
  }

  function FinishRace(p: Player, race: Option<Race>): Player {
    if race.None? || race.value.rawLength == 0 then p
    else p.(lengths := p.lengths[race.value.trackId := SatSub(race.value.rawLength, race.value.remaining)])
  }

  /** A completed fade, applied when it still may be. */
  function CompleteFade(p: Player, f: Fade, r: CrossfadeResult, e: ApplyEnv): Player {
    if Applies(p, f) then FinishRace(ApplyFade(p, f, r, e), f.race) else p
  }

  /** The engine can fade and there is something to fade to. */
  predicate CanBegin(p: Player, e: FadeEnv) {
    p.engine && e.crossfade && Preload(p).Some?
  }

  /** The fade an engine is asked for now. */
  function NewFade(p: Player, gen: nat, race: Option<Race>): Fade
    requires Preload(p).Some?
  {
    var prev := p.queue.Current();
    Fade(gen, p.epoch, Preload(p).value, prev,
      if prev.Some? && prev.value.trackId in p.lengths then Some(p.lengths[prev.value.trackId]) else None, race)
  }

  /** Whether the engine's answer to a fade request takes over the boundary. */
  predicate StartTakes(p: Player, f: Fade, start: CrossfadeStart) {
    match start
    case Declined => false
    case Completed(_) => Applies(p, f)
    case Pending => true
  }

  function StartFade(p: Player, f: Fade, e: FadeEnv): Player {
    match e.start
    case Declined => p.(fading := false)
    case Completed(r) => CompleteFade(p.(fading := true), f, r, e.apply).(fading := false)
    case Pending => p.(fading := true, xfade := Some(f))
  }

  predicate BeginTakes(p: Player, gen: nat, race: Option<Race>, e: FadeEnv) {
    CanBegin(p, e) && StartTakes(p, NewFade(p, gen, race), e.start)
  }

  function BeginFade(p: Player, gen: nat, race: Option<Race>, e: FadeEnv): Player {
    if CanBegin(p, e) then StartFade(p, NewFade(p, gen, race), e) else p
  }

  // ---- ticks -----------------------------------------------------------

  /** Whether a tick at album position `pos` moves the cursor on. */
  predicate TickMoves(p: Player, pos: u64) {
    var qi, idx := p.queue.index, CurrentIndexAt(p, pos);
    && p.state == Playing && idx > qi
    && !p.pendingEnded && !p.fading && !p.eosInFlight
    && LengthOf(p, Min(idx, qi + 1)) > 0
  }

  function TickAdvanced(p: Player, pos: u64): Player {
    var q := p.(check := None);
    if TickMoves(p, pos) then q.(queue := MoveTo(q.queue, Min(CurrentIndexAt(p, pos), p.queue.index + 1))) else q
  }

  predicate TickEnds(p: Player, pos: u64, drained: bool) {
    p.pendingEnded && (SatAdd(pos, END_TOLERANCE_SAMPLES) >= TotalLength(p) || drained)
  }

  /** `remaining` is within the planned overlap plus the priming lead. */
  predicate LeadReached(overlap: F64, rate: nat, remaining: u64) {
    match overlap
    case Fin(r) => remaining <= ((r + PRIME_LEAD_SECONDS) * rate as real).Floor
    case PosInf => rate > 0
    case _ => false
  }

  /** Whether a tick starts a crossfade. */
  predicate TickFades(p: Player, qi: int, idx: int, pos: u64, e: TickEnv) {
    && !p.armed && !p.fading && !p.pendingEnded
    && p.crossfadeSeconds > 0 && p.queue.repeat != One && p.state == Playing
    && var remaining := TrackRemaining(p, idx, pos);
    && 0 < remaining <= p.crossfadeSeconds * p.rate
    && !(p.queue.repeat == All && |p.queue.items| == 1)
    && e.crossfade
    && PeekPreloadTarget(p.queue, qi).Some?
    && var plan := if e.plan.Some? then e.plan.value else SweetFade(Fin(p.crossfadeSeconds as real));
    && plan.SweetFade? && LeadReached(plan.overlap, p.rate, remaining)
  }

  /** A tick before its crossfade trigger. */
  function TickSettled(p: Player, e: TickEnv): Player {
    var pos := AlbumPosition(p, e.rendered);
    var q := TickAdvanced(p, pos);
    if TickEnds(p, pos, e.drained) then q.(state := Ended, pendingEnded := false) else q
  }

  function Tick(p: Player, e: TickEnv): Player {
    if !p.engine then p else
      var pos := AlbumPosition(p, e.rendered);
      var q := TickSettled(p, e);
      if TickFades(q, p.queue.index, CurrentIndexAt(p, pos), pos, e)
      then BeginFade(q.(armed := true), q.loadingSeq, None, e.fade)
      else q
  }

  // ---- end of a source -------------------------------------------------

  /** A planned overlap, cut to the time left, is positive (a NaN plan counts as no limit). */
  predicate PositiveOverlap(overlap: F64) {
    match overlap
    case Fin(r) => r > 0.0
    case NegInf => false
    case _ => true
  }

  predicate EosFadeWanted(p: Player, e: EosFadeEnv) {
    && p.crossfadeSeconds > 0 && p.queue.repeat != One
    && !p.pauseIntent && !p.pendingEnded && !p.fading
    && p.engine && e.crossfade && e.preload
    && Preload(p).Some?
    && TrackRemaining(p, p.queue.index, AlbumPosition(p, e.rendered)) > END_TOLERANCE_SAMPLES
    && (e.plan.None? || (p.queue.Current().Some? && e.plan.value.SweetFade? && PositiveOverlap(e.plan.value.overlap)))
  }

  function EosRace(p: Player, e: EosFadeEnv): Race {
    var c := p.queue.Current();
    Race(if c.Some? then c.value.trackId else 0, LengthOf(p, p.queue.index),
      TrackRemaining(p, p.queue.index, AlbumPosition(p, e.rendered)))
  }

  function FadeAtEos(p: Player, e: EosFadeEnv): Player {
    if EosFadeWanted(p, e) then BeginFade(p, p.loadingSeq, Some(EosRace(p, e)), e.fade) else p
  }

  predicate FadeAtEosTakes(p: Player, e: EosFadeEnv) {
    EosFadeWanted(p, e) && BeginTakes(p, p.loadingSeq, Some(EosRace(p, e)), e.fade)
  }

  /** The standby the engine promoted is the item the queue moved to: play on without a load. */
  function Gapless(p: Player, item: Item, info: StreamInfo, e: EosEnv): Player {
    var q := Prepared(p.(lengths := p.lengths[item.trackId := info.length], rate := info.rate), e.preload, e.prepare);
    q.(current := Some(item), state := if e.plays then Playing else Paused)
  }

  function EosAdvance(p: Player, e: EosEnv, rng: Rng): Player {
    var expected := Preload(p);
    var info := if e.preload then e.advance else None;
    if p.queue.repeat == One then Load(p.(queue := MoveTo(p.queue, p.queue.index)), Some(0), e.load)
    else
      var item := NextItem(p.queue, rng);
      var q := p.(queue := Next(p.queue, rng));
      if item.None? then Tick(q.(pendingEnded := true), e.tick)
      else if info.None? || expected.None? || !SameItem(item.value, expected.value) then Load(q, None, e.load)
      else Gapless(q, item.value, info.value, e)
  }

  function EosBoundary(p: Player, e: EosEnv, rng: Rng): Player {
    var f := FadeAtEos(p, e.fade);
    if FadeAtEosTakes(p, e.fade) || f.fading || f.pauseIntent then f else EosAdvance(f, e, rng)
  }

  function Eos(p: Player, e: EosEnv, rng: Rng): Player {
    if !p.engine then p
    else EosBoundary(p.(eosInFlight := true), e, rng).(eosInFlight := false)
  }

  // ---- other engine events ---------------------------------------------

  function Primed(p: Player, plays: bool): Player {
    if (p.state == Loading || p.state == Buffering) && p.engine && plays && !p.pauseIntent
    then p.(state := Playing) else p
  }

  function BufferingReported(p: Player): Player {
    if p.state == Loading || p.state == Buffering || p.state == Playing then p.(state := Buffering) else p
  }

  function CrossfadeComplete(p: Player, result: Option<CrossfadeResult>, e: ApplyEnv): Player {
    if p.xfade.None? then p else
      var q := p.(xfade := None);
      (if result.Some? then CompleteFade(q, p.xfade.value, result.value, e) else q).(fading := false)
  }

  // ---- commands --------------------------------------------------------

  function PlayItem(p: Player, item: Item, e: LoadEnv, rng: Rng): Player {
    Load(p.(pauseIntent := false, state := Loading, queue := PlayNow(p.queue, item, rng)), None, e)
  }

  function PlayAll(p: Player, items: seq<Item>, start: int, e: LoadEnv, rng: Rng): Player {
    if items == [] then p
    else Load(p.(pauseIntent := false, state := Loading, queue := PlaySequence(p.queue, items, start, rng)), None, e)
  }

  function PlayQueueIndex(p: Player, i: int, e: LoadEnv): Player {
    if p.queue.At(i).None? || i == p.queue.index then p
    else Load(p.(pauseIntent := false, state := Loading, queue := MoveTo(p.queue, i)), None, e)
  }

  function SkipNext(p: Player, e: LoadEnv, rng: Rng): Player {
    var q := p.(loadingSeq := p.loadingSeq + 1, queue := Next(p.queue, rng));
    if NextItem(p.queue, rng).Some? then Load(q, None, e) else q
  }

  /** `late` says that more than three seconds of the current track have played. */
  function SkipPrevious(p: Player, late: bool, e: LoadEnv): Player {
    if p.current.Some? && late then Restart(p) else
      var q := p.(loadingSeq := p.loadingSeq + 1, queue := QueueSpec.Previous(p.queue));
      if PreviousItem(p.queue).Some? then Load(q, None, e) else q
  }

  function Restart(p: Player): Player {
    if !p.engine || p.current.None? then p
    else p.(transportSeq := p.transportSeq + 1, loadingSeq := p.loadingSeq + 1,
            resetOffset := OffsetAt(p, p.queue.index), state := PausedOr(p, Buffering))
  }

  /** Seconds to a sample position: negative and NaN count as zero; none when infinite. */
  function SeekSamples(seconds: F64, rate: nat): Option<u64> {
    match Times(seconds, rate)
    case PosInf => None
    case Fin(r) => Some(MaxInt(0, Min(r.Floor, U64_MAX)))
    case _ => Some(0)
  }

  function Seek(p: Player, seconds: F64, e: LoadEnv): Player {
    if !p.engine || p.current.None? then p else
      var q := p.(transportSeq := p.transportSeq + 1, loadingSeq := p.loadingSeq + 1);
      var pos := SeekSamples(seconds, p.rate);
      if pos.None? || p.queue.items == [] then q else SeekTo(q, pos.value, e)
  }

  /** Where in track `i` album position `pos` falls, short of its last sample. */
  function WithinTrack(p: Player, i: int, pos: u64): u64 {
    Min(SatSub(pos, OffsetAt(p, i)), SatSub(LengthOf(p, i), 1))
  }

  /** Moves to the track under album position `pos`, loading it when it is not the current one. */
  function SeekTo(p: Player, pos: u64, e: LoadEnv): Player {
    var i := CurrentIndexAt(p, pos);
    var moved := p.(queue := MoveTo(p.queue, i));
    var loaded := if i == p.queue.index then p else Load(moved, None, e);
    if i == p.queue.index || LoadSucceeds(moved, e)
    then Sought(loaded, OffsetAt(p, i), WithinTrack(p, i, pos))
    else loaded
  }

  /** Where in the track the engine is told to go on; none when nothing is sought. */
  function SeekToAsks(p: Player, pos: u64, e: LoadEnv): Option<u64> {
    var i := CurrentIndexAt(p, pos);
    if i == p.queue.index || LoadSucceeds(p.(queue := MoveTo(p.queue, i)), e)
    then Some(WithinTrack(p, i, pos)) else None
  }

  function SeekAsks(p: Player, seconds: F64, e: LoadEnv): Option<u64> {
    var pos := SeekSamples(seconds, p.rate);
    if !p.engine || p.current.None? || pos.None? || p.queue.items == [] then None
    else SeekToAsks(p.(transportSeq := p.transportSeq + 1, loadingSeq := p.loadingSeq + 1), pos.value, e)
  }

  function Sought(p: Player, base: u64, within: u64): Player {
    p.(resetOffset := SatAdd(base, within), state := PausedOr(p, Buffering))
  }

  function Stop(p: Player): Player {
    p.(loadingSeq := p.loadingSeq + 1, transportSeq := p.transportSeq + 1, pauseIntent := true,
       pendingEnded := false, state := Idle)
  }

  function Teardown(p: Player): Player {
    p.(loadingSeq := p.loadingSeq + 1, transportSeq := p.transportSeq + 1, pauseIntent := false,
       pendingEnded := false, lengths := map[], resetOffset := 0, restored := None, xfade := None,
       fading := false, engine := false, kind := None, state := Idle, current := None)
  }

  function Pause(p: Player): Player {
    p.(transportSeq := p.transportSeq + 1, pauseIntent := true, state := Paused)
  }

  /** Loads a paused session that has no engine yet, at its restored position. */
  function LoadRestored(p: Player, e: LoadEnv): Player {
    Load(p, if p.restored.Some? && p.restored.value.0 == p.queue.index then Some(p.restored.value.1) else None, e)
  }

  function Resume(p: Player, plays: bool, e: LoadEnv): Player {
    if !p.engine then
      if p.state == Paused && p.current.Some? then LoadRestored(p, e) else p
    else p.(transportSeq := p.transportSeq + 1, pauseIntent := false, state := if plays then Playing else p.state)
  }

  function TogglePlay(p: Player, plays: bool, e: LoadEnv): Player {
    match p.state
    case Playing => Pause(p)
    case Paused => Resume(p, plays, e)
    case Ended => Replay(p, e)
    case Idle => Replay(p, e)
    case Error => Replay(p, e)
    case _ => Resume(p, plays, e)
  }

  function Replay(p: Player, e: LoadEnv): Player {
    if p.current.Some? then Load(p.(pauseIntent := false), None, e) else p
  }

  function SetShuffling(p: Player, on: bool, rng: Rng): Player {
    var q := p.(queue := SetShuffle(p.queue, on, rng));
    q.(resetOffset := OffsetAt(q, q.queue.index))
  }

  /** The crossfade lengths on offer. */
  function FadeChoice(seconds: F64): (r: Option<nat>)
    ensures r.Some? <==> seconds in {Fin(4.0), Fin(8.0), Fin(12.0)}
    ensures r.Some? ==> seconds == Fin(r.value as real)
  {
    if seconds == Fin(4.0) then Some(4)
    else if seconds == Fin(8.0) then Some(8)
    else if seconds == Fin(12.0) then Some(12)
    else None
  }

  function SetCrossfade(p: Player, seconds: F64): Player {
    var choice := FadeChoice(seconds);
    p.(crossfadeSeconds := if choice.Some? then choice.value else 0)
  }

  function QueueChanged(p: Player, e: LoadEnv): Player {
    var cur := p.queue.Current();
    if p.mutating then p
    else if cur.None? && p.state != Idle && p.state != Error then Stop(p)
    else if cur.Some? && p.current.Some? && cur.value.id != p.current.value.id && p.state != Loading
      then Load(p, None, e)
    else p
  }

  /** The restored position within the track, in samples; a NaN position counts as the track's end. */
  function RestoredWithin(position: F64, rate: nat, length: u64): u64 {
    match Times(position, rate)
    case NegInf => 0
    case Fin(r) => MaxInt(0, Min(r.Floor, SatSub(length, 1)))
    case _ => SatSub(length, 1)
  }

  function RestoredSettings(p: Player, repeat: RepeatMode, crossfade: F64): Player {
    var choice := FadeChoice(crossfade);
    p.(queue := SetRepeat(p.queue, repeat), crossfadeSeconds := if choice.Some? then choice.value
      else p.crossfadeSeconds)
  }

  /** History is not cleared, and a shuffled order is rebuilt only when shuffling was off. */
  function RestoredItems(p: Player, items: seq<Item>, i: int, shuffle: bool, rng: Rng): Player {
    var all := SetAll(p.queue, items, i);
    p.(queue := if shuffle then SetShuffle(all, true, rng) else all)
  }

  /** A paused session from saved items. */
  function Restore(p: Player, items: seq<Item>, index: int, position: F64, repeat: RepeatMode, shuffle: bool,
      crossfade: F64, rng: Rng): Player {
    var q := RestoredSettings(p, repeat, crossfade);
    if items == [] then q else
      var i := Clamp(index, 0, |items| - 1);
      var r := RestoredItems(q, items, i, shuffle, rng);
      r.(restored := Some((i, RestoredWithin(position, r.rate, LengthOf(r, i)))), current := r.queue.Current(),
        state := Paused)
  }
}
