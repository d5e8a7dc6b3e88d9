/** Where a seek lands: on the asked sample of the album, in the track that holds it. */
module PlayerSeek {
  import opened Wrappers
  import opened Floats
  import opened Order
  import opened QueueSpec
  import opened PlayerSpec
  import opened PlayerBoundary
  import PlayerResults
  import PlayerQueue

  /** The seek asks for album sample `pos`; negative and NaN positions ask for the start. */
  ghost predicate Asks(seconds: F64, rate: nat, pos: nat) {
    match seconds
    case Fin(r) => if r < 0.0 then pos == 0 else pos == (r * rate as real).Floor
    case NaN => pos == 0
    case NegInf => pos == 0
    case PosInf => rate == 0 && pos == 0
  }

  /** A seek can happen: there is an engine and something to play. */
  ghost predicate CanSeek(p: Player) {
    p.engine && p.current.Some? && p.queue.items != []
  }

  /** Track `i` is already current, or it is resolved and opened. */
  ghost predicate Reaches(p: Player, i: int, e: LoadEnv) {
    i == p.queue.index || (e.resolve.Some? && e.open.Some?)
  }

  /** The cursor is on track `i`, the engine goes on at sample `within` of it, and the player's clock says so. */
  ghost predicate LandedAt(p: Player, q: Player, asked: Option<u64>, i: nat, within: nat) {
    && q.queue == p.queue.(index := i)
    && asked == Some(within)
    && q.engine && (q.kind == Some(Musepack) ==> AlbumPosition(q, 0) == LengthSum(p, i) + within)
    && q.state == (if p.pauseIntent then Paused else Buffering)
  }

  lemma SamplesAsked(seconds: F64, rate: nat, pos: nat)
    requires Asks(seconds, rate, pos)
    ensures SeekSamples(seconds, rate) == Some(Min(pos, U64_MAX))
  {
    if seconds.Fin? {
      assert Times(seconds, rate) == Fin(seconds.r * rate as real);
      if seconds.r < 0.0 {
        NegativeProduct(seconds.r, rate as real);
        FloorBelow(seconds.r * rate as real);
      } else {
        assert (seconds.r * rate as real).Floor == pos;
      }
    }
  }

  lemma FloorBelow(x: real)
    requires x <= 0.0
    ensures x.Floor <= 0
  {}

  lemma NegativeProduct(r: real, n: real)
    requires r <= 0.0 && n >= 0.0
    ensures r * n <= 0.0
  {}

  // ---- inside the album ------------------------------------------------

  /** The album's exact length, and each track's start, fit in 64 bits. */
  ghost predicate Fits(p: Player) {
    LengthSum(p, |p.queue.items|) <= U64_MAX
  }

  lemma StartIs(p: Player, i: nat)
    requires Fits(p) && i < |p.queue.items|
    ensures OffsetAt(p, i) == LengthSum(p, i) && LengthSum(p, i + 1) == LengthSum(p, i) + LengthOf(p, i)
    ensures LengthSum(p, i + 1) <= U64_MAX
  {
    hide LengthOf;
    OffsetsArePrefixSums(p, |p.queue.items|);
    SumsGrow(p, i, |p.queue.items|);
    SumsGrow(p, i + 1, |p.queue.items|);
  }

  /** Only one track holds a position. */
  lemma TrackOf(p: Player, pos: nat, i: nat)
    requires Fits(p) && i < |p.queue.items| && LengthSum(p, i) <= pos < LengthSum(p, i + 1)
    ensures pos <= U64_MAX && CurrentIndexAt(p, pos) == i
  {
    hide CurrentIndexAt, LengthOf;
    StartIs(p, i);
    SumsGrow(p, i + 1, |p.queue.items|);
    CurrentIndexContains(p, pos);
    CurrentIndexIsGreatest(p, pos, i);
    var j: nat := CurrentIndexAt(p, pos);
    if i < j { SumsGrow(p, i + 1, j); }
  }

  lemma LastTrack(p: Player, pos: u64)
    requires Fits(p) && p.queue.items != [] && pos >= LengthSum(p, |p.queue.items|)
    ensures CurrentIndexAt(p, pos) == |p.queue.items| - 1
  {
    hide CurrentIndexAt, LengthOf;
    var i := |p.queue.items| - 1;
    StartIs(p, i);
    CurrentIndexIsGreatest(p, pos, i);
  }

  // ---- landing ---------------------------------------------------------

  lemma SeekReaches(p: Player, pos: u64, e: LoadEnv, i: nat, within: u64)
    requires p.engine && i < |p.queue.items| && Fits(p)
    requires CurrentIndexAt(p, pos) == i && WithinTrack(p, i, pos) == within && Reaches(p, i, e)
    requires LengthSum(p, i) + within <= U64_MAX
    ensures LandedAt(p, SeekTo(p, pos, e), SeekToAsks(p, pos, e), i, within)
  {
    hide CurrentIndexAt, WithinTrack, OffsetAt, LengthOf, Load, LengthSum;
    StartIs(p, i);
    var moved := p.(queue := MoveTo(p.queue, i));
    assert MoveTo(p.queue, i) == p.queue.(index := i);
    LoadLeaves(moved, e);
    assert LengthSum(p, i) == OffsetAt(p, i);
  }

  /** A successful load keeps the queue and the pause intent, and has an engine. */
  lemma LoadLeaves(p: Player, e: LoadEnv)
    ensures Load(p, None, e).queue == p.queue && Load(p, None, e).pauseIntent == p.pauseIntent
    ensures LoadSucceeds(p, e) ==> Load(p, None, e).engine
  {
    hide LoadFinished, Load;
    PlayerQueue.LoadQueue(p, None, e);
    LoadIntent(p, e);
  }

  lemma LoadIntent(p: Player, e: LoadEnv)
    ensures Load(p, None, e).pauseIntent == p.pauseIntent && (LoadSucceeds(p, e) ==> Load(p, None, e).engine)
  {
    hide LoadFinished;
    if LoadSucceeds(p, e) {
      PlayerResults.LoadFinishedFrame(EnsureEngine(LoadStarted(p), e.resolve.value), p.queue.Current().value,
        e.open.value, None, e);
    }
  }

  /** A new generation moves no track. */
  lemma {:induction false} GenerationSums(p: Player, q: Player, n: nat)
    requires q.queue == p.queue && q.lengths == p.lengths && q.rate == p.rate
    ensures LengthSum(q, n) == LengthSum(p, n)
  {
    if n > 0 { GenerationSums(p, q, n - 1); }
  }

  ghost function Generation(p: Player): Player {
    p.(transportSeq := p.transportSeq + 1, loadingSeq := p.loadingSeq + 1)
  }

  lemma SeekIs(p: Player, seconds: F64, e: LoadEnv, pos: nat)
    requires CanSeek(p) && Asks(seconds, p.rate, pos)
    ensures Seek(p, seconds, e) == SeekTo(Generation(p), Min(pos, U64_MAX), e)
    ensures SeekAsks(p, seconds, e) == SeekToAsks(Generation(p), Min(pos, U64_MAX), e)
  {
    hide SeekTo, SeekToAsks, SeekSamples;
    SamplesAsked(seconds, p.rate, pos);
  }

  lemma LandedOf(p: Player, g: Player, q: Player, asked: Option<u64>, i: nat, within: nat)
    requires g == Generation(p) && LandedAt(g, q, asked, i, within)
    ensures LandedAt(p, q, asked, i, within)
  {
    hide AlbumPosition, LengthSum;
    GenerationSums(p, g, i);
  }

  /**
   A seek inside the album: the cursor goes to the track that holds the asked sample, and playing goes
   on at exactly that sample, whenever the track is current already or can be loaded.
   */
  lemma SeekLands(p: Player, seconds: F64, e: LoadEnv, pos: nat, i: nat)
    requires CanSeek(p) && Fits(p) && Asks(seconds, p.rate, pos)
    requires i < |p.queue.items| && LengthSum(p, i) <= pos < LengthSum(p, i + 1) && Reaches(p, i, e)
    ensures LandedAt(p, Seek(p, seconds, e), SeekAsks(p, seconds, e), i, pos - LengthSum(p, i))
  {
    hide Seek, SeekTo, SeekToAsks, SeekAsks, CurrentIndexAt, LengthSum, OffsetAt, LengthOf, AlbumPosition;
    hide Asks, LandedAt;
    var g := Generation(p);
    GenerationSums(p, g, i);
    GenerationSums(p, g, i + 1);
    GenerationSums(p, g, |p.queue.items|);
    SeekIs(p, seconds, e, pos);
    TrackOf(g, pos, i);
    StartIs(g, i);
    SeekReaches(g, pos, e, i, pos - LengthSum(p, i));
    LandedOf(p, g, Seek(p, seconds, e), SeekAsks(p, seconds, e), i, pos - LengthSum(p, i));
  }

  /** A seek past the album's end: the last sample of the last track. */
  lemma SeekPastEnd(p: Player, seconds: F64, e: LoadEnv, pos: nat)
    requires CanSeek(p) && Fits(p) && Asks(seconds, p.rate, pos)
    requires pos >= LengthSum(p, |p.queue.items|) && Reaches(p, |p.queue.items| - 1, e)
    ensures var last := |p.queue.items| - 1;
      LandedAt(p, Seek(p, seconds, e), SeekAsks(p, seconds, e), last, MaxInt(LengthOf(p, last) - 1, 0))
  {
    hide Seek, SeekTo, SeekToAsks, SeekAsks, CurrentIndexAt, LengthSum, OffsetAt, LengthOf, AlbumPosition;
    hide Asks, LandedAt;
    var g := Generation(p);
    var last: nat := |p.queue.items| - 1;
    GenerationSums(p, g, last);
    GenerationSums(p, g, |p.queue.items|);
    SeekIs(p, seconds, e, pos);
    LastTrack(g, Min(pos, U64_MAX));
    StartIs(g, last);
    GenerationLength(p, last);
    var within := MaxInt(LengthOf(p, last) - 1, 0);
    SeekReaches(g, Min(pos, U64_MAX), e, last, within);
    LandedOf(p, g, Seek(p, seconds, e), SeekAsks(p, seconds, e), last, within);
  }

  lemma GenerationLength(p: Player, i: int)
    ensures LengthOf(Generation(p), i) == LengthOf(p, i)
  {}

  /** When the track cannot be loaded the cursor is on it and the player in error. */
  lemma SeekFails(p: Player, seconds: F64, e: LoadEnv, pos: nat, i: nat)
    requires CanSeek(p) && Fits(p) && Asks(seconds, p.rate, pos)
    requires i < |p.queue.items| && LengthSum(p, i) <= pos < LengthSum(p, i + 1) && !Reaches(p, i, e)
    ensures var q := Seek(p, seconds, e);
      q.state == Error && q.queue == p.queue.(index := i) && SeekAsks(p, seconds, e) == None
  {
    hide Seek, SeekAsks, CurrentIndexAt, LengthSum, LengthOf, Asks, Load, LoadSucceeds, WithinTrack, OffsetAt;
    var g := Generation(p);
    GenerationSums(p, g, i);
    GenerationSums(p, g, i + 1);
    GenerationSums(p, g, |p.queue.items|);
    SeekIs(p, seconds, e, pos);
    TrackOf(g, pos, i);
    var moved := g.(queue := MoveTo(g.queue, i));
    assert MoveTo(g.queue, i) == g.queue.(index := i);
    PlayerQueue.LoadQueue(moved, None, e);
    LoadFails(moved, e);
  }

  lemma LoadFails(p: Player, e: LoadEnv)
    requires p.queue.Current().Some? && (e.resolve.None? || e.open.None?)
    ensures !LoadSucceeds(p, e) && Load(p, None, e).state == Error
  {
    hide LoadFinished;
  }

  /** A seek to infinity, or one that cannot happen, moves nothing. */
  lemma SeekNowhere(p: Player, seconds: F64, e: LoadEnv)
    requires !CanSeek(p) || (seconds.PosInf? && p.rate > 0)
    ensures var q := Seek(p, seconds, e);
      q.queue == p.queue && q.resetOffset == p.resetOffset && q.state == p.state && SeekAsks(p, seconds, e) == None
  {
    hide SeekTo, SeekToAsks;
  }
}
