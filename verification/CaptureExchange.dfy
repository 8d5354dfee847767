/** End to end: what a faithful stream leaves in the recording. */
module CaptureExchange {
  import opened Results
  import opened L2Types
  import opened OrderBook
  import opened Synchronizer
  import opened SynchronizerProperties
  import opened Recording
  import opened Capture
  import opened CaptureProperties
  import opened CaptureLosses

  ghost predicate FaithfulFetches(ex: Exchange, fetches: seq<Fetch>) {
    forall f | f in fetches :: FaithfulSnapshot(ex, f.snapshot)
  }

  ghost predicate FaithfulStep(ex: Exchange, step: CaptureStep) {
    match step
    case ConnectionStep(_, _) => true
    case DepthStep(u, _, fetches) => FaithfulUpdate(ex, u) && FaithfulFetches(ex, fetches)
    case TradeStep(_) => true
  }

  ghost predicate SymbolTracks(ex: Exchange, c: Symbol) {
    && BufferInvariant(c.sync)
    && TracksExchange(ex, c.sync)
    && (c.pending.Some? ==> FaithfulSnapshot(ex, c.pending.value))
  }

  /** A capture never stops over the book; only the recording may refuse an event. */
  predicate NotTheBook<T>(result: Result<T, CaptureError>) {
    Continues(result) || result.error.WriteFailed?
  }

  lemma {:induction false} RecordAllKeepsSync(c: Symbol, updates: seq<DepthUpdate>, cfg: Config)
    ensures var r := RecordAll(c, updates, cfg);
            && r.symbol.sync == c.sync && r.symbol.pending == c.pending
            && (r.result.Ok? || r.result.error.WriteFailed?)
    decreases updates
  {
    if updates != [] {
      RecordAllKeepsSync(RecordApplied(c, updates[0], cfg).symbol, updates[1..], cfg);
    }
  }

  lemma InstallAndRecordTracks(ex: Exchange, c: Symbol, snapshot: Snapshot, now: PosU64, cfg: Config)
    requires ValidExchange(ex) && SymbolTracks(ex, c) && FaithfulSnapshot(ex, snapshot)
    ensures var r := InstallAndRecord(c, snapshot, now, cfg);
            SymbolTracks(ex, r.symbol) && NotTheBook(r.result)
  {
    hide Install, FaithfulSnapshot, RecordAll, Sound;
    var call := InstallCall(snapshot);
    StepTracks(ex, c.sync, call);
    StepKeepsBuffer(c.sync, call);
    var step := Install(c.sync, snapshot);
    assert After(c.sync, call) == step.sync;
    InstallOutcomes(c.sync, snapshot);
    if step.outcome.Ok? {
      StepTracks(ex, step.sync, ResetCall(true));
      StepKeepsBuffer(step.sync, ResetCall(true));
      RecordAllKeepsSync(SnapshotRecorded(c, snapshot), step.outcome.value.applied, cfg);
    }
  }

  lemma {:induction false} AttemptsTrack(ex: Exchange, c: Symbol, fetches: seq<Fetch>, attempts: nat, cfg: Config)
    requires ValidExchange(ex) && SymbolTracks(ex, c) && FaithfulFetches(ex, fetches)
    ensures var r := Attempts(c, fetches, attempts, cfg);
            SymbolTracks(ex, r.symbol) && NotTheBook(r.result)
    decreases attempts
  {
    hide InstallAndRecord, SymbolTracks, FaithfulSnapshot;
    if attempts > 0 && fetches != [] {
      assert fetches[0] in fetches;
      InstallAndRecordTracks(ex, c, fetches[0].snapshot, fetches[0].now, cfg);
      AttemptsTrack(ex, InstallAndRecord(c, fetches[0].snapshot, fetches[0].now, cfg).symbol, fetches[1..], attempts - 1, cfg);
    }
  }

  lemma SynchronizeTracks(ex: Exchange, c: Symbol, now: PosU64, fetches: seq<Fetch>, cfg: Config)
    requires ValidExchange(ex) && SymbolTracks(ex, c) && FaithfulFetches(ex, fetches)
    ensures var r := Synchronize(c, now, fetches, cfg);
            SymbolTracks(ex, r.symbol) && NotTheBook(r.result)
  {
    hide InstallAndRecord, FaithfulSnapshot, Attempts, TracksExchange, BufferInvariant;
    AttemptsTrack(ex, c, fetches, cfg.attemptLimit, cfg);
    if c.pending.Some? {
      InstallAndRecordTracks(ex, c, c.pending.value, now, cfg);
      AttemptsTrack(ex, InstallAndRecord(c, c.pending.value, now, cfg).symbol, fetches, cfg.attemptLimit, cfg);
    }
  }

  lemma OnDepthTracks(ex: Exchange, c: Symbol, u: DepthUpdate, now: PosU64, fetches: seq<Fetch>, cfg: Config)
    requires ValidExchange(ex) && SymbolTracks(ex, c)
    requires FaithfulUpdate(ex, u) && FaithfulFetches(ex, fetches)
    ensures var r := OnDepth(c, u, now, fetches, cfg);
            SymbolTracks(ex, r.symbol) && NotTheBook(r.result)
  {
    hide Ingest, FaithfulUpdate, FaithfulSnapshot, FaithfulFetches, Synchronize, TracksExchange, BufferInvariant;
    var call := IngestCall(u);
    StepTracks(ex, c.sync, call);
    StepKeepsBuffer(c.sync, call);
    var step := Ingest(c.sync, u);
    assert After(c.sync, call) == step.sync;
    var k := c.(sync := step.sync);
    if step.outcome == Ok(Buffered) {
      SynchronizeTracks(ex, k, now, fetches, cfg);
    } else if step.outcome == Ok(GapDetected) {
      StepTracks(ex, step.sync, ResetCall(true));
      StepKeepsBuffer(step.sync, ResetCall(true));
      SynchronizeTracks(ex, GapMarked(k, u.receipt), now, fetches, cfg);
    }
  }

  lemma {:induction false} CaptureRunTracks(ex: Exchange, c: Symbol, steps: seq<CaptureStep>, cfg: Config)
    requires ValidExchange(ex) && SymbolTracks(ex, c)
    requires forall s | s in steps :: FaithfulStep(ex, s)
    ensures var r := CaptureRun(c, steps, cfg);
            SymbolTracks(ex, r.symbol) && (r.result.Ok? || r.result.error.WriteFailed?)
    decreases steps
  {
    if steps != [] {
      var one := Do(c, steps[0], cfg);
      match steps[0] {
        case ConnectionStep(_, _) =>
          StepTracks(ex, c.sync, ResetCall(false));
          StepKeepsBuffer(c.sync, ResetCall(false));
        case DepthStep(u, now, fetches) =>
          assert FaithfulStep(ex, steps[0]);
          OnDepthTracks(ex, c, u, now, fetches, cfg);
        case TradeStep(_) =>
      }
      CaptureRunTracks(ex, one.symbol, steps[1..], cfg);
    }
  }

  /**
   Over a faithful stream a capture stops early only because the recording refuses an event or a
   checkpoint. Whether it runs on or stops there, the recorded events rebuild a book without any
   error; and that is the exchange's own book at the local identifier whenever the capture is live,
   exactly unless the step that stopped it lost something.
   */
  lemma CaptureRebuildsExchange(ex: Exchange, capacity: nat, steps: seq<CaptureStep>, cfg: Config)
    requires ValidExchange(ex) && capacity > 0 && cfg.checkpointInterval > 0
    requires forall s | s in steps :: FaithfulStep(ex, s)
    ensures var r := CaptureRun(Start(capacity), steps, cfg);
            var d := r.symbol;
            && (r.result.Ok? || r.result.error.WriteFailed?)
            && Rebuilt(d.log.events).Ok?
            && var book := if d.sync.state == Live then ex(d.sync.book.lastUpdateId) else EMPTY;
               && (Rebuilt(d.log.events) == Ok(book) <==> r.result.Ok? || NothingLost(d, r.result.error))
               && (Rebuilt(d.log.events) == Ok(book) <==> !RunLoses(Start(capacity), steps, cfg))
  {
    hide CaptureRun, NothingLost, Rebuilt, FaithfulStep, RunLoses;
    CaptureLosesIff(capacity, steps, cfg);
    CaptureRunTracks(ex, Start(capacity), steps, cfg);
    CaptureReplaysIff(capacity, steps, cfg);
  }

  // ----- a checkpoint in the middle of a batch

  const ASK := Level(20, 5)
  const BID := Level(10, 5)
  const TWO: DepthUpdate := DepthFields(1, 0, 2, 2, [], [])
  const THREE: DepthUpdate := DepthFields(1, 0, 3, 3, [], [])

  /**
   A failed fetch leaves one update buffered, the next update bridges both, and with a checkpoint
   after every update the first of the two carries the book after the second: replay refuses it.
   */
  lemma MidBatchCheckpointIsRefused(hash: Book -> U64)
    requires forall b :: hash(b) > 0
    ensures var cfg := Config(1, 20, hash);
            var steps := [DepthStep(TWO, 1, []), DepthStep(THREE, 1, [Fetch(Snapshot(1, 1, [BID], [ASK]), 1)])];
            var r := CaptureRun(Start(8), steps, cfg);
            && r.result.Ok? && r.symbol.sync.state == Live
            && Rebuilt(r.symbol.log.events).Ok?
            && Replay(r.symbol.log.events, r.symbol.log.checkpoints, hash).Err?
  {
    var cfg := Config(1, 20, hash);
    var snapshot := Snapshot(1, 1, [BID], [ASK]);
    var first, second := DepthStep(TWO, 1, []), DepthStep(THREE, 1, [Fetch(snapshot, 1)]);
    var c0 := Start(8);
    var c1 := Do(c0, first, cfg).symbol;
    assert c1 == c0.(sync := c0.sync.(buffer := [TWO]));
    var buffered := c1.sync.(buffer := [TWO, THREE]);
    assert Ingest(c1.sync, THREE) == Step(buffered, Ok(Buffered)) by {
      assert [TWO] + [THREE] == [TWO, THREE];
    }
    var d := TwoBridged(buffered, snapshot);
    var k := c1.(sync := buffered);
    BatchOfTwo(k, snapshot, d, cfg);
    var c2 := InstallAndRecord(k, snapshot, 1, cfg).symbol;
    assert Do(c1, second, cfg) == Outcome(c2, Ok(true));
    assert CaptureRun(c2, [], cfg) == Outcome(c2, Ok(true));
    assert CaptureRun(c1, [second], cfg) == CaptureRun(c2, [second][1..], cfg);
    assert [second][1..] == [] && [first, second][1..] == [second];
    assert CaptureRun(c0, [first, second], cfg) == CaptureRun(c1, [second], cfg);
    CaptureReplaysIff(8, [first, second], cfg);
    assert !StepFits(c1, Do(c1, second, cfg), cfg) by {
      assert Gained(c1, c2) == [SnapshotEvent(snapshot)] + Depths([TWO, THREE]);
      TrailingAfter([SnapshotEvent(snapshot)], [TWO, THREE]);
    }
    assert !EveryBatchFits(c0, [first, second], cfg) by {
      assert [first, second][1..] == [second];
    }
  }

  function TwoBridged(s: Sync, snapshot: Snapshot): Sync {
    s.(buffer := [], state := Live, book := Applied(Applied(Installed(snapshot), TWO), THREE))
  }

  lemma BatchOfTwo(k: Symbol, snapshot: Snapshot, d: Sync, cfg: Config)
    requires snapshot == Snapshot(1, 1, [BID], [ASK])
    requires k == Start(8).(sync := Initial(8).(buffer := [TWO, THREE]))
    requires d == TwoBridged(k.sync, snapshot)
    requires cfg.checkpointInterval == 1 && forall b :: cfg.hash(b) > 0
    ensures Install(k.sync, snapshot) == Step(d, Ok(InstallResult(Synchronized, 0, [TWO, THREE])))
    ensures var r := InstallAndRecord(k, snapshot, 1, cfg);
            && r.result == Ok(Synchronized) && r.symbol.sync == d
            && r.symbol.log.events == [SnapshotEvent(snapshot)] + Depths([TWO, THREE])
  {
    var live := k.sync.(buffer := [], state := Live, book := Installed(snapshot));
    assert Installed(snapshot) == Book(map[10 := 5], map[20 := 5], 1) by {
      assert [BID][1..] == [] && [ASK][1..] == [];
      assert SetLevel(map[], BID) == map[10 := 5] && SetLevel(map[], ASK) == map[20 := 5];
      assert SetLevels(map[10 := 5], []) == map[10 := 5] && SetLevels(map[20 := 5], []) == map[20 := 5];
    }
    assert live.book.bids != map[] && live.book.asks != map[] by {
      assert 10 in live.book.bids && 20 in live.book.asks;
    }
    assert Sound(live.book);
    var mid := live.(book := Applied(live.book, TWO));
    assert ApplyLive(live, TWO) == Step(mid, Ok(Accepted));
    assert ApplyLive(mid, THREE) == Step(d, Ok(Accepted));
    assert [TWO, THREE][1..] == [THREE] && [THREE][1..] == [];
    assert ApplyPending(d, []) == Step(d, Ok((Synchronized, [])));
    assert [THREE] + [] == [THREE] && [TWO] + [THREE] == [TWO, THREE];
    assert ApplyPending(mid, [THREE]) == Step(d, Ok((Synchronized, [THREE])));
    assert ApplyPending(live, [TWO, THREE]) == Step(d, Ok((Synchronized, [TWO, THREE])));
    assert Retained(k.sync.buffer, 1) == k.sync.buffer;
    var s0 := SnapshotRecorded(k, snapshot);
    var s1 := RecordApplied(s0, TWO, cfg);
    var s2 := RecordApplied(s1.symbol, THREE, cfg);
    assert s1.result.Ok? && s2.result.Ok?;
    assert RecordAll(s1.symbol, [THREE], cfg) == RecordAll(s2.symbol, [], cfg);
    assert RecordAll(s0, [TWO, THREE], cfg) == RecordAll(s1.symbol, [THREE], cfg);
    assert Depths([TWO, THREE]) == [DepthEvent(TWO), DepthEvent(THREE)] by {
      assert Depths([THREE]) == [DepthEvent(THREE)];
    }
  }
}
