/**
 What a step of the capture takes into the book without recording it, decided on the state before
 the step: exactly then replay does not give the live book.
 */
module CaptureLosses {
  import opened Results
  import opened L2Types
  import opened OrderBook
  import opened Synchronizer
  import opened SynchronizerProperties
  import opened Recording
  import opened Capture
  import opened CaptureProperties

  /** The snapshot is sound and the first retained update spans its successor, so a bridge begins. */
  predicate Begins(s: Sync, snapshot: Snapshot) {
    var pending := Retained(s.buffer, snapshot.lastUpdateId);
    pending != [] && pending[0].firstUpdateId <= snapshot.lastUpdateId + 1 && Sound(Installed(snapshot))
  }

  /** The writer takes the snapshot and all bridged updates; only the very last checkpoint is open. */
  predicate Stored(c: Symbol, snapshot: Snapshot, applied: seq<DepthUpdate>, cfg: Config) {
    && Writable(SnapshotEvent(snapshot))
    && (applied != [] ==>
          var last := |applied| - 1;
          Writable(DepthEvent(applied[last])) && RecordAll(SnapshotRecorded(c, snapshot), applied[..last], cfg).result.Ok?)
  }

  /** A begun bridge that meets no gap loses what it applied unless it applied and stored everything. */
  predicate AttemptLoses(c: Symbol, snapshot: Snapshot, cfg: Config) {
    Begins(c.sync, snapshot)
    && match Install(c.sync, snapshot).outcome
       case Err(_) => true
       case Ok(i) => i.result == Synchronized && !Stored(c, snapshot, i.applied, cfg)
  }

  predicate Retries(r: Result<SnapshotResult, CaptureError>) {
    r == Ok(SnapshotTooOld) || r == Ok(BridgeGap)
  }

  predicate AttemptsLose(c: Symbol, fetches: seq<Fetch>, attempts: nat, cfg: Config)
    decreases attempts
  {
    attempts > 0 && fetches != []
    && (AttemptLoses(c, fetches[0].snapshot, cfg)
        || (var one := InstallAndRecord(c, fetches[0].snapshot, fetches[0].now, cfg);
            Retries(one.result) && AttemptsLose(one.symbol, fetches[1..], attempts - 1, cfg)))
  }

  predicate SynchronizeLoses(c: Symbol, now: PosU64, fetches: seq<Fetch>, cfg: Config) {
    c.sync.buffer != []
    && if c.pending == None then AttemptsLose(c, fetches, cfg.attemptLimit, cfg)
       else
         AttemptLoses(c, c.pending.value, cfg)
         || (var one := InstallAndRecord(c, c.pending.value, now, cfg);
             Retries(one.result) && AttemptsLose(one.symbol, fetches, cfg.attemptLimit, cfg))
  }

  /** A live update that continues the book is lost when it makes the book unsound or is too large to write. */
  predicate LiveUpdateLoses(book: Book, u: DepthUpdate) {
    && u.finalUpdateId > book.lastUpdateId && u.firstUpdateId <= book.lastUpdateId + 1
    && (!Sound(Applied(book, u)) || !Writable(DepthEvent(u)))
  }

  predicate DepthLoses(c: Symbol, u: DepthUpdate, now: PosU64, fetches: seq<Fetch>, cfg: Config) {
    var step := Ingest(c.sync, u);
    var k := c.(sync := step.sync);
    if step.outcome == Ok(Buffered) then SynchronizeLoses(k, now, fetches, cfg)
    else if step.outcome == Ok(GapDetected) then SynchronizeLoses(GapMarked(k, u.receipt), now, fetches, cfg)
    else c.sync.state == Live && LiveUpdateLoses(c.sync.book, u)
  }

  predicate StepLoses(c: Symbol, step: CaptureStep, cfg: Config) {
    match step
    case DepthStep(u, now, fetches) => DepthLoses(c, u, now, fetches, cfg)
    case _ => false
  }

  // ----- one snapshot attempt

  lemma {:induction false} RecordAllLength(c: Symbol, updates: seq<DepthUpdate>, cfg: Config)
    ensures var r := RecordAll(c, updates, cfg);
            && |c.log.events| <= |r.symbol.log.events| <= |c.log.events| + |updates|
            && (r.result.Ok? ==> |r.symbol.log.events| == |c.log.events| + |updates|)
    decreases updates
  {
    if updates != [] {
      RecordAllLength(RecordApplied(c, updates[0], cfg).symbol, updates[1..], cfg);
    }
  }

  lemma {:induction false} RecordAllSplits(c: Symbol, updates: seq<DepthUpdate>, cfg: Config)
    requires updates != []
    ensures var last := |updates| - 1;
            var before := RecordAll(c, updates[..last], cfg);
            RecordAll(c, updates, cfg) ==
              if before.result.Err? then before else RecordApplied(before.symbol, updates[last], cfg)
    decreases updates
  {
    hide RecordApplied;
    var last, rest := |updates| - 1, updates[1..];
    if rest == [] {
      assert updates[..last] == [];
      var one := RecordApplied(c, updates[0], cfg);
      assert one.result.Ok? ==> one.result.value == Unit.Unit;
      assert RecordAll(one.symbol, rest, cfg) == Outcome(one.symbol, Ok(Unit.Unit));
      assert RecordAll(c, updates[..last], cfg) == Outcome(c, Ok(Unit.Unit));
    } else {
      assert updates[..last][0] == updates[0] && updates[..last][1..] == rest[..|rest| - 1];
      if RecordApplied(c, updates[0], cfg).result.Ok? {
        RecordAllSplits(RecordApplied(c, updates[0], cfg).symbol, rest, cfg);
      }
    }
  }

  /** A refused batch reaches its last update exactly when the writer took all the others and that one. */
  lemma WholeBatchIff(c: Symbol, updates: seq<DepthUpdate>, cfg: Config)
    requires updates != [] && RecordAll(c, updates, cfg).result.Err?
    ensures var r, last := RecordAll(c, updates, cfg), |updates| - 1;
            |r.symbol.log.events| == |c.log.events| + |updates| <==>
              Writable(DepthEvent(updates[last])) && RecordAll(c, updates[..last], cfg).result.Ok?
  {
    hide CheckpointAccepted, RecordAll;
    RecordAllSplits(c, updates, cfg);
    RecordAllLength(c, updates[..|updates| - 1], cfg);
  }

  lemma {:induction false} DepthsLength(updates: seq<DepthUpdate>)
    ensures |Depths(updates)| == |updates|
    decreases updates
  {
    if updates != [] {
      DepthsLength(updates[1..]);
    }
  }

  lemma {:induction false} BridgeErrorIsLive(s: Sync, pending: seq<DepthUpdate>)
    requires s.state == Live && ApplyPending(s, pending).outcome == Err(InvalidBook)
    ensures ApplyPending(s, pending).sync.state == Live
    decreases pending
  {
    hide Applied, Sound;
    var first := ApplyLive(s, pending[0]);
    if first.outcome.Ok? {
      BridgeErrorIsLive(first.sync, pending[1..]);
    }
  }

  /** An installation that raises leaves the synchronizer live exactly when its bridge had begun. */
  lemma InstallErrorIff(s: Sync, snapshot: Snapshot)
    requires BufferInvariant(s) && s.state != Live && Install(s, snapshot).outcome.Err?
    ensures Install(s, snapshot).sync.state == Live <==> Begins(s, snapshot)
  {
    hide Installed, Sound, ApplyPending, BufferInvariant;
    InstallOutcomes(s, snapshot);
    var pending := Retained(s.buffer, snapshot.lastUpdateId);
    if Begins(s, snapshot) {
      var live := s.(buffer := [], book := Installed(snapshot), state := Live);
      if ApplyPending(live, pending).outcome == Err(InvalidBook) {
        BridgeErrorIsLive(live, pending);
      }
    }
  }

  lemma SynchronizedBegan(s: Sync, snapshot: Snapshot)
    requires var r := Install(s, snapshot); r.outcome.Ok? && r.outcome.value.result == Synchronized
    ensures Begins(s, snapshot)
  {
    hide Installed, Sound, ApplyPending;
  }

  /** A bridge the writer refuses somewhere is recorded whole exactly when it is stored but for the last checkpoint. */
  lemma BridgeLostIff(c: Symbol, snapshot: Snapshot, now: PosU64, cfg: Config)
    requires CaptureInvariant(c, cfg) && c.sync.state != Live
    requires var step := Install(c.sync, snapshot); step.outcome.Ok? && step.outcome.value.result == Synchronized
    requires InstallAndRecord(c, snapshot, now, cfg).result.Err?
    ensures var r := InstallAndRecord(c, snapshot, now, cfg);
            NothingLost(r.symbol, r.result.error) <==> Stored(c, snapshot, Install(c.sync, snapshot).outcome.value.applied, cfg)
  {
    hide AllHold, NoStaleDepth, IndicesGrow, Install, Sound, BufferInvariant, Leads, RecordAll, Applied, Installed, LastRecorded, Rebuilt;
    if Writable(SnapshotEvent(snapshot)) {
      WrittenBridgeLostIff(c, snapshot, cfg);
    }
  }

  lemma WrittenBridgeLostIff(c: Symbol, snapshot: Snapshot, cfg: Config)
    requires CaptureInvariant(c, cfg) && c.sync.state != Live && Writable(SnapshotEvent(snapshot))
    requires var step := Install(c.sync, snapshot); step.outcome.Ok? && step.outcome.value.result == Synchronized
    requires RecordAll(SnapshotRecorded(c, snapshot), Install(c.sync, snapshot).outcome.value.applied, cfg).result.Err?
    ensures var applied := Install(c.sync, snapshot).outcome.value.applied;
            var r := RecordAll(SnapshotRecorded(c, snapshot), applied, cfg);
            NothingLost(r.symbol, r.result.error) <==> Stored(c, snapshot, applied, cfg)
  {
    hide AllHold, NoStaleDepth, IndicesGrow, Install, Sound, BufferInvariant, Leads, RecordAll, Applied, Installed, LastRecorded;
    InstallOutcomes(c.sync, snapshot) by { InvariantBuffers(c, cfg); }
    var applied, k := Install(c.sync, snapshot).outcome.value.applied, SnapshotRecorded(c, snapshot);
    AppendEvent(c.log, SnapshotEvent(snapshot), cfg.hash);
    var written := RecordAllStops(k, applied, cfg);
    var d := RecordAll(k, applied, cfg).symbol;
    DepthsLength(applied[..written]);
    LastOfBatch(k, d, applied, written);
    WholeBatchIff(k, applied, cfg);
  }

  lemma AttemptLosesIff(c: Symbol, snapshot: Snapshot, now: PosU64, cfg: Config)
    requires CaptureInvariant(c, cfg) && c.sync.state != Live
    ensures var r := InstallAndRecord(c, snapshot, now, cfg);
            AttemptLoses(c, snapshot, cfg) <==> r.result.Err? && !NothingLost(r.symbol, r.result.error)
  {
    hide Install, Begins, Stored, CaptureInvariant, LastRecorded, RecordAll;
    InvariantBuffers(c, cfg);
    InstallOutcomes(c.sync, snapshot);
    var step := Install(c.sync, snapshot);
    if step.outcome.Err? {
      InstallErrorIff(c.sync, snapshot);
    } else if step.outcome.value.result == Synchronized {
      SynchronizedBegan(c.sync, snapshot);
      if InstallAndRecord(c, snapshot, now, cfg).result.Err? {
        BridgeLostIff(c, snapshot, now, cfg);
      } else {
        RecordedIsStored(c, snapshot, now, cfg);
      }
    }
  }

  lemma RecordedIsStored(c: Symbol, snapshot: Snapshot, now: PosU64, cfg: Config)
    requires InstallAndRecord(c, snapshot, now, cfg).result == Ok(Synchronized)
    ensures Stored(c, snapshot, Install(c.sync, snapshot).outcome.value.applied, cfg)
  {
    hide Install, RecordAll, CheckpointAccepted;
    BridgeUnfolds(c, snapshot, now, cfg);
    var applied := Install(c.sync, snapshot).outcome.value.applied;
    if applied != [] {
      RecordAllSplits(SnapshotRecorded(c, snapshot), applied, cfg);
    }
  }

  // ----- whole steps

  /** The step stopped the capture and lost something. */
  predicate Lost(r: Outcome<bool>) {
    !Continues(r.result) && !NothingLost(r.symbol, r.result.error)
  }

  lemma {:induction false} AttemptsLoseIff(c: Symbol, fetches: seq<Fetch>, attempts: nat, cfg: Config)
    requires CaptureInvariant(c, cfg) && c.sync.state != Live
    ensures AttemptsLose(c, fetches, attempts, cfg) <==> Lost(Attempts(c, fetches, attempts, cfg))
    decreases attempts
  {
    hide CaptureInvariant, InstallAndRecord, AttemptLoses, NothingLost, Stops, Follows, OnlyBoundaries;
    if attempts > 0 && fetches != [] {
      var one := InstallAndRecord(c, fetches[0].snapshot, fetches[0].now, cfg);
      AttemptLosesIff(c, fetches[0].snapshot, fetches[0].now, cfg);
      InstallAndRecordReplays(c, fetches[0].snapshot, fetches[0].now, cfg);
      if Retries(one.result) {
        AttemptsLoseIff(one.symbol, fetches[1..], attempts - 1, cfg);
      }
    }
  }

  lemma SynchronizeLosesIff(c: Symbol, now: PosU64, fetches: seq<Fetch>, cfg: Config)
    requires CaptureInvariant(c, cfg)
    ensures SynchronizeLoses(c, now, fetches, cfg) <==> Lost(Synchronize(c, now, fetches, cfg))
  {
    hide InstallAndRecord, AttemptLoses, NothingLost, Stops, Follows, OnlyBoundaries, GoodLog, Attempts, AttemptsLose;
    if c.sync.buffer != [] {
      if c.pending == None {
        AttemptsLoseIff(c, fetches, cfg.attemptLimit, cfg);
      } else {
        var one := InstallAndRecord(c, c.pending.value, now, cfg);
        AttemptLosesIff(c, c.pending.value, now, cfg);
        InstallAndRecordReplays(c, c.pending.value, now, cfg);
        if Retries(one.result) {
          AttemptsLoseIff(one.symbol, fetches, cfg.attemptLimit, cfg);
        }
      }
    }
  }

  lemma DepthLosesIff(c: Symbol, u: DepthUpdate, now: PosU64, fetches: seq<Fetch>, cfg: Config)
    requires CaptureInvariant(c, cfg)
    ensures DepthLoses(c, u, now, fetches, cfg) <==> Lost(OnDepth(c, u, now, fetches, cfg))
  {
    hide Synchronize, SynchronizeLoses, GoodLog, Rebuilt, Sound, SetLevels, CheckpointAccepted;
    var step := Ingest(c.sync, u);
    var k := c.(sync := step.sync);
    StepKeepsBuffer(c.sync, IngestCall(u));
    if step.outcome == Ok(Buffered) {
      SynchronizeLosesIff(k, now, fetches, cfg);
    } else if step.outcome == Ok(GapDetected) {
      BoundaryRecorded(c, GapMarked(k, u.receipt), BoundaryEvent(u.receipt, SequenceGap), cfg);
      SynchronizeLosesIff(GapMarked(k, u.receipt), now, fetches, cfg);
    } else if step.outcome == Ok(Accepted) {
      LiveUpdateLostIff(k, u, cfg);
    }
  }

  lemma LiveUpdateLostIff(k: Symbol, u: DepthUpdate, cfg: Config)
    requires k.sync.book.lastUpdateId == u.finalUpdateId
    ensures var r := RecordApplied(k, u, cfg);
            !Writable(DepthEvent(u)) <==> r.result.Err? && !NothingLost(r.symbol, r.result.error)
  {
    hide CheckpointAccepted;
  }

  /**
   After every step replay of what was recorded gives the live book, or the empty one when the capture
   is not live, exactly when by the state before it the step loses nothing.
   */
  lemma StepLosesIff(c: Symbol, step: CaptureStep, cfg: Config)
    requires CaptureInvariant(c, cfg)
    ensures var d := Do(c, step, cfg).symbol;
            Rebuilt(d.log.events) == Ok(VisibleBook(d.sync)) <==> !StepLoses(c, step, cfg)
  {
    hide OnDepth, OnTrade, ConnectionBoundary, NothingLost, DepthLoses, BufferInvariant, GoodLog;
    StepReplays(c, step, cfg);
    match step
    case DepthStep(u, now, fetches) => DepthLosesIff(c, u, now, fetches, cfg);
    case ConnectionStep(_, _) =>
    case TradeStep(_) =>
  }

  /** The step that stops the run loses something. */
  predicate RunLoses(c: Symbol, steps: seq<CaptureStep>, cfg: Config)
    decreases steps
  {
    steps != []
    && (var one := Do(c, steps[0], cfg);
        if Continues(one.result) then RunLoses(one.symbol, steps[1..], cfg) else StepLoses(c, steps[0], cfg))
  }

  lemma {:induction false} RunLosesIff(c: Symbol, steps: seq<CaptureStep>, cfg: Config)
    requires CaptureInvariant(c, cfg)
    ensures var d := CaptureRun(c, steps, cfg).symbol;
            Rebuilt(d.log.events) == Ok(VisibleBook(d.sync)) <==> !RunLoses(c, steps, cfg)
    decreases steps
  {
    hide Do, StepLoses, Rebuilt, VisibleBook, GoodLog, BufferInvariant;
    if steps != [] {
      var one := Do(c, steps[0], cfg);
      if Continues(one.result) {
        StepReplays(c, steps[0], cfg);
        RunLosesIff(one.symbol, steps[1..], cfg);
      } else {
        StepLosesIff(c, steps[0], cfg);
      }
    }
  }

  /** From the start: the recording replays to the visible book exactly unless its last step loses something. */
  lemma CaptureLosesIff(capacity: nat, steps: seq<CaptureStep>, cfg: Config)
    requires capacity > 0 && cfg.checkpointInterval > 0
    ensures var d := CaptureRun(Start(capacity), steps, cfg).symbol;
            && Rebuilt(d.log.events).Ok?
            && (Rebuilt(d.log.events) == Ok(VisibleBook(d.sync)) <==> !RunLoses(Start(capacity), steps, cfg))
  {
    hide CaptureRun, RunLoses, Rebuilt, VisibleBook, CaptureInvariant;
    StartIsGood(capacity, cfg);
    RunLosesIff(Start(capacity), steps, cfg);
    CaptureReplaysIff(capacity, steps, cfg);
  }
}
