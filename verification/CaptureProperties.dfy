/**
 Replaying what a capture recorded rebuilds the live book after every step; which of its
 checkpoints replay accepts; and what the final boundary does to a finished recording.
 */
module CaptureProperties {
  import opened Results
  import opened L2Types
  import opened OrderBook
  import opened Synchronizer
  import opened SynchronizerProperties
  import opened Recording
  import opened Capture

  ghost predicate GoodLog(log: Log) {
    && Rebuilt(log.events).Ok?
    && NoStaleDepth(log.events)
    && IndicesGrow(log)
  }

  /** The book a consumer of the recording should see in this state. */
  function VisibleBook(s: Sync): Book {
    if s.state == Live then s.book else EMPTY
  }

  ghost predicate CaptureInvariant(c: Symbol, cfg: Config) {
    && BufferInvariant(c.sync)
    && c.depthSinceCheckpoint < cfg.checkpointInterval
    && GoodLog(c.log)
    && Rebuilt(c.log.events) == Ok(VisibleBook(c.sync))
  }

  // ----- growing the recording

  lemma AppendEvent(log: Log, e: Event, hash: Book -> U64)
    requires GoodLog(log)
    requires ReplayEvent(Rebuilt(log.events).value, e).Ok?
    requires !StaleDepth(Rebuilt(log.events).value, e)
    ensures var grown := log.(events := log.events + [e]);
            && GoodLog(grown)
            && Rebuilt(grown.events) == ReplayEvent(Rebuilt(log.events).value, e)
            && (AllHold(grown, hash) <==> AllHold(log, hash))
  {
    var events := log.events + [e];
    forall i | 0 <= i < |events| && Rebuilt(events[..i]).Ok?
      ensures !StaleDepth(Rebuilt(events[..i]).value, events[i])
    {
      assert events[..i] == log.events[..i];
      assert log.events[..|log.events|] == log.events;
    }
    forall c | c in log.checkpoints
      ensures CheckpointHolds(events, c, hash) <==> CheckpointHolds(log.events, c, hash)
    {
      HoldsStays(log.events, [e], c, hash);
    }
  }

  lemma AppendCheckpoint(log: Log, id: U64, stateHash: U64, hash: Book -> U64)
    requires GoodLog(log) && CheckpointAccepted(log, id, stateHash)
    ensures var c := Checkpoint(|log.events|, id, stateHash);
            var grown := log.(checkpoints := log.checkpoints + [c]);
            && GoodLog(grown)
            && (AllHold(grown, hash) <==> AllHold(log, hash) && Matches(c, Rebuilt(log.events).value, hash))
  {
    var c := Checkpoint(|log.events|, id, stateHash);
    var grown := log.(checkpoints := log.checkpoints + [c]);
    assert log.events[..|log.events|] == log.events;
    assert CheckpointHolds(log.events, c, hash) <==> Matches(c, Rebuilt(log.events).value, hash);
    assert forall k | k in grown.checkpoints :: k in log.checkpoints || k == c;
    assert c in grown.checkpoints && forall k | k in log.checkpoints :: k in grown.checkpoints;
  }

  // ----- a batch of accepted updates

  /** The updates lead from one book to the other, each continuous with the one before. */
  ghost predicate Leads(from: Book, updates: seq<DepthUpdate>, to: Book)
    decreases updates
  {
    if updates == [] then from == to
    else
      var u := updates[0];
      && u.firstUpdateId <= from.lastUpdateId + 1 && from.lastUpdateId < u.finalUpdateId
      && Sound(Applied(from, u))
      && Leads(Applied(from, u), updates[1..], to)
  }

  lemma {:induction false} LeadsForward(from: Book, updates: seq<DepthUpdate>, to: Book)
    requires Leads(from, updates, to)
    ensures updates != [] ==> from.lastUpdateId < to.lastUpdateId
    decreases updates
  {
    if updates != [] {
      LeadsForward(Applied(from, updates[0]), updates[1..], to);
    }
  }

  /** The bridge reports exactly the updates that lead from the snapshot to the live book. */
  lemma {:induction false} PendingLeads(s: Sync, pending: seq<DepthUpdate>)
    requires s.state == Live
    ensures var r := ApplyPending(s, pending);
            r.outcome.Ok? && r.outcome.value.0 == Synchronized ==>
              r.sync.state == Live && Leads(s.book, r.outcome.value.1, r.sync.book)
    decreases pending
  {
    if pending != [] {
      var first := ApplyLive(s, pending[0]);
      if first.outcome.Ok? && first.outcome.value != GapDetected {
        PendingLeads(first.sync, pending[1..]);
        var rest := ApplyPending(first.sync, pending[1..]);
        if rest.outcome.Ok? {
          assert ([pending[0]] + rest.outcome.value.1)[1..] == rest.outcome.value.1;
          assert [] + rest.outcome.value.1 == rest.outcome.value.1;
        }
      }
    }
  }

  function Depths(updates: seq<DepthUpdate>): seq<Event> {
    if updates == [] then [] else [DepthEvent(updates[0])] + Depths(updates[1..])
  }

  /**
   d is c with a batch recorded: replay gives the live book, and the batch added only checkpoints
   replay accepts exactly when the counter did not run over before the batch's last update.
   */
  ghost predicate BatchRecorded(c: Symbol, d: Symbol, updates: seq<DepthUpdate>, cfg: Config) {
    && d.sync == c.sync
    && GoodLog(d.log) && d.depthSinceCheckpoint < cfg.checkpointInterval
    && d.log.events == c.log.events + Depths(updates)
    && Rebuilt(d.log.events) == Ok(c.sync.book)
    && (AllHold(d.log, cfg.hash) <==>
          AllHold(c.log, cfg.hash) && c.depthSinceCheckpoint + |updates| <= cfg.checkpointInterval)
  }

  lemma PrependRecorded(c: Symbol, k: Symbol, d: Symbol, updates: seq<DepthUpdate>, cfg: Config)
    requires updates != [] && c.depthSinceCheckpoint < cfg.checkpointInterval
    requires k.sync == c.sync && k.log.events == c.log.events + [DepthEvent(updates[0])]
    requires k.depthSinceCheckpoint ==
             if c.depthSinceCheckpoint + 1 == cfg.checkpointInterval then 0 else c.depthSinceCheckpoint + 1
    requires AllHold(k.log, cfg.hash) <==>
             AllHold(c.log, cfg.hash) && (c.depthSinceCheckpoint + 1 == cfg.checkpointInterval ==> |updates| == 1)
    requires BatchRecorded(k, d, updates[1..], cfg)
    ensures BatchRecorded(c, d, updates, cfg)
  {
    hide AllHold, GoodLog, RecordApplied, Rebuilt;
  }

  /** Recording a batch that leads from the rebuilt book to the live one. */
  lemma {:induction false} RecordAllReplays(c: Symbol, updates: seq<DepthUpdate>, cfg: Config)
    requires GoodLog(c.log) && c.depthSinceCheckpoint < cfg.checkpointInterval
    requires Leads(Rebuilt(c.log.events).value, updates, c.sync.book)
    ensures var r := RecordAll(c, updates, cfg);
            r.result.Ok? ==> BatchRecorded(c, r.symbol, updates, cfg)
    decreases updates
  {
    hide AllHold, NoStaleDepth, IndicesGrow;
    if updates == [] {
      assert c.log.events + [] == c.log.events;
    } else {
      var first := RecordApplied(c, updates[0], cfg);
      if first.result.Ok? {
        RecordOneReplays(c, updates[0], cfg);
        LeadsForward(Applied(Rebuilt(c.log.events).value, updates[0]), updates[1..], c.sync.book);
        RecordAllReplays(first.symbol, updates[1..], cfg);
        var r := RecordAll(first.symbol, updates[1..], cfg);
        if r.result.Ok? {
          PrependRecorded(c, first.symbol, r.symbol, updates, cfg);
        }
      }
    }
  }

  lemma RecordOneReplays(c: Symbol, u: DepthUpdate, cfg: Config)
    requires GoodLog(c.log) && c.depthSinceCheckpoint < cfg.checkpointInterval
    requires var b := Rebuilt(c.log.events).value;
             u.firstUpdateId <= b.lastUpdateId + 1 && b.lastUpdateId < u.finalUpdateId && Sound(Applied(b, u))
    requires RecordApplied(c, u, cfg).result.Ok?
    ensures var k := RecordApplied(c, u, cfg).symbol;
            var next := Applied(Rebuilt(c.log.events).value, u);
            && k.sync == c.sync && GoodLog(k.log)
            && k.log.events == c.log.events + [DepthEvent(u)]
            && Rebuilt(k.log.events) == Ok(next)
            && k.depthSinceCheckpoint ==
                 (if c.depthSinceCheckpoint + 1 == cfg.checkpointInterval then 0 else c.depthSinceCheckpoint + 1)
            && (c.depthSinceCheckpoint + 1 < cfg.checkpointInterval ==>
                  (AllHold(k.log, cfg.hash) <==> AllHold(c.log, cfg.hash)))
            && (c.depthSinceCheckpoint + 1 == cfg.checkpointInterval ==>
                  (AllHold(k.log, cfg.hash) <==>
                     AllHold(c.log, cfg.hash) && next.lastUpdateId == c.sync.book.lastUpdateId
                     && cfg.hash(next) == cfg.hash(c.sync.book)))
  {
    AppendEvent(c.log, DepthEvent(u), cfg.hash);
    var w := Appended(c, DepthEvent(u));
    if c.depthSinceCheckpoint + 1 == cfg.checkpointInterval {
      AppendCheckpoint(w.log, c.sync.book.lastUpdateId, cfg.hash(c.sync.book), cfg.hash);
    }
  }

  /** How far the recording of a batch came when the writer refused one of its updates or checkpoints. */
  ghost predicate BatchStopped(c: Symbol, d: Symbol, updates: seq<DepthUpdate>, written: nat, error: CaptureError, cfg: Config) {
    var lost: nat := if error == WriteFailed(TooManyLevels) then 1 else 0;
    && d.sync == c.sync && GoodLog(d.log)
    && written <= |updates| && d.log.events == c.log.events + Depths(updates[..written])
    && 1 <= written + lost <= |updates| && (error == WriteFailed(TooManyLevels) || error == WriteFailed(InvalidCheckpoint))
    && (Rebuilt(d.log.events) == Ok(c.sync.book) <==> lost == 0 && written == |updates|)
    && (AllHold(d.log, cfg.hash) <==>
          AllHold(c.log, cfg.hash) && c.depthSinceCheckpoint + written + lost <= cfg.checkpointInterval)
  }

  lemma PrependStopped(
    c: Symbol, k: Symbol, d: Symbol, updates: seq<DepthUpdate>, written: nat, error: CaptureError, cfg: Config)
    requires updates != [] && c.depthSinceCheckpoint < cfg.checkpointInterval
    requires k.sync == c.sync && k.log.events == c.log.events + [DepthEvent(updates[0])]
    requires k.depthSinceCheckpoint ==
             if c.depthSinceCheckpoint + 1 == cfg.checkpointInterval then 0 else c.depthSinceCheckpoint + 1
    requires AllHold(k.log, cfg.hash) <==>
             AllHold(c.log, cfg.hash) && (c.depthSinceCheckpoint + 1 == cfg.checkpointInterval ==> |updates| == 1)
    requires BatchStopped(k, d, updates[1..], written, error, cfg)
    ensures BatchStopped(c, d, updates, written + 1, error, cfg)
  {
    hide AllHold, GoodLog, Rebuilt;
    assert updates[..written + 1][0] == updates[0] && updates[..written + 1][1..] == updates[1..][..written];
    assert Depths(updates[..written + 1]) == [DepthEvent(updates[0])] + Depths(updates[1..][..written]);
  }

  /** Recording a batch until the writer refuses leaves a recording that replays up to that point. */
  lemma {:induction false} RecordAllStops(c: Symbol, updates: seq<DepthUpdate>, cfg: Config) returns (written: nat)
    requires GoodLog(c.log) && c.depthSinceCheckpoint < cfg.checkpointInterval
    requires Leads(Rebuilt(c.log.events).value, updates, c.sync.book)
    requires RecordAll(c, updates, cfg).result.Err?
    ensures var r := RecordAll(c, updates, cfg);
            BatchStopped(c, r.symbol, updates, written, r.result.error, cfg)
    decreases updates
  {
    hide AllHold, NoStaleDepth, IndicesGrow, BatchStopped;
    var first := RecordApplied(c, updates[0], cfg);
    LeadsForward(Rebuilt(c.log.events).value, updates, c.sync.book);
    LeadsForward(Applied(Rebuilt(c.log.events).value, updates[0]), updates[1..], c.sync.book);
    if first.result.Ok? {
      RecordOneReplays(c, updates[0], cfg);
      var more := RecordAllStops(first.symbol, updates[1..], cfg);
      var r := RecordAll(first.symbol, updates[1..], cfg);
      PrependStopped(c, first.symbol, r.symbol, updates, more, r.result.error, cfg);
      written := more + 1;
    } else {
      written := RecordOneStops(c, updates, cfg);
    }
  }

  lemma {:induction false} RecordOneStops(c: Symbol, updates: seq<DepthUpdate>, cfg: Config) returns (written: nat)
    requires GoodLog(c.log) && c.depthSinceCheckpoint < cfg.checkpointInterval
    requires updates != [] && Leads(Rebuilt(c.log.events).value, updates, c.sync.book)
    requires RecordApplied(c, updates[0], cfg).result.Err?
    ensures var r := RecordApplied(c, updates[0], cfg);
            BatchStopped(c, r.symbol, updates, written, r.result.error, cfg)
  {
    hide BatchStopped, GoodLog, Leads, CheckpointAccepted;
    if Writable(DepthEvent(updates[0])) {
      written := 1;
      RefusedCheckpointStops(c, updates, cfg);
    } else {
      written := 0;
      RefusedUpdateStops(c, updates, cfg);
    }
  }

  lemma {:induction false} RefusedUpdateStops(c: Symbol, updates: seq<DepthUpdate>, cfg: Config)
    requires GoodLog(c.log) && c.depthSinceCheckpoint < cfg.checkpointInterval
    requires updates != [] && Leads(Rebuilt(c.log.events).value, updates, c.sync.book)
    ensures BatchStopped(c, c, updates, 0, WriteFailed(TooManyLevels), cfg)
  {
    hide AllHold, NoStaleDepth, IndicesGrow, Leads, Rebuilt;
    LeadsForward(Rebuilt(c.log.events).value, updates, c.sync.book);
    assert updates[..0] == [] && Depths([]) == [] && c.log.events + [] == c.log.events;
  }

  lemma {:induction false} RefusedCheckpointStops(c: Symbol, updates: seq<DepthUpdate>, cfg: Config)
    requires GoodLog(c.log) && c.depthSinceCheckpoint < cfg.checkpointInterval
    requires updates != [] && Leads(Rebuilt(c.log.events).value, updates, c.sync.book)
    requires RecordApplied(c, updates[0], cfg).result == Err(WriteFailed(InvalidCheckpoint))
    ensures BatchStopped(c, RecordApplied(c, updates[0], cfg).symbol, updates, 1, WriteFailed(InvalidCheckpoint), cfg)
  {
    hide AllHold, NoStaleDepth, IndicesGrow, Applied, Sound, CheckpointAccepted, Rebuilt;
    var b, u, rest := Rebuilt(c.log.events).value, updates[0], updates[1..];
    LeadsForward(Applied(b, u), rest, c.sync.book);
    AppendEvent(c.log, DepthEvent(u), cfg.hash);
    assert updates[..1] == [u];
    assert Depths([u]) == [DepthEvent(u)] by {
      assert [u][1..] == [] && Depths([]) == [];
    }
  }

  // ----- one step of the capture

  /**
   Outcomes after which the capture can go on: the step returned, or it raised before touching
   what had been recorded and with the book untouched by any refused update.
   */
  predicate Continues<T>(result: Result<T, CaptureError>) {
    match result
    case Ok(_) => true
    case Err(SyncFailed(e)) => e == BufferOverflow || e == OutOfOrder
    case Err(WriteFailed(_)) => false
    case Err(_) => true
  }

  datatype CaptureStep =
    | ConnectionStep(receipt: PosU64, connected: bool)
    | DepthStep(update: DepthUpdate, now: PosU64, fetches: seq<Fetch>)
    | TradeStep(trade: Trade)

  function Do(c: Symbol, step: CaptureStep, cfg: Config): Outcome<bool> {
    match step
    case ConnectionStep(receipt, connected) => Outcome(ConnectionBoundary(c, receipt, connected), Ok(true))
    case DepthStep(u, now, fetches) => OnDepth(c, u, now, fetches, cfg)
    case TradeStep(t) => Outcome(OnTrade(c, t), Ok(true))
  }

  /** The number of updates at the end of the recording. */
  function TrailingDepths(events: seq<Event>): nat {
    if events == [] || !events[|events| - 1].DepthEvent? then 0
    else 1 + TrailingDepths(events[..|events| - 1])
  }

  lemma {:induction false} TrailingAfter(events: seq<Event>, updates: seq<DepthUpdate>)
    ensures TrailingDepths(events + Depths(updates)) == TrailingDepths(events) + |updates|
    decreases updates
  {
    hide TrailingDepths;
    if updates == [] {
      assert events + Depths(updates) == events;
    } else {
      var next, rest := events + [DepthEvent(updates[0])], Depths(updates[1..]);
      OneMoreTrailing(events, updates[0]);
      TrailingAfter(next, updates[1..]);
      assert Depths(updates) == [DepthEvent(updates[0])] + rest;
      assert events + ([DepthEvent(updates[0])] + rest) == next + rest;
    }
  }

  lemma OneMoreTrailing(events: seq<Event>, u: DepthUpdate)
    ensures TrailingDepths(events + [DepthEvent(u)]) == 1 + TrailingDepths(events)
  {
    var next := events + [DepthEvent(u)];
    assert next[..|next| - 1] == events;
  }

  /** What the recording gained between two states. */
  function Gained(c: Symbol, d: Symbol): seq<Event>
    requires |c.log.events| <= |d.log.events|
  {
    d.log.events[|c.log.events|..]
  }

  /** The updates this step recorded do not run the checkpoint counter over before the last one. */
  predicate BatchFits(c: Symbol, d: Symbol, cfg: Config) {
    && c.log.events <= d.log.events
    && c.depthSinceCheckpoint + TrailingDepths(Gained(c, d)) <= cfg.checkpointInterval
  }

  /** d follows c by recording events, and its checkpoints are as good as BatchFits says. */
  ghost predicate Follows(c: Symbol, d: Symbol, cfg: Config) {
    && CaptureInvariant(d, cfg)
    && c.log.events <= d.log.events
    && (AllHold(d.log, cfg.hash) <==> AllHold(c.log, cfg.hash) && BatchFits(c, d, cfg))
  }

  /** The last update the book took is the last event recorded. */
  predicate LastRecorded(d: Symbol) {
    var n := |d.log.events|;
    n > 0 && d.log.events[n - 1].DepthEvent? && d.log.events[n - 1].update.finalUpdateId == d.sync.book.lastUpdateId
  }

  /** When the step that stopped the capture took nothing into the book that it did not record. */
  predicate NothingLost(d: Symbol, error: CaptureError) {
    match error
    case SyncFailed(_) => d.sync.state != Live
    case WriteFailed(TooManyLevels) => false
    case WriteFailed(InvalidCheckpoint) => LastRecorded(d)
    case _ => true
  }

  /** An update the writer refused counts as well: a checkpoint before it would lie inside its batch. */
  function Refusals(error: CaptureError): nat { if error == WriteFailed(TooManyLevels) then 1 else 0 }

  /** d is what a step from c left when it raised an error the capture stops at. */
  ghost predicate Stops(c: Symbol, d: Symbol, error: CaptureError, cfg: Config) {
    && GoodLog(d.log)
    && c.log.events <= d.log.events
    && (Rebuilt(d.log.events) == Ok(VisibleBook(d.sync)) <==> NothingLost(d, error))
    && (AllHold(d.log, cfg.hash) <==>
          AllHold(c.log, cfg.hash)
          && c.depthSinceCheckpoint + TrailingDepths(Gained(c, d)) + Refusals(error) <= cfg.checkpointInterval)
  }

  /** Nothing was recorded but boundaries, so counters and checkpoints are untouched. */
  ghost predicate OnlyBoundaries(c: Symbol, d: Symbol, cfg: Config) {
    && c.log.events <= d.log.events
    && TrailingDepths(Gained(c, d)) == 0
    && d.depthSinceCheckpoint == c.depthSinceCheckpoint
    && (AllHold(d.log, cfg.hash) <==> AllHold(c.log, cfg.hash))
  }

  lemma BoundaryRecorded(c: Symbol, k: Symbol, e: Event, cfg: Config)
    requires GoodLog(c.log) && e.BoundaryEvent?
    requires k.log == c.log.(events := c.log.events + [e]) && k.depthSinceCheckpoint == c.depthSinceCheckpoint
    ensures GoodLog(k.log) && Rebuilt(k.log.events) == Ok(EMPTY) && OnlyBoundaries(c, k, cfg)
  {
    AppendEvent(c.log, e, cfg.hash);
    assert Gained(c, k) == [e];
  }

  lemma NothingRecorded(c: Symbol, k: Symbol, cfg: Config)
    requires k.log == c.log && k.depthSinceCheckpoint == c.depthSinceCheckpoint
    ensures OnlyBoundaries(c, k, cfg)
  {
    assert Gained(c, k) == [];
  }

  lemma BoundariesThenFollows(c: Symbol, k: Symbol, d: Symbol, cfg: Config)
    requires OnlyBoundaries(c, k, cfg) && Follows(k, d, cfg)
    ensures Follows(c, d, cfg)
  {
    hide AllHold, CaptureInvariant;
    var a, b := Gained(c, k), Gained(k, d);
    assert Gained(c, d) == a + b;
    TrailingSplit(a, b);
  }

  /** What a step from c leaves, whether the capture goes on or stops there. */
  ghost predicate StepLeaves(c: Symbol, r: Outcome<bool>, cfg: Config) {
    if Continues(r.result) then Follows(c, r.symbol, cfg) else Stops(c, r.symbol, r.result.error, cfg)
  }

  lemma BoundariesThen(c: Symbol, k: Symbol, r: Outcome<bool>, cfg: Config)
    requires OnlyBoundaries(c, k, cfg) && StepLeaves(k, r, cfg)
    ensures StepLeaves(c, r, cfg)
  {
    hide OnlyBoundaries, Follows, Stops;
    if Continues(r.result) {
      BoundariesThenFollows(c, k, r.symbol, cfg);
    } else {
      BoundariesThenStops(c, k, r.symbol, r.result.error, cfg);
    }
  }

  lemma BoundariesThenStops(c: Symbol, k: Symbol, d: Symbol, error: CaptureError, cfg: Config)
    requires OnlyBoundaries(c, k, cfg) && Stops(k, d, error, cfg)
    ensures Stops(c, d, error, cfg)
  {
    hide AllHold, GoodLog, Rebuilt, NothingLost;
    var a, b := Gained(c, k), Gained(k, d);
    assert Gained(c, d) == a + b;
    TrailingSplit(a, b);
  }

  lemma {:induction false} TrailingSplit(a: seq<Event>, b: seq<Event>)
    requires TrailingDepths(a) == 0
    ensures TrailingDepths(a + b) == TrailingDepths(b)
    decreases b
  {
    if b == [] {
      assert a + b == a;
    } else {
      assert (a + b)[..|a + b| - 1] == a + b[..|b| - 1];
      TrailingSplit(a, b[..|b| - 1]);
    }
  }

  /** What the synchronizer's state is after each outcome of a snapshot installation. */
  lemma InstallOutcomes(s: Sync, snapshot: Snapshot)
    requires BufferInvariant(s)
    ensures var r := Install(s, snapshot);
            && (r.outcome.Ok? || r.outcome == Err(InvalidBook))
            && (r.outcome.Ok? ==>
              match r.outcome.value.result
              case SnapshotTooOld => r.sync.state == s.state
              case AwaitingBridge => r.sync.state == AwaitingSnapshot
              case BridgeGap => true
              case Synchronized =>
                && r.sync.state == Live
                && Sound(Installed(snapshot))
                && Leads(Installed(snapshot), r.outcome.value.applied, r.sync.book))
  {
    var kept := Retained(s.buffer, snapshot.lastUpdateId);
    RetainedIsSuffix(s.buffer, snapshot.lastUpdateId);
    var live := s.(buffer := [], book := Installed(snapshot), state := Live);
    ApplyPendingBuffer(live, kept);
    PendingLeads(live, kept);
  }

  lemma InstallAndRecordReplays(c: Symbol, snapshot: Snapshot, now: PosU64, cfg: Config)
    requires CaptureInvariant(c, cfg) && c.sync.state != Live
    ensures var r := InstallAndRecord(c, snapshot, now, cfg);
            && (r.result.Err? ==> !Continues(r.result) && Stops(c, r.symbol, r.result.error, cfg))
            && (r.result == Ok(Synchronized) ==> Follows(c, r.symbol, cfg) && r.symbol.sync.state == Live)
            && (r.result.Ok? && r.result != Ok(Synchronized) ==>
                  CaptureInvariant(r.symbol, cfg) && OnlyBoundaries(c, r.symbol, cfg) && r.symbol.sync.state != Live)
  {
    hide AllHold, NoStaleDepth, IndicesGrow, Install, Sound, Leads;
    var step := Install(c.sync, snapshot);
    var k := c.(sync := step.sync);
    StepKeepsBuffer(c.sync, InstallCall(snapshot));
    InstallOutcomes(c.sync, snapshot);
    if step.outcome.Ok? {
      match step.outcome.value.result
      case SnapshotTooOld =>
        BoundaryRecorded(k, InstallAndRecord(c, snapshot, now, cfg).symbol, BoundaryEvent(now, SnapshotRetry), cfg);
      case BridgeGap =>
        BoundaryRecorded(k, InstallAndRecord(c, snapshot, now, cfg).symbol, BoundaryEvent(now, SequenceGap), cfg);
      case AwaitingBridge =>
        NothingRecorded(c, InstallAndRecord(c, snapshot, now, cfg).symbol, cfg);
      case Synchronized =>
        RecordAllRaises(SnapshotRecorded(c, snapshot), step.outcome.value.applied, cfg);
        if InstallAndRecord(c, snapshot, now, cfg).result.Ok? {
          BridgeReplays(c, snapshot, now, cfg);
        } else {
          BridgeStops(c, snapshot, now, cfg);
        }
    } else {
      InstallStops(c, snapshot, now, cfg);
    }
  }

  lemma {:induction false} PendingPositive(s: Sync, pending: seq<DepthUpdate>)
    requires s.book.lastUpdateId > 0
    ensures ApplyPending(s, pending).sync.book.lastUpdateId > 0
    decreases pending
  {
    if pending != [] {
      PendingPositive(ApplyLive(s, pending[0]).sync, pending[1..]);
    }
  }

  /** A refused snapshot or bridge records nothing; a bridge leaves the book it had come to. */
  lemma InstallStops(c: Symbol, snapshot: Snapshot, now: PosU64, cfg: Config)
    requires CaptureInvariant(c, cfg) && c.sync.state != Live && Install(c.sync, snapshot).outcome.Err?
    ensures var r := InstallAndRecord(c, snapshot, now, cfg);
            r.result.Err? && r.result.error.SyncFailed? && Stops(c, r.symbol, r.result.error, cfg)
  {
    hide AllHold, NoStaleDepth, IndicesGrow, BufferInvariant, ApplyPending;
    var r := InstallAndRecord(c, snapshot, now, cfg);
    var pending := Retained(c.sync.buffer, snapshot.lastUpdateId);
    PendingPositive(c.sync.(buffer := [], book := Installed(snapshot), state := Live), pending);
    assert Gained(c, r.symbol) == [];
  }

  /** A bridge the writer does not take in full. */
  lemma BridgeStops(c: Symbol, snapshot: Snapshot, now: PosU64, cfg: Config)
    requires CaptureInvariant(c, cfg) && c.sync.state != Live
    requires var step := Install(c.sync, snapshot); step.outcome.Ok? && step.outcome.value.result == Synchronized
    requires InstallAndRecord(c, snapshot, now, cfg).result.Err?
    ensures var r := InstallAndRecord(c, snapshot, now, cfg);
            Stops(c, r.symbol, r.result.error, cfg)
  {
    hide AllHold, NoStaleDepth, IndicesGrow, Install, Sound, BufferInvariant, Leads, RecordAll, Applied, Installed;
    InstallOutcomes(c.sync, snapshot) by { InvariantBuffers(c, cfg); }
    if Writable(SnapshotEvent(snapshot)) {
      WrittenBridgeStops(c, snapshot, cfg);
    } else {
      var r, step := InstallAndRecord(c, snapshot, now, cfg), Install(c.sync, snapshot);
      LeadsForward(Installed(snapshot), step.outcome.value.applied, step.sync.book);
      InstalledPositive(snapshot);
      assert Gained(c, r.symbol) == [];
    }
  }

  lemma InstalledPositive(snapshot: Snapshot)
    ensures Installed(snapshot).lastUpdateId > 0
  {
  }

  lemma WrittenBridgeStops(c: Symbol, snapshot: Snapshot, cfg: Config)
    requires CaptureInvariant(c, cfg) && c.sync.state != Live
    requires var step := Install(c.sync, snapshot);
             && step.outcome.Ok? && step.sync.state == Live && Sound(Installed(snapshot))
             && Leads(Installed(snapshot), step.outcome.value.applied, step.sync.book)
             && RecordAll(SnapshotRecorded(c, snapshot), step.outcome.value.applied, cfg).result.Err?
    ensures var r := RecordAll(SnapshotRecorded(c, snapshot), Install(c.sync, snapshot).outcome.value.applied, cfg);
            Stops(c, r.symbol, r.result.error, cfg)
  {
    hide AllHold, NoStaleDepth, IndicesGrow, Install, Sound, BufferInvariant, Leads, RecordAll, Applied, Installed, LastRecorded;
    var applied, k := Install(c.sync, snapshot).outcome.value.applied, SnapshotRecorded(c, snapshot);
    AppendEvent(c.log, SnapshotEvent(snapshot), cfg.hash);
    var written := RecordAllStops(k, applied, cfg);
    var d := RecordAll(k, applied, cfg).symbol;
    assert Gained(c, d) == [SnapshotEvent(snapshot)] + Depths(applied[..written]);
    TrailingAfter([SnapshotEvent(snapshot)], applied[..written]);
    assert TrailingDepths([SnapshotEvent(snapshot)]) == 0;
    LastOfBatch(k, d, applied, written);
  }

  lemma InvariantBuffers(c: Symbol, cfg: Config)
    requires CaptureInvariant(c, cfg)
    ensures BufferInvariant(c.sync)
  {
  }

  /** The last recorded update is the book's last exactly when the whole batch was written. */
  lemma {:induction false} LastOfBatch(k: Symbol, d: Symbol, updates: seq<DepthUpdate>, written: nat)
    requires GoodLog(k.log) && 0 < |k.log.events| && !k.log.events[|k.log.events| - 1].DepthEvent?
    requires Leads(Rebuilt(k.log.events).value, updates, k.sync.book) && d.sync == k.sync
    requires written <= |updates| && d.log.events == k.log.events + Depths(updates[..written])
    ensures written > 0 ==> (LastRecorded(d) <==> written == |updates|)
  {
    if written > 0 {
      DepthsAt(updates[..written], written - 1);
      var n := |k.log.events|;
      assert d.log.events[|d.log.events| - 1] == Depths(updates[..written])[written - 1];
      LeadsTo(Rebuilt(k.log.events).value, updates, k.sync.book, written - 1);
    }
  }

  lemma {:induction false} DepthsAt(updates: seq<DepthUpdate>, i: nat)
    requires i < |updates|
    ensures |Depths(updates)| == |updates| && Depths(updates)[i] == DepthEvent(updates[i])
    decreases updates
  {
    if updates[1..] == [] {
      assert Depths(updates[1..]) == [];
    } else {
      DepthsAt(updates[1..], if i == 0 then 0 else i - 1);
    }
  }

  /** Of updates that lead from one book to another only the last has the other's identifier. */
  lemma {:induction false} LeadsTo(from: Book, updates: seq<DepthUpdate>, end: Book, i: nat)
    requires Leads(from, updates, end) && i < |updates|
    ensures updates[i].finalUpdateId == end.lastUpdateId <==> i == |updates| - 1
    decreases updates
  {
    LeadsForward(Applied(from, updates[0]), updates[1..], end);
    if i > 0 {
      LeadsTo(Applied(from, updates[0]), updates[1..], end, i - 1);
    }
  }

  /** The capture just after the snapshot of a successful bridge was recorded. */
  function SnapshotRecorded(c: Symbol, snapshot: Snapshot): Symbol {
    Appended(c.(sync := Install(c.sync, snapshot).sync), SnapshotEvent(snapshot)).(pending := None)
  }

  lemma BridgeUnfolds(c: Symbol, snapshot: Snapshot, now: PosU64, cfg: Config)
    requires InstallAndRecord(c, snapshot, now, cfg).result == Ok(Synchronized)
    ensures var step := Install(c.sync, snapshot);
            && step.outcome.Ok? && step.outcome.value.result == Synchronized
            && var recorded := RecordAll(SnapshotRecorded(c, snapshot), step.outcome.value.applied, cfg);
               recorded.result.Ok? && InstallAndRecord(c, snapshot, now, cfg).symbol == recorded.symbol
  {
  }

  lemma BridgeReplays(c: Symbol, snapshot: Snapshot, now: PosU64, cfg: Config)
    requires CaptureInvariant(c, cfg) && c.sync.state != Live
    requires InstallAndRecord(c, snapshot, now, cfg).result == Ok(Synchronized)
    ensures var r := InstallAndRecord(c, snapshot, now, cfg);
            && Follows(c, r.symbol, cfg) && r.symbol.sync.state == Live
            && r.symbol.sync == Install(c.sync, snapshot).sync
            && TrailingDepths(Gained(c, r.symbol)) == |Install(c.sync, snapshot).outcome.value.applied|
  {
    hide AllHold, NoStaleDepth, IndicesGrow, Install, Sound, Leads, BufferInvariant;
    BridgeUnfolds(c, snapshot, now, cfg);
    InstallOutcomes(c.sync, snapshot);
    StepKeepsBuffer(c.sync, InstallCall(snapshot));
    var applied := Install(c.sync, snapshot).outcome.value.applied;
    var k := SnapshotRecorded(c, snapshot);
    AppendEvent(c.log, SnapshotEvent(snapshot), cfg.hash);
    RecordAllReplays(k, applied, cfg);
    var d := RecordAll(k, applied, cfg).symbol;
    assert Gained(c, d) == [SnapshotEvent(snapshot)] + Depths(applied);
    TrailingAfter([SnapshotEvent(snapshot)], applied);
  }

  lemma {:induction false} RecordAllRaises(c: Symbol, updates: seq<DepthUpdate>, cfg: Config)
    ensures var r := RecordAll(c, updates, cfg); r.result.Err? ==> r.result.error.WriteFailed?
    decreases updates
  {
    if updates != [] && RecordApplied(c, updates[0], cfg).result.Ok? {
      RecordAllRaises(RecordApplied(c, updates[0], cfg).symbol, updates[1..], cfg);
    }
  }

  lemma {:induction false} AttemptsReplay(c: Symbol, fetches: seq<Fetch>, attempts: nat, cfg: Config)
    requires CaptureInvariant(c, cfg) && c.sync.state != Live
    ensures var r := Attempts(c, fetches, attempts, cfg);
            && StepLeaves(c, r, cfg)
            && (r.result == Ok(true) ==> r.symbol.sync.state == Live)
            && (r.result == Ok(false) ==> r.symbol.sync.state != Live)
    decreases attempts
  {
    hide AllHold, GoodLog, InstallAndRecord;
    if attempts == 0 || fetches == [] {
      NothingRecorded(c, c, cfg);
    } else {
      var one := InstallAndRecord(c, fetches[0].snapshot, fetches[0].now, cfg);
      InstallAndRecordReplays(c, fetches[0].snapshot, fetches[0].now, cfg);
      if one.result == Ok(SnapshotTooOld) || one.result == Ok(BridgeGap) {
        AttemptsReplay(one.symbol, fetches[1..], attempts - 1, cfg);
        BoundariesThen(c, one.symbol, Attempts(one.symbol, fetches[1..], attempts - 1, cfg), cfg);
      }
    }
  }

  lemma SynchronizeReplays(c: Symbol, now: PosU64, fetches: seq<Fetch>, cfg: Config)
    requires CaptureInvariant(c, cfg)
    ensures var r := Synchronize(c, now, fetches, cfg);
            StepLeaves(c, r, cfg)
  {
    hide AllHold, GoodLog, InstallAndRecord;
    if c.sync.buffer == [] {
      NothingRecorded(c, c, cfg);
    } else if c.pending == None {
      AttemptsReplay(c, fetches, cfg.attemptLimit, cfg);
    } else {
      var one := InstallAndRecord(c, c.pending.value, now, cfg);
      InstallAndRecordReplays(c, c.pending.value, now, cfg);
      if one.result == Ok(SnapshotTooOld) || one.result == Ok(BridgeGap) {
        AttemptsReplay(one.symbol, fetches, cfg.attemptLimit, cfg);
        BoundariesThen(c, one.symbol, Attempts(one.symbol, fetches, cfg.attemptLimit, cfg), cfg);
      }
    }
  }

  lemma OnDepthReplays(c: Symbol, u: DepthUpdate, now: PosU64, fetches: seq<Fetch>, cfg: Config)
    requires CaptureInvariant(c, cfg)
    ensures var r := OnDepth(c, u, now, fetches, cfg);
            StepLeaves(c, r, cfg)
  {
    hide AllHold, NoStaleDepth, IndicesGrow, Synchronize;
    var step := Ingest(c.sync, u);
    var k := c.(sync := step.sync);
    StepKeepsBuffer(c.sync, IngestCall(u));
    if step.outcome.Ok? {
      match step.outcome.value
      case IgnoredStale => NothingRecorded(c, k, cfg);
      case Buffered =>
        NothingRecorded(c, k, cfg);
        SynchronizeReplays(k, now, fetches, cfg);
        BoundariesThen(c, k, Synchronize(k, now, fetches, cfg), cfg);
      case GapDetected =>
        var g := GapMarked(k, u.receipt);
        BoundaryRecorded(c, g, BoundaryEvent(u.receipt, SequenceGap), cfg);
        SynchronizeReplays(g, now, fetches, cfg);
        BoundariesThen(c, g, Synchronize(g, now, fetches, cfg), cfg);
      case Accepted =>
        LiveUpdateReplays(c, k, u, cfg);
    } else {
      NothingRecorded(c, k, cfg);
      if step.outcome == Err(InvalidBook) {
        IngestStops(c, u, cfg);
      }
    }
  }

  /** A live update that makes the book unsound is in the book and not in the recording. */
  lemma IngestStops(c: Symbol, u: DepthUpdate, cfg: Config)
    requires CaptureInvariant(c, cfg) && Ingest(c.sync, u).outcome == Err(InvalidBook)
    ensures Stops(c, c.(sync := Ingest(c.sync, u).sync), SyncFailed(InvalidBook), cfg)
  {
    hide AllHold, NoStaleDepth, IndicesGrow, Sound, BufferInvariant;
    assert Gained(c, c.(sync := Ingest(c.sync, u).sync)) == [];
  }

  lemma LiveUpdateReplays(c: Symbol, k: Symbol, u: DepthUpdate, cfg: Config)
    requires CaptureInvariant(c, cfg) && BufferInvariant(k.sync)
    requires Ingest(c.sync, u) == Step(k.sync, Ok(Accepted)) && k == c.(sync := k.sync)
    ensures var r := RecordApplied(k, u, cfg);
            if r.result.Ok? then Follows(c, r.symbol, cfg) else Stops(c, r.symbol, r.result.error, cfg)
  {
    hide AllHold, GoodLog, Rebuilt, RecordApplied, Applied, Sound, Depths;
    var r := RecordApplied(k, u, cfg);
    assert k.sync.book == Applied(c.sync.book, u) && k.sync.state == c.sync.state == Live;
    if r.result.Ok? {
      RecordOneReplays(k, u, cfg);
      assert Gained(c, r.symbol) == [DepthEvent(u)];
      OneTrailing(u);
    } else {
      LiveUpdateStops(c, k, u, cfg);
    }
  }

  lemma LiveUpdateStops(c: Symbol, k: Symbol, u: DepthUpdate, cfg: Config)
    requires CaptureInvariant(c, cfg) && BufferInvariant(k.sync)
    requires Ingest(c.sync, u) == Step(k.sync, Ok(Accepted)) && k == c.(sync := k.sync)
    requires RecordApplied(k, u, cfg).result.Err?
    ensures var r := RecordApplied(k, u, cfg);
            Stops(c, r.symbol, r.result.error, cfg)
  {
    hide AllHold, NoStaleDepth, IndicesGrow, Sound, BufferInvariant;
    var r := RecordApplied(k, u, cfg);
    if Writable(DepthEvent(u)) {
      AppendEvent(c.log, DepthEvent(u), cfg.hash);
      assert Gained(c, r.symbol) == [DepthEvent(u)];
      OneTrailing(u);
    } else {
      assert Gained(c, r.symbol) == [];
    }
  }

  lemma OneTrailing(u: DepthUpdate)
    ensures TrailingDepths([DepthEvent(u)]) == 1
  {
    assert [DepthEvent(u)][..0] == [];
  }

  /**
   After every step replaying the recorded events raises nothing. When the capture can go on, it
   gives the live book, or the empty book when the capture is not live; when the step stops the
   capture, it gives that book exactly when nothing was lost. The checkpoints are accepted exactly
   when the step's batch fits the checkpoint interval.
   */
  lemma StepReplays(c: Symbol, step: CaptureStep, cfg: Config)
    requires CaptureInvariant(c, cfg)
    ensures var r := Do(c, step, cfg);
            StepLeaves(c, r, cfg)
  {
    hide Follows, CaptureInvariant, OnDepth, OnTrade, ConnectionBoundary;
    match step
    case ConnectionStep(receipt, connected) =>
      ConnectionReplays(c, receipt, connected, cfg);
    case DepthStep(u, now, fetches) =>
      OnDepthReplays(c, u, now, fetches, cfg);
    case TradeStep(t) =>
      TradeReplays(c, t, cfg);
  }

  lemma ConnectionReplays(c: Symbol, receipt: PosU64, connected: bool, cfg: Config)
    requires CaptureInvariant(c, cfg)
    ensures Follows(c, ConnectionBoundary(c, receipt, connected), cfg)
  {
    hide AllHold, GoodLog, Rebuilt;
    var d := ConnectionBoundary(c, receipt, connected);
    BoundaryRecorded(c, d, BoundaryEvent(receipt, if connected then ConnectionStart else ConnectionEnd), cfg);
  }

  lemma TradeReplays(c: Symbol, t: Trade, cfg: Config)
    requires CaptureInvariant(c, cfg)
    ensures Follows(c, OnTrade(c, t), cfg)
  {
    hide AllHold, NoStaleDepth, IndicesGrow, BufferInvariant;
    var d := OnTrade(c, t);
    if c.sync.state == Live {
      AppendEvent(c.log, TradeEvent(t), cfg.hash);
      assert Gained(c, d) == [TradeEvent(t)];
    } else {
      NothingRecorded(c, d, cfg);
    }
  }

  // ----- whole runs

  /** Runs the steps up to and including the first one that raises an error the capture stops at. */
  function CaptureRun(c: Symbol, steps: seq<CaptureStep>, cfg: Config): Outcome<bool>
    decreases steps
  {
    if steps == [] then Outcome(c, Ok(true))
    else
      var one := Do(c, steps[0], cfg);
      if Continues(one.result) then CaptureRun(one.symbol, steps[1..], cfg) else one
  }

  /** The updates this step recorded, and one it was refused, do not run the checkpoint counter over. */
  predicate StepFits(c: Symbol, r: Outcome<bool>, cfg: Config) {
    && c.log.events <= r.symbol.log.events
    && c.depthSinceCheckpoint + TrailingDepths(Gained(c, r.symbol)) + (if r.result.Err? then Refusals(r.result.error) else 0)
         <= cfg.checkpointInterval
  }

  predicate EveryBatchFits(c: Symbol, steps: seq<CaptureStep>, cfg: Config)
    decreases steps
  {
    steps == [] ||
    (var one := Do(c, steps[0], cfg);
     StepFits(c, one, cfg) && (Continues(one.result) ==> EveryBatchFits(one.symbol, steps[1..], cfg)))
  }

  predicate EveryStepReturns(c: Symbol, steps: seq<CaptureStep>, cfg: Config)
    decreases steps
  {
    steps == [] ||
    (var one := Do(c, steps[0], cfg); one.result.Ok? && EveryStepReturns(one.symbol, steps[1..], cfg))
  }

  lemma {:induction false} RunReplays(c: Symbol, steps: seq<CaptureStep>, cfg: Config)
    requires CaptureInvariant(c, cfg)
    ensures var r := CaptureRun(c, steps, cfg);
            && GoodLog(r.symbol.log)
            && (if r.result.Ok? then CaptureInvariant(r.symbol, cfg)
                else Rebuilt(r.symbol.log.events) == Ok(VisibleBook(r.symbol.sync)) <==> NothingLost(r.symbol, r.result.error))
            && (AllHold(r.symbol.log, cfg.hash) <==> AllHold(c.log, cfg.hash) && EveryBatchFits(c, steps, cfg))
    decreases steps
  {
    hide Do, AllHold, NothingLost, Rebuilt, VisibleBook, TrailingDepths, GoodLog, BufferInvariant;
    if steps != [] {
      StepReplays(c, steps[0], cfg);
      var one := Do(c, steps[0], cfg);
      if Continues(one.result) {
        RunReplays(one.symbol, steps[1..], cfg);
      }
    }
  }

  /**
   On every run from the start, through gaps, retries, pending snapshots, reconnects and failed
   fetches, and also up to the step that stops it: the recorded events rebuild a book without any
   error, the live book (or the empty one) unless the stopping step lost something; and replay
   accepts the recording with its checkpoints exactly when no bridge ran the checkpoint counter over
   before the bridge's last update.
   */
  lemma CaptureReplaysIff(capacity: nat, steps: seq<CaptureStep>, cfg: Config)
    requires capacity > 0 && cfg.checkpointInterval > 0
    ensures var r := CaptureRun(Start(capacity), steps, cfg);
            var d := r.symbol;
            && Rebuilt(d.log.events).Ok? && IndicesGrow(d.log) && (r.result.Ok? ==> CaptureInvariant(d, cfg))
            && (Rebuilt(d.log.events) == Ok(VisibleBook(d.sync)) <==> r.result.Ok? || NothingLost(d, r.result.error))
            && (Replay(d.log.events, d.log.checkpoints, cfg.hash).Ok? <==> EveryBatchFits(Start(capacity), steps, cfg))
            && (Replay(d.log.events, d.log.checkpoints, cfg.hash).Ok? ==>
                  Replay(d.log.events, d.log.checkpoints, cfg.hash) == Rebuilt(d.log.events))
  {
    hide EveryBatchFits, CaptureRun, NothingLost, CheckpointHolds, NoStaleDepth, IndicesGrow, Rebuilt, Replay;
    StartIsGood(capacity, cfg);
    RunReplays(Start(capacity), steps, cfg);
    GoodLogReplays(CaptureRun(Start(capacity), steps, cfg).symbol.log, cfg.hash);
  }

  lemma StartIsGood(capacity: nat, cfg: Config)
    requires capacity > 0 && cfg.checkpointInterval > 0
    ensures CaptureInvariant(Start(capacity), cfg) && AllHold(Start(capacity).log, cfg.hash)
  {
  }

  /** A good recording replays exactly when all its checkpoints hold, and then to what its events rebuild. */
  lemma GoodLogReplays(log: Log, hash: Book -> U64)
    requires GoodLog(log)
    ensures Replay(log.events, log.checkpoints, hash).Ok? <==> AllHold(log, hash)
    ensures Replay(log.events, log.checkpoints, hash).Ok? ==> Replay(log.events, log.checkpoints, hash) == Rebuilt(log.events)
  {
    hide Replay, Rebuilt, CheckpointHolds, NoStaleDepth;
    assert log.events[..|log.events|] == log.events;
    ReplayAcceptsIffAllHold(log, |log.events|, hash);
  }

  // ----- when every step returns, batches are single updates

  /** A bridge out of a one-event buffer applies at most that event and finds no gap. */
  lemma InstallSingleton(s: Sync, snapshot: Snapshot)
    requires BufferInvariant(s) && |s.buffer| == 1
    ensures var r := Install(s, snapshot);
            r.outcome.Ok? ==>
              match r.outcome.value.result
              case Synchronized => r.sync.buffer == [] && |r.outcome.value.applied| <= 1
              case AwaitingBridge => r.sync.buffer == []
              case SnapshotTooOld => r.sync.buffer == s.buffer
              case BridgeGap => false
  {
    var kept := Retained(s.buffer, snapshot.lastUpdateId);
    RetainedIsSuffix(s.buffer, snapshot.lastUpdateId);
    assert kept != [] ==> kept == s.buffer;
    var live := s.(buffer := [], book := Installed(snapshot), state := Live);
    ApplyPendingBuffer(live, s.buffer);
    SingletonPending(live, s.buffer);
  }

  lemma InstallFromSingleton(c: Symbol, snapshot: Snapshot, now: PosU64, cfg: Config)
    requires CaptureInvariant(c, cfg) && c.sync.state != Live && |c.sync.buffer| == 1
    ensures var r := InstallAndRecord(c, snapshot, now, cfg);
            && (r.result == Ok(Synchronized) || r.result == Ok(AwaitingBridge) ==>
                  r.symbol.sync.buffer == [] && BatchFits(c, r.symbol, cfg))
            && (r.result == Ok(SnapshotTooOld) ==>
                  CaptureInvariant(r.symbol, cfg) && OnlyBoundaries(c, r.symbol, cfg)
                  && r.symbol.sync.state != Live && |r.symbol.sync.buffer| == 1)
            && r.result != Ok(BridgeGap)
  {
    InstallAndRecordReplays(c, snapshot, now, cfg);
    InstallSingleton(c.sync, snapshot);
    if InstallAndRecord(c, snapshot, now, cfg).result == Ok(Synchronized) {
      BridgeUnfolds(c, snapshot, now, cfg);
      BridgeReplays(c, snapshot, now, cfg);
    }
  }

  lemma SingletonPending(s: Sync, pending: seq<DepthUpdate>)
    requires |pending| == 1
    ensures var r := ApplyPending(s, pending);
            && (r.outcome.Ok? ==> |r.outcome.value.1| <= 1)
            && (r.outcome.Ok? && pending[0].firstUpdateId <= s.book.lastUpdateId + 1 ==> r.outcome.value.0 == Synchronized)
  {
    var first := ApplyLive(s, pending[0]);
    assert ApplyPending(first.sync, pending[1..]) == Step(first.sync, Ok((Synchronized, [])));
  }

  lemma {:induction false} AttemptsFromSingleton(c: Symbol, fetches: seq<Fetch>, attempts: nat, cfg: Config)
    requires CaptureInvariant(c, cfg) && c.sync.state != Live && |c.sync.buffer| == 1
    ensures var r := Attempts(c, fetches, attempts, cfg);
            r.result.Ok? ==> r.symbol.sync.buffer == [] && BatchFits(c, r.symbol, cfg)
    decreases attempts
  {
    hide AllHold, CaptureInvariant, InstallAndRecord, OnlyBoundaries, BatchFits;
    if attempts > 0 && fetches != [] {
      var one := InstallAndRecord(c, fetches[0].snapshot, fetches[0].now, cfg);
      InstallFromSingleton(c, fetches[0].snapshot, fetches[0].now, cfg);
      if one.result == Ok(SnapshotTooOld) {
        AttemptsFromSingleton(one.symbol, fetches[1..], attempts - 1, cfg);
        var r := Attempts(one.symbol, fetches[1..], attempts - 1, cfg);
        if r.result.Ok? {
          BatchFitsAfterBoundaries(c, one.symbol, r.symbol, cfg);
        }
      }
    }
  }

  lemma BatchFitsAfterBoundaries(c: Symbol, k: Symbol, d: Symbol, cfg: Config)
    requires OnlyBoundaries(c, k, cfg) && BatchFits(k, d, cfg)
    ensures BatchFits(c, d, cfg)
  {
    assert Gained(c, d) == Gained(c, k) + Gained(k, d);
    TrailingSplit(Gained(c, k), Gained(k, d));
  }

  lemma SynchronizeFromSingleton(c: Symbol, now: PosU64, fetches: seq<Fetch>, cfg: Config)
    requires CaptureInvariant(c, cfg) && c.sync.state != Live && |c.sync.buffer| == 1
    ensures var r := Synchronize(c, now, fetches, cfg);
            r.result.Ok? ==> r.symbol.sync.buffer == [] && BatchFits(c, r.symbol, cfg)
  {
    hide AllHold, CaptureInvariant, InstallAndRecord, OnlyBoundaries, BatchFits;
    if c.pending == None {
      AttemptsFromSingleton(c, fetches, cfg.attemptLimit, cfg);
    } else {
      var one := InstallAndRecord(c, c.pending.value, now, cfg);
      InstallFromSingleton(c, c.pending.value, now, cfg);
      if one.result == Ok(SnapshotTooOld) {
        AttemptsFromSingleton(one.symbol, fetches, cfg.attemptLimit, cfg);
        var r := Attempts(one.symbol, fetches, cfg.attemptLimit, cfg);
        if r.result.Ok? {
          BatchFitsAfterBoundaries(c, one.symbol, r.symbol, cfg);
        }
      }
    }
  }

  lemma StepFromEmptyBuffer(c: Symbol, step: CaptureStep, cfg: Config)
    requires CaptureInvariant(c, cfg) && c.sync.buffer == []
    ensures var r := Do(c, step, cfg);
            r.result.Ok? ==> r.symbol.sync.buffer == [] && BatchFits(c, r.symbol, cfg)
  {
    var r := Do(c, step, cfg);
    match step
    case ConnectionStep(_, _) => assert Gained(c, r.symbol) == [r.symbol.log.events[|c.log.events|]];
    case TradeStep(t) => assert Gained(c, r.symbol) == if c.sync.state == Live then [TradeEvent(t)] else [];
    case DepthStep(u, now, fetches) => DepthFromEmptyBuffer(c, u, now, fetches, cfg);
  }

  lemma DepthFromEmptyBuffer(c: Symbol, u: DepthUpdate, now: PosU64, fetches: seq<Fetch>, cfg: Config)
    requires CaptureInvariant(c, cfg) && c.sync.buffer == []
    ensures var r := OnDepth(c, u, now, fetches, cfg);
            r.result.Ok? ==> r.symbol.sync.buffer == [] && BatchFits(c, r.symbol, cfg)
  {
    hide AllHold, NoStaleDepth, IndicesGrow, Synchronize, Applied, Sound, RecordApplied;
    var ingested := Ingest(c.sync, u);
    var k := c.(sync := ingested.sync);
    StepKeepsBuffer(c.sync, IngestCall(u));
    NothingRecorded(c, k, cfg);
    if ingested.outcome == Ok(Buffered) {
      SynchronizeFromSingleton(k, now, fetches, cfg);
      var r := Synchronize(k, now, fetches, cfg);
      if r.result.Ok? {
        BatchFitsAfterBoundaries(c, k, r.symbol, cfg);
      }
    } else if ingested.outcome == Ok(GapDetected) {
      var g := GapMarked(k, u.receipt);
      BoundaryRecorded(c, g, BoundaryEvent(u.receipt, SequenceGap), cfg);
      SynchronizeFromSingleton(g, now, fetches, cfg);
      var r := Synchronize(g, now, fetches, cfg);
      if r.result.Ok? {
        BatchFitsAfterBoundaries(c, g, r.symbol, cfg);
      }
    } else if ingested.outcome == Ok(Accepted) {
      LiveUpdateFits(c, k, u, cfg);
    }
  }

  lemma LiveUpdateFits(c: Symbol, k: Symbol, u: DepthUpdate, cfg: Config)
    requires CaptureInvariant(c, cfg) && BufferInvariant(k.sync)
    requires Ingest(c.sync, u) == Step(k.sync, Ok(Accepted)) && k == c.(sync := k.sync)
    ensures var r := RecordApplied(k, u, cfg);
            r.result.Ok? ==> r.symbol.sync.buffer == [] && BatchFits(c, r.symbol, cfg)
  {
    hide AllHold, NoStaleDepth, IndicesGrow;
    var r := RecordApplied(k, u, cfg);
    if r.result.Ok? {
      RecordOneReplays(k, u, cfg);
      assert Gained(c, r.symbol) == [DepthEvent(u)];
      OneTrailing(u);
    }
  }

  lemma {:induction false} ReturningRunFits(c: Symbol, steps: seq<CaptureStep>, cfg: Config)
    requires CaptureInvariant(c, cfg) && c.sync.buffer == []
    requires EveryStepReturns(c, steps, cfg)
    ensures EveryBatchFits(c, steps, cfg) && CaptureRun(c, steps, cfg).result.Ok?
    decreases steps
  {
    hide Do, AllHold, Rebuilt, TrailingDepths, GoodLog, BufferInvariant;
    if steps != [] {
      StepReplays(c, steps[0], cfg);
      StepFromEmptyBuffer(c, steps[0], cfg);
      ReturningRunFits(Do(c, steps[0], cfg).symbol, steps[1..], cfg);
    }
  }

  /** When no step raises, replay accepts the recording, every checkpoint included. */
  lemma ReturningCaptureReplays(capacity: nat, steps: seq<CaptureStep>, cfg: Config)
    requires capacity > 0 && cfg.checkpointInterval > 0
    requires EveryStepReturns(Start(capacity), steps, cfg)
    ensures var r := CaptureRun(Start(capacity), steps, cfg);
            && r.result.Ok?
            && Replay(r.symbol.log.events, r.symbol.log.checkpoints, cfg.hash) == Ok(VisibleBook(r.symbol.sync))
  {
    hide EveryBatchFits, CaptureRun, EveryStepReturns, Rebuilt, Replay, CaptureInvariant;
    StartIsGood(capacity, cfg);
    ReturningRunFits(Start(capacity), steps, cfg);
    CaptureReplaysIff(capacity, steps, cfg);
  }
}
