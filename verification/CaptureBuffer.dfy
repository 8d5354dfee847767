/**
 What a capture keeps of its stream: the synchronizer sees exactly the updates and connection
 changes that arrived, a gap keeps what is buffered, a hole is bridged by the next snapshot that
 spans it, and the counters are the numbers of recorded boundaries.
 */
module CaptureBuffer {
  import opened Results
  import opened L2Types
  import opened OrderBook
  import opened Synchronizer
  import opened SynchronizerProperties
  import opened SynchronizerBuffer
  import opened Recording
  import opened Capture
  import opened CaptureProperties
  import opened CaptureExchange

  // ----- the two resets

  /** Marking a gap keeps every buffered update and forgets the book and the pending snapshot. */
  lemma GapKeepsBuffer(c: Symbol, receipt: PosU64)
    ensures var d := GapMarked(c, receipt);
            && d.sync == Sync(EMPTY, AwaitingSnapshot, c.sync.buffer, c.sync.capacity, c.sync.resetCount + 1)
            && d.pending == None
            && d.log == Log(c.log.events + [BoundaryEvent(receipt, SequenceGap)], c.log.checkpoints)
            && d.depthSinceCheckpoint == c.depthSinceCheckpoint
  {
  }

  /** A change of connection, up or down, leaves nothing behind. */
  lemma ConnectionClears(c: Symbol, receipt: PosU64, connected: bool)
    ensures var d := ConnectionBoundary(c, receipt, connected);
            && d.sync == Sync(EMPTY, AwaitingSnapshot, [], c.sync.capacity, c.sync.resetCount + 1)
            && d.pending == None
            && d.log == Log(c.log.events + [BoundaryEvent(receipt, if connected then ConnectionStart else ConnectionEnd)],
                            c.log.checkpoints)
            && d.depthSinceCheckpoint == c.depthSinceCheckpoint
  {
  }

  // ----- a capture makes synchronizer calls

  /** The calls that come from outside: updates and clearing resets, without the capture's own work. */
  function Outer(calls: seq<Call>): seq<Call> {
    if calls == [] then []
    else
      (if calls[0].IngestCall? || calls[0] == ResetCall(false) then [calls[0]] else []) + Outer(calls[1..])
  }

  /** What a step of the capture brings in from outside. */
  function Arrival(step: CaptureStep): seq<Call> {
    match step
    case ConnectionStep(_, _) => [ResetCall(false)]
    case DepthStep(u, _, _) => [IngestCall(u)]
    case TradeStep(_) => []
  }

  function Arrivals(steps: seq<CaptureStep>): seq<Call> {
    if steps == [] then [] else Arrival(steps[0]) + Arrivals(steps[1..])
  }

  lemma {:induction false} OuterAdds(a: seq<Call>, b: seq<Call>)
    ensures Outer(a + b) == Outer(a) + Outer(b)
    decreases a
  {
    if a == [] {
      assert a + b == b;
    } else {
      OuterAdds(a[1..], b);
      assert (a + b)[1..] == a[1..] + b;
    }
  }

  lemma {:induction false} RunAdds(s: Sync, a: seq<Call>, b: seq<Call>)
    ensures Run(s, a + b) == Run(Run(s, a), b)
    decreases a
  {
    hide After;
    if a == [] {
      assert a + b == b;
    } else {
      RunAdds(After(s, a[0]), a[1..], b);
      assert (a + b)[0] == a[0] && (a + b)[1..] == a[1..] + b;
    }
  }

  lemma OneCall(s: Sync, call: Call)
    ensures Run(s, [call]) == After(s, call)
    ensures Outer([call]) == if call.IngestCall? || call == ResetCall(false) then [call] else []
  {
    hide After;
    assert [call][1..] == [];
    assert Run(After(s, call), []) == After(s, call);
  }

  lemma Joined(s: Sync, a: seq<Call>, b: seq<Call>)
    ensures Run(s, a + b) == Run(Run(s, a), b) && Outer(a + b) == Outer(a) + Outer(b)
  {
    OuterAdds(a, b);
    RunAdds(s, a, b);
  }

  /** A snapshot attempt installs, and after a gap resets without losing the buffer. */
  lemma AttemptCalls(c: Symbol, snapshot: Snapshot, now: PosU64, cfg: Config) returns (calls: seq<Call>)
    ensures InstallAndRecord(c, snapshot, now, cfg).symbol.sync == Run(c.sync, calls) && Outer(calls) == []
  {
    hide Install, RecordAll;
    var step := Install(c.sync, snapshot);
    calls := [InstallCall(snapshot)];
    OneCall(c.sync, calls[0]);
    if step.outcome.Ok? && step.outcome.value.result == BridgeGap {
      OneCall(step.sync, ResetCall(true));
      Joined(c.sync, calls, [ResetCall(true)]);
      calls := calls + [ResetCall(true)];
    } else if step.outcome.Ok? {
      RecordAllKeepsSync(SnapshotRecorded(c, snapshot), step.outcome.value.applied, cfg);
    }
  }

  lemma {:induction false} AttemptsCalls(c: Symbol, fetches: seq<Fetch>, attempts: nat, cfg: Config)
    returns (calls: seq<Call>)
    ensures Attempts(c, fetches, attempts, cfg).symbol.sync == Run(c.sync, calls) && Outer(calls) == []
    decreases attempts
  {
    hide InstallAndRecord;
    calls := [];
    if attempts > 0 && fetches != [] {
      var one := InstallAndRecord(c, fetches[0].snapshot, fetches[0].now, cfg);
      calls := AttemptCalls(c, fetches[0].snapshot, fetches[0].now, cfg);
      if one.result.Ok? && one.result.value !in {Synchronized, AwaitingBridge} {
        var more := AttemptsCalls(one.symbol, fetches[1..], attempts - 1, cfg);
        Joined(c.sync, calls, more);
        calls := calls + more;
      }
    }
  }

  lemma SynchronizeCalls(c: Symbol, now: PosU64, fetches: seq<Fetch>, cfg: Config) returns (calls: seq<Call>)
    ensures Synchronize(c, now, fetches, cfg).symbol.sync == Run(c.sync, calls) && Outer(calls) == []
  {
    hide InstallAndRecord, Attempts;
    calls := [];
    if c.sync.buffer != [] {
      if c.pending == None {
        calls := AttemptsCalls(c, fetches, cfg.attemptLimit, cfg);
      } else {
        var one := InstallAndRecord(c, c.pending.value, now, cfg);
        calls := AttemptCalls(c, c.pending.value, now, cfg);
        if one.result.Ok? && one.result.value !in {Synchronized, AwaitingBridge} {
          var more := AttemptsCalls(one.symbol, fetches, cfg.attemptLimit, cfg);
          Joined(c.sync, calls, more);
          calls := calls + more;
        }
      }
    }
  }

  lemma DepthCalls(c: Symbol, u: DepthUpdate, now: PosU64, fetches: seq<Fetch>, cfg: Config)
    returns (calls: seq<Call>)
    ensures OnDepth(c, u, now, fetches, cfg).symbol.sync == Run(c.sync, calls) && Outer(calls) == [IngestCall(u)]
  {
    hide Ingest, Synchronize;
    var step := Ingest(c.sync, u);
    var k := c.(sync := step.sync);
    calls := [IngestCall(u)];
    OneCall(c.sync, calls[0]);
    if step.outcome == Ok(GapDetected) {
      var reset := [ResetCall(true)];
      OneCall(step.sync, reset[0]);
      Joined(c.sync, calls, reset);
      var more := SynchronizeCalls(GapMarked(k, u.receipt), now, fetches, cfg);
      Joined(c.sync, calls + reset, more);
      calls := calls + reset + more;
    } else if step.outcome == Ok(Buffered) {
      var more := SynchronizeCalls(k, now, fetches, cfg);
      Joined(c.sync, calls, more);
      calls := calls + more;
    }
  }

  lemma StepCalls(c: Symbol, step: CaptureStep, cfg: Config) returns (calls: seq<Call>)
    ensures Do(c, step, cfg).symbol.sync == Run(c.sync, calls) && Outer(calls) == Arrival(step)
  {
    hide OnDepth;
    match step
    case ConnectionStep(_, _) =>
      calls := [ResetCall(false)];
      OneCall(c.sync, calls[0]);
    case DepthStep(u, now, fetches) =>
      calls := DepthCalls(c, u, now, fetches, cfg);
    case TradeStep(_) =>
      calls := [];
  }

  lemma {:induction false} RunCalls(c: Symbol, steps: seq<CaptureStep>, cfg: Config)
    returns (calls: seq<Call>, done: nat)
    ensures done <= |steps| && (Continues(CaptureRun(c, steps, cfg).result) ==> done == |steps|)
    ensures CaptureRun(c, steps, cfg).symbol.sync == Run(c.sync, calls)
    ensures Outer(calls) == Arrivals(steps[..done])
    decreases steps
  {
    hide Do, Continues, Arrival;
    calls, done := [], 0;
    if steps != [] {
      var one := Do(c, steps[0], cfg);
      done := 1;
      calls := StepCalls(c, steps[0], cfg);
      assert steps[..1][0] == steps[0] && steps[..1][1..] == [];
      assert Arrivals([]) == [] && Arrivals(steps[..1]) == Arrival(steps[0]) + [];
      assert Arrival(steps[0]) + [] == Arrival(steps[0]);
      if Continues(one.result) {
        var more, rest := RunCalls(one.symbol, steps[1..], cfg);
        Joined(c.sync, calls, more);
        calls, done := calls + more, rest + 1;
        assert steps[..done][0] == steps[0] && steps[..done][1..] == steps[1..][..rest];
      }
    }
  }

  /**
   Whatever a capture is fed, its synchronizer has been called with exactly the updates and the
   connection changes that arrived, in order, and otherwise only installed snapshots and preserved
   its buffer; so the buffer is exactly the updates that arrived, were queued, and were since then
   neither cut off by a connection change nor contained in a snapshot or a bridge.
   */
  lemma CaptureBufferIsHeld(capacity: nat, steps: seq<CaptureStep>, cfg: Config)
    returns (calls: seq<Call>, done: nat)
    requires capacity > 0
    ensures done <= |steps| && (Continues(CaptureRun(Start(capacity), steps, cfg).result) ==> done == |steps|)
    ensures Outer(calls) == Arrivals(steps[..done])
    ensures var d := CaptureRun(Start(capacity), steps, cfg).symbol;
            && d.sync == Run(Initial(capacity), calls)
            && d.sync.buffer == HeldUpdates(Initial(capacity), calls, |calls|)
  {
    calls, done := RunCalls(Start(capacity), steps, cfg);
    BufferIsWhatIsHeld(capacity, calls);
  }

  // ----- a hole and its bridge

  /** Only this update is buffered and the snapshot is one that it spans. */
  lemma SpanningBridge(s: Sync, u: DepthUpdate, snapshot: Snapshot)
    requires s.buffer == [u] && Sound(Installed(snapshot)) && Sound(Applied(Installed(snapshot), u))
    requires u.firstUpdateId <= snapshot.lastUpdateId + 1 <= u.finalUpdateId
    ensures Install(s, snapshot) ==
            Step(Sync(Applied(Installed(snapshot), u), Live, [], s.capacity, s.resetCount),
                 Ok(InstallResult(Synchronized, 0, [u])))
  {
    hide Sound, Applied;
    var live := s.(book := Installed(snapshot), state := Live, buffer := []);
    var done := live.(book := Applied(Installed(snapshot), u));
    assert Retained(s.buffer, snapshot.lastUpdateId) == s.buffer;
    assert ApplyLive(live, u) == Step(done, Ok(Accepted));
    assert [u][1..] == [] && [u] + [] == [u];
    assert ApplyPending(done, []) == Step(done, Ok((Synchronized, [])));
    assert ApplyPending(live, [u]) == Step(done, Ok((Synchronized, [u])));
  }

  /** The checkpoint that may follow the bridge is not due, or is one the writer accepts. */
  predicate CheckpointPossible(c: Symbol, events: nat, book: Book, cfg: Config) {
    || c.depthSinceCheckpoint + 1 < cfg.checkpointInterval
    || (1 <= events <= UINT64_MAX && book.lastUpdateId > 0 && cfg.hash(book) > 0
        && (c.log.checkpoints != [] ==> c.log.checkpoints[|c.log.checkpoints| - 1].eventIndex < events))
  }

  /** A single update bridged: the snapshot and the update are recorded and the capture is live. */
  lemma BridgeRecords(c: Symbol, u: DepthUpdate, snapshot: Snapshot, now: PosU64, cfg: Config)
    requires c.sync.buffer == [u] && Sound(Installed(snapshot)) && Sound(Applied(Installed(snapshot), u))
    requires u.firstUpdateId <= snapshot.lastUpdateId + 1 <= u.finalUpdateId
    requires Writable(SnapshotEvent(snapshot)) && Writable(DepthEvent(u))
    ensures var r := InstallAndRecord(c, snapshot, now, cfg);
            var book := Applied(Installed(snapshot), u);
            && r.symbol.sync == Sync(book, Live, [], c.sync.capacity, c.sync.resetCount)
            && r.symbol.log.events == c.log.events + [SnapshotEvent(snapshot), DepthEvent(u)]
            && r.symbol.pending == None
            && r.result == if CheckpointPossible(c, |c.log.events| + 2, book, cfg) then Ok(Synchronized)
                           else Err(WriteFailed(InvalidCheckpoint))
  {
    SpanningBridge(c.sync, u, snapshot);
    hide Sound, Applied, Installed, Install, Writable;
    var k := SnapshotRecorded(c, snapshot);
    var one := RecordApplied(k, u, cfg);
    assert one.symbol.log.events == c.log.events + [SnapshotEvent(snapshot), DepthEvent(u)];
    assert [u][1..] == [];
    assert one.result.Ok? ==> RecordAll(one.symbol, [], cfg) == one;
    assert RecordAll(k, [u], cfg) == one;
  }

  /**
   A live capture meets a hole and the next fetched snapshot is sound and spanned by the update that
   revealed the hole. The update is not lost: the capture is live again at its identifier, and the
   recording gained the gap, the snapshot and the update, in this order.
   */
  lemma HoleIsBridged(
    c: Symbol, u: DepthUpdate, now: PosU64, fetches: seq<Fetch>, cfg: Config)
    requires BufferInvariant(c.sync) && c.sync.state == Live && cfg.attemptLimit > 0
    requires c.sync.book.lastUpdateId + 1 < u.firstUpdateId
    requires fetches != []
    requires var snapshot := fetches[0].snapshot;
             && Sound(Installed(snapshot)) && Sound(Applied(Installed(snapshot), u))
             && u.firstUpdateId <= snapshot.lastUpdateId + 1 <= u.finalUpdateId
             && Writable(SnapshotEvent(snapshot)) && Writable(DepthEvent(u))
    ensures var r := OnDepth(c, u, now, fetches, cfg);
            var snapshot := fetches[0].snapshot;
            var book := Applied(Installed(snapshot), u);
            && r.symbol.sync.state == Live && r.symbol.sync.buffer == []
            && r.symbol.sync.book == book && book.lastUpdateId == u.finalUpdateId
            && r.symbol.log.events ==
                 c.log.events + [BoundaryEvent(u.receipt, SequenceGap), SnapshotEvent(snapshot), DepthEvent(u)]
            && r.result == if CheckpointPossible(c, |c.log.events| + 3, book, cfg) then Ok(true)
                           else Err(WriteFailed(InvalidCheckpoint))
  {
    hide Sound, Writable, InstallAndRecord;
    var snapshot := fetches[0].snapshot;
    var met := c.sync.(state := Gap, buffer := [u]);
    assert Ingest(c.sync, u) == Step(met, Ok(GapDetected)) by {
      assert [] + [u] == [u];
    }
    hide Ingest, Applied, Installed;
    var g := GapMarked(c.(sync := met), u.receipt);
    GapKeepsBuffer(c.(sync := met), u.receipt);
    BridgeRecords(g, u, snapshot, fetches[0].now, cfg);
    AppliedAt(Installed(snapshot), u);
    assert g.log.events + [SnapshotEvent(snapshot), DepthEvent(u)] ==
           c.log.events + [BoundaryEvent(u.receipt, SequenceGap), SnapshotEvent(snapshot), DepthEvent(u)];
    assert Synchronize(g, now, fetches, cfg) == Attempts(g, fetches, cfg.attemptLimit, cfg);
  }

  /**
   A capture that waits with a snapshot uses it for the next update that spans it, and fetches
   nothing: whatever the service would answer, the capture is live at that update.
   */
  lemma PendingBridges(
    c: Symbol, snapshot: Snapshot, u: DepthUpdate, now: PosU64, fetches: seq<Fetch>, cfg: Config)
    requires BufferInvariant(c.sync) && c.sync.state != Live && c.sync.buffer == []
    requires c.pending == Some(snapshot)
    requires Sound(Installed(snapshot)) && Sound(Applied(Installed(snapshot), u))
    requires u.firstUpdateId <= snapshot.lastUpdateId + 1 <= u.finalUpdateId
    requires Writable(SnapshotEvent(snapshot)) && Writable(DepthEvent(u))
    ensures var r := OnDepth(c, u, now, fetches, cfg);
            var book := Applied(Installed(snapshot), u);
            && r.symbol.sync == Sync(book, Live, [], c.sync.capacity, c.sync.resetCount)
            && r.symbol.pending == None
            && r.symbol.log.events == c.log.events + [SnapshotEvent(snapshot), DepthEvent(u)]
            && r.result == if CheckpointPossible(c, |c.log.events| + 2, book, cfg) then Ok(true)
                           else Err(WriteFailed(InvalidCheckpoint))
  {
    hide Sound, Writable, InstallAndRecord, Applied, Installed;
    var k := c.(sync := c.sync.(buffer := [u]));
    assert Ingest(c.sync, u) == Step(k.sync, Ok(Buffered)) by {
      assert [] + [u] == [u];
    }
    hide Ingest;
    BridgeRecords(k, u, snapshot, now, cfg);
    assert Synchronize(k, now, fetches, cfg) ==
           var one := InstallAndRecord(k, snapshot, now, cfg);
           Outcome(one.symbol, if one.result.Err? then Err(one.result.error) else Ok(true));
  }

  /** A sound snapshot that contains all that is buffered is kept until an update comes; nothing is recorded. */
  lemma SnapshotWaits(c: Symbol, snapshot: Snapshot, now: PosU64, cfg: Config)
    requires Sound(Installed(snapshot))
    requires forall u | u in c.sync.buffer :: u.finalUpdateId <= snapshot.lastUpdateId
    ensures var r := InstallAndRecord(c, snapshot, now, cfg);
            && r.result == Ok(AwaitingBridge)
            && r.symbol == c.(pending := Some(snapshot),
                              sync := Sync(Installed(snapshot), AwaitingSnapshot, [], c.sync.capacity, c.sync.resetCount))
  {
    hide Sound, Installed;
    var kept := Retained(c.sync.buffer, snapshot.lastUpdateId);
    RetainedIsSuffix(c.sync.buffer, snapshot.lastUpdateId);
    assert forall i | 0 <= i < |c.sync.buffer| :: c.sync.buffer[i] in c.sync.buffer;
  }

  // ----- snapshots that are too old

  /** The snapshot ends before the update before the first buffered one. */
  predicate TooOld(s: Sync, snapshot: Snapshot) {
    s.buffer != [] && snapshot.lastUpdateId + 1 < s.buffer[0].firstUpdateId
  }

  function Retries(fetches: seq<Fetch>): seq<Event> {
    seq(|fetches|, i requires 0 <= i < |fetches| => BoundaryEvent(fetches[i].now, SnapshotRetry))
  }

  lemma TooOldRetries(c: Symbol, snapshot: Snapshot, now: PosU64, cfg: Config)
    requires TooOld(c.sync, snapshot)
    ensures var r := InstallAndRecord(c, snapshot, now, cfg);
            && r.result == Ok(SnapshotTooOld) && r.symbol.sync == c.sync && r.symbol.pending == None
            && r.symbol.snapshotRetries == c.snapshotRetries + 1
            && r.symbol.log == Log(c.log.events + [BoundaryEvent(now, SnapshotRetry)], c.log.checkpoints)
  {
    assert Retained(c.sync.buffer, snapshot.lastUpdateId) == c.sync.buffer;
  }

  /**
   While the fetched snapshots are too old, each is answered by one retry boundary and nothing else
   changes; when the attempts or the answers run out on them, the capture raises with the buffer kept.
   */
  lemma {:induction false} OldSnapshotsExhaust(c: Symbol, fetches: seq<Fetch>, attempts: nat, cfg: Config)
    requires c.sync.buffer != []
    requires forall f | f in fetches :: TooOld(c.sync, f.snapshot)
    ensures var r, n := Attempts(c, fetches, attempts, cfg), if |fetches| < attempts then |fetches| else attempts;
            && r.result == Err(if |fetches| < attempts then FetchFailed else AttemptsExhausted)
            && r.symbol.sync == c.sync && r.symbol.log.checkpoints == c.log.checkpoints
            && r.symbol.log.events == c.log.events + Retries(fetches[..n])
            && r.symbol.snapshotRetries == c.snapshotRetries + n
    decreases attempts
  {
    hide InstallAndRecord, TooOld;
    if attempts > 0 && fetches != [] {
      var one := InstallAndRecord(c, fetches[0].snapshot, fetches[0].now, cfg);
      assert fetches[0] in fetches && forall f | f in fetches[1..] :: f in fetches;
      TooOldRetries(c, fetches[0].snapshot, fetches[0].now, cfg);
      OldSnapshotsExhaust(one.symbol, fetches[1..], attempts - 1, cfg);
      var n := if |fetches| < attempts then |fetches| else attempts;
      assert Retries(fetches[..n]) == Retries(fetches[..1]) + Retries(fetches[1..][..n - 1]);
      assert Retries(fetches[..1]) == [BoundaryEvent(fetches[0].now, SnapshotRetry)];
    }
  }

  // ----- what a depth event returns

  /** Live with something recorded since: what true means. */
  predicate RecordedLive(c: Symbol, d: Symbol) {
    d.sync.state == Live && |d.log.events| > |c.log.events|
  }

  lemma {:induction false} RecordAllGrows(c: Symbol, updates: seq<DepthUpdate>, cfg: Config)
    ensures |RecordAll(c, updates, cfg).symbol.log.events| >= |c.log.events|
    decreases updates
  {
    hide Writable, CheckpointAccepted;
    if updates != [] {
      RecordAllGrows(RecordApplied(c, updates[0], cfg).symbol, updates[1..], cfg);
    }
  }

  lemma AttemptGrows(c: Symbol, snapshot: Snapshot, now: PosU64, cfg: Config)
    ensures var r := InstallAndRecord(c, snapshot, now, cfg);
            && |r.symbol.log.events| >= |c.log.events|
            && (r.result == Ok(Synchronized) ==> |r.symbol.log.events| > |c.log.events|)
  {
    hide Install, RecordAll, Writable;
    var step := Install(c.sync, snapshot);
    if step.outcome.Ok? {
      RecordAllGrows(SnapshotRecorded(c, snapshot), step.outcome.value.applied, cfg);
    }
  }

  lemma {:induction false} AttemptsReturn(c: Symbol, fetches: seq<Fetch>, attempts: nat, cfg: Config)
    requires CaptureInvariant(c, cfg) && c.sync.state != Live
    ensures var r := Attempts(c, fetches, attempts, cfg);
            && |r.symbol.log.events| >= |c.log.events|
            && (r.result == Ok(true) ==> RecordedLive(c, r.symbol))
            && (r.result == Ok(false) ==> r.symbol.sync.state != Live)
    decreases attempts
  {
    hide InstallAndRecord, CaptureInvariant, OnlyBoundaries, Follows, Stops;
    if attempts > 0 && fetches != [] {
      var one := InstallAndRecord(c, fetches[0].snapshot, fetches[0].now, cfg);
      AttemptGrows(c, fetches[0].snapshot, fetches[0].now, cfg);
      InstallAndRecordReplays(c, fetches[0].snapshot, fetches[0].now, cfg);
      if one.result == Ok(SnapshotTooOld) || one.result == Ok(BridgeGap) {
        AttemptsReturn(one.symbol, fetches[1..], attempts - 1, cfg);
      }
    }
  }

  lemma SynchronizeReturns(c: Symbol, now: PosU64, fetches: seq<Fetch>, cfg: Config)
    requires CaptureInvariant(c, cfg) && c.sync.state != Live
    ensures var r := Synchronize(c, now, fetches, cfg);
            && |r.symbol.log.events| >= |c.log.events|
            && (r.result == Ok(true) ==> RecordedLive(c, r.symbol))
            && (r.result == Ok(false) ==> r.symbol.sync.state != Live)
  {
    hide InstallAndRecord, Attempts, CaptureInvariant, OnlyBoundaries, Follows, Stops;
    AttemptsReturn(c, fetches, cfg.attemptLimit, cfg);
    if c.pending.Some? {
      var one := InstallAndRecord(c, c.pending.value, now, cfg);
      AttemptGrows(c, c.pending.value, now, cfg);
      InstallAndRecordReplays(c, c.pending.value, now, cfg);
      if one.result == Ok(SnapshotTooOld) || one.result == Ok(BridgeGap) {
        AttemptsReturn(one.symbol, fetches, cfg.attemptLimit, cfg);
      }
    }
  }

  /** A depth event that returns says whether the capture is live and has recorded something for it. */
  lemma DepthReturns(c: Symbol, u: DepthUpdate, now: PosU64, fetches: seq<Fetch>, cfg: Config)
    requires CaptureInvariant(c, cfg)
    ensures var r := OnDepth(c, u, now, fetches, cfg);
            r.result.Ok? ==> (r.result.value <==> RecordedLive(c, r.symbol))
  {
    hide AllHold, NoStaleDepth, IndicesGrow, Synchronize, Sound, Applied;
    var step := Ingest(c.sync, u);
    var k := c.(sync := step.sync);
    StepKeepsBuffer(c.sync, IngestCall(u));
    if step.outcome == Ok(Buffered) {
      NothingRecorded(c, k, cfg);
      SynchronizeReturns(k, now, fetches, cfg);
    } else if step.outcome == Ok(GapDetected) {
      var g := GapMarked(k, u.receipt);
      BoundaryRecorded(c, g, BoundaryEvent(u.receipt, SequenceGap), cfg);
      SynchronizeReturns(g, now, fetches, cfg);
    }
  }

  // ----- counters and recorded boundaries

  /** What the recording says about the stream besides its books. */
  datatype Tally = Tally(
    gaps: nat, retries: nat, connections: seq<BoundaryReason>, trades: seq<Trade>, endings: nat)

  function TallyOf(events: seq<Event>): Tally {
    if events == [] then Tally(0, 0, [], [], 0)
    else
      var t := TallyOf(events[..|events| - 1]);
      match events[|events| - 1]
      case BoundaryEvent(_, SequenceGap) => t.(gaps := t.gaps + 1)
      case BoundaryEvent(_, SnapshotRetry) => t.(retries := t.retries + 1)
      case BoundaryEvent(_, ConnectionStart) => t.(connections := t.connections + [ConnectionStart])
      case BoundaryEvent(_, ConnectionEnd) => t.(connections := t.connections + [ConnectionEnd])
      case BoundaryEvent(_, _) => t.(endings := t.endings + 1)
      case TradeEvent(trade) => t.(trades := t.trades + [trade])
      case _ => t
  }

  /**
   Every counter is the number of boundaries recorded for it, and every reset is one of them; the
   boundaries of a finish are not recorded before it.
   */
  predicate Counted(c: Symbol) {
    var t := TallyOf(c.log.events);
    && c.sequenceGaps == t.gaps
    && c.snapshotRetries == t.retries
    && c.sync.resetCount == t.gaps + |t.connections|
    && t.endings == 0
  }

  /** Neither trades nor connection changes were recorded or discarded from c to d. */
  predicate SameTraffic(c: Symbol, d: Symbol) {
    && TallyOf(d.log.events).trades == TallyOf(c.log.events).trades
    && TallyOf(d.log.events).connections == TallyOf(c.log.events).connections
    && d.discardedTrades == c.discardedTrades
  }

  lemma TallyAppends(c: Symbol, e: Event)
    ensures TallyOf(Appended(c, e).log.events) ==
            var t := TallyOf(c.log.events);
            match e
            case BoundaryEvent(_, SequenceGap) => t.(gaps := t.gaps + 1)
            case BoundaryEvent(_, SnapshotRetry) => t.(retries := t.retries + 1)
            case BoundaryEvent(_, ConnectionStart) => t.(connections := t.connections + [ConnectionStart])
            case BoundaryEvent(_, ConnectionEnd) => t.(connections := t.connections + [ConnectionEnd])
            case BoundaryEvent(_, _) => t.(endings := t.endings + 1)
            case TradeEvent(trade) => t.(trades := t.trades + [trade])
            case _ => t
  {
    var events := c.log.events + [e];
    assert events[..|events| - 1] == c.log.events;
  }

  lemma {:induction false} RecordAllTallies(c: Symbol, updates: seq<DepthUpdate>, cfg: Config)
    ensures var d := RecordAll(c, updates, cfg).symbol;
            && TallyOf(d.log.events) == TallyOf(c.log.events) && d.discardedTrades == c.discardedTrades
            && d.sequenceGaps == c.sequenceGaps && d.snapshotRetries == c.snapshotRetries
            && d.sync.resetCount == c.sync.resetCount
    decreases updates
  {
    hide TallyOf, Writable;
    if updates != [] {
      TallyAppends(c, DepthEvent(updates[0]));
      RecordAllTallies(RecordApplied(c, updates[0], cfg).symbol, updates[1..], cfg);
    }
  }

  lemma {:induction false} CallsKeepResets(s: Sync, pending: seq<DepthUpdate>)
    ensures ApplyPending(s, pending).sync.resetCount == s.resetCount
    decreases pending
  {
    hide Sound, Applied;
    if pending != [] {
      CallsKeepResets(ApplyLive(s, pending[0]).sync, pending[1..]);
    }
  }

  lemma InstallKeepsResets(s: Sync, snapshot: Snapshot)
    ensures Install(s, snapshot).sync.resetCount == s.resetCount
  {
    hide Sound, Installed, ApplyPending;
    CallsKeepResets(
      s.(book := Installed(snapshot), state := Live, buffer := []), Retained(s.buffer, snapshot.lastUpdateId));
  }

  lemma AttemptCounts(c: Symbol, snapshot: Snapshot, now: PosU64, cfg: Config)
    requires Counted(c)
    ensures var d := InstallAndRecord(c, snapshot, now, cfg).symbol; Counted(d) && SameTraffic(c, d)
  {
    hide Install, RecordAll, TallyOf;
    InstallKeepsResets(c.sync, snapshot);
    var step := Install(c.sync, snapshot);
    var k := c.(sync := step.sync);
    TallyAppends(k, BoundaryEvent(now, SnapshotRetry));
    TallyAppends(k, BoundaryEvent(now, SequenceGap));
    TallyAppends(k, SnapshotEvent(snapshot));
    if step.outcome.Ok? {
      RecordAllTallies(SnapshotRecorded(c, snapshot), step.outcome.value.applied, cfg);
    }
  }

  lemma {:induction false} AttemptsCount(c: Symbol, fetches: seq<Fetch>, attempts: nat, cfg: Config)
    requires Counted(c)
    ensures var d := Attempts(c, fetches, attempts, cfg).symbol; Counted(d) && SameTraffic(c, d)
    decreases attempts
  {
    hide InstallAndRecord, Counted, TallyOf;
    if attempts > 0 && fetches != [] {
      AttemptCounts(c, fetches[0].snapshot, fetches[0].now, cfg);
      AttemptsCount(
        InstallAndRecord(c, fetches[0].snapshot, fetches[0].now, cfg).symbol, fetches[1..], attempts - 1, cfg);
    }
  }

  lemma SynchronizeCounts(c: Symbol, now: PosU64, fetches: seq<Fetch>, cfg: Config)
    requires Counted(c)
    ensures var d := Synchronize(c, now, fetches, cfg).symbol; Counted(d) && SameTraffic(c, d)
  {
    hide InstallAndRecord, Attempts, Counted, TallyOf;
    AttemptsCount(c, fetches, cfg.attemptLimit, cfg);
    if c.pending.Some? {
      AttemptCounts(c, c.pending.value, now, cfg);
      AttemptsCount(InstallAndRecord(c, c.pending.value, now, cfg).symbol, fetches, cfg.attemptLimit, cfg);
    }
  }

  lemma DepthCounts(c: Symbol, u: DepthUpdate, now: PosU64, fetches: seq<Fetch>, cfg: Config)
    requires Counted(c)
    ensures var d := OnDepth(c, u, now, fetches, cfg).symbol; Counted(d) && SameTraffic(c, d)
  {
    hide Synchronize, TallyOf, Sound, Applied;
    var step := Ingest(c.sync, u);
    var k := c.(sync := step.sync);
    assert step.sync.resetCount == c.sync.resetCount;
    hide Ingest;
    TallyAppends(k, BoundaryEvent(u.receipt, SequenceGap));
    if step.outcome == Ok(Accepted) {
      RecordAllTallies(k, [u], cfg);
      assert [u][1..] == [];
      var one := RecordApplied(k, u, cfg);
      assert one.result.Ok? ==> RecordAll(one.symbol, [], cfg).symbol == one.symbol;
      assert RecordAll(k, [u], cfg).symbol == one.symbol;
    } else if step.outcome == Ok(GapDetected) {
      SynchronizeCounts(GapMarked(k, u.receipt), now, fetches, cfg);
    } else if step.outcome == Ok(Buffered) {
      SynchronizeCounts(k, now, fetches, cfg);
    }
  }

  /** The trades that arrive while the capture is live, and the number of those that do not. */
  function LiveTrades(c: Symbol, steps: seq<CaptureStep>, cfg: Config): (seq<Trade>, nat)
    decreases steps
  {
    if steps == [] then ([], 0)
    else
      var one := Do(c, steps[0], cfg);
      var rest := if Continues(one.result) then LiveTrades(one.symbol, steps[1..], cfg) else ([], 0);
      if !steps[0].TradeStep? then rest
      else if c.sync.state == Live then ([steps[0].trade] + rest.0, rest.1)
      else (rest.0, rest.1 + 1)
  }

  /** The connection changes among the steps performed. */
  function ConnectionsOf(c: Symbol, steps: seq<CaptureStep>, cfg: Config): seq<BoundaryReason>
    decreases steps
  {
    if steps == [] then []
    else
      var one := Do(c, steps[0], cfg);
      var rest := if Continues(one.result) then ConnectionsOf(one.symbol, steps[1..], cfg) else [];
      if !steps[0].ConnectionStep? then rest
      else [if steps[0].connected then ConnectionStart else ConnectionEnd] + rest
  }

  lemma {:induction false} RunCounts(c: Symbol, steps: seq<CaptureStep>, cfg: Config)
    requires Counted(c)
    ensures var d := CaptureRun(c, steps, cfg).symbol;
            && Counted(d)
            && TallyOf(d.log.events).trades == TallyOf(c.log.events).trades + LiveTrades(c, steps, cfg).0
            && d.discardedTrades == c.discardedTrades + LiveTrades(c, steps, cfg).1
            && TallyOf(d.log.events).connections == TallyOf(c.log.events).connections + ConnectionsOf(c, steps, cfg)
    decreases steps
  {
    hide OnDepth, TallyOf, Counted;
    if steps == [] {
      assert TallyOf(c.log.events).trades + [] == TallyOf(c.log.events).trades;
      assert TallyOf(c.log.events).connections + [] == TallyOf(c.log.events).connections;
    } else {
      var one := Do(c, steps[0], cfg);
      StepCounts(c, steps[0], cfg);
      if Continues(one.result) {
        RunCounts(one.symbol, steps[1..], cfg);
      }
    }
  }

  /** One step: a trade is recorded or counted, a connection change recorded, a depth event neither. */
  lemma StepCounts(c: Symbol, step: CaptureStep, cfg: Config)
    requires Counted(c)
    ensures var d := Do(c, step, cfg).symbol;
            && Counted(d)
            && TallyOf(d.log.events).trades == TallyOf(c.log.events).trades +
                 (if step.TradeStep? && c.sync.state == Live then [step.trade] else [])
            && d.discardedTrades == c.discardedTrades +
                 (if step.TradeStep? && c.sync.state != Live then 1 else 0)
            && TallyOf(d.log.events).connections == TallyOf(c.log.events).connections +
                 (if step.ConnectionStep? then [if step.connected then ConnectionStart else ConnectionEnd] else [])
  {
    hide OnDepth, TallyOf;
    match step
    case ConnectionStep(receipt, connected) =>
      TallyAppends(c, BoundaryEvent(receipt, if connected then ConnectionStart else ConnectionEnd));
    case DepthStep(u, now, fetches) =>
      DepthCounts(c, u, now, fetches, cfg);
    case TradeStep(t) =>
      TallyAppends(c, TradeEvent(t));
  }

  /**
   At the end of every run the recording names every gap, every refused snapshot and every change of
   connection that the counters and the resets stand for, and holds, in order, exactly the trades
   that arrived while the capture was live; the others are counted, one by one.
   */
  lemma CaptureCounts(capacity: nat, steps: seq<CaptureStep>, cfg: Config)
    ensures var d := CaptureRun(Start(capacity), steps, cfg).symbol;
            var t := TallyOf(d.log.events);
            && d.sequenceGaps == t.gaps && d.snapshotRetries == t.retries
            && d.sync.resetCount == t.gaps + |t.connections| && t.endings == 0
            && t.connections == ConnectionsOf(Start(capacity), steps, cfg)
            && t.trades == LiveTrades(Start(capacity), steps, cfg).0
            && d.discardedTrades == LiveTrades(Start(capacity), steps, cfg).1
  {
    hide CaptureRun, LiveTrades, ConnectionsOf;
    RunCounts(Start(capacity), steps, cfg);
    assert [] + LiveTrades(Start(capacity), steps, cfg).0 == LiveTrades(Start(capacity), steps, cfg).0;
    assert [] + ConnectionsOf(Start(capacity), steps, cfg) == ConnectionsOf(Start(capacity), steps, cfg);
  }
}
