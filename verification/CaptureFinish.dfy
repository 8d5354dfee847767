/** Finalising a capture: the stop boundary, the last checkpoint and the completeness rule. */
module CaptureFinish {
  import opened Results
  import opened L2Types
  import opened OrderBook
  import opened Synchronizer
  import opened Recording
  import opened Capture
  import opened CaptureProperties
  import opened CaptureLosses
  import opened CaptureExchange
  import opened Listing
  import opened Bits
  import opened Layouts
  import opened NativeBook
  import opened NativeBookProperties

  datatype FinishError = CheckpointRefused | FinalCheckpointMismatch

  datatype Finished = Finished(log: Log, finalUpdateId: U64, finalStateHash: U64, dataComplete: bool)

  datatype Counters = Counters(cleanShutdown: bool, queueDrops: nat, malformed: nat)

  predicate DataComplete(log: Log, k: Counters, finalUpdateId: U64, finalStateHash: U64) {
    && k.cleanShutdown && k.queueDrops == 0 && k.malformed == 0
    && log.events != []
    && Count(log.events, SnapshotKind) > 0
    && Count(log.events, DepthKind) > 0
    && log.checkpoints != []
    && finalUpdateId > 0 && finalStateHash > 0
  }

  /** The stop boundary, after an overflow boundary when the queue dropped events. */
  function Stopped(log: Log, k: Counters, now: PosU64): Log {
    log.(events := log.events + (if k.queueDrops > 0 then [BoundaryEvent(now, QueueOverflow)] else [])
                   + [BoundaryEvent(now, UserStop)])
  }

  function Finish(c: Symbol, k: Counters, now: PosU64, hash: Book -> U64): Result<Finished, FinishError> {
    var stopped := Stopped(c.log, k, now);
    var id := c.sync.book.lastUpdateId;
    var h := if id > 0 then hash(c.sync.book) else 0;
    if id > 0 && !CheckpointAccepted(stopped, id, h) then Err(CheckpointRefused)
    else
      var log := if id > 0 then
                   stopped.(checkpoints := stopped.checkpoints + [Checkpoint(|stopped.events|, id, h)])
                 else stopped;
      var complete := DataComplete(log, k, id, h);
      if complete && log.checkpoints[|log.checkpoints| - 1] != Checkpoint(|log.events|, id, h) then
        Err(FinalCheckpointMismatch)
      else Ok(Finished(log, id, h, complete))
  }

  predicate HoldsSnapshot(events: seq<Event>) {
    exists i | 0 <= i < |events| :: events[i].SnapshotEvent?
  }

  predicate HoldsDepth(events: seq<Event>) {
    exists i | 0 <= i < |events| :: events[i].DepthEvent?
  }

  /** The counters of the writer are positive exactly when an event of their kind was written. */
  lemma {:induction false} CountIff(events: seq<Event>)
    ensures Count(events, SnapshotKind) > 0 <==> HoldsSnapshot(events)
    ensures Count(events, DepthKind) > 0 <==> HoldsDepth(events)
    decreases |events|
  {
    if events != [] {
      var n := |events| - 1;
      CountIff(events[..n]);
      forall i | 0 <= i < n
        ensures events[..n][i] == events[i]
      {
      }
      if HoldsSnapshot(events[..n]) {
        var i :| 0 <= i < n && events[..n][i].SnapshotEvent?;
        assert events[i].SnapshotEvent?;
      }
      if HoldsDepth(events[..n]) {
        var i :| 0 <= i < n && events[..n][i].DepthEvent?;
        assert events[i].DepthEvent?;
      }
    }
  }

  /**
   A finished recording is labelled complete exactly when the shutdown was clean, nothing was
   dropped or malformed, the recording holds a snapshot, an update and a checkpoint, and the final
   book has a positive identifier and a positive fingerprint.
   */
  lemma CompleteIff(c: Symbol, k: Counters, now: PosU64, hash: Book -> U64)
    requires Finish(c, k, now, hash).Ok?
    ensures var f := Finish(c, k, now, hash).value;
            f.dataComplete <==>
              && k.cleanShutdown && k.queueDrops == 0 && k.malformed == 0
              && (exists i | 0 <= i < |f.log.events| :: f.log.events[i].SnapshotEvent?)
              && (exists i | 0 <= i < |f.log.events| :: f.log.events[i].DepthEvent?)
              && f.log.checkpoints != []
              && f.finalUpdateId > 0 && f.finalStateHash > 0
  {
    hide Count;
    CountIff(Finish(c, k, now, hash).value.log.events);
  }

  method FinishCapture(cap: SymbolCapture, k: Counters, now: PosU64) returns (r: Result<Finished, FinishError>)
    requires cap.writer.Valid()
    modifies cap.writer
    ensures r == Finish(old(cap.View()), k, now, cap.hash)
    ensures r.Ok? ==>
      (r.value.dataComplete <==>
        && k.cleanShutdown && k.queueDrops == 0 && k.malformed == 0
        && HoldsSnapshot(r.value.log.events) && HoldsDepth(r.value.log.events)
        && r.value.log.checkpoints != [] && r.value.finalUpdateId > 0 && r.value.finalStateHash > 0)
  {
    if k.queueDrops > 0 {
      var _ := cap.writer.Write(BoundaryEvent(now, QueueOverflow));
    }
    var _ := cap.writer.Write(BoundaryEvent(now, UserStop));
    assert cap.writer.View() == Stopped(old(cap.writer.View()), k, now) by {
      assert old(cap.writer.events) + [] == old(cap.writer.events);
    }
    var book := cap.synchronizer.book;
    var id := book.lastUpdateId;
    var h := if id > 0 then cap.hash(Book(book.bids, book.asks, book.lastUpdateId)) else 0;
    if id > 0 {
      var marked := cap.writer.WriteCheckpoint(id, h);
      if marked.Err? {
        return Err(CheckpointRefused);
      }
    }
    var w := cap.writer;
    var complete := k.cleanShutdown && k.queueDrops == 0 && k.malformed == 0
                    && w.eventCount > 0 && w.snapshotCount > 0 && w.depthCount > 0 && w.checkpointCount > 0
                    && id > 0 && h > 0;
    assert complete == DataComplete(w.View(), k, id, h);
    CountIff(w.events);
    if complete && w.checkpoints[|w.checkpoints| - 1] != Checkpoint(w.eventCount, id, h) {
      return Err(FinalCheckpointMismatch);
    }
    return Ok(Finished(Log(w.events, w.checkpoints), id, h, complete));
  }

  /** What the verifying replay accepts for a finished recording. */
  predicate Verifies(f: Finished, hash: Book -> U64) {
    Accepts(f.log, hash, f.finalUpdateId, f.finalStateHash)
  }

  /** Replay clears its book at the stop boundary, so the last checkpoint is compared with nothing. */
  lemma FinalCheckpointIsRefused(c: Symbol, k: Counters, now: PosU64, hash: Book -> U64)
    requires Finish(c, k, now, hash).Ok? && c.sync.book.lastUpdateId > 0
    ensures !Verifies(Finish(c, k, now, hash).value, hash)
  {
    var log := Finish(c, k, now, hash).value.log;
    var n := |log.events|;
    assert log.events[n - 1] == BoundaryEvent(now, UserStop);
    assert Find(log.checkpoints, n) == Some(log.checkpoints[|log.checkpoints| - 1]);
  }

  /**
   No recording finished with data_complete passes the verifying replay: completeness needs a
   positive final identifier, and then the checkpoint written after the stop boundary fails.
   */
  lemma CompleteRecordingIsRefused(c: Symbol, k: Counters, now: PosU64, hash: Book -> U64)
    requires Finish(c, k, now, hash).Ok? && Finish(c, k, now, hash).value.dataComplete
    ensures !Verifies(Finish(c, k, now, hash).value, hash)
  {
    FinalCheckpointIsRefused(c, k, now, hash);
  }

  /**
   Exactly which finished captures the verifying replay accepts: those that end with a cleared book
   whose fingerprint is the zero written in the metadata, and whose batches fit.
   */
  lemma FinishedVerifiesIff(
    capacity: nat, steps: seq<CaptureStep>, cfg: Config, k: Counters, now: PosU64)
    requires capacity > 0 && cfg.checkpointInterval > 0
    requires Finish(CaptureRun(Start(capacity), steps, cfg).symbol, k, now, cfg.hash).Ok?
    ensures var d := CaptureRun(Start(capacity), steps, cfg).symbol;
            Verifies(Finish(d, k, now, cfg.hash).value, cfg.hash) <==>
              && d.sync.book.lastUpdateId == 0 && cfg.hash(EMPTY) == 0
              && EveryBatchFits(Start(capacity), steps, cfg)
  {
    hide CaptureRun, EveryBatchFits, Rebuilt;
    var d := CaptureRun(Start(capacity), steps, cfg).symbol;
    CaptureReplaysIff(capacity, steps, cfg);
    if d.sync.book.lastUpdateId > 0 {
      FinalCheckpointIsRefused(d, k, now, cfg.hash);
    } else {
      StopBoundariesReplay(d.log, k, now, cfg.hash);
    }
  }

  /** The fingerprint of the code: FNV-1a over the identifier, the counts and the levels. */
  function Fingerprint(b: Book): U64 { MapHash(b) }

  /**
   With the code's own fingerprint no finished recording of any capture passes the verifying replay:
   a book that is not cleared fails at its last checkpoint, and a cleared one is published with the
   fingerprint zero, which the empty book does not have.
   */
  lemma NoFinishedCaptureVerifies(c: Symbol, k: Counters, now: PosU64)
    requires Finish(c, k, now, Fingerprint).Ok?
    ensures !Verifies(Finish(c, k, now, Fingerprint).value, Fingerprint)
  {
    hide MapHash;
    EmptyHashIsOdd();
    if c.sync.book.lastUpdateId > 0 {
      FinalCheckpointIsRefused(c, k, now, Fingerprint);
    } else {
      var log := Finish(c, k, now, Fingerprint).value.log;
      assert log.events[|log.events| - 1] == BoundaryEvent(now, UserStop);
    }
  }

  /** With no checkpoint after the last event, the stop boundaries only clear the replayed book. */
  lemma StopBoundariesReplay(log: Log, k: Counters, now: PosU64, hash: Book -> U64)
    requires IndicesGrow(log)
    ensures var s := Stopped(log, k, now);
            match Replay(log.events, log.checkpoints, hash)
            case Ok(_) => Replay(s.events, s.checkpoints, hash) == Ok(EMPTY)
            case Err(_) => Replay(s.events, s.checkpoints, hash).Err?
  {
    var overflow := if k.queueDrops > 0 then [BoundaryEvent(now, QueueOverflow)] else [];
    var first := log.events + overflow;
    var whole := first + [BoundaryEvent(now, UserStop)];
    FindFinds(log.checkpoints, |first|);
    FindFinds(log.checkpoints, |whole|);
    assert whole[..|whole| - 1] == first;
    if k.queueDrops > 0 {
      assert first[..|first| - 1] == log.events;
    } else {
      assert first == log.events;
    }
    assert forall c | c in log.checkpoints :: c.eventIndex <= |log.events|;
  }

  // ----- a complete recording

  const IMAGE := Snapshot(1, 1, [BID], [ASK])
  const FINAL := Book(map[10 := 5], map[20 := 5], 2)

  /** A capture of one snapshot bridged by one update. */
  function Shortest(hash: Book -> U64): Outcome<bool> {
    CaptureRun(Start(8), [DepthStep(TWO, 1, [Fetch(IMAGE, 1)])], Config(2, 20, hash))
  }

  lemma ShortestBridge()
    ensures Install(Initial(8).(buffer := [TWO]), IMAGE) ==
            Step(Sync(FINAL, Live, [], 8, 0), Ok(InstallResult(Synchronized, 0, [TWO])))
  {
    assert Installed(IMAGE) == Book(map[10 := 5], map[20 := 5], 1) by {
      assert [BID][1..] == [] && [ASK][1..] == [];
      assert SetLevel(map[], BID) == map[10 := 5] && SetLevel(map[], ASK) == map[20 := 5];
      assert SetLevels(map[10 := 5], []) == map[10 := 5] && SetLevels(map[20 := 5], []) == map[20 := 5];
    }
    var live := Sync(Installed(IMAGE), Live, [], 8, 0);
    assert 10 in live.book.bids && 20 in live.book.asks;
    assert Sound(live.book);
    assert Applied(live.book, TWO) == FINAL;
    var d := live.(book := FINAL);
    assert ApplyLive(live, TWO) == Step(d, Ok(Accepted));
    assert [TWO][1..] == [] && ApplyPending(d, []) == Step(d, Ok((Synchronized, [])));
    assert [TWO] + [] == [TWO];
    assert ApplyPending(live, [TWO]) == Step(d, Ok((Synchronized, [TWO])));
    assert Retained([TWO], 1) == [TWO];
  }

  lemma ShortestRecords(hash: Book -> U64)
    ensures var r := Shortest(hash);
            && r.result.Ok?
            && r.symbol.sync == Sync(FINAL, Live, [], 8, 0)
            && r.symbol.log == Log([SnapshotEvent(IMAGE), DepthEvent(TWO)], [])
  {
    var cfg, c := Config(2, 20, hash), Start(8);
    var step := DepthStep(TWO, 1, [Fetch(IMAGE, 1)]);
    var k := c.(sync := c.sync.(buffer := [TWO]));
    assert Ingest(c.sync, TWO) == Step(k.sync, Ok(Buffered)) by {
      assert [] + [TWO] == [TWO];
    }
    ShortestBridge();
    hide Install, Ingest;
    var s := SnapshotRecorded(k, IMAGE);
    var one := RecordApplied(s, TWO, cfg);
    assert one.result.Ok? && one.symbol.log.events == [SnapshotEvent(IMAGE), DepthEvent(TWO)];
    assert [TWO][1..] == [];
    assert RecordAll(one.symbol, [], cfg) == Outcome(one.symbol, Ok(Unit.Unit));
    assert RecordAll(s, [TWO], cfg) == Outcome(one.symbol, Ok(Unit.Unit));
    assert InstallAndRecord(k, IMAGE, 1, cfg) == Outcome(one.symbol, Ok(Synchronized));
    assert Do(c, step, cfg) == Outcome(one.symbol, Ok(true));
    assert [step][1..] == [];
    assert CaptureRun(one.symbol, [], cfg) == Outcome(one.symbol, Ok(true));
  }

  // ----- an update that is in the book and not in the recording

  /** It takes the only ask away. */
  const UNSOUND: DepthUpdate := DepthFields(1, 0, 3, 3, [], [Level(20, 0)])

  /**
   The update after the shortest capture is in the live book, which has become one-sided, and raises;
   what was recorded still replays, to the book before it.
   */
  lemma UnsoundUpdateIsLost(hash: Book -> U64)
    ensures var c, cfg := Shortest(hash).symbol, Config(2, 20, hash);
            var step := DepthStep(UNSOUND, 1, []);
            var r := Do(c, step, cfg);
            && r.result == Err(SyncFailed(InvalidBook)) && StepLoses(c, step, cfg)
            && r.symbol.sync.state == Live && r.symbol.sync.book == Book(map[10 := 5], map[], 3)
            && r.symbol.log == c.log && Rebuilt(r.symbol.log.events) == Ok(FINAL)
  {
    var c, cfg := Shortest(hash).symbol, Config(2, 20, hash);
    ShortestRecords(hash);
    ShortestInvariant(hash);
    UnsoundApplied();
    hide Shortest, CaptureRun, Rebuilt, Applied, CaptureInvariant, Sound;
    var after := Book(map[10 := 5], map[], 3);
    assert Ingest(c.sync, UNSOUND) == Step(c.sync.(book := after), Err(InvalidBook));
    VisibleRebuilt(c, cfg);
  }

  lemma UnsoundApplied()
    ensures Applied(FINAL, UNSOUND) == Book(map[10 := 5], map[], 3) && !Sound(Applied(FINAL, UNSOUND))
  {
    var side, gone := FINAL.asks, Level(20, 0);
    assert [gone][1..] == [];
    assert SetLevel(side, gone) == map[];
    assert SetLevels(map[], []) == map[] && SetLevels(side, [gone]) == map[];
    assert SetLevels(FINAL.bids, []) == FINAL.bids;
  }

  lemma ShortestInvariant(hash: Book -> U64)
    ensures CaptureInvariant(Shortest(hash).symbol, Config(2, 20, hash))
  {
    hide CaptureRun, CaptureInvariant;
    ShortestRecords(hash);
    CaptureReplaysIff(8, [DepthStep(TWO, 1, [Fetch(IMAGE, 1)])], Config(2, 20, hash));
  }

  lemma VisibleRebuilt(c: Symbol, cfg: Config)
    requires CaptureInvariant(c, cfg) && c.sync.state == Live
    ensures Rebuilt(c.log.events) == Ok(c.sync.book)
  {
  }

  /** The capture finishes with data_complete when its last book has a positive fingerprint. */
  lemma CompleteRecordingExists(hash: Book -> U64, now: PosU64)
    requires hash(FINAL) > 0
    ensures var f := Finish(Shortest(hash).symbol, Counters(true, 0, 0), now, hash);
            f.Ok? && f.value.dataComplete
  {
    hide CaptureRun;
    ShortestRecords(hash);
    var events := [SnapshotEvent(IMAGE), DepthEvent(TWO)];
    var stopped := events + [] + [BoundaryEvent(now, UserStop)];
    assert stopped[..2] == events && events[..1] == [SnapshotEvent(IMAGE)] && events[..1][..0] == [];
    assert Count(events[..1], SnapshotKind) == 1 && Count(events, DepthKind) >= 1 && Count(events, SnapshotKind) >= 1;
    assert Count(stopped, SnapshotKind) >= 1 && Count(stopped, DepthKind) >= 1;
  }

  /** With the code's own fingerprint too, and the verifying replay refuses it. */
  lemma CompleteRecordingExistsAndIsRefused(now: PosU64)
    ensures var f := Finish(Shortest(Fingerprint).symbol, Counters(true, 0, 0), now, Fingerprint);
            f.Ok? && f.value.dataComplete && !Verifies(f.value, Fingerprint)
  {
    hide MapHash, CaptureRun, Finish, Verifies, DataComplete;
    FinalHashIsOdd();
    CompleteRecordingExists(Fingerprint, now);
    NoFinishedCaptureVerifies(Shortest(Fingerprint).symbol, Counters(true, 0, 0), now);
  }

  /** Four odd bytes are mixed: two counts of one and two quantities of five. */
  lemma FinalHashIsOdd()
    ensures MapHash(FINAL) % 2 == 1
  {
    hide Listed, MixedAll, BookBytes, Parity, LevelBytes, LittleEndian;
    SingleListed(10, 5, true);
    SingleListed(20, 5, false);
    BookParity(2, [Level(10, 5)], [Level(20, 5)]);
    LevelParity(Level(10, 5));
    LevelParity(Level(20, 5));
    MixParity(FNV_OFFSET, Encoded(FINAL));
  }
}
