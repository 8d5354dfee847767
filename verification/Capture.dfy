/**
 Per-symbol capture: drives the synchronizer, records only what it accepted and marks every break
 in continuity. The functions give the value semantics, the class performs the operations.
 */
module Capture {
  import opened Results
  import opened L2Types
  import opened OrderBook
  import opened Synchronizer
  import opened Recording

  datatype CaptureError =
    | SyncFailed(sync: SyncError)
    | WriteFailed(write: WriteError)
    | FetchFailed
    | AttemptsExhausted

  /** One answer of the snapshot service, with the clock reading taken if it is refused. */
  datatype Fetch = Fetch(snapshot: Snapshot, now: PosU64)

  datatype Config = Config(checkpointInterval: nat, attemptLimit: nat, hash: Book -> U64)

  datatype Symbol = Symbol(
    sync: Sync, log: Log, sequenceGaps: nat, snapshotRetries: nat, discardedTrades: nat,
    depthSinceCheckpoint: nat, pending: Option<Snapshot>)

  datatype Outcome<+T> = Outcome(symbol: Symbol, result: Result<T, CaptureError>)

  function Start(capacity: nat): Symbol {
    Symbol(Initial(capacity), Log([], []), 0, 0, 0, 0, None)
  }

  function Appended(c: Symbol, e: Event): Symbol {
    c.(log := c.log.(events := c.log.events + [e]))
  }

  function ConnectionBoundary(c: Symbol, receipt: PosU64, connected: bool): Symbol {
    Appended(c, BoundaryEvent(receipt, if connected then ConnectionStart else ConnectionEnd))
    .(sync := Reset(c.sync, false), pending := None)
  }

  /** A gap is recorded before the synchronizer starts over with the events it still holds. */
  function GapMarked(c: Symbol, receipt: PosU64): Symbol {
    Appended(c, BoundaryEvent(receipt, SequenceGap))
    .(sequenceGaps := c.sequenceGaps + 1, sync := Reset(c.sync, true), pending := None)
  }

  function RecordApplied(c: Symbol, u: DepthUpdate, cfg: Config): Outcome<Unit> {
    if !Writable(DepthEvent(u)) then Outcome(c, Err(WriteFailed(TooManyLevels)))
    else
      var w := Appended(c, DepthEvent(u)).(depthSinceCheckpoint := c.depthSinceCheckpoint + 1);
      if w.depthSinceCheckpoint < cfg.checkpointInterval then Outcome(w, Ok(Unit.Unit))
      else
        var id, h := w.sync.book.lastUpdateId, cfg.hash(w.sync.book);
        if !CheckpointAccepted(w.log, id, h) then Outcome(w, Err(WriteFailed(InvalidCheckpoint)))
        else
          Outcome(
            w.(log := w.log.(checkpoints := w.log.checkpoints + [Checkpoint(|w.log.events|, id, h)]),
               depthSinceCheckpoint := 0),
            Ok(Unit.Unit))
  }

  function RecordAll(c: Symbol, updates: seq<DepthUpdate>, cfg: Config): Outcome<Unit>
    decreases updates
  {
    if updates == [] then Outcome(c, Ok(Unit.Unit))
    else
      var first := RecordApplied(c, updates[0], cfg);
      if first.result.Err? then first else RecordAll(first.symbol, updates[1..], cfg)
  }

  function InstallAndRecord(c: Symbol, snapshot: Snapshot, now: PosU64, cfg: Config): Outcome<SnapshotResult> {
    var step := Install(c.sync, snapshot);
    var k := c.(sync := step.sync);
    match step.outcome
    case Err(e) => Outcome(k, Err(SyncFailed(e)))
    case Ok(InstallResult(SnapshotTooOld, _, _)) =>
      Outcome(Appended(k, BoundaryEvent(now, SnapshotRetry)).(snapshotRetries := k.snapshotRetries + 1, pending := None),
              Ok(SnapshotTooOld))
    case Ok(InstallResult(BridgeGap, _, _)) =>
      Outcome(GapMarked(k, now), Ok(BridgeGap))
    case Ok(InstallResult(AwaitingBridge, _, _)) =>
      Outcome(k.(pending := Some(snapshot)), Ok(AwaitingBridge))
    case Ok(InstallResult(Synchronized, _, applied)) =>
      if !Writable(SnapshotEvent(snapshot)) then Outcome(k, Err(WriteFailed(TooManyLevels)))
      else
        var recorded := RecordAll(Appended(k, SnapshotEvent(snapshot)).(pending := None), applied, cfg);
        Outcome(recorded.symbol,
                if recorded.result.Err? then Err(recorded.result.error) else Ok(Synchronized))
  }

  /** At most `attempts` fetched snapshots; running out of answers means the fetch itself raised. */
  function Attempts(c: Symbol, fetches: seq<Fetch>, attempts: nat, cfg: Config): Outcome<bool>
    decreases attempts
  {
    if attempts == 0 then Outcome(c, Err(AttemptsExhausted))
    else if fetches == [] then Outcome(c, Err(FetchFailed))
    else
      var one := InstallAndRecord(c, fetches[0].snapshot, fetches[0].now, cfg);
      match one.result
      case Err(e) => Outcome(one.symbol, Err(e))
      case Ok(Synchronized) => Outcome(one.symbol, Ok(true))
      case Ok(AwaitingBridge) => Outcome(one.symbol, Ok(false))
      case Ok(_) => Attempts(one.symbol, fetches[1..], attempts - 1, cfg)
  }

  function Synchronize(c: Symbol, now: PosU64, fetches: seq<Fetch>, cfg: Config): Outcome<bool> {
    if c.sync.buffer == [] then Outcome(c, Ok(false))
    else if c.pending == None then Attempts(c, fetches, cfg.attemptLimit, cfg)
    else
      var one := InstallAndRecord(c, c.pending.value, now, cfg);
      match one.result
      case Err(e) => Outcome(one.symbol, Err(e))
      case Ok(Synchronized) => Outcome(one.symbol, Ok(true))
      case Ok(AwaitingBridge) => Outcome(one.symbol, Ok(false))
      case Ok(_) => Attempts(one.symbol, fetches, cfg.attemptLimit, cfg)
  }

  function OnDepth(c: Symbol, u: DepthUpdate, now: PosU64, fetches: seq<Fetch>, cfg: Config): Outcome<bool> {
    var step := Ingest(c.sync, u);
    var k := c.(sync := step.sync);
    match step.outcome
    case Err(e) => Outcome(k, Err(SyncFailed(e)))
    case Ok(IgnoredStale) => Outcome(k, Ok(false))
    case Ok(Accepted) =>
      var recorded := RecordApplied(k, u, cfg);
      Outcome(recorded.symbol, if recorded.result.Err? then Err(recorded.result.error) else Ok(true))
    case Ok(GapDetected) => Synchronize(GapMarked(k, u.receipt), now, fetches, cfg)
    case Ok(Buffered) => Synchronize(k, now, fetches, cfg)
  }

  function OnTrade(c: Symbol, t: Trade): Symbol {
    if c.sync.state == Live then Appended(c, TradeEvent(t)) else c.(discardedTrades := c.discardedTrades + 1)
  }

  // ----- the mutable capture

  class SymbolCapture {
    const synchronizer: DepthSynchronizer
    const writer: L2Writer
    const attemptLimit: nat
    const hash: Book -> U64
    var sequenceGaps: nat
    var snapshotRetries: nat
    var discardedTrades: nat
    var depthSinceCheckpoint: nat
    var pending: Option<Snapshot>

    ghost function View(): Symbol
      reads this, synchronizer, synchronizer.book, writer
    {
      Symbol(synchronizer.View(), writer.View(), sequenceGaps, snapshotRetries, discardedTrades,
             depthSinceCheckpoint, pending)
    }

    ghost function Cfg(): Config {
      Config(writer.checkpointInterval, attemptLimit, hash)
    }

    constructor (writer: L2Writer, capacity: nat, attemptLimit: nat, hash: Book -> U64)
      requires capacity > 0 && attemptLimit > 0
      requires writer.Valid() && writer.View() == Log([], [])
      ensures View() == Start(capacity) && this.writer == writer
      ensures Cfg() == Config(writer.checkpointInterval, attemptLimit, hash)
      ensures fresh(synchronizer) && fresh(synchronizer.book)
    {
      this.writer, this.attemptLimit, this.hash := writer, attemptLimit, hash;
      synchronizer := new DepthSynchronizer(capacity);
      sequenceGaps, snapshotRetries, discardedTrades, depthSinceCheckpoint := 0, 0, 0, 0;
      pending := None;
    }

    method Connection(receipt: PosU64, connected: bool)
      requires writer.Valid()
      modifies this, synchronizer, synchronizer.book, writer
      ensures writer.Valid() && View() == ConnectionBoundary(old(View()), receipt, connected)
    {
      var reason := if connected then ConnectionStart else ConnectionEnd;
      var _ := writer.Write(BoundaryEvent(receipt, reason));
      synchronizer.ResetTo(false);
      pending := None;
    }

    method MarkGap(receipt: PosU64)
      requires writer.Valid()
      modifies this, synchronizer, synchronizer.book, writer
      ensures writer.Valid() && View() == GapMarked(old(View()), receipt)
    {
      sequenceGaps := sequenceGaps + 1;
      var _ := writer.Write(BoundaryEvent(receipt, SequenceGap));
      synchronizer.ResetTo(true);
      pending := None;
    }

    method Record(update: DepthUpdate) returns (r: Result<Unit, CaptureError>)
      requires writer.Valid()
      modifies this, writer
      ensures writer.Valid() && Outcome(View(), r) == RecordApplied(old(View()), update, Cfg())
    {
      var written := writer.Write(DepthEvent(update));
      if written.Err? {
        return Err(WriteFailed(written.error));
      }
      depthSinceCheckpoint := depthSinceCheckpoint + 1;
      if depthSinceCheckpoint >= writer.checkpointInterval {
        var book := synchronizer.book;
        var marked := writer.WriteCheckpoint(book.lastUpdateId, hash(Book(book.bids, book.asks, book.lastUpdateId)));
        if marked.Err? {
          return Err(WriteFailed(marked.error));
        }
        depthSinceCheckpoint := 0;
      }
      return Ok(Unit.Unit);
    }

    method TrySnapshot(snapshot: Snapshot, now: PosU64) returns (r: Result<SnapshotResult, CaptureError>)
      requires writer.Valid()
      modifies this, synchronizer, synchronizer.book, writer
      ensures writer.Valid() && Outcome(View(), r) == InstallAndRecord(old(View()), snapshot, now, Cfg())
    {
      var installed := synchronizer.InstallSnapshot(snapshot);
      if installed.Err? {
        return Err(SyncFailed(installed.error));
      }
      match installed.value.result {
        case SnapshotTooOld =>
          snapshotRetries := snapshotRetries + 1;
          var _ := writer.Write(BoundaryEvent(now, SnapshotRetry));
          pending := None;
          return Ok(SnapshotTooOld);
        case BridgeGap =>
          MarkGap(now);
          return Ok(BridgeGap);
        case AwaitingBridge =>
          pending := Some(snapshot);
          return Ok(AwaitingBridge);
        case Synchronized =>
          var written := writer.Write(SnapshotEvent(snapshot));
          if written.Err? {
            return Err(WriteFailed(written.error));
          }
          pending := None;
          var recorded := RecordEach(installed.value.applied);
          return if recorded.Err? then Err(recorded.error) else Ok(Synchronized);
      }
    }

    method RecordEach(updates: seq<DepthUpdate>) returns (r: Result<Unit, CaptureError>)
      requires writer.Valid()
      modifies this, writer
      ensures writer.Valid() && Outcome(View(), r) == RecordAll(old(View()), updates, Cfg())
    {
      assert updates[0..] == updates;
      for i := 0 to |updates|
        invariant writer.Valid()
        invariant RecordAll(View(), updates[i..], Cfg()) == RecordAll(old(View()), updates, Cfg())
      {
        assert updates[i..][0] == updates[i] && updates[i..][1..] == updates[i + 1..];
        var one := Record(updates[i]);
        if one.Err? {
          return Err(one.error);
        }
      }
      return Ok(Unit.Unit);
    }

    method TrySynchronize(now: PosU64, fetches: seq<Fetch>) returns (r: Result<bool, CaptureError>)
      requires writer.Valid()
      modifies this, synchronizer, synchronizer.book, writer
      ensures writer.Valid() && Outcome(View(), r) == Synchronize(old(View()), now, fetches, Cfg())
    {
      if synchronizer.buffer == [] {
        return Ok(false);
      }
      if pending.Some? {
        var one := TrySnapshot(pending.value, now);
        if one.Err? {
          return Err(one.error);
        }
        if one.value == Synchronized {
          return Ok(true);
        }
        if one.value == AwaitingBridge {
          return Ok(false);
        }
      }
      r := TryFetches(fetches);
    }

    method TryFetches(fetches: seq<Fetch>) returns (r: Result<bool, CaptureError>)
      requires writer.Valid()
      modifies this, synchronizer, synchronizer.book, writer
      ensures writer.Valid() && Outcome(View(), r) == Attempts(old(View()), fetches, attemptLimit, Cfg())
    {
      assert fetches[0..] == fetches;
      for attempt := 0 to attemptLimit
        invariant writer.Valid() && attempt <= |fetches|
        invariant Attempts(View(), fetches[attempt..], attemptLimit - attempt, Cfg()) ==
                  Attempts(old(View()), fetches, attemptLimit, Cfg())
      {
        if attempt >= |fetches| {
          return Err(FetchFailed);
        }
        assert fetches[attempt..][0] == fetches[attempt] && fetches[attempt..][1..] == fetches[attempt + 1..];
        var one := TrySnapshot(fetches[attempt].snapshot, fetches[attempt].now);
        if one.Err? {
          return Err(one.error);
        }
        if one.value == Synchronized {
          return Ok(true);
        }
        if one.value == AwaitingBridge {
          return Ok(false);
        }
      }
      return Err(AttemptsExhausted);
    }

    method Depth(update: DepthUpdate, now: PosU64, fetches: seq<Fetch>) returns (r: Result<bool, CaptureError>)
      requires writer.Valid()
      modifies this, synchronizer, synchronizer.book, writer
      ensures writer.Valid() && Outcome(View(), r) == OnDepth(old(View()), update, now, fetches, Cfg())
    {
      var ingested := synchronizer.IngestUpdate(update);
      if ingested.Err? {
        return Err(SyncFailed(ingested.error));
      }
      match ingested.value {
        case Accepted =>
          var recorded := Record(update);
          return if recorded.Err? then Err(recorded.error) else Ok(true);
        case GapDetected =>
          MarkGap(update.receipt);
          r := TrySynchronize(now, fetches);
        case Buffered =>
          r := TrySynchronize(now, fetches);
        case IgnoredStale =>
          return Ok(false);
      }
    }

    method OneTrade(trade: Trade)
      requires writer.Valid()
      modifies this, writer
      ensures writer.Valid() && View() == OnTrade(old(View()), trade)
    {
      if synchronizer.state == Live {
        var _ := writer.Write(TradeEvent(trade));
      } else {
        discardedTrades := discardedTrades + 1;
      }
    }
  }
}
