/** The event recording with its checkpoints, and the replay that verifies it. */
module Recording {
  import opened Results
  import opened L2Types
  import opened OrderBook

  const MAX_LEVELS_PER_EVENT := 20_000

  datatype Checkpoint = Checkpoint(eventIndex: U64, updateId: U64, stateHash: U64)

  /** The recorded events and the checkpoint companion. */
  datatype Log = Log(events: seq<Event>, checkpoints: seq<Checkpoint>)

  datatype WriteError = TooManyLevels | InvalidCheckpoint

  predicate Writable(e: Event) {
    match e
    case SnapshotEvent(s) => |s.bids| <= MAX_LEVELS_PER_EVENT && |s.asks| <= MAX_LEVELS_PER_EVENT
    case DepthEvent(u) => |u.bids| <= MAX_LEVELS_PER_EVENT && |u.asks| <= MAX_LEVELS_PER_EVENT
    case _ => true
  }

  /** The checkpoint constructor wants positive 64-bit fields, and indices must grow. */
  predicate CheckpointAccepted(log: Log, updateId: U64, stateHash: U64) {
    && 1 <= |log.events| <= UINT64_MAX && updateId > 0 && stateHash > 0
    && (log.checkpoints != [] ==> log.checkpoints[|log.checkpoints| - 1].eventIndex < |log.events|)
  }

  class L2Writer {
    var events: seq<Event>
    var checkpoints: seq<Checkpoint>
    var eventCount: nat
    var snapshotCount: nat
    var depthCount: nat
    var tradeCount: nat
    var boundaryCount: nat
    var checkpointCount: nat
    const checkpointInterval: nat

    ghost function View(): Log
      reads this
    {
      Log(events, checkpoints)
    }

    /** The counters published with the recording are the counts of what was written. */
    ghost predicate Valid()
      reads this
    {
      && checkpointInterval > 0
      && eventCount == |events|
      && snapshotCount == Count(events, SnapshotKind)
      && depthCount == Count(events, DepthKind)
      && tradeCount == Count(events, TradeKind)
      && boundaryCount == Count(events, BoundaryKind)
      && checkpointCount == |checkpoints|
    }

    constructor (interval: nat)
      requires interval > 0
      ensures Valid() && View() == Log([], []) && checkpointInterval == interval
    {
      events, checkpoints, checkpointInterval := [], [], interval;
      eventCount, snapshotCount, depthCount, tradeCount, boundaryCount, checkpointCount := 0, 0, 0, 0, 0, 0;
    }

    method Write(e: Event) returns (r: Result<Unit, WriteError>)
      requires Valid()
      modifies this
      ensures Valid()
      ensures r == (if Writable(e) then Ok(Unit.Unit) else Err(TooManyLevels))
      ensures r.Err? <==>
        || (e.SnapshotEvent? && (|e.snapshot.bids| > 20_000 || |e.snapshot.asks| > 20_000))
        || (e.DepthEvent? && (|e.update.bids| > 20_000 || |e.update.asks| > 20_000))
      ensures View() == if r.Ok? then Log(old(events) + [e], old(checkpoints)) else old(View())
    {
      if !Writable(e) {
        return Err(TooManyLevels);
      }
      events := events + [e];
      eventCount := eventCount + 1;
      match e {
        case SnapshotEvent(_) => snapshotCount := snapshotCount + 1;
        case DepthEvent(_) => depthCount := depthCount + 1;
        case TradeEvent(_) => tradeCount := tradeCount + 1;
        case BoundaryEvent(_, _) => boundaryCount := boundaryCount + 1;
      }
      return Ok(Unit.Unit);
    }

    method WriteCheckpoint(updateId: U64, stateHash: U64) returns (r: Result<Unit, WriteError>)
      requires Valid()
      modifies this
      ensures Valid()
      ensures r == (if CheckpointAccepted(old(View()), updateId, stateHash) then Ok(Unit.Unit) else Err(InvalidCheckpoint))
      ensures r.Ok? <==>
        && updateId > 0 && stateHash > 0 && 0 < |old(events)| <= UINT64_MAX
        && (old(checkpoints) == [] || old(checkpoints)[|old(checkpoints)| - 1].eventIndex < |old(events)|)
      ensures View() == if r.Ok? then Log(old(events), old(checkpoints) + [Checkpoint(|old(events)|, updateId, stateHash)])
                        else old(View())
    {
      if eventCount == 0 || eventCount > UINT64_MAX || updateId == 0 || stateHash == 0 {
        return Err(InvalidCheckpoint);
      }
      if checkpoints != [] && eventCount <= checkpoints[|checkpoints| - 1].eventIndex {
        return Err(InvalidCheckpoint);
      }
      checkpoints := checkpoints + [Checkpoint(eventCount, updateId, stateHash)];
      checkpointCount := checkpointCount + 1;
      return Ok(Unit.Unit);
    }
  }

  datatype EventKind = SnapshotKind | DepthKind | TradeKind | BoundaryKind

  function KindOf(e: Event): EventKind {
    match e
    case SnapshotEvent(_) => SnapshotKind
    case DepthEvent(_) => DepthKind
    case TradeEvent(_) => TradeKind
    case BoundaryEvent(_, _) => BoundaryKind
  }

  function Count(events: seq<Event>, kind: EventKind): nat {
    if events == [] then 0
    else Count(events[..|events| - 1], kind) + if KindOf(events[|events| - 1]) == kind then 1 else 0
  }

  // ----- replay

  datatype ReplayError = SequenceHole | UnsoundBook | CheckpointMismatch | FinalIdMismatch | FinalHashMismatch

  predicate StaleDepth(book: Book, e: Event) {
    e.DepthEvent? && e.update.finalUpdateId <= book.lastUpdateId
  }

  function ReplayEvent(book: Book, e: Event): Result<Book, ReplayError> {
    match e
    case BoundaryEvent(_, _) => Ok(EMPTY)
    case SnapshotEvent(s) => if Sound(Installed(s)) then Ok(Installed(s)) else Err(UnsoundBook)
    case DepthEvent(u) =>
      if u.finalUpdateId <= book.lastUpdateId then Ok(book)
      else if u.firstUpdateId > book.lastUpdateId + 1 then Err(SequenceHole)
      else if Sound(Applied(book, u)) then Ok(Applied(book, u)) else Err(UnsoundBook)
    case TradeEvent(_) => Ok(book)
  }

  /** The dictionary of checkpoints by event index; a later entry wins. */
  function Find(checkpoints: seq<Checkpoint>, index: nat): Option<Checkpoint> {
    if checkpoints == [] then None
    else
      var last := checkpoints[|checkpoints| - 1];
      if last.eventIndex == index then Some(last) else Find(checkpoints[..|checkpoints| - 1], index)
  }

  predicate Matches(c: Checkpoint, book: Book, hash: Book -> U64) {
    c.updateId == book.lastUpdateId && c.stateHash == hash(book)
  }

  /** The book after the events, unless some event or checkpoint is refused on the way. */
  function Replay(events: seq<Event>, checkpoints: seq<Checkpoint>, hash: Book -> U64): Result<Book, ReplayError> {
    if events == [] then Ok(EMPTY)
    else
      match Replay(events[..|events| - 1], checkpoints, hash)
      case Err(e) => Err(e)
      case Ok(book) => ReplayChecked(book, events[|events| - 1], |events|, checkpoints, hash)
  }

  function ReplayChecked(book: Book, e: Event, index: nat, checkpoints: seq<Checkpoint>, hash: Book -> U64):
    Result<Book, ReplayError>
  {
    match ReplayEvent(book, e)
    case Err(error) => Err(error)
    case Ok(next) =>
      var found := Find(checkpoints, index);
      if !StaleDepth(book, e) && found.Some? && !Matches(found.value, next, hash) then Err(CheckpointMismatch)
      else Ok(next)
  }

  /** The book the events alone rebuild. */
  function Rebuilt(events: seq<Event>): Result<Book, ReplayError> {
    if events == [] then Ok(EMPTY)
    else
      match Rebuilt(events[..|events| - 1])
      case Err(e) => Err(e)
      case Ok(book) => ReplayEvent(book, events[|events| - 1])
  }

  /** Replay raises nothing and ends in the state the metadata names. */
  predicate Accepts(log: Log, hash: Book -> U64, finalId: U64, finalHash: U64) {
    match Replay(log.events, log.checkpoints, hash)
    case Ok(book) => book.lastUpdateId == finalId && hash(book) == finalHash
    case Err(_) => false
  }

  /** The replay loop, including the comparison with the terminal state in the metadata. */
  method VerifyRecording(
    events: seq<Event>, checkpoints: seq<Checkpoint>, hash: Book -> U64, finalId: U64, finalHash: U64)
    returns (r: Result<nat, ReplayError>)
    ensures r.Ok? <==> Accepts(Log(events, checkpoints), hash, finalId, finalHash)
  {
    hide Replay, Find, Installed, Applied, Sound;
    var book := new L2OrderBook();
    var applied: nat := 0;
    assert events[..|events|] == events;
    NothingReplayed(checkpoints, hash);
    assert events[..0] == [];
    for i := 0 to |events|
      invariant Replay(events[..i], checkpoints, hash) == Ok(book.View())
      invariant fresh(book)
    {
      var e := events[i];
      ReplayUnfolds(events, i, checkpoints, hash);
      match e {
        case BoundaryEvent(_, _) => book.Clear();
        case SnapshotEvent(s) =>
          var sound := book.InstallSnapshot(s);
          if !sound {
            ReplayErrorStays(events, i + 1, checkpoints, hash);
            return Err(UnsoundBook);
          }
        case DepthEvent(u) =>
          if u.finalUpdateId <= book.lastUpdateId {
            continue;
          }
          if u.firstUpdateId > book.lastUpdateId + 1 {
            ReplayErrorStays(events, i + 1, checkpoints, hash);
            return Err(SequenceHole);
          }
          var sound := book.Apply(u);
          if !sound {
            ReplayErrorStays(events, i + 1, checkpoints, hash);
            return Err(UnsoundBook);
          }
          applied := applied + 1;
        case TradeEvent(_) =>
      }
      var found := Find(checkpoints, i + 1);
      if found.Some? && (found.value.updateId != book.lastUpdateId
                         || found.value.stateHash != hash(Book(book.bids, book.asks, book.lastUpdateId))) {
        ReplayErrorStays(events, i + 1, checkpoints, hash);
        return Err(CheckpointMismatch);
      }
    }
    if book.lastUpdateId != finalId {
      return Err(FinalIdMismatch);
    }
    if hash(Book(book.bids, book.asks, book.lastUpdateId)) != finalHash {
      return Err(FinalHashMismatch);
    }
    return Ok(applied);
  }

  lemma NothingReplayed(checkpoints: seq<Checkpoint>, hash: Book -> U64)
    ensures Replay([], checkpoints, hash) == Ok(EMPTY)
  {
  }

  lemma ReplayUnfolds(events: seq<Event>, i: nat, checkpoints: seq<Checkpoint>, hash: Book -> U64)
    requires i < |events| && Replay(events[..i], checkpoints, hash).Ok?
    ensures Replay(events[..i + 1], checkpoints, hash) ==
            ReplayChecked(Replay(events[..i], checkpoints, hash).value, events[i], i + 1, checkpoints, hash)
  {
    hide ReplayChecked;
    assert events[..i + 1][..i] == events[..i];
  }

  lemma {:induction false} ReplayErrorStays(events: seq<Event>, i: nat, checkpoints: seq<Checkpoint>, hash: Book -> U64)
    requires i <= |events| && Replay(events[..i], checkpoints, hash).Err?
    ensures Replay(events, checkpoints, hash).Err?
    decreases |events| - i
  {
    if i == |events| {
      assert events[..i] == events;
    } else {
      assert events[..i + 1][..i] == events[..i];
      ReplayErrorStays(events, i + 1, checkpoints, hash);
    }
  }

  // ----- what acceptance means

  ghost predicate CheckpointHolds(events: seq<Event>, c: Checkpoint, hash: Book -> U64) {
    && 1 <= c.eventIndex <= |events|
    && (match Rebuilt(events[..c.eventIndex])
        case Ok(book) => Matches(c, book, hash)
        case Err(_) => false)
  }

  ghost predicate AllHold(log: Log, hash: Book -> U64) {
    forall c | c in log.checkpoints :: CheckpointHolds(log.events, c, hash)
  }

  /** No recorded update is one the replay would skip. */
  ghost predicate NoStaleDepth(events: seq<Event>) {
    forall i | 0 <= i < |events| && Rebuilt(events[..i]).Ok? :: !StaleDepth(Rebuilt(events[..i]).value, events[i])
  }

  /** Checkpoint indices grow strictly and lie inside the recording. */
  ghost predicate IndicesGrow(log: Log) {
    && (forall i | 0 <= i < |log.checkpoints| :: 1 <= log.checkpoints[i].eventIndex <= |log.events|)
    && (forall i, j | 0 <= i < j < |log.checkpoints| ::
          log.checkpoints[i].eventIndex < log.checkpoints[j].eventIndex)
  }

  lemma {:induction false} FindFinds(checkpoints: seq<Checkpoint>, index: nat)
    requires forall i, j | 0 <= i < j < |checkpoints| :: checkpoints[i].eventIndex < checkpoints[j].eventIndex
    ensures match Find(checkpoints, index)
            case Some(c) => c in checkpoints && c.eventIndex == index
            case None => forall c | c in checkpoints :: c.eventIndex != index
    ensures forall c | c in checkpoints && c.eventIndex == index :: Find(checkpoints, index) == Some(c)
    decreases checkpoints
  {
    if checkpoints != [] {
      var init, last := checkpoints[..|checkpoints| - 1], checkpoints[|checkpoints| - 1];
      FindFinds(init, index);
      assert checkpoints == init + [last];
    }
  }

  /**
   For a recording the events alone rebuild, replay accepts exactly when every checkpoint equals
   the rebuilt state at its index.
   */
  lemma {:induction false} ReplayAcceptsIffAllHold(log: Log, n: nat, hash: Book -> U64)
    requires n <= |log.events| && Rebuilt(log.events[..n]).Ok?
    requires NoStaleDepth(log.events) && IndicesGrow(log)
    ensures var r := Replay(log.events[..n], log.checkpoints, hash);
            && (r.Ok? <==> forall c | c in log.checkpoints && c.eventIndex <= n :: CheckpointHolds(log.events, c, hash))
            && (r.Ok? ==> r == Rebuilt(log.events[..n]))
    decreases n
  {
    if n == 0 {
      assert log.events[..0] == [];
    } else {
      var prefix := log.events[..n];
      assert prefix[..n - 1] == log.events[..n - 1] && prefix[n - 1] == log.events[n - 1];
      ReplayAcceptsIffAllHold(log, n - 1, hash);
      FindFinds(log.checkpoints, n);
      var before := Rebuilt(log.events[..n - 1]).value;
      assert !StaleDepth(before, log.events[n - 1]);
      var found := Find(log.checkpoints, n);
      if found.Some? {
        assert CheckpointHolds(log.events, found.value, hash) <==> Matches(found.value, Rebuilt(prefix).value, hash);
      }
    }
  }

  /** Appending events changes no verdict about the checkpoints already there. */
  lemma HoldsStays(events: seq<Event>, more: seq<Event>, c: Checkpoint, hash: Book -> U64)
    requires 1 <= c.eventIndex <= |events|
    ensures CheckpointHolds(events + more, c, hash) <==> CheckpointHolds(events, c, hash)
  {
    assert (events + more)[..c.eventIndex] == events[..c.eventIndex];
  }
}
