/**
 The snapshot-and-delta synchronizer: buffering, bridging to a snapshot, live continuity and gap
 detection. The functions give the value semantics of each operation; the class performs it.
 */
module Synchronizer {
  import opened Results
  import opened L2Types
  import opened OrderBook

  datatype SyncState = AwaitingSnapshot | Live | Gap

  datatype ApplyResult = Accepted | IgnoredStale | Buffered | GapDetected

  datatype SnapshotResult = Synchronized | AwaitingBridge | SnapshotTooOld | BridgeGap

  datatype SyncError = BufferOverflow | OutOfOrder | InvalidBook | StaleEventsRemained

  datatype InstallResult = InstallResult(result: SnapshotResult, stale: nat, applied: seq<DepthUpdate>)

  datatype Sync = Sync(book: Book, state: SyncState, buffer: seq<DepthUpdate>, capacity: nat, resetCount: nat)

  /** A state together with what the call returned or raised. */
  datatype Step<+T> = Step(sync: Sync, outcome: Result<T, SyncError>)

  function Initial(capacity: nat): Sync {
    Sync(EMPTY, AwaitingSnapshot, [], capacity, 0)
  }

  function Reset(s: Sync, preserveBuffer: bool): Sync {
    s.(book := EMPTY, state := AwaitingSnapshot, buffer := if preserveBuffer then s.buffer else [],
       resetCount := s.resetCount + 1)
  }

  function BufferEvent(s: Sync, u: DepthUpdate): Step<Unit> {
    if |s.buffer| >= s.capacity then Step(s.(state := Gap), Err(BufferOverflow))
    else if s.buffer != [] && u.finalUpdateId < s.buffer[|s.buffer| - 1].finalUpdateId then
      Step(s.(state := Gap), Err(OutOfOrder))
    else Step(s.(buffer := s.buffer + [u]), Ok(Unit.Unit))
  }

  function ApplyLive(s: Sync, u: DepthUpdate): Step<ApplyResult> {
    if u.finalUpdateId <= s.book.lastUpdateId then Step(s, Ok(IgnoredStale))
    else if u.firstUpdateId > s.book.lastUpdateId + 1 then
      var b := BufferEvent(s.(state := Gap), u);
      Step(b.sync, if b.outcome.Ok? then Ok(GapDetected) else Err(b.outcome.error))
    else
      var book := Applied(s.book, u);
      if Sound(book) then Step(s.(book := book, state := Live), Ok(Accepted))
      else Step(s.(book := book), Err(InvalidBook))
  }

  function Ingest(s: Sync, u: DepthUpdate): Step<ApplyResult> {
    if s.state != Live then
      var b := BufferEvent(s, u);
      Step(b.sync, if b.outcome.Ok? then Ok(Buffered) else Err(b.outcome.error))
    else ApplyLive(s, u)
  }

  /** The buffer without the leading events a snapshot with this id already contains. */
  function Retained(buffer: seq<DepthUpdate>, id: int): seq<DepthUpdate> {
    if buffer == [] || buffer[0].finalUpdateId > id then buffer else Retained(buffer[1..], id)
  }

  /** Runs the retained events through the live path; a gap keeps the rest of them buffered. */
  function ApplyPending(s: Sync, pending: seq<DepthUpdate>): Step<(SnapshotResult, seq<DepthUpdate>)>
    decreases pending
  {
    if pending == [] then Step(s, Ok((Synchronized, [])))
    else
      var first := ApplyLive(s, pending[0]);
      match first.outcome
      case Err(e) => Step(first.sync, Err(e))
      case Ok(GapDetected) =>
        Step(first.sync.(buffer := first.sync.buffer + pending[1..]), Ok((BridgeGap, [])))
      case Ok(r) =>
        var rest := ApplyPending(first.sync, pending[1..]);
        Step(rest.sync,
             match rest.outcome
             case Err(e) => Err(e)
             case Ok((result, applied)) =>
               Ok((result, (if r == Accepted then [pending[0]] else []) + applied)))
  }

  function Install(s: Sync, snapshot: Snapshot): Step<InstallResult> {
    var pending := Retained(s.buffer, snapshot.lastUpdateId);
    var stale: nat := if |s.buffer| >= |pending| then |s.buffer| - |pending| else 0;
    var kept := s.(buffer := pending);
    if pending == [] then
      var installed := kept.(book := Installed(snapshot));
      if Sound(installed.book) then
        Step(installed.(state := AwaitingSnapshot), Ok(InstallResult(AwaitingBridge, stale, [])))
      else Step(installed, Err(InvalidBook))
    else if pending[0].firstUpdateId > snapshot.lastUpdateId + 1 then
      Step(kept, Ok(InstallResult(SnapshotTooOld, stale, [])))
    else if pending[0].finalUpdateId < snapshot.lastUpdateId + 1 then
      Step(kept, Err(StaleEventsRemained))
    else
      var installed := kept.(book := Installed(snapshot));
      if !Sound(installed.book) then Step(installed, Err(InvalidBook))
      else
        var bridged := ApplyPending(installed.(state := Live, buffer := []), pending);
        Step(bridged.sync,
             match bridged.outcome
             case Err(e) => Err(e)
             case Ok((result, applied)) => Ok(InstallResult(result, stale, applied)))
  }

  lemma {:induction false} RetainedIsSuffix(buffer: seq<DepthUpdate>, id: int)
    ensures var r := Retained(buffer, id);
            && |r| <= |buffer|
            && r == buffer[|buffer| - |r|..]
            && (r != [] ==> r[0].finalUpdateId > id)
            && (forall i | 0 <= i < |buffer| - |r| :: buffer[i].finalUpdateId <= id)
    decreases buffer
  {
    if buffer != [] && buffer[0].finalUpdateId <= id {
      RetainedIsSuffix(buffer[1..], id);
      var r := Retained(buffer[1..], id);
      forall i | 0 <= i < |buffer| - |r| ensures buffer[i].finalUpdateId <= id {
        assert i > 0 ==> buffer[i] == buffer[1..][i - 1];
      }
    }
  }

  // ----- the mutable synchronizer

  class DepthSynchronizer {
    const book: L2OrderBook
    const maximumBufferedEvents: nat
    var state: SyncState
    var buffer: seq<DepthUpdate>
    var resetCount: nat

    ghost function View(): Sync
      reads this, book
    {
      Sync(book.View(), state, buffer, maximumBufferedEvents, resetCount)
    }

    constructor (maximumBufferedEvents: nat)
      requires maximumBufferedEvents > 0
      ensures View() == Initial(maximumBufferedEvents)
      ensures fresh(book)
    {
      this.maximumBufferedEvents := maximumBufferedEvents;
      book := new L2OrderBook();
      state, buffer, resetCount := AwaitingSnapshot, [], 0;
    }

    method ResetTo(preserveBuffer: bool)
      modifies this, book
      ensures View() == Reset(old(View()), preserveBuffer)
      ensures book.View() == EMPTY && state == AwaitingSnapshot && resetCount == old(resetCount) + 1
      ensures preserveBuffer ==> buffer == old(buffer)
      ensures !preserveBuffer ==> buffer == []
    {
      book.Clear();
      if !preserveBuffer {
        buffer := [];
      }
      state := AwaitingSnapshot;
      resetCount := resetCount + 1;
    }

    method IngestUpdate(update: DepthUpdate) returns (r: Result<ApplyResult, SyncError>)
      modifies this, book
      ensures Step(View(), r) == Ingest(old(View()), update)
    {
      if state != Live {
        var buffered := Enqueue(update);
        return if buffered.Ok? then Ok(Buffered) else Err(buffered.error);
      }
      r := ApplyOne(update);
    }

    method InstallSnapshot(snapshot: Snapshot) returns (r: Result<InstallResult, SyncError>)
      modifies this, book
      ensures Step(View(), r) == Install(old(View()), snapshot)
    {
      var stale := DropStale(snapshot.lastUpdateId);
      if buffer == [] {
        var sound := book.InstallSnapshot(snapshot);
        if !sound {
          return Err(InvalidBook);
        }
        state := AwaitingSnapshot;
        return Ok(InstallResult(AwaitingBridge, stale, []));
      }
      var expected := snapshot.lastUpdateId + 1;
      var first := buffer[0];
      if first.firstUpdateId > expected {
        return Ok(InstallResult(SnapshotTooOld, stale, []));
      }
      if first.finalUpdateId < expected {
        return Err(StaleEventsRemained);
      }
      var sound := book.InstallSnapshot(snapshot);
      if !sound {
        return Err(InvalidBook);
      }
      state := Live;
      var pending := buffer;
      buffer := [];
      var bridged := ApplyAll(pending);
      r := if bridged.Err? then Err(bridged.error)
           else Ok(InstallResult(bridged.value.0, stale, bridged.value.1));
    }

    method DropStale(id: int) returns (stale: nat)
      modifies this
      ensures buffer == Retained(old(buffer), id) && stale + |buffer| == |old(buffer)|
      ensures View() == old(View()).(buffer := buffer)
    {
      stale := 0;
      while buffer != [] && buffer[0].finalUpdateId <= id
        invariant Retained(buffer, id) == Retained(old(buffer), id)
        invariant stale + |buffer| == |old(buffer)|
        invariant View() == old(View()).(buffer := buffer)
        decreases |buffer|
      {
        buffer := buffer[1..];
        stale := stale + 1;
      }
    }

    /** The loop of the bridge: stops at the first gap and keeps what follows it. */
    method ApplyAll(pending: seq<DepthUpdate>) returns (r: Result<(SnapshotResult, seq<DepthUpdate>), SyncError>)
      modifies this, book
      ensures Step(View(), r) == ApplyPending(old(View()), pending)
    {
      var applied: seq<DepthUpdate> := [];
      ghost var whole := ApplyPending(View(), pending);
      NoPrefix(whole);
      assert pending[0..] == pending;
      for index := 0 to |pending|
        invariant WithPrefix(applied, ApplyPending(View(), pending[index..])) == whole
      {
        assert pending[index..][0] == pending[index] && pending[index..][1..] == pending[index + 1..];
        ghost var accepted := applied;
        PendingUnfolds(View(), pending[index..]);
        var one := ApplyOne(pending[index]);
        if one.Err? {
          return Err(one.error);
        }
        if one.value == GapDetected {
          buffer := buffer + pending[index + 1..];
          assert applied + [] == applied;
          return Ok((BridgeGap, applied));
        }
        if one.value == Accepted {
          applied := applied + [pending[index]];
        }
        ghost var more := if one.value == Accepted then [pending[index]] else [];
        assert applied == accepted + more;
        PrefixesCompose(accepted, more, ApplyPending(View(), pending[index + 1..]));
      }
      return Ok((Synchronized, applied));
    }

    method Enqueue(update: DepthUpdate) returns (r: Result<Unit, SyncError>)
      modifies this
      ensures Step(View(), r) == BufferEvent(old(View()), update)
    {
      if |buffer| >= maximumBufferedEvents {
        state := Gap;
        return Err(BufferOverflow);
      }
      if buffer != [] && update.finalUpdateId < buffer[|buffer| - 1].finalUpdateId {
        state := Gap;
        return Err(OutOfOrder);
      }
      buffer := buffer + [update];
      return Ok(Unit.Unit);
    }

    method ApplyOne(update: DepthUpdate) returns (r: Result<ApplyResult, SyncError>)
      modifies this, book
      ensures Step(View(), r) == ApplyLive(old(View()), update)
    {
      var local := book.lastUpdateId;
      if update.finalUpdateId <= local {
        return Ok(IgnoredStale);
      }
      if update.firstUpdateId > local + 1 {
        state := Gap;
        var buffered := Enqueue(update);
        return if buffered.Ok? then Ok(GapDetected) else Err(buffered.error);
      }
      var sound := book.Apply(update);
      if !sound {
        return Err(InvalidBook);
      }
      state := Live;
      return Ok(Accepted);
    }
  }

  /** Adds the events accepted so far to the ones a suffix of the pending events contributes. */
  ghost function WithPrefix(
    applied: seq<DepthUpdate>, rest: Step<(SnapshotResult, seq<DepthUpdate>)>
  ): Step<(SnapshotResult, seq<DepthUpdate>)>
  {
    match rest.outcome
    case Err(_) => rest
    case Ok((result, more)) => Step(rest.sync, Ok((result, applied + more)))
  }

  lemma PendingUnfolds(s: Sync, pending: seq<DepthUpdate>)
    requires pending != []
    ensures var first := ApplyLive(s, pending[0]);
            ApplyPending(s, pending) ==
              if first.outcome.Err? then Step(first.sync, Err(first.outcome.error))
              else if first.outcome.value == GapDetected then
                Step(first.sync.(buffer := first.sync.buffer + pending[1..]), Ok((BridgeGap, [])))
              else WithPrefix(if first.outcome.value == Accepted then [pending[0]] else [],
                              ApplyPending(first.sync, pending[1..]))
  {
  }

  lemma NoPrefix(rest: Step<(SnapshotResult, seq<DepthUpdate>)>)
    ensures WithPrefix([], rest) == rest
  {
    match rest.outcome
    case Err(_) =>
    case Ok((_, more)) => assert [] + more == more;
  }

  lemma PrefixesCompose(
    a: seq<DepthUpdate>, b: seq<DepthUpdate>, rest: Step<(SnapshotResult, seq<DepthUpdate>)>)
    ensures WithPrefix(a + b, rest) == WithPrefix(a, WithPrefix(b, rest))
  {
    match rest.outcome
    case Err(_) =>
    case Ok((_, more)) => assert a + b + more == a + (b + more);
  }
}
