/**
 What the buffer holds: over every run exactly the updates that were queued since the last clearing
 reset and that no snapshot has contained or bridged since. Nothing here is said through the
 function that computes a reset.
 */
module SynchronizerBuffer {
  import opened Results
  import opened L2Types
  import opened OrderBook
  import opened Synchronizer
  import opened SynchronizerProperties

  /** The call puts u behind the buffered events: nobody is live to apply it, or it leaves a hole. */
  predicate Queues(s: Sync, call: Call, u: DepthUpdate) {
    && call == IngestCall(u)
    && (s.state != Live || s.book.lastUpdateId + 1 < u.firstUpdateId)
    && |s.buffer| < s.capacity
    && (s.buffer == [] || s.buffer[|s.buffer| - 1].finalUpdateId <= u.finalUpdateId)
  }

  /**
   The call takes u out of the buffer: a clearing reset; a snapshot that contains it; a bridge that
   took it into the book; or a bridge that raised, which drops all that it was given.
   */
  predicate Discards(s: Sync, call: Call, u: DepthUpdate) {
    match call
    case IngestCall(_) => false
    case ResetCall(preserveBuffer) => !preserveBuffer
    case InstallCall(snapshot) =>
      var r := Install(s, snapshot);
      || u.finalUpdateId <= snapshot.lastUpdateId
      || match r.outcome
         case Ok(done) =>
           done.result in {Synchronized, BridgeGap} && u.finalUpdateId <= r.sync.book.lastUpdateId
         case Err(_) => r.sync.state == Live
  }

  /** Those of the updates that the call leaves. */
  function Left(s: Sync, call: Call, updates: seq<DepthUpdate>): seq<DepthUpdate> {
    if updates == [] then []
    else
      var last := updates[|updates| - 1];
      Left(s, call, updates[..|updates| - 1]) + (if Discards(s, call, last) then [] else [last])
  }

  lemma {:induction false} LeftSuffix(s: Sync, call: Call, updates: seq<DepthUpdate>, gone: nat)
    requires gone <= |updates|
    requires forall i | 0 <= i < gone :: Discards(s, call, updates[i])
    requires forall i | gone <= i < |updates| :: !Discards(s, call, updates[i])
    ensures Left(s, call, updates) == updates[gone..]
    decreases |updates|
  {
    hide Discards, Left;
    LeftUnfolds(s, call, updates);
    if updates != [] {
      var n := |updates| - 1;
      if gone == |updates| {
        LeftSuffix(s, call, updates[..n], n);
      } else {
        LeftSuffix(s, call, updates[..n], gone);
        assert updates[gone..] == updates[..n][gone..] + [updates[n]];
      }
    }
  }

  lemma LeftUnfolds(s: Sync, call: Call, updates: seq<DepthUpdate>)
    ensures updates == [] ==> Left(s, call, updates) == []
    ensures updates != [] ==>
              var n := |updates| - 1;
              Left(s, call, updates) ==
                Left(s, call, updates[..n]) + (if Discards(s, call, updates[n]) then [] else [updates[n]])
  {
    hide Discards;
  }

  // ----- one call

  /** What is left buffered is what follows the updates the book took. */
  ghost predicate Taken(d: Sync, pending: seq<DepthUpdate>) {
    && |d.buffer| <= |pending|
    && var gone := |pending| - |d.buffer|;
       && d.buffer == pending[gone..]
       && (forall i | 0 <= i < gone :: pending[i].finalUpdateId <= d.book.lastUpdateId)
       && (forall i | gone <= i < |pending| :: pending[i].finalUpdateId > d.book.lastUpdateId)
  }

  lemma {:induction false} PendingTaken(s: Sync, pending: seq<DepthUpdate>)
    requires BufferInvariant(s) && s.state == Live
    requires Ordered(pending) && |pending| <= s.capacity
    ensures var r := ApplyPending(s, pending);
            && s.book.lastUpdateId <= r.sync.book.lastUpdateId
            && (match r.outcome
                case Err(_) => r.sync.state == Live && r.sync.buffer == []
                case Ok((result, _)) =>
                  && result in {Synchronized, BridgeGap}
                  && (result == Synchronized ==> r.sync.buffer == [])
                  && Taken(r.sync, pending))
    decreases pending
  {
    hide Sound, Applied, Taken, ApplyPending, ApplyLive;
    if pending == [] {
      NothingPending(s);
    } else {
      PendingUnfolds(s, pending);
      var first := ApplyLive(s, pending[0]);
      ApplyLiveBuffer(s, pending[0]);
      LiveTaken(s, pending[0]);
      if first.outcome.Ok? {
        if first.outcome.value == GapDetected {
          GapTakesNothing(s, pending, first.sync.(buffer := first.sync.buffer + pending[1..]));
        } else {
          PendingTaken(first.sync, pending[1..]);
          var rest := ApplyPending(first.sync, pending[1..]);
          if rest.outcome.Ok? {
            TakenGrows(rest.sync, pending);
          }
        }
      }
    }
  }

  lemma NothingPending(s: Sync)
    requires s.buffer == []
    ensures ApplyPending(s, []) == Step(s, Ok((Synchronized, []))) && Taken(s, [])
  {
  }

  /** A live synchronizer has taken the update, holds it behind a hole, or raised with nothing buffered. */
  lemma LiveTaken(s: Sync, u: DepthUpdate)
    requires BufferInvariant(s) && s.state == Live
    ensures var r := ApplyLive(s, u);
            && s.book.lastUpdateId <= r.sync.book.lastUpdateId
            && (r.outcome.Err? ==> r.sync.state == Live && r.sync.buffer == [])
            && (r.outcome == Ok(GapDetected) ==>
                  r.sync.buffer == [u] && r.sync.book.lastUpdateId < u.finalUpdateId)
            && (r.outcome.Ok? && r.outcome.value != GapDetected ==>
                  r.sync.buffer == [] && u.finalUpdateId <= r.sync.book.lastUpdateId)
  {
    hide Sound, Applied;
    AppliedAt(s.book, u);
  }

  lemma AppliedAt(book: Book, u: DepthUpdate)
    ensures Applied(book, u).lastUpdateId == u.finalUpdateId
  {
  }

  lemma GapTakesNothing(s: Sync, pending: seq<DepthUpdate>, d: Sync)
    requires pending != [] && Ordered(pending) && d.book.lastUpdateId < pending[0].finalUpdateId
    requires d.buffer == [pending[0]] + pending[1..]
    ensures Taken(d, pending)
  {
    assert d.buffer == pending;
  }

  lemma TakenGrows(d: Sync, pending: seq<DepthUpdate>)
    requires pending != [] && pending[0].finalUpdateId <= d.book.lastUpdateId && Taken(d, pending[1..])
    ensures Taken(d, pending)
  {
    var gone := |pending| - |d.buffer|;
    assert pending[1..][gone - 1..] == pending[gone..];
    forall i | 0 <= i < |pending|
      ensures pending[i].finalUpdateId <= d.book.lastUpdateId <==> i < gone
    {
      assert i > 0 ==> pending[i] == pending[1..][i - 1];
    }
  }

  /** An installation takes a prefix of the buffer: exactly the updates Discards names. */
  lemma InstallTakes(s: Sync, snapshot: Snapshot) returns (gone: nat)
    requires BufferInvariant(s)
    ensures gone <= |s.buffer| && Install(s, snapshot).sync.buffer == s.buffer[gone..]
    ensures forall i | 0 <= i < gone :: Discards(s, InstallCall(snapshot), s.buffer[i])
    ensures forall i | gone <= i < |s.buffer| :: !Discards(s, InstallCall(snapshot), s.buffer[i])
  {
    hide Sound, Installed, ApplyPending;
    var id := snapshot.lastUpdateId;
    var kept := Retained(s.buffer, id);
    RetainedIsSuffix(s.buffer, id);
    var stale := |s.buffer| - |kept|;
    forall i | stale <= i < |s.buffer|
      ensures s.buffer[i] == kept[i - stale] && s.buffer[i].finalUpdateId > id
    {
      assert s.buffer[i] == kept[i - stale];
    }
    if Sound(Installed(snapshot)) && kept != [] && kept[0].firstUpdateId <= id + 1 {
      gone := BridgeTakes(s, snapshot);
    } else {
      gone := stale;
    }
  }

  lemma BridgeTakes(s: Sync, snapshot: Snapshot) returns (gone: nat)
    requires BufferInvariant(s) && Sound(Installed(snapshot))
    requires var kept := Retained(s.buffer, snapshot.lastUpdateId);
             kept != [] && kept[0].firstUpdateId <= snapshot.lastUpdateId + 1
    ensures gone <= |s.buffer| && Install(s, snapshot).sync.buffer == s.buffer[gone..]
    ensures forall i | 0 <= i < gone :: Discards(s, InstallCall(snapshot), s.buffer[i])
    ensures forall i | gone <= i < |s.buffer| :: !Discards(s, InstallCall(snapshot), s.buffer[i])
  {
    var id := snapshot.lastUpdateId;
    var kept := Retained(s.buffer, id);
    RetainedIsSuffix(s.buffer, id);
    SpanningInstallBridges(s, snapshot);
    hide Install, Installed, Retained, ApplyPending, Sound;
    var live := s.(buffer := [], state := Live, book := Installed(snapshot));
    var bridged := ApplyPending(live, kept);
    PendingTaken(live, kept);
    assert live.book.lastUpdateId == id by {
      InstalledAt(snapshot);
    }
    var stale := |s.buffer| - |kept|;
    gone := |s.buffer| - |bridged.sync.buffer|;
    assert Install(s, snapshot).sync.buffer == s.buffer[gone..];
    forall i | 0 <= i < |s.buffer|
      ensures Discards(s, InstallCall(snapshot), s.buffer[i]) <==> i < gone
    {
      assert i >= stale ==> s.buffer[i] == kept[i - stale];
    }
  }

  lemma InstalledAt(snapshot: Snapshot)
    ensures Installed(snapshot).lastUpdateId == snapshot.lastUpdateId
  {
  }

  /** What one call does to the buffer: it takes out the updates it discards and adds the one it queues. */
  lemma CallBuffers(s: Sync, call: Call)
    requires BufferInvariant(s)
    ensures After(s, call).buffer ==
            Left(s, call, s.buffer) + (if call.IngestCall? && Queues(s, call, call.update) then [call.update] else [])
  {
    match call
    case IngestCall(u) =>
      hide Left, Sound, Applied;
      LeftSuffix(s, call, s.buffer, 0);
      assert s.buffer[0..] == s.buffer && s.buffer + [] == s.buffer;
    case ResetCall(preserveBuffer) =>
      hide Left;
      LeftSuffix(s, call, s.buffer, if preserveBuffer then 0 else |s.buffer|);
      assert s.buffer[0..] == s.buffer && s.buffer[|s.buffer|..] == [];
      assert s.buffer + [] == s.buffer;
    case InstallCall(snapshot) =>
      hide Discards, Left, Install;
      var gone := InstallTakes(s, snapshot);
      LeftSuffix(s, call, s.buffer, gone);
      assert s.buffer[gone..] + [] == s.buffer[gone..];
  }

  /**
   An update that would have to be queued and cannot be, because the buffer is full or the update
   ends before the last buffered one, raises; it leaves book and buffer alone and the state in gap.
   */
  lemma RefusedQueueing(s: Sync, u: DepthUpdate)
    requires s.state != Live || s.book.lastUpdateId + 1 < u.firstUpdateId
    requires !Queues(s, IngestCall(u), u)
    ensures Ingest(s, u) ==
            Step(s.(state := Gap), Err(if |s.buffer| >= s.capacity then BufferOverflow else OutOfOrder))
  {
  }

  /** What an installation reports as stale is the number of buffered updates the snapshot contains. */
  lemma StaleIsCounted(s: Sync, snapshot: Snapshot)
    requires BufferInvariant(s) && Install(s, snapshot).outcome.Ok?
    ensures var stale := Install(s, snapshot).outcome.value.stale;
            && stale <= |s.buffer|
            && forall i | 0 <= i < |s.buffer| :: s.buffer[i].finalUpdateId <= snapshot.lastUpdateId <==> i < stale
  {
    hide Sound, Installed, ApplyPending;
    var kept := Retained(s.buffer, snapshot.lastUpdateId);
    RetainedIsSuffix(s.buffer, snapshot.lastUpdateId);
    forall i | |s.buffer| - |kept| <= i < |s.buffer|
      ensures s.buffer[i].finalUpdateId > snapshot.lastUpdateId
    {
      assert s.buffer[i] == kept[i - (|s.buffer| - |kept|)];
    }
  }

  // ----- whole runs

  /** Call i queued its update, and no later call of the run discards it. */
  predicate Held(s: Sync, calls: seq<Call>, i: nat)
    requires i < |calls|
  {
    && calls[i].IngestCall?
    && Queues(Run(s, calls[..i]), calls[i], calls[i].update)
    && forall j | i < j < |calls| :: !Discards(Run(s, calls[..j]), calls[j], calls[i].update)
  }

  /** The updates held after the whole run, of the first n calls, in the order they came in. */
  function HeldUpdates(s: Sync, calls: seq<Call>, n: nat): seq<DepthUpdate>
    requires n <= |calls|
  {
    if n == 0 then []
    else HeldUpdates(s, calls, n - 1) + (if Held(s, calls, n - 1) then [calls[n - 1].update] else [])
  }

  lemma {:induction false} RunSnoc(s: Sync, calls: seq<Call>, call: Call)
    ensures Run(s, calls + [call]) == After(Run(s, calls), call)
    decreases calls
  {
    hide After;
    if calls == [] {
      assert calls + [call] == [call] && [call][1..] == [];
      assert Run(After(s, call), []) == After(s, call);
    } else {
      assert (calls + [call])[0] == calls[0] && (calls + [call])[1..] == calls[1..] + [call];
      RunSnoc(After(s, calls[0]), calls[1..], call);
    }
  }

  lemma HeldOneMore(s: Sync, calls: seq<Call>, call: Call, i: nat)
    requires i < |calls|
    ensures Held(s, calls + [call], i) <==>
            Held(s, calls, i) && !Discards(Run(s, calls), call, calls[i].update)
  {
    hide Run, Discards, Queues;
    var more := calls + [call];
    assert more[..i] == calls[..i] && more[i] == calls[i];
    forall j | i < j < |calls|
      ensures more[..j] == calls[..j] && more[j] == calls[j]
    {
    }
    assert more[..|calls|] == calls;
  }

  lemma {:induction false} HeldUpdatesOneMore(s: Sync, calls: seq<Call>, call: Call, n: nat)
    requires n <= |calls|
    ensures HeldUpdates(s, calls + [call], n) == Left(Run(s, calls), call, HeldUpdates(s, calls, n))
    decreases n
  {
    hide Run, Discards, Queues;
    if n > 0 {
      HeldUpdatesOneMore(s, calls, call, n - 1);
      HeldOneMore(s, calls, call, n - 1);
      var before := HeldUpdates(s, calls, n - 1);
      if Held(s, calls, n - 1) {
        var held := before + [calls[n - 1].update];
        assert held[..|held| - 1] == before;
      } else {
        assert before + [] == before;
      }
    }
  }

  /** From any state with an empty buffer, the buffer of a run holds exactly the updates held. */
  lemma {:induction false} RunBuffers(s: Sync, calls: seq<Call>)
    requires BufferInvariant(s) && s.buffer == []
    ensures BufferInvariant(Run(s, calls))
    ensures Run(s, calls).buffer == HeldUpdates(s, calls, |calls|)
    decreases |calls|
  {
    hide BufferInvariant, After, Discards;
    if calls != [] {
      var before, call := calls[..|calls| - 1], calls[|calls| - 1];
      assert calls == before + [call];
      RunBuffers(s, before);
      RunSnoc(s, before, call);
      var t := Run(s, before);
      StepKeepsBuffer(t, call);
      CallBuffers(t, call);
      HeldUpdatesOneMore(s, before, call, |before|);
      assert calls[..|before|] == before;
    }
  }

  /**
   After every sequence of calls the buffer is exactly the updates queued that no clearing reset,
   no snapshot and no bridge has taken since; a reset that preserves the buffer takes none of them.
   */
  lemma BufferIsWhatIsHeld(capacity: nat, calls: seq<Call>)
    requires capacity > 0
    ensures Run(Initial(capacity), calls).buffer == HeldUpdates(Initial(capacity), calls, |calls|)
  {
    RunBuffers(Initial(capacity), calls);
  }
}
