/**
 What the synchronizer promises over whole runs. The exchange is a function from update
 identifiers to books; the stream may drop, repeat and overlap its updates, but each one it
 delivers is faithful.
 */
module SynchronizerProperties {
  import opened Results
  import opened L2Types
  import opened OrderBook
  import opened Synchronizer

  type Exchange = nat -> Book

  ghost predicate ValidExchange(ex: Exchange) {
    forall k: nat | k >= 1 :: ex(k).lastUpdateId == k && Sound(ex(k))
  }

  /**
   One side of a faithful update: a listed price carries its quantity at finalUpdateId, and a
   price that is not listed did not change anywhere in the covered range.
   */
  ghost predicate FaithfulAt(ex: Exchange, u: DepthUpdate, price: Price) {
    && (match LastListed(u.bids, price)
        case Some(q) => q == QuantityAt(ex(u.finalUpdateId).bids, price)
        case None => forall k: nat | 1 <= k && u.firstUpdateId - 1 <= k <= u.finalUpdateId ::
          QuantityAt(ex(k).bids, price) == QuantityAt(ex(u.finalUpdateId).bids, price))
    && (match LastListed(u.asks, price)
        case Some(q) => q == QuantityAt(ex(u.finalUpdateId).asks, price)
        case None => forall k: nat | 1 <= k && u.firstUpdateId - 1 <= k <= u.finalUpdateId ::
          QuantityAt(ex(k).asks, price) == QuantityAt(ex(u.finalUpdateId).asks, price))
  }

  ghost predicate FaithfulUpdate(ex: Exchange, u: DepthUpdate) {
    forall price: Price :: FaithfulAt(ex, u, price)
  }

  ghost predicate FaithfulSnapshot(ex: Exchange, s: Snapshot) {
    Installed(s) == ex(s.lastUpdateId)
  }

  ghost predicate AllFaithful(ex: Exchange, updates: seq<DepthUpdate>) {
    forall u | u in updates :: FaithfulUpdate(ex, u)
  }

  /**
   The central step: a faithful update whose range reaches back to the local identifier moves
   the exchange's book at that identifier to the exchange's book at finalUpdateId.
   */
  lemma ApplyFaithful(ex: Exchange, local: nat, u: DepthUpdate)
    requires ValidExchange(ex) && FaithfulUpdate(ex, u)
    requires 1 <= local && u.firstUpdateId <= local + 1 && local < u.finalUpdateId
    ensures Applied(ex(local), u) == ex(u.finalUpdateId)
  {
    var before, after := ex(local), ex(u.finalUpdateId);
    forall p: Price
      ensures QuantityAt(SetLevels(before.bids, u.bids), p) == QuantityAt(after.bids, p)
      ensures QuantityAt(SetLevels(before.asks, u.asks), p) == QuantityAt(after.asks, p)
    {
      SetLevelsAt(before.bids, u.bids, p);
      SetLevelsAt(before.asks, u.asks, p);
      assert FaithfulAt(ex, u, p);
    }
    assert Sound(before) && Sound(after);
    SetLevelsPositive(before.bids, u.bids);
    SetLevelsPositive(before.asks, u.asks);
    SidesEqual(SetLevels(before.bids, u.bids), after.bids);
    SidesEqual(SetLevels(before.asks, u.asks), after.asks);
  }

  // ----- invariants

  ghost predicate Ordered(buffer: seq<DepthUpdate>) {
    forall i, j | 0 <= i < j < |buffer| :: buffer[i].finalUpdateId <= buffer[j].finalUpdateId
  }

  /** Holds for every stream, faithful or not. */
  ghost predicate BufferInvariant(s: Sync) {
    && s.capacity > 0
    && |s.buffer| <= s.capacity
    && Ordered(s.buffer)
    && (s.state == Live ==> s.buffer == [])
  }

  ghost predicate TracksExchange(ex: Exchange, s: Sync) {
    && (s.book == EMPTY || (s.book.lastUpdateId >= 1 && s.book == ex(s.book.lastUpdateId)))
    && (s.state == Live ==> s.book.lastUpdateId >= 1)
    && AllFaithful(ex, s.buffer)
  }

  lemma ApplyLiveBuffer(s: Sync, u: DepthUpdate)
    requires BufferInvariant(s) && s.state == Live
    ensures var r := ApplyLive(s, u);
            && BufferInvariant(r.sync)
            && r.sync.capacity == s.capacity
            && (r.outcome.Ok? || r.outcome == Err(InvalidBook))
            && (r.outcome == Ok(GapDetected) ==> r.sync == s.(state := Gap, buffer := [u]))
            && (r.outcome.Ok? && r.outcome.value != GapDetected ==> r.sync.state == Live)
  {
  }

  lemma {:induction false} ApplyPendingBuffer(s: Sync, pending: seq<DepthUpdate>)
    requires BufferInvariant(s) && s.state == Live
    requires Ordered(pending) && |pending| <= s.capacity
    ensures var r := ApplyPending(s, pending);
            && BufferInvariant(r.sync)
            && r.sync.capacity == s.capacity
            && (r.outcome.Ok? || r.outcome == Err(InvalidBook))
            && (r.outcome.Ok? ==> (r.outcome.value.0 == Synchronized && r.sync.state == Live) || r.outcome.value.0 == BridgeGap)
    decreases pending
  {
    if pending != [] {
      var first := ApplyLive(s, pending[0]);
      ApplyLiveBuffer(s, pending[0]);
      if first.outcome.Ok? {
        if first.outcome.value == GapDetected {
          assert first.sync.buffer + pending[1..] == pending;
        } else {
          ApplyPendingBuffer(first.sync, pending[1..]);
        }
      }
    }
  }

  /** Every call keeps the buffer invariant, and the stale-event error is never raised. */
  lemma StepKeepsBuffer(s: Sync, call: Call)
    requires BufferInvariant(s)
    ensures BufferInvariant(After(s, call)) && After(s, call).capacity == s.capacity
    ensures Raised(s, call) != Some(StaleEventsRemained)
  {
    match call
    case IngestCall(u) =>
      if s.state == Live {
        ApplyLiveBuffer(s, u);
      }
    case ResetCall(_) =>
    case InstallCall(snapshot) =>
      InstallKeepsBuffer(s, snapshot);
  }

  lemma InstallKeepsBuffer(s: Sync, snapshot: Snapshot)
    requires BufferInvariant(s)
    ensures BufferInvariant(Install(s, snapshot).sync) && Install(s, snapshot).sync.capacity == s.capacity
    ensures Install(s, snapshot).outcome != Err(StaleEventsRemained)
  {
    hide Sound, Installed;
    var pending := Retained(s.buffer, snapshot.lastUpdateId);
    RetainedIsSuffix(s.buffer, snapshot.lastUpdateId);
    ApplyPendingBuffer(s.(buffer := [], state := Live, book := Installed(snapshot)), pending);
  }

  // ----- runs

  datatype Call =
    | IngestCall(update: DepthUpdate)
    | InstallCall(snapshot: Snapshot)
    | ResetCall(preserveBuffer: bool)

  function After(s: Sync, call: Call): Sync {
    match call
    case IngestCall(u) => Ingest(s, u).sync
    case InstallCall(snapshot) => Install(s, snapshot).sync
    case ResetCall(preserve) => Reset(s, preserve)
  }

  function Raised(s: Sync, call: Call): Option<SyncError> {
    match call
    case IngestCall(u) => (match Ingest(s, u).outcome case Err(e) => Some(e) case Ok(_) => None)
    case InstallCall(snapshot) => (match Install(s, snapshot).outcome case Err(e) => Some(e) case Ok(_) => None)
    case ResetCall(_) => None
  }

  function Run(s: Sync, calls: seq<Call>): Sync
    decreases calls
  {
    if calls == [] then s else Run(After(s, calls[0]), calls[1..])
  }

  /** Call i of the run returns, or raises because of the buffer's capacity or order. */
  ghost predicate RaisesOnlyForTheBuffer(s: Sync, calls: seq<Call>, i: nat)
    requires i < |calls|
  {
    var raised := Raised(Run(s, calls[..i]), calls[i]);
    raised != Some(InvalidBook) && raised != Some(StaleEventsRemained)
  }

  ghost predicate FaithfulCall(ex: Exchange, call: Call) {
    match call
    case IngestCall(u) => FaithfulUpdate(ex, u)
    case InstallCall(snapshot) => FaithfulSnapshot(ex, snapshot)
    case ResetCall(_) => true
  }

  lemma ApplyLiveTracks(ex: Exchange, s: Sync, u: DepthUpdate)
    requires ValidExchange(ex) && FaithfulUpdate(ex, u)
    requires BufferInvariant(s) && s.state == Live && TracksExchange(ex, s)
    ensures var r := ApplyLive(s, u);
            && TracksExchange(ex, r.sync)
            && r.outcome.Ok?
            && (r.outcome == Ok(GapDetected) <==> u.firstUpdateId > s.book.lastUpdateId + 1)
            && (r.outcome != Ok(GapDetected) ==>
                  r.sync.state == Live &&
                  r.sync.book.lastUpdateId ==
                    if u.finalUpdateId > s.book.lastUpdateId then u.finalUpdateId else s.book.lastUpdateId)
  {
    var local := s.book.lastUpdateId;
    if u.finalUpdateId > local && u.firstUpdateId <= local + 1 {
      ApplyFaithful(ex, local, u);
      assert Sound(ex(u.finalUpdateId));
    }
  }

  lemma {:induction false} ApplyPendingTracks(ex: Exchange, s: Sync, pending: seq<DepthUpdate>)
    requires ValidExchange(ex) && AllFaithful(ex, pending)
    requires BufferInvariant(s) && s.state == Live && TracksExchange(ex, s)
    requires Ordered(pending) && |pending| <= s.capacity
    ensures var r := ApplyPending(s, pending);
            && TracksExchange(ex, r.sync)
            && r.outcome.Ok?
    decreases pending
  {
    if pending != [] {
      var first := ApplyLive(s, pending[0]);
      ApplyLiveBuffer(s, pending[0]);
      ApplyLiveTracks(ex, s, pending[0]);
      if first.outcome != Ok(GapDetected) {
        ApplyPendingTracks(ex, first.sync, pending[1..]);
      }
    }
  }

  lemma StepTracks(ex: Exchange, s: Sync, call: Call)
    requires ValidExchange(ex) && FaithfulCall(ex, call)
    requires BufferInvariant(s) && TracksExchange(ex, s)
    ensures TracksExchange(ex, After(s, call))
    ensures Raised(s, call) != Some(InvalidBook)
  {
    match call
    case IngestCall(u) =>
      if s.state == Live {
        ApplyLiveTracks(ex, s, u);
      }
    case ResetCall(_) =>
    case InstallCall(snapshot) =>
      var pending := Retained(s.buffer, snapshot.lastUpdateId);
      RetainedIsSuffix(s.buffer, snapshot.lastUpdateId);
      assert Sound(ex(snapshot.lastUpdateId));
      ApplyPendingTracks(ex, s.(buffer := [], state := Live, book := Installed(snapshot)), pending);
  }

  /**
   On every run over a faithful stream the local book is cleared or is the exchange's book at the
   local identifier, the buffer stays ordered and within capacity, a live synchronizer has an
   empty buffer, and no call raises for a bad book or for left-over stale events.
   */
  lemma {:induction false} RunTracksExchange(ex: Exchange, s: Sync, calls: seq<Call>)
    requires ValidExchange(ex) && BufferInvariant(s) && TracksExchange(ex, s)
    requires forall c | c in calls :: FaithfulCall(ex, c)
    ensures BufferInvariant(Run(s, calls)) && TracksExchange(ex, Run(s, calls))
    ensures forall i | 0 <= i < |calls| :: RaisesOnlyForTheBuffer(s, calls, i)
    decreases calls
  {
    if calls != [] {
      StepKeepsBuffer(s, calls[0]);
      StepTracks(ex, s, calls[0]);
      RunTracksExchange(ex, After(s, calls[0]), calls[1..]);
      forall i | 0 <= i < |calls|
        ensures RaisesOnlyForTheBuffer(s, calls, i)
      {
        if i == 0 {
          assert calls[..i] == [];
        } else {
          assert calls[..i][0] == calls[0] && calls[..i][1..] == calls[1..][..i - 1];
          assert RaisesOnlyForTheBuffer(After(s, calls[0]), calls[1..], i - 1);
        }
      }
    }
  }

  lemma SynchronizerTracksExchange(ex: Exchange, capacity: nat, calls: seq<Call>)
    requires ValidExchange(ex) && capacity > 0
    requires forall c | c in calls :: FaithfulCall(ex, c)
    ensures var s := Run(Initial(capacity), calls);
            && (s.book == EMPTY || s.book == ex(s.book.lastUpdateId))
            && (s.state == Live ==> s.book != EMPTY && s.buffer == [])
            && Ordered(s.buffer) && |s.buffer| <= s.capacity
    ensures forall i | 0 <= i < |calls| :: RaisesOnlyForTheBuffer(Initial(capacity), calls, i)
  {
    RunTracksExchange(ex, Initial(capacity), calls);
  }

  // ----- when a bridge succeeds

  ghost predicate Contiguous(updates: seq<DepthUpdate>) {
    forall i | 0 < i < |updates| :: updates[i].firstUpdateId <= updates[i - 1].finalUpdateId + 1
  }

  lemma ContiguousSplits(updates: seq<DepthUpdate>)
    requires updates != []
    ensures var rest := updates[1..];
            Contiguous(updates) <==>
              rest == [] || (rest[0].firstUpdateId <= updates[0].finalUpdateId + 1 && Contiguous(rest))
  {
    var rest := updates[1..];
    if rest != [] && rest[0].firstUpdateId <= updates[0].finalUpdateId + 1 && Contiguous(rest) {
      forall i | 0 < i < |updates|
        ensures updates[i].firstUpdateId <= updates[i - 1].finalUpdateId + 1
      {
        assert updates[i] == rest[i - 1];
      }
    }
    if Contiguous(updates) {
      forall i | 0 < i < |rest|
        ensures rest[i].firstUpdateId <= rest[i - 1].finalUpdateId + 1
      {
        assert rest[i] == updates[i + 1];
      }
    }
  }

  lemma {:induction false} PendingSynchronizes(ex: Exchange, s: Sync, pending: seq<DepthUpdate>)
    requires ValidExchange(ex) && AllFaithful(ex, pending)
    requires BufferInvariant(s) && s.state == Live && TracksExchange(ex, s)
    requires Ordered(pending) && |pending| <= s.capacity
    requires pending != [] ==> pending[0].finalUpdateId >= s.book.lastUpdateId
    ensures var r := ApplyPending(s, pending);
            var bridges := pending == [] ||
              (pending[0].firstUpdateId <= s.book.lastUpdateId + 1 && Contiguous(pending));
            && r.outcome.Ok?
            && (r.outcome.value.0 == Synchronized <==> bridges)
            && (bridges && pending != [] ==> r.sync.book == ex(pending[|pending| - 1].finalUpdateId))
    decreases pending
  {
    ApplyPendingTracks(ex, s, pending);
    if pending != [] {
      var first := ApplyLive(s, pending[0]);
      ApplyLiveBuffer(s, pending[0]);
      ApplyLiveTracks(ex, s, pending[0]);
      var rest := pending[1..];
      if first.outcome != Ok(GapDetected) {
        PendingSynchronizes(ex, first.sync, rest);
        ContiguousSplits(pending);
      }
    }
  }

  /**
   Installing a snapshot synchronizes exactly when an event remains after the stale ones are
   dropped, the first one spans lastUpdateId + 1 and the rest follow without a hole. The book is
   then the exchange's at the last buffered identifier.
   */
  lemma BridgeSucceedsIff(ex: Exchange, s: Sync, snapshot: Snapshot)
    requires ValidExchange(ex) && FaithfulSnapshot(ex, snapshot)
    requires BufferInvariant(s) && TracksExchange(ex, s)
    ensures var r := Install(s, snapshot);
            var kept := Retained(s.buffer, snapshot.lastUpdateId);
            && r.outcome.Ok?
            && (r.outcome.value.result == Synchronized <==>
                  kept != [] && kept[0].firstUpdateId <= snapshot.lastUpdateId + 1 && Contiguous(kept))
            && (r.outcome.value.result == Synchronized ==>
                  r.sync.state == Live && r.sync.buffer == [] &&
                  r.sync.book == ex(s.buffer[|s.buffer| - 1].finalUpdateId))
  {
    hide Install, ApplyPending;
    var kept := Retained(s.buffer, snapshot.lastUpdateId);
    RetainedIsSuffix(s.buffer, snapshot.lastUpdateId);
    assert Sound(ex(snapshot.lastUpdateId));
    if kept != [] && kept[0].firstUpdateId <= snapshot.lastUpdateId + 1 {
      var live := s.(buffer := [], state := Live, book := Installed(snapshot));
      PendingSynchronizes(ex, live, kept);
      ApplyPendingBuffer(live, kept);
      SpanningInstallBridges(s, snapshot);
      assert kept[|kept| - 1] == s.buffer[|s.buffer| - 1];
    } else {
      OtherwiseNoBridge(s, snapshot);
    }
  }

  lemma OtherwiseNoBridge(s: Sync, snapshot: Snapshot)
    requires Sound(Installed(snapshot))
    requires var kept := Retained(s.buffer, snapshot.lastUpdateId);
             kept == [] || kept[0].firstUpdateId > snapshot.lastUpdateId + 1
    ensures var r := Install(s, snapshot); r.outcome.Ok? && r.outcome.value.result != Synchronized
  {
  }

  lemma SpanningInstallBridges(s: Sync, snapshot: Snapshot)
    requires Sound(Installed(snapshot))
    requires var kept := Retained(s.buffer, snapshot.lastUpdateId);
             kept != [] && kept[0].firstUpdateId <= snapshot.lastUpdateId + 1
    ensures var kept := Retained(s.buffer, snapshot.lastUpdateId);
            var bridged := ApplyPending(s.(buffer := [], state := Live, book := Installed(snapshot)), kept);
            var r := Install(s, snapshot);
            && r.sync == bridged.sync
            && (r.outcome.Ok? <==> bridged.outcome.Ok?)
            && (r.outcome.Ok? ==> r.outcome.value.result == bridged.outcome.value.0)
  {
    RetainedIsSuffix(s.buffer, snapshot.lastUpdateId);
  }
}
