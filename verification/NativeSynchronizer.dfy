/**
 The native twin of the snapshot synchronizer. It shares every operation but the bridge, which takes
 one event at a time off the buffer and, at a gap, puts it back behind those still there.
 */
module NativeSynchronizer {
  import opened Results
  import opened L2Types
  import opened OrderBook
  import opened Synchronizer
  import opened SynchronizerProperties

  datatype Drained = Drained(result: SnapshotResult, appliedEvents: nat)

  lemma LiveKeepsBuffer(s: Sync, u: DepthUpdate)
    ensures var r := ApplyLive(s, u);
      r.outcome == Ok(Accepted) || r.outcome == Ok(IgnoredStale) ==> r.sync.buffer == s.buffer
  {
  }

  /** Applies buffered events from the front until the buffer is empty or a gap shows. */
  function Drain(s: Sync): Step<Drained>
    decreases |s.buffer|
  {
    if s.buffer == [] then Step(s, Ok(Drained(Synchronized, 0)))
    else
      LiveKeepsBuffer(s.(buffer := s.buffer[1..]), s.buffer[0]);
      var one := ApplyLive(s.(buffer := s.buffer[1..]), s.buffer[0]);
      match one.outcome
      case Err(e) => Step(one.sync, Err(e))
      case Ok(GapDetected) => Step(one.sync, Ok(Drained(BridgeGap, 0)))
      case Ok(Buffered) => Step(one.sync, Ok(Drained(BridgeGap, 0)))
      case Ok(Accepted) => WithCount(1, Drain(one.sync))
      case Ok(IgnoredStale) => Drain(one.sync)
  }

  function WithCount(count: nat, rest: Step<Drained>): Step<Drained> {
    Step(rest.sync, match rest.outcome
                    case Err(e) => Err(e)
                    case Ok(d) => Ok(Drained(d.result, count + d.appliedEvents)))
  }

  method DrainBuffer(sync: DepthSynchronizer) returns (r: Result<Drained, SyncError>)
    modifies sync, sync.book
    ensures Step(sync.View(), r) == Drain(old(sync.View()))
  {
    hide ApplyLive;
    var applied := 0;
    ghost var whole := Drain(sync.View());
    assert WithCount(0, whole) == whole;
    while sync.buffer != []
      invariant WithCount(applied, Drain(sync.View())) == whole
      decreases |sync.buffer|
    {
      ghost var before := sync.View();
      var event := sync.buffer[0];
      sync.buffer := sync.buffer[1..];
      LiveKeepsBuffer(before.(buffer := before.buffer[1..]), event);
      NeverBuffered(before.(buffer := before.buffer[1..]), event);
      var one := sync.ApplyOne(event);
      if one.Err? {
        return Err(one.error);
      }
      if one.value == GapDetected {
        return Ok(Drained(BridgeGap, applied));
      }
      if one.value == Accepted {
        applied := applied + 1;
      }
    }
    return Ok(Drained(Synchronized, applied));
  }

  lemma NeverBuffered(s: Sync, u: DepthUpdate)
    ensures ApplyLive(s, u).outcome != Ok(Buffered)
  {
  }

  // ----- the two bridges compared

  /** The retained events from the first gap on; none when the bridge meets no gap or raises before. */
  function FromGap(s: Sync, pending: seq<DepthUpdate>): seq<DepthUpdate>
    decreases pending
  {
    if pending == [] then []
    else if s.book.lastUpdateId < pending[0].finalUpdateId && pending[0].firstUpdateId > s.book.lastUpdateId + 1 then pending
    else
      var one := ApplyLive(s, pending[0]);
      if one.outcome.Err? then [] else FromGap(one.sync, pending[1..])
  }

  function Bridged(p: Step<(SnapshotResult, seq<DepthUpdate>)>): Step<Drained> {
    Step(p.sync, match p.outcome
                 case Err(e) => Err(e)
                 case Ok((result, applied)) => Ok(Drained(result, |applied|)))
  }

  lemma BridgedCounts(first: seq<DepthUpdate>, rest: Step<(SnapshotResult, seq<DepthUpdate>)>)
    ensures Bridged(WithPrefix(first, rest)) == WithCount(|first|, Bridged(rest))
  {
  }

  /** One event off the front, no gap: both bridges take the same step. */
  lemma StepsAlike(s: Sync, pending: seq<DepthUpdate>)
    requires s.buffer == [] && pending != []
    requires !(s.book.lastUpdateId < pending[0].finalUpdateId && pending[0].firstUpdateId > s.book.lastUpdateId + 1)
    ensures var one, other := ApplyLive(s, pending[0]), ApplyLive(s.(buffer := pending[1..]), pending[0]);
      && one.outcome == other.outcome && other.sync == one.sync.(buffer := pending[1..]) && one.sync.buffer == []
      && one.sync.capacity == s.capacity && one.outcome != Ok(GapDetected) && one.outcome != Ok(Buffered)
  {
  }

  /**
   What the native bridge does where the other keeps the events from the gap on in order: with later
   events of a greater id it raises and has lost the event; otherwise it moves the event to the back.
   */
  ghost predicate NativeGap(native: Step<Drained>, reference: Step<Drained>, tail: seq<DepthUpdate>)
    requires tail != []
  {
    var last := tail[|tail| - 1];
    if tail[0].finalUpdateId < last.finalUpdateId then
      native.outcome == Err(OutOfOrder) && native.sync == reference.sync.(buffer := tail[1..])
    else
      native.outcome == reference.outcome && native.sync == reference.sync.(buffer := tail[1..] + [tail[0]])
  }

  lemma {:induction false} BridgesCompared(s: Sync, pending: seq<DepthUpdate>)
    requires s.state == Live && s.buffer == [] && Ordered(pending) && |pending| <= s.capacity
    ensures var native, reference := Drain(s.(buffer := pending)), Bridged(ApplyPending(s, pending));
      var tail := FromGap(s, pending);
      if tail == [] then
        native.outcome == reference.outcome && (native.outcome.Ok? ==> native.sync == reference.sync)
      else
        && reference.outcome.Ok? && reference.outcome.value.result == BridgeGap && reference.sync.buffer == tail
        && NativeGap(native, reference, tail)
    decreases pending
  {
    hide Applied, Sound;
    if pending == [] {
      assert s.(buffer := pending) == s;
    } else if s.book.lastUpdateId < pending[0].finalUpdateId && pending[0].firstUpdateId > s.book.lastUpdateId + 1 {
      assert [pending[0]] + pending[1..] == pending;
    } else {
      StepsAlike(s, pending);
      PendingUnfolds(s, pending);
      var one := ApplyLive(s, pending[0]);
      if one.outcome.Ok? {
        BridgesCompared(one.sync, pending[1..]);
        NoPrefix(ApplyPending(one.sync, pending[1..]));
        BridgedCounts(if one.outcome == Ok(Accepted) then [pending[0]] else [], ApplyPending(one.sync, pending[1..]));
      }
    }
  }

  /**
   The twins bridge alike exactly when the bridge meets no gap, or nothing but copies of the event
   that shows it follow.
   */
  lemma TwinsAgreeIff(s: Sync, pending: seq<DepthUpdate>)
    requires s.state == Live && s.buffer == [] && Ordered(pending) && |pending| <= s.capacity
    requires Bridged(ApplyPending(s, pending)).outcome.Ok?
    ensures var tail := FromGap(s, pending);
      Drain(s.(buffer := pending)) == Bridged(ApplyPending(s, pending))
      <==> tail == [] || forall u | u in tail :: u == tail[0]
  {
    hide Drain, ApplyPending, FromGap, Bridged;
    BridgesCompared(s, pending);
    var tail := FromGap(s, pending);
    if tail != [] {
      RotationsEqualIff(tail);
    }
  }

  lemma {:induction false} RotationsEqualIff(tail: seq<DepthUpdate>)
    requires tail != []
    ensures tail[1..] + [tail[0]] == tail <==> forall u | u in tail :: u == tail[0]
  {
    if tail[1..] + [tail[0]] == tail {
      forall i | 0 <= i < |tail| ensures tail[i] == tail[0] {
        AllAsFirst(tail, i);
      }
    }
    if forall u | u in tail :: u == tail[0] {
      assert forall i | 0 <= i < |tail| :: tail[i] in tail;
      assert tail[1..] + [tail[0]] == tail;
    }
  }

  lemma {:induction false} AllAsFirst(tail: seq<DepthUpdate>, i: nat)
    requires i < |tail| && tail[1..] + [tail[0]] == tail
    ensures tail[i] == tail[0]
    decreases i
  {
    if i > 0 {
      AllAsFirst(tail, i - 1);
      assert (tail[1..] + [tail[0]])[i - 1] == tail[i];
    }
  }

  /** The native bridge raises for the order of events exactly when a later retained event follows a gap. */
  lemma NativeRaisesIff(s: Sync, pending: seq<DepthUpdate>)
    requires s.state == Live && s.buffer == [] && Ordered(pending) && |pending| <= s.capacity
    ensures var tail := FromGap(s, pending);
      Drain(s.(buffer := pending)).outcome == Err(OutOfOrder)
      <==> tail != [] && tail[0].finalUpdateId < tail[|tail| - 1].finalUpdateId
  {
    hide Drain, ApplyPending, FromGap;
    BridgesCompared(s, pending);
    OnlyTheBook(s, pending);
  }

  lemma {:induction false} OnlyTheBook(s: Sync, pending: seq<DepthUpdate>)
    requires s.state == Live && s.buffer == [] && Ordered(pending) && |pending| <= s.capacity
    ensures ApplyPending(s, pending).outcome != Err(OutOfOrder)
    decreases pending
  {
    hide Applied, Sound;
    if pending != [] {
      var one := ApplyLive(s, pending[0]);
      if one.outcome == Ok(Accepted) || one.outcome == Ok(IgnoredStale) {
        OnlyTheBook(one.sync, pending[1..]);
      }
    }
  }

  // ----- a bridge that raises

  const FIRST := Book(map[10 := 5], map[20 := 5], 1)

  function Unchanged(id: PosU64): DepthUpdate { DepthFields(1, 0, id, id, [], []) }

  /** The buffered events skip identifier 3. */
  const SKIPPING := [Unchanged(2), Unchanged(4), Unchanged(5)]

  const BRIDGING := Sync(FIRST, Live, [], 8, 0)

  /**
   With a later event behind the one that shows the gap, one bridge returns a gap and keeps both
   events; the native one raises for their order and has lost the first of them.
   */
  lemma NativeBridgeRaises()
    ensures var reference, native := ApplyPending(BRIDGING, SKIPPING), Drain(BRIDGING.(buffer := SKIPPING));
      && reference.outcome.Ok? && reference.outcome.value.0 == BridgeGap
      && reference.sync.buffer == [Unchanged(4), Unchanged(5)]
      && native.outcome == Err(OutOfOrder)
      && native.sync.buffer == [Unchanged(5)]
  {
    var tail := [Unchanged(4), Unchanged(5)];
    var second := Book(map[10 := 5], map[20 := 5], 2);
    assert Applied(FIRST, Unchanged(2)) == second;
    assert 10 in second.bids && 20 in second.asks;
    assert Sound(second);
    var next := BRIDGING.(book := second);
    assert ApplyLive(BRIDGING, Unchanged(2)) == Step(next, Ok(Accepted));
    assert SKIPPING[1..] == tail;
    assert FromGap(next, tail) == tail;
    assert FromGap(BRIDGING, SKIPPING) == tail;
    assert tail[1..] == [Unchanged(5)];
    hide FromGap, ApplyPending, Drain, Sound, Applied;
    BridgesCompared(BRIDGING, SKIPPING);
  }
}
