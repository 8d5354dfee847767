/**
 When a finished recording is labelled complete, written out event by event, and what a finish
 writes. Nothing here is said through the completeness rule of the finish itself.
 */
module CaptureComplete {
  import opened Results
  import opened L2Types
  import opened OrderBook
  import opened Recording
  import opened Capture
  import opened CaptureProperties
  import opened CaptureBuffer
  import opened CaptureFinish

  predicate HoldsBoundary(events: seq<Event>, reason: BoundaryReason) {
    exists i | 0 <= i < |events| :: events[i].BoundaryEvent? && events[i].reason == reason
  }

  /**
   What a finish writes: behind the recorded events the stop boundary, preceded by an overflow
   boundary when the queue dropped something; and, when there is a book, one checkpoint at the very
   end that names it.
   */
  lemma FinishWrites(c: Symbol, k: Counters, now: PosU64, hash: Book -> U64)
    requires Finish(c, k, now, hash).Ok?
    ensures var f, book := Finish(c, k, now, hash).value, c.sync.book;
            && (k.queueDrops == 0 ==> f.log.events == c.log.events + [BoundaryEvent(now, UserStop)])
            && (k.queueDrops > 0 ==>
                  f.log.events == c.log.events + [BoundaryEvent(now, QueueOverflow), BoundaryEvent(now, UserStop)])
            && f.finalUpdateId == book.lastUpdateId
            && (book.lastUpdateId == 0 ==> f.log.checkpoints == c.log.checkpoints && f.finalStateHash == 0)
            && (book.lastUpdateId > 0 ==>
                  && f.finalStateHash == hash(book) > 0
                  && |f.log.events| <= UINT64_MAX
                  && f.log.checkpoints == c.log.checkpoints + [Checkpoint(|f.log.events|, book.lastUpdateId, hash(book))])
  {
    hide DataComplete;
    assert c.log.events + [] == c.log.events;
  }

  /** A finish raises exactly when there is a book and its checkpoint is refused. */
  lemma FinishRaisesIff(c: Symbol, k: Counters, now: PosU64, hash: Book -> U64)
    requires IndicesGrow(c.log)
    ensures var n := |c.log.events| + (if k.queueDrops > 0 then 2 else 1);
            Finish(c, k, now, hash).Err? <==>
              c.sync.book.lastUpdateId > 0 && (hash(c.sync.book) == 0 || n > UINT64_MAX)
  {
    hide Count;
    var stopped := Stopped(c.log, k, now);
    assert |stopped.events| == |c.log.events| + (if k.queueDrops > 0 then 2 else 1);
    assert stopped.checkpoints == c.log.checkpoints;
    if c.log.checkpoints != [] {
      assert c.log.checkpoints[|c.log.checkpoints| - 1] in c.log.checkpoints;
    }
  }

  // ----- finished captures

  lemma {:induction false} NoEndings(events: seq<Event>)
    requires TallyOf(events).endings == 0
    ensures !HoldsBoundary(events, QueueOverflow) && !HoldsBoundary(events, UserStop)
    decreases |events|
  {
    if events != [] {
      var n := |events| - 1;
      NoEndings(events[..n]);
      forall i | 0 <= i < n
        ensures events[..n][i] == events[i]
      {
      }
      if i :| 0 <= i < |events| && events[i].BoundaryEvent? && events[i].reason in {QueueOverflow, UserStop} {
        assert i < n ==> events[..n][i].BoundaryEvent?;
      }
    }
  }

  /**
   A finished capture holds an overflow boundary exactly when the queue dropped something, and then
   it is never labelled complete; it holds one stop boundary, its last event.
   */
  lemma OverflowIsNeverComplete(
    capacity: nat, steps: seq<CaptureStep>, cfg: Config, k: Counters, now: PosU64)
    requires Finish(CaptureRun(Start(capacity), steps, cfg).symbol, k, now, cfg.hash).Ok?
    ensures var f := Finish(CaptureRun(Start(capacity), steps, cfg).symbol, k, now, cfg.hash).value;
            var n := |f.log.events| - 1;
            && (HoldsBoundary(f.log.events, QueueOverflow) <==> k.queueDrops > 0)
            && (HoldsBoundary(f.log.events, QueueOverflow) ==> !f.dataComplete)
            && n >= 0 && f.log.events[n] == BoundaryEvent(now, UserStop)
            && !HoldsBoundary(f.log.events[..n], UserStop)
  {
    hide CaptureRun, Finish, TallyOf;
    var d := CaptureRun(Start(capacity), steps, cfg).symbol;
    CaptureCounts(capacity, steps, cfg);
    NoEndings(d.log.events);
    FinishWrites(d, k, now, cfg.hash);
    CompleteIff(d, k, now, cfg.hash);
    var f := Finish(d, k, now, cfg.hash).value;
    var recorded, events := |d.log.events|, f.log.events;
    forall i | 0 <= i < recorded
      ensures events[i] == d.log.events[i]
      ensures events[i].BoundaryEvent? ==> events[i].reason !in {QueueOverflow, UserStop}
    {
      assert events[i] == d.log.events[i];
    }
    if k.queueDrops > 0 {
      assert events[recorded] == BoundaryEvent(now, QueueOverflow);
    }
  }
}
