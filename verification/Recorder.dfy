/**
 The asynchronous top-of-book recorder: a producer thread in record(), the writer thread and the
 thread that stops both, interleaved step by step. The queue between them is the first-in first-out
 queue the ring buffer refines, with its freedom to refuse a push or to hand out too little.
 */
module Recorder {

  const WRITE_BATCH := 4096

  datatype Entry<S> = Entry(state: S, updateId: nat)

  datatype ProducerPc<S> =
    | Outside
    | Admitted(entry: Entry<S>)
    | Queued(entry: Entry<S>)
    | Counted(entry: Entry<S>)

  datatype WriterPc<S> =
    | Polling
    | FoundEmpty
    | Writing(batch: seq<Entry<S>>)
    | Exited

  datatype StopPc = Running | Joining | Closing | Finished

  /**
   `pushed` lists every entry the queue ever took. `market` and `ids` are what the two streams
   hold; after a failed write they hold something unknown, which `damaged` records.
   */
  datatype Recorder<S> = Recorder(
    active: bool, queue: seq<Entry<S>>, pushed: seq<Entry<S>>,
    producer: ProducerPc<S>, writer: WriterPc<S>, stopper: StopPc,
    accepted: nat, recorded: nat, dropped: nat, errors: nat, errorReported: bool,
    firstId: nat, lastId: nat, market: seq<S>, ids: seq<nat>, damaged: bool, dataComplete: bool)

  datatype Action<S> =
    | Refuse
    | Admit(entry: Entry<S>)
    | Push
    | Drop
    | CountAccepted
    | StoreIds
    | Consume(count: nat)
    | WriteBatch(marketOk: bool, idsOk: bool, unknownMarket: seq<S>, unknownIds: seq<nat>)
    | PollActive
    | RequestStop
    | JoinWriter
    | CloseFiles(flushed: bool)

  predicate Enabled<S>(r: Recorder<S>, a: Action<S>) {
    match a
    case Refuse => r.producer.Outside? && r.stopper.Running?
    case Admit(_) => r.producer.Outside? && r.stopper.Running? && r.active
    case Push => r.producer.Admitted?
    case Drop => r.producer.Admitted?
    case CountAccepted => r.producer.Queued?
    case StoreIds => r.producer.Counted?
    case Consume(count) => r.writer.Polling? && count <= |r.queue| && count <= WRITE_BATCH
    case WriteBatch(_, _, _, _) => r.writer.Writing?
    case PollActive => r.writer.FoundEmpty?
    // The producer has been joined by the time the recorder is told to stop.
    case RequestStop => r.stopper.Running? && r.producer.Outside?
    case JoinWriter => r.stopper.Joining? && r.writer.Exited?
    case CloseFiles(_) => r.stopper.Closing?
  }

  function NoteError<S>(r: Recorder<S>): Recorder<S> {
    if r.errorReported then r else r.(errorReported := true, errors := r.errors + 1)
  }

  function States<S>(entries: seq<Entry<S>>): seq<S> {
    seq(|entries|, i requires 0 <= i < |entries| => entries[i].state)
  }

  function Ids<S>(entries: seq<Entry<S>>): seq<nat> {
    seq(|entries|, i requires 0 <= i < |entries| => entries[i].updateId)
  }

  function Next<S>(r: Recorder<S>, a: Action<S>): Recorder<S>
    requires Enabled(r, a)
  {
    match a
    case Refuse => r
    case Admit(entry) => r.(producer := Admitted(entry))
    case Push => r.(queue := r.queue + [r.producer.entry], pushed := r.pushed + [r.producer.entry],
                    producer := Queued(r.producer.entry))
    case Drop => r.(dropped := r.dropped + 1, producer := Outside)
    case CountAccepted => r.(accepted := r.accepted + 1, producer := Counted(r.producer.entry))
    case StoreIds =>
      var id := r.producer.entry.updateId;
      r.(firstId := if id != 0 && r.firstId == 0 then id else r.firstId,
         lastId := if id != 0 then id else r.lastId, producer := Outside)
    case Consume(count) =>
      if count == 0 then r.(writer := FoundEmpty)
      else r.(writer := Writing(r.queue[..count]), queue := r.queue[count..])
    case WriteBatch(marketOk, idsOk, unknownMarket, unknownIds) =>
      var batch := r.writer.batch;
      if marketOk && idsOk then
        r.(market := r.market + States(batch), ids := r.ids + Ids(batch),
           recorded := r.recorded + |batch|, writer := Polling)
      else
        NoteError(r).(market := unknownMarket, ids := unknownIds, damaged := true, active := false, writer := Exited)
    case PollActive => r.(writer := if r.active then Polling else Exited)
    case RequestStop => r.(active := false, stopper := Joining)
    case JoinWriter => r.(stopper := Closing)
    case CloseFiles(flushed) =>
      var closed := if flushed then r else NoteError(r).(damaged := true);
      closed.(stopper := Finished,
              dataComplete := closed.dropped == 0 && closed.errors == 0 && closed.recorded == closed.accepted)
  }

  ghost predicate Initial<S>(r: Recorder<S>) {
    && r.active && r.queue == r.pushed == [] && r.producer.Outside? && r.writer.Polling? && r.stopper.Running?
    && r.accepted == r.recorded == r.dropped == r.errors == 0 && !r.errorReported
    && r.firstId == r.lastId == 0 && r.market == [] && r.ids == [] && !r.damaged && !r.dataComplete
  }

  // ----- the invariant of every interleaving

  function InFlight<S>(r: Recorder<S>): seq<Entry<S>> {
    if r.writer.Writing? then r.writer.batch else []
  }

  /** Pushed entries are the written ones, then the ones in the writer's hands, then the queued ones. */
  ghost predicate Conserved<S>(r: Recorder<S>) {
    && r.recorded <= |r.pushed|
    && r.pushed[r.recorded..] == InFlight(r) + r.queue
    && r.market == States(r.pushed[..r.recorded])
    && r.ids == Ids(r.pushed[..r.recorded])
  }

  /** The entries whose identifiers record() has published. */
  function Published<S>(r: Recorder<S>): seq<Entry<S>>
    requires (r.producer.Queued? || r.producer.Counted?) ==> |r.pushed| > 0
  {
    if r.producer.Queued? || r.producer.Counted? then r.pushed[..|r.pushed| - 1] else r.pushed
  }

  function FirstNonZero(ids: seq<nat>): nat {
    if ids == [] then 0 else if ids[0] != 0 then ids[0] else FirstNonZero(ids[1..])
  }

  function LastNonZero(ids: seq<nat>): nat {
    if ids == [] then 0
    else if ids[|ids| - 1] != 0 then ids[|ids| - 1] else LastNonZero(ids[..|ids| - 1])
  }

  ghost predicate IdsPublished<S>(r: Recorder<S>) {
    && ((r.producer.Queued? || r.producer.Counted?) ==>
          |r.pushed| > 0 && r.pushed[|r.pushed| - 1] == r.producer.entry)
    && r.firstId == FirstNonZero(Ids(Published(r))) && r.lastId == LastNonZero(Ids(Published(r)))
  }

  ghost predicate Control<S>(r: Recorder<S>) {
    && (r.errors > 0 <==> r.errorReported) && (r.damaged <==> r.errorReported)
    && |r.pushed| == r.accepted + (if r.producer.Queued? then 1 else 0)
    && (!r.stopper.Running? ==> r.producer.Outside? && !r.active)
    && (r.stopper.Closing? || r.stopper.Finished? ==> r.writer.Exited?)
    && (r.stopper.Finished? ==>
          (r.dataComplete <==> r.dropped == 0 && r.errors == 0 && r.recorded == r.accepted))
  }

  ghost predicate Invariant<S>(r: Recorder<S>) {
    && Control(r)
    && (!r.damaged ==> Conserved(r))
    && IdsPublished(r)
  }

  lemma {:induction false} FirstNonZeroAppend(ids: seq<nat>, id: nat)
    ensures FirstNonZero(ids + [id]) == if FirstNonZero(ids) == 0 then id else FirstNonZero(ids)
    decreases ids
  {
    if ids != [] {
      assert (ids + [id])[1..] == ids[1..] + [id];
      FirstNonZeroAppend(ids[1..], id);
    }
  }

  lemma LastNonZeroAppend(ids: seq<nat>, id: nat)
    ensures LastNonZero(ids + [id]) == if id != 0 then id else LastNonZero(ids)
  {
    assert (ids + [id])[..|ids|] == ids;
  }

  lemma ControlStep<S>(r: Recorder<S>, a: Action<S>)
    requires Control(r) && Enabled(r, a)
    ensures Control(Next(r, a))
  {
    hide States, Ids;
  }

  lemma PushConserves<S>(r: Recorder<S>)
    requires Conserved(r) && Enabled(r, Push)
    ensures Conserved(Next(r, Push))
  {
    hide States, Ids;
    var n := Next(r, Push);
    assert n.pushed[..n.recorded] == r.pushed[..r.recorded];
    assert n.pushed[n.recorded..] == r.pushed[r.recorded..] + [r.producer.entry];
    assert InFlight(r) + r.queue + [r.producer.entry] == InFlight(r) + (r.queue + [r.producer.entry]);
  }

  lemma ConsumeConserves<S>(r: Recorder<S>, count: nat)
    requires Conserved(r) && Enabled(r, Consume(count))
    ensures Conserved(Next(r, Consume(count)))
  {
    hide States, Ids;
    var n := Next(r, Consume(count));
    assert InFlight(r) + r.queue == r.queue by {
      assert [] + r.queue == r.queue;
    }
    assert InFlight(n) + n.queue == r.queue by {
      assert count == 0 ==> [] + r.queue == r.queue;
      assert r.queue[..count] + r.queue[count..] == r.queue;
    }
  }

  lemma ColumnsAppend<S>(a: seq<Entry<S>>, b: seq<Entry<S>>)
    ensures States(a + b) == States(a) + States(b)
    ensures Ids(a + b) == Ids(a) + Ids(b)
  {
  }

  lemma WriteConserves<S>(r: Recorder<S>, a: Action<S>)
    requires Conserved(r) && Enabled(r, a) && a.WriteBatch? && a.marketOk && a.idsOk
    ensures Conserved(Next(r, a))
  {
    hide States, Ids;
    var n, batch := Next(r, a), r.writer.batch;
    assert r.pushed[r.recorded..] == batch + r.queue;
    assert |r.pushed[r.recorded..]| == |batch| + |r.queue|;
    assert r.pushed[..n.recorded] == r.pushed[..r.recorded] + r.pushed[r.recorded..][..|batch|];
    assert r.pushed[r.recorded..][..|batch|] == batch;
    assert n.pushed[n.recorded..] == r.pushed[r.recorded..][|batch|..];
    ColumnsAppend(r.pushed[..r.recorded], batch);
    assert [] + r.queue == r.queue;
  }

  lemma PushPublishes<S>(r: Recorder<S>)
    requires IdsPublished(r) && Enabled(r, Push)
    ensures IdsPublished(Next(r, Push))
  {
    hide Ids;
    assert Next(r, Push).pushed[..|r.pushed|] == r.pushed;
  }

  lemma StoreIdsPublishes<S>(r: Recorder<S>)
    requires IdsPublished(r) && Enabled(r, StoreIds)
    ensures IdsPublished(Next(r, StoreIds))
  {
    hide Ids;
    var last := r.producer.entry;
    assert r.pushed == Published(r) + [last];
    ColumnsAppend(Published(r), [last]);
    assert Ids([last]) == [last.updateId] by {
      SingleId(last);
    }
    FirstNonZeroAppend(Ids(Published(r)), last.updateId);
    LastNonZeroAppend(Ids(Published(r)), last.updateId);
  }

  lemma SingleId<S>(e: Entry<S>)
    ensures Ids([e]) == [e.updateId]
  {
  }

  lemma ConservedFrame<S>(r: Recorder<S>, n: Recorder<S>)
    requires Conserved(r) && InFlight(n) == InFlight(r)
    requires n.queue == r.queue && n.pushed == r.pushed && n.recorded == r.recorded
    requires n.market == r.market && n.ids == r.ids
    ensures Conserved(n)
  {
  }

  lemma IdsFrame<S>(r: Recorder<S>, n: Recorder<S>)
    requires IdsPublished(r) && n.pushed == r.pushed && n.firstId == r.firstId && n.lastId == r.lastId
    requires (n.producer.Queued? || n.producer.Counted?) <==> (r.producer.Queued? || r.producer.Counted?)
    requires (n.producer.Queued? || n.producer.Counted?) ==> n.producer.entry == r.producer.entry
    ensures IdsPublished(n)
  {
  }

  lemma StepConserves<S>(r: Recorder<S>, a: Action<S>)
    requires Conserved(r) && Enabled(r, a) && !Next(r, a).damaged
    ensures Conserved(Next(r, a))
  {
    hide Conserved, States, Ids;
    match a
    case Push => PushConserves(r);
    case Consume(count) => ConsumeConserves(r, count);
    case WriteBatch(_, _, _, _) => WriteConserves(r, a);
    case _ => ConservedFrame(r, Next(r, a));
  }

  lemma StepPublishes<S>(r: Recorder<S>, a: Action<S>)
    requires IdsPublished(r) && Enabled(r, a)
    ensures IdsPublished(Next(r, a))
  {
    hide IdsPublished, States, Ids;
    match a
    case Push => PushPublishes(r);
    case StoreIds => StoreIdsPublishes(r);
    case _ => IdsFrame(r, Next(r, a));
  }

  lemma StepKeepsInvariant<S>(r: Recorder<S>, a: Action<S>)
    requires Invariant(r) && Enabled(r, a)
    ensures Invariant(Next(r, a))
  {
    hide Conserved, IdsPublished, Control, States, Ids;
    ControlStep(r, a);
    StepPublishes(r, a);
    if !Next(r, a).damaged {
      StepConserves(r, a);
    }
  }

  // ----- whole runs

  ghost predicate IsRun<S>(states: seq<Recorder<S>>, actions: seq<Action<S>>) {
    && |states| == |actions| + 1
    && Initial(states[0])
    && (forall i | 0 <= i < |actions| ::
          Enabled(states[i], actions[i]) && states[i + 1] == Next(states[i], actions[i]))
  }

  lemma {:induction false} RunKeepsInvariant<S>(states: seq<Recorder<S>>, actions: seq<Action<S>>, i: nat)
    requires IsRun(states, actions) && i < |states|
    ensures Invariant(states[i])
    decreases i
  {
    if i > 0 {
      RunKeepsInvariant(states, actions, i - 1);
      StepKeepsInvariant(states[i - 1], actions[i - 1]);
    }
  }

  /** On every interleaving nothing pushed is lost, repeated or reordered until a write fails. */
  lemma PushedIsConserved<S>(states: seq<Recorder<S>>, actions: seq<Action<S>>, i: nat)
    requires IsRun(states, actions) && i < |states|
    ensures var r := states[i];
            !r.damaged ==>
              && r.recorded <= |r.pushed|
              && r.pushed == r.pushed[..r.recorded] + InFlight(r) + r.queue
              && r.market == States(r.pushed[..r.recorded]) && r.ids == Ids(r.pushed[..r.recorded])
  {
    RunKeepsInvariant(states, actions, i);
    var r := states[i];
    if !r.damaged {
      assert r.pushed == r.pushed[..r.recorded] + r.pushed[r.recorded..];
    }
  }

  /**
   A finished recording is labelled complete exactly when nothing was dropped, no write or flush
   failed and the writer left nothing queued. Then the market file is every accepted record in order, the
   identifier file is their identifiers, and the metadata names the first and last of those.
   */
  lemma DataCompleteIff<S>(states: seq<Recorder<S>>, actions: seq<Action<S>>, i: nat)
    requires IsRun(states, actions) && i < |states| && states[i].stopper.Finished?
    ensures var r := states[i];
            && (r.dataComplete <==> r.dropped == 0 && !r.damaged && r.errors == 0 && r.queue == [])
            && (r.dataComplete ==>
                  && |r.pushed| == r.accepted
                  && r.market == States(r.pushed) && r.ids == Ids(r.pushed)
                  && r.firstId == FirstNonZero(r.ids) && r.lastId == LastNonZero(r.ids))
  {
    RunKeepsInvariant(states, actions, i);
    var r := states[i];
    if !r.damaged {
      assert |r.pushed[r.recorded..]| == |r.queue|;
      if r.recorded == r.accepted {
        assert r.pushed[..r.recorded] == r.pushed;
      }
    }
  }
}
