/**
 What the calls of the recorder do when the other threads pause, what a whole run has offered, lost
 and written, and when stopping leaves something unwritten.
 */
module RecorderCalls {
  import opened Results
  import opened Recorder

  /** The state after these steps, if each of them can be taken. */
  function After<S>(r: Recorder<S>, actions: seq<Action<S>>): Option<Recorder<S>>
    decreases actions
  {
    if actions == [] then Some(r)
    else if !Enabled(r, actions[0]) then None
    else After(Next(r, actions[0]), actions[1..])
  }

  lemma After2<S>(r: Recorder<S>, a: Action<S>, b: Action<S>)
    requires Enabled(r, a) && Enabled(Next(r, a), b)
    ensures After(r, [a, b]) == Some(Next(Next(r, a), b))
  {
    hide Next, Enabled;
    var m := Next(r, a);
    assert [a, b][1..] == [b] && [b][1..] == [];
    assert After(Next(m, b), []) == Some(Next(m, b));
    assert After(m, [b]) == After(Next(m, b), []);
  }

  lemma {:induction false} AfterJoins<S>(r: Recorder<S>, a: seq<Action<S>>, m: Recorder<S>, b: seq<Action<S>>)
    requires After(r, a) == Some(m)
    ensures After(r, a + b) == After(m, b)
    decreases a
  {
    hide Next, Enabled;
    if a == [] {
      assert a + b == b;
    } else {
      assert (a + b)[0] == a[0] && (a + b)[1..] == a[1..] + b;
      AfterJoins(Next(r, a[0]), a[1..], m, b);
    }
  }

  // ----- record()

  /** A record that finds room: one entry more in the queue, its identifier published unless it is zero. */
  lemma RecordCall<S>(r: Recorder<S>, e: Entry<S>) returns (n: Recorder<S>)
    requires r.active && r.stopper.Running? && r.producer.Outside?
    ensures After(r, [Admit(e), Push] + [CountAccepted, StoreIds]) == Some(n)
    ensures n.queue == r.queue + [e] && n.pushed == r.pushed + [e]
    ensures n.accepted == r.accepted + 1 && n.dropped == r.dropped && n.producer == Outside
    ensures n.lastId == (if e.updateId == 0 then r.lastId else e.updateId)
    ensures n.firstId == (if r.firstId == 0 then e.updateId else r.firstId)
    ensures (n.writer, n.stopper, n.active, n.market, n.ids, n.recorded, n.errors, n.damaged) ==
            (r.writer, r.stopper, r.active, r.market, r.ids, r.recorded, r.errors, r.damaged)
  {
    hide After;
    After2(r, Admit(e), Push);
    var m := Next(Next(r, Admit(e)), Push);
    After2(m, CountAccepted, StoreIds);
    n := Next(Next(m, CountAccepted), StoreIds);
    AfterJoins(r, [Admit(e), Push], m, [CountAccepted, StoreIds]);
  }

  /** A record that finds the queue full is counted as dropped and leaves nothing else behind. */
  lemma DroppedCall<S>(r: Recorder<S>, e: Entry<S>)
    requires r.active && r.stopper.Running? && r.producer.Outside?
    ensures After(r, [Admit(e), Drop]) == Some(r.(dropped := r.dropped + 1))
  {
    hide After;
    After2(r, Admit(e), Drop);
    assert Next(Next(r, Admit(e)), Drop) == r.(dropped := r.dropped + 1);
  }

  // ----- the writer loop

  /** A batch that can be written goes from the front of the queue to the ends of both files. */
  lemma WriteCall<S>(r: Recorder<S>, count: nat)
    requires r.writer.Polling? && 0 < count <= |r.queue| && count <= WRITE_BATCH
    ensures After(r, [Consume(count), WriteBatch(true, true, [], [])]) ==
            Some(r.(queue := r.queue[count..], market := r.market + States(r.queue[..count]),
                    ids := r.ids + Ids(r.queue[..count]), recorded := r.recorded + count))
  {
    hide After, States, Ids;
    After2(r, Consume(count), WriteBatch(true, true, [], []));
  }

  /** A batch that cannot be written stops the recorder, and no recording is complete after it. */
  lemma FailedCall<S>(r: Recorder<S>, count: nat, a: Action<S>)
    requires r.writer.Polling? && 0 < count <= |r.queue| && count <= WRITE_BATCH
    requires a.WriteBatch? && !(a.marketOk && a.idsOk) && (r.errorReported ==> r.errors > 0)
    ensures After(r, [Consume(count), a]).Some?
    ensures var n := After(r, [Consume(count), a]).value;
      && !n.active && n.writer.Exited? && n.damaged && n.errors > 0
      && n.queue == r.queue[count..] && n.recorded == r.recorded && n.pushed == r.pushed
  {
    hide After, States, Ids;
    After2(r, Consume(count), a);
  }

  /** Finding nothing, the writer looks again while the recorder is active and ends otherwise. */
  lemma EmptyCall<S>(r: Recorder<S>)
    requires r.writer.Polling?
    ensures After(r, [Consume(0), PollActive]) == Some(r.(writer := if r.active then Polling else Exited))
  {
    hide After;
    After2(r, Consume(0), PollActive);
  }

  /** Closing: complete exactly when both streams flushed, nothing was lost and everything was written. */
  lemma CloseCall<S>(r: Recorder<S>, flushed: bool)
    requires r.stopper.Joining? && r.writer.Exited? && (r.errorReported ==> r.errors > 0)
    ensures After(r, [JoinWriter, CloseFiles(flushed)]).Some?
    ensures var n := After(r, [JoinWriter, CloseFiles(flushed)]).value;
      && n.stopper.Finished?
      && (n.dataComplete <==> flushed && r.dropped == 0 && r.errors == 0 && r.recorded == r.accepted)
      && (flushed ==> n.errors == r.errors && n.damaged == r.damaged)
      && (n.queue, n.pushed, n.market, n.ids, n.firstId, n.lastId) ==
         (r.queue, r.pushed, r.market, r.ids, r.firstId, r.lastId)
  {
    hide After;
    After2(r, JoinWriter, CloseFiles(flushed));
  }

  /** A stopped recorder whose writes succeed can always write the rest of the queue, in order, and end. */
  lemma {:induction false} QueueCanDrain<S>(r: Recorder<S>) returns (actions: seq<Action<S>>, n: Recorder<S>)
    requires Invariant(r) && r.stopper.Joining? && r.writer.Polling? && !r.damaged
    ensures After(r, actions) == Some(n) && Invariant(n)
    ensures n.writer.Exited? && n.stopper.Joining? && n.queue == [] && !n.damaged
    ensures n.pushed == r.pushed && n.dropped == r.dropped && n.accepted == r.accepted
    ensures n.market == States(r.pushed) && n.ids == Ids(r.pushed)
    decreases |r.queue|
  {
    hide After, States, Ids, IdsPublished, Conserved;
    if r.queue == [] {
      actions := [Consume(0), PollActive];
      EmptyCall(r);
      StepKeepsInvariant(r, Consume(0));
      StepKeepsInvariant(Next(r, Consume(0)), PollActive);
      n := Next(Next(r, Consume(0)), PollActive);
      DrainedFiles(n);
    } else {
      var count := if |r.queue| < WRITE_BATCH then |r.queue| else WRITE_BATCH;
      var step := [Consume(count), WriteBatch(true, true, [], [])];
      WriteCall(r, count);
      StepKeepsInvariant(r, Consume(count));
      var m := Next(r, Consume(count));
      StepKeepsInvariant(m, WriteBatch(true, true, [], []));
      var tail: seq<Action<S>>;
      tail, n := QueueCanDrain(Next(m, WriteBatch(true, true, [], [])));
      actions := step + tail;
      AfterJoins(r, step, Next(m, WriteBatch(true, true, [], [])), tail);
    }
  }

  lemma DrainedFiles<S>(r: Recorder<S>)
    requires Conserved(r) && !r.writer.Writing? && r.queue == []
    ensures r.market == States(r.pushed) && r.ids == Ids(r.pushed)
  {
    hide States, Ids;
    assert |r.pushed[r.recorded..]| == 0;
    assert r.pushed[..r.recorded] == r.pushed;
  }

  // ----- what a whole run has offered and lost

  /** The entries handed to record() that it tried to queue. */
  function Offered<S>(actions: seq<Action<S>>): seq<Entry<S>> {
    if actions == [] then []
    else
      var a, before := actions[|actions| - 1], Offered(actions[..|actions| - 1]);
      if a.Admit? then before + [a.entry] else before
  }

  function InHand<S>(r: Recorder<S>): seq<Entry<S>> {
    if r.producer.Admitted? then [r.producer.entry] else []
  }

  lemma OfferedStep<S>(actions: seq<Action<S>>, i: nat)
    requires i < |actions|
    ensures Offered(actions[..i + 1]) == Offered(actions[..i]) + if actions[i].Admit? then [actions[i].entry] else []
  {
    assert actions[..i + 1][..i] == actions[..i];
  }

  /**
   Over every run: an entry offered is queued, dropped or still in record()'s hands; without a drop
   the queue has taken exactly what was offered, in order.
   */
  lemma {:induction false} OfferedIsPushedOrDropped<S>(states: seq<Recorder<S>>, actions: seq<Action<S>>, i: nat)
    requires IsRun(states, actions) && i < |states|
    ensures var r, offered := states[i], Offered(actions[..i]);
      && |offered| == |r.pushed| + r.dropped + |InHand(r)|
      && (r.dropped == 0 ==> offered == r.pushed + InHand(r))
    decreases i
  {
    if i > 0 {
      hide Offered;
      OfferedIsPushedOrDropped(states, actions, i - 1);
      OfferedStep(actions, i - 1);
      OfferedFrame(states[i - 1], actions[i - 1], Offered(actions[..i - 1]));
    }
  }

  lemma OfferedFrame<S>(r: Recorder<S>, a: Action<S>, offered: seq<Entry<S>>)
    requires Enabled(r, a) && |offered| == |r.pushed| + r.dropped + |InHand(r)|
    requires r.dropped == 0 ==> offered == r.pushed + InHand(r)
    ensures var n, more := Next(r, a), offered + if a.Admit? then [a.entry] else [];
      && |more| == |n.pushed| + n.dropped + |InHand(n)|
      && (n.dropped == 0 ==> more == n.pushed + InHand(n))
  {
    hide States, Ids;
    match a
    case Admit(e) => assert r.dropped == 0 ==> offered == r.pushed;
    case Push =>
    case Drop =>
    case WriteBatch(_, _, _, _) =>
    case CloseFiles(_) =>
    case _ =>
  }

  /**
   A recording that is labelled complete holds every entry that was ever offered, in the order offered,
   and names the first and the last exchange identifier among them.
   */
  lemma CompleteHoldsEverything<S>(states: seq<Recorder<S>>, actions: seq<Action<S>>, i: nat)
    requires IsRun(states, actions) && i < |states| && states[i].stopper.Finished? && states[i].dataComplete
    ensures var r, offered := states[i], Offered(actions[..i]);
      && r.market == States(offered) && r.ids == Ids(offered)
      && r.firstId == FirstNonZero(Ids(offered)) && r.lastId == LastNonZero(Ids(offered))
  {
    hide States, Ids, Offered;
    DataCompleteIff(states, actions, i);
    OfferedIsPushedOrDropped(states, actions, i);
    RunKeepsInvariant(states, actions, i);
    assert InHand(states[i]) == [] && Offered(actions[..i]) == states[i].pushed;
  }

  // ----- when stopping leaves something in the queue

  ghost predicate LastConsume<S>(actions: seq<Action<S>>, k: nat, i: nat) {
    && k < i <= |actions| && actions[k].Consume?
    && (forall j | k < j < i :: !actions[j].Consume?)
  }

  lemma {:induction false} EndedOnNothing<S>(states: seq<Recorder<S>>, actions: seq<Action<S>>, i: nat) returns (k: nat)
    requires IsRun(states, actions) && i < |states|
    requires states[i].writer.FoundEmpty? || (states[i].writer.Exited? && !states[i].damaged)
    ensures LastConsume(actions, k, i) && actions[k] == Consume(0)
    decreases i
  {
    hide Next, Enabled;
    StartsPolling(states[0]);
    WriterStep(states[i - 1], actions[i - 1]);
    if actions[i - 1].Consume? {
      k := i - 1;
    } else {
      k := EndedOnNothing(states, actions, i - 1);
    }
  }

  lemma StartsPolling<S>(r: Recorder<S>)
    requires Initial(r)
    ensures r.writer.Polling?
  {
  }

  /** The writer ends without an error only after finding nothing. */
  lemma WriterStep<S>(r: Recorder<S>, a: Action<S>)
    requires Enabled(r, a)
    ensures var n := Next(r, a);
      n.writer.FoundEmpty? || (n.writer.Exited? && !n.damaged) ==>
        a == Consume(0) || (!a.Consume? && (r.writer.FoundEmpty? || (r.writer.Exited? && !r.damaged)))
  {
    hide States, Ids;
    match a
    case WriteBatch(_, _, _, _) =>
    case Consume(_) =>
    case PollActive =>
    case CloseFiles(_) =>
    case _ =>
  }

  /** How many entries were queued by the steps with these numbers. */
  function Pushes<S>(actions: seq<Action<S>>, start: nat, end: nat): nat
    requires start <= end <= |actions|
    decreases end
  {
    if start == end then 0 else Pushes(actions, start, end - 1) + if actions[end - 1].Push? then 1 else 0
  }

  lemma {:induction false} NoPushes<S>(actions: seq<Action<S>>, start: nat, end: nat)
    requires start <= end <= |actions|
    ensures Pushes(actions, start, end) == 0 <==> forall j | start <= j < end :: !actions[j].Push?
    decreases end
  {
    if start < end {
      NoPushes(actions, start, end - 1);
    }
  }

  lemma {:induction false} QueuedSince<S>(states: seq<Recorder<S>>, actions: seq<Action<S>>, k: nat, i: nat)
    requires IsRun(states, actions) && i < |states| && LastConsume(actions, k, i) && actions[k] == Consume(0)
    ensures |states[i].queue| == |states[k].queue| + Pushes(actions, k + 1, i)
    decreases i
  {
    hide Next, Enabled, Initial;
    if i > k + 1 {
      QueuedSince(states, actions, k, i - 1);
      QueueStep(states[i - 1], actions[i - 1]);
    } else {
      NothingTaken(states[k]);
    }
  }

  lemma QueueStep<S>(r: Recorder<S>, a: Action<S>)
    requires Enabled(r, a) && !a.Consume?
    ensures |Next(r, a).queue| == |r.queue| + if a.Push? then 1 else 0
  {
    hide States, Ids;
    match a
    case WriteBatch(_, _, _, _) =>
    case CloseFiles(_) =>
    case _ =>
  }

  lemma NothingTaken<S>(r: Recorder<S>)
    requires Enabled(r, Consume(0))
    ensures Next(r, Consume(0)).queue == r.queue
  {
  }

  /**
   Stopping without a write error leaves nothing in the queue exactly when the last look of the writer
   left nothing behind and no entry was queued between that look and its look at the active flag.
   */
  lemma StopDrainsIff<S>(states: seq<Recorder<S>>, actions: seq<Action<S>>, i: nat) returns (k: nat)
    requires IsRun(states, actions) && i < |states| && states[i].stopper.Finished? && !states[i].damaged
    ensures LastConsume(actions, k, i) && actions[k] == Consume(0)
    ensures states[i].queue == [] <==> states[k].queue == [] && forall j | k < j < i :: !actions[j].Push?
  {
    hide Next, Enabled, Initial, Conserved, IdsPublished;
    RunKeepsInvariant(states, actions, i);
    k := EndedOnNothing(states, actions, i);
    QueuedSince(states, actions, k, i);
    NoPushes(actions, k + 1, i);
  }

  /** An entry queued just after the writer found nothing, before a stop, is never written. */
  lemma StopCanLeaveQueued<S>(r: Recorder<S>, e: Entry<S>) returns (n: Recorder<S>)
    requires Initial(r)
    ensures After(r, [Consume(0)] + ([Admit(e), Push] + [CountAccepted, StoreIds])
                     + [RequestStop, PollActive] + [JoinWriter, CloseFiles(true)]) == Some(n)
    ensures n.stopper.Finished? && n.errors == 0 && n.dropped == 0
    ensures n.accepted == 1 && n.queue == [e] && n.market == [] && !n.dataComplete
  {
    hide After, States, Ids;
    var look: seq<Action<S>> := [Consume(0)];
    var a := Next(r, Consume(0));
    After1(r, Consume(0));
    var b := RecordCall(a, e);
    var call: seq<Action<S>> := [Admit(e), Push] + [CountAccepted, StoreIds];
    AfterJoins(r, look, a, call);
    After2(b, RequestStop, PollActive);
    var c := Next(Next(b, RequestStop), PollActive);
    AfterJoins(r, look + call, b, [RequestStop, PollActive]);
    n := Next(Next(c, JoinWriter), CloseFiles(true));
    After2(c, JoinWriter, CloseFiles(true));
    AfterJoins(r, look + call + [RequestStop, PollActive], c, [JoinWriter, CloseFiles(true)]);
  }

  lemma After1<S>(r: Recorder<S>, a: Action<S>)
    requires Enabled(r, a)
    ensures After(r, [a]) == Some(Next(r, a))
  {
    hide Next, Enabled;
    assert [a][1..] == [];
    assert After(Next(r, a), []) == Some(Next(r, a));
  }

  /** At most one write error is counted, and an ended writer means that nothing more is admitted. */
  lemma {:induction false} ErrorsOnce<S>(states: seq<Recorder<S>>, actions: seq<Action<S>>, i: nat)
    requires IsRun(states, actions) && i < |states|
    ensures var r := states[i];
      && r.errors == (if r.errorReported then 1 else 0)
      && (r.writer.Exited? ==> !r.active)
    decreases i
  {
    if i > 0 {
      ErrorsOnce(states, actions, i - 1);
      hide Next, Enabled;
      ErrorStep(states[i - 1], actions[i - 1]);
    }
  }

  lemma ErrorStep<S>(r: Recorder<S>, a: Action<S>)
    requires Enabled(r, a) && r.errors == (if r.errorReported then 1 else 0) && (r.writer.Exited? ==> !r.active)
    ensures var n := Next(r, a);
      n.errors == (if n.errorReported then 1 else 0) && (n.writer.Exited? ==> !n.active)
  {
    hide States, Ids;
    match a
    case WriteBatch(_, _, _, _) =>
    case Consume(_) =>
    case PollActive =>
    case CloseFiles(_) =>
    case _ =>
  }
}
