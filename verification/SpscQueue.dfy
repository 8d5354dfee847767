/**
 The single-producer single-consumer ring buffer as an interleaving of atomic steps. Every index
 load, every slot access and every index store is a step of its own; a slot write is two steps, so
 a reader could see a half-written slot. An acquire load returns any value the other endpoint has
 stored since this endpoint last looked. Indices are 64-bit words.
 */
module SpscQueue {
  import opened Words

  datatype Cell<+V> = Torn | Holds(value: V)

  datatype Producer<+V> =
    | ProducerIdle
    | TailLoaded(value: V, tail: Word)
    | HeadLoaded(value: V, tail: Word, head: Word)
    | SlotOpen(value: V, tail: Word)
    | SlotWritten(value: V, tail: Word)

  datatype Consumer<+V> =
    | ConsumerIdle
    | HeadRead(maximum: nat, head: Word)
    | Copying(head: Word, count: nat, copied: seq<V>)

  /**
   `pushed` lists the values for which push returned true and `delivered` those consume_batch
   handed out; `headSeen` and `tailSeen` say how far each endpoint's acquire loads have got. A slot
   written while it was unread, or read while it was torn, sets `raced`.
   */
  datatype Queue<V> = Queue(
    bits: nat, cells: seq<Cell<V>>, head: Word, tail: Word,
    producer: Producer<V>, consumer: Consumer<V>,
    pushed: seq<V>, delivered: seq<V>, headSeen: nat, tailSeen: nat, raced: bool)

  datatype Action<V> =
    | StartPush(value: V)
    | LoadHead(stored: nat)
    | RefusePush
    | OpenSlot
    | FillSlot
    | StoreTail
    | StartConsume(maximum: nat)
    | LoadTail(stored: nat)
    | CopySlot
    | StoreHead
    | ResetIndices

  function Capacity<V>(q: Queue<V>): nat { Pow2(q.bits) }

  function Slot<V>(q: Queue<V>, index: int): nat { Wrap(index) % Pow2(q.bits) }

  /** The unread published values are those between the two counters. */
  predicate Unread<V>(q: Queue<V>, slot: nat) {
    exists k | |q.delivered| <= k < |q.pushed| :: k % Pow2(q.bits) == slot
  }

  predicate Enabled<V>(q: Queue<V>, a: Action<V>) {
    match a
    case StartPush(_) => q.producer.ProducerIdle?
    case LoadHead(stored) => q.producer.TailLoaded? && q.headSeen <= stored <= |q.delivered|
    case RefusePush => q.producer.HeadLoaded? && Wrap(q.producer.tail - q.producer.head) >= Capacity(q)
    case OpenSlot => q.producer.HeadLoaded? && Wrap(q.producer.tail - q.producer.head) < Capacity(q)
    case FillSlot => q.producer.SlotOpen?
    case StoreTail => q.producer.SlotWritten?
    case StartConsume(maximum) => q.consumer.ConsumerIdle? && maximum > 0
    case LoadTail(stored) => q.consumer.HeadRead? && q.tailSeen <= stored <= |q.pushed|
    case CopySlot => q.consumer.Copying? && |q.consumer.copied| < q.consumer.count
    case StoreHead => q.consumer.Copying? && |q.consumer.copied| == q.consumer.count
    case ResetIndices => q.producer.ProducerIdle? && q.consumer.ConsumerIdle?
  }

  function Next<V>(q: Queue<V>, a: Action<V>): Queue<V>
    requires |q.cells| == Capacity(q) && Enabled(q, a)
  {
    match a
    case StartPush(value) => q.(producer := TailLoaded(value, q.tail))
    case LoadHead(stored) =>
      q.(producer := HeadLoaded(q.producer.value, q.producer.tail, Wrap(stored)), headSeen := stored)
    case RefusePush => q.(producer := ProducerIdle)
    case OpenSlot =>
      var slot := Slot(q, q.producer.tail);
      q.(cells := q.cells[slot := Torn], producer := SlotOpen(q.producer.value, q.producer.tail),
         raced := q.raced || Unread(q, slot))
    case FillSlot =>
      var slot := Slot(q, q.producer.tail);
      q.(cells := q.cells[slot := Holds(q.producer.value)],
         producer := SlotWritten(q.producer.value, q.producer.tail),
         raced := q.raced || Unread(q, slot))
    case StoreTail =>
      q.(tail := Wrap(q.producer.tail + 1), pushed := q.pushed + [q.producer.value], producer := ProducerIdle)
    case StartConsume(maximum) => q.(consumer := HeadRead(maximum, q.head))
    case LoadTail(stored) =>
      var available := Wrap(Wrap(stored) - q.consumer.head);
      var count := if available < q.consumer.maximum then available else q.consumer.maximum;
      q.(consumer := Copying(q.consumer.head, count, []), tailSeen := stored)
    case CopySlot =>
      var cell := q.cells[Slot(q, q.consumer.head + |q.consumer.copied|)];
      if cell.Torn? then q.(raced := true)
      else q.(consumer := q.consumer.(copied := q.consumer.copied + [cell.value]))
    case StoreHead =>
      q.(head := if q.consumer.count != 0 then Wrap(q.consumer.head + q.consumer.count) else q.head,
         delivered := q.delivered + q.consumer.copied, consumer := ConsumerIdle)
    case ResetIndices => q.(head := 0, tail := 0, pushed := [], delivered := [], headSeen := 0, tailSeen := 0)
  }

  predicate Initial<V>(q: Queue<V>) {
    && q.bits < 64 && |q.cells| == Capacity(q)
    && q.head == q.tail == 0 && q.producer.ProducerIdle? && q.consumer.ConsumerIdle?
    && q.pushed == [] && q.delivered == [] && q.headSeen == q.tailSeen == 0 && !q.raced
  }

  // ----- the invariant of every interleaving

  ghost predicate CountersAgree<V>(q: Queue<V>) {
    && q.bits < 64 && |q.cells| == Capacity(q)
    && q.headSeen <= |q.delivered| <= q.tailSeen <= |q.pushed| <= q.headSeen + Capacity(q)
    && q.head == Wrap(|q.delivered|) && q.tail == Wrap(|q.pushed|)
    && q.delivered == q.pushed[..|q.delivered|]
  }

  /** Every published value the consumer has not taken is intact in its slot. */
  ghost predicate UnreadIntact<V>(q: Queue<V>)
    requires CountersAgree(q)
  {
    forall k | |q.delivered| <= k < |q.pushed| :: CellFor(q, k) == Holds(q.pushed[k])
  }

  function CellFor<V>(q: Queue<V>, k: nat): Cell<V>
    requires |q.cells| == Capacity(q)
  {
    q.cells[k % Pow2(q.bits)]
  }

  ghost predicate ProducerAgrees<V>(q: Queue<V>)
    requires CountersAgree(q)
  {
    match q.producer
    case ProducerIdle => true
    case TailLoaded(_, t) => t == q.tail
    case HeadLoaded(_, t, h) => t == q.tail && h == Wrap(q.headSeen)
    case SlotOpen(_, t) => t == q.tail && |q.pushed| < q.headSeen + Capacity(q)
    case SlotWritten(v, t) =>
      t == q.tail && |q.pushed| < q.headSeen + Capacity(q) && CellFor(q, |q.pushed|) == Holds(v)
  }

  ghost predicate ConsumerAgrees<V>(q: Queue<V>)
    requires CountersAgree(q)
  {
    match q.consumer
    case ConsumerIdle => true
    case HeadRead(_, h) => h == q.head
    case Copying(h, count, copied) =>
      var from := |q.delivered|;
      && h == q.head && from + count <= q.tailSeen && |copied| <= count
      && copied == q.pushed[from..from + |copied|]
  }

  ghost predicate Invariant<V>(q: Queue<V>) {
    && CountersAgree(q) && UnreadIntact(q) && ProducerAgrees(q) && ConsumerAgrees(q) && !q.raced
  }

  /** The producer's slot is not one of the unread ones while fewer than Capacity are outstanding. */
  lemma FreshSlot<V>(q: Queue<V>)
    requires CountersAgree(q) && |q.pushed| < q.headSeen + Capacity(q)
    ensures Slot(q, q.tail) == |q.pushed| % Pow2(q.bits)
    ensures !Unread(q, Slot(q, q.tail))
  {
    hide Pow2, Wrap;
    SlotIs(q);
    NoneCollides(q);
  }

  lemma SlotIs<V>(q: Queue<V>)
    requires CountersAgree(q)
    ensures Slot(q, q.tail) == |q.pushed| % Pow2(q.bits)
  {
    hide Pow2;
    WrapTwice(|q.pushed|);
    WrapModPow2(|q.pushed|, q.bits);
  }

  lemma WrapTwice(x: nat)
    ensures Wrap(Wrap(x)) == Wrap(x)
  {
  }

  lemma NoneCollides<V>(q: Queue<V>)
    requires CountersAgree(q) && |q.pushed| < q.headSeen + Capacity(q)
    ensures !Unread(q, |q.pushed| % Pow2(q.bits))
  {
    hide Pow2, Wrap;
    forall k | |q.delivered| <= k < |q.pushed|
      ensures k % Pow2(q.bits) != |q.pushed| % Pow2(q.bits)
    {
      ModDistinct(k, |q.pushed|, Pow2(q.bits));
    }
  }

  lemma ProducerStep<V>(q: Queue<V>, a: Action<V>)
    requires Invariant(q) && Enabled(q, a)
    requires a.StartPush? || a.LoadHead? || a.RefusePush? || a.OpenSlot? || a.FillSlot? || a.StoreTail?
    ensures Invariant(Next(q, a))
  {
    hide Pow2, Wrap;
    var n := Next(q, a);
    match a
    case StartPush(_) =>
    case LoadHead(_) =>
    case RefusePush =>
    case OpenSlot =>
      Pow2BelowWord(q.bits);
      WrapDifference(|q.pushed|, q.headSeen);
      FreshSlot(q);
      SlotUntouched(q, n);
    case FillSlot =>
      FreshSlot(q);
      SlotUntouched(q, n);
    case StoreTail =>
      WrapAdds(|q.pushed|, 1);
      forall k | |n.delivered| <= k < |n.pushed| ensures CellFor(n, k) == Holds(n.pushed[k]) {
        assert k < |q.pushed| ==> CellFor(q, k) == Holds(q.pushed[k]);
      }
  }

  lemma SlotUntouched<V>(q: Queue<V>, n: Queue<V>)
    requires CountersAgree(q) && UnreadIntact(q) && |q.pushed| < q.headSeen + Capacity(q)
    requires CountersAgree(n) && n.bits == q.bits && n.pushed == q.pushed && n.delivered == q.delivered
    requires forall s | 0 <= s < |q.cells| && s != |q.pushed| % Pow2(q.bits) :: n.cells[s] == q.cells[s]
    ensures UnreadIntact(n)
  {
    forall k | |n.delivered| <= k < |n.pushed| ensures CellFor(n, k) == Holds(n.pushed[k]) {
      ModDistinct(k, |q.pushed|, Pow2(q.bits));
      assert CellFor(q, k) == Holds(q.pushed[k]);
    }
  }

  lemma LoadTailStep<V>(q: Queue<V>, stored: nat)
    requires Invariant(q) && Enabled(q, LoadTail(stored))
    ensures Invariant(Next(q, LoadTail(stored)))
  {
    hide Pow2;
    var from := |q.delivered|;
    Pow2BelowWord(q.bits);
    WrapDifference(stored, from);
    assert q.pushed[from..from] == [];
  }

  lemma CopySlotStep<V>(q: Queue<V>)
    requires Invariant(q) && Enabled(q, CopySlot)
    ensures Invariant(Next(q, CopySlot))
  {
    hide Pow2, Wrap;
    var from := |q.delivered|;
    var k := from + |q.consumer.copied|;
    WrapAdds(from, |q.consumer.copied|);
    WrapModPow2(k, q.bits);
    assert CellFor(q, k) == Holds(q.pushed[k]);
    assert q.pushed[from..k + 1] == q.pushed[from..k] + [q.pushed[k]];
  }

  lemma StoreHeadStep<V>(q: Queue<V>)
    requires Invariant(q) && Enabled(q, StoreHead)
    ensures Invariant(Next(q, StoreHead))
  {
    hide Pow2;
    var n := Next(q, StoreHead);
    var from := |q.delivered|;
    WrapAdds(from, q.consumer.count);
    assert q.pushed[..from] + q.pushed[from..from + q.consumer.count] == q.pushed[..from + q.consumer.count];
    forall k | |n.delivered| <= k < |n.pushed| ensures CellFor(n, k) == Holds(n.pushed[k]) {
      assert CellFor(q, k) == Holds(q.pushed[k]);
    }
  }

  lemma StepKeepsInvariant<V>(q: Queue<V>, a: Action<V>)
    requires Invariant(q) && Enabled(q, a)
    ensures Invariant(Next(q, a))
  {
    if a.StartPush? || a.LoadHead? || a.RefusePush? || a.OpenSlot? || a.FillSlot? || a.StoreTail? {
      ProducerStep(q, a);
    } else if a.LoadTail? {
      LoadTailStep(q, a.stored);
    } else if a.CopySlot? {
      CopySlotStep(q);
    } else if a.StoreHead? {
      StoreHeadStep(q);
    }
  }

  // ----- whole runs

  /** A run visits states[0], states[1], ... by enabled actions of either endpoint. */
  ghost predicate IsRun<V>(states: seq<Queue<V>>, actions: seq<Action<V>>) {
    && |states| == |actions| + 1
    && Initial(states[0])
    && (forall i | 0 <= i < |actions| ::
          && |states[i].cells| == Capacity(states[i])
          && Enabled(states[i], actions[i])
          && states[i + 1] == Next(states[i], actions[i]))
  }

  lemma {:induction false} RunKeepsInvariant<V>(states: seq<Queue<V>>, actions: seq<Action<V>>, i: nat)
    requires IsRun(states, actions) && i < |states|
    ensures Invariant(states[i])
    decreases i
  {
    if i > 0 {
      RunKeepsInvariant(states, actions, i - 1);
      StepKeepsInvariant(states[i - 1], actions[i - 1]);
    }
  }

  /**
   Under every interleaving, with stale loads and wrapping indices: the values handed out are a
   prefix of the values accepted, in order; no slot is written while unread or read half-written;
   and at most Capacity values are outstanding.
   */
  lemma FifoUnderEveryInterleaving<V>(states: seq<Queue<V>>, actions: seq<Action<V>>, i: nat)
    requires IsRun(states, actions) && i < |states|
    ensures var q := states[i];
            && q.delivered <= q.pushed
            && !q.raced
            && |q.pushed| - |q.delivered| <= Capacity(q)
  {
    RunKeepsInvariant(states, actions, i);
  }

  /** A push is refused exactly when, by the producer's last observation, all slots are taken. */
  lemma RefusedOnlyWhenFull<V>(q: Queue<V>)
    requires Invariant(q) && q.producer.HeadLoaded?
    ensures Enabled(q, RefusePush) <==> |q.pushed| == q.headSeen + Capacity(q)
    ensures Enabled(q, OpenSlot) <==> |q.pushed| < q.headSeen + Capacity(q)
  {
    Pow2BelowWord(q.bits);
    WrapDifference(|q.pushed|, q.headSeen);
  }

  // ----- the queue its users see

  /** The values accepted and not yet handed out. */
  ghost function Waiting<V>(q: Queue<V>): seq<V>
    requires CountersAgree(q)
  {
    q.pushed[|q.delivered|..]
  }

  /**
   To its users the ring buffer is a first-in first-out queue: storing the tail appends the pushed
   value, storing the head removes and hands out a prefix, and no other step but a reset is visible.
   */
  lemma RefinesFifo<V>(q: Queue<V>, a: Action<V>)
    requires Invariant(q) && Enabled(q, a)
    ensures Invariant(Next(q, a))
    ensures var n := Next(q, a);
            match a
            case StoreTail => Waiting(n) == Waiting(q) + [q.producer.value] && n.delivered == q.delivered
            case StoreHead =>
              && n.delivered == q.delivered + q.consumer.copied
              && Waiting(q) == q.consumer.copied + Waiting(n)
            case ResetIndices => Waiting(n) == []
            case _ => Waiting(n) == Waiting(q) && n.delivered == q.delivered
  {
    hide Pow2, Wrap, UnreadIntact, Slot, Unread;
    StepKeepsInvariant(q, a);
  }
}
