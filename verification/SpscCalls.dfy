/**
 What one call of the lock-free queue does when the other endpoint pauses: the steps of a push or a
 consume run to their end and do what the call promises, for every value its acquire load may return.
 */
module SpscCalls {
  import opened Words
  import opened SpscQueue

  /** These steps, one after another, lead from q to n. */
  ghost predicate Leads<V>(q: Queue<V>, actions: seq<Action<V>>, n: Queue<V>)
    decreases actions
  {
    if actions == [] then n == q
    else |q.cells| == Capacity(q) && Enabled(q, actions[0]) && Leads(Next(q, actions[0]), actions[1..], n)
  }

  lemma LeadsNowhere<V>(q: Queue<V>)
    ensures Leads(q, [], q)
  {
  }

  lemma LeadsBefore<V>(q: Queue<V>, a: Action<V>, actions: seq<Action<V>>, n: Queue<V>)
    requires |q.cells| == Capacity(q) && Enabled(q, a) && Leads(Next(q, a), actions, n)
    ensures Leads(q, [a] + actions, n)
  {
    hide Next, Enabled;
    assert ([a] + actions)[0] == a && ([a] + actions)[1..] == actions;
  }

  /**
   A push whose load of the head returns a count with a slot free appends its value and publishes it.
   */
  lemma PushCall<V>(q: Queue<V>, value: V, stored: nat) returns (n: Queue<V>)
    requires Invariant(q) && q.producer.ProducerIdle?
    requires q.headSeen <= stored <= |q.delivered| && |q.pushed| < stored + Capacity(q)
    ensures Leads(q, [StartPush(value), LoadHead(stored), OpenSlot, FillSlot, StoreTail], n)
    ensures Invariant(n) && n.pushed == q.pushed + [value] && n.delivered == q.delivered
    ensures n.producer == ProducerIdle && n.consumer == q.consumer && n.head == q.head
  {
    hide Invariant, Leads, Unread, Slot, Pow2;
    Step(q, StartPush(value));
    var a := Next(q, StartPush(value));
    Step(a, LoadHead(stored));
    var b := Next(a, LoadHead(stored));
    RefusedOnlyWhenFull(b);
    Step(b, OpenSlot);
    var c := Next(b, OpenSlot);
    Step(c, FillSlot);
    var d := Next(c, FillSlot);
    Step(d, StoreTail);
    n := Next(d, StoreTail);
    LeadsNowhere(n);
    Listed<Action<V>>(OpenSlot, FillSlot, StoreTail);
    LeadsBefore(d, StoreTail, [], n);
    LeadsBefore(c, FillSlot, [StoreTail], n);
    LeadsBefore(b, OpenSlot, [FillSlot, StoreTail], n);
    LeadsBefore(a, LoadHead(stored), [OpenSlot, FillSlot, StoreTail], n);
    LeadsBefore(q, StartPush(value), [LoadHead(stored)] + [OpenSlot, FillSlot, StoreTail], n);
    var start: seq<Action<V>> := [StartPush(value)];
    assert start + ([LoadHead(stored)] + [OpenSlot, FillSlot, StoreTail]) ==
           [StartPush(value), LoadHead(stored), OpenSlot, FillSlot, StoreTail];
  }

  lemma Listed<T>(a: T, b: T, c: T)
    ensures [c] + [] == [c] && [b] + [c] == [b, c] && [a] + [b, c] == [a, b, c]
  {
  }

  lemma Step<V>(q: Queue<V>, a: Action<V>)
    requires Invariant(q) && Enabled(q, a)
    ensures |q.cells| == Capacity(q) && Invariant(Next(q, a))
  {
    hide Next, Enabled;
    StepKeepsInvariant(q, a);
  }

  /** A push whose load returns a count by which all slots are taken is refused and changes nothing else. */
  lemma RefusedCall<V>(q: Queue<V>, value: V, stored: nat)
    requires Invariant(q) && q.producer.ProducerIdle?
    requires q.headSeen <= stored <= |q.delivered| && |q.pushed| == stored + Capacity(q)
    ensures Leads(q, [StartPush(value), LoadHead(stored), RefusePush], q.(headSeen := stored))
  {
    hide Invariant, Leads, Pow2;
    Step(q, StartPush(value));
    var a := Next(q, StartPush(value));
    Step(a, LoadHead(stored));
    var b := Next(a, LoadHead(stored));
    RefusedOnlyWhenFull(b);
    Step(b, RefusePush);
    var n := Next(b, RefusePush);
    assert n == q.(headSeen := stored);
    LeadsNowhere(n);
    Listed<Action<V>>(StartPush(value), LoadHead(stored), RefusePush);
    LeadsBefore(b, RefusePush, [], n);
    LeadsBefore(a, LoadHead(stored), [RefusePush], n);
    LeadsBefore(q, StartPush(value), [LoadHead(stored), RefusePush], n);
  }

  function Copies<V>(n: nat): seq<Action<V>> { seq(n, _ => CopySlot) }

  /** Every copy of a consume reads an intact slot: the next value that was pushed. */
  lemma CopyIsWhole<V>(q: Queue<V>)
    requires Invariant(q) && Enabled(q, CopySlot)
    ensures var k := |q.delivered| + |q.consumer.copied|;
            && k < |q.pushed|
            && q.cells[Slot(q, q.consumer.head + |q.consumer.copied|)] == Holds(q.pushed[k])
            && Next(q, CopySlot) == q.(consumer := q.consumer.(copied := q.consumer.copied + [q.pushed[k]]))
  {
    hide Pow2, Wrap;
    var k := |q.delivered| + |q.consumer.copied|;
    WrapAdds(|q.delivered|, |q.consumer.copied|);
    WrapModPow2(k, q.bits);
    assert CellFor(q, k) == Holds(q.pushed[k]);
  }

  lemma {:induction false} CopyLoop<V>(q: Queue<V>) returns (n: Queue<V>)
    requires Invariant(q) && q.consumer.Copying?
    ensures |q.consumer.copied| <= q.consumer.count && |q.delivered| + q.consumer.count <= |q.pushed|
    ensures Leads(q, Copies(q.consumer.count - |q.consumer.copied|) + [StoreHead], n)
    ensures Invariant(n) && n.consumer == ConsumerIdle && n.producer == q.producer && n.pushed == q.pushed
    ensures n.delivered == q.delivered + q.pushed[|q.delivered|..|q.delivered| + q.consumer.count]
    decreases q.consumer.count - |q.consumer.copied|
  {
    hide Leads, Pow2, Wrap, UnreadIntact, ProducerAgrees, Slot;
    var rest := q.consumer.count - |q.consumer.copied|;
    if rest == 0 {
      Step(q, StoreHead);
      n := Next(q, StoreHead);
      LeadsNowhere(n);
      LeadsBefore(q, StoreHead, [], n);
      var store: seq<Action<V>> := [StoreHead];
      assert Copies(0) + store == store + [];
    } else {
      CopyIsWhole(q);
      Step(q, CopySlot);
      n := CopyLoop(Next(q, CopySlot));
      LeadsBefore(q, CopySlot, Copies(rest - 1) + [StoreHead], n);
      var copy: seq<Action<V>> := [CopySlot];
      assert Copies(rest) + [StoreHead] == copy + (Copies(rest - 1) + [StoreHead]);
    }
  }

  lemma ConsumeStarts<V>(q: Queue<V>, maximum: nat, stored: nat)
    requires Invariant(q) && q.consumer.ConsumerIdle? && maximum > 0
    requires q.tailSeen <= stored <= |q.pushed|
    ensures |q.delivered| <= stored && |q.cells| == Capacity(q) && Enabled(q, StartConsume(maximum))
    ensures var a := Next(q, StartConsume(maximum));
      |a.cells| == Capacity(a) && Enabled(a, LoadTail(stored)) && Invariant(Next(a, LoadTail(stored)))
    ensures var available, b := stored - |q.delivered|, Next(Next(q, StartConsume(maximum)), LoadTail(stored));
      && b.consumer == Copying(q.head, if available < maximum then available else maximum, [])
      && b.producer == q.producer && b.pushed == q.pushed && b.delivered == q.delivered
  {
    hide Pow2, Wrap, Invariant;
    Difference(q, stored);
    Step(q, StartConsume(maximum));
    Step(Next(q, StartConsume(maximum)), LoadTail(stored));
  }

  /**
   A consume whose load of the tail returns a count hands out the oldest values up to that count and
   up to its maximum, in order.
   */
  lemma ConsumeCall<V>(q: Queue<V>, maximum: nat, stored: nat) returns (n: Queue<V>, count: nat)
    requires Invariant(q) && q.consumer.ConsumerIdle? && maximum > 0
    requires q.tailSeen <= stored <= |q.pushed|
    ensures |q.delivered| + count <= stored && count <= maximum
    ensures count == maximum || |q.delivered| + count == stored
    ensures Leads(q, [StartConsume(maximum), LoadTail(stored)] + (Copies(count) + [StoreHead]), n)
    ensures Invariant(n) && n.consumer == ConsumerIdle && n.producer == q.producer && n.pushed == q.pushed
    ensures n.delivered == q.delivered + q.pushed[|q.delivered|..|q.delivered| + count]
  {
    hide Invariant, Next, Enabled, Leads, Pow2, Wrap;
    ConsumeStarts(q, maximum, stored);
    var a := Next(q, StartConsume(maximum));
    var b := Next(a, LoadTail(stored));
    count := b.consumer.count;
    n := CopyLoop(b);
    var rest := Copies<V>(count) + [StoreHead];
    LeadsBefore(a, LoadTail(stored), rest, n);
    LeadsBefore(q, StartConsume(maximum), [LoadTail(stored)] + rest, n);
    var start: seq<Action<V>> := [StartConsume(maximum)];
    assert start + ([LoadTail(stored)] + rest) == [StartConsume(maximum), LoadTail(stored)] + rest;
  }

  lemma Difference<V>(q: Queue<V>, stored: nat)
    requires Invariant(q) && q.tailSeen <= stored <= |q.pushed|
    ensures |q.delivered| <= stored && Wrap(Wrap(stored) - q.head) == stored - |q.delivered|
  {
    Pow2BelowWord(q.bits);
    WrapDifference(stored, |q.delivered|);
  }
}
