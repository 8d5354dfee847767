/** The ring buffer's storage and index arithmetic, with each endpoint's call run to completion. */
module RingBuffer {
  import opened Words

  /** The slot of the i-th value after the one at index `head`. */
  function SlotAt(bits: nat, head: Word, i: nat): (slot: nat)
    ensures slot < Pow2(bits)
  {
    Wrap(head + i) % Pow2(bits)
  }

  /** The n values starting at index `head`, oldest first. */
  ghost function Window<V>(cells: seq<V>, bits: nat, head: Word, n: nat): (s: seq<V>)
    requires |cells| == Pow2(bits)
    ensures |s| == n
  {
    seq(n, i requires 0 <= i < n => cells[SlotAt(bits, head, i)])
  }

  lemma SlotsDistinct(bits: nat, head: Word, i: nat, j: nat)
    requires bits < 64 && i < j < i + Pow2(bits)
    ensures SlotAt(bits, head, i) != SlotAt(bits, head, j)
  {
    hide Pow2, Wrap;
    WrapModPow2(head + i, bits);
    WrapModPow2(head + j, bits);
    ModDistinct(head + i, head + j, Pow2(bits));
  }

  /** Writing the slot behind the window extends it by the written value. */
  lemma WindowExtends<V>(cells: seq<V>, bits: nat, head: Word, n: nat, value: V)
    requires bits < 64 && |cells| == Pow2(bits) && n < Pow2(bits)
    ensures Window(cells[SlotAt(bits, head, n) := value], bits, head, n + 1) ==
            Window(cells, bits, head, n) + [value]
  {
    hide Pow2;
    forall i | 0 <= i < n ensures SlotAt(bits, head, i) != SlotAt(bits, head, n) {
      SlotsDistinct(bits, head, i, n);
    }
  }

  /** Advancing the head drops the oldest values. */
  lemma WindowAdvances<V>(cells: seq<V>, bits: nat, head: Word, n: nat, count: nat)
    requires |cells| == Pow2(bits) && count <= n
    ensures Window(cells, bits, Wrap(head + count), n - count) == Window(cells, bits, head, n)[count..]
  {
    hide Pow2, Wrap;
    var next := Wrap(head + count);
    forall i: nat | i < n - count ensures SlotAt(bits, next, i) == SlotAt(bits, head, count + i) {
      WrapAdds(head + count, i);
    }
  }

  /** The tail's slot is the one behind the window. */
  lemma TailSlot(bits: nat, head: Word, tail: Word)
    ensures SlotAt(bits, tail, 0) == SlotAt(bits, head, Wrap(tail - head))
  {
    hide Pow2, Wrap;
    WrapReturns(head, tail);
    assert tail + 0 == tail && Wrap(tail) == tail by { WrapIdentity(tail); }
  }

  lemma OneMore(head: Word, tail: Word)
    requires Wrap(tail - head) + 1 < WORD
    ensures Wrap(Wrap(tail + 1) - head) == Wrap(tail - head) + 1
  {
  }

  lemma Fewer(head: Word, tail: Word, count: nat)
    requires count <= Wrap(tail - head)
    ensures Wrap(tail - Wrap(head + count)) == Wrap(tail - head) - count
  {
  }

  class SPSCRingBuffer<V(0)> {
    const bits: nat
    const buffer: array<V>
    var head: Word
    var tail: Word

    ghost predicate Valid()
      reads this
    {
      && bits < 64 && buffer.Length == Pow2(bits)
      && Wrap(tail - head) <= Pow2(bits)
    }

    /** The published values the consumer has not taken. */
    ghost function Contents(): seq<V>
      requires Valid()
      reads this, buffer
    {
      Window(buffer[..], bits, head, Wrap(tail - head))
    }

    constructor (bits: nat)
      requires bits < 64
      ensures Valid() && Contents() == [] && fresh(buffer)
    {
      this.bits := bits;
      buffer := new V[Pow2(bits)];
      head, tail := 0, 0;
    }

    method Push(value: V) returns (ok: bool)
      requires Valid()
      modifies this, buffer
      ensures Valid()
      ensures ok <==> |old(Contents())| < Pow2(bits)
      ensures Contents() == if ok then old(Contents()) + [value] else old(Contents())
    {
      hide Pow2, Window, SlotAt;
      var currentTail: int, currentHead: int := tail, head;
      if Wrap(currentTail - currentHead) >= Pow2(bits) {
        return false;
      }
      ghost var n := Wrap(tail - head);
      Pow2BelowWord(bits);
      TailSlot(bits, head, tail);
      OneMore(head, tail);
      WindowExtends(buffer[..], bits, head, n, value);
      buffer[SlotAt(bits, currentTail, 0)] := value;
      tail := Wrap(currentTail + 1);
      assert buffer[..] == old(buffer[..])[SlotAt(bits, head, n) := value];
      return true;
    }

    method CopyOut(destination: array<V>, from: Word, count: nat)
      requires bits < 64 && buffer.Length == Pow2(bits)
      requires destination != buffer && count <= destination.Length
      modifies destination
      ensures destination[..count] == Window(buffer[..], bits, from, count)
      ensures destination[count..] == old(destination[count..])
    {
      hide Pow2;
      for index := 0 to count
        invariant forall i | 0 <= i < index :: destination[i] == Window(buffer[..], bits, from, count)[i]
        invariant forall i | index <= i < destination.Length :: destination[i] == old(destination[i])
      {
        destination[index] := buffer[SlotAt(bits, from, index)];
      }
    }

    method ConsumeBatch(destination: array?<V>, maximum: nat) returns (count: nat)
      requires Valid()
      requires destination != null ==> destination != buffer && maximum <= destination.Length
      modifies this, destination
      ensures Valid()
      ensures count == if destination == null then 0
                       else if |old(Contents())| < maximum then |old(Contents())| else maximum
      ensures Contents() == old(Contents())[count..]
      ensures destination != null ==> destination[..] == old(Contents())[..count] + old(destination[..])[count..]
    {
      hide Pow2, SlotAt, Wrap;
      if destination == null || maximum == 0 {
        return 0;
      }
      var currentHead: int, currentTail: int := head, tail;
      var available := Wrap(currentTail - currentHead);
      count := if available < maximum then available else maximum;
      CopyOut(destination, currentHead, count);
      assert destination[..count] == Contents()[..count];
      if count != 0 {
        Fewer(head, tail, count);
        WindowAdvances(buffer[..], bits, head, available, count);
        head := Wrap(currentHead + count);
      }
    }

    method Reset()
      requires Valid()
      modifies this
      ensures Valid() && Contents() == []
    {
      head, tail := 0, 0;
    }
  }
}
