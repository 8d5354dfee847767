/** Exclusive or on naturals, bytes, and little-endian numbers. */
module Bits {
  import opened Words

  type Byte = x: int | 0 <= x < 256

  /** Bitwise exclusive or. */
  function Xor(a: nat, b: nat): nat
    decreases a + b
  {
    if a == 0 && b == 0 then 0 else 2 * Xor(a / 2, b / 2) + (a % 2 + b % 2) % 2
  }

  lemma XorHalves(a: nat, b: nat)
    ensures Xor(a, b) / 2 == Xor(a / 2, b / 2)
    ensures Xor(a, b) % 2 == (a % 2 + b % 2) % 2
  {
  }

  lemma {:induction false} XorZero(a: nat)
    ensures Xor(a, 0) == a && Xor(0, a) == a && Xor(a, a) == 0
    decreases a
  {
    if a > 0 {
      XorZero(a / 2);
    }
  }

  lemma {:induction false} XorCommutes(a: nat, b: nat)
    ensures Xor(a, b) == Xor(b, a)
    decreases a + b
  {
    if a + b > 0 {
      XorCommutes(a / 2, b / 2);
    }
  }

  lemma {:induction false} XorAssociates(a: nat, b: nat, c: nat)
    ensures Xor(Xor(a, b), c) == Xor(a, Xor(b, c))
    decreases a + b + c
  {
    hide Xor;
    if a + b + c == 0 {
      XorZero(0);
    } else {
      XorAssociates(a / 2, b / 2, c / 2);
      XorHalves(a, b);
      XorHalves(b, c);
      XorHalves(Xor(a, b), c);
      XorHalves(a, Xor(b, c));
    }
  }

  /** The four operands of a nested exclusive or can be regrouped. */
  lemma XorRegroups(a: nat, b: nat, c: nat, d: nat)
    ensures Xor(Xor(a, b), Xor(c, d)) == Xor(Xor(a, c), Xor(b, d))
  {
    XorAssociates(a, b, Xor(c, d));
    XorAssociates(b, c, d);
    XorCommutes(b, c);
    XorAssociates(c, b, d);
    XorAssociates(a, c, Xor(b, d));
  }

  lemma XorCancels(a: nat, b: nat)
    ensures Xor(Xor(a, b), b) == a
  {
    XorAssociates(a, b, b);
    XorZero(b);
    XorZero(a);
  }

  lemma XorIsInjective(c: nat, a: nat, b: nat)
    requires Xor(c, a) == Xor(c, b) || Xor(a, c) == Xor(b, c)
    ensures a == b
  {
    hide Xor;
    XorCommutes(c, a);
    XorCommutes(c, b);
    XorCancels(a, c);
    XorCancels(b, c);
  }

  function ShiftRight(x: nat, k: nat): nat
    decreases k
  {
    if k == 0 then x else ShiftRight(x / 2, k - 1)
  }

  /** Shifting right distributes over exclusive or. */
  lemma {:induction false} XorShifts(a: nat, b: nat, k: nat)
    ensures ShiftRight(Xor(a, b), k) == Xor(ShiftRight(a, k), ShiftRight(b, k))
    decreases k
  {
    if k > 0 {
      XorHalves(a, b);
      XorShifts(a / 2, b / 2, k - 1);
    }
  }

  lemma {:induction false} BelowIffShiftedOut(x: nat, k: nat)
    ensures x < Pow2(k) <==> ShiftRight(x, k) == 0
    decreases k
  {
    if k > 0 {
      BelowIffShiftedOut(x / 2, k - 1);
    }
  }

  /** Exclusive or stays within the width of its operands. */
  lemma XorBelow(a: nat, b: nat, k: nat)
    requires a < Pow2(k) && b < Pow2(k)
    ensures Xor(a, b) < Pow2(k)
  {
    BelowIffShiftedOut(a, k);
    BelowIffShiftedOut(b, k);
    XorShifts(a, b, k);
    BelowIffShiftedOut(Xor(a, b), k);
  }

  lemma DoublePow2(x: nat, k: nat)
    requires k > 0
    ensures x * Pow2(k) == 2 * (x * Pow2(k - 1))
  {
  }

  /** Numbers without a common bit are put side by side. */
  lemma {:induction false} XorJoins(low: nat, high: nat, k: nat)
    requires low < Pow2(k)
    ensures Xor(low, high * Pow2(k)) == low + high * Pow2(k)
    decreases k
  {
    hide Xor;
    var shifted := high * Pow2(k);
    if k == 0 {
      XorZero(shifted);
    } else {
      var half := high * Pow2(k - 1);
      DoublePow2(high, k);
      XorJoins(low / 2, high, k - 1);
      XorHalves(low, shifted);
    }
  }

  // ----- little-endian numbers

  /** The number whose little-endian bytes these are. */
  function FromLittleEndian(bytes: seq<Byte>): nat {
    if bytes == [] then 0 else bytes[0] + 256 * FromLittleEndian(bytes[1..])
  }

  function LittleEndian(n: nat, width: nat): (bytes: seq<Byte>)
    ensures |bytes| == width
    decreases width
  {
    if width == 0 then [] else [n % 256] + LittleEndian(n / 256, width - 1)
  }

  function Range(width: nat): (r: nat)
    ensures r > 0
  {
    if width == 0 then 1 else 256 * Range(width - 1)
  }

  lemma {:induction false} DecodesEncoding(n: nat, width: nat)
    requires n < Range(width)
    ensures FromLittleEndian(LittleEndian(n, width)) == n
    decreases width
  {
    if width > 0 {
      DecodesEncoding(n / 256, width - 1);
      assert LittleEndian(n, width)[1..] == LittleEndian(n / 256, width - 1);
    }
  }

  lemma {:induction false} EncodesDecoding(bytes: seq<Byte>)
    ensures FromLittleEndian(bytes) < Range(|bytes|)
    ensures LittleEndian(FromLittleEndian(bytes), |bytes|) == bytes
    decreases |bytes|
  {
    if bytes != [] {
      EncodesDecoding(bytes[1..]);
      var rest: nat := FromLittleEndian(bytes[1..]);
      var n: nat := FromLittleEndian(bytes);
      var first: int := bytes[0];
      assert n == first + 256 * rest;
      assert n % 256 == first && n / 256 == rest;
      assert bytes == [bytes[0]] + bytes[1..];
    }
  }

  lemma LittleEndianIsInjective(a: seq<Byte>, b: seq<Byte>)
    requires |a| == |b| && FromLittleEndian(a) == FromLittleEndian(b)
    ensures a == b
  {
    EncodesDecoding(a);
    EncodesDecoding(b);
  }
}
