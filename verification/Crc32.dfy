/** The per-event checksum, its table-driven reference and the corruption it always detects. */
module Crc32 {
  import opened Words
  import opened Bits

  const POLYNOMIAL: nat := 0xEDB8_8320
  const ALL_ONES: nat := 0xFFFF_FFFF

  type U32 = x: int | 0 <= x <= ALL_ONES

  lemma U32IsPow2()
    ensures Pow2(32) == ALL_ONES + 1
  {
    assert Pow2(8) == 256;
    Pow2Adds(8, 8);
    Pow2Adds(16, 16);
  }

  // ----- the bitwise checksum

  function Feedback(v: nat): nat { if v % 2 == 1 then POLYNOMIAL else 0 }

  function BitStep(v: nat): nat { Xor(v / 2, Feedback(v)) }

  function BitSteps(v: nat, n: nat): nat
    decreases n
  {
    if n == 0 then v else BitSteps(BitStep(v), n - 1)
  }

  function Absorb(v: nat, byte: Byte): nat { BitSteps(Xor(v, byte), 8) }

  function AbsorbAll(v: nat, bytes: seq<Byte>): nat
    decreases bytes
  {
    if bytes == [] then v else AbsorbAll(Absorb(v, bytes[0]), bytes[1..])
  }

  function Crc(bytes: seq<Byte>): nat { Xor(AbsorbAll(ALL_ONES, bytes), ALL_ONES) }

  // ----- the table-driven checksum of section 8 of RFC 1952

  function TableEntry(n: nat): nat { BitSteps(n, 8) }

  function TableUpdate(c: nat, bytes: seq<Byte>): nat
    decreases bytes
  {
    if bytes == [] then c else TableUpdate(Xor(TableEntry(Xor(c, bytes[0]) % 256), c / 256), bytes[1..])
  }

  function TableCrc(bytes: seq<Byte>): nat { Xor(TableUpdate(Xor(0, ALL_ONES), bytes), ALL_ONES) }

  // ----- bit steps are linear, keep the width and lose nothing

  lemma BitStepIsLinear(a: nat, b: nat)
    ensures BitStep(Xor(a, b)) == Xor(BitStep(a), BitStep(b))
  {
    hide Xor;
    XorHalves(a, b);
    XorZero(POLYNOMIAL);
    XorZero(0);
    assert Feedback(Xor(a, b)) == Xor(Feedback(a), Feedback(b));
    XorRegroups(a / 2, b / 2, Feedback(a), Feedback(b));
  }

  lemma {:induction false} BitStepsAreLinear(a: nat, b: nat, n: nat)
    ensures BitSteps(Xor(a, b), n) == Xor(BitSteps(a, n), BitSteps(b, n))
    decreases n
  {
    hide Xor, BitStep;
    if n > 0 {
      BitStepIsLinear(a, b);
      BitStepsAreLinear(BitStep(a), BitStep(b), n - 1);
    }
  }

  lemma {:induction false} BitStepsCompose(v: nat, m: nat, n: nat)
    ensures BitSteps(BitSteps(v, m), n) == BitSteps(v, m + n)
    decreases m
  {
    hide BitStep;
    if m > 0 {
      BitStepsCompose(BitStep(v), m - 1, n);
    }
  }

  /** Steps over zero bits only shift. */
  lemma {:induction false} BitStepsShift(x: nat, k: nat)
    ensures BitSteps(x * Pow2(k), k) == x
    decreases k
  {
    hide Xor;
    if k > 0 {
      var half := x * Pow2(k - 1);
      DoublePow2(x, k);
      XorZero(half);
      assert BitStep(x * Pow2(k)) == half;
      BitStepsShift(x, k - 1);
    }
  }

  lemma {:induction false} BitStepsBelow(v: nat, n: nat)
    requires v <= ALL_ONES
    ensures BitSteps(v, n) <= ALL_ONES
    decreases n
  {
    hide Xor;
    if n > 0 {
      U32IsPow2();
      XorBelow(v / 2, Feedback(v), 32);
      BitStepsBelow(BitStep(v), n - 1);
    }
  }

  lemma BitStepKeepsNonzero(v: nat)
    requires v <= ALL_ONES && BitStep(v) == 0
    ensures v == 0
  {
    hide Xor, ShiftRight;
    XorZero(v / 2);
    if v % 2 == 1 {
      U32IsPow2();
      assert Pow2(32) == 2 * Pow2(31);
      BelowIffShiftedOut(v / 2, 31);
      BelowIffShiftedOut(POLYNOMIAL, 31);
      XorShifts(v / 2, POLYNOMIAL, 31);
      XorZero(ShiftRight(POLYNOMIAL, 31));
      BelowIffShiftedOut(0, 31);
    }
  }

  lemma XorIsZeroOnlyForEquals(a: nat, b: nat)
    requires Xor(a, b) == 0
    ensures a == b
  {
    hide Xor;
    XorCancels(a, b);
    XorZero(b);
  }

  lemma {:induction false} BitStepsAreInjective(a: nat, b: nat, n: nat)
    requires a <= ALL_ONES && b <= ALL_ONES && BitSteps(a, n) == BitSteps(b, n)
    ensures a == b
    decreases n
  {
    hide Xor, BitStep;
    if n > 0 {
      BitStepsBelow(a, 1);
      BitStepsBelow(b, 1);
      BitStepsAreInjective(BitStep(a), BitStep(b), n - 1);
      U32IsPow2();
      XorBelow(a, b, 32);
      BitStepIsLinear(a, b);
      XorZero(BitStep(a));
      BitStepKeepsNonzero(Xor(a, b));
      XorIsZeroOnlyForEquals(a, b);
    }
  }

  lemma {:induction false} AbsorbAllBelow(v: nat, bytes: seq<Byte>)
    requires v <= ALL_ONES
    ensures AbsorbAll(v, bytes) <= ALL_ONES
    decreases bytes
  {
    hide Xor, BitSteps;
    if bytes != [] {
      U32IsPow2();
      XorBelow(v, bytes[0], 32);
      BitStepsBelow(Xor(v, bytes[0]), 8);
      AbsorbAllBelow(Absorb(v, bytes[0]), bytes[1..]);
    }
  }

  lemma CrcFits(bytes: seq<Byte>)
    ensures Crc(bytes) <= ALL_ONES
  {
    hide Xor;
    U32IsPow2();
    AbsorbAllBelow(ALL_ONES, bytes);
    XorBelow(AbsorbAll(ALL_ONES, bytes), ALL_ONES, 32);
  }

  // ----- the table-driven form

  lemma ShiftByteIsDivision(v: nat)
    ensures ShiftRight(v, 8) == v / 256
  {
    assert ShiftRight(v, 8) == v / 2 / 2 / 2 / 2 / 2 / 2 / 2 / 2;
  }

  /** Eight bit steps are one table lookup and a byte shift. */
  lemma AbsorbByTable(c: nat, byte: Byte)
    ensures Absorb(c, byte) == Xor(TableEntry(Xor(c, byte) % 256), c / 256)
  {
    hide Xor, ShiftRight, BitSteps;
    var v: nat := Xor(c, byte);
    var low: nat, high: nat := v % 256, v / 256;
    assert Pow2(8) == 256;
    XorJoins(low, high, 8);
    BitStepsAreLinear(low, high * 256, 8);
    BitStepsShift(high, 8);
    XorShifts(c, byte, 8);
    ShiftByteIsDivision(c);
    ShiftByteIsDivision(byte);
    ShiftByteIsDivision(v);
    XorZero(c / 256);
  }

  lemma {:induction false} UpdateAgrees(c: nat, bytes: seq<Byte>)
    ensures TableUpdate(c, bytes) == AbsorbAll(c, bytes)
    decreases bytes
  {
    hide Xor, Absorb, TableEntry;
    if bytes != [] {
      AbsorbByTable(c, bytes[0]);
      UpdateAgrees(Absorb(c, bytes[0]), bytes[1..]);
    }
  }

  /** On every payload the bitwise checksum is the one RFC 1952 defines by table. */
  lemma TableDrivenAgrees(bytes: seq<Byte>)
    ensures TableCrc(bytes) == Crc(bytes)
  {
    hide Xor, AbsorbAll;
    XorZero(ALL_ONES);
    UpdateAgrees(ALL_ONES, bytes);
  }

  // ----- bursts of at most four bytes

  /** Absorbing bytes one by one is absorbing their little-endian number at once. */
  lemma {:induction false} AbsorbAsNumber(c: nat, bytes: seq<Byte>)
    ensures AbsorbAll(c, bytes) == BitSteps(Xor(c, FromLittleEndian(bytes)), 8 * |bytes|)
    decreases bytes
  {
    hide Xor, BitSteps;
    if bytes == [] {
      XorZero(c);
      NoSteps(c);
    } else {
      var first: nat, rest := bytes[0], bytes[1..];
      var high, n := FromLittleEndian(rest), 8 * |rest|;
      AbsorbAsNumber(Absorb(c, bytes[0]), rest);
      assert Pow2(8) == 256;
      BitStepsShift(high, 8);
      BitStepsAreLinear(Xor(c, first), high * 256, 8);
      XorAssociates(c, first, high * 256);
      XorJoins(first, high, 8);
      BitStepsCompose(Xor(c, first + 256 * high), 8, n);
    }
  }

  lemma NoSteps(v: nat)
    ensures BitSteps(v, 0) == v
  {
  }

  lemma {:induction false} AbsorbAllAppends(v: nat, a: seq<Byte>, b: seq<Byte>)
    ensures AbsorbAll(v, a + b) == AbsorbAll(AbsorbAll(v, a), b)
    decreases a
  {
    hide Absorb;
    if a == [] {
      assert a + b == b;
    } else {
      assert (a + b)[1..] == a[1..] + b;
      AbsorbAllAppends(Absorb(v, a[0]), a[1..], b);
    }
  }

  /** The same bytes never merge two different states. */
  lemma {:induction false} AbsorbingKeepsDifference(v: nat, w: nat, bytes: seq<Byte>)
    requires v <= ALL_ONES && w <= ALL_ONES && v != w
    ensures AbsorbAll(v, bytes) != AbsorbAll(w, bytes)
    decreases bytes
  {
    hide Xor, BitSteps;
    if bytes != [] {
      U32IsPow2();
      var x, y := Xor(v, bytes[0]), Xor(w, bytes[0]);
      XorBelow(v, bytes[0], 32);
      XorBelow(w, bytes[0], 32);
      BitStepsBelow(x, 8);
      BitStepsBelow(y, 8);
      if Absorb(v, bytes[0]) == Absorb(w, bytes[0]) {
        BitStepsAreInjective(x, y, 8);
        XorIsInjective(bytes[0], v, w);
      }
      AbsorbingKeepsDifference(Absorb(v, bytes[0]), Absorb(w, bytes[0]), bytes[1..]);
    }
  }

  lemma {:induction false} RangeGrows(m: nat, n: nat)
    requires m <= n
    ensures Range(m) <= Range(n)
    decreases n - m
  {
    if m < n {
      RangeGrows(m + 1, n);
    }
  }

  lemma BurstFits(x: seq<Byte>)
    requires |x| <= 4
    ensures FromLittleEndian(x) <= ALL_ONES
  {
    EncodesDecoding(x);
    RangeGrows(|x|, 4);
    assert Range(2) == 65536;
    assert Range(4) == 65536 * Range(2);
  }

  lemma BurstChangesState(v: nat, x: seq<Byte>, y: seq<Byte>)
    requires v <= ALL_ONES && |x| == |y| <= 4 && x != y
    ensures AbsorbAll(v, x) != AbsorbAll(v, y)
  {
    hide Xor, BitSteps, AbsorbAll, FromLittleEndian;
    AbsorbAsNumber(v, x);
    AbsorbAsNumber(v, y);
    BurstFits(x);
    BurstFits(y);
    U32IsPow2();
    var a, b := FromLittleEndian(x), FromLittleEndian(y);
    XorBelow(v, a, 32);
    XorBelow(v, b, 32);
    if AbsorbAll(v, x) == AbsorbAll(v, y) {
      BitStepsAreInjective(Xor(v, a), Xor(v, b), 8 * |x|);
      XorIsInjective(v, a, b);
      LittleEndianIsInjective(x, y);
    }
  }

  /** A change confined to at most four consecutive bytes always changes the checksum. */
  lemma BurstChangesCrc(before: seq<Byte>, x: seq<Byte>, y: seq<Byte>, after: seq<Byte>)
    requires |x| == |y| <= 4 && x != y
    ensures Crc(before + x + after) != Crc(before + y + after)
  {
    hide Xor, AbsorbAll;
    AbsorbAllAppends(ALL_ONES, before + x, after);
    AbsorbAllAppends(ALL_ONES, before, x);
    AbsorbAllAppends(ALL_ONES, before + y, after);
    AbsorbAllAppends(ALL_ONES, before, y);
    var v := AbsorbAll(ALL_ONES, before);
    AbsorbAllBelow(ALL_ONES, before);
    AbsorbAllBelow(v, x);
    AbsorbAllBelow(v, y);
    BurstChangesState(v, x, y);
    AbsorbingKeepsDifference(AbsorbAll(v, x), AbsorbAll(v, y), after);
    if Crc(before + x + after) == Crc(before + y + after) {
      XorIsInjective(ALL_ONES, AbsorbAll(ALL_ONES, before + x + after), AbsorbAll(ALL_ONES, before + y + after));
    }
  }
}
