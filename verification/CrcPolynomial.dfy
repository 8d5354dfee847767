/**
 What the checksum is: the remainder of the message polynomial. A natural number stands for the
 polynomial over the field of two elements whose coefficient of x^e is its bit e.
 */
module CrcPolynomial {
  import opened Words
  import opened Bits
  import opened Crc32

  // ----- polynomials

  /**
   The powers of x in the generator of section 8.1.1.6.2 of ITU-T V.42, the checksum that section
   2.3.1 of RFC 1952 names.
   */
  const EXPONENTS: seq<nat> := [32, 26, 23, 22, 16, 12, 11, 10, 8, 7, 5, 4, 2, 1, 0]

  function Polynomial(exponents: seq<nat>): nat {
    if exponents == [] then 0 else Xor(Pow2(exponents[0]), Polynomial(exponents[1..]))
  }

  /** The product of two polynomials: shifts of the second, added without carry. */
  function Product(a: nat, b: nat): nat
    decreases a
  {
    if a == 0 then 0 else Xor(if a % 2 == 1 then b else 0, 2 * Product(a / 2, b))
  }

  /** a times x^k. */
  function Shifted(a: nat, k: nat): nat { a * Pow2(k) }

  /** The coefficient of x^k alone. */
  function Bit(bit: nat, k: nat): nat { if bit == 1 then Pow2(k) else 0 }

  /** The lowest n bits in the opposite order. */
  function Reflect(x: nat, n: nat): nat
    decreases n
  {
    if n == 0 then 0 else Bit(x % 2, n - 1) + Reflect(x / 2, n - 1)
  }

  /** The message: the first bit sent is the highest power, and each byte is sent low bit first. */
  function Message(bytes: seq<Byte>): nat {
    if bytes == [] then 0
    else Message(bytes[..|bytes| - 1]) * 256 + Reflect(bytes[|bytes| - 1], 8)
  }

  /** r is what is left of the dividend when a multiple of the divisor is taken away, and is of lower degree. */
  ghost predicate IsRemainder(dividend: nat, divisor: nat, degree: nat, r: nat) {
    && r < Pow2(degree)
    && exists q: nat :: dividend == Xor(Product(q, divisor), r)
  }

  // ----- doubling

  lemma DoubleXor(a: nat, b: nat)
    ensures Xor(2 * a, 2 * b) == 2 * Xor(a, b)
  {
    XorHalves(2 * a, 2 * b);
  }

  lemma XorBit(a: nat, bit: nat)
    requires bit <= 1
    ensures Xor(2 * a, bit) == 2 * a + bit
  {
    XorZero(a);
  }

  // ----- reflection

  lemma {:induction false} ReflectBelow(x: nat, n: nat)
    ensures Reflect(x, n) < Pow2(n)
    decreases n
  {
    if n > 0 {
      ReflectBelow(x / 2, n - 1);
    }
  }

  lemma ReflectUnfolds(x: nat, n: nat)
    requires n > 0
    ensures Reflect(x, n) == Xor(Reflect(x / 2, n - 1), Bit(x % 2, n - 1))
  {
    ReflectBelow(x / 2, n - 1);
    AddBit(Reflect(x / 2, n - 1), x % 2, n - 1);
  }

  /** A bit above a number is put beside it. */
  lemma AddBit(low: nat, bit: nat, k: nat)
    requires low < Pow2(k)
    ensures Xor(low, Bit(bit, k)) == low + Bit(bit, k)
  {
    hide Xor;
    XorZero(low);
    XorJoins(low, 1, k);
  }

  lemma BitXor(a: nat, b: nat, k: nat)
    requires a <= 1 && b <= 1
    ensures Xor(Bit(a, k), Bit(b, k)) == Bit((a + b) % 2, k)
  {
    hide Xor;
    XorZero(Pow2(k));
    XorZero(0);
  }

  lemma {:induction false} ReflectXor(a: nat, b: nat, n: nat)
    ensures Reflect(Xor(a, b), n) == Xor(Reflect(a, n), Reflect(b, n))
    decreases n
  {
    hide Xor, Reflect, Bit;
    if n == 0 {
      NothingReflected(a);
      NothingReflected(b);
      NothingReflected(Xor(a, b));
      XorZero(0);
    } else {
      ReflectUnfolds(a, n);
      ReflectUnfolds(b, n);
      ReflectUnfolds(Xor(a, b), n);
      XorHalves(a, b);
      ReflectXor(a / 2, b / 2, n - 1);
      BitXor(a % 2, b % 2, n - 1);
      XorRegroups(Reflect(a / 2, n - 1), Bit(a % 2, n - 1), Reflect(b / 2, n - 1), Bit(b % 2, n - 1));
    }
  }

  lemma NothingReflected(x: nat)
    ensures Reflect(x, 0) == 0
  {
  }

  /** One more bit at the top, which is zero, is one more at the bottom. */
  lemma {:induction false} ReflectWider(x: nat, n: nat)
    requires x < Pow2(n)
    ensures Reflect(x, n + 1) == 2 * Reflect(x, n)
    decreases n
  {
    if n > 0 {
      ReflectWider(x / 2, n - 1);
    } else {
      assert Reflect(0, 1) == Bit(0, 0) + Reflect(0, 0);
    }
  }

  lemma {:induction false} ReflectOnes(n: nat)
    ensures Reflect(Pow2(n) - 1, n) == Pow2(n) - 1
    decreases n
  {
    if n > 0 {
      var ones: nat := Pow2(n) - 1;
      assert ones / 2 == Pow2(n - 1) - 1 && ones % 2 == 1;
      ReflectOnes(n - 1);
    }
  }

  // ----- the generator and the constant of the bitwise loop

  /** The polynomial of the last exponents of the list. */
  function Lower(i: nat): nat
    requires i <= |EXPONENTS|
  {
    Polynomial(EXPONENTS[i..])
  }

  /** The next higher power does not meet the lower ones. */
  lemma OnePower(i: nat, e: nat, value: nat)
    requires i < |EXPONENTS| && EXPONENTS[i] == e && Lower(i + 1) == value < Pow2(e)
    ensures Lower(i) == Pow2(e) + value
  {
    assert EXPONENTS[i..][0] == e && EXPONENTS[i..][1..] == EXPONENTS[i + 1..];
    XorJoins(value, 1, e);
    XorCommutes(value, Pow2(e));
  }

  lemma Powers()
    ensures Pow2(7) == 0x80 && Pow2(8) == 0x100 && Pow2(10) == 0x400 && Pow2(11) == 0x800 && Pow2(12) == 0x1000 && Pow2(16) == 0x1_0000
    ensures Pow2(22) == 0x40_0000 && Pow2(23) == 0x80_0000 && Pow2(26) == 0x400_0000 && Pow2(32) == 0x1_0000_0000
  {
    assert Pow2(10) == 0x400 && Pow2(12) == 0x1000;
    Pow2Adds(6, 10);
    Pow2Adds(10, 12);
    Pow2Adds(11, 12);
    Pow2Adds(10, 16);
    Pow2Adds(16, 16);
  }

  lemma LowPowers()
    ensures Lower(10) == 0x37
  {
    assert Pow2(0) == 1 && Pow2(1) == 2 && Pow2(2) == 4 && Pow2(4) == 16 && Pow2(5) == 32;
    assert Lower(15) == 0;
    hide Pow2, Lower;
    OnePower(14, 0, 0);
    OnePower(13, 1, 0x1);
    OnePower(12, 2, 0x3);
    OnePower(11, 4, 0x7);
    OnePower(10, 5, 0x17);
  }

  lemma MiddlePowers()
    ensures Lower(5) == 0x1DB7
  {
    LowPowers();
    Powers();
    hide Pow2, Lower;
    OnePower(9, 7, 0x37);
    OnePower(8, 8, 0xB7);
    OnePower(7, 10, 0x1B7);
    OnePower(6, 11, 0x5B7);
    OnePower(5, 12, 0xDB7);
  }

  lemma HighPowers()
    ensures Lower(0) == 0x1_04C1_1DB7
  {
    MiddlePowers();
    Powers();
    hide Pow2, Lower;
    OnePower(4, 16, 0x1DB7);
    OnePower(3, 22, 0x1_1DB7);
    OnePower(2, 23, 0x41_1DB7);
    OnePower(1, 26, 0xC1_1DB7);
    OnePower(0, 32, 0x4C1_1DB7);
  }

  /** The powers in the list, added without carry, are this number. */
  lemma GeneratorIs()
    ensures Polynomial(EXPONENTS) == 0x1_04C1_1DB7
  {
    hide Polynomial, Pow2;
    HighPowers();
    assert EXPONENTS[0..] == EXPONENTS;
  }

  /** Bits put side by side change places when they are reflected. */
  lemma {:induction false} ReflectSplits(high: nat, low: nat, k: nat, n: nat)
    requires low < Pow2(k)
    ensures Reflect(Shifted(high, k) + low, k + n) == Shifted(Reflect(low, k), n) + Reflect(high, n)
    decreases k
  {
    hide Pow2, Shifted;
    if k == 0 {
      NothingShifted(high, low, n);
      NothingReflected(low);
    } else {
      HalfBelow(low, k);
      ShiftedHalves(high, low, k);
      ReflectSplits(high, low / 2, k - 1, n);
      ShiftedBit(low % 2, k - 1, n, Reflect(low / 2, k - 1));
    }
  }

  lemma NothingShifted(high: nat, low: nat, n: nat)
    requires low < Pow2(0)
    ensures Shifted(high, 0) + low == high && Shifted(0, n) == 0
  {
  }

  lemma HalfBelow(x: nat, k: nat)
    requires k > 0 && x < Pow2(k)
    ensures x / 2 < Pow2(k - 1)
  {
  }

  lemma ShiftedHalves(high: nat, low: nat, k: nat)
    requires k > 0
    ensures (Shifted(high, k) + low) / 2 == Shifted(high, k - 1) + low / 2
    ensures (Shifted(high, k) + low) % 2 == low % 2
  {
    hide Pow2;
    DoublePow2(high, k);
  }

  lemma ShiftedBit(bit: nat, k: nat, n: nat, rest: nat)
    ensures Shifted(Bit(bit, k) + rest, n) == Bit(bit, k + n) + Shifted(rest, n)
  {
    hide Pow2;
    Pow2Adds(k, n);
    Distributes(Bit(bit, k), rest, Pow2(n));
  }

  lemma Distributes(a: nat, b: nat, c: nat)
    ensures (a + b) * c == a * c + b * c
  {
  }

  lemma ReflectFour(x: nat, b: nat, c: nat, d: nat, e: nat)
    requires b <= 1 && c <= 1 && d <= 1 && e <= 1 && x == b + 2 * c + 4 * d + 8 * e
    ensures Reflect(x, 4) == 8 * b + 4 * c + 2 * d + e
  {
    assert x / 2 / 2 / 2 == e && x / 2 / 2 == d + 2 * e && x / 2 == c + 2 * d + 4 * e;
    assert Pow2(3) == 8 && Pow2(2) == 4 && Pow2(1) == 2 && Pow2(0) == 1;
    hide Pow2;
    assert Reflect(x / 2 / 2 / 2, 1) == e;
    assert Reflect(x / 2 / 2, 2) == 2 * d + e;
    assert Reflect(x / 2, 3) == 4 * c + 2 * d + e;
  }

  /** The halves of 2 n bits, each reflected. */
  lemma ReflectHalves(high: nat, low: nat, n: nat, power: nat)
    requires power == Pow2(n) && low < power
    ensures Reflect(high * power + low, 2 * n) == Reflect(low, n) * power + Reflect(high, n)
  {
    hide Reflect, Pow2;
    ReflectSplits(high, low, n, n);
  }

  lemma ReflectNibbles()
    ensures Reflect(0, 4) == 0 && Reflect(2, 4) == 4 && Reflect(3, 4) == 0xC && Reflect(8, 4) == 1
    ensures Reflect(0xB, 4) == 0xD && Reflect(0xD, 4) == 0xB && Reflect(0xE, 4) == 7
  {
    hide Reflect;
    ReflectFour(0, 0, 0, 0, 0);
    ReflectFour(2, 0, 1, 0, 0);
    ReflectFour(3, 1, 1, 0, 0);
    ReflectFour(8, 0, 0, 0, 1);
    ReflectFour(0xB, 1, 1, 0, 1);
    ReflectFour(0xD, 1, 0, 1, 1);
    ReflectFour(0xE, 0, 1, 1, 1);
  }

  lemma ReflectByte(high: nat, low: nat)
    requires low < 16
    ensures Reflect(16 * high + low, 8) == 16 * Reflect(low, 4) + Reflect(high, 4)
  {
    hide Reflect;
    assert Pow2(4) == 16;
    ReflectHalves(high, low, 4, 16);
  }

  /** The constant of the bitwise loop is the generator without its highest power, reflected. */
  lemma ConstantIs()
    ensures Reflect(POLYNOMIAL, 32) == 0x04C1_1DB7
  {
    Powers();
    ReflectNibbles();
    hide Pow2, Reflect;
    ReflectByte(2, 0);
    ReflectByte(8, 3);
    ReflectByte(0xB, 8);
    ReflectByte(0xE, 0xD);
    ReflectHalves(0x83, 0x20, 8, 0x100);
    ReflectHalves(0xED, 0xB8, 8, 0x100);
    ReflectHalves(0xEDB8, 0x8320, 16, 0x1_0000);
  }

  // ----- one bit

  ghost function Generator(): nat { Polynomial(EXPONENTS) }


  lemma GeneratorSplits()
    ensures Generator() == Xor(Reflect(POLYNOMIAL, 32), Pow2(32)) && Pow2(32) <= Generator() < 2 * Pow2(32)
  {
    hide Polynomial, Reflect, Pow2, Xor;
    GeneratorIs();
    ConstantIs();
    U32IsPow2();
    XorJoins(0x04C1_1DB7, 1, 32);
  }

  lemma XorScaled(a: nat, b: nat, k: nat)
    ensures Xor(a * Pow2(k), b * Pow2(k)) == Xor(a, b) * Pow2(k)
    decreases k
  {
    hide Xor;
    if k > 0 {
      XorScaled(a, b, k - 1);
      DoublePow2(a, k);
      DoublePow2(b, k);
      DoublePow2(Xor(a, b), k);
      DoubleXor(a * Pow2(k - 1), b * Pow2(k - 1));
    }
  }

  /** A step of the loop shifts the reflected state up and takes the generator away when a bit leaves it. */
  lemma StepReflects(v: nat)
    requires v <= ALL_ONES
    ensures Reflect(BitStep(v), 32) == Xor(2 * Reflect(v, 32), if v % 2 == 1 then Generator() else 0)
  {
    hide Xor, Reflect, Generator, Pow2;
    U32IsPow2();
    var rest := Reflect(v / 2, 31);
    assert Pow2(32) == 2 * Pow2(31) by { DoublePow2(1, 32); }
    ReflectUnfolds(v, 32);
    ReflectWider(v / 2, 31);
    DoubleXor(rest, Bit(v % 2, 31));
    ReflectXor(v / 2, Feedback(v), 32);
    GeneratorSplits();
    ReflectZero(32);
    XorZero(2 * rest);
    if v % 2 == 1 {
      XorRegroups(2 * rest, Pow2(32), Reflect(POLYNOMIAL, 32), Pow2(32));
      XorZero(Pow2(32));
      XorZero(Xor(2 * rest, Reflect(POLYNOMIAL, 32)));
    }
  }

  lemma {:induction false} ReflectZero(n: nat)
    ensures Reflect(0, n) == 0
    decreases n
  {
    if n > 0 {
      ReflectZero(n - 1);
    }
  }

  lemma ReflectBit(bit: nat, n: nat)
    requires bit <= 1 && n > 0
    ensures Reflect(bit, n) == Bit(bit, n - 1)
  {
    ReflectZero(n - 1);
  }

  lemma ProductDoubles(q: nat, bit: nat, divisor: nat)
    requires bit <= 1
    ensures Product(2 * q + bit, divisor) == Xor(if bit == 1 then divisor else 0, 2 * Product(q, divisor))
  {
    hide Xor;
    XorZero(0);
    assert (2 * q + bit) / 2 == q && (2 * q + bit) % 2 == bit;
  }

  lemma OneBitWith(c: nat, bit: nat, v: nat, dividend: nat, q: nat)
    requires v == Xor(c, bit) && v <= ALL_ONES
    requires dividend == Xor(Product(q, Generator()), Reflect(c, 32))
    ensures Xor(2 * dividend, 2 * Reflect(bit, 32)) == Xor(Product(2 * q + v % 2, Generator()), Reflect(BitStep(v), 32))
  {
    hide Xor, Reflect, Generator, Product, BitStep;
    StepReflects(v);
    ReflectXor(c, bit, 32);
    ProductDoubles(q, v % 2, Generator());
    TakeAway(Product(q, Generator()), Reflect(c, 32), Reflect(bit, 32), if v % 2 == 1 then Generator() else 0);
  }

  lemma BitShifted(bit: nat)
    requires bit <= 1
    ensures 2 * Reflect(bit, 32) == Shifted(bit, 32)
  {
    hide Reflect, Pow2;
    ReflectBit(bit, 32);
    DoublePow2(1, 32);
  }

  lemma StepBelow(c: nat, bit: nat)
    requires c <= ALL_ONES && bit <= 1
    ensures Xor(c, bit) <= ALL_ONES && BitStep(Xor(c, bit)) <= ALL_ONES
  {
    hide Xor, BitStep;
    U32IsPow2();
    XorBelow(c, bit, 32);
    BitStepsBelow(Xor(c, bit), 1);
    NoSteps(BitStep(Xor(c, bit)));
  }

  /** One more bit of the dividend: the state after it is again what is left. */
  lemma OneBit(c: nat, bit: nat, dividend: nat)
    requires c <= ALL_ONES && bit <= 1
    requires IsRemainder(dividend, Generator(), 32, Reflect(c, 32))
    ensures IsRemainder(Xor(2 * dividend, Shifted(bit, 32)), Generator(), 32, Reflect(BitStep(Xor(c, bit)), 32))
  {
    hide Xor, Reflect, Generator, Pow2, Product, BitStep, Shifted;
    var q: nat :| dividend == Xor(Product(q, Generator()), Reflect(c, 32));
    StepBelow(c, bit);
    OneBitWith(c, bit, Xor(c, bit), dividend, q);
    BitShifted(bit);
    ReflectBelow(BitStep(Xor(c, bit)), 32);
  }

  /** What is taken away in a step cancels between the quotient and the rest. */
  lemma TakeAway(p: nat, r: nat, high: nat, top: nat)
    ensures Xor(2 * Xor(p, r), 2 * high) == Xor(Xor(top, 2 * p), Xor(2 * Xor(r, high), top))
  {
    hide Xor;
    var t := Xor(r, high);
    DoubleXor(p, r);
    DoubleXor(r, high);
    XorAssociates(2 * p, 2 * r, 2 * high);
    XorCommutes(top, 2 * p);
    XorRegroups(2 * p, top, 2 * t, top);
    XorZero(top);
    XorZero(Xor(2 * p, 2 * t));
  }

  // ----- one byte, and all of them

  /** The message so far times x^32, with the initial register added to its first 32 bits. */
  function Dividend(message: nat, bits: nat): nat {
    Xor(Shifted(message, 32), Shifted(ALL_ONES, bits))
  }

  lemma DividendGrows(message: nat, bits: nat, bit: nat)
    requires bit <= 1
    ensures Xor(2 * Dividend(message, bits), Shifted(bit, 32)) == Dividend(2 * message + bit, bits + 1)
  {
    hide Xor, Pow2;
    var a, b, high := message * Pow2(32), ALL_ONES * Pow2(bits), bit * Pow2(32);
    DoubleXor(a, b);
    DoublePow2(ALL_ONES, bits + 1);
    XorScaled(2 * message, bit, 32);
    XorBit(message, bit);
    assert 2 * a == 2 * message * Pow2(32);
    XorAssociates(2 * a, 2 * b, high);
    XorCommutes(2 * b, high);
    XorAssociates(2 * a, high, 2 * b);
  }

  lemma PeelBit(c: nat, x: nat)
    ensures BitStep(Xor(c, x)) == Xor(BitStep(Xor(c, x % 2)), x / 2)
  {
    hide Xor, BitStep;
    var bit, rest := x % 2, 2 * (x / 2);
    XorBit(x / 2, bit);
    XorCommutes(rest, bit);
    XorAssociates(c, bit, rest);
    BitStepIsLinear(Xor(c, bit), rest);
    EvenStep(x / 2);
  }

  lemma EvenStep(x: nat)
    ensures BitStep(2 * x) == x
  {
    XorZero(x);
  }

  lemma {:induction false} SomeBits(c: nat, x: nat, k: nat, message: nat, bits: nat)
    requires c <= ALL_ONES && x < Pow2(k)
    requires IsRemainder(Dividend(message, bits), Generator(), 32, Reflect(c, 32))
    ensures IsRemainder(Dividend(Shifted(message, k) + Reflect(x, k), bits + k), Generator(), 32,
                        Reflect(BitSteps(Xor(c, x), k), 32))
    decreases k
  {
    hide Xor, BitStep, BitSteps, IsRemainder, Dividend, Generator, Reflect, Pow2, Shifted;
    if k == 0 {
      XorZero(c);
      NoSteps(c);
      NoBits(message, x);
    } else {
      var bit := x % 2;
      OneBit(c, bit, Dividend(message, bits));
      DividendGrows(message, bits, bit);
      StepsPeel(c, x, k);
      StepBelow(c, bit);
      HalfBelow(x, k);
      SomeBits(BitStep(Xor(c, bit)), x / 2, k - 1, 2 * message + bit, bits + 1);
      MessageJoins(message, x, k);
    }
  }

  lemma NoBits(message: nat, x: nat)
    requires x < Pow2(0)
    ensures x == 0 && Shifted(message, 0) + Reflect(x, 0) == message
  {
  }

  lemma StepsPeel(c: nat, x: nat, k: nat)
    requires k > 0
    ensures BitSteps(Xor(c, x), k) == BitSteps(Xor(BitStep(Xor(c, x % 2)), x / 2), k - 1)
  {
    hide Xor, BitStep;
    PeelBit(c, x);
  }

  lemma MessageJoins(message: nat, x: nat, k: nat)
    requires k > 0
    ensures Shifted(2 * message + x % 2, k - 1) + Reflect(x / 2, k - 1) == Shifted(message, k) + Reflect(x, k)
  {
    Joined(message, x % 2, Pow2(k - 1));
  }

  lemma Joined(message: nat, bit: nat, power: nat)
    requires bit <= 1
    ensures (2 * message + bit) * power == message * (2 * power) + (if bit == 1 then power else 0)
  {
  }

  lemma {:induction false} StateIsRemainder(bytes: seq<Byte>)
    ensures IsRemainder(Dividend(Message(bytes), 8 * |bytes|), Generator(), 32, Reflect(AbsorbAll(ALL_ONES, bytes), 32))
    decreases |bytes|
  {
    hide Xor, BitSteps, IsRemainder, Dividend, Generator, Reflect;
    if bytes == [] {
      StartIsRemainder();
    } else {
      var n := |bytes| - 1;
      var init, last := bytes[..n], bytes[n];
      StateIsRemainder(init);
      AbsorbAllBelow(ALL_ONES, init);
      assert Pow2(8) == 256;
      SomeBits(AbsorbAll(ALL_ONES, init), last, 8, Message(init), 8 * n);
      assert bytes == init + [last] && [last][1..] == [];
      AbsorbAllAppends(ALL_ONES, init, [last]);
      assert AbsorbAll(Absorb(AbsorbAll(ALL_ONES, init), last), []) == Absorb(AbsorbAll(ALL_ONES, init), last);
    }
  }

  lemma StartIsRemainder()
    ensures IsRemainder(Dividend(0, 0), Generator(), 32, Reflect(ALL_ONES, 32))
  {
    hide Xor, Reflect, Generator;
    U32IsPow2();
    ReflectOnes(32);
    assert Product(0, Generator()) == 0;
    XorZero(ALL_ONES);
  }

  /**
   The checksum of every payload: its complement, reflected, is the remainder of the message times
   x^32, with the all-ones register added in front, on division by the generator.
   */
  lemma CrcIsRemainder(bytes: seq<Byte>)
    ensures IsRemainder(Xor(Shifted(Message(bytes), 32), Shifted(Pow2(32) - 1, 8 * |bytes|)), Polynomial(EXPONENTS), 32,
                        Reflect(Xor(Crc(bytes), ALL_ONES), 32))
  {
    hide Xor, AbsorbAll, Reflect, Message, Polynomial, IsRemainder;
    StateIsRemainder(bytes);
    XorCancels(AbsorbAll(ALL_ONES, bytes), ALL_ONES);
    U32IsPow2();
  }

  // ----- there is only one remainder

  lemma {:induction false} ProductXor(a: nat, b: nat, divisor: nat)
    ensures Product(Xor(a, b), divisor) == Xor(Product(a, divisor), Product(b, divisor))
    decreases a + b
  {
    hide Xor;
    if a == 0 || b == 0 {
      XorZero(a);
      XorZero(b);
      XorZero(Product(a, divisor));
      XorZero(Product(b, divisor));
    } else {
      XorHalves(a, b);
      ProductXor(a / 2, b / 2, divisor);
      var x, y := if a % 2 == 1 then divisor else 0, if b % 2 == 1 then divisor else 0;
      var p, q := Product(a / 2, divisor), Product(b / 2, divisor);
      DoubleXor(p, q);
      XorRegroups(x, 2 * p, y, 2 * q);
      XorZero(divisor);
      XorZero(0);
      ProductDoubles(Xor(a / 2, b / 2), Xor(a, b) % 2, divisor);
    }
  }

  /** A multiple by anything but zero has at least the degree of the divisor. */
  lemma {:induction false} MultipleIsLong(a: nat, divisor: nat, degree: nat) returns (k: nat)
    requires a > 0 && Pow2(degree) <= divisor < 2 * Pow2(degree)
    ensures Pow2(degree + k) <= Product(a, divisor) < Pow2(degree + k + 1)
    decreases a
  {
    hide Xor;
    if a == 1 {
      k := 0;
      XorZero(divisor);
      assert Product(1, divisor) == Xor(divisor, 2 * Product(0, divisor));
    } else {
      var j := MultipleIsLong(a / 2, divisor, degree);
      k := j + 1;
      var p, q := 2 * Product(a / 2, divisor), if a % 2 == 1 then divisor else 0;
      PowersGrow(degree + 1, degree + k);
      TopStays(q, p, degree + k);
    }
  }

  lemma {:induction false} PowersGrow(m: nat, n: nat)
    requires m <= n
    ensures Pow2(m) <= Pow2(n)
    decreases n - m
  {
    if m < n {
      PowersGrow(m + 1, n);
    }
  }

  /** Adding something shorter leaves the highest power. */
  lemma TopStays(q: nat, p: nat, n: nat)
    requires q < Pow2(n) && Pow2(n) <= p < Pow2(n + 1)
    ensures Pow2(n) <= Xor(q, p) < Pow2(n + 1)
  {
    hide Xor, ShiftRight;
    PowersGrow(n, n + 1);
    XorBelow(q, p, n + 1);
    XorShifts(q, p, n);
    BelowIffShiftedOut(q, n);
    BelowIffShiftedOut(p, n);
    BelowIffShiftedOut(Xor(q, p), n);
    XorZero(ShiftRight(p, n));
  }

  /** So the remainder of the checksum is the only polynomial of degree below 32 that is one. */
  lemma RemainderIsUnique(dividend: nat, r: nat, s: nat)
    requires IsRemainder(dividend, Polynomial(EXPONENTS), 32, r) && IsRemainder(dividend, Polynomial(EXPONENTS), 32, s)
    ensures r == s
  {
    hide Xor, Product, Pow2, Polynomial;
    var g := Polynomial(EXPONENTS);
    var a: nat :| dividend == Xor(Product(a, g), r);
    var b: nat :| dividend == Xor(Product(b, g), s);
    var p, q := Product(a, g), Product(b, g);
    GeneratorIs();
    U32IsPow2();
    ProductXor(a, b, g);
    XorRegroups(p, r, q, s);
    XorZero(dividend);
    XorIsZeroOnlyForEquals(Xor(p, q), Xor(r, s));
    XorBelow(r, s, 32);
    if Xor(a, b) > 0 {
      var k := MultipleIsLong(Xor(a, b), g, 32);
      PowersGrow(32, 32 + k);
      assert false;
    }
    XorIsZeroOnlyForEquals(a, b);
    XorZero(p);
    XorIsZeroOnlyForEquals(r, s);
  }

  lemma {:induction false} ReflectTwice(x: nat, n: nat)
    requires x < Pow2(n)
    ensures Reflect(Reflect(x, n), n) == x
    decreases n
  {
    if n > 0 {
      var low := Reflect(x / 2, n - 1);
      ReflectBelow(x / 2, n - 1);
      ReflectTwice(x / 2, n - 1);
      ReflectSplits(x % 2, low, n - 1, 1);
      OneReflected(x % 2, n - 1, x / 2);
    }
  }

  lemma OneReflected(bit: nat, k: nat, half: nat)
    requires bit <= 1
    ensures Shifted(bit, k) == Bit(bit, k) && Shifted(half, 1) == 2 * half && Reflect(bit, 1) == bit
  {
    assert Pow2(1) == 2 && Pow2(0) == 1;
    hide Pow2;
    assert Reflect(bit / 2, 0) == 0;
  }

  /**
   A value is the checksum of a payload exactly when its complement, reflected, is that remainder: the
   polynomial alone decides the checksum.
   */
  lemma CrcIff(bytes: seq<Byte>, crc: nat)
    requires crc < Pow2(32)
    ensures crc == Crc(bytes) <==>
            IsRemainder(Xor(Shifted(Message(bytes), 32), Shifted(Pow2(32) - 1, 8 * |bytes|)), Polynomial(EXPONENTS), 32,
                        Reflect(Xor(crc, Pow2(32) - 1), 32))
  {
    hide Xor, Reflect, Message, Polynomial, IsRemainder, Crc, Shifted;
    U32IsPow2();
    hide Pow2;
    CrcIsRemainder(bytes);
    var dividend: nat := Xor(Shifted(Message(bytes), 32), Shifted(Pow2(32) - 1, 8 * |bytes|));
    var r, s := Reflect(Xor(Crc(bytes), ALL_ONES), 32), Reflect(Xor(crc, ALL_ONES), 32);
    if IsRemainder(dividend, Polynomial(EXPONENTS), 32, s) {
      RemainderIsUnique(dividend, r, s);
      CrcFits(bytes);
      XorBelow(crc, ALL_ONES, 32);
      XorBelow(Crc(bytes), ALL_ONES, 32);
      ReflectTwice(Xor(crc, ALL_ONES), 32);
      ReflectTwice(Xor(Crc(bytes), ALL_ONES), 32);
      XorIsInjective(ALL_ONES, crc, Crc(bytes));
    }
  }

  // ----- the loop over bits

  lemma {:induction false} ComplementIsXor(v: nat, k: nat)
    requires v < Pow2(k)
    ensures Xor(v, Pow2(k) - 1) == Pow2(k) - 1 - v
    decreases k
  {
    hide Xor;
    if k == 0 {
      XorZero(0);
    } else {
      var ones: nat := Pow2(k) - 1;
      assert ones / 2 == Pow2(k - 1) - 1 && ones % 2 == 1;
      ComplementIsXor(v / 2, k - 1);
      XorHalves(v, ones);
    }
  }

  /** The loop returns the checksum, and that is the remainder of the payload's polynomial. */
  method Compute(bytes: seq<Byte>) returns (crc: U32)
    ensures crc == Crc(bytes)
    ensures IsRemainder(Xor(Shifted(Message(bytes), 32), Shifted(Pow2(32) - 1, 8 * |bytes|)), Polynomial(EXPONENTS), 32,
                        Reflect(Xor(crc, Pow2(32) - 1), 32))
  {
    hide Xor, IsRemainder, Message, Polynomial, Reflect, Shifted, Pow2;
    var value: nat := ALL_ONES;
    AbsorbAllBelow(ALL_ONES, bytes);
    for i := 0 to |bytes|
      invariant AbsorbAll(value, bytes[i..]) == AbsorbAll(ALL_ONES, bytes)
    {
      assert bytes[i..][0] == bytes[i] && bytes[i..][1..] == bytes[i + 1..];
      ghost var absorbed := Absorb(value, bytes[i]);
      value := Xor(value, bytes[i]);
      for bit := 0 to 8
        invariant BitSteps(value, 8 - bit) == absorbed
      {
        var mask := if value % 2 == 1 then POLYNOMIAL else 0;
        value := Xor(value / 2, mask);
      }
    }
    U32IsPow2();
    ComplementIsXor(value, 32);
    crc := ALL_ONES - value;
    CrcIff(bytes, crc);
  }
}
