/** The numbers that stand at the offsets of packed bytes. */
module Offsets {
  import opened Words
  import opened Bits
  import opened L2Types
  import opened Layouts

  // ----- little-endian bytes

  /** Byte i of a little-endian number is its digit of weight 256 to the i. */
  lemma {:induction false} LittleEndianAt(n: nat, width: nat, i: nat)
    requires i < width
    ensures LittleEndian(n, width)[i] == n / Range(i) % 256
    decreases width
  {
    if i > 0 {
      LittleEndianAt(n / 256, width - 1, i - 1);
      DivideTwice(n, 256, Range(i - 1));
      assert LittleEndian(n, width)[i] == LittleEndian(n / 256, width - 1)[i - 1];
    }
  }

  lemma DivideTwice(n: nat, a: nat, b: nat)
    requires a > 0 && b > 0
    ensures n / a / b == n / (a * b)
  {
    var m: nat := n / a;
    Regrouped(a, b, m / b, m % b, n % a);
    RestBelow(a, b, m % b, n % a);
    DivModUnique(n, a * b, m / b, a * (m % b) + n % a);
  }

  lemma Regrouped(a: nat, b: nat, q: nat, r: nat, s: nat)
    ensures a * (q * b + r) + s == q * (a * b) + (a * r + s)
  {
    assert a * (q * b + r) == a * (q * b) + a * r;
    assert a * (q * b) == q * (a * b);
  }

  lemma RestBelow(a: nat, b: nat, r: nat, s: nat)
    requires r < b && s < a
    ensures 0 < a * b && a * r + s < a * b
  {
    assert a * (r + 1) <= a * b;
    assert a * (r + 1) == a * r + a;
  }

  // ----- numbers at offsets

  /** The unsigned number of so many bytes that stands at an offset. */
  function FieldAt(bytes: seq<Byte>, at: nat, width: nat): nat
    requires at + width <= |bytes|
  {
    FromLittleEndian(bytes[at..at + width])
  }

  function NumberAt(bytes: seq<Byte>, at: nat): nat
    requires at + 8 <= |bytes|
  {
    FieldAt(bytes, at, 8)
  }

  /** Field i of a record stands behind the fields before it. */
  lemma {:induction false} UnpackAt(layout: Layout, bytes: seq<Byte>, i: nat, at: nat)
    requires |bytes| == Size(layout) && i < |layout| && at == Size(layout[..i])
    ensures at + layout[i] <= |bytes| && Unpack(layout, bytes)[i] == FieldAt(bytes, at, layout[i])
    decreases i
  {
    var first, rest := layout[0], layout[1..];
    if i == 0 {
      assert bytes[0..first] == bytes[..first];
    } else {
      assert layout[..i][1..] == rest[..i - 1];
      UnpackAt(rest, bytes[first..], i - 1, at - first);
      assert bytes[first..][at - first..at - first + layout[i]] == bytes[at..at + layout[i]];
    }
  }

  lemma NumberOf(before: seq<Byte>, n: nat, after: seq<Byte>)
    requires n <= UINT64_MAX
    ensures var bytes := before + LittleEndian(n, 8) + after;
            |before| + 8 <= |bytes| && NumberAt(bytes, |before|) == n
  {
    hide LittleEndian, FromLittleEndian;
    FieldRanges();
    DecodesEncoding(n, 8);
    var bytes := before + LittleEndian(n, 8) + after;
    assert bytes[|before|..|before| + 8] == LittleEndian(n, 8);
  }

  lemma NumberLater(before: seq<Byte>, bytes: seq<Byte>, after: seq<Byte>, at: nat)
    requires at + 8 <= |bytes|
    ensures |before| + at + 8 <= |before + bytes + after|
    ensures NumberAt(before + bytes + after, |before| + at) == NumberAt(bytes, at)
  {
    hide FromLittleEndian;
    assert (before + bytes + after)[|before| + at..|before| + at + 8] == bytes[at..at + 8];
  }

  lemma {:induction false} LevelAt(levels: seq<Level>, i: nat)
    requires i < |levels|
    ensures |LevelBytes(levels)| == 16 * |levels|
    ensures NumberAt(LevelBytes(levels), 16 * i) == levels[i].price
    ensures NumberAt(LevelBytes(levels), 16 * i + 8) == levels[i].quantity
    decreases i
  {
    hide LittleEndian, NumberAt, LevelBytes;
    LevelBytesSize(levels);
    LevelBytesUnfold(levels);
    var price, quantity, rest := LittleEndian(levels[0].price, 8), LittleEndian(levels[0].quantity, 8), LevelBytes(levels[1..]);
    var all := LevelBytes(levels);
    assert all == [] + price + (quantity + rest) && all == price + quantity + rest;
    if i == 0 {
      NumberOf([], levels[0].price, quantity + rest);
      NumberOf(price, levels[0].quantity, rest);
    } else {
      LevelAt(levels[1..], i - 1);
      assert all == (price + quantity) + rest + [];
      NumberLater(price + quantity, rest, [], 16 * (i - 1));
      NumberLater(price + quantity, rest, [], 16 * (i - 1) + 8);
      assert levels[i] == levels[1..][i - 1];
    }
  }

  lemma LevelBytesUnfold(levels: seq<Level>)
    requires levels != []
    ensures LevelBytes(levels) ==
            LittleEndian(levels[0].price, 8) + LittleEndian(levels[0].quantity, 8) + LevelBytes(levels[1..])
  {
  }
}
