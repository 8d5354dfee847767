/** Fixed little-endian record layouts: packing and unpacking lists of unsigned fields. */
module Layouts {
  import opened Bits
  import opened L2Types

  /** The byte width of each field. */
  type Layout = seq<nat>

  function Size(layout: Layout): nat {
    if layout == [] then 0 else layout[0] + Size(layout[1..])
  }

  predicate Fits(layout: Layout, values: seq<nat>) {
    |values| == |layout| && forall i | 0 <= i < |layout| :: values[i] < Range(layout[i])
  }

  function Pack(layout: Layout, values: seq<nat>): seq<Byte>
    requires |values| == |layout|
  {
    if layout == [] then [] else LittleEndian(values[0], layout[0]) + Pack(layout[1..], values[1..])
  }

  function Unpack(layout: Layout, bytes: seq<Byte>): (values: seq<nat>)
    requires |bytes| == Size(layout)
    ensures |values| == |layout|
  {
    if layout == [] then []
    else [FromLittleEndian(bytes[..layout[0]])] + Unpack(layout[1..], bytes[layout[0]..])
  }

  lemma {:induction false} PackSize(layout: Layout, values: seq<nat>)
    requires |values| == |layout|
    ensures |Pack(layout, values)| == Size(layout)
    decreases |layout|
  {
    if layout != [] {
      PackSize(layout[1..], values[1..]);
    }
  }

  lemma {:induction false} UnpackInvertsPack(layout: Layout, values: seq<nat>)
    requires Fits(layout, values)
    ensures |Pack(layout, values)| == Size(layout)
    ensures Unpack(layout, Pack(layout, values)) == values
    decreases |layout|
  {
    PackSize(layout, values);
    if layout != [] {
      DecodesEncoding(values[0], layout[0]);
      UnpackInvertsPack(layout[1..], values[1..]);
      var bytes := Pack(layout, values);
      assert bytes[..layout[0]] == LittleEndian(values[0], layout[0]);
      assert bytes[layout[0]..] == Pack(layout[1..], values[1..]);
    }
  }

  lemma {:induction false} PackInvertsUnpack(layout: Layout, bytes: seq<Byte>)
    requires |bytes| == Size(layout)
    ensures Fits(layout, Unpack(layout, bytes))
    ensures Pack(layout, Unpack(layout, bytes)) == bytes
    decreases |layout|
  {
    if layout != [] {
      EncodesDecoding(bytes[..layout[0]]);
      PackInvertsUnpack(layout[1..], bytes[layout[0]..]);
      var values := Unpack(layout, bytes);
      assert values[1..] == Unpack(layout[1..], bytes[layout[0]..]);
      assert forall i | 1 <= i < |layout| :: values[i] == values[1..][i - 1];
      assert bytes == bytes[..layout[0]] + bytes[layout[0]..];
    }
  }

  lemma FieldRanges()
    ensures Range(1) == 256
    ensures Range(4) == 0x1_0000_0000
    ensures Range(8) == UINT64_MAX + 1
  {
    assert Range(2) == 65536;
    assert Range(4) == 65536 * Range(2);
    assert Range(6) == 65536 * Range(4);
    assert Range(8) == 65536 * Range(6);
  }

  // ----- price levels: a signed price and an unsigned quantity, eight bytes each

  const LEVEL_SIZE := 16

  function LevelBytes(levels: seq<Level>): seq<Byte> {
    if levels == [] then []
    else LittleEndian(levels[0].price, 8) + LittleEndian(levels[0].quantity, 8) + LevelBytes(levels[1..])
  }

  /** The two's-complement value of an unsigned 64-bit pattern. */
  function Signed(raw: U64): int {
    if raw <= INT64_MAX then raw else raw - (UINT64_MAX + 1)
  }

  lemma {:induction false} LevelBytesSize(levels: seq<Level>)
    ensures |LevelBytes(levels)| == LEVEL_SIZE * |levels|
    decreases |levels|
  {
    if levels != [] {
      LevelBytesSize(levels[1..]);
    }
  }
}
