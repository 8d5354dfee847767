/** Where each number of a book stands in the bytes its state hash is taken of, and what the hash of known bytes is. */
module HashEncoding {
  import opened Words
  import opened Bits
  import opened L2Types
  import opened Layouts
  import opened Offsets
  import opened NativeBook

  // ----- the bytes of a book

  /**
   The bytes of a book: its identifier, the number of bids, each bid's price and quantity, the number
   of asks, each ask's price and quantity, every number in eight bytes.
   */
  lemma BookBytesAre(id: U64, bids: seq<Level>, asks: seq<Level>)
    requires |bids| <= UINT64_MAX && |asks| <= UINT64_MAX
    ensures var bytes, middle := BookBytes(id, bids, asks), 16 + 16 * |bids|;
            && |bytes| == middle + 8 + 16 * |asks|
            && NumberAt(bytes, 0) == id
            && NumberAt(bytes, 8) == |bids|
            && (forall i | 0 <= i < |bids| ::
                  NumberAt(bytes, 16 + 16 * i) == bids[i].price && NumberAt(bytes, 24 + 16 * i) == bids[i].quantity)
            && NumberAt(bytes, middle) == |asks|
            && (forall i | 0 <= i < |asks| ::
                  && NumberAt(bytes, middle + 8 + 16 * i) == asks[i].price
                  && NumberAt(bytes, middle + 16 + 16 * i) == asks[i].quantity)
  {
    hide LittleEndian, FieldAt, NumberAt, LevelBytes;
    var a, b, c, d, e := LittleEndian(id, 8), LittleEndian(|bids|, 8), LevelBytes(bids), LittleEndian(|asks|, 8), LevelBytes(asks);
    var bytes := BookBytes(id, bids, asks);
    LevelBytesSize(bids);
    LevelBytesSize(asks);
    assert bytes == [] + a + (b + c + d + e);
    NumberOf([], id, b + c + d + e);
    assert bytes == a + b + (c + d + e);
    NumberOf(a, |bids|, c + d + e);
    assert bytes == (a + b + c) + d + e;
    NumberOf(a + b + c, |asks|, e);
    forall i | 0 <= i < |bids|
      ensures NumberAt(bytes, 16 + 16 * i) == bids[i].price && NumberAt(bytes, 24 + 16 * i) == bids[i].quantity
    {
      LevelAt(bids, i);
      assert bytes == (a + b) + c + (d + e);
      NumberLater(a + b, c, d + e, 16 * i);
      NumberLater(a + b, c, d + e, 16 * i + 8);
    }
    forall i | 0 <= i < |asks|
      ensures NumberAt(bytes, 24 + 16 * |bids| + 16 * i) == asks[i].price
      ensures NumberAt(bytes, 32 + 16 * |bids| + 16 * i) == asks[i].quantity
    {
      LevelAt(asks, i);
      assert bytes == (a + b + c + d) + e + [];
      NumberLater(a + b + c + d, e, [], 16 * i);
      NumberLater(a + b + c + d, e, [], 16 * i + 8);
    }
  }

  /** Two books are hashed over the same bytes only when they are the same book. */
  lemma BookBytesAreInjective(id: U64, bids: seq<Level>, asks: seq<Level>, jd: U64, cids: seq<Level>, dsks: seq<Level>)
    requires |bids| <= UINT64_MAX && |asks| <= UINT64_MAX && |cids| <= UINT64_MAX && |dsks| <= UINT64_MAX
    requires BookBytes(id, bids, asks) == BookBytes(jd, cids, dsks)
    ensures id == jd && bids == cids && asks == dsks
  {
    hide NumberAt, BookBytes;
    BookBytesAre(id, bids, asks);
    BookBytesAre(jd, cids, dsks);
    assert |bids| == |cids| && |asks| == |dsks|;
    forall i | 0 <= i < |bids| ensures bids[i] == cids[i] {
    }
    forall i | 0 <= i < |asks| ensures asks[i] == dsks[i] {
    }
  }

  // ----- known values of the 64-bit FNV-1a hash

  lemma KnownXor()
    ensures Xor(0xCBF2_9CE4_8422_2325, 0x61) == 0xCBF2_9CE4_8422_2344
  {
    hide Xor;
    var high: nat := 0xCB_F29C_E484_2223;
    assert Pow2(8) == 256;
    XorJoins(0x25, high, 8);
    XorJoins(0x44, high, 8);
    SmallXor();
    XorCommutes(0x25, high * 256);
    XorAssociates(high * 256, 0x25, 0x61);
    XorCommutes(high * 256, 0x44);
  }

  lemma SmallXor()
    ensures Xor(0x25, 0x61) == 0x44
  {
    hide Xor;
    XorZero(1);
    XorHalves(1, 3);
    XorHalves(2, 6);
    XorHalves(4, 12);
    XorHalves(9, 24);
    XorHalves(18, 48);
    XorHalves(37, 97);
  }

  /** The published values of the hash for no bytes and for the letter a. */
  lemma KnownHashes()
    ensures MixedAll(FNV_OFFSET, []) == 0xCBF2_9CE4_8422_2325
    ensures MixedAll(FNV_OFFSET, [0x61]) == 0xAF63_DC4C_8601_EC8C
  {
    hide Xor;
    KnownXor();
    assert [0x61 as int][1..] == [];
  }
}
