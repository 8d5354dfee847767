/** Where each field of a recorded event and of the file header stands, offset by offset. */
module L2Offsets {
  import opened L2Types
  import opened Bits
  import opened Crc32
  import opened Layouts
  import opened Offsets
  import opened Recording
  import opened L2Format

  lemma OffsetsAre()
    ensures Size(EVENT_LAYOUT[..0]) == 0 && Size(EVENT_LAYOUT[..1]) == 4 && Size(EVENT_LAYOUT[..2]) == 8
    ensures Size(EVENT_LAYOUT[..3]) == 16 && Size(EVENT_LAYOUT[..4]) == 24 && Size(EVENT_LAYOUT[..5]) == 32
    ensures Size(EVENT_LAYOUT[..6]) == 40 && Size(EVENT_LAYOUT[..7]) == 44 && Size(EVENT_LAYOUT[..8]) == 48
    ensures Size(EVENT_LAYOUT[..9]) == 56 && Size(EVENT_LAYOUT[..10]) == 64 && Size(EVENT_LAYOUT[..11]) == 68
    ensures Size(EVENT_LAYOUT[..12]) == 72
  {
    hide Size;
    assert Size([]) == 0 by { NothingSized(); }
    assert EVENT_LAYOUT[..0] == [];
    forall i | 0 <= i < 12 ensures Size(EVENT_LAYOUT[..i + 1]) == Size(EVENT_LAYOUT[..i]) + EVENT_LAYOUT[i] {
      SizeGrows(EVENT_LAYOUT, i);
    }
  }

  lemma NothingSized()
    ensures Size([]) == 0
  {
  }

  lemma {:induction false} SizeGrows(layout: Layout, i: nat)
    requires i < |layout|
    ensures Size(layout[..i + 1]) == Size(layout[..i]) + layout[i]
    decreases i
  {
    if i == 0 {
      assert layout[..1][1..] == [] && layout[..1][0] == layout[0];
      NothingSized();
    } else {
      SizeGrows(layout[1..], i - 1);
      assert layout[..i + 1][1..] == layout[1..][..i] && layout[..i][1..] == layout[1..][..i - 1];
    }
  }

  lemma HeaderUnpacks(h: EventHeader)
    ensures |HeaderBytes(h)| == Size(EVENT_LAYOUT) == 80 && Unpack(EVENT_LAYOUT, HeaderBytes(h)) == Fields(h)
  {
    hide Pack, Unpack, Size, Fits;
    FitsEventLayout(Fields(h));
    UnpackInvertsPack(EVENT_LAYOUT, Fields(h));
    EventLayoutSize();
  }

  lemma OneField(h: EventHeader, payload: seq<Byte>, i: nat, at: nat, width: nat)
    requires i < 13 && at == Size(EVENT_LAYOUT[..i]) && width == EVENT_LAYOUT[i]
    ensures |HeaderBytes(h)| == 80 && at + width <= 80
    ensures FieldAt(HeaderBytes(h) + payload, at, width) == Fields(h)[i]
  {
    hide Fields, Unpack, Size, FieldAt, HeaderBytes;
    HeaderUnpacks(h);
    UnpackAt(EVENT_LAYOUT, HeaderBytes(h), i, at);
    FieldBefore(HeaderBytes(h), payload, at, width);
  }

  lemma FieldBefore(bytes: seq<Byte>, after: seq<Byte>, at: nat, width: nat)
    requires at + width <= |bytes|
    ensures FieldAt(bytes + after, at, width) == FieldAt(bytes, at, width)
  {
    assert (bytes + after)[at..at + width] == bytes[at..at + width];
  }

  /** The header of a record, field by field; what follows it does not matter. */
  lemma HeaderFieldsAt(h: EventHeader, payload: seq<Byte>)
    ensures var b := HeaderBytes(h) + payload;
      && |b| == 80 + |payload| && b[80..] == payload
      && FieldAt(b, 0, 4) == h.kind && FieldAt(b, 4, 4) == h.flags
      && FieldAt(b, 8, 8) == h.receipt && FieldAt(b, 16, 8) == h.exchangeTime
      && FieldAt(b, 24, 8) == h.firstId && FieldAt(b, 32, 8) == h.finalId
      && FieldAt(b, 40, 4) == h.bidCount && FieldAt(b, 44, 4) == h.askCount
      && FieldAt(b, 48, 8) == h.tradePrice && FieldAt(b, 56, 8) == h.tradeQuantity
      && FieldAt(b, 64, 4) == h.crc && FieldAt(b, 68, 4) == h.recordSize && FieldAt(b, 72, 8) == h.reserved
  {
    OffsetsAre();
    hide Size, FieldAt, HeaderBytes;
    OneField(h, payload, 0, 0, 4);
    OneField(h, payload, 1, 4, 4);
    OneField(h, payload, 2, 8, 8);
    OneField(h, payload, 3, 16, 8);
    OneField(h, payload, 4, 24, 8);
    OneField(h, payload, 5, 32, 8);
    OneField(h, payload, 6, 40, 4);
    OneField(h, payload, 7, 44, 4);
    OneField(h, payload, 8, 48, 8);
    OneField(h, payload, 9, 56, 8);
    OneField(h, payload, 10, 64, 4);
    OneField(h, payload, 11, 68, 4);
    OneField(h, payload, 12, 72, 8);
  }

  // ----- one recorded event

  /** The framing every record has: its size, the checksum of what follows the header, nothing reserved. */
  predicate Framed(b: seq<Byte>) {
    |b| >= 80 && FieldAt(b, 68, 4) == |b| && FieldAt(b, 64, 4) == Crc(b[80..]) && FieldAt(b, 72, 8) == 0
  }

  /** The levels behind the header: the bids and then the asks, price and quantity in eight bytes each. */
  ghost predicate HoldsLevels(b: seq<Byte>, bids: seq<Level>, asks: seq<Level>) {
    && |b| == 80 + 16 * (|bids| + |asks|)
    && FieldAt(b, 40, 4) == |bids| && FieldAt(b, 44, 4) == |asks|
    && (forall i | 0 <= i < |bids| ::
          FieldAt(b, 80 + 16 * i, 8) == bids[i].price && FieldAt(b, 88 + 16 * i, 8) == bids[i].quantity)
    && (forall i | 0 <= i < |asks| ::
          var at := 80 + 16 * |bids| + 16 * i; FieldAt(b, at, 8) == asks[i].price && FieldAt(b, at + 8, 8) == asks[i].quantity)
  }

  lemma LevelsFollow(header: seq<Byte>, bids: seq<Level>, asks: seq<Level>)
    requires |header| == 80
    ensures var b := header + LevelBytes(bids + asks);
      && |b| == 80 + 16 * (|bids| + |asks|)
      && (forall i | 0 <= i < |bids| ::
            FieldAt(b, 80 + 16 * i, 8) == bids[i].price && FieldAt(b, 88 + 16 * i, 8) == bids[i].quantity)
      && (forall i | 0 <= i < |asks| ::
            var at := 80 + 16 * |bids| + 16 * i; FieldAt(b, at, 8) == asks[i].price && FieldAt(b, at + 8, 8) == asks[i].quantity)
  {
    hide LevelBytes, FieldAt;
    var all := bids + asks;
    var levels, b := LevelBytes(all), header + LevelBytes(all);
    LevelBytesSize(all);
    forall i | 0 <= i < |all|
      ensures FieldAt(b, 80 + 16 * i, 8) == all[i].price && FieldAt(b, 88 + 16 * i, 8) == all[i].quantity
    {
      LevelAt(all, i);
      assert b == header + levels + [];
      NumberLater(header, levels, [], 16 * i);
      NumberLater(header, levels, [], 16 * i + 8);
    }
    forall i | 0 <= i < |bids|
      ensures FieldAt(b, 80 + 16 * i, 8) == bids[i].price && FieldAt(b, 88 + 16 * i, 8) == bids[i].quantity
    {
      assert bids[i] == all[i];
    }
    forall i | 0 <= i < |asks|
      ensures var at := 80 + 16 * |bids| + 16 * i;
              FieldAt(b, at, 8) == asks[i].price && FieldAt(b, at + 8, 8) == asks[i].quantity
    {
      assert asks[i] == all[|bids| + i];
      assert 80 + 16 * (|bids| + i) == 80 + 16 * |bids| + 16 * i;
    }
  }

  lemma RecordIs(e: Event)
    requires Writable(e)
    ensures var b, h := RecordBytes(e), HeaderFor(e);
      && Framed(b) && HoldsLevels(b, BidsOf(e), AsksOf(e))
      && FieldAt(b, 0, 4) == h.kind && FieldAt(b, 4, 4) == h.flags
      && FieldAt(b, 8, 8) == h.receipt && FieldAt(b, 16, 8) == h.exchangeTime
      && FieldAt(b, 24, 8) == h.firstId && FieldAt(b, 32, 8) == h.finalId
      && FieldAt(b, 48, 8) == h.tradePrice && FieldAt(b, 56, 8) == h.tradeQuantity
  {
    hide FieldAt, HeaderBytes, LevelBytes, Crc, TableCrc;
    HeaderFieldsAt(HeaderFor(e), Payload(e));
    LevelsFollow(HeaderBytes(HeaderFor(e)), BidsOf(e), AsksOf(e));
    CrcStored(e);
  }

  lemma CrcStored(e: Event)
    requires Writable(e)
    ensures HeaderFor(e).crc == Crc(Payload(e)) && HeaderFor(e).reserved == 0
    ensures HeaderFor(e).bidCount == |BidsOf(e)| && HeaderFor(e).askCount == |AsksOf(e)|
    ensures HeaderFor(e).recordSize == 80 + 16 * (|BidsOf(e)| + |AsksOf(e)|)
  {
    hide Crc, TableCrc, LevelBytes;
    TableDrivenAgrees(Payload(e));
  }

  /** A recorded snapshot: type 1, its receipt, and its identifier as the first and the last. */
  lemma SnapshotBytesAre(s: Snapshot)
    requires Writable(SnapshotEvent(s))
    ensures var b := RecordBytes(SnapshotEvent(s));
      && Framed(b) && HoldsLevels(b, s.bids, s.asks)
      && FieldAt(b, 0, 4) == 1 && FieldAt(b, 4, 4) == 0
      && FieldAt(b, 8, 8) == s.receipt && FieldAt(b, 16, 8) == 0
      && FieldAt(b, 24, 8) == s.lastUpdateId && FieldAt(b, 32, 8) == s.lastUpdateId
      && FieldAt(b, 48, 8) == 0 && FieldAt(b, 56, 8) == 0
  {
    hide FieldAt, RecordBytes, PayloadCrc, Framed, HoldsLevels;
    RecordIs(SnapshotEvent(s));
  }

  /** A recorded update: type 2, its two times, and the first and last identifier of its range. */
  lemma DepthBytesAre(u: DepthUpdate)
    requires Writable(DepthEvent(u))
    ensures var b := RecordBytes(DepthEvent(u));
      && Framed(b) && HoldsLevels(b, u.bids, u.asks)
      && FieldAt(b, 0, 4) == 2 && FieldAt(b, 4, 4) == 0
      && FieldAt(b, 8, 8) == u.receipt && FieldAt(b, 16, 8) == u.eventTimeMs
      && FieldAt(b, 24, 8) == u.firstUpdateId && FieldAt(b, 32, 8) == u.finalUpdateId
      && FieldAt(b, 48, 8) == 0 && FieldAt(b, 56, 8) == 0
  {
    hide FieldAt, RecordBytes, PayloadCrc, Framed, HoldsLevels;
    RecordIs(DepthEvent(u));
  }

  /** A recorded trade: type 3, its lowest flag when the buyer is the maker, its times, identifier, price and quantity. */
  lemma TradeBytesAre(t: Trade)
    ensures var b := RecordBytes(TradeEvent(t));
      && Framed(b) && |b| == 80
      && FieldAt(b, 0, 4) == 3 && FieldAt(b, 4, 4) == (if t.buyerIsMaker then 1 else 0)
      && FieldAt(b, 8, 8) == t.receipt && FieldAt(b, 16, 8) == t.eventTimeMs
      && FieldAt(b, 24, 8) == t.aggregateTradeId && FieldAt(b, 32, 8) == 0
      && FieldAt(b, 48, 8) == t.price && FieldAt(b, 56, 8) == t.quantity
  {
    hide FieldAt, RecordBytes, PayloadCrc, Framed;
    RecordIs(TradeEvent(t));
  }

  /** A recorded boundary: type 4, its reason numbered from one in the flags, its receipt, nothing else. */
  lemma BoundaryBytesAre(receipt: PosU64, reason: BoundaryReason)
    ensures var b := RecordBytes(BoundaryEvent(receipt, reason));
      && Framed(b) && |b| == 80
      && FieldAt(b, 0, 4) == 4 && FieldAt(b, 8, 8) == receipt && FieldAt(b, 16, 8) == 0
      && FieldAt(b, 24, 8) == 0 && FieldAt(b, 32, 8) == 0 && FieldAt(b, 48, 8) == 0 && FieldAt(b, 56, 8) == 0
      && 1 <= FieldAt(b, 4, 4) <= 6
      && [ConnectionStart, SequenceGap, SnapshotRetry, UserStop, QueueOverflow, ConnectionEnd][FieldAt(b, 4, 4) - 1] == reason
  {
    hide FieldAt, RecordBytes, PayloadCrc, Framed;
    RecordIs(BoundaryEvent(receipt, reason));
  }

  // ----- the file header

  lemma NumberField(id: Identity, i: nat, at: nat, width: nat)
    requires ValidSymbol(id.symbol) && i < 7 && at == Size(NUMBERS[..i]) && width == NUMBERS[i]
    ensures |Pack(NUMBERS, HeaderNumbers(id.created))| == 40 && |FileHeaderBytes(id)| == 128 && at + width <= 40
    ensures FieldAt(FileHeaderBytes(id), 8 + at, width) == HeaderNumbers(id.created)[i]
  {
    hide FieldAt, Pack, Unpack, Size;
    var numbers, values := Pack(NUMBERS, HeaderNumbers(id.created)), HeaderNumbers(id.created);
    NumbersFit(id.created);
    UnpackInvertsPack(NUMBERS, values);
    UnpackAt(NUMBERS, numbers, i, at);
    var after := SymbolBytes(id.symbol) + Zeros(64);
    assert FileHeaderBytes(id) == MAGIC + numbers + after;
    FieldLater(MAGIC, numbers, after, at, width);
  }

  /** The 128 bytes a recording starts with. */
  lemma FileHeaderBytesAre(id: Identity)
    requires ValidSymbol(id.symbol)
    ensures var b := FileHeaderBytes(id);
      && |b| == 128
      && b[..8] == ['Q' as int, 'L' as int, '2' as int, 'E' as int, 'V' as int, 'T' as int, '1' as int, 0]
      && FieldAt(b, 8, 4) == 1 && FieldAt(b, 12, 4) == 128 && FieldAt(b, 16, 4) == 80 && FieldAt(b, 20, 4) == 16
      && FieldAt(b, 24, 8) == 100_000_000 && FieldAt(b, 32, 8) == 100_000_000 && FieldAt(b, 40, 8) == id.created
      && (forall i | 0 <= i < |id.symbol| :: b[48 + i] == id.symbol[i] as int)
      && (forall i | 48 + |id.symbol| <= i < 128 :: b[i] == 0)
  {
    NumberOffsets();
    hide FieldAt, Size, Pack;
    NumberField(id, 0, 0, 4);
    NumberField(id, 1, 4, 4);
    NumberField(id, 2, 8, 4);
    NumberField(id, 3, 12, 4);
    NumberField(id, 4, 16, 8);
    NumberField(id, 5, 24, 8);
    NumberField(id, 6, 32, 8);
    forall i | 0 <= i < |id.symbol|
      ensures SymbolByte(id.symbol[i] as int)
    {
      assert id.symbol[i] in id.symbol;
    }
  }

  lemma FieldLater(before: seq<Byte>, bytes: seq<Byte>, after: seq<Byte>, at: nat, width: nat)
    requires at + width <= |bytes|
    ensures FieldAt(before + bytes + after, |before| + at, width) == FieldAt(bytes, at, width)
  {
    assert (before + bytes + after)[|before| + at..|before| + at + width] == bytes[at..at + width];
  }

  lemma NumbersFit(created: U64)
    ensures Fits(NUMBERS, HeaderNumbers(created)) && Size(NUMBERS) == 40
  {
    FieldRanges();
    hide Range;
  }

  lemma NumberOffsets()
    ensures Size(NUMBERS[..0]) == 0 && Size(NUMBERS[..1]) == 4 && Size(NUMBERS[..2]) == 8 && Size(NUMBERS[..3]) == 12
    ensures Size(NUMBERS[..4]) == 16 && Size(NUMBERS[..5]) == 24 && Size(NUMBERS[..6]) == 32
  {
    hide Size;
    assert Size([]) == 0 by { NothingSized(); }
    assert NUMBERS[..0] == [];
    forall i | 0 <= i < 6 ensures Size(NUMBERS[..i + 1]) == Size(NUMBERS[..i]) + NUMBERS[i] {
      SizeGrows(NUMBERS, i);
    }
  }
}
