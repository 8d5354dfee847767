/**
 Reader, writer and native validator agree: decoding inverts encoding, the validator accepts exactly
 the encodings of storable events, and it refuses short corruptions of a payload.
 */
module L2FormatProperties {
  import opened Results
  import opened L2Types
  import opened Bits
  import opened Crc32
  import opened Layouts
  import opened Recording
  import opened L2Format
  import opened L2Validator

  // ----- levels

  lemma LevelBytesOne(level: Level)
    ensures LevelBytes([level]) == LittleEndian(level.price, 8) + LittleEndian(level.quantity, 8)
  {
    hide LittleEndian;
    assert LevelBytes([level]) == LittleEndian(level.price, 8) + LittleEndian(level.quantity, 8) + LevelBytes([]);
  }

  lemma NumberDecodes(n: U64)
    ensures Number(LittleEndian(n, 8)) == n
  {
    FieldRanges();
    DecodesEncoding(n, 8);
  }

  lemma LevelDecodes(level: Level)
    ensures |LevelBytes([level])| == LEVEL_SIZE && ReadLevel(LevelBytes([level])) == Ok(level)
  {
    hide LittleEndian, Number;
    LevelBytesOne(level);
    var bytes := LevelBytes([level]);
    assert bytes[..8] == LittleEndian(level.price, 8) && bytes[8..] == LittleEndian(level.quantity, 8);
    NumberDecodes(level.price);
    NumberDecodes(level.quantity);
  }

  lemma LevelEncodes(bytes: seq<Byte>)
    requires |bytes| == LEVEL_SIZE && ReadLevel(bytes).Ok?
    ensures LevelBytes([ReadLevel(bytes).value]) == bytes
  {
    hide LittleEndian;
    LevelBytesOne(ReadLevel(bytes).value);
    EncodesDecoding(bytes[..8]);
    EncodesDecoding(bytes[8..]);
    assert bytes == bytes[..8] + bytes[8..];
  }

  lemma {:induction false} LevelsDecode(levels: seq<Level>)
    ensures |LevelBytes(levels)| == LEVEL_SIZE * |levels| && ReadLevels(LevelBytes(levels)) == Ok(levels)
    decreases |levels|
  {
    hide ReadLevel, LittleEndian;
    LevelBytesSize(levels);
    if levels != [] {
      LevelDecodes(levels[0]);
      LevelsDecode(levels[1..]);
      assert levels == [levels[0]] + levels[1..];
      LevelBytesAppend([levels[0]], levels[1..]);
      var bytes := LevelBytes(levels);
      assert bytes[..16] == LevelBytes([levels[0]]) && bytes[16..] == LevelBytes(levels[1..]);
    }
  }

  lemma {:induction false} LevelsEncode(payload: seq<Byte>)
    requires |payload| % LEVEL_SIZE == 0 && ReadLevels(payload).Ok?
    ensures LevelBytes(ReadLevels(payload).value) == payload
    decreases |payload|
  {
    hide ReadLevel, LevelBytes;
    NoLevelBytes();
    if payload != [] {
      LevelEncodes(payload[..16]);
      LevelsEncode(payload[16..]);
      LevelBytesAppend([ReadLevel(payload[..16]).value], ReadLevels(payload[16..]).value);
      assert payload == payload[..16] + payload[16..];
    }
  }

  // ----- one record

  lemma EventDecodes(e: Event)
    requires Writable(e)
    ensures EventOf(HeaderFor(e), BidsOf(e), AsksOf(e)) == Ok(e)
  {
    hide PayloadCrc, Payload;
    match e
    case SnapshotEvent(_) =>
    case DepthEvent(_) =>
    case TradeEvent(_) =>
    case BoundaryEvent(_, reason) => assert ReasonOf(ReasonCode(reason)) == Ok(reason);
  }

  lemma FramingDecodes(e: Event, available: nat)
    requires Writable(e) && available >= EVENT_HEADER_SIZE + |Payload(e)|
    ensures var h := HeaderFor(e);
      && |Payload(e)| == LevelCount(h) * LEVEL_SIZE
      && h.recordSize == EVENT_HEADER_SIZE + |Payload(e)|
      && FramingError(h, available) == None && FramingAccepted(h, available)
      && h.crc == PayloadCrc(Payload(e)) && h.bidCount == |BidsOf(e)| && h.askCount == |AsksOf(e)|
  {
    hide PayloadCrc, LevelBytes;
    LevelBytesSize(BidsOf(e) + AsksOf(e));
  }

  lemma PayloadDecodes(e: Event)
    requires Writable(e)
    ensures |Payload(e)| == LevelCount(HeaderFor(e)) * LEVEL_SIZE
    ensures DecodePayload(HeaderFor(e), Payload(e)) == Ok(e)
  {
    hide PayloadCrc, LevelBytes, ReadLevels, EventOf, HeaderFor;
    FramingDecodes(e, EVENT_HEADER_SIZE + |Payload(e)|);
    LevelsDecode(BidsOf(e) + AsksOf(e));
    var levels := BidsOf(e) + AsksOf(e);
    assert levels[..|BidsOf(e)|] == BidsOf(e) && levels[|BidsOf(e)|..] == AsksOf(e);
    EventDecodes(e);
  }

  /** The header and the payload of a record are where the reader looks for them. */
  lemma RecordSplits(e: Event, rest: seq<Byte>)
    requires Writable(e)
    ensures var bytes, h := RecordBytes(e) + rest, HeaderFor(e);
      && |bytes| >= h.recordSize == |RecordBytes(e)| == EVENT_HEADER_SIZE + |Payload(e)|
      && HeaderOf(bytes[..EVENT_HEADER_SIZE]) == h
      && bytes[EVENT_HEADER_SIZE..h.recordSize] == Payload(e)
      && bytes[h.recordSize..] == rest
  {
    hide HeaderFor, HeaderOf, HeaderBytes, Payload;
    var bytes, h := RecordBytes(e) + rest, HeaderFor(e);
    HeaderDecodes(h);
    FramingDecodes(e, EVENT_HEADER_SIZE + |Payload(e)|);
    assert bytes[..EVENT_HEADER_SIZE] == HeaderBytes(h);
  }

  lemma RecordDecodes(e: Event, rest: seq<Byte>)
    requires Writable(e)
    ensures DecodeRecord(RecordBytes(e) + rest) == Ok(Decoded(e, |RecordBytes(e)|))
  {
    hide HeaderFor, HeaderOf, RecordBytes, Payload, DecodePayload, FramingError;
    RecordSplits(e, rest);
    FramingDecodes(e, |RecordBytes(e) + rest|);
    PayloadDecodes(e);
  }

  // ----- a whole file

  lemma {:induction false} RecordsDecode(events: seq<Event>, rest: seq<Byte>)
    requires AllWritable(events)
    ensures DecodeRecords(RecordsBytes(events) + rest) == Continued(events, DecodeRecords(rest))
    decreases |events|
  {
    hide DecodeRecord, RecordBytes;
    if events == [] {
      assert RecordsBytes(events) + rest == rest;
      assert [] + DecodeRecords(rest).events == DecodeRecords(rest).events;
    } else {
      var tail := RecordsBytes(events[1..]) + rest;
      var bytes := RecordsBytes(events) + rest;
      assert bytes == RecordBytes(events[0]) + tail;
      RecordDecodes(events[0], tail);
      RecordsDecode(events[1..], rest);
      assert bytes[|RecordBytes(events[0])|..] == tail;
      var d := DecodeRecords(rest).events;
      assert [events[0]] + (events[1..] + d) == events + d;
    }
  }

  lemma SymbolDecodes(symbol: string)
    requires ValidSymbol(symbol)
    ensures |SymbolBytes(symbol)| == 16 && DecodeSymbol(SymbolBytes(symbol)) == Ok(symbol)
  {
    var bytes := SymbolBytes(symbol);
    assert forall i | 0 <= i < |symbol| :: bytes[i] == symbol[i] as int by {
      assert forall i | 0 <= i < |symbol| :: symbol[i] in symbol;
    }
    var n := FirstZero(bytes);
    assert forall i | 0 <= i < |symbol| :: SymbolByte(bytes[i]) by {
      assert forall i | 0 <= i < |symbol| :: symbol[i] in symbol;
    }
    assert bytes[|symbol|] == 0;
    assert n == |symbol|;
    assert seq(n, i requires 0 <= i < n => bytes[i] as char) == symbol;
    assert forall i | n <= i < |bytes| :: bytes[i] == 0;
  }

  lemma SymbolEncodes(bytes: seq<Byte>)
    requires |bytes| == 16 && DecodeSymbol(bytes).Ok?
    ensures ValidSymbol(DecodeSymbol(bytes).value) && SymbolBytes(DecodeSymbol(bytes).value) == bytes
  {
    var symbol, n := DecodeSymbol(bytes).value, FirstZero(bytes);
    assert forall i | 0 <= i < n :: SymbolByte(symbol[i] as int) && symbol[i] as int == bytes[i];
  }

  lemma NumbersFit(created: U64)
    ensures Fits(NUMBERS, HeaderNumbers(created)) && Size(NUMBERS) == 40
  {
    FieldRanges();
    var v := HeaderNumbers(created);
    hide Range;
    forall i | 0 <= i < 7 ensures v[i] < Range(NUMBERS[i]) {
      assert i == 0 || i == 1 || i == 2 || i == 3 || i == 4 || i == 5 || i == 6;
    }
  }

  /** Where the fields of a file header are. */
  lemma HeaderSplits(id: Identity, rest: seq<Byte>)
    requires ValidSymbol(id.symbol)
    ensures var bytes := FileHeaderBytes(id) + rest;
      && |FileHeaderBytes(id)| == HEADER_SIZE
      && bytes[..8] == MAGIC && Unpack(NUMBERS, bytes[8..48]) == HeaderNumbers(id.created)
      && bytes[48..64] == SymbolBytes(id.symbol)
      && (forall i | 64 <= i < HEADER_SIZE :: bytes[i] == 0)
      && bytes[HEADER_SIZE..] == rest
  {
    hide Pack, Unpack, SymbolBytes, Fits;
    var bytes, numbers := FileHeaderBytes(id) + rest, Pack(NUMBERS, HeaderNumbers(id.created));
    NumbersFit(id.created);
    UnpackInvertsPack(NUMBERS, HeaderNumbers(id.created));
    SymbolDecodes(id.symbol);
    assert |MAGIC| == 8 && |numbers| == 40;
    assert bytes[..8] == MAGIC;
    assert bytes[8..48] == numbers;
    assert bytes[48..64] == SymbolBytes(id.symbol);
  }

  lemma HeaderReads(id: Identity, rest: seq<Byte>)
    requires ValidSymbol(id.symbol)
    ensures ReadFileHeader(FileHeaderBytes(id) + rest) == Ok(id)
    ensures |FileHeaderBytes(id)| == HEADER_SIZE && FileHeaderAccepted(FileHeaderBytes(id) + rest)
  {
    hide Unpack, SymbolBytes, DecodeSymbol, FileHeaderBytes, Fits;
    HeaderSplits(id, rest);
    SymbolDecodes(id.symbol);
    SymbolIsNotEmpty(id.symbol);
    var bytes := FileHeaderBytes(id) + rest;
    assert bytes[48] == bytes[48..64][0];
    assert HeaderNumbers(id.created)[..6] == HeaderNumbers(0)[..6];
  }

  lemma SymbolIsNotEmpty(symbol: string)
    requires ValidSymbol(symbol)
    ensures SymbolBytes(symbol)[0] != 0
  {
    assert symbol[0] in symbol;
  }

  /** Decoding a file returns its identity and exactly the events written, and ends cleanly. */
  lemma FileDecodes(id: Identity, events: seq<Event>)
    requires ValidSymbol(id.symbol) && AllWritable(events)
    ensures ReadFileHeader(FileBytes(id, events)) == Ok(id)
    ensures DecodeFile(FileBytes(id, events)) == Decoding(events, None)
  {
    hide ReadFileHeader, FileHeaderBytes, Unpack;
    HeaderReads(id, RecordsBytes(events));
    HeaderSplits(id, RecordsBytes(events));
    RecordsDecode(events, []);
    assert RecordsBytes(events) + [] == RecordsBytes(events);
    assert events + [] == events;
  }

  // ----- what the validator accepts

  /** The writer also stores empty snapshots and zero quantities, which the validator refuses. */
  predicate Storable(e: Event) {
    Writable(e) &&
    (e.SnapshotEvent? ==> BidsOf(e) + AsksOf(e) != [] && forall l | l in BidsOf(e) + AsksOf(e) :: l.quantity > 0)
  }

  lemma {:induction false} LevelsAcceptedIff(levels: seq<Level>, inSnapshot: bool)
    ensures |LevelBytes(levels)| == LEVEL_SIZE * |levels|
    ensures LevelsAccepted(LevelBytes(levels), inSnapshot) <==> (inSnapshot ==> forall l | l in levels :: l.quantity > 0)
    decreases |levels|
  {
    hide LevelBytes;
    LevelBytesSize(levels);
    NoLevelBytes();
    if levels != [] {
      var level, rest := levels[0], levels[1..];
      assert levels == [level] + rest;
      LevelsAcceptedIff(rest, inSnapshot);
      LevelBytesAppend([level], rest);
      LevelBytesSize([level]);
      var bytes := LevelBytes(levels);
      assert bytes[..16] == LevelBytes([level]) && bytes[16..] == LevelBytes(rest);
      OneLevelAccepted(level, inSnapshot);
    }
  }

  lemma OneLevelAccepted(level: Level, inSnapshot: bool)
    ensures |LevelBytes([level])| == LEVEL_SIZE
    ensures LevelAccepted(LevelBytes([level]), inSnapshot) <==> (inSnapshot ==> level.quantity > 0)
  {
    hide LittleEndian, Number;
    LevelBytesOne(level);
    var bytes := LevelBytes([level]);
    assert bytes[..8] == LittleEndian(level.price, 8) && bytes[8..] == LittleEndian(level.quantity, 8);
    NumberDecodes(level.price);
    NumberDecodes(level.quantity);
  }

  lemma PayloadAcceptedIff(e: Event)
    requires Writable(e)
    ensures |Payload(e)| == LevelCount(HeaderFor(e)) * LEVEL_SIZE
    ensures PayloadAccepted(HeaderFor(e), Payload(e)) <==> Storable(e)
  {
    hide PayloadCrc, LevelBytes, LevelsAccepted, Crc;
    FramingDecodes(e, EVENT_HEADER_SIZE + |Payload(e)|);
    CrcsAgree(Payload(e));
    LevelsAcceptedIff(BidsOf(e) + AsksOf(e), HeaderFor(e).kind == SNAPSHOT);
  }

  lemma CrcsAgree(payload: seq<Byte>)
    ensures PayloadCrc(payload) == Crc(payload)
  {
    TableDrivenAgrees(payload);
  }

  lemma RecordAcceptedIff(e: Event, rest: seq<Byte>)
    requires Writable(e)
    ensures var bytes := RecordBytes(e) + rest;
      && |RecordBytes(e)| >= EVENT_HEADER_SIZE
      && (RecordAccepted(bytes) <==> Storable(e))
      && SizeOf(bytes) == |RecordBytes(e)| && bytes[SizeOf(bytes)..] == rest
  {
    hide HeaderFor, HeaderOf, RecordBytes, Payload, PayloadAccepted, FramingAccepted, Storable;
    RecordSplits(e, rest);
    FramingDecodes(e, |RecordBytes(e) + rest|);
    PayloadAcceptedIff(e);
  }

  lemma {:induction false} RecordsAcceptedIff(events: seq<Event>, rest: seq<Byte>)
    requires AllWritable(events)
    ensures RecordsAccepted(RecordsBytes(events) + rest) <==> (forall e | e in events :: Storable(e)) && RecordsAccepted(rest)
    decreases |events|
  {
    hide RecordAccepted, RecordBytes, Storable, SizeOf;
    if events == [] {
      assert RecordsBytes(events) + rest == rest;
    } else {
      var tail := RecordsBytes(events[1..]) + rest;
      var bytes := RecordsBytes(events) + rest;
      assert bytes == RecordBytes(events[0]) + tail;
      RecordAcceptedIff(events[0], tail);
      RecordsAcceptedIff(events[1..], rest);
      assert events == [events[0]] + events[1..];
    }
  }

  /** The validator accepts a written recording exactly when its snapshots have levels, all with quantity. */
  lemma WrittenFileAcceptedIff(id: Identity, events: seq<Event>)
    requires ValidSymbol(id.symbol) && AllWritable(events)
    ensures BufferAccepted(FileBytes(id, events)) <==> forall e | e in events :: Storable(e)
  {
    hide FileHeaderAccepted, FileHeaderBytes, Storable;
    HeaderReads(id, RecordsBytes(events));
    HeaderSplits(id, RecordsBytes(events));
    RecordsAcceptedIff(events, []);
    assert RecordsBytes(events) + [] == RecordsBytes(events);
  }

  // ----- everything accepted is an encoding

  lemma {:induction false} AcceptedLevelsRead(payload: seq<Byte>, inSnapshot: bool)
    requires |payload| % LEVEL_SIZE == 0 && LevelsAccepted(payload, inSnapshot)
    ensures ReadLevels(payload).Ok?
    decreases |payload|
  {
    if payload != [] {
      AcceptedLevelsRead(payload[16..], inSnapshot);
    }
  }

  /** Fields that pass the checks are the fields the writer gives the decoded event. */
  lemma AcceptedFieldsDecode(h: EventHeader, bids: seq<Level>, asks: seq<Level>)
    requires FieldsAccepted(h) && h.receipt != 0
    requires |bids| == h.bidCount && |asks| == h.askCount
    ensures EventOf(h, bids, asks).Ok?
    ensures var e := EventOf(h, bids, asks).value;
      BidsOf(e) == bids && AsksOf(e) == asks
  {
  }

  lemma AcceptedFieldsEncode(h: EventHeader, bids: seq<Level>, asks: seq<Level>)
    requires FramingAccepted(h, h.recordSize) && FieldsAccepted(h)
    requires |bids| == h.bidCount && |asks| == h.askCount && EventOf(h, bids, asks).Ok?
    requires h.crc == PayloadCrc(LevelBytes(bids + asks))
    ensures Writable(EventOf(h, bids, asks).value) && HeaderFor(EventOf(h, bids, asks).value) == h
  {
    hide PayloadCrc, LevelBytes;
    AcceptedFieldsDecode(h, bids, asks);
    ReasonsDecode(h.flags);
  }

  lemma ReasonsDecode(code: nat)
    ensures ReasonOf(code).Ok? ==> ReasonCode(ReasonOf(code).value) == code
  {
  }

  lemma AcceptedPayloadDecodes(h: EventHeader, payload: seq<Byte>)
    requires |payload| == LevelCount(h) * LEVEL_SIZE && FramingAccepted(h, h.recordSize) && PayloadAccepted(h, payload)
    ensures DecodePayload(h, payload).Ok?
    ensures var e := DecodePayload(h, payload).value;
      Writable(e) && HeaderFor(e) == h && Payload(e) == payload
  {
    hide PayloadCrc, ReadLevels, EventOf, HeaderFor, LevelsAccepted, FieldsAccepted, LevelBytes, Crc, FramingAccepted;
    CrcsAgree(payload);
    AcceptedLevelsRead(payload, h.kind == SNAPSHOT);
    LevelsEncode(payload);
    var levels := ReadLevels(payload).value;
    var bids, asks := levels[..h.bidCount], levels[h.bidCount..];
    assert bids + asks == levels;
    ReceiptPositive(h);
    AcceptedFieldsDecode(h, bids, asks);
    AcceptedFieldsEncode(h, bids, asks);
  }

  lemma ReceiptPositive(h: EventHeader)
    requires FramingAccepted(h, h.recordSize)
    ensures h.receipt != 0
  {
  }

  lemma AcceptedRecordDecodes(rest: seq<Byte>)
    requires RecordAccepted(rest)
    ensures SizeOf(rest) <= |rest| && DecodeRecord(rest).Ok? && DecodeRecord(rest).value.size == SizeOf(rest)
    ensures var e := DecodeRecord(rest).value.event;
      Writable(e) && RecordBytes(e) == rest[..SizeOf(rest)]
  {
    hide HeaderFor, HeaderOf, Payload, DecodePayload, PayloadAccepted, HeaderBytes;
    var header := rest[..EVENT_HEADER_SIZE];
    var h := HeaderOf(header);
    var payload := rest[EVENT_HEADER_SIZE..h.recordSize];
    AcceptedPayloadDecodes(h, payload);
    HeaderEncodes(header);
    FramingHasNoError(h, |rest|);
    assert rest[..h.recordSize] == header + payload;
  }

  lemma FramingHasNoError(h: EventHeader, available: nat)
    requires FramingAccepted(h, available)
    ensures FramingError(h, available) == None
  {
  }

  lemma {:induction false} AcceptedRecordsDecode(rest: seq<Byte>)
    requires RecordsAccepted(rest)
    ensures DecodeRecords(rest).error == None && AllWritable(DecodeRecords(rest).events)
    ensures RecordsBytes(DecodeRecords(rest).events) == rest
    decreases |rest|
  {
    hide RecordAccepted, DecodeRecord, RecordBytes, SizeOf;
    if rest != [] {
      AcceptedRecordDecodes(rest);
      var n := DecodeRecord(rest).value.size;
      AcceptedRecordsDecode(rest[n..]);
      var events, tail := DecodeRecords(rest).events, DecodeRecords(rest[n..]).events;
      assert events == [DecodeRecord(rest).value.event] + tail && events[1..] == tail;
      assert rest == rest[..n] + rest[n..];
    }
  }

  lemma NumbersOf(numbers: seq<nat>)
    requires |numbers| == 7 && numbers[..6] == HeaderNumbers(0)[..6]
    ensures numbers == HeaderNumbers(0)[..6] + [numbers[6]]
    ensures numbers[0] == VERSION && numbers[1] == HEADER_SIZE && numbers[2] == EVENT_HEADER_SIZE
    ensures numbers[3] == LEVEL_SIZE && numbers[4] == PRICE_SCALE && numbers[5] == QUANTITY_SCALE
  {
    var first := numbers[..6];
    assert numbers == first + [numbers[6]];
    assert first[0] == numbers[0] && first[1] == numbers[1] && first[2] == numbers[2];
    assert first[3] == numbers[3] && first[4] == numbers[4] && first[5] == numbers[5];
  }

  lemma AcceptedHeaderEncodes(bytes: seq<Byte>)
    requires |bytes| >= HEADER_SIZE && FileHeaderAccepted(bytes) && DecodeSymbol(bytes[48..64]).Ok?
    ensures ReadFileHeader(bytes).Ok?
    ensures var id := ReadFileHeader(bytes).value;
      ValidSymbol(id.symbol) && FileHeaderBytes(id) == bytes[..HEADER_SIZE]
  {
    hide Unpack, Pack, DecodeSymbol, SymbolBytes, Fits, ValidSymbol;
    var numbers := Unpack(NUMBERS, bytes[8..48]);
    SymbolEncodes(bytes[48..64]);
    PackInvertsUnpack(NUMBERS, bytes[8..48]);
    NumbersOf(numbers);
    assert ReadFileHeader(bytes) == Ok(Identity(DecodeSymbol(bytes[48..64]).value, CreationTime(bytes[8..48])));
    var id := ReadFileHeader(bytes).value;
    assert numbers == HeaderNumbers(id.created);
    assert bytes[64..HEADER_SIZE] == Zeros(64);
    assert bytes[..HEADER_SIZE] == bytes[..8] + bytes[8..48] + bytes[48..64] + bytes[64..HEADER_SIZE];
  }

  /** What the validator accepts, with a well-formed symbol, decodes and encodes back byte for byte. */
  lemma AcceptedFileIsEncoding(bytes: seq<Byte>)
    requires BufferAccepted(bytes) && DecodeSymbol(bytes[48..64]).Ok?
    ensures ReadFileHeader(bytes).Ok? && DecodeFile(bytes).error == None
    ensures var id, events := ReadFileHeader(bytes).value, DecodeFile(bytes).events;
      ValidSymbol(id.symbol) && AllWritable(events) && FileBytes(id, events) == bytes
  {
    hide FileHeaderAccepted, ReadFileHeader, DecodeSymbol, FileHeaderBytes, RecordsAccepted, ValidSymbol, DecodeRecords,
      RecordsBytes, AllWritable;
    AcceptedHeaderEncodes(bytes);
    AcceptedRecordsDecode(bytes[HEADER_SIZE..]);
    assert bytes == bytes[..HEADER_SIZE] + bytes[HEADER_SIZE..];
  }

  /** The validator only wants a first symbol byte; the reader also wants the whole symbol well-formed. */
  lemma AcceptedFileReadsIff(bytes: seq<Byte>)
    requires BufferAccepted(bytes)
    ensures DecodeFile(bytes).error == None <==> DecodeSymbol(bytes[48..64]).Ok?
  {
    hide FileHeaderAccepted, DecodeSymbol, RecordsAccepted, DecodeRecords, RecordsBytes, AllWritable, FileHeaderBytes, Unpack;
    if DecodeSymbol(bytes[48..64]).Ok? {
      AcceptedFileIsEncoding(bytes);
    }
  }

  // ----- corrupted payloads

  /** Other payload bytes with another checksum under the same header. */
  lemma ForeignPayloadRefused(e: Event, payload: seq<Byte>, rest: seq<Byte>)
    requires Writable(e) && |payload| == |Payload(e)| && Crc(payload) != Crc(Payload(e))
    ensures var bytes := HeaderBytes(HeaderFor(e)) + payload + rest;
      !RecordAccepted(bytes) && bytes != [] && DecodeRecord(bytes) == Err(CrcMismatch)
  {
    hide HeaderFor, HeaderOf, HeaderBytes, Payload, Crc, PayloadCrc, FieldsAccepted, LevelsAccepted, EventWith;
    var bytes, h := HeaderBytes(HeaderFor(e)) + payload + rest, HeaderFor(e);
    HeaderDecodes(h);
    FramingDecodes(e, |bytes|);
    CrcsAgree(payload);
    CrcsAgree(Payload(e));
    assert bytes[..EVENT_HEADER_SIZE] == HeaderBytes(h);
    assert bytes[EVENT_HEADER_SIZE..h.recordSize] == payload;
  }

  /**
   Changing at most four consecutive payload bytes of one record: the validator refuses the file, and
   the reader yields the events before that record and then reports the checksum.
   */
  lemma CorruptionIsDetected(
    id: Identity, before: seq<Event>, e: Event, after: seq<Event>,
    head: seq<Byte>, x: seq<Byte>, y: seq<Byte>, tail: seq<Byte>)
    requires ValidSymbol(id.symbol) && AllWritable(before) && Writable(e) && AllWritable(after)
    requires Payload(e) == head + x + tail && |x| == |y| <= 4 && x != y
    ensures var bytes := FileHeaderBytes(id) + RecordsBytes(before)
                         + (HeaderBytes(HeaderFor(e)) + (head + y + tail) + RecordsBytes(after));
      && !BufferAccepted(bytes)
      && DecodeFile(bytes) == Decoding(before, Some(CrcMismatch))
  {
    hide FileHeaderAccepted, ReadFileHeader, FileHeaderBytes, HeaderBytes, HeaderFor, Payload, RecordAccepted, DecodeRecord,
      Crc, RecordBytes, ValidSymbol, Unpack, Storable;
    BurstChangesCrc(head, x, y, tail);
    var rest := RecordsBytes(after);
    var record := HeaderBytes(HeaderFor(e)) + (head + y + tail) + rest;
    ForeignPayloadRefused(e, head + y + tail, rest);
    var records := RecordsBytes(before) + record;
    var bytes := FileHeaderBytes(id) + RecordsBytes(before) + record;
    assert bytes == FileHeaderBytes(id) + records;
    HeaderReads(id, records);
    HeaderSplits(id, records);
    RecordsDecode(before, record);
    RecordsAcceptedIff(before, record);
    assert DecodeRecords(record) == Decoding([], Some(CrcMismatch));
    assert before + [] == before;
  }

  // ----- where writer, reader and validator part

  /** Every file header is accepted with its first symbol byte replaced by one no symbol contains. */
  lemma AcceptedFileWithBadSymbol(id: Identity)
    requires ValidSymbol(id.symbol)
    ensures |FileHeaderBytes(id)| == HEADER_SIZE
    ensures var bytes := FileHeaderBytes(id)[48 := 200];
      BufferAccepted(bytes) && DecodeFile(bytes).error.Some?
  {
    hide Unpack, SymbolBytes, FileHeaderBytes, ReadFileHeader;
    HeaderReads(id, []);
    HeaderSplits(id, []);
    var header := FileHeaderBytes(id);
    assert header + [] == header;
    var bytes := header[48 := 200];
    assert bytes[..8] == header[..8] && bytes[8..48] == header[8..48] && bytes[HEADER_SIZE..] == [];
    assert BufferAccepted(bytes);
    assert bytes[48..64][0] == 200;
    assert DecodeSymbol(bytes[48..64]).Err?;
    hide BufferAccepted, DecodeFile, DecodeSymbol;
    AcceptedFileReadsIff(bytes);
  }

  const EMPTY_SNAPSHOT := SnapshotEvent(Snapshot(1, 1, [], []))

  /** A snapshot without levels is written and read back, and refused by the validator. */
  lemma EmptySnapshotIsRefused(id: Identity)
    requires ValidSymbol(id.symbol)
    ensures DecodeFile(FileBytes(id, [EMPTY_SNAPSHOT])) == Decoding([EMPTY_SNAPSHOT], None)
    ensures !BufferAccepted(FileBytes(id, [EMPTY_SNAPSHOT]))
  {
    var events := [EMPTY_SNAPSHOT];
    assert events[0] in events && !Storable(EMPTY_SNAPSHOT);
    assert AllWritable(events);
    hide DecodeFile, BufferAccepted, FileBytes, Storable;
    FileDecodes(id, events);
    WrittenFileAcceptedIff(id, events);
  }
}
