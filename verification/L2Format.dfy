/** The binary recording: what the writer stores for each event and how the reader decodes it. */
module L2Format {
  import opened Results
  import opened L2Types
  import opened Bits
  import opened Crc32
  import opened Layouts
  import opened Recording

  const MAGIC: seq<Byte> := [0x51, 0x4C, 0x32, 0x45, 0x56, 0x54, 0x31, 0]
  const VERSION := 1
  const HEADER_SIZE := 128
  const EVENT_HEADER_SIZE := 80
  const MAX_RECORD_SIZE := EVENT_HEADER_SIZE + MAX_LEVELS_PER_EVENT * LEVEL_SIZE * 2
  const NUMBERS: Layout := [4, 4, 4, 4, 8, 8, 8]
  const EVENT_LAYOUT: Layout := [4, 4, 8, 8, 8, 8, 4, 4, 8, 8, 4, 4, 8]

  datatype FormatError =
    | IncompleteHeader | UnsupportedFormat | LayoutMismatch | ScaleMismatch | ZeroCreationTime | ReservedFlags | BadSymbol
    | TruncatedEventHeader | ReservedData | BadRecordSize | TooManyDeclared | SizeDisagrees | TruncatedPayload
    | CrcMismatch | BadLevel | UnknownType | BadSnapshotHeader | BadDepthHeader | BadTradeHeader | BadBoundaryHeader
    | UnknownReason | InvalidEvent

  // ----- the file header

  datatype Identity = Identity(symbol: string, created: PosU64)

  predicate SymbolByte(b: int) { 'A' as int <= b <= 'Z' as int || '0' as int <= b <= '9' as int }

  predicate ValidSymbol(symbol: string) {
    1 <= |symbol| <= 15 && forall c | c in symbol :: SymbolByte(c as int)
  }

  function Zeros(n: nat): seq<Byte> { seq(n, _ => 0) }

  function SymbolBytes(symbol: string): seq<Byte>
    requires ValidSymbol(symbol)
  {
    seq(|symbol|, i requires 0 <= i < |symbol| => CharByte(symbol[i])) + Zeros(16 - |symbol|)
  }

  function CharByte(c: char): Byte { if c as int < 256 then c as int else 0 }

  function FirstZero(bytes: seq<Byte>): (n: nat)
    ensures n <= |bytes|
    ensures n < |bytes| ==> bytes[n] == 0
    ensures forall i | 0 <= i < n :: bytes[i] != 0
  {
    if bytes == [] || bytes[0] == 0 then 0 else 1 + FirstZero(bytes[1..])
  }

  function DecodeSymbol(bytes: seq<Byte>): Result<string, FormatError> {
    var n := FirstZero(bytes);
    if exists i | n <= i < |bytes| :: bytes[i] != 0 then Err(BadSymbol)
    else if 1 <= n <= 15 && forall i | 0 <= i < n :: SymbolByte(bytes[i]) then
      Ok(seq(n, i requires 0 <= i < n => bytes[i] as char))
    else Err(BadSymbol)
  }

  function HeaderNumbers(created: U64): seq<nat> {
    [VERSION, HEADER_SIZE, EVENT_HEADER_SIZE, LEVEL_SIZE, PRICE_SCALE, QUANTITY_SCALE, created]
  }

  function FileHeaderBytes(id: Identity): seq<Byte>
    requires ValidSymbol(id.symbol)
  {
    MAGIC + Pack(NUMBERS, HeaderNumbers(id.created)) + SymbolBytes(id.symbol) + Zeros(64)
  }

  function ReadFileHeader(bytes: seq<Byte>): Result<Identity, FormatError> {
    if |bytes| < HEADER_SIZE then Err(IncompleteHeader)
    else
      var numbers := Unpack(NUMBERS, bytes[8..48]);
      if bytes[..8] != MAGIC || numbers[0] != VERSION then Err(UnsupportedFormat)
      else if numbers[1] != HEADER_SIZE || numbers[2] != EVENT_HEADER_SIZE || numbers[3] != LEVEL_SIZE then
        Err(LayoutMismatch)
      else if numbers[4] != PRICE_SCALE || numbers[5] != QUANTITY_SCALE then Err(ScaleMismatch)
      else if numbers[6] == 0 then Err(ZeroCreationTime)
      else if exists i | 64 <= i < HEADER_SIZE :: bytes[i] != 0 then Err(ReservedFlags)
      else
        match DecodeSymbol(bytes[48..64])
        case Err(e) => Err(e)
        case Ok(symbol) => Ok(Identity(symbol, CreationTime(bytes[8..48])))
  }

  function CreationTime(bytes: seq<Byte>): PosU64
    requires |bytes| == Size(NUMBERS) && Unpack(NUMBERS, bytes)[6] != 0
  {
    PackInvertsUnpack(NUMBERS, bytes);
    FieldRanges();
    Unpack(NUMBERS, bytes)[6]
  }

  // ----- event headers

  datatype EventHeader = EventHeader(
    kind: U32, flags: U32, receipt: U64, exchangeTime: U64, firstId: U64, finalId: U64,
    bidCount: U32, askCount: U32, tradePrice: U64, tradeQuantity: U64, crc: U32, recordSize: U32, reserved: U64)

  function Fields(h: EventHeader): seq<nat> {
    [h.kind, h.flags, h.receipt, h.exchangeTime, h.firstId, h.finalId,
     h.bidCount, h.askCount, h.tradePrice, h.tradeQuantity, h.crc, h.recordSize, h.reserved]
  }

  function HeaderBytes(h: EventHeader): seq<Byte> { Pack(EVENT_LAYOUT, Fields(h)) }

  function HeaderOf(bytes: seq<Byte>): EventHeader
    requires |bytes| == EVENT_HEADER_SIZE
  {
    EventFieldsFit(bytes);
    var v := Unpack(EVENT_LAYOUT, bytes);
    EventHeader(v[0], v[1], v[2], v[3], v[4], v[5], v[6], v[7], v[8], v[9], v[10], v[11], v[12])
  }

  /** Thirteen fields of four and eight bytes. */
  lemma FitsEventLayout(v: seq<nat>)
    requires |v| == 13
    ensures Fits(EVENT_LAYOUT, v) <==>
      && v[0] <= ALL_ONES && v[1] <= ALL_ONES && v[2] <= UINT64_MAX && v[3] <= UINT64_MAX && v[4] <= UINT64_MAX
      && v[5] <= UINT64_MAX && v[6] <= ALL_ONES && v[7] <= ALL_ONES && v[8] <= UINT64_MAX && v[9] <= UINT64_MAX
      && v[10] <= ALL_ONES && v[11] <= ALL_ONES && v[12] <= UINT64_MAX
  {
    FieldRanges();
    hide Range;
    assert Fits(EVENT_LAYOUT, v) <==> forall i | 0 <= i < 13 :: v[i] < Range(EVENT_LAYOUT[i]);
  }

  lemma EventLayoutSize()
    ensures Size(EVENT_LAYOUT) == EVENT_HEADER_SIZE
  {
  }

  lemma EventFieldsFit(bytes: seq<Byte>)
    requires |bytes| == EVENT_HEADER_SIZE
    ensures Size(EVENT_LAYOUT) == EVENT_HEADER_SIZE
    ensures var v := Unpack(EVENT_LAYOUT, bytes);
      && v[0] <= ALL_ONES && v[1] <= ALL_ONES && v[2] <= UINT64_MAX && v[3] <= UINT64_MAX && v[4] <= UINT64_MAX
      && v[5] <= UINT64_MAX && v[6] <= ALL_ONES && v[7] <= ALL_ONES && v[8] <= UINT64_MAX && v[9] <= UINT64_MAX
      && v[10] <= ALL_ONES && v[11] <= ALL_ONES && v[12] <= UINT64_MAX
  {
    EventLayoutSize();
    hide Unpack, Pack, Fits, Range, Size;
    PackInvertsUnpack(EVENT_LAYOUT, bytes);
    FitsEventLayout(Unpack(EVENT_LAYOUT, bytes));
  }

  lemma HeaderDecodes(h: EventHeader)
    ensures |HeaderBytes(h)| == EVENT_HEADER_SIZE && HeaderOf(HeaderBytes(h)) == h
  {
    hide Pack, Unpack, Range, Fits;
    FitsEventLayout(Fields(h));
    UnpackInvertsPack(EVENT_LAYOUT, Fields(h));
  }

  lemma HeaderEncodes(bytes: seq<Byte>)
    requires |bytes| == EVENT_HEADER_SIZE
    ensures HeaderBytes(HeaderOf(bytes)) == bytes
  {
    EventLayoutSize();
    hide Pack, Unpack, Range, Size, Fits;
    PackInvertsUnpack(EVENT_LAYOUT, bytes);
    assert Fields(HeaderOf(bytes)) == Unpack(EVENT_LAYOUT, bytes);
  }

  // ----- what the writer stores

  const SNAPSHOT: nat := 1
  const DEPTH: nat := 2
  const TRADE: nat := 3
  const BOUNDARY: nat := 4

  function ReasonCode(reason: BoundaryReason): nat {
    match reason
    case ConnectionStart => 1
    case SequenceGap => 2
    case SnapshotRetry => 3
    case UserStop => 4
    case QueueOverflow => 5
    case ConnectionEnd => 6
  }

  function BidsOf(e: Event): seq<Level> {
    match e
    case SnapshotEvent(s) => s.bids
    case DepthEvent(u) => u.bids
    case _ => []
  }

  function AsksOf(e: Event): seq<Level> {
    match e
    case SnapshotEvent(s) => s.asks
    case DepthEvent(u) => u.asks
    case _ => []
  }

  function Payload(e: Event): seq<Byte> { LevelBytes(BidsOf(e) + AsksOf(e)) }

  /** The checksum the writer stores is the table-driven one. */
  function PayloadCrc(payload: seq<Byte>): U32 {
    TableDrivenAgrees(payload);
    CrcFits(payload);
    TableCrc(payload)
  }

  function HeaderFor(e: Event): EventHeader
    requires Writable(e)
  {
    var bids, asks, crc := |BidsOf(e)|, |AsksOf(e)|, PayloadCrc(Payload(e));
    var size := EVENT_HEADER_SIZE + (bids + asks) * LEVEL_SIZE;
    match e
    case SnapshotEvent(s) =>
      EventHeader(SNAPSHOT, 0, s.receipt, 0, s.lastUpdateId, s.lastUpdateId, bids, asks, 0, 0, crc, size, 0)
    case DepthEvent(u) =>
      EventHeader(DEPTH, 0, u.receipt, u.eventTimeMs, u.firstUpdateId, u.finalUpdateId, bids, asks, 0, 0, crc, size, 0)
    case TradeEvent(t) =>
      EventHeader(TRADE, if t.buyerIsMaker then 1 else 0, t.receipt, t.eventTimeMs, t.aggregateTradeId, 0, 0, 0,
                  t.price, t.quantity, crc, size, 0)
    case BoundaryEvent(receipt, reason) =>
      EventHeader(BOUNDARY, ReasonCode(reason), receipt, 0, 0, 0, 0, 0, 0, 0, crc, size, 0)
  }

  function RecordBytes(e: Event): seq<Byte>
    requires Writable(e)
  {
    HeaderBytes(HeaderFor(e)) + Payload(e)
  }

  predicate AllWritable(events: seq<Event>) { forall e | e in events :: Writable(e) }

  function RecordsBytes(events: seq<Event>): seq<Byte>
    requires AllWritable(events)
  {
    if events == [] then [] else RecordBytes(events[0]) + RecordsBytes(events[1..])
  }

  function FileBytes(id: Identity, events: seq<Event>): seq<Byte>
    requires ValidSymbol(id.symbol) && AllWritable(events)
  {
    FileHeaderBytes(id) + RecordsBytes(events)
  }

  // ----- how the reader decodes it

  function ReadLevels(payload: seq<Byte>): (r: Result<seq<Level>, FormatError>)
    requires |payload| % LEVEL_SIZE == 0
    ensures r.Ok? ==> |r.value| * LEVEL_SIZE == |payload|
    decreases |payload|
  {
    if payload == [] then Ok([])
    else
      match ReadLevel(payload[..16])
      case Err(e) => Err(e)
      case Ok(level) =>
        match ReadLevels(payload[16..])
        case Err(e) => Err(e)
        case Ok(rest) => Ok([level] + rest)
  }

  function ReadLevel(bytes: seq<Byte>): Result<Level, FormatError>
    requires |bytes| == LEVEL_SIZE
  {
    var price, quantity := Number(bytes[..8]), Number(bytes[8..]);
    if Signed(price) <= 0 then Err(BadLevel) else Ok(Level(price, quantity))
  }

  function Number(bytes: seq<Byte>): U64
    requires |bytes| == 8
  {
    EncodesDecoding(bytes);
    FieldRanges();
    FromLittleEndian(bytes)
  }

  function ReasonOf(code: nat): Result<BoundaryReason, FormatError> {
    if code == 1 then Ok(ConnectionStart)
    else if code == 2 then Ok(SequenceGap)
    else if code == 3 then Ok(SnapshotRetry)
    else if code == 4 then Ok(UserStop)
    else if code == 5 then Ok(QueueOverflow)
    else if code == 6 then Ok(ConnectionEnd)
    else Err(UnknownReason)
  }

  function EventOf(h: EventHeader, bids: seq<Level>, asks: seq<Level>): Result<Event, FormatError> {
    if h.kind == SNAPSHOT then
      if h.flags != 0 || h.firstId != h.finalId || h.firstId == 0 || h.exchangeTime != 0
         || h.tradePrice != 0 || h.tradeQuantity != 0 then Err(BadSnapshotHeader)
      else if h.receipt == 0 then Err(InvalidEvent)
      else Ok(SnapshotEvent(Snapshot(h.receipt, h.firstId, bids, asks)))
    else if h.kind == DEPTH then
      if h.flags != 0 || h.tradePrice != 0 || h.tradeQuantity != 0 then Err(BadDepthHeader)
      else if h.receipt == 0 || h.firstId == 0 || h.finalId == 0 || h.firstId > h.finalId then Err(InvalidEvent)
      else Ok(DepthEvent(DepthFields(h.receipt, h.exchangeTime, h.firstId, h.finalId, bids, asks)))
    else if h.kind == TRADE then
      if h.flags / 2 != 0 || bids != [] || asks != [] || h.finalId != 0 || h.firstId == 0
         || Signed(h.tradePrice) <= 0 || h.tradeQuantity <= 0 then Err(BadTradeHeader)
      else if h.receipt == 0 then Err(InvalidEvent)
      else
        Ok(TradeEvent(Trade(h.receipt, h.exchangeTime, h.firstId, h.tradePrice, h.tradeQuantity, h.flags % 2 == 1)))
    else if h.kind == BOUNDARY then
      if h.exchangeTime != 0 || bids != [] || asks != [] || h.firstId != 0 || h.finalId != 0
         || h.tradePrice != 0 || h.tradeQuantity != 0 then Err(BadBoundaryHeader)
      else
        match ReasonOf(h.flags)
        case Err(e) => Err(e)
        case Ok(reason) => if h.receipt == 0 then Err(InvalidEvent) else Ok(BoundaryEvent(h.receipt, reason))
    else Err(UnknownType)
  }

  function LevelCount(h: EventHeader): nat { h.bidCount + h.askCount }

  /** What is wrong with a record's framing, before its payload is read. */
  function FramingError(h: EventHeader, available: nat): Option<FormatError> {
    if h.reserved != 0 then Some(ReservedData)
    else if h.recordSize < EVENT_HEADER_SIZE || h.recordSize > MAX_RECORD_SIZE then Some(BadRecordSize)
    else if h.bidCount > MAX_LEVELS_PER_EVENT || h.askCount > MAX_LEVELS_PER_EVENT then Some(TooManyDeclared)
    else if h.recordSize != EVENT_HEADER_SIZE + LevelCount(h) * LEVEL_SIZE then Some(SizeDisagrees)
    else if available < h.recordSize then Some(TruncatedPayload)
    else None
  }

  datatype Decoded = Decoded(event: Event, size: nat)

  function DecodePayload(h: EventHeader, payload: seq<Byte>): Result<Event, FormatError>
    requires |payload| == LevelCount(h) * LEVEL_SIZE
  {
    if PayloadCrc(payload) != h.crc then Err(CrcMismatch) else EventWith(h, payload)
  }

  function EventWith(h: EventHeader, payload: seq<Byte>): Result<Event, FormatError>
    requires |payload| == LevelCount(h) * LEVEL_SIZE
  {
    match ReadLevels(payload)
    case Err(e) => Err(e)
    case Ok(levels) => EventOf(h, levels[..h.bidCount], levels[h.bidCount..])
  }

  function DecodeRecord(rest: seq<Byte>): (r: Result<Decoded, FormatError>)
    ensures r.Ok? ==> EVENT_HEADER_SIZE <= r.value.size <= |rest|
  {
    if |rest| < EVENT_HEADER_SIZE then Err(TruncatedEventHeader)
    else
      var h := HeaderOf(rest[..EVENT_HEADER_SIZE]);
      if FramingError(h, |rest|).Some? then Err(FramingError(h, |rest|).value)
      else
        match DecodePayload(h, rest[EVENT_HEADER_SIZE..h.recordSize])
        case Err(e) => Err(e)
        case Ok(event) => Ok(Decoded(event, h.recordSize))
  }

  /** The events yielded, and the error that ended the iteration, if any. */
  datatype Decoding = Decoding(events: seq<Event>, error: Option<FormatError>)

  function DecodeRecords(rest: seq<Byte>): Decoding
    decreases |rest|
  {
    if rest == [] then Decoding([], None)
    else
      match DecodeRecord(rest)
      case Err(e) => Decoding([], Some(e))
      case Ok(d) =>
        var tail := DecodeRecords(rest[d.size..]);
        Decoding([d.event] + tail.events, tail.error)
  }

  function DecodeFile(bytes: seq<Byte>): Decoding {
    match ReadFileHeader(bytes)
    case Err(e) => Decoding([], Some(e))
    case Ok(_) => DecodeRecords(bytes[HEADER_SIZE..])
  }

  // ----- the writer and the reader as loops

  /** Stores a number's little-endian bytes into a buffer. */
  method PackNumber(output: array<Byte>, offset: nat, n: nat, width: nat)
    requires offset + width <= output.Length
    modifies output
    ensures forall k | 0 <= k < width :: output[offset + k] == LittleEndian(n, width)[k]
    ensures forall k | 0 <= k < output.Length && !(offset <= k < offset + width) :: output[k] == old(output[k])
  {
    ghost var bytes := LittleEndian(n, width);
    var value := n;
    for i := 0 to width
      invariant LittleEndian(value, width - i) == bytes[i..]
      invariant forall k | 0 <= k < i :: output[offset + k] == bytes[k]
      invariant forall k | 0 <= k < output.Length && !(offset <= k < offset + i) :: output[k] == old(output[k])
    {
      assert bytes[i..][1..] == bytes[i + 1..];
      output[offset + i] := value % 256;
      value := value / 256;
    }
  }

  method PackLevel(output: array<Byte>, offset: nat, level: Level)
    requires offset + LEVEL_SIZE <= output.Length
    modifies output
    ensures output[..offset + LEVEL_SIZE] == old(output[..offset]) + LevelBytes([level])
  {
    hide LittleEndian;
    PackNumber(output, offset, level.price, 8);
    PackNumber(output, offset + 8, level.quantity, 8);
    ghost var bytes := LittleEndian(level.price, 8) + LittleEndian(level.quantity, 8);
    assert LevelBytes([level]) == bytes;
    forall k | 0 <= k < offset + LEVEL_SIZE
      ensures output[k] == (old(output[..offset]) + bytes)[k]
    {
      assert offset <= k < offset + 8 ==> output[offset + (k - offset)] == LittleEndian(level.price, 8)[k - offset];
      var j := k - offset - 8;
      assert offset + 8 <= k ==> output[offset + 8 + j] == LittleEndian(level.quantity, 8)[j];
    }
  }

  lemma {:induction false} LevelBytesAppend(a: seq<Level>, b: seq<Level>)
    ensures LevelBytes(a + b) == LevelBytes(a) + LevelBytes(b)
    decreases |a|
  {
    hide LittleEndian;
    if a == [] {
      assert a + b == b;
    } else {
      assert (a + b)[1..] == a[1..] + b;
      LevelBytesAppend(a[1..], b);
    }
  }

  method LevelPayload(bids: seq<Level>, asks: seq<Level>) returns (payload: Result<seq<Byte>, WriteError>)
    ensures payload ==
            if |bids| > MAX_LEVELS_PER_EVENT || |asks| > MAX_LEVELS_PER_EVENT then Err(TooManyLevels)
            else Ok(LevelBytes(bids + asks))
  {
    hide LevelBytes;
    if |bids| > MAX_LEVELS_PER_EVENT || |asks| > MAX_LEVELS_PER_EVENT {
      return Err(TooManyLevels);
    }
    var levels := bids + asks;
    var output := new Byte[|levels| * LEVEL_SIZE](_ => 0);
    NoLevelBytes();
    for i := 0 to |levels|
      invariant output[..i * LEVEL_SIZE] == LevelBytes(levels[..i])
    {
      PackLevel(output, i * LEVEL_SIZE, levels[i]);
      LevelBytesAppend(levels[..i], [levels[i]]);
      assert levels[..i + 1] == levels[..i] + [levels[i]];
    }
    assert output[..] == output[..|levels| * LEVEL_SIZE] && levels == levels[..|levels|];
    return Ok(output[..]);
  }

  lemma NoLevelBytes()
    ensures LevelBytes([]) == []
  {
  }

  ghost function After(read: seq<Level>, rest: Result<seq<Level>, FormatError>): Result<seq<Level>, FormatError> {
    match rest
    case Err(e) => Err(e)
    case Ok(levels) => Ok(read + levels)
  }

  lemma ReadLevelsFrom(payload: seq<Byte>, offset: nat)
    requires |payload| % LEVEL_SIZE == 0 && offset % LEVEL_SIZE == 0 && offset < |payload|
    ensures ReadLevels(payload[offset..]) ==
            match ReadLevel(payload[offset..offset + 16])
            case Err(e) => Err(e)
            case Ok(level) => After([level], ReadLevels(payload[offset + 16..]))
  {
    hide ReadLevel;
    var rest := payload[offset..];
    assert rest[..16] == payload[offset..offset + 16] && rest[16..] == payload[offset + 16..];
  }

  lemma AfterJoins(a: seq<Level>, b: seq<Level>, rest: Result<seq<Level>, FormatError>)
    ensures After(a, After(b, rest)) == After(a + b, rest)
    ensures After([], rest) == rest && After(a, Ok([])) == Ok(a)
    ensures rest.Err? ==> After(a, rest) == rest
  {
    assert rest.Ok? ==> a + (b + rest.value) == (a + b) + rest.value && [] + rest.value == rest.value;
    assert a + [] == a;
  }

  lemma NextLevelFits(offset: nat, size: nat)
    requires size % LEVEL_SIZE == 0 && offset % LEVEL_SIZE == 0 && offset < size
    ensures offset + LEVEL_SIZE <= size && (offset + LEVEL_SIZE) % LEVEL_SIZE == 0
  {
  }

  method ReadLevelList(payload: seq<Byte>) returns (levels: Result<seq<Level>, FormatError>)
    requires |payload| % LEVEL_SIZE == 0
    ensures levels == ReadLevels(payload)
  {
    hide ReadLevel, ReadLevels, After;
    var read: seq<Level>, offset := [], 0;
    assert payload[0..] == payload;
    AfterJoins([], [], ReadLevels(payload));
    while offset < |payload|
      invariant 0 <= offset <= |payload| && offset % LEVEL_SIZE == 0
      invariant ReadLevels(payload) == After(read, ReadLevels(payload[offset..]))
    {
      NextLevelFits(offset, |payload|);
      ReadLevelsFrom(payload, offset);
      var level := ReadLevel(payload[offset..offset + 16]);
      if level.Err? {
        AfterJoins(read, [], ReadLevels(payload[offset..]));
        return Err(level.error);
      }
      AfterJoins(read, [level.value], ReadLevels(payload[offset + 16..]));
      read := read + [level.value];
      offset := offset + LEVEL_SIZE;
    }
    assert payload[offset..] == [];
    NoLevels();
    AfterJoins(read, [], Ok([]));
    return Ok(read);
  }

  lemma NoLevels()
    ensures ReadLevels([]) == Ok([])
  {
  }

  method ReadPayload(h: EventHeader, payload: seq<Byte>) returns (event: Result<Event, FormatError>)
    requires |payload| == LevelCount(h) * LEVEL_SIZE
    ensures event == DecodePayload(h, payload)
  {
    hide PayloadCrc, EventOf, ReadLevels;
    if PayloadCrc(payload) != h.crc {
      return Err(CrcMismatch);
    }
    var levels := ReadLevelList(payload);
    if levels.Err? {
      return Err(levels.error);
    }
    return EventOf(h, levels.value[..h.bidCount], levels.value[h.bidCount..]);
  }

  ghost function Continued(events: seq<Event>, tail: Decoding): Decoding {
    Decoding(events + tail.events, tail.error)
  }

  lemma ContinuedJoins(events: seq<Event>, event: Event, tail: Decoding)
    ensures Continued(events, Decoding([event] + tail.events, tail.error)) == Continued(events + [event], tail)
  {
    assert events + ([event] + tail.events) == (events + [event]) + tail.events;
  }

  lemma ContinuedEnds(events: seq<Event>, tail: Decoding)
    ensures Continued([], tail) == tail
    ensures tail.events == [] ==> Continued(events, tail) == Decoding(events, tail.error)
  {
    assert [] + tail.events == tail.events && events + [] == events;
  }

  /** The record at an offset of the file. */
  lemma RecordAt(bytes: seq<Byte>, offset: nat)
    requires offset < |bytes|
    ensures DecodeRecords(bytes[offset..]) ==
      if |bytes| - offset < EVENT_HEADER_SIZE then Decoding([], Some(TruncatedEventHeader))
      else
        var h := HeaderOf(bytes[offset..offset + EVENT_HEADER_SIZE]);
        if FramingError(h, |bytes| - offset).Some? then Decoding([], FramingError(h, |bytes| - offset))
        else
          (FramingFits(h, |bytes| - offset);
           match DecodePayload(h, bytes[offset + EVENT_HEADER_SIZE..offset + h.recordSize])
           case Err(e) => Decoding([], Some(e))
           case Ok(event) =>
             var tail := DecodeRecords(bytes[offset + h.recordSize..]);
             Decoding([event] + tail.events, tail.error))
  {
    hide DecodePayload, FramingError, HeaderOf, LevelCount;
    var rest := bytes[offset..];
    if |rest| >= EVENT_HEADER_SIZE {
      assert rest[..EVENT_HEADER_SIZE] == bytes[offset..offset + EVENT_HEADER_SIZE];
      var h := HeaderOf(rest[..EVENT_HEADER_SIZE]);
      if FramingError(h, |rest|) == None {
        FramingFits(h, |rest|);
        assert rest[EVENT_HEADER_SIZE..h.recordSize] == bytes[offset + EVENT_HEADER_SIZE..offset + h.recordSize];
        assert rest[h.recordSize..] == bytes[offset + h.recordSize..];
      }
    }
  }

  lemma NoRecords()
    ensures DecodeRecords([]) == Decoding([], None)
  {
  }

  method IterEvents(bytes: seq<Byte>) returns (events: seq<Event>, error: Option<FormatError>)
    ensures Decoding(events, error) == DecodeFile(bytes)
  {
    hide ReadFileHeader, DecodePayload, FramingError, HeaderOf, LevelCount, DecodeRecords, Continued;
    events, error := [], None;
    var identity := ReadFileHeader(bytes);
    if identity.Err? {
      return [], Some(identity.error);
    }
    HeaderReadNeedsSize(bytes);
    var offset := HEADER_SIZE;
    ContinuedEnds([], DecodeFile(bytes));
    while offset < |bytes|
      invariant HEADER_SIZE <= offset <= |bytes|
      invariant DecodeFile(bytes) == Continued(events, DecodeRecords(bytes[offset..]))
    {
      RecordAt(bytes, offset);
      ContinuedEnds(events, DecodeRecords(bytes[offset..]));
      if |bytes| - offset < EVENT_HEADER_SIZE {
        return events, Some(TruncatedEventHeader);
      }
      var h := HeaderOf(bytes[offset..offset + EVENT_HEADER_SIZE]);
      var framing := FramingError(h, |bytes| - offset);
      if framing.Some? {
        return events, framing;
      }
      FramingFits(h, |bytes| - offset);
      var event := ReadPayload(h, bytes[offset + EVENT_HEADER_SIZE..offset + h.recordSize]);
      if event.Err? {
        return events, Some(event.error);
      }
      ContinuedJoins(events, event.value, DecodeRecords(bytes[offset + h.recordSize..]));
      events := events + [event.value];
      offset := offset + h.recordSize;
    }
    assert bytes[offset..] == [];
    NoRecords();
    ContinuedEnds(events, DecodeRecords([]));
  }

  lemma HeaderReadNeedsSize(bytes: seq<Byte>)
    requires ReadFileHeader(bytes).Ok?
    ensures |bytes| >= HEADER_SIZE
  {
  }

  lemma FramingFits(h: EventHeader, available: nat)
    requires FramingError(h, available) == None
    ensures EVENT_HEADER_SIZE <= h.recordSize <= available
    ensures h.recordSize == EVENT_HEADER_SIZE + LevelCount(h) * LEVEL_SIZE
  {
  }
}
