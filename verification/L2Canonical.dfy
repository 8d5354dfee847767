/**
 The format is canonical: the reader accepts exactly the files the writer can produce, and of any
 other file it yields the events of the longest part that is such a file.
 */
module L2Canonical {
  import opened Results
  import opened L2Types
  import opened Bits
  import opened Layouts
  import opened Recording
  import opened L2Format
  import opened L2Validator
  import opened L2FormatProperties

  const LETTERS := "ABCDEFGHIJKLMNOPQRSTUVWXYZ"
  const DIGITS := "0123456789"

  /** A symbol has one to fifteen characters, each of them a capital letter or a digit. */
  lemma SymbolsAre(symbol: string)
    ensures ValidSymbol(symbol) <==>
      1 <= |symbol| <= 15 && forall c | c in symbol :: c in LETTERS || c in DIGITS
  {
    forall c: char
      ensures SymbolByte(c as int) <==> c in LETTERS || c in DIGITS
    {
      LettersAre(c);
      DigitsAre(c);
    }
  }

  lemma LettersAre(c: char)
    ensures c in LETTERS <==> 'A' <= c <= 'Z'
  {
    if 'A' <= c <= 'Z' {
      assert c == LETTERS[c as int - 'A' as int];
    }
  }

  lemma DigitsAre(c: char)
    ensures c in DIGITS <==> '0' <= c <= '9'
  {
    if '0' <= c <= '9' {
      assert c == DIGITS[c as int - '0' as int];
    }
  }

  // ----- the file header

  lemma ReadHeaderIsAccepted(bytes: seq<Byte>)
    requires ReadFileHeader(bytes).Ok?
    ensures |bytes| >= HEADER_SIZE && DecodeSymbol(bytes[48..64]).Ok? && FileHeaderAccepted(bytes)
  {
    hide Unpack;
    var numbers := Unpack(NUMBERS, bytes[8..48]);
    assert bytes[48] == bytes[48..64][0];
    assert numbers[..6] == HeaderNumbers(0)[..6];
  }

  // ----- one record

  lemma ReadFieldsEncode(h: EventHeader, bids: seq<Level>, asks: seq<Level>)
    requires FramingError(h, h.recordSize) == None && EventOf(h, bids, asks).Ok?
    requires |bids| == h.bidCount && |asks| == h.askCount && h.crc == PayloadCrc(LevelBytes(bids + asks))
    ensures var e := EventOf(h, bids, asks).value;
      BidsOf(e) == bids && AsksOf(e) == asks && Writable(e) && HeaderFor(e) == h
  {
    hide PayloadCrc, LevelBytes;
    ReasonsDecode(h.flags);
  }

  lemma ReadPayloadEncodes(h: EventHeader, payload: seq<Byte>)
    requires |payload| == LevelCount(h) * LEVEL_SIZE && FramingError(h, h.recordSize) == None
    requires DecodePayload(h, payload).Ok?
    ensures var e := DecodePayload(h, payload).value;
      Writable(e) && HeaderFor(e) == h && Payload(e) == payload
  {
    hide PayloadCrc, ReadLevels, EventOf, HeaderFor, LevelBytes, FramingError;
    LevelsEncode(payload);
    var levels := ReadLevels(payload).value;
    var bids, asks := levels[..h.bidCount], levels[h.bidCount..];
    assert bids + asks == levels;
    ReadFieldsEncode(h, bids, asks);
  }

  lemma FramingWithin(h: EventHeader, available: nat)
    requires FramingError(h, available) == None
    ensures FramingError(h, h.recordSize) == None
    ensures h.recordSize == EVENT_HEADER_SIZE + LevelCount(h) * LEVEL_SIZE <= available
  {
  }

  lemma ReadRecordEncodes(rest: seq<Byte>)
    requires DecodeRecord(rest).Ok?
    ensures var d := DecodeRecord(rest).value;
      d.size <= |rest| && Writable(d.event) && RecordBytes(d.event) == rest[..d.size]
  {
    hide HeaderFor, HeaderOf, Payload, DecodePayload, HeaderBytes, FramingError;
    var header := rest[..EVENT_HEADER_SIZE];
    var h := HeaderOf(header);
    FramingWithin(h, |rest|);
    var payload := rest[EVENT_HEADER_SIZE..h.recordSize];
    ReadPayloadEncodes(h, payload);
    HeaderEncodes(header);
    assert rest[..h.recordSize] == header + payload;
  }

  /** What is yielded from any bytes is encoded at their front, and is all of them unless there is an error. */
  lemma {:induction false} YieldedRecordsEncode(rest: seq<Byte>)
    ensures AllWritable(DecodeRecords(rest).events)
    ensures var written := RecordsBytes(DecodeRecords(rest).events);
      written <= rest && (DecodeRecords(rest).error == None <==> written == rest)
    decreases |rest|
  {
    hide DecodeRecord, RecordBytes;
    if rest != [] && DecodeRecord(rest).Ok? {
      ReadRecordEncodes(rest);
      var d := DecodeRecord(rest).value;
      YieldedRecordsEncode(rest[d.size..]);
      var events, tail := DecodeRecords(rest).events, DecodeRecords(rest[d.size..]).events;
      assert events == [d.event] + tail && events[1..] == tail;
      assert rest == rest[..d.size] + rest[d.size..];
      assert RecordsBytes(events) == rest[..d.size] + RecordsBytes(tail);
      assert RecordsBytes(events)[d.size..] == RecordsBytes(tail);
    }
  }

  // ----- whole files

  /**
   Whatever the file, once its header is read the events yielded are the ones a writer would have stored
   in its first bytes; there is no error exactly when that is the whole file.
   */
  lemma YieldedIsEncoded(bytes: seq<Byte>)
    requires ReadFileHeader(bytes).Ok?
    ensures ValidSymbol(ReadFileHeader(bytes).value.symbol) && AllWritable(DecodeFile(bytes).events)
    ensures var written := FileBytes(ReadFileHeader(bytes).value, DecodeFile(bytes).events);
      written <= bytes && (DecodeFile(bytes).error == None <==> written == bytes)
  {
    hide ReadFileHeader, DecodeSymbol, FileHeaderBytes, RecordsBytes, ValidSymbol, DecodeRecords, AllWritable,
      FileHeaderAccepted;
    ReadHeaderIsAccepted(bytes);
    AcceptedHeaderEncodes(bytes);
    var rest := bytes[HEADER_SIZE..];
    YieldedRecordsEncode(rest);
    assert bytes == bytes[..HEADER_SIZE] + rest;
    var head, written := bytes[..HEADER_SIZE], RecordsBytes(DecodeRecords(rest).events);
    assert written == rest[..|written|];
    assert head + written == bytes[..HEADER_SIZE + |written|];
  }

  /** The reader takes a file for these events exactly when it is the file a writer makes of them. */
  lemma ReadsIffWritten(bytes: seq<Byte>, id: Identity, events: seq<Event>)
    ensures ReadFileHeader(bytes) == Ok(id) && DecodeFile(bytes) == Decoding(events, None) <==>
      ValidSymbol(id.symbol) && AllWritable(events) && bytes == FileBytes(id, events)
  {
    hide ReadFileHeader, DecodeFile, FileBytes, ValidSymbol, AllWritable;
    if ReadFileHeader(bytes) == Ok(id) {
      YieldedIsEncoded(bytes);
    }
    if ValidSymbol(id.symbol) && AllWritable(events) && bytes == FileBytes(id, events) {
      FileDecodes(id, events);
    }
  }

  /** Of the files with a readable header the validator accepts exactly those read to storable events. */
  lemma AcceptedIffRead(bytes: seq<Byte>)
    requires ReadFileHeader(bytes).Ok?
    ensures BufferAccepted(bytes) <==>
      DecodeFile(bytes).error == None && forall e | e in DecodeFile(bytes).events :: Storable(e)
  {
    hide ReadFileHeader, DecodeFile, FileBytes, ValidSymbol, AllWritable, FileHeaderAccepted, DecodeSymbol,
      RecordsAccepted, Storable;
    ReadHeaderIsAccepted(bytes);
    YieldedIsEncoded(bytes);
    if BufferAccepted(bytes) {
      AcceptedFileReadsIff(bytes);
    }
    if DecodeFile(bytes).error == None {
      WrittenFileAcceptedIff(ReadFileHeader(bytes).value, DecodeFile(bytes).events);
    }
  }
}
