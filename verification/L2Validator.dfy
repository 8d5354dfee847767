/** The native validator of an in-memory recording. */
module L2Validator {
  import opened Bits
  import opened Crc32
  import CrcPolynomial
  import opened Layouts
  import opened Recording
  import opened L2Format

  predicate FileHeaderAccepted(bytes: seq<Byte>)
    requires |bytes| >= HEADER_SIZE
  {
    var numbers := Unpack(NUMBERS, bytes[8..48]);
    && bytes[..8] == MAGIC && numbers[..6] == HeaderNumbers(0)[..6] && numbers[6] != 0
    && bytes[48] != 0
    && forall i | 64 <= i < HEADER_SIZE :: bytes[i] == 0
  }

  predicate LevelAccepted(bytes: seq<Byte>, inSnapshot: bool)
    requires |bytes| == LEVEL_SIZE
  {
    Signed(Number(bytes[..8])) > 0 && (inSnapshot ==> Number(bytes[8..]) != 0)
  }

  predicate LevelsAccepted(payload: seq<Byte>, inSnapshot: bool)
    requires |payload| % LEVEL_SIZE == 0
    decreases |payload|
  {
    payload == [] || (LevelAccepted(payload[..16], inSnapshot) && LevelsAccepted(payload[16..], inSnapshot))
  }

  /** Each kind of event constrains its own header fields. */
  predicate FieldsAccepted(h: EventHeader) {
    if h.kind == SNAPSHOT then
      h.firstId != 0 && h.firstId == h.finalId && h.exchangeTime == 0 && h.tradePrice == 0 && h.tradeQuantity == 0
      && h.flags == 0 && LevelCount(h) != 0
    else if h.kind == DEPTH then
      h.firstId != 0 && h.firstId <= h.finalId && h.tradePrice == 0 && h.tradeQuantity == 0 && h.flags == 0
    else if h.kind == TRADE then
      LevelCount(h) == 0 && h.firstId != 0 && h.finalId == 0 && Signed(h.tradePrice) > 0 && h.tradeQuantity != 0
      && h.flags / 2 == 0
    else
      h.kind == BOUNDARY && LevelCount(h) == 0 && h.firstId == 0 && h.finalId == 0 && h.exchangeTime == 0
      && h.tradePrice == 0 && h.tradeQuantity == 0 && 1 <= h.flags <= 6
  }

  predicate FramingAccepted(h: EventHeader, available: nat) {
    && h.reserved == 0 && h.receipt != 0
    && h.bidCount <= MAX_LEVELS_PER_EVENT && h.askCount <= MAX_LEVELS_PER_EVENT
    && h.recordSize == EVENT_HEADER_SIZE + LevelCount(h) * LEVEL_SIZE && h.recordSize <= available
  }

  predicate PayloadAccepted(h: EventHeader, payload: seq<Byte>)
    requires |payload| == LevelCount(h) * LEVEL_SIZE
  {
    hide Crc, FieldsAccepted;
    Crc(payload) == h.crc && FieldsAccepted(h) && LevelsAccepted(payload, h.kind == SNAPSHOT)
  }

  predicate RecordAccepted(rest: seq<Byte>) {
    && |rest| >= EVENT_HEADER_SIZE
    && var h := HeaderOf(rest[..EVENT_HEADER_SIZE]);
       FramingAccepted(h, |rest|) && PayloadAccepted(h, rest[EVENT_HEADER_SIZE..h.recordSize])
  }

  function SizeOf(rest: seq<Byte>): nat
    requires |rest| >= EVENT_HEADER_SIZE
  {
    HeaderOf(rest[..EVENT_HEADER_SIZE]).recordSize
  }

  predicate RecordsAccepted(rest: seq<Byte>)
    decreases |rest|
  {
    rest == [] || (RecordAccepted(rest) && RecordsAccepted(rest[SizeOf(rest)..]))
  }

  predicate BufferAccepted(bytes: seq<Byte>) {
    |bytes| >= HEADER_SIZE && FileHeaderAccepted(bytes) && RecordsAccepted(bytes[HEADER_SIZE..])
  }

  // ----- the validator's loops

  lemma LevelsAcceptedFrom(payload: seq<Byte>, offset: nat, inSnapshot: bool)
    requires |payload| % LEVEL_SIZE == 0 && offset % LEVEL_SIZE == 0 && offset < |payload|
    ensures LevelsAccepted(payload[offset..], inSnapshot) <==>
            LevelAccepted(payload[offset..offset + 16], inSnapshot) && LevelsAccepted(payload[offset + 16..], inSnapshot)
  {
    hide LevelAccepted;
    var rest := payload[offset..];
    assert rest[..16] == payload[offset..offset + 16] && rest[16..] == payload[offset + 16..];
  }

  method ValidateLevels(payload: seq<Byte>, inSnapshot: bool) returns (ok: bool)
    requires |payload| % LEVEL_SIZE == 0
    ensures ok <==> LevelsAccepted(payload, inSnapshot)
  {
    assert payload[0..] == payload;
    assert LevelsAccepted([], inSnapshot);
    hide LevelsAccepted, Number;
    for index := 0 to |payload| / LEVEL_SIZE
      invariant LevelsAccepted(payload, inSnapshot) <==> LevelsAccepted(payload[index * LEVEL_SIZE..], inSnapshot)
    {
      var offset := index * LEVEL_SIZE;
      LevelsAcceptedFrom(payload, offset, inSnapshot);
      var level := payload[offset..offset + LEVEL_SIZE];
      if Signed(Number(level[..8])) <= 0 {
        return false;
      }
      if inSnapshot && Number(level[8..]) == 0 {
        return false;
      }
    }
    return true;
  }

  method ValidateRecord(h: EventHeader, payload: seq<Byte>) returns (ok: bool)
    requires |payload| == LevelCount(h) * LEVEL_SIZE
    ensures ok <==> PayloadAccepted(h, payload)
  {
    hide LevelsAccepted, Crc, CrcPolynomial.IsRemainder, CrcPolynomial.Message, CrcPolynomial.Polynomial,
         CrcPolynomial.Reflect, CrcPolynomial.Shifted;
    var crc := CrcPolynomial.Compute(payload);
    if crc != h.crc || !FieldsAccepted(h) {
      return false;
    }
    ok := ValidateLevels(payload, h.kind == SNAPSHOT);
  }

  lemma RecordsAcceptedFrom(bytes: seq<Byte>, offset: nat)
    requires offset < |bytes|
    ensures RecordsAccepted(bytes[offset..]) <==>
      && offset + EVENT_HEADER_SIZE <= |bytes|
      && var h := HeaderOf(bytes[offset..offset + EVENT_HEADER_SIZE]);
      && FramingAccepted(h, |bytes| - offset)
      && PayloadAccepted(h, bytes[offset + EVENT_HEADER_SIZE..offset + h.recordSize])
      && RecordsAccepted(bytes[offset + h.recordSize..])
  {
    hide PayloadAccepted, HeaderOf, FieldsAccepted;
    var rest := bytes[offset..];
    if |rest| >= EVENT_HEADER_SIZE {
      assert rest[..EVENT_HEADER_SIZE] == bytes[offset..offset + EVENT_HEADER_SIZE];
      var h := HeaderOf(rest[..EVENT_HEADER_SIZE]);
      if FramingAccepted(h, |rest|) {
        assert rest[EVENT_HEADER_SIZE..h.recordSize] == bytes[offset + EVENT_HEADER_SIZE..offset + h.recordSize];
        assert rest[h.recordSize..] == bytes[offset + h.recordSize..];
      }
    }
  }

  method ValidateBuffer(bytes: seq<Byte>) returns (ok: bool)
    ensures ok <==> BufferAccepted(bytes)
  {
    hide FileHeaderAccepted, PayloadAccepted, HeaderOf;
    if |bytes| < HEADER_SIZE || !FileHeaderAccepted(bytes) {
      return false;
    }
    var offset := HEADER_SIZE;
    hide RecordsAccepted;
    while offset < |bytes|
      invariant HEADER_SIZE <= offset <= |bytes|
      invariant RecordsAccepted(bytes[HEADER_SIZE..]) <==> RecordsAccepted(bytes[offset..])
    {
      RecordsAcceptedFrom(bytes, offset);
      if |bytes| - offset < EVENT_HEADER_SIZE {
        return false;
      }
      var h := HeaderOf(bytes[offset..offset + EVENT_HEADER_SIZE]);
      if !FramingAccepted(h, |bytes| - offset) {
        return false;
      }
      var valid := ValidateRecord(h, bytes[offset + EVENT_HEADER_SIZE..offset + h.recordSize]);
      if !valid {
        return false;
      }
      offset := offset + h.recordSize;
    }
    return true;
  }

}
