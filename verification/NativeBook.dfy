/**
 The native books: a reference on ordered maps and a flat one on sorted vectors. The functions give
 the value semantics of both, the classes perform the operations.
 */
module NativeBook {
  import opened Results
  import opened L2Types
  import opened OrderBook
  import opened Listing
  import opened Words
  import opened Bits
  import opened Layouts

  type I64 = x: int | -0x8000_0000_0000_0000 <= x <= INT64_MAX

  /** A level as the caller hands it over; its price is checked before it enters a book. */
  datatype RawLevel = RawLevel(price: I64, quantity: U64)

  datatype RawSnapshot = RawSnapshot(lastUpdateId: U64, bids: seq<RawLevel>, asks: seq<RawLevel>)

  datatype RawUpdate = RawUpdate(firstUpdateId: U64, finalUpdateId: U64, bids: seq<RawLevel>, asks: seq<RawLevel>)

  datatype BookError = BadPrice | BadUpdateId | OneSided | CrossedOrLocked | BadLevel | NotOrdered

  datatype Command = ClearBook | InstallImage(snapshot: RawSnapshot) | ApplyChange(update: RawUpdate)

  predicate ValidRaw(raw: RawLevel) { raw.price > 0 }

  function Checked(raw: RawLevel): Level
    requires ValidRaw(raw)
  {
    Level(raw.price, raw.quantity)
  }

  predicate AllValid(raws: seq<RawLevel>) { forall raw | raw in raws :: ValidRaw(raw) }

  function UpdateError(u: RawUpdate): Option<BookError> {
    if u.firstUpdateId == 0 || u.finalUpdateId == 0 || u.firstUpdateId > u.finalUpdateId then Some(BadUpdateId)
    else if !AllValid(u.bids) || !AllValid(u.asks) then Some(BadPrice)
    else None
  }

  // ----- the reference: ordered maps

  datatype MapLoading = MapLoading(side: BookSide, complete: bool)

  /** Stops at the first price that is not positive and keeps what was stored before it. */
  function MapLoad(side: BookSide, raws: seq<RawLevel>): MapLoading
    decreases raws
  {
    if raws == [] then MapLoading(side, true)
    else if !ValidRaw(raws[0]) then MapLoading(side, false)
    else MapLoad(SetLevel(side, Checked(raws[0])), raws[1..])
  }

  function MapTopError(b: Book): Option<BookError> {
    if b.bids == map[] || b.asks == map[] then Some(OneSided)
    else if MaxPrice(b.bids) >= MinPrice(b.asks) then Some(CrossedOrLocked)
    else None
  }

  function MapAuditError(b: Book): Option<BookError> {
    if MapTopError(b).Some? then MapTopError(b)
    else if !Positive(b.bids) || !Positive(b.asks) then Some(BadLevel)
    else None
  }

  datatype MapOutcome = MapOutcome(book: Book, error: Option<BookError>)

  function MapInstall(s: RawSnapshot): MapOutcome {
    if s.lastUpdateId == 0 then MapOutcome(EMPTY, Some(BadUpdateId))
    else
      var bids := MapLoad(map[], s.bids);
      if !bids.complete then MapOutcome(Book(bids.side, map[], 0), Some(BadPrice))
      else
        var asks := MapLoad(map[], s.asks);
        if !asks.complete then MapOutcome(Book(bids.side, asks.side, 0), Some(BadPrice))
        else
          var b := Book(bids.side, asks.side, s.lastUpdateId);
          MapOutcome(b, MapAuditError(b))
  }

  function MapApply(b: Book, u: RawUpdate): MapOutcome {
    if UpdateError(u).Some? then MapOutcome(b, UpdateError(u))
    else
      var after := Book(MapLoad(b.bids, u.bids).side, MapLoad(b.asks, u.asks).side, u.finalUpdateId);
      MapOutcome(after, MapTopError(after))
  }

  function MapStep(b: Book, c: Command): MapOutcome {
    match c
    case ClearBook => MapOutcome(EMPTY, None)
    case InstallImage(s) => MapInstall(s)
    case ApplyChange(u) => MapApply(b, u)
  }

  // ----- the flat book: sorted vectors

  datatype FlatBook = FlatBook(bids: seq<Level>, asks: seq<Level>, lastUpdateId: U64)

  const EMPTY_FLAT := FlatBook([], [], 0)

  /** How many levels come strictly before the price. */
  function LowerBound(levels: seq<Level>, price: Price, descending: bool): (i: nat)
    ensures i <= |levels|
    ensures i < |levels| ==> !Before(descending, levels[i].price, price)
    ensures forall k | 0 <= k < i :: Before(descending, levels[k].price, price)
  {
    if levels == [] || !Before(descending, levels[0].price, price) then 0
    else 1 + LowerBound(levels[1..], price, descending)
  }

  /** Erases, overwrites or inserts at the lower bound. */
  function Placed(levels: seq<Level>, level: Level, descending: bool): seq<Level> {
    var i := LowerBound(levels, level.price, descending);
    var found := i < |levels| && levels[i].price == level.price;
    var rest := if found then levels[i + 1..] else levels[i..];
    if level.quantity == 0 then levels[..i] + rest else levels[..i] + [level] + rest
  }

  datatype FlatLoading = FlatLoading(levels: seq<Level>, complete: bool)

  function FlatLoad(levels: seq<Level>, raws: seq<RawLevel>, descending: bool): FlatLoading
    decreases raws
  {
    if raws == [] then FlatLoading(levels, true)
    else if !ValidRaw(raws[0]) then FlatLoading(levels, false)
    else FlatLoad(Placed(levels, Checked(raws[0]), descending), raws[1..], descending)
  }

  function FlatTopError(f: FlatBook): Option<BookError> {
    if f.bids == [] || f.asks == [] then Some(OneSided)
    else if f.bids[0].price >= f.asks[0].price then Some(CrossedOrLocked)
    else None
  }

  /** What the audit of one side reports first, looking from the given index on. */
  function SideError(levels: seq<Level>, from: nat, descending: bool): Option<BookError>
    requires from <= |levels|
    decreases |levels| - from
  {
    if from == |levels| then None
    else if levels[from].quantity == 0 then Some(BadLevel)
    else if from > 0 && !Before(descending, levels[from - 1].price, levels[from].price) then Some(NotOrdered)
    else SideError(levels, from + 1, descending)
  }

  function FlatAuditError(f: FlatBook): Option<BookError> {
    if FlatTopError(f).Some? then FlatTopError(f)
    else if SideError(f.bids, 0, true).Some? then SideError(f.bids, 0, true)
    else SideError(f.asks, 0, false)
  }

  datatype FlatOutcome = FlatOutcome(book: FlatBook, error: Option<BookError>)

  /** A side that fails to normalize is never stored. */
  function FlatInstall(s: RawSnapshot): FlatOutcome {
    if s.lastUpdateId == 0 then FlatOutcome(EMPTY_FLAT, Some(BadUpdateId))
    else
      var bids := FlatLoad([], s.bids, true);
      if !bids.complete then FlatOutcome(EMPTY_FLAT, Some(BadPrice))
      else
        var asks := FlatLoad([], s.asks, false);
        if !asks.complete then FlatOutcome(FlatBook(bids.levels, [], 0), Some(BadPrice))
        else
          var f := FlatBook(bids.levels, asks.levels, s.lastUpdateId);
          FlatOutcome(f, FlatAuditError(f))
  }

  function FlatApply(f: FlatBook, u: RawUpdate): FlatOutcome {
    if UpdateError(u).Some? then FlatOutcome(f, UpdateError(u))
    else
      var after := FlatBook(FlatLoad(f.bids, u.bids, true).levels, FlatLoad(f.asks, u.asks, false).levels,
                            u.finalUpdateId);
      FlatOutcome(after, FlatTopError(after))
  }

  function FlatStep(f: FlatBook, c: Command): FlatOutcome {
    match c
    case ClearBook => FlatOutcome(EMPTY_FLAT, None)
    case InstallImage(s) => FlatInstall(s)
    case ApplyChange(u) => FlatApply(f, u)
  }

  // ----- the state hash

  const FNV_OFFSET: Word := 14_695_981_039_346_656_037
  const FNV_PRIME: nat := 1_099_511_628_211

  function Mixed(hash: nat, byte: Byte): Word { Wrap(Xor(hash, byte) * FNV_PRIME) }

  function MixedAll(hash: Word, bytes: seq<Byte>): Word
    decreases bytes
  {
    if bytes == [] then hash else MixedAll(Mixed(hash, bytes[0]), bytes[1..])
  }

  function BookBytes(lastUpdateId: U64, bids: seq<Level>, asks: seq<Level>): seq<Byte> {
    LittleEndian(lastUpdateId, 8) + LittleEndian(|bids|, 8) + LevelBytes(bids)
    + LittleEndian(|asks|, 8) + LevelBytes(asks)
  }

  function HashLevels(lastUpdateId: U64, bids: seq<Level>, asks: seq<Level>): Word {
    MixedAll(FNV_OFFSET, BookBytes(lastUpdateId, bids, asks))
  }

  function FlatHash(f: FlatBook): Word { HashLevels(f.lastUpdateId, f.bids, f.asks) }

  /** The reference hashes its sides in iteration order. */
  function MapHash(b: Book): Word { HashLevels(b.lastUpdateId, Listed(b.bids, true), Listed(b.asks, false)) }

  lemma {:induction false} MixedAllAppends(hash: Word, a: seq<Byte>, b: seq<Byte>)
    ensures MixedAll(hash, a + b) == MixedAll(MixedAll(hash, a), b)
    decreases a
  {
    hide Mixed;
    if a == [] {
      assert a + b == b;
    } else {
      assert (a + b)[1..] == a[1..] + b;
      MixedAllAppends(Mixed(hash, a[0]), a[1..], b);
    }
  }

  // ----- the mutable books

  /** Mixes the bytes of one value into a running hash. */
  method Mix(start: Word, bytes: seq<Byte>) returns (hash: Word)
    ensures hash == MixedAll(start, bytes)
  {
    hide Xor;
    hash := start;
    for i := 0 to |bytes|
      invariant MixedAll(hash, bytes[i..]) == MixedAll(start, bytes)
    {
      assert bytes[i..][0] == bytes[i] && bytes[i..][1..] == bytes[i + 1..];
      hash := Wrap(Xor(hash, bytes[i]) * FNV_PRIME);
    }
  }

  method MixLevels(start: Word, levels: seq<Level>) returns (hash: Word)
    ensures hash == MixedAll(start, LevelBytes(levels))
  {
    hide MixedAll, LittleEndian;
    hash := start;
    assert MixedAll(hash, LevelBytes(levels[0..])) == MixedAll(start, LevelBytes(levels)) by {
      assert levels[0..] == levels;
    }
    for i := 0 to |levels|
      invariant MixedAll(hash, LevelBytes(levels[i..])) == MixedAll(start, LevelBytes(levels))
    {
      ghost var rest := levels[i + 1..];
      ghost var price, quantity := LittleEndian(levels[i].price, 8), LittleEndian(levels[i].quantity, 8);
      assert levels[i..][0] == levels[i] && levels[i..][1..] == rest;
      assert LevelBytes(levels[i..]) == price + (quantity + LevelBytes(rest));
      MixedAllAppends(hash, price, quantity + LevelBytes(rest));
      hash := Mix(hash, LittleEndian(levels[i].price, 8));
      MixedAllAppends(hash, quantity, LevelBytes(rest));
      hash := Mix(hash, LittleEndian(levels[i].quantity, 8));
    }
    MixedNothing(hash);
  }

  lemma MixedNothing(hash: Word)
    ensures MixedAll(hash, LevelBytes([])) == hash
  {
  }

  method ComputeHash(lastUpdateId: U64, bids: seq<Level>, asks: seq<Level>) returns (hash: Word)
    ensures hash == HashLevels(lastUpdateId, bids, asks)
  {
    hide MixedAll, LittleEndian, LevelBytes;
    ghost var id, bidCount, askCount := LittleEndian(lastUpdateId, 8), LittleEndian(|bids|, 8), LittleEndian(|asks|, 8);
    ghost var tail := askCount + LevelBytes(asks);
    assert BookBytes(lastUpdateId, bids, asks) == id + (bidCount + (LevelBytes(bids) + tail));
    MixedAllAppends(FNV_OFFSET, id, bidCount + (LevelBytes(bids) + tail));
    hash := Mix(FNV_OFFSET, LittleEndian(lastUpdateId, 8));
    MixedAllAppends(hash, bidCount, LevelBytes(bids) + tail);
    hash := Mix(hash, LittleEndian(|bids|, 8));
    MixedAllAppends(hash, LevelBytes(bids), tail);
    hash := MixLevels(hash, bids);
    MixedAllAppends(hash, askCount, LevelBytes(asks));
    hash := Mix(hash, LittleEndian(|asks|, 8));
    hash := MixLevels(hash, asks);
  }

  lemma {:induction false} LowerBoundIsUnique(levels: seq<Level>, price: Price, descending: bool, i: nat)
    requires i <= |levels|
    requires forall k | 0 <= k < i :: Before(descending, levels[k].price, price)
    requires i < |levels| ==> !Before(descending, levels[i].price, price)
    ensures i == LowerBound(levels, price, descending)
    decreases i
  {
    if i > 0 {
      LowerBoundIsUnique(levels[1..], price, descending, i - 1);
    }
  }

  lemma {:induction false} ValidLoadsCompletely(side: BookSide, raws: seq<RawLevel>)
    ensures MapLoad(side, raws).complete <==> AllValid(raws)
    decreases raws
  {
    hide SetLevel;
    if raws != [] {
      assert raws == [raws[0]] + raws[1..];
      if ValidRaw(raws[0]) {
        ValidLoadsCompletely(SetLevel(side, Checked(raws[0])), raws[1..]);
      }
    }
  }

  method CheckUpdate(u: RawUpdate) returns (error: Option<BookError>)
    ensures error == UpdateError(u)
  {
    if u.firstUpdateId == 0 || u.finalUpdateId == 0 || u.firstUpdateId > u.finalUpdateId {
      return Some(BadUpdateId);
    }
    var sides := [u.bids, u.asks];
    for i := 0 to 2
      invariant forall k | 0 <= k < i :: AllValid(sides[k])
    {
      for j := 0 to |sides[i]|
        invariant forall k | 0 <= k < j :: ValidRaw(sides[i][k])
      {
        if sides[i][j].price <= 0 {
          assert sides[i][j] in sides[i] && !ValidRaw(sides[i][j]);
          return Some(BadPrice);
        }
      }
    }
    assert AllValid(sides[0]) && AllValid(sides[1]);
    return None;
  }

  class MapOrderBook {
    var bids: BookSide
    var asks: BookSide
    var lastUpdateId: U64

    ghost function View(): Book
      reads this
    {
      Book(bids, asks, lastUpdateId)
    }

    constructor ()
      ensures View() == EMPTY
    {
      bids, asks, lastUpdateId := map[], map[], 0;
    }

    method Clear()
      modifies this
      ensures MapOutcome(View(), None) == MapStep(old(View()), ClearBook)
    {
      bids, asks, lastUpdateId := map[], map[], 0;
    }

    static method Load(start: BookSide, raws: seq<RawLevel>) returns (side: BookSide, complete: bool)
      ensures MapLoading(side, complete) == MapLoad(start, raws)
    {
      side := start;
      for i := 0 to |raws|
        invariant MapLoad(side, raws[i..]) == MapLoad(start, raws)
      {
        assert raws[i..][0] == raws[i] && raws[i..][1..] == raws[i + 1..];
        if raws[i].price <= 0 {
          return side, false;
        }
        side := if raws[i].quantity == 0 then side - {raws[i].price} else side[raws[i].price := raws[i].quantity];
      }
      complete := true;
    }

    method InstallSnapshot(s: RawSnapshot) returns (error: Option<BookError>)
      modifies this
      ensures MapOutcome(View(), error) == MapStep(old(View()), InstallImage(s))
    {
      hide MapLoad, MapAuditError;
      Clear();
      if s.lastUpdateId == 0 {
        return Some(BadUpdateId);
      }
      var complete;
      bids, complete := Load(bids, s.bids);
      if !complete {
        return Some(BadPrice);
      }
      asks, complete := Load(asks, s.asks);
      if !complete {
        return Some(BadPrice);
      }
      lastUpdateId := s.lastUpdateId;
      error := Validate();
    }

    method Apply(u: RawUpdate) returns (error: Option<BookError>)
      modifies this
      ensures MapOutcome(View(), error) == MapStep(old(View()), ApplyChange(u))
    {
      hide MapLoad, MapTopError, UpdateError;
      error := CheckUpdate(u);
      if error.Some? {
        return;
      }
      var complete;
      bids, complete := Load(bids, u.bids);
      asks, complete := Load(asks, u.asks);
      lastUpdateId := u.finalUpdateId;
      error := ValidateTop();
    }

    method ValidateTop() returns (error: Option<BookError>)
      ensures error == MapTopError(View())
    {
      if bids == map[] || asks == map[] {
        return Some(OneSided);
      }
      return if MaxPrice(bids) >= MinPrice(asks) then Some(CrossedOrLocked) else None;
    }

    method Validate() returns (error: Option<BookError>)
      ensures error == MapAuditError(View())
    {
      error := ValidateTop();
      if error.Some? {
        return;
      }
      if (exists p | p in bids :: bids[p] == 0) || (exists p | p in asks :: asks[p] == 0) {
        return Some(BadLevel);
      }
    }

    method StateHash() returns (hash: Word)
      ensures hash == MapHash(View())
    {
      hide HashLevels, Listed;
      hash := ComputeHash(lastUpdateId, Listed(bids, true), Listed(asks, false));
    }
  }

  class FlatOrderBook {
    var bids: seq<Level>
    var asks: seq<Level>
    var lastUpdateId: U64

    ghost function View(): FlatBook
      reads this
    {
      FlatBook(bids, asks, lastUpdateId)
    }

    /** Binary search relies on both sides being strictly ordered. */
    ghost predicate Valid()
      reads this
    {
      StrictlyOrdered(bids, true) && StrictlyOrdered(asks, false)
    }

    constructor ()
      ensures Valid() && View() == EMPTY_FLAT
    {
      bids, asks, lastUpdateId := [], [], 0;
    }

    method Clear()
      modifies this
      ensures Valid() && FlatOutcome(View(), None) == FlatStep(old(View()), ClearBook)
    {
      bids, asks, lastUpdateId := [], [], 0;
    }

    /** Binary search for the first level not before the price. */
    static method FindLevel(levels: seq<Level>, price: Price, descending: bool) returns (first: nat)
      requires StrictlyOrdered(levels, descending)
      ensures first == LowerBound(levels, price, descending)
    {
      first := 0;
      var count := |levels|;
      while count > 0
        invariant 0 <= count && first + count <= |levels|
        invariant forall k | 0 <= k < first :: Before(descending, levels[k].price, price)
        invariant first + count < |levels| ==> !Before(descending, levels[first + count].price, price)
      {
        var step := count / 2;
        var middle := first + step;
        if Before(descending, levels[middle].price, price) {
          first := middle + 1;
          count := count - (step + 1);
        } else {
          count := step;
        }
      }
      LowerBoundIsUnique(levels, price, descending, first);
    }

    static method UpdateLevel(levels: seq<Level>, level: Level, descending: bool) returns (after: seq<Level>)
      requires StrictlyOrdered(levels, descending)
      ensures after == Placed(levels, level, descending)
    {
      hide StrictlyOrdered, Before, Placed;
      var i := FindLevel(levels, level.price, descending);
      PlacedCases(levels, level, descending);
      var found := i < |levels| && levels[i].price == level.price;
      if level.quantity == 0 {
        return if found then levels[..i] + levels[i + 1..] else levels;
      }
      after := if found then levels[i := level] else levels[..i] + [level] + levels[i..];
    }

    static method Load(start: seq<Level>, raws: seq<RawLevel>, descending: bool)
      returns (levels: seq<Level>, complete: bool)
      requires StrictlyOrdered(start, descending)
      ensures FlatLoading(levels, complete) == FlatLoad(start, raws, descending)
      ensures StrictlyOrdered(levels, descending)
    {
      hide Placed, StrictlyOrdered;
      levels := start;
      for i := 0 to |raws|
        invariant StrictlyOrdered(levels, descending)
        invariant FlatLoad(levels, raws[i..], descending) == FlatLoad(start, raws, descending)
      {
        assert raws[i..][0] == raws[i] && raws[i..][1..] == raws[i + 1..];
        if raws[i].price <= 0 {
          return levels, false;
        }
        PlacedIsOrdered(levels, Level(raws[i].price, raws[i].quantity), descending);
        levels := UpdateLevel(levels, Level(raws[i].price, raws[i].quantity), descending);
      }
      complete := true;
    }

    method InstallSnapshot(s: RawSnapshot) returns (error: Option<BookError>)
      modifies this
      ensures Valid() && FlatOutcome(View(), error) == FlatStep(old(View()), InstallImage(s))
    {
      hide FlatLoad, FlatAuditError, StrictlyOrdered;
      Clear();
      if s.lastUpdateId == 0 {
        return Some(BadUpdateId);
      }
      var levels, complete := Load([], s.bids, true);
      if !complete {
        return Some(BadPrice);
      }
      bids := levels;
      levels, complete := Load([], s.asks, false);
      if !complete {
        return Some(BadPrice);
      }
      asks := levels;
      lastUpdateId := s.lastUpdateId;
      error := Validate();
    }

    method Apply(u: RawUpdate) returns (error: Option<BookError>)
      requires Valid()
      modifies this
      ensures Valid() && FlatOutcome(View(), error) == FlatStep(old(View()), ApplyChange(u))
    {
      hide FlatLoad, FlatTopError, StrictlyOrdered, UpdateError;
      error := CheckUpdate(u);
      if error.Some? {
        return;
      }
      var complete;
      bids, complete := Load(bids, u.bids, true);
      asks, complete := Load(asks, u.asks, false);
      lastUpdateId := u.finalUpdateId;
      error := ValidateTop();
    }

    method ValidateTop() returns (error: Option<BookError>)
      ensures error == FlatTopError(View())
    {
      if bids == [] || asks == [] {
        return Some(OneSided);
      }
      return if bids[0].price >= asks[0].price then Some(CrossedOrLocked) else None;
    }

    static method ValidateSide(levels: seq<Level>, descending: bool) returns (error: Option<BookError>)
      ensures error == SideError(levels, 0, descending)
    {
      for i := 0 to |levels|
        invariant SideError(levels, i, descending) == SideError(levels, 0, descending)
      {
        if levels[i].quantity == 0 {
          return Some(BadLevel);
        }
        if i > 0 && !Before(descending, levels[i - 1].price, levels[i].price) {
          return Some(NotOrdered);
        }
      }
      return None;
    }

    method Validate() returns (error: Option<BookError>)
      ensures error == FlatAuditError(View())
    {
      error := ValidateTop();
      if error.None? {
        error := ValidateSide(bids, true);
      }
      if error.None? {
        error := ValidateSide(asks, false);
      }
    }

    method QuantityOf(bidSide: bool, price: Price) returns (quantity: U64)
      requires Valid()
      ensures forall side | Lists(if bidSide then bids else asks, side) :: quantity == QuantityAt(side, price)
    {
      var levels := if bidSide then bids else asks;
      var i := FindLevel(levels, price, bidSide);
      quantity := if i < |levels| && levels[i].price == price then levels[i].quantity else 0;
      forall side | Lists(levels, side) ensures quantity == QuantityAt(side, price) {
        FoundAtLowerBound(levels, side, price, bidSide);
      }
    }

    method StateHash() returns (hash: Word)
      ensures hash == FlatHash(View())
    {
      hash := ComputeHash(lastUpdateId, bids, asks);
    }
  }

  /** Everything from the lower bound on, except a level of that very price, comes after the price. */
  lemma SplitAtLowerBound(levels: seq<Level>, price: Price, descending: bool, k: nat)
    requires StrictlyOrdered(levels, descending) && LowerBound(levels, price, descending) <= k < |levels|
    ensures levels[k].price == price ==> k == LowerBound(levels, price, descending)
    ensures levels[k].price == price || Before(descending, price, levels[k].price)
  {
    var i := LowerBound(levels, price, descending);
    assert i < k ==> Before(descending, levels[i].price, levels[k].price);
  }

  lemma PlacedCases(levels: seq<Level>, level: Level, descending: bool)
    ensures var i := LowerBound(levels, level.price, descending);
      Placed(levels, level, descending) ==
      if i < |levels| && levels[i].price == level.price then
        if level.quantity == 0 then levels[..i] + levels[i + 1..] else levels[i := level]
      else if level.quantity == 0 then levels else levels[..i] + [level] + levels[i..]
  {
    hide Before, LowerBound;
    var i := LowerBound(levels, level.price, descending);
    assert levels == levels[..i] + levels[i..];
    assert i < |levels| ==> levels[i := level] == levels[..i] + [level] + levels[i + 1..];
  }

  lemma InsertionIsOrdered(levels: seq<Level>, i: nat, level: Level, descending: bool)
    requires StrictlyOrdered(levels, descending) && i <= |levels|
    requires forall k | 0 <= k < i :: Before(descending, levels[k].price, level.price)
    requires forall k | i <= k < |levels| :: Before(descending, level.price, levels[k].price)
    ensures StrictlyOrdered(levels[..i] + [level] + levels[i..], descending)
  {
    hide Before;
    var all := levels[..i] + [level] + levels[i..];
    assert forall k | 0 <= k < i :: all[k] == levels[k];
    assert forall k | i < k < |all| :: all[k] == levels[k - 1];
    forall j, k | 0 <= j < k < |all| ensures Before(descending, all[j].price, all[k].price) {
    }
  }

  lemma PlacedIsOrdered(levels: seq<Level>, level: Level, descending: bool)
    requires StrictlyOrdered(levels, descending)
    ensures StrictlyOrdered(Placed(levels, level, descending), descending)
  {
    hide Placed, Before;
    PlacedCases(levels, level, descending);
    var i := LowerBound(levels, level.price, descending);
    forall k: nat | i <= k < |levels|
      ensures levels[k].price == level.price || Before(descending, level.price, levels[k].price)
      ensures levels[k].price == level.price ==> k == i
    {
      SplitAtLowerBound(levels, level.price, descending, k);
    }
    if level.quantity != 0 && (i == |levels| || levels[i].price != level.price) {
      InsertionIsOrdered(levels, i, level, descending);
    }
  }

  lemma FoundAtLowerBound(levels: seq<Level>, side: BookSide, price: Price, descending: bool)
    requires StrictlyOrdered(levels, descending) && Lists(levels, side)
    ensures var i := LowerBound(levels, price, descending);
            QuantityAt(side, price) == if i < |levels| && levels[i].price == price then levels[i].quantity else 0
  {
    var i := LowerBound(levels, price, descending);
    if price in side {
      var k :| 0 <= k < |levels| && levels[k] == Level(price, side[price]);
      SplitAtLowerBound(levels, price, descending, k);
    } else {
      assert i < |levels| ==> levels[i] in levels;
    }
  }
}
