/**
 The flat book refines the map book: its vectors stay the unique strictly ordered listing of the
 maps, so both report the same errors and hashes. The one exception is a refused snapshot.
 */
module NativeBookProperties {
  import opened Results
  import opened L2Types
  import opened OrderBook
  import opened Listing
  import opened Words
  import opened Bits
  import opened Layouts
  import opened NativeBook

  // ----- one side

  ghost predicate SameSide(levels: seq<Level>, side: BookSide, descending: bool) {
    StrictlyOrdered(levels, descending) && Lists(levels, side) && Positive(side)
  }

  ghost predicate Same(f: FlatBook, b: Book) {
    SameSide(f.bids, b.bids, true) && SameSide(f.asks, b.asks, false) && f.lastUpdateId == b.lastUpdateId
  }

  lemma PlacedKeepsOthers(levels: seq<Level>, level: Level, descending: bool, l: Level)
    requires l.price != level.price
    ensures l in Placed(levels, level, descending) <==> l in levels
  {
    hide Before;
    var i := LowerBound(levels, level.price, descending);
    var found := i < |levels| && levels[i].price == level.price;
    var rest := if found then levels[i + 1..] else levels[i..];
    var same := if found then [levels[i]] else [];
    assert levels == levels[..i] + same + rest;
    assert l !in same && l !in [level];
  }

  lemma PlacedHoldsLevel(levels: seq<Level>, level: Level, descending: bool, l: Level)
    requires StrictlyOrdered(levels, descending) && l.price == level.price
    ensures l in Placed(levels, level, descending) <==> l == level && level.quantity != 0
  {
    var i := LowerBound(levels, level.price, descending);
    var found := i < |levels| && levels[i].price == level.price;
    var rest := if found then levels[i + 1..] else levels[i..];
    forall k: nat | i <= k < |levels| && levels[k].price == level.price ensures k == i {
      SplitAtLowerBound(levels, level.price, descending, k);
    }
    assert l !in levels[..i];
    assert l !in rest;
  }

  /** Erasing, overwriting or inserting a listed level is what the map does to its side. */
  lemma PlacedListsSetLevel(levels: seq<Level>, side: BookSide, level: Level, descending: bool)
    requires SameSide(levels, side, descending)
    ensures SameSide(Placed(levels, level, descending), SetLevel(side, level), descending)
  {
    hide Placed;
    var after, set_ := Placed(levels, level, descending), SetLevel(side, level);
    PlacedIsOrdered(levels, level, descending);
    forall l | l in after ensures l.price in set_ && set_[l.price] == l.quantity {
      if l.price == level.price {
        PlacedHoldsLevel(levels, level, descending, l);
      } else {
        PlacedKeepsOthers(levels, level, descending, l);
      }
    }
    forall p | p in set_ ensures Level(p, set_[p]) in after {
      if p == level.price {
        PlacedHoldsLevel(levels, level, descending, Level(p, set_[p]));
      } else {
        PlacedKeepsOthers(levels, level, descending, Level(p, set_[p]));
      }
    }
  }

  lemma {:induction false} LoadsAgree(levels: seq<Level>, side: BookSide, raws: seq<RawLevel>, descending: bool)
    requires SameSide(levels, side, descending)
    ensures var flat, reference := FlatLoad(levels, raws, descending), MapLoad(side, raws);
            flat.complete == reference.complete && SameSide(flat.levels, reference.side, descending)
    decreases raws
  {
    hide SameSide, Placed, SetLevel;
    if raws != [] && ValidRaw(raws[0]) {
      var level := Checked(raws[0]);
      PlacedListsSetLevel(levels, side, level, descending);
      LoadsAgree(Placed(levels, level, descending), SetLevel(side, level), raws[1..], descending);
    }
  }

  lemma EmptySame()
    ensures SameSide([], map[], true) && SameSide([], map[], false)
  {
  }

  /** A list with levels is never the listing of an empty side. */
  lemma SameEmptiness(levels: seq<Level>, side: BookSide, descending: bool)
    requires SameSide(levels, side, descending)
    ensures levels == [] <==> side == map[]
    ensures levels != [] ==> levels[0].price == if descending then MaxPrice(side) else MinPrice(side)
  {
    EmptyListsNothing(levels, side);
    if levels != [] {
      var p := if descending then MaxPrice(side) else MinPrice(side);
      assert levels[0] in levels;
      assert Level(p, side[p]) in levels;
    }
  }

  // ----- the audits

  lemma {:induction false} OrderedSidePasses(levels: seq<Level>, side: BookSide, from: nat, descending: bool)
    requires SameSide(levels, side, descending) && from <= |levels|
    ensures SideError(levels, from, descending) == None
    decreases |levels| - from
  {
    if from < |levels| {
      assert levels[from] in levels;
      OrderedSidePasses(levels, side, from + 1, descending);
    }
  }

  /** No level is empty and each comes strictly before the next. */
  predicate SideInOrder(levels: seq<Level>, from: nat, descending: bool) {
    && (forall i | from <= i < |levels| :: levels[i].quantity != 0)
    && (forall i | from <= i < |levels| && i > 0 :: Before(descending, levels[i - 1].price, levels[i].price))
  }

  lemma {:induction false} SideErrorIff(levels: seq<Level>, from: nat, descending: bool)
    requires from <= |levels|
    ensures SideError(levels, from, descending) == None <==> SideInOrder(levels, from, descending)
    decreases |levels| - from
  {
    if from < |levels| {
      SideErrorIff(levels, from + 1, descending);
    }
  }

  /** Of any flat book the full audit accepts exactly the two-sided, uncrossed one with both sides in order. */
  lemma FlatAuditIff(f: FlatBook)
    ensures FlatAuditError(f) == None <==>
            && f.bids != [] && f.asks != [] && f.bids[0].price < f.asks[0].price
            && SideInOrder(f.bids, 0, true) && SideInOrder(f.asks, 0, false)
  {
    hide SideInOrder;
    SideErrorIff(f.bids, 0, true);
    SideErrorIff(f.asks, 0, false);
  }

  /** The check of the two best prices reports what the audit of every level would. */
  lemma TopCheckIsFullAudit(f: FlatBook, b: Book)
    requires Same(f, b)
    ensures FlatTopError(f) == FlatAuditError(f) == MapTopError(b) == MapAuditError(b)
  {
    SameEmptiness(f.bids, b.bids, true);
    SameEmptiness(f.asks, b.asks, false);
    OrderedSidePasses(f.bids, b.bids, 0, true);
    OrderedSidePasses(f.asks, b.asks, 0, false);
  }

  // ----- one command

  lemma ApplyAgrees(f: FlatBook, b: Book, u: RawUpdate)
    requires Same(f, b)
    ensures FlatApply(f, u).error == MapApply(b, u).error
    ensures Same(FlatApply(f, u).book, MapApply(b, u).book)
  {
    hide SameSide, FlatLoad, MapLoad, FlatTopError, MapTopError;
    if UpdateError(u).None? {
      LoadsAgree(f.bids, b.bids, u.bids, true);
      LoadsAgree(f.asks, b.asks, u.asks, false);
      TopCheckIsFullAudit(FlatApply(f, u).book, MapApply(b, u).book);
    }
  }

  /** The levels stored before the first price that is not positive. */
  function StoredBefore(raws: seq<RawLevel>): seq<Level> {
    if raws == [] || !ValidRaw(raws[0]) then [] else [Checked(raws[0])] + StoredBefore(raws[1..])
  }

  /** Every price these commands name is deleted by the last command for it. */
  predicate NetsToNothing(levels: seq<Level>) {
    forall l | l in levels :: LastListed(levels, l.price) == Some(0)
  }

  /** A snapshot refused for a price leaves no level of the refused side behind. */
  predicate LeavesNoResidue(s: RawSnapshot) {
    || s.lastUpdateId == 0
    || (if AllValid(s.bids) then AllValid(s.asks) || NetsToNothing(StoredBefore(s.asks))
        else NetsToNothing(StoredBefore(s.bids)))
  }

  lemma {:induction false} LoadStoresPrefix(side: BookSide, raws: seq<RawLevel>)
    ensures MapLoad(side, raws).side == SetLevels(side, StoredBefore(raws))
    decreases raws
  {
    hide SetLevel;
    if raws != [] && ValidRaw(raws[0]) {
      var level := Checked(raws[0]);
      LoadStoresPrefix(SetLevel(side, level), raws[1..]);
      assert StoredBefore(raws)[1..] == StoredBefore(raws[1..]);
    }
  }

  lemma {:induction false} UnlistedHasNoLast(levels: seq<Level>, price: Price)
    requires forall l | l in levels :: l.price != price
    ensures LastListed(levels, price) == None
    decreases levels
  {
    if levels != [] {
      UnlistedHasNoLast(levels[1..], price);
    }
  }

  lemma EmptyIffNetsToNothing(levels: seq<Level>)
    ensures SetLevels(map[], levels) == map[] <==> NetsToNothing(levels)
  {
    hide SetLevels, LastListed;
    var side := SetLevels(map[], levels);
    SetLevelsPositive(map[], levels);
    forall p: Price ensures QuantityAt(side, p) == match LastListed(levels, p) case Some(q) => q case None => 0 {
      SetLevelsAt(map[], levels, p);
    }
    if NetsToNothing(levels) {
      forall p: Price ensures QuantityAt(side, p) == QuantityAt(map[], p) {
        if forall l | l in levels :: l.price != p {
          UnlistedHasNoLast(levels, p);
        }
      }
      SidesEqual(side, map[]);
    }
    if side == map[] {
      forall l | l in levels ensures LastListed(levels, l.price) == Some(0) {
        assert QuantityAt(side, l.price) == 0;
        ListedHasLast(levels, l);
      }
    }
  }

  lemma {:induction false} ListedHasLast(levels: seq<Level>, l: Level)
    requires l in levels
    ensures LastListed(levels, l.price).Some?
    decreases levels
  {
    if levels[0] != l {
      ListedHasLast(levels[1..], l);
    }
  }

  lemma OnlyEmptyIsSameAsNothing(side: BookSide, descending: bool)
    ensures SameSide([], side, descending) <==> side == map[]
  {
    if SameSide([], side, descending) {
      EmptyListsNothing([], side);
    }
  }

  lemma LoadAfresh(raws: seq<RawLevel>, descending: bool)
    ensures var flat, reference := FlatLoad([], raws, descending), MapLoad(map[], raws);
            && flat.complete == reference.complete == AllValid(raws)
            && SameSide(flat.levels, reference.side, descending)
            && (reference.side == map[] <==> NetsToNothing(StoredBefore(raws)))
  {
    hide FlatLoad, MapLoad, SameSide, SetLevels, NetsToNothing, AllValid;
    EmptySame();
    LoadsAgree([], map[], raws, descending);
    ValidLoadsCompletely(map[], raws);
    LoadStoresPrefix(map[], raws);
    EmptyIffNetsToNothing(StoredBefore(raws));
  }

  /**
   Both books accept and refuse the same snapshots for the same reason, and hold the same levels
   afterwards exactly when the snapshot leaves no residue.
   */
  lemma InstallAgreesIff(s: RawSnapshot)
    ensures FlatInstall(s).error == MapInstall(s).error
    ensures Same(FlatInstall(s).book, MapInstall(s).book) <==> LeavesNoResidue(s)
  {
    hide FlatLoad, MapLoad, SameSide, FlatAuditError, MapAuditError, NetsToNothing, AllValid;
    EmptySame();
    if s.lastUpdateId != 0 {
      LoadAfresh(s.bids, true);
      LoadAfresh(s.asks, false);
      OnlyEmptyIsSameAsNothing(MapLoad(map[], s.bids).side, true);
      OnlyEmptyIsSameAsNothing(MapLoad(map[], s.asks).side, false);
      if AllValid(s.bids) && AllValid(s.asks) {
        TopCheckIsFullAudit(FlatInstall(s).book, MapInstall(s).book);
      }
    }
  }

  /** A refused snapshot after which the reference still shows one bid and the flat book none. */
  lemma RefusedSnapshotSplitsTheBooks(s: RawSnapshot)
    requires s == RawSnapshot(7, [RawLevel(100, 5), RawLevel(0, 1)], [])
    ensures FlatInstall(s).error == MapInstall(s).error == Some(BadPrice)
    ensures FlatInstall(s).book == EMPTY_FLAT && MapInstall(s).book == Book(map[100 := 5], map[], 0)
  {
    assert s.bids[1..] == [RawLevel(0, 1)];
    assert MapLoad(map[], s.bids) == MapLoad(SetLevel(map[], Level(100, 5)), s.bids[1..]);
    assert FlatLoad([], s.bids, true) == FlatLoad(Placed([], Level(100, 5), true), s.bids[1..], true);
  }

  // ----- every history

  predicate ResidueFree(c: Command) { c.InstallImage? ==> LeavesNoResidue(c.snapshot) }

  lemma StepAgrees(f: FlatBook, b: Book, c: Command)
    requires Same(f, b) && ResidueFree(c)
    ensures FlatStep(f, c).error == MapStep(b, c).error
    ensures Same(FlatStep(f, c).book, MapStep(b, c).book)
  {
    hide SameSide, FlatInstall, MapInstall, FlatApply, MapApply;
    match c
    case ClearBook => EmptySame();
    case InstallImage(s) => InstallAgreesIff(s);
    case ApplyChange(u) => ApplyAgrees(f, b, u);
  }

  /** The flat vectors are the only strictly ordered listing of the maps, so the hashes are equal. */
  lemma HashesAgree(f: FlatBook, b: Book)
    requires Same(f, b)
    ensures f.bids == Listed(b.bids, true) && f.asks == Listed(b.asks, false)
    ensures FlatHash(f) == MapHash(b)
  {
    ListedIsListing(b.bids, true);
    ListedIsListing(b.asks, false);
    ListingIsUnique(f.bids, Listed(b.bids, true), b.bids, true);
    ListingIsUnique(f.asks, Listed(b.asks, false), b.asks, false);
  }

  /** What a user sees after one command. */
  datatype Observation = Observation(error: Option<BookError>, hash: Word)

  function FlatTrace(f: FlatBook, commands: seq<Command>): seq<Observation>
    decreases commands
  {
    if commands == [] then []
    else
      var out := FlatStep(f, commands[0]);
      [Observation(out.error, FlatHash(out.book))] + FlatTrace(out.book, commands[1..])
  }

  function MapTrace(b: Book, commands: seq<Command>): seq<Observation>
    decreases commands
  {
    if commands == [] then []
    else
      var out := MapStep(b, commands[0]);
      [Observation(out.error, MapHash(out.book))] + MapTrace(out.book, commands[1..])
  }

  lemma {:induction false} TracesAgreeFrom(f: FlatBook, b: Book, commands: seq<Command>)
    requires Same(f, b) && forall c | c in commands :: ResidueFree(c)
    ensures FlatTrace(f, commands) == MapTrace(b, commands)
    decreases commands
  {
    hide Same, FlatStep, MapStep, FlatHash, MapHash, ResidueFree;
    if commands != [] {
      assert commands[0] in commands;
      StepAgrees(f, b, commands[0]);
      HashesAgree(FlatStep(f, commands[0]).book, MapStep(b, commands[0]).book);
      TracesAgreeFrom(FlatStep(f, commands[0]).book, MapStep(b, commands[0]).book, commands[1..]);
    }
  }

  /** For every history of residue-free commands both books report the same errors and state hashes. */
  lemma FlatRefinesMap(commands: seq<Command>)
    requires forall c | c in commands :: ResidueFree(c)
    ensures FlatTrace(EMPTY_FLAT, commands) == MapTrace(EMPTY, commands)
  {
    EmptySame();
    TracesAgreeFrom(EMPTY_FLAT, EMPTY, commands);
  }

  /** Both books hold the same levels, and report the same error, at every point of the history. */
  ghost predicate SameThroughout(f: FlatBook, b: Book, commands: seq<Command>)
    decreases commands
  {
    && Same(f, b)
    && (commands != [] ==>
          var x, y := FlatStep(f, commands[0]), MapStep(b, commands[0]);
          x.error == y.error && SameThroughout(x.book, y.book, commands[1..]))
  }

  /** The books stay the same throughout a history exactly when no snapshot in it leaves a residue. */
  lemma {:induction false} SameThroughoutIff(f: FlatBook, b: Book, commands: seq<Command>)
    requires Same(f, b)
    ensures SameThroughout(f, b, commands) <==> forall c | c in commands :: ResidueFree(c)
    decreases commands
  {
    hide Same, FlatStep, MapStep, ResidueFree;
    if commands != [] {
      var c, rest := commands[0], commands[1..];
      var x, y := FlatStep(f, c), MapStep(b, c);
      assert commands == [c] + rest;
      if ResidueFree(c) {
        StepAgrees(f, b, c);
        SameThroughoutIff(x.book, y.book, rest);
      } else {
        ResidueSplits(f, b, c);
      }
    }
  }

  lemma ResidueSplits(f: FlatBook, b: Book, c: Command)
    requires !ResidueFree(c)
    ensures !Same(FlatStep(f, c).book, MapStep(b, c).book)
  {
    hide Same, FlatInstall, MapInstall;
    InstallAgreesIff(c.snapshot);
  }

  /** Whatever two books held, they agree again from the next clear or residue-free snapshot on. */
  lemma BooksReunite(f: FlatBook, b: Book, commands: seq<Command>)
    requires commands != [] && !commands[0].ApplyChange? && forall c | c in commands :: ResidueFree(c)
    ensures FlatTrace(f, commands) == MapTrace(b, commands)
  {
    hide Same, FlatInstall, MapInstall, FlatHash, MapHash, ResidueFree;
    assert commands[0] in commands;
    assert Same(EMPTY_FLAT, EMPTY) by {
      EmptySame();
      SameOfSides(EMPTY_FLAT, EMPTY);
    }
    StepAgrees(EMPTY_FLAT, EMPTY, commands[0]);
    assert FlatStep(f, commands[0]) == FlatStep(EMPTY_FLAT, commands[0]);
    assert MapStep(b, commands[0]) == MapStep(EMPTY, commands[0]);
    var flat, reference := FlatStep(f, commands[0]).book, MapStep(b, commands[0]).book;
    HashesAgree(flat, reference);
    TracesAgreeFrom(flat, reference, commands[1..]);
  }

  lemma SameOfSides(f: FlatBook, b: Book)
    requires SameSide(f.bids, b.bids, true) && SameSide(f.asks, b.asks, false) && f.lastUpdateId == b.lastUpdateId
    ensures Same(f, b)
  {
  }

  // ----- the audit on every reachable state, residue or not

  ghost predicate Listable(f: FlatBook) {
    exists b :: Same(f, b)
  }

  lemma FlatStepStaysListable(f: FlatBook, c: Command)
    requires Listable(f)
    ensures Listable(FlatStep(f, c).book)
  {
    hide SameSide, FlatLoad, MapLoad, FlatAuditError, FlatApply, MapApply;
    EmptySame();
    var b :| Same(f, b);
    match c
    case ClearBook =>
      assert Same(EMPTY_FLAT, EMPTY);
    case ApplyChange(u) =>
      ApplyAgrees(f, b, u);
    case InstallImage(s) =>
      LoadAfresh(s.bids, true);
      LoadAfresh(s.asks, false);
      var bids, asks := MapLoad(map[], s.bids).side, MapLoad(map[], s.asks).side;
      var k := FlatInstall(s).book;
      assert Same(EMPTY_FLAT, EMPTY);
      assert k == EMPTY_FLAT || Same(k, Book(bids, map[], 0)) || Same(k, Book(bids, asks, s.lastUpdateId));
  }

  function FlatAfter(f: FlatBook, commands: seq<Command>): FlatBook
    decreases commands
  {
    if commands == [] then f else FlatAfter(FlatStep(f, commands[0]).book, commands[1..])
  }

  lemma {:induction false} FlatAfterListable(f: FlatBook, commands: seq<Command>)
    requires Listable(f)
    ensures Listable(FlatAfter(f, commands))
    decreases commands
  {
    hide Listable, FlatStep;
    if commands != [] {
      FlatStepStaysListable(f, commands[0]);
      FlatAfterListable(FlatStep(f, commands[0]).book, commands[1..]);
    }
  }

  /**
   After every history, refused snapshots included, the flat sides are strictly ordered without
   empty levels, and the constant-time check reports what the audit of every level would.
   */
  lemma TopCheckSuffices(commands: seq<Command>)
    ensures var f := FlatAfter(EMPTY_FLAT, commands);
            && StrictlyOrdered(f.bids, true) && StrictlyOrdered(f.asks, false)
            && (forall l | l in f.bids + f.asks :: l.quantity > 0)
            && FlatTopError(f) == FlatAuditError(f)
  {
    EmptySame();
    assert Same(EMPTY_FLAT, EMPTY);
    FlatAfterListable(EMPTY_FLAT, commands);
    var f := FlatAfter(EMPTY_FLAT, commands);
    var b :| Same(f, b);
    TopCheckIsFullAudit(f, b);
  }

  // ----- the Python book

  function RawOf(levels: seq<Level>): seq<RawLevel> {
    if levels == [] then [] else [RawLevel(levels[0].price, levels[0].quantity)] + RawOf(levels[1..])
  }

  lemma {:induction false} RawLoads(side: BookSide, levels: seq<Level>)
    ensures MapLoad(side, RawOf(levels)) == MapLoading(SetLevels(side, levels), true)
    decreases levels
  {
    hide SetLevel;
    if levels != [] {
      var raws := RawOf(levels);
      assert raws[1..] == RawOf(levels[1..]) && Checked(raws[0]) == levels[0];
      RawLoads(SetLevel(side, levels[0]), levels[1..]);
    }
  }

  lemma TopErrorIffUnsound(b: Book)
    requires Positive(b.bids) && Positive(b.asks)
    ensures MapTopError(b) == None <==> Sound(b)
    ensures MapAuditError(b) == None <==> Sound(b)
  {
  }

  /** The native reference and the Python book accept the same updates and reach the same state. */
  lemma PythonApplyAgrees(b: Book, u: DepthUpdate)
    requires Positive(b.bids) && Positive(b.asks)
    ensures var native := MapApply(b, RawUpdate(u.firstUpdateId, u.finalUpdateId, RawOf(u.bids), RawOf(u.asks)));
            native.book == Applied(b, u) && (native.error == None <==> Sound(Applied(b, u)))
  {
    hide MapLoad, SetLevels, Sound, MapTopError, Positive, AllValid;
    RawLoads(b.bids, u.bids);
    RawLoads(b.asks, u.asks);
    ValidLoadsCompletely(b.bids, RawOf(u.bids));
    ValidLoadsCompletely(b.asks, RawOf(u.asks));
    SetLevelsPositive(b.bids, u.bids);
    SetLevelsPositive(b.asks, u.asks);
    TopErrorIffUnsound(Applied(b, u));
  }

  lemma PythonInstallAgrees(s: Snapshot)
    ensures var native := MapInstall(RawSnapshot(s.lastUpdateId, RawOf(s.bids), RawOf(s.asks)));
            native.book == Installed(s) && (native.error == None <==> Sound(Installed(s)))
  {
    hide MapLoad, SetLevels, Sound, MapAuditError;
    RawLoads(map[], s.bids);
    RawLoads(map[], s.asks);
    SetLevelsPositive(map[], s.bids);
    SetLevelsPositive(map[], s.asks);
    TopErrorIffUnsound(Installed(s));
  }

  // ----- what the state hash distinguishes

  const FNV_INVERSE: nat := 14_886_173_955_864_302_971

  lemma WrapScales(x: nat, k: nat)
    ensures Wrap(Wrap(x) * k) == Wrap(x * k)
  {
    var q, r: int := x / WORD, Wrap(x);
    assert x == q * WORD + r;
    assert x * k == (q * k) * WORD + r * k by {
      assert (q * WORD + r) * k == (q * WORD) * k + r * k;
      assert (q * WORD) * k == (q * k) * WORD;
    }
    var d, e: int := (r * k) / WORD, (r * k) % WORD;
    assert x * k == (q * k + d) * WORD + e by {
      assert (q * k + d) * WORD == (q * k) * WORD + d * WORD;
    }
    DivModUnique(x * k, WORD, q * k + d, e);
  }

  /** The multiplier is odd, so multiplying by it modulo 2^64 loses nothing. */
  lemma PrimeIsInvertible(x: Word)
    ensures Wrap(Wrap(x * FNV_PRIME) * FNV_INVERSE) == x
  {
    var cofactor := (FNV_PRIME * FNV_INVERSE - 1) / WORD;
    assert FNV_PRIME * FNV_INVERSE == cofactor * WORD + 1;
    WrapScales(x * FNV_PRIME, FNV_INVERSE);
    var y: int := x;
    assert (y * FNV_PRIME) * FNV_INVERSE == (y * cofactor) * WORD + y;
    DivModUnique((y * FNV_PRIME) * FNV_INVERSE, WORD, y * cofactor, y);
  }

  lemma MixIsInjective(h: Word, k: Word, a: Byte, b: Byte)
    requires Mixed(h, a) == Mixed(k, b)
    ensures Xor(h, a) == Xor(k, b)
  {
    hide Xor, Wrap;
    WordIsPow2();
    assert Pow2(8) == 256;
    XorBelow(h, a, 64) by { BytesFit(a); }
    XorBelow(k, b, 64) by { BytesFit(b); }
    PrimeIsInvertible(Xor(h, a));
    PrimeIsInvertible(Xor(k, b));
  }

  lemma BytesFit(a: Byte)
    ensures a < Pow2(64)
  {
    WordIsPow2();
  }

  lemma {:induction false} MixingKeepsDifference(h: Word, k: Word, bytes: seq<Byte>)
    requires h != k
    ensures MixedAll(h, bytes) != MixedAll(k, bytes)
    decreases bytes
  {
    hide Mixed, Xor;
    if bytes != [] {
      if Mixed(h, bytes[0]) == Mixed(k, bytes[0]) {
        MixIsInjective(h, k, bytes[0], bytes[0]);
        XorIsInjective(bytes[0], h, k);
      }
      MixingKeepsDifference(Mixed(h, bytes[0]), Mixed(k, bytes[0]), bytes[1..]);
    }
  }

  lemma OneByteChangesMix(h: Word, before: seq<Byte>, a: Byte, b: Byte, after: seq<Byte>)
    requires a != b
    ensures MixedAll(h, before + [a] + after) != MixedAll(h, before + [b] + after)
  {
    hide Mixed, MixedAll, Xor;
    var k := MixedAll(h, before);
    MixedAllAppends(h, before + [a], after);
    MixedAllAppends(h, before, [a]);
    MixedAllAppends(h, before + [b], after);
    MixedAllAppends(h, before, [b]);
    MixedOne(k, a);
    MixedOne(k, b);
    if Mixed(k, a) == Mixed(k, b) {
      MixIsInjective(k, k, a, b);
      XorIsInjective(k, a, b);
    }
    MixingKeepsDifference(Mixed(k, a), Mixed(k, b), after);
  }

  lemma MixedOne(h: Word, a: Byte)
    ensures MixedAll(h, [a]) == Mixed(h, a)
  {
    assert MixedAll(h, [a]) == MixedAll(Mixed(h, a), []);
  }

  /** The bytes a book's state hash is computed from. */
  function Encoded(b: Book): seq<Byte> { BookBytes(b.lastUpdateId, Listed(b.bids, true), Listed(b.asks, false)) }

  /** Two byte strings differ in exactly one place. */
  ghost predicate OneByteApart(a: seq<Byte>, b: seq<Byte>) {
    |a| == |b| && exists i | 0 <= i < |a| :: a[i] != b[i] && forall j | 0 <= j < |a| && j != i :: a[j] == b[j]
  }

  /** Books whose encodings differ in exactly one byte never share a state hash. */
  lemma OneByteChangesHash(a: Book, b: Book)
    requires OneByteApart(Encoded(a), Encoded(b))
    ensures MapHash(a) != MapHash(b)
  {
    hide Listed, BookBytes, MixedAll;
    var x, y := Encoded(a), Encoded(b);
    var i :| 0 <= i < |x| && x[i] != y[i] && forall j | 0 <= j < |x| && j != i :: x[j] == y[j];
    assert x == x[..i] + [x[i]] + x[i + 1..];
    assert y == x[..i] + [y[i]] + x[i + 1..];
    OneByteChangesMix(FNV_OFFSET, x[..i], x[i], y[i], x[i + 1..]);
  }

  // ----- the parity of a hash

  /** Whether the number of odd bytes is odd. */
  function Parity(bytes: seq<Byte>): (p: nat)
    ensures p < 2
  {
    if bytes == [] then 0 else (bytes[0] % 2 + Parity(bytes[1..])) % 2
  }

  lemma {:induction false} ParityJoins(a: seq<Byte>, b: seq<Byte>)
    ensures Parity(a + b) == (Parity(a) + Parity(b)) % 2
    decreases a
  {
    if a == [] {
      assert a + b == b;
    } else {
      assert (a + b)[1..] == a[1..] + b;
      ParityJoins(a[1..], b);
    }
  }

  lemma {:induction false} SmallParity(n: nat, width: nat)
    requires n < 256 && (width == 0 ==> n == 0)
    ensures Parity(LittleEndian(n, width)) == n % 2
    decreases width
  {
    if width > 0 {
      assert LittleEndian(n, width)[1..] == LittleEndian(n / 256, width - 1);
      SmallParity(n / 256, width - 1);
    }
  }

  lemma LevelParity(level: Level)
    requires level.price < 256 && level.quantity < 256
    ensures Parity(LevelBytes([level])) == (level.price as int + level.quantity as int) % 2
  {
    hide LittleEndian, Parity;
    SmallParity(level.price, 8);
    SmallParity(level.quantity, 8);
    ParityJoins(LittleEndian(level.price, 8), LittleEndian(level.quantity, 8));
    var rest: seq<Level> := [level][1..];
    assert rest == [] && LevelBytes(rest) == [];
    assert LevelBytes([level]) == LittleEndian(level.price, 8) + LittleEndian(level.quantity, 8) + [];
    assert LittleEndian(level.price, 8) + LittleEndian(level.quantity, 8) + [] ==
           LittleEndian(level.price, 8) + LittleEndian(level.quantity, 8);
  }

  lemma BookParity(id: U64, bids: seq<Level>, asks: seq<Level>)
    requires id < 256 && |bids| < 256 && |asks| < 256
    ensures Parity(BookBytes(id, bids, asks)) ==
            (id as int + |bids| + Parity(LevelBytes(bids)) + |asks| + Parity(LevelBytes(asks))) % 2
  {
    hide LittleEndian, Parity, LevelBytes;
    SmallParity(id, 8);
    SmallParity(|bids|, 8);
    SmallParity(|asks|, 8);
    var counted, n, m: int := LittleEndian(id, 8) + LittleEndian(|bids|, 8), |bids|, |asks|;
    JoinedParity(LittleEndian(id, 8), LittleEndian(|bids|, 8), id, n);
    JoinedParity(counted, LevelBytes(bids), id + n, Parity(LevelBytes(bids)));
    JoinedParity(counted + LevelBytes(bids), LittleEndian(|asks|, 8), id + n + Parity(LevelBytes(bids)), m);
    JoinedParity(counted + LevelBytes(bids) + LittleEndian(|asks|, 8), LevelBytes(asks),
                 id + n + Parity(LevelBytes(bids)) + m, Parity(LevelBytes(asks)));
  }

  lemma JoinedParity(a: seq<Byte>, b: seq<Byte>, m: int, n: int)
    requires Parity(a) == m % 2 && Parity(b) == n % 2
    ensures Parity(a + b) == (m + n) % 2
  {
    hide Parity;
    ParityJoins(a, b);
  }

  lemma OddProduct(h: nat, k: nat, product: nat)
    requires product == h * (2 * k + 1)
    ensures product % 2 == h % 2
  {
    assert h * (2 * k + 1) == 2 * (h * k) + h;
  }

  lemma WrapParity(x: nat)
    ensures Wrap(x) % 2 == x % 2
  {
    var q: int := x / WORD;
    assert x == 2 * (q * (WORD / 2)) + Wrap(x);
  }

  lemma TimesPrimeKeepsParity(h: nat)
    ensures Wrap(h * FNV_PRIME) % 2 == h % 2
  {
    OddProduct(h, FNV_PRIME / 2, h * FNV_PRIME);
    WrapParity(h * FNV_PRIME);
  }

  /** Each odd byte flips the parity of the state, because the multiplier is odd. */
  lemma {:induction false} MixParity(h: Word, bytes: seq<Byte>)
    ensures MixedAll(h, bytes) % 2 == (h + Parity(bytes)) % 2
    decreases bytes
  {
    hide Wrap, Xor;
    if bytes != [] {
      XorHalves(h, bytes[0]);
      TimesPrimeKeepsParity(Xor(h, bytes[0]));
      MixParity(Mixed(h, bytes[0]), bytes[1..]);
    }
  }

  lemma EmptyListed()
    ensures Listed(map[], true) == [] && Listed(map[], false) == []
  {
  }

  /** The fingerprint of the empty book is odd, so it is not the zero that stands for no book. */
  lemma EmptyHashIsOdd()
    ensures MapHash(EMPTY) % 2 == 1
  {
    hide Listed, MixedAll, BookBytes, LittleEndian;
    EmptyListed();
    BookParity(0, [], []);
    assert LevelBytes([]) == [] && Parity([]) == 0;
    MixParity(FNV_OFFSET, Encoded(EMPTY));
  }

  lemma SingleListed(price: Price, quantity: U64, descending: bool)
    ensures Listed(map[price := quantity], descending) == [Level(price, quantity)]
  {
    var side := map[price := quantity];
    assert price in side && side - {price} == map[];
    assert First(side, descending) in side;
    assert Listed(map[], descending) == [];
  }
}
