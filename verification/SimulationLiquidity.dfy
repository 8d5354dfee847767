/** Displayed liquidity is not taken twice between two refreshes of its level. */
module SimulationLiquidity {
  import opened Reals
  import opened Results
  import opened L2Types
  import opened OrderBook
  import opened Listing
  import opened Simulation
  import opened SimulationAccounting
  import opened SimulationTaker

  predicate TakerFillAt(f: Fill, key: LevelKey) {
    !f.maker && LevelKey(BookSideOf(f.side), f.price) == key
  }

  /** The taker fills at a level among the fills from index `from` on. */
  function TakenSince(fills: seq<Fill>, from: nat, key: LevelKey): int {
    if |fills| <= from then 0
    else
      TakenSince(fills[..|fills| - 1], from, key) +
      if TakerFillAt(fills[|fills| - 1], key) then fills[|fills| - 1].quantity else 0
  }

  /** How many fills there were when the level was last refreshed. */
  function LastRefresh(v: Venue, key: LevelKey): nat {
    if key in v.refreshed then v.refreshed[key] else v.cleared
  }

  ghost predicate LevelLiquid(v: Venue, fills: seq<Fill>, key: LevelKey) {
    && LastRefresh(v, key) <= |fills|
    && ConsumedAt(v.consumed, key) == TakenSince(fills, LastRefresh(v, key), key)
    && 0 <= ConsumedAt(v.consumed, key) <= Displayed(v.book, key)
  }

  /** What is shadowed at a level is what was taken there since its refresh, and never more than it shows. */
  ghost predicate Liquid(v: Venue, fills: seq<Fill>) {
    forall key: LevelKey :: LevelLiquid(v, fills, key)
  }

  lemma TakeLevelLiquid(v: Venue, t: Taking, time: nat, level: Level, quantity: int, cfg: Config)
    requires Liquid(v.(consumed := t.consumed), t.booking.ledger.fills)
    requires var side := t.booking.order.request.side;
             && level.quantity == Displayed(v.book, TakenKey(side, level))
             && 0 < quantity <= Available(level, side, t.consumed)
             && PositionAllows(t.booking.ledger.position, side, quantity, cfg)
    ensures var n := TakeLevel(t, time, level, quantity, cfg);
            Liquid(v.(consumed := n.consumed), n.booking.ledger.fills)
  {
    hide Displayed;
    var n := TakeLevel(t, time, level, quantity, cfg);
    var side := t.booking.order.request.side;
    var taken := TakenKey(side, level);
    TakeLevelAccepted(t, time, level, quantity, cfg);
    var fill := n.booking.ledger.fills[|t.booking.ledger.fills|];
    forall key: LevelKey ensures LevelLiquid(v.(consumed := n.consumed), n.booking.ledger.fills, key) {
      assert LevelLiquid(v.(consumed := t.consumed), t.booking.ledger.fills, key);
      assert LastRefresh(v.(consumed := t.consumed), key) == LastRefresh(v, key);
    }
  }

  lemma {:induction false} WalkLiquid(v: Venue, t: Taking, time: nat, levels: seq<Level>, limit: Option<Price>, remaining: int, cfg: Config)
    requires Liquid(v.(consumed := t.consumed), t.booking.ledger.fills) && remaining >= 0
    requires forall l | l in levels :: l.quantity == Displayed(v.book, TakenKey(t.booking.order.request.side, l))
    requires -(cfg.maxPosition as int) <= t.booking.ledger.position <= cfg.maxPosition as int
    requires PositionAllows(t.booking.ledger.position, t.booking.order.request.side, remaining, cfg)
    ensures var w := Walk(t, time, levels, limit, remaining, cfg);
            Liquid(v.(consumed := w.consumed), w.booking.ledger.fills)
    decreases levels
  {
    hide Liquid, Displayed, Fee, Notional;
    if levels != [] && remaining > 0 {
      var level, side := levels[0], t.booking.order.request.side;
      if !BeyondLimit(side, level.price, limit) {
        var quantity := Smaller(remaining, Available(level, side, t.consumed));
        if quantity <= 0 {
          WalkLiquid(v, t, time, levels[1..], limit, remaining, cfg);
        } else {
          TakeLevelLiquid(v, t, time, level, quantity, cfg);
          TakeLevelAccepted(t, time, level, quantity, cfg);
          WalkLiquid(v, TakeLevel(t, time, level, quantity, cfg), time, levels[1..], limit, remaining - quantity, cfg);
        }
      }
    }
  }

  lemma TakerLiquid(s: Sim, o: Order, limit: Option<Price>, cfg: Config)
    requires Liquid(s.venue, s.ledger.fills) && LedgerBalances(s.ledger, cfg) && o.filled == 0
    requires PositionAllows(s.ledger.position, o.request.side, o.request.quantity, cfg)
    ensures var n := ExecuteTaker(s, o, o.arrival, limit, cfg);
            Liquid(n.venue, n.ledger.fills) && n.venue.book == s.venue.book
  {
    hide Liquid, Walk, Listed;
    var side := o.request.side;
    var levels := WalkLevels(s.venue.book, side);
    ListedIsListing(TakenSide(s.venue.book, side), side.Sell?);
    assert s.venue.(consumed := s.venue.consumed) == s.venue;
    WalkLiquid(s.venue, Taking(Booking(s.ledger, o), s.venue.consumed), o.arrival, levels, limit, Remaining(o), cfg);
  }

  // ----- maker fills take nothing from the display

  ghost predicate MakersOnly(before: seq<Fill>, after: seq<Fill>) {
    before <= after && forall i | |before| <= i < |after| :: after[i].maker
  }

  lemma {:induction false} MakersTakeNothing(before: seq<Fill>, after: seq<Fill>, from: nat, key: LevelKey)
    requires MakersOnly(before, after) && from <= |before|
    ensures TakenSince(after, from, key) == TakenSince(before, from, key)
    decreases after
  {
    if |after| > |before| {
      MakersTakeNothing(before, after[..|after| - 1], from, key);
    } else {
      assert after == before;
    }
  }

  lemma MakersLiquid(v: Venue, before: seq<Fill>, after: seq<Fill>)
    requires Liquid(v, before) && MakersOnly(before, after)
    ensures Liquid(v, after)
  {
    forall key: LevelKey ensures LevelLiquid(v, after, key) {
      assert LevelLiquid(v, before, key);
      MakersTakeNothing(before, after, LastRefresh(v, key), key);
    }
  }

  lemma MakerFillMakesOnly(b: Booking, time: nat, quantity: int, price: Price, cfg: Config)
    ensures MakersOnly(b.ledger.fills, MakerFill(b, time, quantity, price, cfg).ledger.fills)
  {
  }

  lemma MakersCompose(a: seq<Fill>, b: seq<Fill>, c: seq<Fill>)
    requires MakersOnly(a, b) && MakersOnly(b, c)
    ensures MakersOnly(a, c)
  {
    forall i | |a| <= i < |c| ensures c[i].maker {
      assert i < |b| ==> c[i] == b[i];
    }
  }

  lemma {:induction false} TradeMakesOnly(p: Passive, ids: seq<string>, trade: Trade, cfg: Config)
    ensures MakersOnly(p.ledger.fills, TradeEach(p, ids, trade, cfg).ledger.fills)
    decreases ids
  {
    hide MakerFill, MakersOnly, MaxZero;
    if ids == [] {
      MakersSame(p.ledger.fills);
    } else {
      var n := TradeStep(p, ids[0], trade, cfg);
      if ids[0] in p.orders {
        var o, size := p.orders[ids[0]], trade.quantity as real;
        MakerFillMakesOnly(Booking(p.ledger, o.(queueAhead := MaxZero(o.queueAhead - size))), trade.receipt as int,
                           Smaller(Remaining(o), MaxZero(size - o.queueAhead).Floor), trade.price, cfg);
      } else {
        MakersSame(p.ledger.fills);
      }
      TradeMakesOnly(n, ids[1..], trade, cfg);
      MakersCompose(p.ledger.fills, n.ledger.fills, TradeEach(n, ids[1..], trade, cfg).ledger.fills);
    }
  }

  lemma MakersSame(fills: seq<Fill>)
    ensures MakersOnly(fills, fills)
  {
  }

  lemma DepleteOneMakesOnly(b: Booking, time: nat, depletion: real, price: Price, cfg: Config)
    ensures MakersOnly(b.ledger.fills, DepleteOne(b, time, depletion, price, cfg).ledger.fills)
  {
    hide MakerFill, MakersOnly;
    var ahead := b.order.queueAhead;
    var reduction := if ahead < depletion then ahead else depletion;
    MakersSame(b.ledger.fills);
    MakerFillMakesOnly(b.(order := b.order.(queueAhead := ahead - reduction)), time,
                       Smaller(Remaining(b.order), (depletion - reduction).Floor), price, cfg);
  }

  lemma {:induction false} DepleteMakesOnly(p: Passive, ids: seq<string>, time: nat, found: Shadow, cfg: Config)
    ensures MakersOnly(p.ledger.fills, DepleteEach(p, ids, time, found, cfg).ledger.fills)
    decreases ids
  {
    hide DepleteOne, MakersOnly, Depletion;
    MakersSame(p.ledger.fills);
    if ids != [] {
      var id := ids[0];
      var n := DepleteStep(p, id, time, found, cfg);
      if id in p.orders && RestingKey(p.orders[id]).Some? {
        var key := RestingKey(p.orders[id]).value;
        DepleteOneMakesOnly(Booking(p.ledger, p.orders[id]), time, Depletion(found, key, cfg), key.price, cfg);
      }
      DepleteMakesOnly(n, ids[1..], time, found, cfg);
      MakersCompose(p.ledger.fills, n.ledger.fills, DepleteEach(n, ids[1..], time, found, cfg).ledger.fills);
    }
  }

  // ----- refreshes

  predicate Refreshes(levels: seq<Level>, side: BookSideName, key: LevelKey) {
    key.side == side && LastListed(levels, key.price).Some?
  }

  lemma {:induction false} DropKeysAt(consumed: Shadow, side: BookSideName, levels: seq<Level>, key: LevelKey)
    ensures ConsumedAt(DropKeys(consumed, side, levels), key) ==
            if Refreshes(levels, side, key) then 0 else ConsumedAt(consumed, key)
    decreases levels
  {
    if levels != [] {
      DropKeysAt(consumed - {LevelKey(side, levels[0].price)}, side, levels[1..], key);
    }
  }

  lemma {:induction false} MarkKeysAt(marks: map<LevelKey, nat>, side: BookSideName, levels: seq<Level>, count: nat, key: LevelKey)
    ensures var m := MarkKeys(marks, side, levels, count);
            && (Refreshes(levels, side, key) ==> key in m && m[key] == count)
            && (!Refreshes(levels, side, key) ==> (key in m <==> key in marks) && (key in m ==> m[key] == marks[key]))
    decreases levels
  {
    if levels != [] {
      MarkKeysAt(marks[LevelKey(side, levels[0].price) := count], side, levels[1..], count, key);
    }
  }

  lemma NothingTakenYet(fills: seq<Fill>, key: LevelKey)
    ensures TakenSince(fills, |fills|, key) == 0
  {
  }

  /** A listed level starts afresh; any other keeps its display, its shadow and its mark. */
  lemma RefreshLiquid(v: Venue, u: DepthUpdate, fills: seq<Fill>)
    requires Liquid(v, fills)
    ensures Liquid(Refresh(v, u, |fills|).(book := Applied(v.book, u)), fills)
  {
    var n := Refresh(v, u, |fills|).(book := Applied(v.book, u));
    forall key: LevelKey ensures LevelLiquid(n, fills, key) {
      RefreshedLevel(v, u, fills, key);
    }
  }

  lemma RefreshedLevel(v: Venue, u: DepthUpdate, fills: seq<Fill>, key: LevelKey)
    requires Liquid(v, fills)
    ensures LevelLiquid(Refresh(v, u, |fills|).(book := Applied(v.book, u)), fills, key)
  {
    hide TakenSince, SetLevels;
    assert LevelLiquid(v, fills, key);
    DropKeysAt(v.consumed, BidSide, u.bids, key);
    DropKeysAt(DropKeys(v.consumed, BidSide, u.bids), AskSide, u.asks, key);
    MarkKeysAt(v.refreshed, BidSide, u.bids, |fills|, key);
    MarkKeysAt(MarkKeys(v.refreshed, BidSide, u.bids, |fills|), AskSide, u.asks, |fills|, key);
    SetLevelsAt(v.book.bids, u.bids, key.price);
    SetLevelsAt(v.book.asks, u.asks, key.price);
    NothingTakenYet(fills, key);
  }

  lemma ClearedLiquid(v: Venue, book: Book, fills: seq<Fill>)
    ensures Liquid(Cleared(v, |fills|).(book := book), fills)
  {
    var n := Cleared(v, |fills|).(book := book);
    forall key: LevelKey ensures LevelLiquid(n, fills, key) {
      NothingTakenYet(fills, key);
    }
  }

  lemma MidLiquid(v: Venue, fills: seq<Fill>)
    requires Liquid(v, fills)
    ensures UpdateMid(v).Ok? ==> Liquid(UpdateMid(v).value, fills) && UpdateMid(v).value.book == v.book
  {
    hide MaxPrice, MinPrice;
    if UpdateMid(v).Ok? {
      var n := UpdateMid(v).value;
      forall key: LevelKey ensures LevelLiquid(n, fills, key) {
        assert LevelLiquid(v, fills, key);
      }
    }
  }

  lemma ActivateLiquid(s: Sim, o: Order, cfg: Config)
    requires Liquid(s.venue, s.ledger.fills) && LedgerBalances(s.ledger, cfg) && o.filled == 0
    ensures var r := Activate(s, o, cfg);
            r.Ok? ==> Liquid(r.value.venue, r.value.ledger.fills) && r.value.venue.book == s.venue.book
  {
    hide Liquid, LedgerBalances, ExecuteTaker, OwnQueue, Marketable, PositionAllows;
    if PositionAllows(s.ledger.position, o.request.side, o.request.quantity, cfg) {
      if o.request.instruction.Market? {
        TakerLiquid(s, o, None, cfg);
      } else {
        TakerLiquid(s, o, Some(o.request.instruction.price), cfg);
      }
    }
  }

  lemma MarketEventLiquid(s: Sim, e: Event, cfg: Config)
    requires Liquid(s.venue, s.ledger.fills)
    ensures var r := MarketEvent(s, e, cfg); r.Ok? ==> Liquid(r.value.venue, r.value.ledger.fills)
  {
    hide Liquid, CancelEach, TradeEach, DepleteEach, TradeQueue, Decreases, Refresh, Cleared, Applied, Installed, Sound, UpdateMid, MakersOnly;
    match e
    case BoundaryEvent(_, _) =>
      ClearedLiquid(s.venue, EMPTY, s.ledger.fills);
      MidIrrelevant(Cleared(s.venue, |s.ledger.fills|).(book := EMPTY), s.ledger.fills);
    case SnapshotEvent(snapshot) =>
      ClearedLiquid(s.venue, Installed(snapshot), s.ledger.fills);
      MidLiquid(Cleared(s.venue, |s.ledger.fills|).(book := Installed(snapshot)), s.ledger.fills);
    case DepthEvent(u) =>
      var p := Passive(s.ledger, s.desk.orders);
      DepleteMakesOnly(p, s.desk.active, u.receipt as int, Decreases(s.venue.book, u), cfg);
      MakersLiquid(s.venue, s.ledger.fills, DepleteEach(p, s.desk.active, u.receipt as int, Decreases(s.venue.book, u), cfg).ledger.fills);
      var d := ProcessDepletion(s, u, cfg);
      RefreshLiquid(d.venue, u, d.ledger.fills);
      MidLiquid(Refresh(d.venue, u, |d.ledger.fills|).(book := Applied(d.venue.book, u)), d.ledger.fills);
    case TradeEvent(t) =>
      var p := Passive(s.ledger, s.desk.orders);
      TradeMakesOnly(p, TradeQueue(s.desk, t), t, cfg);
      MakersLiquid(s.venue, s.ledger.fills, TradeEach(p, TradeQueue(s.desk, t), t, cfg).ledger.fills);
  }

  lemma MidIrrelevant(v: Venue, fills: seq<Fill>)
    requires Liquid(v, fills)
    ensures Liquid(v.(latestMid := None), fills)
  {
    forall key: LevelKey ensures LevelLiquid(v.(latestMid := None), fills, key) {
      assert LevelLiquid(v, fills, key);
    }
  }
}
