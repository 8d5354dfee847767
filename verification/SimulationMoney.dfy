/**
 The simulator's money in whole numbers: what was bought and sold, what it cost, which fee rate each
 fill bore and what a position is worth. Prices and quantities are counted in units of ten to the
 minus eight, so their product is in units of ten to the minus sixteen.
 */
module SimulationMoney {
  import opened Reals
  import opened Results
  import opened L2Types
  import opened OrderBook
  import opened Simulation
  import opened SimulationAccounting
  import opened SimulationQueueRuns

  const VALUE_UNITS: real := 10_000_000_000_000_000.0
  const BASIS_POINTS: real := 10_000.0

  function Bought(fills: seq<Fill>): int {
    if fills == [] then 0
    else Bought(fills[..|fills| - 1]) + (if fills[|fills| - 1].side.Buy? then fills[|fills| - 1].quantity else 0)
  }

  function Sold(fills: seq<Fill>): int {
    if fills == [] then 0
    else Sold(fills[..|fills| - 1]) + (if fills[|fills| - 1].side.Sell? then fills[|fills| - 1].quantity else 0)
  }

  function Worth(f: Fill): int { f.price * f.quantity }

  function Paid(fills: seq<Fill>): int {
    if fills == [] then 0
    else Paid(fills[..|fills| - 1]) + (if fills[|fills| - 1].side.Buy? then Worth(fills[|fills| - 1]) else 0)
  }

  function Received(fills: seq<Fill>): int {
    if fills == [] then 0
    else Received(fills[..|fills| - 1]) + (if fills[|fills| - 1].side.Sell? then Worth(fills[|fills| - 1]) else 0)
  }

  /** The value of the fills that rested, or of those that took. */
  function Turnover(fills: seq<Fill>, maker: bool): int {
    if fills == [] then 0
    else
      Turnover(fills[..|fills| - 1], maker) + (if fills[|fills| - 1].maker == maker then Worth(fills[|fills| - 1]) else 0)
  }

  lemma NotionalIs(f: Fill)
    ensures Notional(f.price, f.quantity) * VALUE_UNITS == Worth(f) as real
  {
    ScaledProduct(f.price as real, f.quantity as real);
    ProductOfReals(f.price, f.quantity);
  }

  lemma ScaledProduct(p: real, q: real)
    ensures p / 100_000_000.0 * (q / 100_000_000.0) * VALUE_UNITS == p * q
  {
    var x, y := p / 100_000_000.0, q / 100_000_000.0;
    assert p == x * 100_000_000.0 && q == y * 100_000_000.0;
    assert p * q == x * 100_000_000.0 * (y * 100_000_000.0) == x * y * VALUE_UNITS;
  }

  lemma ProductOfReals(p: int, q: int)
    ensures p as real * q as real == (p * q) as real
  {
  }

  /** A fill that rested bears the maker rate, a fill that took the taker rate, both in basis points of its value. */
  lemma FeeIs(f: Fill, cfg: Config)
    ensures Fee(f.price, f.quantity, true, cfg) * BASIS_POINTS * VALUE_UNITS == Worth(f) as real * cfg.makerFeeBps
    ensures Fee(f.price, f.quantity, false, cfg) * BASIS_POINTS * VALUE_UNITS == Worth(f) as real * cfg.takerFeeBps
  {
    var n := Notional(f.price, f.quantity);
    NotionalIs(f);
    FeeScaled(n, cfg.makerFeeBps);
    FeeScaled(n, cfg.takerFeeBps);
  }

  lemma FeeScaled(n: real, rate: real)
    ensures n * rate / 10000.0 * BASIS_POINTS * VALUE_UNITS == n * VALUE_UNITS * rate
  {
    assert n * rate / 10000.0 * BASIS_POINTS == n * rate;
  }

  /** A fill past the position limit books nothing and leaves its reason on the order. */
  lemma FillIsRefused(b: Booking, time: nat, quantity: int, price: Price, maker: bool, cfg: Config)
    requires quantity > 0
    requires var p := if b.order.request.side.Buy? then b.ledger.position + quantity else b.ledger.position - quantity;
             p > cfg.maxPosition || p < -(cfg.maxPosition as int)
    ensures RecordFill(b, time, quantity, price, maker, cfg) ==
            Booking(b.ledger, b.order.(status := Rejected, reason := "position_limit_during_partial_fill"))
  {
    hide Fee, Notional;
  }

  // ----- the ledger

  lemma {:induction false} SignedIs(fills: seq<Fill>)
    ensures SignedQuantity(fills) == Bought(fills) - Sold(fills)
    ensures SignedNotional(fills) * VALUE_UNITS == (Paid(fills) - Received(fills)) as real
    decreases |fills|
  {
    hide Notional, Worth;
    if fills != [] {
      var f := fills[|fills| - 1];
      SignedIs(fills[..|fills| - 1]);
      NotionalIs(f);
    }
  }

  lemma {:induction false} FeesAre(fills: seq<Fill>, cfg: Config)
    requires forall f | f in fills :: f.fee == Fee(f.price, f.quantity, f.maker, cfg)
    ensures TotalFees(fills) * BASIS_POINTS * VALUE_UNITS ==
            Turnover(fills, true) as real * cfg.makerFeeBps + Turnover(fills, false) as real * cfg.takerFeeBps
    decreases |fills|
  {
    hide Fee, Notional, Worth, Turnover, TotalFees;
    FeesGrow(fills);
    if fills != [] {
      var init, f := fills[..|fills| - 1], fills[|fills| - 1];
      FeesAre(init, cfg);
      FeeIs(f, cfg);
      SumScaled(TotalFees(init), f.fee);
      MoreTurnover(Turnover(init, f.maker), Worth(f), if f.maker then cfg.makerFeeBps else cfg.takerFeeBps);
    }
  }

  lemma FeesGrow(fills: seq<Fill>)
    ensures fills == [] ==> TotalFees(fills) == 0.0 && Turnover(fills, true) == Turnover(fills, false) == 0
    ensures fills != [] ==>
              var init, f := fills[..|fills| - 1], fills[|fills| - 1];
              && TotalFees(fills) == TotalFees(init) + f.fee
              && Turnover(fills, f.maker) == Turnover(init, f.maker) + Worth(f)
              && Turnover(fills, !f.maker) == Turnover(init, !f.maker)
  {
    hide Worth;
  }

  lemma SumScaled(a: real, b: real)
    ensures (a + b) * BASIS_POINTS * VALUE_UNITS == a * BASIS_POINTS * VALUE_UNITS + b * BASIS_POINTS * VALUE_UNITS
  {
  }

  lemma MoreTurnover(a: int, b: int, rate: real)
    ensures (a + b) as real * rate == a as real * rate + b as real * rate
  {
    assert (a + b) as real == a as real + b as real;
  }

  /**
   What the ledger of every accounted state says: the position is what was bought less what was sold,
   cash is what was received less what was paid and less the fees, and the fees are the maker rate on
   what rested and the taker rate on what took.
   */
  lemma LedgerInUnits(l: Ledger, orders: map<string, Order>, cfg: Config)
    requires Accounts(l, orders, cfg)
    ensures l.position == Bought(l.fills) - Sold(l.fills)
    ensures (l.cash + l.fees) * VALUE_UNITS == (Received(l.fills) - Paid(l.fills)) as real
    ensures l.fees * BASIS_POINTS * VALUE_UNITS ==
            Turnover(l.fills, true) as real * cfg.makerFeeBps + Turnover(l.fills, false) as real * cfg.takerFeeBps
  {
    hide Fee, Notional;
    SignedIs(l.fills);
    forall f | f in l.fills ensures f.fee == Fee(f.price, f.quantity, f.maker, cfg) {
      assert FillProper(f, orders, cfg);
    }
    FeesAre(l.fills, cfg);
    hide SignedQuantity, SignedNotional, TotalFees, Turnover, Paid, Received;
    Negated(SignedNotional(l.fills), Paid(l.fills) - Received(l.fills));
  }

  lemma Negated(a: real, b: int)
    requires a * VALUE_UNITS == b as real
    ensures -a * VALUE_UNITS == (-b) as real
  {
  }

  // ----- marking to the middle

  /** What one unit bought or sold at this price has gained at this middle. */
  function Gain(f: Fill, mid: real): real {
    var paid, size := f.price as real / 100_000_000.0, f.quantity as real / 100_000_000.0;
    if f.side.Buy? then size * (mid - paid) else size * (paid - mid)
  }

  function Gains(fills: seq<Fill>, mid: real): real {
    if fills == [] then 0.0 else Gains(fills[..|fills| - 1], mid) + Gain(fills[|fills| - 1], mid)
  }

  lemma GainIs(f: Fill, mid: real)
    ensures Gain(f, mid) ==
            Sign(f.side) as real * (f.quantity as real / 100_000_000.0 * mid) - Sign(f.side) as real * Notional(f.price, f.quantity)
  {
    var paid, size := f.price as real / 100_000_000.0, f.quantity as real / 100_000_000.0;
    assert size * (mid - paid) == size * mid - size * paid;
    assert size * (paid - mid) == size * paid - size * mid;
  }

  lemma {:induction false} GainsAre(fills: seq<Fill>, mid: real)
    ensures Gains(fills, mid) == SignedQuantity(fills) as real / 100_000_000.0 * mid - SignedNotional(fills)
    decreases |fills|
  {
    hide Gain, Notional;
    if fills != [] {
      var f, before := fills[|fills| - 1], SignedQuantity(fills[..|fills| - 1]);
      GainsAre(fills[..|fills| - 1], mid);
      GainIs(f, mid);
      MoreValue(before, Sign(f.side), f.quantity, mid);
    }
  }

  lemma MoreValue(before: int, sign: int, quantity: int, mid: real)
    requires sign == 1 || sign == -1
    ensures (before + sign * quantity) as real / 100_000_000.0 * mid ==
            before as real / 100_000_000.0 * mid + sign as real * (quantity as real / 100_000_000.0 * mid)
  {
    var a, b := before as real / 100_000_000.0, quantity as real / 100_000_000.0;
    assert (before + quantity) as real == before as real + quantity as real;
    assert (before - quantity) as real == before as real - quantity as real;
    assert (a + b) * mid == a * mid + b * mid;
    assert (a - b) * mid == a * mid - b * mid;
  }

  /** The equity the kill switch looks at: what every fill has gained at the middle, less the fees. */
  lemma EquityIsGains(s: Sim, cfg: Config)
    requires LedgerBalances(s.ledger, cfg) && s.venue.latestMid.Some?
    ensures Equity(s) == Gains(s.ledger.fills, s.venue.latestMid.value) - s.ledger.fees
  {
    hide Gains, SignedQuantity, SignedNotional;
    GainsAre(s.ledger.fills, s.venue.latestMid.value);
  }

  /** Without a middle the position counts for nothing. */
  lemma EquityWithoutMiddle(s: Sim)
    requires s.venue.latestMid.None?
    ensures Equity(s) == s.ledger.cash
  {
  }

  /** The middle is as far above the best bid as below the best ask. */
  lemma MiddleIs(v: Venue, bid: Price, ask: Price)
    requires v.book.lastUpdateId > 0 && bid in v.book.bids && ask in v.book.asks
    requires (forall p | p in v.book.bids :: p <= bid) && (forall p | p in v.book.asks :: ask <= p)
    ensures UpdateMid(v).Ok? && UpdateMid(v).value.latestMid.Some?
    ensures var mid := UpdateMid(v).value.latestMid.value;
            && UpdateMid(v).value == v.(latestMid := Some(mid))
            && mid - bid as real / 100_000_000.0 == ask as real / 100_000_000.0 - mid
  {
    assert MaxPrice(v.book.bids) == bid && MinPrice(v.book.asks) == ask;
    var b: int, a: int := bid, ask;
    assert (b + a) as real == b as real + a as real;
  }

  // ----- which fills an operation books

  /** All fills from before to after took liquidity at that time, for that order. */
  ghost predicate TakersOnly(before: seq<Fill>, after: seq<Fill>, id: string, time: int) {
    before <= after && forall i | |before| <= i < |after| :: !after[i].maker && after[i].id == id && after[i].time == time
  }

  lemma TakersTwice(a: seq<Fill>, b: seq<Fill>, c: seq<Fill>, id: string, time: int)
    requires TakersOnly(a, b, id, time) && TakersOnly(b, c, id, time)
    ensures TakersOnly(a, c, id, time)
  {
    forall i | |a| <= i < |c| ensures !c[i].maker && c[i].id == id && c[i].time == time {
      assert i < |b| ==> c[i] == b[i];
    }
  }

  lemma TakersSame(fills: seq<Fill>, id: string, time: int)
    ensures TakersOnly(fills, fills, id, time)
  {
  }

  lemma TakeTakes(t: Taking, time: nat, level: Level, quantity: int, cfg: Config)
    ensures var n := TakeLevel(t, time, level, quantity, cfg);
            && TakersOnly(t.booking.ledger.fills, n.booking.ledger.fills, t.booking.order.request.id, time)
            && n.booking.order.request == t.booking.order.request
  {
    hide Fee, Notional, PositionAllows;
  }

  lemma {:induction false} WalkTakes(
    t: Taking, time: nat, levels: seq<Level>, limit: Option<Price>, remaining: int, cfg: Config)
    ensures TakersOnly(t.booking.ledger.fills, Walk(t, time, levels, limit, remaining, cfg).booking.ledger.fills,
                       t.booking.order.request.id, time)
    decreases levels
  {
    hide TakersOnly, BeyondLimit, Available, TakeLevel;
    TakersSame(t.booking.ledger.fills, t.booking.order.request.id, time);
    if levels != [] && remaining > 0 {
      var level, side := levels[0], t.booking.order.request.side;
      var quantity := Smaller(remaining, Available(level, side, t.consumed));
      WalkTakes(t, time, levels[1..], limit, remaining, cfg);
      if quantity > 0 {
        var n := TakeLevel(t, time, level, quantity, cfg);
        TakeTakes(t, time, level, quantity, cfg);
        WalkTakes(n, time, levels[1..], limit, remaining - quantity, cfg);
        TakersTwice(t.booking.ledger.fills, n.booking.ledger.fills,
                    Walk(n, time, levels[1..], limit, remaining - quantity, cfg).booking.ledger.fills,
                    t.booking.order.request.id, time);
      }
    }
  }

  /** All fills from before to after rested, and bear the time of the event that reached them. */
  ghost predicate MakersAt(before: seq<Fill>, after: seq<Fill>, time: int) {
    before <= after && forall i | |before| <= i < |after| :: after[i].maker && after[i].time == time
  }

  lemma MakersTwice(a: seq<Fill>, b: seq<Fill>, c: seq<Fill>, time: int)
    requires MakersAt(a, b, time) && MakersAt(b, c, time)
    ensures MakersAt(a, c, time)
  {
    forall i | |a| <= i < |c| ensures c[i].maker && c[i].time == time {
      assert i < |b| ==> c[i] == b[i];
    }
  }

  lemma MakersStay(fills: seq<Fill>, time: int)
    ensures MakersAt(fills, fills, time)
  {
  }

  lemma MakerFillMakes(b: Booking, time: nat, quantity: int, price: Price, cfg: Config)
    ensures MakersAt(b.ledger.fills, MakerFill(b, time, quantity, price, cfg).ledger.fills, time)
  {
    hide Fee, Notional, PositionAllows;
  }

  lemma {:induction false} TradeMakes(p: Passive, ids: seq<string>, trade: Trade, cfg: Config)
    ensures MakersAt(p.ledger.fills, TradeEach(p, ids, trade, cfg).ledger.fills, trade.receipt)
    decreases ids
  {
    hide MakersAt, MakerFill, Remaining;
    MakersStay(p.ledger.fills, trade.receipt);
    if ids != [] {
      var n := TradeStep(p, ids[0], trade, cfg);
      if ids[0] in p.orders {
        var b := Booking(p.ledger, p.orders[ids[0]]);
        TradeOneMakes(b, trade, cfg);
      }
      TradeMakes(n, ids[1..], trade, cfg);
      MakersTwice(p.ledger.fills, n.ledger.fills, TradeEach(n, ids[1..], trade, cfg).ledger.fills, trade.receipt);
    }
  }

  lemma TradeOneMakes(b: Booking, trade: Trade, cfg: Config)
    ensures MakersAt(b.ledger.fills, TradeOne(b, trade, cfg).ledger.fills, trade.receipt)
  {
    hide MakersAt, MakerFill;
    var size, ahead := trade.quantity as real, b.order.queueAhead;
    MakerFillMakes(b.(order := b.order.(queueAhead := MaxZero(ahead - size))), trade.receipt as int,
                   Smaller(Remaining(b.order), MaxZero(size - ahead).Floor), trade.price, cfg);
  }

  lemma DepleteOneMakes(b: Booking, time: nat, depletion: real, price: Price, cfg: Config)
    ensures MakersAt(b.ledger.fills, DepleteOne(b, time, depletion, price, cfg).ledger.fills, time)
  {
    hide MakersAt, MakerFill;
    MakersStay(b.ledger.fills, time);
    var ahead := b.order.queueAhead;
    var reduction := if ahead < depletion then ahead else depletion;
    MakerFillMakes(b.(order := b.order.(queueAhead := ahead - reduction)), time,
                   Smaller(Remaining(b.order), (depletion - reduction).Floor), price, cfg);
  }

  lemma {:induction false} DepleteMakes(p: Passive, ids: seq<string>, time: nat, found: Shadow, cfg: Config)
    ensures MakersAt(p.ledger.fills, DepleteEach(p, ids, time, found, cfg).ledger.fills, time)
    decreases ids
  {
    hide MakersAt, DepleteOne, Depletion;
    MakersStay(p.ledger.fills, time);
    if ids != [] {
      var id := ids[0];
      var n := DepleteStep(p, id, time, found, cfg);
      if id in p.orders && RestingKey(p.orders[id]).Some? {
        var key := RestingKey(p.orders[id]).value;
        DepleteOneMakes(Booking(p.ledger, p.orders[id]), time, Depletion(found, key, cfg), key.price, cfg);
      }
      DepleteMakes(n, ids[1..], time, found, cfg);
      MakersTwice(p.ledger.fills, n.ledger.fills, DepleteEach(n, ids[1..], time, found, cfg).ledger.fills, time);
    }
  }

  lemma ActivateTakes(s: Sim, o: Order, cfg: Config)
    ensures var r := Activate(s, o, cfg);
            r.Ok? ==> TakersOnly(s.ledger.fills, r.value.ledger.fills, o.request.id, o.arrival)
  {
    hide TakersOnly, Walk, WalkLevels, OwnQueue, Marketable, PositionAllows, QueueAhead, Displayed;
    TakersSame(s.ledger.fills, o.request.id, o.arrival);
    var t, levels := Taking(Booking(s.ledger, o), s.venue.consumed), WalkLevels(s.venue.book, o.request.side);
    WalkTakes(t, o.arrival, levels, None, Remaining(o), cfg);
    if o.request.instruction.Limit? {
      WalkTakes(t, o.arrival, levels, Some(o.request.instruction.price), Remaining(o), cfg);
    }
  }

  /**
   An arriving order books only fills of its own, at its arrival, as a taker; a market event books
   only maker fills, at its receipt; nothing else books anything. So who pays which rate is decided
   by what made the fill happen.
   */
  lemma OperateBooks(s: Sim, op: Operation, cfg: Config)
    ensures var r := Operate(s, op, cfg);
            r.Ok? ==>
              match op
              case OrderArrives =>
                s.requests != [] ==>
                  TakersOnly(s.ledger.fills, r.value.ledger.fills, s.requests[0].id,
                             s.requests[0].decision + cfg.decisionLatency + cfg.transmissionLatency)
              case Happens(e) => MakersAt(s.ledger.fills, r.value.ledger.fills, Receipt(e))
              case _ => r.value.ledger == s.ledger
  {
    hide TakersOnly, MakersAt, Activate, TradeEach, DepleteEach, Expire, CancelEach, Equity, Decreases, TradeQueue,
         Applied, Installed, Sound, UpdateMid, Refresh, Cleared, StillResting, DropId;
    var p := Passive(s.ledger, s.desk.orders);
    match op
    case OrderArrives =>
      var arrival := NextOrderArrival(s, cfg);
      if s.requests != [] && arrival.Ok? && Expiry(arrival.value.value, s.requests[0].timeToLive).Ok? {
        var o := Order(s.requests[0], arrival.value.value, Expiry(arrival.value.value, s.requests[0].timeToLive).value,
                       Pending, 0, 0.0, "");
        ActivateTakes(s.(requests := s.requests[1..]), o, cfg);
      }
    case Happens(e) =>
      MakersStay(s.ledger.fills, Receipt(e));
      match e {
        case TradeEvent(trade) => TradeMakes(p, TradeQueue(s.desk, trade), trade, cfg);
        case DepthEvent(u) => DepleteMakes(p, s.desk.active, u.receipt as int, Decreases(s.venue.book, u), cfg);
        case _ =>
      }
    case _ =>
  }
}
