/**
 The execution simulator's entities and the value semantics of its operations. Quantities and
 prices are integers; cash, fees and queue positions are reals.
 */
module Simulation {
  import opened Results
  import opened Reals
  import opened L2Types
  import opened OrderBook
  import opened Listing
  import opened Sorting

  datatype Side = Buy | Sell

  datatype Instruction = Market | Limit(price: Price)

  datatype Status = Pending | Open | PartiallyFilled | Filled | Cancelled | Expired | Rejected

  datatype QueueModel = TradeOnly | ProRataDepth | OptimisticDepth

  datatype Request = Request(
    id: string, decision: PosU64, side: Side, instruction: Instruction, quantity: PosU64, timeToLive: Option<PosU64>)

  datatype CancelRequest = CancelRequest(id: string, decision: PosU64)

  datatype PendingCancel = PendingCancel(arrival: nat, request: CancelRequest)

  datatype Order = Order(
    request: Request, arrival: nat, expiry: Option<nat>, status: Status, filled: int, queueAhead: real, reason: string)

  datatype Fill = Fill(id: string, time: nat, side: Side, quantity: int, price: Price, maker: bool, fee: real)

  datatype Config = Config(
    decisionLatency: U64, transmissionLatency: U64, cancelLatency: U64,
    makerFeeBps: real, takerFeeBps: real, queueModel: QueueModel,
    queueAheadFraction: real, depletionFraction: real,
    maxPosition: U64, killLoss: Option<real>)

  datatype BookSideName = BidSide | AskSide

  datatype LevelKey = LevelKey(side: BookSideName, price: Price)

  type Shadow = map<LevelKey, int>

  datatype Ledger = Ledger(position: int, cash: real, fees: real, fills: seq<Fill>)

  /** All orders that reached an outcome or the venue, and the identifiers of those still active. */
  datatype Desk = Desk(orders: map<string, Order>, active: seq<string>)

  /**
   `refreshed` is a specification aid: how many fills existed when a level was last refreshed, with
   `cleared` the count when all levels were.
   */
  datatype Venue = Venue(
    book: Book, latestMid: Option<real>, consumed: Shadow, refreshed: map<LevelKey, nat>, cleared: nat)

  datatype Sim = Sim(
    venue: Venue, ledger: Ledger, desk: Desk, requests: seq<Request>, cancels: seq<PendingCancel>, killed: bool)

  datatype SimError = AlreadyRun | DuplicateOrder | TimestampOverflow | SequenceHole | UnsoundBook | EmptyBook

  const FRESH := Sim(Venue(EMPTY, None, map[], map[], 0), Ledger(0, 0.0, 0.0, []), Desk(map[], []), [], [], false)

  // ----- small rules

  function Sign(side: Side): int { if side.Buy? then 1 else -1 }

  function Remaining(o: Order): int { o.request.quantity - o.filled }

  predicate Resting(o: Order) { o.status.Open? || o.status.PartiallyFilled? }

  predicate PositionAllows(position: int, side: Side, quantity: int, cfg: Config) {
    var bound: int, projected: int := cfg.maxPosition as int, position + Sign(side) * quantity;
    -bound <= projected <= bound
  }

  function Notional(price: Price, quantity: int): real {
    (price as real / PRICE_SCALE as real) * (quantity as real / QUANTITY_SCALE as real)
  }

  function Fee(price: Price, quantity: int, maker: bool, cfg: Config): real {
    Notional(price, quantity) * (if maker then cfg.makerFeeBps else cfg.takerFeeBps) / 10000.0
  }

  function Displayed(book: Book, key: LevelKey): U64 {
    QuantityAt(if key.side.BidSide? then book.bids else book.asks, key.price)
  }

  function ConsumedAt(consumed: Shadow, key: LevelKey): int {
    if key in consumed then consumed[key] else 0
  }

  function Smaller(a: int, b: int): int { if a < b then a else b }

  function OrderArrival(r: Request, cfg: Config): Result<nat, SimError> {
    var arrival: int := r.decision as int + cfg.decisionLatency as int + cfg.transmissionLatency as int;
    if arrival > UINT64_MAX then Err(TimestampOverflow) else Ok(arrival)
  }

  function Expiry(arrival: nat, timeToLive: Option<PosU64>): Result<Option<nat>, SimError> {
    match timeToLive
    case None => Ok(None)
    case Some(ttl) =>
      if arrival + ttl as int > UINT64_MAX then Err(TimestampOverflow) else Ok(Some(arrival + ttl as int))
  }

  predicate Ready(arrival: int, time: nat, inclusive: bool) {
    arrival < time || (inclusive && arrival == time)
  }

  function RequestKey(): Request -> Key { (r: Request) => Key(r.decision, 0, r.id) }

  function CancelKey(): PendingCancel -> Key { (c: PendingCancel) => Key(c.arrival, 0, c.request.id) }

  /** Resting orders queue by arrival; the table of orders is read at the time of the sort. */
  function ArrivalKey(orders: map<string, Order>): string -> Key {
    (id: string) => Key(if id in orders then orders[id].arrival else 0, 0, id)
  }

  // ----- submitting

  predicate Known(s: Sim, id: string) {
    id in s.desk.orders || exists r | r in s.requests :: r.id == id
  }

  function Submit(s: Sim, r: Request): Result<Sim, SimError> {
    if Known(s, r.id) then Err(DuplicateOrder)
    else Ok(s.(requests := Sort(s.requests + [r], RequestKey())))
  }

  function SubmitCancel(s: Sim, c: CancelRequest, cfg: Config): Result<Sim, SimError> {
    var arrival: int := c.decision as int + cfg.cancelLatency as int;
    if arrival > UINT64_MAX then Err(TimestampOverflow)
    else Ok(s.(cancels := Sort(s.cancels + [PendingCancel(arrival, c)], CancelKey())))
  }

  // ----- fills

  /** The ledger together with the one order a fill concerns. */
  datatype Booking = Booking(ledger: Ledger, order: Order)

  /** Books one fill, or rejects the order when the position limit would be passed. */
  function RecordFill(b: Booking, time: nat, quantity: int, price: Price, maker: bool, cfg: Config): Booking {
    var o, l, side := b.order, b.ledger, b.order.request.side;
    if quantity <= 0 then b
    else if !PositionAllows(l.position, side, quantity, cfg) then
      b.(order := o.(status := Rejected, reason := "position_limit_during_partial_fill"))
    else
      var fee := Fee(price, quantity, maker, cfg);
      Booking(
        Ledger(l.position + Sign(side) * quantity,
               l.cash - Sign(side) as real * Notional(price, quantity) - fee,
               l.fees + fee,
               l.fills + [Fill(o.request.id, time, side, quantity, price, maker, fee)]),
        o.(filled := o.filled + quantity))
  }

  function BookSideOf(side: Side): BookSideName { if side.Buy? then AskSide else BidSide }

  /** The levels an aggressive order of this side walks, best price first. */
  function WalkLevels(book: Book, side: Side): seq<Level> {
    if side.Buy? then Listed(book.asks, false) else Listed(book.bids, true)
  }

  predicate BeyondLimit(side: Side, price: Price, limit: Option<Price>) {
    limit.Some? && (if side.Buy? then price > limit.value else price < limit.value)
  }

  function TakenKey(side: Side, level: Level): LevelKey { LevelKey(BookSideOf(side), level.price) }

  function Available(level: Level, side: Side, consumed: Shadow): int {
    var left: int := level.quantity as int - ConsumedAt(consumed, TakenKey(side, level));
    if left > 0 then left else 0
  }

  /** What a walk changes: the ledger, its order and the shadow of what was taken. */
  datatype Taking = Taking(booking: Booking, consumed: Shadow)

  /** One taker fill, with the taken quantity shadowed so that it cannot be taken again. */
  function TakeLevel(t: Taking, time: nat, level: Level, quantity: int, cfg: Config): Taking {
    var key := TakenKey(t.booking.order.request.side, level);
    Taking(RecordFill(t.booking, time, quantity, level.price, false, cfg),
           t.consumed[key := ConsumedAt(t.consumed, key) + quantity])
  }

  function Walk(t: Taking, time: nat, levels: seq<Level>, limit: Option<Price>, remaining: int, cfg: Config): Taking
    decreases levels
  {
    if levels == [] || remaining <= 0 then t
    else
      var level, side := levels[0], t.booking.order.request.side;
      if BeyondLimit(side, level.price, limit) then t
      else
        var quantity := Smaller(remaining, Available(level, side, t.consumed));
        if quantity <= 0 then Walk(t, time, levels[1..], limit, remaining, cfg)
        else Walk(TakeLevel(t, time, level, quantity, cfg), time, levels[1..], limit, remaining - quantity, cfg)
  }

  function TakerOutcome(o: Order): Order {
    if Remaining(o) == 0 then o.(status := Filled)
    else o.(status := if o.filled > 0 then PartiallyFilled else Rejected, reason := "insufficient_visible_depth")
  }

  function ExecuteTaker(s: Sim, o: Order, time: nat, limit: Option<Price>, cfg: Config): Sim {
    var w := Walk(Taking(Booking(s.ledger, o), s.venue.consumed), time, WalkLevels(s.venue.book, o.request.side),
                  limit, Remaining(o), cfg);
    Store(s.(ledger := w.booking.ledger, venue := s.venue.(consumed := w.consumed)), TakerOutcome(w.booking.order))
  }

  function Store(s: Sim, o: Order): Sim {
    s.(desk := s.desk.(orders := s.desk.orders[o.request.id := o]))
  }

  // ----- orders reaching the venue

  function OwnQueue(orders: map<string, Order>, ids: seq<string>, side: Side, price: Price): int {
    if ids == [] then 0
    else
      OwnQueue(orders, ids[..|ids| - 1], side, price) +
      var id := ids[|ids| - 1];
      if id in orders && orders[id].request.side == side
         && orders[id].request.instruction == Limit(price) && Resting(orders[id])
      then Remaining(orders[id]) else 0
  }

  predicate Marketable(book: Book, side: Side, price: Price)
    requires book.bids != map[] && book.asks != map[]
  {
    if side.Buy? then price >= MinPrice(book.asks) else price <= MaxPrice(book.bids)
  }

  function Refused(s: Sim, o: Order, reason: string): Sim {
    Store(s, o.(status := Rejected, reason := reason))
  }

  function ActivateNext(s: Sim, arrival: nat, cfg: Config): Result<Sim, SimError>
    requires s.requests != []
  {
    var r := s.requests[0];
    match Expiry(arrival, r.timeToLive)
    case Err(e) => Err(e)
    case Ok(expiry) =>
      Activate(s.(requests := s.requests[1..]), Order(r, arrival, expiry, Pending, 0, 0.0, ""), cfg)
  }

  function Activate(s: Sim, o: Order, cfg: Config): Result<Sim, SimError> {
    var book := s.venue.book;
    if s.killed then Ok(Refused(s, o, "kill_switch_active"))
    else if !PositionAllows(s.ledger.position, o.request.side, o.request.quantity, cfg) then
      Ok(Refused(s, o, "position_limit"))
    else if book.lastUpdateId == 0 then Ok(Refused(s, o, "book_unavailable"))
    else
      match o.request.instruction
      case Market => Ok(ExecuteTaker(s, o, o.arrival, None, cfg))
      case Limit(price) =>
        if book.bids == map[] || book.asks == map[] then Err(EmptyBook)
        else if Marketable(book, o.request.side, price) then Ok(ExecuteTaker(s, o, o.arrival, Some(price), cfg))
        else Ok(Rest(s, o, price, cfg))
  }

  function QueueAhead(displayed: int, own: int, cfg: Config): real {
    displayed as real * cfg.queueAheadFraction + own as real
  }

  /** A passive order queues behind a share of the displayed quantity and behind its own side's orders. */
  function Rest(s: Sim, o: Order, price: Price, cfg: Config): Sim {
    var displayed: int := Displayed(s.venue.book, LevelKey(if o.request.side.Buy? then BidSide else AskSide, price)) as int;
    var own := OwnQueue(s.desk.orders, s.desk.active, o.request.side, price);
    var ahead := QueueAhead(displayed, own, cfg);
    var stored := Store(s, o.(queueAhead := ahead, status := Open));
    stored.(desk := stored.desk.(active := s.desk.active + [o.request.id]))
  }

  // ----- leaving the book

  /** All other identifiers. */
  function DropId(ids: seq<string>, id: string): seq<string> {
    if ids == [] then [] else (if ids[0] == id then [] else [ids[0]]) + DropId(ids[1..], id)
  }

  /** Removes the first occurrence. */
  function RemoveFirst(ids: seq<string>, id: string): seq<string> {
    if ids == [] then [] else if ids[0] == id then ids[1..] else [ids[0]] + RemoveFirst(ids[1..], id)
  }

  predicate Due(o: Order, time: nat, final: bool) {
    final || (o.expiry.Some? && o.expiry.value <= time)
  }

  function ExpireOne(d: Desk, id: string, time: nat, final: bool): Desk {
    if id in d.orders && Due(d.orders[id], time, final) then
      Desk(d.orders[id := d.orders[id].(status := Expired)], RemoveFirst(d.active, id))
    else d
  }

  function Expire(d: Desk, ids: seq<string>, time: nat, final: bool): Desk
    decreases ids
  {
    if ids == [] then d else Expire(ExpireOne(d, ids[0], time, final), ids[1..], time, final)
  }

  function WithExpiries(s: Sim, time: nat, final: bool): Sim {
    s.(desk := Expire(s.desk, s.desk.active, time, final))
  }

  function CancelOne(orders: map<string, Order>, id: string, reason: string): map<string, Order> {
    if id in orders && Resting(orders[id]) then
      orders[id := orders[id].(status := Cancelled, reason := reason)]
    else orders
  }

  function CancelEach(orders: map<string, Order>, ids: seq<string>, reason: string): map<string, Order>
    decreases ids
  {
    if ids == [] then orders else CancelEach(CancelOne(orders, ids[0], reason), ids[1..], reason)
  }

  function CancelAll(d: Desk, reason: string): Desk {
    Desk(CancelEach(d.orders, d.active, reason), [])
  }

  function IndexOf(requests: seq<Request>, id: string): (i: Option<nat>)
    ensures i.Some? ==> i.value < |requests| && requests[i.value].id == id
    ensures i.None? ==> forall r | r in requests :: r.id != id
  {
    if requests == [] then None
    else if requests[0].id == id then Some(0)
    else match IndexOf(requests[1..], id) case Some(k) => Some(k + 1) case None => None
  }

  function ProcessNextCancel(s: Sim, cfg: Config): Result<Sim, SimError>
    requires s.cancels != []
  {
    var id, d := s.cancels[0].request.id, s.desk;
    var popped := s.(cancels := s.cancels[1..]);
    if id in d.orders && Resting(d.orders[id]) then
      Ok(popped.(desk := Desk(d.orders[id := d.orders[id].(status := Cancelled)], DropId(d.active, id))))
    else
      match IndexOf(s.requests, id)
      case None => Ok(popped)
      case Some(i) =>
        match NeverArrived(s.requests[i], Cancelled, "cancel_arrived_before_order", cfg)
        case Err(e) => Err(e)
        case Ok(o) => Ok(Store(popped.(requests := s.requests[..i] + s.requests[i + 1..]), o))
  }

  /** The record of a request that ends before it reaches the venue. */
  function NeverArrived(r: Request, status: Status, reason: string, cfg: Config): Result<Order, SimError> {
    match OrderArrival(r, cfg)
    case Err(e) => Err(e)
    case Ok(arrival) =>
      match Expiry(arrival, r.timeToLive)
      case Err(e) => Err(e)
      case Ok(expiry) => Ok(Order(r, arrival, expiry, status, 0, 0.0, reason))
  }

  function ExpirePending(orders: map<string, Order>, requests: seq<Request>, cfg: Config): Result<map<string, Order>, SimError>
    decreases requests
  {
    if requests == [] then Ok(orders)
    else
      match NeverArrived(requests[0], Expired, "recording_ended_before_arrival", cfg)
      case Err(e) => Err(e)
      case Ok(o) => ExpirePending(orders[requests[0].id := o], requests[1..], cfg)
  }

  // ----- risk

  function Equity(s: Sim): real {
    s.ledger.cash +
    if s.venue.latestMid.Some? then s.ledger.position as real / QUANTITY_SCALE as real * s.venue.latestMid.value else 0.0
  }

  function CheckKillSwitch(s: Sim, cfg: Config): Sim {
    if s.killed || cfg.killLoss == None || Equity(s) > -cfg.killLoss.value then s
    else s.(killed := true, desk := CancelAll(s.desk, "kill_switch"))
  }

  // ----- the control timeline

  function NextCancelArrival(s: Sim): Option<nat> {
    if s.cancels == [] then None else Some(s.cancels[0].arrival)
  }

  function NextOrderArrival(s: Sim, cfg: Config): Result<Option<nat>, SimError> {
    if s.requests == [] then Ok(None)
    else match OrderArrival(s.requests[0], cfg) case Err(e) => Err(e) case Ok(a) => Ok(Some(a))
  }

  function Earlier(a: Option<nat>, b: Option<nat>): Option<nat> {
    if a == None then b else if b == None then a else if a.value <= b.value then a else b
  }

  /** One control: expiries at its arrival, then the order (ties go to it) or the cancel. */
  function ProcessOneControl(s: Sim, orderArrival: Option<nat>, arrival: nat, cfg: Config): Result<Sim, SimError>
    requires orderArrival.Some? ==> s.requests != []
    requires orderArrival != Some(arrival) ==> s.cancels != []
  {
    var e := WithExpiries(s, arrival, false);
    if orderArrival == Some(arrival) then
      match ActivateNext(e, arrival, cfg)
      case Err(x) => Err(x)
      case Ok(a) => Ok(CheckKillSwitch(a, cfg))
    else ProcessNextCancel(e, cfg)
  }

  /** Each control shortens what is still to come. */
  lemma OneControlShrinks(s: Sim, orderArrival: Option<nat>, arrival: nat, cfg: Config)
    requires orderArrival.Some? ==> s.requests != []
    requires orderArrival != Some(arrival) ==> s.cancels != []
    ensures var r := ProcessOneControl(s, orderArrival, arrival, cfg);
            r.Ok? ==> |r.value.requests| + |r.value.cancels| < |s.requests| + |s.cancels|
  {
    hide Walk, Listed, OwnQueue, CancelEach, Expire, RecordFill, Marketable, Equity;
  }

  function ProcessControls(s: Sim, time: nat, inclusive: bool, cfg: Config): Result<Sim, SimError>
    decreases |s.requests| + |s.cancels|
  {
    match NextOrderArrival(s, cfg)
    case Err(e) => Err(e)
    case Ok(orderArrival) =>
      var next := Earlier(orderArrival, NextCancelArrival(s));
      if next == None || !Ready(next.value, time, inclusive) then Ok(s)
      else
        OneControlShrinks(s, orderArrival, next.value, cfg);
        match ProcessOneControl(s, orderArrival, next.value, cfg)
        case Err(e) => Err(e)
        case Ok(after) => ProcessControls(after, time, inclusive, cfg)
  }

  // ----- passive fills

  predicate Eligible(orders: map<string, Order>, id: string, aggressor: Side, price: Price) {
    && id in orders && Resting(orders[id]) && orders[id].request.side != aggressor
    && orders[id].request.instruction == Limit(price)
  }

  function EligibleIds(orders: map<string, Order>, ids: seq<string>, aggressor: Side, price: Price): seq<string> {
    if ids == [] then []
    else EligibleIds(orders, ids[..|ids| - 1], aggressor, price) +
         if Eligible(orders, ids[|ids| - 1], aggressor, price) then [ids[|ids| - 1]] else []
  }

  /** A maker fill; the status is set afterwards whatever became of the fill. */
  function MakerFill(b: Booking, time: nat, quantity: int, price: Price, cfg: Config): Booking {
    if quantity <= 0 then b
    else
      var f := RecordFill(b, time, quantity, price, true, cfg);
      f.(order := f.order.(status := if Remaining(f.order) == 0 then Filled else PartiallyFilled))
  }

  /** One trade reaches one resting order: its queue position moves up, the excess fills it. */
  function TradeOne(b: Booking, trade: Trade, cfg: Config): Booking {
    var size, ahead := trade.quantity as real, b.order.queueAhead;
    MakerFill(b.(order := b.order.(queueAhead := MaxZero(ahead - size))), trade.receipt as int,
              Smaller(Remaining(b.order), MaxZero(size - ahead).Floor), trade.price, cfg)
  }

  /** The ledger and the orders, which a passive event changes together. */
  datatype Passive = Passive(ledger: Ledger, orders: map<string, Order>)

  function Put(p: Passive, id: string, b: Booking): Passive {
    Passive(b.ledger, p.orders[id := b.order])
  }

  function TradeStep(p: Passive, id: string, trade: Trade, cfg: Config): Passive {
    if id in p.orders then Put(p, id, TradeOne(Booking(p.ledger, p.orders[id]), trade, cfg)) else p
  }

  function TradeEach(p: Passive, ids: seq<string>, trade: Trade, cfg: Config): Passive
    decreases ids
  {
    if ids == [] then p else TradeEach(TradeStep(p, ids[0], trade, cfg), ids[1..], trade, cfg)
  }

  function StillResting(orders: map<string, Order>, ids: seq<string>): seq<string> {
    if ids == [] then []
    else StillResting(orders, ids[..|ids| - 1]) +
         if ids[|ids| - 1] in orders && Resting(orders[ids[|ids| - 1]]) then [ids[|ids| - 1]] else []
  }

  function Settled(s: Sim, p: Passive): Sim {
    s.(ledger := p.ledger, desk := Desk(p.orders, StillResting(p.orders, s.desk.active)))
  }

  function TradeQueue(d: Desk, trade: Trade): seq<string> {
    Sort(EligibleIds(d.orders, d.active, if trade.buyerIsMaker then Sell else Buy, trade.price), ArrivalKey(d.orders))
  }

  function ProcessTrade(s: Sim, trade: Trade, cfg: Config): Sim {
    if s.desk.active == [] then s
    else Settled(s, TradeEach(Passive(s.ledger, s.desk.orders), TradeQueue(s.desk, trade), trade, cfg))
  }

  function SideDecreases(book: Book, side: BookSideName, levels: seq<Level>, found: Shadow): Shadow
    decreases levels
  {
    if levels == [] then found
    else
      var key := LevelKey(side, levels[0].price);
      var was: int, now: int := Displayed(book, key) as int, levels[0].quantity as int;
      SideDecreases(book, side, levels[1..], if now < was then found[key := was - now] else found)
  }

  function Decreases(book: Book, u: DepthUpdate): Shadow {
    SideDecreases(book, AskSide, u.asks, SideDecreases(book, BidSide, u.bids, map[]))
  }

  function DepletionFraction(cfg: Config): real {
    if cfg.queueModel.OptimisticDepth? then 1.0 else cfg.depletionFraction
  }

  function RestingKey(o: Order): Option<LevelKey> {
    match o.request.instruction
    case Market => None
    case Limit(price) => Some(LevelKey(if o.request.side.Buy? then BidSide else AskSide, price))
  }

  function DepleteOne(b: Booking, time: nat, depletion: real, price: Price, cfg: Config): Booking {
    var ahead := b.order.queueAhead;
    if depletion <= 0.0 then b
    else
      var reduction := if ahead < depletion then ahead else depletion;
      MakerFill(b.(order := b.order.(queueAhead := ahead - reduction)), time,
                Smaller(Remaining(b.order), (depletion - reduction).Floor), price, cfg)
  }

  /** The decrease at an order's own level reaches that order. */
  function DepleteStep(p: Passive, id: string, time: nat, found: Shadow, cfg: Config): Passive {
    if id in p.orders && RestingKey(p.orders[id]).Some? then
      var key := RestingKey(p.orders[id]).value;
      Put(p, id, DepleteOne(Booking(p.ledger, p.orders[id]), time, Depletion(found, key, cfg), key.price, cfg))
    else p
  }

  function Depletion(found: Shadow, key: LevelKey, cfg: Config): real {
    ConsumedAt(found, key) as real * DepletionFraction(cfg)
  }

  function DepleteEach(p: Passive, ids: seq<string>, time: nat, found: Shadow, cfg: Config): Passive
    decreases ids
  {
    if ids == [] then p else DepleteEach(DepleteStep(p, ids[0], time, found, cfg), ids[1..], time, found, cfg)
  }

  function ProcessDepletion(s: Sim, u: DepthUpdate, cfg: Config): Sim {
    if cfg.queueModel.TradeOnly? || s.venue.book.lastUpdateId == 0 then s
    else
      Settled(s, DepleteEach(Passive(s.ledger, s.desk.orders), s.desk.active, u.receipt as int,
                             Decreases(s.venue.book, u), cfg))
  }

  // ----- market events

  function DropKeys(consumed: Shadow, side: BookSideName, levels: seq<Level>): Shadow
    decreases levels
  {
    if levels == [] then consumed else DropKeys(consumed - {LevelKey(side, levels[0].price)}, side, levels[1..])
  }

  function MarkKeys(marks: map<LevelKey, nat>, side: BookSideName, levels: seq<Level>, count: nat): map<LevelKey, nat>
    decreases levels
  {
    if levels == [] then marks else MarkKeys(marks[LevelKey(side, levels[0].price) := count], side, levels[1..], count)
  }

  /** Only a level the update lists can be taken from again. */
  function Refresh(v: Venue, u: DepthUpdate, count: nat): Venue {
    v.(consumed := DropKeys(DropKeys(v.consumed, BidSide, u.bids), AskSide, u.asks),
       refreshed := MarkKeys(MarkKeys(v.refreshed, BidSide, u.bids, count), AskSide, u.asks, count))
  }

  function Cleared(v: Venue, count: nat): Venue {
    v.(consumed := map[], refreshed := map[], cleared := count)
  }

  function UpdateMid(v: Venue): Result<Venue, SimError> {
    if v.book.lastUpdateId == 0 then Ok(v)
    else if v.book.bids == map[] || v.book.asks == map[] then Err(EmptyBook)
    else
      var sum: int := MaxPrice(v.book.bids) as int + MinPrice(v.book.asks) as int;
      Ok(v.(latestMid := Some(sum as real / (2 * PRICE_SCALE) as real)))
  }

  function WithVenue(s: Sim, v: Result<Venue, SimError>): Result<Sim, SimError> {
    match v case Err(e) => Err(e) case Ok(venue) => Ok(s.(venue := venue))
  }

  function MarketEvent(s: Sim, e: Event, cfg: Config): Result<Sim, SimError> {
    match e
    case BoundaryEvent(_, _) =>
      Ok(s.(desk := CancelAll(s.desk, "market_data_boundary"),
            venue := Cleared(s.venue, |s.ledger.fills|).(book := EMPTY, latestMid := None)))
    case SnapshotEvent(snapshot) =>
      if !Sound(Installed(snapshot)) then Err(UnsoundBook)
      else WithVenue(s, UpdateMid(Cleared(s.venue, |s.ledger.fills|).(book := Installed(snapshot))))
    case DepthEvent(u) =>
      if u.finalUpdateId <= s.venue.book.lastUpdateId then Ok(s)
      else if u.firstUpdateId > s.venue.book.lastUpdateId + 1 then Err(SequenceHole)
      else
        var d := ProcessDepletion(s, u, cfg);
        var book := Applied(d.venue.book, u);
        if !Sound(book) then Err(UnsoundBook)
        else WithVenue(d, UpdateMid(Refresh(d.venue, u, |d.ledger.fills|).(book := book)))
    case TradeEvent(t) => Ok(ProcessTrade(s, t, cfg))
  }

  function Receipt(e: Event): nat {
    match e
    case SnapshotEvent(x) => x.receipt
    case DepthEvent(x) => x.receipt
    case TradeEvent(x) => x.receipt
    case BoundaryEvent(receipt, _) => receipt
  }

  function BeforeEvent(s: Sim, time: nat, cfg: Config): Result<Sim, SimError> {
    match ProcessControls(s, time, false, cfg)
    case Err(e) => Err(e)
    case Ok(c) => Ok(WithExpiries(c, time, false))
  }

  function AfterEvent(s: Sim, time: nat, cfg: Config): Result<Sim, SimError> {
    match ProcessControls(s, time, true, cfg)
    case Err(e) => Err(e)
    case Ok(c) => Ok(CheckKillSwitch(WithExpiries(c, time, false), cfg))
  }

  function HandleEvent(s: Sim, e: Event, cfg: Config): Result<Sim, SimError> {
    match BeforeEvent(s, Receipt(e), cfg)
    case Err(x) => Err(x)
    case Ok(before) =>
      match MarketEvent(before, e, cfg)
      case Err(x) => Err(x)
      case Ok(moved) => AfterEvent(moved, Receipt(e), cfg)
  }

  function HandleAll(s: Sim, events: seq<Event>, cfg: Config): Result<Sim, SimError>
    decreases events
  {
    if events == [] then Ok(s)
    else
      match HandleEvent(s, events[0], cfg)
      case Err(e) => Err(e)
      case Ok(next) => HandleAll(next, events[1..], cfg)
  }

  /** The end of the recording expires what still rests and what never arrived. */
  function Finish(s: Sim, cfg: Config): Result<Sim, SimError> {
    var x := WithExpiries(s, UINT64_MAX, true);
    match ExpirePending(x.desk.orders, x.requests, cfg)
    case Err(e) => Err(e)
    case Ok(orders) => Ok(x.(desk := x.desk.(orders := orders), requests := []))
  }

  function Simulate(s: Sim, events: seq<Event>, cfg: Config): Result<Sim, SimError> {
    match HandleAll(s, events, cfg)
    case Err(e) => Err(e)
    case Ok(h) => Finish(h, cfg)
  }
}
