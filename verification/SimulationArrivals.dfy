/**
 How orders and cancels arrive: when, with which expiry, and whether an order is refused, comes to
 rest or takes. The conditions are written out over the state and the request.
 */
module SimulationArrivals {
  import opened Reals
  import opened Results
  import opened L2Types
  import opened OrderBook
  import Listing
  import opened Sorting
  import opened Simulation
  import opened SimulationLiquidity
  import opened SimulationLifecycle
  import opened SimulationRuns
  import opened SimulationTaker
  import opened SimulationQueue
  import opened SimulationQueueRuns
  import opened SimulationQueueRecordings

  // ----- scheduling

  /** A submitted order joins the pending ones, once, unless its identifier is known. */
  lemma SubmitIs(s: Sim, r: Request)
    ensures var known := r.id in s.desk.orders || exists q :: q in s.requests && q.id == r.id;
            && (Submit(s, r).Err? <==> known)
            && (!known ==>
                  var n := Submit(s, r).value;
                  n == s.(requests := n.requests) && multiset(n.requests) == multiset(s.requests) + multiset{r})
  {
    hide Sort, SortedBy;
    SortSorts(s.requests + [r], RequestKey());
  }

  /** A cancel arrives its latency after the decision, or raises when that passes 64 bits. */
  lemma SubmitCancelIs(s: Sim, c: CancelRequest, cfg: Config)
    ensures var arrival := c.decision + cfg.cancelLatency;
            && (SubmitCancel(s, c, cfg).Err? <==> arrival > UINT64_MAX)
            && (arrival <= UINT64_MAX ==>
                  var n := SubmitCancel(s, c, cfg).value;
                  && n == s.(cancels := n.cancels)
                  && multiset(n.cancels) == multiset(s.cancels) + multiset{PendingCancel(arrival, c)})
  {
    hide Sort, SortedBy;
    SortSorts(s.cancels + [PendingCancel(c.decision as int + cfg.cancelLatency as int, c)], CancelKey());
  }

  // ----- times

  /** The order reached the venue its latencies after the decision and lives for its time to live from then. */
  predicate Timed(o: Order, cfg: Config) {
    && o.arrival == o.request.decision + cfg.decisionLatency + cfg.transmissionLatency
    && (o.request.timeToLive.None? <==> o.expiry.None?)
    && (o.expiry.Some? ==> o.expiry.value == o.arrival + o.request.timeToLive.value)
  }

  ghost predicate AllTimed(orders: map<string, Order>, cfg: Config) {
    forall id | id in orders :: Timed(orders[id], cfg)
  }

  ghost predicate OnTime(s: Sim, cfg: Config) {
    && AllTimed(s.desk.orders, cfg)
    && forall c | c in s.cancels :: c.arrival == c.request.decision + cfg.cancelLatency
  }

  predicate SameTimes(a: Order, b: Order) {
    b.request == a.request && b.arrival == a.arrival && b.expiry == a.expiry
  }

  lemma TimedStays(a: Order, b: Order, cfg: Config)
    requires Timed(a, cfg) && SameTimes(a, b)
    ensures Timed(b, cfg)
  {
  }

  lemma PutTimed(orders: map<string, Order>, id: string, o: Order, cfg: Config)
    requires AllTimed(orders, cfg) && Timed(o, cfg)
    ensures AllTimed(orders[id := o], cfg)
  {
    hide Timed;
  }

  lemma TimedAt(orders: map<string, Order>, id: string, cfg: Config)
    requires AllTimed(orders, cfg) && id in orders
    ensures Timed(orders[id], cfg)
  {
  }

  lemma {:induction false} ExpireTimed(d: Desk, ids: seq<string>, time: nat, final: bool, cfg: Config)
    requires AllTimed(d.orders, cfg)
    ensures AllTimed(Expire(d, ids, time, final).orders, cfg)
    decreases ids
  {
    hide AllTimed, RemoveFirst;
    if ids != [] {
      if ids[0] in d.orders {
        TimedAt(d.orders, ids[0], cfg);
        PutTimed(d.orders, ids[0], d.orders[ids[0]].(status := Expired), cfg);
      }
      ExpireTimed(ExpireOne(d, ids[0], time, final), ids[1..], time, final, cfg);
    }
  }

  lemma {:induction false} CancelEachTimed(orders: map<string, Order>, ids: seq<string>, reason: string, cfg: Config)
    requires AllTimed(orders, cfg)
    ensures AllTimed(CancelEach(orders, ids, reason), cfg)
    decreases ids
  {
    hide AllTimed;
    if ids != [] {
      if ids[0] in orders {
        TimedAt(orders, ids[0], cfg);
        PutTimed(orders, ids[0], orders[ids[0]].(status := Cancelled, reason := reason), cfg);
      }
      CancelEachTimed(CancelOne(orders, ids[0], reason), ids[1..], reason, cfg);
    }
  }

  lemma RecordFillTimes(b: Booking, time: nat, quantity: int, price: Price, maker: bool, cfg: Config)
    ensures SameTimes(b.order, RecordFill(b, time, quantity, price, maker, cfg).order)
    ensures SameTimes(b.order, MakerFill(b, time, quantity, price, cfg).order)
  {
    hide Fee, Notional, PositionAllows;
  }

  lemma {:induction false} WalkTimes(
    t: Taking, time: nat, levels: seq<Level>, limit: Option<Price>, remaining: int, cfg: Config)
    ensures SameTimes(t.booking.order, Walk(t, time, levels, limit, remaining, cfg).booking.order)
    decreases levels
  {
    hide BeyondLimit, Available, RecordFill;
    if levels != [] && remaining > 0 {
      var level, side := levels[0], t.booking.order.request.side;
      var quantity := Smaller(remaining, Available(level, side, t.consumed));
      RecordFillTimes(t.booking, time, quantity, level.price, false, cfg);
      WalkTimes(t, time, levels[1..], limit, remaining, cfg);
      WalkTimes(TakeLevel(t, time, level, quantity, cfg), time, levels[1..], limit, remaining - quantity, cfg);
    }
  }

  lemma FlowStepTimed(p: Passive, id: string, f: Flow, cfg: Config)
    requires AllTimed(p.orders, cfg)
    ensures AllTimed(FlowStep(p, id, f, cfg).orders, cfg)
  {
    hide AllTimed, MakerFill, MaxZero, Depletion, Timed;
    if id in p.orders {
      TimedAt(p.orders, id, cfg);
      var b := Booking(p.ledger, p.orders[id]);
      match f
      case Traded(trade) =>
        var size, ahead := trade.quantity as real, b.order.queueAhead;
        RecordFillTimes(b.(order := b.order.(queueAhead := MaxZero(ahead - size))), trade.receipt as int,
                        Smaller(Remaining(b.order), MaxZero(size - ahead).Floor), trade.price, true, cfg);
        TimedStays(b.order, TradeOne(b, trade, cfg).order, cfg);
        PutTimed(p.orders, id, TradeOne(b, trade, cfg).order, cfg);
      case Decreased(time, found) =>
        if RestingKey(b.order).Some? {
          var key := RestingKey(b.order).value;
          var depletion := Depletion(found, key, cfg);
          DepleteTimes(b, time, depletion, key.price, cfg);
          TimedStays(b.order, DepleteOne(b, time, depletion, key.price, cfg).order, cfg);
          PutTimed(p.orders, id, DepleteOne(b, time, depletion, key.price, cfg).order, cfg);
        }
    }
  }

  lemma DepleteTimes(b: Booking, time: nat, depletion: real, price: Price, cfg: Config)
    ensures SameTimes(b.order, DepleteOne(b, time, depletion, price, cfg).order)
  {
    hide MakerFill;
    var ahead := b.order.queueAhead;
    var reduction := if ahead < depletion then ahead else depletion;
    RecordFillTimes(b.(order := b.order.(queueAhead := ahead - reduction)), time,
                    Smaller(Remaining(b.order), (depletion - reduction).Floor), price, true, cfg);
  }

  lemma {:induction false} FlowTimed(p: Passive, ids: seq<string>, f: Flow, cfg: Config)
    requires AllTimed(p.orders, cfg)
    ensures AllTimed(FlowEach(p, ids, f, cfg).orders, cfg)
    decreases ids
  {
    hide AllTimed, FlowStep, FlowEach;
    FlowEachUnfolds(p, ids, f, cfg);
    if ids != [] {
      FlowStepTimed(p, ids[0], f, cfg);
      FlowTimed(FlowStep(p, ids[0], f, cfg), ids[1..], f, cfg);
    }
  }

  lemma ActivateTimed(s: Sim, o: Order, cfg: Config)
    requires AllTimed(s.desk.orders, cfg) && Timed(o, cfg)
    ensures var r := Activate(s, o, cfg);
            r.Ok? ==> AllTimed(r.value.desk.orders, cfg) && r.value.cancels == s.cancels
  {
    hide AllTimed, Timed, Walk, WalkLevels, OwnQueue, Marketable, PositionAllows, QueueAhead, Displayed;
    var r, id := Activate(s, o, cfg), o.request.id;
    if r.Ok? {
      var t, levels := Taking(Booking(s.ledger, o), s.venue.consumed), WalkLevels(s.venue.book, o.request.side);
      WalkTimes(t, o.arrival, levels, None, Remaining(o), cfg);
      if o.request.instruction.Limit? {
        WalkTimes(t, o.arrival, levels, Some(o.request.instruction.price), Remaining(o), cfg);
      }
      var kept := r.value.desk.orders[id];
      assert SameTimes(o, kept);
      TimedStays(o, kept, cfg);
      PutTimed(s.desk.orders, id, kept, cfg);
    }
  }

  lemma NeverArrivedTimed(r: Request, status: Status, reason: string, cfg: Config)
    ensures NeverArrived(r, status, reason, cfg).Ok? ==> Timed(NeverArrived(r, status, reason, cfg).value, cfg)
  {
  }

  lemma CancelTimed(s: Sim, cfg: Config)
    requires OnTime(s, cfg) && s.cancels != []
    ensures var r := ProcessNextCancel(s, cfg); r.Ok? ==> OnTime(r.value, cfg)
  {
    hide AllTimed, DropId, NeverArrived;
    var id := s.cancels[0].request.id;
    if id in s.desk.orders {
      TimedAt(s.desk.orders, id, cfg);
      PutTimed(s.desk.orders, id, s.desk.orders[id].(status := Cancelled), cfg);
    }
    var i := IndexOf(s.requests, id);
    if i.Some? {
      var gone := NeverArrived(s.requests[i.value], Cancelled, "cancel_arrived_before_order", cfg);
      NeverArrivedTimed(s.requests[i.value], Cancelled, "cancel_arrived_before_order", cfg);
      if gone.Ok? {
        PutTimed(s.desk.orders, gone.value.request.id, gone.value, cfg);
      }
    }
  }

  lemma EventTimed(s: Sim, e: Event, cfg: Config)
    requires OnTime(s, cfg)
    ensures var r := MarketEvent(s, e, cfg); r.Ok? ==> OnTime(r.value, cfg)
  {
    hide AllTimed, CancelEach, TradeEach, DepleteEach, TradeQueue, Decreases, Refresh, Cleared, Applied, Installed, Sound,
         UpdateMid, StillResting;
    var p := Passive(s.ledger, s.desk.orders);
    match e
    case BoundaryEvent(_, _) => CancelEachTimed(s.desk.orders, s.desk.active, "market_data_boundary", cfg);
    case SnapshotEvent(_) =>
    case DepthEvent(u) => FlowTimed(p, s.desk.active, Decreased(u.receipt as int, Decreases(s.venue.book, u)), cfg);
    case TradeEvent(trade) => FlowTimed(p, TradeQueue(s.desk, trade), Traded(trade), cfg);
  }

  lemma OrderTimed(s: Sim, cfg: Config)
    requires OnTime(s, cfg)
    ensures var r := Operate(s, OrderArrives, cfg); r.Ok? ==> OnTime(r.value, cfg)
  {
    hide AllTimed, Activate;
    var arrival := NextOrderArrival(s, cfg);
    if s.requests != [] && arrival.Ok? {
      var expiry := Expiry(arrival.value.value, s.requests[0].timeToLive);
      if expiry.Ok? {
        var o := Order(s.requests[0], arrival.value.value, expiry.value, Pending, 0, 0.0, "");
        assert Timed(o, cfg);
        ActivateTimed(s.(requests := s.requests[1..]), o, cfg);
      }
    }
  }

  /** Whatever happens, every order keeps its times, and they are the ones its request asks for. */
  lemma OperateOnTime(s: Sim, op: Operation, cfg: Config)
    requires OnTime(s, cfg)
    ensures var r := Operate(s, op, cfg); r.Ok? ==> OnTime(r.value, cfg)
  {
    hide AllTimed, Expire, CancelEach, Equity, ActivateNext, ProcessNextCancel, MarketEvent;
    match op
    case Clock(time) => ExpireTimed(s.desk, s.desk.active, time, false, cfg);
    case OrderArrives => OrderTimed(s, cfg);
    case CancelArrives => if s.cancels != [] { CancelTimed(s, cfg); }
    case Happens(e) => EventTimed(s, e, cfg);
    case RiskCheck => CancelEachTimed(s.desk.orders, s.desk.active, "kill_switch", cfg);
  }

  lemma {:induction false} PerformOnTime(s: Sim, ops: seq<Operation>, cfg: Config)
    requires OnTime(s, cfg)
    ensures Perform(s, ops, cfg).Ok? ==> OnTime(Perform(s, ops, cfg).value, cfg)
    decreases ops
  {
    hide OnTime, Operate;
    if ops != [] {
      OperateOnTime(s, ops[0], cfg);
      if Operate(s, ops[0], cfg).Ok? {
        PerformOnTime(Operate(s, ops[0], cfg).value, ops[1..], cfg);
      }
    }
  }

  lemma {:induction false} PendingTimed(orders: map<string, Order>, requests: seq<Request>, cfg: Config)
    requires AllTimed(orders, cfg)
    ensures var r := ExpirePending(orders, requests, cfg); r.Ok? ==> AllTimed(r.value, cfg)
    decreases requests
  {
    hide AllTimed, NeverArrived;
    if requests != [] {
      var one := NeverArrived(requests[0], Expired, "recording_ended_before_arrival", cfg);
      NeverArrivedTimed(requests[0], Expired, "recording_ended_before_arrival", cfg);
      if one.Ok? {
        PutTimed(orders, requests[0].id, one.value, cfg);
        PendingTimed(orders[requests[0].id := one.value], requests[1..], cfg);
      }
    }
  }

  /**
   At the end of every simulation each order, whatever became of it, is on record with the arrival
   its latencies give and the expiry its time to live gives.
   */
  lemma SimulationOnTime(s: Sim, events: seq<Event>, cfg: Config)
    requires OnTime(s, cfg)
    ensures var r := Simulate(s, events, cfg);
            r.Ok? ==> forall id | id in r.value.desk.orders :: Timed(r.value.desk.orders[id], cfg)
  {
    hide OnTime, HandleAll, Perform, RecordingOps, Timed;
    RecordingPerforms(s, events, cfg);
    PerformOnTime(s, RecordingOps(s, events, cfg), cfg);
    var h := HandleAll(s, events, cfg);
    if h.Ok? {
      FinishOnTime(h.value, cfg);
    }
  }

  lemma FinishOnTime(s: Sim, cfg: Config)
    requires OnTime(s, cfg)
    ensures Finish(s, cfg).Ok? ==> AllTimed(Finish(s, cfg).value.desk.orders, cfg)
  {
    hide AllTimed, Expire;
    ExpireTimed(s.desk, s.desk.active, UINT64_MAX, true, cfg);
    var x := WithExpiries(s, UINT64_MAX, true);
    PendingTimed(x.desk.orders, x.requests, cfg);
  }

  // ----- refused, resting or taking

  /** The position after the whole order would be past the limit on its own side. */
  predicate PastLimit(s: Sim, r: Request, cfg: Config) {
    if r.side.Buy? then s.ledger.position + r.quantity > cfg.maxPosition
    else s.ledger.position - r.quantity < -(cfg.maxPosition as int)
  }

  /** Some level of the other side is at the limit price or better. */
  ghost predicate Meets(book: Book, side: Side, price: Price) {
    if side.Buy? then exists p: Price :: p in book.asks && p <= price
    else exists p: Price :: p in book.bids && p >= price
  }

  lemma MarketableMeets(book: Book, side: Side, price: Price)
    requires book.bids != map[] && book.asks != map[]
    ensures Marketable(book, side, price) <==> Meets(book, side, price)
  {
    var bid, ask := MaxPrice(book.bids), MinPrice(book.asks);
  }

  lemma AllowsIff(s: Sim, r: Request, cfg: Config)
    requires -(cfg.maxPosition as int) <= s.ledger.position <= cfg.maxPosition
    ensures PositionAllows(s.ledger.position, r.side, r.quantity, cfg) <==> !PastLimit(s, r, cfg)
  {
  }

  function LeftOf(orders: map<string, Order>, ids: seq<string>): int {
    if ids == [] then 0
    else
      var id := ids[|ids| - 1];
      LeftOf(orders, ids[..|ids| - 1]) + (if id in orders then orders[id].request.quantity - orders[id].filled else 0)
  }

  /** The own queue is what the orders have left that a trade at the level would reach first. */
  lemma {:induction false} OwnQueueIs(orders: map<string, Order>, ids: seq<string>, side: Side, price: Price)
    ensures OwnQueue(orders, ids, side, price) == LeftOf(orders, EligibleIds(orders, ids, Other(side), price))
    decreases |ids|
  {
    hide LeftOf;
    if ids == [] {
      NothingLeft(orders);
    } else {
      var init, last := ids[..|ids| - 1], ids[|ids| - 1];
      OwnQueueIs(orders, init, side, price);
      var reached := EligibleIds(orders, init, Other(side), price);
      LeftOfMore(orders, reached, last);
      assert reached + [] == reached;
    }
  }

  lemma NothingLeft(orders: map<string, Order>)
    ensures LeftOf(orders, []) == 0
  {
  }

  lemma LeftOfMore(orders: map<string, Order>, ids: seq<string>, id: string)
    ensures LeftOf(orders, ids + [id]) ==
            LeftOf(orders, ids) + (if id in orders then orders[id].request.quantity - orders[id].filled else 0)
  {
    assert (ids + [id])[..|ids|] == ids;
  }

  /** Where a passive order of this request queues: a share of the display, and what rests there of its own side. */
  function QueueOf(s: Sim, r: Request, price: Price, cfg: Config): real {
    QuantityAt(if r.side.Buy? then s.venue.book.bids else s.venue.book.asks, price) as real * cfg.queueAheadFraction
    + LeftOf(s.desk.orders, EligibleIds(s.desk.orders, s.desk.active, Other(r.side), price)) as real
  }

  /** From s to n the request became an order and no other order changed. */
  ghost predicate Joined(s: Sim, n: Sim) {
    && s.requests != []
    && var id := s.requests[0].id;
       && id !in s.desk.orders && id in n.desk.orders
       && n.desk.orders == s.desk.orders[id := n.desk.orders[id]]
       && n.desk.orders[id].request == s.requests[0]
       && n.requests == s.requests[1..] && n.cancels == s.cancels && n.killed == s.killed
       && n.venue.book == s.venue.book
  }

  lemma Arrived(s: Sim, cfg: Config)
    requires SimInvariant(s, cfg) && s.requests != []
    requires Operate(s, OrderArrives, cfg).Ok?
    ensures var r := s.requests[0];
            var arrival := r.decision + cfg.decisionLatency + cfg.transmissionLatency;
            var expiry := if r.timeToLive.None? then None else Some(arrival + r.timeToLive.value);
            var p := s.(requests := s.requests[1..]);
            && arrival <= UINT64_MAX
            && Operate(s, OrderArrives, cfg) == Activate(p, Order(r, arrival, expiry, Pending, 0, 0.0, ""), cfg)
            && r.id !in s.desk.orders
            && (s.venue.book == EMPTY || (Sound(s.venue.book) && s.venue.book.lastUpdateId > 0))
            && -(cfg.maxPosition as int) <= s.ledger.position <= cfg.maxPosition
  {
    hide Activate, Sound, Liquid, DeskInOrder;
    assert s.requests[0] in s.requests;
  }

  /** An order is refused, with nothing else changed, for one of three reasons, looked at in this order. */
  lemma OrderIsRefused(s: Sim, cfg: Config)
    requires SimInvariant(s, cfg) && s.requests != [] && Operate(s, OrderArrives, cfg).Ok?
    requires s.killed || PastLimit(s, s.requests[0], cfg) || s.venue.book.lastUpdateId == 0
    ensures var n, id := Operate(s, OrderArrives, cfg).value, s.requests[0].id;
            && Joined(s, n) && n.desk.active == s.desk.active && n.ledger == s.ledger && n.venue == s.venue
            && n.desk.orders[id].status == Rejected && n.desk.orders[id].filled == 0
            && n.desk.orders[id].reason ==
                 if s.killed then "kill_switch_active"
                 else if PastLimit(s, s.requests[0], cfg) then "position_limit" else "book_unavailable"
  {
    Arrived(s, cfg);
    hide SimInvariant, Operate, PositionAllows, ExecuteTaker, Rest, Marketable, Sound;
    AllowsIff(s, s.requests[0], cfg);
  }

  /** A limit order that meets no level of the other side. */
  ghost predicate Rests(s: Sim, r: Request) {
    r.instruction.Limit? && !Meets(s.venue.book, r.side, r.instruction.price)
  }

  /** What the order is before it is routed. */
  function Routed(r: Request, cfg: Config): Order {
    var arrival := r.decision + cfg.decisionLatency + cfg.transmissionLatency;
    Order(r, arrival, if r.timeToLive.None? then None else Some(arrival + r.timeToLive.value), Pending, 0, 0.0, "")
  }

  lemma OrderRouted(s: Sim, cfg: Config)
    requires SimInvariant(s, cfg) && s.requests != [] && Operate(s, OrderArrives, cfg).Ok?
    requires !s.killed && !PastLimit(s, s.requests[0], cfg) && s.venue.book.lastUpdateId > 0
    ensures var r, p := s.requests[0], s.(requests := s.requests[1..]);
            && Operate(s, OrderArrives, cfg) == Activate(p, Routed(r, cfg), cfg)
            && r.id !in s.desk.orders
            && PositionAllows(s.ledger.position, r.side, r.quantity, cfg)
            && s.venue.book.bids != map[] && s.venue.book.asks != map[]
            && (r.instruction.Limit? ==> (Rests(s, r) <==> !Marketable(s.venue.book, r.side, r.instruction.price)))
  {
    hide SimInvariant, Operate, Activate, PositionAllows, Marketable, Meets, Sound, PastLimit;
    Arrived(s, cfg);
    var r := s.requests[0];
    AllowsIff(s, r, cfg);
    NotEmpty(s.venue.book);
    if r.instruction.Limit? {
      MarketableMeets(s.venue.book, r.side, r.instruction.price);
    }
  }

  /**
   An order that is not refused comes to rest exactly when it is a limit order that meets no level of
   the other side. Then it is the last of the active orders, with its times, nothing filled and its
   place in the queue, and nothing is booked.
   */
  lemma OrderRests(s: Sim, cfg: Config)
    requires SimInvariant(s, cfg) && s.requests != [] && Operate(s, OrderArrives, cfg).Ok?
    requires !s.killed && !PastLimit(s, s.requests[0], cfg) && s.venue.book.lastUpdateId > 0
    requires Rests(s, s.requests[0])
    ensures var n, r := Operate(s, OrderArrives, cfg).value, s.requests[0];
            && Joined(s, n) && n.desk.active == s.desk.active + [r.id]
            && n.ledger == s.ledger && n.venue == s.venue
            && var o := n.desk.orders[r.id];
               && Timed(o, cfg) && o.status == Open && o.filled == 0 && o.reason == ""
               && o.queueAhead == QueueOf(s, r, r.instruction.price, cfg)
  {
    OrderRouted(s, cfg);
    var r, p := s.requests[0], s.(requests := s.requests[1..]);
    assert QueueOf(p, r, r.instruction.price, cfg) == QueueOf(s, r, r.instruction.price, cfg);
    RoutedTimed(r, cfg);
    hide SimInvariant, Operate, Activate, PositionAllows, Marketable, Meets, QueueOf, Timed;
    RestOrTake(p, Routed(r, cfg), cfg);
    TimedStays(Routed(r, cfg), Operate(s, OrderArrives, cfg).value.desk.orders[r.id], cfg);
  }

  lemma RoutedTimed(r: Request, cfg: Config)
    ensures Timed(Routed(r, cfg), cfg)
  {
  }

  /** Any other takes: it is not active, and its status says how much of it was filled. */
  lemma OrderTakes(s: Sim, cfg: Config)
    requires SimInvariant(s, cfg) && s.requests != [] && Operate(s, OrderArrives, cfg).Ok?
    requires !s.killed && !PastLimit(s, s.requests[0], cfg) && s.venue.book.lastUpdateId > 0
    requires !Rests(s, s.requests[0])
    ensures var n, r := Operate(s, OrderArrives, cfg).value, s.requests[0];
            && Joined(s, n) && n.desk.active == s.desk.active
            && var o := n.desk.orders[r.id];
               && o.status == (if o.filled == r.quantity then Filled else if o.filled > 0 then PartiallyFilled else Rejected)
               && (o.filled != r.quantity ==> o.reason == "insufficient_visible_depth")
  {
    OrderRouted(s, cfg);
    var r, p := s.requests[0], s.(requests := s.requests[1..]);
    hide SimInvariant, Operate, Activate, PositionAllows, Marketable, Meets, QueueOf;
    RestOrTake(p, Routed(r, cfg), cfg);
    assert s.desk.active + [] == s.desk.active;
  }

  lemma NotEmpty(book: Book)
    requires book == EMPTY || Sound(book)
    requires book.lastUpdateId > 0
    ensures book.bids != map[] && book.asks != map[]
  {
  }

  lemma QueueIs(s: Sim, r: Request, price: Price, cfg: Config)
    ensures QueueAhead(Displayed(s.venue.book, LevelKey(if r.side.Buy? then BidSide else AskSide, price)),
                       OwnQueue(s.desk.orders, s.desk.active, r.side, price), cfg) == QueueOf(s, r, price, cfg)
  {
    hide OwnQueue, LeftOf, EligibleIds;
    OwnQueueIs(s.desk.orders, s.desk.active, r.side, price);
  }

  lemma RestOrTake(s: Sim, o: Order, cfg: Config)
    requires !s.killed && PositionAllows(s.ledger.position, o.request.side, o.request.quantity, cfg)
    requires s.venue.book.lastUpdateId > 0 && s.venue.book.bids != map[] && s.venue.book.asks != map[]
    requires o.filled == 0 && o.reason == ""
    ensures var r, q := Activate(s, o, cfg), o.request;
            var rests := q.instruction.Limit? && !Marketable(s.venue.book, q.side, q.instruction.price);
            && r.Ok?
            && var n := r.value;
               && n.desk.active == s.desk.active + (if rests then [q.id] else [])
               && n == s.(desk := n.desk, ledger := n.ledger, venue := n.venue)
               && q.id in n.desk.orders && n.desk.orders == s.desk.orders[q.id := n.desk.orders[q.id]]
               && n.desk.orders[q.id].request == q && n.venue.book == s.venue.book
               && (rests ==>
                     && n.ledger == s.ledger && n.venue == s.venue
                     && n.desk.orders[q.id] ==
                          o.(queueAhead := QueueOf(s, q, q.instruction.price, cfg), status := Open))
               && (!rests ==>
                     var k := n.desk.orders[q.id];
                     && k.status == (if k.filled == q.quantity then Filled else if k.filled > 0 then PartiallyFilled else Rejected)
                     && (k.filled != q.quantity ==> k.reason == "insufficient_visible_depth"))
  {
    hide Walk, WalkLevels, OwnQueue, Marketable, PositionAllows, QueueOf, QueueAhead, Displayed;
    if o.request.instruction.Limit? {
      QueueIs(s, o.request, o.request.instruction.price, cfg);
    }
    var t, levels := Taking(Booking(s.ledger, o), s.venue.consumed), WalkLevels(s.venue.book, o.request.side);
    WalkKeepsRequest(t, o.arrival, levels, None, Remaining(o), cfg);
    if o.request.instruction.Limit? {
      WalkKeepsRequest(t, o.arrival, levels, Some(o.request.instruction.price), Remaining(o), cfg);
    }
    assert s.desk.active + [] == s.desk.active;
  }

  /** The levels an order may sweep are all levels of the other side, for a limit order those at its price or better. */
  lemma SweptLevels(book: Book, r: Request, price: Price)
    ensures var limit := match r.instruction case Market => None case Limit(p) => Some(p);
            (exists l :: l in SweepLevels(book, r.side, limit) && l.price == price) <==>
            && price in (if r.side.Buy? then book.asks else book.bids)
            && (r.instruction.Limit? ==> if r.side.Buy? then price <= r.instruction.price else price >= r.instruction.price)
  {
    hide Reachable, WalkLevels;
    var limit := match r.instruction case Market => None case Limit(p) => Some(p);
    SweepLevelsAre(book, r.side, limit);
    var side := TakenSide(book, r.side);
    if price in side && !BeyondLimit(r.side, price, limit) {
      assert Level(price, side[price]) in SweepLevels(book, r.side, limit);
    }
    if l :| l in SweepLevels(book, r.side, limit) && l.price == price {
      assert Level(l.price, QuantityAt(side, l.price)) == l;
      assert price in side by { SweptIsListed(book, r.side, limit, l); }
    }
  }

  lemma SweptIsListed(book: Book, side: Side, limit: Option<Price>, l: Level)
    requires l in SweepLevels(book, side, limit)
    ensures l.price in TakenSide(book, side)
  {
    ReachableIsPrefix(WalkLevels(book, side), side, limit);
    Listing.ListedIsListing(TakenSide(book, side), side.Sell?);
  }
}
