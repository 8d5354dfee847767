/** What the simulator's books say on every run: positions, cash, fees and filled quantities. */
module SimulationAccounting {
  import opened Reals
  import opened Results
  import opened L2Types
  import opened OrderBook
  import opened Sorting
  import opened Simulation

  // ----- independent sums over the fills

  function SignedQuantity(fills: seq<Fill>): int {
    if fills == [] then 0
    else SignedQuantity(fills[..|fills| - 1]) + Sign(fills[|fills| - 1].side) * fills[|fills| - 1].quantity
  }

  function SignedNotional(fills: seq<Fill>): real {
    if fills == [] then 0.0
    else
      var f := fills[|fills| - 1];
      SignedNotional(fills[..|fills| - 1]) + Sign(f.side) as real * Notional(f.price, f.quantity)
  }

  function TotalFees(fills: seq<Fill>): real {
    if fills == [] then 0.0 else TotalFees(fills[..|fills| - 1]) + fills[|fills| - 1].fee
  }

  function FilledFor(fills: seq<Fill>, id: string): int {
    if fills == [] then 0
    else
      FilledFor(fills[..|fills| - 1], id) +
      if fills[|fills| - 1].id == id then fills[|fills| - 1].quantity else 0
  }

  predicate PriceAcceptable(r: Request, price: Price) {
    match r.instruction
    case Market => true
    case Limit(limit) => if r.side.Buy? then price <= limit else price >= limit
  }

  /** The position is the signed sum of the fills and inside the limit; cash paid for them and their fees. */
  ghost predicate LedgerBalances(l: Ledger, cfg: Config) {
    && l.position == SignedQuantity(l.fills)
    && -(cfg.maxPosition as int) <= l.position <= cfg.maxPosition as int
    && l.fees == TotalFees(l.fills)
    && l.cash == -SignedNotional(l.fills) - l.fees
  }

  /** Every fill is a positive quantity of a known order, on its side, at a price it accepts, at its fee. */
  ghost predicate FillProper(f: Fill, orders: map<string, Order>, cfg: Config) {
    && f.quantity > 0
    && f.id in orders && f.side == orders[f.id].request.side
    && PriceAcceptable(orders[f.id].request, f.price)
    && f.fee == Fee(f.price, f.quantity, f.maker, cfg)
  }

  ghost predicate OrderAccounted(id: string, o: Order, fills: seq<Fill>) {
    o.request.id == id && o.filled == FilledFor(fills, id) && 0 <= o.filled <= o.request.quantity
  }

  ghost predicate Accounts(l: Ledger, orders: map<string, Order>, cfg: Config) {
    && LedgerBalances(l, cfg)
    && (forall f | f in l.fills :: FillProper(f, orders, cfg))
    && (forall id | id in orders :: OrderAccounted(id, orders[id], l.fills))
  }

  /** The accounts with one order's record as a booking has it. */
  ghost predicate BooksWith(b: Booking, orders: map<string, Order>, cfg: Config) {
    Accounts(b.ledger, orders[b.order.request.id := b.order], cfg)
  }

  lemma FillsGrow(fills: seq<Fill>, f: Fill)
    ensures SignedQuantity(fills + [f]) == SignedQuantity(fills) + Sign(f.side) * f.quantity
    ensures SignedNotional(fills + [f]) == SignedNotional(fills) + Sign(f.side) as real * Notional(f.price, f.quantity)
    ensures TotalFees(fills + [f]) == TotalFees(fills) + f.fee
    ensures forall id :: FilledFor(fills + [f], id) == FilledFor(fills, id) + if f.id == id then f.quantity else 0
  {
    hide Notional;
    assert (fills + [f])[..|fills|] == fills;
  }

  lemma {:induction false} NothingFilled(fills: seq<Fill>, id: string)
    requires forall f | f in fills :: f.id != id
    ensures FilledFor(fills, id) == 0
    decreases fills
  {
    if fills != [] {
      NothingFilled(fills[..|fills| - 1], id);
    }
  }

  lemma RecordFillBalances(b: Booking, time: nat, quantity: int, price: Price, maker: bool, cfg: Config)
    requires LedgerBalances(b.ledger, cfg)
    ensures LedgerBalances(RecordFill(b, time, quantity, price, maker, cfg).ledger, cfg)
  {
    hide Notional, Fee, SignedQuantity, SignedNotional, TotalFees, FilledFor;
    if quantity > 0 && PositionAllows(b.ledger.position, b.order.request.side, quantity, cfg) {
      var f := RecordFill(b, time, quantity, price, maker, cfg).ledger.fills[|b.ledger.fills|];
      FillsGrow(b.ledger.fills, f);
    }
  }

  lemma RecordFillAccounts(b: Booking, orders: map<string, Order>, time: nat, quantity: int, price: Price, maker: bool, cfg: Config)
    requires BooksWith(b, orders, cfg)
    requires quantity <= Remaining(b.order) && PriceAcceptable(b.order.request, price)
    ensures var n := RecordFill(b, time, quantity, price, maker, cfg);
            BooksWith(n, orders, cfg) && n.order.request == b.order.request
  {
    hide Notional, Fee, SignedQuantity, SignedNotional, TotalFees, FilledFor, LedgerBalances;
    var n := RecordFill(b, time, quantity, price, maker, cfg);
    RecordFillBalances(b, time, quantity, price, maker, cfg);
    var id := b.order.request.id;
    var before, after := orders[id := b.order], orders[id := n.order];
    assert OrderAccounted(id, before[id], b.ledger.fills);
    if n.ledger != b.ledger {
      FillsGrow(b.ledger.fills, n.ledger.fills[|b.ledger.fills|]);
    }
    forall f | f in n.ledger.fills ensures FillProper(f, after, cfg) {
      assert f in b.ledger.fills ==> FillProper(f, before, cfg);
    }
    forall k | k in after ensures OrderAccounted(k, after[k], n.ledger.fills) {
      assert OrderAccounted(k, before[k], b.ledger.fills);
    }
  }

  /** Changing an order's status, queue position or reason leaves the accounts alone. */
  lemma RestatedAccounts(l: Ledger, orders: map<string, Order>, o: Order, cfg: Config)
    requires Accounts(l, orders, cfg)
    requires o.request.id in orders && o.request == orders[o.request.id].request && o.filled == orders[o.request.id].filled
    ensures Accounts(l, orders[o.request.id := o], cfg)
  {
    hide LedgerBalances, FilledFor, PriceAcceptable, Fee;
    var after := orders[o.request.id := o];
    forall f | f in l.fills ensures FillProper(f, after, cfg) {
      assert FillProper(f, orders, cfg);
    }
    forall k | k in after ensures OrderAccounted(k, after[k], l.fills) {
      assert OrderAccounted(k, orders[k], l.fills);
    }
  }

  /** A new order joins with nothing filled. */
  lemma NewAccounts(l: Ledger, orders: map<string, Order>, o: Order, cfg: Config)
    requires Accounts(l, orders, cfg) && o.request.id !in orders && o.filled == 0
    ensures Accounts(l, orders[o.request.id := o], cfg)
  {
    hide LedgerBalances, PriceAcceptable, Fee;
    var id := o.request.id;
    var after := orders[id := o];
    forall f | f in l.fills ensures FillProper(f, after, cfg) && f.id != id {
      assert FillProper(f, orders, cfg);
    }
    NothingFilled(l.fills, id);
    forall k | k in after ensures OrderAccounted(k, after[k], l.fills) {
      assert k != id ==> OrderAccounted(k, orders[k], l.fills);
    }
  }

  // ----- the operations

  lemma {:induction false} WalkAccounts(t: Taking, orders: map<string, Order>, time: nat, levels: seq<Level>, limit: Option<Price>, remaining: int, cfg: Config)
    requires BooksWith(t.booking, orders, cfg) && remaining <= Remaining(t.booking.order)
    requires t.booking.order.request.instruction == (if limit.None? then Market else Limit(limit.value))
    ensures var w := Walk(t, time, levels, limit, remaining, cfg);
            BooksWith(w.booking, orders, cfg) && w.booking.order.request == t.booking.order.request
    decreases levels
  {
    hide BooksWith, Accounts;
    if levels != [] && remaining > 0 {
      var level, side := levels[0], t.booking.order.request.side;
      if !BeyondLimit(side, level.price, limit) {
        var quantity := Smaller(remaining, Available(level, side, t.consumed));
        if quantity <= 0 {
          WalkAccounts(t, orders, time, levels[1..], limit, remaining, cfg);
        } else {
          RecordFillAccounts(t.booking, orders, time, quantity, level.price, false, cfg);
          WalkAccounts(TakeLevel(t, time, level, quantity, cfg), orders, time, levels[1..], limit, remaining - quantity, cfg);
        }
      }
    }
  }

  lemma MakerFillAccounts(b: Booking, orders: map<string, Order>, time: nat, quantity: int, price: Price, cfg: Config)
    requires BooksWith(b, orders, cfg)
    requires quantity <= Remaining(b.order) && b.order.request.instruction == Limit(price)
    ensures var n := MakerFill(b, time, quantity, price, cfg);
            BooksWith(n, orders, cfg) && n.order.request == b.order.request
  {
    hide Accounts;
    if quantity > 0 {
      RecordFillAccounts(b, orders, time, quantity, price, true, cfg);
      var f := RecordFill(b, time, quantity, price, true, cfg);
      var n := MakerFill(b, time, quantity, price, cfg);
      var id := b.order.request.id;
      RestatedAccounts(f.ledger, orders[id := f.order], n.order, cfg);
      assert orders[id := f.order][id := n.order] == orders[id := n.order];
    }
  }

  /** A resting order with another queue position is the same order to the accounts. */
  lemma MovedBooks(l: Ledger, orders: map<string, Order>, o: Order, ahead: real, cfg: Config)
    requires Accounts(l, orders, cfg) && o.request.id in orders && o == orders[o.request.id]
    ensures BooksWith(Booking(l, o.(queueAhead := ahead)), orders, cfg)
  {
    hide Accounts;
    RestatedAccounts(l, orders, o.(queueAhead := ahead), cfg);
  }

  lemma TradeStepAccounts(p: Passive, id: string, trade: Trade, cfg: Config)
    requires Accounts(p.ledger, p.orders, cfg)
    requires id in p.orders && p.orders[id].request.instruction == Limit(trade.price)
    ensures var q := TradeStep(p, id, trade, cfg);
            Accounts(q.ledger, q.orders, cfg) && SameRequests(p.orders, q.orders)
  {
    hide Accounts, MakerFill, MaxZero;
    IdIsKey(p.ledger, p.orders, id, cfg);
    var o, size := p.orders[id], trade.quantity as real;
    MovedBooks(p.ledger, p.orders, o, MaxZero(o.queueAhead - size), cfg);
    MakerFillAccounts(Booking(p.ledger, o.(queueAhead := MaxZero(o.queueAhead - size))), p.orders, trade.receipt as int,
                      Smaller(Remaining(o), MaxZero(size - o.queueAhead).Floor), trade.price, cfg);
  }

  lemma {:induction false} TradeEachAccounts(p: Passive, ids: seq<string>, trade: Trade, cfg: Config)
    requires Accounts(p.ledger, p.orders, cfg)
    requires forall id | id in ids :: id in p.orders && p.orders[id].request.instruction == Limit(trade.price)
    ensures var q := TradeEach(p, ids, trade, cfg);
            Accounts(q.ledger, q.orders, cfg) && SameRequests(p.orders, q.orders)
    decreases ids
  {
    hide Accounts, TradeStep;
    if ids != [] {
      TradeStepAccounts(p, ids[0], trade, cfg);
      TradeEachAccounts(TradeStep(p, ids[0], trade, cfg), ids[1..], trade, cfg);
    }
  }

  lemma DepleteOneAccounts(l: Ledger, orders: map<string, Order>, o: Order, time: nat, depletion: real, price: Price, cfg: Config)
    requires Accounts(l, orders, cfg) && o.request.id in orders && o == orders[o.request.id]
    requires o.request.instruction == Limit(price)
    ensures var n := DepleteOne(Booking(l, o), time, depletion, price, cfg);
            BooksWith(n, orders, cfg) && n.order.request == o.request
  {
    hide Accounts, MakerFill;
    if depletion > 0.0 {
      var reduction := if o.queueAhead < depletion then o.queueAhead else depletion;
      MovedBooks(l, orders, o, o.queueAhead - reduction, cfg);
      MakerFillAccounts(Booking(l, o.(queueAhead := o.queueAhead - reduction)), orders, time,
                        Smaller(Remaining(o), (depletion - reduction).Floor), price, cfg);
    } else {
      RestatedAccounts(l, orders, o, cfg);
    }
  }

  lemma DepleteStepAccounts(p: Passive, id: string, time: nat, found: Shadow, cfg: Config)
    requires Accounts(p.ledger, p.orders, cfg)
    ensures var q := DepleteStep(p, id, time, found, cfg);
            Accounts(q.ledger, q.orders, cfg) && SameRequests(p.orders, q.orders)
  {
    hide Accounts, DepleteOne, Depletion;
    if id in p.orders && RestingKey(p.orders[id]).Some? {
      IdIsKey(p.ledger, p.orders, id, cfg);
      var key := RestingKey(p.orders[id]).value;
      DepleteOneAccounts(p.ledger, p.orders, p.orders[id], time, Depletion(found, key, cfg), key.price, cfg);
    }
  }

  lemma {:induction false} DepleteEachAccounts(p: Passive, ids: seq<string>, time: nat, found: Shadow, cfg: Config)
    requires Accounts(p.ledger, p.orders, cfg)
    ensures var q := DepleteEach(p, ids, time, found, cfg);
            Accounts(q.ledger, q.orders, cfg) && SameRequests(p.orders, q.orders)
    decreases ids
  {
    hide Accounts, DepleteStep;
    if ids != [] {
      DepleteStepAccounts(p, ids[0], time, found, cfg);
      DepleteEachAccounts(DepleteStep(p, ids[0], time, found, cfg), ids[1..], time, found, cfg);
    }
  }

  ghost predicate SameRequests(a: map<string, Order>, b: map<string, Order>) {
    a.Keys == b.Keys && forall id | id in a :: b[id].request == a[id].request
  }

  lemma IdIsKey(l: Ledger, orders: map<string, Order>, id: string, cfg: Config)
    requires Accounts(l, orders, cfg) && id in orders
    ensures orders[id].request.id == id
  {
    assert OrderAccounted(id, orders[id], l.fills);
  }

  // ----- the whole state

  ghost predicate Accounted(s: Sim, cfg: Config) {
    Accounts(s.ledger, s.desk.orders, cfg)
  }

  /** The orders changed in status only. */
  ghost predicate OnlyRestated(a: map<string, Order>, b: map<string, Order>) {
    a.Keys == b.Keys && forall id | id in a :: b[id].request == a[id].request && b[id].filled == a[id].filled
  }

  lemma RestatingAccounts(l: Ledger, a: map<string, Order>, b: map<string, Order>, cfg: Config)
    requires Accounts(l, a, cfg) && OnlyRestated(a, b)
    ensures Accounts(l, b, cfg)
  {
    hide LedgerBalances, FilledFor, PriceAcceptable, Fee;
    forall f | f in l.fills ensures FillProper(f, b, cfg) {
      assert FillProper(f, a, cfg);
    }
    forall k | k in b ensures OrderAccounted(k, b[k], l.fills) {
      assert OrderAccounted(k, a[k], l.fills);
    }
  }

  lemma {:induction false} ExpireRestates(d: Desk, ids: seq<string>, time: nat, final: bool)
    ensures OnlyRestated(d.orders, Expire(d, ids, time, final).orders)
    decreases ids
  {
    if ids != [] {
      ExpireRestates(ExpireOne(d, ids[0], time, final), ids[1..], time, final);
    }
  }

  lemma {:induction false} CancelEachRestates(orders: map<string, Order>, ids: seq<string>, reason: string)
    ensures OnlyRestated(orders, CancelEach(orders, ids, reason))
    decreases ids
  {
    if ids != [] {
      CancelEachRestates(CancelOne(orders, ids[0], reason), ids[1..], reason);
    }
  }

  lemma {:induction false} StillRestingIds(orders: map<string, Order>, ids: seq<string>)
    ensures forall id | id in StillResting(orders, ids) :: id in ids && id in orders && Resting(orders[id])
    ensures forall id | id in ids && id in orders && Resting(orders[id]) :: id in StillResting(orders, ids)
    decreases ids
  {
    if ids != [] {
      StillRestingIds(orders, ids[..|ids| - 1]);
      assert ids == ids[..|ids| - 1] + [ids[|ids| - 1]];
    }
  }

  lemma {:induction false} EligibleIdsAre(orders: map<string, Order>, ids: seq<string>, aggressor: Side, price: Price)
    ensures forall id | id in EligibleIds(orders, ids, aggressor, price) :: id in ids && Eligible(orders, id, aggressor, price)
    decreases ids
  {
    if ids != [] {
      EligibleIdsAre(orders, ids[..|ids| - 1], aggressor, price);
      assert ids == ids[..|ids| - 1] + [ids[|ids| - 1]];
    }
  }

  lemma TradeQueueEligible(d: Desk, trade: Trade)
    ensures forall id | id in TradeQueue(d, trade) ::
              id in d.active && Eligible(d.orders, id, if trade.buyerIsMaker then Sell else Buy, trade.price)
  {
    var ids := EligibleIds(d.orders, d.active, if trade.buyerIsMaker then Sell else Buy, trade.price);
    EligibleIdsAre(d.orders, d.active, if trade.buyerIsMaker then Sell else Buy, trade.price);
    SortSorts(ids, ArrivalKey(d.orders));
    forall id | id in TradeQueue(d, trade) ensures id in ids {
      assert id in multiset(TradeQueue(d, trade));
    }
  }

  lemma ActivateAccounted(s: Sim, o: Order, cfg: Config)
    requires Accounted(s, cfg) && o.request.id !in s.desk.orders && o.filled == 0
    ensures var r := Activate(s, o, cfg); r.Ok? ==> Accounted(r.value, cfg)
  {
    hide Accounts, ExecuteTaker, OwnQueue, Marketable;
    var r := Activate(s, o, cfg);
    if r.Ok? {
      var id := o.request.id;
      var refused: bool := s.killed || !PositionAllows(s.ledger.position, o.request.side, o.request.quantity, cfg)
                           || s.venue.book.lastUpdateId == 0;
      if refused {
        NewAccounts(s.ledger, s.desk.orders, r.value.desk.orders[id], cfg);
      } else if o.request.instruction.Market? {
        TakerAccounted(s, o, None, cfg);
      } else if Marketable(s.venue.book, o.request.side, o.request.instruction.price) {
        TakerAccounted(s, o, Some(o.request.instruction.price), cfg);
      } else {
        NewAccounts(s.ledger, s.desk.orders, r.value.desk.orders[id], cfg);
      }
    }
  }

  lemma TakerAccounted(s: Sim, o: Order, limit: Option<Price>, cfg: Config)
    requires Accounted(s, cfg) && o.request.id !in s.desk.orders && o.filled == 0
    requires o.request.instruction == (if limit.None? then Market else Limit(limit.value))
    ensures Accounted(ExecuteTaker(s, o, o.arrival, limit, cfg), cfg)
  {
    hide Accounts, Walk, WalkLevels;
    NewAccounts(s.ledger, s.desk.orders, o, cfg);
    var t := Taking(Booking(s.ledger, o), s.venue.consumed);
    var levels := WalkLevels(s.venue.book, o.request.side);
    WalkAccounts(t, s.desk.orders, o.arrival, levels, limit, Remaining(o), cfg);
    var w := Walk(t, o.arrival, levels, limit, Remaining(o), cfg);
    var id, done := o.request.id, TakerOutcome(w.booking.order);
    RestatedAccounts(w.booking.ledger, s.desk.orders[id := w.booking.order], done, cfg);
    assert s.desk.orders[id := w.booking.order][id := done] == s.desk.orders[id := done];
  }

  lemma KillSwitchAccounted(s: Sim, cfg: Config)
    requires Accounted(s, cfg)
    ensures Accounted(CheckKillSwitch(s, cfg), cfg)
  {
    hide Accounts, OnlyRestated, Equity, CancelEach;
    CancelEachRestates(s.desk.orders, s.desk.active, "kill_switch");
    RestatingAccounts(s.ledger, s.desk.orders, CancelEach(s.desk.orders, s.desk.active, "kill_switch"), cfg);
  }

  lemma ExpiriesAccounted(s: Sim, time: nat, final: bool, cfg: Config)
    requires Accounted(s, cfg)
    ensures Accounted(WithExpiries(s, time, final), cfg)
  {
    hide Accounts, OnlyRestated, Expire;
    ExpireRestates(s.desk, s.desk.active, time, final);
    RestatingAccounts(s.ledger, s.desk.orders, Expire(s.desk, s.desk.active, time, final).orders, cfg);
  }

  /** Identifiers still to come are distinct and unknown to the desk. */
  ghost predicate FreshRequests(s: Sim) {
    && (forall i, j | 0 <= i < j < |s.requests| :: s.requests[i].id != s.requests[j].id)
    && (forall r | r in s.requests :: r.id !in s.desk.orders)
  }

  lemma CancelAccounted(s: Sim, cfg: Config)
    requires Accounted(s, cfg) && FreshRequests(s) && s.cancels != []
    ensures var r := ProcessNextCancel(s, cfg); r.Ok? ==> Accounted(r.value, cfg)
  {
    hide Accounts, DropId;
    var r, id, d := ProcessNextCancel(s, cfg), s.cancels[0].request.id, s.desk;
    if id in d.orders && Resting(d.orders[id]) {
      IdIsKey(s.ledger, d.orders, id, cfg);
      RestatedAccounts(s.ledger, d.orders, d.orders[id].(status := Cancelled), cfg);
    } else if r.Ok? && IndexOf(s.requests, id).Some? {
      var i := IndexOf(s.requests, id).value;
      assert s.requests[i] in s.requests;
      NewAccounts(s.ledger, d.orders, NeverArrived(s.requests[i], Cancelled, "cancel_arrived_before_order", cfg).value, cfg);
    }
  }

  lemma {:induction false} PendingAccounted(l: Ledger, orders: map<string, Order>, requests: seq<Request>, cfg: Config)
    requires Accounts(l, orders, cfg)
    requires forall i, j | 0 <= i < j < |requests| :: requests[i].id != requests[j].id
    requires forall r | r in requests :: r.id !in orders
    ensures var r := ExpirePending(orders, requests, cfg); r.Ok? ==> Accounts(l, r.value, cfg)
    decreases requests
  {
    hide Accounts;
    if requests != [] {
      var one := NeverArrived(requests[0], Expired, "recording_ended_before_arrival", cfg);
      if one.Ok? {
        assert requests[0] in requests;
        NewAccounts(l, orders, one.value, cfg);
        forall r | r in requests[1..] ensures r.id !in orders[requests[0].id := one.value] {
          assert r in requests;
        }
        PendingAccounted(l, orders[requests[0].id := one.value], requests[1..], cfg);
      }
    }
  }

  lemma MarketEventAccounted(s: Sim, e: Event, cfg: Config)
    requires Accounted(s, cfg)
    ensures var r := MarketEvent(s, e, cfg); r.Ok? ==> Accounted(r.value, cfg)
  {
    hide Accounts, OnlyRestated, CancelEach, TradeEach, DepleteEach, TradeQueue, Decreases, Refresh, Applied, Installed, Sound;
    match e
    case BoundaryEvent(_, _) =>
      CancelEachRestates(s.desk.orders, s.desk.active, "market_data_boundary");
      RestatingAccounts(s.ledger, s.desk.orders, CancelEach(s.desk.orders, s.desk.active, "market_data_boundary"), cfg);
    case SnapshotEvent(_) =>
    case DepthEvent(u) =>
      DepleteEachAccounts(Passive(s.ledger, s.desk.orders), s.desk.active, u.receipt as int, Decreases(s.venue.book, u), cfg);
    case TradeEvent(t) =>
      TradeQueueEligible(s.desk, t);
      TradeEachAccounts(Passive(s.ledger, s.desk.orders), TradeQueue(s.desk, t), t, cfg);
  }
}
