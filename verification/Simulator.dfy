/**
 The execution simulator as an object that its methods update step by step. Every method is proved
 against the value semantics of module Simulation.
 */
module Simulator {
  import opened Reals
  import opened Results
  import opened L2Types
  import opened OrderBook
  import opened Sorting
  import S = Simulation
  import opened SimulationLifecycle
  import opened SimulationRuns

  type Order = S.Order

  /** The error returned and the state reached are the ones specified; an error leaves the state unspecified. */
  ghost predicate Meets(specified: Result<S.Sim, S.SimError>, error: Option<S.SimError>, reached: S.Sim) {
    match specified
    case Ok(s) => error == None && reached == s
    case Err(e) => error == Some(e)
  }

  class ExecutionSimulator {
    const config: S.Config
    const book: L2OrderBook
    var position: int
    var cash: real
    var fees: real
    var fills: seq<S.Fill>
    var orders: map<string, Order>
    var active: seq<string>
    var requests: seq<S.Request>
    var cancels: seq<S.PendingCancel>
    var killed: bool
    var latestMid: Option<real>
    var consumed: S.Shadow
    var hasRun: bool
    ghost var refreshed: map<S.LevelKey, nat>
    ghost var cleared: nat

    ghost function LedgerView(): S.Ledger
      reads this
    {
      S.Ledger(position, cash, fees, fills)
    }

    ghost function PassiveView(): S.Passive
      reads this
    {
      S.Passive(LedgerView(), orders)
    }

    ghost function View(): S.Sim
      reads this, book
    {
      S.Sim(S.Venue(book.View(), latestMid, consumed, refreshed, cleared), LedgerView(),
            S.Desk(orders, active), requests, cancels, killed)
    }

    constructor (config: S.Config)
      ensures fresh(book) && this.config == config && !hasRun
      ensures View() == S.FRESH
    {
      this.config := config;
      book := new L2OrderBook();
      position, cash, fees, fills := 0, 0.0, 0.0, [];
      orders, active, requests, cancels := map[], [], [], [];
      killed, latestMid, consumed, hasRun := false, None, map[], false;
      refreshed, cleared := map[], 0;
    }

    // ----- scheduling

    method Submit(request: S.Request) returns (error: Option<S.SimError>)
      modifies this
      ensures Meets(S.Submit(old(View()), request), error, View())
      ensures error.Some? ==> View() == old(View())
      ensures hasRun == old(hasRun)
      ensures SimInvariant(old(View()), config) ==>
        SimInvariant(View(), config) && (error == None ==> Submitted(View()) == Submitted(old(View())) + {request.id})
    {
      ghost var before := View();
      if SimInvariant(before, config) {
        SubmitKeeps(before, request, config);
      }
      if request.id in orders || exists r | r in requests :: r.id == request.id {
        return Some(S.DuplicateOrder);
      }
      requests := Sort(requests + [request], S.RequestKey());
      return None;
    }

    method Cancel(request: S.CancelRequest) returns (error: Option<S.SimError>)
      modifies this
      ensures Meets(S.SubmitCancel(old(View()), request, config), error, View())
      ensures error.Some? ==> View() == old(View())
      ensures hasRun == old(hasRun)
      ensures SimInvariant(old(View()), config) ==> SimInvariant(View(), config) && Submitted(View()) == Submitted(old(View()))
    {
      ghost var before := View();
      if SimInvariant(before, config) {
        SubmitCancelKeeps(before, request, config);
      }
      var arrival: int := request.decision as int + config.cancelLatency as int;
      if arrival > UINT64_MAX {
        return Some(S.TimestampOverflow);
      }
      cancels := Sort(cancels + [S.PendingCancel(arrival, request)], S.CancelKey());
      return None;
    }

    // ----- fills

    method RecordFill(order: Order, time: nat, quantity: int, price: Price, maker: bool) returns (after: Order)
      modifies this`position, this`cash, this`fees, this`fills
      ensures S.Booking(LedgerView(), after) ==
              S.RecordFill(S.Booking(old(LedgerView()), order), time, quantity, price, maker, config)
    {
      after := order;
      if quantity <= 0 {
        return;
      }
      var side := order.request.side;
      if !S.PositionAllows(position, side, quantity, config) {
        after := order.(status := S.Rejected, reason := "position_limit_during_partial_fill");
        return;
      }
      var notional := S.Notional(price, quantity);
      var fee := notional * (if maker then config.makerFeeBps else config.takerFeeBps) / 10000.0;
      position := position + S.Sign(side) * quantity;
      cash := cash - S.Sign(side) as real * notional;
      cash := cash - fee;
      fees := fees + fee;
      after := order.(filled := order.filled + quantity);
      fills := fills + [S.Fill(order.request.id, time, side, quantity, price, maker, fee)];
    }

    /** Walks the levels in order, filling and shadowing what is available within the limit. */
    method WalkLevels(order: Order, time: nat, levels: seq<Level>, limit: Option<Price>) returns (o: Order)
      modifies this`position, this`cash, this`fees, this`fills, this`consumed
      ensures S.Taking(S.Booking(LedgerView(), o), consumed) ==
              S.Walk(S.Taking(S.Booking(old(LedgerView()), order), old(consumed)), time, levels, limit,
                     S.Remaining(order), config)
      ensures o.request == order.request
    {
      hide S.RecordFill, S.BeyondLimit, S.Available, S.ConsumedAt;
      var side := order.request.side;
      var remaining, i := S.Remaining(order), 0;
      o := order;
      ghost var start := S.Taking(S.Booking(LedgerView(), order), consumed);
      while i < |levels|
        invariant 0 <= i <= |levels|
        invariant o.request == order.request
        invariant S.Walk(S.Taking(S.Booking(LedgerView(), o), consumed), time, levels[i..], limit, remaining, config)
               == S.Walk(start, time, levels, limit, S.Remaining(order), config)
      {
        var level := levels[i];
        assert levels[i..][0] == level && levels[i..][1..] == levels[i + 1..];
        if remaining <= 0 || S.BeyondLimit(side, level.price, limit) {
          break;
        }
        var key := S.TakenKey(side, level);
        var quantity := S.Smaller(remaining, S.Available(level, side, consumed));
        i := i + 1;
        if quantity <= 0 {
          continue;
        }
        FillKeepsRequest(S.Booking(LedgerView(), o), time, quantity, level.price, false);
        o := RecordFill(o, time, quantity, level.price, false);
        consumed := consumed[key := S.ConsumedAt(consumed, key) + quantity];
        remaining := remaining - quantity;
      }
    }

    method ExecuteTaker(order: Order, time: nat, limit: Option<Price>)
      modifies this`position, this`cash, this`fees, this`fills, this`consumed, this`orders
      ensures View() == S.ExecuteTaker(old(View()), order, time, limit, config)
    {
      hide S.Walk, S.WalkLevels;
      var levels := S.WalkLevels(Book(book.bids, book.asks, book.lastUpdateId), order.request.side);
      var o := WalkLevels(order, time, levels, limit);
      orders := orders[order.request.id := S.TakerOutcome(o)];
    }

    lemma FillKeepsRequest(b: S.Booking, time: nat, quantity: int, price: Price, maker: bool)
      ensures S.RecordFill(b, time, quantity, price, maker, config).order.request == b.order.request
    {
    }

    // ----- orders reaching the venue

    method OwnQueue(side: S.Side, price: Price) returns (own: int)
      ensures own == S.OwnQueue(orders, active, side, price)
    {
      own := 0;
      for i := 0 to |active|
        invariant own == S.OwnQueue(orders, active[..i], side, price)
      {
        var id := active[i];
        assert active[..i + 1][..i] == active[..i];
        if id in orders && orders[id].request.side == side
           && orders[id].request.instruction == S.Limit(price) && S.Resting(orders[id]) {
          own := own + S.Remaining(orders[id]);
        }
      }
      assert active[..|active|] == active;
    }

    method Refuse(order: Order, reason: string)
      modifies this`orders
      ensures View() == S.Refused(old(View()), order, reason)
    {
      orders := orders[order.request.id := order.(status := S.Rejected, reason := reason)];
    }

    method RestOrder(order: Order, price: Price)
      modifies this`orders, this`active
      ensures View() == S.Rest(old(View()), order, price, config)
    {
      hide S.OwnQueue, S.QueueAhead;
      var side := order.request.side;
      var displayed: int := QuantityAt(if side.Buy? then book.bids else book.asks, price) as int;
      var own := OwnQueue(side, price);
      var ahead := S.QueueAhead(displayed, own, config);
      orders := orders[order.request.id := order.(queueAhead := ahead, status := S.Open)];
      active := active + [order.request.id];
    }

    /** Routes a newly arrived order: refused, executed at once, or left to rest. */
    method Activate(order: Order) returns (error: Option<S.SimError>)
      modifies this`position, this`cash, this`fees, this`fills, this`consumed, this`orders, this`active
      ensures Meets(S.Activate(old(View()), order, config), error, View())
    {
      hide S.ExecuteTaker, S.Rest, S.PositionAllows, S.Refused;
      error := None;
      var request := order.request;
      if killed {
        Refuse(order, "kill_switch_active");
      } else if !S.PositionAllows(position, request.side, request.quantity, config) {
        Refuse(order, "position_limit");
      } else if book.lastUpdateId == 0 {
        Refuse(order, "book_unavailable");
      } else if request.instruction.Market? {
        ExecuteTaker(order, order.arrival, None);
      } else if book.bids == map[] || book.asks == map[] {
        error := Some(S.EmptyBook);
      } else {
        var price := request.instruction.price;
        if if request.side.Buy? then price >= MinPrice(book.asks) else price <= MaxPrice(book.bids) {
          ExecuteTaker(order, order.arrival, Some(price));
        } else {
          RestOrder(order, price);
        }
      }
    }

    method ActivateNextRequest(arrival: nat) returns (error: Option<S.SimError>)
      requires requests != []
      modifies this
      ensures Meets(S.ActivateNext(old(View()), arrival, config), error, View())
      ensures hasRun == old(hasRun)
    {
      hide S.Activate;
      var request := requests[0];
      requests := requests[1..];
      var expiry := S.Expiry(arrival, request.timeToLive);
      if expiry.Err? {
        return Some(expiry.error);
      }
      error := Activate(S.Order(request, arrival, expiry.value, S.Pending, 0, 0.0, ""));
    }

    // ----- leaving the book

    method ExpireOrders(time: nat, final: bool)
      modifies this`orders, this`active
      ensures View() == S.WithExpiries(old(View()), time, final)
    {
      hide S.RemoveFirst;
      var ids := active;
      for i := 0 to |ids|
        invariant S.Expire(S.Desk(orders, active), ids[i..], time, final)
               == S.Expire(S.Desk(old(orders), ids), ids, time, final)
      {
        var id := ids[i];
        assert ids[i..][0] == id && ids[i..][1..] == ids[i + 1..];
        if id in orders && S.Due(orders[id], time, final) {
          orders := orders[id := orders[id].(status := S.Expired)];
          active := S.RemoveFirst(active, id);
        }
      }
    }

    method FinalizePendingRequests() returns (error: Option<S.SimError>)
      modifies this`orders, this`requests
      ensures match S.ExpirePending(old(orders), old(requests), config)
              case Ok(final) => error == None && orders == final && requests == []
              case Err(e) => error == Some(e)
    {
      hide S.NeverArrived;
      for i := 0 to |requests|
        invariant requests == old(requests)
        invariant S.ExpirePending(orders, requests[i..], config) == S.ExpirePending(old(orders), requests, config)
      {
        var request := requests[i];
        assert requests[i..][0] == request && requests[i..][1..] == requests[i + 1..];
        var record := S.NeverArrived(request, S.Expired, "recording_ended_before_arrival", config);
        if record.Err? {
          return Some(record.error);
        }
        orders := orders[request.id := record.value];
      }
      requests := [];
      return None;
    }

    method CancelAll(reason: string)
      modifies this`orders, this`active
      ensures S.Desk(orders, active) == S.CancelAll(old(S.Desk(orders, active)), reason)
    {
      for i := 0 to |active|
        invariant active == old(active)
        invariant S.CancelEach(orders, active[i..], reason) == S.CancelEach(old(orders), active, reason)
      {
        var id := active[i];
        assert active[i..][0] == id && active[i..][1..] == active[i + 1..];
        if id in orders && S.Resting(orders[id]) {
          orders := orders[id := orders[id].(status := S.Cancelled, reason := reason)];
        }
      }
      active := [];
    }

    method WithoutId(id: string) returns (kept: seq<string>)
      ensures kept == S.DropId(active, id)
    {
      kept := [];
      for i := 0 to |active|
        invariant kept + S.DropId(active[i..], id) == S.DropId(active, id)
      {
        assert active[i..][0] == active[i] && active[i..][1..] == active[i + 1..];
        ghost var rest := S.DropId(active[i + 1..], id);
        if active[i] != id {
          assert kept + ([active[i]] + rest) == (kept + [active[i]]) + rest;
          kept := kept + [active[i]];
        } else {
          assert [] + rest == rest;
        }
      }
      assert active[|active|..] == [] && kept + [] == kept;
    }

    method PendingIndex(id: string) returns (index: Option<nat>)
      ensures index == S.IndexOf(requests, id)
    {
      for i := 0 to |requests|
        invariant S.IndexOf(requests, id) ==
                  match S.IndexOf(requests[i..], id) case Some(k) => Some(k + i) case None => None
      {
        assert requests[i..][0] == requests[i] && requests[i..][1..] == requests[i + 1..];
        if requests[i].id == id {
          return Some(i);
        }
      }
      return None;
    }

    /** A cancel that beats its order to the venue ends the order before it arrives. */
    method CancelPending(index: nat) returns (error: Option<S.SimError>)
      requires index < |requests|
      modifies this`requests, this`orders
      ensures match S.NeverArrived(old(requests)[index], S.Cancelled, "cancel_arrived_before_order", config)
              case Ok(record) =>
                && error == None && requests == old(requests)[..index] + old(requests)[index + 1..]
                && orders == old(orders)[old(requests)[index].id := record]
              case Err(e) => error == Some(e)
    {
      hide S.NeverArrived;
      var pending := requests[index];
      requests := requests[..index] + requests[index + 1..];
      var record := S.NeverArrived(pending, S.Cancelled, "cancel_arrived_before_order", config);
      if record.Err? {
        return Some(record.error);
      }
      orders := orders[pending.id := record.value];
      return None;
    }

    method ProcessNextCancel() returns (error: Option<S.SimError>)
      requires cancels != []
      modifies this`cancels, this`requests, this`orders, this`active
      ensures Meets(S.ProcessNextCancel(old(View()), config), error, View())
      ensures var id := old(cancels)[0].request.id;
        id in old(orders) && old(orders)[id].status in {S.Open, S.PartiallyFilled} ==>
          && error == None && id !in active && requests == old(requests) && cancels == old(cancels)[1..]
          && orders == old(orders)[id := old(orders)[id].(status := S.Cancelled)]
    {
      hide S.DropId, S.NeverArrived, S.IndexOf;
      var id := cancels[0].request.id;
      cancels := cancels[1..];
      ghost var popped := View();
      assert popped == old(View()).(cancels := old(cancels)[1..]);
      if id in orders && S.Resting(orders[id]) {
        orders := orders[id := orders[id].(status := S.Cancelled)];
        active := WithoutId(id);
        IsDropped(old(active), id);
        assert View() == popped.(desk := S.Desk(orders, active));
        return None;
      }
      var index := PendingIndex(id);
      if index.None? {
        return None;
      }
      NeverArrivedIs(requests[index.value]);
      error := CancelPending(index.value);
      assert View() == popped.(requests := requests, desk := popped.desk.(orders := orders));
    }

    lemma {:induction false} IsDropped(ids: seq<string>, id: string)
      ensures id !in S.DropId(ids, id)
      decreases ids
    {
      if ids != [] {
        IsDropped(ids[1..], id);
      }
    }

    lemma NeverArrivedIs(r: S.Request)
      ensures var record := S.NeverArrived(r, S.Cancelled, "cancel_arrived_before_order", config);
              record.Ok? ==> record.value.request == r
    {
    }

    // ----- risk

    method MarkedEquity() returns (equity: real)
      ensures equity == S.Equity(View())
    {
      equity := cash;
      if latestMid.Some? {
        equity := equity + position as real / QUANTITY_SCALE as real * latestMid.value;
      }
    }

    method CheckKillSwitch()
      modifies this`killed, this`orders, this`active
      ensures View() == S.CheckKillSwitch(old(View()), config)
    {
      hide S.CancelAll, S.Equity;
      if killed || config.killLoss == None {
        return;
      }
      var equity := MarkedEquity();
      if equity <= -config.killLoss.value {
        killed := true;
        CancelAll("kill_switch");
      }
    }

    // ----- the control timeline

    /** Expiries at the control's arrival, then the order (ties go to it) or the cancel. */
    method ProcessOneControl(orderArrival: Option<nat>, arrival: nat) returns (error: Option<S.SimError>)
      requires orderArrival.Some? ==> requests != []
      requires orderArrival != Some(arrival) ==> cancels != []
      modifies this
      ensures Meets(S.ProcessOneControl(old(View()), orderArrival, arrival, config), error, View())
      ensures hasRun == old(hasRun)
    {
      hide S.ActivateNext, S.ProcessNextCancel, S.CheckKillSwitch;
      ExpireOrders(arrival, false);
      if orderArrival == Some(arrival) {
        error := ActivateNextRequest(arrival);
        if error.None? {
          CheckKillSwitch();
        }
      } else {
        error := ProcessNextCancel();
      }
    }

    method ProcessControls(time: nat, inclusive: bool) returns (error: Option<S.SimError>)
      modifies this
      ensures Meets(S.ProcessControls(old(View()), time, inclusive, config), error, View())
      ensures hasRun == old(hasRun)
    {
      hide S.ProcessOneControl, S.OrderArrival, S.Ready;
      while true
        invariant S.ProcessControls(View(), time, inclusive, config)
               == S.ProcessControls(old(View()), time, inclusive, config)
        invariant hasRun == old(hasRun)
        decreases |requests| + |cancels|
      {
        var orderArrival: Option<nat> := None;
        if requests != [] {
          var arrival := S.OrderArrival(requests[0], config);
          if arrival.Err? {
            return Some(arrival.error);
          }
          orderArrival := Some(arrival.value);
        }
        var cancelArrival: Option<nat> := if cancels == [] then None else Some(cancels[0].arrival);
        var next := S.Earlier(orderArrival, cancelArrival);
        if next == None || !S.Ready(next.value, time, inclusive) {
          return None;
        }
        S.OneControlShrinks(View(), orderArrival, next.value, config);
        error := ProcessOneControl(orderArrival, next.value);
        if error.Some? {
          return;
        }
      }
    }

    // ----- passive fills

    method KeepResting()
      modifies this`active
      ensures active == S.StillResting(orders, old(active))
    {
      var ids := active;
      active := [];
      for i := 0 to |ids|
        invariant active == S.StillResting(orders, ids[..i])
      {
        assert ids[..i + 1][..i] == ids[..i];
        if ids[i] in orders && S.Resting(orders[ids[i]]) {
          active := active + [ids[i]];
        }
      }
      assert ids[..|ids|] == ids;
    }

    /** Callers set the status after the fill, whatever became of it. */
    method MakerFill(order: Order, time: nat, quantity: int, price: Price) returns (after: Order)
      modifies this`position, this`cash, this`fees, this`fills
      ensures S.Booking(LedgerView(), after) ==
              S.MakerFill(S.Booking(old(LedgerView()), order), time, quantity, price, config)
    {
      hide S.RecordFill;
      after := order;
      if quantity > 0 {
        after := RecordFill(order, time, quantity, price, true);
        after := after.(status := if S.Remaining(after) == 0 then S.Filled else S.PartiallyFilled);
      }
    }

    method EligibleOrders(aggressor: S.Side, price: Price) returns (eligible: seq<string>)
      ensures eligible == S.EligibleIds(orders, active, aggressor, price)
    {
      hide S.Eligible;
      eligible := [];
      for i := 0 to |active|
        invariant eligible == S.EligibleIds(orders, active[..i], aggressor, price)
      {
        assert active[..i + 1][..i] == active[..i];
        if S.Eligible(orders, active[i], aggressor, price) {
          eligible := eligible + [active[i]];
        }
      }
      assert active[..|active|] == active;
    }

    /** A trade reaches the given orders one by one. */
    method ReachEach(ids: seq<string>, trade: Trade)
      modifies this`position, this`cash, this`fees, this`fills, this`orders
      ensures PassiveView() == S.TradeEach(old(PassiveView()), ids, trade, config)
    {
      hide S.MakerFill;
      var size := trade.quantity as real;
      for i := 0 to |ids|
        invariant S.TradeEach(PassiveView(), ids[i..], trade, config)
               == S.TradeEach(old(PassiveView()), ids, trade, config)
      {
        var id := ids[i];
        assert ids[i..][0] == id && ids[i..][1..] == ids[i + 1..];
        if id in orders {
          var order := orders[id];
          var ahead := order.queueAhead;
          var executable := MaxZero(size - ahead);
          var filling := MakerFill(order.(queueAhead := MaxZero(ahead - size)), trade.receipt as int,
                                   S.Smaller(S.Remaining(order), executable.Floor), trade.price);
          orders := orders[id := filling];
        }
      }
    }

    method ProcessTrade(trade: Trade)
      modifies this`position, this`cash, this`fees, this`fills, this`orders, this`active
      ensures View() == S.ProcessTrade(old(View()), trade, config)
    {
      hide S.TradeEach, S.EligibleIds, S.StillResting;
      if active == [] {
        return;
      }
      var eligible := EligibleOrders(if trade.buyerIsMaker then S.Sell else S.Buy, trade.price);
      eligible := Sort(eligible, S.ArrivalKey(orders));
      ReachEach(eligible, trade);
      KeepResting();
    }

    method FindDecreases(name: S.BookSideName, levels: seq<Level>, start: S.Shadow) returns (found: S.Shadow)
      ensures found == S.SideDecreases(book.View(), name, levels, start)
    {
      found := start;
      for i := 0 to |levels|
        invariant S.SideDecreases(book.View(), name, levels[i..], found)
               == S.SideDecreases(book.View(), name, levels, start)
      {
        assert levels[i..][0] == levels[i] && levels[i..][1..] == levels[i + 1..];
        var was: int := QuantityAt(if name.BidSide? then book.bids else book.asks, levels[i].price) as int;
        var now: int := levels[i].quantity as int;
        if now < was {
          found := found[S.LevelKey(name, levels[i].price) := was - now];
        }
      }
    }

    /** A decrease of the displayed size reaches one resting order. */
    method DepleteOrder(order: Order, time: nat, depletion: real, price: Price) returns (after: Order)
      modifies this`position, this`cash, this`fees, this`fills
      ensures S.Booking(LedgerView(), after) ==
              S.DepleteOne(S.Booking(old(LedgerView()), order), time, depletion, price, config)
    {
      hide S.MakerFill;
      after := order;
      if depletion > 0.0 {
        var reduction := if order.queueAhead < depletion then order.queueAhead else depletion;
        var left := depletion - reduction;
        after := MakerFill(order.(queueAhead := order.queueAhead - reduction), time,
                           S.Smaller(S.Remaining(order), left.Floor), price);
      }
    }

    method DepleteEach(ids: seq<string>, time: nat, found: S.Shadow)
      modifies this`position, this`cash, this`fees, this`fills, this`orders
      ensures PassiveView() == S.DepleteEach(old(PassiveView()), ids, time, found, config)
    {
      hide S.DepleteOne, S.ConsumedAt;
      var fraction := if config.queueModel.OptimisticDepth? then 1.0 else config.depletionFraction;
      for i := 0 to |ids|
        invariant S.DepleteEach(PassiveView(), ids[i..], time, found, config)
               == S.DepleteEach(old(PassiveView()), ids, time, found, config)
      {
        var id := ids[i];
        assert ids[i..][0] == id && ids[i..][1..] == ids[i + 1..];
        if id in orders && S.RestingKey(orders[id]).Some? {
          var key := S.RestingKey(orders[id]).value;
          var depletion := S.ConsumedAt(found, key) as real * fraction;
          assert depletion == S.Depletion(found, key, config);
          var depleted := DepleteOrder(orders[id], time, depletion, key.price);
          orders := orders[id := depleted];
        }
      }
    }

    method ProcessDepthDepletion(update: DepthUpdate)
      modifies this`position, this`cash, this`fees, this`fills, this`orders, this`active
      ensures View() == S.ProcessDepletion(old(View()), update, config)
    {
      hide S.DepleteEach, S.SideDecreases, S.StillResting;
      if config.queueModel.TradeOnly? || book.lastUpdateId == 0 {
        return;
      }
      var found := FindDecreases(S.BidSide, update.bids, map[]);
      found := FindDecreases(S.AskSide, update.asks, found);
      DepleteEach(active, update.receipt as int, found);
      KeepResting();
    }

    // ----- market events

    method RefreshConsumedLiquidity(update: DepthUpdate)
      modifies this`consumed, this`refreshed
      ensures View().venue == S.Refresh(old(View()).venue, update, |fills|)
    {
      DropLevels(S.BidSide, update.bids);
      DropLevels(S.AskSide, update.asks);
    }

    method DropLevels(name: S.BookSideName, levels: seq<Level>)
      modifies this`consumed, this`refreshed
      ensures consumed == S.DropKeys(old(consumed), name, levels)
      ensures refreshed == S.MarkKeys(old(refreshed), name, levels, |fills|)
    {
      for i := 0 to |levels|
        invariant S.DropKeys(consumed, name, levels[i..]) == S.DropKeys(old(consumed), name, levels)
        invariant S.MarkKeys(refreshed, name, levels[i..], |fills|) == S.MarkKeys(old(refreshed), name, levels, |fills|)
      {
        assert levels[i..][0] == levels[i] && levels[i..][1..] == levels[i + 1..];
        consumed := consumed - {S.LevelKey(name, levels[i].price)};
        refreshed := refreshed[S.LevelKey(name, levels[i].price) := |fills|];
      }
    }

    method ForgetConsumedLiquidity()
      modifies this`consumed, this`refreshed, this`cleared
      ensures View().venue == S.Cleared(old(View()).venue, |fills|)
    {
      consumed, refreshed, cleared := map[], map[], |fills|;
    }

    method UpdateMid() returns (error: Option<S.SimError>)
      modifies this`latestMid
      ensures Meets(S.WithVenue(old(View()), S.UpdateMid(old(View()).venue)), error, View())
    {
      if book.lastUpdateId == 0 {
        return None;
      }
      if book.bids == map[] || book.asks == map[] {
        return Some(S.EmptyBook);
      }
      var sum: int := MaxPrice(book.bids) as int + MinPrice(book.asks) as int;
      latestMid := Some(sum as real / (2 * PRICE_SCALE) as real);
      return None;
    }

    method OnDepth(update: DepthUpdate) returns (error: Option<S.SimError>)
      modifies this, book
      ensures Meets(S.MarketEvent(old(View()), DepthEvent(update), config), error, View())
      ensures hasRun == old(hasRun)
    {
      hide S.ProcessDepletion, Applied, Sound, S.UpdateMid, S.Refresh;
      if update.finalUpdateId <= book.lastUpdateId {
        return None;
      }
      if update.firstUpdateId > book.lastUpdateId + 1 {
        return Some(S.SequenceHole);
      }
      ProcessDepthDepletion(update);
      ghost var d := View();
      DepletionKeepsVenue(old(View()), update);
      var ok := book.Apply(update);
      if !ok {
        return Some(S.UnsoundBook);
      }
      RefreshConsumedLiquidity(update);
      RefreshKeepsBook(d.venue, book.View(), update, |fills|);
      error := UpdateMid();
    }

    lemma DepletionKeepsVenue(s: S.Sim, u: DepthUpdate)
      ensures S.ProcessDepletion(s, u, config).venue == s.venue
    {
    }

    /** Refreshing levels and storing the new book are independent of each other. */
    lemma RefreshKeepsBook(v: S.Venue, b: Book, u: DepthUpdate, count: nat)
      ensures S.Refresh(v.(book := b), u, count) == S.Refresh(v, u, count).(book := b)
    {
    }

    method OnBoundary(receipt: PosU64, reason: BoundaryReason)
      modifies this, book
      ensures Ok(View()) == S.MarketEvent(old(View()), BoundaryEvent(receipt, reason), config)
      ensures hasRun == old(hasRun)
    {
      hide S.CancelAll;
      CancelAll("market_data_boundary");
      book.Clear();
      latestMid := None;
      ForgetConsumedLiquidity();
    }

    method OnSnapshot(snapshot: Snapshot) returns (error: Option<S.SimError>)
      modifies this, book
      ensures Meets(S.MarketEvent(old(View()), SnapshotEvent(snapshot), config), error, View())
      ensures hasRun == old(hasRun)
    {
      hide Installed, Sound, S.UpdateMid;
      var ok := book.InstallSnapshot(snapshot);
      if !ok {
        return Some(S.UnsoundBook);
      }
      ForgetConsumedLiquidity();
      error := UpdateMid();
    }

    method OnMarketEvent(event: Event) returns (error: Option<S.SimError>)
      modifies this, book
      ensures Meets(S.MarketEvent(old(View()), event, config), error, View())
      ensures hasRun == old(hasRun)
    {
      hide S.MarketEvent;
      error := None;
      match event
      case BoundaryEvent(receipt, reason) => OnBoundary(receipt, reason);
      case SnapshotEvent(snapshot) => error := OnSnapshot(snapshot);
      case DepthEvent(update) => error := OnDepth(update);
      case TradeEvent(trade) => OnTrade(trade);
    }

    method OnTrade(trade: Trade)
      modifies this
      ensures Ok(View()) == S.MarketEvent(old(View()), TradeEvent(trade), config)
      ensures hasRun == old(hasRun)
    {
      hide S.ProcessTrade;
      ProcessTrade(trade);
    }

    method OnEvent(event: Event) returns (error: Option<S.SimError>)
      modifies this, book
      ensures Meets(S.HandleEvent(old(View()), event, config), error, View())
      ensures hasRun == old(hasRun)
    {
      hide S.ProcessControls, S.WithExpiries, S.MarketEvent, S.CheckKillSwitch;
      var time := S.Receipt(event);
      error := ProcessControls(time, false);
      if error.Some? {
        return;
      }
      ExpireOrders(time, false);
      error := OnMarketEvent(event);
      if error.Some? {
        return;
      }
      error := ProcessControls(time, true);
      if error.Some? {
        return;
      }
      ExpireOrders(time, false);
      CheckKillSwitch();
    }

    /** Replays one recording; an instance runs once. */
    method Run(events: seq<Event>) returns (outcome: Result<real, S.SimError>)
      modifies this, book
      ensures old(hasRun) ==> outcome == Err(S.AlreadyRun) && View() == old(View())
      ensures !old(hasRun) ==>
        match S.Simulate(old(View()), events, config)
        case Ok(s) => View() == s && outcome == Ok(S.Equity(s))
        case Err(e) => outcome == Err(e)
      ensures !old(hasRun) && SimInvariant(old(View()), config) ==>
        outcome != Err(S.EmptyBook) && (outcome.Ok? ==> Ended(View(), Submitted(old(View())), config))
    {
      hide S.HandleEvent, S.WithExpiries, S.ExpirePending, S.Equity, SimInvariant, Submitted, Ended;
      ghost var before := View();
      if SimInvariant(before, config) {
        SimulationEnds(before, events, config);
      }
      if hasRun {
        return Err(S.AlreadyRun);
      }
      hasRun := true;
      for i := 0 to |events|
        invariant S.HandleAll(View(), events[i..], config) == S.HandleAll(old(View()), events, config)
      {
        assert events[i..][0] == events[i] && events[i..][1..] == events[i + 1..];
        var error := OnEvent(events[i]);
        if error.Some? {
          return Err(error.value);
        }
      }
      ExpireOrders(UINT64_MAX, true);
      var error := FinalizePendingRequests();
      if error.Some? {
        return Err(error.value);
      }
      var equity := MarkedEquity();
      return Ok(equity);
    }
  }
}
