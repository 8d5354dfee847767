/** Every order's way from submission to an outcome, and what the kill switch stops. */
module SimulationLifecycle {
  import opened Reals
  import opened Results
  import opened L2Types
  import opened OrderBook
  import opened Simulation
  import opened SimulationAccounting

  ghost predicate Distinct(ids: seq<string>) {
    forall i, j | 0 <= i < j < |ids| :: ids[i] != ids[j]
  }

  /** No order is pending once it is on the desk, and an open one is active. */
  ghost predicate Placed(orders: map<string, Order>, active: seq<string>) {
    forall id | id in orders :: !orders[id].status.Pending? && (orders[id].status.Open? ==> id in active)
  }

  /** An active identifier is a resting limit order with something left to fill. */
  ghost predicate ActiveOrder(orders: map<string, Order>, id: string) {
    && id in orders && orders[id].request.instruction.Limit?
    && Resting(orders[id]) && Remaining(orders[id]) != 0
  }

  ghost predicate DeskInOrder(d: Desk) {
    && Distinct(d.active)
    && Placed(d.orders, d.active)
    && (forall id | id in d.active :: ActiveOrder(d.orders, id))
  }

  /** Every identifier ever submitted: on the desk or still to come. */
  function Submitted(s: Sim): set<string> {
    s.desk.orders.Keys + set r | r in s.requests :: r.id
  }

  // ----- leaving the book

  lemma {:induction false} RemoveFirstOf(ids: seq<string>, id: string)
    requires Distinct(ids)
    ensures Distinct(RemoveFirst(ids, id))
    ensures forall k :: k in RemoveFirst(ids, id) <==> k in ids && k != id
    decreases ids
  {
    if ids != [] {
      assert forall k | k in ids :: k == ids[0] || k in ids[1..];
      if ids[0] == id {
        assert id !in ids[1..];
      } else {
        RemoveFirstOf(ids[1..], id);
        var rest := RemoveFirst(ids[1..], id);
        assert ids[0] !in ids[1..];
        forall i, j | 0 <= i < j < |rest| + 1 ensures ([ids[0]] + rest)[i] != ([ids[0]] + rest)[j] {
          assert ([ids[0]] + rest)[j] == rest[j - 1] && rest[j - 1] in rest;
        }
      }
    }
  }

  lemma {:induction false} DropIdOf(ids: seq<string>, id: string)
    requires Distinct(ids)
    ensures Distinct(DropId(ids, id))
    ensures forall k :: k in DropId(ids, id) <==> k in ids && k != id
    decreases ids
  {
    if ids != [] {
      assert forall k | k in ids :: k == ids[0] || k in ids[1..];
      DropIdOf(ids[1..], id);
      var rest := DropId(ids[1..], id);
      assert ids[0] !in ids[1..];
      if ids[0] != id {
        forall i, j | 0 <= i < j < |rest| + 1 ensures ([ids[0]] + rest)[i] != ([ids[0]] + rest)[j] {
          assert ([ids[0]] + rest)[j] == rest[j - 1] && rest[j - 1] in rest;
        }
      } else {
        assert DropId(ids, id) == rest;
      }
    }
  }

  lemma ExpireOneInOrder(d: Desk, id: string, time: nat, final: bool)
    requires DeskInOrder(d) && id in d.active
    ensures var n := ExpireOne(d, id, time, final);
            && DeskInOrder(n)
            && (forall k | k in d.active && k != id :: k in n.active)
            && (forall k | k in n.active :: k in d.active)
            && (final ==> id !in n.active)
  {
    RemoveFirstOf(d.active, id);
    assert ActiveOrder(d.orders, id);
    var n := ExpireOne(d, id, time, final);
    forall k | k in n.active ensures ActiveOrder(n.orders, k) {
      assert ActiveOrder(d.orders, k);
    }
  }

  lemma {:induction false} ExpireInOrder(d: Desk, ids: seq<string>, time: nat, final: bool)
    requires DeskInOrder(d) && Distinct(ids) && forall id | id in ids :: id in d.active
    ensures var n := Expire(d, ids, time, final);
            && DeskInOrder(n)
            && (forall k | k in n.active :: k in d.active)
            && (final ==> forall id | id in ids :: id !in n.active)
    decreases ids
  {
    hide DeskInOrder, ExpireOne;
    if ids != [] {
      var next := ExpireOne(d, ids[0], time, final);
      ExpireOneInOrder(d, ids[0], time, final);
      assert ids[0] !in ids[1..];
      assert forall k | k in ids :: k == ids[0] || k in ids[1..];
      ExpireInOrder(next, ids[1..], time, final);
    }
  }

  lemma {:induction false} CancelEachStatuses(orders: map<string, Order>, ids: seq<string>, reason: string)
    ensures var n := CancelEach(orders, ids, reason);
            && n.Keys == orders.Keys
            && (forall id | id in orders ::
                  (n[id].status == orders[id].status || n[id].status == Cancelled)
                  && (id in ids ==> !Resting(n[id])))
    decreases ids
  {
    if ids != [] {
      CancelEachStatuses(CancelOne(orders, ids[0], reason), ids[1..], reason);
      assert forall k | k in ids :: k == ids[0] || k in ids[1..];
    }
  }

  lemma CancelAllInOrder(d: Desk, reason: string)
    requires DeskInOrder(d)
    ensures DeskInOrder(CancelAll(d, reason)) && CancelAll(d, reason).orders.Keys == d.orders.Keys
  {
    CancelEachStatuses(d.orders, d.active, reason);
  }

  // ----- passive events

  /** What holds of the orders while fills are still being passed round. */
  ghost predicate Passing(orders: map<string, Order>, active: seq<string>) {
    && Placed(orders, active)
    && (forall id | id in active :: id in orders && orders[id].request.instruction.Limit?
                                    && (Resting(orders[id]) ==> Remaining(orders[id]) != 0))
  }

  lemma PutPasses(p: Passive, id: string, b: Booking, active: seq<string>)
    requires Passing(p.orders, active) && id in active
    requires b.order.request == p.orders[id].request && !b.order.status.Pending?
    requires Resting(b.order) ==> Remaining(b.order) != 0
    ensures Passing(Put(p, id, b).orders, active) && Put(p, id, b).orders.Keys == p.orders.Keys
  {
  }

  lemma MakerFillStatus(b: Booking, time: nat, quantity: int, price: Price, cfg: Config)
    requires !b.order.status.Pending? && (Resting(b.order) ==> Remaining(b.order) != 0)
    ensures var n := MakerFill(b, time, quantity, price, cfg);
            && n.order.request == b.order.request && !n.order.status.Pending?
            && (Resting(n.order) ==> Remaining(n.order) != 0)
  {
  }

  lemma {:induction false} TradeEachPasses(p: Passive, ids: seq<string>, trade: Trade, cfg: Config, active: seq<string>)
    requires Passing(p.orders, active) && forall id | id in ids :: id in active
    ensures var q := TradeEach(p, ids, trade, cfg);
            Passing(q.orders, active) && q.orders.Keys == p.orders.Keys
    decreases ids
  {
    hide Passing, MakerFill, MaxZero;
    if ids != [] {
      var id := ids[0];
      OneIsPassing(p.orders, id, active);
      var o, size := p.orders[id], trade.quantity as real;
      MakerFillStatus(Booking(p.ledger, o.(queueAhead := MaxZero(o.queueAhead - size))), trade.receipt as int,
                      Smaller(Remaining(o), MaxZero(size - o.queueAhead).Floor), trade.price, cfg);
      PutPasses(p, id, TradeOne(Booking(p.ledger, o), trade, cfg), active);
      TradeEachPasses(TradeStep(p, id, trade, cfg), ids[1..], trade, cfg, active);
    }
  }

  lemma OneIsPassing(orders: map<string, Order>, id: string, active: seq<string>)
    requires Passing(orders, active) && id in active
    ensures id in orders && !orders[id].status.Pending? && (Resting(orders[id]) ==> Remaining(orders[id]) != 0)
  {
  }

  lemma DepleteOneStatus(b: Booking, time: nat, depletion: real, price: Price, cfg: Config)
    requires !b.order.status.Pending? && (Resting(b.order) ==> Remaining(b.order) != 0)
    ensures var n := DepleteOne(b, time, depletion, price, cfg);
            && n.order.request == b.order.request && !n.order.status.Pending?
            && (Resting(n.order) ==> Remaining(n.order) != 0)
  {
    hide MakerFill;
    if depletion > 0.0 {
      var ahead := b.order.queueAhead;
      var reduction := if ahead < depletion then ahead else depletion;
      MakerFillStatus(b.(order := b.order.(queueAhead := ahead - reduction)), time,
                      Smaller(Remaining(b.order), (depletion - reduction).Floor), price, cfg);
    }
  }

  lemma {:induction false} DepleteEachPasses(p: Passive, ids: seq<string>, time: nat, found: Shadow, cfg: Config, active: seq<string>)
    requires Passing(p.orders, active) && forall id | id in ids :: id in active
    ensures var q := DepleteEach(p, ids, time, found, cfg);
            Passing(q.orders, active) && q.orders.Keys == p.orders.Keys
    decreases ids
  {
    hide Passing, DepleteOne, Depletion;
    if ids != [] {
      var id := ids[0];
      OneIsPassing(p.orders, id, active);
      if RestingKey(p.orders[id]).Some? {
        var key := RestingKey(p.orders[id]).value;
        var b := Booking(p.ledger, p.orders[id]);
        DepleteOneStatus(b, time, Depletion(found, key, cfg), key.price, cfg);
        PutPasses(p, id, DepleteOne(b, time, Depletion(found, key, cfg), key.price, cfg), active);
      }
      DepleteEachPasses(DepleteStep(p, id, time, found, cfg), ids[1..], time, found, cfg, active);
    }
  }

  lemma {:induction false} StillRestingDistinct(orders: map<string, Order>, ids: seq<string>)
    requires Distinct(ids)
    ensures Distinct(StillResting(orders, ids))
    decreases ids
  {
    if ids != [] {
      var init, last := ids[..|ids| - 1], ids[|ids| - 1];
      StillRestingDistinct(orders, init);
      StillRestingIds(orders, init);
      var r := StillResting(orders, init);
      assert last !in init;
      forall i | 0 <= i < |r| ensures r[i] != last {
        assert r[i] in r;
      }
    }
  }

  lemma SettledInOrder(s: Sim, p: Passive)
    requires Distinct(s.desk.active) && Passing(p.orders, s.desk.active)
    ensures DeskInOrder(Settled(s, p).desk)
  {
    StillRestingIds(p.orders, s.desk.active);
    StillRestingDistinct(p.orders, s.desk.active);
  }

  lemma InOrderPasses(d: Desk)
    requires DeskInOrder(d)
    ensures Passing(d.orders, d.active)
  {
    forall id | id in d.active
      ensures id in d.orders && d.orders[id].request.instruction.Limit?
              && (Resting(d.orders[id]) ==> Remaining(d.orders[id]) != 0)
    {
      assert ActiveOrder(d.orders, id);
    }
  }

  // ----- one operation after another

  /** The desk is in order, what is to come is new to it, and a killed simulator has nothing resting. */
  ghost predicate LifeInvariant(s: Sim) {
    && DeskInOrder(s.desk)
    && FreshRequests(s)
    && (s.killed ==> s.desk.active == [])
  }

  lemma StoreInOrder(d: Desk, o: Order)
    requires DeskInOrder(d) && o.request.id !in d.orders && !o.status.Pending? && !o.status.Open?
    ensures DeskInOrder(d.(orders := d.orders[o.request.id := o]))
  {
    forall id | id in d.active ensures ActiveOrder(d.orders[o.request.id := o], id) {
      assert ActiveOrder(d.orders, id);
    }
  }

  lemma AppendInOrder(d: Desk, o: Order)
    requires DeskInOrder(d) && o.request.id !in d.orders
    requires o.status.Open? && o.request.instruction.Limit? && Remaining(o) != 0
    ensures DeskInOrder(Desk(d.orders[o.request.id := o], d.active + [o.request.id]))
  {
    var n := Desk(d.orders[o.request.id := o], d.active + [o.request.id]);
    forall id | id in d.active ensures ActiveOrder(n.orders, id) && id != o.request.id {
      assert ActiveOrder(d.orders, id);
    }
    assert Distinct(n.active) by {
      forall i, j | 0 <= i < j < |n.active| ensures n.active[i] != n.active[j] {
        assert n.active[i] in d.active;
      }
    }
  }

  lemma {:induction false} WalkKeepsRequest(t: Taking, time: nat, levels: seq<Level>, limit: Option<Price>, remaining: int, cfg: Config)
    ensures Walk(t, time, levels, limit, remaining, cfg).booking.order.request == t.booking.order.request
    decreases levels
  {
    hide Available, Fee, Notional, BeyondLimit;
    if levels != [] && remaining > 0 {
      var level, side := levels[0], t.booking.order.request.side;
      var quantity := Smaller(remaining, Available(level, side, t.consumed));
      WalkKeepsRequest(t, time, levels[1..], limit, remaining, cfg);
      WalkKeepsRequest(TakeLevel(t, time, level, quantity, cfg), time, levels[1..], limit, remaining - quantity, cfg);
    }
  }

  lemma ActivateLives(s: Sim, o: Order, cfg: Config)
    requires DeskInOrder(s.desk) && (s.killed ==> s.desk.active == [])
    requires o.request.id !in s.desk.orders && o.filled == 0
    ensures var r := Activate(s, o, cfg);
            r.Ok? ==>
              && DeskInOrder(r.value.desk) && r.value.killed == s.killed
              && (s.killed ==> r.value.desk.active == [] && r.value.ledger == s.ledger
                               && r.value.desk.orders == s.desk.orders[o.request.id := o.(status := Rejected, reason := "kill_switch_active")])
              && r.value.desk.orders.Keys == s.desk.orders.Keys + {o.request.id}
              && r.value.requests == s.requests && r.value.cancels == s.cancels
  {
    hide DeskInOrder, Walk, WalkLevels, OwnQueue, Marketable, PositionAllows;
    var r := Activate(s, o, cfg);
    if r.Ok? {
      var id := o.request.id;
      var w := Walk(Taking(Booking(s.ledger, o), s.venue.consumed), o.arrival, WalkLevels(s.venue.book, o.request.side),
                    if o.request.instruction.Market? then None else Some(o.request.instruction.price), Remaining(o), cfg);
      WalkKeepsRequest(Taking(Booking(s.ledger, o), s.venue.consumed), o.arrival, WalkLevels(s.venue.book, o.request.side),
                       if o.request.instruction.Market? then None else Some(o.request.instruction.price), Remaining(o), cfg);
      var done := r.value.desk.orders[id];
      if done.status.Open? {
        AppendInOrder(s.desk, done);
      } else {
        StoreInOrder(s.desk, done);
      }
    }
  }

  lemma ExpiriesLive(s: Sim, time: nat, final: bool)
    requires LifeInvariant(s)
    ensures var n := WithExpiries(s, time, final);
            && LifeInvariant(n) && n.desk.orders.Keys == s.desk.orders.Keys
            && (final ==> n.desk.active == [])
  {
    hide Expire, DeskInOrder;
    DeskIsDistinct(s.desk);
    ExpireInOrder(s.desk, s.desk.active, time, final);
    ExpireRestates(s.desk, s.desk.active, time, final);
    var n := Expire(s.desk, s.desk.active, time, final);
    assert n.active != [] ==> n.active[0] in n.active;
  }

  lemma DeskIsDistinct(d: Desk)
    requires DeskInOrder(d)
    ensures Distinct(d.active)
  {
  }

  lemma KillSwitchLives(s: Sim, cfg: Config)
    requires LifeInvariant(s)
    ensures var n := CheckKillSwitch(s, cfg);
            LifeInvariant(n) && n.desk.orders.Keys == s.desk.orders.Keys && (s.killed ==> n == s)
  {
    hide DeskInOrder, Equity;
    CancelAllInOrder(s.desk, "kill_switch");
  }

  lemma ActivateNextLives(s: Sim, arrival: nat, cfg: Config)
    requires LifeInvariant(s) && s.requests != []
    ensures var r := ActivateNext(s, arrival, cfg);
            r.Ok? ==>
              && LifeInvariant(r.value) && r.value.killed == s.killed && Submitted(r.value) == Submitted(s)
              && (s.killed ==> r.value.ledger == s.ledger && r.value.desk.orders[s.requests[0].id].status == Rejected)
  {
    hide DeskInOrder, Activate;
    var r, id := ActivateNext(s, arrival, cfg), s.requests[0].id;
    assert s.requests[0] in s.requests;
    if r.Ok? {
      var o := Order(s.requests[0], arrival, Expiry(arrival, s.requests[0].timeToLive).value, Pending, 0, 0.0, "");
      ActivateLives(s.(requests := s.requests[1..]), o, cfg);
      assert s.requests == [s.requests[0]] + s.requests[1..];
      forall q | q in r.value.requests ensures q.id !in r.value.desk.orders {
        assert q in s.requests;
      }
      SubmittedMoves(s, r.value, id);
    }
  }

  lemma SubmittedMoves(s: Sim, n: Sim, id: string)
    requires exists r | r in s.requests :: r.id == id
    requires n.desk.orders.Keys == s.desk.orders.Keys + {id}
    requires forall r | r in n.requests :: r in s.requests
    requires forall r | r in s.requests :: r in n.requests || r.id == id
    ensures Submitted(n) == Submitted(s)
  {
    forall k ensures k in Submitted(n) <==> k in Submitted(s) {
    }
  }

  lemma CancelLives(s: Sim, cfg: Config)
    requires LifeInvariant(s) && s.cancels != []
    ensures var r := ProcessNextCancel(s, cfg);
            r.Ok? ==>
              && LifeInvariant(r.value) && r.value.killed == s.killed && Submitted(r.value) == Submitted(s)
              && r.value.ledger == s.ledger
  {
    hide DropId;
    var r, id, d := ProcessNextCancel(s, cfg), s.cancels[0].request.id, s.desk;
    if id in d.orders && Resting(d.orders[id]) {
      CancelRestingInOrder(d, id);
      assert d.active == [] ==> DropId(d.active, id) == [] by { DropIdOf(d.active, id); }
    } else if r.Ok? && IndexOf(s.requests, id).Some? {
      var i := IndexOf(s.requests, id).value;
      assert s.requests[i] in s.requests;
      var o := NeverArrived(s.requests[i], Cancelled, "cancel_arrived_before_order", cfg).value;
      StoreInOrder(d, o);
      WithoutOne(s, i, r.value);
    }
  }

  lemma CancelRestingInOrder(d: Desk, id: string)
    requires DeskInOrder(d) && id in d.orders
    ensures DeskInOrder(Desk(d.orders[id := d.orders[id].(status := Cancelled)], DropId(d.active, id)))
    ensures d.active == [] ==> DropId(d.active, id) == []
  {
    DropIdOf(d.active, id);
    var n := Desk(d.orders[id := d.orders[id].(status := Cancelled)], DropId(d.active, id));
    forall k | k in n.active ensures ActiveOrder(n.orders, k) {
      assert ActiveOrder(d.orders, k);
    }
  }

  /** Taking one request out of the middle moves its identifier to the desk. */
  lemma WithoutOne(s: Sim, i: nat, n: Sim)
    requires FreshRequests(s) && i < |s.requests|
    requires n.requests == s.requests[..i] + s.requests[i + 1..]
    requires n.desk.orders.Keys == s.desk.orders.Keys + {s.requests[i].id}
    ensures FreshRequests(n) && Submitted(n) == Submitted(s)
  {
    hide Submitted;
    var id := s.requests[i].id;
    forall k | 0 <= k < |n.requests| ensures n.requests[k] in s.requests && n.requests[k].id != id {
      var source := s.requests[if k < i then k else k + 1];
      assert n.requests[k] == source;
    }
    assert s.requests[i] in s.requests;
    SubmittedMoves(s, n, id);
  }

  lemma MarketEventLives(s: Sim, e: Event, cfg: Config)
    requires LifeInvariant(s)
    ensures var r := MarketEvent(s, e, cfg);
            r.Ok? ==>
              && LifeInvariant(r.value) && r.value.desk.orders.Keys == s.desk.orders.Keys
              && r.value.requests == s.requests && r.value.cancels == s.cancels && r.value.killed == s.killed
              && (s.killed ==> r.value.ledger == s.ledger)
  {
    hide DeskInOrder, CancelEach, TradeEach, DepleteEach, TradeQueue, Decreases, Refresh, Cleared, Applied, Installed, Sound,
         UpdateMid, Passing, StillResting;
    DeskIsDistinct(s.desk);
    InOrderPasses(s.desk);
    var p := Passive(s.ledger, s.desk.orders);
    match e
    case BoundaryEvent(_, _) => CancelAllInOrder(s.desk, "market_data_boundary");
    case SnapshotEvent(_) =>
    case DepthEvent(u) =>
      var found := Decreases(s.venue.book, u);
      DepleteEachPasses(p, s.desk.active, u.receipt as int, found, cfg, s.desk.active);
      SettledInOrder(s, DepleteEach(p, s.desk.active, u.receipt as int, found, cfg));
      NothingActive(p, u.receipt as int, found, cfg);
    case TradeEvent(t) =>
      TradeQueueEligible(s.desk, t);
      TradeEachPasses(p, TradeQueue(s.desk, t), t, cfg, s.desk.active);
      SettledInOrder(s, TradeEach(p, TradeQueue(s.desk, t), t, cfg));
  }

  lemma NothingActive(p: Passive, time: nat, found: Shadow, cfg: Config)
    ensures DepleteEach(p, [], time, found, cfg) == p && StillResting(p.orders, []) == []
  {
  }
}
