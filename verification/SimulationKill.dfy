/** After the kill switch nothing fills any more. */
module SimulationKill {
  import opened Results
  import opened L2Types
  import opened OrderBook
  import opened Simulation
  import opened SimulationLifecycle
  import opened SimulationRuns

  /** An order that reached the desk after the switch: refused, or cancelled before it arrived. */
  predicate StoppedOrder(o: Order) {
    (o.status.Rejected? && o.reason == "kill_switch_active") ||
    (o.status.Cancelled? && o.reason == "cancel_arrived_before_order")
  }

  ghost predicate OrderFrozen(a: map<string, Order>, b: map<string, Order>, id: string)
    requires id in b
  {
    if id in a then b[id] == a[id] || (Resting(a[id]) && b[id] == a[id].(status := Cancelled))
    else StoppedOrder(b[id])
  }

  /** From s to n no fill was booked, nothing came to rest, and new orders were stopped. */
  ghost predicate Frozen(s: Sim, n: Sim) {
    && s.killed && n.killed && s.desk.active == [] && n.desk.active == []
    && n.ledger == s.ledger
    && s.desk.orders.Keys <= n.desk.orders.Keys
    && (forall id | id in n.desk.orders :: OrderFrozen(s.desk.orders, n.desk.orders, id))
  }

  lemma FrozenSame(s: Sim, n: Sim)
    requires s.killed && n.killed && s.desk.active == [] && n.desk == s.desk && n.ledger == s.ledger
    ensures Frozen(s, n)
  {
  }

  lemma FrozenCompose(a: Sim, b: Sim, c: Sim)
    requires Frozen(a, b) && Frozen(b, c)
    ensures Frozen(a, c)
  {
    forall id | id in c.desk.orders ensures OrderFrozen(a.desk.orders, c.desk.orders, id) {
      assert OrderFrozen(b.desk.orders, c.desk.orders, id);
      assert id in b.desk.orders ==> OrderFrozen(a.desk.orders, b.desk.orders, id);
    }
  }

  lemma ExpiriesFreeze(s: Sim, time: nat, final: bool)
    requires s.killed && s.desk.active == []
    ensures Frozen(s, WithExpiries(s, time, final))
  {
    assert Expire(s.desk, [], time, final) == s.desk;
    FrozenSame(s, WithExpiries(s, time, final));
  }

  lemma OneControlFreezes(s: Sim, orderArrival: Option<nat>, arrival: nat, cfg: Config)
    requires LifeInvariant(s) && s.killed
    requires orderArrival.Some? ==> s.requests != []
    requires orderArrival != Some(arrival) ==> s.cancels != []
    ensures var r := ProcessOneControl(s, orderArrival, arrival, cfg);
            r.Ok? ==> Frozen(s, r.value) && LifeInvariant(r.value)
  {
    hide DeskInOrder, Walk, WalkLevels, Expire, Equity, OwnQueue;
    ExpiriesLive(s, arrival, false);
    ExpiriesFreeze(s, arrival, false);
    var e := WithExpiries(s, arrival, false);
    var r := ProcessOneControl(s, orderArrival, arrival, cfg);
    if r.Ok? {
      if orderArrival == Some(arrival) {
        ActivateNextLives(e, arrival, cfg);
        IsNew(e);
        KillSwitchLives(ActivateNext(e, arrival, cfg).value, cfg);
        assert Frozen(e, r.value);
      } else {
        CancelLives(e, cfg);
        CancelFreezes(e, cfg);
      }
      FrozenCompose(s, e, r.value);
    }
  }

  lemma CancelFreezes(s: Sim, cfg: Config)
    requires LifeInvariant(s) && s.killed && s.cancels != []
    ensures var r := ProcessNextCancel(s, cfg); r.Ok? ==> Frozen(s, r.value)
  {
    hide DeskInOrder;
    var r, id := ProcessNextCancel(s, cfg), s.cancels[0].request.id;
    assert DropId([], id) == [];
    var i := IndexOf(s.requests, id);
    if r.Ok? && i.Some? {
      assert s.requests[i.value] in s.requests;
    }
  }

  lemma {:induction false} ControlsFreeze(s: Sim, time: nat, inclusive: bool, cfg: Config)
    requires LifeInvariant(s) && s.killed
    ensures var r := ProcessControls(s, time, inclusive, cfg);
            r.Ok? ==> Frozen(s, r.value) && LifeInvariant(r.value)
    decreases |s.requests| + |s.cancels|
  {
    hide LifeInvariant, Frozen, ProcessOneControl;
    KilledIsEmpty(s);
    var n := NextOrderArrival(s, cfg);
    if n.Ok? {
      var next := Earlier(n.value, NextCancelArrival(s));
      if next.Some? && Ready(next.value, time, inclusive) {
        OneControlShrinks(s, n.value, next.value, cfg);
        OneControlFreezes(s, n.value, next.value, cfg);
        var one := ProcessOneControl(s, n.value, next.value, cfg);
        if one.Ok? {
          FrozenKilled(s, one.value);
          ControlsFreeze(one.value, time, inclusive, cfg);
          if ProcessControls(one.value, time, inclusive, cfg).Ok? {
            FrozenCompose(s, one.value, ProcessControls(one.value, time, inclusive, cfg).value);
          }
        }
      } else {
        FrozenSame(s, s);
      }
    }
  }

  lemma KilledIsEmpty(s: Sim)
    requires LifeInvariant(s) && s.killed
    ensures s.desk.active == []
  {
  }

  lemma FrozenKilled(s: Sim, n: Sim)
    requires Frozen(s, n)
    ensures n.killed && n.desk.active == []
  {
  }

  lemma MarketEventFreezes(s: Sim, e: Event, cfg: Config)
    requires LifeInvariant(s) && s.killed
    ensures var r := MarketEvent(s, e, cfg);
            r.Ok? ==> Frozen(s, r.value) && LifeInvariant(r.value)
  {
    hide DeskInOrder, Applied, Installed, Sound, UpdateMid, Decreases, Refresh, Cleared;
    MarketEventLives(s, e, cfg);
    var r := MarketEvent(s, e, cfg);
    var p := Passive(s.ledger, s.desk.orders);
    match e
    case BoundaryEvent(_, _) =>
      assert CancelEach(s.desk.orders, [], "market_data_boundary") == s.desk.orders;
      FrozenSame(s, r.value);
    case SnapshotEvent(_) =>
      if r.Ok? { FrozenSame(s, r.value); }
    case DepthEvent(u) =>
      NothingActive(p, u.receipt as int, Decreases(s.venue.book, u), cfg);
      if r.Ok? { FrozenSame(s, r.value); }
    case TradeEvent(_) => FrozenSame(s, r.value);
  }

  lemma HandleEventFreezes(s: Sim, e: Event, cfg: Config)
    requires LifeInvariant(s) && s.killed
    ensures var r := HandleEvent(s, e, cfg);
            r.Ok? ==> Frozen(s, r.value) && LifeInvariant(r.value)
  {
    hide LifeInvariant, Frozen, ProcessControls, MarketEvent, WithExpiries, CheckKillSwitch;
    var time := Receipt(e);
    ControlsFreeze(s, time, false, cfg);
    if HandleEvent(s, e, cfg).Ok? {
      var c := ProcessControls(s, time, false, cfg).value;
      ThenExpiries(s, c, time);
      var before := WithExpiries(c, time, false);
      MarketEventFreezes(before, e, cfg);
      var moved := MarketEvent(before, e, cfg).value;
      FrozenCompose(s, before, moved);
      FrozenKilled(s, moved);
      ControlsFreeze(moved, time, true, cfg);
      var d := ProcessControls(moved, time, true, cfg).value;
      FrozenCompose(s, moved, d);
      ThenExpiries(s, d, time);
      KillSwitchLives(WithExpiries(d, time, false), cfg);
    }
  }

  lemma ThenExpiries(s: Sim, c: Sim, time: nat)
    requires Frozen(s, c) && LifeInvariant(c)
    ensures var n := WithExpiries(c, time, false); Frozen(s, n) && LifeInvariant(n) && n.killed
  {
    hide LifeInvariant, Expire;
    FrozenKilled(s, c);
    ExpiriesFreeze(c, time, false);
    ExpiriesLive(c, time, false);
    FrozenCompose(s, c, WithExpiries(c, time, false));
  }

  /**
   Once the kill switch is set no fill is booked for the rest of the recording, whatever happens;
   an order that is activated is rejected; and older orders keep their records, except that a
   partly filled one can still be cancelled.
   */
  lemma {:induction false} KillSwitchStopsFills(s: Sim, events: seq<Event>, cfg: Config)
    requires LifeInvariant(s) && s.killed
    ensures var r := HandleAll(s, events, cfg);
            r.Ok? ==> Frozen(s, r.value) && LifeInvariant(r.value)
    decreases events
  {
    hide LifeInvariant, Frozen, HandleEvent;
    if events == [] {
      KilledIsEmpty(s);
      FrozenSame(s, s);
    } else {
      HandleEventFreezes(s, events[0], cfg);
      var next := HandleEvent(s, events[0], cfg);
      if next.Ok? {
        FrozenKilled(s, next.value);
        KillSwitchStopsFills(next.value, events[1..], cfg);
        if HandleAll(next.value, events[1..], cfg).Ok? {
          FrozenCompose(s, next.value, HandleAll(next.value, events[1..], cfg).value);
        }
      }
    }
  }

  /** A request that had not arrived when the recording ended. */
  predicate NeverReached(o: Order) {
    o.status.Expired? && o.reason == "recording_ended_before_arrival"
  }

  lemma {:induction false} PendingOnlyExpires(orders: map<string, Order>, requests: seq<Request>, cfg: Config)
    requires forall i, j | 0 <= i < j < |requests| :: requests[i].id != requests[j].id
    requires forall r | r in requests :: r.id !in orders
    ensures var r := ExpirePending(orders, requests, cfg);
            r.Ok? ==>
              && orders.Keys <= r.value.Keys
              && forall id | id in r.value :: if id in orders then r.value[id] == orders[id] else NeverReached(r.value[id])
    decreases requests
  {
    hide OrderArrival, Expiry;
    if requests != [] {
      var one := NeverArrived(requests[0], Expired, "recording_ended_before_arrival", cfg);
      if one.Ok? {
        assert requests[0] in requests;
        var next := orders[requests[0].id := one.value];
        forall r | r in requests[1..] ensures r.id !in next {
          assert r in requests;
        }
        PendingOnlyExpires(next, requests[1..], cfg);
      }
    }
  }

  /**
   From the kill switch to the end of the simulation no fill is booked: every later order is rejected,
   cancelled before it arrived or expired unreached, and older ones keep their records but for a
   cancelled rest.
   */
  lemma KillSwitchStopsSimulation(s: Sim, events: seq<Event>, cfg: Config)
    requires LifeInvariant(s) && s.killed
    ensures var r := Simulate(s, events, cfg);
            r.Ok? ==>
              && r.value.ledger == s.ledger && r.value.killed
              && s.desk.orders.Keys <= r.value.desk.orders.Keys
              && forall id | id in r.value.desk.orders ::
                   OrderFrozen(s.desk.orders, r.value.desk.orders, id)
                   || (id !in s.desk.orders && NeverReached(r.value.desk.orders[id]))
  {
    hide HandleAll, OrderFrozen, DeskInOrder, NeverReached;
    KillSwitchStopsFills(s, events, cfg);
    var h := HandleAll(s, events, cfg);
    if h.Ok? && Simulate(s, events, cfg).Ok? {
      NoneToExpire(h.value.desk, UINT64_MAX);
      PendingOnlyExpires(h.value.desk.orders, h.value.requests, cfg);
      var orders, after := h.value.desk.orders, Simulate(s, events, cfg).value.desk.orders;
      forall id | id in after ensures OrderFrozen(s.desk.orders, after, id) || (id !in s.desk.orders && NeverReached(after[id])) {
        if id in orders {
          StillFrozen(s.desk.orders, orders, after, id);
        }
      }
    }
  }

  lemma NoneToExpire(d: Desk, time: nat)
    requires d.active == []
    ensures Expire(d, d.active, time, true) == d
  {
  }

  lemma StillFrozen(a: map<string, Order>, b: map<string, Order>, c: map<string, Order>, id: string)
    requires id in b && id in c && c[id] == b[id] && OrderFrozen(a, b, id)
    ensures OrderFrozen(a, c, id)
  {
  }

  /** The switch is set exactly when marked equity has fallen to the loss limit, and empties the book. */
  lemma KillSwitchTrips(s: Sim, cfg: Config)
    requires LifeInvariant(s) && !s.killed
    ensures var n := CheckKillSwitch(s, cfg);
            && (n.killed <==> cfg.killLoss.Some? && Equity(s) <= -cfg.killLoss.value)
            && (n.killed ==> n.desk.active == [] && n.ledger == s.ledger
                             && forall id | id in s.desk.active :: id in n.desk.orders && n.desk.orders[id].status.Cancelled?)
  {
    hide Equity, DeskInOrder;
    CancelsActive(s.desk, "kill_switch");
  }

  lemma CancelsActive(d: Desk, reason: string)
    requires DeskInOrder(d)
    ensures forall id | id in d.active :: id in CancelAll(d, reason).orders && CancelAll(d, reason).orders[id].status.Cancelled?
  {
    CancelEachStatuses(d.orders, d.active, reason);
    forall id | id in d.active
      ensures id in CancelAll(d, reason).orders && CancelAll(d, reason).orders[id].status.Cancelled?
    {
      assert ActiveOrder(d.orders, id);
    }
  }
}
