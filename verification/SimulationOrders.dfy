/**
 What becomes of one order: a cancel cancels it, an expiry is neither early nor late, and an order
 that has left the book stays as it is and books no fill for the rest of every run.
 */
module SimulationOrders {
  import opened Reals
  import opened Results
  import opened L2Types
  import opened OrderBook
  import opened Sorting
  import opened Simulation
  import opened SimulationAccounting
  import opened SimulationLiquidity
  import opened SimulationLifecycle
  import opened SimulationRuns
  import opened SimulationQueue
  import opened SimulationQueueRuns
  import opened SimulationQueueRecordings

  // ----- a cancel cancels

  /** The other active identifiers, each pair in its order. */
  ghost predicate Without(before: seq<string>, after: seq<string>, id: string) {
    && (forall k :: k in after <==> k in before && k != id)
    && (forall a, b :: Before(after, a, b) <==> Before(before, a, b) && a != id && b != id)
  }

  lemma {:induction false} DropIdWithout(ids: seq<string>, id: string)
    requires Distinct(ids)
    ensures Without(ids, DropId(ids, id), id)
  {
    hide Before, DropId;
    DropIdOf(ids, id);
    var kept := DropId(ids, id);
    forall a, b
      ensures Before(kept, a, b) <==> Before(ids, a, b) && a != id && b != id
    {
      if Before(kept, a, b) {
        DropIdOrder(ids, id, a, b);
        BeforeIn(kept, a, b);
      } else if Before(ids, a, b) && a != id && b != id {
        BeforeIn(ids, a, b);
        EitherBefore(kept, a, b);
        DropIdOrder(ids, id, b, a);
        assert false;
      }
    }
  }

  /**
   The next cancel takes a resting order off the book and changes nothing else about it or about
   anybody: its record is the old one with the status Cancelled, it is no longer active, and every
   other record, the other active orders in their order, the ledger and the pending orders are as
   they were.
   */
  lemma CancelCancels(s: Sim, cfg: Config)
    requires SimInvariant(s, cfg) && s.cancels != []
    requires var id := s.cancels[0].request.id;
             id in s.desk.orders && s.desk.orders[id].status in {Open, PartiallyFilled}
    ensures var r, id := ProcessNextCancel(s, cfg), s.cancels[0].request.id;
            && r.Ok?
            && var n := r.value;
               && n == s.(cancels := s.cancels[1..], desk := n.desk)
               && n.desk.orders == s.desk.orders[id := s.desk.orders[id].(status := Cancelled)]
               && id !in n.desk.active
               && Without(s.desk.active, n.desk.active, id)
  {
    hide Without, DropId, Accounts, Liquid, Sound, KeyLeq;
    DropIdWithout(s.desk.active, s.cancels[0].request.id);
    NotIn(s.desk.active, DropId(s.desk.active, s.cancels[0].request.id), s.cancels[0].request.id);
  }

  lemma NotIn(before: seq<string>, after: seq<string>, id: string)
    requires Without(before, after, id)
    ensures id !in after
  {
  }

  /**
   A cancel that arrives before its order takes the request away: the order never reaches the venue
   and its record says Cancelled with nothing filled. It raises exactly when that record's times
   pass 64 bits.
   */
  lemma CancelBeforeArrival(s: Sim, i: nat, cfg: Config)
    requires SimInvariant(s, cfg) && s.cancels != [] && i < |s.requests|
    requires s.requests[i].id == s.cancels[0].request.id
    ensures var r, q := ProcessNextCancel(s, cfg), s.requests[i];
            var arrival := q.decision + cfg.decisionLatency + cfg.transmissionLatency;
            var expiry := arrival + (if q.timeToLive.Some? then q.timeToLive.value else 0);
            && (r.Ok? <==> expiry <= UINT64_MAX)
            && (r.Ok? ==>
                  && r.value == s.(cancels := s.cancels[1..], requests := s.requests[..i] + s.requests[i + 1..],
                                   desk := s.desk.(orders := r.value.desk.orders))
                  && r.value.desk.orders == s.desk.orders[q.id := r.value.desk.orders[q.id]]
                  && r.value.desk.orders[q.id].request == q
                  && r.value.desk.orders[q.id].status == Cancelled && r.value.desk.orders[q.id].filled == 0)
  {
    hide DeskInOrder, Accounts, Liquid, Sound, KeyLeq, DropId;
    assert s.requests[i] in s.requests;
    var found := IndexOf(s.requests, s.cancels[0].request.id);
    assert found == Some(i) by {
      assert found.Some? && s.requests[found.value].id == s.requests[i].id;
    }
  }

  /** A cancel for anything else is only taken off the list. */
  lemma CancelOfNothing(s: Sim, cfg: Config)
    requires s.cancels != []
    requires var id := s.cancels[0].request.id;
             && (id in s.desk.orders ==> s.desk.orders[id].status !in {Open, PartiallyFilled})
             && (forall r | r in s.requests :: r.id != id)
    ensures ProcessNextCancel(s, cfg) == Ok(s.(cancels := s.cancels[1..]))
  {
    assert IndexOf(s.requests, s.cancels[0].request.id).None?;
  }

  // ----- an expiry is neither early nor late

  /** Of the active orders exactly those whose time to live has run out by now are gone, marked Expired. */
  ghost predicate ExpiredBy(d: Desk, n: Desk, id: string, time: nat)
    requires id in d.orders && id in n.orders
  {
    var out := id in d.active && d.orders[id].expiry.Some? && d.orders[id].expiry.value <= time;
    && n.orders[id] == (if out then d.orders[id].(status := Expired) else d.orders[id])
    && (id in n.active <==> id in d.active && !out)
  }

  /** The same before the identifiers still to come were looked at. */
  ghost predicate ExpiredSoFar(d: Desk, n: Desk, rest: seq<string>, time: nat) {
    && n.orders.Keys == d.orders.Keys && Distinct(n.active)
    && (forall id | id in rest && id in d.orders :: n.orders[id] == d.orders[id] && (id in n.active <==> id in d.active))
    && (forall id | id in d.orders && id !in rest :: ExpiredBy(d, n, id, time))
  }

  lemma ExpireNext(d: Desk, n: Desk, rest: seq<string>, time: nat)
    requires rest != [] && Distinct(rest) && rest[0] in d.active && rest[0] in d.orders
    requires ExpiredSoFar(d, n, rest, time)
    ensures ExpiredSoFar(d, ExpireOne(n, rest[0], time, false), rest[1..], time)
  {
    hide DropId, RemoveFirst;
    var id := rest[0];
    RemoveFirstOf(n.active, id);
    var e := ExpireOne(n, id, time, false);
    assert id in rest && forall k | k in rest[1..] :: k in rest && k != id;
    forall k | k in d.orders && k !in rest[1..]
      ensures ExpiredBy(d, e, k, time)
    {
      assert k != id ==> k !in rest;
      assert k != id ==> ExpiredBy(d, n, k, time);
    }
  }

  lemma {:induction false} ExpireAll(d: Desk, n: Desk, rest: seq<string>, time: nat)
    requires Distinct(rest) && forall k | k in rest :: k in d.active && k in d.orders
    requires ExpiredSoFar(d, n, rest, time)
    ensures ExpiredSoFar(d, Expire(n, rest, time, false), [], time)
    decreases rest
  {
    hide ExpiredSoFar, ExpireOne;
    if rest != [] {
      assert rest[0] in rest;
      ExpireNext(d, n, rest, time);
      ExpireAll(d, ExpireOne(n, rest[0], time, false), rest[1..], time);
    }
  }

  /** When the clock reaches a time, exactly the active orders that expire by then leave, as Expired. */
  lemma ClockExpires(s: Sim, time: nat, cfg: Config)
    requires SimInvariant(s, cfg)
    ensures var n := WithExpiries(s, time, false);
            && n == s.(desk := n.desk) && n.desk.orders.Keys == s.desk.orders.Keys
            && forall id | id in s.desk.orders :: ExpiredBy(s.desk, n.desk, id, time)
  {
    hide ExpiredBy, Expire, Accounts, Liquid, PendingSorted, Sound;
    InvariantQueues(s, cfg);
    assert ExpiredSoFar(s.desk, s.desk, s.desk.active, time) by {
      NoneExpiredYet(s.desk, time);
    }
    ExpireAll(s.desk, s.desk, s.desk.active, time);
  }

  lemma NoneExpiredYet(d: Desk, time: nat)
    requires Distinct(d.active) && forall k | k in d.active :: k in d.orders
    ensures ExpiredSoFar(d, d, d.active, time)
  {
  }

  // ----- an order that has left the book

  /** The order is on record, not active, and neither open nor partly filled. */
  predicate Final(s: Sim, id: string) {
    && id in s.desk.orders && id !in s.desk.active
    && s.desk.orders[id].status !in {Open, PartiallyFilled}
  }

  /** From s to n the order is as it was, and none of the fills booked is its own. */
  ghost predicate Untouched(s: Sim, n: Sim, id: string) {
    && Final(n, id) && id in s.desk.orders && n.desk.orders[id] == s.desk.orders[id]
    && NoneBooked(s.ledger.fills, n.ledger.fills, id)
  }

  ghost predicate NoneBooked(before: seq<Fill>, after: seq<Fill>, id: string) {
    before <= after && forall i | |before| <= i < |after| :: after[i].id != id
  }

  lemma NoneBookedTwice(a: seq<Fill>, b: seq<Fill>, c: seq<Fill>, id: string)
    requires NoneBooked(a, b, id) && NoneBooked(b, c, id)
    ensures NoneBooked(a, c, id)
  {
    forall i | |a| <= i < |c| ensures c[i].id != id {
      assert i < |b| ==> c[i] == b[i];
    }
  }

  lemma UntouchedTwice(a: Sim, b: Sim, c: Sim, id: string)
    requires Untouched(a, b, id) && Untouched(b, c, id)
    ensures Untouched(a, c, id)
  {
    NoneBookedTwice(a.ledger.fills, b.ledger.fills, c.ledger.fills, id);
  }

  lemma {:induction false} WalkBooksItsOwn(
    t: Taking, time: nat, levels: seq<Level>, limit: Option<Price>, remaining: int, cfg: Config, id: string)
    requires t.booking.order.request.id != id
    ensures NoneBooked(t.booking.ledger.fills, Walk(t, time, levels, limit, remaining, cfg).booking.ledger.fills, id)
    decreases levels
  {
    hide NoneBooked, BeyondLimit, Available, Fee, Notional, PositionAllows;
    BooksNothing(t.booking.ledger.fills, id);
    if levels != [] && remaining > 0 {
      var level, side := levels[0], t.booking.order.request.side;
      var quantity := Smaller(remaining, Available(level, side, t.consumed));
      WalkBooksItsOwn(t, time, levels[1..], limit, remaining, cfg, id);
      if quantity > 0 {
        var n := TakeLevel(t, time, level, quantity, cfg);
        BooksOther(t.booking, time, quantity, level.price, false, cfg, id);
        WalkBooksItsOwn(n, time, levels[1..], limit, remaining - quantity, cfg, id);
        NoneBookedTwice(t.booking.ledger.fills, n.booking.ledger.fills,
                        Walk(n, time, levels[1..], limit, remaining - quantity, cfg).booking.ledger.fills, id);
      }
    }
  }

  lemma BooksNothing(fills: seq<Fill>, id: string)
    ensures NoneBooked(fills, fills, id)
  {
  }

  lemma BooksOther(b: Booking, time: nat, quantity: int, price: Price, maker: bool, cfg: Config, id: string)
    requires b.order.request.id != id
    ensures var n := RecordFill(b, time, quantity, price, maker, cfg);
            NoneBooked(b.ledger.fills, n.ledger.fills, id) && n.order.request == b.order.request
  {
    hide Fee, Notional, PositionAllows;
  }

  /** A passive event leaves the order alone when it does not go through its identifier. */
  ghost predicate Passed(p: Passive, q: Passive, id: string) {
    && id in p.orders && id in q.orders && q.orders[id] == p.orders[id]
    && NoneBooked(p.ledger.fills, q.ledger.fills, id)
  }

  lemma PutPassed(p: Passive, other: string, b: Booking, id: string)
    requires id in p.orders && other != id && NoneBooked(p.ledger.fills, b.ledger.fills, id)
    ensures Passed(p, Put(p, other, b), id)
  {
    hide NoneBooked;
  }

  lemma PassedSame(p: Passive, id: string)
    requires id in p.orders
    ensures Passed(p, p, id)
  {
  }

  lemma PassedTwice(a: Passive, b: Passive, c: Passive, id: string)
    requires Passed(a, b, id) && Passed(b, c, id)
    ensures Passed(a, c, id)
  {
    NoneBookedTwice(a.ledger.fills, b.ledger.fills, c.ledger.fills, id);
  }

  lemma MakerBooksItsOwn(b: Booking, time: nat, quantity: int, price: Price, cfg: Config, id: string)
    requires b.order.request.id != id
    ensures NoneBooked(b.ledger.fills, MakerFill(b, time, quantity, price, cfg).ledger.fills, id)
  {
    hide RecordFill, NoneBooked;
    BooksNothing(b.ledger.fills, id);
    BooksOther(b, time, quantity, price, true, cfg, id);
  }

  /** Everything a step of a trade or a decrease needs to know of the order it reaches. */
  ghost predicate OwnId(orders: map<string, Order>) {
    forall k | k in orders :: orders[k].request.id == k
  }

  lemma FlowStepPasses(p: Passive, k: string, f: Flow, cfg: Config, id: string)
    requires id in p.orders && k != id && OwnId(p.orders)
    ensures Passed(p, FlowStep(p, k, f, cfg), id) && OwnId(FlowStep(p, k, f, cfg).orders)
  {
    hide Passed, NoneBooked, MakerFill, MaxZero, Depletion;
    PassedSame(p, id);
    if k in p.orders {
      var b := Booking(p.ledger, p.orders[k]);
      match f
      case Traded(trade) =>
        var size, ahead := trade.quantity as real, b.order.queueAhead;
        var moved := b.(order := b.order.(queueAhead := MaxZero(ahead - size)));
        MakerBooksItsOwn(moved, trade.receipt as int,
                         Smaller(Remaining(b.order), MaxZero(size - ahead).Floor), trade.price, cfg, id);
        MakerKeepsRequest(moved, trade.receipt as int,
                          Smaller(Remaining(b.order), MaxZero(size - ahead).Floor), trade.price, cfg);
        PutPassed(p, k, TradeOne(b, trade, cfg), id);
      case Decreased(time, found) =>
        if RestingKey(b.order).Some? {
          var key := RestingKey(b.order).value;
          var depletion := Depletion(found, key, cfg);
          DepleteBooksItsOwn(b, time, depletion, key.price, cfg, id);
          PutPassed(p, k, DepleteOne(b, time, depletion, key.price, cfg), id);
        }
    }
  }

  lemma MakerKeepsRequest(b: Booking, time: nat, quantity: int, price: Price, cfg: Config)
    ensures MakerFill(b, time, quantity, price, cfg).order.request == b.order.request
  {
    hide Fee, Notional, PositionAllows;
  }

  lemma DepleteBooksItsOwn(b: Booking, time: nat, depletion: real, price: Price, cfg: Config, id: string)
    requires b.order.request.id != id
    ensures var n := DepleteOne(b, time, depletion, price, cfg);
            NoneBooked(b.ledger.fills, n.ledger.fills, id) && n.order.request == b.order.request
  {
    hide NoneBooked, MakerFill;
    BooksNothing(b.ledger.fills, id);
    var ahead := b.order.queueAhead;
    var reduction := if ahead < depletion then ahead else depletion;
    var moved := b.(order := b.order.(queueAhead := ahead - reduction));
    MakerBooksItsOwn(moved, time, Smaller(Remaining(b.order), (depletion - reduction).Floor), price, cfg, id);
    MakerKeepsRequest(moved, time, Smaller(Remaining(b.order), (depletion - reduction).Floor), price, cfg);
  }

  lemma {:induction false} FlowPasses(p: Passive, ids: seq<string>, f: Flow, cfg: Config, id: string)
    requires id in p.orders && id !in ids && OwnId(p.orders)
    ensures Passed(p, FlowEach(p, ids, f, cfg), id)
    decreases ids
  {
    hide Passed, OwnId, FlowStep, FlowEach;
    FlowEachUnfolds(p, ids, f, cfg);
    PassedSame(p, id);
    if ids != [] {
      assert ids[0] in ids;
      FlowStepPasses(p, ids[0], f, cfg, id);
      var n := FlowStep(p, ids[0], f, cfg);
      PassedIn(p, n, id);
      FlowPasses(n, ids[1..], f, cfg, id);
      PassedTwice(p, n, FlowEach(n, ids[1..], f, cfg), id);
    }
  }

  lemma PassedIn(p: Passive, q: Passive, id: string)
    requires Passed(p, q, id)
    ensures id in q.orders
  {
  }

  // ----- every operation leaves final orders alone

  lemma FinalIds(s: Sim, id: string, cfg: Config)
    requires SimInvariant(s, cfg) && Final(s, id)
    ensures OwnId(s.desk.orders) && (forall r | r in s.requests :: r.id != id)
  {
    forall k | k in s.desk.orders ensures s.desk.orders[k].request.id == k {
      assert OrderAccounted(k, s.desk.orders[k], s.ledger.fills);
    }
  }

  lemma UntouchedSame(s: Sim, n: Sim, id: string)
    requires Final(s, id) && n.desk == s.desk && n.ledger == s.ledger
    ensures Untouched(s, n, id)
  {
  }

  lemma {:induction false} ExpireSkips(d: Desk, ids: seq<string>, time: nat, final: bool, id: string)
    requires id in d.orders && id !in ids && id !in d.active
    ensures var n := Expire(d, ids, time, final);
            id in n.orders && n.orders[id] == d.orders[id] && id !in n.active
    decreases ids
  {
    if ids != [] {
      if id in RemoveFirst(d.active, ids[0]) {
        RemoveFirstIn(d.active, ids[0], id);
      }
      ExpireSkips(ExpireOne(d, ids[0], time, final), ids[1..], time, final, id);
    }
  }

  lemma ExpiriesLeave(s: Sim, time: nat, final: bool, id: string)
    requires Final(s, id)
    ensures Untouched(s, WithExpiries(s, time, final), id)
  {
    hide Expire, NoneBooked;
    ExpireSkips(s.desk, s.desk.active, time, final, id);
    BooksNothing(s.ledger.fills, id);
  }

  lemma {:induction false} CancelEachSkips(orders: map<string, Order>, ids: seq<string>, reason: string, id: string)
    requires id in orders && id !in ids
    ensures var n := CancelEach(orders, ids, reason); id in n && n[id] == orders[id]
    decreases ids
  {
    if ids != [] {
      CancelEachSkips(CancelOne(orders, ids[0], reason), ids[1..], reason, id);
    }
  }

  lemma RiskCheckLeaves(s: Sim, cfg: Config, id: string)
    requires Final(s, id)
    ensures Untouched(s, CheckKillSwitch(s, cfg), id)
  {
    hide CancelEach, Equity, NoneBooked;
    CancelEachSkips(s.desk.orders, s.desk.active, "kill_switch", id);
    BooksNothing(s.ledger.fills, id);
  }

  lemma CancelLeaves(s: Sim, cfg: Config, id: string)
    requires SimInvariant(s, cfg) && Final(s, id) && s.cancels != []
    ensures var r := ProcessNextCancel(s, cfg); r.Ok? ==> Untouched(s, r.value, id)
  {
    hide NoneBooked, DropId, Accounts, Liquid, PendingSorted, Sound;
    FinalIds(s, id, cfg);
    InvariantQueues(s, cfg);
    BooksNothing(s.ledger.fills, id);
    var other := s.cancels[0].request.id;
    DropIdOf(s.desk.active, other);
    var i := IndexOf(s.requests, other);
    if i.Some? {
      assert s.requests[i.value] in s.requests;
    }
  }

  lemma TakerLeaves(s: Sim, o: Order, limit: Option<Price>, cfg: Config, id: string)
    requires Final(s, id) && o.request.id != id
    ensures Untouched(s, ExecuteTaker(s, o, o.arrival, limit, cfg), id)
  {
    hide Walk, WalkLevels, NoneBooked;
    WalkBooksItsOwn(Taking(Booking(s.ledger, o), s.venue.consumed), o.arrival, WalkLevels(s.venue.book, o.request.side),
                    limit, Remaining(o), cfg, id);
    TakerStores(s, o, limit, cfg);
  }

  lemma ActivateLeaves(s: Sim, o: Order, cfg: Config, id: string)
    requires Final(s, id) && o.request.id != id
    ensures var r := Activate(s, o, cfg); r.Ok? ==> Untouched(s, r.value, id)
  {
    hide ExecuteTaker, NoneBooked, OwnQueue, Marketable, PositionAllows, QueueAhead, Displayed;
    BooksNothing(s.ledger.fills, id);
    TakerLeaves(s, o, None, cfg, id);
    if o.request.instruction.Limit? {
      TakerLeaves(s, o, Some(o.request.instruction.price), cfg, id);
    }
  }

  lemma OrderLeaves(s: Sim, cfg: Config, id: string)
    requires SimInvariant(s, cfg) && Final(s, id)
    ensures var r := Operate(s, OrderArrives, cfg); r.Ok? ==> Untouched(s, r.value, id)
  {
    hide Activate, SimInvariant, NoneBooked;
    FinalIds(s, id, cfg);
    UntouchedSame(s, s, id);
    var arrival := NextOrderArrival(s, cfg);
    if s.requests != [] && arrival.Ok? && Expiry(arrival.value.value, s.requests[0].timeToLive).Ok? {
      assert s.requests[0] in s.requests;
      var p := s.(requests := s.requests[1..]);
      var o := Order(s.requests[0], arrival.value.value, Expiry(arrival.value.value, s.requests[0].timeToLive).value,
                     Pending, 0, 0.0, "");
      ActivateLeaves(p, o, cfg, id);
    }
  }

  lemma FlowLeaves(s: Sim, ids: seq<string>, f: Flow, cfg: Config, id: string)
    requires SimInvariant(s, cfg) && Final(s, id) && forall k | k in ids :: k in s.desk.active
    ensures Untouched(s, Settled(s, FlowEach(Passive(s.ledger, s.desk.orders), ids, f, cfg)), id)
  {
    hide FlowEach, NoneBooked, SimInvariant;
    FinalIds(s, id, cfg);
    var p := Passive(s.ledger, s.desk.orders);
    FlowPasses(p, ids, f, cfg, id);
    StillRestingIds(FlowEach(p, ids, f, cfg).orders, s.desk.active);
  }

  lemma DepletionLeaves(s: Sim, u: DepthUpdate, cfg: Config, id: string)
    requires SimInvariant(s, cfg) && Final(s, id)
    ensures Untouched(s, ProcessDepletion(s, u, cfg), id)
  {
    hide DepleteEach, NoneBooked, SimInvariant, Settled, Decreases;
    UntouchedSame(s, s, id);
    FlowLeaves(s, s.desk.active, Decreased(u.receipt as int, Decreases(s.venue.book, u)), cfg, id);
  }

  lemma EventLeaves(s: Sim, e: Event, cfg: Config, id: string)
    requires SimInvariant(s, cfg) && Final(s, id)
    ensures var r := MarketEvent(s, e, cfg); r.Ok? ==> Untouched(s, r.value, id)
  {
    hide SimInvariant, NoneBooked, CancelEach, ProcessDepletion, TradeEach, TradeQueue, Settled, Applied, Installed, Sound,
         UpdateMid, Refresh, Cleared;
    UntouchedSame(s, s, id);
    BooksNothing(s.ledger.fills, id);
    match e
    case BoundaryEvent(_, _) =>
      CancelEachSkips(s.desk.orders, s.desk.active, "market_data_boundary", id);
    case SnapshotEvent(_) =>
    case DepthEvent(u) =>
      DepletionLeaves(s, u, cfg, id);
    case TradeEvent(trade) =>
      TradeQueueEligible(s.desk, trade);
      FlowLeaves(s, TradeQueue(s.desk, trade), Traded(trade), cfg, id);
  }

  lemma OperateKeepsInvariant(s: Sim, op: Operation, cfg: Config)
    requires SimInvariant(s, cfg)
    ensures var r := Operate(s, op, cfg); r.Ok? ==> SimInvariant(r.value, cfg)
  {
    hide SimInvariant, WithExpiries, ActivateNext, ProcessNextCancel, MarketEvent, CheckKillSwitch, Submitted;
    match op
    case Clock(time) => ExpiriesKeep(s, time, false, cfg);
    case OrderArrives =>
      var arrival := NextOrderArrival(s, cfg);
      if arrival.Ok? && arrival.value.Some? {
        ActivateNextKeeps(s, arrival.value.value, cfg);
      }
    case CancelArrives => if s.cancels != [] { NextCancelKeeps(s, cfg); }
    case Happens(e) => MarketEventKeeps(s, e, cfg);
    case RiskCheck => KillSwitchKeeps(s, cfg);
  }

  /** Whatever happens, the record of a final order stays as it is and no fill is booked for it. */
  lemma OperateLeavesFinal(s: Sim, op: Operation, cfg: Config, id: string)
    requires SimInvariant(s, cfg) && Final(s, id)
    ensures var r := Operate(s, op, cfg); r.Ok? ==> SimInvariant(r.value, cfg) && Untouched(s, r.value, id)
  {
    hide SimInvariant, WithExpiries, ActivateNext, ProcessNextCancel, MarketEvent, CheckKillSwitch, Untouched, Final;
    OperateKeepsInvariant(s, op, cfg);
    match op
    case Clock(time) => ExpiriesLeave(s, time, false, id);
    case OrderArrives => OrderLeaves(s, cfg, id);
    case CancelArrives =>
      if s.cancels != [] {
        CancelLeaves(s, cfg, id);
      } else {
        UntouchedStays(s, id);
      }
    case Happens(e) => EventLeaves(s, e, cfg, id);
    case RiskCheck => RiskCheckLeaves(s, cfg, id);
  }

  lemma UntouchedStays(s: Sim, id: string)
    requires Final(s, id)
    ensures Untouched(s, s, id)
  {
  }

  lemma UntouchedFinal(s: Sim, n: Sim, id: string)
    requires Untouched(s, n, id)
    ensures Final(n, id)
  {
  }

  lemma {:induction false} PerformLeavesFinal(s: Sim, ops: seq<Operation>, cfg: Config, id: string)
    requires SimInvariant(s, cfg) && Final(s, id)
    ensures var r := Perform(s, ops, cfg); r.Ok? ==> SimInvariant(r.value, cfg) && Untouched(s, r.value, id)
    decreases ops
  {
    hide SimInvariant, Operate, Untouched, Final;
    UntouchedStays(s, id);
    if ops != [] {
      OperateLeavesFinal(s, ops[0], cfg, id);
      var one := Operate(s, ops[0], cfg);
      if one.Ok? {
        UntouchedFinal(s, one.value, id);
        PerformLeavesFinal(one.value, ops[1..], cfg, id);
        if Perform(one.value, ops[1..], cfg).Ok? {
          UntouchedTwice(s, one.value, Perform(one.value, ops[1..], cfg).value, id);
        }
      }
    }
  }

  lemma {:induction false} PendingSkips(orders: map<string, Order>, requests: seq<Request>, cfg: Config, id: string)
    requires id in orders && forall r | r in requests :: r.id != id
    ensures var r := ExpirePending(orders, requests, cfg); r.Ok? ==> id in r.value && r.value[id] == orders[id]
    decreases requests
  {
    hide NeverArrived;
    if requests != [] {
      assert requests[0] in requests && forall r | r in requests[1..] :: r in requests;
      var one := NeverArrived(requests[0], Expired, "recording_ended_before_arrival", cfg);
      if one.Ok? {
        PendingSkips(orders[requests[0].id := one.value], requests[1..], cfg, id);
      }
    }
  }

  lemma FinishLeavesFinal(s: Sim, cfg: Config, id: string)
    requires SimInvariant(s, cfg) && Final(s, id)
    ensures var r := Finish(s, cfg); r.Ok? ==> Untouched(s, r.value, id)
  {
    hide SimInvariant, Expire, NoneBooked;
    FinalIds(s, id, cfg);
    ExpiriesLeave(s, UINT64_MAX, true, id);
    var x := WithExpiries(s, UINT64_MAX, true);
    PendingSkips(x.desk.orders, x.requests, cfg, id);
  }

  /** An order that has left the book is as it was at the end of every simulation, with no further fill. */
  lemma SimulationLeavesFinal(s: Sim, events: seq<Event>, cfg: Config, id: string)
    requires SimInvariant(s, cfg) && Final(s, id)
    ensures var h := HandleAll(s, events, cfg); h.Ok? ==> SimInvariant(h.value, cfg) && Untouched(s, h.value, id)
    ensures var r := Simulate(s, events, cfg); r.Ok? ==> Untouched(s, r.value, id)
  {
    hide SimInvariant, HandleAll, Perform, RecordingOps, Finish, Untouched, Final;
    var ops := RecordingOps(s, events, cfg);
    RecordingPerforms(s, events, cfg);
    PerformLeavesFinal(s, ops, cfg, id);
    var h := HandleAll(s, events, cfg);
    if h.Ok? {
      UntouchedFinal(s, h.value, id);
      FinishLeavesFinal(h.value, cfg, id);
      if Finish(h.value, cfg).Ok? {
        UntouchedTwice(s, h.value, Finish(h.value, cfg).value, id);
      }
    }
  }

  // ----- no fill after a cancel

  /** The next cancel finds its order resting or still to come. */
  predicate CancelMeets(s: Sim, id: string) {
    && s.cancels != [] && s.cancels[0].request.id == id
    && ((id in s.desk.orders && s.desk.orders[id].status in {Open, PartiallyFilled})
        || exists i | 0 <= i < |s.requests| :: s.requests[i].id == id)
  }

  /** Such a cancel makes the order final as Cancelled and books nothing. */
  lemma CancelIsFinal(s: Sim, cfg: Config, id: string)
    requires SimInvariant(s, cfg) && CancelMeets(s, id)
    ensures var r := ProcessNextCancel(s, cfg);
            r.Ok? ==> Final(r.value, id) && r.value.desk.orders[id].status == Cancelled && r.value.ledger == s.ledger
  {
    hide ProcessNextCancel, SimInvariant;
    if id in s.desk.orders && s.desk.orders[id].status in {Open, PartiallyFilled} {
      CancelCancels(s, cfg);
    } else {
      var i :| 0 <= i < |s.requests| && s.requests[i].id == id;
      CancelBeforeArrival(s, i, cfg);
      NotYetActive(s, i, cfg);
    }
  }

  lemma NotYetActive(s: Sim, i: nat, cfg: Config)
    requires SimInvariant(s, cfg) && i < |s.requests|
    ensures s.requests[i].id !in s.desk.active
  {
    hide Liquid, PendingSorted, Sound;
    InvariantQueues(s, cfg);
    assert s.requests[i] in s.requests;
  }

  /**
   From the moment a cancel reaches an order that rests or is still to come, no fill of that order is
   booked for the rest of any run: whatever operations follow, all later fills are others', and the
   order's record stays Cancelled.
   */
  lemma CancelledNeverFills(s: Sim, ops: seq<Operation>, cfg: Config, id: string)
    requires SimInvariant(s, cfg) && CancelMeets(s, id)
    ensures var r := Perform(s, [CancelArrives] + ops, cfg);
            r.Ok? ==>
              && id in r.value.desk.orders && r.value.desk.orders[id].status == Cancelled
              && id !in r.value.desk.active
              && s.ledger.fills <= r.value.ledger.fills
              && forall i | |s.ledger.fills| <= i < |r.value.ledger.fills| :: r.value.ledger.fills[i].id != id
  {
    hide SimInvariant, Perform, ProcessNextCancel;
    PerformJoins(s, [CancelArrives], ops, cfg);
    PerformOne(s, CancelArrives, cfg);
    CancelIsFinal(s, cfg, id);
    var one := ProcessNextCancel(s, cfg);
    OperateKeepsInvariant(s, CancelArrives, cfg);
    if one.Ok? {
      PerformLeavesFinal(one.value, ops, cfg, id);
    }
  }

  /**
   The same over a whole recording: if after some of the operations that handle it a cancel meets its
   order and is carried out next, the simulation ends with that order Cancelled and without a fill of
   it booked since.
   */
  lemma CancelledToTheEnd(
    s: Sim, events: seq<Event>, done: nat, cfg: Config, id: string)
    requires SimInvariant(s, cfg)
    requires var ops := RecordingOps(s, events, cfg);
             && done < |ops| && ops[done] == CancelArrives
             && Perform(s, ops[..done], cfg).Ok? && CancelMeets(Perform(s, ops[..done], cfg).value, id)
    ensures var ops := RecordingOps(s, events, cfg);
            var before, r := Perform(s, ops[..done], cfg).value, Simulate(s, events, cfg);
            r.Ok? ==>
              && id in r.value.desk.orders && r.value.desk.orders[id].status == Cancelled
              && before.ledger.fills <= r.value.ledger.fills
              && forall i | |before.ledger.fills| <= i < |r.value.ledger.fills| :: r.value.ledger.fills[i].id != id
  {
    hide SimInvariant, Perform, RecordingOps, HandleAll, Finish, CancelMeets;
    var ops := RecordingOps(s, events, cfg);
    var rest := ops[done + 1..];
    var before := Perform(s, ops[..done], cfg).value;
    RecordingPerforms(s, events, cfg);
    assert ops == ops[..done] + ([CancelArrives] + rest);
    PerformJoins(s, ops[..done], [CancelArrives] + rest, cfg);
    PerformKeepsInvariant(s, ops[..done], cfg);
    CancelledNeverFills(before, rest, cfg, id);
    var h := HandleAll(s, events, cfg);
    if h.Ok? {
      PerformKeepsInvariant(before, [CancelArrives] + rest, cfg);
      FinishLeavesFinal(h.value, cfg, id);
      if Finish(h.value, cfg).Ok? {
        NoneBookedTwice(before.ledger.fills, h.value.ledger.fills, Finish(h.value, cfg).value.ledger.fills, id);
      }
    }
  }

  lemma {:induction false} PerformKeepsInvariant(s: Sim, ops: seq<Operation>, cfg: Config)
    requires SimInvariant(s, cfg)
    ensures Perform(s, ops, cfg).Ok? ==> SimInvariant(Perform(s, ops, cfg).value, cfg)
    decreases ops
  {
    hide SimInvariant, Operate;
    if ops != [] {
      OperateKeepsInvariant(s, ops[0], cfg);
      if Operate(s, ops[0], cfg).Ok? {
        PerformKeepsInvariant(Operate(s, ops[0], cfg).value, ops[1..], cfg);
      }
    }
  }
}
