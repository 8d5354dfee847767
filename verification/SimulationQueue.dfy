/**
 Own resting orders at one level share what a trade or a displayed decrease brings when each queues
 behind the end of every earlier one. This module says what one such event does to the queues.
 */
module SimulationQueue {
  import opened Reals
  import opened Results
  import opened L2Types
  import opened Simulation
  import opened SimulationAccounting
  import opened SimulationTaker
  import opened SimulationLifecycle

  /** Order j starts no earlier in the queue than where order i ends. */
  predicate Behind(i: Order, j: Order) {
    j.queueAhead >= i.queueAhead + Remaining(i) as real
  }

  predicate SameLevel(i: Order, j: Order) {
    RestingKey(i) == RestingKey(j)
  }

  predicate Queued(o: Order) {
    o.request.instruction.Limit? && Resting(o) && Remaining(o) > 0 && o.queueAhead >= 0.0
  }

  /** Along the list, each order queues behind every earlier one of its level. */
  ghost predicate InQueue(orders: map<string, Order>, ids: seq<string>) {
    && Distinct(ids)
    && (forall id | id in ids :: id in orders && Queued(orders[id]))
    && (forall i, j | 0 <= i < j < |ids| && SameLevel(orders[ids[i]], orders[ids[j]]) :: Behind(orders[ids[i]], orders[ids[j]]))
  }

  // ----- what one event brings to one order

  /** What moves queues: one trade, or the displayed decreases of one update. */
  datatype Flow = Traded(trade: Trade) | Decreased(time: nat, found: Shadow)

  function LevelSize(f: Flow, key: LevelKey, cfg: Config): (size: real)
    ensures size >= 0.0
  {
    match f
    case Traded(trade) => trade.quantity as real
    case Decreased(_, found) => MaxZero(Depletion(found, key, cfg))
  }

  function SizeAt(f: Flow, o: Order, cfg: Config): (size: real)
    ensures size >= 0.0
  {
    if RestingKey(o).Some? then LevelSize(f, RestingKey(o).value, cfg) else 0.0
  }

  /** What an event of this size would fill of one order. */
  function Share(o: Order, size: real): int {
    Smaller(Remaining(o), MaxZero(size - o.queueAhead).Floor)
  }

  lemma ShareBounds(o: Order, size: real)
    requires Remaining(o) >= 0
    ensures 0 <= Share(o, size) <= Remaining(o)
    ensures Share(o, size) as real <= MaxZero(size - o.queueAhead)
  {
  }

  /** What the position limit lets the order have of its share. */
  function Booked(o: Order, size: real, position: int, cfg: Config): int {
    if Share(o, size) > 0 && PositionAllows(position, o.request.side, Share(o, size), cfg) then Share(o, size) else 0
  }

  function FlowStep(p: Passive, id: string, f: Flow, cfg: Config): Passive {
    match f
    case Traded(trade) => TradeStep(p, id, trade, cfg)
    case Decreased(time, found) => DepleteStep(p, id, time, found, cfg)
  }

  function FlowEach(p: Passive, ids: seq<string>, f: Flow, cfg: Config): Passive {
    match f
    case Traded(trade) => TradeEach(p, ids, trade, cfg)
    case Decreased(time, found) => DepleteEach(p, ids, time, found, cfg)
  }

  /** What an event leaves of an order it reached and booked this much of. */
  predicate Reached(before: Order, after: Order, size: real, booked: int) {
    && after.queueAhead == MaxZero(before.queueAhead - size)
    && after.request == before.request && after.arrival == before.arrival
    && after.filled == before.filled + booked && 0 <= booked <= Share(before, size)
    && (Resting(after) <==> Remaining(after) != 0)
  }

  function RestingLevel(f: Fill): LevelKey {
    LevelKey(if f.side.Buy? then BidSide else AskSide, f.price)
  }

  /** The quantity filled at one level. */
  function FilledAt(fills: seq<Fill>, key: LevelKey): int {
    if fills == [] then 0
    else (if RestingLevel(fills[0]) == key then fills[0].quantity else 0) + FilledAt(fills[1..], key)
  }

  function Gained(a: Ledger, b: Ledger): seq<Fill>
    requires a.fills <= b.fills
  {
    b.fills[|a.fills|..]
  }

  /** The fills from a to b: this quantity in all, every bit of it at this level. */
  ghost predicate Gains(a: Ledger, b: Ledger, level: Option<LevelKey>, quantity: int) {
    && a.fills <= b.fills
    && Quantity(Gained(a, b)) == quantity
    && forall key :: FilledAt(Gained(a, b), key) == if level == Some(key) then quantity else 0
  }

  lemma OneFill(fills: seq<Fill>)
    requires |fills| == 1
    ensures Quantity(fills) == fills[0].quantity
    ensures forall key :: FilledAt(fills, key) == if RestingLevel(fills[0]) == key then fills[0].quantity else 0
  {
    assert fills[1..] == [];
  }

  lemma MakerFillReaches(b: Booking, time: nat, size: real, price: Price, cfg: Config)
    requires Queued(b.order) && size >= 0.0
    ensures var moved := b.(order := b.order.(queueAhead := MaxZero(b.order.queueAhead - size)));
            var n, booked := MakerFill(moved, time, Share(b.order, size), price, cfg), Booked(b.order, size, b.ledger.position, cfg);
            && Reached(b.order, n.order, size, booked)
            && n.ledger.position == b.ledger.position + Sign(b.order.request.side) * booked
            && (b.order.request.instruction == Limit(price) ==> Gains(b.ledger, n.ledger, RestingKey(b.order), booked))
  {
    hide Notional, Fee;
    ShareBounds(b.order, size);
    var moved := b.(order := b.order.(queueAhead := MaxZero(b.order.queueAhead - size)));
    var n, booked := MakerFill(moved, time, Share(b.order, size), price, cfg), Booked(b.order, size, b.ledger.position, cfg);
    var gained := Gained(b.ledger, n.ledger);
    if booked > 0 {
      assert |gained| == 1 && gained[1..] == [] && gained[0].quantity == booked;
      assert b.order.request.instruction == Limit(price) ==> RestingKey(b.order) == Some(RestingLevel(gained[0]));
      OneFill(gained);
    } else {
      assert gained == [];
    }
  }

  /** One step of either event moves its own order in the queue and books what the limit lets it have. */
  lemma StepReaches(p: Passive, id: string, f: Flow, cfg: Config)
    requires id in p.orders && Queued(p.orders[id])
    ensures var q, o := FlowStep(p, id, f, cfg), p.orders[id];
            var booked := Booked(o, SizeAt(f, o, cfg), p.ledger.position, cfg);
            && id in q.orders && q.orders == p.orders[id := q.orders[id]]
            && Reached(o, q.orders[id], SizeAt(f, o, cfg), booked)
            && q.ledger.position == p.ledger.position + Sign(o.request.side) * booked
            && ((f.Traded? ==> o.request.instruction == Limit(f.trade.price)) ==>
                  Gains(p.ledger, q.ledger, RestingKey(o), booked))
  {
    hide MakerFill, Booked, Reached, Gains, Depletion, Share;
    var o := p.orders[id];
    var size := SizeAt(f, o, cfg);
    MakerFillReaches(Booking(p.ledger, o), if f.Traded? then f.trade.receipt as int else f.time, size,
                     if f.Traded? then f.trade.price else o.request.instruction.price, cfg);
    match f
    case Traded(trade) => TradeIsReach(Booking(p.ledger, o), trade, cfg);
    case Decreased(time, found) =>
      DepleteIsReach(Booking(p.ledger, o), time, Depletion(found, RestingKey(o).value, cfg), o.request.instruction.price, cfg);
  }

  lemma TradeIsReach(b: Booking, trade: Trade, cfg: Config)
    ensures var size := trade.quantity as real;
            TradeOne(b, trade, cfg) ==
              MakerFill(b.(order := b.order.(queueAhead := MaxZero(b.order.queueAhead - size))), trade.receipt as int,
                        Share(b.order, size), trade.price, cfg)
  {
    hide MakerFill;
  }

  lemma DepleteIsReach(b: Booking, time: nat, depletion: real, price: Price, cfg: Config)
    requires Queued(b.order)
    ensures var size := MaxZero(depletion);
            DepleteOne(b, time, depletion, price, cfg) ==
              MakerFill(b.(order := b.order.(queueAhead := MaxZero(b.order.queueAhead - size))), time,
                        Share(b.order, size), price, cfg)
  {
    hide RecordFill;
    if depletion > 0.0 {
      var ahead := b.order.queueAhead;
      var reduction := if ahead < depletion then ahead else depletion;
      assert ahead - reduction == MaxZero(ahead - depletion) && depletion - reduction == MaxZero(depletion - ahead);
    } else {
      assert b.(order := b.order.(queueAhead := b.order.queueAhead)) == b;
    }
  }

  // ----- what one event brings to a list of orders

  /** What the position limit lets each order of the list have, in the order they are reached. */
  function Bookings(orders: map<string, Order>, ids: seq<string>, f: Flow, position: int, cfg: Config): (booked: seq<int>)
    requires forall id | id in ids :: id in orders
    ensures |booked| == |ids|
  {
    if ids == [] then []
    else
      var o := orders[ids[0]];
      var first := Booked(o, SizeAt(f, o, cfg), position, cfg);
      [first] + Bookings(orders, ids[1..], f, position + Sign(o.request.side) * first, cfg)
  }

  lemma {:induction false} BookingsSame(a: map<string, Order>, b: map<string, Order>, ids: seq<string>, f: Flow, position: int, cfg: Config)
    requires forall id | id in ids :: id in a && id in b && a[id] == b[id]
    ensures Bookings(a, ids, f, position, cfg) == Bookings(b, ids, f, position, cfg)
    decreases ids
  {
    hide Booked, SizeAt;
    if ids != [] {
      var o := a[ids[0]];
      assert ids[0] in ids;
      BookingsSame(a, b, ids[1..], f, position + Sign(o.request.side) * Booked(o, SizeAt(f, o, cfg), position, cfg), cfg);
    }
  }

  ghost predicate AllQueued(orders: map<string, Order>, ids: seq<string>) {
    Distinct(ids) && forall id | id in ids :: id in orders && Queued(orders[id])
  }

  lemma RestQueued(before: map<string, Order>, after: map<string, Order>, ids: seq<string>)
    requires ids != [] && AllQueued(before, ids)
    requires ids[0] in after && after == before[ids[0] := after[ids[0]]]
    ensures AllQueued(after, ids[1..]) && ids[0] !in ids[1..]
    ensures forall id | id in ids[1..] :: id in ids && after[id] == before[id]
  {
    var rest := ids[1..];
    forall id | id in rest ensures id in ids && id != ids[0] {
      var j :| 0 <= j < |rest| && rest[j] == id;
      assert ids[j + 1] == id;
    }
    assert forall i | 0 <= i < |rest| :: rest[i] == ids[i + 1];
  }

  /** An event reaches every order of the list and books what the limit lets it have. */
  lemma {:induction false} EachReaches(p: Passive, ids: seq<string>, f: Flow, cfg: Config, k: nat)
    requires AllQueued(p.orders, ids) && k < |ids|
    ensures var q, o := FlowEach(p, ids, f, cfg), p.orders[ids[k]];
            && q.orders.Keys == p.orders.Keys
            && Reached(o, q.orders[ids[k]], SizeAt(f, o, cfg), Bookings(p.orders, ids, f, p.ledger.position, cfg)[k])
    decreases ids
  {
    hide Booked, SizeAt, Reached, FlowStep, FlowEach, Queued, Sign;
    FlowEachUnfolds(p, ids, f, cfg);
    var id, rest := ids[0], ids[1..];
    assert id in ids;
    var n := FlowStep(p, id, f, cfg);
    StepReaches(p, id, f, cfg);
    RestQueued(p.orders, n.orders, ids);
    BookingsSame(n.orders, p.orders, rest, f, n.ledger.position, cfg);
    if k > 0 {
      assert ids[k] == rest[k - 1] && ids[k] in rest;
      EachReaches(n, rest, f, cfg, k - 1);
    } else {
      EachLeaves(n, rest, f, cfg, id);
    }
  }

  /** It touches no other order. */
  lemma {:induction false} EachLeaves(p: Passive, ids: seq<string>, f: Flow, cfg: Config, other: string)
    requires AllQueued(p.orders, ids) && other in p.orders && other !in ids
    ensures var q := FlowEach(p, ids, f, cfg);
            q.orders.Keys == p.orders.Keys && q.orders[other] == p.orders[other]
    decreases ids
  {
    hide FlowStep, FlowEach, Queued, Booked, SizeAt, Reached;
    FlowEachUnfolds(p, ids, f, cfg);
    if ids != [] {
      assert ids[0] in ids;
      var n := FlowStep(p, ids[0], f, cfg);
      StepReaches(p, ids[0], f, cfg);
      RestQueued(p.orders, n.orders, ids);
      EachLeaves(n, ids[1..], f, cfg, other);
    }
  }

  lemma FlowEachUnfolds(p: Passive, ids: seq<string>, f: Flow, cfg: Config)
    ensures FlowEach(p, ids, f, cfg) == if ids == [] then p else FlowEach(FlowStep(p, ids[0], f, cfg), ids[1..], f, cfg)
  {
    hide TradeStep, DepleteStep;
  }

  // ----- one event fills at most its own quantity

  lemma {:induction false} QuantityJoins(a: seq<Fill>, b: seq<Fill>)
    ensures Quantity(a + b) == Quantity(a) + Quantity(b)
    decreases a
  {
    if a == [] {
      assert a + b == b;
    } else {
      assert (a + b)[1..] == a[1..] + b;
      QuantityJoins(a[1..], b);
    }
  }

  lemma {:induction false} FilledAtJoins(a: seq<Fill>, b: seq<Fill>, key: LevelKey)
    ensures FilledAt(a + b, key) == FilledAt(a, key) + FilledAt(b, key)
    decreases a
  {
    if a == [] {
      assert a + b == b;
    } else {
      assert (a + b)[1..] == a[1..] + b;
      FilledAtJoins(a[1..], b, key);
    }
  }

  /** The orders of a level that are still to be reached start at `from` or later. */
  ghost predicate LevelFrom(orders: map<string, Order>, ids: seq<string>, key: LevelKey, from: real) {
    InQueue(orders, ids) && forall id | id in ids && RestingKey(orders[id]) == Some(key) :: orders[id].queueAhead >= from
  }

  lemma RestFrom(before: map<string, Order>, after: map<string, Order>, ids: seq<string>, key: LevelKey, from: real)
    requires ids != [] && LevelFrom(before, ids, key, from)
    requires ids[0] in after && after == before[ids[0] := after[ids[0]]]
    ensures var o := before[ids[0]];
            LevelFrom(after, ids[1..], key, if RestingKey(o) == Some(key) then o.queueAhead + Remaining(o) as real else from)
  {
    hide Queued;
    var o, rest := before[ids[0]], ids[1..];
    RestQueued(before, after, ids);
    forall i, j | 0 <= i < j < |rest| && SameLevel(after[rest[i]], after[rest[j]]) ensures Behind(after[rest[i]], after[rest[j]]) {
      assert rest[i] == ids[i + 1] && rest[j] == ids[j + 1] && rest[i] in rest && rest[j] in rest;
      assert Behind(before[ids[i + 1]], before[ids[j + 1]]);
    }
    forall id | id in rest && RestingKey(after[id]) == Some(key) && RestingKey(o) == Some(key)
      ensures after[id].queueAhead >= o.queueAhead + Remaining(o) as real
    {
      var j :| 0 <= j < |rest| && rest[j] == id;
      assert ids[j + 1] == id && SameLevel(before[ids[0]], before[ids[j + 1]]);
    }
  }

  /** The orders of a level from `from` on share at most what the size leaves behind that point. */
  lemma {:induction false} LevelShares(p: Passive, ids: seq<string>, f: Flow, cfg: Config, key: LevelKey, from: real)
    requires LevelFrom(p.orders, ids, key, from)
    requires f.Traded? ==> forall id | id in ids :: p.orders[id].request.instruction == Limit(f.trade.price)
    ensures var q := FlowEach(p, ids, f, cfg);
            && p.ledger.fills <= q.ledger.fills
            && FilledAt(Gained(p.ledger, q.ledger), key) as real <= MaxZero(LevelSize(f, key, cfg) - from)
            && ((forall id | id in ids :: RestingKey(p.orders[id]) == Some(key)) ==>
                  Quantity(Gained(p.ledger, q.ledger)) == FilledAt(Gained(p.ledger, q.ledger), key))
    decreases ids
  {
    hide FlowStep, FilledAt, Quantity, LevelSize, InQueue, Queued, RestingKey;
    FlowEachUnfolds(p, ids, f, cfg);
    if ids == [] {
      NothingFilledAt(p.ledger.fills, key);
    } else {
      FirstQueued(p.orders, ids);
      var id, o := ids[0], p.orders[ids[0]];
      var n := FlowStep(p, id, f, cfg);
      StepReaches(p, id, f, cfg);
      FirstShare(o, f, p.ledger.position, cfg, key, from);
      RestFrom(p.orders, n.orders, ids, key, from);
      RestQueued(p.orders, n.orders, ids);
      var next := if RestingKey(o) == Some(key) then o.queueAhead + Remaining(o) as real else from;
      LevelShares(n, ids[1..], f, cfg, key, next);
      var q := FlowEach(n, ids[1..], f, cfg);
      assert Gained(p.ledger, q.ledger) == Gained(p.ledger, n.ledger) + Gained(n.ledger, q.ledger);
      FilledAtJoins(Gained(p.ledger, n.ledger), Gained(n.ledger, q.ledger), key);
      QuantityJoins(Gained(p.ledger, n.ledger), Gained(n.ledger, q.ledger));
    }
  }

  lemma FirstQueued(orders: map<string, Order>, ids: seq<string>)
    requires ids != [] && InQueue(orders, ids)
    ensures ids[0] in ids && ids[0] in orders && Queued(orders[ids[0]]) && AllQueued(orders, ids)
  {
  }

  /** What the first order books and what is left behind its end stay within what was left behind `from`. */
  lemma FirstShare(o: Order, f: Flow, position: int, cfg: Config, key: LevelKey, from: real)
    requires Queued(o) && RestingKey(o) == Some(key) ==> o.queueAhead >= from
    requires Queued(o)
    ensures var size, booked := LevelSize(f, key, cfg), Booked(o, SizeAt(f, o, cfg), position, cfg);
            RestingKey(o) == Some(key) ==>
              booked as real + MaxZero(size - (o.queueAhead + Remaining(o) as real)) <= MaxZero(size - from)
  {
    ShareBounds(o, SizeAt(f, o, cfg));
  }

  lemma NothingFilledAt(fills: seq<Fill>, key: LevelKey)
    ensures FilledAt(fills[|fills|..], key) == 0 && Quantity(fills[|fills|..]) == 0
  {
  }

  // ----- when every share is booked

  predicate WithinLimit(position: int, cfg: Config) {
    -(cfg.maxPosition as int) <= position <= cfg.maxPosition as int
  }

  /** The share of each order of the list. */
  function Shares(orders: map<string, Order>, ids: seq<string>, f: Flow, cfg: Config): (shares: seq<int>)
    requires forall id | id in ids :: id in orders
    ensures |shares| == |ids|
  {
    if ids == [] then []
    else [Share(orders[ids[0]], SizeAt(f, orders[ids[0]], cfg))] + Shares(orders, ids[1..], f, cfg)
  }

  /** Every order of the list gets its whole share. */
  ghost predicate AllBooked(orders: map<string, Order>, ids: seq<string>, f: Flow, position: int, cfg: Config)
    requires forall id | id in ids :: id in orders
  {
    Bookings(orders, ids, f, position, cfg) == Shares(orders, ids, f, cfg)
  }

  /** The shares of the list, bought ones positive and sold ones negative. */
  function Exposure(orders: map<string, Order>, ids: seq<string>, f: Flow, cfg: Config): int
    requires forall id | id in ids :: id in orders
  {
    if ids == [] then 0
    else
      var o := orders[ids[0]];
      Sign(o.request.side) * Share(o, SizeAt(f, o, cfg)) + Exposure(orders, ids[1..], f, cfg)
  }

  function TotalShare(orders: map<string, Order>, ids: seq<string>, f: Flow, cfg: Config): int
    requires forall id | id in ids :: id in orders
  {
    if ids == [] then 0
    else
      var o := orders[ids[0]];
      Share(o, SizeAt(f, o, cfg)) + TotalShare(orders, ids[1..], f, cfg)
  }

  lemma FirstBookedIff(orders: map<string, Order>, ids: seq<string>, f: Flow, position: int, cfg: Config)
    requires ids != [] && AllQueued(orders, ids) && WithinLimit(position, cfg)
    ensures var o := orders[ids[0]];
            var share := Share(o, SizeAt(f, o, cfg));
            && share >= 0
            && (AllBooked(orders, ids, f, position, cfg) <==>
                  WithinLimit(position + Sign(o.request.side) * share, cfg)
                  && AllBooked(orders, ids[1..], f, position + Sign(o.request.side) * share, cfg))
  {
    hide Share, SizeAt, Queued, Sign, AllBooked;
    assert ids[0] in ids;
    var o := orders[ids[0]];
    FirstShareIsShare(o, SizeAt(f, o, cfg));
    AllBookedUnfolds(orders, ids, f, position, cfg);
  }

  lemma AllBookedUnfolds(orders: map<string, Order>, ids: seq<string>, f: Flow, position: int, cfg: Config)
    requires ids != [] && forall id | id in ids :: id in orders
    ensures ids[0] in orders
    ensures var o := orders[ids[0]];
            var size := SizeAt(f, o, cfg);
            AllBooked(orders, ids, f, position, cfg) <==>
              Booked(o, size, position, cfg) == Share(o, size)
              && AllBooked(orders, ids[1..], f, position + Sign(o.request.side) * Booked(o, size, position, cfg), cfg)
  {
    hide Share, SizeAt, Booked, Sign;
    assert ids[0] in ids;
    var o, rest := orders[ids[0]], ids[1..];
    var first := Booked(o, SizeAt(f, o, cfg), position, cfg);
    var booked, more := Bookings(orders, ids, f, position, cfg), Bookings(orders, rest, f, position + Sign(o.request.side) * first, cfg);
    assert booked == [first] + more;
    var share, shares := Share(o, SizeAt(f, o, cfg)), Shares(orders, rest, f, cfg);
    assert Shares(orders, ids, f, cfg) == [share] + shares;
    assert booked[0] == first && booked[1..] == more && ([share] + shares)[1..] == shares;
  }

  lemma FirstShareIsShare(o: Order, size: real)
    requires Queued(o)
    ensures 0 <= Share(o, size)
  {
    ShareBounds(o, size);
  }

  /** Each running total of the shares keeps the position in its limit. */
  ghost predicate RunningWithin(orders: map<string, Order>, ids: seq<string>, f: Flow, position: int, cfg: Config)
    requires forall id | id in ids :: id in orders
  {
    forall k | 0 <= k <= |ids| :: WithinLimit(position + Exposure(orders, ids[..k], f, cfg), cfg)
  }

  lemma RunningUnfolds(orders: map<string, Order>, ids: seq<string>, f: Flow, position: int, cfg: Config)
    requires ids != [] && forall id | id in ids :: id in orders
    ensures ids[0] in ids
    ensures var o := orders[ids[0]];
            RunningWithin(orders, ids, f, position, cfg) <==>
              WithinLimit(position, cfg)
              && RunningWithin(orders, ids[1..], f, position + Sign(o.request.side) * Share(o, SizeAt(f, o, cfg)), cfg)
  {
    hide Share, SizeAt, Sign, WithinLimit;
    var o, rest := orders[ids[0]], ids[1..];
    var one := Sign(o.request.side) * Share(o, SizeAt(f, o, cfg));
    forall k | 0 < k <= |ids| ensures Exposure(orders, ids[..k], f, cfg) == one + Exposure(orders, rest[..k - 1], f, cfg) {
      assert ids[..k][0] == ids[0] && ids[..k][1..] == rest[..k - 1];
    }
    assert Exposure(orders, ids[..0], f, cfg) == 0;
    if RunningWithin(orders, rest, f, position + one, cfg) && WithinLimit(position, cfg) {
      forall k | 0 <= k <= |ids| ensures WithinLimit(position + Exposure(orders, ids[..k], f, cfg), cfg) {
        assert k > 0 ==> WithinLimit(position + one + Exposure(orders, rest[..k - 1], f, cfg), cfg);
      }
    }
    if RunningWithin(orders, ids, f, position, cfg) {
      forall k | 0 <= k <= |rest| ensures WithinLimit(position + one + Exposure(orders, rest[..k], f, cfg), cfg) {
        assert WithinLimit(position + Exposure(orders, ids[..k + 1], f, cfg), cfg);
      }
      assert WithinLimit(position + Exposure(orders, ids[..0], f, cfg), cfg);
    }
  }

  /** Every share is booked exactly when each running total of the shares keeps the position in its limit. */
  lemma {:induction false} AllBookedIff(orders: map<string, Order>, ids: seq<string>, f: Flow, position: int, cfg: Config)
    requires AllQueued(orders, ids) && WithinLimit(position, cfg)
    ensures AllBooked(orders, ids, f, position, cfg) <==> RunningWithin(orders, ids, f, position, cfg)
    decreases ids
  {
    hide Share, SizeAt, Queued, AllBooked, Sign, RunningWithin, WithinLimit;
    if ids == [] {
      NoneBooked(orders, f, position, cfg);
      NoneRunning(orders, f, position, cfg);
    } else {
      var o, rest := orders[ids[0]], ids[1..];
      var next := position + Sign(o.request.side) * Share(o, SizeAt(f, o, cfg));
      FirstBookedIff(orders, ids, f, position, cfg);
      RunningUnfolds(orders, ids, f, position, cfg);
      RestQueued(orders, orders[ids[0] := o], ids);
      assert orders[ids[0] := o] == orders;
      if WithinLimit(next, cfg) {
        AllBookedIff(orders, rest, f, next, cfg);
      } else if RunningWithin(orders, rest, f, next, cfg) {
        RunningStarts(orders, rest, f, next, cfg);
      }
    }
  }

  lemma NoneRunning(orders: map<string, Order>, f: Flow, position: int, cfg: Config)
    requires WithinLimit(position, cfg)
    ensures RunningWithin(orders, [], f, position, cfg)
  {
  }

  lemma RunningStarts(orders: map<string, Order>, ids: seq<string>, f: Flow, position: int, cfg: Config)
    requires (forall id | id in ids :: id in orders) && RunningWithin(orders, ids, f, position, cfg)
    ensures WithinLimit(position, cfg)
  {
    assert WithinLimit(position + Exposure(orders, ids[..0], f, cfg), cfg);
  }

  lemma NoneBooked(orders: map<string, Order>, f: Flow, position: int, cfg: Config)
    ensures AllBooked(orders, [], f, position, cfg)
  {
  }

  /** On one side of the book every share is booked exactly when the limit allows their total. */
  lemma {:induction false} OneSideBookedIff(orders: map<string, Order>, ids: seq<string>, f: Flow, position: int, side: Side, cfg: Config)
    requires AllQueued(orders, ids) && WithinLimit(position, cfg)
    requires forall id | id in ids :: orders[id].request.side == side
    ensures TotalShare(orders, ids, f, cfg) >= 0
    ensures AllBooked(orders, ids, f, position, cfg) <==> PositionAllows(position, side, TotalShare(orders, ids, f, cfg), cfg)
    decreases ids
  {
    hide Share, SizeAt, Queued, AllBooked;
    if ids == [] {
      NoneBooked(orders, f, position, cfg);
    } else {
      var o, rest := orders[ids[0]], ids[1..];
      assert ids[0] in ids;
      var share := Share(o, SizeAt(f, o, cfg));
      FirstBookedIff(orders, ids, f, position, cfg);
      RestQueued(orders, orders[ids[0] := o], ids);
      assert orders[ids[0] := o] == orders;
      OneSideTotal(orders, rest, f, cfg);
      if WithinLimit(position + Sign(side) * share, cfg) {
        OneSideBookedIff(orders, rest, f, position + Sign(side) * share, side, cfg);
      }
    }
  }

  lemma {:induction false} OneSideTotal(orders: map<string, Order>, ids: seq<string>, f: Flow, cfg: Config)
    requires AllQueued(orders, ids)
    ensures TotalShare(orders, ids, f, cfg) >= 0
    decreases ids
  {
    hide Share, SizeAt, Queued;
    if ids != [] {
      var o := orders[ids[0]];
      assert ids[0] in ids;
      FirstShareIsShare(o, SizeAt(f, o, cfg));
      RestQueued(orders, orders[ids[0] := o], ids);
      assert orders[ids[0] := o] == orders;
      OneSideTotal(orders, ids[1..], f, cfg);
    }
  }

  // ----- the queues after an event

  /**
   When an order of a level that ends at or before the start of another stays in front of it: the
   event does not reach it, or fills it, or leaves the other at least its new remainder behind.
   */
  predicate StaysBehind(i: Order, j: Order, size: real, booked: int) {
    || size <= i.queueAhead
    || booked == Remaining(i)
    || j.queueAhead >= size + (Remaining(i) - booked) as real
  }

  lemma PairStaysBehindIff(i: Order, j: Order, newI: Order, newJ: Order, size: real, bookedI: int, bookedJ: int)
    requires Queued(i) && Queued(j) && Behind(i, j)
    requires Reached(i, newI, size, bookedI) && Reached(j, newJ, size, bookedJ)
    ensures Behind(newI, newJ) <==> StaysBehind(i, j, size, bookedI)
  {
    ShareBounds(i, size);
  }

  predicate Whole(x: real) { x == x.Floor as real }

  lemma WholeDifference(a: real, b: real)
    requires Whole(a) && Whole(b)
    ensures Whole(a - b) && Whole(MaxZero(a - b))
  {
    var n := a.Floor - b.Floor;
    assert a - b == n as real;
  }

  /** With whole units an order whose share was booked stays in front of the orders behind it. */
  lemma WholeStaysBehind(i: Order, j: Order, size: real)
    requires Queued(i) && Behind(i, j) && Whole(i.queueAhead) && Whole(size)
    ensures StaysBehind(i, j, size, Share(i, size))
  {
    WholeDifference(size, i.queueAhead);
  }

  /** Order a stands before order b in the list. */
  ghost predicate Before(ids: seq<string>, a: string, b: string) {
    exists i, j :: 0 <= i < j < |ids| && ids[i] == a && ids[j] == b
  }

  /** The list an event goes through: of each level all active orders or none, in the desk's order. */
  ghost predicate ReachOrder(d: Desk, ids: seq<string>) {
    && Distinct(ids)
    && (forall id | id in ids :: id in d.active && id in d.orders)
    && (forall a, b | Before(ids, a, b) :: Before(d.active, a, b))
    && (forall a, b | a in ids && b in d.active && b in d.orders && SameLevel(d.orders[a], d.orders[b]) :: b in ids)
  }

  /** Each reached pair of a level keeps its order, or the later order is filled and leaves. */
  ghost predicate Kept(orders: map<string, Order>, ids: seq<string>, f: Flow, position: int, cfg: Config)
    requires forall id | id in ids :: id in orders
  {
    var booked := Bookings(orders, ids, f, position, cfg);
    forall i, j | 0 <= i < j < |ids| && SameLevel(orders[ids[i]], orders[ids[j]]) ::
      || booked[j] == Remaining(orders[ids[j]])
      || StaysBehind(orders[ids[i]], orders[ids[j]], SizeAt(f, orders[ids[i]], cfg), booked[i])
  }

  lemma BeforeIn(ids: seq<string>, a: string, b: string)
    requires Distinct(ids) && Before(ids, a, b)
    ensures a in ids && b in ids && a != b && !Before(ids, b, a)
  {
  }

  lemma EitherBefore(ids: seq<string>, a: string, b: string)
    requires a in ids && b in ids && a != b
    ensures Before(ids, a, b) || Before(ids, b, a)
  {
    var i, j :| 0 <= i < |ids| && 0 <= j < |ids| && ids[i] == a && ids[j] == b;
    if i < j {
      assert Before(ids, a, b);
    } else {
      assert Before(ids, b, a);
    }
  }

  lemma InQueueAt(orders: map<string, Order>, ids: seq<string>, a: string, b: string)
    requires InQueue(orders, ids) && Before(ids, a, b)
    ensures a in ids && b in ids && a in orders && b in orders
    ensures SameLevel(orders[a], orders[b]) ==> Behind(orders[a], orders[b])
  {
    var i, j :| 0 <= i < j < |ids| && ids[i] == a && ids[j] == b;
  }

  lemma InQueueIff(orders: map<string, Order>, ids: seq<string>)
    requires AllQueued(orders, ids)
    ensures InQueue(orders, ids) <==>
            forall a, b | Before(ids, a, b) && a in orders && b in orders && SameLevel(orders[a], orders[b]) :: Behind(orders[a], orders[b])
  {
    if InQueue(orders, ids) {
      forall a, b | Before(ids, a, b) && a in orders && b in orders && SameLevel(orders[a], orders[b])
        ensures Behind(orders[a], orders[b])
      {
        InQueueAt(orders, ids, a, b);
      }
    } else {
      hide Behind, SameLevel;
      var i, j :| 0 <= i < j < |ids| && SameLevel(orders[ids[i]], orders[ids[j]]) && !Behind(orders[ids[i]], orders[ids[j]]);
      assert Before(ids, ids[i], ids[j]);
    }
  }

  lemma {:induction false} StillRestingOrder(orders: map<string, Order>, ids: seq<string>, a: string, b: string)
    requires Before(StillResting(orders, ids), a, b)
    ensures Before(ids, a, b)
    decreases ids
  {
    var init, last := ids[..|ids| - 1], ids[|ids| - 1];
    var kept := StillResting(orders, init);
    StillRestingIds(orders, init);
    var i, j :| 0 <= i < j < |StillResting(orders, ids)| && StillResting(orders, ids)[i] == a && StillResting(orders, ids)[j] == b;
    if j < |kept| {
      assert Before(kept, a, b);
      StillRestingOrder(orders, init, a, b);
      var x, y :| 0 <= x < y < |init| && init[x] == a && init[y] == b;
      assert ids[x] == a && ids[y] == b;
    } else {
      assert kept[i] == a && a in kept && b == last;
      var x :| 0 <= x < |init| && init[x] == a;
      assert ids[x] == a && ids[|ids| - 1] == b;
    }
  }

  /** What a settled event leaves of the desk: the listed orders reached, the others as they were. */
  ghost predicate Swept(d: Desk, n: Desk, ids: seq<string>, f: Flow, position: int, cfg: Config)
    requires forall id | id in ids :: id in d.orders
  {
    var booked := Bookings(d.orders, ids, f, position, cfg);
    && n.orders.Keys == d.orders.Keys
    && (forall k | 0 <= k < |ids| :: Reached(d.orders[ids[k]], n.orders[ids[k]], SizeAt(f, d.orders[ids[k]], cfg), booked[k]))
    && (forall id | id in d.orders && id !in ids :: n.orders[id] == d.orders[id])
    && n.active == StillResting(n.orders, d.active)
  }

  lemma SettledSweeps(s: Sim, ids: seq<string>, f: Flow, cfg: Config)
    requires AllQueued(s.desk.orders, ids)
    ensures Swept(s.desk, Settled(s, FlowEach(Passive(s.ledger, s.desk.orders), ids, f, cfg)).desk, ids, f, s.ledger.position, cfg)
  {
    hide AllQueued, Reached, SizeAt, Bookings, StillResting, FlowEach;
    var p := Passive(s.ledger, s.desk.orders);
    var q := FlowEach(p, ids, f, cfg);
    AllQueuedIn(p.orders, ids);
    assert q.orders.Keys == p.orders.Keys by {
      FlowEachUnfolds(p, ids, f, cfg);
      if ids != [] {
        EachReaches(p, ids, f, cfg, 0);
      }
    }
    forall k | 0 <= k < |ids|
      ensures Reached(p.orders[ids[k]], q.orders[ids[k]], SizeAt(f, p.orders[ids[k]], cfg),
                      Bookings(p.orders, ids, f, s.ledger.position, cfg)[k])
    {
      EachReaches(p, ids, f, cfg, k);
    }
    forall id | id in p.orders && id !in ids ensures q.orders[id] == p.orders[id] {
      EachLeaves(p, ids, f, cfg, id);
    }
  }

  lemma AllQueuedIn(orders: map<string, Order>, ids: seq<string>)
    requires AllQueued(orders, ids)
    ensures forall id | id in ids :: id in orders
  {
  }

  /** One order of the list after the event. */
  lemma SweptAt(d: Desk, n: Desk, ids: seq<string>, f: Flow, position: int, cfg: Config, k: nat)
    requires AllQueued(d.orders, ids) && Swept(d, n, ids, f, position, cfg) && k < |ids|
    ensures var i, booked := ids[k], Bookings(d.orders, ids, f, position, cfg)[k];
            && i in d.orders && i in n.orders && Queued(d.orders[i])
            && Reached(d.orders[i], n.orders[i], SizeAt(f, d.orders[i], cfg), booked)
            && booked <= Remaining(d.orders[i])
            && (booked == Remaining(d.orders[i]) <==> !Resting(n.orders[i]))
            && (Resting(n.orders[i]) ==> Queued(n.orders[i]))
  {
    assert ids[k] in ids;
    ShareBounds(d.orders[ids[k]], SizeAt(f, d.orders[ids[k]], cfg));
  }

  lemma SweptQueued(d: Desk, n: Desk, ids: seq<string>, f: Flow, position: int, cfg: Config)
    requires AllQueued(d.orders, d.active) && AllQueued(d.orders, ids) && Swept(d, n, ids, f, position, cfg)
    ensures AllQueued(n.orders, n.active)
    ensures forall id :: id in n.active <==> id in d.active && id in n.orders && Resting(n.orders[id])
  {
    hide Queued, Reached, SizeAt, Bookings;
    StillRestingIds(n.orders, d.active);
    StillRestingDistinct(n.orders, d.active);
    forall id | id in n.active ensures id in n.orders && Queued(n.orders[id]) {
      if id in ids {
        var k :| 0 <= k < |ids| && ids[k] == id;
        SweptAt(d, n, ids, f, position, cfg, k);
      }
    }
  }

  /** When the condition holds, a pair that still rests is in order. */
  lemma KeptPair(d: Desk, n: Desk, ids: seq<string>, f: Flow, position: int, cfg: Config, a: string, b: string)
    requires InQueue(d.orders, d.active) && ReachOrder(d, ids) && AllQueued(d.orders, ids) && Swept(d, n, ids, f, position, cfg)
    requires Kept(d.orders, ids, f, position, cfg)
    requires Before(n.active, a, b) && a in n.orders && b in n.orders && SameLevel(n.orders[a], n.orders[b])
    ensures Behind(n.orders[a], n.orders[b])
  {
    hide Queued, Behind, StaysBehind, RestingKey, SizeAt, Bookings, StillResting, LevelSize, InQueue;
    StillRestingOrder(n.orders, d.active, a, b);
    StillRestingIds(n.orders, d.active);
    var x, y :| 0 <= x < y < |n.active| && n.active[x] == a && n.active[y] == b;
    assert a in n.active && b in n.active;
    InQueueAt(d.orders, d.active, a, b);
    BeforeIn(d.active, a, b) by { QueueDistinct(d.orders, d.active); }
    if a in ids || b in ids {
      SweptRequest(d, n, ids, f, position, cfg, a);
      SweptRequest(d, n, ids, f, position, cfg, b);
      SameRequestLevel(d.orders[a], n.orders[a]);
      SameRequestLevel(d.orders[b], n.orders[b]);
      assert a in ids && b in ids;
      EitherBefore(ids, a, b);
      var i, j :| 0 <= i < j < |ids| && ids[i] == a && ids[j] == b;
      SweptAt(d, n, ids, f, position, cfg, i);
      SweptAt(d, n, ids, f, position, cfg, j);
      SameSize(f, d.orders[a], d.orders[b], cfg);
      PairStaysBehindIff(d.orders[a], d.orders[b], n.orders[a], n.orders[b], SizeAt(f, d.orders[a], cfg),
                         Bookings(d.orders, ids, f, position, cfg)[i], Bookings(d.orders, ids, f, position, cfg)[j]);
    }
  }

  lemma QueueDistinct(orders: map<string, Order>, ids: seq<string>)
    requires InQueue(orders, ids)
    ensures Distinct(ids) && AllQueued(orders, ids)
  {
  }

  lemma SameSize(f: Flow, a: Order, b: Order, cfg: Config)
    requires SameLevel(a, b)
    ensures SizeAt(f, a, cfg) == SizeAt(f, b, cfg)
  {
  }

  lemma SameRequestLevel(a: Order, b: Order)
    requires a.request == b.request
    ensures RestingKey(a) == RestingKey(b)
  {
  }

  lemma SweptRequest(d: Desk, n: Desk, ids: seq<string>, f: Flow, position: int, cfg: Config, id: string)
    requires AllQueued(d.orders, ids) && Swept(d, n, ids, f, position, cfg) && id in d.orders
    ensures id in n.orders && n.orders[id].request == d.orders[id].request && n.orders[id].arrival == d.orders[id].arrival
  {
    if id in ids {
      var k :| 0 <= k < |ids| && ids[k] == id;
      SweptAt(d, n, ids, f, position, cfg, k);
    }
  }

  /** When the queues are in order afterwards, the condition held of every pair. */
  lemma PairKept(d: Desk, n: Desk, ids: seq<string>, f: Flow, position: int, cfg: Config, i: nat, j: nat)
    requires InQueue(d.orders, d.active) && ReachOrder(d, ids) && AllQueued(d.orders, ids) && Swept(d, n, ids, f, position, cfg)
    requires InQueue(n.orders, n.active)
    requires i < j < |ids| && SameLevel(d.orders[ids[i]], d.orders[ids[j]])
    ensures var booked := Bookings(d.orders, ids, f, position, cfg);
            || booked[j] == Remaining(d.orders[ids[j]])
            || StaysBehind(d.orders[ids[i]], d.orders[ids[j]], SizeAt(f, d.orders[ids[i]], cfg), booked[i])
  {
    hide Queued, Behind, RestingKey, SizeAt, Bookings, StillResting, LevelSize, InQueue;
    var a, b, booked := ids[i], ids[j], Bookings(d.orders, ids, f, position, cfg);
    assert Before(ids, a, b) && a in ids && b in ids;
    InQueueAt(d.orders, d.active, a, b);
    SweptAt(d, n, ids, f, position, cfg, i);
    SweptAt(d, n, ids, f, position, cfg, j);
    if booked[i] != Remaining(d.orders[a]) && booked[j] != Remaining(d.orders[b]) {
      StillRestingIds(n.orders, d.active);
      QueueDistinct(d.orders, d.active);
      BeforeIn(d.active, a, b);
      EitherBefore(n.active, a, b);
      if Before(n.active, b, a) {
        StillRestingOrder(n.orders, d.active, b, a);
      }
      InQueueAt(n.orders, n.active, a, b);
      SameRequestLevel(d.orders[a], n.orders[a]);
      SameRequestLevel(d.orders[b], n.orders[b]);
      SameSize(f, d.orders[a], d.orders[b], cfg);
      PairStaysBehindIff(d.orders[a], d.orders[b], n.orders[a], n.orders[b], SizeAt(f, d.orders[a], cfg), booked[i], booked[j]);
    }
  }

  /** The queues are in order after an event exactly when the condition holds before it. */
  lemma SweptInQueueIff(d: Desk, n: Desk, ids: seq<string>, f: Flow, position: int, cfg: Config)
    requires InQueue(d.orders, d.active) && ReachOrder(d, ids) && AllQueued(d.orders, ids) && Swept(d, n, ids, f, position, cfg)
    ensures InQueue(n.orders, n.active) <==> Kept(d.orders, ids, f, position, cfg)
  {
    hide InQueue, ReachOrder, Swept, Queued, StaysBehind, SizeAt, Bookings, Before, Behind, SameLevel, AllQueued;
    QueueDistinct(d.orders, d.active);
    AllQueuedIn(d.orders, ids);
    SweptQueued(d, n, ids, f, position, cfg);
    InQueueIff(n.orders, n.active);
    if Kept(d.orders, ids, f, position, cfg) {
      forall a, b | Before(n.active, a, b) && a in n.orders && b in n.orders && SameLevel(n.orders[a], n.orders[b])
        ensures Behind(n.orders[a], n.orders[b])
      {
        KeptPair(d, n, ids, f, position, cfg, a, b);
      }
    }
    if InQueue(n.orders, n.active) {
      var booked := Bookings(d.orders, ids, f, position, cfg);
      forall i, j | 0 <= i < j < |ids| && SameLevel(d.orders[ids[i]], d.orders[ids[j]])
        ensures booked[j] == Remaining(d.orders[ids[j]])
                || StaysBehind(d.orders[ids[i]], d.orders[ids[j]], SizeAt(f, d.orders[ids[i]], cfg), booked[i])
      {
        PairKept(d, n, ids, f, position, cfg, i, j);
      }
    }
  }

  // ----- whole units

  ghost predicate WholeUnits(orders: map<string, Order>, ids: seq<string>) {
    forall id | id in ids && id in orders :: Whole(orders[id].queueAhead)
  }

  ghost predicate WholeSizes(orders: map<string, Order>, ids: seq<string>, f: Flow, cfg: Config) {
    forall id | id in ids && id in orders :: Whole(SizeAt(f, orders[id], cfg))
  }

  lemma {:induction false} SharesAt(orders: map<string, Order>, ids: seq<string>, f: Flow, cfg: Config, k: nat)
    requires (forall id | id in ids :: id in orders) && k < |ids|
    ensures Shares(orders, ids, f, cfg)[k] == Share(orders[ids[k]], SizeAt(f, orders[ids[k]], cfg))
    decreases k
  {
    hide Share, SizeAt;
    if k > 0 {
      SharesAt(orders, ids[1..], f, cfg, k - 1);
    }
  }

  /** With whole units, when every share is booked, the condition holds. */
  lemma AllBookedKeeps(orders: map<string, Order>, ids: seq<string>, f: Flow, position: int, cfg: Config)
    requires InQueue(orders, ids) && WholeUnits(orders, ids) && WholeSizes(orders, ids, f, cfg)
    requires AllBooked(orders, ids, f, position, cfg)
    ensures Kept(orders, ids, f, position, cfg)
  {
    hide StaysBehind, Share, SizeAt, Bookings, Shares, Queued, Whole;
    var booked := Bookings(orders, ids, f, position, cfg);
    forall i, j | 0 <= i < j < |ids| && SameLevel(orders[ids[i]], orders[ids[j]])
      ensures StaysBehind(orders[ids[i]], orders[ids[j]], SizeAt(f, orders[ids[i]], cfg), booked[i])
    {
      SharesAt(orders, ids, f, cfg, i);
      assert ids[i] in ids;
      WholeStaysBehind(orders[ids[i]], orders[ids[j]], SizeAt(f, orders[ids[i]], cfg));
    }
  }

  lemma SweptWhole(d: Desk, n: Desk, ids: seq<string>, f: Flow, position: int, cfg: Config)
    requires AllQueued(d.orders, d.active) && AllQueued(d.orders, ids) && Swept(d, n, ids, f, position, cfg)
    requires WholeUnits(d.orders, d.active) && WholeSizes(d.orders, ids, f, cfg)
    requires forall id | id in ids :: id in d.active
    ensures WholeUnits(n.orders, n.active)
  {
    hide Queued, SizeAt, Bookings, StillResting, Whole;
    StillRestingIds(n.orders, d.active);
    forall id | id in n.active ensures Whole(n.orders[id].queueAhead) {
      if id in ids {
        var k :| 0 <= k < |ids| && ids[k] == id;
        SweptAt(d, n, ids, f, position, cfg, k);
        WholeDifference(d.orders[id].queueAhead, SizeAt(f, d.orders[id], cfg));
      }
    }
  }
}
