/**
 The queues of own resting orders over whole runs: every operation of the simulator keeps them in
 order exactly when a condition on the state before it holds, and each event fills at most itself.
 */
module SimulationQueueRuns {
  import opened Reals
  import opened Results
  import opened L2Types
  import opened OrderBook
  import opened Sorting
  import opened Simulation
  import opened SimulationAccounting
  import opened SimulationTaker
  import opened SimulationLifecycle
  import opened SimulationRuns
  import opened SimulationQueue

  ghost predicate QueuesInOrder(d: Desk) {
    InQueue(d.orders, d.active)
  }

  /** Active orders stand in the order of their arrival, and none after one that is still to come. */
  ghost predicate Arranged(s: Sim, cfg: Config) {
    && SortedBy(s.desk.active, ArrivalKey(s.desk.orders))
    && (forall id, r | id in s.desk.active && r in s.requests :: KeyLeq(ArrivalKey(s.desk.orders)(id), OrderControl(r, cfg)))
  }

  // ----- trades

  function Aggressor(trade: Trade): Side { if trade.buyerIsMaker then Sell else Buy }

  function Other(side: Side): Side { if side.Buy? then Sell else Buy }

  /** The level of the orders a trade reaches. */
  function TradeLevel(trade: Trade): LevelKey {
    LevelKey(if trade.buyerIsMaker then BidSide else AskSide, trade.price)
  }

  lemma {:induction false} EligibleOrder(orders: map<string, Order>, ids: seq<string>, aggressor: Side, price: Price, a: string, b: string)
    requires Before(EligibleIds(orders, ids, aggressor, price), a, b)
    ensures Before(ids, a, b)
    decreases ids
  {
    hide Eligible;
    var init, last := ids[..|ids| - 1], ids[|ids| - 1];
    var all, kept := EligibleIds(orders, ids, aggressor, price), EligibleIds(orders, init, aggressor, price);
    EligibleIdsAre(orders, init, aggressor, price);
    var i, j :| 0 <= i < j < |all| && all[i] == a && all[j] == b;
    if j < |kept| {
      assert kept[i] == a && kept[j] == b;
      EligibleOrder(orders, init, aggressor, price, a, b);
      var x, y :| 0 <= x < y < |init| && init[x] == a && init[y] == b;
      assert ids[x] == a && ids[y] == b;
    } else {
      assert kept[i] == a && a in kept && b == last;
      var x :| 0 <= x < |init| && init[x] == a;
      assert ids[x] == a && ids[|ids| - 1] == b;
    }
  }

  lemma {:induction false} AllEligible(orders: map<string, Order>, ids: seq<string>, aggressor: Side, price: Price)
    ensures forall id | id in ids && Eligible(orders, id, aggressor, price) :: id in EligibleIds(orders, ids, aggressor, price)
    decreases ids
  {
    hide Eligible;
    if ids != [] {
      AllEligible(orders, ids[..|ids| - 1], aggressor, price);
      assert ids == ids[..|ids| - 1] + [ids[|ids| - 1]];
    }
  }

  /** A list taken out of another in its order is distinct when that one is, and sorted when that one is. */
  lemma InItsOrder(ids: seq<string>, sub: seq<string>, key: string -> Key)
    requires Distinct(ids) && forall a, b | Before(sub, a, b) :: Before(ids, a, b)
    ensures Distinct(sub)
    ensures SortedBy(ids, key) ==> SortedBy(sub, key)
  {
    forall i, j | 0 <= i < j < |sub| ensures sub[i] != sub[j] && (SortedBy(ids, key) ==> KeyLeq(key(sub[i]), key(sub[j]))) {
      assert Before(sub, sub[i], sub[j]);
      assert Before(ids, sub[i], sub[j]);
      BeforeIn(ids, sub[i], sub[j]);
      var x, y :| 0 <= x < y < |ids| && ids[x] == sub[i] && ids[y] == sub[j];
    }
  }

  /** A trade reaches the eligible orders in the order of the active list. */
  lemma TradeQueueIs(d: Desk, trade: Trade)
    requires QueuesInOrder(d) && SortedBy(d.active, ArrivalKey(d.orders))
    ensures TradeQueue(d, trade) == EligibleIds(d.orders, d.active, Aggressor(trade), trade.price)
    ensures ReachOrder(d, TradeQueue(d, trade)) && AllQueued(d.orders, TradeQueue(d, trade))
    ensures forall id | id in TradeQueue(d, trade) ::
              d.orders[id].request.instruction == Limit(trade.price) && d.orders[id].request.side == Other(Aggressor(trade))
  {
    hide Queued, KeyLeq, SortedBy, Before, Behind;
    var ids := EligibleIds(d.orders, d.active, Aggressor(trade), trade.price);
    forall a, b | Before(ids, a, b) ensures Before(d.active, a, b) {
      EligibleOrder(d.orders, d.active, Aggressor(trade), trade.price, a, b);
    }
    InItsOrder(d.active, ids, ArrivalKey(d.orders));
    SortedStays(ids, ArrivalKey(d.orders));
    EligibleIdsAre(d.orders, d.active, Aggressor(trade), trade.price);
    AllEligible(d.orders, d.active, Aggressor(trade), trade.price);
    forall a, b | a in ids && b in d.active && b in d.orders && SameLevel(d.orders[a], d.orders[b]) ensures b in ids {
      assert Queued(d.orders[b]) && Eligible(d.orders, a, Aggressor(trade), trade.price);
      SameLevelEligible(d.orders, a, b, Aggressor(trade), trade.price);
    }
  }

  lemma SameLevelEligible(orders: map<string, Order>, a: string, b: string, aggressor: Side, price: Price)
    requires Eligible(orders, a, aggressor, price) && b in orders && Queued(orders[b]) && SameLevel(orders[a], orders[b])
    ensures Eligible(orders, b, aggressor, price)
  {
  }

  /** After a trade the queues are in order exactly when the condition holds before it. */
  lemma TradeKeepsIff(s: Sim, trade: Trade, cfg: Config)
    requires QueuesInOrder(s.desk) && SortedBy(s.desk.active, ArrivalKey(s.desk.orders))
    ensures AllQueued(s.desk.orders, TradeQueue(s.desk, trade))
    ensures QueuesInOrder(ProcessTrade(s, trade, cfg).desk) <==>
            Kept(s.desk.orders, TradeQueue(s.desk, trade), Traded(trade), s.ledger.position, cfg)
  {
    hide InQueue, SortedBy, TradeQueue, Kept, Swept, StillResting, ReachOrder, AllQueued;
    var ids := TradeQueue(s.desk, trade);
    TradeQueueIs(s.desk, trade);
    AllQueuedIn(s.desk.orders, ids);
    var n := Settled(s, FlowEach(Passive(s.ledger, s.desk.orders), ids, Traded(trade), cfg));
    SettledSweeps(s, ids, Traded(trade), cfg);
    SweptInQueueIff(s.desk, n.desk, ids, Traded(trade), s.ledger.position, cfg);
    if s.desk.active == [] {
      assert ids == [];
      assert n == s by { NothingReached(s, Traded(trade), cfg); }
    }
  }

  lemma NothingReached(s: Sim, f: Flow, cfg: Config)
    requires s.desk.active == []
    ensures Settled(s, FlowEach(Passive(s.ledger, s.desk.orders), [], f, cfg)) == s
  {
  }

  /** One trade fills the orders queued at its level by at most its own quantity in total. */
  lemma TradeFillsAtMostItself(s: Sim, trade: Trade, cfg: Config)
    requires QueuesInOrder(s.desk) && SortedBy(s.desk.active, ArrivalKey(s.desk.orders))
    ensures var n := ProcessTrade(s, trade, cfg);
            && s.ledger.fills <= n.ledger.fills
            && Quantity(Gained(s.ledger, n.ledger)) <= trade.quantity
  {
    hide SortedBy, TradeQueue, ReachOrder, AllQueued, StillResting, Quantity, FilledAt;
    var ids, p := TradeQueue(s.desk, trade), Passive(s.ledger, s.desk.orders);
    TradeQueueIs(s.desk, trade);
    SubQueue(s.desk, ids);
    NothingFilledAt(s.ledger.fills, TradeLevel(trade));
    forall id | id in ids ensures RestingKey(p.orders[id]) == Some(TradeLevel(trade)) && p.orders[id].queueAhead >= 0.0 {
      assert Queued(p.orders[id]);
    }
    LevelShares(p, ids, Traded(trade), cfg, TradeLevel(trade), 0.0);
  }

  /** The list an event goes through is itself in order. */
  lemma SubQueue(d: Desk, ids: seq<string>)
    requires QueuesInOrder(d) && ReachOrder(d, ids) && AllQueued(d.orders, ids)
    ensures InQueue(d.orders, ids)
  {
    hide Queued, Behind, SameLevel;
    forall i, j | 0 <= i < j < |ids| && SameLevel(d.orders[ids[i]], d.orders[ids[j]])
      ensures Behind(d.orders[ids[i]], d.orders[ids[j]])
    {
      assert Before(ids, ids[i], ids[j]);
      InQueueAt(d.orders, d.active, ids[i], ids[j]);
    }
  }

  // ----- displayed decreases

  predicate DepletionActs(s: Sim, cfg: Config) {
    !cfg.queueModel.TradeOnly? && s.venue.book.lastUpdateId != 0
  }

  function DecreaseOf(s: Sim, u: DepthUpdate): Flow {
    Decreased(u.receipt as int, Decreases(s.venue.book, u))
  }

  lemma ActiveReachOrder(d: Desk)
    requires QueuesInOrder(d)
    ensures ReachOrder(d, d.active) && AllQueued(d.orders, d.active)
  {
  }

  /** After an update's decreases the queues are in order exactly when the condition holds before them. */
  lemma DepletionKeepsIff(s: Sim, u: DepthUpdate, cfg: Config)
    requires QueuesInOrder(s.desk)
    ensures AllQueued(s.desk.orders, s.desk.active)
    ensures QueuesInOrder(ProcessDepletion(s, u, cfg).desk) <==>
            (DepletionActs(s, cfg) ==> Kept(s.desk.orders, s.desk.active, DecreaseOf(s, u), s.ledger.position, cfg))
  {
    hide InQueue, Decreases, Kept, Swept, StillResting, ReachOrder, AllQueued, DepleteEach;
    ActiveReachOrder(s.desk);
    AllQueuedIn(s.desk.orders, s.desk.active);
    if DepletionActs(s, cfg) {
      SettledSweeps(s, s.desk.active, DecreaseOf(s, u), cfg);
      SweptInQueueIff(s.desk, ProcessDepletion(s, u, cfg).desk, s.desk.active, DecreaseOf(s, u), s.ledger.position, cfg);
    }
  }

  /** One depth update fills the orders queued at a level by at most the decrease modelled there. */
  lemma DepletionFillsAtMostItself(s: Sim, u: DepthUpdate, cfg: Config, key: LevelKey)
    requires QueuesInOrder(s.desk)
    ensures var n := ProcessDepletion(s, u, cfg);
            && s.ledger.fills <= n.ledger.fills
            && FilledAt(Gained(s.ledger, n.ledger), key) as real <=
                 MaxZero(Depletion(Decreases(s.venue.book, u), key, cfg))
  {
    hide DepleteEach, Decreases, Depletion, FilledAt, StillResting;
    NothingFilledAt(s.ledger.fills, key);
    forall id | id in s.desk.active ensures s.desk.orders[id].queueAhead >= 0.0 {
      assert Queued(s.desk.orders[id]);
    }
    LevelShares(Passive(s.ledger, s.desk.orders), s.desk.active, DecreaseOf(s, u), cfg, key, 0.0);
  }

  // ----- orders that join

  function RequestLevel(r: Request, price: Price): LevelKey {
    LevelKey(if r.side.Buy? then BidSide else AskSide, price)
  }

  /** The modelled share of the displayed quantity and everything its own side still rests with there. */
  function JoinsAt(s: Sim, r: Request, price: Price, cfg: Config): real {
    QueueAhead(Displayed(s.venue.book, RequestLevel(r, price)) as int, OwnQueue(s.desk.orders, s.desk.active, r.side, price), cfg)
  }

  /** The passive order queues behind the end of every order already resting at its level. */
  ghost predicate Joins(s: Sim, r: Request, price: Price, cfg: Config) {
    var ahead := JoinsAt(s, r, price, cfg);
    && ahead >= 0.0
    && (forall id | id in s.desk.active && id in s.desk.orders && RestingKey(s.desk.orders[id]) == Some(RequestLevel(r, price)) ::
          ahead >= s.desk.orders[id].queueAhead + Remaining(s.desk.orders[id]) as real)
  }

  lemma AppendInQueue(orders: map<string, Order>, after: map<string, Order>, ids: seq<string>, id: string)
    requires InQueue(orders, ids) && id !in orders && id in after && after == orders[id := after[id]]
    ensures InQueue(after, ids + [id]) <==>
            Queued(after[id]) && forall k | k in ids && SameLevel(orders[k], after[id]) :: Behind(orders[k], after[id])
  {
    hide Queued, Behind, SameLevel;
    var all := ids + [id];
    assert all[|ids|] == id && id in all;
    assert forall i | 0 <= i < |ids| :: all[i] == ids[i] && ids[i] in ids && ids[i] != id;
    if InQueue(after, all) {
      forall k | k in ids && SameLevel(orders[k], after[id]) ensures Behind(orders[k], after[id]) {
        var i :| 0 <= i < |ids| && ids[i] == k;
        assert all[i] == k && SameLevel(after[all[i]], after[all[|ids|]]);
      }
    }
  }

  /** An order that comes to rest leaves the queues in order exactly when it joins behind its level. */
  lemma RestKeepsIff(s: Sim, o: Order, price: Price, cfg: Config)
    requires QueuesInOrder(s.desk) && o.request.id !in s.desk.orders
    requires o.request.instruction == Limit(price) && o.filled == 0
    ensures QueuesInOrder(Rest(s, o, price, cfg).desk) <==> Joins(s, o.request, price, cfg)
  {
    hide OwnQueue, Displayed, InQueue;
    var n, id := Rest(s, o, price, cfg), o.request.id;
    AppendInQueue(s.desk.orders, n.desk.orders, s.desk.active, id);
    QueueDistinct(s.desk.orders, s.desk.active);
  }

  /** The checks an arriving order passes to come to rest. */
  predicate ComesToRest(s: Sim, r: Request, cfg: Config) {
    var book := s.venue.book;
    && !s.killed && PositionAllows(s.ledger.position, r.side, r.quantity, cfg)
    && book.lastUpdateId != 0 && r.instruction.Limit?
    && book.bids != map[] && book.asks != map[] && !Marketable(book, r.side, r.instruction.price)
  }

  lemma AddedElsewhere(d: Desk, n: Desk, id: string)
    requires QueuesInOrder(d) && id !in d.orders && id in n.orders
    requires n.active == d.active && n.orders == d.orders[id := n.orders[id]]
    ensures QueuesInOrder(n)
  {
    hide Queued, Behind, SameLevel;
    assert forall i | 0 <= i < |d.active| :: d.active[i] in d.active;
  }

  lemma ActivateKeepsIff(s: Sim, o: Order, cfg: Config)
    requires QueuesInOrder(s.desk) && o.request.id !in s.desk.orders && o.filled == 0
    ensures var r := Activate(s, o, cfg);
            r.Ok? ==> (QueuesInOrder(r.value.desk) <==>
                         (ComesToRest(s, o.request, cfg) ==> Joins(s, o.request, o.request.instruction.price, cfg)))
  {
    hide InQueue, Joins, Rest, Marketable, Walk, WalkLevels, PositionAllows;
    var r := Activate(s, o, cfg);
    if r.Ok? {
      if ComesToRest(s, o.request, cfg) {
        RestKeepsIff(s, o, o.request.instruction.price, cfg);
      } else {
        TakerStores(s, o, if o.request.instruction.Market? then None else Some(o.request.instruction.price), cfg);
        AddedElsewhere(s.desk, r.value.desk, o.request.id);
      }
    }
  }

  lemma TakerStores(s: Sim, o: Order, limit: Option<Price>, cfg: Config)
    ensures var n, id := ExecuteTaker(s, o, o.arrival, limit, cfg), o.request.id;
            n.desk.active == s.desk.active && id in n.desk.orders && n.desk.orders == s.desk.orders[id := n.desk.orders[id]]
  {
    hide Walk, WalkLevels;
    WalkKeepsRequest(Taking(Booking(s.ledger, o), s.venue.consumed), o.arrival, WalkLevels(s.venue.book, o.request.side),
                     limit, Remaining(o), cfg);
  }

  // ----- orders that leave

  /** From d to n active orders only left: those that stay are unchanged and in their order. */
  ghost predicate Thinned(d: Desk, n: Desk) {
    && (forall id | id in n.active :: id in d.active && id in d.orders && id in n.orders && n.orders[id] == d.orders[id])
    && (forall a, b | Before(n.active, a, b) :: Before(d.active, a, b))
  }

  /** Cancels, expiries and everything else that only takes orders out keep the queues in order. */
  lemma ThinnedKeeps(d: Desk, n: Desk)
    requires QueuesInOrder(d) && Thinned(d, n)
    ensures QueuesInOrder(n)
  {
    hide Queued, Behind, SameLevel, Before;
    InItsOrder(d.active, n.active, ArrivalKey(d.orders));
    forall i, j | 0 <= i < j < |n.active| && SameLevel(n.orders[n.active[i]], n.orders[n.active[j]])
      ensures Behind(n.orders[n.active[i]], n.orders[n.active[j]])
    {
      StandsBefore(n.active, i, j);
      assert n.active[i] in n.active && n.active[j] in n.active;
      InQueueAt(d.orders, d.active, n.active[i], n.active[j]);
    }
  }

  lemma StandsBefore(ids: seq<string>, i: nat, j: nat)
    requires i < j < |ids|
    ensures Before(ids, ids[i], ids[j])
  {
  }

  lemma ThinnedTwice(a: Desk, b: Desk, c: Desk)
    requires Thinned(a, b) && Thinned(b, c)
    ensures Thinned(a, c)
  {
    hide Before;
  }

  lemma {:induction false} RemoveFirstOrder(ids: seq<string>, id: string, a: string, b: string)
    requires Before(RemoveFirst(ids, id), a, b)
    ensures Before(ids, a, b)
    decreases ids
  {
    var all := RemoveFirst(ids, id);
    var i, j :| 0 <= i < j < |all| && all[i] == a && all[j] == b;
    if ids[0] == id {
      assert ids[i + 1] == a && ids[j + 1] == b;
    } else {
      var rest := RemoveFirst(ids[1..], id);
      HeadOrder(ids, rest, a, b);
      if Before(rest, a, b) {
        RemoveFirstOrder(ids[1..], id, a, b);
        var x, y :| 0 <= x < y < |ids[1..]| && ids[1..][x] == a && ids[1..][y] == b;
        assert ids[x + 1] == a && ids[y + 1] == b;
      } else {
        RemoveFirstIn(ids[1..], id, b);
        var y :| 0 <= y < |ids[1..]| && ids[1..][y] == b;
        assert ids[0] == a && ids[y + 1] == b;
      }
    }
  }

  /** A pair of a list is a pair of its tail or starts with its head. */
  lemma HeadOrder(ids: seq<string>, rest: seq<string>, a: string, b: string)
    requires ids != [] && Before([ids[0]] + rest, a, b)
    ensures Before(rest, a, b) || (a == ids[0] && b in rest)
  {
    var all := [ids[0]] + rest;
    var i, j :| 0 <= i < j < |all| && all[i] == a && all[j] == b;
    assert rest[j - 1] == b;
    if i > 0 {
      assert rest[i - 1] == a;
    }
  }

  lemma {:induction false} RemoveFirstIn(ids: seq<string>, id: string, k: string)
    requires k in RemoveFirst(ids, id)
    ensures k in ids
    decreases ids
  {
    if ids[0] != id && k != ids[0] {
      RemoveFirstIn(ids[1..], id, k);
    }
  }

  lemma {:induction false} DropIdOrder(ids: seq<string>, id: string, a: string, b: string)
    requires Distinct(ids) && Before(DropId(ids, id), a, b)
    ensures Before(ids, a, b)
    decreases ids
  {
    var rest := DropId(ids[1..], id);
    DropIdOf(ids[1..], id);
    if ids[0] != id {
      HeadOrder(ids, rest, a, b);
    } else {
      assert DropId(ids, id) == rest;
    }
    if Before(rest, a, b) {
      DropIdOrder(ids[1..], id, a, b);
      var x, y :| 0 <= x < y < |ids[1..]| && ids[1..][x] == a && ids[1..][y] == b;
      assert ids[x + 1] == a && ids[y + 1] == b;
    } else {
      var y :| 0 <= y < |ids[1..]| && ids[1..][y] == b;
      assert ids[0] == a && ids[y + 1] == b;
    }
  }

  lemma ExpireOneThins(d: Desk, id: string, time: nat, final: bool)
    requires Distinct(d.active) && forall k | k in d.active :: k in d.orders
    ensures var n := ExpireOne(d, id, time, final);
            Thinned(d, n) && Distinct(n.active) && forall k | k in n.active :: k in n.orders
  {
    hide Before;
    RemoveFirstOf(d.active, id);
    var n := ExpireOne(d, id, time, final);
    forall a, b | Before(n.active, a, b) ensures Before(d.active, a, b) {
      if n.active != d.active {
        RemoveFirstOrder(d.active, id, a, b);
      }
    }
  }

  lemma {:induction false} ExpireThins(d: Desk, ids: seq<string>, time: nat, final: bool)
    requires Distinct(d.active) && forall k | k in d.active :: k in d.orders
    ensures Thinned(d, Expire(d, ids, time, final))
    decreases ids
  {
    hide Thinned, ExpireOne;
    if ids == [] {
      ThinnedSame(d);
    } else {
      ExpireOneThins(d, ids[0], time, final);
      var n := ExpireOne(d, ids[0], time, final);
      ExpireThins(n, ids[1..], time, final);
      ThinnedTwice(d, n, Expire(n, ids[1..], time, final));
    }
  }

  lemma ThinnedSame(d: Desk)
    requires forall k | k in d.active :: k in d.orders
    ensures Thinned(d, d)
  {
  }

  lemma CancelThins(s: Sim, cfg: Config)
    requires QueuesInOrder(s.desk) && FreshRequests(s) && s.cancels != []
    ensures var r := ProcessNextCancel(s, cfg);
            r.Ok? ==> Thinned(s.desk, r.value.desk) && forall q | q in r.value.requests :: q in s.requests
  {
    hide Before, DropId, Queued, Behind, SameLevel;
    var id := s.cancels[0].request.id;
    DropIdOf(s.desk.active, id);
    forall a, b | Before(DropId(s.desk.active, id), a, b) ensures Before(s.desk.active, a, b) {
      DropIdOrder(s.desk.active, id, a, b);
    }
    var i := IndexOf(s.requests, id);
    assert i.Some? ==> s.requests[i.value] in s.requests;
  }

  // ----- the order of arrival

  /** From s to n active orders only left and no request was added. */
  ghost predicate Lasting(s: Sim, n: Sim) {
    && (forall id | id in n.desk.active ::
          id in s.desk.active && id in s.desk.orders && id in n.desk.orders
          && n.desk.orders[id].arrival == s.desk.orders[id].arrival)
    && (forall a, b | Before(n.desk.active, a, b) :: Before(s.desk.active, a, b))
    && (forall r | r in n.requests :: r in s.requests)
  }

  lemma LastingArranged(s: Sim, n: Sim, cfg: Config)
    requires Arranged(s, cfg) && Distinct(s.desk.active) && Lasting(s, n)
    ensures Arranged(n, cfg)
  {
    hide KeyLeq, Before;
    InItsOrder(s.desk.active, n.desk.active, ArrivalKey(s.desk.orders));
    forall id | id in n.desk.active ensures ArrivalKey(n.desk.orders)(id) == ArrivalKey(s.desk.orders)(id) {
    }
    forall i, j | 0 <= i < j < |n.desk.active|
      ensures KeyLeq(ArrivalKey(n.desk.orders)(n.desk.active[i]), ArrivalKey(n.desk.orders)(n.desk.active[j]))
    {
      assert n.desk.active[i] in n.desk.active && n.desk.active[j] in n.desk.active;
      assert KeyLeq(ArrivalKey(s.desk.orders)(n.desk.active[i]), ArrivalKey(s.desk.orders)(n.desk.active[j]));
    }
  }

  lemma ThinnedLasts(s: Sim, n: Sim)
    requires Thinned(s.desk, n.desk) && forall r | r in n.requests :: r in s.requests
    ensures Lasting(s, n)
  {
    hide Before;
  }

  lemma SweptLasts(s: Sim, ids: seq<string>, f: Flow, cfg: Config)
    requires AllQueued(s.desk.orders, ids) && AllQueued(s.desk.orders, s.desk.active)
    ensures Lasting(s, Settled(s, FlowEach(Passive(s.ledger, s.desk.orders), ids, f, cfg)))
  {
    hide Before, Queued, StillResting, Reached, Bookings, SizeAt;
    var n := Settled(s, FlowEach(Passive(s.ledger, s.desk.orders), ids, f, cfg));
    SettledSweeps(s, ids, f, cfg);
    SweptQueued(s.desk, n.desk, ids, f, s.ledger.position, cfg);
    forall id | id in n.desk.active ensures n.desk.orders[id].arrival == s.desk.orders[id].arrival {
      SweptRequest(s.desk, n.desk, ids, f, s.ledger.position, cfg, id);
    }
    forall a, b | Before(n.desk.active, a, b) ensures Before(s.desk.active, a, b) {
      StillRestingOrder(n.desk.orders, s.desk.active, a, b);
    }
  }

  /** The next request arrives after every active order and before every other request. */
  lemma NextIsLater(s: Sim, cfg: Config)
    requires Arranged(s, cfg) && PendingSorted(s) && s.requests != []
    ensures forall id | id in s.desk.active :: KeyLeq(ArrivalKey(s.desk.orders)(id), OrderControl(s.requests[0], cfg))
    ensures forall r | r in s.requests :: KeyLeq(OrderControl(s.requests[0], cfg), OrderControl(r, cfg))
  {
    hide StringLeq;
    assert s.requests[0] in s.requests;
    forall r | r in s.requests ensures KeyLeq(OrderControl(s.requests[0], cfg), OrderControl(r, cfg)) {
      var i :| 0 <= i < |s.requests| && s.requests[i] == r;
      HeadIsLeast(s.requests, i, RequestKey());
    }
  }

  lemma ActivateDesk(s: Sim, o: Order, cfg: Config)
    ensures var r, id := Activate(s, o, cfg), o.request.id;
            r.Ok? ==>
              && id in r.value.desk.orders && r.value.desk.orders == s.desk.orders[id := r.value.desk.orders[id]]
              && (r.value.desk.active == s.desk.active
                  || (r.value.desk.active == s.desk.active + [id] && r.value.desk.orders[id].arrival == o.arrival))
              && r.value.requests == s.requests
  {
    hide Marketable, Walk, WalkLevels, PositionAllows, OwnQueue, Displayed, TakerOutcome;
    TakerStores(s, o, if o.request.instruction.Market? then None else Some(o.request.instruction.price), cfg);
  }

  lemma ActivateArranged(s: Sim, o: Order, cfg: Config)
    requires Arranged(s, cfg) && QueuesInOrder(s.desk) && o.request.id !in s.desk.orders
    requires forall id | id in s.desk.active :: KeyLeq(ArrivalKey(s.desk.orders)(id), Key(o.arrival, 0, o.request.id))
    requires forall r | r in s.requests :: KeyLeq(Key(o.arrival, 0, o.request.id), OrderControl(r, cfg))
    ensures var r := Activate(s, o, cfg); r.Ok? ==> Arranged(r.value, cfg)
  {
    hide KeyLeq, Activate, OrderControl, InQueue, SortedBy;
    var r, id := Activate(s, o, cfg), o.request.id;
    ActivateDesk(s, o, cfg);
    QueuedKnown(s.desk);
    if r.Ok? {
      var before, after := ArrivalKey(s.desk.orders), ArrivalKey(r.value.desk.orders);
      assert forall k | k in s.desk.active :: after(k) == before(k);
      SortedAppend(s.desk.active, id, before, after);
    }
  }

  lemma QueuedKnown(d: Desk)
    requires QueuesInOrder(d)
    ensures forall id | id in d.active :: id in d.orders
  {
  }

  lemma SortedAppend(ids: seq<string>, id: string, before: string -> Key, after: string -> Key)
    requires SortedBy(ids, before) && forall k | k in ids :: after(k) == before(k)
    ensures SortedBy(ids, after)
    ensures (forall k | k in ids :: KeyLeq(before(k), after(id))) ==> SortedBy(ids + [id], after)
  {
    hide KeyLeq;
    forall i, j | 0 <= i < j < |ids| ensures KeyLeq(after(ids[i]), after(ids[j])) {
      assert KeyLeq(before(ids[i]), before(ids[j]));
    }
    var all := ids + [id];
    assert forall i | 0 <= i < |ids| :: all[i] == ids[i] && ids[i] in ids;
  }

  // ----- runs

  /** One operation of the simulator; a run is any sequence of them. */
  datatype Operation = Clock(time: nat) | OrderArrives | CancelArrives | Happens(event: Event) | RiskCheck

  function Operate(s: Sim, op: Operation, cfg: Config): Result<Sim, SimError> {
    match op
    case Clock(time) => Ok(WithExpiries(s, time, false))
    case OrderArrives =>
      (match NextOrderArrival(s, cfg)
       case Err(e) => Err(e)
       case Ok(arrival) => if arrival == None then Ok(s) else ActivateNext(s, arrival.value, cfg))
    case CancelArrives => if s.cancels == [] then Ok(s) else ProcessNextCancel(s, cfg)
    case Happens(e) => MarketEvent(s, e, cfg)
    case RiskCheck => Ok(CheckKillSwitch(s, cfg))
  }

  ghost predicate FlowKeeps(s: Sim, ids: seq<string>, f: Flow, cfg: Config) {
    (forall id | id in ids :: id in s.desk.orders) && Kept(s.desk.orders, ids, f, s.ledger.position, cfg)
  }

  /** An update reaches the queues when it is not stale and the queue model uses decreases. */
  predicate Depletes(s: Sim, u: DepthUpdate, cfg: Config) {
    u.finalUpdateId > s.venue.book.lastUpdateId && DepletionActs(s, cfg)
  }

  /** When one operation leaves the queues in order: only fills and arrivals have a condition. */
  ghost predicate KeepsOrder(s: Sim, op: Operation, cfg: Config) {
    match op
    case OrderArrives =>
      s.requests != [] && ComesToRest(s, s.requests[0], cfg) ==>
        Joins(s, s.requests[0], s.requests[0].instruction.price, cfg)
    case Happens(TradeEvent(trade)) => FlowKeeps(s, TradeQueue(s.desk, trade), Traded(trade), cfg)
    case Happens(DepthEvent(u)) => Depletes(s, u, cfg) ==> FlowKeeps(s, s.desk.active, DecreaseOf(s, u), cfg)
    case _ => true
  }

  /** What every run keeps: the simulator's invariant and the order of arrival. */
  ghost predicate RunInvariant(s: Sim, cfg: Config) {
    SimInvariant(s, cfg) && Arranged(s, cfg)
  }

  lemma NothingRests(s: Sim, cfg: Config)
    requires s.desk.active == []
    ensures QueuesInOrder(s.desk) && Arranged(s, cfg)
  {
  }

  lemma InvariantQueues(s: Sim, cfg: Config)
    requires SimInvariant(s, cfg)
    ensures Distinct(s.desk.active) && (forall id | id in s.desk.active :: id in s.desk.orders)
    ensures FreshRequests(s) && PendingSorted(s) && WithinLimit(s.ledger.position, cfg)
  {
    forall id | id in s.desk.active ensures id in s.desk.orders {
      assert ActiveOrder(s.desk.orders, id);
    }
  }

  lemma ClockKeeps(s: Sim, time: nat, cfg: Config)
    requires RunInvariant(s, cfg)
    ensures var n := WithExpiries(s, time, false);
            RunInvariant(n, cfg) && Thinned(s.desk, n.desk)
  {
    hide SimInvariant, Arranged, Thinned, Lasting, Expire, Submitted;
    InvariantQueues(s, cfg);
    ExpiriesKeep(s, time, false, cfg);
    ExpireThins(s.desk, s.desk.active, time, false);
    ThinnedLasts(s, WithExpiries(s, time, false));
    LastingArranged(s, WithExpiries(s, time, false), cfg);
  }

  lemma RiskCheckKeeps(s: Sim, cfg: Config)
    requires RunInvariant(s, cfg) && QueuesInOrder(s.desk)
    ensures var n := CheckKillSwitch(s, cfg);
            RunInvariant(n, cfg) && QueuesInOrder(n.desk)
  {
    hide SimInvariant, Arranged, Equity, CancelEach, InQueue, Submitted;
    KillSwitchKeeps(s, cfg);
    if CheckKillSwitch(s, cfg) != s {
      NothingRests(CheckKillSwitch(s, cfg), cfg);
    }
  }

  lemma CancelArrivesKeeps(s: Sim, cfg: Config)
    requires RunInvariant(s, cfg) && QueuesInOrder(s.desk) && s.cancels != []
    ensures var r := ProcessNextCancel(s, cfg);
            r.Ok? ==> RunInvariant(r.value, cfg) && QueuesInOrder(r.value.desk)
  {
    hide SimInvariant, Arranged, InQueue, Thinned, Lasting, ProcessNextCancel, Submitted;
    InvariantQueues(s, cfg);
    NextCancelKeeps(s, cfg);
    CancelThins(s, cfg);
    var r := ProcessNextCancel(s, cfg);
    if r.Ok? {
      ThinnedKeeps(s.desk, r.value.desk);
      ThinnedLasts(s, r.value);
      LastingArranged(s, r.value, cfg);
    }
  }

  lemma OrderArrivesKeepsIff(s: Sim, cfg: Config)
    requires RunInvariant(s, cfg) && QueuesInOrder(s.desk)
    ensures var r := Operate(s, OrderArrives, cfg);
            r.Ok? ==> RunInvariant(r.value, cfg) && (QueuesInOrder(r.value.desk) <==> KeepsOrder(s, OrderArrives, cfg))
  {
    hide SimInvariant, Arranged, InQueue, Activate, Submitted, ComesToRest, Joins, KeyLeq;
    InvariantQueues(s, cfg);
    var r, arrival := Operate(s, OrderArrives, cfg), NextOrderArrival(s, cfg);
    if s.requests != [] && r.Ok? {
      var q := s.requests[0];
      assert q in s.requests;
      ActivateNextKeeps(s, arrival.value.value, cfg);
      NextIsLater(s, cfg);
      var o := Order(q, arrival.value.value, Expiry(arrival.value.value, q.timeToLive).value, Pending, 0, 0.0, "");
      var p := s.(requests := s.requests[1..]);
      assert Arranged(p, cfg) by { FewerRequests(s, p, cfg); }
      ActivateKeepsIff(p, o, cfg);
      ActivateArranged(p, o, cfg);
      SameJoin(s, p, q, cfg);
    }
  }

  lemma FewerRequests(s: Sim, p: Sim, cfg: Config)
    requires Arranged(s, cfg) && p == s.(requests := p.requests) && forall r | r in p.requests :: r in s.requests
    ensures Arranged(p, cfg)
  {
    hide KeyLeq;
  }

  lemma SameJoin(s: Sim, p: Sim, r: Request, cfg: Config)
    requires p == s.(requests := p.requests)
    ensures ComesToRest(p, r, cfg) == ComesToRest(s, r, cfg) && (ComesToRest(s, r, cfg) ==> r.instruction.Limit?)
    ensures r.instruction.Limit? ==> Joins(p, r, r.instruction.price, cfg) == Joins(s, r, r.instruction.price, cfg)
  {
  }

  lemma TradeHappensKeepsIff(s: Sim, trade: Trade, cfg: Config)
    requires RunInvariant(s, cfg) && QueuesInOrder(s.desk)
    ensures var n := ProcessTrade(s, trade, cfg);
            Arranged(n, cfg) && (QueuesInOrder(n.desk) <==> KeepsOrder(s, Happens(TradeEvent(trade)), cfg))
  {
    hide SimInvariant, SortedBy, InQueue, TradeQueue, Kept, Lasting, AllQueued, TradeEach, ReachOrder, StillResting;
    InvariantQueues(s, cfg);
    QueueDistinct(s.desk.orders, s.desk.active);
    TradeQueueIs(s.desk, trade);
    TradeKeepsIff(s, trade, cfg);
    AllQueuedIn(s.desk.orders, TradeQueue(s.desk, trade));
    if s.desk.active != [] {
      SweptLasts(s, TradeQueue(s.desk, trade), Traded(trade), cfg);
      LastingArranged(s, ProcessTrade(s, trade, cfg), cfg);
    }
  }

  lemma DepletionArranged(s: Sim, u: DepthUpdate, cfg: Config)
    requires Arranged(s, cfg) && QueuesInOrder(s.desk)
    ensures Arranged(ProcessDepletion(s, u, cfg), cfg)
  {
    hide SortedBy, InQueue, Lasting, AllQueued, DepleteEach, Decreases, StillResting;
    QueueDistinct(s.desk.orders, s.desk.active);
    if DepletionActs(s, cfg) {
      SweptLasts(s, s.desk.active, DecreaseOf(s, u), cfg);
      LastingArranged(s, ProcessDepletion(s, u, cfg), cfg);
    }
  }

  lemma SameDesk(s: Sim, n: Sim, cfg: Config)
    requires Arranged(s, cfg) && n.desk == s.desk && n.requests == s.requests
    ensures Arranged(n, cfg)
  {
    hide KeyLeq;
  }

  lemma HappensKeepsIff(s: Sim, e: Event, cfg: Config)
    requires RunInvariant(s, cfg) && QueuesInOrder(s.desk)
    ensures var r := MarketEvent(s, e, cfg);
            r.Ok? ==> RunInvariant(r.value, cfg) && (QueuesInOrder(r.value.desk) <==> KeepsOrder(s, Happens(e), cfg))
  {
    hide SimInvariant, Arranged, InQueue, Submitted, ProcessTrade, ProcessDepletion, Kept, TradeQueue, DecreaseOf, CancelEach,
         Installed, Applied, Sound, UpdateMid, Refresh, Cleared;
    MarketEventKeeps(s, e, cfg);
    var r := MarketEvent(s, e, cfg);
    if r.Ok? {
      match e
      case BoundaryEvent(_, _) => NothingRests(r.value, cfg);
      case SnapshotEvent(_) => SameDesk(s, r.value, cfg);
      case TradeEvent(trade) => TradeHappensKeepsIff(s, trade, cfg);
      case DepthEvent(u) =>
        if u.finalUpdateId > s.venue.book.lastUpdateId {
          DepletionKeepsIff(s, u, cfg);
          QueueDistinct(s.desk.orders, s.desk.active);
          AllQueuedIn(s.desk.orders, s.desk.active);
          DepletionArranged(s, u, cfg);
          DepletionRequests(s, u, cfg);
          SameDesk(ProcessDepletion(s, u, cfg), r.value, cfg);
        }
    }
  }

  lemma DepletionRequests(s: Sim, u: DepthUpdate, cfg: Config)
    ensures ProcessDepletion(s, u, cfg).requests == s.requests
  {
    hide DepleteEach, StillResting, Decreases;
  }

  /** One operation keeps what every run keeps, and the queues in order exactly when its condition holds. */
  lemma OperateKeepsIff(s: Sim, op: Operation, cfg: Config)
    requires RunInvariant(s, cfg) && QueuesInOrder(s.desk)
    ensures var r := Operate(s, op, cfg);
            r.Ok? ==> RunInvariant(r.value, cfg) && (QueuesInOrder(r.value.desk) <==> KeepsOrder(s, op, cfg))
  {
    hide RunInvariant, QueuesInOrder, ProcessNextCancel, MarketEvent, CheckKillSwitch, WithExpiries, ActivateNext, FlowKeeps, Thinned;
    match op
    case Clock(time) =>
      ClockKeeps(s, time, cfg);
      ThinnedKeeps(s.desk, WithExpiries(s, time, false).desk);
    case OrderArrives => OrderArrivesKeepsIff(s, cfg);
    case CancelArrives =>
      if s.cancels != [] {
        CancelArrivesKeeps(s, cfg);
      }
    case Happens(e) => HappensKeepsIff(s, e, cfg);
    case RiskCheck => RiskCheckKeeps(s, cfg);
  }

  /** The queues are in order in every state of the run. */
  ghost predicate AlwaysInOrder(s: Sim, ops: seq<Operation>, cfg: Config)
    decreases ops
  {
    && QueuesInOrder(s.desk)
    && (ops != [] && Operate(s, ops[0], cfg).Ok? ==> AlwaysInOrder(Operate(s, ops[0], cfg).value, ops[1..], cfg))
  }

  /** Every operation of the run meets its condition in the state it finds. */
  ghost predicate AlwaysKeeps(s: Sim, ops: seq<Operation>, cfg: Config)
    decreases ops
  {
    ops != [] && Operate(s, ops[0], cfg).Ok? ==>
      KeepsOrder(s, ops[0], cfg) && AlwaysKeeps(Operate(s, ops[0], cfg).value, ops[1..], cfg)
  }

  /**
   Over every run of expiries, arriving orders and cancels, market events and risk checks, the queues
   are in order in every state exactly when every operation meets its condition.
   */
  lemma {:induction false} RunInOrderIff(s: Sim, ops: seq<Operation>, cfg: Config)
    requires RunInvariant(s, cfg) && QueuesInOrder(s.desk)
    ensures AlwaysInOrder(s, ops, cfg) <==> AlwaysKeeps(s, ops, cfg)
    decreases ops
  {
    hide RunInvariant, QueuesInOrder, Operate, KeepsOrder;
    if ops != [] && Operate(s, ops[0], cfg).Ok? {
      OperateKeepsIff(s, ops[0], cfg);
      var n := Operate(s, ops[0], cfg).value;
      if QueuesInOrder(n.desk) {
        RunInOrderIff(n, ops[1..], cfg);
      } else {
        OutOfOrder(n, ops[1..], cfg);
      }
    }
  }

  lemma OutOfOrder(s: Sim, ops: seq<Operation>, cfg: Config)
    requires !QueuesInOrder(s.desk)
    ensures !AlwaysInOrder(s, ops, cfg)
  {
    hide QueuesInOrder, Operate;
  }

  // ----- whole units

  ghost predicate WholeQueues(d: Desk) {
    WholeUnits(d.orders, d.active)
  }

  /**
   What a caller can check of one operation on whole units: the limit allows what a trade or the
   decreases bring, a decrease is whole, and an order joins behind its level by whole units.
   */
  ghost predicate Allowed(s: Sim, op: Operation, cfg: Config) {
    match op
    case OrderArrives =>
      s.requests != [] && ComesToRest(s, s.requests[0], cfg) ==>
        Joins(s, s.requests[0], s.requests[0].instruction.price, cfg)
        && Whole(JoinsAt(s, s.requests[0], s.requests[0].instruction.price, cfg))
    case Happens(TradeEvent(trade)) =>
      var ids := TradeQueue(s.desk, trade);
      && (forall id | id in ids :: id in s.desk.orders)
      && PositionAllows(s.ledger.position, Other(Aggressor(trade)), TotalShare(s.desk.orders, ids, Traded(trade), cfg), cfg)
    case Happens(DepthEvent(u)) =>
      Depletes(s, u, cfg) ==>
        && (forall id | id in s.desk.active :: id in s.desk.orders)
        && WholeSizes(s.desk.orders, s.desk.active, DecreaseOf(s, u), cfg)
        && RunningWithin(s.desk.orders, s.desk.active, DecreaseOf(s, u), s.ledger.position, cfg)
    case _ => true
  }

  lemma ThinnedWhole(d: Desk, n: Desk)
    requires WholeQueues(d) && Thinned(d, n)
    ensures WholeQueues(n)
  {
    hide Before, Whole;
  }

  lemma TradeAllowed(s: Sim, trade: Trade, cfg: Config)
    requires RunInvariant(s, cfg) && QueuesInOrder(s.desk) && WholeQueues(s.desk)
    requires Allowed(s, Happens(TradeEvent(trade)), cfg)
    ensures KeepsOrder(s, Happens(TradeEvent(trade)), cfg) && WholeQueues(ProcessTrade(s, trade, cfg).desk)
  {
    hide SimInvariant, SortedBy, TradeQueue, InQueue, Kept, Swept, AllQueued, TradeEach, AllBooked, TotalShare, WholeUnits, Whole;
    var ids, f := TradeQueue(s.desk, trade), Traded(trade);
    InvariantQueues(s, cfg);
    QueueDistinct(s.desk.orders, s.desk.active);
    TradeQueueIs(s.desk, trade);
    OneSideBookedIff(s.desk.orders, ids, f, s.ledger.position, Other(Aggressor(trade)), cfg);
    SubQueue(s.desk, ids);
    FewerWhole(s.desk.orders, s.desk.active, ids);
    TradesAreWhole(s.desk.orders, ids, trade, cfg);
    AllBookedKeeps(s.desk.orders, ids, f, s.ledger.position, cfg);
    if s.desk.active != [] {
      SettledSweeps(s, ids, f, cfg);
      SweptWhole(s.desk, ProcessTrade(s, trade, cfg).desk, ids, f, s.ledger.position, cfg);
    }
  }

  lemma FewerWhole(orders: map<string, Order>, ids: seq<string>, sub: seq<string>)
    requires WholeUnits(orders, ids) && forall id | id in sub :: id in ids
    ensures WholeUnits(orders, sub)
  {
  }

  lemma TradesAreWhole(orders: map<string, Order>, ids: seq<string>, trade: Trade, cfg: Config)
    ensures WholeSizes(orders, ids, Traded(trade), cfg)
  {
    assert (trade.quantity as real).Floor == trade.quantity as int;
  }

  lemma DepletionAllowed(s: Sim, u: DepthUpdate, cfg: Config)
    requires RunInvariant(s, cfg) && QueuesInOrder(s.desk) && WholeQueues(s.desk)
    requires Allowed(s, Happens(DepthEvent(u)), cfg) && Depletes(s, u, cfg)
    ensures KeepsOrder(s, Happens(DepthEvent(u)), cfg) && WholeQueues(ProcessDepletion(s, u, cfg).desk)
  {
    hide SimInvariant, Arranged, InQueue, Kept, Swept, AllQueued, DepleteEach, AllBooked, RunningWithin, WholeSizes, WholeUnits, Decreases;
    InvariantQueues(s, cfg);
    QueueDistinct(s.desk.orders, s.desk.active);
    AllBookedIff(s.desk.orders, s.desk.active, DecreaseOf(s, u), s.ledger.position, cfg);
    AllBookedKeeps(s.desk.orders, s.desk.active, DecreaseOf(s, u), s.ledger.position, cfg);
    SettledSweeps(s, s.desk.active, DecreaseOf(s, u), cfg);
    SweptWhole(s.desk, ProcessDepletion(s, u, cfg).desk, s.desk.active, DecreaseOf(s, u), s.ledger.position, cfg);
  }

  lemma ActivateWhole(s: Sim, o: Order, cfg: Config)
    requires QueuesInOrder(s.desk) && WholeQueues(s.desk) && o.request.id !in s.desk.orders
    requires ComesToRest(s, o.request, cfg) ==> Whole(JoinsAt(s, o.request, o.request.instruction.price, cfg))
    ensures var r := Activate(s, o, cfg); r.Ok? ==> WholeQueues(r.value.desk)
  {
    hide Marketable, Walk, WalkLevels, PositionAllows, OwnQueue, Displayed, TakerOutcome, InQueue, Whole;
    var r := Activate(s, o, cfg);
    ActivateDesk(s, o, cfg);
    QueuedKnown(s.desk);
    if r.Ok? && r.value.desk.active != s.desk.active {
      assert ComesToRest(s, o.request, cfg);
    }
  }

  lemma OrderAllowed(s: Sim, cfg: Config)
    requires RunInvariant(s, cfg) && QueuesInOrder(s.desk) && WholeQueues(s.desk) && Allowed(s, OrderArrives, cfg)
    ensures var r := Operate(s, OrderArrives, cfg); r.Ok? ==> WholeQueues(r.value.desk)
  {
    hide SimInvariant, Arranged, InQueue, WholeQueues, Activate, ComesToRest, Joins, JoinsAt;
    InvariantQueues(s, cfg);
    var r, arrival := Operate(s, OrderArrives, cfg), NextOrderArrival(s, cfg);
    if s.requests != [] && r.Ok? {
      var q := s.requests[0];
      assert q in s.requests;
      var o := Order(q, arrival.value.value, Expiry(arrival.value.value, q.timeToLive).value, Pending, 0, 0.0, "");
      var p := s.(requests := s.requests[1..]);
      SameJoin(s, p, q, cfg);
      assert ComesToRest(s, q, cfg) ==> JoinsAt(p, q, q.instruction.price, cfg) == JoinsAt(s, q, q.instruction.price, cfg) by {
        SamePlace(s, p, q);
      }
      ActivateWhole(p, o, cfg);
    }
  }

  lemma SamePlace(s: Sim, p: Sim, r: Request)
    requires p == s.(requests := p.requests)
    ensures forall price, cfg :: JoinsAt(p, r, price, cfg) == JoinsAt(s, r, price, cfg)
  {
  }

  lemma AllowedKeeps(s: Sim, op: Operation, cfg: Config)
    requires RunInvariant(s, cfg) && QueuesInOrder(s.desk) && WholeQueues(s.desk) && Allowed(s, op, cfg)
    ensures KeepsOrder(s, op, cfg)
    ensures var r := Operate(s, op, cfg); r.Ok? ==> WholeQueues(r.value.desk)
  {
    hide RunInvariant, QueuesInOrder, Thinned, ActivateNext, ProcessTrade, ProcessDepletion, TradeQueue, FlowKeeps, Equity, CancelEach,
         Expire, ProcessNextCancel, Applied, Installed, Sound, UpdateMid, Refresh, Cleared, RunningWithin, TotalShare, WholeSizes;
    match op
    case Clock(time) =>
      ClockKeeps(s, time, cfg);
      ThinnedWhole(s.desk, WithExpiries(s, time, false).desk);
    case OrderArrives => OrderAllowed(s, cfg);
    case CancelArrives =>
      if s.cancels != [] && ProcessNextCancel(s, cfg).Ok? {
        RunQueues(s, cfg);
        CancelThins(s, cfg);
        ThinnedWhole(s.desk, ProcessNextCancel(s, cfg).value.desk);
      }
    case RiskCheck =>
    case Happens(BoundaryEvent(_, _)) =>
    case Happens(SnapshotEvent(_)) =>
    case Happens(TradeEvent(trade)) => TradeAllowed(s, trade, cfg);
    case Happens(DepthEvent(u)) =>
      if Depletes(s, u, cfg) {
        DepletionAllowed(s, u, cfg);
      } else if !DepletionActs(s, cfg) {
        DepletionIdle(s, u, cfg);
      }
  }

  lemma RunQueues(s: Sim, cfg: Config)
    requires RunInvariant(s, cfg)
    ensures FreshRequests(s)
  {
    InvariantQueues(s, cfg);
  }

  lemma DepletionIdle(s: Sim, u: DepthUpdate, cfg: Config)
    requires !DepletionActs(s, cfg)
    ensures ProcessDepletion(s, u, cfg) == s
  {
  }

  ghost predicate AlwaysAllowed(s: Sim, ops: seq<Operation>, cfg: Config)
    decreases ops
  {
    ops != [] && Operate(s, ops[0], cfg).Ok? ==>
      Allowed(s, ops[0], cfg) && AlwaysAllowed(Operate(s, ops[0], cfg).value, ops[1..], cfg)
  }

  /**
   With whole units the relation survives every run of trades, whole decreases, cancels, expiries and
   joining orders in which the position limit allows what each event brings.
   */
  lemma {:induction false} WholeRunInOrder(s: Sim, ops: seq<Operation>, cfg: Config)
    requires RunInvariant(s, cfg) && QueuesInOrder(s.desk) && WholeQueues(s.desk) && AlwaysAllowed(s, ops, cfg)
    ensures AlwaysInOrder(s, ops, cfg)
    decreases ops
  {
    hide RunInvariant, QueuesInOrder, WholeQueues, Operate, KeepsOrder, Allowed;
    if ops != [] && Operate(s, ops[0], cfg).Ok? {
      AllowedKeeps(s, ops[0], cfg);
      OperateKeepsIff(s, ops[0], cfg);
      WholeRunInOrder(Operate(s, ops[0], cfg).value, ops[1..], cfg);
    }
  }
}
