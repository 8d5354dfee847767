/** The liquidity walk of an aggressive order: how much it fills, at what cost, never beyond its limit. */
module SimulationTaker {
  import opened Results
  import opened L2Types
  import opened OrderBook
  import opened Listing
  import opened Greedy
  import opened Simulation
  import opened SimulationAccounting

  /** The levels in front of the first one beyond the limit. */
  function Reachable(levels: seq<Level>, side: Side, limit: Option<Price>): seq<Level> {
    if levels == [] || BeyondLimit(side, levels[0].price, limit) then []
    else [levels[0]] + Reachable(levels[1..], side, limit)
  }

  function Availables(levels: seq<Level>, side: Side, consumed: Shadow): seq<int> {
    if levels == [] then [] else [Available(levels[0], side, consumed)] + Availables(levels[1..], side, consumed)
  }

  /** Cheap levels are light for a buyer, dear ones for a seller. */
  function Weights(levels: seq<Level>, side: Side): seq<int> {
    if levels == [] then [] else [Sign(side) * levels[0].price as int] + Weights(levels[1..], side)
  }

  /** One fill for every level something is taken from. */
  function TakerFills(r: Request, time: nat, levels: seq<Level>, takes: seq<int>, cfg: Config): seq<Fill>
    requires |levels| == |takes|
  {
    if levels == [] then []
    else
      (if takes[0] > 0 then
         [Fill(r.id, time, r.side, takes[0], levels[0].price, false, Fee(levels[0].price, takes[0], false, cfg))]
       else []) + TakerFills(r, time, levels[1..], takes[1..], cfg)
  }

  lemma {:induction false} SameLengths(levels: seq<Level>, side: Side, consumed: Shadow)
    ensures |Availables(levels, side, consumed)| == |levels| == |Weights(levels, side)|
    ensures NonNegative(Availables(levels, side, consumed))
    decreases levels
  {
    if levels != [] {
      SameLengths(levels[1..], side, consumed);
    }
  }

  ghost predicate DistinctPrices(levels: seq<Level>) {
    forall i, j | 0 <= i < j < |levels| :: levels[i].price != levels[j].price
  }

  /** What a walk leaves behind, given what it took from each reachable level. */
  ghost predicate WalkOutcome(t: Taking, w: Taking, time: nat, reach: seq<Level>, takes: seq<int>, cfg: Config) {
    && |reach| == |takes|
    && w.booking.ledger.fills == t.booking.ledger.fills + TakerFills(t.booking.order.request, time, reach, takes, cfg)
    && w.booking.ledger.position == t.booking.ledger.position + Sign(t.booking.order.request.side) * Total(takes)
    && w.booking.order == t.booking.order.(filled := t.booking.order.filled + Total(takes))
  }

  lemma {:induction false} TakingNothing(r: Request, time: nat, levels: seq<Level>, consumed: Shadow, side: Side, cfg: Config)
    ensures |Availables(levels, side, consumed)| == |levels|
    ensures var takes := Takes(Availables(levels, side, consumed), 0);
            Total(takes) == 0 && TakerFills(r, time, levels, takes, cfg) == []
    decreases levels
  {
    if levels != [] {
      TakingNothing(r, time, levels[1..], consumed, side, cfg);
      SameLengths(levels, side, consumed);
    }
  }

  lemma {:induction false} ShadowElsewhere(levels: seq<Level>, side: Side, consumed: Shadow, level: Level, quantity: int)
    requires forall l | l in levels :: l.price != level.price
    ensures Availables(levels, side, consumed[TakenKey(side, level) := quantity]) == Availables(levels, side, consumed)
    decreases levels
  {
    if levels != [] {
      ShadowElsewhere(levels[1..], side, consumed, level, quantity);
    }
  }

  lemma {:induction false} ReachableIsPrefix(levels: seq<Level>, side: Side, limit: Option<Price>)
    ensures Reachable(levels, side, limit) <= levels
    decreases levels
  {
    if levels != [] && !BeyondLimit(side, levels[0].price, limit) {
      ReachableIsPrefix(levels[1..], side, limit);
    }
  }

  lemma TakeLevelAccepted(t: Taking, time: nat, level: Level, quantity: int, cfg: Config)
    requires 0 < quantity && PositionAllows(t.booking.ledger.position, t.booking.order.request.side, quantity, cfg)
    ensures var n, r := TakeLevel(t, time, level, quantity, cfg), t.booking.order.request;
            && n.booking.ledger.fills == t.booking.ledger.fills +
                 [Fill(r.id, time, r.side, quantity, level.price, false, Fee(level.price, quantity, false, cfg))]
            && n.booking.ledger.position == t.booking.ledger.position + Sign(r.side) * quantity
            && n.booking.order == t.booking.order.(filled := t.booking.order.filled + quantity)
            && n.consumed == t.consumed[TakenKey(r.side, level) := ConsumedAt(t.consumed, TakenKey(r.side, level)) + quantity]
  {
  }

  /**
   The walk is the greedy allocation over the reachable levels, and as long as the whole remainder
   would be inside the position limit no fill on the way is refused.
   */
  lemma {:induction false} WalkIsGreedy(t: Taking, time: nat, levels: seq<Level>, limit: Option<Price>, remaining: int, cfg: Config)
    requires DistinctPrices(levels) && remaining >= 0
    requires -(cfg.maxPosition as int) <= t.booking.ledger.position <= cfg.maxPosition as int
    requires PositionAllows(t.booking.ledger.position, t.booking.order.request.side, remaining, cfg)
    ensures var side := t.booking.order.request.side;
            var reach := Reachable(levels, side, limit);
            var takes := Takes(Availables(reach, side, t.consumed), remaining);
            WalkOutcome(t, Walk(t, time, levels, limit, remaining, cfg), time, reach, takes, cfg)
    decreases levels
  {
    hide Fee, Available, BeyondLimit, WalkOutcome, TakerFills, TakeLevel, Total;
    var r := t.booking.order.request;
    var reach := Reachable(levels, r.side, limit);
    SameLengths(reach, r.side, t.consumed);
    if levels == [] || remaining == 0 || BeyondLimit(r.side, levels[0].price, limit) {
      NothingWalked(t, time, reach, remaining, cfg);
    } else {
      var available := Available(levels[0], r.side, t.consumed);
      var quantity := Smaller(remaining, available);
      var rest := Reachable(levels[1..], r.side, limit);
      assert reach[1..] == rest;
      if quantity <= 0 {
        WalkIsGreedy(t, time, levels[1..], limit, remaining, cfg);
        ZeroThenRest(t, Walk(t, time, levels[1..], limit, remaining, cfg), time, reach,
                     Takes(Availables(reach, r.side, t.consumed), remaining), cfg);
      } else {
        var n := TakeLevel(t, time, levels[0], quantity, cfg);
        TakeLevelAccepted(t, time, levels[0], quantity, cfg);
        WalkIsGreedy(n, time, levels[1..], limit, remaining - quantity, cfg);
        TakesFirst(t, n, Walk(n, time, levels[1..], limit, remaining - quantity, cfg), time, levels, limit, remaining, cfg);
      }
    }
  }

  /** The first reachable level, with something to take, and then the walk over the rest. */
  lemma TakesFirst(t: Taking, n: Taking, w: Taking, time: nat, levels: seq<Level>, limit: Option<Price>, remaining: int, cfg: Config)
    requires var side := t.booking.order.request.side;
             levels != [] && DistinctPrices(levels) && !BeyondLimit(side, levels[0].price, limit)
    requires var r := t.booking.order.request;
             var quantity := Smaller(remaining, Available(levels[0], r.side, t.consumed));
             && quantity > 0
             && n == TakeLevel(t, time, levels[0], quantity, cfg)
             && PositionAllows(t.booking.ledger.position, r.side, quantity, cfg)
             && var rest := Reachable(levels[1..], r.side, limit);
                WalkOutcome(n, w, time, rest, Takes(Availables(rest, r.side, n.consumed), remaining - quantity), cfg)
    ensures var side := t.booking.order.request.side;
            var reach := Reachable(levels, side, limit);
            WalkOutcome(t, w, time, reach, Takes(Availables(reach, side, t.consumed), remaining), cfg)
  {
    hide Fee, Available, BeyondLimit, WalkOutcome, TakerFills, TakeLevel, Total, PositionAllows;
    var r := t.booking.order.request;
    var quantity := Smaller(remaining, Available(levels[0], r.side, t.consumed));
    var reach, rest := Reachable(levels, r.side, limit), Reachable(levels[1..], r.side, limit);
    assert reach[1..] == rest;
    TakeLevelAccepted(t, time, levels[0], quantity, cfg);
    ReachableIsPrefix(levels[1..], r.side, limit);
    ShadowElsewhere(rest, r.side, t.consumed, levels[0], ConsumedAt(t.consumed, TakenKey(r.side, levels[0])) + quantity);
    var takes := Takes(Availables(reach, r.side, t.consumed), remaining);
    SameLengths(reach, r.side, t.consumed);
    assert takes[0] == quantity && takes[1..] == Takes(Availables(rest, r.side, n.consumed), remaining - quantity);
    OneLevelThenRest(t, n, w, time, reach, takes, cfg);
  }

  lemma NothingWalked(t: Taking, time: nat, reach: seq<Level>, remaining: int, cfg: Config)
    requires reach == [] || remaining == 0
    ensures WalkOutcome(t, t, time, reach, Takes(Availables(reach, t.booking.order.request.side, t.consumed), remaining), cfg)
  {
    TakingNothing(t.booking.order.request, time, reach, t.consumed, t.booking.order.request.side, cfg);
    assert t.booking.ledger.fills + [] == t.booking.ledger.fills;
  }

  lemma ZeroThenRest(t: Taking, w: Taking, time: nat, reach: seq<Level>, takes: seq<int>, cfg: Config)
    requires |reach| == |takes| && takes != [] && takes[0] == 0
    requires WalkOutcome(t, w, time, reach[1..], takes[1..], cfg)
    ensures WalkOutcome(t, w, time, reach, takes, cfg)
  {
    hide Fee;
    var rest := TakerFills(t.booking.order.request, time, reach[1..], takes[1..], cfg);
    assert [] + rest == rest;
  }

  lemma OneLevelThenRest(t: Taking, n: Taking, w: Taking, time: nat, reach: seq<Level>, takes: seq<int>, cfg: Config)
    requires |reach| == |takes| && takes != [] && takes[0] > 0
    requires var r := t.booking.order.request;
             && n.booking.ledger.fills == t.booking.ledger.fills +
                  [Fill(r.id, time, r.side, takes[0], reach[0].price, false, Fee(reach[0].price, takes[0], false, cfg))]
             && n.booking.ledger.position == t.booking.ledger.position + Sign(r.side) * takes[0]
             && n.booking.order == t.booking.order.(filled := t.booking.order.filled + takes[0])
    requires WalkOutcome(n, w, time, reach[1..], takes[1..], cfg)
    ensures WalkOutcome(t, w, time, reach, takes, cfg)
  {
    hide Fee;
    var r := t.booking.order.request;
    var first := Fill(r.id, time, r.side, takes[0], reach[0].price, false, Fee(reach[0].price, takes[0], false, cfg));
    var rest := TakerFills(r, time, reach[1..], takes[1..], cfg);
    assert t.booking.ledger.fills + [first] + rest == t.booking.ledger.fills + ([first] + rest);
  }

  // ----- value of fills

  function Quantity(fills: seq<Fill>): int {
    if fills == [] then 0 else fills[0].quantity + Quantity(fills[1..])
  }

  /** Price times quantity, in fixed-point units. */
  function Value(fills: seq<Fill>): int {
    if fills == [] then 0 else fills[0].price as int * fills[0].quantity + Value(fills[1..])
  }

  lemma {:induction false} TakerFillsValue(r: Request, time: nat, levels: seq<Level>, takes: seq<int>, cfg: Config)
    requires |levels| == |takes| == |Weights(levels, r.side)| && NonNegative(takes)
    ensures var fills := TakerFills(r, time, levels, takes, cfg);
            Quantity(fills) == Total(takes) && Sign(r.side) * Value(fills) == Cost(Weights(levels, r.side), takes)
    decreases levels
  {
    hide Fee, Sign;
    if levels != [] {
      SameLengths(levels[1..], r.side, map[]);
      TakerFillsValue(r, time, levels[1..], takes[1..], cfg);
      var rest := TakerFills(r, time, levels[1..], takes[1..], cfg);
      var fills := TakerFills(r, time, levels, takes, cfg);
      var price: int, weights := levels[0].price, Weights(levels, r.side);
      assert weights[0] == Sign(r.side) * price && weights[1..] == Weights(levels[1..], r.side);
      hide Weights, TakerFills;
      if takes[0] > 0 {
        assert fills[1..] == rest;
        assert Value(fills) == price * takes[0] + Value(rest);
        SignedValue(Sign(r.side), price, takes[0], Value(rest), Value(fills));
      } else {
        assert fills == rest && takes[0] == 0;
      }
    }
  }

  lemma SignedValue(sign: int, price: int, quantity: int, rest: int, value: int)
    requires value == price * quantity + rest
    ensures sign * value == (sign * price) * quantity + sign * rest
  {
    assert sign * (price * quantity + rest) == sign * (price * quantity) + sign * rest;
  }

  /** Each fill is at the price of one of the levels. */
  lemma {:induction false} TakerFillsLevels(r: Request, time: nat, levels: seq<Level>, takes: seq<int>, cfg: Config)
    requires |levels| == |takes|
    ensures forall f | f in TakerFills(r, time, levels, takes, cfg) :: exists l :: l in levels && l.price == f.price
    decreases levels
  {
    hide Fee;
    if levels != [] {
      TakerFillsLevels(r, time, levels[1..], takes[1..], cfg);
      assert levels[0] in levels;
      assert forall l | l in levels[1..] :: l in levels;
    }
  }

  lemma {:induction false} WeightsAscend(levels: seq<Level>, side: Side)
    requires StrictlyOrdered(levels, side.Sell?)
    ensures |Weights(levels, side)| == |levels|
    ensures forall i | 0 <= i < |levels| :: Weights(levels, side)[i] == Sign(side) * levels[i].price as int
    ensures Ascending(Weights(levels, side))
    decreases levels
  {
    if levels != [] {
      WeightsAscend(levels[1..], side);
      var w := Weights(levels, side);
      forall i | 0 <= i < |levels| ensures w[i] == Sign(side) * levels[i].price as int {
        assert i > 0 ==> w[i] == Weights(levels[1..], side)[i - 1] && levels[i] == levels[1..][i - 1];
      }
      forall i, j | 0 <= i < j < |w| ensures w[i] <= w[j] {
        assert Before(side.Sell?, levels[i].price, levels[j].price);
      }
    }
  }

  /** Among ordered levels the reachable ones are exactly those not beyond the limit. */
  lemma {:induction false} ReachableIsWithinLimit(levels: seq<Level>, side: Side, limit: Option<Price>)
    requires StrictlyOrdered(levels, side.Sell?)
    ensures var reach := Reachable(levels, side, limit);
            forall l | l in levels :: l in reach <==> !BeyondLimit(side, l.price, limit)
    decreases levels
  {
    var reach := Reachable(levels, side, limit);
    if levels != [] {
      if BeyondLimit(side, levels[0].price, limit) {
        forall l | l in levels ensures BeyondLimit(side, l.price, limit) {
          var i :| 0 <= i < |levels| && levels[i] == l;
          assert i > 0 ==> Before(side.Sell?, levels[0].price, levels[i].price);
        }
      } else {
        ReachableIsWithinLimit(levels[1..], side, limit);
        ReachableIsPrefix(levels[1..], side, limit);
        assert forall l | l in levels :: l == levels[0] || l in levels[1..];
      }
    }
  }

  /** The levels an order of this side may take from, best price first. */
  function SweepLevels(book: Book, side: Side, limit: Option<Price>): seq<Level> {
    Reachable(WalkLevels(book, side), side, limit)
  }

  function TakenSide(book: Book, side: Side): BookSide {
    if side.Buy? then book.asks else book.bids
  }

  /** They are the levels of the other side that are not beyond the limit, at their displayed quantities. */
  lemma SweepLevelsAre(book: Book, side: Side, limit: Option<Price>)
    ensures var levels := SweepLevels(book, side, limit);
            && StrictlyOrdered(levels, side.Sell?)
            && (forall l | l in levels :: !BeyondLimit(side, l.price, limit) && Level(l.price, QuantityAt(TakenSide(book, side), l.price)) == l)
            && (forall p | p in TakenSide(book, side) && !BeyondLimit(side, p, limit) :: Level(p, TakenSide(book, side)[p]) in levels)
  {
    hide Listed, BeyondLimit;
    var walked, descending := WalkLevels(book, side), side.Sell?;
    ListedIsListing(TakenSide(book, side), descending);
    ReachableIsWithinLimit(walked, side, limit);
    ReachableIsPrefix(walked, side, limit);
  }

  /**
   An aggressive order fills exactly the smaller of its quantity and what is available within its
   limit; none of its fills is refused on the way; and no other allocation of the filled quantity
   over the available levels is cheaper for a buyer or dearer for a seller.
   */
  lemma SweepIsOptimal(s: Sim, o: Order, limit: Option<Price>, cfg: Config, allocation: seq<int>)
    requires LedgerBalances(s.ledger, cfg) && o.filled == 0
    requires PositionAllows(s.ledger.position, o.request.side, o.request.quantity, cfg)
    ensures var side := o.request.side;
            var levels := SweepLevels(s.venue.book, side, limit);
            var available := Availables(levels, side, s.venue.consumed);
            var n := ExecuteTaker(s, o, o.arrival, limit, cfg);
            && |available| == |levels| == |Weights(levels, side)|
            && s.ledger.fills <= n.ledger.fills
            && o.request.id in n.desk.orders
            && var done, gained := n.desk.orders[o.request.id], n.ledger.fills[|s.ledger.fills|..];
               && Quantity(gained) == Smaller(o.request.quantity, Total(available))
               && done.filled == Quantity(gained)
               && done.status == (if done.filled == o.request.quantity then Filled
                                  else if done.filled > 0 then PartiallyFilled else Rejected)
               && (forall f | f in gained :: !BeyondLimit(side, f.price, limit))
               && (Feasible(allocation, available) && Total(allocation) == Quantity(gained) ==>
                     Sign(side) * Value(gained) <= Cost(Weights(levels, side), allocation))
  {
    hide Fee, LedgerBalances, Walk, Notional, Available, Listed, BeyondLimit, Sign, Takes, Reachable, TakerFills;
    var r := o.request;
    var side, wanted := r.side, r.quantity as int;
    var levels := SweepLevels(s.venue.book, side, limit);
    var available := Availables(levels, side, s.venue.consumed);
    var takes := Takes(available, wanted);
    ExecuteTakerIsGreedy(s, o, limit, cfg);
    SameLengths(levels, side, s.venue.consumed);
    SweepLevelsAre(s.venue.book, side, limit);
    WeightsAscend(levels, side);
    TakesTotal(available, wanted);
    TakerFillsValue(r, o.arrival, levels, takes, cfg);
    TakerFillsLevels(r, o.arrival, levels, takes, cfg);
    if Feasible(allocation, available) && Total(allocation) == Total(takes) {
      GreedyIsOptimal(Weights(levels, side), available, wanted, allocation);
    }
  }

  lemma ExecuteTakerIsGreedy(s: Sim, o: Order, limit: Option<Price>, cfg: Config)
    requires LedgerBalances(s.ledger, cfg) && o.filled == 0
    requires PositionAllows(s.ledger.position, o.request.side, o.request.quantity, cfg)
    ensures var levels := SweepLevels(s.venue.book, o.request.side, limit);
            var takes := Takes(Availables(levels, o.request.side, s.venue.consumed), o.request.quantity);
            var n := ExecuteTaker(s, o, o.arrival, limit, cfg);
            && |takes| == |levels|
            && s.ledger.fills <= n.ledger.fills
            && n.ledger.fills[|s.ledger.fills|..] == TakerFills(o.request, o.arrival, levels, takes, cfg)
            && n.desk.orders == s.desk.orders[o.request.id := TakerOutcome(o.(filled := Total(takes)))]
  {
    hide Fee, Walk, Notional, Available, Listed, BeyondLimit, Total, TakerFills, Takes, PositionAllows;
    var side := o.request.side;
    var walked := WalkLevels(s.venue.book, side);
    ListedIsListing(TakenSide(s.venue.book, side), side.Sell?);
    var t := Taking(Booking(s.ledger, o), s.venue.consumed);
    WalkIsGreedy(t, o.arrival, walked, limit, o.request.quantity, cfg);
    var w := Walk(t, o.arrival, walked, limit, o.request.quantity, cfg);
    var levels := SweepLevels(s.venue.book, side, limit);
    var takes := Takes(Availables(levels, side, s.venue.consumed), o.request.quantity);
    assert WalkOutcome(t, w, o.arrival, levels, takes, cfg);
  }

}
