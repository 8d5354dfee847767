/** Concrete states in which the queues of own resting orders do not keep their order. */
module SimulationQueueExamples {
  import opened Results
  import opened L2Types
  import opened OrderBook
  import opened Sorting
  import opened Simulation
  import opened SimulationAccounting
  import opened SimulationLifecycle
  import opened SimulationLiquidity
  import opened SimulationRuns
  import opened SimulationQueue
  import opened SimulationQueueRuns

  const LIMIT_FOUR := Config(0, 0, 0, 0.0, 0.0, TradeOnly, 0.0, 0.0, 4, None)

  const QUIET := Venue(Book(map[50 := 1], map[150 := 1], 1), None, map[], map[], 0)

  function BuyAt100(id: string, quantity: PosU64, ahead: real): Order {
    Order(Request(id, 1, Buy, Limit(100), quantity, None), 1, None, Open, 0, ahead, "")
  }

  function ThreeBuys(a: string, b: string, c: string): map<string, Order> {
    map[a := BuyAt100(a, 3, 0.0), b := BuyAt100(b, 3, 3.0), c := BuyAt100(c, 2, 6.0)]
  }

  /** Three buy orders queue behind each other for 3, 3 and 2. */
  function Crowded(a: string, b: string, c: string): Sim {
    Sim(QUIET, Ledger(0, 0.0, 0.0, []), Desk(ThreeBuys(a, b, c), [a, b, c]), [], [], false)
  }

  const SWEEP := Trade(2, 0, 1, 100, 8, true)

  predicate InAlphabet(a: string, b: string, c: string) {
    a != b && b != c && a != c && StringLeq(a, b) && StringLeq(b, c) && StringLeq(a, c)
  }

  lemma ThreeQueue(a: string, b: string, c: string)
    requires InAlphabet(a, b, c)
    ensures QueuesInOrder(Crowded(a, b, c).desk) && WholeQueues(Crowded(a, b, c).desk)
  {
    hide StringLeq, InQueue, WholeUnits;
    var orders := ThreeBuys(a, b, c);
    ListIsInQueue(orders, a, b, c);
  }

  lemma ListIsInQueue(orders: map<string, Order>, a: string, b: string, c: string)
    requires a != b && b != c && a != c && a in orders && b in orders && c in orders
    requires orders[a] == BuyAt100(a, 3, 0.0) && orders[b] == BuyAt100(b, 3, 3.0) && orders[c] == BuyAt100(c, 2, 6.0)
    ensures InQueue(orders, [a, b, c]) && WholeUnits(orders, [a, b, c])
  {
    var ids := [a, b, c];
    forall id | id in ids ensures id in orders && Queued(orders[id]) && Whole(orders[id].queueAhead) {
    }
    forall i, j | 0 <= i < j < |ids| ensures ids[i] != ids[j] && Behind(orders[ids[i]], orders[ids[j]]) {
    }
  }

  lemma ThreeInOrder(a: string, b: string, c: string)
    requires InAlphabet(a, b, c)
    ensures SortedBy([a, b, c], ArrivalKey(ThreeBuys(a, b, c)))
  {
    hide StringLeq;
    var key, ids := ArrivalKey(ThreeBuys(a, b, c)), [a, b, c];
    assert key(a) == Key(1, 0, a) && key(b) == Key(1, 0, b) && key(c) == Key(1, 0, c);
    hide ThreeBuys;
    forall i, j | 0 <= i < j < |ids| ensures KeyLeq(key(ids[i]), key(ids[j])) {
    }
  }

  /** Fresh open buy orders under their own identifiers, nothing filled yet. */
  ghost predicate FreshBuys(orders: map<string, Order>) {
    forall id | id in orders :: exists quantity: PosU64, ahead :: orders[id] == BuyAt100(id, quantity, ahead)
  }

  lemma FreshOnDesk(orders: map<string, Order>, ids: seq<string>, cfg: Config)
    requires FreshBuys(orders) && Distinct(ids) && (forall id :: id in ids <==> id in orders)
    ensures DeskInOrder(Desk(orders, ids))
    ensures Accounts(Ledger(0, 0.0, 0.0, []), orders, cfg)
  {
    forall id | id in ids ensures ActiveOrder(orders, id) {
    }
    forall id | id in orders ensures OrderAccounted(id, orders[id], []) {
    }
  }

  lemma ThreeAreFresh(a: string, b: string, c: string)
    requires InAlphabet(a, b, c)
    ensures FreshBuys(ThreeBuys(a, b, c)) && Distinct([a, b, c]) && forall id :: id in [a, b, c] <==> id in ThreeBuys(a, b, c)
  {
    hide StringLeq;
    var orders := ThreeBuys(a, b, c);
    forall id | id in orders ensures exists quantity: PosU64, ahead :: orders[id] == BuyAt100(id, quantity, ahead) {
      if id == a {
        assert orders[id] == BuyAt100(id, 3, 0.0);
      } else if id == b {
        assert orders[id] == BuyAt100(id, 3, 3.0);
      } else {
        assert orders[id] == BuyAt100(id, 2, 6.0);
      }
    }
  }

  lemma QuietIsSound()
    ensures Liquid(QUIET, []) && BookReady(QUIET.book)
    ensures QUIET.book.bids != map[] && QUIET.book.asks != map[] && MinPrice(QUIET.book.asks) == 150
  {
    assert 50 in QUIET.book.bids && 150 in QUIET.book.asks;
    forall key: LevelKey ensures LevelLiquid(QUIET, [], key) {
      assert TakenSince([], 0, key) == 0;
    }
  }

  lemma ThreeAreAccounted(a: string, b: string, c: string)
    requires InAlphabet(a, b, c)
    ensures SimInvariant(Crowded(a, b, c), LIMIT_FOUR) && Arranged(Crowded(a, b, c), LIMIT_FOUR)
  {
    hide InAlphabet, StringLeq, Accounts, Liquid, DeskInOrder, BookReady, ThreeBuys;
    ThreeInOrder(a, b, c);
    ThreeAreFresh(a, b, c);
    FreshOnDesk(ThreeBuys(a, b, c), [a, b, c], LIMIT_FOUR);
    QuietIsSound();
  }

  lemma SweepBooks(a: string, b: string, c: string)
    requires InAlphabet(a, b, c)
    ensures Bookings(ThreeBuys(a, b, c), [a, b, c], Traded(SWEEP), 0, LIMIT_FOUR) == [3, 0, 0]
  {
    var orders, f := ThreeBuys(a, b, c), Traded(SWEEP);
    assert Booked(orders[a], 8.0, 0, LIMIT_FOUR) == 3;
    assert Booked(orders[b], 8.0, 3, LIMIT_FOUR) == 0;
    assert Booked(orders[c], 8.0, 3, LIMIT_FOUR) == 0;
    hide Booked, StringLeq;
    assert [a, b, c][1..] == [b, c] && [b, c][1..] == [c] && [c][1..] == [];
    assert Bookings(orders, [c], f, 3, LIMIT_FOUR) == [0];
    assert Bookings(orders, [b, c], f, 3, LIMIT_FOUR) == [0, 0];
  }

  lemma SweepReaches(a: string, b: string, c: string)
    requires InAlphabet(a, b, c)
    ensures TradeQueue(Crowded(a, b, c).desk, SWEEP) == [a, b, c]
  {
    var d := Crowded(a, b, c).desk;
    ThreeQueue(a, b, c);
    ThreeInOrder(a, b, c);
    TradeQueueIs(d, SWEEP);
    hide StringLeq, InQueue, SortedBy;
    forall id | id in [a, b, c] ensures Eligible(d.orders, id, Sell, 100) {
    }
    AllAreEligible(d.orders, [a, b, c], Sell, 100);
  }

  lemma {:induction false} AllAreEligible(orders: map<string, Order>, ids: seq<string>, aggressor: Side, price: Price)
    requires forall id | id in ids :: Eligible(orders, id, aggressor, price)
    ensures EligibleIds(orders, ids, aggressor, price) == ids
    decreases ids
  {
    hide Eligible;
    if ids != [] {
      var init, last := ids[..|ids| - 1], ids[|ids| - 1];
      AllAreEligible(orders, init, aggressor, price);
      assert last in ids;
      assert EligibleIds(orders, ids, aggressor, price) == EligibleIds(orders, init, aggressor, price) + [last];
      assert ids == init + [last];
    }
  }

  /**
   A trade of 8 fills the first of three orders; the limit of 4 refuses the other two, which then both
   stand at the front, so the queue is out of order.
   */
  lemma RefusedShareBreaksTheQueue()
    ensures var s := Crowded("a", "b", "c");
            && RunInvariant(s, LIMIT_FOUR) && QueuesInOrder(s.desk) && WholeQueues(s.desk)
            && !QueuesInOrder(ProcessTrade(s, SWEEP, LIMIT_FOUR).desk)
  {
    var a, b, c := "a", "b", "c";
    assert InAlphabet(a, b, c);
    hide InAlphabet, StringLeq, InQueue, SortedBy, Bookings, SimInvariant, Arranged, ProcessTrade, TradeQueue;
    ThreeQueue(a, b, c);
    ThreeInOrder(a, b, c);
    ThreeAreAccounted(a, b, c);
    SweepBooks(a, b, c);
    SweepReaches(a, b, c);
    TradeKeepsIff(Crowded(a, b, c), SWEEP, LIMIT_FOUR);
    LastTwoCollide(a, b, c);
  }

  lemma LastTwoCollide(a: string, b: string, c: string)
    requires InAlphabet(a, b, c)
    requires Bookings(ThreeBuys(a, b, c), [a, b, c], Traded(SWEEP), 0, LIMIT_FOUR) == [3, 0, 0]
    ensures !Kept(ThreeBuys(a, b, c), [a, b, c], Traded(SWEEP), 0, LIMIT_FOUR)
  {
    hide StringLeq, Bookings;
    var orders, ids := ThreeBuys(a, b, c), [a, b, c];
    assert SameLevel(orders[ids[1]], orders[ids[2]]);
    assert !StaysBehind(orders[ids[1]], orders[ids[2]], SizeAt(Traded(SWEEP), orders[ids[1]], LIMIT_FOUR), 0);
  }

  // ----- an order that joins too early

  /** Orders queue behind the whole displayed quantity. */
  const WHOLE_DISPLAY := LIMIT_FOUR.(queueAheadFraction := 1.0)

  /**
   One buy order came to rest behind 5 displayed units, at a level that displays nothing any more;
   another is about to arrive.
   */
  function Thinner(a: string, b: string): Sim {
    Sim(QUIET, Ledger(0, 0.0, 0.0, []), Desk(map[a := BuyAt100(a, 1, 5.0)], [a]),
        [Request(b, 2, Buy, Limit(100), 1, None)], [], false)
  }

  lemma OneIsFresh(a: string, b: string)
    requires a != b
    ensures var d := Thinner(a, b).desk;
            && FreshBuys(d.orders) && Distinct(d.active) && (forall id :: id in d.active <==> id in d.orders)
            && b !in d.orders && QueuesInOrder(d)
            && ArrivalKey(d.orders)(a) == Key(1, 0, a)
  {
    var orders := Thinner(a, b).desk.orders;
    assert orders[a] == BuyAt100(a, 1, 5.0);
  }

  lemma ThinnerIsSound(a: string, b: string)
    requires a != b
    ensures RunInvariant(Thinner(a, b), WHOLE_DISPLAY) && QueuesInOrder(Thinner(a, b).desk)
  {
    hide DeskInOrder, Accounts, SimInvariant, Arranged, InQueue, FreshBuys;
    OneIsFresh(a, b);
    var s := Thinner(a, b);
    FreshOnDesk(s.desk.orders, s.desk.active, WHOLE_DISPLAY);
    OneToComeIsSound(s, WHOLE_DISPLAY);
    OneToComeIsLater(s, a, WHOLE_DISPLAY);
  }

  lemma OneToComeIsSound(s: Sim, cfg: Config)
    requires s.venue == QUIET && s.ledger == Ledger(0, 0.0, 0.0, []) && !s.killed
    requires DeskInOrder(s.desk) && Accounts(s.ledger, s.desk.orders, cfg)
    requires |s.requests| == 1 && s.requests[0].id !in s.desk.orders && s.cancels == []
    ensures SimInvariant(s, cfg)
  {
    hide Accounts, Liquid, DeskInOrder, BookReady, StringLeq;
    QuietIsSound();
  }

  lemma OneToComeIsLater(s: Sim, a: string, cfg: Config)
    requires s.desk.active == [a] && |s.requests| == 1
    requires ArrivalKey(s.desk.orders)(a).time < Arrives(s.requests[0], cfg)
    ensures Arranged(s, cfg)
  {
    hide StringLeq;
  }

  /** The new order starts behind the remaining 1 only, in front of the older order's end. */
  lemma LateOrderJoinsTooEarly(a: string, b: string)
    requires a != b
    ensures var s := Thinner(a, b);
            && RunInvariant(s, WHOLE_DISPLAY) && QueuesInOrder(s.desk)
            && var n := Operate(s, OrderArrives, WHOLE_DISPLAY); n.Ok? && !QueuesInOrder(n.value.desk)
  {
    hide Thinner, RunInvariant, InQueue, Operate;
    ThinnerIsSound(a, b);
    LateOrderIsEarly(a, b);
  }

  lemma LateOrderIsEarly(a: string, b: string)
    requires a != b && QueuesInOrder(Thinner(a, b).desk)
    ensures var n := Operate(Thinner(a, b), OrderArrives, WHOLE_DISPLAY); n.Ok? && !QueuesInOrder(n.value.desk)
  {
    var s := Thinner(a, b);
    var o := Order(s.requests[0], 2, None, Pending, 0, 0.0, "");
    QuietIsSound();
    assert OwnQueue(s.desk.orders, [a], Buy, 100) == 1 by {
      assert [a][..0] == [];
    }
    hide OwnQueue, MinPrice;
    var p := s.(requests := []);
    assert s.requests[1..] == [];
    assert Operate(s, OrderArrives, WHOLE_DISPLAY) == Ok(Rest(p, o, 100, WHOLE_DISPLAY));
    RestKeepsIff(p, o, 100, WHOLE_DISPLAY);
    assert [a][0] in s.desk.active && RestingKey(s.desk.orders[a]) == Some(RequestLevel(o.request, 100));
  }
}
