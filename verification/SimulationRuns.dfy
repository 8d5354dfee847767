/** The simulator's promises over whole runs. */
module SimulationRuns {
  import opened Results
  import opened L2Types
  import opened OrderBook
  import opened Sorting
  import opened Simulation
  import opened SimulationAccounting
  import opened SimulationLiquidity
  import opened SimulationLifecycle

  ghost predicate BookReady(book: Book) {
    book == EMPTY || (Sound(book) && book.lastUpdateId > 0)
  }

  ghost predicate PendingSorted(s: Sim) {
    SortedBy(s.requests, RequestKey()) && SortedBy(s.cancels, CancelKey())
  }

  ghost predicate SimInvariant(s: Sim, cfg: Config) {
    && Accounted(s, cfg)
    && Liquid(s.venue, s.ledger.fills)
    && LifeInvariant(s)
    && PendingSorted(s)
    && BookReady(s.venue.book)
  }

  // ----- submitting

  lemma FreshInvariant(cfg: Config)
    ensures SimInvariant(FRESH, cfg)
  {
    forall key: LevelKey ensures LevelLiquid(FRESH.venue, [], key) {
      assert TakenSince([], 0, key) == 0;
    }
  }

  lemma SubmitKeeps(s: Sim, r: Request, cfg: Config)
    requires SimInvariant(s, cfg)
    ensures var n := Submit(s, r);
            n.Ok? ==> SimInvariant(n.value, cfg) && Submitted(n.value) == Submitted(s) + {r.id}
  {
    hide Accounts, Liquid, DeskInOrder, KeyLeq, SortedBy, Sort, Submitted, FreshRequests;
    if Submit(s, r).Ok? {
      SortSorts(s.requests + [r], RequestKey());
      SubmittedJoins(s, r, Submit(s, r).value);
    }
  }

  lemma SubmittedJoins(s: Sim, r: Request, n: Sim)
    requires FreshRequests(s) && !Known(s, r.id) && n.desk == s.desk
    requires multiset(n.requests) == multiset(s.requests + [r])
    ensures FreshRequests(n) && Submitted(n) == Submitted(s) + {r.id}
  {
    var all := s.requests + [r];
    forall x ensures x in n.requests <==> x in s.requests || x == r {
      assert x in multiset(n.requests) <==> x in multiset(all);
    }
    forall i, j | 0 <= i < j < |all| ensures all[i].id != all[j].id {
      assert all[i] in s.requests;
    }
    PermutedDistinct(all, n.requests);
    assert r in n.requests;
    forall k ensures k in Submitted(n) <==> k in Submitted(s) + {r.id} {
    }
  }

  /** Rearranging requests with distinct identifiers keeps them distinct. */
  lemma PermutedDistinct(a: seq<Request>, b: seq<Request>)
    requires multiset(a) == multiset(b)
    requires forall i, j | 0 <= i < j < |a| :: a[i].id != a[j].id
    ensures forall i, j | 0 <= i < j < |b| :: b[i].id != b[j].id
  {
    forall i, j | 0 <= i < j < |b| ensures b[i].id != b[j].id {
      var x, y := b[i], b[j];
      assert x in multiset(a) && y in multiset(a);
      if x == y {
        Twice(b, i, j);
        Once(a, x);
      }
    }
  }

  lemma Twice(b: seq<Request>, i: nat, j: nat)
    requires i < j < |b| && b[i] == b[j]
    ensures multiset(b)[b[i]] >= 2
  {
    assert b == b[..i] + [b[i]] + b[i + 1..j] + [b[j]] + b[j + 1..];
  }

  lemma {:induction false} Once(a: seq<Request>, x: Request)
    requires forall i, j | 0 <= i < j < |a| :: a[i].id != a[j].id
    ensures multiset(a)[x] <= 1
    decreases a
  {
    if a != [] {
      Once(a[1..], x);
      assert a == [a[0]] + a[1..];
      if a[0] == x {
        assert forall y | y in a[1..] :: y.id != x.id;
        assert x !in a[1..];
      }
    }
  }

  lemma SubmitCancelKeeps(s: Sim, c: CancelRequest, cfg: Config)
    requires SimInvariant(s, cfg)
    ensures var n := SubmitCancel(s, c, cfg);
            n.Ok? ==> SimInvariant(n.value, cfg) && Submitted(n.value) == Submitted(s)
  {
    hide Accounts, Liquid, DeskInOrder, Sort, KeyLeq, SortedBy;
    if SubmitCancel(s, c, cfg).Ok? {
      SortSorts(s.cancels + [PendingCancel(c.decision as int + cfg.cancelLatency as int, c)], CancelKey());
    }
  }

  // ----- one control

  lemma SortedWithout<T(!new)>(xs: seq<T>, i: nat, rest: seq<T>, key: T -> Key)
    requires SortedBy(xs, key) && i < |xs| && rest == xs[..i] + xs[i + 1..]
    ensures SortedBy(rest, key)
  {
    forall a, b | 0 <= a < b < |rest| ensures KeyLeq(key(rest[a]), key(rest[b])) {
      assert rest[a] == xs[if a < i then a else a + 1];
      assert rest[b] == xs[if b < i then b else b + 1];
    }
  }

  lemma ExpiriesKeep(s: Sim, time: nat, final: bool, cfg: Config)
    requires SimInvariant(s, cfg)
    ensures var n := WithExpiries(s, time, final);
            && SimInvariant(n, cfg) && Submitted(n) == Submitted(s)
            && n == s.(desk := n.desk) && (final ==> n.desk.active == [])
  {
    hide Accounted, Liquid, LifeInvariant, Expire;
    ExpiriesAccounted(s, time, final, cfg);
    ExpiriesLive(s, time, final);
  }

  lemma KillSwitchKeeps(s: Sim, cfg: Config)
    requires SimInvariant(s, cfg)
    ensures var n := CheckKillSwitch(s, cfg);
            && SimInvariant(n, cfg) && Submitted(n) == Submitted(s)
            && n.requests == s.requests && n.cancels == s.cancels
  {
    hide Accounted, Liquid, LifeInvariant, Equity, CancelAll;
    KillSwitchAccounted(s, cfg);
    KillSwitchLives(s, cfg);
  }

  lemma ActivateNextKeeps(s: Sim, arrival: nat, cfg: Config)
    requires SimInvariant(s, cfg) && s.requests != []
    ensures var r := ActivateNext(s, arrival, cfg);
            && r != Err(EmptyBook)
            && (r.Ok? ==>
              && SimInvariant(r.value, cfg) && Submitted(r.value) == Submitted(s)
              && r.value.requests == s.requests[1..] && r.value.cancels == s.cancels)
  {
    hide Liquid, LifeInvariant, LedgerBalances, Activate, KeyLeq, Sound;
    ActivateNextLives(s, arrival, cfg);
    if Expiry(arrival, s.requests[0].timeToLive).Ok? {
      var o := Order(s.requests[0], arrival, Expiry(arrival, s.requests[0].timeToLive).value, Pending, 0, 0.0, "");
      var p := s.(requests := s.requests[1..]);
      IsNew(s);
      ActivateAccounted(p, o, cfg);
      ActivateLiquid(p, o, cfg);
      ActivateTouches(p, o, cfg);
    }
  }

  lemma IsNew(s: Sim)
    requires LifeInvariant(s) && s.requests != []
    ensures s.requests[0].id !in s.desk.orders
  {
    assert s.requests[0] in s.requests;
  }

  lemma ActivateTouches(s: Sim, o: Order, cfg: Config)
    ensures BookReady(s.venue.book) ==> Activate(s, o, cfg) != Err(EmptyBook)
    ensures var r := Activate(s, o, cfg);
            r.Ok? ==> r.value.requests == s.requests && r.value.cancels == s.cancels && r.value.venue.book == s.venue.book
                      && r.value.killed == s.killed
  {
    hide Walk, WalkLevels, OwnQueue, Marketable, PositionAllows;
  }

  lemma NextCancelKeeps(s: Sim, cfg: Config)
    requires SimInvariant(s, cfg) && s.cancels != []
    ensures var r := ProcessNextCancel(s, cfg);
            && r != Err(EmptyBook)
            && (r.Ok? ==>
              && SimInvariant(r.value, cfg) && Submitted(r.value) == Submitted(s)
              && r.value.cancels == s.cancels[1..]
              && (forall q | q in r.value.requests :: q in s.requests))
  {
    hide Accounted, Liquid, DeskInOrder, KeyLeq, Sound, DropId;
    CancelAccounted(s, cfg);
    CancelLives(s, cfg);
    var id := s.cancels[0].request.id;
    var i := IndexOf(s.requests, id);
    if i.Some? {
      SortedWithout(s.requests, i.value, s.requests[..i.value] + s.requests[i.value + 1..], RequestKey());
    }
  }

  lemma OneControlKeeps(s: Sim, orderArrival: Option<nat>, arrival: nat, cfg: Config)
    requires SimInvariant(s, cfg)
    requires orderArrival.Some? ==> s.requests != []
    requires orderArrival != Some(arrival) ==> s.cancels != []
    ensures var r := ProcessOneControl(s, orderArrival, arrival, cfg);
            && r != Err(EmptyBook)
            && (r.Ok? ==>
              && SimInvariant(r.value, cfg) && Submitted(r.value) == Submitted(s)
              && (if orderArrival == Some(arrival) then r.value.requests == s.requests[1..] && r.value.cancels == s.cancels
                  else r.value.cancels == s.cancels[1..] && forall q | q in r.value.requests :: q in s.requests))
  {
    hide SimInvariant, ActivateNext, ProcessNextCancel, CheckKillSwitch, WithExpiries, Submitted;
    ExpiriesKeep(s, arrival, false, cfg);
    var e := WithExpiries(s, arrival, false);
    if orderArrival == Some(arrival) {
      ActivateNextKeeps(e, arrival, cfg);
      if ActivateNext(e, arrival, cfg).Ok? {
        KillSwitchKeeps(ActivateNext(e, arrival, cfg).value, cfg);
      }
    } else {
      NextCancelKeeps(e, cfg);
    }
  }

  // ----- the order of controls

  /** When a request reaches the venue. */
  function Arrives(r: Request, cfg: Config): int {
    r.decision as int + cfg.decisionLatency as int + cfg.transmissionLatency as int
  }

  function OrderControl(r: Request, cfg: Config): Key { Key(Arrives(r, cfg), 0, r.id) }

  function CancelControl(c: PendingCancel): Key { Key(c.arrival, 1, c.request.id) }

  function Identity(): Key -> Key { (k: Key) => k }

  /** The controls still to come are not earlier than k. */
  ghost predicate NoneBefore(s: Sim, k: Key, cfg: Config) {
    && (forall r | r in s.requests :: KeyLeq(k, OrderControl(r, cfg)))
    && (forall c | c in s.cancels :: KeyLeq(k, CancelControl(c)))
  }

  function NextControl(s: Sim, orderArrival: Option<nat>, arrival: nat, cfg: Config): Key
    requires orderArrival.Some? ==> s.requests != []
    requires orderArrival != Some(arrival) ==> s.cancels != []
  {
    if orderArrival == Some(arrival) then OrderControl(s.requests[0], cfg) else CancelControl(s.cancels[0])
  }

  /** The controls ProcessControls executes, in the order it executes them. */
  function ControlTrace(s: Sim, time: nat, inclusive: bool, cfg: Config): seq<Key>
    decreases |s.requests| + |s.cancels|
  {
    match NextOrderArrival(s, cfg)
    case Err(_) => []
    case Ok(orderArrival) =>
      var next := Earlier(orderArrival, NextCancelArrival(s));
      if next == None || !Ready(next.value, time, inclusive) then []
      else
        OneControlShrinks(s, orderArrival, next.value, cfg);
        [NextControl(s, orderArrival, next.value, cfg)] +
        match ProcessOneControl(s, orderArrival, next.value, cfg)
        case Err(_) => []
        case Ok(after) => ControlTrace(after, time, inclusive, cfg)
  }

  /** The next control is the least of all that are still to come. */
  lemma NextIsLeast(s: Sim, orderArrival: Option<nat>, arrival: nat, cfg: Config)
    requires PendingSorted(s) && NextOrderArrival(s, cfg) == Ok(orderArrival)
    requires Earlier(orderArrival, NextCancelArrival(s)) == Some(arrival)
    ensures NoneBefore(s, NextControl(s, orderArrival, arrival, cfg), cfg)
    ensures NextControl(s, orderArrival, arrival, cfg).time == arrival
  {
    hide StringLeq;
    var k := NextControl(s, orderArrival, arrival, cfg);
    forall r | r in s.requests ensures KeyLeq(k, OrderControl(r, cfg)) {
      var i :| 0 <= i < |s.requests| && s.requests[i] == r;
      HeadIsLeast(s.requests, i, RequestKey());
    }
    forall c | c in s.cancels ensures KeyLeq(k, CancelControl(c)) {
      var i :| 0 <= i < |s.cancels| && s.cancels[i] == c;
      HeadIsLeast(s.cancels, i, CancelKey());
    }
  }

  lemma HeadIsLeast<T(!new)>(xs: seq<T>, i: nat, key: T -> Key)
    requires SortedBy(xs, key) && i < |xs|
    ensures KeyLeq(key(xs[0]), key(xs[i]))
  {
    KeyLeqTotal(key(xs[0]), key(xs[0]));
  }

  lemma {:induction false} ControlsInOrder(s: Sim, time: nat, inclusive: bool, cfg: Config, bound: Key)
    requires SimInvariant(s, cfg) && NoneBefore(s, bound, cfg)
    ensures var trace := ControlTrace(s, time, inclusive, cfg);
            var r := ProcessControls(s, time, inclusive, cfg);
            && SortedBy([bound] + trace, Identity())
            && (forall k | k in trace :: Ready(k.time, time, inclusive))
            && r != Err(EmptyBook)
            && (r.Ok? ==>
                  && SimInvariant(r.value, cfg) && Submitted(r.value) == Submitted(s)
                  && NoneBefore(r.value, ([bound] + trace)[|trace|], cfg)
                  && (forall q | q in r.value.requests :: !Ready(Arrives(q, cfg), time, inclusive))
                  && (forall c | c in r.value.cancels :: !Ready(c.arrival, time, inclusive)))
    decreases |s.requests| + |s.cancels|
  {
    hide SimInvariant, Submitted, ProcessOneControl, KeyLeq;
    InvariantSorts(s, cfg);
    var n := NextOrderArrival(s, cfg);
    if n.Ok? {
      var next := Earlier(n.value, NextCancelArrival(s));
      if next.Some? {
        NextIsLeast(s, n.value, next.value, cfg);
        if !Ready(next.value, time, inclusive) {
          LaterNotReady(s, NextControl(s, n.value, next.value, cfg), time, inclusive, cfg);
        } else {
          var k := NextControl(s, n.value, next.value, cfg);
          OneControlShrinks(s, n.value, next.value, cfg);
          OneControlKeeps(s, n.value, next.value, cfg);
          assert KeyLeq(bound, k);
          var one := ProcessOneControl(s, n.value, next.value, cfg);
          if one.Ok? {
            assert NoneBefore(one.value, k, cfg);
            ControlsInOrder(one.value, time, inclusive, cfg, k);
            PrependSorted(bound, k, ControlTrace(one.value, time, inclusive, cfg));
          } else {
            PrependSorted(bound, k, []);
          }
        }
      }
    }
  }

  lemma InvariantSorts(s: Sim, cfg: Config)
    requires SimInvariant(s, cfg)
    ensures PendingSorted(s)
  {
  }

  /** When the least control is not ready, none is. */
  lemma LaterNotReady(s: Sim, k: Key, time: nat, inclusive: bool, cfg: Config)
    requires NoneBefore(s, k, cfg) && k.time >= 0 && !Ready(k.time, time, inclusive)
    ensures forall q | q in s.requests :: !Ready(Arrives(q, cfg), time, inclusive)
    ensures forall c | c in s.cancels :: !Ready(c.arrival, time, inclusive)
  {
  }

  lemma PrependSorted(bound: Key, k: Key, trace: seq<Key>)
    requires KeyLeq(bound, k) && SortedBy([k] + trace, Identity())
    ensures SortedBy([bound] + ([k] + trace), Identity())
    ensures ([bound] + ([k] + trace))[|trace| + 1] == ([k] + trace)[|trace|]
  {
    var xs := [k] + trace;
    forall i | 0 <= i < |xs| ensures KeyLeq(bound, xs[i]) {
      if i > 0 {
        KeyLeqTransitive(bound, Identity()(xs[0]), Identity()(xs[i]));
      }
    }
  }

  // ----- one market event

  lemma MidKeepsBook(v: Venue)
    requires BookReady(v.book)
    ensures UpdateMid(v).Ok? && UpdateMid(v).value.book == v.book
  {
  }

  /** A market event keeps the invariant, and never asks an empty side for its best price. */
  lemma MarketEventKeeps(s: Sim, e: Event, cfg: Config)
    requires SimInvariant(s, cfg)
    ensures var r := MarketEvent(s, e, cfg);
            && r != Err(EmptyBook)
            && (r.Ok? ==>
                  && SimInvariant(r.value, cfg) && Submitted(r.value) == Submitted(s)
                  && r.value.requests == s.requests && r.value.cancels == s.cancels)
  {
    hide Accounted, Liquid, LifeInvariant, ProcessTrade, ProcessDepletion, Refresh, Cleared, Installed, Applied, Sound, UpdateMid,
         CancelAll, SortedBy, Submitted;
    MarketEventAccounted(s, e, cfg);
    MarketEventLiquid(s, e, cfg);
    MarketEventLives(s, e, cfg);
    MarketEventBook(s, e, cfg);
    var r := MarketEvent(s, e, cfg);
    if r.Ok? {
      SameSubmitted(s, r.value);
    }
  }

  lemma SameSubmitted(s: Sim, n: Sim)
    requires n.desk.orders.Keys == s.desk.orders.Keys && n.requests == s.requests
    ensures Submitted(n) == Submitted(s)
  {
  }

  lemma MarketEventBook(s: Sim, e: Event, cfg: Config)
    requires BookReady(s.venue.book)
    ensures var r := MarketEvent(s, e, cfg);
            r != Err(EmptyBook) && (r.Ok? ==> BookReady(r.value.venue.book))
  {
    hide DepleteEach, TradeEach, TradeQueue, Decreases, DropKeys, MarkKeys, CancelEach, SetLevels, Sound, StillResting, UpdateMid;
    match e
    case BoundaryEvent(_, _) =>
    case SnapshotEvent(snapshot) =>
      if Sound(Installed(snapshot)) {
        MidKeepsBook(Cleared(s.venue, |s.ledger.fills|).(book := Installed(snapshot)));
      }
    case DepthEvent(u) =>
      var d := ProcessDepletion(s, u, cfg);
      if Sound(Applied(d.venue.book, u)) {
        MidKeepsBook(Refresh(d.venue, u, |d.ledger.fills|).(book := Applied(d.venue.book, u)));
      }
    case TradeEvent(_) =>
  }

  /** The controls that run around one event, in order. */
  function EventTrace(s: Sim, e: Event, cfg: Config): seq<Key> {
    ControlTrace(s, Receipt(e), false, cfg) +
    match BeforeEvent(s, Receipt(e), cfg)
    case Err(_) => []
    case Ok(before) =>
      match MarketEvent(before, e, cfg)
      case Err(_) => []
      case Ok(moved) => ControlTrace(moved, Receipt(e), true, cfg)
  }

  lemma BeforeEventKeeps(s: Sim, time: nat, cfg: Config, bound: Key)
    requires SimInvariant(s, cfg) && NoneBefore(s, bound, cfg)
    ensures var trace, r := ControlTrace(s, time, false, cfg), BeforeEvent(s, time, cfg);
            && SortedBy([bound] + trace, Identity())
            && (forall k | k in trace :: k.time < time)
            && r != Err(EmptyBook)
            && (r.Ok? ==>
                  && SimInvariant(r.value, cfg) && Submitted(r.value) == Submitted(s)
                  && NoneBefore(r.value, ([bound] + trace)[|trace|], cfg)
                  && (forall q | q in r.value.requests :: Arrives(q, cfg) >= time)
                  && (forall c | c in r.value.cancels :: c.arrival >= time))
  {
    hide SimInvariant, Submitted, SortedBy, ControlTrace, WithExpiries, ProcessControls;
    ControlsInOrder(s, time, false, cfg, bound);
    if ProcessControls(s, time, false, cfg).Ok? {
      ExpiriesKeep(ProcessControls(s, time, false, cfg).value, time, false, cfg);
    }
  }

  lemma AfterEventKeeps(s: Sim, time: nat, cfg: Config, bound: Key)
    requires SimInvariant(s, cfg) && NoneBefore(s, bound, cfg)
    ensures var trace, r := ControlTrace(s, time, true, cfg), AfterEvent(s, time, cfg);
            && SortedBy([bound] + trace, Identity())
            && (forall k | k in trace :: k.time <= time)
            && r != Err(EmptyBook)
            && (r.Ok? ==>
                  && SimInvariant(r.value, cfg) && Submitted(r.value) == Submitted(s)
                  && NoneBefore(r.value, ([bound] + trace)[|trace|], cfg)
                  && (forall q | q in r.value.requests :: Arrives(q, cfg) > time)
                  && (forall c | c in r.value.cancels :: c.arrival > time))
  {
    hide SimInvariant, Submitted, SortedBy, ControlTrace, WithExpiries, ProcessControls, CheckKillSwitch;
    ControlsInOrder(s, time, true, cfg, bound);
    if ProcessControls(s, time, true, cfg).Ok? {
      var c := ProcessControls(s, time, true, cfg).value;
      ExpiriesKeep(c, time, false, cfg);
      KillSwitchKeeps(WithExpiries(c, time, false), cfg);
    }
  }

  lemma TracesJoin(bound: Key, a: seq<Key>, b: seq<Key>)
    requires SortedBy([bound] + a, Identity())
    requires SortedBy([([bound] + a)[|a|]] + b, Identity())
    ensures SortedBy([bound] + (a + b), Identity())
    ensures ([bound] + (a + b))[|a + b|] == ([([bound] + a)[|a|]] + b)[|b|]
  {
    hide KeyLeq;
    var xs, ys, all := [bound] + a, [([bound] + a)[|a|]] + b, [bound] + (a + b);
    forall i, j | 0 <= i < j < |all| ensures KeyLeq(Identity()(all[i]), Identity()(all[j])) {
      if j <= |a| {
        assert all[i] == xs[i] && all[j] == xs[j];
      } else if i >= |a| {
        assert all[i] == ys[i - |a|] && all[j] == ys[j - |a|];
      } else {
        assert all[i] == xs[i] && xs[|a|] == ys[0] && all[j] == ys[j - |a|];
        assert KeyLeq(Identity()(xs[i]), Identity()(xs[|a|]));
        KeyLeqTransitive(Identity()(all[i]), Identity()(ys[0]), Identity()(all[j]));
      }
    }
  }

  /** Nothing that arrives from this time on is earlier than its first possible key. */
  lemma NoneEarlier(s: Sim, time: nat, cfg: Config)
    requires forall q | q in s.requests :: Arrives(q, cfg) >= time
    requires forall c | c in s.cancels :: c.arrival >= time
    ensures NoneBefore(s, Key(time, 0, ""), cfg)
  {
  }

  /** A sequence sorted behind a key has no earlier time. */
  lemma SortedTimes(bound: Key, trace: seq<Key>)
    requires SortedBy([bound] + trace, Identity())
    ensures forall k | k in trace :: k.time >= bound.time
  {
    hide StringLeq;
    var all := [bound] + trace;
    forall i | 0 <= i < |trace| ensures trace[i].time >= bound.time {
      assert all[i + 1] == trace[i] && all[0] == bound;
      assert KeyLeq(Identity()(all[0]), Identity()(all[i + 1]));
    }
  }

  /** The controls that run after an event all arrive at its time: the earlier ones ran before it. */
  lemma LatePassIsAtEvent(s: Sim, e: Event, cfg: Config)
    requires SimInvariant(s, cfg) && BeforeEvent(s, Receipt(e), cfg).Ok?
    requires MarketEvent(BeforeEvent(s, Receipt(e), cfg).value, e, cfg).Ok?
    ensures var moved := MarketEvent(BeforeEvent(s, Receipt(e), cfg).value, e, cfg).value;
            forall k | k in ControlTrace(moved, Receipt(e), true, cfg) :: k.time == Receipt(e)
  {
    hide SimInvariant, Submitted, SortedBy, ControlTrace, BeforeEvent, AfterEvent, MarketEvent, NoneBefore;
    var time := Receipt(e);
    StartIsFirst(s, cfg);
    BeforeEventKeeps(s, time, cfg, START);
    var before := BeforeEvent(s, time, cfg).value;
    MarketEventKeeps(before, e, cfg);
    var moved := MarketEvent(before, e, cfg).value;
    NoneEarlier(moved, time, cfg);
    AfterEventKeeps(moved, time, cfg, Key(time, 0, ""));
    SortedTimes(Key(time, 0, ""), ControlTrace(moved, time, true, cfg));
  }

  /**
   Around one event: the controls before it arrive strictly earlier, those left over do not; the
   controls after it arrive exactly with it, and everything still pending then arrives strictly later. All
   of them run in the merged order of arrival, orders before cancels, identifier.
   */
  lemma HandleEventKeeps(s: Sim, e: Event, cfg: Config, bound: Key)
    requires SimInvariant(s, cfg) && NoneBefore(s, bound, cfg)
    ensures var trace, r := EventTrace(s, e, cfg), HandleEvent(s, e, cfg);
            && SortedBy([bound] + trace, Identity())
            && (forall k | k in ControlTrace(s, Receipt(e), false, cfg) :: k.time < Receipt(e))
            && (forall k | k in trace :: k.time <= Receipt(e))
            && (BeforeEvent(s, Receipt(e), cfg).Ok? && MarketEvent(BeforeEvent(s, Receipt(e), cfg).value, e, cfg).Ok? ==>
                  var moved := MarketEvent(BeforeEvent(s, Receipt(e), cfg).value, e, cfg).value;
                  && trace == ControlTrace(s, Receipt(e), false, cfg) + ControlTrace(moved, Receipt(e), true, cfg)
                  && forall k | k in ControlTrace(moved, Receipt(e), true, cfg) :: k.time == Receipt(e))
            && r != Err(EmptyBook)
            && (r.Ok? ==>
                  && SimInvariant(r.value, cfg) && Submitted(r.value) == Submitted(s)
                  && NoneBefore(r.value, ([bound] + trace)[|trace|], cfg)
                  && (forall q | q in r.value.requests :: Arrives(q, cfg) > Receipt(e))
                  && (forall c | c in r.value.cancels :: c.arrival > Receipt(e)))
  {
    hide SimInvariant, Submitted, SortedBy, ControlTrace, BeforeEvent, AfterEvent, MarketEvent;
    var time := Receipt(e);
    BeforeEventKeeps(s, time, cfg, bound);
    var first := ControlTrace(s, time, false, cfg);
    var before := BeforeEvent(s, time, cfg);
    assert first + [] == first;
    if before.Ok? {
      MarketEventKeeps(before.value, e, cfg);
      var moved := MarketEvent(before.value, e, cfg);
      if moved.Ok? {
        LatePassIsAtEvent(s, e, cfg);
        var last := ([bound] + first)[|first|];
        AfterEventKeeps(moved.value, time, cfg, last);
        TracesJoin(bound, first, ControlTrace(moved.value, time, true, cfg));
      }
    }
  }

  // ----- the whole recording

  function RunTrace(s: Sim, events: seq<Event>, cfg: Config): seq<Key>
    decreases events
  {
    if events == [] then []
    else
      EventTrace(s, events[0], cfg) +
      match HandleEvent(s, events[0], cfg)
      case Err(_) => []
      case Ok(next) => RunTrace(next, events[1..], cfg)
  }

  lemma {:induction false} HandleAllKeeps(s: Sim, events: seq<Event>, cfg: Config, bound: Key)
    requires SimInvariant(s, cfg) && NoneBefore(s, bound, cfg)
    ensures var trace, r := RunTrace(s, events, cfg), HandleAll(s, events, cfg);
            && SortedBy([bound] + trace, Identity())
            && r != Err(EmptyBook)
            && (r.Ok? ==> SimInvariant(r.value, cfg) && Submitted(r.value) == Submitted(s))
    decreases events
  {
    hide SimInvariant, Submitted, SortedBy, EventTrace, HandleEvent;
    if events == [] {
      OneSorted(bound);
    } else {
      var first := EventTrace(s, events[0], cfg);
      HandleEventKeeps(s, events[0], cfg, bound);
      assert first + [] == first;
      var next := HandleEvent(s, events[0], cfg);
      if next.Ok? {
        var last := ([bound] + first)[|first|];
        HandleAllKeeps(next.value, events[1..], cfg, last);
        TracesJoin(bound, first, RunTrace(next.value, events[1..], cfg));
      }
    }
  }

  lemma OneSorted(k: Key)
    ensures SortedBy([k] + [], Identity())
  {
  }

  /** Nothing is earlier than the beginning of time. */
  const START := Key(-1, 0, "")

  lemma StartIsFirst(s: Sim, cfg: Config)
    ensures NoneBefore(s, START, cfg)
  {
  }

  /** Over the whole recording the controls run in one merged order. */
  lemma ControlsRunInMergedOrder(s: Sim, events: seq<Event>, cfg: Config)
    requires SimInvariant(s, cfg)
    ensures SortedBy(RunTrace(s, events, cfg), Identity())
  {
    hide SimInvariant, RunTrace, KeyLeq;
    StartIsFirst(s, cfg);
    HandleAllKeeps(s, events, cfg, START);
    var trace := RunTrace(s, events, cfg);
    assert forall i | 0 <= i < |trace| :: trace[i] == ([START] + trace)[i + 1];
  }

  lemma FinishEnds(s: Sim, cfg: Config)
    requires SimInvariant(s, cfg)
    ensures var r := Finish(s, cfg);
            && r != Err(EmptyBook)
            && (r.Ok? ==>
              && Accounts(r.value.ledger, r.value.desk.orders, cfg)
              && r.value.desk.orders.Keys == Submitted(s)
              && r.value.requests == [] && r.value.desk.active == []
              && r.value.ledger == s.ledger && r.value.venue == s.venue
              && (forall id | id in r.value.desk.orders ::
                    !r.value.desk.orders[id].status.Pending? && !r.value.desk.orders[id].status.Open?))
  {
    hide Accounts, Liquid, Expire, PendingSorted;
    ExpiriesKeep(s, UINT64_MAX, true, cfg);
    var x := WithExpiries(s, UINT64_MAX, true);
    PendingAccounted(x.ledger, x.desk.orders, x.requests, cfg);
    PendingStatuses(x.desk.orders, x.requests, cfg);
  }

  lemma {:induction false} PendingStatuses(orders: map<string, Order>, requests: seq<Request>, cfg: Config)
    requires forall id | id in orders :: !orders[id].status.Pending? && !orders[id].status.Open?
    ensures var r := ExpirePending(orders, requests, cfg);
            && r != Err(EmptyBook)
            && (r.Ok? ==>
              && r.value.Keys == orders.Keys + (set q | q in requests :: q.id)
              && (forall id | id in r.value :: !r.value[id].status.Pending? && !r.value[id].status.Open?))
    decreases requests
  {
    if requests != [] {
      var one := NeverArrived(requests[0], Expired, "recording_ended_before_arrival", cfg);
      if one.Ok? {
        PendingStatuses(orders[requests[0].id := one.value], requests[1..], cfg);
        assert forall q | q in requests :: q == requests[0] || q in requests[1..];
        assert requests[0] in requests && forall q | q in requests[1..] :: q in requests;
      }
    }
  }

  /** How a simulation ends: all submitted orders have an outcome, and all accounts are right. */
  ghost predicate Ended(s: Sim, submitted: set<string>, cfg: Config) {
    && s.desk.orders.Keys == submitted
    && s.requests == [] && s.desk.active == []
    && (forall id | id in s.desk.orders :: !s.desk.orders[id].status.Pending? && !s.desk.orders[id].status.Open?)
    && Accounts(s.ledger, s.desk.orders, cfg)
    && Liquid(s.venue, s.ledger.fills)
  }

  /**
   No simulation asks an empty side for its best price. At the end of every one that returns: each
   submitted order has exactly one record, none is pending or open; the position is the signed sum of the fills and inside the limit, cash is
   what they cost plus their fees, each order's filled quantity is the sum of its fills and at most
   its request; and what is shadowed at a level is what takers took there since its last refresh,
   never more than it displays.
   */
  lemma SimulationEnds(s: Sim, events: seq<Event>, cfg: Config)
    requires SimInvariant(s, cfg)
    ensures var r := Simulate(s, events, cfg);
            r != Err(EmptyBook) && (r.Ok? ==> Ended(r.value, Submitted(s), cfg))
  {
    hide Accounts, Liquid, LifeInvariant, HandleAll, Finish, PendingSorted, Submitted, BookReady;
    StartIsFirst(s, cfg);
    HandleAllKeeps(s, events, cfg, START);
    var h := HandleAll(s, events, cfg);
    if h.Ok? {
      FinishEnds(h.value, cfg);
    }
  }
}
