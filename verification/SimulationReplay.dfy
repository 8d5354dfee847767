/**
 The market the simulator trades in is the one the recording replays: after any number of events its
 book is the book the events rebuild, whatever orders were scheduled, and its middle is that book's.
 */
module SimulationReplay {
  import opened Results
  import opened L2Types
  import opened OrderBook
  import opened Recording
  import opened Simulation
  import opened SimulationLifecycle
  import opened SimulationRuns
  import opened SimulationQueueRuns

  // ----- one event

  /** The simulator takes an event as the replay does: the same book, or the same error. */
  lemma EventReplays(s: Sim, e: Event, cfg: Simulation.Config)
    requires SimInvariant(s, cfg)
    ensures var r, b := MarketEvent(s, e, cfg), ReplayEvent(s.venue.book, e);
            && (r.Ok? <==> b.Ok?)
            && (r.Ok? ==> r.value.venue.book == b.value)
            && (r.Err? ==> r.error in {SimError.SequenceHole, SimError.UnsoundBook})
            && (r == Err(SimError.SequenceHole) <==> b == Err(ReplayError.SequenceHole))
            && (r == Err(SimError.UnsoundBook) <==> b == Err(ReplayError.UnsoundBook))
  {
    hide TradeEach, DepleteEach, TradeQueue, Decreases, DropKeys, MarkKeys, CancelEach, StillResting, Sound, Applied, Installed,
         UpdateMid;
    MarketEventKeeps(s, e, cfg);
    match e
    case SnapshotEvent(snapshot) =>
      MidOf(Cleared(s.venue, |s.ledger.fills|).(book := Installed(snapshot)));
    case DepthEvent(u) =>
      var d := ProcessDepletion(s, u, cfg);
      MidOf(Refresh(d.venue, u, |d.ledger.fills|).(book := Applied(d.venue.book, u)));
    case _ =>
  }

  lemma MidOf(v: Venue)
    ensures UpdateMid(v).Ok? ==> UpdateMid(v).value.book == v.book
    ensures UpdateMid(v).Err? ==> UpdateMid(v) == Err(EmptyBook)
  {
  }

  /** A boundary forgets the middle, a new book brings its own, and nothing else touches it. */
  lemma EventMiddle(s: Sim, e: Event, cfg: Simulation.Config)
    requires MarketEvent(s, e, cfg).Ok?
    ensures var n := MarketEvent(s, e, cfg).value;
            && (e.BoundaryEvent? ==> n.venue.latestMid == None)
            && (e.TradeEvent? || StaleDepth(s.venue.book, e) ==> n.venue.latestMid == s.venue.latestMid)
            && (e.SnapshotEvent? || (e.DepthEvent? && !StaleDepth(s.venue.book, e)) ==> MiddleOfBook(n.venue))
  {
    hide TradeEach, DepleteEach, TradeQueue, Decreases, DropKeys, MarkKeys, CancelEach, StillResting, Sound, Applied, Installed,
         UpdateMid, MiddleOfBook, SimInvariant;
    match e
    case SnapshotEvent(snapshot) =>
      NewBookIsLater(s.venue.book, e);
      MidIs(Cleared(s.venue, |s.ledger.fills|).(book := Installed(snapshot)));
    case DepthEvent(u) =>
      var d := ProcessDepletion(s, u, cfg);
      NewBookIsLater(d.venue.book, e);
      MidIs(Refresh(d.venue, u, |d.ledger.fills|).(book := Applied(d.venue.book, u)));
    case _ =>
  }

  /** The latest middle is the middle of the best prices of the book. */
  ghost predicate MiddleOfBook(v: Venue) {
    && v.book.bids != map[] && v.book.asks != map[]
    && var bid: int, ask: int := MaxPrice(v.book.bids), MinPrice(v.book.asks);
       v.latestMid == Some((bid + ask) as real / 200_000_000.0)
  }

  lemma MidIs(v: Venue)
    requires v.book.lastUpdateId > 0
    ensures UpdateMid(v).Ok? ==> MiddleOfBook(UpdateMid(v).value)
  {
    assert (2 * PRICE_SCALE) as real == 200_000_000.0;
  }

  lemma NewBookIsLater(book: Book, e: Event)
    ensures e.SnapshotEvent? ==> Installed(e.snapshot).lastUpdateId > 0
    ensures e.DepthEvent? ==> Applied(book, e.update).lastUpdateId > 0
  {
  }

  // ----- whole recordings

  function ReplayFrom(book: Book, events: seq<Event>): Result<Book, ReplayError>
    decreases events
  {
    if events == [] then Ok(book)
    else
      match ReplayEvent(book, events[0])
      case Err(e) => Err(e)
      case Ok(next) => ReplayFrom(next, events[1..])
  }

  lemma {:induction false} ReplayFromMore(book: Book, events: seq<Event>, e: Event)
    ensures ReplayFrom(book, events + [e]) ==
            match ReplayFrom(book, events) case Err(x) => Err(x) case Ok(b) => ReplayEvent(b, e)
    decreases events
  {
    hide ReplayEvent;
    if events == [] {
      assert events + [e] == [e] && [e][1..] == [];
      assert ReplayEvent(book, e).Ok? ==> ReplayFrom(ReplayEvent(book, e).value, []) == ReplayEvent(book, e);
    } else {
      assert (events + [e])[0] == events[0] && (events + [e])[1..] == events[1..] + [e];
      if ReplayEvent(book, events[0]).Ok? {
        ReplayFromMore(ReplayEvent(book, events[0]).value, events[1..], e);
      }
    }
  }

  lemma {:induction false} RebuiltIsReplay(events: seq<Event>)
    ensures Rebuilt(events) == ReplayFrom(EMPTY, events)
    decreases |events|
  {
    hide ReplayEvent;
    if events != [] {
      var init, last := events[..|events| - 1], events[|events| - 1];
      RebuiltIsReplay(init);
      ReplayFromMore(EMPTY, init, last);
      assert events == init + [last];
    }
  }

  lemma ClockKeepsBook(s: Sim, op: Operation, cfg: Simulation.Config)
    requires !op.Happens?
    ensures Operate(s, op, cfg).Ok? ==> Operate(s, op, cfg).value.venue.book == s.venue.book
  {
    hide Expire, CancelEach, Equity, Activate, DropId, NeverArrived;
    if op == OrderArrives && s.requests != [] {
      var arrival := NextOrderArrival(s, cfg);
      if arrival.Ok? && Expiry(arrival.value.value, s.requests[0].timeToLive).Ok? {
        var o := Order(s.requests[0], arrival.value.value, Expiry(arrival.value.value, s.requests[0].timeToLive).value,
                       Pending, 0, 0.0, "");
        ActivateTouches(s.(requests := s.requests[1..]), o, cfg);
      }
    }
  }

  /** Controls, expiries and the kill switch leave the market alone. */
  lemma {:induction false} ControlsKeepBook(s: Sim, time: nat, inclusive: bool, cfg: Simulation.Config)
    requires SimInvariant(s, cfg)
    ensures var r := ProcessControls(s, time, inclusive, cfg);
            r.Ok? ==> SimInvariant(r.value, cfg) && r.value.venue.book == s.venue.book
    decreases |s.requests| + |s.cancels|
  {
    hide SimInvariant, ProcessOneControl, Submitted, OrderArrival;
    var n := NextOrderArrival(s, cfg);
    if n.Ok? {
      var next := Earlier(n.value, NextCancelArrival(s));
      if next.Some? && Ready(next.value, time, inclusive) {
        OneControlShrinks(s, n.value, next.value, cfg);
        OneControlKeeps(s, n.value, next.value, cfg);
        OneControlKeepsBook(s, n.value, next.value, cfg);
        var one := ProcessOneControl(s, n.value, next.value, cfg);
        if one.Ok? {
          ControlsKeepBook(one.value, time, inclusive, cfg);
        }
      }
    }
  }

  lemma OneControlKeepsBook(s: Sim, orderArrival: Option<nat>, arrival: nat, cfg: Simulation.Config)
    requires NextOrderArrival(s, cfg) == Ok(orderArrival)
    requires orderArrival != Some(arrival) ==> s.cancels != []
    ensures var r := ProcessOneControl(s, orderArrival, arrival, cfg);
            r.Ok? ==> r.value.venue.book == s.venue.book
  {
    hide WithExpiries, ActivateNext, ProcessNextCancel, CheckKillSwitch, OrderArrival;
    var e := WithExpiries(s, arrival, false);
    ClockKeepsBook(s, Clock(arrival), cfg);
    ExpiriesTouch(s, arrival);
    if orderArrival == Some(arrival) {
      ClockKeepsBook(e, OrderArrives, cfg);
      if ActivateNext(e, arrival, cfg).Ok? {
        ClockKeepsBook(ActivateNext(e, arrival, cfg).value, RiskCheck, cfg);
      }
    } else {
      ClockKeepsBook(e, CancelArrives, cfg);
    }
  }

  lemma ExpiriesTouch(s: Sim, time: nat)
    ensures var e := WithExpiries(s, time, false); e.requests == s.requests && e.cancels == s.cancels
  {
  }

  lemma EventHandledReplays(s: Sim, e: Event, cfg: Simulation.Config)
    requires SimInvariant(s, cfg)
    ensures var r, b := HandleEvent(s, e, cfg), ReplayEvent(s.venue.book, e);
            && (r.Ok? ==> SimInvariant(r.value, cfg) && b == Ok(r.value.venue.book))
            && (r == Err(SimError.SequenceHole) ==> b == Err(ReplayError.SequenceHole))
            && (r == Err(SimError.UnsoundBook) ==> b == Err(ReplayError.UnsoundBook))
  {
    hide SimInvariant, ProcessControls, WithExpiries, MarketEvent, ReplayEvent, CheckKillSwitch, Submitted;
    var time := Receipt(e);
    ControlsKeepBook(s, time, false, cfg);
    ControlsOnlyOverflow(s, time, false, cfg);
    var c := ProcessControls(s, time, false, cfg);
    if c.Ok? {
      var before := WithExpiries(c.value, time, false);
      ExpiriesKeep(c.value, time, false, cfg);
      EventReplays(before, e, cfg);
      var moved := MarketEvent(before, e, cfg);
      if moved.Ok? {
        MarketEventKeeps(before, e, cfg);
        ControlsKeepBook(moved.value, time, true, cfg);
        ControlsOnlyOverflow(moved.value, time, true, cfg);
        var d := ProcessControls(moved.value, time, true, cfg);
        if d.Ok? {
          var after := WithExpiries(d.value, time, false);
          ExpiriesKeep(d.value, time, false, cfg);
          KillSwitchKeeps(after, cfg);
          ClockKeepsBook(after, RiskCheck, cfg);
        }
      }
    }
  }

  /** A control raises only for a time that exceeds 64 bits, or for the best price of an empty side. */
  lemma {:induction false} ControlsOnlyOverflow(s: Sim, time: nat, inclusive: bool, cfg: Simulation.Config)
    ensures var r := ProcessControls(s, time, inclusive, cfg); r.Err? ==> r.error in {TimestampOverflow, EmptyBook}
    decreases |s.requests| + |s.cancels|
  {
    hide ProcessOneControl;
    var n := NextOrderArrival(s, cfg);
    if n.Ok? {
      var next := Earlier(n.value, NextCancelArrival(s));
      if next.Some? && Ready(next.value, time, inclusive) {
        OneControlShrinks(s, n.value, next.value, cfg);
        OneOnlyOverflows(s, n.value, next.value, cfg);
        var one := ProcessOneControl(s, n.value, next.value, cfg);
        if one.Ok? {
          ControlsOnlyOverflow(one.value, time, inclusive, cfg);
        }
      }
    }
  }

  lemma OneOnlyOverflows(s: Sim, orderArrival: Option<nat>, arrival: nat, cfg: Simulation.Config)
    requires orderArrival.Some? ==> s.requests != []
    requires orderArrival != Some(arrival) ==> s.cancels != []
    ensures var r := ProcessOneControl(s, orderArrival, arrival, cfg); r.Err? ==> r.error in {TimestampOverflow, EmptyBook}
  {
    hide Expire, Equity, CancelEach, ExecuteTaker, Rest, Marketable, PositionAllows, DropId;
  }

  lemma {:induction false} HandledReplays(s: Sim, events: seq<Event>, cfg: Simulation.Config)
    requires SimInvariant(s, cfg)
    ensures var r, b := HandleAll(s, events, cfg), ReplayFrom(s.venue.book, events);
            && (r.Ok? ==> b == Ok(r.value.venue.book))
            && (r == Err(SimError.SequenceHole) ==> b == Err(ReplayError.SequenceHole))
            && (r == Err(SimError.UnsoundBook) ==> b == Err(ReplayError.UnsoundBook))
    decreases events
  {
    hide SimInvariant, HandleEvent, ReplayEvent;
    if events != [] {
      EventHandledReplays(s, events[0], cfg);
      var one := HandleEvent(s, events[0], cfg);
      if one.Ok? {
        HandledReplays(one.value, events[1..], cfg);
      }
    }
  }

  /**
   A simulation that starts without a book trades, after any recording it handles, in the book that
   recording rebuilds; it raises for a hole or an unsound book only where the replay does.
   */
  lemma SimulatedMarketIsRebuilt(s: Sim, events: seq<Event>, cfg: Simulation.Config)
    requires SimInvariant(s, cfg) && s.venue.book == EMPTY
    ensures var r := HandleAll(s, events, cfg);
            && (r.Ok? ==> Rebuilt(events) == Ok(r.value.venue.book))
            && (r == Err(SimError.SequenceHole) ==> Rebuilt(events) == Err(ReplayError.SequenceHole))
            && (r == Err(SimError.UnsoundBook) ==> Rebuilt(events) == Err(ReplayError.UnsoundBook))
  {
    HandledReplays(s, events, cfg);
    RebuiltIsReplay(events);
  }
}
