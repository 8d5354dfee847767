/** Replaying a recording is a sequence of operations, so the results about queues apply to it. */
module SimulationQueueRecordings {
  import opened Results
  import opened L2Types
  import opened Simulation
  import opened SimulationLifecycle
  import opened SimulationRuns
  import opened SimulationQueueRuns

  /** The state after the operations, or the error of the first one that raises. */
  function Perform(s: Sim, ops: seq<Operation>, cfg: Config): Result<Sim, SimError>
    decreases ops
  {
    if ops == [] then Ok(s)
    else
      match Operate(s, ops[0], cfg)
      case Err(e) => Err(e)
      case Ok(n) => Perform(n, ops[1..], cfg)
  }

  function Then(r: Result<Sim, SimError>, ops: seq<Operation>, cfg: Config): Result<Sim, SimError> {
    match r
    case Err(e) => Err(e)
    case Ok(s) => Perform(s, ops, cfg)
  }

  lemma {:induction false} PerformJoins(s: Sim, a: seq<Operation>, b: seq<Operation>, cfg: Config)
    ensures Perform(s, a + b, cfg) == Then(Perform(s, a, cfg), b, cfg)
    decreases a
  {
    hide Operate;
    if a == [] {
      assert a + b == b;
    } else {
      assert (a + b)[1..] == a[1..] + b;
      if Operate(s, a[0], cfg).Ok? {
        PerformJoins(Operate(s, a[0], cfg).value, a[1..], b, cfg);
      }
    }
  }

  lemma PerformOne(s: Sim, op: Operation, cfg: Config)
    ensures Perform(s, [op], cfg) == Operate(s, op, cfg)
  {
    hide Operate;
    assert [op][1..] == [];
    assert Operate(s, op, cfg).Ok? ==> Perform(Operate(s, op, cfg).value, [], cfg) == Operate(s, op, cfg);
  }

  // ----- one pass over the controls

  function ControlOps(orderArrival: Option<nat>, arrival: nat): seq<Operation> {
    [Clock(arrival)] + if orderArrival == Some(arrival) then [OrderArrives, RiskCheck] else [CancelArrives]
  }

  /** The operations of one pass; an arrival that overflows raises in the first of them. */
  function ControlsOps(s: Sim, time: nat, inclusive: bool, cfg: Config): seq<Operation>
    decreases |s.requests| + |s.cancels|
  {
    match NextOrderArrival(s, cfg)
    case Err(_) => [OrderArrives]
    case Ok(orderArrival) =>
      var next := Earlier(orderArrival, NextCancelArrival(s));
      if next == None || !Ready(next.value, time, inclusive) then []
      else
        OneControlShrinks(s, orderArrival, next.value, cfg);
        ControlOps(orderArrival, next.value) +
        match ProcessOneControl(s, orderArrival, next.value, cfg)
        case Err(_) => []
        case Ok(after) => ControlsOps(after, time, inclusive, cfg)
  }

  lemma OneControlPerforms(s: Sim, orderArrival: Option<nat>, arrival: nat, cfg: Config)
    requires NextOrderArrival(s, cfg) == Ok(orderArrival)
    requires orderArrival.Some? ==> s.requests != []
    requires orderArrival != Some(arrival) ==> s.cancels != []
    ensures Perform(s, ControlOps(orderArrival, arrival), cfg) == ProcessOneControl(s, orderArrival, arrival, cfg)
  {
    hide Perform, ActivateNext, ProcessNextCancel, CheckKillSwitch, Expire, OrderArrival;
    var e := WithExpiries(s, arrival, false);
    var rest := if orderArrival == Some(arrival) then [OrderArrives, RiskCheck] else [CancelArrives];
    PerformJoins(s, [Clock(arrival)], rest, cfg);
    PerformOne(s, Clock(arrival), cfg);
    assert NextOrderArrival(e, cfg) == NextOrderArrival(s, cfg);
    if orderArrival == Some(arrival) {
      assert rest == [OrderArrives] + [RiskCheck];
      PerformJoins(e, [OrderArrives], [RiskCheck], cfg);
      PerformOne(e, OrderArrives, cfg);
      if ActivateNext(e, arrival, cfg).Ok? {
        PerformOne(ActivateNext(e, arrival, cfg).value, RiskCheck, cfg);
      }
    } else {
      PerformOne(e, CancelArrives, cfg);
    }
  }

  lemma {:induction false} ControlsPerform(s: Sim, time: nat, inclusive: bool, cfg: Config)
    ensures Perform(s, ControlsOps(s, time, inclusive, cfg), cfg) == ProcessControls(s, time, inclusive, cfg)
    decreases |s.requests| + |s.cancels|
  {
    hide Perform, ProcessOneControl, OrderArrival, ControlOps;
    var arrival := NextOrderArrival(s, cfg);
    if arrival.Err? {
      PerformOne(s, OrderArrives, cfg);
    } else {
      var next := Earlier(arrival.value, NextCancelArrival(s));
      if next == None || !Ready(next.value, time, inclusive) {
        PerformNothing(s, cfg);
      } else {
        OneControlShrinks(s, arrival.value, next.value, cfg);
        OneControlPerforms(s, arrival.value, next.value, cfg);
        var one := ProcessOneControl(s, arrival.value, next.value, cfg);
        if one.Ok? {
          ControlsPerform(one.value, time, inclusive, cfg);
          PerformJoins(s, ControlOps(arrival.value, next.value), ControlsOps(one.value, time, inclusive, cfg), cfg);
        } else {
          PerformJoins(s, ControlOps(arrival.value, next.value), [], cfg);
        }
      }
    }
  }

  lemma PerformNothing(s: Sim, cfg: Config)
    ensures Perform(s, [], cfg) == Ok(s)
  {
  }

  // ----- one event, and all of them

  function BeforeOps(s: Sim, time: nat, cfg: Config): seq<Operation> {
    ControlsOps(s, time, false, cfg) + [Clock(time)]
  }

  function AfterOps(s: Sim, time: nat, cfg: Config): seq<Operation> {
    ControlsOps(s, time, true, cfg) + [Clock(time), RiskCheck]
  }

  function EventOps(s: Sim, e: Event, cfg: Config): seq<Operation> {
    BeforeOps(s, Receipt(e), cfg) + ([Happens(e)] +
    match Then(BeforeEvent(s, Receipt(e), cfg), [Happens(e)], cfg)
    case Err(_) => []
    case Ok(moved) => AfterOps(moved, Receipt(e), cfg))
  }

  lemma BeforePerforms(s: Sim, time: nat, cfg: Config)
    ensures Perform(s, BeforeOps(s, time, cfg), cfg) == BeforeEvent(s, time, cfg)
  {
    hide Perform, ControlsOps, ProcessControls, WithExpiries;
    ControlsPerform(s, time, false, cfg);
    PerformJoins(s, ControlsOps(s, time, false, cfg), [Clock(time)], cfg);
    var c := ProcessControls(s, time, false, cfg);
    if c.Ok? {
      PerformOne(c.value, Clock(time), cfg);
    }
  }

  lemma AfterPerforms(s: Sim, time: nat, cfg: Config)
    ensures Perform(s, AfterOps(s, time, cfg), cfg) == AfterEvent(s, time, cfg)
  {
    hide Perform, ControlsOps, ProcessControls, WithExpiries, CheckKillSwitch;
    ControlsPerform(s, time, true, cfg);
    PerformJoins(s, ControlsOps(s, time, true, cfg), [Clock(time), RiskCheck], cfg);
    var c := ProcessControls(s, time, true, cfg);
    if c.Ok? {
      assert [Clock(time), RiskCheck] == [Clock(time)] + [RiskCheck];
      PerformJoins(c.value, [Clock(time)], [RiskCheck], cfg);
      PerformOne(c.value, Clock(time), cfg);
      PerformOne(WithExpiries(c.value, time, false), RiskCheck, cfg);
    }
  }

  lemma EventPerforms(s: Sim, e: Event, cfg: Config)
    ensures Perform(s, EventOps(s, e, cfg), cfg) == HandleEvent(s, e, cfg)
  {
    hide Perform, BeforeOps, AfterOps, BeforeEvent, AfterEvent, MarketEvent;
    var time := Receipt(e);
    var before := BeforeEvent(s, time, cfg);
    BeforePerforms(s, time, cfg);
    var moved := Then(before, [Happens(e)], cfg);
    var last := if moved.Ok? then AfterOps(moved.value, time, cfg) else [];
    PerformJoins(s, BeforeOps(s, time, cfg), [Happens(e)] + last, cfg);
    if before.Ok? {
      PerformOne(before.value, Happens(e), cfg);
      PerformJoins(before.value, [Happens(e)], last, cfg);
      if moved.Ok? {
        AfterPerforms(moved.value, time, cfg);
      }
    }
  }

  function RecordingOps(s: Sim, events: seq<Event>, cfg: Config): seq<Operation>
    decreases events
  {
    if events == [] then []
    else
      EventOps(s, events[0], cfg) +
      match HandleEvent(s, events[0], cfg)
      case Err(_) => []
      case Ok(next) => RecordingOps(next, events[1..], cfg)
  }

  /** Handling a recording performs exactly these operations, with the same state or error. */
  lemma {:induction false} RecordingPerforms(s: Sim, events: seq<Event>, cfg: Config)
    ensures Perform(s, RecordingOps(s, events, cfg), cfg) == HandleAll(s, events, cfg)
    decreases events
  {
    hide Perform, EventOps, HandleEvent;
    if events == [] {
      PerformNothing(s, cfg);
    } else {
      EventPerforms(s, events[0], cfg);
      var next := HandleEvent(s, events[0], cfg);
      if next.Ok? {
        RecordingPerforms(next.value, events[1..], cfg);
        PerformJoins(s, EventOps(s, events[0], cfg), RecordingOps(next.value, events[1..], cfg), cfg);
      } else {
        PerformJoins(s, EventOps(s, events[0], cfg), [], cfg);
      }
    }
  }

  /**
   A whole simulation: it handles the recording by a run of operations and then takes every order off
   the queues, which were in order in every state exactly when every operation met its condition.
   */
  lemma SimulationInOrderIff(s: Sim, events: seq<Event>, cfg: Config)
    requires RunInvariant(s, cfg) && QueuesInOrder(s.desk)
    ensures var ops := RecordingOps(s, events, cfg);
            && Perform(s, ops, cfg) == HandleAll(s, events, cfg)
            && (AlwaysInOrder(s, ops, cfg) <==> AlwaysKeeps(s, ops, cfg))
    ensures Simulate(s, events, cfg).Ok? ==> QueuesInOrder(Simulate(s, events, cfg).value.desk)
  {
    hide RecordingOps, HandleAll, AlwaysInOrder, AlwaysKeeps, QueuesInOrder, SimInvariant, Arranged, Ended, Perform, Finish;
    RecordingPerforms(s, events, cfg);
    RunInOrderIff(s, RecordingOps(s, events, cfg), cfg);
    SimulationEnds(s, events, cfg);
    if Simulate(s, events, cfg).Ok? {
      EndedIsEmpty(Simulate(s, events, cfg).value, Submitted(s), cfg);
    }
  }

  lemma EndedIsEmpty(n: Sim, submitted: set<string>, cfg: Config)
    requires Ended(n, submitted, cfg)
    ensures QueuesInOrder(n.desk)
  {
    NothingRests(n, cfg);
  }

  /** With whole units the queues stay in order throughout a recording whose operations are all allowed. */
  lemma WholeRecordingInOrder(s: Sim, events: seq<Event>, cfg: Config)
    requires RunInvariant(s, cfg) && QueuesInOrder(s.desk) && WholeQueues(s.desk)
    requires AlwaysAllowed(s, RecordingOps(s, events, cfg), cfg)
    ensures AlwaysInOrder(s, RecordingOps(s, events, cfg), cfg)
    ensures Perform(s, RecordingOps(s, events, cfg), cfg) == HandleAll(s, events, cfg)
  {
    hide RecordingOps, HandleAll, AlwaysInOrder, AlwaysAllowed, RunInvariant, QueuesInOrder, Perform, WholeQueues;
    RecordingPerforms(s, events, cfg);
    WholeRunInOrder(s, RecordingOps(s, events, cfg), cfg);
  }
}
