/**
 * Runs in which a worker may panic: its node is never reported. The transition system of a run is extended by the
 * death of a worker and by the closing of the done channel once the last worker is dead.
 */
module WorkerPanics {
  import opened Prelude
  import opened Relations
  import opened Multigraph
  import opened Scheduler
  import opened SchedulerInvariant
  import opened SchedulerTheorems
  import Engine

  /** A run together with the nodes that dead workers hold; they count as running for ever. */
  datatype Ailing = Ailing(s: State, dead: multiset<Node>, closed: bool)

  datatype Event =
    | Scheduled(step: Step)
    | Die(node: Node)  // the worker that runs the node panics
    | Close            // the driver finds the done channel closed and gives up with an internal error

  ghost predicate Possible(plan: Plan, x: Ailing, e: Event) {
    && !x.closed
    && match e
       case Scheduled(step) => Enabled(plan, x.s, step) && (step.Finish? ==> x.dead[step.node] < x.s.running[step.node])
       case Die(n) => x.dead[n] < x.s.running[n]
       case Close => x.s.phase.Awaiting? && x.s.done == [] && |x.dead| == plan.batch
  }

  ghost function After(plan: Plan, x: Ailing, e: Event): Ailing
    requires Possible(plan, x, e)
  {
    match e
    case Scheduled(step) => x.(s := Apply(plan, x.s, step))
    case Die(n) => x.(dead := x.dead + multiset{n})
    case Close => x.(closed := true)
  }

  ghost predicate Happens(plan: Plan, x: Ailing, events: seq<Event>, y: Ailing)
    decreases |events|
  {
    if events == [] then x == y
    else Possible(plan, x, events[0]) && Happens(plan, After(plan, x, events[0]), events[1..], y)
  }

  ghost predicate Fresh(plan: Plan, x: Ailing) {
    Init(plan, x.s) && x.dead == multiset{} && !x.closed
  }

  ghost predicate Occurs(plan: Plan, y: Ailing) {
    exists x, events :: Fresh(plan, x) && Happens(plan, x, events, y)
  }

  // Everything proved about runs without panics still holds

  ghost predicate Sick(plan: Plan, x: Ailing) {
    Reachable(plan, x.s) && x.dead <= x.s.running && (x.closed ==> |x.dead| == plan.batch)
  }

  /** Nobody but its worker takes a node out of the running ones. */
  lemma DeadStay(plan: Plan, s: State, dead: multiset<Node>, step: Step)
    requires dead <= s.running && Enabled(plan, s, step) && (step.Finish? ==> dead[step.node] < s.running[step.node])
    ensures dead <= Apply(plan, s, step).running
  {
    if step.Finish? {
      assert Apply(plan, s, step).running == s.running - multiset{step.node};
    } else if step.Receive? {
      assert Apply(plan, s, step).running == s.running;
    }
  }

  lemma EventKeeps(plan: Plan, x: Ailing, e: Event)
    requires Sick(plan, x) && Possible(plan, x, e)
    ensures Sick(plan, After(plan, x, e))
  {
    match e
    case Scheduled(step) =>
      Engine.ReachableNext(plan, x.s, step);
      DeadStay(plan, x.s, x.dead, step);
    case Die(n) =>
    case Close =>
  }

  lemma {:induction false} HappensKeeps(plan: Plan, x: Ailing, events: seq<Event>, y: Ailing)
    requires Sick(plan, x) && Happens(plan, x, events, y)
    ensures Sick(plan, y)
    decreases |events|
  {
    if events == [] {
    } else {
      EventKeeps(plan, x, events[0]);
      HappensKeeps(plan, After(plan, x, events[0]), events[1..], y);
    }
  }

  /** A run with panics is a run of the transition system in which some workers never finish. */
  lemma OccursIsSick(plan: Plan, y: Ailing)
    requires Occurs(plan, y)
    ensures Sick(plan, y)
  {
    var x, events :| Fresh(plan, x) && Happens(plan, x, events, y);
    assert Runs(plan, x.s, [], x.s);
    HappensKeeps(plan, x, events, y);
  }

  // What a panic leads to

  /** Nothing but the token can move any more, although the driver has not returned. */
  ghost predicate Hangs(plan: Plan, x: Ailing) {
    && !x.closed && !x.s.phase.Exited?
    && forall e :: Possible(plan, x, e) ==> e == Scheduled(Cancel)
  }

  /** The driver waits, and all that is in flight is held by dead workers, of which there are not enough. */
  ghost predicate Lost(plan: Plan, x: Ailing) {
    && !x.closed && x.s.phase.Awaiting? && x.s.done == [] && x.s.queue == []
    && x.s.running == x.dead && 0 < |x.dead| < plan.batch
  }

  /** What can happen next, unless the run is lost. */
  lemma NextEvent(plan: Plan, x: Ailing) returns (e: Event)
    requires WellFormed(plan) && Sick(plan, x) && !x.closed && !x.s.phase.Exited? && !Lost(plan, x)
    ensures Possible(plan, x, e) && !e.Die? && e != Scheduled(Cancel)
  {
    Accounts(plan, x.s);
    if x.s.phase.Dispatching? {
      e := Scheduled(if MayDispatch(plan, x.s) then Dispatch else Stop);
    } else if x.s.phase.Checking? {
      e := Scheduled(Check);
    } else if x.s.done != [] {
      e := Scheduled(Receive);
    } else if x.s.running != x.dead {
      var n := Alive(x.s.running, x.dead);
      e := Scheduled(Finish(n, None));
    } else if |x.dead| == plan.batch {
      e := Close;
    } else {
      e := Scheduled(Take);
    }
  }

  lemma Alive(running: multiset<Node>, dead: multiset<Node>) returns (n: Node)
    requires dead <= running && dead != running
    ensures dead[n] < running[n]
  {
    if forall m :: running[m] <= dead[m] {
      NoMore(dead, running);
    }
    n :| dead[n] < running[n];
  }

  lemma NoMore(dead: multiset<Node>, running: multiset<Node>)
    requires dead <= running && forall m :: running[m] <= dead[m]
    ensures dead == running
  {
  }

  /** What a reachable state says about the work in flight. */
  lemma Accounts(plan: Plan, s: State)
    requires WellFormed(plan) && Reachable(plan, s)
    ensures s.inflight == |s.queue| + |s.running| + |s.done| <= plan.batch && plan.batch >= 1
    ensures (s.phase.Awaiting? ==> s.inflight > 0) && (s.phase.Exited? ==> s.inflight == 0)
  {
    ReachableHolds(plan, s);
    WithinBounds(plan, s);
  }

  /** The exact condition of `NoDeadlock` when workers may panic. */
  lemma HangsExactlyWhenLost(plan: Plan, x: Ailing)
    requires WellFormed(plan) && Occurs(plan, x)
    ensures Hangs(plan, x) <==> Lost(plan, x)
  {
    OccursIsSick(plan, x);
    if Hangs(plan, x) && !Lost(plan, x) {
      var e := NextEvent(plan, x);
    }
  }

  /** The workers are joined only when none has panicked, so a panic never surfaces there. */
  lemma JoinsOnlyTheLiving(plan: Plan, x: Ailing)
    requires WellFormed(plan) && Occurs(plan, x) && x.s.phase.Exited?
    ensures x.dead == multiset{} && !x.closed
  {
    OccursIsSick(plan, x);
    Accounts(plan, x.s);
    assert |x.s.running| == 0;
  }

  /** After a panic, with a worker left and no further panic, the run goes on to where it hangs; it cannot end. */
  lemma {:induction false} PanicHangs(plan: Plan, x: Ailing) returns (events: seq<Event>, y: Ailing)
    requires WellFormed(plan) && Sick(plan, x) && !x.closed && 0 < |x.dead| < plan.batch
    ensures Happens(plan, x, events, y) && Lost(plan, y) && y.dead == x.dead
    decreases Fuel(plan, x.s)
  {
    if Lost(plan, x) {
      events, y := [], x;
    } else {
      NeverExits(plan, x);
      var e := NextEvent(plan, x);
      EventKeeps(plan, x, e);
      Engine.FuelLeft(plan, x.s);
      FuelBurns(plan, x.s, e.step);
      events, y := PanicHangs(plan, After(plan, x, e));
      assert ([e] + events)[1..] == events;
      events := [e] + events;
    }
  }

  lemma NeverExits(plan: Plan, x: Ailing)
    requires WellFormed(plan) && Sick(plan, x) && x.dead != multiset{}
    ensures !x.s.phase.Exited?
  {
    Accounts(plan, x.s);
    assert x.s.running == x.dead + (x.s.running - x.dead);
  }

  // When a run can hang

  lemma {:induction false} Enumerated(nodes: set<Node>) returns (s: seq<Node>)
    ensures NoDup(s) && forall n :: n in s <==> n in nodes
  {
    if nodes == {} {
      s := [];
    } else {
      var n :| n in nodes;
      s := Enumerated(nodes - {n});
      s := s + [n];
    }
  }

  /** Every run can be started. */
  lemma Starts(plan: Plan) returns (s: State)
    requires WellFormed(plan)
    ensures Init(plan, s) && !s.cancelled
  {
    var up := Promoted(plan);
    var ready := Enumerated(set n | n in plan.slice && n !in up && Waiting(plan.edges, up, n) == 0);
    s := State(
      Dispatching, map n | n in plan.slice :: Waiting(plan.edges, up, n), ready,
      map n | n in plan.slice :: if n in up then Success else plan.initial[n],
      [], multiset{}, [], 0, false, None, false, [], [], up);
  }

  /** A node that was not promoted and whose dependencies all were is ready from the start. */
  lemma SomethingReady(plan: Plan, s: State)
    requires WellFormed(plan) && Init(plan, s) && Promoted(plan) != plan.slice
    ensures s.ready != []
  {
    var left := plan.slice - Promoted(plan);
    assert Promoted(plan) <= plan.slice && !(plan.slice <= Promoted(plan));
    var x :| x in plan.slice && x !in Promoted(plan);
    assert x in left;
    var m := MinimalElement(EdgeSet(plan.edges), left);
    forall u | (u, m) in plan.edges
      ensures u in Promoted(plan)
    {
      assert (u, m) in EdgeSet(plan.edges);
    }
    WaitingZero(plan.edges, Promoted(plan), m);
    assert m in s.ready;
  }

  lemma FirstPanics(plan: Plan, s: State) returns (events: seq<Event>, y: Ailing)
    requires WellFormed(plan) && Init(plan, s) && !s.cancelled && s.ready != []
    ensures Happens(plan, Ailing(s, multiset{}, false), events, y) && |y.dead| == 1 && !y.closed && Sick(plan, y)
  {
    var x, n := Ailing(s, multiset{}, false), s.ready[0];
    assert Runs(plan, s, [], s);
    var e1, e2, e3 := Scheduled(Dispatch), Scheduled(Take), Die(n);
    var x1 := After(plan, x, e1);
    EventKeeps(plan, x, e1);
    assert x1.s.queue == [n] && x1.s.running == multiset{};
    var x2 := After(plan, x1, e2);
    EventKeeps(plan, x1, e2);
    y := After(plan, x2, e3);
    EventKeeps(plan, x2, e3);
    Three(plan, x, e1, x1, e2, x2, e3, y);
    events := [e1, e2, e3];
  }

  lemma Three(plan: Plan, x: Ailing, e1: Event, x1: Ailing, e2: Event, x2: Ailing, e3: Event, y: Ailing)
    requires Possible(plan, x, e1) && After(plan, x, e1) == x1 && Possible(plan, x1, e2) && After(plan, x1, e2) == x2
    requires Possible(plan, x2, e3) && After(plan, x2, e3) == y
    ensures Happens(plan, x, [e1, e2, e3], y)
  {
    assert Happens(plan, y, [], y);
    assert [e3][1..] == [] && Happens(plan, x2, [e3], y);
    assert [e2, e3][1..] == [e3] && Happens(plan, x1, [e2, e3], y);
    assert [e1, e2, e3][1..] == [e2, e3];
  }

  lemma {:induction false} HappensThen(plan: Plan, x: Ailing, events: seq<Event>, y: Ailing, more: seq<Event>, z: Ailing)
    requires Happens(plan, x, events, y) && Happens(plan, y, more, z)
    ensures Happens(plan, x, events + more, z)
    decreases |events|
  {
    if events == [] {
      assert events + more == more;
    } else {
      HappensThen(plan, After(plan, x, events[0]), events[1..], y, more, z);
      assert (events + more)[1..] == events[1..] + more;
    }
  }

  /** A run can hang if and only if there are two workers or more and something has to be run at all. */
  lemma CanHang(plan: Plan)
    requires WellFormed(plan)
    ensures (exists x :: Occurs(plan, x) && Hangs(plan, x)) <==> plan.batch >= 2 && Promoted(plan) != plan.slice
  {
    if plan.batch >= 2 && Promoted(plan) != plan.slice {
      var s := Starts(plan);
      SomethingReady(plan, s);
      var x := Ailing(s, multiset{}, false);
      var events, y := FirstPanics(plan, s);
      var more, z := PanicHangs(plan, y);
      HappensThen(plan, x, events, y, more, z);
      assert Fresh(plan, x) && Occurs(plan, z);
      HangsExactlyWhenLost(plan, z);
    }
    if x :| Occurs(plan, x) && Hangs(plan, x) {
      HangsExactlyWhenLost(plan, x);
      OccursIsSick(plan, x);
      SomethingRuns(plan, x.s);
    }
  }

  lemma SomethingRuns(plan: Plan, s: State)
    requires WellFormed(plan) && Reachable(plan, s) && s.running != multiset{}
    ensures Promoted(plan) != plan.slice
  {
    ReachableHolds(plan, s);
    var n :| n in s.running;
    assert n in InFlight(s);
    assert n in multiset(s.dispatched);
  }
}
