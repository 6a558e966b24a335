/** What the scheduler invariant means for whole runs. */
module SchedulerTheorems {
  import opened Prelude
  import opened Relations
  import opened Multigraph
  import opened Scheduler
  import opened SchedulerInvariant

  /** What `run` reports after the driver loop: a failure takes precedence over a cancellation. */
  datatype Outcome = Done | Broken(error: Error) | Cancelled

  function Report(s: State): Outcome {
    if s.firstError.Some? then Broken(s.firstError.value)
    else if s.cancelled then Cancelled
    else Done
  }

  // Order of dispatch

  /** Settled nodes carry all their predecessors with them. */
  lemma SettledClosed(plan: Plan, s: State)
    requires WellFormed(plan) && Inv(plan, s)
    ensures PredClosed(EdgeSet(plan.edges), s.settled)
  {
    forall u, n | (u, n) in EdgeSet(plan.edges) && n in s.settled
      ensures u in s.settled
    {
      if n in Promoted(plan) {
        PromotedNeverWait(plan, s.settled);
      } else {
        NoDupLeft(s.dispatched, s.ready);
        OnePlace(plan.batch, s.dispatched, InFlight(s), s.inflight, s.received, n);
        assert Completion(n, None) in s.received;
      }
      WaitingZero(plan.edges, s.settled, n);
    }
  }

  lemma SettledSucceeded(plan: Plan, s: State, n: Node)
    requires Inv(plan, s) && n in s.settled
    ensures n in s.status && s.status[n] == Success
  {
    if n !in Promoted(plan) {
      assert Completion(n, None) in s.received;
    }
  }

  /**
   * In every interleaving: a node is dispatched at most once, and everything it transitively depends on has
   * succeeded by then, so no descendant of a failed node ever runs.
   */
  lemma DispatchedInOrder(plan: Plan, s: State)
    requires WellFormed(plan) && Reachable(plan, s)
    ensures NoDup(s.dispatched) && Elems(s.dispatched) <= plan.slice
    ensures forall n, a :: n in s.dispatched && Plus(EdgeSet(plan.edges), a, n) ==> a in s.status && s.status[a] == Success
  {
    ReachableHolds(plan, s);
    NoDupLeft(s.dispatched, s.ready);
    forall n, a | n in s.dispatched && Plus(EdgeSet(plan.edges), a, n)
      ensures a in s.status && s.status[a] == Success
    {
      AncestorSettled(plan, s, a, n);
      SettledSucceeded(plan, s, a);
    }
  }

  /** A node whose transform failed keeps everything that depends on it from ever being dispatched. */
  lemma FailureBlocksDescendants(plan: Plan, s: State, c: Completion, n: Node)
    requires WellFormed(plan) && Reachable(plan, s)
    requires c in s.received && c.error.Some? && Plus(EdgeSet(plan.edges), c.node, n)
    ensures n !in s.dispatched
  {
    ReachableHolds(plan, s);
    if n in s.dispatched {
      DispatchedInOrder(plan, s);
      assert false;
    }
  }

  lemma AncestorSettled(plan: Plan, s: State, a: Node, n: Node)
    requires WellFormed(plan) && Inv(plan, s) && Plus(EdgeSet(plan.edges), a, n)
    requires Waiting(plan.edges, s.settled, n) == 0
    ensures a in s.settled
  {
    var r := EdgeSet(plan.edges);
    var u := LastStep(r, a, n);
    WaitingZero(plan.edges, s.settled, n);
    SettledClosed(plan, s);
    ClosedHoldsReach(r, s.settled, a, u);
  }

  /** The saturating decrement never saturates: the walk over a completed node's children stays exact. */
  lemma CountersNeverSaturate(plan: Plan, s: State)
    requires WellFormed(plan) && Reachable(plan, s) && Enabled(plan, s, Receive) && Live(s)
    ensures s.indegree.Keys == plan.slice
    ensures forall m :: m in s.indegree ==> multiset(Children(plan.edges, s.done[0].node))[m] <= s.indegree[m]
    ensures forall m :: m in s.indegree ==> s.indegree[m] == Waiting(plan.edges, s.settled, m)
  {
    ReachableHolds(plan, s);
    ReceiveTouches(plan, s);
    ReceiveBooks(plan, s, Apply(plan, s, Receive));
    SettleCounters(plan, s.indegree, s.settled, s.done[0].node);
  }

  // No stranded work

  /** When everything dispatched is settled, nothing is ready and the run is live, all of the slice is settled. */
  lemma AllSettled(plan: Plan, s: State)
    requires WellFormed(plan) && Frontier(plan, s) && Live(s) && s.ready == []
    requires forall n :: n in s.dispatched ==> n in s.settled
    ensures s.settled == plan.slice
  {
    var left := plan.slice - s.settled;
    if !(plan.slice <= s.settled) {
      var x :| x in plan.slice && x !in s.settled;
      assert x in left;
      var n := MinimalElement(EdgeSet(plan.edges), left);
      forall u | (u, n) in plan.edges
        ensures u in s.settled
      {
        assert (u, n) in EdgeSet(plan.edges);
      }
      WaitingZero(plan.edges, s.settled, n);
    }
  }

  lemma DispatchedSettled(plan: Plan, s: State, n: Node)
    requires Inv(plan, s) && Live(s) && s.inflight == 0 && n in s.dispatched
    ensures n in s.settled
  {
    assert n in multiset(s.dispatched) && n !in InFlight(s);
    var c := FindCompletion(s.received, n);
    NoErrors(s.received, c);
    assert c == Completion(n, None);
  }

  lemma {:induction false} FindCompletion(cs: seq<Completion>, n: Node) returns (c: Completion)
    requires n in Nodes(cs)
    ensures c in cs && c.node == n
  {
    var k := |cs| - 1;
    if cs[k].node == n {
      c := cs[k];
    } else {
      c := FindCompletion(cs[..k], n);
    }
  }

  lemma {:induction false} NoErrors(cs: seq<Completion>, c: Completion)
    requires FirstError(cs).None? && c in cs
    ensures c.error.None?
  {
    var k := |cs| - 1;
    if c != cs[k] {
      NoErrors(cs[..k], c);
    }
  }

  lemma AllSettledAtExit(plan: Plan, s: State)
    requires WellFormed(plan) && Inv(plan, s) && s.phase.Exited? && Report(s).Done?
    ensures s.settled == plan.slice
  {
    forall n | n in s.dispatched
      ensures n in s.settled
    {
      DispatchedSettled(plan, s, n);
    }
    AllSettled(plan, s);
  }

  /**
   * A driver that has left its loop without a failure and without a cancellation has brought every node of
   * the slice to success, and has dispatched exactly the nodes the cascade did not promote.
   */
  lemma NoStrandedWork(plan: Plan, s: State)
    requires WellFormed(plan) && Reachable(plan, s) && s.phase.Exited? && Report(s).Done?
    ensures forall n :: n in plan.slice ==> n in s.status && s.status[n] == Success
    ensures Elems(s.dispatched) == plan.slice - Promoted(plan)
  {
    ReachableHolds(plan, s);
    AllSettledAtExit(plan, s);
    forall n | n in plan.slice
      ensures n in s.status && s.status[n] == Success
      ensures n !in Promoted(plan) <==> n in s.dispatched
    {
      SettledSucceeded(plan, s, n);
      SettledWasDispatched(plan, s, n);
    }
  }

  /**
   * Being a cache hit does not keep a node from being dispatched: in a run that completes, a hit is run again
   * exactly when one of its transitive dependencies is not a hit, because the child walk of the driver loop
   * does not look at the flag.
   */
  lemma HitsRunAgain(plan: Plan, s: State, n: Node)
    requires WellFormed(plan) && Reachable(plan, s) && s.phase.Exited? && Report(s).Done?
    requires n in plan.slice && n in plan.hits
    ensures n in s.dispatched <==> exists a :: Plus(EdgeSet(plan.edges), a, n) && a !in plan.hits
  {
    NoStrandedWork(plan, s);
    assert n in s.dispatched <==> n in Elems(s.dispatched);
    var r := EdgeSet(plan.edges);
    if a :| Plus(r, a, n) && a !in plan.hits {
      var c :| (a, c) in r && Reach(r, c, n);
      StepReach(r, a, c, n);
    }
    if n in s.dispatched {
      var a :| Reach(r, a, n) && a !in plan.hits;
      ReachCases(r, a, n);
    }
  }

  /** In every state of every run, a hit is ready or dispatched only on account of a dependency that is no hit. */
  lemma HitsWaitForMisses(plan: Plan, s: State, n: Node)
    requires WellFormed(plan) && Reachable(plan, s) && n in plan.hits && (n in s.ready || n in s.dispatched)
    ensures exists a :: Plus(EdgeSet(plan.edges), a, n) && a !in plan.hits
  {
    ReachableHolds(plan, s);
    var r := EdgeSet(plan.edges);
    assert n in plan.slice && n !in Promoted(plan);
    var a :| Reach(r, a, n) && a !in plan.hits;
    ReachCases(r, a, n);
  }

  lemma SettledWasDispatched(plan: Plan, s: State, n: Node)
    requires Inv(plan, s) && n in s.settled
    ensures n !in Promoted(plan) <==> n in s.dispatched
  {
    if n !in Promoted(plan) {
      NoDupLeft(s.dispatched, s.ready);
      OnePlace(plan.batch, s.dispatched, InFlight(s), s.inflight, s.received, n);
      assert Completion(n, None) in s.received;
    }
  }

  // Bounds and progress

  /** Channel capacities and the concurrency limit are never exceeded, and no send ever finds a channel full. */
  lemma WithinBounds(plan: Plan, s: State)
    requires WellFormed(plan) && Reachable(plan, s)
    ensures s.inflight == |s.queue| + |s.running| + |s.done| <= plan.batch
    ensures s.inflight == |s.dispatched| - |s.received|
    ensures MayDispatch(plan, s) ==> |s.queue| < plan.batch
    ensures forall n, e :: n in s.running ==> Enabled(plan, s, Finish(n, e))
    ensures s.queue != [] ==> Enabled(plan, s, Take)
  {
    ReachableHolds(plan, s);
    Counted(plan, s);
  }

  lemma Counted(plan: Plan, s: State)
    requires Conserved(plan.batch, s.dispatched, InFlight(s), s.inflight, s.received)
    ensures s.inflight == |s.queue| + |s.running| + |s.done| <= plan.batch
    ensures s.inflight == |s.dispatched| - |s.received|
    ensures forall n, e :: n in s.running ==> Enabled(plan, s, Finish(n, e))
    ensures s.queue != [] ==> Enabled(plan, s, Take)
  {
    Flying(s);
    forall n, e: Option<Error> | n in s.running
      ensures Enabled(plan, s, Finish(n, e))
    {
      assert s.running == (s.running - multiset{n}) + multiset{n};
    }
  }

  lemma Flying(s: State)
    ensures |InFlight(s)| == |s.queue| + |s.running| + |s.done|
  {
    NodesLength(s.done);
  }

  lemma {:induction false} NodesLength(cs: seq<Completion>)
    ensures |Nodes(cs)| == |cs|
  {
    if cs == [] {
    } else {
      NodesLength(cs[..|cs| - 1]);
    }
  }

  /** Until the driver leaves its loop, some step other than a cancellation is enabled. */
  lemma NoDeadlock(plan: Plan, s: State) returns (step: Step)
    requires WellFormed(plan) && Reachable(plan, s) && !s.phase.Exited?
    ensures !step.Cancel? && Enabled(plan, s, step)
  {
    ReachableHolds(plan, s);
    WithinBounds(plan, s);
    if s.phase.Dispatching? {
      step := if MayDispatch(plan, s) then Dispatch else Stop;
    } else if s.phase.Checking? {
      step := Check;
    } else if s.done != [] {
      step := Receive;
    } else if s.queue != [] {
      step := Take;
    } else {
      assert |s.running| > 0;
      var n :| n in s.running;
      step := Finish(n, None);
    }
  }

  /** An upper bound on the number of steps that are left. */
  function Fuel(plan: Plan, s: State): int {
    6 * (|plan.slice| - |s.dispatched|) + 5 * |s.queue| + 4 * |s.running| + 3 * |s.done|
    + (match s.phase case Checking => 2 case Dispatching => 1 case _ => 0)
    + if s.cancelled then 0 else 1
  }

  lemma FuelNeverNegative(plan: Plan, s: State)
    requires Inv(plan, s)
    ensures Fuel(plan, s) >= 0 && |s.received| <= |s.dispatched| <= |plan.slice|
  {
    NoDupLeft(s.dispatched, s.ready);
    assert Elems(s.dispatched) <= plan.slice;
    NoDupBounded(s.dispatched, plan.slice);
  }

  lemma FuelBurns(plan: Plan, s: State, step: Step)
    requires Enabled(plan, s, step)
    ensures Fuel(plan, Apply(plan, s, step)) < Fuel(plan, s)
  {
  }

  lemma {:induction false} FuelBounds(plan: Plan, s: State, steps: seq<Step>, t: State)
    requires WellFormed(plan) && Inv(plan, s) && Runs(plan, s, steps, t)
    ensures |steps| + Fuel(plan, t) <= Fuel(plan, s) && Inv(plan, t)
    decreases |steps|
  {
    if steps == [] {
    } else {
      FuelBurns(plan, s, steps[0]);
      StepKeeps(plan, s, steps[0]);
      FuelBounds(plan, Apply(plan, s, steps[0]), steps[1..], t);
    }
  }

  /** Every interleaving terminates: at most one receive per node, and a number of steps linear in the slice. */
  lemma RunsTerminate(plan: Plan, s: State, steps: seq<Step>, t: State)
    requires WellFormed(plan) && Init(plan, s) && Runs(plan, s, steps, t)
    ensures |steps| <= 6 * |plan.slice| + 2
    ensures |t.received| <= |plan.slice|
  {
    InitHolds(plan, s);
    FuelBounds(plan, s, steps, t);
    FuelNeverNegative(plan, t);
  }

  // After the first failure or a cancellation

  ghost predicate Later(s: State, t: State) {
    && (s.cancelled ==> t.cancelled)
    && (s.failed ==> t.failed)
    && (s.firstError.Some? ==> t.firstError == s.firstError)
    && s.dispatched <= t.dispatched && s.received <= t.received
    && (!Live(s) ==> t.dispatched == s.dispatched)
  }

  /** A later status of the same node: it moves only from waiting to running to an end state. */
  predicate Forward(x: Status, y: Status) {
    x == y || (x == Running && (y == Success || y == Failed))
  }

  lemma {:induction false} RunMovesOn(plan: Plan, s: State, steps: seq<Step>, t: State)
    requires Runs(plan, s, steps, t)
    ensures Later(s, t)
    decreases |steps|
  {
    if steps == [] {
    } else {
      StepMovesOn(plan, s, steps[0]);
      RunMovesOn(plan, Apply(plan, s, steps[0]), steps[1..], t);
    }
  }

  lemma StepMovesOn(plan: Plan, s: State, step: Step)
    requires Enabled(plan, s, step)
    ensures Later(s, Apply(plan, s, step))
  {
  }

  /**
   * Once a failure was received or the token fired nothing more is dispatched, the latched error is the
   * first one received, and it is what the run reports even when it was cancelled as well.
   */
  lemma FailFast(plan: Plan, s: State, steps: seq<Step>, t: State)
    requires WellFormed(plan) && Reachable(plan, s) && Runs(plan, s, steps, t)
    ensures !Live(s) ==> t.dispatched == s.dispatched
    ensures t.firstError == FirstError(t.received)
    ensures s.failed ==> s.firstError.Some? && Report(t) == Broken(s.firstError.value)
    ensures s.cancelled ==> !Report(t).Done?
    ensures Report(t).Done? <==> Live(t)
    ensures Report(t).Broken? <==> FirstError(t.received).Some?
    ensures Report(t).Cancelled? <==> t.cancelled && FirstError(t.received).None?
  {
    ReachableHolds(plan, s);
    RunMovesOn(plan, s, steps, t);
    RunKeeps(plan, s, steps, t);
  }

  // Order

  /** What becomes ready is dispatched in that order, and what is reported is received in that order. */
  ghost predicate InOrder(s: State, t: State) {
    && s.received + s.done <= t.received + t.done
    && (Live(t) ==> Live(s) && s.dispatched + s.ready <= t.dispatched + t.ready)
  }

  lemma ReceiveInOrder(plan: Plan, s: State)
    requires Enabled(plan, s, Receive)
    ensures InOrder(s, Apply(plan, s, Receive))
  {
    var t := Apply(plan, s, Receive);
    assert t.done == s.done[1..] && t.received == s.received + [s.done[0]] && t.dispatched == s.dispatched;
    assert t.received + t.done == s.received + s.done;
    if Live(t) {
      assert s.ready <= t.ready;
    }
  }

  lemma DispatchInOrder(plan: Plan, s: State)
    requires Enabled(plan, s, Dispatch)
    ensures InOrder(s, Apply(plan, s, Dispatch))
  {
    var t := Apply(plan, s, Dispatch);
    assert t.dispatched + t.ready == s.dispatched + s.ready;
  }

  lemma StepInOrder(plan: Plan, s: State, step: Step)
    requires Enabled(plan, s, step)
    ensures InOrder(s, Apply(plan, s, step))
  {
    if step.Dispatch? {
      DispatchInOrder(plan, s);
    } else if step.Receive? {
      ReceiveInOrder(plan, s);
    } else {
      var t := Apply(plan, s, step);
      assert t.received == s.received && s.done <= t.done && t.dispatched == s.dispatched;
      assert Live(t) ==> t.ready == s.ready;
    }
  }

  /** Both orders hold over every run that is not stopped, and that of the reports over every run. */
  lemma {:induction false} RunInOrder(plan: Plan, s: State, steps: seq<Step>, t: State)
    requires Runs(plan, s, steps, t)
    ensures InOrder(s, t)
    decreases |steps|
  {
    if steps == [] {
    } else {
      StepInOrder(plan, s, steps[0]);
      RunInOrder(plan, Apply(plan, s, steps[0]), steps[1..], t);
    }
  }

  /** Over a run of fresh nodes every status moves from pending to running to an end state, and never back. */
  lemma StatusNeverGoesBack(plan: Plan, s: State, steps: seq<Step>, t: State, n: Node)
    requires WellFormed(plan) && Reachable(plan, s) && Runs(plan, s, steps, t)
    requires n in plan.slice && plan.initial[n] == Pending
    ensures n in s.status && n in t.status
    ensures s.status[n] == Pending || Forward(s.status[n], t.status[n])
  {
    ReachableHolds(plan, s);
    RunKeeps(plan, s, steps, t);
    if n in Promoted(plan) || n in s.dispatched {
      StatusMovesForward(plan, s, steps, t, n);
    }
  }

  /** Within a run the status of a node that was dispatched or promoted only moves forward. */
  lemma {:induction false} StatusMovesForward(plan: Plan, s: State, steps: seq<Step>, t: State, n: Node)
    requires WellFormed(plan) && Inv(plan, s) && Runs(plan, s, steps, t)
    requires n in Promoted(plan) || n in s.dispatched
    ensures n in s.status && n in t.status && Forward(s.status[n], t.status[n])
    decreases |steps|
  {
    if steps == [] {
    } else {
      var u := Apply(plan, s, steps[0]);
      StepKeeps(plan, s, steps[0]);
      StepMovesForward(plan, s, steps[0], n);
      StatusMovesForward(plan, u, steps[1..], t, n);
    }
  }

  lemma StepMovesForward(plan: Plan, s: State, step: Step, n: Node)
    requires Inv(plan, s) && Enabled(plan, s, step)
    requires n in Promoted(plan) || n in s.dispatched
    ensures var t := Apply(plan, s, step);
            && n in s.status && n in t.status && Forward(s.status[n], t.status[n])
            && (n in s.dispatched ==> n in t.dispatched)
  {
    if step.Dispatch? {
      DispatchForward(plan, s, n);
    } else if step.Receive? {
      ReceiveForward(plan, s);
      ReceiveTouches(plan, s);
    }
  }

  lemma DispatchForward(plan: Plan, s: State, n: Node)
    requires Placed(plan, s.dispatched, s.ready, s.settled) && Enabled(plan, s, Dispatch)
    requires n in Promoted(plan) || n in s.dispatched
    ensures s.ready[0] != n
  {
    NoDupLeft(s.dispatched, s.ready);
    assert s.ready[0] in s.ready;
  }

  lemma ReceiveForward(plan: Plan, s: State)
    requires Books(plan, s) && Enabled(plan, s, Receive)
    ensures s.done[0].node in s.status && s.status[s.done[0].node] == Running
  {
    NodesFront(s.done);
    assert s.done[0].node in InFlight(s);
  }
}
