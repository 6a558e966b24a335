/** The driver loop of `run` with its worker pool; every action is a step of the transition system. */
module Engine {
  import opened Prelude
  import opened Multigraph
  import opened Scheduler
  import opened SchedulerInvariant
  import opened SchedulerTheorems
  import opened Driver

  lemma {:induction false} RunsOneMore(plan: Plan, s: State, steps: seq<Step>, t: State, step: Step)
    requires Runs(plan, s, steps, t) && Enabled(plan, t, step)
    ensures Runs(plan, s, steps + [step], Apply(plan, t, step))
    decreases |steps|
  {
    if steps != [] {
      assert (steps + [step])[1..] == steps[1..] + [step];
      RunsOneMore(plan, Apply(plan, s, steps[0]), steps[1..], t, step);
    } else {
      assert Runs(plan, Apply(plan, t, step), [], Apply(plan, t, step));
      assert (steps + [step])[1..] == [];
    }
  }

  lemma ReachableNext(plan: Plan, s: State, step: Step)
    requires Reachable(plan, s) && Enabled(plan, s, step)
    ensures Reachable(plan, Apply(plan, s, step))
  {
    var s0, steps :| Init(plan, s0) && Runs(plan, s0, steps, s);
    RunsOneMore(plan, s0, steps, s, step);
  }

  lemma FuelLeft(plan: Plan, s: State)
    requires WellFormed(plan) && Reachable(plan, s)
    ensures Fuel(plan, s) >= 0
  {
    ReachableHolds(plan, s);
    FuelNeverNegative(plan, s);
  }

  /** The driver's variables after one completion, in the order in which the loop body changes them. */
  method ReceiveCompletion(plan: Plan, s: State) returns (t: State)
    requires Enabled(plan, s, Receive)
    ensures t == Apply(plan, s, Receive)
  {
    var c := s.done[0];
    var indegree, ready, settled := s.indegree, s.ready, s.settled;
    var status, failed, firstError := s.status, s.failed, s.firstError;
    match c.error {
      case None =>
        status := status[c.node := Success];
        if !failed && !s.cancelled {
          indegree, ready := Walk(indegree, Children(plan.edges, c.node), ready);
          settled := settled + {c.node};
        }
      case Some(e) =>
        status := status[c.node := Failed];
        if firstError.None? {
          firstError := Some(e);
        }
        failed := true;
        ready := [];
    }
    t := State(Checking, indegree, ready, status, s.queue, s.running, s.done[1..], s.inflight - 1, failed, firstError,
               s.cancelled, s.dispatched, s.received + [c], settled);
  }

  /** Nothing of the driver's own state changed, only the pool moved or the token fired. */
  ghost predicate PoolMoved(s: State, t: State) {
    && t.phase == s.phase && t.dispatched == s.dispatched && t.ready == s.ready && t.inflight == s.inflight
    && t.failed == s.failed && t.firstError == s.firstError && t.status == s.status && t.received == s.received
    && (s.cancelled ==> t.cancelled)
    && s.done <= t.done
  }

  lemma PoolStepMoves(plan: Plan, s: State, step: Step)
    requires Enabled(plan, s, step) && (step.Take? || step.Finish? || step.Cancel?)
    ensures PoolMoved(s, Apply(plan, s, step))
  {
  }

  // The environment

  /**
   * What the driver does not decide: what running each transform results in, and at which moments somebody fires
   * the token. Moments are counted in the order in which the driver and the pool take turns.
   */
  datatype Environment = Environment(result: Node -> Option<Error>, token: nat -> bool)

  /** The token was fired before the run or at a moment that has passed. */
  ghost predicate Fired(env: Environment, cancelled: bool, now: nat) {
    cancelled || exists k: nat :: k < now && env.token(k)
  }

  /** The token is cancelled if and only if it was fired, and every report is the result of its transform. */
  ghost predicate Obeys(env: Environment, cancelled: bool, now: nat, s: State) {
    && (s.cancelled <==> Fired(env, cancelled, now))
    && forall c :: c in s.done || c in s.received ==> c.error == env.result(c.node)
  }

  /** What the driver itself does leaves the token and the results alone. */
  lemma DriverObeys(plan: Plan, env: Environment, cancelled: bool, now: nat, s: State, step: Step)
    requires Obeys(env, cancelled, now, s) && Enabled(plan, s, step)
    requires step.Dispatch? || step.Stop? || step.Receive? || step.Check?
    ensures Obeys(env, cancelled, now, Apply(plan, s, step))
  {
    if step.Receive? {
      ReceiveTouches(plan, s);
      var t := Apply(plan, s, Receive);
      assert s.done == [s.done[0]] + t.done;
      assert forall c :: c in t.done || c in t.received ==> c in s.done || c in s.received;
    }
  }

  lemma WorkerObeys(plan: Plan, env: Environment, cancelled: bool, now: nat, s: State, step: Step)
    requires Obeys(env, cancelled, now, s) && Enabled(plan, s, step)
    requires step.Take? || (step.Finish? && step.error == env.result(step.node))
    ensures Obeys(env, cancelled, now, Apply(plan, s, step))
  {
    if step.Finish? {
      assert forall c :: c in Apply(plan, s, step).done ==> c in s.done || c == Completion(step.node, step.error);
    }
  }

  /** A moment passes, and with it the chance to fire the token. */
  lemma MomentPasses(env: Environment, cancelled: bool, now: nat)
    ensures Fired(env, cancelled, now + 1) <==> Fired(env, cancelled, now) || env.token(now)
  {
    if env.token(now) {
      assert now < now + 1;
    }
    if k: nat :| k < now + 1 && env.token(k) && k != now {
      assert k < now;
    }
  }

  /** The state of a run that has gone on for some time in an environment. */
  ghost predicate Going(plan: Plan, env: Environment, cancelled: bool, now: nat, s: State) {
    WellFormed(plan) && Reachable(plan, s) && Obeys(env, cancelled, now, s)
  }

  /** A step of some worker, if any is left to happen. */
  method ChooseStep(plan: Plan, env: Environment, s: State) returns (step: Option<Step>)
    requires WellFormed(plan) && Reachable(plan, s)
    ensures step.Some? ==>
              Enabled(plan, s, step.value) &&
              (step.value.Take? || (step.value.Finish? && step.value.error == env.result(step.value.node)))
    ensures step.None? ==> s.queue == [] && s.running == multiset{}
  {
    WithinBounds(plan, s);
    if {
      case s.queue != [] =>
        step := Some(Take);
      case s.running != multiset{} =>
        var n :| n in s.running;
        step := Some(Finish(n, env.result(n)));
      case s.queue == [] && s.running == multiset{} =>
        step := None;
    }
  }

  /** Some worker moves, if it can. */
  method WorkerStep(plan: Plan, env: Environment, ghost cancelled: bool, ghost now: nat, s: State) returns (t: State, moved: bool)
    requires Going(plan, env, cancelled, now, s)
    ensures Going(plan, env, cancelled, now, t) && PoolMoved(s, t)
    ensures if moved then Fuel(plan, t) < Fuel(plan, s) else t == s
    ensures s.done == [] && s.inflight > 0 ==> moved
  {
    var step := ChooseStep(plan, env, s);
    if step.None? {
      WithinBounds(plan, s);
      return s, false;
    }
    ReachableNext(plan, s, step.value);
    FuelBurns(plan, s, step.value);
    PoolStepMoves(plan, s, step.value);
    WorkerObeys(plan, env, cancelled, now, s, step.value);
    t, moved := Apply(plan, s, step.value), true;
  }

  /** One moment: the token is fired if the environment fires it now. */
  method TokenStep(plan: Plan, env: Environment, ghost cancelled: bool, now: nat, s: State) returns (t: State)
    requires Going(plan, env, cancelled, now, s)
    ensures Going(plan, env, cancelled, now + 1, t) && PoolMoved(s, t) && t.done == s.done && Fuel(plan, t) <= Fuel(plan, s)
  {
    MomentPasses(env, cancelled, now);
    t := s;
    if env.token(now) && !s.cancelled {
      ReachableNext(plan, s, Cancel);
      FuelBurns(plan, s, Cancel);
      t := s.(cancelled := true);
    }
  }

  /** Some moments pass and workers move in them; the driver, if it has to wait, gets a completion. */
  method Pool(plan: Plan, env: Environment, ghost cancelled: bool, now: nat, s: State, wait: bool) returns (t: State, later: nat)
    requires Going(plan, env, cancelled, now, s) && (wait ==> s.inflight > 0)
    ensures Going(plan, env, cancelled, later, t) && PoolMoved(s, t) && Fuel(plan, t) <= Fuel(plan, s)
    ensures wait ==> t.done != []
  {
    t, later := s, now;
    var more := *;
    while more || (wait && t.done == [])
      invariant Going(plan, env, cancelled, later, t) && PoolMoved(s, t) && Fuel(plan, t) <= Fuel(plan, s)
      decreases Fuel(plan, t), more
    {
      FuelLeft(plan, t);
      t, more := PoolMoment(plan, env, cancelled, later, t);
      later := later + 1;
    }
  }

  method PoolMoment(plan: Plan, env: Environment, ghost cancelled: bool, now: nat, s: State) returns (t: State, more: bool)
    requires Going(plan, env, cancelled, now, s)
    ensures Going(plan, env, cancelled, now + 1, t) && PoolMoved(s, t) && Fuel(plan, t) <= Fuel(plan, s)
    ensures Fuel(plan, t) < Fuel(plan, s) || !more
    ensures s.done == [] && s.inflight > 0 ==> Fuel(plan, t) < Fuel(plan, s)
  {
    var fired := TokenStep(plan, env, cancelled, now, s);
    var moved;
    t, moved := WorkerStep(plan, env, cancelled, now + 1, fired);
    more := *;
    if !moved {
      more := false;
    }
  }

  lemma DriverGoes(plan: Plan, env: Environment, cancelled: bool, now: nat, s: State, step: Step)
    requires Going(plan, env, cancelled, now, s) && Enabled(plan, s, step)
    requires step.Dispatch? || step.Stop? || step.Receive? || step.Check?
    ensures Going(plan, env, cancelled, now, Apply(plan, s, step)) && Fuel(plan, Apply(plan, s, step)) < Fuel(plan, s)
  {
    ReachableNext(plan, s, step);
    FuelBurns(plan, s, step);
    DriverObeys(plan, env, cancelled, now, s, step);
  }

  /** Takes the first ready node, marks it as running and sends it to the pool. */
  method DispatchOne(plan: Plan, env: Environment, ghost cancelled: bool, ghost now: nat, s: State) returns (t: State)
    requires Going(plan, env, cancelled, now, s) && s.phase.Dispatching? && MayDispatch(plan, s)
    ensures Going(plan, env, cancelled, now, t) && t.phase.Dispatching? && Fuel(plan, t) < Fuel(plan, s)
  {
    DriverGoes(plan, env, cancelled, now, s, Dispatch);
    var n := s.ready[0];
    t := s.(ready := s.ready[1..], status := s.status[n := Running], queue := s.queue + [n],
            inflight := s.inflight + 1, dispatched := s.dispatched + [n]);
  }

  /** The inner loop: feed the pool until nothing is ready, the pool is full, or the run has to stop. */
  method Saturate(plan: Plan, env: Environment, ghost cancelled: bool, now: nat, s: State) returns (t: State, later: nat)
    requires Going(plan, env, cancelled, now, s) && s.phase.Dispatching?
    ensures Going(plan, env, cancelled, later, t) && t.phase.Dispatching?
    ensures !MayDispatch(plan, t) && Fuel(plan, t) <= Fuel(plan, s)
  {
    t, later := s, now;
    while MayDispatch(plan, t)
      invariant Going(plan, env, cancelled, later, t) && t.phase.Dispatching? && Fuel(plan, t) <= Fuel(plan, s)
      decreases Fuel(plan, t)
    {
      FuelLeft(plan, t);
      t := DispatchOne(plan, env, cancelled, later, t);
      t, later := Pool(plan, env, cancelled, later, t, false);
    }
  }

  /** One turn of the driver loop; `exit` says that nothing was in flight. */
  method Turn(plan: Plan, env: Environment, ghost cancelled: bool, now: nat, s: State)
    returns (t: State, later: nat, exit: bool)
    requires Going(plan, env, cancelled, now, s) && s.phase.Dispatching?
    ensures Going(plan, env, cancelled, later, t) && Fuel(plan, s) >= 0 && Fuel(plan, t) < Fuel(plan, s)
    ensures if exit then t.phase.Exited? else t.phase.Dispatching?
  {
    FuelLeft(plan, s);
    t, later := Saturate(plan, env, cancelled, now, s);
    exit := t.inflight == 0;
    DriverGoes(plan, env, cancelled, later, t, Stop);
    t := t.(phase := if exit then Exited else Awaiting);
    if exit {
      return;
    }
    t, later := Await(plan, env, cancelled, later, t);
  }

  /** Waits for one completion, processes it and looks at the token. */
  method Await(plan: Plan, env: Environment, ghost cancelled: bool, now: nat, s: State) returns (t: State, later: nat)
    requires Going(plan, env, cancelled, now, s) && s.phase.Awaiting? && s.inflight > 0
    ensures Going(plan, env, cancelled, later, t) && Fuel(plan, t) < Fuel(plan, s) && t.phase.Dispatching?
  {
    t, later := Pool(plan, env, cancelled, now, s, true);
    t := Receiving(plan, env, cancelled, later, t);
    t, later := Pool(plan, env, cancelled, later, t, false);
    t := Checked(plan, env, cancelled, later, t);
  }

  method Receiving(plan: Plan, env: Environment, ghost cancelled: bool, ghost now: nat, s: State) returns (t: State)
    requires Going(plan, env, cancelled, now, s) && Enabled(plan, s, Receive)
    ensures Going(plan, env, cancelled, now, t) && Fuel(plan, t) < Fuel(plan, s) && t.phase.Checking?
  {
    DriverGoes(plan, env, cancelled, now, s, Receive);
    t := ReceiveCompletion(plan, s);
  }

  /** The look at the token at the end of the loop body. */
  method Checked(plan: Plan, env: Environment, ghost cancelled: bool, ghost now: nat, s: State) returns (t: State)
    requires Going(plan, env, cancelled, now, s) && s.phase.Checking?
    ensures Going(plan, env, cancelled, now, t) && Fuel(plan, t) < Fuel(plan, s) && t.phase.Dispatching?
  {
    DriverGoes(plan, env, cancelled, now, s, Check);
    t := s.(phase := Dispatching, ready := if s.cancelled then [] else s.ready);
  }

  /** The driver loop; cancellation may still come while the workers are joined. */
  method Drive(plan: Plan, env: Environment, ghost cancelled: bool, s: State) returns (t: State, later: nat)
    requires Going(plan, env, cancelled, 0, s) && s.phase.Dispatching?
    ensures Going(plan, env, cancelled, later, t) && t.phase.Exited?
  {
    t, later := s, 0;
    var exit := false;
    while !exit
      invariant Going(plan, env, cancelled, later, t)
      invariant if exit then t.phase.Exited? else t.phase.Dispatching?
      decreases !exit, Fuel(plan, t)
    {
      t, later, exit := Turn(plan, env, cancelled, later, t);
    }
    t, later := Pool(plan, env, cancelled, later, t, false);
  }

  // What a run reports

  /** The report, read off the environment and what was dispatched. */
  ghost predicate ReportsRight(env: Environment, cancelled: bool, now: nat, t: State, outcome: Outcome) {
    && (outcome.Broken? <==> exists n :: n in t.dispatched && env.result(n).Some?)
    && (outcome.Broken? ==> exists n :: n in t.dispatched && env.result(n) == Some(outcome.error))
    && (outcome.Cancelled? <==> Fired(env, cancelled, now) && forall n :: n in t.dispatched ==> env.result(n).None?)
  }

  lemma ExitReports(plan: Plan, env: Environment, cancelled: bool, now: nat, t: State)
    requires Going(plan, env, cancelled, now, t) && t.phase.Exited?
    ensures ReportsRight(env, cancelled, now, t, Report(t))
  {
    ReachableHolds(plan, t);
    forall n | n in t.dispatched
      ensures Completion(n, env.result(n)) in t.received
    {
      AllReceived(plan, t, n);
      var c := FindCompletion(t.received, n);
      assert c == Completion(n, c.error);
    }
    forall c | c in t.received
      ensures c.node in t.dispatched
    {
      ReceivedWasDispatched(plan, t, c);
    }
    ErrorIsFirst(t.received);
    if forall c :: c in t.received ==> c.error.None? {
      assert t.firstError.None?;
    }
  }

  lemma AllReceived(plan: Plan, t: State, n: Node)
    requires Inv(plan, t) && t.phase.Exited? && n in t.dispatched
    ensures n in Nodes(t.received)
  {
    assert n in multiset(t.dispatched) && n !in InFlight(t);
  }

  lemma ReceivedWasDispatched(plan: Plan, t: State, c: Completion)
    requires Inv(plan, t) && c in t.received
    ensures c.node in t.dispatched
  {
    NodesMember(t.received, c);
    assert c.node in multiset(t.dispatched);
  }

  lemma {:induction false} ErrorIsFirst(cs: seq<Completion>)
    ensures FirstError(cs).Some? <==> exists c :: c in cs && c.error.Some?
    ensures FirstError(cs).Some? ==> exists c :: c in cs && c.error == FirstError(cs)
  {
    if cs == [] {
    } else {
      var k := |cs| - 1;
      ErrorIsFirst(cs[..k]);
      assert cs == cs[..k] + [cs[k]] && cs[k] in cs;
    }
  }

  /**
   * `run` for a root that was recorded by `add`: nothing to do for a cache hit, otherwise the cascade, the
   * driver loop and the report. It terminates under every behaviour of workers and token, and it reports what
   * they did: the failure of a dispatched transform, a cancellation by somebody else, or success.
   */
  method RunRoot(plan: Plan, env: Environment, root: Node, template: map<Node, nat>, cancelled: bool)
    returns (outcome: Outcome, t: State, later: nat)
    requires WellFormed(plan) && CountersRight(plan, template, {}) && root in plan.slice
    ensures root in plan.hits ==> outcome.Done? && t.dispatched == []
    ensures root !in plan.hits ==> Going(plan, env, cancelled, later, t) && t.phase.Exited? && outcome == Report(t)
    ensures root !in plan.hits ==> ReportsRight(env, cancelled, later, t, outcome)
    ensures root !in plan.hits && outcome.Done? ==>
              && (forall n :: n in plan.slice ==> n in t.status && t.status[n] == Success)
              && Elems(t.dispatched) == plan.slice - Promoted(plan)
    ensures Undisturbed(plan, env, cancelled) ==> outcome.Done?
  {
    if root in plan.hits {
      return Done, Start(template, [], plan.initial, {}, cancelled), 0;
    }
    var indegree, ready, status, up := Cascade(plan, template);
    t := Start(indegree, ready, status, up, cancelled);
    assert Runs(plan, t, [], t);
    t, later := Drive(plan, env, cancelled, t);
    outcome := Report(t);
    ExitReports(plan, env, cancelled, later, t);
    DispatchedInOrder(plan, t);
    if outcome.Done? {
      NoStrandedWork(plan, t);
    }
  }

  /** Nobody fires the token, and every transform of the slice succeeds. */
  ghost predicate Undisturbed(plan: Plan, env: Environment, cancelled: bool) {
    !cancelled && (forall k: nat :: !env.token(k)) && forall n :: n in plan.slice ==> env.result(n).None?
  }
}
