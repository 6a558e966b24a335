/**
 * One run of the execution graph as a transition system: a driver that saturates a bounded worker pool,
 * workers that complete in any order, and a cancellation token that may fire at any time.
 */
module Scheduler {
  import opened Prelude
  import opened Relations
  import opened Multigraph

  type Error = string

  datatype Status = Pending | Running | Success | Failed

  /** What the run is given: a root's slice of the graph, the cache hits and the worker count. */
  datatype Plan = Plan(slice: set<Node>, edges: Edges, hits: set<Node>, batch: nat, initial: map<Node, Status>)

  /** A worker's report: no error means that the transform succeeded. */
  datatype Completion = Completion(node: Node, error: Option<Error>)

  /** Where the driver loop stands. */
  datatype Phase =
    | Dispatching  // in the loop that feeds the pool
    | Awaiting     // blocked on the done channel
    | Checking     // a completion was processed, the token is looked at next
    | Exited       // left the loop

  /**
   * Driver variables, the two channels and the busy workers. The last three fields are history:
   * everything dispatched, everything received, and the nodes whose children were notified.
   */
  datatype State = State(
    phase: Phase,
    indegree: map<Node, nat>,
    ready: seq<Node>,
    status: map<Node, Status>,
    queue: seq<Node>,
    running: multiset<Node>,
    done: seq<Completion>,
    inflight: nat,
    failed: bool,
    firstError: Option<Error>,
    cancelled: bool,
    dispatched: seq<Node>,
    received: seq<Completion>,
    settled: set<Node>)

  datatype Step =
    | Dispatch
    | Stop
    | Receive
    | Check
    | Take
    | Finish(node: Node, error: Option<Error>)
    | Cancel

  /** What `add` guarantees about a recorded root, and what the configuration has to guarantee. */
  ghost predicate WellFormed(plan: Plan) {
    && Acyclic(EdgeSet(plan.edges))
    && PredClosed(EdgeSet(plan.edges), plan.slice)
    && plan.batch >= 1
    && plan.initial.Keys == plan.slice
  }

  // The child walk

  /** Counters after one decrement per entry of `children` that has a counter. */
  function Decremented(indegree: map<Node, nat>, children: seq<Node>): (r: map<Node, nat>)
    ensures r.Keys == indegree.Keys
  {
    if children == [] then indegree
    else
      var c := children[0];
      if c !in indegree then Decremented(indegree, children[1..])
      else Decremented(indegree[c := Minus1(indegree[c])], children[1..])
  }

  /** Nodes pushed by the walk: a node is pushed whenever a decrement leaves its counter at zero. */
  function Released(indegree: map<Node, nat>, children: seq<Node>): seq<Node> {
    if children == [] then []
    else
      var c := children[0];
      if c !in indegree then Released(indegree, children[1..])
      else
        var d := Minus1(indegree[c]);
        (if d == 0 then [c] else []) + Released(indegree[c := d], children[1..])
  }

  /** Saturating decrement. */
  function Minus1(d: nat): nat {
    if d == 0 then 0 else d - 1
  }

  ghost predicate Ample(indegree: map<Node, nat>, children: seq<Node>) {
    forall n :: n in indegree ==> multiset(children)[n] <= indegree[n]
  }

  lemma AmpleRest(indegree: map<Node, nat>, children: seq<Node>)
    requires children != [] && Ample(indegree, children)
    ensures var c, rest := children[0], children[1..];
            && (forall n :: multiset(children)[n] == multiset(rest)[n] + if n == c then 1 else 0)
            && (c !in indegree ==> Ample(indegree, rest))
            && (c in indegree ==> indegree[c] > 0 && Ample(indegree[c := Minus1(indegree[c])], rest))
  {
    assert children == [children[0]] + children[1..];
    assert multiset(children)[children[0]] >= 1;
  }

  lemma {:induction false} WalkSubtracts(indegree: map<Node, nat>, children: seq<Node>)
    requires Ample(indegree, children)
    ensures forall n :: n in indegree ==> Decremented(indegree, children)[n] == indegree[n] - multiset(children)[n]
  {
    if children == [] {
    } else {
      AmpleRest(indegree, children);
      var c, rest := children[0], children[1..];
      WalkSubtracts(if c in indegree then indegree[c := Minus1(indegree[c])] else indegree, rest);
    }
  }

  lemma {:induction false} WalkReleases(indegree: map<Node, nat>, children: seq<Node>)
    requires Ample(indegree, children)
    ensures NoDup(Released(indegree, children))
    ensures forall n :: n in Released(indegree, children) <==>
              n in indegree && n in children && indegree[n] == multiset(children)[n]
  {
    if children == [] {
    } else {
      AmpleRest(indegree, children);
      var c, rest := children[0], children[1..];
      assert children == [c] + rest && forall n :: n in rest <==> multiset(rest)[n] > 0;
      WalkReleases(if c in indegree then indegree[c := Minus1(indegree[c])] else indegree, rest);
    }
  }

  /**
   * While no counter is smaller than the number of its decrements, the walk subtracts exactly and pushes
   * exactly the nodes whose counter runs out, each once.
   */
  lemma WalkIsExact(indegree: map<Node, nat>, children: seq<Node>)
    requires forall n :: n in indegree ==> multiset(children)[n] <= indegree[n]
    ensures forall n :: n in indegree ==> Decremented(indegree, children)[n] == indegree[n] - multiset(children)[n]
    ensures NoDup(Released(indegree, children))
    ensures forall n :: n in Released(indegree, children) <==>
              n in indegree && n in children && indegree[n] == multiset(children)[n]
  {
    WalkSubtracts(indegree, children);
    WalkReleases(indegree, children);
  }

  // Transitions

  /** Nodes reported by a sequence of completions. */
  function Nodes(cs: seq<Completion>): seq<Node> {
    if cs == [] then [] else Nodes(cs[..|cs| - 1]) + [cs[|cs| - 1].node]
  }

  /** Dispatched and not yet received. */
  function InFlight(s: State): multiset<Node> {
    multiset(s.queue) + s.running + multiset(Nodes(s.done))
  }

  predicate MayDispatch(plan: Plan, s: State) {
    s.ready != [] && s.inflight < plan.batch && !s.failed && !s.cancelled
  }

  predicate Enabled(plan: Plan, s: State, step: Step) {
    match step
    case Dispatch => s.phase.Dispatching? && MayDispatch(plan, s)
    case Stop => s.phase.Dispatching? && !MayDispatch(plan, s)
    case Receive => s.phase.Awaiting? && s.done != [] && s.inflight > 0
    case Check => s.phase.Checking?
    case Take => s.queue != [] && |s.running| < plan.batch
    case Finish(n, _) => n in s.running && |s.done| < plan.batch
    case Cancel => !s.cancelled
  }

  function Apply(plan: Plan, s: State, step: Step): State
    requires Enabled(plan, s, step)
  {
    match step
    case Dispatch =>
      var n := s.ready[0];
      s.(ready := s.ready[1..], status := s.status[n := Running], queue := s.queue + [n],
         inflight := s.inflight + 1, dispatched := s.dispatched + [n])
    case Stop => s.(phase := if s.inflight == 0 then Exited else Awaiting)
    case Receive => ReceiveOne(plan, s)
    case Check => s.(phase := Dispatching, ready := if s.cancelled then [] else s.ready)
    case Take => s.(queue := s.queue[1..], running := s.running + multiset{s.queue[0]})
    case Finish(n, e) => s.(running := s.running - multiset{n}, done := s.done + [Completion(n, e)])
    case Cancel => s.(cancelled := true)
  }

  function ReceiveOne(plan: Plan, s: State): State
    requires s.done != [] && s.inflight > 0
  {
    var c := s.done[0];
    var children := Children(plan.edges, c.node);
    if c.error.Some? then
      s.(phase := Checking, done := s.done[1..], inflight := s.inflight - 1, received := s.received + [c],
         status := s.status[c.node := Failed],
         firstError := if s.firstError.None? then c.error else s.firstError, failed := true, ready := [])
    else if s.failed || s.cancelled then
      s.(phase := Checking, done := s.done[1..], inflight := s.inflight - 1, received := s.received + [c],
         status := s.status[c.node := Success])
    else
      s.(phase := Checking, done := s.done[1..], inflight := s.inflight - 1, received := s.received + [c],
         status := s.status[c.node := Success],
         indegree := Decremented(s.indegree, children), ready := s.ready + Released(s.indegree, children),
         settled := s.settled + {c.node})
  }

  /** `steps` leads from `s` to `t`. */
  ghost predicate Runs(plan: Plan, s: State, steps: seq<Step>, t: State)
    decreases |steps|
  {
    if steps == [] then s == t
    else Enabled(plan, s, steps[0]) && Runs(plan, Apply(plan, s, steps[0]), steps[1..], t)
  }

  // The cache-hit cascade, as what it has to achieve

  /** A cache hit all of whose transitive dependencies are cache hits. */
  ghost predicate AllHits(plan: Plan, n: Node) {
    forall a :: Reach(EdgeSet(plan.edges), a, n) ==> a in plan.hits
  }

  ghost function Promoted(plan: Plan): set<Node> {
    set n | n in plan.slice && AllHits(plan, n)
  }

  ghost predicate CountersRight(plan: Plan, indegree: map<Node, nat>, settled: set<Node>) {
    indegree.Keys == plan.slice && forall n :: n in plan.slice ==> indegree[n] == Waiting(plan.edges, settled, n)
  }

  /** The state in which the driver loop starts. */
  ghost predicate Init(plan: Plan, s: State) {
    && s.phase.Dispatching? && s.queue == [] && s.running == multiset{} && s.done == [] && s.inflight == 0
    && !s.failed && s.firstError.None? && s.dispatched == [] && s.received == []
    && s.settled == Promoted(plan)
    && CountersRight(plan, s.indegree, s.settled)
    && NoDup(s.ready)
    && (forall n :: n in s.ready <==> n in plan.slice && n !in s.settled && s.indegree[n] == 0)
    && s.status.Keys == plan.slice == plan.initial.Keys
    && forall n :: n in plan.slice ==> s.status[n] == if n in s.settled then Success else plan.initial[n]
  }

  ghost predicate Reachable(plan: Plan, s: State) {
    exists s0, steps :: Init(plan, s0) && Runs(plan, s0, steps, s)
  }

  // The invariant

  /** Conservation: what was dispatched is queued, running, reported or received, each exactly once. */
  ghost predicate Conserved(batch: nat, dispatched: seq<Node>, flying: multiset<Node>, inflight: nat, received: seq<Completion>) {
    && multiset(dispatched) == flying + multiset(Nodes(received))
    && inflight == |flying| <= batch
    && |dispatched| == inflight + |received|
  }

  /** Nodes are dispatched or waiting at most once, and only when nothing holds them back. */
  ghost predicate Placed(plan: Plan, dispatched: seq<Node>, ready: seq<Node>, settled: set<Node>) {
    && NoDup(dispatched + ready)
    && forall n :: n in dispatched || n in ready ==>
         n in plan.slice && n !in Promoted(plan) && Waiting(plan.edges, settled, n) == 0
  }

  /** The settled nodes are the promoted ones and, while the run is live, all successful ones. */
  ghost predicate SettledRight(plan: Plan, settled: set<Node>, received: seq<Completion>, live: bool) {
    && Promoted(plan) <= settled <= plan.slice
    && (forall n :: n in settled ==> n in Promoted(plan) || Completion(n, None) in received)
    && (live ==> forall n :: Completion(n, None) in received ==> n in settled)
  }

  ghost predicate StatusRight(
    plan: Plan, status: map<Node, Status>, dispatched: seq<Node>, flying: multiset<Node>, received: seq<Completion>)
  {
    && status.Keys == plan.slice == plan.initial.Keys
    && (forall n :: n in flying ==> n in status && status[n] == Running)
    && (forall n :: n in Promoted(plan) ==> n in status && status[n] == Success)
    && (forall c :: c in received ==> c.node in status && status[c.node] == if c.error.None? then Success else Failed)
    && forall n :: n in plan.slice && n !in dispatched && n !in Promoted(plan) ==> status[n] == plan.initial[n]
  }

  /** The first error among the completions. */
  function FirstError(cs: seq<Completion>): Option<Error> {
    if cs == [] then None
    else
      var e := FirstError(cs[..|cs| - 1]);
      if e.Some? then e else cs[|cs| - 1].error
  }

  ghost predicate FailureRight(received: seq<Completion>, firstError: Option<Error>, failed: bool, ready: seq<Node>) {
    firstError == FirstError(received) && (failed <==> firstError.Some?) && (failed ==> ready == [])
  }

  /** Nothing that could run is overlooked while the run is live. */
  ghost predicate NothingStranded(plan: Plan, live: bool, settled: set<Node>, dispatched: seq<Node>, ready: seq<Node>) {
    live ==>
      forall n :: n in plan.slice && Waiting(plan.edges, settled, n) == 0 ==>
        n in Promoted(plan) || n in dispatched || n in ready
  }

  ghost predicate PhaseRight(phase: Phase, inflight: nat, live: bool, ready: seq<Node>) {
    && (phase.Awaiting? ==> inflight > 0)
    && (phase.Exited? ==> inflight == 0 && (live ==> ready == []))
  }

  /** No failure was received and the token did not fire. */
  predicate Live(s: State) {
    !s.failed && !s.cancelled
  }

  /** Accounts of what was dispatched and where it is. */
  ghost predicate Books(plan: Plan, s: State) {
    && Conserved(plan.batch, s.dispatched, InFlight(s), s.inflight, s.received)
    && StatusRight(plan, s.status, s.dispatched, InFlight(s), s.received)
  }

  /** What may run next and what held it back. */
  ghost predicate Frontier(plan: Plan, s: State) {
    && Placed(plan, s.dispatched, s.ready, s.settled)
    && CountersRight(plan, s.indegree, s.settled)
    && SettledRight(plan, s.settled, s.received, Live(s))
    && NothingStranded(plan, Live(s), s.settled, s.dispatched, s.ready)
  }

  /** The driver's flags. */
  ghost predicate Flags(s: State) {
    && FailureRight(s.received, s.firstError, s.failed, s.ready)
    && PhaseRight(s.phase, s.inflight, Live(s), s.ready)
  }

  ghost predicate Inv(plan: Plan, s: State) {
    Books(plan, s) && Frontier(plan, s) && Flags(s)
  }
}
