/** A build from its registered transforms to its report: graph construction and run in one. */
module Schedule {
  import opened Prelude
  import opened Relations
  import opened Multigraph
  import opened GraphBuild
  import opened Scheduler
  import opened SchedulerTheorems
  import opened Engine
  import Driver

  /** What the graph records about a root is what a run needs. */
  lemma RecordedRoot(edges: Edges, root: Node, slice: set<Node>, template: map<Node, nat>, plan: Plan)
    requires Acyclic(EdgeSet(edges)) && IsSlice(edges, root, slice) && IsTemplate(edges, slice, template)
    requires plan.edges == edges && plan.slice == slice && plan.batch >= 1 && plan.initial.Keys == slice
    ensures WellFormed(plan) && CountersRight(plan, template, {}) && root in slice
  {
    forall u, v | (u, v) in EdgeSet(edges) && v in slice
      ensures u in slice
    {
      StepReach(EdgeSet(edges), u, v, root);
    }
    forall n | n in slice
      ensures template[n] == Waiting(edges, {}, n)
    {
      WaitingNobody(edges, n);
    }
    ReachRefl(EdgeSet(edges), root);
  }

  /** Everything that the recorded edges lead from has succeeded. */
  ghost predicate SliceSucceeded(edges: Edges, root: Node, status: map<Node, Status>) {
    forall n :: Reach(EdgeSet(edges), n, root) ==> n in status && status[n] == Success
  }

  /** Everything that the address declares to depend on, directly or not, has succeeded. */
  ghost predicate ClosureSucceeded(reg: Registry, index: map<Addr, Node>, addr: Addr, status: map<Node, Status>) {
    forall a :: Reach(Depends(reg), a, addr) ==> a in index && index[a] in status && status[index[a]] == Success
  }

  /** Nobody fires the token, and every transform succeeds. */
  ghost predicate Quiet(env: Environment, cancelled: bool) {
    !cancelled && (forall k: nat :: !env.token(k)) && forall n :: env.result(n).None?
  }

  /** A run of a recorded root, with fresh nodes. */
  function PlanOf(edges: Edges, slice: set<Node>, hits: set<Node>, batch: nat): Plan {
    Plan(slice, edges, hits, batch, map n | n in slice :: Pending)
  }

  /** Unless the root is cached, outcome and statuses are those of a complete run of the plan. */
  ghost predicate RanAs(plan: Plan, root: Node, outcome: Outcome, status: map<Node, Status>, t: State) {
    root !in plan.hits ==> Reachable(plan, t) && t.phase.Exited? && outcome == Report(t) && status == t.status
  }

  /** Runs a recorded root with fresh nodes. */
  method RunRecorded(
    edges: Edges, root: Node, slice: set<Node>, template: map<Node, nat>, hits: set<Node>, batch: nat, env: Environment,
    cancelled: bool)
    returns (outcome: Outcome, status: map<Node, Status>, ghost t: State)
    requires Acyclic(EdgeSet(edges)) && IsSlice(edges, root, slice) && IsTemplate(edges, slice, template) && batch >= 1
    ensures RanAs(PlanOf(edges, slice, hits, batch), root, outcome, status, t)
    ensures root in hits || Quiet(env, cancelled) ==> outcome.Done?
    ensures outcome.Done? && root !in hits ==> SliceSucceeded(edges, root, status)
    ensures outcome.Cancelled? ==> cancelled || exists k: nat :: env.token(k)
    ensures outcome.Broken? ==> exists n :: n in slice && env.result(n) == Some(outcome.error)
  {
    var plan := PlanOf(edges, slice, hits, batch);
    RecordedRoot(edges, root, slice, template, plan);
    var end, later;
    outcome, end, later := RunRoot(plan, env, root, template, cancelled);
    status, t := end.status, end;
    if root !in hits {
      DispatchedInOrder(plan, end);
    }
  }

  /**
   * `add` followed by `run`, after any history of insertions. When it reports success and the target was not cached,
   * the recorded slice of the target has succeeded. If all insertions so far were successful, that is everything
   * the target declares to depend on, and the build is refused exactly when a dependency is missing or circular.
   */
  method BuildTarget(g: Graph, reg: Registry, addr: Addr, hits: set<Node>, batch: nat, env: Environment, cancelled: bool)
    returns (r: Result<Outcome, GraphError>, status: map<Node, Status>, ghost t: State)
    requires g.Recorded(reg) && batch >= 1
    modifies g
    ensures g.Recorded(reg) && (r.Ok? ==> addr in g.index)
    ensures r.Err? <==> !Buildable(Cut(reg, old(g.index.Keys)), addr)
    ensures r.Ok? ==> addr in g.subgraphs &&
                      RanAs(PlanOf(g.edges, g.subgraphs[addr], hits, batch), g.index[addr], r.value, status, t)
    ensures r.Ok? && (g.index[addr] in hits || Quiet(env, cancelled)) ==> r == Ok(Done)
    ensures r == Ok(Done) && g.index[addr] !in hits ==> SliceSucceeded(g.edges, g.index[addr], status)
    ensures old(g.Valid(reg)) ==> (r.Err? <==> !Buildable(reg, addr)) && (r.Ok? ==> g.Valid(reg))
    ensures old(g.Valid(reg)) && r == Ok(Done) && g.index[addr] !in hits ==> ClosureSucceeded(reg, g.index, addr, status)
  {
    status := map[];
    var idx := g.Add(reg, addr);
    if idx.Err? {
      return Err(idx.error), status, Driver.Start(map[], [], map[], {}, cancelled);
    }
    var outcome;
    outcome, status, t := RunRecorded(g.edges, idx.value, g.subgraphs[addr], g.indegrees[addr], hits, batch, env, cancelled);
    if old(g.Valid(reg)) {
      SliceIsClosure(reg, g.nodes, g.edges, g.index, addr, g.subgraphs[addr]);
    }
    r := Ok(outcome);
  }

  /**
   * After a failed insertion the same target can be run: success is then about the half-wired slice, and the target
   * is not buildable all the same.
   */
  method BuildAfterFailure(g: Graph, reg: Registry, addr: Addr, hits: set<Node>, batch: nat, env: Environment, cancelled: bool)
    returns (first: Result<Node, GraphError>, second: Result<Outcome, GraphError>, status: map<Node, Status>)
    requires g.Valid(reg) && addr in reg && !Buildable(reg, addr) && batch >= 1
    modifies g
    ensures first.Err? && second.Ok? && addr in g.index
    ensures second == Ok(Done) && g.index[addr] !in hits ==> SliceSucceeded(g.edges, g.index[addr], status)
    ensures exists a :: Reach(Depends(reg), a, addr) && (a !in reg || Plus(Depends(reg), a, a))
  {
    first := g.Add(reg, addr);
    AlreadyInserted(reg, g.nodes, g.edges, g.index, addr);
    ghost var t;
    second, status, t := BuildTarget(g, reg, addr, hits, batch, env, cancelled);
  }

  /** What is inserted is taken for granted. */
  lemma AlreadyInserted(reg: Registry, nodes: seq<Addr>, edges: Edges, index: map<Addr, Node>, addr: Addr)
    requires Indexed(nodes, index) && DeclaredEdges(reg, nodes, edges) && addr in index
    ensures Buildable(Cut(reg, index.Keys), addr)
  {
    IndexedRegistered(reg, nodes, edges, index);
    var r := Depends(Cut(reg, index.Keys));
    forall a | Reach(r, a, addr)
      ensures a in reg && !Plus(r, a, a)
    {
      if a != addr {
        ReachCases(r, a, addr);
        var u := LastStep(r, a, addr);
      }
      if Plus(r, a, a) {
        var u := LastStep(r, a, a);
      }
    }
  }
}
