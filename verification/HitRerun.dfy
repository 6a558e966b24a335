/** The smallest run in which a cache hit enters the ready list: a hit that depends on a node that is none. */
module HitRerun {
  import opened Prelude
  import opened Relations
  import opened Multigraph
  import opened Scheduler
  import opened Engine
  import Driver

  const DEP := Node(0)
  const HIT := Node(1)

  const PAIR: Plan := Plan({DEP, HIT}, [(DEP, HIT)], {HIT}, 1, map[DEP := Pending, HIT := Pending])

  lemma PairEdges()
    ensures EdgeSet(PAIR.edges) == {(DEP, HIT)}
  {
    assert PAIR.edges[0] in EdgeSet(PAIR.edges);
  }

  lemma PairWellFormed()
    ensures WellFormed(PAIR)
  {
    PairEdges();
    var none: set<(Node, Node)> := {};
    assert Acyclic(none);
    forall p
      ensures !Path(none, HIT, p, DEP)
    {
    }
    AddPairAcyclic(none, DEP, HIT);
    assert none + {(DEP, HIT)} == {(DEP, HIT)};
  }

  lemma NothingPromoted()
    ensures Promoted(PAIR) == {}
  {
    PairEdges();
    ReachRefl(EdgeSet(PAIR.edges), DEP);
    ReachStep(EdgeSet(PAIR.edges), DEP, HIT);
  }

  lemma PairCounters(settled: set<Node>)
    ensures Waiting(PAIR.edges, settled, DEP) == 0
    ensures Waiting(PAIR.edges, settled, HIT) == if DEP in settled then 0 else 1
    ensures Children(PAIR.edges, DEP) == [HIT]
  {
    assert PAIR.edges[..0] == [];
  }

  const FIRST: State := Driver.Start(map[DEP := 0, HIT := 1], [DEP], PAIR.initial, {}, false)

  lemma FirstIsInitial()
    ensures Init(PAIR, FIRST)
  {
    NothingPromoted();
    PairCounters({});
  }

  /** Nothing else is in the pool. */
  ghost predicate Alone(plan: Plan, s: State, queue: seq<Node>, running: multiset<Node>, done: seq<Completion>) {
    Reachable(plan, s) && Live(s) && s.queue == queue && s.running == running && s.done == done
  }

  lemma FirstReachable() returns (s: State)
    ensures Alone(PAIR, s, [], multiset{}, []) && s.phase.Dispatching? && s.inflight == 0
    ensures s.ready == [DEP] && s.indegree == map[DEP := 0, HIT := 1]
  {
    FirstIsInitial();
    s := FIRST;
    assert Runs(PAIR, s, [], s);
  }

  /** The only ready node is dispatched, and the driver waits. */
  lemma Dispatched(plan: Plan, s: State, n: Node) returns (t: State)
    requires Alone(plan, s, [], multiset{}, []) && s.phase.Dispatching? && s.inflight == 0
    requires s.ready == [n] && plan.batch == 1
    ensures Alone(plan, t, [n], multiset{}, []) && t.phase.Awaiting? && t.inflight == 1
    ensures t.ready == [] && t.indegree == s.indegree
  {
    t := Advance(plan, s, Dispatch);
    t := Advance(plan, t, Stop);
  }

  /** A worker takes it and finishes it. */
  lemma Finished(plan: Plan, s: State, n: Node) returns (t: State)
    requires Alone(plan, s, [n], multiset{}, []) && s.phase.Awaiting? && s.inflight == 1 && plan.batch == 1
    ensures Alone(plan, t, [], multiset{}, [Completion(n, None)]) && t.phase.Awaiting? && t.inflight == 1
    ensures t.ready == s.ready && t.indegree == s.indegree
  {
    t := Advance(plan, s, Take);
    t := Advance(plan, t, Finish(n, None));
  }

  /** Receiving its completion makes the hit ready to be dispatched. */
  lemma HitBecomesReady() returns (s: State)
    ensures WellFormed(PAIR) && Reachable(PAIR, s)
    ensures HIT in PAIR.hits && s.ready == [HIT] && Live(s)
  {
    PairWellFormed();
    PairCounters({});
    s := FirstReachable();
    s := Dispatched(PAIR, s, DEP);
    s := Finished(PAIR, s, DEP);
    assert Released(s.indegree, [HIT]) == [HIT];
    s := Advance(PAIR, s, Receive);
  }

  lemma Advance(plan: Plan, s: State, step: Step) returns (t: State)
    requires Reachable(plan, s) && Enabled(plan, s, step)
    ensures t == Apply(plan, s, step) && Reachable(plan, t)
  {
    ReachableNext(plan, s, step);
    t := Apply(plan, s, step);
  }
}
