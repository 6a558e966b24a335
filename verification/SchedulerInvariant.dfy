/** The scheduler invariant holds initially and survives every step. */
module SchedulerInvariant {
  import opened Prelude
  import opened Relations
  import opened Multigraph
  import opened Scheduler

  // Completions

  lemma {:induction false} NodesFront(cs: seq<Completion>)
    requires cs != []
    ensures Nodes(cs) == [cs[0].node] + Nodes(cs[1..])
  {
    if |cs| > 1 {
      var k := |cs| - 1;
      NodesFront(cs[..k]);
      assert cs[..k][1..] == cs[1..][..k - 1];
    }
  }

  lemma NodesBack(cs: seq<Completion>, c: Completion)
    ensures Nodes(cs + [c]) == Nodes(cs) + [c.node]
  {
    assert (cs + [c])[..|cs|] == cs;
  }

  lemma {:induction false} NodesMember(cs: seq<Completion>, c: Completion)
    requires c in cs
    ensures c.node in Nodes(cs)
  {
    var k := |cs| - 1;
    if c != cs[k] {
      NodesMember(cs[..k], c);
    }
  }

  lemma FirstErrorBack(cs: seq<Completion>, c: Completion)
    ensures FirstError(cs + [c]) == if FirstError(cs).Some? then FirstError(cs) else c.error
  {
    assert (cs + [c])[..|cs|] == cs;
  }

  // Bookkeeping

  lemma NoDupLeft(a: seq<Node>, b: seq<Node>)
    requires NoDup(a + b)
    ensures NoDup(a)
    ensures b != [] ==> b[0] !in a && a + [b[0]] + b[1..] == a + b
  {
    assert forall i :: 0 <= i < |a| ==> (a + b)[i] == a[i];
    if b != [] {
      assert (a + b)[|a|] == b[0];
    }
  }

  lemma NoDupAppend(a: seq<Node>, b: seq<Node>, c: seq<Node>)
    requires NoDup(a + b) && NoDup(c) && forall n :: n in c ==> n !in a && n !in b
    ensures NoDup(a + (b + c))
  {
    var x := a + b;
    assert a + (b + c) == x + c;
    forall i, j | 0 <= i < j < |x + c|
      ensures (x + c)[i] != (x + c)[j]
    {
      if i < |x| && j >= |x| {
        assert x[i] in x && c[j - |x|] in c;
      }
    }
  }

  /** A node is in flight at most once, and never both in flight and received. */
  lemma OnePlace(batch: nat, dispatched: seq<Node>, flying: multiset<Node>, inflight: nat, received: seq<Completion>, n: Node)
    requires Conserved(batch, dispatched, flying, inflight, received) && NoDup(dispatched)
    ensures n in flying ==> flying[n] == 1 && n in dispatched && forall c :: c in received ==> c.node != n
    ensures forall c :: c in received && c.node == n ==> n in dispatched && n !in flying
  {
    NoDupCounts(dispatched, n);
    assert multiset(dispatched)[n] == flying[n] + multiset(Nodes(received))[n];
    forall c | c in received && c.node == n
      ensures n in Nodes(received)
    {
      NodesMember(received, c);
    }
  }

  lemma InitHolds(plan: Plan, s: State)
    requires WellFormed(plan) && Init(plan, s)
    ensures Inv(plan, s)
  {
    assert s.dispatched + s.ready == s.ready;
  }

  // Dispatch

  lemma DispatchMoves(s: State, t: State, n: Node)
    requires t.queue == s.queue + [n] && t.running == s.running && t.done == s.done
    ensures InFlight(t) == InFlight(s) + multiset{n}
  {
  }

  lemma DispatchBooks(plan: Plan, s: State, t: State)
    requires Books(plan, s) && Placed(plan, s.dispatched, s.ready, s.settled)
    requires Enabled(plan, s, Dispatch) && t == Apply(plan, s, Dispatch)
    ensures Books(plan, t)
  {
    var n := s.ready[0];
    DispatchMoves(s, t, n);
    NoDupLeft(s.dispatched, s.ready);
    OnePlace(plan.batch, s.dispatched, InFlight(s), s.inflight, s.received, n);
    assert n in s.ready;
    DispatchConserves(plan.batch, s.dispatched, InFlight(s), s.inflight, s.received, n);
    DispatchStatus(plan, s.status, s.dispatched, InFlight(s), s.received, n);
  }

  lemma DispatchConserves(
    batch: nat, dispatched: seq<Node>, flying: multiset<Node>, inflight: nat, received: seq<Completion>, n: Node)
    requires Conserved(batch, dispatched, flying, inflight, received) && inflight < batch
    ensures Conserved(batch, dispatched + [n], flying + multiset{n}, inflight + 1, received)
  {
  }

  lemma DispatchFrontier(plan: Plan, s: State, t: State)
    requires Frontier(plan, s) && Enabled(plan, s, Dispatch) && t == Apply(plan, s, Dispatch)
    ensures Frontier(plan, t)
  {
    DispatchPlaces(plan, Live(s), s.dispatched, s.ready, s.settled);
  }

  lemma DispatchKeeps(plan: Plan, s: State)
    requires Inv(plan, s) && Enabled(plan, s, Dispatch)
    ensures Inv(plan, Apply(plan, s, Dispatch))
  {
    DispatchBooks(plan, s, Apply(plan, s, Dispatch));
    DispatchFrontier(plan, s, Apply(plan, s, Dispatch));
  }

  lemma DispatchPlaces(plan: Plan, live: bool, dispatched: seq<Node>, ready: seq<Node>, settled: set<Node>)
    requires Placed(plan, dispatched, ready, settled) && NothingStranded(plan, live, settled, dispatched, ready) && ready != []
    ensures Placed(plan, dispatched + [ready[0]], ready[1..], settled)
    ensures NothingStranded(plan, live, settled, dispatched + [ready[0]], ready[1..])
  {
    NoDupLeft(dispatched, ready);
    assert ready == [ready[0]] + ready[1..];
  }

  lemma DispatchStatus(
    plan: Plan, status: map<Node, Status>, dispatched: seq<Node>, flying: multiset<Node>, received: seq<Completion>, n: Node)
    requires StatusRight(plan, status, dispatched, flying, received)
    requires n in plan.slice && n !in Promoted(plan) && forall c :: c in received ==> c.node != n
    ensures StatusRight(plan, status[n := Running], dispatched + [n], flying + multiset{n}, received)
  {
  }

  // Steps that leave the driver's books alone

  lemma TakeMoves(s: State, t: State)
    requires s.queue != [] && t.queue == s.queue[1..] && t.running == s.running + multiset{s.queue[0]} && t.done == s.done
    ensures InFlight(t) == InFlight(s)
  {
    assert s.queue == [s.queue[0]] + s.queue[1..];
  }

  lemma FinishMoves(s: State, t: State, c: Completion)
    requires c.node in s.running
    requires t.queue == s.queue && t.running == s.running - multiset{c.node} && t.done == s.done + [c]
    ensures InFlight(t) == InFlight(s)
  {
    NodesBack(s.done, c);
  }

  lemma WorkerKeeps(plan: Plan, s: State, step: Step)
    requires Inv(plan, s) && (step.Take? || step.Finish?) && Enabled(plan, s, step)
    ensures Inv(plan, Apply(plan, s, step))
  {
    var t := Apply(plan, s, step);
    if step.Take? {
      TakeMoves(s, t);
    } else {
      FinishMoves(s, t, Completion(step.node, step.error));
    }
    assert t == s.(queue := t.queue, running := t.running, done := t.done);
  }

  lemma ReadyDropped(plan: Plan, dispatched: seq<Node>, ready: seq<Node>, settled: set<Node>)
    requires Placed(plan, dispatched, ready, settled)
    ensures Placed(plan, dispatched, [], settled)
  {
    NoDupLeft(dispatched, ready);
    assert dispatched + [] == dispatched;
  }

  lemma DriverKeeps(plan: Plan, s: State, step: Step)
    requires plan.batch >= 1 && Inv(plan, s) && (step.Stop? || step.Check? || step.Cancel?) && Enabled(plan, s, step)
    ensures Inv(plan, Apply(plan, s, step))
  {
    assert InFlight(Apply(plan, s, step)) == InFlight(s);
    if step.Check? {
      CheckKeeps(plan, s);
    }
  }

  lemma CheckKeeps(plan: Plan, s: State)
    requires Inv(plan, s) && Enabled(plan, s, Check)
    ensures Inv(plan, Apply(plan, s, Check))
  {
    assert InFlight(Apply(plan, s, Check)) == InFlight(s);
    ReadyDropped(plan, s.dispatched, s.ready, s.settled);
  }

  // Receive

  lemma PopDone(s: State, t: State)
    requires s.done != [] && t.queue == s.queue && t.running == s.running && t.done == s.done[1..]
    ensures InFlight(s) == InFlight(t) + multiset{s.done[0].node}
  {
    NodesFront(s.done);
  }

  lemma ReceiveConserves(
    batch: nat, dispatched: seq<Node>, flying: multiset<Node>, inflight: nat, received: seq<Completion>, c: Completion)
    requires Conserved(batch, dispatched, flying + multiset{c.node}, inflight, received)
    ensures inflight > 0 && Conserved(batch, dispatched, flying, inflight - 1, received + [c])
  {
    NodesBack(received, c);
  }

  lemma ReceiveStatus(
    plan: Plan, status: map<Node, Status>, dispatched: seq<Node>, flying: multiset<Node>, received: seq<Completion>, c: Completion)
    requires StatusRight(plan, status, dispatched, flying + multiset{c.node}, received)
    requires c.node in plan.slice && c.node !in Promoted(plan) && c.node in dispatched && c.node !in flying
    requires forall d :: d in received ==> d.node != c.node
    ensures StatusRight(plan, status[c.node := if c.error.None? then Success else Failed], dispatched, flying, received + [c])
  {
    assert forall n :: n in flying ==> n in flying + multiset{c.node};
  }

  /** Notifying the children of a successful node keeps every counter at its true value. */
  lemma SettleCounters(plan: Plan, indegree: map<Node, nat>, settled: set<Node>, n: Node)
    requires CountersRight(plan, indegree, settled) && n !in settled
    ensures var children := Children(plan.edges, n);
            && (forall m :: m in indegree ==> multiset(children)[m] <= indegree[m])
            && CountersRight(plan, Decremented(indegree, children), settled + {n})
            && NoDup(Released(indegree, children))
            && forall m :: m in Released(indegree, children) <==>
                 m in plan.slice && Waiting(plan.edges, settled, m) > 0 && Waiting(plan.edges, settled + {n}, m) == 0
  {
    var children := Children(plan.edges, n);
    forall m
      ensures Waiting(plan.edges, settled, m) == Waiting(plan.edges, settled + {n}, m) + multiset(children)[m]
    {
      WaitingSettle(plan.edges, settled, n, m);
    }
    WalkIsExact(indegree, children);
  }

  lemma {:induction false} WaitingShrinks(edges: Edges, settled: set<Node>, more: set<Node>, n: Node)
    requires settled <= more
    ensures Waiting(edges, more, n) <= Waiting(edges, settled, n)
  {
    if edges == [] {
    } else {
      WaitingShrinks(edges[..|edges| - 1], settled, more, n);
    }
  }

  /** Promoted nodes have no unsettled parent once the promoted nodes are settled. */
  lemma PromotedNeverWait(plan: Plan, settled: set<Node>)
    requires PredClosed(EdgeSet(plan.edges), plan.slice) && Promoted(plan) <= settled
    ensures forall n :: n in Promoted(plan) ==> Waiting(plan.edges, settled, n) == 0
  {
    forall n | n in Promoted(plan)
      ensures Waiting(plan.edges, settled, n) == 0
    {
      forall u | (u, n) in plan.edges
        ensures u in settled
      {
        assert (u, n) in EdgeSet(plan.edges);
        forall a | Reach(EdgeSet(plan.edges), a, u)
          ensures a in plan.hits
        {
          ReachStep(EdgeSet(plan.edges), u, n);
          ReachTrans(EdgeSet(plan.edges), a, u, n);
        }
      }
      WaitingZero(plan.edges, settled, n);
    }
  }

  lemma SettlePlaces(
    plan: Plan, dispatched: seq<Node>, ready: seq<Node>, settled: set<Node>, n: Node, released: seq<Node>)
    requires Placed(plan, dispatched, ready, settled) && NothingStranded(plan, true, settled, dispatched, ready)
    requires NoDup(released) && Promoted(plan) <= settled
    requires forall m :: m in released <==>
               m in plan.slice && Waiting(plan.edges, settled, m) > 0 && Waiting(plan.edges, settled + {n}, m) == 0
    requires forall m :: m in Promoted(plan) ==> Waiting(plan.edges, settled, m) == 0
    ensures Placed(plan, dispatched, ready + released, settled + {n})
    ensures NothingStranded(plan, true, settled + {n}, dispatched, ready + released)
  {
    NoDupAppend(dispatched, ready, released);
    forall m
      ensures Waiting(plan.edges, settled + {n}, m) <= Waiting(plan.edges, settled, m)
    {
      WaitingShrinks(plan.edges, settled, settled + {n}, m);
    }
  }

  /** The part of the state that receiving changes in the same way whatever the completion says. */
  ghost predicate ReceivedInto(s: State, t: State)
    requires s.done != [] && s.inflight > 0
  {
    var c := s.done[0];
    && t.queue == s.queue && t.running == s.running && t.done == s.done[1..] && t.inflight == s.inflight - 1
    && t.received == s.received + [c] && t.dispatched == s.dispatched
    && t.status == s.status[c.node := if c.error.None? then Success else Failed]
  }

  lemma ReceiveTouches(plan: Plan, s: State)
    requires Enabled(plan, s, Receive)
    ensures ReceivedInto(s, Apply(plan, s, Receive))
  {
  }

  /** What receiving does to the books whatever the completion says. */
  lemma ReceiveBooks(plan: Plan, s: State, t: State)
    requires Books(plan, s) && Placed(plan, s.dispatched, s.ready, s.settled)
    requires s.done != [] && s.inflight > 0 && ReceivedInto(s, t)
    ensures Books(plan, t)
    ensures s.done[0].node in s.dispatched && forall c :: c in s.received ==> c.node != s.done[0].node
  {
    var c := s.done[0];
    PopDone(s, t);
    NoDupLeft(s.dispatched, s.ready);
    OnePlace(plan.batch, s.dispatched, InFlight(s), s.inflight, s.received, c.node);
    ReceiveConserves(plan.batch, s.dispatched, InFlight(t), s.inflight, s.received, c);
    ReceiveStatus(plan, s.status, s.dispatched, InFlight(t), s.received, c);
  }

  lemma ReceiveFrontier(plan: Plan, s: State, t: State)
    requires WellFormed(plan) && Frontier(plan, s) && Enabled(plan, s, Receive) && t == Apply(plan, s, Receive)
    requires s.done[0].node in s.dispatched && forall c :: c in s.received ==> c.node != s.done[0].node
    ensures Frontier(plan, t)
  {
    var c := s.done[0];
    if c.error.None? && Live(s) {
      SettleCounters(plan, s.indegree, s.settled, c.node);
      PromotedNeverWait(plan, s.settled);
      SettlePlaces(plan, s.dispatched, s.ready, s.settled, c.node, Released(s.indegree, Children(plan.edges, c.node)));
      SettleRight(plan, s.settled, s.received, c);
    } else {
      ReadyDropped(plan, s.dispatched, s.ready, s.settled);
    }
  }

  lemma SettleRight(plan: Plan, settled: set<Node>, received: seq<Completion>, c: Completion)
    requires SettledRight(plan, settled, received, true) && c.error.None? && c.node in plan.slice
    ensures SettledRight(plan, settled + {c.node}, received + [c], true)
  {
    assert c == Completion(c.node, None);
  }

  lemma ReceiveFlags(plan: Plan, s: State, t: State)
    requires Flags(s) && Enabled(plan, s, Receive) && t == Apply(plan, s, Receive)
    ensures Flags(t)
  {
    FirstErrorBack(s.received, s.done[0]);
  }

  lemma ReceiveKeeps(plan: Plan, s: State)
    requires WellFormed(plan) && Inv(plan, s) && Enabled(plan, s, Receive)
    ensures Inv(plan, Apply(plan, s, Receive))
  {
    ReceiveTouches(plan, s);
    ReceiveBooks(plan, s, Apply(plan, s, Receive));
    ReceiveFrontier(plan, s, Apply(plan, s, Receive));
    ReceiveFlags(plan, s, Apply(plan, s, Receive));
  }

  lemma StepKeeps(plan: Plan, s: State, step: Step)
    requires WellFormed(plan) && Inv(plan, s) && Enabled(plan, s, step)
    ensures Inv(plan, Apply(plan, s, step))
  {
    match step
    case Dispatch => DispatchKeeps(plan, s);
    case Receive => ReceiveKeeps(plan, s);
    case Take => WorkerKeeps(plan, s, step);
    case Finish(_, _) => WorkerKeeps(plan, s, step);
    case _ => DriverKeeps(plan, s, step);
  }

  lemma {:induction false} RunKeeps(plan: Plan, s: State, steps: seq<Step>, t: State)
    requires WellFormed(plan) && Inv(plan, s) && Runs(plan, s, steps, t)
    ensures Inv(plan, t)
    decreases |steps|
  {
    if steps == [] {
    } else {
      StepKeeps(plan, s, steps[0]);
      RunKeeps(plan, Apply(plan, s, steps[0]), steps[1..], t);
    }
  }

  /** The invariant holds in every state of every interleaving. */
  lemma ReachableHolds(plan: Plan, s: State)
    requires WellFormed(plan) && Reachable(plan, s)
    ensures Inv(plan, s)
  {
    var s0, steps :| Init(plan, s0) && Runs(plan, s0, steps, s);
    InitHolds(plan, s0);
    RunKeeps(plan, s0, steps, s);
  }
}
