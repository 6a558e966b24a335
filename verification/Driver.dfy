/** The code of `run`: the cache-hit cascade and the driver loop, refining the transition system. */
module Driver {
  import opened Prelude
  import opened Relations
  import opened Multigraph
  import opened Scheduler
  import opened SchedulerInvariant
  import opened SchedulerTheorems

  /** Walks the children of a completed node: one decrement per edge, pushing every counter that reaches zero. */
  method Walk(indegree: map<Node, nat>, children: seq<Node>, queue: seq<Node>)
    returns (indegree': map<Node, nat>, queue': seq<Node>)
    ensures indegree' == Decremented(indegree, children)
    ensures queue' == queue + Released(indegree, children)
  {
    indegree', queue' := indegree, queue;
    for i := 0 to |children|
      invariant Decremented(indegree', children[i..]) == Decremented(indegree, children)
      invariant queue' + Released(indegree', children[i..]) == queue + Released(indegree, children)
    {
      var c := children[i];
      assert children[i..][1..] == children[i + 1..];
      if c in indegree' {
        var d := Minus1(indegree'[c]);
        indegree' := indegree'[c := d];
        if d == 0 {
          queue' := queue' + [c];
        }
      }
    }
  }

  /** The nodes whose counter is zero, in any order. */
  method Leaves(indegree: map<Node, nat>) returns (queue: seq<Node>)
    ensures NoDup(queue)
    ensures forall n :: n in queue <==> n in indegree && indegree[n] == 0
  {
    queue := [];
    var todo := indegree.Keys;
    while todo != {}
      invariant todo <= indegree.Keys && NoDup(queue)
      invariant forall n :: n in queue <==> n in indegree && n !in todo && indegree[n] == 0
    {
      var n :| n in todo;
      todo := todo - {n};
      if indegree[n] == 0 {
        queue := queue + [n];
      }
    }
  }

  /** Where the cascade stands: `up` is promoted, `cascade` and `ready` hold what is no longer waiting. */
  ghost predicate Cascading(plan: Plan, indegree: map<Node, nat>, cascade: seq<Node>, ready: seq<Node>, up: set<Node>) {
    && CountersRight(plan, indegree, up)
    && up <= plan.slice * plan.hits
    && NoDup(ready + cascade)
    && (forall n :: n in ready ==> n !in plan.hits)
    && forall n :: n in plan.slice && Waiting(plan.edges, up, n) == 0 <==> n in up || n in ready || n in cascade
  }

  ghost predicate Disjoint(cascade: seq<Node>, ready: seq<Node>, up: set<Node>) {
    forall n :: n in up ==> n !in ready && n !in cascade
  }

  /** Promoting a hit from the front of the cascade. */
  lemma PromoteOne(plan: Plan, indegree: map<Node, nat>, cascade: seq<Node>, ready: seq<Node>, up: set<Node>)
    requires cascade != [] && cascade[0] in plan.hits
    requires Cascading(plan, indegree, cascade, ready, up) && Disjoint(cascade, ready, up)
    ensures var n := cascade[0];
            var children := Children(plan.edges, n);
            && Cascading(plan, Decremented(indegree, children), cascade[1..] + Released(indegree, children), ready, up + {n})
            && Disjoint(cascade[1..] + Released(indegree, children), ready, up + {n})
            && n in plan.slice && n !in up && n !in ready
  {
    var n, rest := cascade[0], cascade[1..];
    assert cascade == [n] + rest;
    SettleCounters(plan, indegree, up, n);
    var released := Released(indegree, Children(plan.edges, n));
    DropMiddle(ready, n, rest);
    NoDupAppend(ready, rest, released);
    forall m
      ensures Waiting(plan.edges, up + {n}, m) <= Waiting(plan.edges, up, m)
    {
      WaitingShrinks(plan.edges, up, up + {n}, m);
    }
  }

  /** A leaf that is no hit moves from the cascade to the ready list. */
  lemma SkipOne(plan: Plan, indegree: map<Node, nat>, cascade: seq<Node>, ready: seq<Node>, up: set<Node>)
    requires cascade != [] && cascade[0] !in plan.hits
    requires Cascading(plan, indegree, cascade, ready, up) && Disjoint(cascade, ready, up)
    ensures Cascading(plan, indegree, cascade[1..], ready + [cascade[0]], up)
    ensures Disjoint(cascade[1..], ready + [cascade[0]], up)
    ensures cascade[0] in plan.slice && cascade[0] !in up && cascade[0] !in ready
  {
    var n := cascade[0];
    assert cascade == [n] + cascade[1..];
    DropMiddle(ready, n, cascade[1..]);
    assert ready + [n] + cascade[1..] == ready + cascade;
  }

  lemma DropMiddle(a: seq<Node>, n: Node, b: seq<Node>)
    requires NoDup(a + ([n] + b))
    ensures NoDup(a + b) && n !in a && n !in b
  {
    var all := a + ([n] + b);
    assert all[|a|] == n;
    assert forall i :: 0 <= i < |a| ==> all[i] == a[i] && (a + b)[i] == a[i];
    assert forall i :: 0 <= i < |b| ==> all[|a| + 1 + i] == b[i] && (a + b)[|a| + i] == b[i];
  }

  /** When the cascade is empty it has promoted exactly the nodes that are hits all the way down. */
  lemma CascadeComplete(plan: Plan, indegree: map<Node, nat>, ready: seq<Node>, up: set<Node>)
    requires WellFormed(plan) && Cascading(plan, indegree, [], ready, up) && Disjoint([], ready, up)
    ensures up == Promoted(plan)
    ensures forall n :: n in ready <==> n in plan.slice && n !in up && indegree[n] == 0
  {
    var r := EdgeSet(plan.edges);
    forall n | n in up
      ensures n in Promoted(plan)
    {
      forall u, v | (u, v) in r && v in up
        ensures u in up
      {
        WaitingZero(plan.edges, up, v);
      }
      forall a | Reach(r, a, n)
        ensures a in plan.hits
      {
        ClosedHoldsReach(r, up, a, n);
      }
    }
    var left := Promoted(plan) - up;
    if !(Promoted(plan) <= up) {
      var x :| x in Promoted(plan) && x !in up;
      assert x in left;
      var m := MinimalElement(r, left);
      PromotedReady(plan, up, m);
    }
  }

  /** A promotable node whose promotable parents are all promoted is not waiting, and it is a hit. */
  lemma PromotedReady(plan: Plan, up: set<Node>, m: Node)
    requires PredClosed(EdgeSet(plan.edges), plan.slice) && m in Promoted(plan)
    requires forall u :: u in Promoted(plan) && u !in up ==> (u, m) !in EdgeSet(plan.edges)
    ensures Waiting(plan.edges, up, m) == 0 && m in plan.hits
  {
    ReachRefl(EdgeSet(plan.edges), m);
    PromotedNeverWait(plan, Promoted(plan));
    WaitingZero(plan.edges, Promoted(plan), m);
    forall u | (u, m) in plan.edges
      ensures u in up
    {
      assert (u, m) in EdgeSet(plan.edges);
    }
    WaitingZero(plan.edges, up, m);
  }

  /** The state in which the driver loop starts. */
  function Start(
    indegree: map<Node, nat>, ready: seq<Node>, status: map<Node, Status>, promoted: set<Node>, cancelled: bool): State
  {
    State(Dispatching, indegree, ready, status, [], multiset{}, [], 0, false, None, cancelled, [], [], promoted)
  }

  ghost predicate StatusPromoted(plan: Plan, status: map<Node, Status>, up: set<Node>) {
    && status.Keys == plan.slice == plan.initial.Keys
    && forall n :: n in plan.slice ==> status[n] == if n in up then Success else plan.initial[n]
  }

  /** The front of the cascade is promoted if it is a hit, and is ready to be run otherwise. */
  method CascadeOne(
    plan: Plan, indegree: map<Node, nat>, cascade: seq<Node>, ready: seq<Node>, status: map<Node, Status>, up: set<Node>)
    returns (
      indegree': map<Node, nat>, cascade': seq<Node>, ready': seq<Node>, status': map<Node, Status>, up': set<Node>)
    requires cascade != [] && Cascading(plan, indegree, cascade, ready, up) && Disjoint(cascade, ready, up)
    requires StatusPromoted(plan, status, up)
    ensures Cascading(plan, indegree', cascade', ready', up') && Disjoint(cascade', ready', up')
    ensures StatusPromoted(plan, status', up') && cascade[0] in plan.slice && cascade[0] !in up && cascade[0] !in ready
    ensures if cascade[0] in plan.hits then up' == up + {cascade[0]} && ready' == ready
            else up' == up && ready' == ready + [cascade[0]]
  {
    var n := cascade[0];
    indegree', ready', status', up' := indegree, ready, status, up;
    if n in plan.hits {
      PromoteOne(plan, indegree, cascade, ready, up);
      status' := status[n := Success];
      indegree', cascade' := Walk(indegree, Children(plan.edges, n), cascade[1..]);
      up' := up + {n};
    } else {
      SkipOne(plan, indegree, cascade, ready, up);
      ready', cascade' := ready + [n], cascade[1..];
    }
  }

  /**
   * Promotes the leaves that are cache hits, and what becomes a leaf by that, and collects the other leaves.
   * Starting from the indegree template, it leaves the driver loop in an initial state of the transition system.
   */
  method Cascade(plan: Plan, template: map<Node, nat>)
    returns (indegree: map<Node, nat>, ready: seq<Node>, status: map<Node, Status>, up: set<Node>)
    requires WellFormed(plan) && CountersRight(plan, template, {})
    ensures up == Promoted(plan)
    ensures forall cancelled :: Init(plan, Start(indegree, ready, status, up, cancelled))
  {
    indegree, ready, status, up := template, [], plan.initial, {};
    var cascade := Leaves(indegree);
    assert ready + cascade == cascade;
    ghost var handled: set<Node> := {};
    while cascade != []
      invariant Cascading(plan, indegree, cascade, ready, up) && Disjoint(cascade, ready, up)
      invariant StatusPromoted(plan, status, up)
      invariant forall n :: n in handled <==> n in up || n in ready
      decreases plan.slice - handled
    {
      handled := handled + {cascade[0]};
      indegree, cascade, ready, status, up := CascadeOne(plan, indegree, cascade, ready, status, up);
    }
    CascadeComplete(plan, indegree, ready, up);
    assert ready + cascade == ready;
  }
}
