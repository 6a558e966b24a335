/**
 * Directed multigraphs over node indices, as the edge list of the scheduler's DAG.
 * An edge (u, v) says that v depends on u; the same edge may occur several times.
 */
module Multigraph {
  import opened Relations

  /** Position of a node in the graph's node list. */
  datatype Node = Node(at: nat)

  type Edges = seq<(Node, Node)>

  function EdgeSet(edges: Edges): set<(Node, Node)> {
    set e | e in edges
  }

  /** Sources of the edges into `n`, with multiplicity. */
  function Parents(edges: Edges, n: Node): seq<Node> {
    if edges == [] then []
    else
      var e := edges[|edges| - 1];
      Parents(edges[..|edges| - 1], n) + if e.1 == n then [e.0] else []
  }

  /** Targets of the edges out of `n`, with multiplicity. */
  function Children(edges: Edges, n: Node): seq<Node> {
    if edges == [] then []
    else
      var e := edges[|edges| - 1];
      Children(edges[..|edges| - 1], n) + if e.0 == n then [e.1] else []
  }

  /** Number of edges into `n` whose source is outside `settled`. */
  function Waiting(edges: Edges, settled: set<Node>, n: Node): nat {
    if edges == [] then 0
    else
      var e := edges[|edges| - 1];
      Waiting(edges[..|edges| - 1], settled, n) + if e.1 == n && e.0 !in settled then 1 else 0
  }

  lemma ParentsAppend(edges: Edges, e: (Node, Node), n: Node)
    ensures Parents(edges + [e], n) == Parents(edges, n) + if e.1 == n then [e.0] else []
  {
    assert (edges + [e])[..|edges|] == edges;
  }

  lemma {:induction false} ParentsAreEdges(edges: Edges, u: Node, v: Node)
    ensures u in Parents(edges, v) <==> (u, v) in edges
  {
    if edges == [] {
    } else {
      var k := |edges| - 1;
      ParentsAreEdges(edges[..k], u, v);
      assert edges == edges[..k] + [edges[k]];
      assert edges[k] == (u, v) <==> edges[k].0 == u && edges[k].1 == v;
    }
  }

  lemma {:induction false} ChildrenAreEdges(edges: Edges, u: Node, v: Node)
    ensures v in Children(edges, u) <==> (u, v) in edges
  {
    if edges == [] {
    } else {
      var k := |edges| - 1;
      ChildrenAreEdges(edges[..k], u, v);
      assert edges == edges[..k] + [edges[k]];
      assert edges[k] == (u, v) <==> edges[k].0 == u && edges[k].1 == v;
    }
  }

  lemma {:induction false} WaitingNobody(edges: Edges, n: Node)
    ensures Waiting(edges, {}, n) == |Parents(edges, n)|
  {
    if edges == [] {
    } else {
      WaitingNobody(edges[..|edges| - 1], n);
    }
  }

  /** A counter is zero exactly when all edges into the node come from settled nodes. */
  lemma {:induction false} WaitingZero(edges: Edges, settled: set<Node>, n: Node)
    ensures Waiting(edges, settled, n) == 0 <==> forall u :: (u, n) in edges ==> u in settled
  {
    if edges == [] {
    } else {
      var k := |edges| - 1;
      WaitingZero(edges[..k], settled, n);
      assert edges == edges[..k] + [edges[k]];
      var e := edges[k];
      if Waiting(edges, settled, n) == 0 {
        forall u | (u, n) in edges
          ensures u in settled
        {
          if (u, n) !in edges[..k] {
            assert (u, n) == e;
          }
        }
      }
      if forall u :: (u, n) in edges ==> u in settled {
        assert forall u :: (u, n) in edges[..k] ==> (u, n) in edges;
        assert e.1 == n ==> (e.0, n) in edges;
      }
    }
  }

  /** Settling one more node lowers a counter by the number of parallel edges between the two. */
  lemma {:induction false} WaitingSettle(edges: Edges, settled: set<Node>, u: Node, n: Node)
    requires u !in settled
    ensures Waiting(edges, settled, n) == Waiting(edges, settled + {u}, n) + multiset(Children(edges, u))[n]
  {
    if edges == [] {
    } else {
      var k := |edges| - 1;
      WaitingSettle(edges[..k], settled, u, n);
    }
  }
}
