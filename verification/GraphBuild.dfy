/** Construction of the execution graph: recursive insertion, dependency slices and indegree templates. */
module GraphBuild {
  import opened Prelude
  import opened Relations
  import opened Multigraph

  type Addr = string

  /** The registered transforms with their `depends` lists. */
  type Registry = map<Addr, seq<Addr>>

  datatype GraphError =
    | ProjectTransform(addr: Addr)  // no transform registered under the address
    | WouldCycle(addr: Addr)        // wiring this node would close a cycle

  /** (d, a) whenever `d` occurs in the `depends` list of `a`. */
  ghost function Depends(reg: Registry): set<(Addr, Addr)> {
    set a, d | a in reg && d in reg[a] :: (d, a)
  }

  /** What the caller has to provide for `addr` to be buildable. */
  ghost predicate Buildable(reg: Registry, addr: Addr) {
    forall a :: Reach(Depends(reg), a, addr) ==> a in reg && !Plus(Depends(reg), a, a)
  }

  /** The registry as an insertion sees it that takes the dependencies of the `known` addresses for granted. */
  function Cut(reg: Registry, known: set<Addr>): Registry {
    map a | a in reg :: if a in known then [] else reg[a]
  }

  /** An error names an address among the dependencies of `addr` that is at fault. */
  ghost predicate Explains(reg: Registry, addr: Addr, e: GraphError) {
    && Reach(Depends(reg), e.addr, addr)
    && match e
       case ProjectTransform(a) => a !in reg
       case WouldCycle(a) => Plus(Depends(reg), a, a)
  }

  /** `index` and `nodes` are inverse to each other. */
  ghost predicate Indexed(nodes: seq<Addr>, index: map<Addr, Node>) {
    && (forall i :: 0 <= i < |nodes| ==> nodes[i] in index && index[nodes[i]] == Node(i))
    && (forall a :: a in index ==> index[a].at < |nodes| && nodes[index[a].at] == a)
  }

  /** Every edge joins two nodes, the first of which the second declares as a dependency. */
  ghost predicate DeclaredEdges(reg: Registry, nodes: seq<Addr>, edges: Edges) {
    && (forall i :: 0 <= i < |nodes| ==> nodes[i] in reg)
    && forall e :: e in edges ==> e.0.at < |nodes| && e.1.at < |nodes| && nodes[e.0.at] in reg[nodes[e.1.at]]
  }

  /** The edges into node `i` are the first `k` entries of its `depends` list, in order and with repetition. */
  ghost predicate WiredUpTo(reg: Registry, nodes: seq<Addr>, edges: Edges, i: nat, k: nat) {
    var ps := Parents(edges, Node(i));
    && i < |nodes| && nodes[i] in reg && |ps| == k <= |reg[nodes[i]]|
    && forall j :: 0 <= j < k ==> ps[j].at < |nodes| && nodes[ps[j].at] == reg[nodes[i]][j]
  }

  ghost predicate Wired(reg: Registry, nodes: seq<Addr>, edges: Edges, i: nat) {
    i < |nodes| && nodes[i] in reg && WiredUpTo(reg, nodes, edges, i, |reg[nodes[i]]|)
  }

  /** All nodes from `lo` on are completely wired. */
  ghost predicate WiredFrom(reg: Registry, nodes: seq<Addr>, edges: Edges, lo: nat) {
    forall i :: lo <= i < |nodes| ==> Wired(reg, nodes, edges, i)
  }

  /** Insertions append nodes and leave the edges into existing nodes alone. */
  ghost predicate Grown(nodes: seq<Addr>, edges: Edges, nodes': seq<Addr>, edges': Edges) {
    nodes <= nodes' && forall i :: 0 <= i < |nodes| ==> Parents(edges', Node(i)) == Parents(edges, Node(i))
  }

  /** All nodes from `lo` on are dependencies of the address, directly or not, or the address itself. */
  ghost predicate NewAreDependencies(reg: Registry, lo: nat, nodes: seq<Addr>, addr: Addr) {
    forall i :: lo <= i < |nodes| ==> Reach(Depends(reg), nodes[i], addr)
  }

  lemma MoreDependencies(reg: Registry, lo: nat, nodes: seq<Addr>, nodes': seq<Addr>, addr: Addr, j: nat)
    requires NewAreDependencies(reg, lo, nodes, addr) && nodes <= nodes' && addr in reg && j < |reg[addr]|
    requires NewAreDependencies(reg, |nodes|, nodes', reg[addr][j])
    ensures NewAreDependencies(reg, lo, nodes', addr)
  {
    var r, dep := Depends(reg), reg[addr][j];
    assert (dep, addr) in r;
    ReachStep(r, dep, addr);
    forall i | lo <= i < |nodes'|
      ensures Reach(r, nodes'[i], addr)
    {
      if i < |nodes| {
        assert nodes'[i] == nodes[i];
      } else {
        ReachTrans(r, nodes'[i], dep, addr);
      }
    }
  }

  /** `slice` is the set of nodes that reach `n`. */
  ghost predicate IsSlice(edges: Edges, n: Node, slice: set<Node>) {
    forall m :: m in slice <==> Reach(EdgeSet(edges), m, n)
  }

  /** `template` counts all edges into every node of `slice`. */
  ghost predicate IsTemplate(edges: Edges, slice: set<Node>, template: map<Node, nat>) {
    template.Keys == slice && forall n :: n in slice ==> template[n] == |Parents(edges, n)|
  }

  /** Every root on record has its slice and its indegree template. */
  ghost predicate Described(
    edges: Edges, index: map<Addr, Node>, subgraphs: map<Addr, set<Node>>, indegrees: map<Addr, map<Node, nat>>)
  {
    && subgraphs.Keys == indegrees.Keys <= index.Keys
    && forall root :: root in subgraphs ==>
         && IsSlice(edges, index[root], subgraphs[root])
         && IsTemplate(edges, subgraphs[root], indegrees[root])
  }

  // Lemmas relating edges to the declared dependencies

  lemma {:induction false} PathIsDeclared(reg: Registry, nodes: seq<Addr>, edges: Edges, a: Node, p: seq<Node>, b: Node)
    requires DeclaredEdges(reg, nodes, edges) && Path(EdgeSet(edges), a, p, b) && b.at < |nodes|
    ensures a.at < |nodes| && Reach(Depends(reg), nodes[a.at], nodes[b.at])
    decreases |p|
  {
    if p == [] {
      ReachRefl(Depends(reg), nodes[b.at]);
    } else {
      PathIsDeclared(reg, nodes, edges, p[0], p[1..], b);
      assert (a, p[0]) in edges;
      StepReach(Depends(reg), nodes[a.at], nodes[p[0].at], nodes[b.at]);
    }
  }

  lemma ReachIsDeclared(reg: Registry, nodes: seq<Addr>, edges: Edges, a: Node, b: Node)
    requires DeclaredEdges(reg, nodes, edges) && Reach(EdgeSet(edges), a, b) && b.at < |nodes|
    ensures a.at < |nodes| && Reach(Depends(reg), nodes[a.at], nodes[b.at])
  {
    var p :| Path(EdgeSet(edges), a, p, b);
    PathIsDeclared(reg, nodes, edges, a, p, b);
  }

  lemma IndexedRegistered(reg: Registry, nodes: seq<Addr>, edges: Edges, index: map<Addr, Node>)
    requires Indexed(nodes, index) && DeclaredEdges(reg, nodes, edges)
    ensures index.Keys <= reg.Keys
  {
    forall a | a in index
      ensures a in reg
    {
      assert nodes[index[a].at] == a;
    }
  }

  /** Every declared dependency of an inserted address is inserted and has its edge. */
  ghost predicate Covers(r: set<(Addr, Addr)>, edges: Edges, index: map<Addr, Node>) {
    forall d, a :: (d, a) in r && a in index ==> d in index && (index[d], index[a]) in EdgeSet(edges)
  }

  lemma WiredEdge(reg: Registry, nodes: seq<Addr>, edges: Edges, index: map<Addr, Node>, d: Addr, a: Addr)
    requires Indexed(nodes, index) && a in index && Wired(reg, nodes, edges, index[a].at)
    requires d in reg[a]
    ensures d in index && (index[d], index[a]) in EdgeSet(edges)
  {
    var j :| 0 <= j < |reg[a]| && reg[a][j] == d;
    var ps := Parents(edges, index[a]);
    assert nodes[ps[j].at] == d;
    ParentsAreEdges(edges, ps[j], index[a]);
  }

  /** Where the nodes from `lo` on are wired and those below are known, all that is not cut off is covered. */
  lemma WiredCovers(reg: Registry, nodes: seq<Addr>, edges: Edges, index: map<Addr, Node>, known: set<Addr>, lo: nat)
    requires Indexed(nodes, index) && WiredFrom(reg, nodes, edges, lo)
    requires forall i :: 0 <= i < |nodes| && i < lo ==> nodes[i] in known
    ensures Covers(Depends(Cut(reg, known)), edges, index)
  {
    forall d, a | (d, a) in Depends(Cut(reg, known)) && a in index
      ensures d in index && (index[d], index[a]) in EdgeSet(edges)
    {
      assert a !in known && d in reg[a];
      WiredEdge(reg, nodes, edges, index, d, a);
    }
  }

  lemma NothingCut(reg: Registry)
    ensures Cut(reg, {}) == reg
  {
  }

  lemma {:induction false} CoveredPath(
    r: set<(Addr, Addr)>, edges: Edges, index: map<Addr, Node>, a: Addr, p: seq<Addr>, b: Addr)
    requires Covers(r, edges, index) && b in index && Path(r, a, p, b)
    ensures a in index && Reach(EdgeSet(edges), index[a], index[b])
    decreases |p|
  {
    if p == [] {
      ReachRefl(EdgeSet(edges), index[b]);
    } else {
      CoveredPath(r, edges, index, p[0], p[1..], b);
      StepReach(EdgeSet(edges), index[a], index[p[0]], index[b]);
    }
  }

  lemma CoveredReach(r: set<(Addr, Addr)>, edges: Edges, index: map<Addr, Node>, a: Addr, b: Addr)
    requires Covers(r, edges, index) && b in index && Reach(r, a, b)
    ensures a in index && Reach(EdgeSet(edges), index[a], index[b])
  {
    var p :| Path(r, a, p, b);
    CoveredPath(r, edges, index, a, p, b);
  }

  /** An acyclic graph that covers what is declared witnesses that its addresses are buildable. */
  lemma CoveredMeansBuildable(reg: Registry, edges: Edges, index: map<Addr, Node>, addr: Addr)
    requires Covers(Depends(reg), edges, index) && index.Keys <= reg.Keys && addr in index && Acyclic(EdgeSet(edges))
    ensures Buildable(reg, addr)
  {
    var r := Depends(reg);
    forall a | Reach(r, a, addr)
      ensures a in reg && !Plus(r, a, a)
    {
      CoveredReach(r, edges, index, a, addr);
      if Plus(r, a, a) {
        var c :| (a, c) in r && Reach(r, c, a);
        CoveredReach(r, edges, index, c, a);
        StepReach(EdgeSet(edges), index[a], index[c], index[a]);
      }
    }
  }

  /** An insertion that has wired all nodes from `lo` on has proved what it took for granted to be enough. */
  lemma WiredMeansBuildable(
    reg: Registry, nodes: seq<Addr>, edges: Edges, index: map<Addr, Node>, known: set<Addr>, lo: nat, addr: Addr)
    requires Indexed(nodes, index) && addr in index && Acyclic(EdgeSet(edges)) && DeclaredEdges(reg, nodes, edges)
    requires WiredFrom(reg, nodes, edges, lo) && forall i :: 0 <= i < |nodes| && i < lo ==> nodes[i] in known
    ensures Buildable(Cut(reg, known), addr)
  {
    WiredCovers(reg, nodes, edges, index, known, lo);
    IndexedRegistered(reg, nodes, edges, index);
    CoveredMeansBuildable(Cut(reg, known), edges, index, addr);
  }

  lemma NotBuildable(reg: Registry, addr: Addr, e: GraphError)
    requires Explains(reg, addr, e)
    ensures !Buildable(reg, addr)
  {
  }

  /** The stored slice of a root is its reflexive-transitive dependency closure. */
  lemma SliceIsClosure(reg: Registry, nodes: seq<Addr>, edges: Edges, index: map<Addr, Node>, root: Addr, slice: set<Node>)
    requires Indexed(nodes, index) && root in index && DeclaredEdges(reg, nodes, edges)
    requires WiredFrom(reg, nodes, edges, 0)
    requires IsSlice(edges, index[root], slice)
    ensures forall a :: Reach(Depends(reg), a, root) <==> a in index && index[a] in slice
  {
    WiredCovers(reg, nodes, edges, index, {}, 0);
    NothingCut(reg);
    forall a
      ensures Reach(Depends(reg), a, root) <==> a in index && index[a] in slice
    {
      if Reach(Depends(reg), a, root) {
        CoveredReach(Depends(reg), edges, index, a, root);
      }
      if a in index && index[a] in slice {
        ReachIsDeclared(reg, nodes, edges, index[a], index[root]);
      }
    }
  }

  // Stability of earlier slices under later insertions

  /** `later` extends `edges` by edges into nodes from `bound` on, and `edges` stays below `bound`. */
  ghost predicate ExtendsAbove(edges: Edges, later: Edges, bound: nat) {
    && (forall e :: e in edges ==> e.0.at < bound && e.1.at < bound)
    && forall n: Node :: n.at < bound ==> Parents(later, n) == Parents(edges, n)
  }

  lemma SameEdgeBelow(edges: Edges, later: Edges, bound: nat, u: Node, v: Node)
    requires ExtendsAbove(edges, later, bound) && v.at < bound
    ensures (u, v) in EdgeSet(edges) <==> (u, v) in EdgeSet(later)
  {
    ParentsAreEdges(edges, u, v);
    ParentsAreEdges(later, u, v);
  }

  lemma {:induction false} SamePathBelow(edges: Edges, later: Edges, bound: nat, a: Node, p: seq<Node>, b: Node)
    requires ExtendsAbove(edges, later, bound) && b.at < bound
    ensures Path(EdgeSet(later), a, p, b) ==> Path(EdgeSet(edges), a, p, b) && a.at < bound
    ensures Path(EdgeSet(edges), a, p, b) ==> Path(EdgeSet(later), a, p, b)
    decreases |p|
  {
    if p == [] {
    } else {
      SamePathBelow(edges, later, bound, p[0], p[1..], b);
      if p[0].at < bound {
        SameEdgeBelow(edges, later, bound, a, p[0]);
      }
    }
  }

  lemma SliceIsStable(edges: Edges, later: Edges, bound: nat, n: Node, slice: set<Node>)
    requires ExtendsAbove(edges, later, bound) && n.at < bound && IsSlice(edges, n, slice)
    ensures IsSlice(later, n, slice) && forall m :: m in slice ==> m.at < bound
  {
    forall m
      ensures Reach(EdgeSet(edges), m, n) <==> Reach(EdgeSet(later), m, n)
      ensures Reach(EdgeSet(edges), m, n) ==> m.at < bound
    {
      if Reach(EdgeSet(edges), m, n) {
        var p :| Path(EdgeSet(edges), m, p, n);
        SamePathBelow(edges, later, bound, m, p, n);
      }
      if Reach(EdgeSet(later), m, n) {
        var p :| Path(EdgeSet(later), m, p, n);
        SamePathBelow(edges, later, bound, m, p, n);
      }
    }
  }

  /** Breadth-first walk against the edges from `start`. */
  method CollectSlice(edges: Edges, start: Node) returns (slice: set<Node>)
    ensures IsSlice(edges, start, slice)
  {
    slice := {};
    var queue := [start];
    ghost var r := EdgeSet(edges);
    ghost var sources := {start} + set e | e in edges :: e.0;
    ReachRefl(r, start);
    while queue != []
      invariant slice <= sources && Elems(queue) <= sources
      invariant start in slice || start in queue
      invariant forall m :: m in slice || m in queue ==> Reach(r, m, start)
      invariant forall u, v :: (u, v) in r && v in slice ==> u in slice || u in queue
      decreases sources - slice, |queue|
    {
      var n := queue[0];
      ghost var before := queue;
      queue := queue[1..];
      assert before == [n] + queue;
      assert n in sources by { assert n in Elems(before); }
      if n !in slice {
        slice := slice + {n};
        var parents := Parents(edges, n);
        forall u
          ensures u in parents <==> (u, n) in r
        {
          ParentsAreEdges(edges, u, n);
        }
        forall u | u in parents
          ensures Reach(r, u, start) && u in sources
        {
          StepReach(r, u, n, start);
          assert (u, n) in edges && (u, n).0 in sources;
        }
        queue := queue + parents;
      }
    }
    assert PredClosed(r, slice) by {
      forall u, v | (u, v) in r && v in slice
        ensures u in slice
      {
        assert u !in queue;
      }
    }
    forall m | Reach(r, m, start)
      ensures m in slice
    {
      ClosedHoldsReach(r, slice, m, start);
    }
  }

  /** How many entries of `parents` lie inside `slice`. */
  function CountInside(parents: seq<Node>, slice: set<Node>): nat {
    if parents == [] then 0
    else (if parents[0] in slice then 1 else 0) + CountInside(parents[1..], slice)
  }

  lemma {:induction false} AllInside(parents: seq<Node>, slice: set<Node>)
    requires forall u :: u in parents ==> u in slice
    ensures CountInside(parents, slice) == |parents|
  {
    if parents == [] {
    } else {
      AllInside(parents[1..], slice);
    }
  }

  /** Counts the in-slice parents of every node of the slice. */
  method CountParents(edges: Edges, slice: set<Node>) returns (template: map<Node, nat>)
    ensures template.Keys == slice
    ensures forall n :: n in slice ==> template[n] == CountInside(Parents(edges, n), slice)
  {
    template := map[];
    var todo := slice;
    while todo != {}
      invariant todo <= slice && template.Keys == slice - todo
      invariant forall n :: n in template ==> template[n] == CountInside(Parents(edges, n), slice)
    {
      var n :| n in todo;
      template := template[n := CountInside(Parents(edges, n), slice)];
      todo := todo - {n};
    }
  }

  /** A slice holds all parents of its members, so restricting the count to it leaves nothing out. */
  lemma SliceCountsAllParents(edges: Edges, start: Node, slice: set<Node>, template: map<Node, nat>)
    requires IsSlice(edges, start, slice) && template.Keys == slice
    requires forall n :: n in slice ==> template[n] == CountInside(Parents(edges, n), slice)
    ensures IsTemplate(edges, slice, template)
  {
    forall n | n in slice
      ensures template[n] == |Parents(edges, n)|
    {
      forall u | u in Parents(edges, n)
        ensures u in slice
      {
        ParentsAreEdges(edges, u, n);
        StepReach(EdgeSet(edges), u, n, start);
      }
      AllInside(Parents(edges, n), slice);
    }
  }

  // Growth

  /** The metadata of earlier roots stays right while the graph grows. */
  lemma DescribedStays(
    nodes: seq<Addr>, edges: Edges, index: map<Addr, Node>, nodes': seq<Addr>, edges': Edges, index': map<Addr, Node>,
    subgraphs: map<Addr, set<Node>>, indegrees: map<Addr, map<Node, nat>>)
    requires Indexed(nodes, index) && Indexed(nodes', index') && Grown(nodes, edges, nodes', edges')
    requires forall e :: e in edges ==> e.0.at < |nodes| && e.1.at < |nodes|
    requires Described(edges, index, subgraphs, indegrees)
    ensures Described(edges', index', subgraphs, indegrees)
  {
    forall root | root in subgraphs
      ensures root in index' && IsSlice(edges', index'[root], subgraphs[root])
      ensures IsTemplate(edges', subgraphs[root], indegrees[root])
    {
      RootStays(nodes, edges, index, nodes', edges', index', root, subgraphs[root], indegrees[root]);
    }
  }

  lemma RootStays(
    nodes: seq<Addr>, edges: Edges, index: map<Addr, Node>, nodes': seq<Addr>, edges': Edges, index': map<Addr, Node>,
    root: Addr, slice: set<Node>, template: map<Node, nat>)
    requires Indexed(nodes, index) && Indexed(nodes', index') && Grown(nodes, edges, nodes', edges')
    requires forall e :: e in edges ==> e.0.at < |nodes| && e.1.at < |nodes|
    requires root in index && IsSlice(edges, index[root], slice) && IsTemplate(edges, slice, template)
    ensures root in index' && IsSlice(edges', index'[root], slice) && IsTemplate(edges', slice, template)
  {
    assert nodes'[index[root].at] == root;
    SliceIsStable(edges, edges', |nodes|, index[root], slice);
  }

  lemma WiredStays(reg: Registry, nodes: seq<Addr>, edges: Edges, nodes': seq<Addr>, edges': Edges, lo: nat)
    requires Grown(nodes, edges, nodes', edges') && WiredFrom(reg, nodes, edges, lo)
    requires WiredFrom(reg, nodes', edges', |nodes|)
    ensures WiredFrom(reg, nodes', edges', lo)
  {
    forall i | lo <= i < |nodes'|
      ensures Wired(reg, nodes', edges', i)
    {
      if i < |nodes| {
        assert Wired(reg, nodes, edges, i);
        assert nodes'[i] == nodes[i];
      }
    }
  }

  lemma StillWiredUpTo(reg: Registry, nodes: seq<Addr>, edges: Edges, nodes': seq<Addr>, edges': Edges, i: nat, k: nat)
    requires Grown(nodes, edges, nodes', edges') && WiredUpTo(reg, nodes, edges, i, k)
    ensures WiredUpTo(reg, nodes', edges', i, k)
  {
    assert nodes'[i] == nodes[i];
  }

  /** Inserting a dependency leaves everything about the node that waits for it as it was. */
  lemma AfterInsertion(
    reg: Registry, nodes: seq<Addr>, edges: Edges, nodes': seq<Addr>, edges': Edges, i: nat, k: nat)
    requires Grown(nodes, edges, nodes', edges') && WiredUpTo(reg, nodes, edges, i, k)
    requires WiredFrom(reg, nodes, edges, i + 1) && WiredFrom(reg, nodes', edges', |nodes|)
    ensures WiredFrom(reg, nodes', edges', i + 1) && WiredUpTo(reg, nodes', edges', i, k)
  {
    WiredStays(reg, nodes, edges, nodes', edges', i + 1);
    StillWiredUpTo(reg, nodes, edges, nodes', edges', i, k);
  }

  lemma GrownBelow(nodes: seq<Addr>, edges: Edges, nodes': seq<Addr>, edges': Edges, k: nat)
    requires Grown(nodes, edges, nodes', edges') && k <= |nodes|
    ensures Grown(nodes[..k], edges, nodes', edges')
  {
  }

  lemma GrownByEdge(nodes: seq<Addr>, edges: Edges, nodes': seq<Addr>, edges': Edges, edges'': Edges, node: Node)
    requires Grown(nodes, edges, nodes', edges') && node.at <= |nodes|
    requires forall i: Node :: i != node ==> Parents(edges'', i) == Parents(edges', i)
    ensures Grown(nodes[..node.at], edges, nodes', edges'')
  {
    forall i | 0 <= i < node.at
      ensures Parents(edges'', Node(i)) == Parents(edges, Node(i))
    {
      assert Node(i) != node;
    }
  }

  lemma WireOneMore(reg: Registry, nodes: seq<Addr>, edges: Edges, child: Node, node: Node, j: nat)
    requires WiredUpTo(reg, nodes, edges, node.at, j) && j < |reg[nodes[node.at]]|
    requires child.at < |nodes| && nodes[child.at] == reg[nodes[node.at]][j]
    requires WiredFrom(reg, nodes, edges, node.at + 1)
    ensures var edges' := edges + [(child, node)];
            && WiredUpTo(reg, nodes, edges', node.at, j + 1)
            && WiredFrom(reg, nodes, edges', node.at + 1)
            && forall i: Node :: i != node ==> Parents(edges', i) == Parents(edges, i)
  {
    var edges' := edges + [(child, node)];
    forall i: Node
      ensures Parents(edges', i) == Parents(edges, i) + if i == node then [child] else []
    {
      ParentsAppend(edges, (child, node), i);
    }
    forall i | node.at + 1 <= i < |nodes|
      ensures Wired(reg, nodes, edges', i)
    {
      assert Wired(reg, nodes, edges, i);
    }
  }

  lemma {:induction false} NoParents(edges: Edges, n: Node)
    requires forall e :: e in edges ==> e.1 != n
    ensures Parents(edges, n) == []
  {
    if edges == [] {
    } else {
      NoParents(edges[..|edges| - 1], n);
      assert edges[|edges| - 1] in edges;
    }
  }

  // What is taken for granted

  /** The addresses of the first `k` nodes. */
  ghost function Earlier(nodes: seq<Addr>, k: nat): set<Addr> {
    set i | 0 <= i < k && i < |nodes| :: nodes[i]
  }

  lemma EarlierIsIndex(nodes: seq<Addr>, index: map<Addr, Node>)
    requires Indexed(nodes, index)
    ensures Earlier(nodes, |nodes|) == index.Keys && forall i :: 0 <= i < |nodes| ==> nodes[i] in index.Keys
  {
    forall a | a in index
      ensures a in Earlier(nodes, |nodes|)
    {
      assert nodes[index[a].at] == a;
    }
  }

  lemma EarlierIndexed(nodes: seq<Addr>, index: map<Addr, Node>, k: nat)
    requires Indexed(nodes, index)
    ensures Earlier(nodes, k) <= index.Keys
    ensures forall i :: k <= i < |nodes| ==> nodes[i] !in Earlier(nodes, k)
  {
  }

  lemma EarlierStays(nodes: seq<Addr>, nodes': seq<Addr>, k: nat)
    requires nodes <= nodes' && k <= |nodes|
    ensures Earlier(nodes', k) == Earlier(nodes, k)
  {
    assert forall i :: 0 <= i < |nodes| ==> nodes'[i] == nodes[i];
  }

  /** Edges into nodes below the bound come from below the bound. */
  ghost predicate Below(edges: Edges, bound: nat) {
    forall e :: e in edges && e.1.at < bound ==> e.0.at < bound
  }

  lemma BelowStays(nodes: seq<Addr>, edges: Edges, nodes': seq<Addr>, edges': Edges, bound: nat)
    requires Grown(nodes, edges, nodes', edges') && Below(edges, bound) && bound <= |nodes|
    ensures Below(edges', bound)
  {
    forall e | e in edges' && e.1.at < bound
      ensures e.0.at < bound
    {
      assert e == (e.0, e.1) && e.1 == Node(e.1.at);
      ParentsAreEdges(edges', e.0, e.1);
      ParentsAreEdges(edges, e.0, e.1);
    }
  }

  /** Cutting less off leaves more dependencies. */
  lemma CutDepends(reg: Registry, known: set<Addr>, more: set<Addr>)
    requires known <= more
    ensures Depends(Cut(reg, more)) <= Depends(Cut(reg, known))
  {
  }

  lemma CutExplains(reg: Registry, known: set<Addr>, more: set<Addr>, addr: Addr, e: GraphError)
    requires known <= more && Explains(Cut(reg, more), addr, e)
    ensures Explains(Cut(reg, known), addr, e)
  {
    CutDepends(reg, known, more);
    ReachMonotone(Depends(Cut(reg, more)), Depends(Cut(reg, known)), e.addr, addr);
    if e.WouldCycle? {
      PlusMonotone(Depends(Cut(reg, more)), Depends(Cut(reg, known)), e.addr, e.addr);
    }
  }

  lemma DependencyAtFault(reg: Registry, known: set<Addr>, more: set<Addr>, addr: Addr, j: nat, e: GraphError)
    requires addr in reg && addr !in known && known <= more && j < |reg[addr]|
    requires Explains(Cut(reg, more), reg[addr][j], e)
    ensures Explains(Cut(reg, known), addr, e)
  {
    var dep, r := reg[addr][j], Depends(Cut(reg, known));
    CutExplains(reg, known, more, dep, e);
    assert (dep, addr) in r;
    ReachStep(r, dep, addr);
    ReachTrans(r, e.addr, dep, addr);
  }

  /** A way through the graph that begins above the bound stays above it, where nothing is cut off. */
  lemma {:induction false} PathIsUncut(
    reg: Registry, nodes: seq<Addr>, edges: Edges, known: set<Addr>, bound: nat, a: Node, p: seq<Node>, b: Node)
    requires DeclaredEdges(reg, nodes, edges) && Below(edges, bound)
    requires forall i :: bound <= i < |nodes| ==> nodes[i] !in known
    requires bound <= a.at < |nodes| && b.at < |nodes| && Path(EdgeSet(edges), a, p, b)
    ensures Reach(Depends(Cut(reg, known)), nodes[a.at], nodes[b.at])
    decreases |p|
  {
    var r := Depends(Cut(reg, known));
    if p == [] {
      ReachRefl(r, nodes[a.at]);
    } else {
      assert (a, p[0]) in edges;
      PathIsUncut(reg, nodes, edges, known, bound, p[0], p[1..], b);
      assert (nodes[a.at], nodes[p[0].at]) in r;
      StepReach(r, nodes[a.at], nodes[p[0].at], nodes[b.at]);
    }
  }

  lemma CycleFound(reg: Registry, nodes: seq<Addr>, edges: Edges, known: set<Addr>, node: Node, child: Node)
    requires DeclaredEdges(reg, nodes, edges) && Below(edges, node.at) && node.at < |nodes| && child.at < |nodes|
    requires forall i :: node.at <= i < |nodes| ==> nodes[i] !in known
    requires nodes[child.at] in reg[nodes[node.at]] && Reach(EdgeSet(edges), node, child)
    ensures Explains(Cut(reg, known), nodes[node.at], WouldCycle(nodes[node.at]))
  {
    var r, a, d := Depends(Cut(reg, known)), nodes[node.at], nodes[child.at];
    var p :| Path(EdgeSet(edges), node, p, child);
    PathIsUncut(reg, nodes, edges, known, node.at, node, p, child);
    assert (d, a) in r;
    ReachRefl(r, a);
    StepReach(r, d, a, a);
    ReachPlus(r, a, d, a);
  }

  /** The execution graph with its per-root dispatch metadata. */
  class Graph {
    var nodes: seq<Addr>
    var edges: Edges
    var index: map<Addr, Node>
    var subgraphs: map<Addr, set<Node>>
    var indegrees: map<Addr, map<Node, nat>>

    /** Holds at every point of an insertion, also when it fails. */
    ghost predicate Sound(reg: Registry)
      reads this
    {
      Indexed(nodes, index) && DeclaredEdges(reg, nodes, edges) && Acyclic(EdgeSet(edges))
    }

    /** Holds after every history of insertions, failed ones included. */
    ghost predicate Recorded(reg: Registry)
      reads this
    {
      Sound(reg) && Described(edges, index, subgraphs, indegrees)
    }

    /** Holds after successful insertions. */
    ghost predicate Valid(reg: Registry)
      reads this
    {
      Recorded(reg) && WiredFrom(reg, nodes, edges, 0)
    }

    constructor ()
      ensures nodes == [] && edges == [] && subgraphs == map[]
      ensures forall reg :: Valid(reg)
    {
      nodes, edges, index, subgraphs, indegrees := [], [], map[], map[], map[];
    }

    /** The DAG's own cycle check: fails exactly when the new edge would close a cycle. */
    method AddEdge(reg: Registry, child: Node, node: Node) returns (ok: bool)
      requires Sound(reg) && child.at < |nodes| && node.at < |nodes| && nodes[child.at] in reg[nodes[node.at]]
      modifies this`edges
      ensures Sound(reg)
      ensures ok <==> !Reach(EdgeSet(old(edges)), node, child)
      ensures edges == if ok then old(edges) + [(child, node)] else old(edges)
    {
      var above := CollectSlice(edges, child);
      ok := node !in above;
      if ok {
        AddPairAcyclic(EdgeSet(edges), child, node);
        assert EdgeSet(edges + [(child, node)]) == EdgeSet(edges) + {(child, node)};
        edges := edges + [(child, node)];
      }
    }

    /** Inserts an address and, before it is wired to them, its dependencies; an inserted address is taken as it is. */
    method AddRecursive(reg: Registry, addr: Addr) returns (r: Result<Node, GraphError>)
      requires Sound(reg)
      modifies this`nodes, this`edges, this`index
      decreases reg.Keys - index.Keys, 0
      ensures NewAreDependencies(reg, |old(nodes)|, nodes, addr)
      ensures Sound(reg)
      ensures Grown(old(nodes), old(edges), nodes, edges) && old(index.Keys) <= index.Keys
      ensures r.Ok? ==> addr in index && r.value == index[addr]
      ensures r.Ok? ==> WiredFrom(reg, nodes, edges, |old(nodes)|)
      ensures r.Err? ==> Explains(Cut(reg, old(index.Keys)), addr, r.error)
      ensures r.Err? && r.error.WouldCycle? ==> r.error.addr in index
      ensures addr in reg ==> addr in index
      ensures addr in old(index) ==> r.Ok? && nodes == old(nodes) && edges == old(edges)
    {
      if addr in index {
        return Ok(index[addr]);
      }
      if addr !in reg {
        ReachRefl(Depends(Cut(reg, index.Keys)), addr);
        return Err(ProjectTransform(addr));
      }
      ghost var known := index.Keys;
      var node := Node(|nodes|);
      NoParents(edges, node);
      EarlierIsIndex(nodes, index);
      nodes := nodes + [addr];
      index := index[addr := node];
      EarlierStays(old(nodes), nodes, node.at);
      assert addr in reg.Keys - known && addr !in reg.Keys - index.Keys;
      var e := AddDependencies(reg, node, known);
      return if e.Some? then Err(e.value) else Ok(node);
    }

    /** The dependency loop of a node that was just inserted. */
    method AddDependencies(reg: Registry, node: Node, ghost known: set<Addr>) returns (e: Option<GraphError>)
      requires Sound(reg) && node.at + 1 == |nodes| && WiredUpTo(reg, nodes, edges, node.at, 0)
      requires Below(edges, node.at) && known == Earlier(nodes, node.at)
      modifies this`nodes, this`edges, this`index
      decreases reg.Keys - index.Keys, 3
      ensures NewAreDependencies(reg, node.at, nodes, old(nodes)[node.at])
      ensures Sound(reg)
      ensures old(nodes) <= nodes && old(index.Keys) <= index.Keys
      ensures Grown(old(nodes)[..node.at], old(edges), nodes, edges)
      ensures e.None? ==> WiredFrom(reg, nodes, edges, node.at)
      ensures e.Some? ==> Explains(Cut(reg, known), old(nodes)[node.at], e.value)
      ensures e.Some? && e.value.WouldCycle? ==> e.value.addr in index
    {
      ReachRefl(Depends(reg), nodes[node.at]);
      var deps := reg[nodes[node.at]];
      for j := 0 to |deps|
        invariant NewAreDependencies(reg, node.at, nodes, old(nodes)[node.at])
        invariant Sound(reg)
        invariant old(nodes) <= nodes && old(index.Keys) <= index.Keys
        invariant Grown(old(nodes)[..node.at], old(edges), nodes, edges) && Below(edges, node.at)
        invariant WiredFrom(reg, nodes, edges, node.at + 1)
        invariant WiredUpTo(reg, nodes, edges, node.at, j)
      {
        EarlierStays(old(nodes), nodes, node.at);
        e := AddDependency(reg, node, j, known);
        if e.Some? {
          return;
        }
      }
      e := None;
    }

    /** One turn of the dependency loop: insert the `j`-th dependency of `node` and wire it. */
    method AddDependency(reg: Registry, node: Node, j: nat, ghost known: set<Addr>) returns (e: Option<GraphError>)
      requires Sound(reg) && WiredUpTo(reg, nodes, edges, node.at, j) && j < |reg[nodes[node.at]]|
      requires WiredFrom(reg, nodes, edges, node.at + 1) && Below(edges, node.at) && known == Earlier(nodes, node.at)
      requires NewAreDependencies(reg, node.at, nodes, nodes[node.at])
      modifies this`nodes, this`edges, this`index
      decreases reg.Keys - index.Keys, 2
      ensures NewAreDependencies(reg, node.at, nodes, old(nodes)[node.at])
      ensures Sound(reg)
      ensures old(nodes) <= nodes && old(index.Keys) <= index.Keys
      ensures Grown(old(nodes)[..node.at], old(edges), nodes, edges) && Below(edges, node.at)
      ensures e.None? ==> WiredUpTo(reg, nodes, edges, node.at, j + 1) && WiredFrom(reg, nodes, edges, node.at + 1)
      ensures e.Some? ==> Explains(Cut(reg, known), old(nodes)[node.at], e.value)
      ensures e.Some? && e.value.WouldCycle? ==> e.value.addr in index
    {
      var child := InsertDependency(reg, node, j, known);
      GrownBelow(old(nodes), old(edges), nodes, edges, node.at);
      if child.Err? {
        return Some(child.error);
      }
      ghost var unwired := edges;
      e := Wire(reg, node, child.value, j, known);
      GrownByEdge(old(nodes), old(edges), nodes, unwired, edges, node);
    }

    /** Inserts the `j`-th dependency of `node`. */
    method InsertDependency(reg: Registry, node: Node, j: nat, ghost known: set<Addr>) returns (r: Result<Node, GraphError>)
      requires Sound(reg) && WiredUpTo(reg, nodes, edges, node.at, j) && j < |reg[nodes[node.at]]|
      requires WiredFrom(reg, nodes, edges, node.at + 1) && Below(edges, node.at) && known == Earlier(nodes, node.at)
      requires NewAreDependencies(reg, node.at, nodes, nodes[node.at])
      modifies this`nodes, this`edges, this`index
      decreases reg.Keys - index.Keys, 1
      ensures NewAreDependencies(reg, node.at, nodes, old(nodes)[node.at])
      ensures Sound(reg)
      ensures Grown(old(nodes), old(edges), nodes, edges) && old(index.Keys) <= index.Keys && Below(edges, node.at)
      ensures r.Ok? ==> WiredUpTo(reg, nodes, edges, node.at, j) && WiredFrom(reg, nodes, edges, node.at + 1)
      ensures r.Ok? ==> r.value.at < |nodes| && nodes[r.value.at] == reg[old(nodes)[node.at]][j]
      ensures r.Err? ==> Explains(Cut(reg, known), old(nodes)[node.at], r.error)
      ensures r.Err? && r.error.WouldCycle? ==> r.error.addr in index
      ensures known == Earlier(nodes, node.at)
    {
      var addr := nodes[node.at];
      EarlierIndexed(nodes, index, node.at);
      r := AddRecursive(reg, reg[addr][j]);
      MoreDependencies(reg, node.at, old(nodes), nodes, addr, j);
      BelowStays(old(nodes), old(edges), nodes, edges, node.at);
      EarlierStays(old(nodes), nodes, node.at);
      if r.Err? {
        DependencyAtFault(reg, known, old(index.Keys), addr, j, r.error);
      } else {
        AfterInsertion(reg, old(nodes), old(edges), nodes, edges, node.at, j);
      }
    }

    /** Adds the edge from the `j`-th dependency of `node`, unless it would close a cycle. */
    method Wire(reg: Registry, node: Node, child: Node, j: nat, ghost known: set<Addr>) returns (e: Option<GraphError>)
      requires Sound(reg) && WiredUpTo(reg, nodes, edges, node.at, j) && j < |reg[nodes[node.at]]|
      requires child.at < |nodes| && nodes[child.at] == reg[nodes[node.at]][j]
      requires WiredFrom(reg, nodes, edges, node.at + 1) && Below(edges, node.at) && known == Earlier(nodes, node.at)
      modifies this`edges
      ensures Sound(reg) && Below(edges, node.at)
      ensures forall i: Node :: i != node ==> Parents(edges, i) == Parents(old(edges), i)
      ensures e.None? ==> WiredUpTo(reg, nodes, edges, node.at, j + 1) && WiredFrom(reg, nodes, edges, node.at + 1)
      ensures e.Some? ==> Explains(Cut(reg, known), nodes[node.at], e.value)
      ensures e.Some? && e.value.WouldCycle? ==> e.value.addr in index
    {
      var ok := AddEdge(reg, child, node);
      if !ok {
        EarlierIndexed(nodes, index, node.at);
        CycleFound(reg, nodes, edges, known, node, child);
        return Some(WouldCycle(nodes[node.at]));
      }
      WireOneMore(reg, nodes, old(edges), child, node, j);
      return None;
    }

    /**
     * Inserts `addr` with its dependencies and computes its dispatch metadata.
     * It succeeds exactly when the address is buildable from what is not inserted yet: the dependencies of
     * inserted addresses are not looked at again. From a graph built by successful insertions only, this means
     * that the address is buildable. After every history the metadata of all roots agrees with the edges.
     */
    method Add(reg: Registry, addr: Addr) returns (r: Result<Node, GraphError>)
      requires Recorded(reg)
      modifies this
      ensures NewAreDependencies(reg, |old(nodes)|, nodes, addr)
      ensures Recorded(reg)
      ensures r.Ok? <==> Buildable(Cut(reg, old(index.Keys)), addr)
      ensures r.Err? ==> Explains(Cut(reg, old(index.Keys)), addr, r.error)
      ensures r.Err? && r.error.WouldCycle? ==> r.error.addr in index
      ensures old(Valid(reg)) ==> (r.Ok? <==> Buildable(reg, addr)) && (r.Ok? ==> Valid(reg))
      ensures r.Ok? ==> addr in subgraphs && r.value == index[addr]
      ensures addr in old(index) ==> r.Ok?
      ensures r.Err? ==> Explains(reg, addr, r.error) && subgraphs == old(subgraphs) && indegrees == old(indegrees)
      ensures forall root :: root in old(subgraphs) && root != addr ==>
                root in subgraphs && subgraphs[root] == old(subgraphs)[root] && indegrees[root] == old(indegrees)[root]
      ensures Grown(old(nodes), old(edges), nodes, edges)
      ensures addr in reg ==> addr in index
    {
      var idx := AddRecursive(reg, addr);
      DescribedStays(old(nodes), old(edges), old(index), nodes, edges, index, subgraphs, indegrees);
      if idx.Err? {
        NotBuildable(Cut(reg, old(index.Keys)), addr, idx.error);
        CutExplains(reg, {}, old(index.Keys), addr, idx.error);
        NothingCut(reg);
        NotBuildable(reg, addr, idx.error);
        return idx;
      }
      EarlierIsIndex(old(nodes), old(index));
      WiredMeansBuildable(reg, nodes, edges, index, old(index.Keys), |old(nodes)|, addr);
      if old(Valid(reg)) {
        WiredStays(reg, old(nodes), old(edges), nodes, edges, 0);
        WiredMeansBuildable(reg, nodes, edges, index, {}, 0, addr);
        NothingCut(reg);
      }
      Describe(addr);
      return idx;
    }

    /** Records the dependency slice and the indegree template of a root. */
    method Describe(root: Addr)
      requires root in index && Described(edges, index, subgraphs, indegrees)
      modifies this`subgraphs, this`indegrees
      ensures Described(edges, index, subgraphs, indegrees)
      ensures root in subgraphs
      ensures forall other :: other in old(subgraphs) && other != root ==>
                && other in subgraphs && subgraphs[other] == old(subgraphs)[other]
                && indegrees[other] == old(indegrees)[other]
    {
      var slice := CollectSlice(edges, index[root]);
      var template := CountParents(edges, slice);
      SliceCountsAllParents(edges, index[root], slice, template);
      subgraphs := subgraphs[root := slice];
      indegrees := indegrees[root := template];
    }
  }

  /** The least address that is registered and not buildable: one that depends on itself. */
  lemma SelfDependency(addr: Addr)
    ensures !Buildable(map[addr := [addr]], addr)
  {
    var reg: Registry := map[addr := [addr]];
    assert addr in reg[addr];
    assert (addr, addr) in Depends(reg);
    ReachRefl(Depends(reg), addr);
    StepReach(Depends(reg), addr, addr, addr);
  }

  /**
   * A failed insertion leaves half-wired nodes behind: inserting the same registered address again takes the
   * fast path and reports success, so the outcome of a retry says nothing about buildability.
   */
  method RetryAfterFailure(g: Graph, reg: Registry, addr: Addr) returns (first: Result<Node, GraphError>, second: Result<Node, GraphError>)
    requires g.Valid(reg) && !Buildable(reg, addr)
    modifies g
    ensures first.Err? && g.Recorded(reg)
    ensures second.Ok? <==> addr in reg
  {
    first := g.Add(reg, addr);
    second := g.Add(reg, addr);
  }

  /** An address is buildable from inserted ones alone when it is registered and all it depends on is inserted. */
  lemma KnownDependencies(reg: Registry, known: set<Addr>, addr: Addr)
    requires addr in reg && known <= reg.Keys && addr !in known && forall d :: d in reg[addr] ==> d in known
    ensures Buildable(Cut(reg, known), addr)
  {
    var r := Depends(Cut(reg, known));
    forall a | Reach(r, a, addr)
      ensures a in reg && !Plus(r, a, a)
    {
      ReachCases(r, a, addr);
      KnownReach(reg, known, a, addr);
    }
  }

  lemma KnownReach(reg: Registry, known: set<Addr>, a: Addr, addr: Addr)
    requires addr in reg && known <= reg.Keys && addr !in known && forall d :: d in reg[addr] ==> d in known
    requires Reach(Depends(Cut(reg, known)), a, addr)
    ensures (a == addr || a in known) && !Plus(Depends(Cut(reg, known)), a, a)
  {
    var r := Depends(Cut(reg, known));
    var near := known + {addr};
    assert PredClosed(r, near);
    ClosedHoldsReach(r, near, a, addr);
    if Plus(r, a, a) {
      var u := LastStep(r, a, a);
      assert a == addr && u in known;
      ClosedHoldsReach(r, known, a, u);
    }
  }

  /**
   * The failure spreads: what depends on an address that could not be inserted is inserted without complaint,
   * although it is not buildable.
   */
  method DependentAfterFailure(g: Graph, reg: Registry, addr: Addr, user: Addr)
    returns (first: Result<Node, GraphError>, second: Result<Node, GraphError>)
    requires g.Valid(reg) && addr in reg && !Buildable(reg, addr) && user in reg && reg[user] == [addr]
    modifies g
    ensures first.Err? && second.Ok? && !Buildable(reg, user)
  {
    first := g.Add(reg, addr);
    BrokenDependency(reg, addr, user);
    IndexedRegistered(reg, g.nodes, g.edges, g.index);
    if user !in g.index {
      KnownDependencies(reg, g.index.Keys, user);
    }
    second := g.Add(reg, user);
  }

  lemma BrokenDependency(reg: Registry, addr: Addr, user: Addr)
    requires user in reg && addr in reg[user] && !Buildable(reg, addr)
    ensures !Buildable(reg, user)
  {
    var r := Depends(reg);
    assert (addr, user) in r;
    ReachStep(r, addr, user);
    var a :| Reach(r, a, addr) && !(a in reg && !Plus(r, a, a));
    ReachTrans(r, a, addr, user);
  }
}
