/** Scheduling and storage together: the inputs of a dispatched transform are in the local cache. */
module Availability {
  import opened Prelude
  import opened Relations
  import opened Multigraph
  import opened Scheduler
  import opened SchedulerInvariant
  import opened SchedulerTheorems
  import opened Ids
  import opened Catalogs
  import Files = LocalStore
  import LocalBackend
  import Transfer

  /** A run together with the files of the local cache. */
  datatype World = World(s: State, store: Files.Store)

  datatype Event = Scheduled(step: Step) | Stored(op: Files.Op)

  /** Operations other than deleting and pruning. */
  predicate Additive(op: Files.Op) {
    op.OpStart? || op.OpWrite? || op.OpFinish? || op.OpSave? || op.OpCopy?
  }

  /** Opening succeeds and all layers can be read. */
  ghost predicate Available(store: Files.Store, id: Id) {
    var m := Files.Load(store).manifests;
    id in m && forall i :: 0 <= i < |m[id].layers| ==> m[id].layers[i].digest in store.blobs
  }

  /**
   * A transform reports success only after it saved its artifact under its id; besides, anybody may add to the
   * cache at any time, but nothing is pruned during a run.
   */
  ghost predicate Allowed(plan: Plan, ids: map<Node, Id>, w: World, e: Event) {
    match e
    case Scheduled(step) =>
      && Enabled(plan, w.s, step)
      && (step.Finish? && step.error.None? ==> step.node in ids && ids[step.node] in Files.Load(w.store).manifests)
    case Stored(op) => Additive(op)
  }

  ghost function After(h: Files.Hash, plan: Plan, ids: map<Node, Id>, w: World, e: Event): World
    requires Allowed(plan, ids, w, e)
  {
    match e
    case Scheduled(step) => World(Apply(plan, w.s, step), w.store)
    case Stored(op) => World(w.s, Files.Do(h, w.store, op))
  }

  ghost predicate Leads(h: Files.Hash, plan: Plan, ids: map<Node, Id>, w: World, events: seq<Event>, w': World)
    decreases |events|
  {
    if events == [] then w == w'
    else Allowed(plan, ids, w, events[0]) && Leads(h, plan, ids, After(h, plan, ids, w, events[0]), events[1..], w')
  }

  /** What `fetch` establishes: every node marked as a hit is in the local cache. */
  ghost predicate HitsCached(plan: Plan, ids: map<Node, Id>, store: Files.Store) {
    forall n :: n in plan.hits && n in plan.slice ==> n in ids && ids[n] in Files.Load(store).manifests
  }

  /** Every reported or received success, and every promoted node, has its artifact in the cache. */
  ghost predicate ResultsCached(plan: Plan, ids: map<Node, Id>, w: World) {
    && HitsCached(plan, ids, w.store)
    && forall c :: (c in w.s.done || c in w.s.received) && c.error.None? ==>
         c.node in ids && ids[c.node] in Files.Load(w.store).manifests
  }

  ghost predicate Good(h: Files.Hash, plan: Plan, ids: map<Node, Id>, w: World) {
    Inv(plan, w.s) && Files.Intact(h, w.store) && ResultsCached(plan, ids, w)
  }

  lemma AdditiveGrows(h: Files.Hash, store: Files.Store, op: Files.Op)
    requires Additive(op)
    ensures Files.Load(store).manifests.Keys <= Files.Load(Files.Do(h, store, op)).manifests.Keys
  {
  }

  lemma StepResults(plan: Plan, ids: map<Node, Id>, w: World, step: Step)
    requires ResultsCached(plan, ids, w) && Allowed(plan, ids, w, Scheduled(step))
    ensures ResultsCached(plan, ids, World(Apply(plan, w.s, step), w.store))
  {
    var t := Apply(plan, w.s, step);
    if step.Receive? {
      ReceiveTouches(plan, w.s);
      assert w.s.done == [w.s.done[0]] + t.done;
      assert forall c :: c in t.done || c in t.received ==> c in w.s.done || c in w.s.received;
    } else if step.Finish? {
      assert forall c :: c in t.done ==> c in w.s.done || c == Completion(step.node, step.error);
    } else {
      assert t.done == w.s.done && t.received == w.s.received;
    }
  }

  lemma EventKeeps(h: Files.Hash, plan: Plan, ids: map<Node, Id>, w: World, e: Event)
    requires WellFormed(plan) && Good(h, plan, ids, w) && Allowed(plan, ids, w, e)
    ensures Good(h, plan, ids, After(h, plan, ids, w, e))
  {
    match e
    case Scheduled(step) =>
      StepKeeps(plan, w.s, step);
      StepResults(plan, ids, w, step);
    case Stored(op) =>
      Files.OpKeeps(h, w.store, op);
      AdditiveGrows(h, w.store, op);
  }

  lemma {:induction false} LeadsKeeps(h: Files.Hash, plan: Plan, ids: map<Node, Id>, w: World, events: seq<Event>, w': World)
    requires WellFormed(plan) && Good(h, plan, ids, w) && Leads(h, plan, ids, w, events, w')
    ensures Good(h, plan, ids, w')
    decreases |events|
  {
    if events == [] {
    } else {
      EventKeeps(h, plan, ids, w, events[0]);
      LeadsKeeps(h, plan, ids, After(h, plan, ids, w, events[0]), events[1..], w');
    }
  }

  /** A settled node has its artifact in the cache. */
  lemma SettledCached(h: Files.Hash, plan: Plan, ids: map<Node, Id>, w: World, u: Node)
    requires Good(h, plan, ids, w) && u in w.s.settled
    ensures u in ids && Available(w.store, ids[u])
  {
    if u in Promoted(plan) {
      ReachRefl(EdgeSet(plan.edges), u);
    } else {
      assert Completion(u, None) in w.s.received;
    }
  }

  /**
   * Dispatch implies inputs: in every interleaving of driver, workers, token and storage, when a node has been
   * dispatched the artifacts of everything it transitively depends on can be opened and read locally.
   */
  lemma InputsAvailable(
    h: Files.Hash, plan: Plan, ids: map<Node, Id>, w: World, events: seq<Event>, w': World, n: Node, u: Node)
    requires WellFormed(plan) && Init(plan, w.s) && Files.Intact(h, w.store) && HitsCached(plan, ids, w.store)
    requires Leads(h, plan, ids, w, events, w')
    requires n in w'.s.dispatched && Plus(EdgeSet(plan.edges), u, n)
    ensures u in ids && Available(w'.store, ids[u])
  {
    InitHolds(plan, w.s);
    LeadsKeeps(h, plan, ids, w, events, w');
    AncestorSettled(plan, w'.s, u, n);
    SettledCached(h, plan, ids, w', u);
  }

  /** A run that reports success leaves the artifacts of the whole slice in the local cache, ready to be read. */
  lemma OutputsAvailable(h: Files.Hash, plan: Plan, ids: map<Node, Id>, w: World, events: seq<Event>, w': World, n: Node)
    requires WellFormed(plan) && Init(plan, w.s) && Files.Intact(h, w.store) && HitsCached(plan, ids, w.store)
    requires Leads(h, plan, ids, w, events, w') && w'.s.phase.Exited? && Report(w'.s).Done? && n in plan.slice
    ensures n in ids && Available(w'.store, ids[n])
  {
    InitHolds(plan, w.s);
    LeadsKeeps(h, plan, ids, w, events, w');
    AllSettledAtExit(plan, w'.s);
    SettledCached(h, plan, ids, w', n);
  }

  /** From this cache on, every run finds the inputs of what it dispatches, and leaves its results when it succeeds. */
  ghost predicate Provides(h: Files.Hash, plan: Plan, ids: map<Node, Id>, store: Files.Store) {
    forall s, events, w' :: Init(plan, s) && Leads(h, plan, ids, World(s, store), events, w') ==>
      && (forall n, u :: n in w'.s.dispatched && Plus(EdgeSet(plan.edges), u, n) ==> u in ids && Available(w'.store, ids[u]))
      && (w'.s.phase.Exited? && Report(w'.s).Done? ==> forall n :: n in plan.slice ==> n in ids && Available(w'.store, ids[n]))
  }

  lemma CachedProvides(h: Files.Hash, plan: Plan, ids: map<Node, Id>, store: Files.Store)
    requires WellFormed(plan) && Files.Intact(h, store) && HitsCached(plan, ids, store)
    ensures Provides(h, plan, ids, store)
  {
    forall s, events, w' | Init(plan, s) && Leads(h, plan, ids, World(s, store), events, w')
      ensures forall n, u :: n in w'.s.dispatched && Plus(EdgeSet(plan.edges), u, n) ==> u in ids && Available(w'.store, ids[u])
      ensures w'.s.phase.Exited? && Report(w'.s).Done? ==> forall n :: n in plan.slice ==> n in ids && Available(w'.store, ids[n])
    {
      forall n, u | n in w'.s.dispatched && Plus(EdgeSet(plan.edges), u, n)
        ensures u in ids && Available(w'.store, ids[u])
      {
        InputsAvailable(h, plan, ids, World(s, store), events, w', n, u);
      }
      if w'.s.phase.Exited? && Report(w'.s).Done? {
        forall n | n in plan.slice
          ensures n in ids && Available(w'.store, ids[n])
        {
          OutputsAvailable(h, plan, ids, World(s, store), events, w', n);
        }
      }
    }
  }

  /** One probe of `fetch`: the id is found locally, or it could be synchronised from the build cache. */
  method Probe(
    local: LocalBackend.Backend, build: Option<Transfer.Remote>, id: Id, finish: seq<Layer> -> seq<Layer>, target: string)
    returns (r: Result<bool, Files.StoreError>)
    requires local.Intact() && Transfer.Shuffles(finish) && (build.Some? ==> Transfer.WellFiled(build.value))
    modifies local`catalog, local`blobs, local`temps, local`writers
    ensures local.Intact()
    ensures r.Ok? ==> (r.value <==> Cached(old(Keys(local)), build, id))
    ensures r.Err? <==> id !in old(Keys(local)) && Unfetchable(local.hash, old(local.Value()), build, id)
    ensures local.dir == old(local.dir) && forall d :: d in old(local.blobs) ==> d in local.blobs
    ensures r.Ok? ==> Keys(local) == old(Keys(local)) + if r.value then {id} else {}
  {
    var found := Transfer.FindBuild(local, build, id, true, finish, target);
    if found.Err? {
      return Err(found.error);
    }
    r := Ok(found.value.Some?);
    forall k
      ensures k in Keys(local) <==> k in old(Keys(local)) || (found.value.Some? && k == id)
    {
      assert Transfer.Opened(local, k).Some? <==> k in Keys(local);
      assert old(Transfer.Opened(local, k)).Some? <==> k in old(Keys(local));
    }
  }

  ghost function Keys(local: LocalBackend.Backend): set<Id>
    reads local
  {
    Files.Load(local.Value()).manifests.Keys
  }

  /** The build cache has the artifact, and it cannot be copied. */
  ghost predicate Unfetchable(h: Files.Hash, store: Files.Store, build: Option<Transfer.Remote>, id: Id) {
    build.Some? && id in build.value.manifests && !Transfer.Downloadable(h, store, build.value, build.value.manifests[id])
  }

  /** What cannot be copied later on could not be copied before, when there were fewer blobs. */
  lemma UnfetchableBefore(h: Files.Hash, store: Files.Store, later: Files.Store, build: Option<Transfer.Remote>, id: Id)
    requires Unfetchable(h, later, build, id) && later.dir == store.dir && forall d :: d in store.blobs ==> d in later.blobs
    ensures Unfetchable(h, store, build, id)
  {
  }

  /** Some node is not cached locally and cannot be copied from the build cache. */
  ghost predicate SomeUnfetchable(
    h: Files.Hash, store: Files.Store, build: Option<Transfer.Remote>, nodes: seq<Node>, ids: map<Node, Id>)
  {
    exists n :: n in nodes && n in ids && ids[n] !in Files.Load(store).manifests && Unfetchable(h, store, build, ids[n])
  }

  /** Where a build result may come from: the local cache or the build cache. */
  ghost predicate Cached(keys: set<Id>, build: Option<Transfer.Remote>, id: Id) {
    id in keys || (build.Some? && id in build.value.manifests)
  }

  /** The cache part of `fetch`: the hits are exactly the nodes whose id is in one of the two caches beforehand. */
  method FetchHits(
    local: LocalBackend.Backend, build: Option<Transfer.Remote>, nodes: seq<Node>, ids: map<Node, Id>,
    finish: seq<Layer> -> seq<Layer>, target: string)
    returns (r: Result<set<Node>, Files.StoreError>)
    requires local.Intact() && Transfer.Shuffles(finish) && (build.Some? ==> Transfer.WellFiled(build.value))
    requires forall i :: 0 <= i < |nodes| ==> nodes[i] in ids
    modifies local`catalog, local`blobs, local`temps, local`writers
    ensures local.Intact()
    ensures r.Ok? ==> forall n :: n in r.value <==> n in nodes && Cached(old(Keys(local)), build, ids[n])
    ensures r.Ok? ==> forall n :: n in r.value ==> ids[n] in Keys(local)
    ensures r.Err? ==> SomeUnfetchable(local.hash, old(local.Value()), build, nodes, ids)
  {
    var hits: set<Node> := {};
    for i := 0 to |nodes|
      invariant local.Intact()
      invariant forall n :: n in hits ==> n in nodes && ids[n] in Keys(local)
      invariant old(Keys(local)) <= Keys(local)
      invariant local.dir == old(local.dir) && forall d :: d in old(local.blobs) ==> d in local.blobs
      invariant forall k :: k in Keys(local) ==> Cached(old(Keys(local)), build, k)
      invariant forall n :: n in hits <==> n in nodes[..i] && Cached(old(Keys(local)), build, ids[n])
    {
      ghost var before := local.Value();
      var hit := Probe(local, build, ids[nodes[i]], finish, target);
      if hit.Err? {
        UnfetchableBefore(local.hash, old(local.Value()), before, build, ids[nodes[i]]);
        return Err(hit.error);
      }
      assert nodes[..i + 1] == nodes[..i] + [nodes[i]];
      if hit.value {
        hits := hits + {nodes[i]};
      }
    }
    assert nodes[..|nodes|] == nodes;
    r := Ok(hits);
  }

  /** `fetch` provides for every run of its nodes that takes the hits from it. */
  method FetchForRuns(
    local: LocalBackend.Backend, build: Option<Transfer.Remote>, nodes: seq<Node>, ids: map<Node, Id>,
    finish: seq<Layer> -> seq<Layer>, target: string)
    returns (r: Result<set<Node>, Files.StoreError>)
    requires local.Intact() && Transfer.Shuffles(finish) && (build.Some? ==> Transfer.WellFiled(build.value))
    requires forall i :: 0 <= i < |nodes| ==> nodes[i] in ids
    modifies local`catalog, local`blobs, local`temps, local`writers
    ensures local.Intact()
    ensures r.Ok? ==> forall n :: n in r.value <==> n in nodes && Cached(old(Keys(local)), build, ids[n])
    ensures r.Err? ==> SomeUnfetchable(local.hash, old(local.Value()), build, nodes, ids)
    ensures r.Ok? ==> forall plan :: WellFormed(plan) && plan.hits == r.value ==> Provides(local.hash, plan, ids, local.Value())
  {
    r := FetchHits(local, build, nodes, ids, finish, target);
    if r.Ok? {
      ghost var h, store := local.hash, local.Value();
      forall plan | WellFormed(plan) && plan.hits == r.value
        ensures Provides(h, plan, ids, store)
      {
        CachedProvides(h, plan, ids, store);
      }
    }
  }
}
