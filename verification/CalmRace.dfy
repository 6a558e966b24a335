/**
 * When concurrent saves and deletions leave no manifest without its blobs: as long as no sweep removes a blob
 * that a save has already checked and not yet committed.
 */
module CalmRace {
  import opened Prelude
  import opened Ids
  import opened Catalogs
  import opened StoreRace

  ghost predicate Named(layers: seq<Layer>, d: string) {
    exists i :: 0 <= i < |layers| && layers[i].digest == d
  }

  /** Every layer of every manifest has its blob. */
  ghost predicate Backed(manifests: map<Id, Artifact>, blobs: set<string>) {
    forall id, d :: id in manifests && Named(manifests[id].layers, d) ==> d in blobs
  }

  /** A save has found the blob and relies on it until its commit. */
  ghost predicate Pinned(job: Job, pc: Pc, d: string) {
    job.SaveJob? &&
    match pc
    case SaveChecking(i) => exists k :: 0 <= k < i && k < |job.artifact.layers| && job.artifact.layers[k].digest == d
    case Waiting => Named(job.artifact.layers, d)
    case Holding => Named(job.artifact.layers, d)
    case Loaded(_) => Named(job.artifact.layers, d)
    case _ => false
  }

  ghost predicate PinsKept(jobs: Jobs, pcs: map<Thread, Pc>, blobs: set<string>) {
    forall t, d :: t in pcs && t in jobs && Pinned(jobs[t], pcs[t], d) ==> d in blobs
  }

  /** The step removes a blob that a save relies on. */
  ghost predicate Races(jobs: Jobs, s: State, step: Step)
    requires Enabled(jobs, s, step)
  {
    exists t, d :: t in s.pcs && t in jobs && Pinned(jobs[t], s.pcs[t], d) && d in s.blobs && d !in Apply(jobs, s, step).blobs
  }

  /** A run in which no step races. */
  ghost predicate CalmRuns(jobs: Jobs, s: State, steps: seq<Step>, t: State)
    decreases |steps|
  {
    if steps == [] then s == t
    else
      && Enabled(jobs, s, steps[0]) && !Races(jobs, s, steps[0])
      && CalmRuns(jobs, Apply(jobs, s, steps[0]), steps[1..], t)
  }

  lemma PinsStay(jobs: Jobs, s: State, t: Thread)
    requires PinsKept(jobs, s.pcs, s.blobs) && Enabled(jobs, s, Move(t)) && !Races(jobs, s, Move(t))
    ensures var s' := Apply(jobs, s, Move(t)); PinsKept(jobs, s'.pcs, s'.blobs)
  {
    var s' := Apply(jobs, s, Move(t));
    forall u, d | u in s'.pcs && u in jobs && Pinned(jobs[u], s'.pcs[u], d)
      ensures d in s'.blobs
    {
      if u == t {
        NewPin(jobs, s, t, d);
      } else {
        assert Pinned(jobs[u], s.pcs[u], d);
      }
    }
  }

  /** A thread comes to rely on nothing but the blob that it has just seen. */
  lemma NewPin(jobs: Jobs, s: State, t: Thread, d: string)
    requires Enabled(jobs, s, Move(t)) && t in Apply(jobs, s, Move(t)).pcs
    requires Pinned(jobs[t], Apply(jobs, s, Move(t)).pcs[t], d)
    ensures Pinned(jobs[t], s.pcs[t], d) || (d in s.blobs && Apply(jobs, s, Move(t)).blobs == s.blobs)
  {
  }

  lemma BackedStays(jobs: Jobs, start: Contents, s: State, t: Thread)
    requires Inv(jobs, start, s) && Enabled(jobs, s, Move(t))
    requires Backed(s.catalog.manifests, s.blobs) && PinsKept(jobs, s.pcs, s.blobs)
    ensures var s' := Apply(jobs, s, Move(t)); Backed(s'.catalog.manifests, s'.blobs)
  {
    var s' := Apply(jobs, s, Move(t));
    if s.pcs[t].Loaded? {
      CommitBacked(jobs, s, t);
    } else if s.pcs[t].SweepFound? {
      SweepBacked(jobs, start, s, t);
    } else {
      assert s'.catalog == s.catalog && s'.blobs == s.blobs;
    }
  }

  lemma CommitBacked(jobs: Jobs, s: State, t: Thread)
    requires CopiesFresh(s.pcs, s.catalog) && Enabled(jobs, s, Move(t)) && s.pcs[t].Loaded?
    requires Backed(s.catalog.manifests, s.blobs) && PinsKept(jobs, s.pcs, s.blobs)
    ensures var s' := Apply(jobs, s, Move(t)); Backed(s'.catalog.manifests, s'.blobs)
  {
    assert s.pcs[t].c == s.catalog;
    if jobs[t].SaveJob? {
      forall d | Named(jobs[t].artifact.layers, d)
        ensures d in s.blobs
      {
        assert Pinned(jobs[t], s.pcs[t], d);
      }
    }
  }

  lemma SweepBacked(jobs: Jobs, start: Contents, s: State, t: Thread)
    requires Inv(jobs, start, s) && Enabled(jobs, s, Move(t)) && s.pcs[t].SweepFound?
    requires Backed(s.catalog.manifests, s.blobs)
    ensures var s' := Apply(jobs, s, Move(t)); Backed(s'.catalog.manifests, s'.blobs)
  {
    var d := s.pcs[t].layers[s.pcs[t].i].digest;
    assert CopyOf(s.pcs[t]).value == s.catalog && CountOf(s.catalog.counts, d) <= 0;
    assert Apply(jobs, s, Move(t)).blobs == s.blobs - {d} && Apply(jobs, s, Move(t)).catalog == s.catalog;
    Unreferenced(s.catalog.manifests, d);
  }

  lemma {:induction false} CalmKeeps(jobs: Jobs, start: Contents, s: State, steps: seq<Step>, t: State)
    requires Inv(jobs, start, s) && CalmRuns(jobs, s, steps, t)
    requires Backed(s.catalog.manifests, s.blobs) && PinsKept(jobs, s.pcs, s.blobs)
    ensures Backed(t.catalog.manifests, t.blobs)
    decreases |steps|
  {
    if steps == [] {
    } else {
      var s' := Apply(jobs, s, steps[0]);
      StepKeeps(jobs, start, s, steps[0]);
      if steps[0].Move? {
        PinsStay(jobs, s, steps[0].t);
        BackedStays(jobs, start, s, steps[0].t);
      } else {
        assert s'.pcs == s.pcs && s'.catalog == s.catalog && s.blobs <= s'.blobs;
      }
      CalmKeeps(jobs, start, s', steps[1..], t);
    }
  }

  /** In every interleaving without a race between check and sweep, all layers of all manifests have their blobs. */
  lemma CalmRunsStayBacked(jobs: Jobs, s0: State, steps: seq<Step>, s: State)
    requires Init(jobs, s0) && Backed(s0.catalog.manifests, s0.blobs) && CalmRuns(jobs, s0, steps, s)
    ensures Backed(s.catalog.manifests, s.blobs)
  {
    InitHolds(jobs, s0);
    CalmKeeps(jobs, s0.catalog, s0, steps, s);
  }

  // Jobs that have nothing to do with each other

  /** A layer list that the identifier can have at some time: the initial one or that of a save. */
  ghost predicate Possible(jobs: Jobs, c: Contents, id: Id, layers: seq<Layer>) {
    || (id in c.manifests && layers == c.manifests[id].layers)
    || exists t :: t in jobs && jobs[t].SaveJob? && jobs[t].artifact.id == id && jobs[t].artifact.layers == layers
  }

  /** No deletion can come to sweep a layer that a save is about to use. */
  ghost predicate Apart(jobs: Jobs, c: Contents) {
    forall t, u, layers, d | t in jobs && u in jobs && jobs[t].DelJob? && jobs[u].SaveJob? ::
      Possible(jobs, c, jobs[t].id, layers) && Named(layers, d) ==> !Named(jobs[u].artifact.layers, d)
  }

  /** The layers that a deletion is sweeping or about to sweep. */
  function Swept(pc: Pc): Option<seq<Layer>> {
    if pc.Flushed? || pc.Sweeping? || HasReadLock(pc) then Some(pc.layers) else None
  }

  ghost predicate ManifestsTraced(jobs: Jobs, c: Contents, manifests: map<Id, Artifact>) {
    forall id :: id in manifests ==> Possible(jobs, c, id, manifests[id].layers)
  }

  ghost predicate SweepsTraced(jobs: Jobs, c: Contents, pcs: map<Thread, Pc>) {
    forall t :: t in pcs && t in jobs && Swept(pcs[t]).Some? ==>
      if jobs[t].DelJob? then Possible(jobs, c, jobs[t].id, Swept(pcs[t]).value) else pcs[t].Flushed?
  }

  lemma MoveTraced(jobs: Jobs, c: Contents, s: State, t: Thread)
    requires ManifestsTraced(jobs, c, s.catalog.manifests) && SweepsTraced(jobs, c, s.pcs)
    requires CopiesFresh(s.pcs, s.catalog) && Enabled(jobs, s, Move(t))
    ensures var s' := Apply(jobs, s, Move(t));
            ManifestsTraced(jobs, c, s'.catalog.manifests) && SweepsTraced(jobs, c, s'.pcs)
  {
    var s' := Apply(jobs, s, Move(t));
    if s.pcs[t].Loaded? {
      assert CopyOf(s.pcs[t]).value == s.catalog;
      EffectTraced(jobs, c, s.catalog, t);
    } else {
      OnlyCommitsWrite(jobs, s, t);
      SweepGoesOn(jobs, s, t);
    }
  }

  /** A sweep goes on with the same layers. */
  lemma SweepGoesOn(jobs: Jobs, s: State, t: Thread)
    requires Enabled(jobs, s, Move(t)) && !s.pcs[t].Loaded?
    ensures var s' := Apply(jobs, s, Move(t));
            && t in s'.pcs && s'.pcs == s.pcs[t := s'.pcs[t]]
            && (Swept(s'.pcs[t]).Some? ==>
                  Swept(s'.pcs[t]) == Swept(s.pcs[t]) && (jobs[t].DelJob? || !s.pcs[t].Flushed?) && !s'.pcs[t].Flushed?)
  {
  }

  lemma EffectTraced(jobs: Jobs, c: Contents, now: Contents, t: Thread)
    requires t in jobs && ManifestsTraced(jobs, c, now.manifests)
    ensures ManifestsTraced(jobs, c, Effect(now, jobs[t]).manifests)
  {
    var next := Effect(now, jobs[t]).manifests;
    forall id | id in next
      ensures Possible(jobs, c, id, next[id].layers)
    {
      assert id !in now.manifests || next[id] != now.manifests[id] ==> jobs[t].SaveJob? && next[id] == jobs[t].artifact;
    }
  }

  /** A step that removes a blob is a sweep of layers with that digest. */
  lemma RemovalSweeps(jobs: Jobs, s: State, step: Step, d: string)
    requires Enabled(jobs, s, step) && d in s.blobs && d !in Apply(jobs, s, step).blobs
    ensures step.Move? && s.pcs[step.t].SweepFound? && Named(s.pcs[step.t].layers, d)
  {
  }

  lemma PinNamed(job: Job, pc: Pc, d: string)
    requires Pinned(job, pc, d)
    ensures job.SaveJob? && Named(job.artifact.layers, d) && !Committed(pc)
  {
  }

  lemma ApartNeverRaces(jobs: Jobs, c: Contents, s: State, step: Step)
    requires Apart(jobs, c) && SweepsTraced(jobs, c, s.pcs) && Enabled(jobs, s, step)
    ensures !Races(jobs, s, step)
  {
    if Races(jobs, s, step) {
      var u, d :| u in s.pcs && u in jobs && Pinned(jobs[u], s.pcs[u], d) && d in s.blobs && d !in Apply(jobs, s, step).blobs;
      RemovalSweeps(jobs, s, step, d);
      PinNamed(jobs[u], s.pcs[u], d);
      assert false;
    }
  }

  lemma {:induction false} ApartIsCalm(jobs: Jobs, c: Contents, s: State, steps: seq<Step>, t: State)
    requires Apart(jobs, c) && Inv(jobs, c, s) && Runs(jobs, s, steps, t)
    requires ManifestsTraced(jobs, c, s.catalog.manifests) && SweepsTraced(jobs, c, s.pcs)
    ensures CalmRuns(jobs, s, steps, t)
    decreases |steps|
  {
    if steps == [] {
    } else {
      var s' := Apply(jobs, s, steps[0]);
      ApartNeverRaces(jobs, c, s, steps[0]);
      StepKeeps(jobs, c, s, steps[0]);
      if steps[0].Move? {
        MoveTraced(jobs, c, s, steps[0].t);
      }
      ApartIsCalm(jobs, c, s', steps[1..], t);
    }
  }

  /**
   * A condition on the jobs and the initial catalog alone: when no layer list that a deletion may come to sweep
   * shares a digest with a save, then in every interleaving all layers of all manifests have their blobs.
   */
  lemma ApartStaysBacked(jobs: Jobs, s0: State, steps: seq<Step>, s: State)
    requires Init(jobs, s0) && Backed(s0.catalog.manifests, s0.blobs) && Apart(jobs, s0.catalog)
    requires Runs(jobs, s0, steps, s)
    ensures Backed(s.catalog.manifests, s.blobs)
  {
    InitHolds(jobs, s0);
    ApartIsCalm(jobs, s0.catalog, s0, steps, s);
    CalmRunsStayBacked(jobs, s0, steps, s);
  }
}
