/**
 * Concurrent saves and deletions on one backend, at the granularity of lock operations: acquire, load, flush,
 * release, with the existence check of a save outside the lock and one read lock per swept layer of a deletion.
 */
module StoreRace {
  import opened Prelude
  import opened Ids
  import opened Catalogs

  datatype Thread = Thread(n: nat)

  datatype Job = SaveJob(artifact: Artifact) | DelJob(id: Id)

  type Jobs = map<Thread, Job>

  /** Where a thread stands. */
  datatype Pc =
    | SaveChecking(i: nat)
    | Waiting                                    // for the write lock
    | Holding                                    // holds it
    | Loaded(c: Contents)                        // has read the catalog
    | Flushed(layers: seq<Layer>)                // has written it back; a deletion keeps the layers to sweep
    | Sweeping(layers: seq<Layer>, i: nat)       // a deletion between two layers, without a lock
    | SweepHolding(layers: seq<Layer>, i: nat)   // holds the read lock
    | SweepLoaded(layers: seq<Layer>, i: nat, c: Contents)
    | SweepFound(layers: seq<Layer>, i: nat, c: Contents)  // about to remove a blob that exists and is not counted
    | Finished(committed: bool)
    | Aborted                                    // a save that misses a layer
    | Failed                                     // a deletion that has nothing left to remove where it saw a blob

  /** Shared files and locks, the threads, and the order in which they wrote the catalog. */
  datatype State = State(
    catalog: Contents, blobs: set<string>, writer: Option<Thread>, readers: set<Thread>, pcs: map<Thread, Pc>, log: seq<Thread>)

  datatype Step = Move(t: Thread) | NewBlob(digest: string)

  /** What a job does to the catalog when it runs alone. */
  function Effect(c: Contents, job: Job): Contents {
    match job
    case SaveJob(a) => Added(c, a)
    case DelJob(id) => Removed(c, id)
  }

  function Start(job: Job): Pc {
    if job.SaveJob? then SaveChecking(0) else Waiting
  }

  ghost predicate Init(jobs: Jobs, s: State) {
    && s.pcs.Keys == jobs.Keys && (forall t :: t in jobs ==> s.pcs[t] == Start(jobs[t]))
    && s.writer.None? && s.readers == {} && s.log == [] && Consistent(s.catalog)
  }

  predicate Enabled(jobs: Jobs, s: State, step: Step) {
    match step
    case NewBlob(_) => true
    case Move(t) =>
      && t in jobs && t in s.pcs
      && match s.pcs[t]
         case SaveChecking(_) => jobs[t].SaveJob?
         case Waiting => s.writer.None? && s.readers == {}
         case Sweeping(_, _) => s.writer.None?
         case SweepLoaded(layers, i, _) => i < |layers|
         case SweepFound(layers, i, _) => i < |layers|
         case Finished(_) => false
         case Aborted => false
         case Failed => false
         case _ => true
  }

  /** The layers whose blobs a deletion looks at after its flush. */
  function ToSweep(c: Contents, job: Job): seq<Layer> {
    if job.DelJob? && job.id in c.manifests then c.manifests[job.id].layers else []
  }

  function At(s: State, t: Thread, pc: Pc): State {
    s.(pcs := s.pcs[t := pc])
  }

  function Apply(jobs: Jobs, s: State, step: Step): State
    requires Enabled(jobs, s, step)
  {
    match step
    case NewBlob(d) => s.(blobs := s.blobs + {d})
    case Move(t) =>
      match s.pcs[t]
      case SaveChecking(i) =>
        var layers := jobs[t].artifact.layers;
        At(s, t, if i >= |layers| then Waiting else if layers[i].digest in s.blobs then SaveChecking(i + 1) else Aborted)
      case Waiting => At(s, t, Holding).(writer := Some(t))
      case Holding => At(s, t, Loaded(s.catalog))
      case Loaded(c) =>
        if jobs[t].DelJob? && jobs[t].id !in c.manifests then At(s, t, Finished(false)).(writer := None)
        else At(s, t, Flushed(ToSweep(c, jobs[t]))).(catalog := Effect(c, jobs[t]), log := s.log + [t])
      case Flushed(layers) =>
        At(s, t, if jobs[t].SaveJob? then Finished(true) else Sweeping(layers, 0)).(writer := None)
      case Sweeping(layers, i) =>
        if i >= |layers| then At(s, t, Finished(true))
        else At(s, t, SweepHolding(layers, i)).(readers := s.readers + {t})
      case SweepHolding(layers, i) => At(s, t, SweepLoaded(layers, i, s.catalog))
      case SweepLoaded(layers, i, c) =>
        if CountOf(c.counts, layers[i].digest) <= 0 && layers[i].digest in s.blobs then At(s, t, SweepFound(layers, i, c))
        else At(s, t, Sweeping(layers, i + 1)).(readers := s.readers - {t})
      case SweepFound(layers, i, c) =>
        if layers[i].digest in s.blobs then
          At(s, t, Sweeping(layers, i + 1)).(readers := s.readers - {t}, blobs := s.blobs - {layers[i].digest})
        else At(s, t, Failed).(readers := s.readers - {t})
  }

  ghost predicate Runs(jobs: Jobs, s: State, steps: seq<Step>, t: State)
    decreases |steps|
  {
    if steps == [] then s == t
    else Enabled(jobs, s, steps[0]) && Runs(jobs, Apply(jobs, s, steps[0]), steps[1..], t)
  }

  // The invariant

  predicate HasWriteLock(pc: Pc) {
    pc.Holding? || pc.Loaded? || pc.Flushed?
  }

  predicate HasReadLock(pc: Pc) {
    pc.SweepHolding? || pc.SweepLoaded? || pc.SweepFound?
  }

  /** The copy of the catalog that a thread works on. */
  function CopyOf(pc: Pc): Option<Contents> {
    if pc.Loaded? || pc.SweepLoaded? || pc.SweepFound? then Some(pc.c) else None
  }

  predicate Committed(pc: Pc) {
    pc.Flushed? || pc.Sweeping? || HasReadLock(pc) || pc == Finished(true) || pc.Failed?
  }

  /** Threads hold the locks that their position says, and a writer is alone. */
  ghost predicate LocksRight(pcs: map<Thread, Pc>, writer: Option<Thread>, readers: set<Thread>) {
    && (forall t :: t in pcs ==> (HasWriteLock(pcs[t]) <==> writer == Some(t)) && (HasReadLock(pcs[t]) <==> t in readers))
    && (writer.Some? ==> readers == {} && writer.value in pcs)
    && readers <= pcs.Keys
  }

  /** No thread works on a stale copy. */
  ghost predicate CopiesFresh(pcs: map<Thread, Pc>, catalog: Contents) {
    forall t :: t in pcs && CopyOf(pcs[t]).Some? ==> CopyOf(pcs[t]).value == catalog
  }

  /** The catalog after the jobs of the log, one after the other. */
  function Replay(jobs: Jobs, c: Contents, log: seq<Thread>): Contents
    requires forall i :: 0 <= i < |log| ==> log[i] in jobs
  {
    if log == [] then c
    else Effect(Replay(jobs, c, log[..|log| - 1]), jobs[log[|log| - 1]])
  }

  /** Every thread that committed is in the log, once. */
  ghost predicate LogRight(jobs: Jobs, pcs: map<Thread, Pc>, log: seq<Thread>) {
    && pcs.Keys == jobs.Keys
    && NoDup(log)
    && forall t :: t in log <==> t in pcs && Committed(pcs[t])
  }

  /** A blob is about to be removed only if the copy of the catalog does not count it. */
  ghost predicate RemovalsRight(pcs: map<Thread, Pc>) {
    forall t :: t in pcs && pcs[t].SweepFound? ==>
      pcs[t].i < |pcs[t].layers| && CountOf(pcs[t].c.counts, pcs[t].layers[pcs[t].i].digest) <= 0
  }

  ghost predicate Inv(jobs: Jobs, start: Contents, s: State) {
    && LocksRight(s.pcs, s.writer, s.readers)
    && CopiesFresh(s.pcs, s.catalog)
    && RemovalsRight(s.pcs)
    && LogRight(jobs, s.pcs, s.log)
    && s.catalog == Replay(jobs, start, s.log)
    && Consistent(s.catalog)
  }

  lemma MoveKeepsLocks(jobs: Jobs, s: State, t: Thread)
    requires LocksRight(s.pcs, s.writer, s.readers) && Enabled(jobs, s, Move(t))
    ensures var s' := Apply(jobs, s, Move(t)); LocksRight(s'.pcs, s'.writer, s'.readers)
  {
  }

  /** Only a thread that is alone with the write lock changes the catalog, so other copies stay fresh. */
  lemma MoveKeepsCopies(jobs: Jobs, s: State, t: Thread)
    requires LocksRight(s.pcs, s.writer, s.readers) && CopiesFresh(s.pcs, s.catalog) && Enabled(jobs, s, Move(t))
    ensures var s' := Apply(jobs, s, Move(t)); CopiesFresh(s'.pcs, s'.catalog)
  {
    var s' := Apply(jobs, s, Move(t));
    forall u | u in s'.pcs && CopyOf(s'.pcs[u]).Some?
      ensures CopyOf(s'.pcs[u]).value == s'.catalog
    {
      assert u in s.pcs;
    }
  }

  lemma MoveKeepsRemovals(jobs: Jobs, s: State, t: Thread)
    requires RemovalsRight(s.pcs) && Enabled(jobs, s, Move(t))
    ensures RemovalsRight(Apply(jobs, s, Move(t)).pcs)
  {
  }

  lemma MoveKeepsLog(jobs: Jobs, s: State, t: Thread)
    requires LogRight(jobs, s.pcs, s.log) && Enabled(jobs, s, Move(t))
    ensures var s' := Apply(jobs, s, Move(t)); LogRight(jobs, s'.pcs, s'.log)
  {
    if s.pcs[t].Loaded? {
      CommitLogged(jobs, s, t);
    } else {
      var s' := Apply(jobs, s, Move(t));
      assert s'.log == s.log && Committed(s'.pcs[t]) == Committed(s.pcs[t]);
    }
  }

  lemma CommitLogged(jobs: Jobs, s: State, t: Thread)
    requires LogRight(jobs, s.pcs, s.log) && Enabled(jobs, s, Move(t)) && s.pcs[t].Loaded?
    ensures var s' := Apply(jobs, s, Move(t)); LogRight(jobs, s'.pcs, s'.log)
  {
    var s' := Apply(jobs, s, Move(t));
    assert t !in s.log;
    assert s'.log == s.log || s'.log == s.log + [t];
  }

  lemma ReplayOneMore(jobs: Jobs, c: Contents, log: seq<Thread>, t: Thread)
    requires t in jobs && forall i :: 0 <= i < |log| ==> log[i] in jobs
    ensures Replay(jobs, c, log + [t]) == Effect(Replay(jobs, c, log), jobs[t])
  {
    assert (log + [t])[..|log|] == log;
  }

  lemma StepKeeps(jobs: Jobs, start: Contents, s: State, step: Step)
    requires Inv(jobs, start, s) && Enabled(jobs, s, step)
    ensures Inv(jobs, start, Apply(jobs, s, step))
  {
    if step.Move? {
      MoveKeepsLocks(jobs, s, step.t);
      MoveKeepsCopies(jobs, s, step.t);
      MoveKeepsRemovals(jobs, s, step.t);
      MoveKeepsLog(jobs, s, step.t);
      CommitKeeps(jobs, start, s, step.t);
    }
  }

  lemma CommitKeeps(jobs: Jobs, start: Contents, s: State, t: Thread)
    requires CopiesFresh(s.pcs, s.catalog) && LogRight(jobs, s.pcs, s.log) && Enabled(jobs, s, Move(t))
    requires s.catalog == Replay(jobs, start, s.log) && Consistent(s.catalog)
    ensures var s' := Apply(jobs, s, Move(t));
            && (forall i :: 0 <= i < |s'.log| ==> s'.log[i] in jobs)
            && s'.catalog == Replay(jobs, start, s'.log) && Consistent(s'.catalog)
  {
    if s.pcs[t].Loaded? {
      ReplayOneMore(jobs, start, s.log, t);
      EffectKeeps(s.catalog, jobs[t]);
    } else {
      OnlyCommitsWrite(jobs, s, t);
    }
  }

  lemma OnlyCommitsWrite(jobs: Jobs, s: State, t: Thread)
    requires Enabled(jobs, s, Move(t)) && !s.pcs[t].Loaded?
    ensures var s' := Apply(jobs, s, Move(t)); s'.catalog == s.catalog && s'.log == s.log
  {
  }

  lemma EffectKeeps(c: Contents, job: Job)
    requires Consistent(c)
    ensures Consistent(Effect(c, job))
  {
    match job
    case SaveJob(a) => AddedKeeps(c, a);
    case DelJob(id) => RemovedKeeps(c, id);
  }

  lemma InitHolds(jobs: Jobs, s: State)
    requires Init(jobs, s)
    ensures Inv(jobs, s.catalog, s)
  {
  }

  lemma {:induction false} RunKeeps(jobs: Jobs, start: Contents, s: State, steps: seq<Step>, t: State)
    requires Inv(jobs, start, s) && Runs(jobs, s, steps, t)
    ensures Inv(jobs, start, t)
    decreases |steps|
  {
    if steps == [] {
    } else {
      StepKeeps(jobs, start, s, steps[0]);
      RunKeeps(jobs, start, Apply(jobs, s, steps[0]), steps[1..], t);
    }
  }

  // Theorems

  /**
   * No lost update: in every interleaving the catalog on disk is the result of running the committed saves and
   * deletions one after the other, each exactly once, and it is consistent.
   */
  lemma NoLostUpdate(jobs: Jobs, s0: State, steps: seq<Step>, s: State)
    requires Init(jobs, s0) && Runs(jobs, s0, steps, s)
    ensures NoDup(s.log) && forall t :: t in s.log <==> t in s.pcs && Committed(s.pcs[t])
    ensures forall i :: 0 <= i < |s.log| ==> s.log[i] in jobs
    ensures s.catalog == Replay(jobs, s0.catalog, s.log) && Consistent(s.catalog)
  {
    InitHolds(jobs, s0);
    RunKeeps(jobs, s0.catalog, s0, steps, s);
  }

  /** A blob disappears only in the sweep of a deletion, and never while some manifest in the catalog names it. */
  lemma RemovalIsSafe(jobs: Jobs, s0: State, steps: seq<Step>, s: State, step: Step, d: string)
    requires Init(jobs, s0) && Runs(jobs, s0, steps, s) && Enabled(jobs, s, step)
    requires d in s.blobs && d !in Apply(jobs, s, step).blobs
    ensures References(s.catalog.manifests, d) == 0
    ensures forall id, i :: id in s.catalog.manifests && 0 <= i < |s.catalog.manifests[id].layers| ==>
              s.catalog.manifests[id].layers[i].digest != d
  {
    InitHolds(jobs, s0);
    RunKeeps(jobs, s0.catalog, s0, steps, s);
    RemovedUncounted(jobs, s, step, d);
    Unreferenced(s.catalog.manifests, d);
  }

  /** A step that removes a blob is the last step of the sweep of a layer with that digest, and nothing counts it. */
  lemma RemovedUncounted(jobs: Jobs, s: State, step: Step, d: string)
    requires CopiesFresh(s.pcs, s.catalog) && RemovalsRight(s.pcs) && Enabled(jobs, s, step)
    requires d in s.blobs && d !in Apply(jobs, s, step).blobs
    ensures step.Move? && s.pcs[step.t].SweepFound? && s.pcs[step.t].layers[s.pcs[step.t].i].digest == d
    ensures CountOf(s.catalog.counts, d) <= 0
  {
    var t := step.t;
    assert s.pcs[t].SweepFound? && CopyOf(s.pcs[t]).value == s.catalog;
  }

  lemma Unreferenced(manifests: map<Id, Artifact>, d: string)
    requires References(manifests, d) == 0
    ensures forall id, i :: id in manifests && 0 <= i < |manifests[id].layers| ==> manifests[id].layers[i].digest != d
  {
    forall id, i | id in manifests && 0 <= i < |manifests[id].layers|
      ensures References(manifests, manifests[id].layers[i].digest) > 0
    {
      Referenced(manifests, id, i);
    }
  }

  // Runs step by step

  lemma {:induction false} RunsOneMore(jobs: Jobs, s: State, steps: seq<Step>, t: State, step: Step)
    requires Runs(jobs, s, steps, t) && Enabled(jobs, t, step)
    ensures Runs(jobs, s, steps + [step], Apply(jobs, t, step))
    decreases |steps|
  {
    if steps != [] {
      assert (steps + [step])[1..] == steps[1..] + [step];
      RunsOneMore(jobs, Apply(jobs, s, steps[0]), steps[1..], t, step);
    } else {
      assert (steps + [step])[1..] == [];
      assert Runs(jobs, Apply(jobs, t, step), [], Apply(jobs, t, step));
    }
  }

  /** Nobody but the threads does anything. */
  ghost predicate Unaided(steps: seq<Step>) {
    forall i :: 0 <= i < |steps| ==> steps[i].Move?
  }

  /** Some run leads from one state to the other; with `aid`, other processes may store blobs in the meantime. */
  ghost predicate Leads(jobs: Jobs, aid: bool, s: State, t: State) {
    exists steps :: Runs(jobs, s, steps, t) && (aid || Unaided(steps))
  }

  lemma LeadsNowhere(jobs: Jobs, aid: bool, s: State)
    ensures Leads(jobs, aid, s, s)
  {
    assert Runs(jobs, s, [], s) && Unaided([]);
  }

  lemma LeadsOn(jobs: Jobs, aid: bool, s0: State, s: State, step: Step)
    requires Leads(jobs, aid, s0, s) && Enabled(jobs, s, step) && (aid || step.Move?)
    ensures Leads(jobs, aid, s0, Apply(jobs, s, step))
  {
    var steps :| Runs(jobs, s0, steps, s) && (aid || Unaided(steps));
    RunsOneMore(jobs, s0, steps, s, step);
  }
}
