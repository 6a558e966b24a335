/**
 * The exact condition, on the jobs and the initial catalog alone, under which concurrent saves and deletions have
 * an interleaving that leaves a manifest without its blob. The condition is about sequential executions only.
 */
module DanglingRuns {
  import opened Prelude
  import opened Ids
  import opened Catalogs
  import opened StoreRace
  import opened CalmRace

  ghost predicate InJobs(jobs: Jobs, log: seq<Thread>) {
    forall i :: 0 <= i < |log| ==> log[i] in jobs
  }

  /** The jobs can commit one after the other in this order: each deletion finds its artifact. */
  ghost predicate Sequential(jobs: Jobs, c: Contents, log: seq<Thread>) {
    && InJobs(jobs, log) && NoDup(log)
    && forall k :: 0 <= k < |log| && jobs[log[k]].DelJob? ==> jobs[log[k]].id in Replay(jobs, c, log[..k]).manifests
  }

  /** The layers that the `k`-th job of a sequential execution has to sweep. */
  ghost function SweptBy(jobs: Jobs, c: Contents, log: seq<Thread>, k: nat): seq<Layer>
    requires InJobs(jobs, log) && k < |log|
  {
    ToSweep(Replay(jobs, c, log[..k]), jobs[log[k]])
  }

  lemma OneAlone(jobs: Jobs, c: Contents, t: Thread)
    requires t in jobs
    ensures InJobs(jobs, [t]) && Replay(jobs, c, [t]) == Effect(c, jobs[t])
    ensures SweptBy(jobs, c, [t], 0) == ToSweep(c, jobs[t])
  {
    assert [t][..0] == [];
  }

  /**
   * After some of the jobs were done one after the other, a save that was not among them needs a blob that one of
   * the deletions among them may remove, since nothing counts it.
   */
  ghost predicate Endangers(jobs: Jobs, c: Contents, log: seq<Thread>, k: nat, u: Thread, d: string) {
    && Sequential(jobs, c, log) && k < |log| && jobs[log[k]].DelJob? && Named(SweptBy(jobs, c, log, k), d)
    && u in jobs && u !in log && jobs[u].SaveJob? && Named(jobs[u].artifact.layers, d)
    && CountOf(Replay(jobs, c, log).counts, d) <= 0
  }

  ghost predicate Endangered(jobs: Jobs, c: Contents) {
    exists log, k, u, d :: Endangers(jobs, c, log, k, u, d)
  }

  // A race shows that a save is endangered

  /** A sweep in progress is that of a committed deletion, on the layers found at its commit. */
  ghost predicate SweepLogged(jobs: Jobs, c: Contents, log: seq<Thread>, t: Thread, pc: Pc)
    requires InJobs(jobs, log) && t in jobs
  {
    Swept(pc).Some? ==>
      if jobs[t].SaveJob? then pc.Flushed?
      else exists k :: 0 <= k < |log| && log[k] == t && Swept(pc).value == SweptBy(jobs, c, log, k)
  }

  ghost predicate SweepsLogged(jobs: Jobs, c: Contents, pcs: map<Thread, Pc>, log: seq<Thread>)
    requires InJobs(jobs, log)
  {
    forall t :: t in pcs && t in jobs ==> SweepLogged(jobs, c, log, t, pcs[t])
  }

  lemma SequentialOneMore(jobs: Jobs, c: Contents, log: seq<Thread>, t: Thread)
    requires Sequential(jobs, c, log) && t in jobs && t !in log
    requires jobs[t].DelJob? ==> jobs[t].id in Replay(jobs, c, log).manifests
    ensures Sequential(jobs, c, log + [t])
    ensures forall k :: 0 <= k < |log| ==> SweptBy(jobs, c, log + [t], k) == SweptBy(jobs, c, log, k)
    ensures SweptBy(jobs, c, log + [t], |log|) == ToSweep(Replay(jobs, c, log), jobs[t])
  {
    var more := log + [t];
    assert more[..|log|] == log;
    forall k | 0 <= k < |log|
      ensures more[..k] == log[..k] && more[k] == log[k]
    {
    }
  }

  lemma MoveLogged(jobs: Jobs, c: Contents, s: State, t: Thread)
    requires Inv(jobs, c, s) && Sequential(jobs, c, s.log) && SweepsLogged(jobs, c, s.pcs, s.log)
    requires Enabled(jobs, s, Move(t))
    ensures var s' := Apply(jobs, s, Move(t)); Sequential(jobs, c, s'.log) && SweepsLogged(jobs, c, s'.pcs, s'.log)
  {
    var s' := Apply(jobs, s, Move(t));
    if s.pcs[t].Loaded? {
      assert CopyOf(s.pcs[t]).value == s.catalog && t !in s.log;
      LoadedMoves(jobs, s, t);
      if s'.log != s.log {
        CommitExtends(jobs, c, s.log, s.pcs, t);
      } else {
        OthersLogged(jobs, c, s.log, s.pcs, t, s'.pcs[t]);
      }
    } else {
      OnlyCommitsWrite(jobs, s, t);
      SweepGoesOn(jobs, s, t);
      assert SweepLogged(jobs, c, s.log, t, s.pcs[t]);
      OthersLogged(jobs, c, s.log, s.pcs, t, s'.pcs[t]);
    }
  }

  /** A thread that has loaded the catalog commits its job, or is a deletion that finds nothing to delete. */
  lemma LoadedMoves(jobs: Jobs, s: State, t: Thread)
    requires Enabled(jobs, s, Move(t)) && s.pcs[t].Loaded?
    ensures var s' := Apply(jobs, s, Move(t));
            if jobs[t].DelJob? && jobs[t].id !in s.pcs[t].c.manifests
            then s'.log == s.log && s'.pcs == s.pcs[t := Finished(false)]
            else s'.log == s.log + [t] && s'.pcs == s.pcs[t := Flushed(ToSweep(s.pcs[t].c, jobs[t]))]
  {
  }

  lemma OthersLogged(jobs: Jobs, c: Contents, log: seq<Thread>, pcs: map<Thread, Pc>, t: Thread, pc: Pc)
    requires InJobs(jobs, log) && SweepsLogged(jobs, c, pcs, log) && t in jobs && SweepLogged(jobs, c, log, t, pc)
    ensures SweepsLogged(jobs, c, pcs[t := pc], log)
  {
  }

  lemma CommitExtends(jobs: Jobs, c: Contents, log: seq<Thread>, pcs: map<Thread, Pc>, t: Thread)
    requires Sequential(jobs, c, log) && SweepsLogged(jobs, c, pcs, log) && t in jobs && t !in log
    requires jobs[t].DelJob? ==> jobs[t].id in Replay(jobs, c, log).manifests
    ensures Sequential(jobs, c, log + [t])
    ensures SweepsLogged(jobs, c, pcs[t := Flushed(ToSweep(Replay(jobs, c, log), jobs[t]))], log + [t])
  {
    SequentialOneMore(jobs, c, log, t);
    forall v | v in pcs && v in jobs
      ensures SweepLogged(jobs, c, log + [t], v, pcs[v])
    {
      LoggedStays(jobs, c, log, t, v, pcs[v]);
    }
    assert (log + [t])[|log|] == t;
    OthersLogged(jobs, c, log + [t], pcs, t, Flushed(ToSweep(Replay(jobs, c, log), jobs[t])));
  }

  lemma LoggedStays(jobs: Jobs, c: Contents, log: seq<Thread>, t: Thread, v: Thread, pc: Pc)
    requires InJobs(jobs, log) && InJobs(jobs, log + [t]) && v in jobs && SweepLogged(jobs, c, log, v, pc)
    requires forall k :: 0 <= k < |log| ==> SweptBy(jobs, c, log + [t], k) == SweptBy(jobs, c, log, k)
    ensures SweepLogged(jobs, c, log + [t], v, pc)
  {
    if Swept(pc).Some? && jobs[v].DelJob? {
      var k :| 0 <= k < |log| && log[k] == v && Swept(pc).value == SweptBy(jobs, c, log, k);
      assert (log + [t])[k] == v;
    }
  }

  lemma RaceEndangers(jobs: Jobs, c: Contents, s: State, step: Step)
    requires Inv(jobs, c, s) && Sequential(jobs, c, s.log) && SweepsLogged(jobs, c, s.pcs, s.log)
    requires Enabled(jobs, s, step) && Races(jobs, s, step)
    ensures Endangered(jobs, c)
  {
    var u, d :| u in s.pcs && u in jobs && Pinned(jobs[u], s.pcs[u], d) && d in s.blobs && d !in Apply(jobs, s, step).blobs;
    RemovalSweeps(jobs, s, step, d);
    PinNamed(jobs[u], s.pcs[u], d);
    RemovedUncounted(jobs, s, step, d);
    var t := step.t;
    assert Swept(s.pcs[t]).Some? && SweepLogged(jobs, c, s.log, t, s.pcs[t]);
    var k :| 0 <= k < |s.log| && s.log[k] == t && Swept(s.pcs[t]).value == SweptBy(jobs, c, s.log, k);
    assert Endangers(jobs, c, s.log, k, u, d);
  }

  lemma {:induction false} SafeIsCalm(jobs: Jobs, c: Contents, s: State, steps: seq<Step>, t: State)
    requires !Endangered(jobs, c) && Inv(jobs, c, s) && Runs(jobs, s, steps, t)
    requires Sequential(jobs, c, s.log) && SweepsLogged(jobs, c, s.pcs, s.log)
    ensures CalmRuns(jobs, s, steps, t)
    decreases |steps|
  {
    if steps == [] {
    } else {
      if Races(jobs, s, steps[0]) {
        RaceEndangers(jobs, c, s, steps[0]);
      }
      StepKeeps(jobs, c, s, steps[0]);
      if steps[0].Move? {
        MoveLogged(jobs, c, s, steps[0].t);
      }
      SafeIsCalm(jobs, c, Apply(jobs, s, steps[0]), steps[1..], t);
    }
  }

  // An endangered save can be made to dangle

  /** Nobody holds a lock. */
  predicate Unlocked(s: State) {
    s.writer.None? && s.readers == {}
  }

  /** A save finds all its layers. */
  ghost predicate Supplied(job: Job, blobs: set<string>) {
    job.SaveJob? ==> forall i :: 0 <= i < |job.artifact.layers| ==> job.artifact.layers[i].digest in blobs
  }

  /** The save finds the blob, or somebody else stores it just in time. */
  lemma ChecksOne(jobs: Jobs, aid: bool, s0: State, s: State, t: Thread) returns (s': State)
    requires Leads(jobs, aid, s0, s) && t in jobs && jobs[t].SaveJob? && t in s.pcs && s.pcs[t].SaveChecking?
    requires s.pcs[t].i < |jobs[t].artifact.layers| && (aid || jobs[t].artifact.layers[s.pcs[t].i].digest in s.blobs)
    ensures Leads(jobs, aid, s0, s') && s.blobs <= s'.blobs
    ensures s'.pcs == s.pcs[t := SaveChecking(s.pcs[t].i + 1)] && s' == s.(blobs := s'.blobs, pcs := s'.pcs)
  {
    var d := jobs[t].artifact.layers[s.pcs[t].i].digest;
    s' := s;
    if d !in s.blobs {
      LeadsOn(jobs, aid, s0, s, NewBlob(d));
      s' := Apply(jobs, s, NewBlob(d));
    }
    LeadsOn(jobs, aid, s0, s', Move(t));
    s' := Apply(jobs, s', Move(t));
  }

  /** A save checks all its layers and waits for the lock. */
  lemma {:induction false} ChecksAll(jobs: Jobs, aid: bool, s0: State, s: State, t: Thread, i: nat) returns (s': State)
    requires Leads(jobs, aid, s0, s) && t in jobs && jobs[t].SaveJob? && t in s.pcs && s.pcs[t] == SaveChecking(i)
    requires i <= |jobs[t].artifact.layers| && (aid || Supplied(jobs[t], s.blobs))
    ensures Leads(jobs, aid, s0, s') && s.blobs <= s'.blobs
    ensures s'.pcs == s.pcs[t := Waiting] && s' == s.(blobs := s'.blobs, pcs := s'.pcs)
    decreases |jobs[t].artifact.layers| - i
  {
    if i == |jobs[t].artifact.layers| {
      LeadsOn(jobs, aid, s0, s, Move(t));
      s' := Apply(jobs, s, Move(t));
    } else {
      var next := ChecksOne(jobs, aid, s0, s, t);
      s' := ChecksAll(jobs, aid, s0, next, t, i + 1);
      assert s.pcs[t := SaveChecking(i + 1)][t := Waiting] == s.pcs[t := Waiting];
    }
  }

  lemma Locks(jobs: Jobs, aid: bool, s0: State, s: State, t: Thread) returns (s': State)
    requires Leads(jobs, aid, s0, s) && t in jobs && t in s.pcs && s.pcs[t].Waiting? && Unlocked(s)
    ensures Leads(jobs, aid, s0, s') && s' == s.(writer := Some(t), pcs := s.pcs[t := Loaded(s.catalog)])
  {
    LeadsOn(jobs, aid, s0, s, Move(t));
    s' := Apply(jobs, s, Move(t));
    LeadsOn(jobs, aid, s0, s', Move(t));
    s' := Apply(jobs, s', Move(t));
    assert s.pcs[t := Holding][t := Loaded(s.catalog)] == s.pcs[t := Loaded(s.catalog)];
  }

  /** Where a thread stands after its commit. */
  function Afterwards(c: Contents, job: Job): Pc {
    if job.SaveJob? then Finished(true) else Sweeping(ToSweep(c, job), 0)
  }

  lemma Commits(jobs: Jobs, aid: bool, s0: State, s: State, t: Thread) returns (s': State)
    requires Leads(jobs, aid, s0, s) && t in jobs && t in s.pcs && s.pcs[t].Loaded?
    requires jobs[t].DelJob? ==> jobs[t].id in s.pcs[t].c.manifests
    ensures Leads(jobs, aid, s0, s')
    ensures s' == s.(catalog := Effect(s.pcs[t].c, jobs[t]), writer := None,
                     pcs := s.pcs[t := Afterwards(s.pcs[t].c, jobs[t])], log := s.log + [t])
  {
    var c := s.pcs[t].c;
    LeadsOn(jobs, aid, s0, s, Move(t));
    s' := Apply(jobs, s, Move(t));
    LeadsOn(jobs, aid, s0, s', Move(t));
    s' := Apply(jobs, s', Move(t));
    assert s.pcs[t := Flushed(ToSweep(c, jobs[t]))][t := Afterwards(c, jobs[t])] == s.pcs[t := Afterwards(c, jobs[t])];
  }

  /** A thread takes the lock and does its job up to the release. */
  lemma LocksAndCommits(jobs: Jobs, aid: bool, s0: State, s: State, t: Thread) returns (s': State)
    requires Leads(jobs, aid, s0, s) && t in jobs && t in s.pcs && s.pcs[t].Waiting? && Unlocked(s)
    requires jobs[t].DelJob? ==> jobs[t].id in s.catalog.manifests
    ensures Leads(jobs, aid, s0, s') && Unlocked(s') && s'.catalog == Effect(s.catalog, jobs[t]) && s'.blobs == s.blobs
    ensures s'.pcs == s.pcs[t := Afterwards(s.catalog, jobs[t])]
  {
    var locked := Locks(jobs, aid, s0, s, t);
    s' := Commits(jobs, aid, s0, locked, t);
    assert s.pcs[t := Loaded(s.catalog)][t := Afterwards(s.catalog, jobs[t])] == s.pcs[t := Afterwards(s.catalog, jobs[t])];
  }

  /** A whole job up to the release of the lock. */
  lemma DoesJob(jobs: Jobs, aid: bool, s0: State, s: State, t: Thread) returns (s': State)
    requires Leads(jobs, aid, s0, s) && t in jobs && t in s.pcs && s.pcs[t] == Start(jobs[t]) && Unlocked(s)
    requires jobs[t].DelJob? ==> jobs[t].id in s.catalog.manifests
    requires aid || Supplied(jobs[t], s.blobs)
    ensures Leads(jobs, aid, s0, s') && Unlocked(s') && s'.catalog == Effect(s.catalog, jobs[t]) && s.blobs <= s'.blobs
    ensures s'.pcs == s.pcs[t := Afterwards(s.catalog, jobs[t])]
  {
    if jobs[t].SaveJob? {
      var checked := ChecksAll(jobs, aid, s0, s, t, 0);
      s' := LocksAndCommits(jobs, aid, s0, checked, t);
      assert s.pcs[t := Waiting][t := Finished(true)] == s.pcs[t := Finished(true)];
    } else {
      s' := LocksAndCommits(jobs, aid, s0, s, t);
    }
  }

  // Doing the jobs of a log one after the other

  ghost predicate NotBegun(jobs: Jobs, done: seq<Thread>, pcs: map<Thread, Pc>) {
    pcs.Keys == jobs.Keys && forall t :: t in jobs && t !in done ==> pcs[t] == Start(jobs[t])
  }

  lemma NotBegunNext(jobs: Jobs, done: seq<Thread>, pcs: map<Thread, Pc>, t: Thread, pc: Pc)
    requires NotBegun(jobs, done, pcs) && t in jobs
    ensures NotBegun(jobs, done + [t], pcs[t := pc])
  {
  }

  /** The deletions among the first `i` jobs have not begun to sweep. */
  ghost predicate SweepsWait(jobs: Jobs, c: Contents, log: seq<Thread>, i: nat, pcs: map<Thread, Pc>)
    requires InJobs(jobs, log) && i <= |log|
  {
    forall k :: 0 <= k < i && jobs[log[k]].DelJob? ==> log[k] in pcs && pcs[log[k]] == Sweeping(SweptBy(jobs, c, log, k), 0)
  }

  lemma SweepsWaitNext(jobs: Jobs, c: Contents, log: seq<Thread>, i: nat, pcs: map<Thread, Pc>)
    requires InJobs(jobs, log) && NoDup(log) && i < |log| && SweepsWait(jobs, c, log, i, pcs)
    ensures SweepsWait(jobs, c, log, i + 1, pcs[log[i] := Afterwards(Replay(jobs, c, log[..i]), jobs[log[i]])])
  {
    var pcs' := pcs[log[i] := Afterwards(Replay(jobs, c, log[..i]), jobs[log[i]])];
    forall k | 0 <= k < i + 1 && jobs[log[k]].DelJob?
      ensures log[k] in pcs' && pcs'[log[k]] == Sweeping(SweptBy(jobs, c, log, k), 0)
    {
      if k < i {
        assert log[k] != log[i];
      }
    }
  }

  /** The first `i` jobs of the log are done up to the release of the lock. */
  ghost predicate Played(jobs: Jobs, aid: bool, log: seq<Thread>, i: nat, s0: State, s: State) {
    && InJobs(jobs, log) && i <= |log| && Leads(jobs, aid, s0, s) && s0.blobs <= s.blobs
    && Unlocked(s) && s.catalog == Replay(jobs, s0.catalog, log[..i]) && NotBegun(jobs, log[..i], s.pcs)
    && SweepsWait(jobs, s0.catalog, log, i, s.pcs)
  }

  /** What one more job does to the state in which the jobs before it are done. */
  lemma PlayedNext(jobs: Jobs, aid: bool, log: seq<Thread>, i: nat, s0: State, s: State, s': State)
    requires NoDup(log) && i < |log| && Played(jobs, aid, log, i, s0, s)
    requires Leads(jobs, aid, s0, s') && Unlocked(s') && s.blobs <= s'.blobs
    requires s'.catalog == Effect(s.catalog, jobs[log[i]])
    requires s'.pcs == s.pcs[log[i] := Afterwards(s.catalog, jobs[log[i]])]
    ensures Played(jobs, aid, log, i + 1, s0, s')
  {
    var t, pc := log[i], Afterwards(s.catalog, jobs[log[i]]);
    ReplayNext(jobs, s0.catalog, log, i);
    NotBegunNext(jobs, log[..i], s.pcs, t, pc);
    assert NotBegun(jobs, log[..i + 1], s'.pcs);
    SweepsWaitNext(jobs, s0.catalog, log, i, s.pcs);
    assert SweepsWait(jobs, s0.catalog, log, i + 1, s'.pcs);
  }

  lemma ReplayNext(jobs: Jobs, c: Contents, log: seq<Thread>, i: nat)
    requires InJobs(jobs, log) && i < |log|
    ensures log[..i + 1] == log[..i] + [log[i]]
    ensures Replay(jobs, c, log[..i + 1]) == Effect(Replay(jobs, c, log[..i]), jobs[log[i]])
  {
    ReplayOneMore(jobs, c, log[..i], log[i]);
    assert log[..i + 1] == log[..i] + [log[i]];
  }

  /** Without aid the saves of the log have to find their layers. */
  ghost predicate AllSupplied(jobs: Jobs, log: seq<Thread>, blobs: set<string>)
    requires InJobs(jobs, log)
  {
    forall i :: 0 <= i < |log| ==> Supplied(jobs[log[i]], blobs)
  }

  /** The log can be done and is done up to some job. */
  ghost predicate Playing(jobs: Jobs, aid: bool, log: seq<Thread>, i: nat, s0: State, s: State) {
    Sequential(jobs, s0.catalog, log) && (aid || AllSupplied(jobs, log, s0.blobs)) && Played(jobs, aid, log, i, s0, s)
  }

  lemma PlaysOne(jobs: Jobs, aid: bool, log: seq<Thread>, i: nat, s0: State, s: State) returns (s': State)
    requires Playing(jobs, aid, log, i, s0, s) && i < |log|
    ensures Playing(jobs, aid, log, i + 1, s0, s')
  {
    assert log[i] !in log[..i];
    s' := DoesJob(jobs, aid, s0, s, log[i]);
    PlayedNext(jobs, aid, log, i, s0, s, s');
  }

  lemma {:induction false} PlaysAll(jobs: Jobs, aid: bool, log: seq<Thread>, i: nat, s0: State, s: State) returns (s': State)
    requires Playing(jobs, aid, log, i, s0, s) && i <= |log|
    ensures Playing(jobs, aid, log, |log|, s0, s')
    decreases |log| - i
  {
    if i == |log| {
      s' := s;
    } else {
      s' := PlaysOne(jobs, aid, log, i, s0, s);
      s' := PlaysAll(jobs, aid, log, i + 1, s0, s');
    }
  }

  /** Beginning with nothing done. */
  lemma Plays(jobs: Jobs, aid: bool, log: seq<Thread>, s0: State) returns (s: State)
    requires Init(jobs, s0) && Sequential(jobs, s0.catalog, log) && (aid || AllSupplied(jobs, log, s0.blobs))
    ensures Leads(jobs, aid, s0, s) && Unlocked(s) && s0.blobs <= s.blobs && s.catalog == Replay(jobs, s0.catalog, log)
    ensures NotBegun(jobs, log, s.pcs) && SweepsWait(jobs, s0.catalog, log, |log|, s.pcs)
  {
    LeadsNowhere(jobs, aid, s0);
    assert log[..0] == [] && log[..|log|] == log;
    s := PlaysAll(jobs, aid, log, 0, s0, s0);
  }

  // Sweeping

  lemma SweepLoads(jobs: Jobs, aid: bool, s0: State, s: State, t: Thread, layers: seq<Layer>, i: nat) returns (s': State)
    requires Leads(jobs, aid, s0, s) && s.writer.None? && t in jobs && t in s.pcs
    requires s.pcs[t] == Sweeping(layers, i) && i < |layers|
    ensures Leads(jobs, aid, s0, s')
    ensures s' == s.(readers := s.readers + {t}, pcs := s.pcs[t := SweepLoaded(layers, i, s.catalog)])
  {
    LeadsOn(jobs, aid, s0, s, Move(t));
    s' := Apply(jobs, s, Move(t));
    LeadsOn(jobs, aid, s0, s', Move(t));
    s' := Apply(jobs, s', Move(t));
    assert s.pcs[t := SweepHolding(layers, i)][t := SweepLoaded(layers, i, s.catalog)]
        == s.pcs[t := SweepLoaded(layers, i, s.catalog)];
  }

  /** From the look at the catalog to the release of the read lock. */
  lemma SweepActs(jobs: Jobs, aid: bool, s0: State, s: State, t: Thread, layers: seq<Layer>, i: nat, c: Contents)
    returns (s': State)
    requires Leads(jobs, aid, s0, s) && t in jobs && t in s.pcs && s.pcs[t] == SweepLoaded(layers, i, c) && i < |layers|
    ensures Leads(jobs, aid, s0, s')
    ensures s' == s.(readers := s.readers - {t}, pcs := s.pcs[t := Sweeping(layers, i + 1)], blobs := s'.blobs)
    ensures s'.blobs == if CountOf(c.counts, layers[i].digest) <= 0 then s.blobs - {layers[i].digest} else s.blobs
  {
    LeadsOn(jobs, aid, s0, s, Move(t));
    s' := Apply(jobs, s, Move(t));
    if s'.pcs[t].SweepFound? {
      LeadsOn(jobs, aid, s0, s', Move(t));
      s' := Apply(jobs, s', Move(t));
      assert s.pcs[t := SweepFound(layers, i, c)][t := Sweeping(layers, i + 1)] == s.pcs[t := Sweeping(layers, i + 1)];
    }
  }

  lemma SweepsOne(jobs: Jobs, aid: bool, s0: State, s: State, t: Thread, layers: seq<Layer>, i: nat) returns (s': State)
    requires Leads(jobs, aid, s0, s) && Unlocked(s) && t in jobs && t in s.pcs
    requires s.pcs[t] == Sweeping(layers, i) && i < |layers|
    ensures Leads(jobs, aid, s0, s') && Unlocked(s') && s'.catalog == s.catalog
    ensures s'.pcs == s.pcs[t := Sweeping(layers, i + 1)]
    ensures s'.blobs == if CountOf(s.catalog.counts, layers[i].digest) <= 0 then s.blobs - {layers[i].digest} else s.blobs
  {
    var loaded := SweepLoads(jobs, aid, s0, s, t, layers, i);
    s' := SweepActs(jobs, aid, s0, loaded, t, layers, i, s.catalog);
    assert s'.readers == {};
    assert s'.pcs == s.pcs[t := Sweeping(layers, i + 1)];
  }

  /** The sweep comes to its end and has removed the uncounted blob. */
  lemma {:induction false} SweepsAll(
    jobs: Jobs, aid: bool, s0: State, s: State, t: Thread, layers: seq<Layer>, i: nat, d: string) returns (s': State)
    requires Leads(jobs, aid, s0, s) && Unlocked(s) && t in jobs && t in s.pcs
    requires s.pcs[t] == Sweeping(layers, i) && i <= |layers|
    requires CountOf(s.catalog.counts, d) <= 0 && (d in s.blobs ==> exists k :: i <= k < |layers| && layers[k].digest == d)
    ensures Leads(jobs, aid, s0, s') && Unlocked(s') && s'.catalog == s.catalog && s'.pcs == s.pcs[t := Finished(true)]
    ensures d !in s'.blobs
    decreases |layers| - i
  {
    if i == |layers| {
      LeadsOn(jobs, aid, s0, s, Move(t));
      s' := Apply(jobs, s, Move(t));
    } else {
      var next := SweepsOne(jobs, aid, s0, s, t, layers, i);
      s' := SweepsAll(jobs, aid, s0, next, t, layers, i + 1, d);
      assert s.pcs[t := Sweeping(layers, i + 1)][t := Finished(true)] == s.pcs[t := Finished(true)];
    }
  }

  /** The dangling interleaving: the jobs of the log, the checks of the save, the sweep, and the commit of the save. */
  lemma Dangles(jobs: Jobs, aid: bool, s0: State, log: seq<Thread>, k: nat, u: Thread, d: string) returns (s: State)
    requires Init(jobs, s0) && Endangers(jobs, s0.catalog, log, k, u, d)
    requires aid || (AllSupplied(jobs, log, s0.blobs) && Supplied(jobs[u], s0.blobs))
    ensures Leads(jobs, aid, s0, s) && Unlocked(s) && d !in s.blobs
    ensures u in s.pcs && log[k] in s.pcs && s.pcs[u] == s.pcs[log[k]] == Finished(true)
    ensures s.catalog == Added(Replay(jobs, s0.catalog, log), jobs[u].artifact)
    ensures !Backed(s.catalog.manifests, s.blobs)
  {
    var layers := SweptBy(jobs, s0.catalog, log, k);
    s := Plays(jobs, aid, log, s0);
    s := ChecksAll(jobs, aid, s0, s, u, 0);
    s := SweepsAll(jobs, aid, s0, s, log[k], layers, 0, d);
    s := LocksAndCommits(jobs, aid, s0, s, u);
    NotBacked(Replay(jobs, s0.catalog, log).manifests, jobs[u].artifact, s.blobs, d);
  }

  lemma NotBacked(manifests: map<Id, Artifact>, a: Artifact, blobs: set<string>, d: string)
    requires Named(a.layers, d) && d !in blobs
    ensures !Backed(manifests[a.id := a], blobs)
  {
    assert manifests[a.id := a][a.id] == a;
  }

  /** Some interleaving leaves a manifest without its blob. */
  ghost predicate CanDangle(jobs: Jobs, aid: bool, s0: State) {
    exists s :: Leads(jobs, aid, s0, s) && !Backed(s.catalog.manifests, s.blobs)
  }

  /**
   * Saves and deletions that run at the same time on an intact store, while other processes may store blobs, can
   * leave a manifest without its blob if and only if some of them, done one after the other, endanger a save among
   * the rest.
   */
  lemma DanglesExactlyWhenEndangered(jobs: Jobs, s0: State)
    requires Init(jobs, s0) && Backed(s0.catalog.manifests, s0.blobs)
    ensures CanDangle(jobs, true, s0) <==> Endangered(jobs, s0.catalog)
  {
    if Endangered(jobs, s0.catalog) {
      var log, k, u, d :| Endangers(jobs, s0.catalog, log, k, u, d);
      var s := Dangles(jobs, true, s0, log, k, u, d);
    } else {
      InitHolds(jobs, s0);
      forall s | Leads(jobs, true, s0, s)
        ensures Backed(s.catalog.manifests, s.blobs)
      {
        var steps :| Runs(jobs, s0, steps, s);
        SafeIsCalm(jobs, s0.catalog, s0, steps, s);
        CalmRunsStayBacked(jobs, s0, steps, s);
      }
    }
  }

  // Threads that are alone with the store

  /** Without the saves that miss a layer from the start. */
  function Viable(jobs: Jobs, blobs: set<string>): Jobs {
    map t | t in jobs && (jobs[t].SaveJob? ==> forall l :: l in jobs[t].artifact.layers ==> l.digest in blobs) :: jobs[t]
  }

  /** The state without the threads that are not viable. */
  function Without(s: State, viable: Jobs): State {
    s.(pcs := map t | t in s.pcs && t in viable :: s.pcs[t])
  }

  /** A save that is not viable has got no further than to a layer that was there from the start. */
  ghost predicate Stuck(job: Job, pc: Pc, blobs: set<string>) {
    job.SaveJob? && (pc.Aborted? || (pc.SaveChecking? && pc.i <= |job.artifact.layers| &&
      forall k :: 0 <= k < pc.i ==> job.artifact.layers[k].digest in blobs))
  }

  ghost predicate OthersStuck(jobs: Jobs, viable: Jobs, blobs: set<string>, s: State) {
    && s.blobs <= blobs && s.pcs.Keys == jobs.Keys
    && forall t :: t in jobs && t !in viable ==> Stuck(jobs[t], s.pcs[t], blobs)
  }

  /** Without aid, what the threads do is what the viable ones do. */
  lemma MoveProjects(jobs: Jobs, blobs: set<string>, s: State, t: Thread)
    requires OthersStuck(jobs, Viable(jobs, blobs), blobs, s) && Enabled(jobs, s, Move(t))
    ensures var viable, s' := Viable(jobs, blobs), Apply(jobs, s, Move(t));
            && OthersStuck(jobs, viable, blobs, s')
            && if t in viable then Enabled(viable, Without(s, viable), Move(t)) &&
                                   Apply(viable, Without(s, viable), Move(t)) == Without(s', viable)
               else Without(s', viable) == Without(s, viable)
  {
    var viable, s' := Viable(jobs, blobs), Apply(jobs, s, Move(t));
    if t in viable {
      ViableMoves(jobs, viable, s, t);
    } else {
      StuckMoves(jobs, blobs, s, t);
      assert Without(s', viable).pcs == Without(s, viable).pcs;
    }
  }

  lemma ViableMoves(jobs: Jobs, viable: Jobs, s: State, t: Thread)
    requires t in viable && t in jobs && viable[t] == jobs[t] && Enabled(jobs, s, Move(t))
    ensures Enabled(viable, Without(s, viable), Move(t))
    ensures Apply(viable, Without(s, viable), Move(t)) == Without(Apply(jobs, s, Move(t)), viable)
    ensures Apply(jobs, s, Move(t)).blobs <= s.blobs
    ensures Apply(jobs, s, Move(t)).pcs == s.pcs[t := Apply(jobs, s, Move(t)).pcs[t]]
  {
    var s' := Apply(jobs, s, Move(t));
    assert Without(s', viable).pcs == Without(s, viable).pcs[t := s'.pcs[t]];
  }

  lemma StuckMoves(jobs: Jobs, blobs: set<string>, s: State, t: Thread)
    requires t in jobs && t !in Viable(jobs, blobs) && Enabled(jobs, s, Move(t)) && s.blobs <= blobs
    requires Stuck(jobs[t], s.pcs[t], blobs)
    ensures var s' := Apply(jobs, s, Move(t)); s' == s.(pcs := s.pcs[t := s'.pcs[t]]) && Stuck(jobs[t], s'.pcs[t], blobs)
  {
    var layers := jobs[t].artifact.layers;
    var l :| l in layers && l.digest !in blobs;
    var k :| 0 <= k < |layers| && layers[k] == l;
    assert s.pcs[t].i <= k;
  }

  lemma {:induction false} RunProjects(jobs: Jobs, blobs: set<string>, s: State, steps: seq<Step>, t: State)
    requires OthersStuck(jobs, Viable(jobs, blobs), blobs, s) && Runs(jobs, s, steps, t) && Unaided(steps)
    ensures var viable := Viable(jobs, blobs); Leads(viable, true, Without(s, viable), Without(t, viable))
    decreases |steps|
  {
    var viable := Viable(jobs, blobs);
    if steps == [] {
      LeadsNowhere(viable, true, Without(s, viable));
    } else {
      assert steps[0].Move?;
      var s' := Apply(jobs, s, steps[0]);
      MoveProjects(jobs, blobs, s, steps[0].t);
      RunProjects(jobs, blobs, s', steps[1..], t);
      if steps[0].t in viable {
        LeadsBefore(viable, Without(s, viable), steps[0], Without(t, viable));
      }
    }
  }

  lemma LeadsBefore(jobs: Jobs, s: State, step: Step, t: State)
    requires Enabled(jobs, s, step) && Leads(jobs, true, Apply(jobs, s, step), t)
    ensures Leads(jobs, true, s, t)
  {
    var steps :| Runs(jobs, Apply(jobs, s, step), steps, t);
    assert ([step] + steps)[1..] == steps;
    assert Runs(jobs, s, [step] + steps, t);
  }

  /** Jobs that agree on a log agree on what it does. */
  lemma {:induction false} SameReplay(jobs: Jobs, viable: Jobs, c: Contents, log: seq<Thread>)
    requires InJobs(viable, log) && forall t :: t in viable ==> t in jobs && jobs[t] == viable[t]
    ensures InJobs(jobs, log) && Replay(jobs, c, log) == Replay(viable, c, log)
  {
    if log == [] {
    } else {
      SameReplay(jobs, viable, c, log[..|log| - 1]);
    }
  }

  lemma ViableEndangers(jobs: Jobs, viable: Jobs, c: Contents, log: seq<Thread>, k: nat, u: Thread, d: string)
    requires Endangers(viable, c, log, k, u, d) && forall t :: t in viable ==> t in jobs && jobs[t] == viable[t]
    ensures Endangers(jobs, c, log, k, u, d)
  {
    SameReplay(jobs, viable, c, log);
    forall j | 0 <= j < |log|
      ensures Replay(jobs, c, log[..j]) == Replay(viable, c, log[..j])
    {
      SameReplay(jobs, viable, c, log[..j]);
    }
  }

  /** The same for threads that are alone with the store: only the saves that find all their layers at the start count. */
  lemma DanglesUnaided(jobs: Jobs, s0: State)
    requires Init(jobs, s0) && Backed(s0.catalog.manifests, s0.blobs)
    ensures CanDangle(jobs, false, s0) <==> Endangered(Viable(jobs, s0.blobs), s0.catalog)
  {
    if Endangered(Viable(jobs, s0.blobs), s0.catalog) {
      ViableCanDangle(jobs, s0);
    }
    if CanDangle(jobs, false, s0) {
      UnaidedEndangered(jobs, s0);
    }
  }

  lemma ViableCanDangle(jobs: Jobs, s0: State)
    requires Init(jobs, s0) && Endangered(Viable(jobs, s0.blobs), s0.catalog)
    ensures CanDangle(jobs, false, s0)
  {
    var viable := Viable(jobs, s0.blobs);
    var log, k, u, d :| Endangers(viable, s0.catalog, log, k, u, d);
    ViableEndangers(jobs, viable, s0.catalog, log, k, u, d);
    forall i | 0 <= i < |log|
      ensures Supplied(jobs[log[i]], s0.blobs)
    {
      assert log[i] in viable;
    }
    var s := Dangles(jobs, false, s0, log, k, u, d);
  }

  lemma UnaidedEndangered(jobs: Jobs, s0: State)
    requires Init(jobs, s0) && Backed(s0.catalog.manifests, s0.blobs) && CanDangle(jobs, false, s0)
    ensures Endangered(Viable(jobs, s0.blobs), s0.catalog)
  {
    var viable := Viable(jobs, s0.blobs);
    var s :| Leads(jobs, false, s0, s) && !Backed(s.catalog.manifests, s.blobs);
    var steps :| Runs(jobs, s0, steps, s) && Unaided(steps);
    RunProjects(jobs, s0.blobs, s0, steps, s);
    assert CanDangle(viable, true, Without(s0, viable));
    DanglesExactlyWhenEndangered(viable, Without(s0, viable));
  }
}
