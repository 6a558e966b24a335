/**
 * When a deletion can fail: two deletions look at the same blob, both see it, and the second one finds nothing left
 * to remove.
 */
module SweepCollision {
  import opened Prelude
  import opened Ids
  import opened Catalogs
  import opened StoreRace
  import opened CalmRace
  import opened DanglingRuns

  /** Some jobs, done one after the other, leave two deletions with the same uncounted digest to sweep. */
  ghost predicate Collides(jobs: Jobs, c: Contents, log: seq<Thread>, k: nat, l: nat, d: string) {
    && Sequential(jobs, c, log) && k < |log| && l < |log| && k != l && jobs[log[k]].DelJob? && jobs[log[l]].DelJob?
    && Named(SweptBy(jobs, c, log, k), d) && Named(SweptBy(jobs, c, log, l), d)
    && CountOf(Replay(jobs, c, log).counts, d) <= 0
  }

  ghost predicate Colliding(jobs: Jobs, c: Contents) {
    exists log, k, l, d :: Collides(jobs, c, log, k, l, d)
  }

  // A failure shows that two deletions collide

  /** The blob that the thread is about to remove is gone, or the thread has already failed. */
  ghost predicate Beaten(pc: Pc, blobs: set<string>) {
    pc.Failed? || (pc.SweepFound? && pc.i < |pc.layers| && pc.layers[pc.i].digest !in blobs)
  }

  lemma RemovalBeats(jobs: Jobs, c: Contents, s: State, step: Step, t: Thread)
    requires Inv(jobs, c, s) && Sequential(jobs, c, s.log) && SweepsLogged(jobs, c, s.pcs, s.log)
    requires Enabled(jobs, s, step) && t in s.pcs && !Beaten(s.pcs[t], s.blobs)
    requires t in Apply(jobs, s, step).pcs && Beaten(Apply(jobs, s, step).pcs[t], Apply(jobs, s, step).blobs)
    ensures Colliding(jobs, c)
  {
    BeatenByAnother(jobs, s, step, t);
    var u := step.t;
    var d := s.pcs[t].layers[s.pcs[t].i].digest;
    RemovedUncounted(jobs, s, step, d);
    assert Swept(s.pcs[t]).Some? && Swept(s.pcs[u]).Some?;
    assert SweepLogged(jobs, c, s.log, t, s.pcs[t]) && SweepLogged(jobs, c, s.log, u, s.pcs[u]);
    var k :| 0 <= k < |s.log| && s.log[k] == t && Swept(s.pcs[t]).value == SweptBy(jobs, c, s.log, k);
    var l :| 0 <= l < |s.log| && s.log[l] == u && Swept(s.pcs[u]).value == SweptBy(jobs, c, s.log, l);
    assert Collides(jobs, c, s.log, k, l, d);
  }

  /** A thread is beaten by a step of another thread that removes its blob. */
  lemma BeatenByAnother(jobs: Jobs, s: State, step: Step, t: Thread)
    requires Enabled(jobs, s, step) && t in s.pcs && t in Apply(jobs, s, step).pcs
    requires !Beaten(s.pcs[t], s.blobs) && Beaten(Apply(jobs, s, step).pcs[t], Apply(jobs, s, step).blobs)
    ensures step.Move? && step.t != t && s.pcs[t].SweepFound? && s.pcs[t].i < |s.pcs[t].layers|
    ensures s.pcs[t].layers[s.pcs[t].i].digest in s.blobs - Apply(jobs, s, step).blobs
  {
  }

  lemma {:induction false} BeatenColliding(jobs: Jobs, c: Contents, s: State, steps: seq<Step>, s': State, t: Thread)
    requires Inv(jobs, c, s) && Sequential(jobs, c, s.log) && SweepsLogged(jobs, c, s.pcs, s.log)
    requires Runs(jobs, s, steps, s') && t in s.pcs && t in s'.pcs
    requires !Beaten(s.pcs[t], s.blobs) && Beaten(s'.pcs[t], s'.blobs)
    ensures Colliding(jobs, c)
    decreases |steps|
  {
    if steps == [] {
    } else {
      var next := Apply(jobs, s, steps[0]);
      StepKeeps(jobs, c, s, steps[0]);
      assert t in next.pcs;
      if Beaten(next.pcs[t], next.blobs) {
        RemovalBeats(jobs, c, s, steps[0], t);
      } else {
        if steps[0].Move? {
          MoveLogged(jobs, c, s, steps[0].t);
        }
        BeatenColliding(jobs, c, next, steps[1..], s', t);
      }
    }
  }

  // Two deletions that collide can be made to fail

  /** A sweep goes on up to some layer. */
  lemma {:induction false} SweepsTo(jobs: Jobs, s0: State, s: State, t: Thread, layers: seq<Layer>, i: nat, goal: nat)
    returns (s': State)
    requires Leads(jobs, true, s0, s) && Unlocked(s) && t in jobs && t in s.pcs
    requires s.pcs[t] == Sweeping(layers, i) && i <= goal <= |layers|
    ensures Leads(jobs, true, s0, s') && Unlocked(s') && s'.catalog == s.catalog
    ensures s'.pcs == s.pcs[t := Sweeping(layers, goal)]
    decreases goal - i
  {
    if i == goal {
      s' := s;
    } else {
      var next := SweepsOne(jobs, true, s0, s, t, layers, i);
      s' := SweepsTo(jobs, s0, next, t, layers, i + 1, goal);
      assert s.pcs[t := Sweeping(layers, i + 1)][t := Sweeping(layers, goal)] == s.pcs[t := Sweeping(layers, goal)];
    }
  }

  /** The thread sees the blob. */
  lemma Finds(jobs: Jobs, s0: State, s: State, t: Thread, layers: seq<Layer>, i: nat) returns (s': State)
    requires Leads(jobs, true, s0, s) && s.writer.None? && t in jobs && t in s.pcs
    requires s.pcs[t] == Sweeping(layers, i) && i < |layers|
    requires layers[i].digest in s.blobs && CountOf(s.catalog.counts, layers[i].digest) <= 0
    ensures Leads(jobs, true, s0, s')
    ensures s' == s.(readers := s.readers + {t}, pcs := s.pcs[t := SweepFound(layers, i, s.catalog)])
  {
    var loaded := SweepLoads(jobs, true, s0, s, t, layers, i);
    LeadsOn(jobs, true, s0, loaded, Move(t));
    s' := Apply(jobs, loaded, Move(t));
    assert s.pcs[t := SweepLoaded(layers, i, s.catalog)][t := SweepFound(layers, i, s.catalog)]
        == s.pcs[t := SweepFound(layers, i, s.catalog)];
  }

  /** Both see it, the first removes it, and the second fails. */
  lemma OneFails(jobs: Jobs, s0: State, s: State, t: Thread, u: Thread, x: seq<Layer>, i: nat, y: seq<Layer>, j: nat)
    returns (s': State)
    requires Leads(jobs, true, s0, s) && s.writer.None? && t in jobs && u in jobs && t in s.pcs && u in s.pcs && t != u
    requires s.pcs[t] == Sweeping(x, i) && i < |x| && s.pcs[u] == Sweeping(y, j) && j < |y| && x[i].digest == y[j].digest
    requires x[i].digest in s.blobs && CountOf(s.catalog.counts, x[i].digest) <= 0
    ensures Leads(jobs, true, s0, s') && u in s'.pcs && s'.pcs[u] == Failed
  {
    s' := Finds(jobs, s0, s, t, x, i);
    s' := Finds(jobs, s0, s', u, y, j);
    LeadsOn(jobs, true, s0, s', Move(t));
    s' := Apply(jobs, s', Move(t));
    LeadsOn(jobs, true, s0, s', Move(u));
    s' := Apply(jobs, s', Move(u));
  }

  lemma CollisionFails(jobs: Jobs, s0: State, log: seq<Thread>, k: nat, l: nat, d: string) returns (s: State)
    requires Init(jobs, s0) && Collides(jobs, s0.catalog, log, k, l, d)
    ensures Leads(jobs, true, s0, s) && log[l] in s.pcs && s.pcs[log[l]] == Failed
  {
    var x, y := SweptBy(jobs, s0.catalog, log, k), SweptBy(jobs, s0.catalog, log, l);
    var i :| 0 <= i < |x| && x[i].digest == d;
    var j :| 0 <= j < |y| && y[j].digest == d;
    assert log[k] != log[l];
    s := Plays(jobs, true, log, s0);
    s := SweepsTo(jobs, s0, s, log[k], x, 0, i);
    s := SweepsTo(jobs, s0, s, log[l], y, 0, j);
    LeadsOn(jobs, true, s0, s, NewBlob(d));
    s := Apply(jobs, s, NewBlob(d));
    s := OneFails(jobs, s0, s, log[k], log[l], x, i, y, j);
  }

  /**
   * A deletion can fail, while other processes may store blobs, if and only if some of the jobs, done one after the
   * other, leave two deletions with the same uncounted digest to sweep.
   */
  lemma FailsExactlyWhenColliding(jobs: Jobs, s0: State)
    requires Init(jobs, s0)
    ensures (exists s, t :: Leads(jobs, true, s0, s) && t in s.pcs && s.pcs[t].Failed?) <==> Colliding(jobs, s0.catalog)
  {
    if Colliding(jobs, s0.catalog) {
      var log, k, l, d :| Collides(jobs, s0.catalog, log, k, l, d);
      var s := CollisionFails(jobs, s0, log, k, l, d);
      assert s.pcs[log[l]].Failed?;
    }
    if s, t :| Leads(jobs, true, s0, s) && t in s.pcs && s.pcs[t].Failed? {
      FailureCollides(jobs, s0, s, t);
    }
  }

  lemma FailureCollides(jobs: Jobs, s0: State, s: State, t: Thread)
    requires Init(jobs, s0) && Leads(jobs, true, s0, s) && t in s.pcs && s.pcs[t].Failed?
    ensures Colliding(jobs, s0.catalog)
  {
    var steps :| Runs(jobs, s0, steps, s);
    InitHolds(jobs, s0);
    RunKeeps(jobs, s0.catalog, s0, steps, s);
    BeatenColliding(jobs, s0.catalog, s0, steps, s, t);
  }
}
