/** One save against one deletion: the smallest case of a race, with a condition that can be read off the catalog. */
module PairRace {
  import opened Prelude
  import opened Ids
  import opened Catalogs
  import opened StoreRace
  import opened CalmRace
  import opened DanglingRuns
  import MediaTypes

  const SAVER: Thread := Thread(0)
  const DELETER: Thread := Thread(1)

  function Pair(a: Artifact, id: Id): Jobs {
    map[SAVER := SaveJob(a), DELETER := DelJob(id)]
  }

  /** Both calls are about to begin. */
  function Begin(c: Contents, blobs: set<string>): State {
    State(c, blobs, None, {}, map[SAVER := SaveChecking(0), DELETER := Waiting], [])
  }

  /** Both artifacts use the blob, and nothing counts it any more once the second one is deleted. */
  ghost predicate Contested(c: Contents, a: Artifact, id: Id, d: string) {
    && id in c.manifests && Named(a.layers, d) && Named(c.manifests[id].layers, d)
    && CountOf(Removed(c, id).counts, d) <= 0
  }

  lemma AtMostOne(log: seq<Thread>, t: Thread)
    requires NoDup(log) && forall u :: u in log ==> u == t
    ensures log == if t in log then [t] else []
  {
    NoDupBounded(log, {t});
    assert log != [] ==> log[0] in log;
  }

  /** The only sequential execution before the save is the deletion. */
  lemma DeletionAlone(c: Contents, a: Artifact, id: Id)
    ensures InJobs(Pair(a, id), [DELETER])
    ensures Replay(Pair(a, id), c, [DELETER]) == Removed(c, id)
    ensures SweptBy(Pair(a, id), c, [DELETER], 0) == ToSweep(c, DelJob(id))
  {
    OneAlone(Pair(a, id), c, DELETER);
  }

  lemma ContestedEndangers(c: Contents, a: Artifact, id: Id, d: string)
    requires Contested(c, a, id, d)
    ensures Endangers(Pair(a, id), c, [DELETER], 0, SAVER, d)
  {
    DeletionAlone(c, a, id);
    assert [DELETER][..0] == [];
  }

  lemma EndangersContested(c: Contents, a: Artifact, id: Id, log: seq<Thread>, k: nat, u: Thread, d: string)
    requires Endangers(Pair(a, id), c, log, k, u, d)
    ensures Contested(c, a, id, d)
  {
    assert u == SAVER && log[k] == DELETER;
    forall t | t in log
      ensures t == DELETER
    {
      assert t in Pair(a, id);
    }
    AtMostOne(log, DELETER);
    DeletionAlone(c, a, id);
  }

  lemma PairEndangered(c: Contents, a: Artifact, id: Id)
    ensures Endangered(Pair(a, id), c) <==> exists d :: Contested(c, a, id, d)
  {
    if d :| Contested(c, a, id, d) {
      ContestedEndangers(c, a, id, d);
    }
    if Endangered(Pair(a, id), c) {
      var log, k, u, d :| Endangers(Pair(a, id), c, log, k, u, d);
      EndangersContested(c, a, id, log, k, u, d);
    }
  }

  /**
   * A save and a deletion that run at the same time on an intact store, while other processes may store blobs, can
   * leave a manifest without its blob if and only if they contest a blob: both artifacts use it, and no other use of
   * it is counted.
   */
  lemma DanglesExactlyWhenContested(c: Contents, blobs: set<string>, a: Artifact, id: Id)
    requires Consistent(c) && Backed(c.manifests, blobs)
    ensures CanDangle(Pair(a, id), true, Begin(c, blobs)) <==> exists d :: Contested(c, a, id, d)
  {
    DanglesExactlyWhenEndangered(Pair(a, id), Begin(c, blobs));
    PairEndangered(c, a, id);
  }

  lemma PairViable(c: Contents, blobs: set<string>, a: Artifact, id: Id)
    ensures Endangered(Viable(Pair(a, id), blobs), c) <==>
              (forall l :: l in a.layers ==> l.digest in blobs) && Endangered(Pair(a, id), c)
  {
    var viable := Viable(Pair(a, id), blobs);
    if forall l :: l in a.layers ==> l.digest in blobs {
      assert viable == Pair(a, id);
    } else {
      assert SAVER !in viable;
      assert forall u :: u in viable ==> viable[u] == DelJob(id);
    }
  }

  /** When the two are alone with the store, the save has to find all its layers at the start as well. */
  lemma DanglesAlone(c: Contents, blobs: set<string>, a: Artifact, id: Id)
    requires Consistent(c) && Backed(c.manifests, blobs)
    ensures CanDangle(Pair(a, id), false, Begin(c, blobs)) <==>
              (forall l :: l in a.layers ==> l.digest in blobs) && exists d :: Contested(c, a, id, d)
  {
    DanglesUnaided(Pair(a, id), Begin(c, blobs));
    PairEndangered(c, a, id);
    PairViable(c, blobs, a, id);
  }

  // The smallest such case

  const LAYER: Layer := Layer(MediaTypes.Manifest, "d", 0, None)
  const NOTHING: Extras := Extras({}, map[], "null")
  const OLD: Artifact := Artifact(MediaTypes.Manifest, Id("x", None, None, None, "1"), NOTHING, [LAYER])
  const NEW: Artifact := Artifact(MediaTypes.Manifest, Id("y", None, None, None, "2"), NOTHING, [LAYER])

  lemma LayerContested()
    ensures Contested(Added(EMPTY, OLD), NEW, OLD.id, "d")
  {
    BumpedCounts(map[], [LAYER], "d");
    DroppedCounts(Bumped(map[], [LAYER]), [LAYER], "d");
    assert [LAYER][..0] == [];
    assert Named([LAYER], "d") by {
      assert [LAYER][0].digest == "d";
    }
  }

  /** One artifact is stored; one thread saves a second one with the same layer while another deletes the first. */
  lemma SaveCanDangle() returns (s: State)
    ensures Init(Pair(NEW, OLD.id), Begin(Added(EMPTY, OLD), {"d"}))
    ensures Leads(Pair(NEW, OLD.id), false, Begin(Added(EMPTY, OLD), {"d"}), s)
    ensures SAVER in s.pcs && DELETER in s.pcs && s.pcs[SAVER] == s.pcs[DELETER] == Finished(true)
    ensures NEW.id in s.catalog.manifests && s.catalog.manifests[NEW.id] == NEW && "d" !in s.blobs
  {
    EmptyConsistent();
    AddedKeeps(EMPTY, OLD);
    LayerContested();
    ContestedEndangers(Added(EMPTY, OLD), NEW, OLD.id, "d");
    s := Dangles(Pair(NEW, OLD.id), false, Begin(Added(EMPTY, OLD), {"d"}), [DELETER], 0, SAVER, "d");
  }
}
