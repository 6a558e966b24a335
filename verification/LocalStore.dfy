/** The local storage backend: a catalog file, blobs named by their hash, and layers being written. */
module LocalStore {
  import opened Prelude
  import opened Ids
  import opened Catalogs

  type Byte = bv8
  type Bytes = seq<Byte>

  /** The content hash in its printed form. */
  type Hash = Bytes -> string

  /** A writer: what went into the hash so far, and how many bytes were accepted. */
  datatype Writer = Writer(hashed: Bytes, size: nat)

  /**
   * The backend's files: the catalog if it exists, the blob directory, the blobs and the temporary files in
   * it, and the writers that were handed out.
   */
  datatype Store = Store(
    catalog: Option<Contents>, dir: bool, blobs: map<string, Bytes>, temps: map<string, Bytes>, writers: map<string, Writer>)

  datatype StoreError = LayerMissing(digest: string) | NotFound(id: Id) | Io

  /** The catalog as it is loaded: a missing file is an empty catalog. */
  function Load(s: Store): Contents {
    match s.catalog
    case Some(c) => c
    case None => EMPTY
  }

  // Operations

  /** The layer has the digest, and all layers before it have their blobs. */
  ghost predicate FirstNamed(layers: seq<Layer>, i: nat, digest: string, blobs: map<string, Bytes>) {
    i < |layers| && layers[i].digest == digest && forall j :: 0 <= j < i ==> layers[j].digest in blobs
  }

  function FirstMissing(blobs: map<string, Bytes>, layers: seq<Layer>): (r: Option<string>)
    ensures r.None? <==> forall i :: 0 <= i < |layers| ==> layers[i].digest in blobs
    ensures r.Some? ==> r.value !in blobs && exists i :: FirstNamed(layers, i, r.value, blobs)
  {
    if layers == [] then None
    else if layers[0].digest !in blobs then
      assert FirstNamed(layers, 0, layers[0].digest, blobs);
      Some(layers[0].digest)
    else
      var rest := FirstMissing(blobs, layers[1..]);
      assert forall i: nat, d :: FirstNamed(layers[1..], i, d, blobs) ==> FirstNamed(layers, i + 1, d, blobs);
      rest
  }

  function Save(s: Store, a: Artifact): (Store, Option<StoreError>) {
    match FirstMissing(s.blobs, a.layers)
    case Some(d) => (s, Some(LayerMissing(d)))
    case None => (s.(catalog := Some(Added(Load(s), a))), None)
  }

  /** Removes the blobs of the given layers that nothing counts any more. */
  function Sweep(blobs: map<string, Bytes>, counts: map<string, int>, layers: seq<Layer>): map<string, Bytes> {
    if layers == [] then blobs
    else
      var prior := Sweep(blobs, counts, layers[..|layers| - 1]);
      var d := layers[|layers| - 1].digest;
      if CountOf(counts, d) <= 0 then prior - {d} else prior
  }

  function Del(s: Store, id: Id): Store {
    var c := Load(s);
    if id !in c.manifests then s
    else
      var c' := Removed(c, id);
      s.(catalog := Some(c'), blobs := Sweep(s.blobs, c'.counts, c.manifests[id].layers))
  }

  function Copy(s: Store, from: Id, to: Id): (Store, Option<StoreError>) {
    if from !in Load(s).manifests then (s, Some(NotFound(from)))
    else Save(s, Load(s).manifests[from].(id := to))
  }

  function DelAll(s: Store, ids: seq<Id>): Store
    decreases |ids|
  {
    if ids == [] then s else DelAll(Del(s, ids[0]), ids[1..])
  }

  /** Fails at the first of the two removals that finds nothing to remove. */
  function PruneAll(s: Store): (Store, Option<StoreError>) {
    if s.catalog.None? then (s, Some(Io))
    else if !s.dir then (s.(catalog := None), Some(Io))
    else (s.(catalog := None, dir := false, blobs := map[], temps := map[]), None)
  }

  function StartLayer(s: Store, target: string): (Store, Option<StoreError>) {
    if !s.dir then (s, Some(Io))
    else (s.(temps := s.temps[target := []], writers := s.writers[target := Writer([], 0)]), None)
  }

  /** The underlying file accepts a chunk; hash and size follow. */
  function Write(s: Store, target: string, chunk: Bytes): (Store, Option<StoreError>) {
    if target !in s.temps || target !in s.writers then (s, Some(Io))
    else
      var w := s.writers[target];
      (s.(temps := s.temps[target := s.temps[target] + chunk],
          writers := s.writers[target := Writer(w.hashed + chunk, w.size + |chunk|)]), None)
  }

  function FinishLayer(h: Hash, s: Store, target: string): (Store, Option<StoreError>) {
    if target !in s.temps || target !in s.writers || !s.dir then (s, Some(Io))
    else (s.(blobs := s.blobs[h(s.writers[target].hashed) := s.temps[target]], temps := s.temps - {target}), None)
  }

  // The store invariant

  ghost predicate BlobsNamedByHash(h: Hash, blobs: map<string, Bytes>) {
    forall d :: d in blobs ==> h(blobs[d]) == d
  }

  ghost predicate LayersPresent(c: Contents, blobs: map<string, Bytes>) {
    forall id, i :: id in c.manifests && 0 <= i < |c.manifests[id].layers| ==> c.manifests[id].layers[i].digest in blobs
  }

  /** What a writer hashed is what its file holds, whatever the sizes of the single writes. */
  ghost predicate WritersFollow(s: Store) {
    forall t :: t in s.temps ==>
      t in s.writers && s.writers[t].hashed == s.temps[t] && s.writers[t].size == |s.temps[t]|
  }

  ghost predicate Intact(h: Hash, s: Store) {
    && Consistent(Load(s))
    && BlobsNamedByHash(h, s.blobs)
    && LayersPresent(Load(s), s.blobs)
    && WritersFollow(s)
  }

  lemma {:induction false} SweepKeeps(blobs: map<string, Bytes>, counts: map<string, int>, layers: seq<Layer>, d: string)
    ensures d in Sweep(blobs, counts, layers) <==> d in blobs && (CountOf(counts, d) > 0 || Occurrences(layers, d) == 0)
    ensures d in Sweep(blobs, counts, layers) ==> Sweep(blobs, counts, layers)[d] == blobs[d]
  {
    if layers == [] {
    } else {
      SweepKeeps(blobs, counts, layers[..|layers| - 1], d);
    }
  }

  lemma AddedPresent(c: Contents, a: Artifact, blobs: map<string, Bytes>)
    requires LayersPresent(c, blobs) && FirstMissing(blobs, a.layers).None?
    ensures LayersPresent(Added(c, a), blobs)
  {
  }

  lemma SaveKeeps(h: Hash, s: Store, a: Artifact)
    requires Intact(h, s)
    ensures Intact(h, Save(s, a).0)
  {
    AddedKeeps(Load(s), a);
    if FirstMissing(s.blobs, a.layers).None? {
      AddedPresent(Load(s), a, s.blobs);
    }
  }

  lemma DelKeeps(h: Hash, s: Store, id: Id)
    requires Intact(h, s)
    ensures Intact(h, Del(s, id))
  {
    var c := Load(s);
    if id in c.manifests {
      var c', t := Removed(c, id), Del(s, id);
      RemovedKeeps(c, id);
      forall d
        ensures d in t.blobs ==> d in s.blobs && t.blobs[d] == s.blobs[d]
        ensures d in s.blobs && CountOf(c'.counts, d) > 0 ==> d in t.blobs
      {
        SweepKeeps(s.blobs, c'.counts, c.manifests[id].layers, d);
      }
      forall k, i | k in c'.manifests && 0 <= i < |c'.manifests[k].layers|
        ensures c'.manifests[k].layers[i].digest in t.blobs
      {
        Referenced(c'.manifests, k, i);
      }
    }
  }

  lemma {:induction false} DelAllKeeps(h: Hash, s: Store, ids: seq<Id>)
    requires Intact(h, s)
    ensures Intact(h, DelAll(s, ids))
    decreases |ids|
  {
    if ids == [] {
    } else {
      DelKeeps(h, s, ids[0]);
      DelAllKeeps(h, Del(s, ids[0]), ids[1..]);
    }
  }

  /** A save succeeds exactly when all layers are there; then the artifact opens as saved and all others as before. */
  lemma SaveOpens(s: Store, a: Artifact)
    ensures Save(s, a).1.None? <==> forall i :: 0 <= i < |a.layers| ==> a.layers[i].digest in s.blobs
    ensures Save(s, a).1.None? ==> Load(Save(s, a).0).manifests == Load(s).manifests[a.id := a]
    ensures Save(s, a).1.Some? ==> Save(s, a).0 == s
    ensures Save(s, a).0.blobs == s.blobs
  {
  }

  /** In an intact store an existing artifact can always be copied; the copy shares its layers and no blob moves. */
  lemma CopyShares(h: Hash, s: Store, from: Id, to: Id)
    requires Intact(h, s)
    ensures var (t, e) := Copy(s, from, to);
            && (e.None? <==> from in Load(s).manifests) && t.blobs == s.blobs
            && (e.None? ==> to in Load(t).manifests
                            && Load(t).manifests[to].id == to
                            && Load(t).manifests[to].layers == Load(s).manifests[from].layers
                            && Load(t).manifests[to].extras == Load(s).manifests[from].extras
                            && Load(t).manifests[to].mediaType == Load(s).manifests[from].mediaType)
    ensures forall k :: k in Load(s).manifests && k != to ==>
              k in Load(Copy(s, from, to).0).manifests && Load(Copy(s, from, to).0).manifests[k] == Load(s).manifests[k]
  {
    var c := Load(s);
    if from in c.manifests {
      SaveOpens(s, c.manifests[from].(id := to));
      assert forall i :: 0 <= i < |c.manifests[from].layers| ==> c.manifests[from].layers[i].digest in s.blobs;
    }
  }

  /** Pruning everything succeeds exactly when there is a catalog and a blob directory, and then nothing is left. */
  lemma PruneAllEmpties(s: Store)
    ensures PruneAll(s).1.None? <==> s.catalog.Some? && s.dir
    ensures PruneAll(s).1.None? ==> PruneAll(s).0.blobs == map[] && PruneAll(s).0.temps == map[] && !PruneAll(s).0.dir
    ensures s.catalog.Some? ==> Load(PruneAll(s).0) == EMPTY
    ensures s.catalog.None? ==> PruneAll(s).0 == s
    ensures PruneAll(s).1.Some? ==> PruneAll(s).0.blobs == s.blobs
  {
  }

  /** With exact counts a deletion reclaims exactly the blobs of the artifact that no other manifest uses. */
  lemma DelReclaims(s: Store, id: Id, d: string)
    requires CountsExact(Load(s)) && id in Load(s).manifests
    ensures d in Del(s, id).blobs <==>
              d in s.blobs &&
              (Occurrences(Load(s).manifests[id].layers, d) == 0 || References(Load(Del(s, id)).manifests, d) > 0)
  {
    var c := Load(s);
    SweepKeeps(s.blobs, Removed(c, id).counts, c.manifests[id].layers, d);
    RemovedReferences(c, id, d);
  }

  /** One operation of a history. A write is the part of a buffer that the file accepted. */
  datatype Op =
    | OpStart(target: string)
    | OpWrite(target: string, chunk: Bytes)
    | OpFinish(target: string)
    | OpSave(artifact: Artifact)
    | OpDel(id: Id)
    | OpCopy(from: Id, to: Id)
    | OpPrune(keep: Id, order: seq<Id>)
    | OpPruneAll

  function Do(h: Hash, s: Store, op: Op): Store {
    match op
    case OpStart(t) => StartLayer(s, t).0
    case OpWrite(t, chunk) => Write(s, t, chunk).0
    case OpFinish(t) => FinishLayer(h, s, t).0
    case OpSave(a) => Save(s, a).0
    case OpDel(id) => Del(s, id)
    case OpCopy(from, to) => Copy(s, from, to).0
    case OpPrune(_, order) => DelAll(s, order)
    case OpPruneAll => PruneAll(s).0
  }

  function DoAll(h: Hash, s: Store, ops: seq<Op>): Store
    decreases |ops|
  {
    if ops == [] then s else DoAll(h, Do(h, s, ops[0]), ops[1..])
  }

  lemma OpKeeps(h: Hash, s: Store, op: Op)
    requires Intact(h, s)
    ensures Intact(h, Do(h, s, op))
  {
    match op
    case OpSave(a) => SaveKeeps(h, s, a);
    case OpDel(id) => DelKeeps(h, s, id);
    case OpCopy(from, to) =>
      if from in Load(s).manifests {
        SaveKeeps(h, s, Load(s).manifests[from].(id := to));
      }
    case OpPrune(_, order) => DelAllKeeps(h, s, order);
    case OpPruneAll => EmptyConsistent();
    case OpStart(t) =>
    case OpWrite(t, chunk) =>
    case OpFinish(t) =>
  }

  /** The store invariant survives every history of operations that do not overlap. */
  lemma {:induction false} HistoryKeeps(h: Hash, s: Store, ops: seq<Op>)
    requires Intact(h, s)
    ensures Intact(h, DoAll(h, s, ops))
    decreases |ops|
  {
    if ops == [] {
    } else {
      OpKeeps(h, s, ops[0]);
      HistoryKeeps(h, Do(h, s, ops[0]), ops[1..]);
    }
  }

  /** A fresh backend. */
  const FRESH: Store := Store(None, true, map[], map[], map[])

  /** Whatever is done to a fresh backend, its blobs are what their names say and no manifest dangles. */
  lemma FreshHistory(h: Hash, ops: seq<Op>)
    ensures Intact(h, DoAll(h, FRESH, ops))
  {
    EmptyConsistent();
    HistoryKeeps(h, FRESH, ops);
  }
}
