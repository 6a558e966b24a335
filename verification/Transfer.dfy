/** Synchronising artifacts from other caches into the local one. */
module Transfer {
  import opened Prelude
  import opened Ids
  import opened Catalogs
  import Files = LocalStore
  import LocalBackend

  type Bytes = Files.Bytes
  type Hash = Files.Hash

  /** Another cache as the local one sees it. Its blobs are not trusted: the bytes behind a digest may be anything. */
  datatype Remote = Remote(manifests: map<Id, Artifact>, blobs: map<string, Bytes>)

  /** Blobs after the readable ones among `layers` were copied over and renamed to the hash of what arrived. */
  function Fetched(h: Hash, blobs: map<string, Bytes>, remote: Remote, layers: seq<Layer>): map<string, Bytes> {
    if layers == [] then blobs
    else
      var prior := Fetched(h, blobs, remote, layers[..|layers| - 1]);
      var d := layers[|layers| - 1].digest;
      if d in remote.blobs then prior[h(remote.blobs[d]) := remote.blobs[d]] else prior
  }

  /** The bytes that arrive for some layer hash to `digest`. */
  ghost predicate Arrives(h: Hash, remote: Remote, layers: seq<Layer>, digest: string) {
    exists j :: 0 <= j < |layers| && layers[j].digest in remote.blobs && h(remote.blobs[layers[j].digest]) == digest
  }

  lemma {:induction false} FetchedBlobs(h: Hash, blobs: map<string, Bytes>, remote: Remote, layers: seq<Layer>, d: string)
    ensures d in Fetched(h, blobs, remote, layers) <==> d in blobs || Arrives(h, remote, layers, d)
    ensures d in Fetched(h, blobs, remote, layers) && !(d in blobs && Fetched(h, blobs, remote, layers)[d] == blobs[d]) ==>
              h(Fetched(h, blobs, remote, layers)[d]) == d
  {
    if layers == [] {
    } else {
      var k := |layers| - 1;
      FetchedBlobs(h, blobs, remote, layers[..k], d);
      assert forall j :: 0 <= j < k ==> layers[..k][j] == layers[j];
      assert Arrives(h, remote, layers[..k], d) ==> Arrives(h, remote, layers, d);
    }
  }

  /** Every copy can read its blob and create its temporary file. */
  ghost predicate Readable(remote: Remote, layers: seq<Layer>, dir: bool) {
    forall l :: l in layers ==> l.digest in remote.blobs && dir
  }

  /** When all layers of the artifact can be had: read from the remote, and present locally or arriving. */
  ghost predicate Downloadable(h: Hash, s: Files.Store, remote: Remote, a: Artifact) {
    && Readable(remote, a.layers, s.dir)
    && forall i :: 0 <= i < |a.layers| ==>
         a.layers[i].digest in s.blobs || Arrives(h, remote, a.layers, a.layers[i].digest)
  }

  /** The copy loop: the file accepts some non-empty part of what is left, as often as it takes. */
  method CopyBytes(local: LocalBackend.Backend, target: string, data: Bytes)
    requires local.Intact() && target in local.temps && local.temps[target] == []
    modifies local`temps, local`writers
    ensures local.Intact() && local.temps == old(local.temps)[target := data]
  {
    var pos := 0;
    while pos < |data|
      invariant 0 <= pos <= |data| && local.Intact()
      invariant local.temps == old(local.temps)[target := data[..pos]]
    {
      var n: nat :| 0 < n <= |data| - pos;
      var e := local.PollWrite(target, data[pos..], n);
      assert data[..pos] + data[pos..][..n] == data[..pos + n];
      pos := pos + n;
    }
    assert data[..pos] == data;
  }

  /** One download task: read the remote blob, write it to a temporary file, and let the hash name it. */
  method FetchLayer(local: LocalBackend.Backend, remote: Remote, layer: Layer, target: string) returns (ok: bool)
    requires local.Intact()
    modifies local`blobs, local`temps, local`writers
    ensures local.Intact() && local.catalog == old(local.catalog) && local.dir == old(local.dir)
    ensures ok <==> layer.digest in remote.blobs && local.dir
    ensures local.blobs == if ok then Fetched(local.hash, old(local.blobs), remote, [layer]) else old(local.blobs)
  {
    if layer.digest !in remote.blobs {
      return false;
    }
    var started := local.StartLayer(target);
    if started.Some? {
      return false;
    }
    CopyBytes(local, target, remote.blobs[layer.digest]);
    var finished := local.FinishLayer(target, layer.mediaType, layer.platform);
    ok := finished.Ok?;
    assert [layer][..0] == [];
  }

  lemma FetchedOneMore(h: Hash, blobs: map<string, Bytes>, remote: Remote, layers: seq<Layer>, layer: Layer)
    ensures Fetched(h, blobs, remote, layers + [layer]) == Fetched(h, Fetched(h, blobs, remote, layers), remote, [layer])
  {
    assert (layers + [layer])[..|layers|] == layers;
    assert [layer][..0] == [];
  }

  /**
   * Copies all layers of an artifact, then saves its manifest. All copies run to their end even when one of
   * them fails; `order` is the order in which they finish.
   */
  method Download(local: LocalBackend.Backend, remote: Remote, a: Artifact, order: seq<Layer>, target: string)
    returns (e: Option<Files.StoreError>)
    requires local.Intact() && multiset(order) == multiset(a.layers)
    modifies local`catalog, local`blobs, local`temps, local`writers
    ensures local.Intact()
    ensures e.None? <==> Downloadable(local.hash, old(local.Value()), remote, a)
    ensures e.None? ==> local.catalog == Some(Added(Files.Load(old(local.Value())), a))
    ensures e.Some? ==> local.catalog == old(local.catalog)
    ensures forall d :: d in old(local.blobs) ==> d in local.blobs
    ensures forall d :: d in local.blobs ==> d in old(local.blobs) || Arrives(local.hash, remote, a.layers, d)
    ensures e.None? ==> forall i :: 0 <= i < |a.layers| ==>
              a.layers[i].digest in local.blobs && local.hash(local.blobs[a.layers[i].digest]) == a.layers[i].digest
  {
    var ok := FetchAll(local, remote, order, target);
    FetchedEnough(local.hash, old(local.Value()), remote, a, order, local.blobs);
    if !ok {
      return Some(Files.Io);
    }
    e := local.Save(a);
  }

  /** Runs all copies of a download. */
  method FetchAll(local: LocalBackend.Backend, remote: Remote, order: seq<Layer>, target: string) returns (ok: bool)
    requires local.Intact()
    modifies local`blobs, local`temps, local`writers
    ensures local.Intact() && local.catalog == old(local.catalog) && local.dir == old(local.dir)
    ensures ok <==> Readable(remote, order, local.dir)
    ensures local.blobs == if local.dir then Fetched(local.hash, old(local.blobs), remote, order) else old(local.blobs)
  {
    ok := true;
    for i := 0 to |order|
      invariant local.Intact() && local.catalog == old(local.catalog) && local.dir == old(local.dir)
      invariant ok <==> Readable(remote, order[..i], local.dir)
      invariant local.blobs ==
                  if local.dir then Fetched(local.hash, old(local.blobs), remote, order[..i]) else old(local.blobs)
    {
      assert order[..i + 1] == order[..i] + [order[i]];
      FetchedOneMore(local.hash, old(local.blobs), remote, order[..i], order[i]);
      assert [order[i]][..0] == [];
      var fetched := FetchLayer(local, remote, order[i], target);
      ok := ok && fetched;
    }
    assert order[..|order|] == order;
  }

  lemma FetchedEnough(
    h: Hash, s: Files.Store, remote: Remote, a: Artifact, order: seq<Layer>, blobs: map<string, Bytes>)
    requires multiset(order) == multiset(a.layers)
    requires blobs == if s.dir then Fetched(h, s.blobs, remote, order) else s.blobs
    ensures Readable(remote, order, s.dir) && Files.FirstMissing(blobs, a.layers).None? <==> Downloadable(h, s, remote, a)
    ensures forall d :: d in s.blobs ==> d in blobs
    ensures forall d :: d in blobs ==> d in s.blobs || Arrives(h, remote, a.layers, d)
  {
    SameMembers(order, a.layers);
    forall d
      ensures s.dir ==> (d in blobs <==> d in s.blobs || Arrives(h, remote, a.layers, d))
    {
      FetchedBlobs(h, s.blobs, remote, order, d);
      ArrivesInAnyOrder(h, remote, order, a.layers, d);
    }
  }

  lemma SameMembers(order: seq<Layer>, layers: seq<Layer>)
    requires multiset(order) == multiset(layers)
    ensures |order| == |layers| && forall l :: l in order <==> l in layers
  {
    assert |order| == |multiset(order)| == |layers|;
    forall l
      ensures l in order <==> l in layers
    {
      assert l in order <==> l in multiset(order);
    }
  }

  lemma ArrivesInAnyOrder(h: Hash, remote: Remote, order: seq<Layer>, layers: seq<Layer>, d: string)
    requires multiset(order) == multiset(layers)
    ensures Arrives(h, remote, order, d) <==> Arrives(h, remote, layers, d)
  {
    SameMembers(order, layers);
    if Arrives(h, remote, order, d) {
      var j :| 0 <= j < |order| && order[j].digest in remote.blobs && h(remote.blobs[order[j].digest]) == d;
      assert order[j] in layers;
    }
    if Arrives(h, remote, layers, d) {
      var j :| 0 <= j < |layers| && layers[j].digest in remote.blobs && h(remote.blobs[layers[j].digest]) == d;
      assert layers[j] in order;
    }
  }

  // Lookups

  /** The order in which the copies of a download finish. */
  ghost predicate Shuffles(finish: seq<Layer> -> seq<Layer>) {
    forall layers :: multiset(finish(layers)) == multiset(layers)
  }

  /** A cache files every manifest under the identifier that the manifest carries. */
  ghost predicate WellFiled(remote: Remote) {
    forall id :: id in remote.manifests ==> remote.manifests[id].id == id
  }

  /** What the local cache opens under an identifier. */
  ghost function Opened(local: LocalBackend.Backend, id: Id): Option<Artifact>
    reads local
  {
    var m := Files.Load(local.Value()).manifests;
    if id in m then Some(m[id]) else None
  }

  /** Copies an artifact that another cache has and the local one has not. */
  method FetchFrom(local: LocalBackend.Backend, remote: Remote, id: Id, finish: seq<Layer> -> seq<Layer>, target: string)
    returns (e: Option<Files.StoreError>)
    requires local.Intact() && Shuffles(finish) && WellFiled(remote) && id in remote.manifests && Opened(local, id).None?
    modifies local`catalog, local`blobs, local`temps, local`writers
    ensures local.Intact()
    ensures e.Some? <==> !Downloadable(local.hash, old(local.Value()), remote, remote.manifests[id])
    ensures e.None? ==> Opened(local, id) == Some(remote.manifests[id])
    ensures e.Some? ==> local.catalog == old(local.catalog)
    ensures forall k :: k != id ==> Opened(local, k) == old(Opened(local, k))
    ensures forall d :: d in old(local.blobs) ==> d in local.blobs
  {
    var a := remote.manifests[id];
    e := Download(local, remote, a, finish(a.layers), target);
  }

  /** Looks in the local cache, then in the build cache, from which a found artifact is synchronised on demand. */
  method FindBuild(
    local: LocalBackend.Backend, build: Option<Remote>, id: Id, sync: bool, finish: seq<Layer> -> seq<Layer>, target: string)
    returns (r: Result<Option<Artifact>, Files.StoreError>)
    requires local.Intact() && Shuffles(finish) && (build.Some? ==> WellFiled(build.value))
    modifies local`catalog, local`blobs, local`temps, local`writers
    ensures local.Intact()
    ensures r.Ok? && r.value.Some? && sync ==> Opened(local, id) == r.value
    ensures r == Ok(None) <==> old(Opened(local, id)).None? && (build.Some? ==> id !in build.value.manifests)
    ensures r.Err? <==> sync && old(Opened(local, id)).None? && build.Some? && id in build.value.manifests &&
                        !Downloadable(local.hash, old(local.Value()), build.value, build.value.manifests[id])
    ensures r.Ok? && r.value.Some? ==>
              r.value.value == if old(Opened(local, id)).Some? then old(Opened(local, id)).value else build.value.manifests[id]
    ensures r.Err? || r.value.None? || !sync ==> local.catalog == old(local.catalog)
    ensures local.dir == old(local.dir) && forall d :: d in old(local.blobs) ==> d in local.blobs
    ensures forall k :: k != id || old(Opened(local, k)).Some? ==> Opened(local, k) == old(Opened(local, k))
  {
    var c := local.LoadCatalog();
    if id in c.manifests {
      return Ok(Some(c.manifests[id]));
    }
    if build.Some? && id in build.value.manifests {
      var a := build.value.manifests[id];
      if sync {
        var e := FetchFrom(local, build.value, id, finish, target);
        if e.Some? {
          return Err(e.value);
        }
      }
      return Ok(Some(a));
    }
    return Ok(None);
  }

  ghost predicate FirstWith(sources: seq<Remote>, id: Id, i: nat) {
    i < |sources| && id in sources[i].manifests && forall j :: 0 <= j < i ==> id !in sources[j].manifests
  }

  lemma FirstIsUnique(sources: seq<Remote>, id: Id, i: nat)
    requires FirstWith(sources, id, i)
    ensures forall j :: 0 <= j < |sources| && FirstWith(sources, id, j) ==> j == i
  {
  }

  /** The first cache in priority order that has the artifact. */
  method FindSource(sources: seq<Remote>, id: Id) returns (found: Option<nat>)
    ensures found.None? ==> forall i :: 0 <= i < |sources| ==> id !in sources[i].manifests
    ensures found.Some? ==> found.value < |sources| && FirstWith(sources, id, found.value)
  {
    for i := 0 to |sources|
      invariant forall j :: 0 <= j < i ==> id !in sources[j].manifests
    {
      if id in sources[i].manifests {
        return Some(i);
      }
    }
    found := None;
  }

  /** Opens a source artifact, after fetching it from the first source cache that has it. */
  method FetchSource(
    local: LocalBackend.Backend, sources: seq<Remote>, id: Id, finish: seq<Layer> -> seq<Layer>, target: string)
    returns (r: Result<Option<Artifact>, Files.StoreError>)
    requires local.Intact() && Shuffles(finish) && forall i :: 0 <= i < |sources| ==> WellFiled(sources[i])
    modifies local`catalog, local`blobs, local`temps, local`writers
    ensures local.Intact()
    ensures r.Ok? && r.value.Some? ==> Opened(local, id) == r.value
    ensures r == Ok(None) <==>
              old(Opened(local, id)).None? && forall i :: 0 <= i < |sources| ==> id !in sources[i].manifests
    ensures r.Ok? && r.value.Some? && old(Opened(local, id)).None? ==>
              exists i :: 0 <= i < |sources| && FirstWith(sources, id, i) && r.value.value == sources[i].manifests[id]
    ensures old(Opened(local, id)).Some? ==> r == Ok(old(Opened(local, id)))
    ensures r.Err? <==> old(Opened(local, id)).None? &&
                        exists i :: 0 <= i < |sources| && FirstWith(sources, id, i) &&
                                    !Downloadable(local.hash, old(local.Value()), sources[i], sources[i].manifests[id])
    ensures r.Err? || r.value.None? ==> local.catalog == old(local.catalog)
    ensures forall k :: k != id || old(Opened(local, k)).Some? ==> Opened(local, k) == old(Opened(local, k))
  {
    var c := local.LoadCatalog();
    if id in c.manifests {
      return Ok(Some(c.manifests[id]));
    }
    var found := FindSource(sources, id);
    if found.None? {
      return Ok(None);
    }
    FirstIsUnique(sources, id, found.value);
    var e := FetchFrom(local, sources[found.value], id, finish, target);
    r := if e.Some? then Err(e.value) else Ok(Some(sources[found.value].manifests[id]));
  }
}
