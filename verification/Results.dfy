/** What a transform leaves in the local cache, and what a dependent takes out of it. */
module Results {
  import opened Prelude
  import opened Ids
  import opened Catalogs
  import MediaTypes
  import Files = LocalStore
  import opened LocalBackend
  import opened Transfer

  /** The artifact of a transform: one layer with the archive of its output. */
  function ResultOf(h: Hash, id: Id, data: Bytes, platform: Option<string>): Artifact {
    Artifact(MediaTypes.Manifest, id, Extras({}, map[], "null"),
             [Layer(MediaTypes.Tar(MediaTypes.Plain), h(data), |data|, platform)])
  }

  /** Writes the output of a transform to a new layer and saves an artifact with it. */
  method SaveResult(local: Backend, id: Id, data: Bytes, platform: Option<string>, target: string)
    returns (e: Option<Files.StoreError>)
    requires local.Intact()
    modifies local`catalog, local`blobs, local`temps, local`writers
    ensures local.Intact() && (e.None? <==> local.dir)
    ensures e.None? ==> Opened(local, id) == Some(ResultOf(local.hash, id, data, platform))
    ensures e.None? ==> local.hash(data) in local.blobs && local.blobs[local.hash(data)] == data
    ensures forall k :: k != id ==> Opened(local, k) == old(Opened(local, k))
    ensures e.Some? ==> local.catalog == old(local.catalog)
    ensures forall d :: d in local.blobs <==> d in old(local.blobs) || (e.None? && d == local.hash(data))
  {
    e := local.StartLayer(target);
    if e.Some? {
      return;
    }
    CopyBytes(local, target, data);
    var layer := local.FinishLayer(target, MediaTypes.Tar(MediaTypes.Plain), platform);
    e := local.Save(Artifact(MediaTypes.Manifest, id, Extras({}, map[], "null"), [layer.value]));
  }

  // Staging

  predicate IsArchive(l: Layer) {
    l.mediaType.Tar?
  }

  /** The contents of the archives among the layers, in order. */
  function Archives(blobs: map<string, Bytes>, layers: seq<Layer>): seq<Bytes> {
    if layers == [] then []
    else
      var l := layers[|layers| - 1];
      Archives(blobs, layers[..|layers| - 1]) + if IsArchive(l) && l.digest in blobs then [blobs[l.digest]] else []
  }

  lemma OneArchive(blobs: map<string, Bytes>, l: Layer)
    requires IsArchive(l) && l.digest in blobs
    ensures Archives(blobs, [l]) == [blobs[l.digest]]
  {
    assert [l][..0] == [] && [] + [blobs[l.digest]] == [blobs[l.digest]];
  }

  /** Opens the artifact of a dependency, reads all its layers, and unpacks the archives among them. */
  method StageOne(local: Backend, id: Id) returns (r: Result<seq<Bytes>, Files.StoreError>)
    requires local.Intact()
    ensures r.Ok? <==> Opened(local, id).Some?
    ensures r.Ok? ==> r.value == Archives(local.blobs, Opened(local, id).value.layers)
  {
    var c := local.LoadCatalog();
    if id !in c.manifests {
      return Err(Files.NotFound(id));
    }
    var layers := c.manifests[id].layers;
    var unpacked: seq<Bytes> := [];
    for i := 0 to |layers|
      invariant unpacked == Archives(local.blobs, layers[..i])
    {
      assert layers[..i + 1][..i] == layers[..i];
      var data := local.blobs[layers[i].digest];
      if layers[i].mediaType.Tar? {
        unpacked := unpacked + [data];
      }
    }
    assert layers[..|layers|] == layers;
    r := Ok(unpacked);
  }

  /** What a dependent unpacks is, byte for byte, what the transform it depends on has saved. */
  method SaveThenStage(local: Backend, id: Id, data: Bytes, platform: Option<string>, target: string)
    returns (staged: Result<seq<Bytes>, Files.StoreError>)
    requires local.Intact() && local.dir
    modifies local`catalog, local`blobs, local`temps, local`writers
    ensures local.Intact() && staged == Ok([data])
  {
    var e := SaveResult(local, id, data, platform, target);
    staged := StageOne(local, id);
    OneArchive(local.blobs, ResultOf(local.hash, id, data, platform).layers[0]);
  }
}
