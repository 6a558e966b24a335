/** The code of the local storage backend, refining the operations on its files. */
module LocalBackend {
  import opened Prelude
  import opened Ids
  import opened Catalogs
  import Files = LocalStore
  import MediaTypes

  type Bytes = Files.Bytes
  type Hash = Files.Hash

  lemma {:induction false} DelAllManifests(s: Files.Store, ids: seq<Id>)
    ensures Files.Load(Files.DelAll(s, ids)).manifests == Files.Load(s).manifests - Elems(ids)
    decreases |ids|
  {
    if ids == [] {
    } else {
      DelAllManifests(Files.Del(s, ids[0]), ids[1..]);
      assert ids == [ids[0]] + ids[1..];
      assert Files.Load(s).manifests - {ids[0]} - Elems(ids[1..]) == Files.Load(s).manifests - Elems(ids);
      assert ids[0] !in Files.Load(s).manifests ==> Files.Load(s).manifests - {ids[0]} == Files.Load(s).manifests;
    }
  }

  lemma {:induction false} DelAllOneMore(s: Files.Store, ids: seq<Id>, id: Id)
    ensures Files.DelAll(s, ids + [id]) == Files.Del(Files.DelAll(s, ids), id)
    decreases |ids|
  {
    if ids != [] {
      assert (ids + [id])[1..] == ids[1..] + [id];
      DelAllOneMore(Files.Del(s, ids[0]), ids[1..], id);
    } else {
      assert [id][1..] == [];
    }
  }

  /** The first layer without a blob. */
  method CheckLayers(blobs: map<string, Bytes>, layers: seq<Layer>) returns (missing: Option<string>)
    ensures missing == Files.FirstMissing(blobs, layers)
  {
    for i := 0 to |layers|
      invariant Files.FirstMissing(blobs, layers) == Files.FirstMissing(blobs, layers[i..])
    {
      if layers[i].digest !in blobs {
        return Some(layers[i].digest);
      }
      assert layers[i..][1..] == layers[i + 1..];
    }
    missing := None;
  }

  class Backend {
    const hash: Hash
    var catalog: Option<Contents>
    var dir: bool
    var blobs: map<string, Bytes>
    var temps: map<string, Bytes>
    var writers: map<string, Files.Writer>

    ghost function Value(): Files.Store
      reads this
    {
      Files.Store(catalog, dir, blobs, temps, writers)
    }

    ghost predicate Intact()
      reads this
    {
      Files.Intact(hash, Value())
    }

    constructor (hash: Hash)
      ensures this.hash == hash && Value() == Files.FRESH && Intact()
    {
      this.hash, catalog, dir, blobs, temps, writers := hash, None, true, map[], map[], map[];
      EmptyConsistent();
    }

    method LoadCatalog() returns (c: Catalog)
      ensures fresh(c) && c.Value() == Files.Load(Value())
    {
      match catalog {
        case Some(v) => c := new Catalog(v);
        case None => c := new Catalog(EMPTY);
      }
    }

    /** Validates that all layers exist, then inserts the manifest. */
    method Save(a: Artifact) returns (e: Option<Files.StoreError>)
      modifies this`catalog
      ensures (Value(), e) == Files.Save(old(Value()), a)
      ensures old(Intact()) ==> Intact()
    {
      if old(Intact()) {
        Files.SaveKeeps(hash, Value(), a);
      }
      var missing := CheckLayers(blobs, a.layers);
      if missing.Some? {
        return Some(Files.LayerMissing(missing.value));
      }
      var c := LoadCatalog();
      c.Add(a);
      catalog := Some(Contents(c.index, c.manifests, c.counts));
      e := None;
    }

    /** Removes the manifest, then every blob of it that nothing counts any more. */
    method Del(id: Id)
      modifies this`catalog, this`blobs
      ensures Value() == Files.Del(old(Value()), id)
      ensures old(Intact()) ==> Intact()
    {
      if old(Intact()) {
        Files.DelKeeps(hash, Value(), id);
      }
      var c := LoadCatalog();
      if id !in c.manifests {
        return;
      }
      var layers := c.manifests[id].layers;
      c.Del(id);
      var counts := c.counts;
      catalog := Some(Contents(c.index, c.manifests, c.counts));
      blobs := SweepBlobs(blobs, counts, layers);
    }

    method Copy(from: Id, to: Id) returns (e: Option<Files.StoreError>)
      modifies this`catalog
      ensures (Value(), e) == Files.Copy(old(Value()), from, to)
      ensures old(Intact()) ==> Intact()
    {
      var c := LoadCatalog();
      if from !in c.manifests {
        return Some(Files.NotFound(from));
      }
      e := Save(c.manifests[from].(id := to));
    }

    /** Deletes, in any order, every other artifact listed under the prefix of `keep`. */
    method Prune(keep: Id) returns (ghost order: seq<Id>)
      modifies this`catalog, this`blobs
      ensures Value() == Files.DelAll(old(Value()), order)
      ensures Elems(order) == Matching(Files.Load(old(Value())), keep) - {keep}
      ensures Files.Load(Value()).manifests ==
                Files.Load(old(Value())).manifests - (Matching(Files.Load(old(Value())), keep) - {keep})
      ensures old(Intact()) ==> Intact()
    {
      var c := LoadCatalog();
      var todo := Listed(c.index, Prefix(keep)) - {keep};
      ghost var all := todo;
      order := [];
      while todo != {}
        invariant Value() == Files.DelAll(old(Value()), order)
        invariant Elems(order) == all - todo && todo <= all
        invariant old(Intact()) ==> Intact()
      {
        var id :| id in todo;
        DelAllOneMore(old(Value()), order, id);
        Del(id);
        assert Elems(order + [id]) == Elems(order) + {id};
        order := order + [id];
        todo := todo - {id};
      }
      DelAllManifests(old(Value()), order);
    }

    /** Removes the catalog file, then the blob directory; the next load starts from an empty catalog. */
    method PruneAll() returns (e: Option<Files.StoreError>)
      modifies this`catalog, this`dir, this`blobs, this`temps
      ensures (Value(), e) == Files.PruneAll(old(Value()))
      ensures old(Intact()) ==> Intact() && (old(catalog).Some? ==> Files.Load(Value()) == EMPTY)
    {
      EmptyConsistent();
      if catalog.None? {
        return Some(Files.Io);
      }
      catalog := None;
      if !dir {
        return Some(Files.Io);
      }
      dir, blobs, temps := false, map[], map[];
      e := None;
    }

    method StartLayer(target: string) returns (e: Option<Files.StoreError>)
      modifies this`temps, this`writers
      ensures (Value(), e) == Files.StartLayer(old(Value()), target)
      ensures old(Intact()) ==> Intact()
    {
      if !dir {
        return Some(Files.Io);
      }
      temps := temps[target := []];
      writers := writers[target := Files.Writer([], 0)];
      e := None;
    }

    /** The file behind the writer accepts the first `n` bytes of `buf`, and only those are hashed. */
    method PollWrite(target: string, buf: Bytes, n: nat) returns (e: Option<Files.StoreError>)
      requires n <= |buf|
      modifies this`temps, this`writers
      ensures (Value(), e) == Files.Write(old(Value()), target, buf[..n])
      ensures old(Intact()) ==> Intact()
    {
      if target !in temps || target !in writers {
        return Some(Files.Io);
      }
      temps := temps[target := temps[target] + buf[..n]];
      writers := writers[target := Files.Writer(writers[target].hashed + buf[..n], writers[target].size + n)];
      e := None;
    }

    /** Moves a finished temporary file to the name that the hash gives it. */
    method FinishLayer(target: string, mediaType: MediaTypes.MediaType, platform: Option<string>)
      returns (r: Result<Layer, Files.StoreError>)
      modifies this`blobs, this`temps
      ensures Value() == Files.FinishLayer(hash, old(Value()), target).0
      ensures r.Err? <==> Files.FinishLayer(hash, old(Value()), target).1.Some?
      ensures r.Ok? ==> r.value.mediaType == mediaType && r.value.platform == platform
      ensures old(Intact()) ==> Intact()
      ensures old(Intact()) && r.Ok? ==>
                && target in old(temps) && r.value.digest == hash(old(temps)[target]) && r.value.size == |old(temps)[target]|
                && r.value.digest in blobs && blobs[r.value.digest] == old(temps)[target]
    {
      if target !in temps || target !in writers || !dir {
        return Err(Files.Io);
      }
      var digest := hash(writers[target].hashed);
      blobs := blobs[digest := temps[target]];
      temps := temps - {target};
      r := Ok(Layer(mediaType, digest, writers[target].size, platform));
    }
  }

  /** Pruning around the identifier whose prefix is the key of everything deletes every other artifact. */
  method PruneStar(b: Backend)
    requires b.Intact()
    modifies b`catalog, b`blobs
    ensures b.Intact() && Files.Load(b.Value()).manifests.Keys == Files.Load(old(b.Value())).manifests.Keys * {STAR}
  {
    StarMatchesEverything(Files.Load(b.Value()));
    ghost var order := b.Prune(STAR);
  }

  method SweepBlobs(blobs: map<string, Bytes>, counts: map<string, int>, layers: seq<Layer>) returns (r: map<string, Bytes>)
    ensures r == Files.Sweep(blobs, counts, layers)
  {
    r := blobs;
    for i := 0 to |layers|
      invariant r == Files.Sweep(blobs, counts, layers[..i])
    {
      assert layers[..i + 1][..i] == layers[..i];
      var d := layers[i].digest;
      if CountOf(counts, d) <= 0 && d in r {
        r := r - {d};
      }
    }
    assert layers[..|layers|] == layers;
  }
}
