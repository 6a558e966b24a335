/** Publishing a build result to a shared cache and picking it up elsewhere. */
module Sharing {
  import opened Prelude
  import opened Ids
  import opened Catalogs
  import Files = LocalStore
  import opened LocalBackend
  import opened Transfer

  /** A backend as another one reads it. */
  ghost function Seen(b: Backend): Remote
    reads b
  {
    Remote(Files.Load(b.Value()).manifests, b.blobs)
  }

  /** Takes stock of a backend: its manifests and its blobs. */
  method Browse(b: Backend) returns (r: Remote)
    ensures r == Seen(b)
  {
    var c := b.LoadCatalog();
    r := Remote(c.manifests, b.blobs);
  }

  lemma IntactIsWellFiled(b: Backend)
    requires b.Intact()
    ensures WellFiled(Seen(b))
  {
  }

  /** What an intact backend holds, another one with the same hash can always copy. */
  lemma IntactIsDownloadable(h: Hash, from: Files.Store, to: Files.Store, id: Id)
    requires Files.Intact(h, from) && id in Files.Load(from).manifests
    ensures Downloadable(h, to, Remote(Files.Load(from).manifests, from.blobs), Files.Load(from).manifests[id]) <==>
              to.dir || Files.Load(from).manifests[id].layers == []
  {
    var m := Files.Load(from).manifests;
    var remote, layers := Remote(m, from.blobs), m[id].layers;
    forall i | 0 <= i < |layers|
      ensures Arrives(h, remote, layers, layers[i].digest)
    {
      assert layers[i].digest in from.blobs && h(from.blobs[layers[i].digest]) == layers[i].digest;
    }
    assert layers != [] ==> layers[0] in layers;
  }

  /** Copies an artifact of the local cache to another backend. */
  method Upload(local: Backend, to: Backend, id: Id, finish: seq<Layer> -> seq<Layer>, target: string)
    returns (e: Option<Files.StoreError>)
    requires local.Intact() && to.Intact() && local != to && local.hash == to.hash && Shuffles(finish)
    modifies to`catalog, to`blobs, to`temps, to`writers
    ensures to.Intact()
    ensures Opened(local, id).None? ==> e == Some(Files.NotFound(id))
    ensures e.None? <==> Opened(local, id).Some? && (to.dir || Opened(local, id).value.layers == [])
    ensures e.None? ==> Opened(local, id).Some? && to.catalog == Some(Added(Files.Load(old(to.Value())), Opened(local, id).value))
    ensures e.Some? ==> to.catalog == old(to.catalog)
  {
    var remote := Browse(local);
    if id !in remote.manifests {
      return Some(Files.NotFound(id));
    }
    IntactIsDownloadable(local.hash, local.Value(), to.Value(), id);
    var a := remote.manifests[id];
    e := Download(to, remote, a, finish(a.layers), target);
  }

  /**
   * A build result that one machine publishes to an intact build cache is found by every other machine, with
   * the same manifest and with layers that hash to their digests.
   */
  method PublishThenFind(
    mine: Backend, build: Backend, yours: Backend, id: Id, finish: seq<Layer> -> seq<Layer>, target: string)
    returns (r: Result<Option<Artifact>, Files.StoreError>)
    requires mine.Intact() && build.Intact() && yours.Intact() && mine != build && build != yours && mine != yours
    requires mine.hash == build.hash == yours.hash && Shuffles(finish) && build.dir && yours.dir
    requires Opened(mine, id).Some?
    modifies build`catalog, build`blobs, build`temps, build`writers
    modifies yours`catalog, yours`blobs, yours`temps, yours`writers
    ensures build.Intact() && yours.Intact()
    ensures r == Ok(Opened(yours, id)) && r.value.Some?
    ensures old(Opened(yours, id)).None? ==> Opened(yours, id) == Opened(mine, id)
  {
    var remote := Publish(mine, build, id, finish, target);
    IntactIsDownloadable(build.hash, build.Value(), yours.Value(), id);
    r := FindBuild(yours, Some(remote), id, true, finish, target);
  }

  method Publish(mine: Backend, build: Backend, id: Id, finish: seq<Layer> -> seq<Layer>, target: string) returns (r: Remote)
    requires mine.Intact() && build.Intact() && mine != build && mine.hash == build.hash && Shuffles(finish) && build.dir
    requires Opened(mine, id).Some?
    modifies build`catalog, build`blobs, build`temps, build`writers
    ensures build.Intact() && r == Seen(build) && WellFiled(r)
    ensures id in r.manifests && Some(r.manifests[id]) == Opened(mine, id)
  {
    var e := Upload(mine, build, id, finish, target);
    FiledUnderItself(mine, id);
    IntactIsWellFiled(build);
    r := Browse(build);
  }

  lemma FiledUnderItself(b: Backend, id: Id)
    requires b.Intact() && Opened(b, id).Some?
    ensures Opened(b, id).value.id == id
  {
  }
}
