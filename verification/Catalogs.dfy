/** The catalog of a storage backend: manifests, prefix index and blob reference counts. */
module Catalogs {
  import opened Prelude
  import opened Ids
  import MediaTypes

  datatype Layer = Layer(mediaType: MediaTypes.MediaType, digest: string, size: nat, platform: Option<string>)

  /** The rest of a manifest's configuration; version requirements and metadata are kept as text. */
  datatype Extras = Extras(offers: set<string>, needs: map<string, map<string, string>>, metadata: string)

  datatype Artifact = Artifact(mediaType: MediaTypes.MediaType, id: Id, extras: Extras, layers: seq<Layer>)

  /** The three tables of a catalog. */
  datatype Contents = Contents(index: map<string, set<Id>>, manifests: map<Id, Artifact>, counts: map<string, int>)

  const EMPTY: Contents := Contents(map[], map[], map[])

  /** Index key under which every identifier is listed. */
  const EVERYTHING: string := "*"

  function Listed(index: map<string, set<Id>>, key: string): set<Id> {
    if key in index then index[key] else {}
  }

  function CountOf(counts: map<string, int>, digest: string): int {
    if digest in counts then counts[digest] else 0
  }

  function Bumped(counts: map<string, int>, layers: seq<Layer>): map<string, int> {
    if layers == [] then counts
    else
      var prior := Bumped(counts, layers[..|layers| - 1]);
      var d := layers[|layers| - 1].digest;
      prior[d := CountOf(prior, d) + 1]
  }

  function Dropped(counts: map<string, int>, layers: seq<Layer>): map<string, int> {
    if layers == [] then counts
    else
      var prior := Dropped(counts, layers[..|layers| - 1]);
      var d := layers[|layers| - 1].digest;
      if d !in prior then prior
      else if prior[d] - 1 <= 0 then prior - {d}
      else prior[d := prior[d] - 1]
  }

  function ListedUnder(index: map<string, set<Id>>, key: string, id: Id): map<string, set<Id>> {
    index[key := Listed(index, key) + {id}]
  }

  /** Insertion of an artifact. */
  function Added(c: Contents, a: Artifact): Contents {
    Contents(ListedUnder(ListedUnder(c.index, EVERYTHING, a.id), Prefix(a.id), a.id),
             c.manifests[a.id := a],
             Bumped(c.counts, a.layers))
  }

  function Unlisted(index: map<string, set<Id>>, id: Id): map<string, set<Id>> {
    var all := index[EVERYTHING := Listed(index, EVERYTHING) - {id}];
    var p := Prefix(id);
    if p !in all then all
    else if all[p] - {id} == {} then all - {p}
    else all[p := all[p] - {id}]
  }

  /** Removal of an identifier. */
  function Removed(c: Contents, id: Id): Contents {
    Contents(Unlisted(c.index, id),
             c.manifests - {id},
             if id in c.manifests then Dropped(c.counts, c.manifests[id].layers) else c.counts)
  }

  function Matching(c: Contents, id: Id): set<Id> {
    Listed(c.index, Prefix(id))
  }

  // References

  /** How many layers carry the digest. */
  function Occurrences(layers: seq<Layer>, digest: string): nat {
    if layers == [] then 0
    else Occurrences(layers[..|layers| - 1], digest) + if layers[|layers| - 1].digest == digest then 1 else 0
  }

  ghost function SomeId(m: map<Id, Artifact>): Id
    requires m != map[]
    ensures SomeId(m) in m
  {
    assert m.Keys != {};
    var id :| id in m.Keys;
    id
  }

  /** How many layers of all manifests carry the digest. */
  ghost function References(m: map<Id, Artifact>, digest: string): nat
    decreases |m|
  {
    if m == map[] then 0
    else
      var id := SomeId(m);
      Occurrences(m[id].layers, digest) + References(m - {id}, digest)
  }

  lemma {:induction false} ReferencesWithout(m: map<Id, Artifact>, id: Id, digest: string)
    requires id in m
    ensures References(m, digest) == Occurrences(m[id].layers, digest) + References(m - {id}, digest)
    decreases |m|
  {
    var k := SomeId(m);
    if k != id {
      ReferencesWithout(m - {k}, id, digest);
      ReferencesWithout(m - {id}, k, digest);
      assert m - {k} - {id} == m - {id} - {k};
    }
  }

  lemma ReferencesWith(m: map<Id, Artifact>, id: Id, a: Artifact, digest: string)
    ensures References(m[id := a], digest) == Occurrences(a.layers, digest) + References(m - {id}, digest)
  {
    ReferencesWithout(m[id := a], id, digest);
    assert m[id := a] - {id} == m - {id};
  }

  lemma {:induction false} Occurs(layers: seq<Layer>, digest: string)
    ensures Occurrences(layers, digest) > 0 <==> exists i :: 0 <= i < |layers| && layers[i].digest == digest
  {
    if layers == [] {
    } else {
      var k := |layers| - 1;
      Occurs(layers[..k], digest);
      assert layers[k].digest == digest ==> exists i :: 0 <= i < |layers| && layers[i].digest == digest;
      assert forall i :: 0 <= i < k ==> layers[..k][i] == layers[i];
    }
  }

  /** A manifest that names a digest is counted. */
  lemma Referenced(m: map<Id, Artifact>, id: Id, i: nat)
    requires id in m && i < |m[id].layers|
    ensures References(m, m[id].layers[i].digest) > 0
  {
    ReferencesWithout(m, id, m[id].layers[i].digest);
    Occurs(m[id].layers, m[id].layers[i].digest);
  }

  // The catalog invariant

  /** The index lists every manifest under `*` and under its prefix, and nothing else. */
  ghost predicate IndexRight(c: Contents) {
    && (forall id :: id in c.manifests ==> c.manifests[id].id == id)
    && Listed(c.index, EVERYTHING) == c.manifests.Keys
    && forall p :: p != EVERYTHING ==>
         && (p in c.index ==> c.index[p] != {})
         && forall id :: id in Listed(c.index, p) <==> id in c.manifests && Prefix(id) == p
  }

  ghost predicate CountsPositive(counts: map<string, int>) {
    forall d :: d in counts ==> counts[d] > 0
  }

  /** No blob is counted less often than it is referenced. */
  ghost predicate CountsSuffice(c: Contents) {
    CountsPositive(c.counts) && forall d :: CountOf(c.counts, d) >= References(c.manifests, d)
  }

  ghost predicate CountsExact(c: Contents) {
    CountsPositive(c.counts) && forall d :: CountOf(c.counts, d) == References(c.manifests, d)
  }

  ghost predicate Consistent(c: Contents) {
    IndexRight(c) && CountsSuffice(c)
  }

  lemma EmptyConsistent()
    ensures Consistent(EMPTY) && CountsExact(EMPTY)
  {
  }

  lemma {:induction false} BumpedCounts(counts: map<string, int>, layers: seq<Layer>, d: string)
    requires CountsPositive(counts)
    ensures CountsPositive(Bumped(counts, layers))
    ensures CountOf(Bumped(counts, layers), d) == CountOf(counts, d) + Occurrences(layers, d)
  {
    if layers == [] {
    } else {
      BumpedCounts(counts, layers[..|layers| - 1], d);
    }
  }

  lemma {:induction false} DroppedCounts(counts: map<string, int>, layers: seq<Layer>, d: string)
    requires CountsPositive(counts)
    ensures CountsPositive(Dropped(counts, layers))
    ensures var left := CountOf(counts, d) - Occurrences(layers, d);
            CountOf(Dropped(counts, layers), d) == if left > 0 then left else 0
  {
    if layers == [] {
    } else {
      DroppedCounts(counts, layers[..|layers| - 1], d);
    }
  }

  lemma AddedIndex(c: Contents, a: Artifact)
    requires IndexRight(c)
    ensures IndexRight(Added(c, a))
  {
    var t := Added(c, a);
    assert t.manifests.Keys == c.manifests.Keys + {a.id};
    forall p | p != EVERYTHING
      ensures p in t.index ==> t.index[p] != {}
      ensures forall id :: id in Listed(t.index, p) <==> id in t.manifests && Prefix(id) == p
    {
      assert Listed(t.index, p) == if p == Prefix(a.id) then Listed(c.index, p) + {a.id} else Listed(c.index, p);
    }
  }

  lemma RemovedIndex(c: Contents, id: Id)
    requires IndexRight(c)
    ensures IndexRight(Removed(c, id))
  {
    var t := Removed(c, id);
    assert t.manifests.Keys == c.manifests.Keys - {id};
    assert Listed(t.index, EVERYTHING) == c.manifests.Keys - {id};
    forall p | p != EVERYTHING
      ensures p in t.index ==> t.index[p] != {}
      ensures forall k :: k in Listed(t.index, p) <==> k in t.manifests && Prefix(k) == p
    {
      assert Listed(t.index, p) == if p == Prefix(id) then Listed(c.index, p) - {id} else Listed(c.index, p);
    }
  }

  lemma AddedKeeps(c: Contents, a: Artifact)
    requires Consistent(c)
    ensures Consistent(Added(c, a))
  {
    AddedIndex(c, a);
    forall d
      ensures CountOf(Added(c, a).counts, d) >= References(Added(c, a).manifests, d)
    {
      AddedReferences(c, a, d);
    }
    BumpedCounts(c.counts, a.layers, "");
  }

  /** Overwriting a manifest keeps the references of the old one in the counts. */
  lemma AddedReferences(c: Contents, a: Artifact, d: string)
    requires CountsPositive(c.counts)
    ensures CountOf(Added(c, a).counts, d) == CountOf(c.counts, d) + Occurrences(a.layers, d)
    ensures References(Added(c, a).manifests, d) == Occurrences(a.layers, d) + References(c.manifests, d)
              - if a.id in c.manifests then Occurrences(c.manifests[a.id].layers, d) else 0
  {
    BumpedCounts(c.counts, a.layers, d);
    ReferencesWith(c.manifests, a.id, a, d);
    if a.id in c.manifests {
      ReferencesWithout(c.manifests, a.id, d);
    } else {
      assert c.manifests - {a.id} == c.manifests;
    }
  }

  lemma RemovedKeeps(c: Contents, id: Id)
    requires Consistent(c)
    ensures Consistent(Removed(c, id))
  {
    RemovedIndex(c, id);
    forall d
      ensures CountOf(Removed(c, id).counts, d) >= References(Removed(c, id).manifests, d)
    {
      RemovedReferences(c, id, d);
    }
    if id in c.manifests {
      DroppedCounts(c.counts, c.manifests[id].layers, "");
    }
  }

  lemma RemovedReferences(c: Contents, id: Id, d: string)
    requires CountsPositive(c.counts) && CountOf(c.counts, d) >= References(c.manifests, d)
    ensures CountOf(c.counts, d) - CountOf(Removed(c, id).counts, d)
            == References(c.manifests, d) - References(Removed(c, id).manifests, d)
  {
    if id in c.manifests {
      ReferencesWithout(c.manifests, id, d);
      DroppedCounts(c.counts, c.manifests[id].layers, d);
    } else {
      assert c.manifests - {id} == c.manifests;
    }
  }

  /** Removal keeps exact counts exact; insertion does so exactly for an id that is new or had no layers. */
  lemma ExactCounts(c: Contents, a: Artifact, id: Id)
    requires CountsExact(c)
    ensures CountsExact(Removed(c, id))
    ensures CountsExact(Added(c, a)) <==> a.id !in c.manifests || c.manifests[a.id].layers == []
  {
    forall d
      ensures CountOf(Removed(c, id).counts, d) == References(Removed(c, id).manifests, d)
    {
      RemovedReferences(c, id, d);
    }
    if id in c.manifests {
      DroppedCounts(c.counts, c.manifests[id].layers, "");
    }
    BumpedCounts(c.counts, a.layers, "");
    if a.id !in c.manifests || c.manifests[a.id].layers == [] {
      forall d
        ensures CountOf(Added(c, a).counts, d) == References(Added(c, a).manifests, d)
      {
        AddedReferences(c, a, d);
      }
    } else {
      var d := c.manifests[a.id].layers[0].digest;
      AddedReferences(c, a, d);
      Occurs(c.manifests[a.id].layers, d);
    }
  }

  /** The prefix lookup is right unless the prefix is the key that lists everything. */
  lemma MatchingRight(c: Contents, id: Id)
    requires IndexRight(c)
    ensures (forall k :: k in Matching(c, id) <==> k in c.manifests && Prefix(k) == Prefix(id))
            <==> Prefix(id) != EVERYTHING || forall k :: k in c.manifests ==> Prefix(k) == EVERYTHING
  {
    if Prefix(id) == EVERYTHING {
      assert Matching(c, id) == c.manifests.Keys;
    }
  }

  /** An identifier can have that prefix: it is a name like any other. */
  const STAR: Id := Id("*", None, None, None, "1")

  /** The lookup for it returns the whole catalog. */
  lemma StarMatchesEverything(c: Contents)
    requires IndexRight(c)
    ensures NamesParsed(STAR) && Prefix(STAR) == EVERYTHING && Matching(c, STAR) == c.manifests.Keys
  {
    assert "*" + "" + "" == "*";
  }

  // The code

  class Catalog {
    var index: map<string, set<Id>>
    var manifests: map<Id, Artifact>
    var counts: map<string, int>

    ghost function Value(): Contents
      reads this
    {
      Contents(index, manifests, counts)
    }

    constructor (c: Contents)
      ensures Value() == c
    {
      index, manifests, counts := c.index, c.manifests, c.counts;
    }

    method Add(a: Artifact)
      modifies this
      ensures Value() == Added(old(Value()), a)
      ensures Consistent(old(Value())) ==> Consistent(Value())
    {
      index := ListedUnder(index, EVERYTHING, a.id);
      index := ListedUnder(index, Prefix(a.id), a.id);
      manifests := manifests[a.id := a];
      counts := CountLayers(counts, a.layers);
      if Consistent(old(Value())) {
        AddedKeeps(old(Value()), a);
      }
    }

    method Del(id: Id)
      modifies this
      ensures Value() == Removed(old(Value()), id)
      ensures Consistent(old(Value())) ==> Consistent(Value())
    {
      index := index[EVERYTHING := Listed(index, EVERYTHING) - {id}];
      var p := Prefix(id);
      if p in index {
        var list := index[p] - {id};
        if list == {} {
          index := index - {p};
        } else {
          index := index[p := list];
        }
      }
      if id in manifests {
        counts := DiscountLayers(counts, manifests[id].layers);
      }
      manifests := manifests - {id};
      if Consistent(old(Value())) {
        RemovedKeeps(old(Value()), id);
      }
    }
  }

  method CountLayers(counts: map<string, int>, layers: seq<Layer>) returns (r: map<string, int>)
    ensures r == Bumped(counts, layers)
  {
    r := counts;
    for i := 0 to |layers|
      invariant r == Bumped(counts, layers[..i])
    {
      assert layers[..i + 1][..i] == layers[..i];
      var d := layers[i].digest;
      r := r[d := CountOf(r, d) + 1];
    }
    assert layers[..|layers|] == layers;
  }

  method DiscountLayers(counts: map<string, int>, layers: seq<Layer>) returns (r: map<string, int>)
    ensures r == Dropped(counts, layers)
  {
    r := counts;
    for i := 0 to |layers|
      invariant r == Dropped(counts, layers[..i])
    {
      assert layers[..i + 1][..i] == layers[..i];
      var d := layers[i].digest;
      if d in r {
        r := r[d := r[d] - 1];
        if r[d] <= 0 {
          r := r - {d};
        }
      }
    }
    assert layers[..|layers|] == layers;
  }
}
