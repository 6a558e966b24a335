/** The catalog file: what flushing writes as text and what loading makes of it. */
module CatalogFile {
  import opened Prelude
  import Ids
  import MediaTypes
  import opened Catalogs

  type Id = Ids.Id

  const DIGEST_SCHEME: string := "blake3:"

  datatype LayerText = LayerText(mediaType: string, digest: string, size: nat, platform: Option<string>)
  datatype ArtifactText = ArtifactText(mediaType: string, id: string, extras: Extras, layers: seq<LayerText>)
  datatype CatalogText = CatalogText(index: map<string, set<string>>, manifests: map<string, ArtifactText>, counts: map<string, int>)

  function LayerOut(l: Layer): LayerText {
    LayerText(MediaTypes.Print(l.mediaType), DIGEST_SCHEME + l.digest, l.size, l.platform)
  }

  function AllOut<T, U>(print1: T -> U, xs: seq<T>): seq<U> {
    if xs == [] then [] else [print1(xs[0])] + AllOut(print1, xs[1..])
  }

  function ArtifactOut(a: Artifact): ArtifactText {
    ArtifactText(MediaTypes.Print(a.mediaType), Ids.Print(a.id), a.extras, AllOut(l => LayerOut(l), a.layers))
  }

  function LayerIn(t: LayerText): Option<Layer> {
    var m := MediaTypes.Parse(t.mediaType);
    if m.Ok? && DIGEST_SCHEME <= t.digest then Some(Layer(m.value, t.digest[|DIGEST_SCHEME|..], t.size, t.platform)) else None
  }

  /** All of the parsed values, if all of the texts parse. */
  function AllIn<T, U>(parse1: U -> Option<T>, ts: seq<U>): Option<seq<T>> {
    if ts == [] then Some([])
    else
      var first, rest := parse1(ts[0]), AllIn(parse1, ts[1..]);
      if first.Some? && rest.Some? then Some([first.value] + rest.value) else None
  }

  lemma {:induction false} AllRoundTrip<T, U>(print1: T -> U, parse1: U -> Option<T>, xs: seq<T>)
    requires forall i :: 0 <= i < |xs| ==> parse1(print1(xs[i])) == Some(xs[i])
    ensures AllIn(parse1, AllOut(print1, xs)) == Some(xs)
  {
    if xs == [] {
    } else {
      AllRoundTrip(print1, parse1, xs[1..]);
      assert AllOut(print1, xs)[1..] == AllOut(print1, xs[1..]);
      assert xs == [xs[0]] + xs[1..];
    }
  }

  type Versions = string -> bool

  function ArtifactIn(isVersion: Versions, t: ArtifactText): Option<Artifact> {
    var m, id, layers := MediaTypes.Parse(t.mediaType), Ids.Parse(t.id, isVersion), AllIn(l => LayerIn(l), t.layers);
    if m.Ok? && id.Parsed? && layers.Some? then Some(Artifact(m.value, id.id, t.extras, layers.value)) else None
  }

  // What survives

  /** Identifiers that parsing gives back. */
  predicate PortableId(id: Id) {
    id.version.None? && Ids.NamesParsed(id) && Ids.Separable(id)
  }

  predicate PortableArtifact(a: Artifact) {
    PortableId(a.id) && MediaTypes.Canonical(a.mediaType) &&
    forall i :: 0 <= i < |a.layers| ==> MediaTypes.Canonical(a.layers[i].mediaType)
  }

  ghost predicate Portable(c: Contents) {
    && (forall p, id :: p in c.index && id in c.index[p] ==> PortableId(id))
    && forall id :: id in c.manifests ==> PortableId(id) && PortableArtifact(c.manifests[id])
  }

  /** How identifiers and manifests are read from text and written to it. */
  datatype Codec = Codec(
    printId: Id -> string, parseId: string -> Option<Id>,
    printArtifact: Artifact -> ArtifactText, parseArtifact: ArtifactText -> Option<Artifact>)

  /** The codec of the catalog file; `isVersion` recognises semantic versions. */
  function FileCodec(isVersion: Versions): Codec {
    Codec(
      id => Ids.Print(id),
      text => IdIn(isVersion, text),
      a => ArtifactOut(a),
      text => ArtifactIn(isVersion, text))
  }

  function IdIn(isVersion: Versions, text: string): Option<Id> {
    match Ids.Parse(text, isVersion)
    case Parsed(id) => Some(id)
    case _ => None
  }

  ghost predicate SetFlushes(x: Codec, ids: set<Id>, texts: set<string>) {
    && (forall id {:trigger x.printId(id)} :: id in ids ==> x.printId(id) in texts)
    && forall t :: t in texts ==> exists id :: id in ids && x.printId(id) == t
  }

  ghost predicate IndexFlushes(x: Codec, index: map<string, set<Id>>, text: map<string, set<string>>) {
    text.Keys == index.Keys && forall p :: p in index ==> SetFlushes(x, index[p], text[p])
  }

  ghost predicate ManifestsFlush(x: Codec, manifests: map<Id, Artifact>, text: map<string, ArtifactText>) {
    && (forall id {:trigger x.printId(id)} :: id in manifests ==> x.printId(id) in text && text[x.printId(id)] == x.printArtifact(manifests[id]))
    && forall t :: t in text ==> exists id :: id in manifests && x.printId(id) == t
  }

  /** `f` is the flushed form of `c`. */
  ghost predicate Flushes(x: Codec, c: Contents, f: CatalogText) {
    f.counts == c.counts && IndexFlushes(x, c.index, f.index) && ManifestsFlush(x, c.manifests, f.manifests)
  }

  ghost predicate SetLoads(x: Codec, texts: set<string>, ids: set<Id>) {
    && (forall t {:trigger x.parseId(t)} :: t in texts ==> x.parseId(t).Some? && x.parseId(t).value in ids)
    && forall id :: id in ids ==> exists t :: t in texts && x.parseId(t) == Some(id)
  }

  ghost predicate IndexLoads(x: Codec, text: map<string, set<string>>, index: map<string, set<Id>>) {
    index.Keys == text.Keys && forall p :: p in index ==> SetLoads(x, text[p], index[p])
  }

  ghost predicate ManifestsLoad(x: Codec, text: map<string, ArtifactText>, manifests: map<Id, Artifact>) {
    && (forall t {:trigger x.parseId(t)} :: t in text ==>
          && x.parseId(t).Some? && x.parseId(t).value in manifests
          && x.parseArtifact(text[t]) == Some(manifests[x.parseId(t).value]))
    && forall id :: id in manifests ==> exists t :: t in text && x.parseId(t) == Some(id)
  }

  /** `c` is what loading `f` yields: all texts parse, and nothing but their values is in the tables. */
  ghost predicate Loads(x: Codec, f: CatalogText, c: Contents) {
    c.counts == f.counts && IndexLoads(x, f.index, c.index) && ManifestsLoad(x, f.manifests, c.manifests)
  }

  /** The codec gives back every identifier and manifest of the catalog. */
  ghost predicate Inverts(x: Codec, c: Contents) {
    && (forall p, id :: p in c.index && id in c.index[p] ==> x.parseId(x.printId(id)) == Some(id))
    && forall id :: id in c.manifests ==>
         x.parseId(x.printId(id)) == Some(id) && x.parseArtifact(x.printArtifact(c.manifests[id])) == Some(c.manifests[id])
  }

  lemma SetSurvives(x: Codec, ids: set<Id>, texts: set<string>)
    requires forall id :: id in ids ==> x.parseId(x.printId(id)) == Some(id)
    requires SetFlushes(x, ids, texts)
    ensures SetLoads(x, texts, ids)
  {
    forall id | id in ids
      ensures exists t :: t in texts && x.parseId(t) == Some(id)
    {
      assert x.printId(id) in texts;
    }
    forall t | t in texts
      ensures x.parseId(t).Some? && x.parseId(t).value in ids
    {
      var id :| id in ids && x.printId(id) == t;
    }
  }

  lemma IndexSurvives(x: Codec, index: map<string, set<Id>>, text: map<string, set<string>>)
    requires forall p, id :: p in index && id in index[p] ==> x.parseId(x.printId(id)) == Some(id)
    requires IndexFlushes(x, index, text)
    ensures IndexLoads(x, text, index)
  {
    forall p | p in index
      ensures SetLoads(x, text[p], index[p])
    {
      SetSurvives(x, index[p], text[p]);
    }
  }

  lemma ManifestsSurvive(x: Codec, manifests: map<Id, Artifact>, text: map<string, ArtifactText>)
    requires forall id :: id in manifests ==>
               x.parseId(x.printId(id)) == Some(id) && x.parseArtifact(x.printArtifact(manifests[id])) == Some(manifests[id])
    requires ManifestsFlush(x, manifests, text)
    ensures ManifestsLoad(x, text, manifests)
  {
    forall id | id in manifests
      ensures exists t :: t in text && x.parseId(t) == Some(id)
    {
      assert x.printId(id) in text;
    }
    forall t | t in text
      ensures x.parseId(t).Some? && x.parseId(t).value in manifests
      ensures x.parseArtifact(text[t]) == Some(manifests[x.parseId(t).value])
    {
      var id :| id in manifests && x.printId(id) == t;
    }
  }

  lemma FlushThenLoad(x: Codec, c: Contents, f: CatalogText)
    requires Inverts(x, c) && Flushes(x, c, f)
    ensures Loads(x, f, c)
  {
    IndexSurvives(x, c.index, f.index);
    ManifestsSurvive(x, c.manifests, f.manifests);
  }

  lemma LoadSubset(x: Codec, f: CatalogText, c: Contents, d: Contents)
    requires Loads(x, f, c) && Loads(x, f, d)
    ensures forall p :: p in c.index ==> p in d.index && c.index[p] <= d.index[p]
    ensures forall id :: id in c.manifests ==> id in d.manifests && d.manifests[id] == c.manifests[id]
  {
    forall p, id | p in c.index && id in c.index[p]
      ensures id in d.index[p]
    {
      assert SetLoads(x, f.index[p], c.index[p]) && SetLoads(x, f.index[p], d.index[p]);
      var t :| t in f.index[p] && x.parseId(t) == Some(id);
    }
    forall id | id in c.manifests
      ensures id in d.manifests && d.manifests[id] == c.manifests[id]
    {
      var t :| t in f.manifests && x.parseId(t) == Some(id);
    }
  }

  /** Loading is a function of the text. */
  lemma LoadUnique(x: Codec, f: CatalogText, c: Contents, d: Contents)
    requires Loads(x, f, c) && Loads(x, f, d)
    ensures c == d
  {
    LoadSubset(x, f, c, d);
    LoadSubset(x, f, d, c);
    assert c.index == d.index by {
      forall p | p in c.index
        ensures c.index[p] == d.index[p]
      {
      }
    }
    assert c.manifests.Keys == d.manifests.Keys;
    assert c.manifests == d.manifests;
  }

  // The file codec

  lemma LayerRoundTrip(l: Layer)
    requires MediaTypes.Canonical(l.mediaType)
    ensures LayerIn(LayerOut(l)) == Some(l)
  {
    MediaTypes.RoundTrip(l.mediaType);
    var text := DIGEST_SCHEME + l.digest;
    assert DIGEST_SCHEME <= text && text[|DIGEST_SCHEME|..] == l.digest;
  }

  /** How a layer is written, and which texts of layers are read. */
  lemma LayerTexts(l: Layer, t: LayerText)
    ensures LayerOut(l) == LayerText(MediaTypes.Print(l.mediaType), "blake3:" + l.digest, l.size, l.platform)
    ensures LayerIn(t).Some? <==> MediaTypes.Parse(t.mediaType).Ok? && "blake3:" <= t.digest
  {
  }

  lemma LayersRoundTrip(ls: seq<Layer>)
    requires forall i :: 0 <= i < |ls| ==> MediaTypes.Canonical(ls[i].mediaType)
    ensures AllIn(l => LayerIn(l), AllOut(l => LayerOut(l), ls)) == Some(ls)
  {
    forall i | 0 <= i < |ls|
      ensures LayerIn(LayerOut(ls[i])) == Some(ls[i])
    {
      LayerRoundTrip(ls[i]);
    }
    AllRoundTrip(l => LayerOut(l), l => LayerIn(l), ls);
  }

  lemma ArtifactRoundTrip(isVersion: Versions, a: Artifact)
    requires PortableArtifact(a)
    ensures ArtifactIn(isVersion, ArtifactOut(a)) == Some(a)
  {
    MediaTypes.RoundTrip(a.mediaType);
    Ids.RoundTrip(a.id, isVersion);
    LayersRoundTrip(a.layers);
  }

  lemma IdRoundTrip(isVersion: Versions, id: Id)
    requires PortableId(id)
    ensures IdIn(isVersion, Ids.Print(id)) == Some(id)
  {
    Ids.RoundTrip(id, isVersion);
  }

  lemma FileCodecInverts(isVersion: Versions, c: Contents)
    requires Portable(c)
    ensures Inverts(FileCodec(isVersion), c)
  {
    var x := FileCodec(isVersion);
    forall p, id | p in c.index && id in c.index[p]
      ensures x.parseId(x.printId(id)) == Some(id)
    {
      IdRoundTrip(isVersion, id);
    }
    forall id | id in c.manifests
      ensures x.parseId(x.printId(id)) == Some(id)
      ensures x.parseArtifact(x.printArtifact(c.manifests[id])) == Some(c.manifests[id])
    {
      IdRoundTrip(isVersion, id);
      ArtifactRoundTrip(isVersion, c.manifests[id]);
    }
  }

  /** A flushed text exists when no two identifiers share their text. */
  lemma FlushExists(x: Codec, c: Contents) returns (f: CatalogText)
    requires Inverts(x, c)
    ensures Flushes(x, c, f)
  {
    forall a, b | a in c.manifests && b in c.manifests && x.printId(a) == x.printId(b)
      ensures a == b
    {
      assert Some(a) == x.parseId(x.printId(a)) == Some(b);
    }
    f := CatalogText(
      map p | p in c.index :: set id | id in c.index[p] :: x.printId(id),
      map id | id in c.manifests :: x.printId(id) := x.printArtifact(c.manifests[id]),
      c.counts);
  }

  /**
   * Flushing and loading preserves every manifest, index entry and count of a portable catalog: a flushed text
   * exists, and from every flushed text exactly the catalog is loaded.
   */
  lemma CatalogSurvives(isVersion: Versions, c: Contents)
    requires Portable(c)
    ensures exists f :: Flushes(FileCodec(isVersion), c, f)
    ensures forall f, d :: Flushes(FileCodec(isVersion), c, f) ==> (Loads(FileCodec(isVersion), f, d) <==> d == c)
  {
    var x := FileCodec(isVersion);
    FileCodecInverts(isVersion, c);
    var g := FlushExists(x, c);
    forall f, d | Flushes(x, c, f)
      ensures Loads(x, f, d) <==> d == c
    {
      FlushThenLoad(x, c, f);
      if Loads(x, f, d) {
        LoadUnique(x, f, c, d);
      }
    }
  }

  // What does not survive

  /** Versions have dots, as all semantic versions do. */
  predicate DottedId(id: Id) {
    id.version.Some? ==> '.' in id.version.value
  }

  ghost predicate Dotted(c: Contents) {
    && (forall p, id :: p in c.index && id in c.index[p] ==> DottedId(id))
    && forall id :: id in c.manifests ==> DottedId(id) && DottedId(c.manifests[id].id)
  }

  lemma IdParsed(isVersion: Versions, t: string, id: Id)
    requires IdIn(isVersion, t) == Some(id)
    ensures Ids.Parse(t, isVersion) == Ids.Parsed(id) && Ids.NamesParsed(id)
  {
    Ids.ParsedNames(t, isVersion);
  }

  /** Some text is read as the identifier, and its own text is read as something. */
  lemma ReadBack(x: Codec, texts: set<string>, ids: set<Id>, id: Id) returns (t: string)
    requires SetLoads(x, texts, ids) && id in ids && x.printId(id) in texts
    ensures x.parseId(t) == Some(id) && x.parseId(x.printId(id)).Some?
  {
    t :| t in texts && x.parseId(t) == Some(id);
  }

  lemma ReadIsPortable(isVersion: Versions, t: string, id: Id)
    requires IdIn(isVersion, t) == Some(id) && IdIn(isVersion, Ids.Print(id)).Some? && DottedId(id)
    ensures PortableId(id)
  {
    IdParsed(isVersion, t, id);
    if id.version.None? {
      Ids.ParsedIsSeparable(t, isVersion);
    } else {
      Ids.VersionedNeverReads(t, id, isVersion);
    }
  }

  /** An identifier that is read from a file with its own text in it is portable. */
  lemma SetPortable(isVersion: Versions, texts: set<string>, ids: set<Id>, id: Id)
    requires SetLoads(FileCodec(isVersion), texts, ids) && id in ids && FileCodec(isVersion).printId(id) in texts && DottedId(id)
    ensures PortableId(id)
  {
    var t := ReadBack(FileCodec(isVersion), texts, ids, id);
    ReadIsPortable(isVersion, t, id);
  }

  lemma {:induction false} AllRoundTripBack<T, U>(print1: T -> U, parse1: U -> Option<T>, xs: seq<T>, i: nat)
    requires AllIn(parse1, AllOut(print1, xs)) == Some(xs) && i < |xs|
    ensures parse1(print1(xs[i])) == Some(xs[i])
    decreases xs
  {
    assert AllOut(print1, xs)[1..] == AllOut(print1, xs[1..]);
    var rest := AllIn(parse1, AllOut(print1, xs[1..]));
    assert ([parse1(print1(xs[0])).value] + rest.value)[1..] == rest.value;
    if i > 0 {
      AllRoundTripBack(print1, parse1, xs[1..], i - 1);
    }
  }

  lemma ArtifactPortable(isVersion: Versions, a: Artifact)
    requires ArtifactIn(isVersion, ArtifactOut(a)) == Some(a) && DottedId(a.id)
    ensures PortableArtifact(a)
  {
    MediaTypes.RoundTrip(a.mediaType);
    Ids.ParsedNames(Ids.Print(a.id), isVersion);
    Ids.RoundTrip(a.id, isVersion);
    forall i | 0 <= i < |a.layers|
      ensures MediaTypes.Canonical(a.layers[i].mediaType)
    {
      LayerPortable(a.layers, i);
    }
  }

  lemma LayerCanonical(l: Layer)
    requires LayerIn(LayerOut(l)) == Some(l)
    ensures MediaTypes.Canonical(l.mediaType)
  {
    MediaTypes.RoundTrip(l.mediaType);
  }

  lemma LayerPortable(layers: seq<Layer>, i: nat)
    requires AllIn(l => LayerIn(l), AllOut(l => LayerOut(l), layers)) == Some(layers) && i < |layers|
    ensures MediaTypes.Canonical(layers[i].mediaType)
  {
    AllRoundTripBack(l => LayerOut(l), l => LayerIn(l), layers, i);
    LayerCanonical(layers[i]);
  }

  lemma KeysLoad(x: Codec, text: map<string, ArtifactText>, manifests: map<Id, Artifact>)
    requires ManifestsLoad(x, text, manifests)
    ensures SetLoads(x, text.Keys, manifests.Keys)
  {
    forall id | id in manifests.Keys
      ensures exists t :: t in text.Keys && x.parseId(t) == Some(id)
    {
      var t :| t in text && x.parseId(t) == Some(id);
      assert t in text.Keys;
    }
  }

  /** A manifest is what its own text is read as when its identifier is. */
  lemma ManifestReadBack(x: Codec, text: map<string, ArtifactText>, manifests: map<Id, Artifact>, id: Id)
    requires ManifestsLoad(x, text, manifests) && x.parseId(x.printId(id)) == Some(id)
    requires id in manifests && x.printId(id) in text && text[x.printId(id)] == x.printArtifact(manifests[id])
    ensures x.parseArtifact(x.printArtifact(manifests[id])) == Some(manifests[id])
  {
  }

  lemma ManifestsPortable(isVersion: Versions, text: map<string, ArtifactText>, manifests: map<Id, Artifact>, id: Id)
    requires ManifestsLoad(FileCodec(isVersion), text, manifests) && id in manifests
    requires var x := FileCodec(isVersion);
             x.printId(id) in text && text[x.printId(id)] == x.printArtifact(manifests[id])
    requires DottedId(id) && DottedId(manifests[id].id)
    ensures PortableId(id) && PortableArtifact(manifests[id])
  {
    KeysLoad(FileCodec(isVersion), text, manifests);
    SetPortable(isVersion, text.Keys, manifests.Keys, id);
    IdRoundTrip(isVersion, id);
    ManifestReadBack(FileCodec(isVersion), text, manifests, id);
    ArtifactPortable(isVersion, manifests[id]);
  }

  /** The texts of all identifiers and manifests are in the file. */
  ghost predicate Written(x: Codec, c: Contents, f: CatalogText) {
    && c.index.Keys <= f.index.Keys
    && (forall p, id :: p in c.index && id in c.index[p] ==> x.printId(id) in f.index[p])
    && forall id :: id in c.manifests ==>
         x.printId(id) in f.manifests && f.manifests[x.printId(id)] == x.printArtifact(c.manifests[id])
  }

  lemma FlushWrites(x: Codec, c: Contents, f: CatalogText)
    requires Flushes(x, c, f)
    ensures Written(x, c, f)
  {
    forall p, id | p in c.index && id in c.index[p]
      ensures x.printId(id) in f.index[p]
    {
      assert SetFlushes(x, c.index[p], f.index[p]);
    }
  }

  lemma WrittenIsPortable(isVersion: Versions, c: Contents, f: CatalogText)
    requires Dotted(c) && Written(FileCodec(isVersion), c, f) && Loads(FileCodec(isVersion), f, c)
    ensures Portable(c)
  {
    forall p, id | p in c.index && id in c.index[p]
      ensures PortableId(id)
    {
      SetPortable(isVersion, f.index[p], c.index[p], id);
    }
    forall id | id in c.manifests
      ensures PortableId(id) && PortableArtifact(c.manifests[id])
    {
      ManifestsPortable(isVersion, f.manifests, c.manifests, id);
    }
  }

  /** A catalog survives flushing and loading if and only if it is portable. */
  lemma SurvivesExactly(isVersion: Versions, c: Contents)
    requires Dotted(c)
    ensures (exists f :: Flushes(FileCodec(isVersion), c, f) && Loads(FileCodec(isVersion), f, c)) <==> Portable(c)
  {
    var x := FileCodec(isVersion);
    if Portable(c) {
      CatalogSurvives(isVersion, c);
      var f :| Flushes(x, c, f);
      assert Loads(x, f, c);
    }
    if f :| Flushes(x, c, f) && Loads(x, f, c) {
      FlushWrites(x, c, f);
      WrittenIsPortable(isVersion, c, f);
    }
  }

  /** One saved identifier with a version, and a package or no plus in its text, makes the whole catalog unreadable. */
  lemma VersionedUnloadable(isVersion: Versions, c: Contents, id: Id, f: CatalogText, d: Contents)
    requires id in c.manifests && id.version.Some? && DottedId(id) && Ids.NamesParsed(id)
    requires id.package.Some? || '+' !in Ids.Print(id)
    requires Flushes(FileCodec(isVersion), c, f)
    ensures !Loads(FileCodec(isVersion), f, d)
  {
    var x := FileCodec(isVersion);
    Ids.VersionedFails(id, isVersion);
    assert x.printId(id) in f.manifests && x.parseId(x.printId(id)).None?;
  }
}
