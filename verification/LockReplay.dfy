/** Project loading with shared configuration nodes, resolution into the lock file, and replay of a lock. */
module LockReplay {
  import opened Prelude
  import R = Resolve

  type Addr = R.Addr

  /** A declared requirement as it stands in a project file. */
  datatype Declared = Declared(name: string, range: string, vendor: Option<string>)

  /** The `source` entry of an environment or transform. */
  datatype Field<+T> = Absent | Single(item: T) | Several(items: seq<T>)

  function Entries<T>(f: Field<T>): seq<T> {
    match f
    case Absent => []
    case Single(x) => [x]
    case Several(xs) => xs
  }

  /** Environments and transforms live in separate tables. */
  datatype Key = Environment(addr: Addr) | Transform(addr: Addr)

  /** One project file, with addresses already made absolute. */
  datatype File = File(
    sources: map<Addr, string>, needs: map<Addr, Declared>, elements: map<Key, Field<Addr>>, caches: Caches)

  /** Declared caches: source caches by address, and at most one build and one output cache. */
  datatype Caches = Caches(sources: map<Addr, string>, build: Option<string>, output: Option<string>)

  datatype Data =
    | Source(content: string)      // a source given in the project
    | Requires(declared: Declared) // a requirement that is not resolved yet
    | Definition(content: string)  // what it was resolved to
    | Table(sources: Field<Node>)  // an element with its source nodes

  /** A shared, mutable configuration node. */
  class Node {
    var data: Data

    constructor (data: Data)
      ensures this.data == data
    {
      this.data := data;
    }
  }

  // What the files say

  datatype Origin = Plain(content: string) | Required

  /** What a file adds: within it a requirement overrides a source. */
  function Overridden(origins: map<Addr, Origin>, f: File): map<Addr, Origin> {
    origins + (map a | a in f.sources :: Plain(f.sources[a])) + (map a | a in f.needs :: Required)
  }

  /** Later files override earlier ones. */
  function Origins(files: seq<File>): map<Addr, Origin> {
    if files == [] then map[]
    else
      Overridden(Origins(files[..|files| - 1]), files[|files| - 1])
  }

  function Requirements(files: seq<File>): map<Addr, Declared> {
    if files == [] then map[] else Requirements(files[..|files| - 1]) + files[|files| - 1].needs
  }

  function Elements(files: seq<File>): map<Key, Field<Addr>> {
    if files == [] then map[] else Elements(files[..|files| - 1]) + files[|files| - 1].elements
  }

  /** Source caches accumulate; build and output cache are those of the file read last, even if it has none. */
  function DeclaredCaches(files: seq<File>): Caches {
    if files == [] then Caches(map[], None, None)
    else
      var last := files[|files| - 1].caches;
      Caches(DeclaredCaches(files[..|files| - 1]).sources + last.sources, last.build, last.output)
  }

  /** The last file in which something is defined decides. */
  ghost predicate LastWith<K, V>(parts: seq<map<K, V>>, k: K, i: nat) {
    i < |parts| && k in parts[i] && forall j :: i < j < |parts| ==> k !in parts[j]
  }

  /** Every entry is that of the last part that has it, and there are no others. */
  ghost predicate LastDecides<K(!new), V>(parts: seq<map<K, V>>, merged: map<K, V>) {
    forall k :: (k in merged <==> exists i: nat :: LastWith(parts, k, i)) &&
                forall i: nat :: LastWith(parts, k, i) ==> k in merged && merged[k] == parts[i][k]
  }

  lemma LastOneMore<K, V>(parts: seq<map<K, V>>, more: map<K, V>, k: K, i: nat)
    ensures LastWith(parts + [more], k, i) <==> if k in more then i == |parts| else LastWith(parts, k, i)
  {
    var all := parts + [more];
    assert all[|parts|] == more && forall j :: 0 <= j < |parts| ==> all[j] == parts[j];
  }

  lemma MergeOneMore<K(!new), V>(parts: seq<map<K, V>>, merged: map<K, V>, more: map<K, V>)
    requires LastDecides(parts, merged)
    ensures LastDecides(parts + [more], merged + more)
  {
    var all := parts + [more];
    forall k, i: nat
      ensures LastWith(all, k, i) <==> if k in more then i == |parts| else LastWith(parts, k, i)
    {
      LastOneMore(parts, more, k, i);
    }
    forall k
      ensures k in merged + more <==> exists i: nat :: LastWith(all, k, i)
    {
      if k in more {
        assert LastWith(all, k, |parts|);
      } else if k in merged {
        var i: nat :| LastWith(parts, k, i);
        assert LastWith(all, k, i);
      }
    }
  }

  function ElementParts(files: seq<File>): seq<map<Key, Field<Addr>>> {
    if files == [] then [] else ElementParts(files[..|files| - 1]) + [files[|files| - 1].elements]
  }

  function CacheParts(files: seq<File>): seq<map<Addr, string>> {
    if files == [] then [] else CacheParts(files[..|files| - 1]) + [files[|files| - 1].caches.sources]
  }

  /** Elements and source caches are those of the last file that defines them. */
  lemma {:induction false} FilesMerge(files: seq<File>)
    ensures LastDecides(ElementParts(files), Elements(files))
    ensures LastDecides(CacheParts(files), DeclaredCaches(files).sources)
  {
    if files == [] {
    } else {
      var k := |files| - 1;
      FilesMerge(files[..k]);
      MergeOneMore(ElementParts(files[..k]), Elements(files[..k]), files[k].elements);
      MergeOneMore(CacheParts(files[..k]), DeclaredCaches(files[..k]).sources, files[k].caches.sources);
    }
  }

  /** The build cache and the output cache are those of the file read last; a file without one takes them away. */
  lemma LastFileDecides(files: seq<File>, f: File)
    ensures DeclaredCaches(files + [f]).build == f.caches.build && DeclaredCaches(files + [f]).output == f.caches.output
  {
    assert (files + [f])[|files|] == f;
  }

  // Loading

  ghost predicate Injective(m: map<Addr, Node>) {
    forall a, b :: a in m && b in m && a != b ==> m[a] != m[b]
  }

  method MakeSources(spec: map<Addr, string>) returns (m: map<Addr, Node>)
    ensures m.Keys == spec.Keys && forall a :: a in m ==> fresh(m[a])
    ensures forall a :: a in m ==> m[a].data == Source(spec[a])
  {
    m := map[];
    var todo := spec.Keys;
    while todo != {}
      invariant todo <= spec.Keys && m.Keys == spec.Keys - todo && forall a :: a in m ==> fresh(m[a])
      invariant forall a :: a in m ==> m[a].data == Source(spec[a])
    {
      var a :| a in todo;
      var n := new Node(Source(spec[a]));
      m := m[a := n];
      todo := todo - {a};
    }
  }

  method MakeRequires(spec: map<Addr, Declared>) returns (m: map<Addr, Node>)
    ensures m.Keys == spec.Keys && Injective(m) && forall a :: a in m ==> fresh(m[a])
    ensures forall a :: a in m ==> m[a].data == Requires(spec[a])
  {
    m := map[];
    var todo := spec.Keys;
    while todo != {}
      invariant todo <= spec.Keys && m.Keys == spec.Keys - todo && Injective(m) && forall a :: a in m ==> fresh(m[a])
      invariant forall a :: a in m ==> m[a].data == Requires(spec[a])
    {
      var a :| a in todo;
      var n := new Node(Requires(spec[a]));
      m := m[a := n];
      todo := todo - {a};
    }
  }

  /**
   * The nodes after loading: every requirement has its own node, the source table shares that node where the
   * requirement has the last word, and all other sources have nodes that no requirement shares.
   */
  ghost predicate Loaded(files: seq<File>, need: map<Addr, Node>, sources: map<Addr, Node>)
    reads need.Values, sources.Values
  {
    NeedRight(Requirements(files), need) && SourcesRight(Origins(files), need, sources)
  }

  ghost predicate NeedRight(declared: map<Addr, Declared>, need: map<Addr, Node>)
    reads need.Values
  {
    need.Keys == declared.Keys && Injective(need) && forall a :: a in need ==> need[a].data == Requires(declared[a])
  }

  ghost predicate SourcesRight(origins: map<Addr, Origin>, need: map<Addr, Node>, sources: map<Addr, Node>)
    reads need.Values, sources.Values
  {
    && sources.Keys == origins.Keys
    && (forall a :: a in sources && origins[a].Required? ==> a in need && sources[a] == need[a])
    && forall a :: a in sources && origins[a].Plain? ==>
         sources[a].data == Source(origins[a].content) && Unshared(need, sources[a])
  }

  ghost predicate Unshared(need: map<Addr, Node>, n: Node) {
    forall b :: b in need ==> need[b] != n
  }

  lemma NeedOneMore(declared: map<Addr, Declared>, more: map<Addr, Declared>, need: map<Addr, Node>, required: map<Addr, Node>)
    requires NeedRight(declared, need) && NeedRight(more, required)
    requires forall a :: a in required ==> Unshared(need, required[a])
    ensures NeedRight(declared + more, need + required)
  {
  }

  /** A requirement of a later file replaces the node in both tables. */
  lemma RequiredOneMore(
    origins: map<Addr, Origin>, more: map<Addr, Declared>, need: map<Addr, Node>, sources: map<Addr, Node>,
    required: map<Addr, Node>)
    requires SourcesRight(origins, need, sources) && required.Keys == more.Keys
    requires forall a, b :: a in required && b in sources ==> required[a] != sources[b]
    ensures SourcesRight(origins + (map a | a in more :: Required), need + required, sources + required)
  {
    var origins', sources' := origins + (map a | a in more :: Required), sources + required;
    forall a | a in sources' && origins'[a].Plain?
      ensures sources'[a].data == Source(origins'[a].content) && Unshared(need + required, sources'[a])
    {
      assert a in sources && a !in required;
    }
  }

  lemma PlainOneMore(
    origins: map<Addr, Origin>, more: map<Addr, string>, need: map<Addr, Node>, sources: map<Addr, Node>, plain: map<Addr, Node>)
    requires SourcesRight(origins, need, sources)
    requires plain.Keys == more.Keys && forall a :: a in plain ==> plain[a].data == Source(more[a]) && Unshared(need, plain[a])
    ensures SourcesRight(origins + (map a | a in more :: Plain(more[a])), need, sources + plain)
  {
  }

  lemma LoadedOneMore(
    files: seq<File>, f: File, need: map<Addr, Node>, sources: map<Addr, Node>, plain: map<Addr, Node>, required: map<Addr, Node>)
    requires Loaded(files, need, sources) && NeedRight(f.needs, required)
    requires plain.Keys == f.sources.Keys
    requires forall a :: a in plain ==> plain[a].data == Source(f.sources[a]) && Unshared(need, plain[a])
    requires forall a :: a in required ==> Unshared(need, required[a]) && Unshared(sources, required[a]) && Unshared(plain, required[a])
    ensures Loaded(files + [f], need + required, sources + plain + required)
  {
    NeedOneMore(Requirements(files), f.needs, need, required);
    SourcesOneMore(Origins(files), f, need, sources, plain, required);
    assert (files + [f])[..|files|] == files;
  }

  lemma SourcesOneMore(
    origins: map<Addr, Origin>, f: File, need: map<Addr, Node>, sources: map<Addr, Node>, plain: map<Addr, Node>,
    required: map<Addr, Node>)
    requires SourcesRight(origins, need, sources) && required.Keys == f.needs.Keys && plain.Keys == f.sources.Keys
    requires forall a :: a in plain ==> plain[a].data == Source(f.sources[a]) && Unshared(need, plain[a])
    requires forall a :: a in required ==> Unshared(sources, required[a]) && Unshared(plain, required[a])
    ensures SourcesRight(Overridden(origins, f), need + required, sources + plain + required)
  {
    PlainOneMore(origins, f.sources, need, sources, plain);
    forall a, b | a in required && b in sources + plain
      ensures required[a] != (sources + plain)[b]
    {
    }
    RequiredOneMore(
      origins + (map a | a in f.sources :: Plain(f.sources[a])), f.needs, need, sources + plain, required);
  }

  /** Every node of `m'` is new or was in `m` under the same address. */
  twostate predicate Extends(m: map<Addr, Node>, new m': map<Addr, Node>) {
    forall a :: a in m' ==> fresh(m'[a]) || (a in m && m'[a] == m[a])
  }

  method LoadFile(ghost files: seq<File>, f: File, need: map<Addr, Node>, sources: map<Addr, Node>)
    returns (need': map<Addr, Node>, sources': map<Addr, Node>)
    requires Loaded(files, need, sources)
    ensures Loaded(files + [f], need', sources') && Extends(need, need') && Extends(sources, sources')
  {
    var plain := MakeSources(f.sources);
    var required := MakeRequires(f.needs);
    LoadedOneMore(files, f, need, sources, plain, required);
    need', sources' := need + required, sources + plain + required;
  }

  method LoadFiles(files: seq<File>) returns (need: map<Addr, Node>, sources: map<Addr, Node>)
    ensures Loaded(files, need, sources)
    ensures forall a :: a in need ==> fresh(need[a])
    ensures forall a :: a in sources ==> fresh(sources[a])
  {
    if files == [] {
      return map[], map[];
    }
    var k := |files| - 1;
    assert files == files[..k] + [files[k]];
    var need0, sources0 := LoadFiles(files[..k]);
    need, sources := LoadFile(files[..k], files[k], need0, sources0);
  }

  // Wiring elements to source nodes

  predicate SameShape(f: Field<Addr>, g: Field<Node>) {
    (f.Absent? <==> g.Absent?) && (f.Single? <==> g.Single?) && |Entries(f)| == |Entries(g)|
  }

  /** The field holds the nodes that its addresses name. */
  ghost predicate Names(f: Field<Addr>, g: Field<Node>, sources: map<Addr, Node>) {
    SameShape(f, g) && forall i :: 0 <= i < |Entries(f)| ==>
      Entries(f)[i] in sources && Entries(g)[i] == sources[Entries(f)[i]]
  }

  ghost predicate Known(f: Field<Addr>, known: set<Addr>) {
    forall i :: 0 <= i < |Entries(f)| ==> Entries(f)[i] in known
  }

  method Lookup(sources: map<Addr, Node>, f: Field<Addr>) returns (r: Result<Field<Node>, Addr>)
    ensures r.Ok? <==> Known(f, sources.Keys)
    ensures r.Ok? ==> Names(f, r.value, sources)
    ensures r.Err? ==> r.error in Entries(f) && r.error !in sources
  {
    match f {
      case Absent => r := Ok(Absent);
      case Single(a) =>
        r := if a in sources then Ok(Single(sources[a])) else Err(a);
        assert Entries(f)[0] == a;
      case Several(addrs) =>
        var items: seq<Node> := [];
        for i := 0 to |addrs|
          invariant |items| == i && forall j :: 0 <= j < i ==> addrs[j] in sources && items[j] == sources[addrs[j]]
        {
          if addrs[i] !in sources {
            assert Entries(f)[i] !in sources.Keys;
            return Err(addrs[i]);
          }
          items := items + [sources[addrs[i]]];
        }
        r := Ok(Several(items));
    }
  }

  ghost predicate AllKnown(spec: map<Key, Field<Addr>>, known: set<Addr>) {
    forall k :: k in spec ==> Known(spec[k], known)
  }

  /** Some element uses the address as a source, and there is none. */
  ghost predicate UsedInVain(spec: map<Key, Field<Addr>>, known: set<Addr>, a: Addr) {
    a !in known && exists k :: k in spec && a in Entries(spec[k])
  }

  /** Every element's table holds the nodes its addresses name. */
  ghost predicate Wired(spec: map<Key, Field<Addr>>, elements: map<Key, Node>, sources: map<Addr, Node>)
    reads elements.Values
  {
    elements.Keys == spec.Keys &&
    forall k :: k in elements ==> elements[k].data.Table? && Names(spec[k], elements[k].data.sources, sources)
  }

  /** Replaces the addresses in the `source` entries by the nodes of the source table. */
  method ResolveSources(spec: map<Key, Field<Addr>>, sources: map<Addr, Node>) returns (r: Result<map<Key, Node>, Addr>)
    ensures r.Ok? <==> AllKnown(spec, sources.Keys)
    ensures r.Err? ==> UsedInVain(spec, sources.Keys, r.error)
    ensures r.Ok? ==> Wired(spec, r.value, sources) && forall k :: k in r.value ==> fresh(r.value[k])
  {
    var elements: map<Key, Node> := map[];
    var todo := spec.Keys;
    while todo != {}
      invariant todo <= spec.Keys && elements.Keys == spec.Keys - todo
      invariant forall k :: k in elements ==>
                  fresh(elements[k]) && elements[k].data.Table? && Names(spec[k], elements[k].data.sources, sources)
    {
      var k :| k in todo;
      var field := Lookup(sources, spec[k]);
      if field.Err? {
        return Err(field.error);
      }
      var n := new Node(Table(field.value));
      elements := elements[k := n];
      todo := todo - {k};
    }
    r := Ok(elements);
  }

  // Resolution

  datatype Lock = Lock(digest: string, content: map<Addr, string>)

  datatype BuildError =
    | NotValidSource(addr: Addr)
    | MalformedLock(addr: Addr)
    | DependencyChange
    | Unresolved(error: R.ResolveError)
    | VendorFailed(addr: Addr)

  /** Vendors, version ranges, the solver, what a vendor returns for a version, and the digest of the requirements. */
  datatype World = World(
    vendors: R.Vendors, meets: R.Meets, solver: R.Solver, fetch: R.Resolved -> Option<string>,
    digestOf: map<Addr, Declared> -> string)

  function DependencyOf(a: Addr, d: Declared): R.Dependency {
    R.Dependency(a, d.name, d.range, d.vendor)
  }

  method DependenciesOf(declared: map<Addr, Declared>) returns (deps: seq<R.Dependency>)
    ensures R.DistinctAddrs(deps)
    ensures forall i :: 0 <= i < |deps| ==> deps[i].addr in declared && deps[i] == DependencyOf(deps[i].addr, declared[deps[i].addr])
    ensures forall a :: a in declared ==> exists i :: 0 <= i < |deps| && deps[i].addr == a
  {
    deps := [];
    var todo := declared.Keys;
    while todo != {}
      invariant todo <= declared.Keys && R.DistinctAddrs(deps)
      invariant forall i :: 0 <= i < |deps| ==>
                  && deps[i].addr in declared.Keys - todo
                  && deps[i] == DependencyOf(deps[i].addr, declared[deps[i].addr])
      invariant forall a :: a in declared && a !in todo ==> exists i :: 0 <= i < |deps| && deps[i].addr == a
    {
      var a :| a in todo;
      ghost var before := deps;
      deps := deps + [DependencyOf(a, declared[a])];
      todo := todo - {a};
      assert deps[|before|].addr == a;
      assert forall i :: 0 <= i < |before| ==> deps[i] == before[i];
    }
  }

  predicate OnOffer(vendors: R.Vendors, name: string, c: R.Candidate) {
    c.vendor in vendors && name in vendors[c.vendor] && c.version in vendors[c.vendor][name]
  }

  /** The content is what a vendor returns for a version on offer that meets the declared range and pin. */
  ghost predicate ContentMeets(w: World, d: Declared, content: string) {
    exists r :: ResolvedFor(w, d, r) && w.fetch(r) == Some(content)
  }

  ghost predicate ResolvedFor(w: World, d: Declared, r: R.Resolved) {
    r.name == d.name && Suits(w, d, R.Candidate(r.vendor, r.version))
  }

  /** A vendor offers the version, it meets the declared range, and the vendor is the one asked for, if any. */
  predicate Suits(w: World, d: Declared, c: R.Candidate) {
    && OnOffer(w.vendors, d.name, c) && w.meets(d.range, c.version)
    && (d.vendor.Some? ==> d.vendor.value == c.vendor)
  }

  /** Something on offer suits every declared requirement. */
  ghost predicate AllSuited(w: World, declared: map<Addr, Declared>) {
    forall a :: a in declared ==> exists c :: Suits(w, declared[a], c)
  }

  /** The solver is asked once per declared address, for the candidates that suit it. */
  ghost predicate Asked(w: World, declared: map<Addr, Declared>, addrs: seq<Addr>, asked: seq<R.Requirement>) {
    && |asked| == |addrs| && (forall i, j :: 0 <= i < j < |addrs| ==> addrs[i] != addrs[j])
    && (forall a :: a in declared <==> a in addrs)
    && forall i :: 0 <= i < |addrs| ==>
         addrs[i] in declared && asked[i].name == declared[addrs[i]].name &&
         forall c :: c in asked[i].candidates <==> Suits(w, declared[addrs[i]], c)
  }

  /** Exactly what resolving the declared requirements yields. */
  ghost predicate Resolution(
    w: World, declared: map<Addr, Declared>, addrs: seq<Addr>, asked: seq<R.Requirement>, r: Result<map<Addr, string>, BuildError>)
  {
    && (r.Err? && r.error.Unresolved? && r.error.error.NoRequirement? <==> !AllSuited(w, declared))
    && (AllSuited(w, declared) ==> Asked(w, declared, addrs, asked))
    && (r == Err(Unresolved(R.Unsolvable)) <==> AllSuited(w, declared) && w.solver(asked).None?)
    && (r.Ok? ==> r.value.Keys == declared.Keys && forall a :: a in declared ==> ContentMeets(w, declared[a], r.value[a]))
    && (r.Err? ==> r.error.Unresolved? || r.error.VendorFailed?)
    && (r.Err? && r.error.VendorFailed? ==>
          r.error.addr in declared && exists x :: ResolvedFor(w, declared[r.error.addr], x) && w.fetch(x).None?)
  }

  method FetchAll(w: World, found: map<Addr, R.Resolved>) returns (r: Result<map<Addr, string>, BuildError>)
    ensures r.Ok? ==> r.value.Keys == found.Keys && forall a :: a in found ==> w.fetch(found[a]) == Some(r.value[a])
    ensures r.Err? ==> r.error.VendorFailed? && r.error.addr in found && w.fetch(found[r.error.addr]).None?
  {
    var content: map<Addr, string> := map[];
    var todo := found.Keys;
    while todo != {}
      invariant todo <= found.Keys && content.Keys == found.Keys - todo
      invariant forall a :: a in content ==> w.fetch(found[a]) == Some(content[a])
    {
      var a :| a in todo;
      var fetched := w.fetch(found[a]);
      if fetched.None? {
        return Err(VendorFailed(a));
      }
      content := content[a := fetched.value];
      todo := todo - {a};
    }
    r := Ok(content);
  }

  /** Asks the vendors for every package that is required. */
  method BuildPool(vendors: R.Vendors, deps: seq<R.Dependency>) returns (pool: R.Pool)
    ensures forall n, c :: n in pool ==> (c in pool[n] <==> OnOffer(vendors, n, c))
    ensures vendors != map[] ==> forall i :: 0 <= i < |deps| ==> deps[i].name in pool
  {
    pool := map[];
    for i := 0 to |deps|
      invariant forall n, c :: n in pool ==> (c in pool[n] <==> OnOffer(vendors, n, c))
      invariant vendors != map[] ==> forall j :: 0 <= j < i ==> deps[j].name in pool
    {
      pool := R.BuildDb(pool, vendors, deps[i].name);
    }
  }

  /** The declarations as the resolver sees them. */
  ghost predicate Listed(declared: map<Addr, Declared>, deps: seq<R.Dependency>) {
    && R.DistinctAddrs(deps)
    && (forall i :: 0 <= i < |deps| ==> deps[i].addr in declared && deps[i] == DependencyOf(deps[i].addr, declared[deps[i].addr]))
    && forall a :: a in declared ==> exists i :: 0 <= i < |deps| && deps[i].addr == a
  }

  /** The candidates known for the packages are those on offer. */
  ghost predicate Stocked(w: World, deps: seq<R.Dependency>, pool: R.Pool) {
    && (forall n, c :: n in pool ==> (c in pool[n] <==> OnOffer(w.vendors, n, c)))
    && (w.vendors != map[] ==> forall i :: 0 <= i < |deps| ==> deps[i].name in pool)
  }

  lemma FitIsSuit(w: World, declared: map<Addr, Declared>, deps: seq<R.Dependency>, pool: R.Pool, i: nat, c: R.Candidate)
    requires Listed(declared, deps) && Stocked(w, deps, pool) && i < |deps|
    ensures deps[i].name in pool && c in pool[deps[i].name] && R.Fits(w.meets, deps[i], c) <==>
              Suits(w, declared[deps[i].addr], c)
  {
    assert deps[i] == DependencyOf(deps[i].addr, declared[deps[i].addr]);
  }

  lemma FitsAreSuits(w: World, declared: map<Addr, Declared>, deps: seq<R.Dependency>, pool: R.Pool)
    requires Listed(declared, deps) && Stocked(w, deps, pool)
    ensures (forall i :: 0 <= i < |deps| ==> R.HasFit(pool, w.meets, deps[i])) <==> AllSuited(w, declared)
  {
    forall i | 0 <= i < |deps|
      ensures R.HasFit(pool, w.meets, deps[i]) <==> exists c :: Suits(w, declared[deps[i].addr], c)
    {
      if c :| Suits(w, declared[deps[i].addr], c) {
        FitIsSuit(w, declared, deps, pool, i, c);
      }
      if R.HasFit(pool, w.meets, deps[i]) {
        var c :| c in pool[deps[i].name] && R.Fits(w.meets, deps[i], c);
        FitIsSuit(w, declared, deps, pool, i, c);
      }
    }
    if forall i :: 0 <= i < |deps| ==> R.HasFit(pool, w.meets, deps[i]) {
      forall a | a in declared
        ensures exists c :: Suits(w, declared[a], c)
      {
        var i :| 0 <= i < |deps| && deps[i].addr == a;
        assert R.HasFit(pool, w.meets, deps[i]);
      }
    }
  }

  function Addrs(deps: seq<R.Dependency>): (addrs: seq<Addr>)
    ensures |addrs| == |deps| && forall i :: 0 <= i < |deps| ==> addrs[i] == deps[i].addr
  {
    if deps == [] then [] else Addrs(deps[..|deps| - 1]) + [deps[|deps| - 1].addr]
  }

  lemma RequestsAsk(w: World, declared: map<Addr, Declared>, deps: seq<R.Dependency>, pool: R.Pool)
    requires Listed(declared, deps) && Stocked(w, deps, pool)
    ensures Asked(w, declared, Addrs(deps), R.Requests(pool, w.meets, deps))
  {
    R.RequestsRight(pool, w.meets, deps);
    var addrs, asked := Addrs(deps), R.Requests(pool, w.meets, deps);
    forall i | 0 <= i < |addrs|
      ensures addrs[i] in declared && asked[i].name == declared[addrs[i]].name
      ensures forall c :: c in asked[i].candidates <==> Suits(w, declared[addrs[i]], c)
    {
      assert deps[i] == DependencyOf(deps[i].addr, declared[deps[i].addr]);
      forall c
        ensures c in asked[i].candidates <==> Suits(w, declared[addrs[i]], c)
      {
        FitIsSuit(w, declared, deps, pool, i, c);
      }
    }
    forall a | a in declared
      ensures a in addrs
    {
      var i :| 0 <= i < |deps| && deps[i].addr == a;
      assert addrs[i] == a;
    }
  }

  lemma MeetingIsResolved(
    w: World, declared: map<Addr, Declared>, deps: seq<R.Dependency>, pool: R.Pool, found: map<Addr, R.Resolved>)
    requires Listed(declared, deps) && Stocked(w, deps, pool) && R.AllMeeting(pool, w.meets, deps, found)
    ensures found.Keys == declared.Keys && forall a :: a in declared ==> ResolvedFor(w, declared[a], found[a])
  {
    forall a | a in declared
      ensures a in found && ResolvedFor(w, declared[a], found[a])
    {
      var i :| 0 <= i < |deps| && deps[i].addr == a;
      assert deps[i] == DependencyOf(a, declared[a]) && R.Meeting(pool, w.meets, deps[i], found[a]);
    }
  }

  /** What the resolver finds, before the vendors are asked for the contents. */
  ghost predicate Found(
    w: World, declared: map<Addr, Declared>, addrs: seq<Addr>, asked: seq<R.Requirement>,
    r: Result<map<Addr, R.Resolved>, R.ResolveError>)
  {
    && Asked(w, declared, addrs, asked)
    && (r.Err? && r.error.NoRequirement? <==> !AllSuited(w, declared))
    && (r == Err(R.Unsolvable) <==> AllSuited(w, declared) && w.solver(asked).None?)
    && (r.Ok? ==> r.value.Keys == declared.Keys && forall a :: a in declared ==> ResolvedFor(w, declared[a], r.value[a]))
  }

  /** What the resolver says of its declarations, said of the declared requirements. */
  lemma AnswerIsFound(
    w: World, declared: map<Addr, Declared>, deps: seq<R.Dependency>, pool: R.Pool, r: Result<map<Addr, R.Resolved>, R.ResolveError>)
    requires Listed(declared, deps) && Stocked(w, deps, pool)
    requires r.Err? && r.error.NoRequirement? <==> !forall i :: 0 <= i < |deps| ==> R.HasFit(pool, w.meets, deps[i])
    requires r == Err(R.Unsolvable) <==>
               (forall i :: 0 <= i < |deps| ==> R.HasFit(pool, w.meets, deps[i])) && w.solver(R.Requests(pool, w.meets, deps)).None?
    requires r.Ok? ==> R.AllMeeting(pool, w.meets, deps, r.value)
    ensures Found(w, declared, Addrs(deps), R.Requests(pool, w.meets, deps), r)
  {
    FitsAreSuits(w, declared, deps, pool);
    RequestsAsk(w, declared, deps, pool);
    if r.Ok? {
      MeetingIsResolved(w, declared, deps, pool, r.value);
    }
  }

  method FindAll(w: World, declared: map<Addr, Declared>)
    returns (r: Result<map<Addr, R.Resolved>, R.ResolveError>)
    requires R.Sound(w.vendors, w.solver)
    ensures exists addrs, asked :: Found(w, declared, addrs, asked, r)
  {
    var deps := DependenciesOf(declared);
    var pool := BuildPool(w.vendors, deps);
    r := R.Resolve(pool, w.vendors, w.meets, deps, w.solver);
    AnswerIsFound(w, declared, deps, pool, r);
  }

  /**
   * Resolves all requirements: every address gets a content, and one that meets its own declaration. It fails
   * exactly when nothing on offer suits some requirement, the solver has no answer, or a vendor does not deliver.
   */
  method ResolveAll(w: World, declared: map<Addr, Declared>)
    returns (r: Result<map<Addr, string>, BuildError>)
    requires R.Sound(w.vendors, w.solver)
    ensures exists addrs, asked :: Resolution(w, declared, addrs, asked, r)
  {
    var found := FindAll(w, declared);
    ghost var addrs, asked :| Found(w, declared, addrs, asked, found);
    if found.Err? {
      r := Err(Unresolved(found.error));
    } else {
      r := FetchAll(w, found.value);
    }
    assert Resolution(w, declared, addrs, asked, r);
  }

  // Building with and without a lock

  /** What a source node shows after resolution. */
  function View(origin: Origin, a: Addr, content: map<Addr, string>): Data
    requires origin.Required? ==> a in content
  {
    match origin
    case Plain(text) => Source(text)
    case Required => Definition(content[a])
  }

  ghost predicate Viewed(origins: map<Addr, Origin>, content: map<Addr, string>, sources: map<Addr, Node>)
    reads sources.Values
  {
    sources.Keys == origins.Keys && forall a :: a in sources ==>
      (origins[a].Required? ==> a in content) && sources[a].data == View(origins[a], a, content)
  }

  /** Writes the resolved content into the requirement nodes, and with that into every table that shares them. */
  method Publish(ghost origins: map<Addr, Origin>, need: map<Addr, Node>, sources: map<Addr, Node>, content: map<Addr, string>)
    requires SourcesRight(origins, need, sources) && Injective(need) && need.Keys <= content.Keys
    modifies need.Values
    ensures Viewed(origins, content, sources) && forall a :: a in need ==> need[a].data == Definition(content[a])
  {
    var todo := need.Keys;
    while todo != {}
      invariant todo <= need.Keys
      invariant forall a :: a in need && a !in todo ==> need[a].data == Definition(content[a])
      invariant forall a :: a in sources && origins[a].Plain? ==> sources[a].data == Source(origins[a].content)
    {
      var a :| a in todo;
      need[a].data := Definition(content[a]);
      todo := todo - {a};
    }
  }

  /** Publishing leaves the tables of the elements alone: they hold the same nodes, with new data in them. */
  method PublishKeepingTables(
    ghost origins: map<Addr, Origin>, ghost spec: map<Key, Field<Addr>>, need: map<Addr, Node>, sources: map<Addr, Node>,
    ghost elements: map<Key, Node>, content: map<Addr, string>)
    requires SourcesRight(origins, need, sources) && Injective(need) && need.Keys <= content.Keys
    requires Wired(spec, elements, sources) && forall k :: k in elements ==> Unshared(need, elements[k])
    modifies need.Values
    ensures Viewed(origins, content, sources) && Wired(spec, elements, sources)
  {
    Publish(origins, need, sources, content);
    assert forall k :: k in elements ==> elements[k] !in need.Values;
  }

  /** The first requirement that a lock does not cover. */
  method FirstUncovered(need: set<Addr>, content: map<Addr, string>) returns (r: Option<Addr>)
    ensures r.None? <==> need <= content.Keys
    ensures r.Some? ==> r.value in need && r.value !in content
  {
    var todo := need;
    while todo != {}
      invariant todo <= need && need - todo <= content.Keys
    {
      var a :| a in todo;
      if a !in content {
        return Some(a);
      }
      todo := todo - {a};
    }
    r := None;
  }

  /** The lock was written for these requirements. */
  predicate Applies(w: World, lock: Option<Lock>, declared: map<Addr, Declared>) {
    lock.Some? && lock.value.digest == w.digestOf(declared)
  }

  /** The project is resolved anew: no lock applies, and a lock that does not apply is not held against it. */
  predicate Resolves(w: World, lock: Option<Lock>, errorOnLock: bool, declared: map<Addr, Declared>) {
    !Applies(w, lock, declared) && !(lock.Some? && errorOnLock)
  }

  /** What the choice between lock and resolution has to yield. */
  ghost predicate Settled(
    w: World, lock: Option<Lock>, errorOnLock: bool, declared: map<Addr, Declared>, r: Result<Lock, BuildError>)
  {
    && (r.Ok? ==> r.value.digest == w.digestOf(declared) && declared.Keys <= r.value.content.Keys)
    && (r.Err? ==> !r.error.NotValidSource?)
    && (Applies(w, lock, declared) ==>
          if declared.Keys <= lock.value.content.Keys then r == Ok(lock.value)
          else r.Err? && r.error.MalformedLock? && r.error.addr in declared && r.error.addr !in lock.value.content)
    && (!Applies(w, lock, declared) ==>
          if lock.Some? && errorOnLock then r == Err(DependencyChange)
          else exists addrs, asked :: Resolution(w, declared, addrs, asked, ContentOf(r)))
  }

  function ContentOf(r: Result<Lock, BuildError>): Result<map<Addr, string>, BuildError> {
    match r
    case Ok(lock) => Ok(lock.content)
    case Err(e) => Err(e)
  }

  /** Reuses a lock that applies, refuses a changed project on demand, and registers the caches and resolves otherwise. */
  method Settle(w: World, lock: Option<Lock>, errorOnLock: bool, declared: map<Addr, Declared>, caches: Caches)
    returns (r: Result<Lock, BuildError>, registered: Option<Caches>)
    requires R.Sound(w.vendors, w.solver)
    ensures Settled(w, lock, errorOnLock, declared, r)
    ensures registered == if Resolves(w, lock, errorOnLock, declared) then Some(caches) else None
  {
    registered := None;
    var digest := w.digestOf(declared);
    if lock.Some? {
      if lock.value.digest == digest {
        var uncovered := FirstUncovered(declared.Keys, lock.value.content);
        r := if uncovered.Some? then Err(MalformedLock(uncovered.value)) else Ok(lock.value);
        return;
      } else if errorOnLock {
        r := Err(DependencyChange);
        return;
      }
    }
    registered := Some(caches);
    var content := ResolveAll(w, declared);
    r := if content.Err? then Err(content.error) else Ok(Lock(digest, content.value));
    assert ContentOf(r) == content;
  }

  /**
   * Loads a project and resolves it, from the lock if its digest is that of the declared requirements. Whatever
   * the way, what the elements see is determined by the files and the content of the returned lock alone. The
   * declared caches are registered exactly on the way that resolves: a build from a lock works without them.
   */
  method Build(files: seq<File>, w: World, lock: Option<Lock>, errorOnLock: bool)
    returns (r: Result<Lock, BuildError>, elements: map<Key, Node>, sources: map<Addr, Node>, registered: Option<Caches>)
    requires R.Sound(w.vendors, w.solver)
    ensures r.Ok? ==> Wired(Elements(files), elements, sources) && Viewed(Origins(files), r.value.content, sources)
    ensures r.Ok? ==> forall a :: a in sources ==> fresh(sources[a])
    ensures r.Ok? ==> forall k :: k in elements ==> fresh(elements[k])
    ensures r.Err? && r.error.NotValidSource? <==> !AllKnown(Elements(files), Origins(files).Keys)
    ensures r.Err? && r.error.NotValidSource? ==> UsedInVain(Elements(files), Origins(files).Keys, r.error.addr)
    ensures AllKnown(Elements(files), Origins(files).Keys) ==> Settled(w, lock, errorOnLock, Requirements(files), r)
    ensures registered ==
              if AllKnown(Elements(files), Origins(files).Keys) && Resolves(w, lock, errorOnLock, Requirements(files))
              then Some(DeclaredCaches(files)) else None
    ensures r.Ok? ==> (registered.Some? <==> !Applies(w, lock, Requirements(files)))
  {
    var loaded, need, declared;
    loaded, need, sources, declared := LoadProject(files);
    if loaded.Err? {
      return Err(NotValidSource(loaded.error)), map[], sources, None;
    }
    elements := loaded.value;
    r, registered := Settle(w, lock, errorOnLock, declared, DeclaredCaches(files));
    if r.Ok? {
      PublishKeepingTables(Origins(files), Elements(files), need, sources, elements, r.value.content);
    }
  }

  /** Nodes, wired elements and the declared requirements of a project. */
  method LoadProject(files: seq<File>)
    returns (r: Result<map<Key, Node>, Addr>, need: map<Addr, Node>, sources: map<Addr, Node>, declared: map<Addr, Declared>)
    ensures r.Ok? <==> AllKnown(Elements(files), Origins(files).Keys)
    ensures r.Err? ==> UsedInVain(Elements(files), Origins(files).Keys, r.error)
    ensures r.Ok? ==> Wired(Elements(files), r.value, sources)
    ensures r.Ok? ==> forall k :: k in r.value ==> fresh(r.value[k]) && Unshared(need, r.value[k])
    ensures SourcesRight(Origins(files), need, sources) && Injective(need) && declared == Requirements(files)
    ensures need.Keys == declared.Keys
    ensures forall a :: a in need ==> fresh(need[a])
    ensures forall a :: a in sources ==> fresh(sources[a])
  {
    need, sources := LoadFiles(files);
    declared := DeclaredBy(Requirements(files), need);
    r := ResolveSources(Elements(files), sources);
  }

  /** Reads the declared requirements back from the nodes. */
  method DeclaredBy(ghost requirements: map<Addr, Declared>, need: map<Addr, Node>) returns (declared: map<Addr, Declared>)
    requires NeedRight(requirements, need)
    ensures declared == requirements
  {
    declared := map a | a in need :: need[a].data.declared;
  }

  /**
   * Lock replay: a build that wrote a lock can be repeated with that lock, whatever vendors and solver do by
   * then. It never reports a malformed lock, and every environment and transform sees the same source data.
   * What it does not repeat is the registration of the declared caches.
   */
  method BuildThenReplay(files: seq<File>, w: World, w': World, lock: Option<Lock>, errorOnLock: bool)
    returns (
      first: Result<Lock, BuildError>, second: Result<Lock, BuildError>, e: map<Key, Node>, e': map<Key, Node>,
      registered: Option<Caches>, registered': Option<Caches>)
    requires R.Sound(w.vendors, w.solver) && R.Sound(w'.vendors, w'.solver) && w'.digestOf == w.digestOf
    ensures first.Ok? ==> second == first
    ensures first.Ok? ==> registered' == None && (registered == Some(DeclaredCaches(files)) || Applies(w, lock, Requirements(files)))
    ensures first.Ok? ==> e.Keys == e'.Keys == Elements(files).Keys
    ensures first.Ok? ==> forall k :: k in e ==>
              && e[k].data.Table? && e'[k].data.Table?
              && SameShape(Elements(files)[k], e[k].data.sources) && SameShape(Elements(files)[k], e'[k].data.sources)
              && forall i :: 0 <= i < |Entries(e[k].data.sources)| ==>
                   Entries(e[k].data.sources)[i].data == Entries(e'[k].data.sources)[i].data
  {
    var s, s';
    first, e, s, registered := Build(files, w, lock, errorOnLock);
    second, e', s', registered' := first, map[], map[], None;
    if first.Ok? {
      second, e', s', registered' := Build(files, w', Some(first.value), errorOnLock);
    }
  }
}
