/** Content-addressed transform ids: a digest over the digests of the dependencies and the transform's own inputs. */
module Merkle {
  import opened Prelude
  import opened Relations
  import opened GraphBuild
  import Strings

  /** The content hash in its printed form. */
  type Hash = string -> string

  type Order = (Addr, Addr) -> bool

  /**
   * A script hashes its dependencies, the digests of its sources and its commands; a composition its
   * dependencies only; the digest of any other transform is given from outside.
   */
  datatype Transform =
    | Script(depends: seq<Addr>, sources: seq<string>, commands: seq<string>)
    | Compose(depends: seq<Addr>)
    | Other(depends: seq<Addr>, digest: string)

  type Project = map<Addr, Transform>

  /** Digests of transforms are printed hashes of 64 hexadecimal digits; those of sources can be any text. */
  const DIGEST_LENGTH: nat := 64

  ghost predicate FixedLength(h: Hash) {
    forall x :: |h(x)| == DIGEST_LENGTH
  }

  ghost predicate TotalOrder(le: Order) {
    && (forall x, y :: le(x, y) || le(y, x))
    && (forall x, y :: le(x, y) && le(y, x) ==> x == y)
    && (forall x, y, z :: le(x, y) && le(y, z) ==> le(x, z))
  }

  function DependsOf(p: Project): Registry {
    map a | a in p :: p[a].depends
  }

  // Sorting

  function Insert(le: Order, x: Addr, s: seq<Addr>): seq<Addr> {
    if s == [] || le(x, s[0]) then [x] + s else [s[0]] + Insert(le, x, s[1..])
  }

  function Sort(le: Order, s: seq<Addr>): seq<Addr> {
    if s == [] then [] else Insert(le, s[0], Sort(le, s[1..]))
  }

  ghost predicate IsSorted(le: Order, s: seq<Addr>) {
    forall i, j :: 0 <= i < j < |s| ==> le(s[i], s[j])
  }

  lemma {:induction false} InsertAdds(le: Order, x: Addr, s: seq<Addr>)
    ensures multiset(Insert(le, x, s)) == multiset{x} + multiset(s)
  {
    if s != [] && !le(x, s[0]) {
      InsertAdds(le, x, s[1..]);
      assert s == [s[0]] + s[1..];
    }
  }

  lemma {:induction false} InsertSorts(le: Order, x: Addr, s: seq<Addr>)
    requires TotalOrder(le) && IsSorted(le, s)
    ensures IsSorted(le, Insert(le, x, s))
  {
    if s != [] && !le(x, s[0]) {
      InsertSorts(le, x, s[1..]);
      InsertAdds(le, x, s[1..]);
      var r := Insert(le, x, s[1..]);
      forall y | y in r
        ensures le(s[0], y)
      {
        assert y in multiset(r);
        assert y == x || y in s[1..];
      }
    }
  }

  lemma {:induction false} SortSorts(le: Order, s: seq<Addr>)
    requires TotalOrder(le)
    ensures IsSorted(le, Sort(le, s)) && multiset(Sort(le, s)) == multiset(s)
  {
    if s == [] {
    } else {
      SortSorts(le, s[1..]);
      InsertSorts(le, s[0], Sort(le, s[1..]));
      InsertAdds(le, s[0], Sort(le, s[1..]));
      assert s == [s[0]] + s[1..];
    }
  }

  lemma SortedHead(le: Order, s: seq<Addr>, t: seq<Addr>)
    requires TotalOrder(le) && IsSorted(le, s) && IsSorted(le, t) && multiset(s) == multiset(t)
    ensures |s| == |t| && (s != [] ==> s[0] == t[0])
  {
    assert |s| == |multiset(s)| == |t|;
    if s != [] {
      assert s[0] in multiset(t) && t[0] in multiset(s);
      assert s[0] in t && t[0] in s;
    }
  }

  lemma TailCounts(s: seq<Addr>)
    requires s != []
    ensures s == [s[0]] + s[1..] && multiset(s[1..]) == multiset(s) - multiset{s[0]}
  {
    assert s == [s[0]] + s[1..];
  }

  lemma {:induction false} SortedUnique(le: Order, s: seq<Addr>, t: seq<Addr>)
    requires TotalOrder(le) && IsSorted(le, s) && IsSorted(le, t) && multiset(s) == multiset(t)
    ensures s == t
  {
    SortedHead(le, s, t);
    if s == [] {
    } else {
      TailCounts(s);
      TailCounts(t);
      SortedUnique(le, s[1..], t[1..]);
    }
  }

  lemma SortedSame(le: Order, s: seq<Addr>)
    requires TotalOrder(le)
    ensures forall x :: x in Sort(le, s) <==> x in s
  {
    SortSorts(le, s);
    forall x
      ensures x in Sort(le, s) <==> x in s
    {
      assert x in Sort(le, s) <==> x in multiset(Sort(le, s));
    }
  }

  // Digests

  function Concat(parts: seq<string>): string {
    if parts == [] then "" else parts[0] + Concat(parts[1..])
  }

  function JoinLines(lines: seq<string>): string {
    if lines == [] then ""
    else if |lines| == 1 then lines[0]
    else lines[0] + "\n" + JoinLines(lines[1..])
  }

  /** The transforms that `a` depends on, directly or not, and `a` itself. */
  ghost function Above(p: Project, a: Addr): set<Addr> {
    set b | b in p && Reach(Depends(DependsOf(p)), b, a)
  }

  ghost predicate NoCycles(p: Project, a: Addr) {
    forall b :: Reach(Depends(DependsOf(p)), b, a) ==> !Plus(Depends(DependsOf(p)), b, b)
  }

  lemma NoCyclesBelow(p: Project, a: Addr, d: Addr)
    requires a in p && d in p[a].depends && NoCycles(p, a)
    ensures NoCycles(p, d) && |Above(p, d)| < |Above(p, a)|
    ensures forall b :: Reach(Depends(DependsOf(p)), b, d) ==> Reach(Depends(DependsOf(p)), b, a)
  {
    var r := Depends(DependsOf(p));
    assert (d, a) in r;
    ReachRefl(r, a);
    ReachStep(r, d, a);
    forall b | Reach(r, b, d)
      ensures Reach(r, b, a)
    {
      ReachTrans(r, b, d, a);
    }
    assert a !in Above(p, d) by {
      if Reach(r, a, d) {
        StepReach(r, d, a, a);
        ReachPlus(r, a, d, a);
      }
    }
    StrictlySmaller(Above(p, d), Above(p, a), a);
  }

  lemma DependencyIsSmaller(p: Project, a: Addr, d: Addr)
    requires a in p && d in p[a].depends && Buildable(DependsOf(p), a)
    ensures d in p && Buildable(DependsOf(p), d) && |Above(p, d)| < |Above(p, a)|
  {
    NoCyclesBelow(p, a, d);
    ReachRefl(Depends(DependsOf(p)), d);
  }

  // Termination of the id recursion

  /** (d, a) whenever the id of `a` asks for the id of `d`. */
  ghost function Asks(p: Project): set<(Addr, Addr)> {
    set a, d | a in p && !p[a].Other? && d in p[a].depends :: (d, a)
  }

  /** The id of `a` is computed with calls nested no deeper than `depth`. */
  ghost predicate EndsWithin(p: Project, a: Addr, depth: nat)
    decreases depth
  {
    depth > 0 && forall d :: (d, a) in Asks(p) ==> EndsWithin(p, d, depth - 1)
  }

  lemma {:induction false} EndsDeeper(p: Project, a: Addr, depth: nat, more: nat)
    requires EndsWithin(p, a, depth) && depth <= more
    ensures EndsWithin(p, a, more)
    decreases depth
  {
    forall d | (d, a) in Asks(p)
      ensures EndsWithin(p, d, more - 1)
    {
      EndsDeeper(p, d, depth - 1, more - 1);
    }
  }

  lemma {:induction false} EndsAlong(p: Project, b: Addr, path: seq<Addr>, a: Addr, depth: nat)
    requires Path(Asks(p), b, path, a) && EndsWithin(p, a, depth)
    ensures |path| < depth && EndsWithin(p, b, depth - |path|)
    decreases |path|
  {
    if path == [] {
    } else {
      EndsAlong(p, path[0], path[1..], a, depth);
    }
  }

  lemma {:induction false} EndsWithoutCycle(p: Project, b: Addr, depth: nat)
    requires EndsWithin(p, b, depth)
    ensures !Plus(Asks(p), b, b)
    decreases depth
  {
    if Plus(Asks(p), b, b) {
      var c :| (b, c) in Asks(p) && Reach(Asks(p), c, b);
      var q :| Path(Asks(p), c, q, b);
      assert ([c] + q)[1..] == q;
      EndsAlong(p, b, [c] + q, b, depth);
      EndsWithoutCycle(p, b, depth - 1 - |q|);
    }
  }

  ghost function AskedBy(p: Project, a: Addr): set<Addr> {
    set b | b in p && Reach(Asks(p), b, a)
  }

  lemma {:induction false} EndsWithoutCycles(p: Project, a: Addr)
    requires forall b :: Reach(Asks(p), b, a) ==> !Plus(Asks(p), b, b)
    ensures EndsWithin(p, a, |AskedBy(p, a)| + 1)
    decreases |AskedBy(p, a)|
  {
    var r := Asks(p);
    forall d | (d, a) in r
      ensures EndsWithin(p, d, |AskedBy(p, a)|)
    {
      forall b | Reach(r, b, d)
        ensures Reach(r, b, a)
      {
        ReachStep(r, d, a);
        ReachTrans(r, b, d, a);
      }
      ReachRefl(r, a);
      assert a !in AskedBy(p, d) by {
        if Reach(r, a, d) {
          StepReach(r, d, a, a);
          ReachPlus(r, a, d, a);
        }
      }
      StrictlySmaller(AskedBy(p, d), AskedBy(p, a), a);
      EndsWithoutCycles(p, d);
      EndsDeeper(p, d, |AskedBy(p, d)| + 1, |AskedBy(p, a)|);
    }
  }

  /** No missing address cuts the computation short. */
  ghost predicate Complete(p: Project, a: Addr) {
    forall b :: Reach(Depends(DependsOf(p)), b, a) ==> b in p
  }

  /**
   * When no address is missing, computing the id of a transform comes to an end if and only if no transform that it
   * asks for, directly or not, asks for itself.
   */
  lemma IdEndsExactly(p: Project, a: Addr)
    requires Complete(p, a)
    ensures (exists depth: nat :: EndsWithin(p, a, depth)) <==>
              forall b :: Reach(Asks(p), b, a) ==> !Plus(Asks(p), b, b)
  {
    if depth: nat :| EndsWithin(p, a, depth) {
      forall b | Reach(Asks(p), b, a)
        ensures !Plus(Asks(p), b, b)
      {
        var path :| Path(Asks(p), b, path, a);
        EndsAlong(p, b, path, a, depth);
        EndsWithoutCycle(p, b, depth - |path|);
      }
    }
    if forall b :: Reach(Asks(p), b, a) ==> !Plus(Asks(p), b, b) {
      EndsWithoutCycles(p, a);
      assert EndsWithin(p, a, |AskedBy(p, a)| + 1);
    }
  }

  /** What insertion accepts has an id. */
  lemma BuildableHasId(p: Project, a: Addr)
    requires Buildable(DependsOf(p), a)
    ensures exists depth: nat :: EndsWithin(p, a, depth)
  {
    assert Asks(p) <= Depends(DependsOf(p));
    forall b | Reach(Asks(p), b, a)
      ensures !Plus(Asks(p), b, b)
    {
      ReachMonotone(Asks(p), Depends(DependsOf(p)), b, a);
      if Plus(Asks(p), b, b) {
        PlusMonotone(Asks(p), Depends(DependsOf(p)), b, b);
      }
    }
    IdEndsExactly(p, a);
  }

  /** What insertion refuses as circular has none when only scripts and compositions have dependencies. */
  lemma CircularHasNoId(p: Project, a: Addr, depth: nat)
    requires Complete(p, a) && Explains(DependsOf(p), a, WouldCycle(a))
    requires forall b :: b in p && p[b].Other? ==> p[b].depends == []
    ensures !EndsWithin(p, a, depth)
  {
    assert Asks(p) == Depends(DependsOf(p)) by {
      forall e
        ensures e in Asks(p) <==> e in Depends(DependsOf(p))
      {
        assert e == (e.0, e.1);
      }
    }
    if EndsWithin(p, a, depth) {
      EndsWithoutCycle(p, a, depth);
    }
  }

  /** The digest of a transform; the recursion ends on every project that the graph construction accepts. */
  function Digest(h: Hash, le: Order, p: Project, a: Addr): string
    requires a in p && TotalOrder(le) && Buildable(DependsOf(p), a)
    decreases |Above(p, a)|, 2
  {
    match p[a]
    case Other(_, digest) => digest
    case _ => h(Payload(h, le, p, a))
  }

  /** What is fed to the hasher. */
  function Payload(h: Hash, le: Order, p: Project, a: Addr): string
    requires a in p && TotalOrder(le) && Buildable(DependsOf(p), a)
    decreases |Above(p, a)|, 1
  {
    SortSorts(le, p[a].depends);
    assert forall d :: d in Sort(le, p[a].depends) ==> d in multiset(p[a].depends);
    Concat(Digests(h, le, p, a, Sort(le, p[a].depends))) + Own(p[a])
  }

  /** The part of the payload that is the transform's own. */
  function Own(t: Transform): string {
    match t
    case Script(_, sources, commands) => Concat(sources) + JoinLines(commands)
    case _ => ""
  }

  function Digests(h: Hash, le: Order, p: Project, a: Addr, deps: seq<Addr>): (ds: seq<string>)
    requires a in p && TotalOrder(le) && Buildable(DependsOf(p), a) && forall d :: d in deps ==> d in p[a].depends
    ensures |ds| == |deps|
    decreases |Above(p, a)|, 0, |deps|
  {
    if deps == [] then []
    else
      DependencyIsSmaller(p, a, deps[0]);
      [Digest(h, le, p, deps[0])] + Digests(h, le, p, a, deps[1..])
  }

  // Invalidation

  ghost predicate DigestsFixed(p: Project) {
    forall a :: a in p && p[a].Other? ==> |p[a].digest| == DIGEST_LENGTH
  }

  lemma {:induction false} DigestsAt(h: Hash, le: Order, p: Project, a: Addr, deps: seq<Addr>, j: nat)
    requires a in p && TotalOrder(le) && Buildable(DependsOf(p), a) && j < |deps|
    requires forall d :: d in deps ==> d in p[a].depends
    ensures deps[j] in p && Buildable(DependsOf(p), deps[j])
    ensures Digests(h, le, p, a, deps)[j] == Digest(h, le, p, deps[j])
    decreases |deps|
  {
    DependencyIsSmaller(p, a, deps[j]);
    if j > 0 {
      DigestsAt(h, le, p, a, deps[1..], j - 1);
    }
  }

  ghost predicate AllFixed(digests: seq<string>) {
    forall i :: 0 <= i < |digests| ==> |digests[i]| == DIGEST_LENGTH
  }

  /** Digests of fixed length can be read off a concatenation one by one. */
  lemma {:induction false} ConcatPrefix(x: seq<string>, y: seq<string>, s: string, t: string)
    requires |x| <= |y| && AllFixed(x) && AllFixed(y)
    ensures Concat(x) + s == Concat(y) + t <==> x == y[..|x|] && s == Concat(y[|x|..]) + t
    decreases |x|
  {
    if x == [] {
      assert y[0..] == y && Concat(x) + s == s;
    } else {
      var u, v := Concat(x) + s, Concat(y) + t;
      assert u[..DIGEST_LENGTH] == x[0] && u[DIGEST_LENGTH..] == Concat(x[1..]) + s;
      assert v[..DIGEST_LENGTH] == y[0] && v[DIGEST_LENGTH..] == Concat(y[1..]) + t;
      assert u == x[0] + (Concat(x[1..]) + s) && v == y[0] + (Concat(y[1..]) + t);
      ConcatPrefix(x[1..], y[1..], s, t);
      SamePrefix(x, y);
    }
  }

  lemma SamePrefix(x: seq<string>, y: seq<string>)
    requires 0 < |x| <= |y|
    ensures x == y[..|x|] <==> x[0] == y[0] && x[1..] == y[1..][..|x| - 1]
    ensures y[1..][|x| - 1..] == y[|x|..]
  {
    assert y[..|x|] == [y[0]] + y[1..][..|x| - 1];
    assert x == [x[0]] + x[1..];
  }

  /** The digests of the direct dependencies in the order in which they are hashed. */
  function DependencyDigests(h: Hash, le: Order, p: Project, a: Addr): seq<string>
    requires a in p && TotalOrder(le) && Buildable(DependsOf(p), a)
  {
    SortSorts(le, p[a].depends);
    assert forall d :: d in Sort(le, p[a].depends) ==> d in multiset(p[a].depends);
    Digests(h, le, p, a, Sort(le, p[a].depends))
  }

  lemma DependencyDigestsFixed(h: Hash, le: Order, p: Project, a: Addr)
    requires FixedLength(h) && TotalOrder(le) && DigestsFixed(p) && a in p && Buildable(DependsOf(p), a)
    ensures AllFixed(DependencyDigests(h, le, p, a))
    ensures |DependencyDigests(h, le, p, a)| == |p[a].depends|
    ensures Payload(h, le, p, a) == Concat(DependencyDigests(h, le, p, a)) + Own(p[a])
  {
    var deps := Sort(le, p[a].depends);
    SortSorts(le, p[a].depends);
    assert |deps| == |multiset(deps)| == |p[a].depends|;
    assert forall d :: d in deps ==> d in multiset(p[a].depends);
    forall i | 0 <= i < |deps|
      ensures |Digests(h, le, p, a, deps)[i]| == DIGEST_LENGTH
    {
      DigestsAt(h, le, p, a, deps, i);
    }
  }

  lemma DependencyDigestAt(h: Hash, le: Order, p: Project, a: Addr, j: nat)
    requires a in p && TotalOrder(le) && Buildable(DependsOf(p), a) && j < |Sort(le, p[a].depends)|
    ensures var d := Sort(le, p[a].depends)[j];
            && d in p && Buildable(DependsOf(p), d) && j < |DependencyDigests(h, le, p, a)|
            && DependencyDigests(h, le, p, a)[j] == Digest(h, le, p, d)
  {
    var deps := Sort(le, p[a].depends);
    SortSorts(le, p[a].depends);
    assert forall d :: d in deps ==> d in multiset(p[a].depends);
    DigestsAt(h, le, p, a, deps, j);
  }

  /** A dependency whose digest differs between two projects changes what a dependent feeds to the hasher. */
  lemma PayloadDiffers(h: Hash, le: Order, p: Project, q: Project, d: Addr, a: Addr)
    requires FixedLength(h) && TotalOrder(le) && DigestsFixed(p) && DigestsFixed(q)
    requires a in p && a in q && p[a].depends == q[a].depends && d in p[a].depends
    requires Buildable(DependsOf(p), a) && Buildable(DependsOf(q), a)
    requires d in p && d in q && Buildable(DependsOf(p), d) && Buildable(DependsOf(q), d)
    requires Digest(h, le, p, d) != Digest(h, le, q, d)
    ensures Payload(h, le, p, a) != Payload(h, le, q, a)
  {
    SortSorts(le, p[a].depends);
    var deps := Sort(le, p[a].depends);
    assert d in multiset(deps);
    var j :| 0 <= j < |deps| && deps[j] == d;
    DependencyDigestAt(h, le, p, a, j);
    DependencyDigestAt(h, le, q, a, j);
    DependencyDigestsFixed(h, le, p, a);
    DependencyDigestsFixed(h, le, q, a);
    var x, y := DependencyDigests(h, le, p, a), DependencyDigests(h, le, q, a);
    ConcatPrefix(x, y, Own(p[a]), Own(q[a]));
    assert y[..|x|] == y;
  }

  lemma {:induction false} ConcatAppend(x: seq<string>, y: seq<string>)
    ensures Concat(x + y) == Concat(x) + Concat(y)
  {
    if x == [] {
      assert x + y == y;
    } else {
      ConcatAppend(x[1..], y);
      assert (x + y)[1..] == x[1..] + y;
      Strings.Associates(x[0], Concat(x[1..]), Concat(y));
    }
  }

  /**
   * What the payload of a transform tells apart: the digests of its dependencies one by one, and all the rest as one
   * text. A side with more dependencies is confused with the other exactly when the rest of the other begins with
   * the additional digests. Where the dependencies end, where a source ends and where the commands begin is not part
   * of the payload, and source digests can have any length.
   */
  lemma PayloadsAgree(h: Hash, le: Order, p: Project, q: Project, a: Addr, b: Addr)
    requires FixedLength(h) && TotalOrder(le) && DigestsFixed(p) && DigestsFixed(q)
    requires a in p && b in q && Buildable(DependsOf(p), a) && Buildable(DependsOf(q), b)
    requires |p[a].depends| <= |q[b].depends|
    ensures var x, y := DependencyDigests(h, le, p, a), DependencyDigests(h, le, q, b);
            && |x| == |p[a].depends| <= |y|
            && (Payload(h, le, p, a) == Payload(h, le, q, b) <==>
                  x == y[..|x|] && Own(p[a]) == Concat(y[|x|..]) + Own(q[b]))
  {
    DependencyDigestsFixed(h, le, p, a);
    DependencyDigestsFixed(h, le, q, b);
    ConcatPrefix(DependencyDigests(h, le, p, a), DependencyDigests(h, le, q, b), Own(p[a]), Own(q[b]));
  }

  /** All digests that a script hashes, those of its dependencies first. */
  function HashedDigests(h: Hash, le: Order, p: Project, a: Addr): seq<string>
    requires a in p && p[a].Script? && TotalOrder(le) && Buildable(DependsOf(p), a)
  {
    DependencyDigests(h, le, p, a) + p[a].sources
  }

  lemma FixedPayload(h: Hash, le: Order, p: Project, a: Addr)
    requires FixedLength(h) && TotalOrder(le) && DigestsFixed(p) && a in p && Buildable(DependsOf(p), a)
    requires p[a].Script? && AllFixed(p[a].sources)
    ensures AllFixed(HashedDigests(h, le, p, a))
    ensures Payload(h, le, p, a) == Concat(HashedDigests(h, le, p, a)) + JoinLines(p[a].commands)
  {
    DependencyDigestsFixed(h, le, p, a);
    ConcatAppend(DependencyDigests(h, le, p, a), p[a].sources);
  }

  /**
   * For scripts whose source digests are hashes too, as those of local and vendored sources, dependencies and
   * sources are told apart one by one, though not from each other.
   */
  lemma FixedPayloadsAgree(h: Hash, le: Order, p: Project, q: Project, a: Addr, b: Addr)
    requires FixedLength(h) && TotalOrder(le) && DigestsFixed(p) && DigestsFixed(q)
    requires a in p && b in q && Buildable(DependsOf(p), a) && Buildable(DependsOf(q), b)
    requires p[a].Script? && q[b].Script? && AllFixed(p[a].sources) && AllFixed(q[b].sources)
    requires |HashedDigests(h, le, p, a)| <= |HashedDigests(h, le, q, b)|
    ensures var x, y := HashedDigests(h, le, p, a), HashedDigests(h, le, q, b);
            Payload(h, le, p, a) == Payload(h, le, q, b) <==>
              x == y[..|x|] && JoinLines(p[a].commands) == Concat(y[|x|..]) + JoinLines(q[b].commands)
  {
    FixedPayload(h, le, p, a);
    FixedPayload(h, le, q, b);
    ConcatPrefix(
      HashedDigests(h, le, p, a), HashedDigests(h, le, q, b), JoinLines(p[a].commands), JoinLines(q[b].commands));
  }

  /**
   * Dependencies run into sources: a script with one dependency and no source, and one with no dependency and a
   * source of the same digest, have the same payload and hence the same digest.
   */
  lemma DependenciesRunIntoSources(h: Hash, le: Order, p: Project, a: Addr, b: Addr, d: Addr, commands: seq<string>)
    requires TotalOrder(le) && a in p && b in p && Buildable(DependsOf(p), a) && Buildable(DependsOf(p), b)
    requires d in p && Buildable(DependsOf(p), d)
    requires p[a] == Script([d], [], commands) && p[b] == Script([], [Digest(h, le, p, d)], commands)
    ensures Payload(h, le, p, a) == Payload(h, le, p, b) && Digest(h, le, p, a) == Digest(h, le, p, b)
  {
    OneDependency(h, le, p, a, d);
    assert Payload(h, le, p, b) == Own(p[b]);
    ConcatOne(Digest(h, le, p, d));
  }

  lemma ConcatOne(s: string)
    ensures Concat([s]) == s
  {
    assert [s][1..] == [];
  }

  lemma OneDependency(h: Hash, le: Order, p: Project, a: Addr, d: Addr)
    requires TotalOrder(le) && a in p && Buildable(DependsOf(p), a) && p[a].depends == [d]
    requires d in p && Buildable(DependsOf(p), d)
    ensures Payload(h, le, p, a) == Digest(h, le, p, d) + Own(p[a])
  {
    assert [d][1..] == [];
    assert Sort(le, [d]) == [d];
    assert Digests(h, le, p, a, [d]) == [Digest(h, le, p, d)];
    ConcatOne(Digest(h, le, p, d));
  }

  /** Sources run into each other: two sources hash like one whose digest is that of both in a row. */
  lemma SourcesRunTogether(depends: seq<Addr>, x: string, y: string, more: seq<string>, commands: seq<string>)
    ensures Own(Script(depends, [x, y] + more, commands)) == Own(Script(depends, [x + y] + more, commands))
  {
    ConcatAppend([x, y], more);
    ConcatAppend([x + y], more);
    ConcatOne(x + y);
    assert [x, y] == [x] + [y];
    ConcatAppend([x], [y]);
    ConcatOne(x);
    ConcatOne(y);
  }

  /** The sources at the references `ma` and `in` hash like those at `m` and `ain`: git digests are encoded references. */
  lemma ReferencesRunTogether(depends: seq<Addr>, commands: seq<string>)
    ensures Own(Script(depends, ["6d61", "696e"], commands)) == Own(Script(depends, ["6d", "61696e"], commands))
  {
    assert "6d61" + "696e" == "6d" + "61696e";
    SourcesRunTogether(depends, "6d61", "696e", [], commands);
    SourcesRunTogether(depends, "6d", "61696e", [], commands);
    assert ["6d61", "696e"] + [] == ["6d61", "696e"] && ["6d", "61696e"] + [] == ["6d", "61696e"];
  }

  /** Sources run into commands: a source digest and the same digest at the head of the script hash alike. */
  lemma SourcesRunIntoCommands(depends: seq<Addr>, digest: string, text: string)
    ensures Own(Script(depends, [digest], [text])) == Own(Script(depends, [], [digest + text]))
  {
    ConcatOne(digest);
    assert "" + (digest + text) == digest + text;
  }

  // The script text

  /** The lines of all commands, one after the other. */
  function AllLines(commands: seq<string>): seq<string> {
    if commands == [] then [] else Strings.Split(commands[0], '\n') + AllLines(commands[1..])
  }

  /** The lines that a shell would see; no command at all is one empty line. */
  function LinesOf(commands: seq<string>): seq<string> {
    if commands == [] then [""] else AllLines(commands)
  }

  /** Splitting the script text at its newlines gives the lines of the commands. */
  lemma {:induction false} TextSplits(commands: seq<string>)
    ensures Strings.Split(JoinLines(commands), '\n') == LinesOf(commands)
  {
    if commands == [] {
    } else if |commands| == 1 {
      var lines := Strings.Split(commands[0], '\n');
      assert commands[1..] == [] && lines + AllLines([]) == lines;
    } else {
      TextSplits(commands[1..]);
      Strings.SplitAt(commands[0], '\n', JoinLines(commands[1..]));
      assert JoinLines(commands) == commands[0] + ['\n'] + JoinLines(commands[1..]);
    }
  }

  lemma JoinMore(line: string, rest: seq<string>)
    ensures JoinLines([line] + rest) == if rest == [] then line else line + "\n" + JoinLines(rest)
  {
    assert ([line] + rest)[1..] == rest;
  }

  lemma JoinExtended(c: char, parts: seq<string>)
    requires |parts| >= 1
    ensures JoinLines(Strings.Extend(c, parts)) == [c] + JoinLines(parts)
  {
    var line, rest := parts[0], parts[1..];
    assert parts == [line] + rest;
    JoinMore(line, rest);
    JoinMore([c] + line, rest);
    assert Strings.Extend(c, parts) == [[c] + line] + rest;
    Strings.Associates([c], line, "\n");
    Strings.Associates([c], line + "\n", JoinLines(rest));
  }

  /** Joining the lines of a text gives the text. */
  lemma {:induction false} LinesJoin(text: string)
    ensures JoinLines(Strings.Split(text, '\n')) == text
  {
    if text == [] {
    } else {
      LinesJoin(text[1..]);
      var rest := Strings.Split(text[1..], '\n');
      assert text == [text[0]] + text[1..];
      if text[0] == '\n' {
        JoinMore("", rest);
      } else {
        JoinExtended(text[0], rest);
      }
    }
  }

  /** The text tells commands apart exactly by their lines. */
  lemma TextsAgree(x: seq<string>, y: seq<string>)
    ensures JoinLines(x) == JoinLines(y) <==> LinesOf(x) == LinesOf(y)
  {
    TextSplits(x);
    TextSplits(y);
    LinesJoin(JoinLines(x));
    LinesJoin(JoinLines(y));
  }

  /** Commands of one line each are their own lines. */
  lemma {:induction false} PlainLines(commands: seq<string>)
    requires forall i :: 0 <= i < |commands| ==> '\n' !in commands[i]
    ensures AllLines(commands) == commands
  {
    if commands == [] {
    } else {
      Strings.SplitWhole(commands[0], '\n');
      PlainLines(commands[1..]);
      assert commands == [commands[0]] + commands[1..];
    }
  }

  /** Two inputs of the hasher that are told apart by nothing but luck. */
  ghost predicate Collision(h: Hash, x: string, y: string) {
    x != y && h(x) == h(y)
  }

  /** Transforms on the way keep their definition and hash their dependencies. */
  ghost predicate Unchanged(p: Project, q: Project, path: seq<Addr>) {
    forall i :: 0 <= i < |path| ==>
      path[i] in p && path[i] in q && p[path[i]] == q[path[i]] && !p[path[i]].Other?
  }

  /**
   * Merkle invalidation: if the digest of `b` differs between two projects, then so does the digest of every
   * transform that depends on `b` through unchanged scripts and compositions, or else the payloads of one of
   * these transforms are an explicit hash collision.
   */
  lemma {:induction false} Invalidates(h: Hash, le: Order, p: Project, q: Project, b: Addr, path: seq<Addr>, a: Addr)
    returns (culprit: Addr)
    requires FixedLength(h) && TotalOrder(le) && DigestsFixed(p) && DigestsFixed(q)
    requires a in p && a in q && Buildable(DependsOf(p), a) && Buildable(DependsOf(q), a)
    requires Path(Depends(DependsOf(p)), b, path, a) && Unchanged(p, q, path)
    requires b in p && b in q && Buildable(DependsOf(p), b) && Buildable(DependsOf(q), b)
    requires Digest(h, le, p, b) != Digest(h, le, q, b)
    ensures Digest(h, le, p, a) != Digest(h, le, q, a) ||
            (&& culprit in path && culprit in p && culprit in q
             && Buildable(DependsOf(p), culprit) && Buildable(DependsOf(q), culprit)
             && Collision(h, Payload(h, le, p, culprit), Payload(h, le, q, culprit)))
    decreases |path|
  {
    culprit := b;
    if path == [] {
    } else {
      var c := path[0];
      assert path[0] in p && p[path[0]] == q[path[0]];
      OnTheWay(p, c, path[1..], a);
      SamePath(p, q, c, path[1..], a);
      OnTheWay(q, c, path[1..], a);
      PayloadDiffers(h, le, p, q, b, c);
      if h(Payload(h, le, p, c)) == h(Payload(h, le, q, c)) {
        culprit := c;
      } else {
        assert forall i :: 0 <= i < |path[1..]| ==> path[1..][i] == path[i + 1];
        culprit := Invalidates(h, le, p, q, c, path[1..], a);
      }
    }
  }

  lemma OnTheWay(p: Project, c: Addr, path: seq<Addr>, a: Addr)
    requires Path(Depends(DependsOf(p)), c, path, a) && Buildable(DependsOf(p), a)
    ensures Buildable(DependsOf(p), c)
  {
    var r := Depends(DependsOf(p));
    assert Reach(r, c, a);
    forall x | Reach(r, x, c)
      ensures Reach(r, x, a)
    {
      ReachTrans(r, x, c, a);
    }
  }

  lemma {:induction false} SamePath(p: Project, q: Project, c: Addr, path: seq<Addr>, a: Addr)
    requires Path(Depends(DependsOf(p)), c, path, a)
    requires forall i :: 0 <= i < |path| ==> path[i] in p && path[i] in q && p[path[i]] == q[path[i]]
    ensures Path(Depends(DependsOf(q)), c, path, a)
    decreases |path|
  {
    if path == [] {
    } else {
      assert path[0] in p && p[path[0]] == q[path[0]];
      assert forall i :: 0 <= i < |path[1..]| ==> path[1..][i] == path[i + 1];
      SamePath(p, q, path[0], path[1..], a);
    }
  }

  /** Nothing but the commands of a script has changed, apart from what its dependencies are. */
  ghost predicate Edited(p: Project, q: Project, a: Addr) {
    && a in p && a in q && p[a].Script? && q[a].Script?
    && |p[a].depends| == |q[a].depends| && p[a].sources == q[a].sources
    && LinesOf(p[a].commands) != LinesOf(q[a].commands)
  }

  /** Other commands make another payload. */
  lemma EditChangesPayload(h: Hash, le: Order, p: Project, q: Project, a: Addr)
    requires FixedLength(h) && TotalOrder(le) && DigestsFixed(p) && DigestsFixed(q) && Edited(p, q, a)
    requires Buildable(DependsOf(p), a) && Buildable(DependsOf(q), a)
    ensures Payload(h, le, p, a) != Payload(h, le, q, a)
  {
    PayloadsAgree(h, le, p, q, a, a);
    TextsAgree(p[a].commands, q[a].commands);
    var x, y := DependencyDigests(h, le, p, a), DependencyDigests(h, le, q, a);
    DependencyDigestsFixed(h, le, q, a);
    assert y[|x|..] == [] && Concat(y[|x|..]) + Own(q[a]) == Own(q[a]);
    SamePrefixText(Concat(p[a].sources), JoinLines(p[a].commands), JoinLines(q[a].commands));
  }

  lemma SamePrefixText(prefix: string, x: string, y: string)
    ensures prefix + x == prefix + y <==> x == y
  {
    assert (prefix + x)[|prefix|..] == x && (prefix + y)[|prefix|..] == y;
  }

  /**
   * Editing a script changes its digest and that of every transform that depends on it through unchanged scripts
   * and compositions, or else the payloads of one of them are an explicit hash collision.
   */
  lemma EditInvalidates(h: Hash, le: Order, p: Project, q: Project, b: Addr, path: seq<Addr>, a: Addr) returns (culprit: Addr)
    requires FixedLength(h) && TotalOrder(le) && DigestsFixed(p) && DigestsFixed(q) && Edited(p, q, b)
    requires Buildable(DependsOf(p), b) && Buildable(DependsOf(q), b)
    requires a in p && a in q && Buildable(DependsOf(p), a) && Buildable(DependsOf(q), a)
    requires Path(Depends(DependsOf(p)), b, path, a) && Unchanged(p, q, path)
    ensures Digest(h, le, p, a) != Digest(h, le, q, a) ||
            (&& culprit in [b] + path && culprit in p && culprit in q
             && Buildable(DependsOf(p), culprit) && Buildable(DependsOf(q), culprit)
             && Collision(h, Payload(h, le, p, culprit), Payload(h, le, q, culprit)))
  {
    EditChangesPayload(h, le, p, q, b);
    culprit := b;
    if Digest(h, le, p, b) != Digest(h, le, q, b) {
      culprit := Invalidates(h, le, p, q, b, path, a);
    }
  }

  // Order of the declarations

  /** The same project with the `depends` lists in another order. */
  ghost predicate Reordered(p: Project, q: Project) {
    && p.Keys == q.Keys
    && forall a :: a in p ==>
         && multiset(p[a].depends) == multiset(q[a].depends)
         && match p[a]
            case Script(_, sources, commands) => q[a].Script? && q[a].sources == sources && q[a].commands == commands
            case Compose(_) => q[a].Compose?
            case Other(_, digest) => q[a].Other? && q[a].digest == digest
  }

  lemma ReorderedDepends(p: Project, q: Project)
    requires Reordered(p, q)
    ensures Depends(DependsOf(p)) == Depends(DependsOf(q))
    ensures forall a :: Buildable(DependsOf(p), a) <==> Buildable(DependsOf(q), a)
  {
    forall d, a
      ensures (d, a) in Depends(DependsOf(p)) <==> (d, a) in Depends(DependsOf(q))
    {
      if a in p {
        assert d in p[a].depends <==> d in multiset(p[a].depends);
        assert d in q[a].depends <==> d in multiset(q[a].depends);
      }
    }
    var r, r' := Depends(DependsOf(p)), Depends(DependsOf(q));
    forall e
      ensures e in r <==> e in r'
    {
      assert e == (e.0, e.1);
    }
    assert r == r';
    assert DependsOf(p).Keys == DependsOf(q).Keys;
  }

  /** Digests do not depend on the order in which dependencies are declared. */
  lemma {:induction false} OrderIrrelevant(h: Hash, le: Order, p: Project, q: Project, a: Addr)
    requires TotalOrder(le) && Reordered(p, q) && a in p && Buildable(DependsOf(p), a) && Buildable(DependsOf(q), a)
    ensures Digest(h, le, p, a) == Digest(h, le, q, a)
    decreases |Above(p, a)|, 1
  {
    SortSorts(le, p[a].depends);
    SortSorts(le, q[a].depends);
    var deps := Sort(le, p[a].depends);
    SortedUnique(le, deps, Sort(le, q[a].depends));
    assert forall d :: d in deps ==> d in multiset(p[a].depends) && d in multiset(q[a].depends);
    DigestsIrrelevant(h, le, p, q, a, deps);
  }

  lemma {:induction false} DigestsIrrelevant(h: Hash, le: Order, p: Project, q: Project, a: Addr, deps: seq<Addr>)
    requires TotalOrder(le) && Reordered(p, q) && a in p && Buildable(DependsOf(p), a) && Buildable(DependsOf(q), a)
    requires forall d :: d in deps ==> d in p[a].depends && d in q[a].depends
    ensures Digests(h, le, p, a, deps) == Digests(h, le, q, a, deps)
    decreases |Above(p, a)|, 0, |deps|
  {
    if deps == [] {
    } else {
      DependencyIsSmaller(p, a, deps[0]);
      DependencyIsSmaller(q, a, deps[0]);
      OrderIrrelevant(h, le, p, q, deps[0]);
      DigestsIrrelevant(h, le, p, q, a, deps[1..]);
    }
  }

  /** Ids are invariant under permuting `depends`. */
  lemma IdsIgnoreOrder(h: Hash, le: Order, p: Project, q: Project, a: Addr)
    requires TotalOrder(le) && Reordered(p, q) && a in p && Buildable(DependsOf(p), a)
    ensures a in q && Buildable(DependsOf(q), a) && Digest(h, le, p, a) == Digest(h, le, q, a)
  {
    ReorderedDepends(p, q);
    OrderIrrelevant(h, le, p, q, a);
  }

  // The code

  lemma {:induction false} DigestsOneMore(h: Hash, le: Order, p: Project, a: Addr, deps: seq<Addr>, d: Addr)
    requires a in p && TotalOrder(le) && Buildable(DependsOf(p), a) && d in p[a].depends
    requires forall x :: x in deps ==> x in p[a].depends
    ensures d in p && Buildable(DependsOf(p), d)
    ensures Digests(h, le, p, a, deps + [d]) == Digests(h, le, p, a, deps) + [Digest(h, le, p, d)]
    decreases |deps|
  {
    DependencyIsSmaller(p, a, d);
    if deps == [] {
      assert deps + [d] == [d];
      assert [d][1..] == [];
    } else {
      DigestsOneMore(h, le, p, a, deps[1..], d);
      assert (deps + [d])[1..] == deps[1..] + [d];
    }
  }

  /** Every id that is asked for, directly or not, belongs to a registered transform. */
  ghost predicate Answered(p: Project, a: Addr) {
    forall b :: Reach(Asks(p), b, a) ==> b in p
  }

  lemma AnsweredStep(p: Project, a: Addr)
    requires a in p
    ensures Answered(p, a) <==> p[a].Other? || forall d :: d in p[a].depends ==> Answered(p, d)
  {
    var r := Asks(p);
    forall d, b | d in p[a].depends && !p[a].Other? && Reach(r, b, d)
      ensures Reach(r, b, a)
    {
      assert (d, a) in r;
      ReachStep(r, d, a);
      ReachTrans(r, b, d, a);
    }
    forall b | Reach(r, b, a) && b != a
      ensures exists d :: d in p[a].depends && !p[a].Other? && Reach(r, b, d)
    {
      ReachCases(r, b, a);
      var d := LastStep(r, b, a);
      assert (d, a) in r;
    }
  }

  /**
   * Feeds the hasher with the digests of the sorted dependencies and the transform's own inputs. A dependency
   * that is not registered is reported; on everything the graph construction accepts the result is the digest.
   */
  method UniqueDigest(h: Hash, le: Order, p: Project, a: Addr) returns (r: Result<string, Addr>)
    requires a in p && TotalOrder(le) && NoCycles(p, a)
    ensures Buildable(DependsOf(p), a) ==> r == Ok(Digest(h, le, p, a))
    ensures r.Ok? <==> Answered(p, a)
    ensures r.Err? ==> r.error !in p && Reach(Depends(DependsOf(p)), r.error, a)
    decreases |Above(p, a)|, 1
  {
    AnsweredStep(p, a);
    if p[a].Other? {
      return Ok(p[a].digest);
    }
    var deps := Sort(le, p[a].depends);
    SortedSame(le, p[a].depends);
    r := HashDependencies(h, le, p, a, deps);
    if r.Ok? {
      r := Ok(h(r.value + Own(p[a])));
    }
  }

  /** The part of the hasher loop that resolves the dependencies. */
  method HashDependencies(h: Hash, le: Order, p: Project, a: Addr, deps: seq<Addr>) returns (r: Result<string, Addr>)
    requires a in p && TotalOrder(le) && NoCycles(p, a) && forall d :: d in deps ==> d in p[a].depends
    ensures Buildable(DependsOf(p), a) ==> r == Ok(Concat(Digests(h, le, p, a, deps)))
    ensures r.Ok? <==> forall d :: d in deps ==> Answered(p, d)
    ensures r.Err? ==> r.error !in p && Reach(Depends(DependsOf(p)), r.error, a)
    decreases |Above(p, a)|, 0
  {
    var hasher := "";
    for j := 0 to |deps|
      invariant Buildable(DependsOf(p), a) ==> hasher == Concat(Digests(h, le, p, a, deps[..j]))
      invariant forall d :: d in deps[..j] ==> Answered(p, d)
    {
      var d := deps[j];
      assert d in deps && deps[..j + 1] == deps[..j] + [d];
      ReachRefl(Asks(p), d);
      NoCyclesBelow(p, a, d);
      if d !in p {
        ReachRefl(Depends(DependsOf(p)), d);
        return Err(d);
      }
      var digest := UniqueDigest(h, le, p, d);
      if digest.Err? {
        return digest;
      }
      if Buildable(DependsOf(p), a) {
        HashedOneMore(h, le, p, a, deps, j);
      }
      hasher := hasher + digest.value;
    }
    assert deps[..|deps|] == deps;
    r := Ok(hasher);
  }

  lemma HashedOneMore(h: Hash, le: Order, p: Project, a: Addr, deps: seq<Addr>, j: nat)
    requires a in p && TotalOrder(le) && Buildable(DependsOf(p), a) && j < |deps|
    requires forall d :: d in deps ==> d in p[a].depends
    ensures deps[j] in p && Buildable(DependsOf(p), deps[j])
    ensures Concat(Digests(h, le, p, a, deps[..j + 1])) == Concat(Digests(h, le, p, a, deps[..j])) + Digest(h, le, p, deps[j])
  {
    assert deps[..j + 1] == deps[..j] + [deps[j]];
    DigestsOneMore(h, le, p, a, deps[..j], deps[j]);
    ConcatAppend(Digests(h, le, p, a, deps[..j]), [Digest(h, le, p, deps[j])]);
    ConcatOne(Digest(h, le, p, deps[j]));
  }
}
