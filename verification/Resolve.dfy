/** Dependency resolution around the solver: building requirements and mapping the solution back to the declarations. */
module Resolve {
  import opened Prelude

  type Addr = string

  /** A candidate version together with the vendor that offers it. */
  datatype Candidate = Candidate(vendor: string, version: string)

  /** A declared requirement. */
  datatype Dependency = Dependency(addr: Addr, name: string, range: string, vendor: Option<string>)

  /** What the solver is asked for: one of the candidates of a package. */
  datatype Requirement = Requirement(name: string, candidates: seq<Candidate>)

  /** What the solver chose for a package. */
  datatype Solvable = Solvable(name: string, candidate: Candidate)

  datatype Resolved = Resolved(vendor: string, name: string, version: string)

  datatype ResolveError = NoRequirement(name: string) | Unsolvable

  /** The candidates known for each package. */
  type Pool = map<string, seq<Candidate>>

  /** The versions that each vendor offers for each package. */
  type Vendors = map<string, map<string, seq<string>>>

  /** Whether a version meets a range. */
  type Meets = (string, string) -> bool

  predicate Fits(meets: Meets, dep: Dependency, c: Candidate) {
    meets(dep.range, c.version) && (dep.vendor.Some? ==> dep.vendor.value == c.vendor)
  }

  /** Some known candidate meets the declaration. */
  ghost predicate HasFit(pool: Pool, meets: Meets, dep: Dependency) {
    dep.name in pool && exists c :: c in pool[dep.name] && Fits(meets, dep, c)
  }

  /** The candidates that meet the range and the vendor pin, in order. */
  function Matches(meets: Meets, dep: Dependency, candidates: seq<Candidate>): seq<Candidate> {
    if candidates == [] then []
    else
      var rest := Matches(meets, dep, candidates[..|candidates| - 1]);
      var c := candidates[|candidates| - 1];
      if Fits(meets, dep, c) then rest + [c] else rest
  }

  lemma {:induction false} MatchesFit(meets: Meets, dep: Dependency, candidates: seq<Candidate>, c: Candidate)
    ensures c in Matches(meets, dep, candidates) <==> c in candidates && Fits(meets, dep, c)
  {
    if candidates == [] {
    } else {
      var k := |candidates| - 1;
      MatchesFit(meets, dep, candidates[..k], c);
      assert candidates == candidates[..k] + [candidates[k]];
    }
  }

  /** What the solver is asked for on account of a declaration. */
  function Request(pool: Pool, meets: Meets, dep: Dependency): Requirement {
    Requirement(dep.name, if dep.name in pool then Matches(meets, dep, pool[dep.name]) else [])
  }

  /** One requirement per declaration, in their order. */
  function Requests(pool: Pool, meets: Meets, deps: seq<Dependency>): seq<Requirement> {
    if deps == [] then [] else Requests(pool, meets, deps[..|deps| - 1]) + [Request(pool, meets, deps[|deps| - 1])]
  }

  /** The requirements name the packages, and their candidates are exactly the known ones that fit. */
  lemma {:induction false} RequestsRight(pool: Pool, meets: Meets, deps: seq<Dependency>)
    ensures |Requests(pool, meets, deps)| == |deps|
    ensures forall i :: 0 <= i < |deps| ==>
              && Requests(pool, meets, deps)[i].name == deps[i].name
              && forall c :: c in Requests(pool, meets, deps)[i].candidates <==>
                   deps[i].name in pool && c in pool[deps[i].name] && Fits(meets, deps[i], c)
  {
    if deps == [] {
    } else {
      var k := |deps| - 1;
      RequestsRight(pool, meets, deps[..k]);
      forall c
        ensures c in Request(pool, meets, deps[k]).candidates <==>
                  deps[k].name in pool && c in pool[deps[k].name] && Fits(meets, deps[k], c)
      {
        if deps[k].name in pool {
          MatchesFit(meets, deps[k], pool[deps[k].name], c);
        }
      }
    }
  }

  /** Asks every vendor for the package; a package that no vendor was asked for stays unknown. */
  method BuildDb(pool: Pool, vendors: Vendors, name: string) returns (r: Pool)
    ensures if vendors == map[] then r == pool else name in r
    ensures forall n :: n != name ==> (n in r <==> n in pool) && (n in pool ==> r[n] == pool[n])
    ensures name in pool ==> name in r
    ensures name in r ==> forall c :: c in r[name] <==>
              || (name in pool && c in pool[name])
              || (c.vendor in vendors && name in vendors[c.vendor] && c.version in vendors[c.vendor][name])
  {
    r := pool;
    var todo := vendors.Keys;
    while todo != {}
      invariant todo <= vendors.Keys
      invariant todo != vendors.Keys ==> name in r
      invariant forall n :: n != name ==> (n in r <==> n in pool) && (n in pool ==> r[n] == pool[n])
      invariant name in pool ==> name in r
      invariant todo == vendors.Keys ==> r == pool
      invariant name in r ==> forall c :: c in r[name] <==>
                  || (name in pool && c in pool[name])
                  || (c.vendor in vendors.Keys - todo && name in vendors[c.vendor] && c.version in vendors[c.vendor][name])
    {
      var v :| v in todo;
      var versions := if name in vendors[v] then vendors[v][name] else [];
      var offered := Offered(v, versions);
      r := r[name := (if name in r then r[name] else []) + offered];
      todo := todo - {v};
    }
  }

  function Offered(vendor: string, versions: seq<string>): (r: seq<Candidate>)
    ensures forall c :: c in r <==> c.vendor == vendor && c.version in versions
  {
    if versions == [] then [] else [Candidate(vendor, versions[0])] + Offered(vendor, versions[1..])
  }

  /** Selects the candidates of a declared requirement; none is an error. */
  method BuildRequirement(pool: Pool, meets: Meets, dep: Dependency) returns (r: Result<Requirement, ResolveError>)
    ensures r.Ok? <==> HasFit(pool, meets, dep)
    ensures r.Ok? ==> r.value == Request(pool, meets, dep)
    ensures r.Ok? ==> forall c :: c in r.value.candidates <==> c in pool[dep.name] && Fits(meets, dep, c)
    ensures r.Err? ==> r.error == NoRequirement(dep.name)
  {
    if dep.name !in pool {
      return Err(NoRequirement(dep.name));
    }
    var candidates := pool[dep.name];
    var matches := [];
    for i := 0 to |candidates|
      invariant matches == Matches(meets, dep, candidates[..i])
    {
      assert candidates[..i + 1][..i] == candidates[..i];
      if Fits(meets, dep, candidates[i]) {
        matches := matches + [candidates[i]];
      }
    }
    assert candidates[..|candidates|] == candidates;
    forall c
      ensures c in matches <==> c in candidates && Fits(meets, dep, c)
    {
      MatchesFit(meets, dep, candidates, c);
    }
    if matches == [] {
      return Err(NoRequirement(dep.name));
    }
    assert matches[0] in matches;
    r := Ok(Requirement(dep.name, matches));
  }

  // Mapping a solution back

  /** The solver's contract: every requirement is met by a chosen candidate, and one is chosen per package. */
  ghost predicate Solves(vendors: Vendors, requirements: seq<Requirement>, solution: seq<Solvable>) {
    && (forall i :: 0 <= i < |requirements| ==>
          exists j :: 0 <= j < |solution| && solution[j].name == requirements[i].name
                      && solution[j].candidate in requirements[i].candidates)
    && (forall i, j :: 0 <= i < j < |solution| ==> solution[i].name != solution[j].name)
    && forall j :: 0 <= j < |solution| ==> solution[j].candidate.vendor in vendors
  }

  type Solver = seq<Requirement> -> Option<seq<Solvable>>

  ghost predicate Sound(vendors: Vendors, solver: Solver) {
    forall reqs :: solver(reqs).Some? ==> Solves(vendors, reqs, solver(reqs).value)
  }

  /** Declarations are grouped by package and vendor pin. */
  type Targets = map<(string, Option<string>), set<Addr>>

  function Grouped(deps: seq<Dependency>): Targets {
    if deps == [] then map[]
    else
      var prior := Grouped(deps[..|deps| - 1]);
      var d := deps[|deps| - 1];
      var key := (d.name, d.vendor);
      prior[key := (if key in prior then prior[key] else {}) + {d.addr}]
  }

  predicate Target(targets: Targets, name: string, vendor: Option<string>, addr: Addr) {
    (name, vendor) in targets && addr in targets[(name, vendor)]
  }

  lemma {:induction false} GroupedRight(deps: seq<Dependency>, name: string, vendor: Option<string>, addr: Addr)
    ensures Target(Grouped(deps), name, vendor, addr) <==>
              exists i :: 0 <= i < |deps| && deps[i].name == name && deps[i].vendor == vendor && deps[i].addr == addr
  {
    if deps == [] {
    } else {
      var k := |deps| - 1;
      GroupedRight(deps[..k], name, vendor, addr);
      assert forall i :: 0 <= i < k ==> deps[..k][i] == deps[i];
      assert (name, vendor) == (deps[k].name, deps[k].vendor) <==> name == deps[k].name && vendor == deps[k].vendor;
    }
  }

  function ResolvedTo(s: Solvable): Resolved {
    Resolved(s.candidate.vendor, s.name, s.candidate.version)
  }

  /** Everything grouped under the key gets the same result. */
  function Assign(found: map<Addr, Resolved>, targets: Targets, key: (string, Option<string>), r: Resolved): map<Addr, Resolved> {
    if key in targets then found + map a | a in targets[key] :: r else found
  }

  function Assigned(targets: Targets, solution: seq<Solvable>): map<Addr, Resolved> {
    if solution == [] then map[]
    else
      var prior := Assigned(targets, solution[..|solution| - 1]);
      var s := solution[|solution| - 1];
      var pinned := Assign(prior, targets, (s.name, Some(s.candidate.vendor)), ResolvedTo(s));
      Assign(pinned, targets, (s.name, None), ResolvedTo(s))
  }

  ghost predicate DistinctAddrs(deps: seq<Dependency>) {
    forall i, j :: 0 <= i < j < |deps| ==> deps[i].addr != deps[j].addr
  }

  /** The declaration is served by the solvable: same package, and the vendor pin, if any, is respected. */
  predicate Serves(s: Solvable, dep: Dependency) {
    s.name == dep.name && (dep.vendor.Some? ==> dep.vendor.value == s.candidate.vendor)
  }

  lemma AddrOnce(deps: seq<Dependency>, i: nat, name: string, vendor: Option<string>)
    requires DistinctAddrs(deps) && i < |deps|
    ensures Target(Grouped(deps), name, vendor, deps[i].addr) <==> deps[i].name == name && deps[i].vendor == vendor
  {
    GroupedRight(deps, name, vendor, deps[i].addr);
  }

  /** A declaration ends up with the one solvable that serves it; later solvables are of other packages. */
  lemma {:induction false} AssignedRight(deps: seq<Dependency>, solution: seq<Solvable>, i: nat, j: nat)
    requires DistinctAddrs(deps) && i < |deps| && j < |solution| && Serves(solution[j], deps[i])
    requires forall x, y :: 0 <= x < y < |solution| ==> solution[x].name != solution[y].name
    ensures var found := Assigned(Grouped(deps), solution);
            deps[i].addr in found && found[deps[i].addr] == ResolvedTo(solution[j])
    decreases |solution|
  {
    var k := |solution| - 1;
    var s := solution[k];
    AddrOnce(deps, i, s.name, Some(s.candidate.vendor));
    AddrOnce(deps, i, s.name, None);
    if j < k {
      AssignedRight(deps, solution[..k], i, j);
    }
  }

  lemma {:induction false} AssignedOnlyTargets(deps: seq<Dependency>, solution: seq<Solvable>, addr: Addr)
    requires addr in Assigned(Grouped(deps), solution)
    ensures exists i :: 0 <= i < |deps| && deps[i].addr == addr
    decreases |solution|
  {
    var k := |solution| - 1;
    var s := solution[k];
    GroupedRight(deps, s.name, Some(s.candidate.vendor), addr);
    GroupedRight(deps, s.name, None, addr);
    if addr in Assigned(Grouped(deps), solution[..k]) {
      AssignedOnlyTargets(deps, solution[..k], addr);
    }
  }

  /** The result meets the declaration: its package, its range, its pin, and it is on offer. */
  ghost predicate Meeting(pool: Pool, meets: Meets, dep: Dependency, r: Resolved) {
    && r.name == dep.name && dep.name in pool && Candidate(r.vendor, r.version) in pool[dep.name]
    && meets(dep.range, r.version) && (dep.vendor.Some? ==> dep.vendor.value == r.vendor)
  }

  /** Every declared address is resolved, and to a version that meets its own declaration. */
  ghost predicate AllMeeting(pool: Pool, meets: Meets, deps: seq<Dependency>, found: map<Addr, Resolved>) {
    && (forall i :: 0 <= i < |deps| ==> deps[i].addr in found && Meeting(pool, meets, deps[i], found[deps[i].addr]))
    && forall addr :: addr in found ==> exists i :: 0 <= i < |deps| && deps[i].addr == addr
  }

  ghost predicate FirstWithoutFit(pool: Pool, meets: Meets, deps: seq<Dependency>, i: nat) {
    i < |deps| && !HasFit(pool, meets, deps[i]) && forall k :: 0 <= k < i ==> HasFit(pool, meets, deps[k])
  }

  /** Every declaration gets what the solver has chosen for its package. */
  ghost predicate Follows(deps: seq<Dependency>, solution: seq<Solvable>, found: map<Addr, Resolved>) {
    forall i :: 0 <= i < |deps| ==>
      deps[i].addr in found &&
      exists j :: 0 <= j < |solution| && Serves(solution[j], deps[i]) && found[deps[i].addr] == ResolvedTo(solution[j])
  }

  /** One requirement per declaration, or the first error. */
  method BuildRequirements(pool: Pool, meets: Meets, deps: seq<Dependency>) returns (r: Result<seq<Requirement>, ResolveError>)
    ensures r.Ok? <==> forall i :: 0 <= i < |deps| ==> HasFit(pool, meets, deps[i])
    ensures r.Err? ==> exists i :: 0 <= i < |deps| && FirstWithoutFit(pool, meets, deps, i) && r.error == NoRequirement(deps[i].name)
    ensures r.Ok? ==> r.value == Requests(pool, meets, deps)
  {
    var requirements: seq<Requirement> := [];
    for i := 0 to |deps|
      invariant requirements == Requests(pool, meets, deps[..i])
      invariant forall k :: 0 <= k < i ==> HasFit(pool, meets, deps[k])
    {
      assert deps[..i + 1][..i] == deps[..i];
      var requirement := BuildRequirement(pool, meets, deps[i]);
      if requirement.Err? {
        assert FirstWithoutFit(pool, meets, deps, i);
        return Err(requirement.error);
      }
      requirements := requirements + [requirement.value];
    }
    assert deps[..|deps|] == deps;
    r := Ok(requirements);
  }

  /** Groups the declarations, asks the solver, and maps the chosen versions back to the declared addresses. */
  method Resolve(pool: Pool, vendors: Vendors, meets: Meets, deps: seq<Dependency>, solver: Solver)
    returns (r: Result<map<Addr, Resolved>, ResolveError>)
    requires Sound(vendors, solver) && DistinctAddrs(deps)
    ensures r.Ok? ==> AllMeeting(pool, meets, deps, r.value)
    ensures r.Err? && r.error.NoRequirement? <==> exists i :: 0 <= i < |deps| && !HasFit(pool, meets, deps[i])
    ensures r.Err? && r.error.Unsolvable? <==>
              (forall i :: 0 <= i < |deps| ==> HasFit(pool, meets, deps[i])) && solver(Requests(pool, meets, deps)).None?
    ensures r.Ok? ==> solver(Requests(pool, meets, deps)).Some? &&
                      Follows(deps, solver(Requests(pool, meets, deps)).value, r.value)
    ensures r.Ok? ==> forall addr :: addr in r.value ==> r.value[addr].vendor in vendors
  {
    var targets: Targets := map[];
    for i := 0 to |deps|
      invariant targets == Grouped(deps[..i])
    {
      assert deps[..i + 1][..i] == deps[..i];
      var key := (deps[i].name, deps[i].vendor);
      targets := targets[key := (if key in targets then targets[key] else {}) + {deps[i].addr}];
    }
    assert deps[..|deps|] == deps;
    var requirements := BuildRequirements(pool, meets, deps);
    if requirements.Err? {
      return Err(requirements.error);
    }
    var solution := solver(requirements.value);
    if solution.None? {
      return Err(Unsolvable);
    }
    var found := MapBack(vendors, targets, solution.value);
    RequestsRight(pool, meets, deps);
    AllServed(pool, vendors, meets, deps, requirements.value, solution.value);
    r := Ok(found);
  }

  method MapBack(vendors: Vendors, targets: Targets, solution: seq<Solvable>) returns (found: map<Addr, Resolved>)
    requires forall j :: 0 <= j < |solution| ==> solution[j].candidate.vendor in vendors
    ensures found == Assigned(targets, solution)
    ensures forall addr :: addr in found ==> found[addr].vendor in vendors
  {
    found := map[];
    for k := 0 to |solution|
      invariant found == Assigned(targets, solution[..k])
      invariant forall addr :: addr in found ==> found[addr].vendor in vendors
    {
      assert solution[..k + 1][..k] == solution[..k];
      var s := solution[k];
      found := Assign(found, targets, (s.name, Some(s.candidate.vendor)), ResolvedTo(s));
      found := Assign(found, targets, (s.name, None), ResolvedTo(s));
    }
    assert solution[..|solution|] == solution;
  }

  lemma AllServed(
    pool: Pool, vendors: Vendors, meets: Meets, deps: seq<Dependency>, requirements: seq<Requirement>, solution: seq<Solvable>)
    requires DistinctAddrs(deps) && Solves(vendors, requirements, solution) && |requirements| == |deps|
    requires forall i :: 0 <= i < |deps| ==>
               && requirements[i].name == deps[i].name && deps[i].name in pool
               && forall c :: c in requirements[i].candidates ==> c in pool[deps[i].name] && Fits(meets, deps[i], c)
    ensures AllMeeting(pool, meets, deps, Assigned(Grouped(deps), solution))
    ensures Follows(deps, solution, Assigned(Grouped(deps), solution))
  {
    var found := Assigned(Grouped(deps), solution);
    forall i | 0 <= i < |deps|
      ensures deps[i].addr in found && Meeting(pool, meets, deps[i], found[deps[i].addr])
      ensures exists j :: 0 <= j < |solution| && Serves(solution[j], deps[i]) && found[deps[i].addr] == ResolvedTo(solution[j])
    {
      var j :| 0 <= j < |solution| && solution[j].name == requirements[i].name
               && solution[j].candidate in requirements[i].candidates;
      assert Fits(meets, deps[i], solution[j].candidate);
      AssignedRight(deps, solution, i, j);
      assert Candidate(solution[j].candidate.vendor, solution[j].candidate.version) == solution[j].candidate;
    }
    forall addr | addr in found
      ensures exists i :: 0 <= i < |deps| && deps[i].addr == addr
    {
      AssignedOnlyTargets(deps, solution, addr);
    }
  }
}
