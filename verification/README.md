# Edo's build engine, modelled and verified in Dafny

Edo builds a target by inserting its transform and everything it depends on into a DAG, fetching what is
already built, and running the rest on a bounded worker pool; results are content-addressed artifacts in a
layered store. This project models four connected parts of that engine and proves what they are meant to
guarantee. `dafny verify dfyconfig.toml` checks all of it.

**Scheduler.** `GraphBuild` is the construction of the graph: the class `Graph` with the recursive insertion, the
per-root dependency slice and the indegree template. `Scheduler` is a run of the graph as a transition system with
steps for dispatch, worker take, worker finish (success or failure), receive, token check and cancellation;
completion order and the moment of cancellation are arbitrary. `SchedulerInvariant` holds the inductive invariant,
`SchedulerTheorems` what follows from it for every run. `Driver` and `Engine` are the code of `run` (cascade, child
walk, pool saturation, receive loop) as loops over the driver's variables, each of which is proved to take only steps
of the transition system, and to terminate whatever the pool does. What transforms result in and when the token is
fired is an environment that the driver only observes, and the report is characterised by it. `Schedule` puts insertion and run together, and
`HitRerun` is one concrete run. `WorkerPanics` extends the transition system by workers that die. `Relations` and `Multigraph` hold the theory of paths, acyclicity and parallel edges.

**Store.** `Catalogs` is the catalog with its prefix index and blob counts, `LocalStore` the backend's files and the
invariant over every history of operations, `LocalBackend` the backend as a class that refines it, `Transfer` the
copying of artifacts between caches, `Results` what transforms save and dependents unpack, `Sharing` the way of a result over a shared build cache, `Availability` the
scheduler and the store in one world, `StoreRace` concurrent saves and deletions at the granularity of the catalog
lock, `CalmRace`, `DanglingRuns` and `PairRace` when these can leave a manifest without its blobs, `SweepCollision` when a
deletion can fail, and `CatalogFile` the catalog as text.

**Identity, resolution and locking.** `Merkle` is the transform digest over the DAG, `Resolve` the code around the
version solver, `LockReplay` project loading with its shared mutable nodes, the lock file and its replay.

**Codecs and chunked transfer.** `Ids`, `MediaTypes` and `Strings` are the two parser/printer pairs, `ObjectTransfer`
the polling range reader and the multipart upload.

## Conventions

- A pair `(u, v)` reads "`v` depends on `u`". Edges are a sequence, so a dependency listed twice gives two edges.
- What the program takes from outside is a parameter: hash functions, the version solver (with its contract `Sound`:
  some chosen candidate for each requirement, at most one per package), vendors, the server's answers, the order in
  which tasks finish, the recogniser of semantic versions, the total order on addresses.
- Preconditions on a run are what insertion and configuration provide (`WellFormed`: acyclic edges, a slice closed
  under dependencies, at least one worker). `Schedule.RecordedRoot` derives them from what `add` records.

## Where the code departs from its comments or its purpose

The model follows the code.

- `crates/edo/src/scheduler/graph.rs:469-470` says that `ready` never holds a cache hit. It can:
  `HitRerun.HitBecomesReady` is a run in which it does. `SchedulerTheorems.HitsWaitForMisses` says that in every state
  such a hit has a dependency that is no hit, and `SchedulerTheorems.HitsRunAgain` that in a run that completes exactly
  these hits are run again.
- `crates/edo/src/scheduler/graph.rs:25-26` calls a graph after a failed phase not corrupt. After a failed `add` the
  graph is sound but half-wired, and later calls take the half-wired nodes for granted. `GraphBuild.Graph.Add` says for
  every history when exactly a call succeeds; `GraphBuild.RetryAfterFailure` and `GraphBuild.DependentAfterFailure` are
  two families of inputs that succeed although they are not buildable. `Schedule.BuildTarget` says what the success of
  a run means then: the recorded slice, not the declared closure. A circular address that was refused stays in the graph
  (`GraphBuild.Graph.Add`), so that `fetch` asks for its id, and that computation does not end (`Merkle.CircularHasNoId`).
- `crates/edo/src/scheduler/graph.rs:549-550` says that panics of workers surface when they are joined. The join is only
  reached when no worker has panicked (`WorkerPanics.JoinsOnlyTheLiving`). After a panic the run ends with an internal
  error once all workers are dead, and hangs otherwise: `WorkerPanics.HangsExactlyWhenLost` gives the exact condition on
  a state, `WorkerPanics.CanHang` the one on a plan.
- `crates/edo/src/scheduler/graph.rs:248-249` reads the flag of `find_build` as "full artifacts only". The flag asks
  for synchronisation; a copy that cannot be completed is an error and not a miss (`Transfer.FindBuild`).
- `crates/edo/src/storage/local.rs:129-138` validates the layers of a save before the lock is taken.
  `PairRace.SaveCanDangle` is a run in which a concurrent deletion leaves the saved manifest without its blob.
  `PairRace.DanglesAlone` gives the exact condition for one save and one deletion that are alone with the store,
  `DanglingRuns.DanglesUnaided` the one for any number of both. While other processes may store blobs, a missing layer of
  a save can still turn up before it is checked; the conditions are then `PairRace.DanglesExactlyWhenContested` and
  `DanglingRuns.DanglesExactlyWhenEndangered`.
- `crates/edo/src/storage/local.rs:168-173` looks for a blob and then removes it under a lock that other deletions may
  share. The removal fails when another deletion was faster: `SweepCollision.FailsExactlyWhenColliding` says when that
  can happen.
- Saving an identifier again counts its old layers once more. `Catalogs.ExactCounts` gives the exact condition
  under which counts stay exact; that they never fall short needs no condition.
- The key `"*"` of the index is also a possible prefix. `Catalogs.MatchingRight` gives the exact condition under
  which the prefix lookup is right in spite of that, and `LocalBackend.PruneStar` shows what pruning does otherwise.
- `crates/core/src/transform/script.rs:109-110` describes the digest as one over the sources and the script. Nothing
  marks where the dependencies end, where a source ends and where the script begins
  (`Merkle.DependenciesRunIntoSources`, `Merkle.SourcesRunTogether`, `Merkle.SourcesRunIntoCommands`). Digests of
  transforms have a fixed length, those of sources do not: that of a git source is its encoded reference
  (`crates/core/src/source/git.rs:67`). `Merkle.PayloadsAgree` says exactly which payloads are the same.
- The parser of identifiers (`crates/edo/src/storage/id.rs:137-184`) has to read what the printer wrote into the catalog
  file. `Ids.RoundTrip` says on which identifiers it gives them back: exactly on those without a version whose fields
  hold no separator in the wrong place. On a released version in an otherwise harmless identifier the parser even
  panics (`Ids.VersionedPanics`). A catalog survives exactly when all its identifiers and media types do
  (`CatalogFile.SurvivesExactly`), and one saved identifier with a version can make all of it unreadable
  (`CatalogFile.VersionedUnloadable`).
- `crates/edo/src/context/builder.rs:200-201` overwrites the build and output cache with every file that is read, also with
  none; which file is read last is up to the directory listing (`LockReplay.LastFileDecides`).
- A build from a lock (`crates/edo/src/context/builder.rs:242-249`) returns before the declared caches are registered
  (`crates/edo/src/context/builder.rs:255-266`), so it works without them: `LockReplay.Build` says that a successful build
  registers them exactly when no lock applies.

## Model

| member | source | states |
|---|---|---|
| `GraphBuild.Graph.AddEdge` | crates/edo/src/scheduler/graph.rs:151-153 | the edge is refused exactly when its target already reaches its source; the graph stays acyclic |
| `GraphBuild.Graph.AddRecursive` | crates/edo/src/scheduler/graph.rs:132-156 | terminates on every registry, circular ones included; on success every new node has exactly one edge per `depends` entry, in order and with repetition, and edges into older nodes are untouched; an error names a missing or circular address among the dependencies that were not inserted before |
| `GraphBuild.Graph.Add` | crates/edo/src/scheduler/graph.rs:172-207 | after every history, failed insertions included, succeeds if and only if the address is buildable when the dependencies of inserted addresses are taken for granted, and errors are explained in the same terms; after successful insertions this is that every address reachable through `depends` is registered and none is circular; the slices and templates of all recorded roots agree with the edges and those of other roots are unchanged; every node that is added belongs to the address or to something it depends on |
| `GraphBuild.WiredMeansBuildable` | crates/edo/src/scheduler/graph.rs:148-154 | an acyclic graph whose new nodes are completely wired proves the address buildable from what was known before, although cycles are only noticed while the recursion unwinds |
| `GraphBuild.CycleFound` | crates/edo/src/scheduler/graph.rs:151-153 | a refused edge exposes a circular dependency that runs through new addresses only |
| `GraphBuild.CollectSlice` | crates/edo/src/scheduler/graph.rs:179-187 | the breadth-first walk collects exactly the nodes that reach the root |
| `GraphBuild.SliceIsClosure` | crates/edo/src/scheduler/graph.rs:174-187 | the stored slice is exactly the reflexive-transitive closure of the declared dependencies |
| `GraphBuild.SliceCountsAllParents` | crates/edo/src/scheduler/graph.rs:189-202 | counting in-slice parents only leaves no edge out: the template is the full indegree with multiplicity |
| `GraphBuild.Graph.Describe` | crates/edo/src/scheduler/graph.rs:174-206 | records the slice and template of a root and leaves other roots alone |
| `GraphBuild.SliceIsStable` | crates/edo/src/scheduler/graph.rs:172-207 | growing the graph above the existing nodes changes no earlier slice |
| `GraphBuild.DescribedStays` | crates/edo/src/scheduler/graph.rs:204-206 | no later insertion invalidates the slice or template of an earlier root |
| `GraphBuild.RetryAfterFailure` | crates/edo/src/scheduler/graph.rs:133-143 | after a failed insertion, inserting the address again succeeds exactly when it is registered, although it is not buildable |
| `GraphBuild.DependentAfterFailure` | crates/edo/src/scheduler/graph.rs:133-143 | after a failed insertion, an address that depends on the failed one is inserted without an error, although it is not buildable |
| `GraphBuild.SelfDependency` | crates/edo/src/scheduler/graph.rs:148-154 | a transform that depends on itself is registered and not buildable |
| `Scheduler.WalkIsExact` | crates/edo/src/scheduler/graph.rs:516-525 | while no counter is smaller than its number of decrements, the walk subtracts exactly and pushes exactly the nodes whose counter runs out, each once |
| `SchedulerInvariant.StepKeeps` | crates/edo/src/scheduler/graph.rs:477-548 | every step of driver, worker or token keeps the invariant: conservation of dispatched work, right counters, right statuses, nothing stranded, first error latched |
| `SchedulerInvariant.SettleCounters` | crates/edo/src/scheduler/graph.rs:369-389 | settling a node and walking its children leaves every counter at the number of its unsettled incoming edges and releases exactly the nodes that stop waiting |
| `SchedulerInvariant.ReachableHolds` | crates/edo/src/scheduler/graph.rs:473-548 | the invariant holds in every reachable state of every interleaving |
| `SchedulerTheorems.DispatchedInOrder` | crates/edo/src/scheduler/graph.rs:477-527 | every node is dispatched at most once and only after everything it transitively depends on has succeeded |
| `SchedulerTheorems.FailureBlocksDescendants` | crates/edo/src/scheduler/graph.rs:528-541 | no descendant of a failed node is ever dispatched |
| `SchedulerTheorems.CountersNeverSaturate` | crates/edo/src/scheduler/graph.rs:516-525 | a counter is never smaller than the decrements it is about to get, so the saturating subtraction never saturates |
| `SchedulerTheorems.NoStrandedWork` | crates/edo/src/scheduler/graph.rs:477-565 | a loop that ends without failure and cancellation has brought the whole slice to success and has dispatched exactly the nodes that the cascade did not promote |
| `SchedulerTheorems.HitsRunAgain` | crates/edo/src/scheduler/graph.rs:468-470 | in a run that completes, a cache hit is dispatched if and only if one of its transitive dependencies is not a hit |
| `SchedulerTheorems.HitsWaitForMisses` | crates/edo/src/scheduler/graph.rs:468-470 | in every reachable state a cache hit that is ready or dispatched has a transitive dependency that is not a hit |
| `HitRerun.HitBecomesReady` | crates/edo/src/scheduler/graph.rs:516-525 | a reachable state of a two-node run in which a cache hit is in `ready` |
| `SchedulerTheorems.WithinBounds` | crates/edo/src/scheduler/graph.rs:401-463 | in-flight equals queued plus running plus undelivered and never exceeds the batch size; no send ever finds its channel full |
| `SchedulerTheorems.NoDeadlock` | crates/edo/src/scheduler/graph.rs:477-507 | until the driver leaves its loop some step other than a cancellation is enabled |
| `SchedulerTheorems.RunsTerminate` | crates/edo/src/scheduler/graph.rs:477-548 | every interleaving has at most one receive per slice node and linearly many steps |
| `SchedulerTheorems.FailFast` | crates/edo/src/scheduler/graph.rs:482-563 | after a failure or cancellation nothing is dispatched, the reported error is the first one received, it wins over a cancellation, a cancellation is reported exactly when there is no error, and success exactly when there is neither |
| `SchedulerTheorems.RunInOrder` | crates/edo/src/scheduler/graph.rs:487-508 | what becomes ready is dispatched in that order while the run is not stopped, and what is reported is received in that order |
| `SchedulerTheorems.StatusMovesForward` | crates/edo/src/scheduler/node.rs:94-111 | within a run the status of a dispatched or promoted node only moves from running to an end state |
| `SchedulerTheorems.StatusNeverGoesBack` | crates/edo/src/scheduler/node.rs:94-111 | over a run of fresh nodes no status ever goes back |
| `Driver.Walk` | crates/edo/src/scheduler/graph.rs:373-383 | the child loop decrements once per edge inside the slice and pushes each counter that reaches zero |
| `Driver.PromoteOne` | crates/edo/src/scheduler/graph.rs:369-383 | promoting a leaf that is a hit keeps counters, frontier and disjointness of the cascade |
| `Driver.CascadeComplete` | crates/edo/src/scheduler/graph.rs:364-389 | an empty cascade has promoted exactly the hits whose transitive dependencies are all hits, and `ready` holds exactly the other nodes that wait for nothing |
| `Driver.CascadeOne` | crates/edo/src/scheduler/graph.rs:369-389 | one turn of the cascade promotes a hit and passes on anything else, and keeps the cascade right |
| `Driver.Cascade` | crates/edo/src/scheduler/graph.rs:364-389 | the loop terminates and leaves the driver in an initial state of the transition system, with exactly those nodes promoted |
| `Engine.ReceiveCompletion` | crates/edo/src/scheduler/graph.rs:507-541 | the body of the receive loop, statement by statement, is the receive step |
| `Engine.Saturate` | crates/edo/src/scheduler/graph.rs:482-494 | feeding the pool takes dispatch steps until nothing more may be dispatched |
| `Engine.DriverObeys` | crates/edo/src/scheduler/graph.rs:482-547 | no step of the driver fires the token or changes a report |
| `Engine.Pool` | crates/edo/src/scheduler/graph.rs:412-458 | any number of worker steps, which report what the transforms result in, and the token exactly when the environment fires it; a driver that waits always gets a completion |
| `Engine.Turn` | crates/edo/src/scheduler/graph.rs:477-548 | one turn of the loop is a run of the transition system that uses up some of a bounded measure |
| `Engine.ExitReports` | crates/edo/src/scheduler/graph.rs:556-565 | a run reports a failure if and only if a dispatched transform fails, and then the error of one; it reports a cancellation if and only if somebody fired the token and no dispatched transform fails |
| `Engine.RunRoot` | crates/edo/src/scheduler/graph.rs:323-565 | `run` terminates under every behaviour of workers and token and reports as above; it does nothing for a root that is a hit, and otherwise success means that the whole slice succeeded; an undisturbed run succeeds |
| `Schedule.RecordedRoot` | crates/edo/src/scheduler/graph.rs:346-354 | what `add` recorded for a root is what a run needs |
| `Schedule.BuildTarget` | crates/edo/src/scheduler/graph.rs:16-23 | insertion and run in one, after any history of insertions: reported success of an uncached target means that its recorded slice has succeeded; after successful insertions that is everything it declares to depend on, directly or not, and the build is refused exactly on missing or circular dependencies; what is not refused succeeds if it is cached or undisturbed |
| `Schedule.BuildAfterFailure` | crates/edo/src/scheduler/graph.rs:25-26 | after a failed insertion the same target is run, and its success is about the half-wired slice only |
| `WorkerPanics.HangsExactlyWhenLost` | crates/edo/src/scheduler/graph.rs:503-506 | when workers may panic, nothing but the token can move any more if and only if the driver waits, nothing is queued or reported, all running nodes are held by dead workers, and some worker is left |
| `WorkerPanics.JoinsOnlyTheLiving` | crates/edo/src/scheduler/graph.rs:549-554 | the loop is left only when no worker has panicked |
| `WorkerPanics.PanicHangs` | crates/edo/src/scheduler/graph.rs:503-506 | after a panic with a worker left, the run goes on to where it hangs |
| `WorkerPanics.CanHang` | crates/edo/src/scheduler/graph.rs:412-458 | some run of a plan hangs if and only if there are two workers or more and some node is not promoted |
| `Availability.InputsAvailable` | crates/edo/src/scheduler/graph.rs:477-527 | in every interleaving of driver, workers, token and additive store operations, the artifacts of everything a dispatched node transitively depends on can be opened and all their layers read locally |
| `Availability.OutputsAvailable` | crates/edo/src/scheduler/graph.rs:477-565 | after a run that reports success the artifact of every slice node can be opened and all its layers read locally |
| `Availability.EventKeeps` | crates/core/src/transform/script.rs:192-250 | every scheduler step and store operation keeps results of settled nodes in an intact local cache |
| `Availability.FetchHits` | crates/edo/src/scheduler/graph.rs:237-257 | the nodes marked as hits are exactly those whose id was in the local or the build cache, and all of them are in the local cache afterwards; it fails only if some artifact of the build cache is missing locally and cannot be copied |
| `Availability.FetchForRuns` | crates/edo/src/scheduler/graph.rs:226-257 | after `fetch`, every run with its hits finds the inputs of what it dispatches, and leaves all artifacts of the slice in the local cache when it reports success |
| `Catalogs.AddedKeeps` | crates/edo/src/storage/catalog.rs:41-56 | insertion keeps the catalog consistent: the index is the manifests grouped by prefix, every count is positive and at least the number of references |
| `Catalogs.RemovedKeeps` | crates/edo/src/storage/catalog.rs:65-84 | removal does so too |
| `Catalogs.RemovedReferences` | crates/edo/src/storage/catalog.rs:73-83 | conservation: a removal lowers every count by exactly the references it takes away |
| `Catalogs.ExactCounts` | crates/edo/src/storage/catalog.rs:52-55 | removal keeps exact counts exact; insertion does so if and only if the identifier is new or its old manifest had no layers |
| `Catalogs.MatchingRight` | crates/edo/src/storage/catalog.rs:36-38 | the prefix lookup returns exactly the identifiers with that prefix if and only if the prefix is not `*` or every identifier has it |
| `Catalogs.StarMatchesEverything` | crates/edo/src/storage/catalog.rs:36-38 | an identifier with a well-formed name has that prefix, and its lookup returns the whole catalog |
| `Catalogs.Catalog.Add` | crates/edo/src/storage/catalog.rs:41-56 | the three tables after the in-place updates, and consistency kept |
| `Catalogs.Catalog.Del` | crates/edo/src/storage/catalog.rs:65-84 | the three tables after the in-place updates, and consistency kept |
| `LocalStore.SaveKeeps` | crates/edo/src/storage/local.rs:128-146 | a save keeps the store intact |
| `LocalStore.DelKeeps` | crates/edo/src/storage/local.rs:148-177 | a deletion keeps the store intact: the sweep removes no blob that a remaining manifest names |
| `LocalStore.CopyShares` | crates/edo/src/storage/local.rs:179-188 | in an intact store a copy succeeds exactly when its source exists; it carries the new identifier and the same layers, every other manifest and every blob stays |
| `LocalStore.DelReclaims` | crates/edo/src/storage/local.rs:165-175 | with exact counts a deletion removes exactly the artifact's blobs that no other manifest uses |
| `LocalStore.HistoryKeeps` | crates/edo/src/storage/local.rs:128-281 | after every sequence of start, write, finish, save, del, copy, prune and prune_all: blobs hash to their names, every layer has its blob, index and counts are right, writers agree with their files |
| `LocalStore.FreshHistory` | crates/edo/src/storage/local.rs:61-76 | this holds from a fresh backend on |
| `LocalBackend.Backend.Save` | crates/edo/src/storage/local.rs:128-146 | refines the save; fails with the first missing layer and then changes nothing |
| `LocalBackend.Backend.Del` | crates/edo/src/storage/local.rs:148-177 | refines the deletion and its sweep |
| `LocalBackend.Backend.Copy` | crates/edo/src/storage/local.rs:179-188 | refines the copy, a missing source included |
| `LocalBackend.Backend.Prune` | crates/edo/src/storage/local.rs:190-214 | removes exactly the other artifacts listed under the prefix, in whatever order |
| `LocalBackend.PruneStar` | crates/edo/src/storage/local.rs:190-214 | pruning around that identifier deletes every other artifact |
| `LocalBackend.DelAllManifests` | crates/edo/src/storage/local.rs:198-213 | deleting identifiers one after the other removes exactly their manifests |
| `LocalBackend.Backend.PruneAll` | crates/edo/src/storage/local.rs:217-226 | empties catalog and blob directory, failing at the first of the two that is missing, and keeps the store intact in all cases |
| `LocalStore.PruneAllEmpties` | crates/edo/src/storage/local.rs:217-226 | pruning everything succeeds exactly when catalog and blob directory exist, and then leaves no manifest and no blob |
| `LocalBackend.Backend.PollWrite` | crates/edo/src/util/writer.rs:70-85 | only the accepted part of a buffer is hashed and counted, so hash and size follow the file |
| `LocalBackend.Backend.FinishLayer` | crates/edo/src/storage/local.rs:253-281 | the blob holds exactly what was written, under the hash of that, and the layer records its digest and size, and media type and platform as given |
| `Results.SaveResult` | crates/core/src/transform/script.rs:218-249 | the output of a transform is saved as one archive layer under its id, with its platform and exactly its bytes, whenever the blob directory exists; nothing else changes |
| `Results.StageOne` | crates/core/src/transform/script.rs:168-182 | staging a dependency succeeds exactly when its artifact opens, and unpacks its archives in order |
| `Results.SaveThenStage` | crates/core/src/transform/compose.rs:86-144 | what a dependent unpacks is byte for byte what the transform has saved |
| `Transfer.CopyBytes` | crates/edo/src/storage/mod.rs:175 | for every split into partial writes the temporary file ends up with the data |
| `Transfer.Download` | crates/edo/src/storage/mod.rs:163-183 | succeeds if and only if all layers can be read and each digest is present or arrives; then the catalog gains exactly that manifest and every layer's blob hashes to its digest; otherwise the catalog is unchanged; no blob is lost, and none is gained that does not arrive |
| `Transfer.FetchedEnough` | crates/edo/src/storage/mod.rs:164-181 | the outcome does not depend on the order in which the copies finish |
| `Transfer.FindBuild` | crates/edo/src/storage/mod.rs:242-270 | local before build cache; when synchronised, the local cache opens what was returned; an error exactly when the copy is impossible; nothing else changes |
| `Transfer.FindSource` | crates/edo/src/storage/mod.rs:231-238 | the first cache in priority order that has the artifact |
| `Transfer.FetchSource` | crates/edo/src/storage/mod.rs:209-227 | local before the source caches; a returned artifact can be opened locally and is the one of the first source cache that has it; an error exactly when that one cannot be copied; nothing else changes |
| `Sharing.IntactIsDownloadable` | crates/edo/src/storage/mod.rs:185-205 | whatever an intact backend holds can be copied to another one exactly when that has its directory or there is no layer to copy |
| `Sharing.Upload` | crates/edo/src/storage/mod.rs:185-205 | an upload from an intact cache succeeds exactly when the artifact exists and the target has its directory or the artifact no layer, and adds exactly that manifest |
| `Sharing.PublishThenFind` | crates/edo/src/storage/mod.rs:242-281 | a result published to a build cache is found elsewhere with the same manifest and verified layers |
| `StoreRace.NoLostUpdate` | crates/edo/src/storage/local.rs:139-164 | in every interleaving of saves and deletions the catalog on disk is the committed operations in some sequential order, each exactly once |
| `StoreRace.RemovalIsSafe` | crates/edo/src/storage/local.rs:165-175 | no step removes a blob that the catalog references at that moment |
| `CalmRace.CalmRunsStayBacked` | crates/edo/src/storage/local.rs:128-177 | in every interleaving in which no sweep removes a blob between its check and the commit of a save, every manifest has its blobs |
| `CalmRace.ApartStaysBacked` | crates/edo/src/storage/local.rs:128-177 | when no layer list that a deletion may come to sweep shares a digest with a save, every manifest has its blobs in every interleaving |
| `DanglingRuns.Dangles` | crates/edo/src/storage/local.rs:128-177 | for every endangered save, an interleaving of all the calls involved after which its manifest lacks its blob |
| `DanglingRuns.RaceEndangers` | crates/edo/src/storage/local.rs:165-175 | every removal of a blob that a save has checked shows that the jobs and the initial catalog endanger the save |
| `DanglingRuns.DanglesExactlyWhenEndangered` | crates/edo/src/storage/local.rs:128-177 | while other processes may store blobs, any number of concurrent saves and deletions can leave a manifest without its blob if and only if some of them, done one after the other from the initial catalog, leave a swept digest uncounted that a remaining save names |
| `DanglingRuns.DanglesUnaided` | crates/edo/src/storage/local.rs:128-177 | when nobody else touches the store, the same condition on the saves that find all their layers at the start, and on the deletions |
| `SweepCollision.FailsExactlyWhenColliding` | crates/edo/src/storage/local.rs:165-175 | while other processes may store blobs, a deletion can fail if and only if some of the jobs, done one after the other, leave two deletions with the same uncounted digest to sweep |
| `PairRace.DanglesExactlyWhenContested` | crates/edo/src/storage/local.rs:128-177 | while other processes may store blobs, one save and one deletion can leave a manifest without its blob if and only if the artifact to delete exists, both name a digest, and it is not counted once the artifact is removed |
| `PairRace.DanglesAlone` | crates/edo/src/storage/local.rs:128-177 | when the two are alone with the store, they can if and only if besides the save finds all its layers at the start |
| `PairRace.SaveCanDangle` | crates/edo/src/storage/local.rs:129-141 | a concrete interleaving after which a saved manifest lacks its blob |
| `CatalogFile.CatalogSurvives` | crates/edo/src/storage/local.rs:81-100 | flushing and loading gives back exactly the catalog, for catalogs whose identifiers and media types parse back, with all of their manifests' configuration |
| `CatalogFile.SurvivesExactly` | crates/edo/src/storage/local.rs:81-100 | a catalog survives flushing and loading if and only if it is of that kind |
| `CatalogFile.VersionedUnloadable` | crates/edo/src/storage/local.rs:81-89 | one manifest under an identifier with a version, and a package or no plus in its text, makes the flushed catalog unreadable |
| `CatalogFile.LoadUnique` | crates/edo/src/storage/local.rs:81-89 | loading is a function of the text |
| `CatalogFile.LayerTexts` | crates/edo/src/storage/artifact.rs:261-283 | how a layer is written, and which texts of layers are read |
| `CatalogFile.FileCodecInverts` | crates/edo/src/storage/id.rs:207-225 | identifiers and manifests of such catalogs are inverted by the textual codec |
| `Merkle.DependencyIsSmaller` | crates/core/src/transform/script.rs:114-121 | the id recursion terminates on every graph that insertion accepts |
| `Merkle.IdEndsExactly` | crates/core/src/transform/script.rs:114-121 | when no address is missing, computing an id ends if and only if no transform that it asks for, directly or not, asks for itself |
| `Merkle.CircularHasNoId` | crates/core/src/transform/script.rs:114-121 | no depth of nested calls is enough for the id of an address that insertion refused as circular |
| `Merkle.PayloadDiffers` | crates/core/src/transform/script.rs:112-128 | a dependency with another digest changes what is hashed, wherever it sorts and however long the rest is |
| `Merkle.PayloadsAgree` | crates/core/src/transform/script.rs:112-128 | the payloads of any two scripts or compositions are the same if and only if the dependency digests of the one begin those of the other and what follows in the one is the remaining digests and what follows in the other |
| `Merkle.FixedPayloadsAgree` | crates/core/src/transform/script.rs:112-128 | when the source digests are hashes too, dependency and source digests are told apart one by one, though not from each other |
| `Merkle.DependenciesRunIntoSources` | crates/core/src/transform/script.rs:112-125 | a script with one dependency and one with a source of the same digest instead have the same digest |
| `Merkle.SourcesRunTogether` | crates/core/src/transform/script.rs:122-125 | two sources hash like one source whose digest is that of both in a row |
| `Merkle.ReferencesRunTogether` | crates/core/src/source/git.rs:64-71 | two pairs of git references whose scripts have the same payload |
| `Merkle.SourcesRunIntoCommands` | crates/core/src/transform/script.rs:122-128 | a source digest and the same digest at the head of the script text hash alike |
| `Merkle.Invalidates` | crates/core/src/transform/script.rs:108-141 | a changed digest changes the digest of every transitive dependent through unchanged scripts and compositions, or two payloads are exhibited as a hash collision |
| `Merkle.TextSplits` | crates/core/src/transform/script.rs:126 | splitting the script text at newlines gives back the lines of the commands |
| `Merkle.TextsAgree` | crates/core/src/transform/script.rs:126 | two lists of commands have the same text if and only if they have the same lines |
| `Merkle.EditInvalidates` | crates/core/src/transform/script.rs:108-141 | other commands in a script change its digest and that of every transitive dependent through unchanged scripts and compositions, or two payloads are exhibited as a hash collision |
| `Merkle.IdsIgnoreOrder` | crates/core/src/transform/compose.rs:51-62 | digests do not depend on the order of any `depends` list in the project |
| `Merkle.UniqueDigest` | crates/core/src/transform/script.rs:108-141 | the hasher loop computes the digest on everything insertion accepts; it fails if and only if a transform that it asks for, directly or not, is not registered, and names one |
| `Merkle.HashDependencies` | crates/core/src/transform/compose.rs:51-60 | the loop over the sorted dependencies feeds their digests in order |
| `Resolve.BuildDb` | crates/edo/src/source/resolver.rs:116-147 | the candidates of a package are those of all vendors, others are untouched |
| `Resolve.BuildRequirement` | crates/edo/src/source/resolver.rs:155-210 | the candidates are exactly those that meet range and vendor pin; an error exactly when there is none |
| `Resolve.AssignedRight` | crates/edo/src/source/resolver.rs:79-108 | a declaration ends up with the one chosen version that serves it |
| `Resolve.AllServed` | crates/edo/src/source/resolver.rs:79-108 | mapping a solution back resolves every declared address, to a version that meets its own range and pin, and no other address |
| `Resolve.RequestsRight` | crates/edo/src/source/resolver.rs:56-66 | the solver is asked once per declaration, in order, for exactly the candidates that fit |
| `Resolve.Resolve` | crates/edo/src/source/resolver.rs:48-110 | the same for the whole call, and every address gets what the solver has chosen for its package; a requirement is reported as unmet exactly when no known candidate meets it, and otherwise the call fails exactly when the solver has no answer to the requirements |
| `LockReplay.LoadedOneMore` | crates/edo/src/context/builder.rs:186-195 | loading a file keeps the aliasing: requirement and source table share a node exactly where the requirement has the last word |
| `LockReplay.LoadFiles` | crates/edo/src/context/builder.rs:105-125 | the node tables of a whole project |
| `LockReplay.ResolveSources` | crates/edo/src/context/builder.rs:127-175 | every `source` entry holds the nodes its addresses name; an error exactly when an address is unknown, and it names one |
| `LockReplay.Publish` | crates/edo/src/context/builder.rs:310-321 | writing into the requirement nodes changes what every sharing table sees and no other source |
| `LockReplay.FilesMerge` | crates/edo/src/context/builder.rs:196-211 | elements and source caches are those of the last file that defines them |
| `LockReplay.LastFileDecides` | crates/edo/src/context/builder.rs:200-201 | build and output cache are those of the file read last, even if it has none |
| `LockReplay.ResolveAll` | crates/edo/src/context/builder.rs:284-321 | every requirement gets the content of an offered version that meets its own range and pin; it fails exactly when nothing on offer suits some requirement, the solver has no answer to the requirements, or a vendor does not deliver a version that suits |
| `LockReplay.Settle` | crates/edo/src/context/builder.rs:228-266 | a lock with the right digest is reused, or malformed exactly when it misses a requirement, which is named; a lock with another digest is refused exactly on demand; otherwise the caches are registered and the outcome is that of the resolution |
| `LockReplay.Build` | crates/edo/src/context/builder.rs:223-321 | what elements see is determined by the files and the returned lock, on the locked and the resolving path alike; the declared caches are registered exactly on the resolving path |
| `LockReplay.BuildThenReplay` | crates/edo/src/context/builder.rs:229-249 | repeating a build with the lock it left never reports a malformed lock and shows every environment and transform the same source data, whatever vendors and solver do by then; it registers no cache |
| `Ids.ParsedIsName` | crates/edo/src/storage/id.rs:21-33 | a parsed name has no unsupported character and no leading underscore |
| `Ids.ParseNameShape` | crates/edo/src/storage/id.rs:21-33 | a parsed name is the value without its scheme, cleaned character by character, without its leading underscores and nothing else |
| `Ids.NameIsFixpoint` | crates/edo/src/storage/id.rs:21-33 | parsing leaves exactly these names alone |
| `Ids.ParseNameIdempotent` | crates/edo/src/storage/id.rs:21-33 | parsing a name twice is parsing it once |
| `Ids.RoundTrip` | crates/edo/src/storage/id.rs:134-205 | parsing inverts printing if and only if the identifier has no version and no field holds a separator where the parser looks for one |
| `Ids.VersionedDiffers` | crates/edo/src/storage/id.rs:162-183 | no printed identifier with a version parses back, pre-release and build parts and all other fields included |
| `Ids.PrintInjective` | crates/edo/src/storage/id.rs:187-205 | such identifiers have distinct texts |
| `Ids.ParsedIsSeparable` | crates/edo/src/storage/id.rs:137-161 | what the parser returns without a version is one of them |
| `Ids.VersionedNeverReads` | crates/edo/src/storage/id.rs:162-183 | when some text is read as an identifier with a version, then the text of that identifier is not read at all |
| `Ids.VersionedPanics` | crates/edo/src/storage/id.rs:162-177 | a printed separable identifier with a released version makes the parser panic |
| `Ids.ThreeSegments` | crates/edo/src/storage/id.rs:162-177 | with two dashes the first segment is taken for the version as well as for the name, and the second for the digest |
| `MediaTypes.DetectPrinted` | crates/edo/src/storage/artifact.rs:44-67 | detection takes a printed compression suffix off again |
| `MediaTypes.SuffixTable` | crates/edo/src/storage/artifact.rs:44-67 | the accepted suffixes with their compressions, behind either separator |
| `MediaTypes.Spelling` | crates/edo/src/storage/artifact.rs:125-151 | how each media type is spelled |
| `MediaTypes.RoundTrip` | crates/edo/src/storage/artifact.rs:125-181 | parsing inverts printing if and only if the value is canonical: no custom type with a reserved name or an uncompressed name that ends in a compression suffix |
| `MediaTypes.ParsePrintParse` | crates/edo/src/storage/artifact.rs:153-181 | parse, print, parse is parse, on every accepted text |
| `MediaTypes.ParseAccepts` | crates/edo/src/storage/artifact.rs:156-169 | which texts are accepted, and which error the others get |
| `MediaTypes.CanonicalIsImage` | crates/edo/src/storage/artifact.rs:153-181 | the canonical values are exactly the image of the parser |
| `ObjectTransfer.ReaderIsFaithful` | crates/core/src/storage/s3/reader.rs:69-117 | for all capacities and response timings: delivered plus buffered is the object up to the position, requested ranges are satisfiable (section 14.1.2 of RFC 9110) and as large as a chunk or the rest allows, the buffer stays within the widest read plus a chunk, a delivery fills the capacity unless the object is at its end, end-of-file means that the whole object was delivered, and a failed request is reported |
| `ObjectTransfer.PollProgresses` | crates/core/src/storage/s3/reader.rs:69-117 | a poll makes progress, waits for the server, or reports the end after everything was delivered |
| `ObjectTransfer.ObjectReader.PollRead` | crates/core/src/storage/s3/reader.rs:69-117 | the field updates of one poll |
| `ObjectTransfer.ReadAll` | crates/core/src/storage/s3/reader.rs:44-117 | reading to the end gives the object, for every sequence of positive buffer sizes |
| `ObjectTransfer.SplitParts` | crates/core/src/storage/s3/mod.rs:366-397 | the parts assemble to the file, are numbered from one to the number of chunks rounded up, and all but the last are full |
| `ObjectTransfer.StoreThenRead` | crates/core/src/storage/s3/mod.rs:354-425 | an uploaded layer reads back as the file, on the single-put and the multipart path |

## Left out

- Tokio, tracing, progress bars, log files and interactive prompts; the lifecycle of a transform is one worker step that succeeds or fails.
- Environments, farms, command templating and subprocesses.
- Git, remote, OCI, vendor and local sources, and the AWS client; what a vendor or server returns is a parameter.
- The S3 catalog lock (`wait_for_lock` and `flush` in crates/core/src/storage/s3/mod.rs), which is check-then-put and promises no exclusion.
- The internals of resolvo, semver, daggy, blake3, serde and toml. Only the contracts in the signatures are used; daggy's cycle check is replaced by a search.
- Configuration loading, plugins, registries, error enums and the command line: thin dispatch.
- Address normalisation in `handle_sources` and the registration of farms and transforms: `LockReplay` starts from absolute addresses, and registering a cache never fails.
- JSON itself: the nodes of a lock, and the version requirements and metadata of a manifest, are assumed to survive it.
- Semantic versions as values: a version is its printed text, of which only the dot is used; `Writer::set_digest`, which would break the naming of blobs by hash.
- Integer widths (`i64` counts, `u32` indegrees, `usize` and `u64` positions): all integers are unbounded.
- Failures of the worker's own lookups (a transform that disappears, an id that was never set): a missing transform is a failing step, and a worker that returns without a report is a dead one in `WorkerPanics`.
- Hash collisions in `calculate_digest`: the digest is a function of the declared requirements, and a collision shows up as a lock that is reused or malformed.
- Engine.Pool: the environment fires the token at moments between the driver's own statements; each transform has one result, as it is run at most once.
- Engine.RunRoot: the driver's variables are local and the node statuses a map in the run's state, so that sharing of status cells between two simultaneous runs of one graph is not captured.
- Scheduler.WalkIsExact: children are visited in insertion order, whereas petgraph visits the newest edge first; the theorems do not depend on the order.
- Transfer.Download: the copies of a download are atomic and finish in any order; their single writes are not interleaved with each other, and files fail only when they or their directory are missing.
- LocalBackend.Backend.FinishLayer: copying and removing the temporary file is one step.
- LocalBackend.Backend.PollWrite: a write that the file refuses changes nothing and is left to the caller.
- StoreRace.NoLostUpdate: flushing is one step under the write lock, so a crash in the middle of writing the catalog is not covered.
- CalmRace.ApartStaysBacked: a condition that is easy to check and sufficient; the exact one is that of `DanglingRuns`.
- SweepCollision.FailsExactlyWhenColliding: the condition under which a deletion can fail when nobody else stores blobs is not worked out.
- Merkle.IdEndsExactly: a missing address ends the computation early with an error, so that a circular address behind it is never asked for; projects with missing addresses are not covered.
- WorkerPanics.HangsExactlyWhenLost: a panic is the end of one worker; aborting the whole process on a panic is not modelled.
- ObjectTransfer.ReadAll: a server that fails ends the read with an error; polling the reader again after that is not modelled.
- Merkle.UniqueDigest: the digests of other transform kinds are given from outside, and the remaining fields of the id (name and architecture) are not part of the digest.
- Resolve.BuildDb: vendors always answer; the version sets of the pool are a plain sequence of candidates.
