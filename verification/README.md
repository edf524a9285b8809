# BPM: a verified model of its graph, resolver, materialiser and publish logic

BPM is a package manager. It resolves a manifest into a lockfile (`bpm.lock`), names the result by a
graph id, links package images into a `node_modules` tree, runs lifecycle scripts against a cache of
derived images, and publishes manifest and lockfile together. This project models the parts of
that work whose correctness is decided by code rather than by libraries, and proves what they promise.

`dafny verify dfyconfig.toml` checks the whole project.

| file | what it models |
|---|---|
| `Ordering.dfy` | bytewise string order, `BTreeMap` iteration order |
| `Options.dfy` | `Option` |
| `LockTypes.dfy` | the lockfile in memory |
| `LockIdentity.dfy`, `LockFacts.dfy` | locks with equal normal forms have equal digests and equal graph ids; what ids and digests identify, field by field |
| `LockDemands.dfy` | what a lock must have to be accepted, field by field |
| `PathText.dfy`, `NodePaths.dfy`, `PathComponents.dfy` | slash-separated text, `node_modules` placement paths, `Path::components` and following a path |
| `PathSafety.dfy` | the validator of package paths |
| `ClosureDigest.dfy` | the memoised, cycle-marking closure digest of one package |
| `Hashes.dfy`, `ClosureBytes.dfy` | the bytes that digest hashes, under any 32-byte hash function |
| `GraphEncoding.dfy` | the graph-id preimage: encoder, decoder, trailers |
| `ByteLayout.dfy` | the bytes of the digest and of the graph id, laid out flat with their tags spelt out |
| `Hoist.dfy` | the hoisting placer shared by the yarn and pnpm imports |
| `YarnImport.dfy`, `YarnEnds.dfy`, `YarnNests.dfy` | the yarn importer's breadth-first walk that feeds the placer, when it ends, and a lock on which it does not |
| `ResolverState.dfy`, `ResolverSteps.dfy`, `ResolverLoads.dfy`, `Resolver.dfy` | the native resolver's recursive search over placed nodes: its world and measure, what a step leaves behind, which copy Node loads, the methods |
| `ResolverLimits.dfy` | what a whole resolve promises under which condition, and runs where the condition fails |
| `Materializer.dfy` | pass A: serial linking and depth-ordered parallel waves |
| `StrictLayout.dfy` | strict layout validation of a lock |
| `LockNormal.dfy` | the lock's normal form and its validator |
| `RelativePath.dfy` | relative bin-link paths |
| `SymlinkDepth.dfy` | the lexical symlink check of archive extraction |
| `SingleFlight.dfy`, `ConditionalFetch.dfy`, `PeakCounter.dfy` | the concurrent fetch protocol, as transition systems |
| `Publish.dfy`, `PublishOutcome.dfy` | the two-file publish with rollback over a failing file store, and which of its operations decide success |
| `DerivedTree.dfy` | snapshot and attach of derived images |

A `char` stands for one byte. In the graph id and the digest theorems hashes are free constructors (`Node`,
`Cycle`, `Blake3`), so "same hash" means "same hashed content"; `ClosureBytes` replaces them by an arbitrary
function to 32 bytes, where equal bytes mean equal content or a collision of that function. State the program
mutates in place is held in classes whose methods are specified by functions on values; the theorems are about
those functions. Concurrent parts are transition systems whose executions are sequences of states and steps of any
number of callers.

## Results worth knowing

- The hoisting placer's comment says every edge resolves to its exact version "by construction"
  (`src/hoist.rs:28-30`). That is false without an order on the calls: `Hoist.UndisciplinedRunBreaks` gives two
  calls after which an edge is shadowed. It holds in a run if and only if no call claims a directory that an edge
  already placed looks through (`Hoist.RunKeepsEdgesIff`), and always when each dependent asks for everything it
  needs before anything below it asks. The yarn importer's queue keeps that order in every run, so the edges of an
  imported lock hold (`YarnImport.ImportHolds`).
- The importer's walk ends whenever the packages can be ranked so that no dependency rises and every dependency on
  a name of several versions falls, so that no cycle passes through such a name (`YarnEnds.WalkEnds`). For two
  packages that need each other crosswise in two versions it nests without end (`YarnNests.NeverEnds`).
- Depth-ordered waves build the serial tree under every schedule if and only if every nesting of two packages
  crosses a `node_modules` directory or falls to one worker (`Materializer.WavesAgreeIff`). The path validator also
  accepts `node_modules/a` with `node_modules/a/b` (`src/path_safety.rs:60-84`); for that pair a legal schedule
  loses files.
- An error that reports a complete rollback may still leave new content behind: `Path::exists` answers "absent"
  when its `stat` fails, so `restore` skips a file it should remove (`src/manifest_edit.rs:492`,
  `Publish.CompleteRollbackCanBeWrong`). The report can be relied on, whatever fails, if and only if both files
  existed before the call (`Publish.CompleteRollbackIff`).
- A publication over free temps succeeds if and only if its first six operations go well; what fails after them
  changes nothing (`PublishOutcome.PublishedIff`, `PublishOutcome.LateFaultsAreHarmless`).
- A recorded target need not be the copy Node loads. `find_visible` walks past nearer copies of another version,
  and a later placement can claim a slot in between (`ResolverLimits.TargetIsNotLoaded`); the target is what Node
  loads if and only if neither happened (`ResolverLoads.LoadsIff`). Where everything on offer for a name suits
  every request for it, every target of every resolve is (`ResolverLimits.EveryEdgeLoads`).
- A copy that an optional request placed skips dependencies foreign to the platform. When a required request later
  shares the copy, it becomes required but the skipped dependency is never resolved
  (`ResolverLimits.UpgradedCopyMissesDependency`). After a successful resolve a dependency has no target if and
  only if its request was skipped because what was on offer is foreign (`ResolverLimits.MissingIff`); where nothing
  on offer is foreign, every dependency has one (`ResolverLimits.EveryDependencyHasTarget`).
- `find_visible` compares versions, not packages, so a plain request can share the slot of an `npm:` alias and get
  another package (`ResolverLimits.AliasSharesOtherPackage`); it gets the right one if and only if the nearest
  version match is the right one (`ResolverState.RightPackageIff`), and without aliases, sources and members always
  (`ResolverLimits.EverySlotHoldsItsPackage`).
- The comment on the waiter path expects a closed channel when a producer is cancelled
  (`src/async_resolver.rs:1252-1254`). Each waiter owns a reference to the entry that owns the sender, so the
  channel never closes while anyone waits (`SingleFlight.SenderNeverCloses`). A cancelled producer leaves its entry
  registered for the rest of the run: whoever waits on it waits until cancelled, and later callers join it
  (`SingleFlight.AbandonedForever`). A waiter can still be served if and only if its entry is published or its
  producer was not cancelled (`SingleFlight.WaiterCanReturnIff`).
- When the derived store fails after the scripts ran, they run a second time in the already built directory
  (`DerivedTree.RunThroughStore`).
- The closure preimage has no length prefixes: with NUL bytes in a version or URL two packages hash alike
  (`ClosureBytes.NulBytesCollide`); without NUL bytes it is injective.

## Model

| member | source | states |
|---|---|---|
| ClosureDigest.SameDigestIffAgree | src/graph.rs:515-594 | two lockfiles give a package the same closure digest exactly when they agree, on every path reachable from it, on the target set and on version, resolved and integrity (absent = empty), cycles included |
| LockFacts.SameDigestIffSameClosure | src/graph.rs:515-594 | the same over the fields of the locks: at every path a chain of dependencies, optional dependencies and peers leads to, the last package there has one version, URL and integrity in both, and the recorded targets of all three groups are the same |
| ClosureDigest.MemoIsReachable | src/graph.rs:532-594 | the memo ends holding exactly the reachable paths, each of them framed in the digest |
| ClosureDigest.AcyclicDigestIsPlain | src/graph.rs:539-593 | on acyclic graphs memo and on-stack set change nothing: the digest is the plain recursion's |
| ClosureBytes.ClosureWalk.Visit | src/graph.rs:532-594 | the imperative walk with shared memo of 32-byte hashes and stack terminates, returns the hash of the specified digest, extends the memo as specified and restores the stack |
| ClosureBytes.RunPackageClosureDigest | src/graph.rs:515-530 | a fresh walk per call returns the bytes of the lock's closure digest |
| ClosureBytes.FrameInjective | src/graph.rs:543-588 | for NUL-free strings two byte sequences fed to the hash are equal only if path, identity and all child hashes are |
| ClosureBytes.SameBytesOrCollision | src/graph.rs:539-593 | for any hash function, equal 32-byte results mean equal digest trees or two different byte sequences with one hash inside them |
| ClosureBytes.SameBytesIffAgree | src/graph.rs:515-594 | for any hash function and NUL-free locks: agreement on everything reachable gives the same 32 bytes, and the same 32 bytes give agreement or a collision |
| ClosureBytes.NulBytesCollide | src/graph.rs:550-557 | with NUL bytes two different package identities feed the same bytes |
| GraphEncoding.DecodeEncode | src/graph.rs:267-346 | the decoder recovers root deps, overrides, target, every package field, registry names, prepared images and profile from the encoding |
| GraphEncoding.SameIdIffSameView | src/graph.rs:385-399 | two installs share a graph id exactly when those facts are equal (absent = empty for integrity and libc), whatever the map insertion order |
| LockFacts.SameIdIffSameGraph | src/graph.rs:267-399 | the same over the fields: platform, root dependencies, overrides, target, every hashed field of every package with its libc list, registry names, images and profile |
| LockIdentity.SameContentSameDigest | src/graph.rs:515-594 | two locks with the same content, whatever the order of their packages, give every path the same closure digest |
| LockIdentity.SameContentSameId | src/graph.rs:385-399 | written in normal form, two locks with the same content get the same graph id |
| GraphEncoding.CanonicalGraphBytes | src/graph.rs:267-346 | the pushes into the buffer produce the specified encoding before any continuation |
| GraphEncoding.AppendPreparedImages | src/graph.rs:482-489 | appends the tag, the count and path with 32-byte key in path order |
| GraphEncoding.AppendInstallProfile | src/graph.rs:491-499 | appends the tag and both profile facts |
| GraphEncoding.GraphIdPlain | src/graph.rs:349-352 | the id of a graph with no prepared images and the default profile |
| GraphEncoding.GraphIdWithPrepared | src/graph.rs:367-377 | delegating for an empty map gives the same id as the general encoding with no images |
| GraphEncoding.GraphIdWithPreparedAndProfile | src/graph.rs:385-399 | all four combinations of trailers give the id of the one general encoding |
| GraphEncoding.ByteBuffer.WriteU64 | src/graph.rs:812-814 | appends the eight little-endian bytes |
| GraphEncoding.ByteBuffer.WriteField | src/graph.rs:807-810 | appends the length, then the bytes |
| GraphEncoding.GetPutField | src/graph.rs:807-810 | a written field reads back, leaving exactly what followed it |
| ByteLayout.GraphLayout | src/graph.rs:267-346 | the whole preimage as a flat list: every tag as spelt, every section in order, both trailers |
| ByteLayout.PackageLayout | src/graph.rs:300-335 | a package is its five texts, three flags, three lists and two maps, in that order |
| ByteLayout.FrameLayout | src/graph.rs:543-588 | a frame is the version tag, the path, the three known fields and each child's hash, every one after its NUL-ended label; a cycle is its own tag and the path |
| ByteLayout.NumberByte | src/graph.rs:812-814 | byte `i` of a written number is its digit number `i` to the base 256 |
| Hoist.RunKeepsEdgesIff | src/hoist.rs:37-79 | after every call of a run every edge so far resolves to its version at its path, if and only if no call of the run claims a directory an earlier edge for that name looks through |
| Hoist.DisciplinedRunHolds | src/hoist.rs:16-30 | when each dependent asks for a name at one version and for all it needs before anything below it asks, every edge holds after every call |
| Hoist.PlaceKeepsEdgesIff | src/hoist.rs:40-78 | one call keeps all old edges and its own, exactly when it does not shadow one |
| Hoist.UndisciplinedRunBreaks | src/hoist.rs:28-30 | two calls in the wrong order break an edge |
| Hoist.Placer.Place | src/hoist.rs:40-78 | the loops over chain and slots compute the specified occupancy and path |
| Hoist.RunPlacer | src/hoist.rs:33-79 | calls in sequence on one placer return the specified paths |
| Hoist.BuildChain | src/hoist.rs:41-51 | the upward loop yields the dependent's own directory, its ancestors' and the root's |
| Hoist.PlacedParent | src/hoist.rs:8-14 | the parent of a package placed in its dependent's directory is that dependent |
| YarnImport.ImportYarn | src/yarn_lock.rs:293-369 | the loop over queue and visited set, for any number of turns, makes the requests of the specified walk and returns their paths |
| YarnImport.ImportHolds | src/yarn_lock.rs:293-369 | the breadth-first order is one the placer needs: at any moment every edge placed so far resolves to its exact version at its path |
| YarnImport.FinishedIsComplete | src/yarn_lock.rs:327-369 | whenever the queue is empty, every found dependency of the root and of every placed package was asked for on its behalf |
| YarnImport.NothingElseIsAsked | src/yarn_lock.rs:327-369 | every request is a need of the root or of the package at a path given before, at the version found for it |
| YarnImport.ItemsInNameOrder | src/yarn_lock.rs:298-369 | needs are queued in the order of their names, one item each |
| YarnEnds.WalkEnds | src/yarn_lock.rs:327-369 | the queue runs dry when a rank falls along every dependency on a name with several versions and rises along none; then everything needed was asked for and every edge holds |
| YarnEnds.OneVersionEach | src/yarn_lock.rs:327-369 | a lock with one version of every name has such a rank |
| YarnEnds.ImportToTheEnd | src/yarn_lock.rs:293-369 | on such a lock the uncut loop terminates with a complete import whose edges all hold |
| YarnNests.NeverEnds | src/yarn_lock.rs:327-369 | on a lock of two packages needing each other crosswise in two versions every turn is a first visit and the queue is never empty |
| NodePaths.RenderParent | src/resolver/mod.rs:518-522 | cutting a placement path at the last separator drops its last package name |
| NodePaths.RenderInjective | src/async_resolver.rs:1479-1483 | placement paths built from different name lists differ |
| ResolverState.ChosenPairIsNew | src/async_resolver.rs:1471-1495 | why nesting ends: a matching version that no ancestor slot offers is a (name, version) pair not yet on the chain, and placing it uses one up |
| ResolverState.RangeUnlessPeersMissed | src/async_resolver.rs:1530-1563 | the copy a registry request ends on is in range unless it was placed just now because the peers of the selected version did not fit |
| ResolverState.AlwaysInRange | src/async_resolver.rs:1530-1563 | where no spec is a source and no version with peers has alternatives out of range, every registry request ends in range |
| ResolverState.NeverDetours | src/async_resolver.rs:1463-1563 | in such a world no request can take a detour |
| ResolverState.RightPackageIff | src/async_resolver.rs:1863-1889 | a registry request ends on the package it names exactly when the nearest version match, where there is one, is that package |
| ResolverLoads.LoadsIff | src/async_resolver.rs:1863-1889 | the target recorded for a registry request is the copy Node loads in any later state exactly when the lookup walked past no nearer copy out of range and nothing placed since lies in between |
| ResolverLoads.SelectedSuits | src/async_resolver.rs:1471-1495 | why it always is in a compatible world: a copy is placed only where no copy of its name is on the chain |
| ResolverLoads.PlaceKeepsPromises | src/async_resolver.rs:1570-1592 | placing keeps: slots hold the package they name, targets are what Node loads, in the worlds that promise it |
| ResolverLimits.MissingIff | src/async_resolver.rs:1630-1651 | after a successful resolve a dependency of any package lacks a target exactly when its request was skipped, and what was on offer for it then does not run on the platform |
| ResolverLimits.EveryDependencyHasTarget | src/async_resolver.rs:1565-1568 | where nothing the registry, workspace or a source offers is foreign to the platform, every dependency of every package has a target |
| ResolverLimits.GapMeansUpgraded | src/async_resolver.rs:1471-1478 | where a required copy lacks a required dependency, that request was skipped as foreign, an optional request placed the copy and a later one made it required |
| ResolverLimits.EveryEdgeLoads | src/async_resolver.rs:1386-1651 | where offers suit every request for their name and none is foreign, after a successful resolve every dependency of every package has a target, which is the copy Node loads and in range |
| ResolverLimits.EveryTargetInRange | src/async_resolver.rs:1386-1651 | where no detour is possible, in every state of every run the target of every registry dependency of every package that is no link is in the range the package declares, overrides applied |
| ResolverLimits.RootAnswerInRange | src/async_resolver.rs:2084-2096 | a manifest request that landed: its copy is in the root slot, its flags are logged, and without detours it is in the range the overrides make of the manifest's spec |
| ResolverLimits.SelectedIsNewestServed | src/async_resolver.rs:1530-1563 | the selected version where the copies its peers would load are in range and missing peers are optional; else the newest listed version of which that holds, all newer ones readable and not; the selected one when none is |
| ResolverLimits.EveryRunSucceeds | src/async_resolver.rs:2084-2193 | where offers suit every request for their name, none is foreign, everything selects and peers bind, no resolve fails |
| ResolverLimits.DependenciesAreDeclared | src/resolver/mod.rs:524-530 | a node asks for exactly its package's dependencies and optional dependencies, an optional spec taking precedence |
| ResolverLimits.EverySlotHoldsItsPackage | src/async_resolver.rs:1570-1592 | without aliases, sources and members every slot holds the package it names |
| ResolverLimits.UpgradedCopyMissesDependency | src/async_resolver.rs:1471-1478 | a run of one package's requests after which a required copy lacks a required dependency |
| ResolverLimits.AliasSharesOtherPackage | src/async_resolver.rs:1863-1889 | a run in which a plain request lands on the package of a sibling's alias |
| ResolverLimits.TargetIsNotLoaded | src/async_resolver.rs:1863-1889 | a run after which Node loads another version than the recorded target |
| Resolver.AsyncGraphResolver.ResolveDependency | src/async_resolver.rs:1386-1609 | terminates; nothing placed before changes but for flags; it lands on a placed copy visible from the dependent, logged with its flags, where a link, a source or the registry rules put it; a skip is of what was on offer and is foreign; a failure is one that this request, or some package's own dependency, has at once in the state left; a conflict changes nothing and only a registry request without a visible match conflicts; without failure every new node is complete; the budget runs out only after that many detours with one more waiting |
| Resolver.AsyncGraphResolver.ResolveRegistryDependency | src/async_resolver.rs:1471-1608 | the nearest matching copy on the chain is shared; without one an occupied own slot is a conflict, and a free one gets the selected version, an error where none is selected, or the platform's verdict |
| Resolver.AsyncGraphResolver.LinkWorkspaceMember | src/async_resolver.rs:1404-1461 | a member is linked once, at the root under its name, its dependencies resolved hoisted, and never conflicts |
| Resolver.AsyncGraphResolver.SelectVersion | src/async_resolver.rs:1530-1563 | the selected version, or where its peers do not fit the first of the newest-first scan whose peers fit, a failing candidate failing the request |
| Resolver.AsyncGraphResolver.PlaceFromRegistry | src/async_resolver.rs:1497-1608 | places the chosen version at the parent's own slot and resolves its dependencies; no version or a foreign platform gives the error or skip |
| Resolver.AsyncGraphResolver.ResolveChildren | src/async_resolver.rs:1630-1651 | after success the targets are exactly where its requests landed, with the flags asked for and for the spec the package declares, and every other dependency was an optional request that was skipped; no other node's targets are touched; a failure is that of some package's own dependency |
| Resolver.AsyncGraphResolver.ResolveChildrenHoisted | src/async_resolver.rs:1657-1686 | the same for a member's dependencies, each at the root unless the root slot holds another version |
| Resolver.AsyncGraphResolver.ResolveHoistedChild | src/async_resolver.rs:1663-1680 | one hoisted dependency: at the root, or, where the root slot holds a version the request does not match, nested below the member |
| Resolver.AsyncGraphResolver.ResolveSourceDependency | src/async_resolver.rs:1688-1742 | a source dependency lands at the parent's own slot, sharing what is there, and never conflicts |
| Resolver.AsyncGraphResolver.FindVisible | src/async_resolver.rs:1863-1889 | the nearest copy up the chain whose version matches, walking past nearer mismatches; none only if none matches |
| Resolver.AsyncGraphResolver.FindVisibleAny | src/async_resolver.rs:1891-1910 | the nearest copy whatever its version |
| Resolver.AsyncGraphResolver.AncestorChain | src/async_resolver.rs:1912-1934 | names and versions of the placed ancestors, outermost first |
| Resolver.AsyncGraphResolver.PeerCandidateMatches | src/async_resolver.rs:1806-1818 | true exactly when every peer's nearest copy is in range, or is invisible and optional |
| Resolver.AsyncGraphResolver.UpgradeReachability | src/async_resolver.rs:1946-1951 | the flags become the conjunction with the new request's and nothing else changes |
| Resolver.AsyncGraphResolver.ResolveManifest | src/async_resolver.rs:2084-2193 | over a whole resolve: invariant kept; on success every manifest dependency was asked for with the manifest's spec and flags and landed in its root slot, or was optional and skipped as foreign, every workspace link is a root target, and every root target is where such a request landed; peer repair rounds end with nothing missing; a failure has its cause in a request of the manifest, a link or the peers; where no detour is possible it never runs out of budget and no package nests below its own name and version |
| Resolver.AsyncGraphResolver.BindPeers | src/async_resolver.rs:2138-2193 | each round asks beside its consumer, as required, for every peer found missing; success means none is missing, and a peer error that binding is impossible, a repair failed, or sixteen rounds were not enough |
| Resolver.AsyncGraphResolver.RepairPeers | src/async_resolver.rs:2160-2169 | one round: all repairs answered on success, else the one that could not be made |
| ResolverState.PlaceKeeps | src/async_resolver.rs:1570-1592 | placing a node keeps: parents placed, targets on chains, flags the conjunction of all landings |
| ResolverState.UpgradeKeeps | src/async_resolver.rs:1946-1951 | so does merging a further request into a node |
| ResolverState.RecordKeeps | src/async_resolver.rs:1641-1648 | so does recording a target |
| ResolverState.PairsStayDistinct | src/async_resolver.rs:1471-1495 | no package comes to nest below another copy of its own name and version |
| ResolverState.MeasureStable | src/async_resolver.rs:1403-1495 | later states leave no more unplaced members and the same pairs on a placed chain |
| Materializer.WavesAgreeIff | src/materializer.rs:434-490 | for path-sorted packages and any number of workers, the waves build the serial tree under every image, walk order and schedule of their chunks if and only if every nesting crosses a `node_modules` directory or stays in one chunk |
| Materializer.AnyWorkersAgreeIff | src/materializer.rs:434-490 | so they do whatever the number of workers if and only if every nesting crosses a `node_modules` directory |
| Materializer.WavesEqualSerial | src/materializer.rs:434-490 | on such paths waves and serial pass build the same tree |
| Materializer.SerialIsSpecified | src/materializer.rs:484-490 | the serial pass builds the tree in which each path is decided by the longest package target that is a prefix of it |
| Materializer.WavesAreSpecified | src/materializer.rs:434-483 | the waves build that tree under any interleaving of their chunks |
| Materializer.SpecifiedUnique | src/materializer.rs:424-490 | that description determines the whole tree |
| Materializer.LinkTreeRealises | src/materializer.rs:596-618 | removing the target and adding the image's entries in any order leaves exactly the image below the target |
| Materializer.PackagePathsNest | src/materializer.rs:434-441 | npm-shaped package paths only nest through `node_modules` |
| Materializer.SiblingInsidePackage | src/path_safety.rs:60-84 | a sorted pair of paths that the validator accepts for which the waves of two or more workers can lose files |
| Materializer.BuildWaves | src/materializer.rs:435-446 | every work index lands in the wave of its depth, in work order |
| Materializer.ChunkSizeIs | src/materializer.rs:447-450 | a wave falls into at most one chunk per worker, and no smaller chunk size would do |
| Materializer.LinkByDepth | src/materializer.rs:447-483 | runs the waves in ascending depth and returns each flag under its original work index |
| Materializer.LinkSerially | src/materializer.rs:484-490 | runs the packages in work order with their flags |
| Materializer.PassA | src/materializer.rs:424-490 | whichever strategy is taken, the tree is the specified one |
| SingleFlight.OneProducer | src/async_resolver.rs:1177-1198 | in every interleaving at most one caller is producing |
| SingleFlight.PublishedOnce | src/async_resolver.rs:1211-1220 | each entry is published by at most one step |
| SingleFlight.ReturnsProducersResult | src/async_resolver.rs:1223-1251 | a waiter returns its producer's result, a producer its own, a cache hit a successful fetch |
| SingleFlight.CachedIsFetched | src/async_resolver.rs:1202-1209 | a cached packument came from a successful fetch and is never replaced |
| SingleFlight.SuccessIsCached | src/async_resolver.rs:1202-1220 | once a producer is past its cache write with a success, or a channel shows one, or anyone has returned one, something is cached |
| SingleFlight.FirstFillIsCached | src/async_resolver.rs:1204-1209 | the first success filled in is what is cached from then on |
| SingleFlight.LaterCallersUseCache | src/async_resolver.rs:1168-1209 | with a packument cached, a caller that arrives later never fetches and never waits, and returns only the cached one |
| SingleFlight.SuccessServesLaterCallers | src/async_resolver.rs:1168-1251 | so it is after any caller has returned a success |
| SingleFlight.FinishedIsNotJoined | src/async_resolver.rs:1177-1221 | whatever a fetch ended with, a caller that arrives after its producer returned never joins it nor gets its result |
| SingleFlight.NextCallerFetches | src/async_resolver.rs:1182-1190 | with nothing on the map the next caller to take the lock fetches anew, so a failure is retried |
| SingleFlight.SenderNeverCloses | src/async_resolver.rs:690-695 | no waiter ever sees its channel closed: its own reference keeps the entry, and with it the sender, alive |
| SingleFlight.ClosedIff | src/async_resolver.rs:690-695 | references counted step by step: a sender is closed exactly when the entry is unregistered and no caller uses it |
| SingleFlight.RunWritesOnce | src/async_resolver.rs:1168-1266 | cache, channel states, fetch outcomes and returns never change once set |
| SingleFlight.BoundedSteps | src/async_resolver.rs:1168-1266 | no caller takes more than seven steps |
| SingleFlight.PendingHasProducer | src/async_resolver.rs:1192-1222 | without cancelled producers an unpublished entry has its producer at work |
| SingleFlight.NeverStuck | src/async_resolver.rs:1168-1266 | without cancelled producers an unfinished caller can move, or it waits on an entry whose producer can |
| SingleFlight.CancelAbandons | src/async_resolver.rs:1197-1222 | cancelling a producer at any of its await points leaves its entry registered without a producer |
| SingleFlight.AbandonedForever | src/async_resolver.rs:1177-1251 | from then on, in every run: nobody produces, entry and cache stay as they are, a caller blocked on the unpublished entry stays blocked until cancelled, and a later caller returns only from the cache or the entry as they stand |
| SingleFlight.UnpublishedIsRegistered | src/async_resolver.rs:1177-1222 | an unpublished entry is the registered one at every moment |
| SingleFlight.WaiterServedIff | src/async_resolver.rs:1236-1251 | in every run a waiter or the producer it waits for can move exactly when the entry is published or that producer was not cancelled |
| SingleFlight.WaiterCanReturnIff | src/async_resolver.rs:1236-1251 | in every run some continuation returns the waiter a result under exactly that condition |
| ConditionalFetch.FreshBody | src/async_resolver.rs:313-371 | a finished default or prefer-online fetch returns the body the server held when it answered, despite detached, reordered cache writes |
| ConditionalFetch.OfflineIsClosed | src/async_resolver.rs:284-292 | an offline fetch sends nothing and returns only a body once served |
| ConditionalFetch.StaleOrFresh | src/async_resolver.rs:294-299 | a prefer-offline fetch returns a body once served or the one held at the answer |
| ConditionalFetch.NotModifiedHasBody | src/async_resolver.rs:334-344 | under the hypothesis on the server the "unexpected 304" error is never raised |
| ConditionalFetch.StepInv | src/async_resolver.rs:557-576 | every step, late and lost cache writes included, keeps cache rows to what was served |
| ConditionalFetch.ReadDecides | src/async_resolver.rs:255-371 | in every run a fetch is decided by what it read from the cache: offline that body or a miss, prefer-offline that body if any, otherwise a request with that row's validators that ends with the body held at the answer or breaks |
| ConditionalFetch.CachedRowIsServed | src/async_resolver.rs:284-299 | a readable cached row is returned to an offline or prefer-offline fetch at once |
| ConditionalFetch.OfflineMissMeansNoRow | src/async_resolver.rs:262-292 | an offline fetch fails only with a miss, and only if the row it read was absent or unreadable |
| ConditionalFetch.NotModifiedMeansSameValidator | src/async_resolver.rs:334-344 | a 304 only answers a fetch with a cached row whose entity tag, or without one whose date, the server held; the bodies are then the same |
| ConditionalFetch.FullAnswerIsStored | src/async_resolver.rs:357-371 | a full answer is handed to the cache: its write is pending until it lands or is lost |
| ConditionalFetch.RowsStay | src/async_resolver.rs:557-576 | a row once written is only replaced by a later write |
| ConditionalFetch.FetchNeverStuck | src/async_resolver.rs:284-371 | a fetch that has not ended always has a step of its own |
| ConditionalFetch.BoundedSteps | src/async_resolver.rs:255-371 | no fetch takes more than four steps of its own in any run |
| ConditionalFetch.EachWriteOnce | src/async_resolver.rs:557-576 | at every moment of every run the pending writes of a row are those handed over and not yet landed or lost |
| PeakCounter.AlwaysWithinLimit | src/async_resolver.rs:301-311 | in-flight count <= permits held <= limit, and the peak within the limit, at every moment |
| PeakCounter.PeakCoversCount | src/async_resolver.rs:399-406 | once a request left its loop the peak is at least the count it saw, until a drain |
| PeakCounter.PeakNeverDrops | src/async_resolver.rs:401-406 | between drains the peak never drops |
| PeakCounter.PeakIsMaximum | src/async_resolver.rs:398-409 | without drains and with nobody in the loop the peak is the largest count seen |
| PeakCounter.LoopEnds | src/async_resolver.rs:401-406 | without drains a request's failed exchanges are bounded by the limit, stale loads included |
| PeakCounter.LoopNeverStuck | src/async_resolver.rs:401-406 | a request in the loop always has a step |
| PeakCounter.LoopLeavesAtOnce | src/async_resolver.rs:401-406 | a request that saw a peak no lower than its count can only leave the loop |
| PeakCounter.DrainResets | src/async_resolver.rs:1268-1300 | a drain can come at any moment, starts the peak from zero and changes nothing else |
| Publish.EveryStepSafe | src/manifest_edit.rs:506-597 | for every pattern of failures: each destination holds its old or planned content at every step, success means both new, failure before publication leaves both alone, and a restore without reported failure restored unless its probe misread |
| Publish.RollbackTrustedIff | src/manifest_edit.rs:478-597 | for free distinct temp names: a reported complete rollback means this destination is back, under every pattern of failures, if and only if it existed before |
| Publish.CompleteRollbackIff | src/manifest_edit.rs:478-597 | a reported complete rollback means both destinations are back, under every pattern of failures, if and only if both existed before |
| Publish.FileStore.PublishPair | src/manifest_edit.rs:506-597 | the step-by-step program with its `publication_began` flag computes that run |
| PublishOutcome.PublishedIff | src/manifest_edit.rs:506-565 | for free temps: published if and only if the first six operations go well, and then exactly the two destinations changed and no temp is left; publication had begun in a failure if and only if the first four went well |
| PublishOutcome.OneFaultChangesNothing | src/manifest_edit.rs:506-597 | when one of the six fails in any way and nothing else does, the error says whether publication had begun, the rollback is complete and every file is as it was |
| PublishOutcome.LateFaultsAreHarmless | src/manifest_edit.rs:559-565 | failures after the six change nothing |
| Publish.FileStore.RestoreFile | src/manifest_edit.rs:478-498 | restoring writes a sibling temp and renames it, or removes a file that was absent |
| Publish.RestoreSafe | src/manifest_edit.rs:478-498 | restoring is safe at every step and leaves the other destination alone |
| Publish.AttemptSafe | src/manifest_edit.rs:539-558 | the attempt is safe at every step and touches no destination before publication begins |
| Publish.OnlyAbsentMisread | src/manifest_edit.rs:491-496 | only a destination that was absent before and is there at the probe can be misread |
| Publish.CompleteRollbackCanBeWrong | src/manifest_edit.rs:491-496 | a run reports a complete rollback while the new lock is still there |
| LockNormal.SameNormalIff | src/lockfile.rs:303-309 | two locks have the same normal form exactly when they agree path by path on packages, on the sets of workspace patterns and libc values, and on everything else |
| LockNormal.NormalIsIdempotent | src/lockfile.rs:303-309 | normalising twice is normalising once |
| LockNormal.ReorderedLocksNormaliseEqually | src/lockfile.rs:284-287 | with distinct paths, package order and order or repeats of patterns do not matter |
| LockNormal.SharedPathKeepsOrder | src/lockfile.rs:284-287 | two different packages at one path keep their order, so distinct paths are needed |
| LockNormal.OrderCheckIff | src/lockfile.rs:413-431 | the order check passes on the sorted packages exactly when the paths are distinct |
| LockNormal.WrittenReadsBackIff | src/lockfile.rs:303-343 | a written lock reads back as written exactly when it has the current version, safe entries, distinct paths and meets every other demand as it stands |
| LockNormal.LoadsIff | src/lockfile.rs:314-343 | a lock loads if and only if its entries are safe and it is of version 1, or of version 2 and well formed, and then as it stands; only another version is unsupported |
| LockNormal.LegacyIsMigrated | src/lockfile.rs:331-338 | a version 1 lock with safe entries loads as version 2 with empty resolution metadata and is otherwise as it was |
| LockNormal.StableSortUnique | src/lockfile.rs:284-287 | ordered and stable leaves one result |
| LockNormal.NormalListIsSorted | src/lockfile.rs:379-386 | sort then dedup is the ascending list of the set of elements |
| LockNormal.Lockfile.RootResolutionLists | src/lockfile.rs:379-386 | sorts and deduplicates the patterns and every package's libc in place, nothing else |
| LockNormal.Lockfile.Canonical | src/lockfile.rs:303-309 | works on a copy; the lock itself stays as it is |
| LockNormal.Lockfile.ValidateV2 | src/lockfile.rs:413-547 | accepts exactly the well-formed locks; a rejection names a fault that is there |
| LockDemands.AcceptedIff | src/lockfile.rs:413-547 | accepted if and only if, over the fields: paths legal and strictly increasing, registry names readable, not empty and not the placement name, metadata for packages only, every target and provider a package, and every demand of each source met |
| LockDemands.SourceFitsIff | src/lockfile.rs:462-530 | what each source demands: location, resolved URL and integrity of a registry or patched package, location, URL and 40 hex digits of a git one, location and URL of a tarball, link and recorded target of a directory, a legal one for a workspace |
| LockDemands.UnmetDemandRejects | src/lockfile.rs:462-530 | one unmet demand of one package rejects the lock |
| LockDemands.LegalPathIff | src/lockfile.rs:568-577 | a legal path is the text of one or more proper names without backslash or drive letter |
| LockDemands.LegalPathLeadsBelow | src/lockfile.rs:568-577 | from wherever it is followed a legal path leads below, by its own pieces |
| LockDemands.ValidPackagePathIff | src/path_safety.rs:60-84 | a package path is a legal path with a proper name after some `node_modules` piece |
| LockNormal.Lockfile.CheckPackages | src/lockfile.rs:414-431 | the loop with `previous` and growing `paths` decides legality and strict order and collects the path set |
| LockNormal.ValidateTargets | src/lockfile.rs:550-565 | true exactly when every target is a package path |
| StrictLayout.AcceptedIsReachable | src/materializer.rs:988-1036 | in an accepted lock every package is reachable from a declared root dependency by recorded targets, step by step through locked packages |
| StrictLayout.ValidateStrictLayout | src/materializer.rs:988-1036 | accepts exactly when every package is well placed, else names the first that is not |
| StrictLayout.CheckPlacement | src/materializer.rs:994-1034 | accepts exactly the well-placed package; the four nested faults are told apart in the order they are checked, the root ones by name |
| StrictLayout.AcceptedByNames | src/materializer.rs:995-1034 | in package names: declared at the root under its own name, or recorded by the package one name up under its last name |
| DerivedTree.AttachEqualsIff | src/lifecycle.rs:1302-1319 | attaching a snapshot equals an outcome exactly when own trees agree and the outcome has the entry's `node_modules` |
| DerivedTree.HitRepeatsBuildIff | src/lifecycle.rs:469-486 | on its own entry a hit repeats the build exactly when `node_modules` came through unchanged |
| DerivedTree.HitEqualsInPlace | src/lifecycle.rs:469-486 | when scripts leave `node_modules` alone and read only the own tree, a hit is what in-place execution would give |
| DerivedTree.SucceedingPhases | src/lifecycle.rs:428-450 | scripts that all succeed run in order, each on what the one before left |
| DerivedTree.FailureStopsPhases | src/lifecycle.rs:428-450 | the first script that fails is the last that runs |
| DerivedTree.HitCanDiffer | src/lifecycle.rs:469-486 | a script that drops `node_modules` makes them differ |
| DerivedTree.MirrorTree | src/lifecycle.rs:1259-1281 | on success the destination is overlaid with the source's entries (less a skipped `node_modules`); on failure only those names are touched |
| DerivedTree.SnapshotPkgTree | src/lifecycle.rs:1302-1305 | the staging image becomes the built package's own tree, whatever it held |
| DerivedTree.AttachDerived | src/lifecycle.rs:1310-1319 | own tree replaced by the image, `node_modules` kept even when an operation fails |
| DerivedTree.ClearDirContents | src/lifecycle.rs:1321-1327 | leaves the directory empty |
| DerivedTree.RunThroughStore | src/lifecycle.rs:411-486 | which outcome occurs and what each does to the entry and the store, a failing store included: scripts then run in place, a second time when the build had run them |
| RelativePath.RelativePathLeads | src/materializer.rs:1193-1231 | joining the source with the relative path and resolving the dots gives exactly the target, equal paths included; there is none exactly when a path is absolute or has a `..` piece |
| RelativePath.RelativeIsShortest | src/materializer.rs:1204-1212 | no sequence of components leading there is shorter |
| RelativePath.RelativePath | src/materializer.rs:1193-1216 | the prefix loop, the `..` parts and the join compute that path |
| RelativePath.CleanComponents | src/materializer.rs:1220-1231 | the loop collects the names or gives up at the first other component |
| RelativePath.BinLinkLeads | src/materializer.rs:1184-1188 | a bin link read from `node_modules/.bin` leads to the package's file |
| RelativePath.RelativeBinTarget | src/materializer.rs:1184-1188 | the relative path, or the plain target where there is none |
| RelativePath.StripsOneDotSlash | src/materializer.rs:1184-1186 | one leading `./` of the package's path is dropped, and only one |
| SymlinkDepth.DepthCheckIff | src/archive.rs:635-662 | for a cleaned link path an accepted target never pops the empty stack, at any length; within the `i32` range the check accepts exactly then, and the final depth is the stack's height |
| SymlinkDepth.DeepTargetRefused | src/archive.rs:640-661 | 2^31 names stay inside and are refused |
| SymlinkDepth.SymlinkWithinRoot | src/archive.rs:635-662 | both depth loops with wrapping `i32` arithmetic compute the specified check |
| SymlinkDepth.ResolveRelative | src/archive.rs:466-489 | the loop over the growing and shrinking path computes the stack walk |
| SymlinkDepth.ValidateReturnedRelative | src/archive.rs:608-630 | the names of the path, or the refusal for the first component that is neither a name nor `.` |
| SymlinkDepth.CleanedReadsBack | src/archive.rs:608-630 | the cleaned path is made of proper names and validates to itself |

## Left out

- HTTP, TLS, retry timing and bodies, SQLite, JSON text, tar and gzip decoding, process spawning: I/O and libraries; their results are inputs.
- Semver matching, version selection, overrides, platform rules, peer binding, workspace discovery and source loading: functions of an `Environment`, with only the hypotheses of `FiniteRegistry`.
- Resolver.AsyncGraphResolver.ResolveDependency: `file:`, git and tarball sources, and versions out of range that peer fallback places, recurse under a `budget` of such detours, because the program itself has no measure for them; every other recursion is bounded by the real measure. A detour records parent, name, requested spec and the state it was asked in; whose declared dependency it was is recorded for targets and skips, not for detours.
- ResolverLimits.EveryEdgeLoads: a condition under which all targets are loaded; `LoadsIff` is the exact one, per request.
- ResolverLimits.GapMeansUpgraded: one way; `MissingIff` and `EveryDependencyHasTarget` give the exact and the world-level condition.
- Placement paths in `Resolver` are lists of package names; `NodePaths` shows that lists and path strings correspond for names that do not themselves contain a `node_modules` component.
- Resolver.AsyncGraphResolver.ResolveManifest: building the lock from the nodes and prefetching are not modelled.
- Materializer.PassA: an I/O error inside the pass and pass B's bin links are not modelled; removal of a target is one step.
- The fully parallel pass A: its own comment says nested paths race there.
- SingleFlight: one key at a time; `NeverStuck` and `PendingHasProducer` are for runs without a cancelled producer, `WaiterCanReturnIff` for all.
- SingleFlight.NeverStuck: states who can move next, not that a scheduler lets it.
- ConditionalFetch.FreshBody: assumes that equal validators mean equal bodies and that 304 is sent only on a match (sections 13.1.2, 13.1.3 and 15.4.5 of RFC 9110).
- PeakCounter.LoopEnds: for runs in which the counter is not drained; a drain may make a request retry more often.
- ClosureBytes.FrameInjective: one way only; NUL bytes do not always collide, so "NUL-free" is sufficient and `NulBytesCollide` shows that something like it is needed. BLAKE3 is modelled as any function to 32 bytes.
- YarnImport.ImportYarn: which entry of a name satisfies a range is an input, dev and optional marking is left out, and entries of one name and version are taken to have the same dependencies. The loop is cut after any number of turns; `YarnEnds.ImportToTheEnd` is the loop as it stands, where it ends.
- YarnEnds.WalkEnds: one way; a cycle through a name with several versions may still end when its packages find each other at the root.
- GraphEncoding.SameIdIffSameView: graphs without a workspace section; `canonical_workspace_bytes` is not part of this model.
- Publish.EveryStepSafe: the Unix shape of replacing a file; Windows replace calls, permissions and the project mutation lock are not modelled, and the names of temps are any names other than the two destinations.
- LockNormal.WrittenReadsBackIff: the JSON text between writing and reading is taken to be lossless; entry safety and readable npm names are parameters.
- LockNormal.Lockfile.ValidateV2: the messages are reduced to the kind of fault and its path.
- StrictLayout.CheckPlacement: the messages are reduced to the kind of fault.
- DerivedTree.RunThroughStore: image sealing and digest validation are not modelled, a store failure is only placed before or after the build; scripts are functions of the package directory, and isolating a shared `package.json` is taken not to change content.
- DerivedTree.MirrorTree: the source is read as it was at the start; permissions other than a file mode and modification times are not modelled.
- SymlinkDepth.DepthCheckIff: above the `i32` range only the safe direction holds; a debug build would stop with an overflow instead of wrapping.
- SymlinkDepth.ResolveRelative: the program compiles this function only for Windows; the model gives its loop Unix components, without prefixes or backslashes.
- RelativePath.RelativePathLeads: path text is taken to be valid UTF-8, where `to_string_lossy` changes nothing; Windows prefixes are not modelled.
- npm lock import, yarn lock parsing and dev marking, npm config, integrity strings, benchmarks, metrics, doctor and the command line: mostly field copying and reporting.
