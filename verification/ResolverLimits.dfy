/**
 What the native resolver promises over a whole resolve, each with the condition it needs, and a run of the
 resolver's own requests where the condition fails.
 */
module ResolverLimits {
  import opened Options
  import opened ResolverState
  import opened ResolverSteps
  import opened ResolverLoads
  import opened Resolver

  // ---------------------------------------------------------------- what a package declares

  /** The package depends on the name, optionally or not. */
  predicate Declares(metadata: Metadata, name: string)
  {
    name in metadata.dependencies || name in metadata.optionalDependencies
  }

  /** The spec it asks for; where it declares the name twice the optional one counts. */
  function DeclaredSpec(metadata: Metadata, name: string): string
    requires Declares(metadata, name)
  {
    if name in metadata.optionalDependencies then metadata.optionalDependencies[name] else metadata.dependencies[name]
  }

  /** A node asks for exactly what its package declares. */
  lemma DependenciesAreDeclared(r: AsyncGraphResolver, path: Path, name: string)
    requires r.Valid() && path in r.nodes
    ensures name in r.nodes[path].dependencies <==> Declares(r.nodes[path].metadata, name)
    ensures Declares(r.nodes[path].metadata, name) ==> r.nodes[path].dependencies[name] == DeclaredSpec(r.nodes[path].metadata, name)
  {
    hide HistoryFits, FiniteRegistry, TargetsOnChain, FlagsAreConjunctions, Promises, TargetsJustified;
  }

  // ---------------------------------------------------------------- every dependency has a target

  /** The registry, the workspace or a source offers this version for the name. */
  ghost predicate OnOffer(env: Environment, name: string, metadata: Metadata)
  {
    exists s ::
      || env.workspace(name, s) == Link(metadata)
      || (exists p :: env.loadSource(p, s) == Some(metadata))
      || Offered(env, name, s, metadata)
  }

  /** Everything on offer runs on the target platform. */
  ghost predicate NothingForeign(env: Environment)
  {
    forall n, m :: OnOffer(env, n, m) ==> env.platformFits(n, m)
  }

  lemma OffersIsOnOffer(env: Environment, before: Nodes, parent: Path, name: string, requested: string, metadata: Metadata)
    requires Offers(env, before, parent, name, requested, metadata)
    ensures OnOffer(env, name, metadata)
  {
    hide PeersFit;
    var spec := SpecAt(env, before, parent, name, requested);
    if AsksRegistry(env, name, spec) {
      assert Offered(env, name, spec, metadata);
    }
  }

  /** A resolve that started on no nodes and did not fail. */
  ghost predicate Resolved(r: AsyncGraphResolver, start: Snap, budget: nat)
    reads r
  {
    r.Valid() && start.nodes == map[] && RunAnswered(r.env, start, r.S(), budget, None)
  }

  /** The package's request for the name was skipped, because what was on offer was for another platform. */
  ghost predicate SkippedForeign(r: AsyncGraphResolver, path: Path, name: string)
    reads r
  {
    exists i :: 0 <= i < |r.skips| && r.skips[i].asker == path && r.skips[i].name == name && GenuineSkip(r.env, r.nodes, r.skips[i])
  }

  /** After a successful resolve a dependency of any package lacks a target if and only if its request was skipped. */
  lemma MissingIff(r: AsyncGraphResolver, start: Snap, budget: nat, path: Path, name: string)
    requires Resolved(r, start, budget) && path in r.nodes && Declares(r.nodes[path].metadata, name)
    ensures name !in r.nodes[path].targets <==> SkippedForeign(r, path, name)
  {
    hide GenuineSkip, Taken, FiniteRegistry, Consistent, Promises, TargetsJustified;
    DependenciesAreDeclared(r, path, name);
    assert Complete(r.S(), path);
    if name !in r.nodes[path].targets {
      var i :| 0 <= i < |r.skips| && r.skips[i].asker == path && r.skips[i].name == name;
      assert GenuineSkip(r.env, r.S().nodes, r.S().skips[i]);
    }
  }

  /** Where nothing on offer is foreign, every dependency of every package has a target. */
  lemma EveryDependencyHasTarget(r: AsyncGraphResolver, start: Snap, budget: nat, path: Path, name: string)
    requires Resolved(r, start, budget) && NothingForeign(r.env) && path in r.nodes && Declares(r.nodes[path].metadata, name)
    ensures name in r.nodes[path].targets
  {
    hide Offers, OnOffer, Resolved;
    MissingIff(r, start, budget, path, name);
    if SkippedForeign(r, path, name) {
      var i :| 0 <= i < |r.skips| && r.skips[i].asker == path && r.skips[i].name == name && GenuineSkip(r.env, r.nodes, r.skips[i]);
      var skip := r.skips[i];
      assert Unfit(r.env, skip.before, skip.parent, skip.name, skip.requested, skip.metadata);
      OffersIsOnOffer(r.env, skip.before, skip.parent, skip.name, skip.requested, skip.metadata);
    }
  }

  /** A required copy lacks a required dependency only if an optional request placed it and a later one made it required. */
  lemma GapMeansUpgraded(r: AsyncGraphResolver, start: Snap, budget: nat, path: Path, name: string)
    requires Resolved(r, start, budget) && path in r.nodes && !r.nodes[path].optional
    requires name in r.nodes[path].metadata.dependencies && name !in r.nodes[path].metadata.optionalDependencies
    requires name !in r.nodes[path].targets
    ensures SkippedForeign(r, path, name)
    ensures exists i, j ::
              FirstLanding(r.landings, path, i) && r.landings[i].optional &&
              i < j < |r.landings| && r.landings[j].path == path && !r.landings[j].optional
  {
    hide GenuineSkip, Taken, FiniteRegistry, WellPlaced, TargetsOnChain, Promises, SkippedForeign, SkippedBy, TargetsJustified;
    DependenciesAreDeclared(r, path, name);
    MissingIff(r, start, budget, path, name);
    assert Complete(r.S(), path);
    var i :| FirstLanding(r.landings, path, i) && r.landings[i].optional;
    var j :| 0 <= j < |r.landings| && r.landings[j].path == path && !r.landings[j].optional;
    assert i < j;
  }

  // ---------------------------------------------------------------- Node loads what was recorded

  /**
   In a registry-only world where whatever is on offer for a name suits every request for it and runs on the platform, a
   successful resolve gives every dependency of every package a target, which is the copy Node loads and in range.
   */
  lemma EveryEdgeLoads(r: AsyncGraphResolver, start: Snap, budget: nat, path: Path, name: string, spec: string)
    requires Resolved(r, start, budget) && Compatible(r.env) && NothingForeign(r.env)
    requires path in r.nodes && Declares(r.nodes[path].metadata, name)
    ensures name in r.nodes[path].targets
    ensures var target := r.nodes[path].targets[name];
            Loads(r.nodes, path, name, target) && target in r.nodes && InRange(r.env, name, spec, r.nodes[target])
  {
    hide HistoryFits, FiniteRegistry, Compatible, NothingForeign, NearestAt, TargetsJustified;
    EveryDependencyHasTarget(r, start, budget, path, name);
    var target := r.nodes[path].targets[name];
    assert Loads(r.nodes, path, name, target);
    assert OnAncestorChain(target, path, name);
    ChainEndsInName(target, path, name);
    assert SuitsAll(r.env, target[|target| - 1], r.nodes[target].metadata.version);
  }

  // ---------------------------------------------------------------- targets are in range

  /** Placed ancestors keep their names and versions, so a request sees the same overrides later. */
  lemma {:induction false} AncestorsStay(before: Nodes, after: Nodes, path: Path)
    requires WellPlaced(before) && IsPlaced(before, path) && Grew(before, after)
    ensures AncestorsOf(after, path) == AncestorsOf(before, path)
    decreases |path|
  {
    if path != [] {
      assert Parent(path) == path[..|path| - 1];
      AncestorsStay(before, after, path[..|path| - 1]);
    }
  }

  lemma AnswerInRange(
    env: Environment, bounds: Bounds, before: Nodes, after: Nodes, nodes: Nodes, parent: Path, name: string, requested: string,
    optional: bool, target: Path)
    requires FiniteRegistry(env, bounds) && NoDetours(env) && Grew(after, nodes)
    requires AnswersRequest(env, before, after, parent, name, requested, optional, target)
    requires AsksRegistry(env, name, SpecAt(env, nodes, parent, name, requested))
    ensures target in nodes && InRange(env, name, SpecAt(env, nodes, parent, name, requested), nodes[target])
  {
    hide FiniteRegistry, NoDetours, AnswersRegistry;
    GrewThen(before, after, nodes);
    AncestorsStay(before, nodes, parent);
    AlwaysInRange(env, bounds, before, after, parent, name, SpecAt(env, before, parent, name, requested), optional, target);
  }

  /**
   Where no detour is possible: the target of every registry dependency of every package that is no workspace link is
   in the range its package declares, overrides applied.
   */
  lemma EveryTargetInRange(r: AsyncGraphResolver, path: Path, name: string)
    requires r.Valid() && NoDetours(r.env) && path in r.nodes && !r.nodes[path].link && name in r.nodes[path].targets
    ensures Declares(r.nodes[path].metadata, name) && r.nodes[path].targets[name] in r.nodes
    ensures var spec := SpecAt(r.env, r.nodes, path, name, DeclaredSpec(r.nodes[path].metadata, name));
            AsksRegistry(r.env, name, spec) ==> InRange(r.env, name, spec, r.nodes[r.nodes[path].targets[name]])
  {
    hide HistoryFits, FiniteRegistry, NoDetours, Promises, FlagsAreConjunctions, AnswersRequest, OnAncestorChain;
    DependenciesAreDeclared(r, path, name);
    var (requested, target) := (r.nodes[path].dependencies[name], r.nodes[path].targets[name]);
    assert TargetsJustified(r.env, r.nodes) && TargetsOnChain(r.nodes);
    assert Justified(r.env, r.nodes, path, name, requested, target);
    var before, after, parent, optional :|
      && AnswersRequest(r.env, before, after, parent, name, requested, optional, target) && Grew(after, r.nodes)
      && (parent == path || (parent == [] && path in r.nodes && r.nodes[path].link));
    if AsksRegistry(r.env, name, SpecAt(r.env, r.nodes, path, name, requested)) {
      AnswerInRange(r.env, r.bounds, before, after, r.nodes, path, name, requested, optional, target);
    }
  }

  /**
   A root request that was answered between two states of a run: its copy is in the root slot at the end, its flags are
   logged, and where no detour is possible it is in the range of the spec the manifest's overrides make of it.
   */
  lemma RootAnswerInRange(
    env: Environment, bounds: Bounds, a: Snap, b: Snap, name: string, requested: string, optional: bool, dev: bool)
    requires FiniteRegistry(env, bounds) && RequestAnswered(env, a, b, [], name, requested, optional, dev, [name])
    ensures [name] in b.nodes && Logged(a.landings, b.landings, Landing([name], optional, dev))
    ensures var spec := env.effectiveSpec(name, requested, []);
            NoDetours(env) && AsksRegistry(env, name, spec) ==> InRange(env, name, spec, b.nodes[[name]])
  {
    hide FiniteRegistry, NoDetours, AnswersRequest;
    var c, d :|
      && Advanced(a, c) && Advanced(d, b) && AnswersRequest(env, c.nodes, d.nodes, [], name, requested, optional, [name])
      && Logged(c.landings, d.landings, Landing([name], optional, dev));
    LoggedBetween(a.landings, c.landings, d.landings, b.landings, Landing([name], optional, dev));
    AnsweredIsThere(env, c.nodes, d.nodes, [], name, requested, optional, [name]);
    assert SpecAt(env, b.nodes, [], name, requested) == env.effectiveSpec(name, requested, []);
    if NoDetours(env) && AsksRegistry(env, name, env.effectiveSpec(name, requested, [])) {
      AnswerInRange(env, bounds, c.nodes, d.nodes, b.nodes, [], name, requested, optional, [name]);
    }
  }

  lemma AnsweredIsThere(
    env: Environment, before: Nodes, after: Nodes, parent: Path, name: string, requested: string, optional: bool, target: Path)
    requires AnswersRequest(env, before, after, parent, name, requested, optional, target)
    ensures target in after
  {
  }

  lemma LoggedBetween(a: seq<Landing>, c: seq<Landing>, d: seq<Landing>, b: seq<Landing>, entry: Landing)
    requires a <= c && d <= b && Logged(c, d, entry)
    ensures Logged(a, b, entry)
  {
  }

  // ---------------------------------------------------------------- peers decide the version

  /** Whatever copy of the peer the package would load from `parent` is in range, and a peer without any copy is optional. */
  ghost predicate PeersServed(env: Environment, nodes: Nodes, parent: Path, metadata: Metadata)
  {
    && (forall peer, target :: peer in metadata.peerDependencies && Loads(nodes, parent, peer, target) ==>
          env.matches(metadata.peerDependencies[peer], nodes[target].metadata.version))
    && (forall peer :: peer in metadata.peerDependencies && (forall target :: !Loads(nodes, parent, peer, target)) ==>
          peer in metadata.optionalPeers)
  }

  lemma PeersServedIff(env: Environment, nodes: Nodes, parent: Path, metadata: Metadata)
    ensures PeersFit(env, nodes, parent, metadata) <==> PeersServed(env, nodes, parent, metadata)
  {
    forall peer, k | NearestAt(nodes, parent, peer, k)
      ensures Loads(nodes, parent, peer, parent[..k] + [peer])
    {
    }
    if PeersServed(env, nodes, parent, metadata) {
      forall peer | peer in metadata.peerDependencies
        ensures PeerFits(env, nodes, parent, metadata, peer)
      {
        forall target | Loads(nodes, parent, peer, target)
          ensures exists k :: NearestAt(nodes, parent, peer, k)
        {
        }
      }
    }
  }

  /**
   The version a request selects: the selector's where its peers are served; else the newest one listed whose peers are,
   every newer one having been readable and not served; the selector's after all when none is.
   */
  lemma SelectedIsNewestServed(env: Environment, nodes: Nodes, parent: Path, registryName: string, range: string, chosen: Metadata)
    requires Selects(env, nodes, parent, registryName, range, Some(chosen))
    ensures env.select(registryName, range).Some?
    ensures var (first, listed) := (env.select(registryName, range).value, env.versionsNewestFirst(registryName, range));
            || (PeersServed(env, nodes, parent, first) && chosen == first)
            || (!PeersServed(env, nodes, parent, first) && PeersServed(env, nodes, parent, chosen)
                && exists i :: 0 <= i < |listed| && listed[i] == Some(chosen) && NoneServedBefore(env, nodes, parent, listed, i))
            || (!PeersServed(env, nodes, parent, first) && chosen == first && NoneServedBefore(env, nodes, parent, listed, |listed|))
  {
    hide PeersFit, PeersServed;
    var (first, listed) := (env.select(registryName, range).value, env.versionsNewestFirst(registryName, range));
    forall metadata
      ensures PeersFit(env, nodes, parent, metadata) <==> PeersServed(env, nodes, parent, metadata)
    {
      PeersServedIff(env, nodes, parent, metadata);
    }
    if !PeersFit(env, nodes, parent, first) {
      var i :| ScanStopsAt(env, nodes, parent, listed, i) && Some(chosen) == if i == |listed| then Some(first) else listed[i];
      assert NoneServedBefore(env, nodes, parent, listed, i);
    }
  }

  ghost predicate NoneServedBefore(env: Environment, nodes: Nodes, parent: Path, listed: seq<Option<Metadata>>, n: nat)
    requires n <= |listed|
  {
    forall j :: 0 <= j < n ==> listed[j].Some? && !PeersServed(env, nodes, parent, listed[j].value)
  }

  // ---------------------------------------------------------------- when a resolve succeeds

  /** Every request of every name selects a version, and no version listed is unreadable. */
  ghost predicate EverythingSelects(env: Environment)
  {
    && (forall n, s :: env.select(n, s).Some?)
    && forall n, s, i :: 0 <= i < |env.versionsNewestFirst(n, s)| ==> env.versionsNewestFirst(n, s)[i].Some?
  }

  /** No request can fail at once where offers suit all requests, none is foreign and everything selects. */
  lemma NothingFailsAtOnce(
    env: Environment, nodes: Nodes, parent: Path, name: string, requested: string, optional: bool, error: ResolveError)
    requires Compatible(env) && NothingForeign(env) && EverythingSelects(env) && Promises(env, nodes)
    ensures !FailsAtOnce(env, nodes, parent, name, requested, optional, error)
  {
    hide OnOffer, NamesFit, TargetsLoaded, PeersFit, Selects, NoneVisible;
    var spec := SpecAt(env, nodes, parent, name, requested);
    match error
    case RegistryError =>
      SelectsSomething(env, nodes, parent, env.registryRequest(name, spec).0, env.registryRequest(name, spec).1);
    case PlacementConflict =>
      if parent + [name] in nodes {
        assert parent[..|parent|] == parent;
        CopyIsVisible(env, nodes, parent, name, spec, |parent|);
        SeenIsVisible(env, nodes, parent, name, env.registryRequest(name, spec).1, |parent|);
      }
    case OutOfBudget =>
      forall m
        ensures !MayDetour(env, Detour(nodes, parent, name, requested, m))
      {
        if Offers(env, nodes, parent, name, requested, m) {
          SelectedIsOffered(env, nodes, parent, name, spec, m);
        }
      }
    case PlatformMismatch =>
      forall m
        ensures !Unfit(env, nodes, parent, name, requested, m)
      {
        if Offers(env, nodes, parent, name, requested, m) {
          OffersIsOnOffer(env, nodes, parent, name, requested, m);
        }
      }
    case _ =>
  }

  lemma SelectsSomething(env: Environment, nodes: Nodes, parent: Path, registryName: string, range: string)
    requires EverythingSelects(env)
    ensures !Selects(env, nodes, parent, registryName, range, None)
  {
    hide PeersFit;
  }

  lemma SeenIsVisible(env: Environment, nodes: Nodes, parent: Path, name: string, range: string, k: nat)
    requires VisibleAt(env, nodes, parent, name, range, k)
    ensures !NoneVisible(env, nodes, parent, name, range)
  {
  }

  lemma SelectedIsOffered(env: Environment, nodes: Nodes, parent: Path, name: string, spec: string, metadata: Metadata)
    requires Selects(env, nodes, parent, env.registryRequest(name, spec).0, env.registryRequest(name, spec).1, Some(metadata))
    ensures Offered(env, name, spec, metadata)
  {
    hide PeersFit;
  }

  /**
   In a registry-only world where whatever is on offer suits every request for its name and runs on the platform, every
   request selects a version and peers bind, no run of requests fails: every manifest resolves.
   */
  lemma EveryRunSucceeds(r: AsyncGraphResolver, start: Snap, budget: nat, failure: Option<ResolveError>)
    requires r.Valid() && RunAnswered(r.env, start, r.S(), budget, failure)
    requires Compatible(r.env) && NothingForeign(r.env) && EverythingSelects(r.env) && forall nodes :: r.env.bindPeers(nodes) == Some([])
    ensures failure.None?
  {
    hide HistoryFits, FiniteRegistry, Consistent, TargetsJustified, Compatible, NothingForeign, EverythingSelects, HasCause, Promises,
      AllFit, PairsDistinct, NewComplete, Advanced, TargetsKept, Grew;
    NothingHasCause(r.env, r.nodes);
  }

  lemma NothingHasCause(env: Environment, nodes: Nodes)
    requires Compatible(env) && NothingForeign(env) && EverythingSelects(env) && Promises(env, nodes)
    ensures forall parent, n, requested, optional, error :: !HasCause(env, nodes, parent, n, requested, optional, error)
  {
    hide Compatible, NothingForeign, EverythingSelects, FailsAtOnce, Promises;
    forall parent, n, requested, optional, error
      ensures !FailsAtOnce(env, nodes, parent, n, requested, optional, error)
    {
      NothingFailsAtOnce(env, nodes, parent, n, requested, optional, error);
    }
  }

  lemma ChainEndsInName(target: Path, path: Path, name: string)
    requires OnAncestorChain(target, path, name)
    ensures target != [] && target[|target| - 1] == name
  {
  }

  /** Without aliases, sources and members every slot holds the package it names, in every state of every run. */
  lemma EverySlotHoldsItsPackage(r: AsyncGraphResolver, path: Path)
    requires r.Valid() && PlainNames(r.env) && path in r.nodes
    ensures path != [] && r.nodes[path].metadata.name == path[|path| - 1]
  {
    hide HistoryFits, FiniteRegistry, TargetsOnChain, FlagsAreConjunctions;
  }

  // ---------------------------------------------------------------- a small world

  /** What each package depends on. */
  function Needs(name: string): map<string, string>
  {
    match name
    case "a" => map["b" := "1"]
    case "f" => map["g" := "1"]
    case "g" => map["a" := "1"]
    case "h" => map["c" := "npm:d", "k" := "1"]
    case "k" => map["c" := "1"]
    case "w" => map["x" := "1"]
    case "y" => map["w" := "1", "x" := "2"]
    case _ => map[]
  }

  function Release(name: string, version: string): Metadata
  {
    Metadata(name, version, Needs(name), if name == "f" then map["a" := "1"] else map[], map[], {})
  }

  /** The range "2" asks for version 2 and every other range for version 1. */
  function Wanted(range: string): string
  {
    if range == "2" then "2" else "1"
  }

  /** A registry of two versions of everything; the `foreign` names do not run on this platform. */
  function World(foreign: set<string>): Environment
  {
    Environment(
      (name: string, spec: string, ancestors: seq<(string, Version)>) => spec,
      (name: string, spec: string) => NotLocal,
      (spec: string) => false,
      (path: Path, spec: string) => None,
      (name: string, spec: string) => if spec == "npm:d" then ("d", "1") else (name, spec),
      (range: string, version: Version) => version == Wanted(range),
      (name: string, range: string) => Some(Release(name, Wanted(range))),
      (name: string, range: string) => [],
      (name: string, metadata: Metadata) => name !in foreign,
      (nodes: Nodes) => Some([]))
  }

  function WorldBounds(): Bounds
  {
    Bounds({"a", "b", "c", "f", "g", "h", "k", "w", "x", "y"}, {"1", "2"}, {})
  }

  lemma WorldIsFinite(foreign: set<string>)
    ensures FiniteRegistry(World(foreign), WorldBounds()) && NoDetours(World(foreign))
  {
    hide Release, Named, Wanted;
    forall n, v
      ensures Named(WorldBounds(), Release(n, v)) && Release(n, v).name == n && Release(n, v).version == v
    {
      ReleaseNamed(n, v);
    }
    forall s
      ensures Wanted(s) in WorldBounds().versions
    {
      WantedExists(s);
    }
  }

  lemma ReleaseNamed(name: string, version: string)
    ensures Named(WorldBounds(), Release(name, version)) && Release(name, version).name == name && Release(name, version).version == version
  {
  }

  lemma WantedExists(range: string)
    ensures Wanted(range) in {"1", "2"}
  {
  }

  /** The only things that can fail here are a required request for a foreign name, and a slot taken by another version. */
  lemma WorldFailsOnly(
    foreign: set<string>, nodes: Nodes, parent: Path, name: string, requested: string, optional: bool, error: ResolveError)
    ensures FailsAtOnce(World(foreign), nodes, parent, name, requested, optional, error) ==>
              error == PlacementConflict || (error == PlatformMismatch && !optional && foreign != {})
  {
    hide MayDetour, Release, Wanted, NoneVisible, FiniteRegistry, NoDetours;
    WorldIsFinite(foreign);
    if error == OutOfBudget {
      forall m
        ensures !MayDetour(World(foreign), Detour(nodes, parent, name, requested, m))
      {
        NeverDetours(World(foreign), WorldBounds(), Detour(nodes, parent, name, requested, m));
      }
    }
  }

  /** Nothing in this world can fail an optional request, or any request when nothing is foreign. */
  lemma NothingFails(
    foreign: set<string>, a: Snap, b: Snap, parent: Path, name: string, requested: string, optional: bool, outcome: Outcome)
    requires (optional || foreign == {}) && name !in foreign && parent + [name] !in a.nodes
    requires Answered(World(foreign), a, b, parent, name, optional, false, 0, outcome)
    requires outcome.Skipped? ==> UnfitFrom(World(foreign), a.nodes, parent, name, requested)
    requires outcome.Failed? ==> HasCause(World(foreign), b.nodes, parent, name, requested, optional, outcome.error)
    ensures outcome.At?
  {
    hide Extends, NewComplete, Logged, OnAncestorChain, FailsAtOnce, Offers, World;
    assert !UnfitFrom(World(foreign), a.nodes, parent, name, requested) by { NameFitsWorld(foreign, a.nodes, parent, name, requested); }
    forall p, n, r, o, e
      ensures FailsAtOnce(World(foreign), b.nodes, p, n, r, o, e) ==>
                e == PlacementConflict || (e == PlatformMismatch && !o && foreign != {})
    {
      WorldFailsOnly(foreign, b.nodes, p, n, r, o, e);
    }
  }

  lemma NameFitsWorld(foreign: set<string>, nodes: Nodes, parent: Path, name: string, requested: string)
    requires name !in foreign
    ensures !UnfitFrom(World(foreign), nodes, parent, name, requested)
  {
    hide Offers;
  }

  lemma NoPeersFit(env: Environment, nodes: Nodes, parent: Path, metadata: Metadata)
    requires metadata.peerDependencies == map[]
    ensures PeersFit(env, nodes, parent, metadata)
  {
  }

  lemma PlacesWanted(
    foreign: set<string>, before: Nodes, after: Nodes, parent: Path, name: string, requested: string, optional: bool, outcome: Outcome)
    requires NoneVisible(World(foreign), before, parent, name, World(foreign).registryRequest(name, requested).1)
    requires parent + [name] !in before && outcome.At?
    requires AnswersRegistry(World(foreign), before, after, parent, name, requested, optional, outcome)
    ensures outcome == At(parent + [name]) && parent + [name] in after
    ensures var (registryName, range) := World(foreign).registryRequest(name, requested);
            after[parent + [name]].metadata == Release(registryName, Wanted(range))
  {
    hide PeersFit;
    var env := World(foreign);
    var chosen :| PlacesChosen(env, before, after, parent, name, requested, optional, outcome, chosen);
    var (registryName, range) := env.registryRequest(name, requested);
    NoPeersFit(env, before, parent, Release(registryName, Wanted(range)));
  }

  /** What the runs below know of their resolver. */
  ghost predicate Running(r: AsyncGraphResolver, foreign: set<string>)
    reads r
  {
    r.Valid() && r.env == World(foreign) && r.bounds == WorldBounds() && r.detours == []
  }

  lemma NoDetoursTaken(r: AsyncGraphResolver, foreign: set<string>)
    requires r.Valid() && r.env == World(foreign) && r.bounds == WorldBounds()
    ensures r.detours == []
  {
    hide MayDetour, FiniteRegistry, NoDetours, Consistent, Promises;
    WorldIsFinite(foreign);
    if r.detours != [] {
      assert Taken(r.env, r.S().nodes, r.S().detours[0]);
      NeverDetours(r.env, r.bounds, r.detours[0]);
    }
  }

  /** A request for what nothing visible offers is placed below the package that asks. */
  method AskFresh(r: AsyncGraphResolver, foreign: set<string>, parent: Path, name: string, requested: string, optional: bool)
    returns (outcome: Outcome)
    requires Running(r, foreign) && parent in r.nodes && name in r.bounds.names && parent + [name] !in r.nodes
    requires (optional || foreign == {}) && name !in foreign
    requires NoneVisible(r.env, r.nodes, parent, name, r.env.registryRequest(name, requested).1)
    modifies r
    ensures Running(r, foreign) && Extends(old(r.S()), r.S(), parent + [name]) && outcome == At(parent + [name]) && parent + [name] in r.nodes
    ensures AnswersRequest(r.env, old(r.nodes), r.nodes, parent, name, requested, optional, parent + [name])
    ensures var (registryName, range) := r.env.registryRequest(name, requested);
            r.nodes[parent + [name]].metadata == Release(registryName, Wanted(range))
  {
    hide FiniteRegistry, Consistent, AnswersRegistry, HistoryFits, Promises, UnfitFrom, NoneVisible, Loads, Compatible, AllFit, PairsDistinct,
      Extends, NewComplete, Logged, OnAncestorChain, Release, Wanted, HasCause, TargetsJustified, AnswersRequest;
    ghost var before := r.S();
    outcome := r.ResolveDependency(parent, name, requested, optional, false, 0);
    RegistryOnlyAsks(foreign, before.nodes, parent, name, requested);
    NothingFails(foreign, before, r.S(), parent, name, requested, optional, outcome);
    PlacesWanted(foreign, before.nodes, r.nodes, parent, name, requested, optional, outcome);
    NoDetoursTaken(r, foreign);
  }

  /** In this world every request is what it says and goes to the registry. */
  lemma RegistryOnlyAsks(foreign: set<string>, nodes: Nodes, parent: Path, name: string, requested: string)
    ensures SpecAt(World(foreign), nodes, parent, name, requested) == requested && AsksRegistry(World(foreign), name, requested)
  {
  }

  lemma WorldPromisesNothing(foreign: set<string>, nodes: Nodes, parent: Path, name: string, metadata: Metadata)
    ensures Suits(World(foreign), nodes, parent, name, metadata)
  {
    var env := World(foreign);
    assert env.registryRequest("c", "npm:d").0 != "c";
    assert Offered(env, "x", "2", Release("x", "2")) && !env.matches(env.registryRequest("x", "1").1, Release("x", "2").version);
  }

  /** Place the first version of a name that is not on the chain, as its first request does before it asks for what it needs. */
  method PlaceFirst(r: AsyncGraphResolver, foreign: set<string>, parent: Path, name: string)
    requires Running(r, foreign) && IsPlaced(r.nodes, parent) && parent + [name] !in r.nodes
    requires name !in foreign && name !in parent
    modifies r
    ensures Running(r, foreign) && NothingBelow(r.nodes, parent + [name], {})
    ensures Places(old(r.S()), r.S(), parent + [name], Fresh(name, Release(name, "1"), false, false, false), None)
  {
    hide FiniteRegistry, Consistent, HistoryFits, Promises, AllFit, PairsDistinct, Suits, Release, TargetsJustified;
    WorldPromisesNothing(foreign, r.nodes, parent, name, Release(name, "1"));
    r.Place(parent, name, Release(name, "1"), false, false, false, None);
  }

  /** A request for what the nearest match offers shares it. */
  method AskShared(r: AsyncGraphResolver, foreign: set<string>, parent: Path, name: string, requested: string, k: nat)
    returns (outcome: Outcome)
    requires Running(r, foreign) && parent in r.nodes && name in r.bounds.names
    requires NearestMatch(r.env, r.nodes, parent, name, r.env.registryRequest(name, requested).1, k)
    modifies r
    ensures Running(r, foreign) && Extends(old(r.S()), r.S(), parent + [name])
    ensures k <= |parent| && outcome == At(parent[..k] + [name]) && outcome.path in r.nodes && OnAncestorChain(outcome.path, parent, name)
    ensures Logged(old(r.landings), r.landings, Landing(outcome.path, false, false)) && r.nodes.Keys == old(r.nodes).Keys
    ensures AnswersRequest(r.env, old(r.nodes), r.nodes, parent, name, requested, false, outcome.path)
  {
    hide FiniteRegistry, Consistent, HistoryFits, Promises, UnfitFrom, Loads, Compatible, AllFit, PairsDistinct, Extends,
      NewComplete, Logged, OnAncestorChain, Release, Wanted, PlacesChosen, HasCause, TargetsJustified, AnswersRequest;
    RegistryOnlyAsks(foreign, r.nodes, parent, name, requested);
    outcome := r.ResolveDependency(parent, name, requested, false, false, 0);
    NoDetoursTaken(r, foreign);
  }

  method RecordAt(r: AsyncGraphResolver, foreign: set<string>, path: Path, name: string, ghost requested: string, target: Path)
    requires Running(r, foreign) && path in r.nodes && target in r.nodes && OnAncestorChain(target, path, name)
    requires name in r.nodes[path].dependencies && r.nodes[path].dependencies[name] == requested
    requires Justified(r.env, r.nodes, path, name, requested, target)
    modifies r
    ensures Running(r, foreign) && RecordsOutcome(old(r.S()), r.S(), path, name, At(target))
  {
    hide FiniteRegistry, Consistent, HistoryFits, Promises, AllFit, PairsDistinct, OnAncestorChain, Loads, Justified, TargetsJustified;
    NotCompatible(foreign);
    r.Record(path, name, requested, At(target));
  }

  lemma NotCompatible(foreign: set<string>)
    ensures !Compatible(World(foreign))
  {
    var env := World(foreign);
    assert Offered(env, "x", "2", Release("x", "2")) && !env.matches(env.registryRequest("x", "1").1, Release("x", "2").version);
  }

  // ---------------------------------------------------------------- one request and its record

  /** Placed copies stay; only the targets of `asker` change, by the one. */
  ghost predicate OneTarget(before: Nodes, after: Nodes, asker: Path, name: string, target: Path)
  {
    && asker in before && asker in after && after[asker].targets == before[asker].targets[name := target] && target in after
    && forall p :: p in before ==>
         p in after && after[p].metadata == before[p].metadata && (p != asker ==> after[p].targets == before[p].targets)
  }

  /** No free slot of a placed package is taken, `slot` apart. */
  ghost predicate OnlySlotTaken(before: Nodes, after: Nodes, slot: Path)
  {
    forall q {:trigger q in after} :: q in after && q !in before && |q| > 1 && Parent(q) in before ==> q == slot
  }

  lemma RequestThenRecord(a: Snap, b: Snap, c: Snap, asker: Path, name: string, target: Path)
    requires Extends(a, b, asker + [name]) && asker in a.nodes && target in b.nodes && RecordsOutcome(b, c, asker, name, At(target))
    ensures OneTarget(a.nodes, c.nodes, asker, name, target) && OnlySlotTaken(a.nodes, c.nodes, asker + [name])
    ensures a.landings <= b.landings == c.landings
  {
  }

  lemma OwnSlotOnChain(parent: Path, name: string)
    ensures OnAncestorChain(parent + [name], parent, name)
  {
    assert parent[..|parent|] == parent;
  }

  method RequestFresh(r: AsyncGraphResolver, foreign: set<string>, parent: Path, name: string, requested: string, optional: bool)
    requires Running(r, foreign) && parent in r.nodes && name in r.bounds.names && parent + [name] !in r.nodes
    requires (optional || foreign == {}) && name !in foreign
    requires NoneVisible(r.env, r.nodes, parent, name, r.env.registryRequest(name, requested).1)
    requires Declares(r.nodes[parent].metadata, name) && DeclaredSpec(r.nodes[parent].metadata, name) == requested
    modifies r
    ensures Running(r, foreign) && OneTarget(old(r.nodes), r.nodes, parent, name, parent + [name])
    ensures OnlySlotTaken(old(r.nodes), r.nodes, parent + [name])
    ensures var (registryName, range) := r.env.registryRequest(name, requested);
            r.nodes[parent + [name]].metadata == Release(registryName, Wanted(range))
  {
    hide AsyncGraphResolver.Valid, Release, Wanted, NoneVisible, Extends, OnAncestorChain, AnswersRequest, Justified, Declares;
    ghost var before := r.S();
    DependenciesAreDeclared(r, parent, name);
    var outcome := AskFresh(r, foreign, parent, name, requested, optional);
    ghost var asked := r.S();
    OwnSlotOnChain(parent, name);
    AskerStays(before, asked, parent + [name], parent);
    AnswerJustifies(r.env, before.nodes, r.nodes, parent, name, requested, optional, parent + [name]);
    RecordAt(r, foreign, parent, name, requested, parent + [name]);
    RequestThenRecord(before, asked, r.S(), parent, name, parent + [name]);
  }

  lemma AskerStays(a: Snap, b: Snap, at: Path, path: Path)
    requires Extends(a, b, at) && path in a.nodes
    ensures path in b.nodes && b.nodes[path].dependencies == a.nodes[path].dependencies
  {
  }

  method RequestShared(r: AsyncGraphResolver, foreign: set<string>, parent: Path, name: string, requested: string, k: nat)
    requires Running(r, foreign) && parent in r.nodes && name in r.bounds.names
    requires NearestMatch(r.env, r.nodes, parent, name, r.env.registryRequest(name, requested).1, k)
    requires Declares(r.nodes[parent].metadata, name) && DeclaredSpec(r.nodes[parent].metadata, name) == requested
    modifies r
    ensures Running(r, foreign) && k <= |parent| && OneTarget(old(r.nodes), r.nodes, parent, name, parent[..k] + [name])
    ensures r.nodes.Keys == old(r.nodes).Keys && Logged(old(r.landings), r.landings, Landing(parent[..k] + [name], false, false))
  {
    hide AsyncGraphResolver.Valid, Release, Wanted, NearestMatch, Extends, OnAncestorChain, Logged, AnswersRequest, Justified, Declares;
    ghost var before := r.S();
    DependenciesAreDeclared(r, parent, name);
    var outcome := AskShared(r, foreign, parent, name, requested, k);
    ghost var asked := r.S();
    AskerStays(before, asked, parent + [name], parent);
    AnswerJustifies(r.env, before.nodes, r.nodes, parent, name, requested, false, outcome.path);
    RecordAt(r, foreign, parent, name, requested, outcome.path);
    RequestThenRecord(before, asked, r.S(), parent, name, outcome.path);
  }

  /** Nothing lies between a package and a copy in its parent's `node_modules`. */
  lemma MatchAtParent(env: Environment, nodes: Nodes, parent: Path, child: string, name: string, range: string)
    requires parent + [name] in nodes && env.matches(range, nodes[parent + [name]].metadata.version)
    requires NothingBelow(nodes, parent + [child], {})
    ensures NearestMatch(env, nodes, parent + [child], name, range, |parent|)
    ensures (parent + [child])[..|parent|] == parent && OnAncestorChain(parent + [name], parent + [child], name)
  {
    var path := parent + [child];
    assert path[..|parent|] == parent && path[..|path|] == path;
  }

  /** From two levels down a copy at the root is the nearest match while the slots in between are free. */
  lemma MatchAtRoot(env: Environment, nodes: Nodes, parent: Path, child: string, name: string, range: string)
    requires |parent| == 1 && [name] in nodes && env.matches(range, nodes[[name]].metadata.version)
    requires parent + [name] !in nodes && parent + [child] + [name] !in nodes
    ensures NearestMatch(env, nodes, parent + [child], name, range, 0)
    ensures (parent + [child])[..0] + [name] == [name]
  {
    var path := parent + [child];
    assert path[..1] == parent && path[..2] == path && path[..0] + [name] == [name];
  }

  // ---------------------------------------------------------------- runs in it

  /** The package `top` with `first` placed for it and `second` below it, which has nothing yet. */
  ghost predicate TwoBelow(r: AsyncGraphResolver, foreign: set<string>, top: string, first: string, metadata: Metadata, second: string)
    reads r
  {
    && Running(r, foreign) && [top] in r.nodes && [top, first] in r.nodes && [top, second] in r.nodes
    && r.nodes[[top, first]].metadata == metadata && r.nodes[[top, second]].metadata == Release(second, "1")
    && r.nodes[[top, second]].targets == map[] && NothingBelow(r.nodes, [top, second], {})
  }

  /** The root needs `top`, which asks for `first` and then for `second`. */
  method PlaceTwo(foreign: set<string>, top: string, first: string, requested: string, optional: bool, second: string)
    returns (r: AsyncGraphResolver)
    requires {top, first, second} !! foreign && (optional || foreign == {}) && first in WorldBounds().names
    requires top != first && first != second && second != top
    requires Declares(Release(top, "1"), first) && DeclaredSpec(Release(top, "1"), first) == requested
    ensures fresh(r)
    ensures var (registryName, range) := World(foreign).registryRequest(first, requested);
            TwoBelow(r, foreign, top, first, Release(registryName, Wanted(range)), second)
  {
    hide FiniteRegistry, AsyncGraphResolver.Valid, Release, Wanted, Logged, SkippedBy, Declares, DeclaredSpec;
    WorldIsFinite(foreign);
    r := new AsyncGraphResolver(World(foreign), WorldBounds());
    var path := [top];
    assert [] + [top] == path && path + [first] == [top, first] && path + [second] == [top, second];
    PlaceFirst(r, foreign, [], top);
    assert NoneVisible(r.env, r.nodes, path, first, r.env.registryRequest(first, requested).1) by {
      NothingElseVisible(r.env, r.nodes, top, first, r.env.registryRequest(first, requested).1);
    }
    RequestFresh(r, foreign, path, first, requested, optional);
    assert Parent([top, second]) == path && [top, first][1] != [top, second][1];
    PlaceFirst(r, foreign, path, second);
  }

  lemma NothingElseVisible(env: Environment, nodes: Nodes, top: string, name: string, range: string)
    requires nodes.Keys == {[top]} && name != top
    ensures NoneVisible(env, nodes, [top], name, range)
  {
    assert [top][..0] + [name] == [name] && [name][0] == name && |[top][..1] + [name]| == 2;
  }

  /** A copy on which a required request landed is required, and nothing targets what is foreign. */
  lemma StillMissing(r: AsyncGraphResolver, foreign: set<string>, start: seq<Landing>, path: Path, name: string)
    requires Running(r, foreign) && path in r.nodes && name in foreign
    requires Logged(start, r.landings, Landing(path, false, false))
    ensures !r.nodes[path].optional && r.nodes[path].dependencies == MergedDependencies(r.nodes[path].metadata)
    ensures name !in r.nodes[path].targets
  {
    hide HistoryFits, FiniteRegistry, Promises, PairsDistinct, OnAncestorChain, WellPlaced, TargetsJustified;
    assert WellPlaced(r.nodes) && TargetsOnChain(r.nodes) && AllFit(r.env, r.nodes);
    PlacedDependencies(r.nodes, path);
    if name in r.nodes[path].targets {
      ChainEndsInName(r.nodes[path].targets[name], path, name);
    }
  }

  lemma PlacedDependencies(nodes: Nodes, path: Path)
    requires WellPlaced(nodes) && path in nodes
    ensures nodes[path].dependencies == MergedDependencies(nodes[path].metadata)
  {
  }

  lemma DeclaredInWorld()
    ensures Declares(Release("f", "1"), "a") && DeclaredSpec(Release("f", "1"), "a") == "1"
    ensures Declares(Release("g", "1"), "a") && DeclaredSpec(Release("g", "1"), "a") == "1"
    ensures Declares(Release("h", "1"), "c") && DeclaredSpec(Release("h", "1"), "c") == "npm:d"
    ensures Declares(Release("k", "1"), "c") && DeclaredSpec(Release("k", "1"), "c") == "1"
    ensures Declares(Release("w", "1"), "x") && DeclaredSpec(Release("w", "1"), "x") == "1"
    ensures Declares(Release("y", "1"), "x") && DeclaredSpec(Release("y", "1"), "x") == "2"
  {
  }

  lemma NeedsOfA()
    ensures "b" in MergedDependencies(Release("a", "1")) && "b" !in Release("a", "1").optionalDependencies
  {
  }

  /**
   `f` needs `a` optionally and `g`, which requires `a`. The optional request places `a` and skips its foreign `b`; the
   required one shares the copy, makes it required, and does not go back for `b`.
   */
  method UpgradedCopyMissesDependency() returns (r: AsyncGraphResolver)
    ensures r.Valid() && ["f", "a"] in r.nodes && ["f", "g"] in r.nodes && r.nodes[["f", "g"]].targets == map["a" := ["f", "a"]]
    ensures var copy := r.nodes[["f", "a"]];
            !copy.optional && "b" in copy.dependencies && "b" !in copy.metadata.optionalDependencies && "b" !in copy.targets
  {
    hide FiniteRegistry, AsyncGraphResolver.Valid, Release, Logged, NearestMatch, NothingBelow, Declares, DeclaredSpec;
    DeclaredInWorld();
    r := PlaceTwo({"b"}, "f", "a", "1", true, "g");
    var f, g := ["f"], ["f", "g"];
    assert f + ["a"] == ["f", "a"] && f + ["g"] == g;
    ReleaseNamed("a", "1");
    MatchAtParent(r.env, r.nodes, f, "g", "a", "1");
    ghost var start := r.landings;
    RequestShared(r, {"b"}, g, "a", "1", 1);
    StillMissing(r, {"b"}, start, ["f", "a"], "b");
    NeedsOfA();
  }

  /** `h` needs `c` as an alias of `d`, and `k`, which needs `c`. Lookup compares versions, not packages: `k` gets `d`. */
  method AliasSharesOtherPackage() returns (r: AsyncGraphResolver)
    ensures r.Valid() && ["h", "k"] in r.nodes && ["h", "c"] in r.nodes && r.nodes[["h", "k"]].targets == map["c" := ["h", "c"]]
    ensures r.env.registryRequest("c", "1").0 == "c" && r.nodes[["h", "c"]].metadata.name == "d"
  {
    hide FiniteRegistry, AsyncGraphResolver.Valid, Release, Logged, NearestMatch, NothingBelow, Declares, DeclaredSpec;
    DeclaredInWorld();
    r := PlaceTwo({}, "h", "c", "npm:d", false, "k");
    var h, k := ["h"], ["h", "k"];
    assert h + ["c"] == ["h", "c"] && h + ["k"] == k;
    ReleaseNamed("d", "1");
    MatchAtParent(r.env, r.nodes, h, "k", "c", "1");
    RequestShared(r, {}, k, "c", "1", 1);
  }

  /** `x` and `y` are at the root; `w` below `y` targets the root's `x`; the slots in between are free. */
  ghost predicate Sharing(r: AsyncGraphResolver)
    reads r
  {
    && Running(r, {}) && ["x"] in r.nodes && ["y"] in r.nodes && ["y", "w"] in r.nodes
    && ["y", "x"] !in r.nodes && ["y", "w", "x"] !in r.nodes
    && r.nodes[["x"]].metadata.version == "1" && r.nodes[["y", "w"]].targets == map["x" := ["x"]]
    && r.nodes[["y"]].metadata == Release("y", "1")
  }

  method PlaceThree() returns (r: AsyncGraphResolver)
    ensures Running(r, {}) && fresh(r) && r.nodes.Keys == {["x"], ["y"], ["y", "w"]}
    ensures r.nodes[["x"]].metadata.version == "1" && r.nodes[["y", "w"]].targets == map[]
    ensures r.nodes[["y"]].metadata == Release("y", "1") && r.nodes[["y", "w"]].metadata == Release("w", "1")
  {
    hide FiniteRegistry, AsyncGraphResolver.Valid, Release, Logged, SkippedBy, NothingBelow;
    WorldIsFinite({});
    r := new AsyncGraphResolver(World({}), WorldBounds());
    assert [] + ["x"] == ["x"] && [] + ["y"] == ["y"] && ["y"] + ["w"] == ["y", "w"];
    PlaceFirst(r, {}, [], "x");
    PlaceFirst(r, {}, [], "y");
    PlaceFirst(r, {}, ["y"], "w");
    ReleaseNamed("x", "1");
  }

  /** The root needs `x` 1 and `y`; `y` asks for `w` first, which asks for `x` 1. */
  method ShareRootCopy() returns (r: AsyncGraphResolver)
    ensures Sharing(r) && fresh(r)
  {
    hide FiniteRegistry, AsyncGraphResolver.Valid, Release, Logged, NearestMatch, Declares, DeclaredSpec;
    DeclaredInWorld();
    r := PlaceThree();
    var y, w := ["y"], ["y", "w"];
    assert y + ["w"] == w && y + ["x"] == ["y", "x"] && w + ["x"] == ["y", "w", "x"];
    assert ["y", "x"][1] != w[1] && |["y", "w", "x"]| == 3;
    MatchAtRoot(r.env, r.nodes, y, "w", "x", "1");
    RequestShared(r, {}, w, "x", "1", 0);
  }

  lemma OnlyRootVisible(nodes: Nodes, parent: Path, name: string)
    requires |parent| == 1 && parent + [name] !in nodes && [name] in nodes && nodes[[name]].metadata.version == "1"
    ensures NoneVisible(World({}), nodes, parent, name, "2")
  {
    assert parent[..0] + [name] == [name] && parent[..1] == parent;
  }

  /** A copy beside the package is nearer than one at the root. */
  lemma BesideIsNearer(nodes: Nodes, parent: Path, child: string, name: string)
    requires |parent| == 1 && parent + [name] in nodes && parent + [child] + [name] !in nodes
    ensures Loads(nodes, parent + [child], name, parent + [name]) && !Loads(nodes, parent + [child], name, [name])
  {
    var path := parent + [child];
    assert path[..1] == parent && path[..2] == path && path[..0] + [name] == [name];
    assert NearestAt(nodes, path, name, 1);
    forall k | NearestAt(nodes, path, name, k)
      ensures k == 1
    {
    }
    assert |[name]| == 1 && |parent + [name]| == 2;
  }

  /**
   The root needs `x` 1 and `y`; `y` needs `w`, which needs `x` 1, and `x` 2. The copy of `w` shares the root's `x`; then
   `y` claims the slot beside `w` for `x` 2, and that is what Node loads from `w`.
   */
  method TargetIsNotLoaded() returns (r: AsyncGraphResolver)
    ensures r.Valid() && ["y", "w"] in r.nodes && r.nodes[["y", "w"]].targets == map["x" := ["x"]]
    ensures !Loads(r.nodes, ["y", "w"], "x", ["x"]) && Loads(r.nodes, ["y", "w"], "x", ["y", "x"])
    ensures ["x"] in r.nodes && r.nodes[["x"]].metadata.version == "1"
    ensures ["y", "x"] in r.nodes && r.nodes[["y", "x"]].metadata.version == "2"
  {
    hide FiniteRegistry, AsyncGraphResolver.Valid, Release, Loads, Declares, DeclaredSpec;
    DeclaredInWorld();
    r := ShareRootCopy();
    var y, w := ["y"], ["y", "w"];
    assert y + ["w"] == w && y + ["x"] == ["y", "x"] && w + ["x"] == ["y", "w", "x"];
    OnlyRootVisible(r.nodes, y, "x");
    RequestFresh(r, {}, y, "x", "2", false);
    ReleaseNamed("x", "2");
    assert Parent(["y", "w", "x"]) == w;
    BesideIsNearer(r.nodes, y, "w", "x");
  }
}
