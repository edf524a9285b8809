/**
 What the native resolver (src/async_resolver.rs, `AsyncGraphResolver`) works on: placed nodes,
 the world it asks, the invariant of its nodes, what a request may find and select, and its measure.

 A placement path is the list of its package names from the root; the string
 `node_modules/a/node_modules/b` is `["a", "b"]` and the root is `[]`. What the resolver asks of
 semver, the registry, overrides, workspaces and platforms is an `Environment` of functions.
 */
module ResolverState {
  import opened Options
  import opened Ordering

  type Path = seq<string>
  type Version = string

  /** A package version as its registry, source or workspace manifest describes it. */
  datatype Metadata = Metadata(
    name: string,
    version: Version,
    dependencies: map<string, string>,
    optionalDependencies: map<string, string>,
    peerDependencies: map<string, string>,
    optionalPeers: set<string>)

  function MergedDependencies(metadata: Metadata): map<string, string>
  {
    metadata.dependencies + metadata.optionalDependencies
  }

  datatype WorkspaceAnswer = Link(member: Metadata) | NotLocal | Rejected

  datatype Environment = Environment(
    effectiveSpec: (string, string, seq<(string, Version)>) -> string,
    workspace: (string, string) -> WorkspaceAnswer,
    isSource: string -> bool,
    loadSource: (Path, string) -> Option<Metadata>,
    registryRequest: (string, string) -> (string, string),
    matches: (string, Version) -> bool,
    select: (string, string) -> Option<Metadata>,
    versionsNewestFirst: (string, string) -> seq<Option<Metadata>>,
    platformFits: (string, Metadata) -> bool,
    bindPeers: Nodes -> Option<seq<PeerRepair>>)

  /** A required peer no copy provides yet, to be installed beside its consumer. */
  datatype PeerRepair = PeerRepair(consumer: Path, peer: string, range: string)

  /** The finite world a resolve moves in: slot names, versions and workspace members. */
  datatype Bounds = Bounds(names: set<string>, versions: set<Version>, members: set<string>)

  ghost predicate Named(bounds: Bounds, metadata: Metadata)
  {
    MergedDependencies(metadata).Keys <= bounds.names
  }

  /** A finite registry whose selector answers every request with a version the request matches. */
  ghost predicate FiniteRegistry(env: Environment, bounds: Bounds)
  {
    && (forall n, s :: env.workspace(n, s).Link? ==> n in bounds.members && Named(bounds, env.workspace(n, s).member))
    && (forall p, s :: env.loadSource(p, s).Some? ==> Named(bounds, env.loadSource(p, s).value))
    && (forall n, s :: env.select(n, s).Some? ==>
          && Named(bounds, env.select(n, s).value)
          && env.select(n, s).value.name == n
          && env.select(n, s).value.version in bounds.versions
          && env.matches(s, env.select(n, s).value.version))
    && (forall n, s, i :: 0 <= i < |env.versionsNewestFirst(n, s)| && env.versionsNewestFirst(n, s)[i].Some? ==>
          && Named(bounds, env.versionsNewestFirst(n, s)[i].value)
          && env.versionsNewestFirst(n, s)[i].value.name == n
          && env.versionsNewestFirst(n, s)[i].value.version in bounds.versions)
    && (forall nodes, i :: env.bindPeers(nodes).Some? && 0 <= i < |env.bindPeers(nodes).value| ==>
          && env.bindPeers(nodes).value[i].consumer in nodes
          && env.bindPeers(nodes).value[i].peer in bounds.names)
  }

  lemma RepairNamed(env: Environment, bounds: Bounds, nodes: Nodes, i: nat)
    requires FiniteRegistry(env, bounds) && env.bindPeers(nodes).Some? && i < |env.bindPeers(nodes).value|
    ensures env.bindPeers(nodes).value[i].consumer in nodes && env.bindPeers(nodes).value[i].peer in bounds.names
  {
  }

  lemma LinkedMemberNamed(env: Environment, bounds: Bounds, name: string, spec: string)
    requires FiniteRegistry(env, bounds) && env.workspace(name, spec).Link?
    ensures name in bounds.members && Named(bounds, env.workspace(name, spec).member)
  {
  }

  lemma SourceNamed(env: Environment, bounds: Bounds, parent: Path, spec: string)
    requires FiniteRegistry(env, bounds) && env.loadSource(parent, spec).Some?
    ensures Named(bounds, env.loadSource(parent, spec).value)
  {
  }

  datatype Node = Node(
    placementName: string,
    metadata: Metadata,
    dependencies: map<string, string>,
    targets: map<string, Path>,
    optional: bool,
    dev: bool,
    link: bool)

  type Nodes = map<Path, Node>

  datatype ResolveError = PlacementConflict | PlatformMismatch | RegistryError | SourceError | WorkspaceError | PeerError | OutOfBudget

  datatype Outcome = At(path: Path) | Skipped | Failed(error: ResolveError)

  /** One request that ended on the copy at `path`, with the reachability it asked for. */
  datatype Landing = Landing(path: Path, optional: bool, dev: bool)

  function Fresh(name: string, metadata: Metadata, optional: bool, dev: bool, link: bool): Node
  {
    Node(name, metadata, MergedDependencies(metadata), map[], optional, dev, link)
  }

  // ---------------------------------------------------------------- what every step keeps

  ghost predicate IsPlaced(nodes: Nodes, path: Path)
  {
    path == [] || path in nodes
  }

  /** `target` sits in the `node_modules` of `path` itself or of one of its ancestors. */
  ghost predicate OnAncestorChain(target: Path, path: Path, name: string)
  {
    exists k :: 0 <= k <= |path| && target == path[..k] + [name]
  }

  function Parent(path: Path): Path
  {
    if path == [] then [] else path[..|path| - 1]
  }

  lemma RootIsOnEveryChain(target: Path, path: Path, name: string)
    requires OnAncestorChain(target, [], name)
    ensures OnAncestorChain(target, path, name)
  {
    assert target == [name] == path[..0] + [name];
  }

  lemma RootChain(target: Path, name: string)
    requires OnAncestorChain(target, [], name)
    ensures target == [name]
  {
  }

  ghost predicate WellPlaced(nodes: Nodes)
  {
    && (forall p {:trigger Parent(p)} :: p in nodes ==> IsPlaced(nodes, Parent(p)))
    && (forall p :: p in nodes ==> p != [] && nodes[p].placementName == p[|p| - 1])
    && (forall p :: p in nodes ==> nodes[p].dependencies == MergedDependencies(nodes[p].metadata))
  }

  ghost predicate TargetsOnChain(nodes: Nodes)
  {
    forall p, c :: p in nodes && c in nodes[p].targets ==>
      nodes[p].targets[c] in nodes && OnAncestorChain(nodes[p].targets[c], p, c)
  }

  ghost predicate AllOptional(log: seq<Landing>, path: Path)
  {
    forall i :: 0 <= i < |log| && log[i].path == path ==> log[i].optional
  }

  ghost predicate AllDev(log: seq<Landing>, path: Path)
  {
    forall i :: 0 <= i < |log| && log[i].path == path ==> log[i].dev
  }

  ghost predicate FlagsAreConjunctions(nodes: Nodes, log: seq<Landing>)
  {
    && (forall p :: p in nodes ==>
          && (nodes[p].optional <==> AllOptional(log, p))
          && (nodes[p].dev <==> AllDev(log, p)))
    && (forall i :: 0 <= i < |log| ==> log[i].path in nodes)
  }

  ghost predicate Consistent(nodes: Nodes, log: seq<Landing>)
  {
    WellPlaced(nodes) && TargetsOnChain(nodes) && FlagsAreConjunctions(nodes, log)
  }

  /** Nothing placed is ever removed or given another version. */
  ghost predicate Grew(before: Nodes, after: Nodes)
  {
    forall p :: p in before ==>
      && p in after
      && after[p].metadata == before[p].metadata
      && after[p].placementName == before[p].placementName
      && after[p].dependencies == before[p].dependencies
      && after[p].link == before[p].link
      && after[p].targets.Keys >= before[p].targets.Keys
  }

  lemma ConsumerParentPlaced(before: Nodes, after: Nodes, consumer: Path)
    requires WellPlaced(before) && Grew(before, after) && consumer in before
    ensures IsPlaced(after, Parent(consumer))
  {
    assert IsPlaced(before, Parent(consumer));
  }

  /** `entry` was appended somewhere between the two logs. */
  ghost predicate Logged(before: seq<Landing>, after: seq<Landing>, entry: Landing)
  {
    exists i :: |before| <= i < |after| && after[i] == entry
  }

  lemma LoggedNow(log: seq<Landing>, entry: Landing, after: seq<Landing>)
    requires log + [entry] <= after
    ensures Logged(log, after, entry)
  {
    assert after[|log|] == (log + [entry])[|log|];
  }

  /** An entry logged after a later point was logged after an earlier one. */
  lemma LoggedLater(before: seq<Landing>, mid: seq<Landing>, after: seq<Landing>, entry: Landing)
    requires before <= mid && Logged(mid, after, entry)
    ensures Logged(before, after, entry)
  {
  }

  lemma LogGrows(log: seq<Landing>, entry: Landing, path: Path)
    ensures AllOptional(log + [entry], path) <==> AllOptional(log, path) && (entry.path == path ==> entry.optional)
    ensures AllDev(log + [entry], path) <==> AllDev(log, path) && (entry.path == path ==> entry.dev)
  {
    var longer := log + [entry];
    assert longer[|log|] == entry;
    assert forall i :: 0 <= i < |log| ==> longer[i] == log[i];
  }

  lemma PlaceKeepsShape(nodes: Nodes, parent: Path, name: string, node: Node)
    requires WellPlaced(nodes) && TargetsOnChain(nodes) && IsPlaced(nodes, parent) && parent + [name] !in nodes
    requires node.placementName == name && node.targets == map[] && node.dependencies == MergedDependencies(node.metadata)
    ensures WellPlaced(nodes[parent + [name] := node]) && TargetsOnChain(nodes[parent + [name] := node])
  {
    hide OnAncestorChain, WellPlaced;
    PlaceKeepsWellPlaced(nodes, parent, name, node);
  }

  lemma PlaceKeepsWellPlaced(nodes: Nodes, parent: Path, name: string, node: Node)
    requires WellPlaced(nodes) && IsPlaced(nodes, parent)
    requires node.placementName == name && node.dependencies == MergedDependencies(node.metadata)
    ensures WellPlaced(nodes[parent + [name] := node])
  {
    var path := parent + [name];
    assert Parent(path) == parent;
  }

  lemma PlaceKeepsFlags(nodes: Nodes, log: seq<Landing>, path: Path, node: Node)
    requires FlagsAreConjunctions(nodes, log) && path !in nodes
    ensures FlagsAreConjunctions(nodes[path := node], log + [Landing(path, node.optional, node.dev)])
  {
    var entry := Landing(path, node.optional, node.dev);
    forall p | p in nodes[path := node]
      ensures nodes[path := node][p].optional <==> AllOptional(log + [entry], p)
      ensures nodes[path := node][p].dev <==> AllDev(log + [entry], p)
    {
      LogGrows(log, entry, p);
    }
  }

  lemma PlaceKeeps(nodes: Nodes, log: seq<Landing>, parent: Path, name: string, node: Node)
    requires Consistent(nodes, log) && IsPlaced(nodes, parent) && parent + [name] !in nodes
    requires node.placementName == name && node.targets == map[] && node.dependencies == MergedDependencies(node.metadata)
    ensures var path := parent + [name];
            && Consistent(nodes[path := node], log + [Landing(path, node.optional, node.dev)])
            && Grew(nodes, nodes[path := node])
  {
    PlaceKeepsShape(nodes, parent, name, node);
    PlaceKeepsFlags(nodes, log, parent + [name], node);
  }

  function Upgraded(node: Node, optional: bool, dev: bool): Node
  {
    node.(optional := node.optional && optional, dev := node.dev && dev)
  }

  lemma UpgradeKeeps(nodes: Nodes, log: seq<Landing>, path: Path, optional: bool, dev: bool)
    requires Consistent(nodes, log) && path in nodes
    ensures var nodes' := nodes[path := Upgraded(nodes[path], optional, dev)];
            Consistent(nodes', log + [Landing(path, optional, dev)]) && Grew(nodes, nodes')
  {
    UpgradeKeepsFlags(nodes, log, path, optional, dev);
  }

  lemma UpgradeKeepsFlags(nodes: Nodes, log: seq<Landing>, path: Path, optional: bool, dev: bool)
    requires FlagsAreConjunctions(nodes, log) && path in nodes
    ensures FlagsAreConjunctions(nodes[path := Upgraded(nodes[path], optional, dev)], log + [Landing(path, optional, dev)])
  {
    hide AllOptional, AllDev;
    var nodes' := nodes[path := Upgraded(nodes[path], optional, dev)];
    var entry := Landing(path, optional, dev);
    forall p | p in nodes'
      ensures nodes'[p].optional <==> AllOptional(log + [entry], p)
      ensures nodes'[p].dev <==> AllDev(log + [entry], p)
    {
      LogGrows(log, entry, p);
    }
  }

  lemma RecordKeepsTargets(nodes: Nodes, path: Path, name: string, target: Path)
    requires TargetsOnChain(nodes) && path in nodes && target in nodes && OnAncestorChain(target, path, name)
    ensures TargetsOnChain(nodes[path := nodes[path].(targets := nodes[path].targets[name := target])])
  {
    hide OnAncestorChain;
    var nodes' := nodes[path := nodes[path].(targets := nodes[path].targets[name := target])];
    forall p, c | p in nodes' && c in nodes'[p].targets
      ensures nodes'[p].targets[c] in nodes' && OnAncestorChain(nodes'[p].targets[c], p, c)
    {
      if p != path || c != name {
        assert c in nodes[p].targets;
      }
    }
  }

  lemma RecordKeeps(nodes: Nodes, log: seq<Landing>, path: Path, name: string, target: Path)
    requires Consistent(nodes, log) && path in nodes && target in nodes && OnAncestorChain(target, path, name)
    ensures var nodes' := nodes[path := nodes[path].(targets := nodes[path].targets[name := target])];
            Consistent(nodes', log) && Grew(nodes, nodes')
  {
    hide OnAncestorChain, TargetsOnChain, AllOptional, AllDev;
    RecordKeepsTargets(nodes, path, name, target);
  }

  // ---------------------------------------------------------------- the termination measure

  /** Workspace members that have no root link yet. */
  ghost function Unplaced(bounds: Bounds, nodes: Nodes): set<string>
  {
    set n | n in bounds.members && [n] !in nodes
  }

  ghost function AllPairs(bounds: Bounds): set<(string, Version)>
  {
    set n, v | n in bounds.names && v in bounds.versions :: (n, v)
  }

  /** The (name, version) pairs of `path` and its ancestors. */
  ghost function ChainPairs(nodes: Nodes, path: Path): set<(string, Version)>
  {
    set k | 0 <= k < |path| && path[..k + 1] in nodes :: (path[k], nodes[path[..k + 1]].metadata.version)
  }

  ghost function PairsLeft(bounds: Bounds, nodes: Nodes, path: Path): set<(string, Version)>
  {
    AllPairs(bounds) - ChainPairs(nodes, path)
  }

  lemma PairsLeftBounded(bounds: Bounds, nodes: Nodes, path: Path)
    ensures |PairsLeft(bounds, nodes, path)| <= |AllPairs(bounds)|
  {
    SubsetCardinality(PairsLeft(bounds, nodes, path), AllPairs(bounds));
  }

  lemma {:induction false} AncestorsPlaced(nodes: Nodes, path: Path, k: nat)
    requires WellPlaced(nodes) && path in nodes && 0 < k <= |path|
    ensures path[..k] in nodes
    decreases |path| - k
  {
    if k == |path| {
      assert path[..k] == path;
    } else {
      AncestorsPlaced(nodes, path, k + 1);
      assert Parent(path[..k + 1]) == path[..k];
    }
  }

  /** No package nests below another copy of the same name and version. */
  ghost predicate PairsDistinct(nodes: Nodes)
  {
    forall p {:trigger Parent(p)} :: p in nodes && p != [] ==>
      (p[|p| - 1], nodes[p].metadata.version) !in ChainPairs(nodes, Parent(p))
  }

  lemma ChainPairsStable(before: Nodes, after: Nodes, path: Path)
    requires WellPlaced(before) && IsPlaced(before, path) && Grew(before, after)
    ensures ChainPairs(after, path) == ChainPairs(before, path)
  {
    forall k {:trigger path[..k + 1]} | 0 <= k < |path|
      ensures path[..k + 1] in before && path[..k + 1] in after
      ensures after[path[..k + 1]].metadata == before[path[..k + 1]].metadata
    {
      AncestorsPlaced(before, path, k + 1);
    }
  }

  lemma PairsStayDistinct(before: Nodes, after: Nodes)
    requires WellPlaced(before) && Grew(before, after) && PairsDistinct(before)
    requires forall p :: p in after && p !in before && p != [] ==>
               IsPlaced(before, Parent(p)) && (p[|p| - 1], after[p].metadata.version) !in ChainPairs(before, Parent(p))
    ensures PairsDistinct(after)
  {
    hide ChainPairs;
    forall p | p in after && p != []
      ensures (p[|p| - 1], after[p].metadata.version) !in ChainPairs(after, Parent(p))
    {
      assert IsPlaced(before, Parent(p));
      ChainPairsStable(before, after, Parent(p));
    }
  }

  /** Later states have no more unplaced members, and the same pairs on a placed chain. */
  lemma MeasureStable(bounds: Bounds, before: Nodes, after: Nodes, path: Path)
    requires WellPlaced(before) && IsPlaced(before, path) && Grew(before, after)
    ensures Unplaced(bounds, after) <= Unplaced(bounds, before)
    ensures |Unplaced(bounds, after)| <= |Unplaced(bounds, before)|
    ensures PairsLeft(bounds, after, path) == PairsLeft(bounds, before, path)
  {
    SubsetCardinality(Unplaced(bounds, after), Unplaced(bounds, before));
    ChainPairsStable(before, after, path);
  }

  lemma MemberPlaced(bounds: Bounds, before: Nodes, after: Nodes, name: string)
    requires name in bounds.members && [name] !in before && [name] in after && Grew(before, after)
    ensures |Unplaced(bounds, after)| < |Unplaced(bounds, before)|
  {
    assert name in Unplaced(bounds, before) && name !in Unplaced(bounds, after);
    SubsetCardinality(Unplaced(bounds, after), Unplaced(bounds, before));
  }

  ghost predicate VisibleAt(env: Environment, nodes: Nodes, parent: Path, name: string, range: string, k: int)
  {
    0 <= k <= |parent| && parent[..k] + [name] in nodes && env.matches(range, nodes[parent[..k] + [name]].metadata.version)
  }

  /** The match below `parent[..k]` is the nearest match. */
  ghost predicate NearestMatch(env: Environment, nodes: Nodes, parent: Path, name: string, range: string, k: int)
  {
    VisibleAt(env, nodes, parent, name, range, k) && forall j :: k < j <= |parent| ==> !VisibleAt(env, nodes, parent, name, range, j)
  }

  ghost predicate NoneVisible(env: Environment, nodes: Nodes, parent: Path, name: string, range: string)
  {
    forall k :: 0 <= k <= |parent| ==> !VisibleAt(env, nodes, parent, name, range, k)
  }

  /**
   Why nesting ends: a version the request matches cannot already be on the chain, because
   `find_visible` looks into every ancestor's `node_modules` and would have shared that copy.
   */
  lemma ChosenPairIsNew(env: Environment, bounds: Bounds, nodes: Nodes, parent: Path, name: string, range: string, node: Node)
    requires WellPlaced(nodes) && IsPlaced(nodes, parent) && parent + [name] !in nodes
    requires NoneVisible(env, nodes, parent, name, range) && env.matches(range, node.metadata.version)
    requires name in bounds.names && node.metadata.version in bounds.versions
    ensures (name, node.metadata.version) !in ChainPairs(nodes, parent)
    ensures |PairsLeft(bounds, nodes[parent + [name] := node], parent + [name])| < |PairsLeft(bounds, nodes, parent)|
  {
    var pair := (name, node.metadata.version);
    if pair in ChainPairs(nodes, parent) {
      var k :| 0 <= k < |parent| && parent[..k + 1] in nodes && pair == (parent[k], nodes[parent[..k + 1]].metadata.version);
      assert parent[..k + 1] == parent[..k] + [name];
      assert VisibleAt(env, nodes, parent, name, range, k);
    }
    var path := parent + [name];
    var nodes' := nodes[path := node];
    forall q | q in ChainPairs(nodes, parent)
      ensures q in ChainPairs(nodes', path)
    {
      var k :| 0 <= k < |parent| && parent[..k + 1] in nodes && q == (parent[k], nodes[parent[..k + 1]].metadata.version);
      assert path[..k + 1] == parent[..k + 1] && path[k] == parent[k];
    }
    assert path[..|parent| + 1] == path && path[|parent|] == name;
    assert pair in ChainPairs(nodes', path);
    assert pair in AllPairs(bounds);
    SubsetCardinality(PairsLeft(bounds, nodes', path), PairsLeft(bounds, nodes, parent));
  }

  // ---------------------------------------------------------------- lookups

  /** Placement name and version of every placed ancestor, outermost first. */
  function AncestorsOf(nodes: Nodes, path: Path): seq<(string, Version)>
  {
    if path == [] then []
    else
      AncestorsOf(nodes, path[..|path| - 1]) +
        (if path in nodes then [(nodes[path].placementName, nodes[path].metadata.version)] else [])
  }

  /** The spec after overrides, as seen from `parent`. */
  function SpecAt(env: Environment, nodes: Nodes, parent: Path, name: string, requested: string): string
  {
    env.effectiveSpec(name, requested, AncestorsOf(nodes, parent))
  }

  /** The request goes to the registry: no workspace link and no file, git or tarball source. */
  predicate AsksRegistry(env: Environment, name: string, spec: string)
  {
    env.workspace(name, spec).NotLocal? && !env.isSource(spec)
  }

  /** The copy of `name` below `parent[..k]` is the nearest one seen from `parent`. */
  ghost predicate NearestAt(nodes: Nodes, parent: Path, name: string, k: int)
  {
    && 0 <= k <= |parent| && parent[..k] + [name] in nodes
    && forall j :: k < j <= |parent| ==> parent[..j] + [name] !in nodes
  }

  /** The nearest copy of the peer is in range; an invisible peer is fine only when optional. */
  ghost predicate PeerFits(env: Environment, nodes: Nodes, parent: Path, metadata: Metadata, peer: string)
    requires peer in metadata.peerDependencies
  {
    && (forall k :: NearestAt(nodes, parent, peer, k) ==>
          env.matches(metadata.peerDependencies[peer], nodes[parent[..k] + [peer]].metadata.version))
    && ((forall k :: !NearestAt(nodes, parent, peer, k)) ==> peer in metadata.optionalPeers)
  }

  ghost predicate PeersFit(env: Environment, nodes: Nodes, parent: Path, metadata: Metadata)
  {
    forall peer :: peer in metadata.peerDependencies ==> PeerFits(env, nodes, parent, metadata, peer)
  }

  /** Candidate `i` is where the backtracking scan stops: all earlier ones resolve but do not fit. */
  ghost predicate ScanStopsAt(env: Environment, nodes: Nodes, parent: Path, candidates: seq<Option<Metadata>>, i: int)
  {
    && 0 <= i <= |candidates|
    && (forall j :: 0 <= j < i ==> candidates[j].Some? && !PeersFit(env, nodes, parent, candidates[j].value))
    && (i < |candidates| && candidates[i].Some? ==> PeersFit(env, nodes, parent, candidates[i].value))
  }

  /** The selected version; when its peers do not fit, the newest version whose peers do. */
  ghost predicate Selects(
    env: Environment, nodes: Nodes, parent: Path, registryName: string, range: string, chosen: Option<Metadata>)
  {
    var first, candidates := env.select(registryName, range), env.versionsNewestFirst(registryName, range);
    if first.None? || PeersFit(env, nodes, parent, first.value) then chosen == first
    else exists i :: ScanStopsAt(env, nodes, parent, candidates, i) && chosen == if i == |candidates| then first else candidates[i]
  }

  lemma SelectedIsKnown(
    env: Environment, bounds: Bounds, nodes: Nodes, parent: Path, registryName: string, range: string, chosen: Option<Metadata>)
    requires FiniteRegistry(env, bounds) && Selects(env, nodes, parent, registryName, range, chosen) && chosen.Some?
    ensures Named(bounds, chosen.value) && chosen.value.version in bounds.versions && chosen.value.name == registryName
  {
  }

  // ---------------------------------------------------------------- what a request would place

  /** The member linked, the source loaded, or the version selected for a request made in `before`. */
  ghost predicate Offers(env: Environment, before: Nodes, parent: Path, name: string, requested: string, metadata: Metadata)
  {
    var spec := SpecAt(env, before, parent, name, requested);
    match env.workspace(name, spec)
    case Link(member) => metadata == member
    case Rejected => false
    case NotLocal =>
      if env.isSource(spec) then env.loadSource(parent, spec) == Some(metadata)
      else Selects(env, before, parent, env.registryRequest(name, spec).0, env.registryRequest(name, spec).1, Some(metadata))
  }

  // ---------------------------------------------------------------- leaving the ranges

  /**
   A placement outside what the measure covers: a file, git or tarball source, or a version out of range
   taken because the selected version's peers did not fit. `before` is the state it was asked in.
   */
  datatype Detour = Detour(before: Nodes, parent: Path, name: string, requested: string, metadata: Metadata)

  ghost predicate OutsideMeasure(env: Environment, name: string, spec: string, metadata: Metadata)
  {
    env.workspace(name, spec).NotLocal? && (env.isSource(spec) || !env.matches(env.registryRequest(name, spec).1, metadata.version))
  }

  /** The request may place the copy, and placing it is a detour. */
  ghost predicate MayDetour(env: Environment, d: Detour)
  {
    && IsPlaced(d.before, d.parent) && d.parent + [d.name] !in d.before && env.platformFits(d.name, d.metadata)
    && Offers(env, d.before, d.parent, d.name, d.requested, d.metadata)
    && OutsideMeasure(env, d.name, SpecAt(env, d.before, d.parent, d.name, d.requested), d.metadata)
  }

  /** It was taken on the way to `nodes`: the state it was asked in has grown, and the copy is there. */
  ghost predicate Taken(env: Environment, nodes: Nodes, d: Detour)
  {
    && MayDetour(env, d) && Grew(d.before, nodes)
    && d.parent + [d.name] in nodes && nodes[d.parent + [d.name]].metadata == d.metadata
  }

  /** No spec names a source, and no request whose selected version has peers offers a version out of range. */
  ghost predicate NoDetours(env: Environment)
  {
    && (forall s :: !env.isSource(s))
    && (forall n, s, i :: 0 <= i < |env.versionsNewestFirst(n, s)| && env.versionsNewestFirst(n, s)[i].Some? &&
                          env.select(n, s).Some? && env.select(n, s).value.peerDependencies != map[] ==>
          env.matches(s, env.versionsNewestFirst(n, s)[i].value.version))
  }

  /** A version out of range is only ever taken because the selected one's peers did not fit. */
  lemma OutOfRangeMeansPeersMissed(
    env: Environment, bounds: Bounds, nodes: Nodes, parent: Path, registryName: string, range: string, chosen: Metadata)
    requires FiniteRegistry(env, bounds) && Selects(env, nodes, parent, registryName, range, Some(chosen))
    requires !env.matches(range, chosen.version)
    ensures var first := env.select(registryName, range); first.Some? && !PeersFit(env, nodes, parent, first.value)
    ensures PeersFit(env, nodes, parent, chosen)
  {
  }

  /** In such a world whatever a registry request selects is in range. */
  lemma SelectsInRange(
    env: Environment, bounds: Bounds, nodes: Nodes, parent: Path, registryName: string, range: string, chosen: Metadata)
    requires FiniteRegistry(env, bounds) && NoDetours(env) && Selects(env, nodes, parent, registryName, range, Some(chosen))
    ensures env.matches(range, chosen.version)
  {
    if !env.matches(range, chosen.version) {
      OutOfRangeMeansPeersMissed(env, bounds, nodes, parent, registryName, range, chosen);
    }
  }

  /** In such a world no detour is ever possible. */
  lemma NeverDetours(env: Environment, bounds: Bounds, d: Detour)
    requires FiniteRegistry(env, bounds) && NoDetours(env)
    ensures !MayDetour(env, d)
  {
    hide FiniteRegistry, Selects;
    var spec := SpecAt(env, d.before, d.parent, d.name, d.requested);
    if MayDetour(env, d) && !env.isSource(spec) {
      SelectsInRange(env, bounds, d.before, d.parent, env.registryRequest(d.name, spec).0, env.registryRequest(d.name, spec).1, d.metadata);
    }
  }

  // ---------------------------------------------------------------- the answer to a registry request

  /** The version chosen decides: none is an error, a foreign platform skips or fails, else a copy below `parent`. */
  ghost predicate PlacesChosen(
    env: Environment, before: Nodes, after: Nodes, parent: Path, name: string, spec: string, optional: bool, outcome: Outcome,
    chosen: Option<Metadata>)
  {
    && Selects(env, before, parent, env.registryRequest(name, spec).0, env.registryRequest(name, spec).1, chosen)
    && (chosen.None? ==> outcome == Failed(RegistryError))
    && (chosen.Some? && !env.platformFits(name, chosen.value) ==> outcome == if optional then Skipped else Failed(PlatformMismatch))
    && (outcome.At? ==>
          chosen.Some? && outcome.path == parent + [name] && outcome.path in after && after[outcome.path].metadata == chosen.value)
  }

  /** A visible match is shared; without one an occupied own slot is a conflict, and a free one gets the chosen version. */
  ghost predicate AnswersRegistry(
    env: Environment, before: Nodes, after: Nodes, parent: Path, name: string, spec: string, optional: bool, outcome: Outcome)
  {
    var range := env.registryRequest(name, spec).1;
    && (forall k :: NearestMatch(env, before, parent, name, range, k) ==> outcome == At(parent[..k] + [name]) && after.Keys == before.Keys)
    && (NoneVisible(env, before, parent, name, range) && parent + [name] in before ==> outcome == Failed(PlacementConflict))
    && (NoneVisible(env, before, parent, name, range) && parent + [name] !in before ==>
          exists chosen :: PlacesChosen(env, before, after, parent, name, spec, optional, outcome, chosen))
  }

  lemma SharesVisible(
    env: Environment, before: Nodes, after: Nodes, parent: Path, name: string, spec: string, optional: bool, k: int)
    requires NearestMatch(env, before, parent, name, env.registryRequest(name, spec).1, k)
    requires after.Keys == before.Keys
    ensures AnswersRegistry(env, before, after, parent, name, spec, optional, At(parent[..k] + [name]))
  {
  }

  lemma ConflictsUnshared(env: Environment, nodes: Nodes, parent: Path, name: string, spec: string, optional: bool)
    requires NoneVisible(env, nodes, parent, name, env.registryRequest(name, spec).1) && parent + [name] in nodes
    ensures AnswersRegistry(env, nodes, nodes, parent, name, spec, optional, Failed(PlacementConflict))
  {
  }

  lemma PlacesUnshared(
    env: Environment, before: Nodes, after: Nodes, parent: Path, name: string, spec: string, optional: bool, outcome: Outcome,
    chosen: Option<Metadata>)
    requires NoneVisible(env, before, parent, name, env.registryRequest(name, spec).1) && parent + [name] !in before
    requires PlacesChosen(env, before, after, parent, name, spec, optional, outcome, chosen)
    ensures AnswersRegistry(env, before, after, parent, name, spec, optional, outcome)
  {
  }

  ghost predicate InRange(env: Environment, name: string, spec: string, node: Node)
  {
    env.matches(env.registryRequest(name, spec).1, node.metadata.version)
  }

  /** Nothing visible, or one nearest match. */
  lemma {:induction false} NearestExists(env: Environment, nodes: Nodes, parent: Path, name: string, range: string, k: int)
    requires VisibleAt(env, nodes, parent, name, range, k)
    ensures exists j :: NearestMatch(env, nodes, parent, name, range, j)
    decreases |parent| - k
  {
    if exists j :: k < j <= |parent| && VisibleAt(env, nodes, parent, name, range, j) {
      var j :| k < j <= |parent| && VisibleAt(env, nodes, parent, name, range, j);
      NearestExists(env, nodes, parent, name, range, j);
    } else {
      assert NearestMatch(env, nodes, parent, name, range, k);
    }
  }

  /** The copy a request ends on is out of range only if the selected version's peers did not fit when it was placed. */
  lemma RangeUnlessPeersMissed(
    env: Environment, bounds: Bounds, before: Nodes, after: Nodes, parent: Path, name: string, spec: string, optional: bool,
    path: Path)
    requires FiniteRegistry(env, bounds) && Grew(before, after) && path in after
    requires AnswersRegistry(env, before, after, parent, name, spec, optional, At(path))
    ensures var (registryName, range) := env.registryRequest(name, spec);
            InRange(env, name, spec, after[path]) ||
            (env.select(registryName, range).Some? && !PeersFit(env, before, parent, env.select(registryName, range).value)
             && path == parent + [name] && path !in before)
  {
    hide FiniteRegistry, PeersFit, Selects;
    var (registryName, range) := env.registryRequest(name, spec);
    if NoneVisible(env, before, parent, name, range) {
      var chosen :| PlacesChosen(env, before, after, parent, name, spec, optional, At(path), chosen);
      if !env.matches(range, chosen.value.version) {
        OutOfRangeMeansPeersMissed(env, bounds, before, parent, registryName, range, chosen.value);
      }
    } else {
      var k :| VisibleAt(env, before, parent, name, range, k);
      NearestExists(env, before, parent, name, range, k);
      var j :| NearestMatch(env, before, parent, name, range, j);
      assert At(path) == At(parent[..j] + [name]);
    }
  }

  /** In a world without detours every registry request ends in range. */
  lemma AlwaysInRange(
    env: Environment, bounds: Bounds, before: Nodes, after: Nodes, parent: Path, name: string, spec: string, optional: bool,
    path: Path)
    requires FiniteRegistry(env, bounds) && NoDetours(env) && Grew(before, after) && path in after
    requires AnswersRegistry(env, before, after, parent, name, spec, optional, At(path))
    ensures InRange(env, name, spec, after[path])
  {
    hide FiniteRegistry, NoDetours, PeersFit, Selects;
    var (registryName, range) := env.registryRequest(name, spec);
    if NoneVisible(env, before, parent, name, range) {
      var chosen :| PlacesChosen(env, before, after, parent, name, spec, optional, At(path), chosen);
      SelectsInRange(env, bounds, before, parent, registryName, range, chosen.value);
    } else {
      RangeUnlessPeersMissed(env, bounds, before, after, parent, name, spec, optional, path);
      var k :| VisibleAt(env, before, parent, name, range, k);
      NearestExists(env, before, parent, name, range, k);
      var j :| NearestMatch(env, before, parent, name, range, j);
      assert At(path) == At(parent[..j] + [name]);
    }
  }

  /**
   The copy a request ends on is the package asked for if and only if the nearest match, where
   there is one, is: lookup compares versions, never package names, so an alias can be shared.
   */
  lemma RightPackageIff(
    env: Environment, bounds: Bounds, before: Nodes, after: Nodes, parent: Path, name: string, spec: string, optional: bool,
    path: Path)
    requires FiniteRegistry(env, bounds) && Grew(before, after) && path in after
    requires AnswersRegistry(env, before, after, parent, name, spec, optional, At(path))
    ensures var (registryName, range) := env.registryRequest(name, spec);
            after[path].metadata.name == registryName <==>
              forall k :: NearestMatch(env, before, parent, name, range, k) ==> before[parent[..k] + [name]].metadata.name == registryName
  {
    hide FiniteRegistry, PeersFit, Selects;
    var (registryName, range) := env.registryRequest(name, spec);
    if NoneVisible(env, before, parent, name, range) {
      var chosen :| PlacesChosen(env, before, after, parent, name, spec, optional, At(path), chosen);
      SelectedIsKnown(env, bounds, before, parent, registryName, range, chosen);
    } else {
      var k :| VisibleAt(env, before, parent, name, range, k);
      NearestExists(env, before, parent, name, range, k);
      var j :| NearestMatch(env, before, parent, name, range, j);
      assert At(path) == At(parent[..j] + [name]);
      forall k | NearestMatch(env, before, parent, name, range, k)
        ensures parent[..k] + [name] == path
      {
        assert At(path) == At(parent[..k] + [name]);
      }
    }
  }
}
