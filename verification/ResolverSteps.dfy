/**
 What the native resolver's steps leave behind (src/async_resolver.rs): its state with the history of what landed,
 what was skipped and which detours were taken, and the relations between an earlier and a later state.
 */
module ResolverSteps {
  import opened Options
  import opened ResolverState

  // ---------------------------------------------------------------- what a node has recorded

  function ChildOptional(node: Node, name: string, optional: bool): bool
  {
    optional || name in node.metadata.optionalDependencies
  }

  /** The package at `asker` asked for `name` and its optional request was skipped. */
  datatype Skip = Skip(asker: Path, before: Nodes, parent: Path, name: string, requested: string, metadata: Metadata)

  ghost predicate SkippedBy(skips: seq<Skip>, asker: Path, name: string)
  {
    exists i :: 0 <= i < |skips| && skips[i].asker == asker && skips[i].name == name
  }

  /** What was on offer for the request does not run on the platform. */
  ghost predicate Unfit(env: Environment, before: Nodes, parent: Path, name: string, requested: string, metadata: Metadata)
  {
    Offers(env, before, parent, name, requested, metadata) && !env.platformFits(name, metadata)
  }

  /**
   What a request made in `before` that ended on `target` in `after` was answered: a member's link at the root, a
   source's own slot, or the registry's answer, for the spec the request had from there.
   */
  ghost predicate AnswersRequest(
    env: Environment, before: Nodes, after: Nodes, parent: Path, name: string, requested: string, optional: bool, target: Path)
  {
    var spec := SpecAt(env, before, parent, name, requested);
    && WellPlaced(before) && IsPlaced(before, parent) && Grew(before, after) && target in after && OnAncestorChain(target, parent, name)
    && match env.workspace(name, spec)
       case Rejected => false
       case Link(member) => target == [name] && (target !in before ==> after[target].metadata == member && after[target].link)
       case NotLocal =>
         if env.isSource(spec) then
           target == parent + [name] && (target !in before ==> env.loadSource(parent, spec) == Some(after[target].metadata))
         else AnswersRegistry(env, before, after, parent, name, spec, optional, At(target))
  }

  /** On the way to `nodes` a request of the package at `asker` was answered with `target`; a linked member also asks from the root. */
  ghost predicate Justified(env: Environment, nodes: Nodes, asker: Path, name: string, requested: string, target: Path)
  {
    exists before, after, parent, optional ::
      && AnswersRequest(env, before, after, parent, name, requested, optional, target) && Grew(after, nodes)
      && (parent == asker || (parent == [] && asker in nodes && nodes[asker].link))
  }

  /** Every recorded target is the answer to a request for the spec its package declares. */
  ghost predicate TargetsJustified(env: Environment, nodes: Nodes)
  {
    forall p, n :: p in nodes && n in nodes[p].targets ==>
      n in nodes[p].dependencies && Justified(env, nodes, p, n, nodes[p].dependencies[n], nodes[p].targets[n])
  }

  lemma GrewThen(a: Nodes, b: Nodes, c: Nodes)
    requires Grew(a, b) && Grew(b, c)
    ensures Grew(a, c)
  {
  }

  /** A copy without targets changes nothing. */
  lemma PlaceKeepsJustified(env: Environment, nodes: Nodes, path: Path, node: Node)
    requires TargetsJustified(env, nodes) && path !in nodes && node.targets == map[] && Grew(nodes, nodes[path := node])
    ensures TargetsJustified(env, nodes[path := node])
  {
    hide Justified;
    var b := nodes[path := node];
    forall p, n | p in b && n in b[p].targets
      ensures n in b[p].dependencies && Justified(env, b, p, n, b[p].dependencies[n], b[p].targets[n])
    {
      JustifiedLater(env, nodes, b, p, n, nodes[p].dependencies[n], nodes[p].targets[n]);
    }
  }

  lemma SameKeepsJustified(env: Environment, a: Nodes, b: Nodes)
    requires TargetsJustified(env, a) && Grew(a, b) && a.Keys == b.Keys && forall p :: p in a ==> b[p].targets == a[p].targets
    ensures TargetsJustified(env, b)
  {
    hide Justified;
    forall p, n | p in b && n in b[p].targets
      ensures n in b[p].dependencies && Justified(env, b, p, n, b[p].dependencies[n], b[p].targets[n])
    {
      JustifiedLater(env, a, b, p, n, a[p].dependencies[n], a[p].targets[n]);
    }
  }

  lemma JustifiedLater(env: Environment, a: Nodes, b: Nodes, asker: Path, name: string, requested: string, target: Path)
    requires Justified(env, a, asker, name, requested, target) && Grew(a, b) && (asker == [] || asker in a)
    ensures Justified(env, b, asker, name, requested, target)
  {
    hide AnswersRequest;
    var before, after, parent, optional :|
      && AnswersRequest(env, before, after, parent, name, requested, optional, target) && Grew(after, a)
      && (parent == asker || (parent == [] && asker in a && a[asker].link));
    GrewThen(after, a, b);
  }

  /** Later states without new targets, or with one more that is justified. */
  lemma TargetsJustifiedLater(env: Environment, a: Nodes, b: Nodes, path: Path, name: string)
    requires TargetsJustified(env, a) && Grew(a, b)
    requires forall p, n :: p in b && n in b[p].targets && (p != path || n != name) ==>
               p in a && n in a[p].targets && b[p].targets[n] == a[p].targets[n]
    requires path in b && name in b[path].targets ==>
               name in b[path].dependencies && Justified(env, b, path, name, b[path].dependencies[name], b[path].targets[name])
    ensures TargetsJustified(env, b)
  {
    hide Justified;
    forall p, n | p in b && n in b[p].targets
      ensures n in b[p].dependencies && Justified(env, b, p, n, b[p].dependencies[n], b[p].targets[n])
    {
      if p != path || n != name {
        JustifiedLater(env, a, b, p, n, a[p].dependencies[n], a[p].targets[n]);
      }
    }
  }

  lemma GrewSelf(a: Nodes)
    ensures Grew(a, a)
  {
  }

  lemma AnswerJustifies(
    env: Environment, before: Nodes, after: Nodes, parent: Path, name: string, requested: string, optional: bool, target: Path)
    requires AnswersRequest(env, before, after, parent, name, requested, optional, target)
    ensures Justified(env, after, parent, name, requested, target)
  {
    hide AnswersRequest;
    GrewSelf(after);
  }

  /** A linked member's request from the root. */
  lemma MemberAnswerJustifies(
    env: Environment, before: Nodes, after: Nodes, member: Path, name: string, requested: string, optional: bool, target: Path)
    requires AnswersRequest(env, before, after, [], name, requested, optional, target) && member in before && before[member].link
    ensures Justified(env, after, member, name, requested, target)
  {
    GrewSelf(after);
  }

  ghost predicate UnfitFrom(env: Environment, before: Nodes, parent: Path, name: string, requested: string)
  {
    exists m :: Unfit(env, before, parent, name, requested, m)
  }

  /** One of the asker's own dependencies, asked for from where it is or from the root, on offer only for another platform. */
  ghost predicate GenuineSkip(env: Environment, nodes: Nodes, s: Skip)
  {
    && s.asker in nodes && s.parent in {s.asker, []} && Grew(s.before, nodes)
    && s.name in nodes[s.asker].dependencies && nodes[s.asker].dependencies[s.name] == s.requested
    && Unfit(env, s.before, s.parent, s.name, s.requested, s.metadata)
  }

  /** The resolver's state with its history. */
  datatype Snap = Snap(nodes: Nodes, landings: seq<Landing>, detours: seq<Detour>, skips: seq<Skip>)

  ghost predicate HistoryFits(env: Environment, s: Snap)
  {
    && (forall i :: 0 <= i < |s.detours| ==> Taken(env, s.nodes, s.detours[i]))
    && (forall i :: 0 <= i < |s.skips| ==> GenuineSkip(env, s.nodes, s.skips[i]))
  }

  /** Later states have the same history, and what it says still holds. */
  lemma HistoryLater(env: Environment, a: Snap, b: Snap)
    requires HistoryFits(env, a) && Grew(a.nodes, b.nodes) && b.detours == a.detours && b.skips == a.skips
    ensures HistoryFits(env, b)
  {
    hide MayDetour, Unfit, Grew;
    forall i | 0 <= i < |b.detours|
      ensures Taken(env, b.nodes, b.detours[i])
    {
      DetourLater(env, a.nodes, b.nodes, a.detours[i]);
    }
    forall i | 0 <= i < |b.skips|
      ensures GenuineSkip(env, b.nodes, b.skips[i])
    {
      SkipLater(env, a.nodes, b.nodes, a.skips[i]);
    }
  }

  lemma DetourLater(env: Environment, a: Nodes, b: Nodes, d: Detour)
    requires Taken(env, a, d) && Grew(a, b)
    ensures Taken(env, b, d)
  {
    hide MayDetour;
  }

  lemma SkipLater(env: Environment, a: Nodes, b: Nodes, s: Skip)
    requires GenuineSkip(env, a, s) && Grew(a, b)
    ensures GenuineSkip(env, b, s)
  {
    hide Unfit;
  }

  lemma HistoryOneDetour(env: Environment, a: Snap, b: Snap, d: Detour)
    requires HistoryFits(env, a) && Taken(env, a.nodes, d) && b == a.(detours := a.detours + [d])
    ensures HistoryFits(env, b)
  {
    hide Taken, GenuineSkip;
  }

  lemma HistoryOneSkip(env: Environment, a: Snap, b: Snap, s: Skip)
    requires HistoryFits(env, a) && GenuineSkip(env, a.nodes, s) && b == a.(skips := a.skips + [s])
    ensures HistoryFits(env, b)
  {
    hide Taken, GenuineSkip;
  }

  lemma HistoryAfterPlacing(env: Environment, a: Snap, b: Snap, at: Path, node: Node, detour: Option<Detour>)
    requires HistoryFits(env, a) && Places(a, b, at, node, detour) && Grew(a.nodes, b.nodes)
    requires detour.Some? ==> MayDetour(env, detour.value) && DetourIs(detour.value, a.nodes, at, node.metadata)
    ensures HistoryFits(env, b)
  {
    hide HistoryFits, MayDetour, Grew;
    var placed := b.(detours := a.detours);
    HistoryLater(env, a, placed);
    if detour.Some? {
      HistoryOneDetour(env, placed, b, detour.value);
    }
  }

  ghost predicate DetourIs(d: Detour, before: Nodes, at: Path, metadata: Metadata)
  {
    d.before == before && d.parent + [d.name] == at && d.metadata == metadata
  }

  /** Every placed copy runs on the target platform. */
  ghost predicate AllFit(env: Environment, nodes: Nodes)
  {
    forall p :: p in nodes && p != [] ==> env.platformFits(p[|p| - 1], nodes[p].metadata)
  }

  lemma PlaceKeepsFit(env: Environment, nodes: Nodes, parent: Path, name: string, node: Node)
    requires AllFit(env, nodes) && env.platformFits(name, node.metadata)
    ensures AllFit(env, nodes[parent + [name] := node])
  {
    assert (parent + [name])[|parent + [name]| - 1] == name;
  }

  lemma PlaceKeepsPairs(nodes: Nodes, parent: Path, name: string, node: Node)
    requires WellPlaced(nodes) && PairsDistinct(nodes) && IsPlaced(nodes, parent) && parent + [name] !in nodes
    requires (name, node.metadata.version) !in ChainPairs(nodes, parent) && Grew(nodes, nodes[parent + [name] := node])
    ensures PairsDistinct(nodes[parent + [name] := node])
  {
    hide ChainPairs, Grew, PairsDistinct, WellPlaced;
    assert Parent(parent + [name]) == parent && (parent + [name])[|parent + [name]| - 1] == name;
    PairsStayDistinct(nodes, nodes[parent + [name] := node]);
  }

  /** A path not placed yet has no skips. */
  lemma FreshHasNoSkips(env: Environment, s: Snap, path: Path)
    requires HistoryFits(env, s) && path !in s.nodes
    ensures forall n :: !SkippedBy(s.skips, path, n)
  {
    hide Taken;
  }

  /**
   The targets of the node at `path` are where its requests for `names` landed, with the flags they asked for;
   the other requests, all of them optional, were skipped.
   */
  ghost predicate TargetsRecorded(path: Path, names: set<string>, before: seq<Landing>, s: Snap, optional: bool, dev: bool)
    requires path in s.nodes
  {
    var node := s.nodes[path];
    && (forall n :: n in node.targets ==>
          n in names && Logged(before, s.landings, Landing(node.targets[n], ChildOptional(node, n, optional), dev)))
    && (forall n :: SkippedBy(s.skips, path, n) ==> n in names && n !in node.targets && ChildOptional(node, n, optional))
    && (forall n :: n in names ==> n in node.targets || SkippedBy(s.skips, path, n))
  }

  ghost predicate FirstLanding(log: seq<Landing>, path: Path, i: int)
  {
    0 <= i < |log| && log[i].path == path && forall j :: 0 <= j < i ==> log[j].path != path
  }

  /** The request that placed the copy was an optional one. */
  ghost predicate PlacedAsOptional(log: seq<Landing>, path: Path)
  {
    exists i :: FirstLanding(log, path, i) && log[i].optional
  }

  /** Every dependency has a target unless its request was skipped; then it was optional, or the request that placed the copy was. */
  ghost predicate Complete(s: Snap, path: Path)
    requires path in s.nodes
  {
    var node := s.nodes[path];
    forall n :: n in node.dependencies ==>
      && (n !in node.targets <==> SkippedBy(s.skips, path, n))
      && (n !in node.targets ==> n in node.metadata.optionalDependencies || PlacedAsOptional(s.landings, path))
  }

  // ---------------------------------------------------------------- from one state to a later one

  ghost predicate Advanced(a: Snap, b: Snap)
  {
    Grew(a.nodes, b.nodes) && a.landings <= b.landings && a.detours <= b.detours && a.skips <= b.skips
  }

  /** No node placed before, those in `but` apart, gets a target or a skip. */
  ghost predicate TargetsKept(a: Snap, b: Snap, but: set<Path>)
  {
    forall p :: p in a.nodes && p !in but ==>
      && p in b.nodes && b.nodes[p].targets == a.nodes[p].targets
      && forall n :: SkippedBy(b.skips, p, n) <==> SkippedBy(a.skips, p, n)
  }

  /** New nodes are at the root, below other new nodes, or at the one place `at`. */
  ghost predicate NewOnlyAt(before: Nodes, after: Nodes, at: Path)
  {
    forall q {:trigger Parent(q)} :: q in after && q !in before ==> |q| == 1 || Parent(q) !in before || q == at
  }

  /** New nodes are at the root, below other new nodes, or directly below `path`. */
  ghost predicate NewOnlyBelow(before: Nodes, after: Nodes, path: Path)
  {
    forall q {:trigger Parent(q)} :: q in after && q !in before ==> |q| == 1 || Parent(q) !in before || Parent(q) == path
  }

  /** One request: everything placed before stays as it was, flags apart. */
  ghost predicate Extends(a: Snap, b: Snap, at: Path)
  {
    Advanced(a, b) && TargetsKept(a, b, {}) && NewOnlyAt(a.nodes, b.nodes, at)
  }

  /** The requests of the package at `path`: only its own targets may grow. */
  ghost predicate ExtendsBelow(a: Snap, b: Snap, path: Path)
  {
    Advanced(a, b) && TargetsKept(a, b, {path}) && NewOnlyBelow(a.nodes, b.nodes, path)
  }

  ghost predicate NewComplete(a: Snap, b: Snap)
  {
    forall p :: p in b.nodes && p !in a.nodes ==> Complete(b, p)
  }

  lemma AdvancedThen(a: Snap, b: Snap, c: Snap)
    requires Advanced(a, b) && Advanced(b, c)
    ensures Advanced(a, c)
  {
  }

  lemma ExtendsSelf(a: Snap, at: Path)
    ensures Extends(a, a, at) && ExtendsBelow(a, a, at) && NewComplete(a, a)
  {
  }

  lemma NewCompleteThen(a: Snap, b: Snap, c: Snap, but: set<Path>)
    requires NewComplete(a, b) && Advanced(b, c) && NewComplete(b, c) && TargetsKept(b, c, but) && but <= a.nodes.Keys
    ensures NewComplete(a, c)
  {
    hide Complete, Advanced, TargetsKept;
    forall p | p in c.nodes && p !in a.nodes
      ensures Complete(c, p)
    {
      if p in b.nodes {
        CompleteLater(b, c, but, p);
      }
    }
  }

  lemma CompleteLater(b: Snap, c: Snap, but: set<Path>, p: Path)
    requires Advanced(b, c) && TargetsKept(b, c, but) && p in b.nodes && p !in but && Complete(b, p)
    ensures p in c.nodes && Complete(c, p)
  {
    hide SkippedBy;
    if PlacedAsOptional(b.landings, p) {
      var i :| FirstLanding(b.landings, p, i) && b.landings[i].optional;
      assert FirstLanding(c.landings, p, i);
    }
  }

  /** The package's requests so far, then one more answered. */
  lemma BelowThenRequest(a: Snap, b: Snap, c: Snap, path: Path, name: string)
    requires WellPlaced(a.nodes) && path in a.nodes && ExtendsBelow(a, b, path) && Extends(b, c, path + [name])
    ensures ExtendsBelow(a, c, path) && path in c.nodes && c.nodes[path].targets == b.nodes[path].targets
    ensures forall n :: SkippedBy(c.skips, path, n) <==> SkippedBy(b.skips, path, n)
  {
    hide SkippedBy;
    AdvancedThen(a, b, c);
    assert Parent(path + [name]) == path;
  }

  /** The package's requests so far, then one outcome recorded. */
  lemma BelowThenRecord(a: Snap, b: Snap, c: Snap, path: Path)
    requires path in a.nodes && ExtendsBelow(a, b, path) && Advanced(b, c)
    requires TargetsKept(b, c, {path}) && c.nodes.Keys == b.nodes.Keys
    ensures ExtendsBelow(a, c, path)
  {
    hide SkippedBy;
    AdvancedThen(a, b, c);
  }

  /** A copy placed at `at`, then its own requests. */
  lemma PlacedThenBelow(a: Snap, b: Snap, c: Snap, at: Path)
    requires Advanced(a, b) && at !in a.nodes && b.nodes.Keys == a.nodes.Keys + {at} && TargetsKept(a, b, {})
    requires ExtendsBelow(b, c, at)
    ensures Extends(a, c, at)
  {
    hide SkippedBy;
    AdvancedThen(a, b, c);
  }

  /** A request answered from the root is also one answered from anywhere below it. */
  lemma RootRequestFromBelow(a: Snap, b: Snap, name: string, at: Path)
    requires Extends(a, b, [name])
    ensures Extends(a, b, at)
  {
  }

  ghost predicate NothingBelow(nodes: Nodes, path: Path, but: set<string>)
  {
    forall n :: path + [n] in nodes ==> n in but
  }

  lemma FreshHasNothingBelow(nodes: Nodes, path: Path, node: Node)
    requires WellPlaced(nodes) && path !in nodes && path != []
    ensures NothingBelow(nodes[path := node], path, {})
  {
    forall n
      ensures path + [n] !in nodes[path := node]
    {
      assert Parent(path + [n]) == path;
    }
  }

  lemma OnlyTheAskedBelow(a: Nodes, b: Nodes, path: Path, but: set<string>, name: string)
    requires path in a && path != [] && NothingBelow(a, path, but) && NewOnlyAt(a, b, path + [name])
    ensures NothingBelow(b, path, but + {name})
  {
    forall n | path + [n] in b
      ensures n in but + {name}
    {
      assert Parent(path + [n]) == path;
      if path + [n] !in a {
        assert (path + [n])[|path|] == n && (path + [name])[|path|] == name;
      }
    }
  }

  /** A copy placed by its first request is complete once its requests are recorded. */
  lemma PlacedIsComplete(a: Snap, b: Snap, c: Snap, path: Path, optional: bool, dev: bool)
    requires Consistent(a.nodes, a.landings) && path !in a.nodes
    requires b.landings == a.landings + [Landing(path, optional, dev)] && Advanced(b, c)
    requires path in c.nodes
    requires TargetsRecorded(path, c.nodes[path].dependencies.Keys, b.landings, c, optional, dev)
    ensures Complete(c, path)
  {
    hide SkippedBy;
    if optional {
      var i := |a.landings|;
      assert c.landings[i] == b.landings[i] == Landing(path, optional, dev);
      forall j | 0 <= j < i
        ensures c.landings[j].path != path
      {
        assert c.landings[j] == b.landings[j] == a.landings[j];
      }
      assert FirstLanding(c.landings, path, i);
    }
  }

  lemma NewCompleteWithPlaced(a: Snap, b: Snap, c: Snap, path: Path)
    requires b.nodes.Keys == a.nodes.Keys + {path} && NewComplete(b, c)
    requires path in c.nodes && Complete(c, path)
    ensures NewComplete(a, c)
  {
    hide Complete;
  }

  // ---------------------------------------------------------------- the answer to any request

  /** Running out of budget takes as many detours as the budget allows. */
  predicate Budgeted(a: Snap, b: Snap, budget: nat, error: ResolveError)
  {
    error != PeerError && (error == OutOfBudget ==> |b.detours| >= |a.detours| + budget)
  }

  /** The request, made in `nodes`, fails at once with this error. */
  ghost predicate FailsAtOnce(
    env: Environment, nodes: Nodes, parent: Path, name: string, requested: string, optional: bool, error: ResolveError)
  {
    var spec := SpecAt(env, nodes, parent, name, requested);
    var (registryName, range) := env.registryRequest(name, spec);
    match error
    case WorkspaceError => env.workspace(name, spec).Rejected?
    case SourceError =>
      && env.workspace(name, spec).NotLocal? && env.isSource(spec)
      && parent + [name] !in nodes && env.loadSource(parent, spec).None?
    case RegistryError =>
      && AsksRegistry(env, name, spec) && NoneVisible(env, nodes, parent, name, range)
      && parent + [name] !in nodes && Selects(env, nodes, parent, registryName, range, None)
    case PlatformMismatch => !optional && UnfitFrom(env, nodes, parent, name, requested)
    case PlacementConflict => AsksRegistry(env, name, spec) && NoneVisible(env, nodes, parent, name, range) && parent + [name] in nodes
    case OutOfBudget => exists m :: MayDetour(env, Detour(nodes, parent, name, requested, m))
    case PeerError => false
  }

  /** It fails from where its asker is, or for a linked member from the root. */
  ghost predicate RequestFails(
    env: Environment, nodes: Nodes, asker: Path, name: string, requested: string, optional: bool, error: ResolveError)
  {
    || FailsAtOnce(env, nodes, asker, name, requested, optional, error)
    || (asker in nodes && nodes[asker].link && FailsAtOnce(env, nodes, [], name, requested, optional, error))
  }

  /** Some package's own dependency fails at once, required unless `optional` or declared so. */
  ghost predicate SomeChildFails(env: Environment, nodes: Nodes, optional: bool, error: ResolveError)
  {
    exists asker, child, childOptional ::
      && asker in nodes && child in nodes[asker].dependencies
      && (optional || child in nodes[asker].metadata.optionalDependencies ==> childOptional)
      && RequestFails(env, nodes, asker, child, nodes[asker].dependencies[child], childOptional, error)
  }

  /** Why a request failed: it fails at once itself in the state it left, or a dependency of some package does. */
  ghost predicate HasCause(
    env: Environment, nodes: Nodes, parent: Path, name: string, requested: string, optional: bool, error: ResolveError)
  {
    RequestFails(env, nodes, parent, name, requested, optional, error) || SomeChildFails(env, nodes, optional, error)
  }

  lemma OwnCause(
    env: Environment, nodes: Nodes, parent: Path, name: string, requested: string, optional: bool, error: ResolveError)
    requires FailsAtOnce(env, nodes, parent, name, requested, optional, error)
    ensures HasCause(env, nodes, parent, name, requested, optional, error)
  {
    hide FailsAtOnce;
  }

  lemma ChildrenCause(
    env: Environment, nodes: Nodes, parent: Path, name: string, requested: string, optional: bool, error: ResolveError)
    requires SomeChildFails(env, nodes, optional, error)
    ensures HasCause(env, nodes, parent, name, requested, optional, error)
  {
    hide SomeChildFails, RequestFails;
  }

  lemma ForeignCause(
    env: Environment, nodes: Nodes, parent: Path, name: string, requested: string, metadata: Metadata, optional: bool)
    requires Unfit(env, nodes, parent, name, requested, metadata)
    ensures !optional ==> HasCause(env, nodes, parent, name, requested, optional, PlatformMismatch)
  {
    hide Unfit;
    if !optional {
      assert FailsAtOnce(env, nodes, parent, name, requested, optional, PlatformMismatch);
      OwnCause(env, nodes, parent, name, requested, optional, PlatformMismatch);
    }
  }

  lemma NoVersionFails(env: Environment, nodes: Nodes, parent: Path, name: string, requested: string, optional: bool)
    requires var spec := SpecAt(env, nodes, parent, name, requested);
             && AsksRegistry(env, name, spec) && NoneVisible(env, nodes, parent, name, env.registryRequest(name, spec).1)
             && parent + [name] !in nodes
             && Selects(env, nodes, parent, env.registryRequest(name, spec).0, env.registryRequest(name, spec).1, None)
    ensures FailsAtOnce(env, nodes, parent, name, requested, optional, RegistryError)
  {
    hide Selects, NoneVisible;
  }

  lemma DetourCause(env: Environment, nodes: Nodes, d: Detour, optional: bool)
    requires MayDetour(env, d) && d.before == nodes
    ensures HasCause(env, nodes, d.parent, d.name, d.requested, optional, OutOfBudget)
  {
    hide MayDetour;
    assert d == Detour(nodes, d.parent, d.name, d.requested, d.metadata);
    assert FailsAtOnce(env, nodes, d.parent, d.name, d.requested, optional, OutOfBudget);
  }

  /** Where no detour is possible nothing fails for lack of budget. */
  lemma NoDetourCause(env: Environment, nodes: Nodes)
    requires forall d :: !MayDetour(env, d)
    ensures forall parent, n, r, o :: !HasCause(env, nodes, parent, n, r, o, OutOfBudget)
  {
    hide MayDetour;
    assert forall parent, n, r, o :: !FailsAtOnce(env, nodes, parent, n, r, o, OutOfBudget);
  }

  /** The cause of a child's failure is a cause for the package's requests. */
  lemma ChildCause(env: Environment, nodes: Nodes, path: Path, child: string, optional: bool, error: ResolveError)
    requires path in nodes && child in nodes[path].dependencies
    requires HasCause(env, nodes, path, child, nodes[path].dependencies[child], ChildOptional(nodes[path], child, optional), error)
    ensures SomeChildFails(env, nodes, optional, error)
  {
    hide RequestFails;
    var childOptional := ChildOptional(nodes[path], child, optional);
    if SomeChildFails(env, nodes, childOptional, error) {
      var a, c, o :|
        && a in nodes && c in nodes[a].dependencies
        && (childOptional || c in nodes[a].metadata.optionalDependencies ==> o)
        && RequestFails(env, nodes, a, c, nodes[a].dependencies[c], o, error);
    }
  }

  /**
   What every request leaves behind. A landing is on a placed copy visible from `parent`; a
   conflict changes nothing; without a failure all new nodes are complete.
   */
  ghost predicate Answered(
    env: Environment, a: Snap, b: Snap, parent: Path, name: string, optional: bool, dev: bool, budget: nat, outcome: Outcome)
  {
    && Extends(a, b, parent + [name])
    && (outcome.At? ==>
          && outcome.path in b.nodes && OnAncestorChain(outcome.path, parent, name)
          && Logged(a.landings, b.landings, Landing(outcome.path, optional, dev)))
    && (outcome.Skipped? ==> optional && b == a)
    && (!outcome.Failed? ==> NewComplete(a, b))
    && (outcome.Failed? ==> Budgeted(a, b, budget, outcome.error))
    && (outcome == Failed(PlacementConflict) ==> b == a && parent + [name] in a.nodes)
  }

  lemma LinkAnswers(
    env: Environment, a: Snap, b: Snap, parent: Path, name: string, requested: string, member: Metadata, optional: bool, dev: bool,
    budget: nat)
    requires Answered(env, a, b, parent, name, optional, dev, budget, At([name])) && WellPlaced(a.nodes) && IsPlaced(a.nodes, parent)
    requires env.workspace(name, SpecAt(env, a.nodes, parent, name, requested)) == Link(member)
    requires [name] !in a.nodes ==> [name] in b.nodes && b.nodes[[name]].metadata == member && b.nodes[[name]].link
    ensures AnswersRequest(env, a.nodes, b.nodes, parent, name, requested, optional, [name])
  {
    hide WellPlaced, NewComplete, Logged;
  }

  lemma SourceAnswers(
    env: Environment, a: Snap, b: Snap, parent: Path, name: string, requested: string, optional: bool, dev: bool, budget: nat)
    requires Answered(env, a, b, parent, name, optional, dev, budget, At(parent + [name]))
    requires WellPlaced(a.nodes) && IsPlaced(a.nodes, parent)
    requires var spec := SpecAt(env, a.nodes, parent, name, requested);
             && env.workspace(name, spec).NotLocal? && env.isSource(spec)
             && (parent + [name] !in a.nodes ==>
                   parent + [name] in b.nodes && env.loadSource(parent, spec) == Some(b.nodes[parent + [name]].metadata))
    ensures AnswersRequest(env, a.nodes, b.nodes, parent, name, requested, optional, parent + [name])
  {
    hide WellPlaced, NewComplete, Logged;
  }

  lemma RegistryAnswers(
    env: Environment, a: Snap, b: Snap, parent: Path, name: string, requested: string, optional: bool, dev: bool, budget: nat, target: Path)
    requires Answered(env, a, b, parent, name, optional, dev, budget, At(target))
    requires WellPlaced(a.nodes) && IsPlaced(a.nodes, parent)
    requires var spec := SpecAt(env, a.nodes, parent, name, requested);
             AsksRegistry(env, name, spec) && AnswersRegistry(env, a.nodes, b.nodes, parent, name, spec, optional, At(target))
    ensures AnswersRequest(env, a.nodes, b.nodes, parent, name, requested, optional, target)
  {
    hide WellPlaced, NewComplete, Logged, AnswersRegistry;
  }

  /** What all the requests of the package at `path` leave behind; they never conflict. */
  ghost predicate ChildrenAnswered(
    env: Environment, a: Snap, b: Snap, path: Path, names: set<string>, optional: bool, dev: bool, budget: nat,
    failure: Option<ResolveError>)
  {
    && ExtendsBelow(a, b, path) && path in b.nodes
    && (failure.None? ==>
          NewComplete(a, b) && TargetsRecorded(path, names, a.landings, b, optional, dev))
    && (failure.Some? ==> failure.value != PlacementConflict && Budgeted(a, b, budget, failure.value))
  }

  lemma BudgetedEarlier(a: Snap, b: Snap, c: Snap, budget: nat, error: ResolveError)
    requires a.detours <= b.detours && Budgeted(b, c, budget, error)
    ensures Budgeted(a, c, budget, error)
  {
  }

  /** A child's failure is the failure of the package's requests. */
  lemma ChildFails(
    env: Environment, a: Snap, b: Snap, c: Snap, path: Path, names: set<string>, name: string, optional: bool, dev: bool,
    childOptional: bool, budget: nat, error: ResolveError)
    requires WellPlaced(a.nodes) && path in a.nodes && ExtendsBelow(a, b, path) && path + [name] !in b.nodes
    requires Answered(env, b, c, path, name, childOptional, dev, budget, Failed(error)) && (optional ==> childOptional)
    ensures ChildrenAnswered(env, a, c, path, names, optional, dev, budget, Some(error))
  {
    hide Budgeted, Extends, ExtendsBelow, WellPlaced, NewComplete;
    BelowThenRequest(a, b, c, path, name);
    assert a.detours <= b.detours by { BelowAdvances(a, b, path); }
    BudgetedEarlier(a, b, c, budget, error);
  }

  lemma BelowAdvances(a: Snap, b: Snap, path: Path)
    requires ExtendsBelow(a, b, path)
    ensures Advanced(a, b)
  {
  }

  lemma RequestAdvances(a: Snap, b: Snap, at: Path)
    requires Extends(a, b, at)
    ensures Advanced(a, b)
  {
  }

  /** Where the loop over a package's dependencies stands after the names in `asked`. */
  ghost predicate AskedSoFar(a: Snap, b: Snap, path: Path, asked: set<string>, optional: bool, dev: bool)
  {
    && path in a.nodes && ExtendsBelow(a, b, path) && NewComplete(a, b) && path in b.nodes
    && TargetsRecorded(path, asked, a.landings, b, optional, dev)
    && NothingBelow(b.nodes, path, asked)
  }

  lemma StartsAsking(a: Snap, path: Path, optional: bool, dev: bool)
    requires path in a.nodes && a.nodes[path].targets == map[] && NothingBelow(a.nodes, path, {})
    requires forall n :: !SkippedBy(a.skips, path, n)
    ensures AskedSoFar(a, a, path, {}, optional, dev)
  {
    ExtendsSelf(a, path);
  }

  /** What recording one outcome does: the one target, or the one skip, nothing else. */
  ghost predicate RecordsOutcome(c: Snap, d: Snap, path: Path, name: string, outcome: Outcome)
  {
    && path in c.nodes && !outcome.Failed?
    && (outcome.At? ==> d == c.(nodes := c.nodes[path := c.nodes[path].(targets := c.nodes[path].targets[name := outcome.path])]))
    && (outcome.Skipped? ==>
          |d.skips| == |c.skips| + 1 && d == c.(skips := c.skips + [d.skips[|c.skips|]])
          && d.skips[|c.skips|].asker == path && d.skips[|c.skips|].name == name)
  }

  lemma OneMoreSkip(skips: seq<Skip>, skip: Skip, p: Path, n: string)
    ensures SkippedBy(skips + [skip], p, n) <==> SkippedBy(skips, p, n) || (skip.asker == p && skip.name == n)
  {
    var longer := skips + [skip];
    assert longer[|skips|] == skip;
    if SkippedBy(skips, p, n) {
      var i :| 0 <= i < |skips| && skips[i].asker == p && skips[i].name == n;
      assert longer[i] == skips[i];
    }
  }

  lemma RecordedSkips(c: Snap, d: Snap, path: Path, name: string, outcome: Outcome, p: Path, n: string)
    requires RecordsOutcome(c, d, path, name, outcome)
    ensures SkippedBy(d.skips, p, n) <==> SkippedBy(c.skips, p, n) || (outcome.Skipped? && p == path && n == name)
  {
    hide SkippedBy;
    if outcome.Skipped? {
      OneMoreSkip(c.skips, d.skips[|c.skips|], p, n);
    }
  }

  lemma RecordedAdvances(c: Snap, d: Snap, path: Path, name: string, outcome: Outcome)
    requires RecordsOutcome(c, d, path, name, outcome)
    ensures Advanced(c, d) && TargetsKept(c, d, {path}) && d.nodes.Keys == c.nodes.Keys && NewComplete(c, d)
  {
    hide SkippedBy;
    forall p, n
      ensures SkippedBy(d.skips, p, n) <==> SkippedBy(c.skips, p, n) || (outcome.Skipped? && p == path && n == name)
    {
      RecordedSkips(c, d, path, name, outcome, p, n);
    }
  }

  lemma ChildDone(
    env: Environment, a: Snap, b: Snap, c: Snap, d: Snap, path: Path, asked: set<string>, name: string, outcome: Outcome,
    optional: bool, dev: bool, budget: nat)
    requires WellPlaced(a.nodes) && AskedSoFar(a, b, path, asked, optional, dev) && path != [] && name !in asked
    requires Answered(env, b, c, path, name, ChildOptional(b.nodes[path], name, optional), dev, budget, outcome) && !outcome.Failed?
    requires RecordsOutcome(c, d, path, name, outcome)
    ensures AskedSoFar(a, d, path, asked + {name}, optional, dev)
  {
    hide WellPlaced, NewComplete, TargetsRecorded, NothingBelow, Advanced, TargetsKept, NewOnlyAt, NewOnlyBelow, Logged, OnAncestorChain,
      SkippedBy;
    RequestAdvances(b, c, path + [name]);
    RecordedAdvances(c, d, path, name, outcome);
    AdvancedThen(b, c, d);
    BelowThenRequest(a, b, c, path, name);
    BelowThenRecord(a, c, d, path);
    NewCompleteThen(b, c, d, {path});
    RequestKeeps(b, c, path + [name]);
    CompleteBelow(a, b, c, d, path);
    ChildRecorded(a, b, c, d, path, asked, name, outcome, optional, dev);
    OnlyTheAskedBelow(b.nodes, c.nodes, path, asked, name);
    SameSlots(c.nodes, d.nodes, path, asked + {name});
  }

  lemma RequestKeeps(a: Snap, b: Snap, at: Path)
    requires Extends(a, b, at)
    ensures TargetsKept(a, b, {})
  {
  }

  lemma CompleteBelow(a: Snap, b: Snap, c: Snap, d: Snap, path: Path)
    requires path in a.nodes && NewComplete(a, b) && Advanced(b, c) && Advanced(c, d) && Advanced(b, d)
    requires TargetsKept(b, c, {}) && TargetsKept(c, d, {path}) && NewComplete(b, d)
    ensures NewComplete(a, d)
  {
    hide Complete, SkippedBy;
    assert TargetsKept(b, d, {path});
    NewCompleteThen(a, b, d, {path});
  }

  lemma ChildRecorded(
    a: Snap, b: Snap, c: Snap, d: Snap, path: Path, asked: set<string>, name: string, outcome: Outcome, optional: bool, dev: bool)
    requires path in a.nodes && path in b.nodes && path in c.nodes && Advanced(a, b) && Advanced(b, c) && name !in asked
    requires TargetsRecorded(path, asked, a.landings, b, optional, dev)
    requires c.nodes[path].targets == b.nodes[path].targets && RecordsOutcome(c, d, path, name, outcome)
    requires forall n :: SkippedBy(c.skips, path, n) <==> SkippedBy(b.skips, path, n)
    requires outcome.At? ==> Logged(b.landings, c.landings, Landing(outcome.path, ChildOptional(b.nodes[path], name, optional), dev))
    requires outcome.Skipped? ==> ChildOptional(b.nodes[path], name, optional)
    ensures TargetsRecorded(path, asked + {name}, a.landings, d, optional, dev)
  {
    hide Logged, SkippedBy, Advanced;
    AdvancedKeeps(b, c, path);
    forall n
      ensures SkippedBy(d.skips, path, n) <==> SkippedBy(b.skips, path, n) || (outcome.Skipped? && n == name)
    {
      RecordedSkips(c, d, path, name, outcome, path, n);
    }
    LoggedStill(a, b, c, d, path, asked, name, outcome, optional, dev);
  }

  lemma LoggedStill(
    a: Snap, b: Snap, c: Snap, d: Snap, path: Path, asked: set<string>, name: string, outcome: Outcome, optional: bool, dev: bool)
    requires path in b.nodes && path in c.nodes && Advanced(a, b) && Advanced(b, c)
    requires TargetsRecorded(path, asked, a.landings, b, optional, dev)
    requires c.nodes[path].targets == b.nodes[path].targets && RecordsOutcome(c, d, path, name, outcome)
    requires outcome.At? ==> Logged(b.landings, c.landings, Landing(outcome.path, ChildOptional(b.nodes[path], name, optional), dev))
    ensures forall n :: n in d.nodes[path].targets ==>
              Logged(a.landings, d.landings, Landing(d.nodes[path].targets[n], ChildOptional(d.nodes[path], n, optional), dev))
  {
    hide Logged, SkippedBy;
    forall n | n in d.nodes[path].targets
      ensures Logged(a.landings, d.landings, Landing(d.nodes[path].targets[n], ChildOptional(d.nodes[path], n, optional), dev))
    {
      var entry := Landing(d.nodes[path].targets[n], ChildOptional(d.nodes[path], n, optional), dev);
      if n == name && outcome.At? {
        LoggedLater(a.landings, b.landings, c.landings, entry);
      } else {
        StillLogged(a.landings, b.landings, c.landings, entry);
      }
    }
  }

  lemma StillLogged(before: seq<Landing>, mid: seq<Landing>, after: seq<Landing>, entry: Landing)
    requires Logged(before, mid, entry) && mid <= after
    ensures Logged(before, after, entry)
  {
  }

  lemma SameSlots(c: Nodes, d: Nodes, path: Path, but: set<string>)
    requires c.Keys == d.Keys && NothingBelow(c, path, but)
    ensures NothingBelow(d, path, but)
  {
  }

  lemma AllAsked(
    env: Environment, a: Snap, b: Snap, path: Path, names: set<string>, optional: bool, dev: bool, budget: nat)
    requires AskedSoFar(a, b, path, names, optional, dev)
    ensures ChildrenAnswered(env, a, b, path, names, optional, dev, budget, None)
  {
  }

  /** The state right after a copy is placed by its first request, as a detour or not. */
  ghost predicate Places(a: Snap, b: Snap, at: Path, node: Node, detour: Option<Detour>)
  {
    && at !in a.nodes && at != []
    && b == Snap(a.nodes[at := node], a.landings + [Landing(at, node.optional, node.dev)],
                 if detour.Some? then a.detours + [detour.value] else a.detours, a.skips)
  }

  lemma PlacedAdvances(a: Snap, b: Snap, at: Path, node: Node, detour: Option<Detour>)
    requires Places(a, b, at, node, detour)
    ensures Advanced(a, b) && TargetsKept(a, b, {}) && b.nodes.Keys == a.nodes.Keys + {at}
  {
  }

  /** A detour placed first leaves one less to take. */
  lemma BudgetedWithDetour(a: Snap, b: Snap, c: Snap, at: Path, node: Node, detour: Option<Detour>, budget: nat, error: ResolveError)
    requires Places(a, b, at, node, detour) && Budgeted(b, c, budget, error)
    ensures Budgeted(a, c, if detour.Some? then budget + 1 else budget, error)
  {
  }

  /** A copy placed, and its requests answered: the whole request is answered. */
  lemma PlacedAndAnswered(
    env: Environment, a: Snap, b: Snap, c: Snap, parent: Path, name: string, node: Node, at: Path, detour: Option<Detour>,
    optional: bool, dev: bool, budget: nat, failure: Option<ResolveError>)
    requires Consistent(a.nodes, a.landings) && Places(a, b, at, node, detour) && node.optional == optional && node.dev == dev
    requires node.dependencies == MergedDependencies(node.metadata)
    requires OnAncestorChain(at, parent, name) && (at == parent + [name] || |at| == 1)
    requires ChildrenAnswered(env, b, c, at, node.dependencies.Keys, optional, dev, budget, failure)
    ensures at in c.nodes && c.nodes[at].metadata == node.metadata && c.nodes[at].link == node.link
    ensures Answered(env, a, c, parent, name, optional, dev, if detour.Some? then budget + 1 else budget,
                     if failure.Some? then Failed(failure.value) else At(at))
    ensures failure != Some(PlacementConflict)
  {
    hide Consistent, TargetsRecorded, Complete, Budgeted, OnAncestorChain, NewComplete, Advanced, TargetsKept, NewOnlyAt, NewOnlyBelow;
    PlacedAdvances(a, b, at, node, detour);
    BelowAdvances(b, c, at);
    PlacedThenBelow(a, b, c, at);
    AtRootIsAnywhere(a.nodes, c.nodes, at, parent + [name]);
    AdvancedKeeps(b, c, at);
    if failure.None? {
      PlacedIsComplete(a, b, c, at, optional, dev);
      NewCompleteWithPlaced(a, b, c, at);
      AdvancedLog(b, c);
      LoggedNow(a.landings, Landing(at, optional, dev), c.landings);
    } else {
      BudgetedWithDetour(a, b, c, at, node, detour, budget, failure.value);
    }
  }

  lemma AtRootIsAnywhere(before: Nodes, after: Nodes, at: Path, other: Path)
    requires NewOnlyAt(before, after, at) && (at == other || |at| == 1)
    ensures NewOnlyAt(before, after, other)
  {
  }

  lemma AdvancedKeeps(a: Snap, b: Snap, path: Path)
    requires Advanced(a, b) && path in a.nodes
    ensures path in b.nodes && b.nodes[path].metadata == a.nodes[path].metadata && b.nodes[path].dependencies == a.nodes[path].dependencies
    ensures b.nodes[path].link == a.nodes[path].link
  {
  }

  lemma AdvancedLog(a: Snap, b: Snap)
    requires Advanced(a, b)
    ensures a.landings <= b.landings && a.detours <= b.detours
  {
  }

  /** A request that lands on a copy already there. */
  ghost predicate Lands(a: Snap, b: Snap, path: Path, optional: bool, dev: bool)
  {
    && path in a.nodes
    && b == a.(nodes := a.nodes[path := Upgraded(a.nodes[path], optional, dev)], landings := a.landings + [Landing(path, optional, dev)])
  }

  lemma LandingAnswers(
    env: Environment, a: Snap, b: Snap, parent: Path, name: string, path: Path, optional: bool, dev: bool, budget: nat)
    requires Lands(a, b, path, optional, dev) && OnAncestorChain(path, parent, name)
    ensures Answered(env, a, b, parent, name, optional, dev, budget, At(path))
  {
    LoggedNow(a.landings, Landing(path, optional, dev), b.landings);
  }

  /** A request refused or skipped at once. */
  lemma NothingDone(
    env: Environment, a: Snap, parent: Path, name: string, optional: bool, dev: bool, budget: nat, outcome: Outcome)
    requires !outcome.At? && (outcome.Skipped? ==> optional)
    requires outcome.Failed? ==> Budgeted(a, a, budget, outcome.error)
    requires outcome == Failed(PlacementConflict) ==> parent + [name] in a.nodes
    ensures Answered(env, a, a, parent, name, optional, dev, budget, outcome)
  {
    ExtendsSelf(a, parent + [name]);
  }

  lemma ChosenPlaced(
    env: Environment, before: Nodes, after: Nodes, parent: Path, name: string, spec: string, optional: bool, outcome: Outcome,
    chosen: Option<Metadata>)
    requires Selects(env, before, parent, env.registryRequest(name, spec).0, env.registryRequest(name, spec).1, chosen)
    requires chosen.None? ==> outcome == Failed(RegistryError)
    requires chosen.Some? && !env.platformFits(name, chosen.value) ==> outcome == if optional then Skipped else Failed(PlatformMismatch)
    requires outcome.At? ==>
               chosen.Some? && outcome.path == parent + [name] && outcome.path in after && after[outcome.path].metadata == chosen.value
    ensures PlacesChosen(env, before, after, parent, name, spec, optional, outcome, chosen)
  {
  }

  /** The root slot is taken by a copy the request does not match. */
  ghost predicate RootTaken(env: Environment, nodes: Nodes, name: string, requested: string)
  {
    var spec := SpecAt(env, nodes, [], name, requested);
    && AsksRegistry(env, name, spec) && [name] in nodes
    && !env.matches(env.registryRequest(name, spec).1, nodes[[name]].metadata.version)
  }

  lemma RootTakenLater(env: Environment, a: Nodes, b: Nodes, name: string, requested: string)
    requires Grew(a, b) && RootTaken(env, a, name, requested)
    ensures RootTaken(env, b, name, requested)
  {
  }

  /** From the member's side the root's answer is an answer. */
  lemma RootAnswersMember(
    env: Environment, a: Snap, b: Snap, member: Path, name: string, optional: bool, dev: bool, budget: nat, outcome: Outcome)
    requires Answered(env, a, b, [], name, optional, dev, budget, outcome) && outcome != Failed(PlacementConflict)
    ensures Answered(env, a, b, member, name, optional, dev, budget, outcome)
    ensures outcome.At? ==> outcome.path == [name]
  {
    assert [] + [name] == [name];
    RootRequestFromBelow(a, b, name, member + [name]);
    if outcome.At? {
      RootIsOnEveryChain(outcome.path, member, name);
    }
  }

  /** The root's answer places nothing directly below the member. */
  lemma AnsweredKeepsNode(
    env: Environment, a: Snap, b: Snap, parent: Path, name: string, optional: bool, dev: bool, budget: nat, outcome: Outcome, path: Path)
    requires Answered(env, a, b, parent, name, optional, dev, budget, outcome) && path in a.nodes
    ensures path in b.nodes && b.nodes[path].metadata == a.nodes[path].metadata
    ensures b.nodes[path].dependencies == a.nodes[path].dependencies && b.nodes[path].link == a.nodes[path].link
    ensures forall n, o :: ChildOptional(b.nodes[path], n, o) == ChildOptional(a.nodes[path], n, o)
  {
    hide NewComplete, Logged, OnAncestorChain;
  }

  lemma RootAnswerBelowMember(
    env: Environment, a: Snap, b: Snap, member: Path, name: string, optional: bool, dev: bool, budget: nat, outcome: Outcome)
    requires Answered(env, a, b, [], name, optional, dev, budget, outcome)
    requires member in a.nodes && member != [] && member + [name] !in a.nodes
    ensures member + [name] !in b.nodes
  {
    assert Parent(member + [name]) == member;
    assert |member + [name]| > 1;
  }

  lemma RequestGrows(a: Snap, b: Snap, at: Path)
    requires Extends(a, b, at)
    ensures Grew(a.nodes, b.nodes)
  {
  }

  /** What the loop over a package's dependencies may rely on at its next name. */
  lemma SoFarKeeps(a: Snap, b: Snap, path: Path, asked: set<string>, name: string, optional: bool, dev: bool)
    requires AskedSoFar(a, b, path, asked, optional, dev)
    ensures path in b.nodes && Grew(a.nodes, b.nodes) && (name !in asked ==> path + [name] !in b.nodes)
    ensures b.nodes[path].dependencies == a.nodes[path].dependencies
  {
  }

  lemma AnsweredCanRecord(
    env: Environment, b: Snap, c: Snap, path: Path, name: string, optional: bool, dev: bool, budget: nat, outcome: Outcome)
    requires path in b.nodes && Answered(env, b, c, path, name, optional, dev, budget, outcome)
    ensures Advanced(b, c) && path in c.nodes && c.nodes[path].targets == b.nodes[path].targets
    ensures c.nodes[path].dependencies == b.nodes[path].dependencies && (outcome.Skipped? ==> c == b)
    ensures outcome.At? ==> outcome.path in c.nodes && OnAncestorChain(outcome.path, path, name)
  {
  }

  lemma ChildFailsSoFar(
    env: Environment, a: Snap, b: Snap, c: Snap, path: Path, asked: set<string>, names: set<string>, name: string,
    optional: bool, dev: bool, budget: nat, error: ResolveError)
    requires WellPlaced(a.nodes) && AskedSoFar(a, b, path, asked, optional, dev) && name !in asked
    requires Answered(env, b, c, path, name, ChildOptional(b.nodes[path], name, optional), dev, budget, Failed(error))
    ensures ChildrenAnswered(env, a, c, path, names, optional, dev, budget, Some(error))
  {
    hide Answered, ChildrenAnswered, ExtendsBelow, WellPlaced, NewComplete, TargetsRecorded;
    ChildFails(env, a, b, c, path, names, name, optional, dev, ChildOptional(b.nodes[path], name, optional), budget, error);
  }

  /** Each of the member's targets is at the root unless the root slot was taken. */
  ghost predicate AtRootUnlessTaken(env: Environment, nodes: Nodes, member: Path, dependencies: map<string, string>)
  {
    member in nodes && forall n :: n in nodes[member].targets ==>
      n in dependencies && (nodes[member].targets[n] == [n] || RootTaken(env, nodes, n, dependencies[n]))
  }

  lemma NothingHoisted(env: Environment, nodes: Nodes, member: Path, dependencies: map<string, string>)
    requires member in nodes && nodes[member].targets == map[]
    ensures AtRootUnlessTaken(env, nodes, member, dependencies)
  {
  }

  /** The member's targets stay at the root, or below the link for a slot that stays taken. */
  lemma StillAtRoot(
    env: Environment, b: Snap, c: Snap, d: Snap, member: Path, child: string, outcome: Outcome, dependencies: map<string, string>)
    requires member in b.nodes && member in c.nodes && Advanced(b, c) && RecordsOutcome(c, d, member, child, outcome)
    requires c.nodes[member].targets == b.nodes[member].targets && child in dependencies
    requires AtRootUnlessTaken(env, b.nodes, member, dependencies)
    requires outcome.At? ==> outcome.path == [child] || RootTaken(env, c.nodes, child, dependencies[child])
    ensures AtRootUnlessTaken(env, d.nodes, member, dependencies)
  {
    hide RootTaken;
    RecordedAdvances(c, d, member, child, outcome);
    AdvancedThen(b, c, d);
    forall n | n in d.nodes[member].targets
      ensures n in dependencies && (d.nodes[member].targets[n] == [n] || RootTaken(env, d.nodes, n, dependencies[n]))
    {
      if n == child && outcome.At? {
        if outcome.path != [child] {
          RootTakenLater(env, c.nodes, d.nodes, child, dependencies[child]);
        }
      } else if b.nodes[member].targets[n] != [n] {
        RootTakenLater(env, b.nodes, d.nodes, n, dependencies[n]);
      }
    }
  }

  // ---------------------------------------------------------------- whole runs

  /** Between the two states a request was made and answered with `target`, with these flags. */
  ghost predicate RequestAnswered(
    env: Environment, start: Snap, end: Snap, parent: Path, name: string, requested: string, optional: bool, dev: bool, target: Path)
  {
    exists a, b ::
      && Advanced(start, a) && Advanced(b, end) && AnswersRequest(env, a.nodes, b.nodes, parent, name, requested, optional, target)
      && Logged(a.landings, b.landings, Landing(target, optional, dev))
  }

  lemma RequestAnsweredLater(
    env: Environment, start: Snap, end: Snap, start': Snap, end': Snap, parent: Path, name: string, requested: string, optional: bool,
    dev: bool, target: Path)
    requires RequestAnswered(env, start, end, parent, name, requested, optional, dev, target)
    requires Advanced(start', start) && Advanced(end, end')
    ensures RequestAnswered(env, start', end', parent, name, requested, optional, dev, target)
  {
    hide AnswersRequest, Logged;
    var a, b :|
      && Advanced(start, a) && Advanced(b, end) && AnswersRequest(env, a.nodes, b.nodes, parent, name, requested, optional, target)
      && Logged(a.landings, b.landings, Landing(target, optional, dev));
    AdvancedThen(start', start, a);
    AdvancedThen(b, end, end');
  }

  lemma AnsweredNow(
    env: Environment, a: Snap, b: Snap, parent: Path, name: string, requested: string, optional: bool, dev: bool, budget: nat, target: Path)
    requires Answered(env, a, b, parent, name, optional, dev, budget, At(target))
    requires AnswersRequest(env, a.nodes, b.nodes, parent, name, requested, optional, target)
    ensures RequestAnswered(env, a, b, parent, name, requested, optional, dev, target)
  {
    hide AnswersRequest, Logged;
    assert Advanced(a, a) && Advanced(b, b);
  }

  /** Between the two states an optional request from the root was skipped: what was on offer is foreign. */
  ghost predicate RootSkipped(env: Environment, start: Snap, end: Snap, name: string, requested: string)
  {
    exists a :: Advanced(start, a) && Advanced(a, end) && UnfitFrom(env, a.nodes, [], name, requested)
  }

  lemma RootSkippedLater(env: Environment, start: Snap, end: Snap, start': Snap, end': Snap, name: string, requested: string)
    requires RootSkipped(env, start, end, name, requested) && Advanced(start', start) && Advanced(end, end')
    ensures RootSkipped(env, start', end', name, requested)
  {
    hide UnfitFrom;
    var a :| Advanced(start, a) && Advanced(a, end) && UnfitFrom(env, a.nodes, [], name, requested);
    AdvancedThen(start', start, a);
    AdvancedThen(a, end, end');
  }

  /** Why a run may fail: some request has a cause to, or peers were not bound in some state of the run. */
  ghost predicate RunExplained(env: Environment, a: Snap, b: Snap, budget: nat, error: ResolveError)
  {
    if error == PeerError then exists nodes :: Grew(a.nodes, nodes) && Grew(nodes, b.nodes) && env.bindPeers(nodes) != Some([])
    else
      && (error == OutOfBudget ==> |b.detours| >= |a.detours| + budget)
      && exists parent, n, r, o :: HasCause(env, b.nodes, parent, n, r, o, error)
  }

  lemma RunExplainedEarlier(env: Environment, a: Snap, b: Snap, c: Snap, budget: nat, error: ResolveError)
    requires Advanced(a, b) && RunExplained(env, b, c, budget, error)
    ensures RunExplained(env, a, c, budget, error)
  {
    hide HasCause;
    if error == PeerError {
      var nodes :| Grew(b.nodes, nodes) && Grew(nodes, c.nodes) && env.bindPeers(nodes) != Some([]);
      GrewThen(a.nodes, b.nodes, nodes);
    }
  }

  /** What a run of requests leaves behind: without a failure every new node is complete, and a failure has its cause. */
  ghost predicate RunAnswered(env: Environment, a: Snap, b: Snap, budget: nat, failure: Option<ResolveError>)
  {
    && Advanced(a, b) && TargetsKept(a, b, {})
    && (failure.None? ==> NewComplete(a, b))
    && (failure.Some? ==> RunExplained(env, a, b, budget, failure.value))
  }

  lemma RunSelf(env: Environment, a: Snap, budget: nat)
    ensures RunAnswered(env, a, a, budget, None)
  {
  }

  lemma RunThen(env: Environment, a: Snap, b: Snap, c: Snap, budget: nat, failure: Option<ResolveError>)
    requires RunAnswered(env, a, b, budget, None) && RunAnswered(env, b, c, budget, failure)
    ensures RunAnswered(env, a, c, budget, failure)
  {
    hide NewComplete, SkippedBy, RunExplained;
    AdvancedThen(a, b, c);
    if failure.None? {
      NewCompleteThen(a, b, c, {});
    } else {
      RunExplainedEarlier(env, a, b, c, budget, failure.value);
    }
  }

  lemma RunGrows(env: Environment, a: Snap, b: Snap, budget: nat, failure: Option<ResolveError>)
    requires RunAnswered(env, a, b, budget, failure)
    ensures Advanced(a, b) && Grew(a.nodes, b.nodes)
  {
  }

  lemma RequestIsRun(
    env: Environment, a: Snap, b: Snap, parent: Path, name: string, requested: string, optional: bool, dev: bool, budget: nat,
    outcome: Outcome)
    requires Answered(env, a, b, parent, name, optional, dev, budget, outcome)
    requires outcome.Failed? ==> HasCause(env, b.nodes, parent, name, requested, optional, outcome.error)
    ensures RunAnswered(env, a, b, budget, if outcome.Failed? then Some(outcome.error) else None)
  {
    hide HasCause, NewComplete, Logged, OnAncestorChain;
  }

  // ---------------------------------------------------------------- peers

  /** The repair's peer was asked for beside its consumer, as a required package. */
  ghost predicate RepairAsked(env: Environment, a: Snap, b: Snap, repair: PeerRepair)
  {
    exists target :: RequestAnswered(env, a, b, Parent(repair.consumer), repair.peer, repair.range, false, false, target)
  }

  /** One round: binding finds missing peers, and each of them is asked for. */
  ghost predicate RepairRound(env: Environment, a: Snap, b: Snap)
  {
    && env.bindPeers(a.nodes).Some? && env.bindPeers(a.nodes).value != [] && Advanced(a, b)
    && forall i :: 0 <= i < |env.bindPeers(a.nodes).value| ==> RepairAsked(env, a, b, env.bindPeers(a.nodes).value[i])
  }

  ghost predicate PeerRounds(env: Environment, rounds: seq<Snap>)
  {
    |rounds| > 0 && forall i :: 0 < i < |rounds| ==> RepairRound(env, rounds[i - 1], rounds[i])
  }

  /** One of the round's repairs could not be made. */
  ghost predicate RepairFails(env: Environment, a: Snap, b: Snap, error: ResolveError)
  {
    && env.bindPeers(a.nodes).Some? && Advanced(a, b)
    && exists i :: 0 <= i < |env.bindPeers(a.nodes).value| &&
         var repair := env.bindPeers(a.nodes).value[i];
         HasCause(env, b.nodes, Parent(repair.consumer), repair.peer, repair.range, false, error)
  }

  /** After these rounds: nothing missing; or binding is impossible, sixteen rounds were not enough, or a repair failed. */
  ghost predicate PeersEnd(env: Environment, rounds: seq<Snap>, s: Snap, failure: Option<ResolveError>)
    requires |rounds| > 0
  {
    var last := rounds[|rounds| - 1];
    match failure
    case None => s == last && env.bindPeers(s.nodes) == Some([])
    case Some(PeerError) =>
      || (s == last && (env.bindPeers(s.nodes).None? || (|rounds| == 17 && env.bindPeers(s.nodes) != Some([]))))
      || exists error :: error != OutOfBudget && RepairFails(env, last, s, error)
    case Some(error) => error == OutOfBudget && RepairFails(env, last, s, OutOfBudget)
  }

  lemma OneMoreRound(env: Environment, rounds: seq<Snap>, s: Snap)
    requires PeerRounds(env, rounds) && RepairRound(env, rounds[|rounds| - 1], s)
    ensures PeerRounds(env, rounds + [s])
  {
    hide RepairRound;
  }

  /** The run so far ends with peers unbound in its last state. */
  lemma RunUnbound(env: Environment, a: Snap, b: Snap, budget: nat)
    requires RunAnswered(env, a, b, budget, None) && env.bindPeers(b.nodes) != Some([])
    ensures RunAnswered(env, a, b, budget, Some(PeerError))
  {
    GrewSelf(b.nodes);
  }

  lemma RunUnboundSince(env: Environment, a: Snap, b: Snap, budget: nat, failure: Option<ResolveError>, nodes: Nodes)
    requires RunAnswered(env, a, b, budget, failure) && nodes == a.nodes && env.bindPeers(nodes) != Some([])
    ensures RunAnswered(env, a, b, budget, Some(PeerError))
  {
    GrewSelf(nodes);
  }

  lemma RepairFailed(env: Environment, a: Snap, b: Snap, repairs: seq<PeerRepair>, i: nat, error: ResolveError)
    requires env.bindPeers(a.nodes) == Some(repairs) && i < |repairs| && Advanced(a, b)
    requires HasCause(env, b.nodes, Parent(repairs[i].consumer), repairs[i].peer, repairs[i].range, false, error)
    ensures RepairFails(env, a, b, error)
  {
    hide HasCause;
  }

  /** A required request that does not fail lands. */
  lemma RequiredLands(
    env: Environment, a: Snap, b: Snap, parent: Path, name: string, requested: string, budget: nat, outcome: Outcome)
    requires Answered(env, a, b, parent, name, false, false, budget, outcome) && !outcome.Failed?
    requires outcome.At? ==> AnswersRequest(env, a.nodes, b.nodes, parent, name, requested, false, outcome.path)
    ensures outcome.At? && RequestAnswered(env, a, b, parent, name, requested, false, false, outcome.path)
    ensures Advanced(a, b)
  {
    hide AnswersRequest, NewComplete, OnAncestorChain;
    AnsweredNow(env, a, b, parent, name, requested, false, false, budget, outcome.path);
  }

  lemma RepairDone(env: Environment, a: Snap, b: Snap, c: Snap, repairs: seq<PeerRepair>, i: nat, target: Path)
    requires i < |repairs| && Advanced(a, b) && Advanced(b, c)
    requires forall j :: 0 <= j < i ==> RepairAsked(env, a, b, repairs[j])
    requires RequestAnswered(env, b, c, Parent(repairs[i].consumer), repairs[i].peer, repairs[i].range, false, false, target)
    ensures forall j :: 0 <= j <= i ==> RepairAsked(env, a, c, repairs[j])
  {
    hide RequestAnswered, Advanced;
    assert Advanced(a, a) && Advanced(c, c) by { AdvancedSelf(a); AdvancedSelf(c); }
    RequestAnsweredLater(env, b, c, a, c, Parent(repairs[i].consumer), repairs[i].peer, repairs[i].range, false, false, target);
    forall j | 0 <= j < i
      ensures RepairAsked(env, a, c, repairs[j])
    {
      var t :| RequestAnswered(env, a, b, Parent(repairs[j].consumer), repairs[j].peer, repairs[j].range, false, false, t);
      RequestAnsweredLater(env, a, b, a, c, Parent(repairs[j].consumer), repairs[j].peer, repairs[j].range, false, false, t);
    }
  }

  lemma AdvancedSelf(a: Snap)
    ensures Advanced(a, a)
  {
  }

  // ---------------------------------------------------------------- the manifest's own requests

  /** The root's request for `name` was answered at its slot, or was optional and skipped as foreign. */
  ghost predicate RootAsked(
    env: Environment, a: Snap, b: Snap, name: string, requested: string, optional: bool, dev: bool, landed: bool)
  {
    if landed then RequestAnswered(env, a, b, [], name, requested, optional, dev, [name])
    else optional && RootSkipped(env, a, b, name, requested)
  }

  lemma SkippedNow(env: Environment, a: Snap, name: string, requested: string)
    requires UnfitFrom(env, a.nodes, [], name, requested)
    ensures RootSkipped(env, a, a, name, requested)
  {
    hide UnfitFrom;
    AdvancedSelf(a);
  }

  lemma RootAskedLater(
    env: Environment, a: Snap, b: Snap, a': Snap, b': Snap, name: string, requested: string, optional: bool, dev: bool, landed: bool)
    requires RootAsked(env, a, b, name, requested, optional, dev, landed) && Advanced(a', a) && Advanced(b, b')
    ensures RootAsked(env, a', b', name, requested, optional, dev, landed)
  {
    hide RequestAnswered, RootSkipped;
    if landed {
      RequestAnsweredLater(env, a, b, a', b', [], name, requested, optional, dev, [name]);
    } else {
      RootSkippedLater(env, a, b, a', b', name, requested);
    }
  }

  predicate RootDev(name: string, optionalDeps: set<string>, devDeps: set<string>, plainDeps: set<string>)
  {
    name in devDeps && name !in plainDeps && name !in optionalDeps
  }

  /**
   Each of the manifest's dependencies in `asked` was asked for with the manifest's spec and flags; it is a root target
   when it landed, and may still become one as a workspace link when it was skipped.
   */
  ghost predicate RootsAnswered(
    env: Environment, a: Snap, b: Snap, rootDeps: map<string, string>, optionalDeps: set<string>, devDeps: set<string>,
    plainDeps: set<string>, asked: set<string>, rootTargets: map<string, Path>)
  {
    forall n :: n in asked && n in rootDeps ==>
      exists landed :: (landed ==> n in rootTargets) &&
        RootAsked(env, a, b, n, rootDeps[n], n in optionalDeps, RootDev(n, optionalDeps, devDeps, plainDeps), landed)
  }

  lemma RootsAnsweredLater(
    env: Environment, a: Snap, b: Snap, c: Snap, rootDeps: map<string, string>, optionalDeps: set<string>, devDeps: set<string>,
    plainDeps: set<string>, asked: set<string>, before: map<string, Path>, after: map<string, Path>)
    requires RootsAnswered(env, a, b, rootDeps, optionalDeps, devDeps, plainDeps, asked, before) && Advanced(b, c)
    requires before.Keys <= after.Keys
    ensures RootsAnswered(env, a, c, rootDeps, optionalDeps, devDeps, plainDeps, asked, after)
  {
    hide RootAsked, Advanced;
    AdvancedSelf(a);
    forall n | n in asked && n in rootDeps
      ensures exists landed :: (landed ==> n in after) &&
                RootAsked(env, a, c, n, rootDeps[n], n in optionalDeps, RootDev(n, optionalDeps, devDeps, plainDeps), landed)
    {
      var landed :| (landed ==> n in before) &&
        RootAsked(env, a, b, n, rootDeps[n], n in optionalDeps, RootDev(n, optionalDeps, devDeps, plainDeps), landed);
      RootAskedLater(env, a, b, a, c, n, rootDeps[n], n in optionalDeps, RootDev(n, optionalDeps, devDeps, plainDeps), landed);
    }
  }

  lemma OneMoreRoot(
    env: Environment, a: Snap, b: Snap, c: Snap, rootDeps: map<string, string>, optionalDeps: set<string>, devDeps: set<string>,
    plainDeps: set<string>, asked: set<string>, name: string, before: map<string, Path>, after: map<string, Path>)
    requires RootsAnswered(env, a, b, rootDeps, optionalDeps, devDeps, plainDeps, asked, before) && Advanced(a, b) && Advanced(b, c)
    requires before.Keys <= after.Keys && name in rootDeps
    requires RootAsked(env, b, c, name, rootDeps[name], name in optionalDeps, RootDev(name, optionalDeps, devDeps, plainDeps), name in after)
    ensures RootsAnswered(env, a, c, rootDeps, optionalDeps, devDeps, plainDeps, asked + {name}, after)
  {
    hide RootAsked, Advanced;
    AdvancedSelf(c);
    RootsAnsweredLater(env, a, b, c, rootDeps, optionalDeps, devDeps, plainDeps, asked, before, after);
    RootAskedLater(env, b, c, a, c, name, rootDeps[name], name in optionalDeps, RootDev(name, optionalDeps, devDeps, plainDeps), name in after);
  }

  /** Each root target is where a request for it landed: the manifest's, or one of the first `n` workspace links'. */
  ghost predicate TargetsAnswered(
    env: Environment, a: Snap, b: Snap, rootDeps: map<string, string>, optionalDeps: set<string>, devDeps: set<string>,
    plainDeps: set<string>, links: seq<(string, string)>, n: nat, rootTargets: map<string, Path>)
    requires n <= |links|
  {
    forall t :: t in rootTargets ==>
      || (t in rootDeps &&
          RequestAnswered(env, a, b, [], t, rootDeps[t], t in optionalDeps, RootDev(t, optionalDeps, devDeps, plainDeps), [t]))
      || (exists k :: 0 <= k < n && links[k].0 == t && RequestAnswered(env, a, b, [], t, links[k].1, false, false, [t]))
  }

  lemma TargetsAnsweredLater(
    env: Environment, a: Snap, b: Snap, c: Snap, rootDeps: map<string, string>, optionalDeps: set<string>, devDeps: set<string>,
    plainDeps: set<string>, links: seq<(string, string)>, n: nat, rootTargets: map<string, Path>)
    requires n <= |links| && TargetsAnswered(env, a, b, rootDeps, optionalDeps, devDeps, plainDeps, links, n, rootTargets)
    requires Advanced(b, c)
    ensures TargetsAnswered(env, a, c, rootDeps, optionalDeps, devDeps, plainDeps, links, n, rootTargets)
  {
    hide RequestAnswered, Advanced;
    AdvancedSelf(a);
    forall t, r, o, d | RequestAnswered(env, a, b, [], t, r, o, d, [t])
      ensures RequestAnswered(env, a, c, [], t, r, o, d, [t])
    {
      RequestAnsweredLater(env, a, b, a, c, [], t, r, o, d, [t]);
    }
  }

  /** One more manifest dependency, which lands or not. */
  lemma TargetsWithRoot(
    env: Environment, a: Snap, b: Snap, c: Snap, rootDeps: map<string, string>, optionalDeps: set<string>, devDeps: set<string>,
    plainDeps: set<string>, links: seq<(string, string)>, name: string, before: map<string, Path>, after: map<string, Path>)
    requires TargetsAnswered(env, a, b, rootDeps, optionalDeps, devDeps, plainDeps, links, 0, before)
    requires Advanced(a, b) && Advanced(b, c) && name in rootDeps && after.Keys <= before.Keys + {name}
    requires RootAsked(env, b, c, name, rootDeps[name], name in optionalDeps, RootDev(name, optionalDeps, devDeps, plainDeps), name in after)
    ensures TargetsAnswered(env, a, c, rootDeps, optionalDeps, devDeps, plainDeps, links, 0, after)
  {
    hide RequestAnswered, Advanced;
    AdvancedSelf(c);
    TargetsAnsweredLater(env, a, b, c, rootDeps, optionalDeps, devDeps, plainDeps, links, 0, before);
    if name in after {
      RequestAnsweredLater(
        env, b, c, a, c, [], name, rootDeps[name], name in optionalDeps, RootDev(name, optionalDeps, devDeps, plainDeps), [name]);
    }
  }

  /** One more workspace link, asked for when no target has its name yet. */
  lemma TargetsWithLink(
    env: Environment, a: Snap, b: Snap, c: Snap, rootDeps: map<string, string>, optionalDeps: set<string>, devDeps: set<string>,
    plainDeps: set<string>, links: seq<(string, string)>, i: nat, before: map<string, Path>, after: map<string, Path>)
    requires i < |links| && TargetsAnswered(env, a, b, rootDeps, optionalDeps, devDeps, plainDeps, links, i, before)
    requires Advanced(a, b) && Advanced(b, c) && after.Keys <= before.Keys + {links[i].0}
    requires links[i].0 !in before ==> RootAsked(env, b, c, links[i].0, links[i].1, false, false, links[i].0 in after)
    ensures TargetsAnswered(env, a, c, rootDeps, optionalDeps, devDeps, plainDeps, links, i + 1, after)
  {
    hide RequestAnswered, Advanced;
    AdvancedSelf(c);
    TargetsAnsweredLater(env, a, b, c, rootDeps, optionalDeps, devDeps, plainDeps, links, i, before);
    if links[i].0 !in before {
      RequestAnsweredLater(env, b, c, a, c, [], links[i].0, links[i].1, false, false, [links[i].0]);
    }
  }

  /** Why the manifest's run failed: a dependency, a link or, for lack of budget, a peer repair. */
  ghost predicate ManifestCause(
    env: Environment, s: Snap, rootDeps: map<string, string>, optionalDeps: set<string>, links: seq<(string, string)>, rounds: seq<Snap>,
    error: ResolveError)
  {
    || (exists n :: n in rootDeps && HasCause(env, s.nodes, [], n, rootDeps[n], n in optionalDeps, error))
    || (exists i :: 0 <= i < |links| && HasCause(env, s.nodes, [], links[i].0, links[i].1, false, error))
    || (|rounds| > 0 && PeerRounds(env, rounds) && PeersEnd(env, rounds, s, Some(error)))
  }

  function LinkNames(links: seq<(string, string)>): set<string>
  {
    set i | 0 <= i < |links| :: links[i].0
  }

  lemma NothingAsked(
    env: Environment, a: Snap, rootDeps: map<string, string>, optionalDeps: set<string>, devDeps: set<string>, plainDeps: set<string>,
    links: seq<(string, string)>)
    ensures RootsAnswered(env, a, a, rootDeps, optionalDeps, devDeps, plainDeps, {}, map[])
    ensures TargetsAnswered(env, a, a, rootDeps, optionalDeps, devDeps, plainDeps, links, 0, map[])
  {
  }

  lemma RequiredRootLands(env: Environment, a: Snap, b: Snap, name: string, requested: string, landed: bool)
    requires RootAsked(env, a, b, name, requested, false, false, landed)
    ensures landed
  {
  }

  /** The peer rounds end with success, a peer error or a lack of budget. */
  lemma PeersCause(env: Environment, a: Snap, b: Snap, rounds: seq<Snap>, failure: Option<ResolveError>)
    requires |rounds| > 0 && PeersEnd(env, rounds, b, failure)
    ensures failure in {None, Some(PeerError), Some(OutOfBudget)}
  {
    hide RepairFails;
  }
}
