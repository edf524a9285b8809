/**
 The native resolver (src/async_resolver.rs, `AsyncGraphResolver`): a stateful recursive search
 that places packages into a `node_modules` tree.

 Registry and workspace requests terminate by a measure: workspace members without a root link, then
 (name, version) pairs not yet on the chain. `budget` bounds the number of detours the measure does
 not cover, nested in one another; `detours` is the history of those taken, `skips` of the optional
 requests that were skipped.
 */
module Resolver {
  import opened Options
  import opened Ordering
  import opened ResolverState
  import opened ResolverSteps
  import opened ResolverLoads

  class AsyncGraphResolver {
    const env: Environment
    ghost const bounds: Bounds
    var nodes: Nodes
    /** Every request that landed on a copy, in order. */
    ghost var landings: seq<Landing>
    ghost var detours: seq<Detour>
    ghost var skips: seq<Skip>

    ghost function S(): Snap
      reads this
    {
      Snap(nodes, landings, detours, skips)
    }

    ghost predicate Valid()
      reads this
    {
      && FiniteRegistry(env, bounds) && Consistent(nodes, landings)
      && HistoryFits(env, S()) && (detours == [] ==> PairsDistinct(nodes)) && AllFit(env, nodes) && Promises(env, nodes)
      && TargetsJustified(env, nodes)
    }

    constructor (env: Environment, ghost bounds: Bounds)
      requires FiniteRegistry(env, bounds)
      ensures Valid() && this.env == env && this.bounds == bounds && S() == Snap(map[], [], [], [])
    {
      this.env := env;
      this.bounds := bounds;
      nodes := map[];
      landings, detours, skips := [], [], [];
      NoPromiseYet(env);
    }

    lemma ValidPlaces()
      requires Valid()
      ensures WellPlaced(nodes) && FiniteRegistry(env, bounds) && Promises(env, nodes) && forall p :: p in nodes ==> p != []
    {
    }

    /** The nearest copy of `name` above `parent` whose version matches; nearer mismatches are skipped. */
    method FindVisible(parent: Path, name: string, range: string) returns (found: Option<Path>)
      ensures found.None? ==> NoneVisible(env, nodes, parent, name, range)
      ensures found.Some? ==> exists k :: NearestMatch(env, nodes, parent, name, range, k) && found.value == parent[..k] + [name]
    {
      var candidate := parent;
      while true
        invariant |candidate| <= |parent| && candidate == parent[..|candidate|]
        invariant forall j :: |candidate| < j <= |parent| ==> !VisibleAt(env, nodes, parent, name, range, j)
        decreases |candidate|
      {
        var path := candidate + [name];
        if path in nodes && env.matches(range, nodes[path].metadata.version) {
          assert NearestMatch(env, nodes, parent, name, range, |candidate|);
          return Some(path);
        }
        if candidate == [] {
          return None;
        }
        candidate := candidate[..|candidate| - 1];
      }
    }

    /** The nearest copy of `name`, whatever its version. */
    method FindVisibleAny(parent: Path, name: string) returns (found: Option<Path>)
      ensures found.Some? ==> exists k :: NearestAt(nodes, parent, name, k) && found.value == parent[..k] + [name]
      ensures found.None? ==> forall k :: !NearestAt(nodes, parent, name, k)
    {
      var candidate := parent;
      while true
        invariant |candidate| <= |parent| && candidate == parent[..|candidate|]
        invariant forall k :: |candidate| < k <= |parent| ==> parent[..k] + [name] !in nodes
        decreases |candidate|
      {
        if candidate + [name] in nodes {
          assert NearestAt(nodes, parent, name, |candidate|);
          return Some(candidate + [name]);
        }
        if candidate == [] {
          return None;
        }
        candidate := candidate[..|candidate| - 1];
      }
    }

    method AncestorChain(parent: Path) returns (chain: seq<(string, Version)>)
      ensures chain == AncestorsOf(nodes, parent)
    {
      chain := [];
      var current := parent;
      while current != []
        invariant AncestorsOf(nodes, parent) == AncestorsOf(nodes, current) + chain
      {
        if current in nodes {
          chain := [(nodes[current].placementName, nodes[current].metadata.version)] + chain;
        }
        current := current[..|current| - 1];
      }
    }

    method PeerCandidateMatches(metadata: Metadata, parent: Path) returns (ok: bool)
      ensures ok <==> PeersFit(env, nodes, parent, metadata)
    {
      var peers := IterationOrder(metadata.peerDependencies.Keys);
      for i := 0 to |peers|
        invariant forall j :: 0 <= j < i ==> PeerFits(env, nodes, parent, metadata, peers[j])
      {
        var fits := PeerMatches(metadata, parent, peers[i]);
        if !fits {
          return false;
        }
      }
      ok := true;
    }

    method PeerMatches(metadata: Metadata, parent: Path, peer: string) returns (ok: bool)
      requires peer in metadata.peerDependencies
      ensures ok <==> PeerFits(env, nodes, parent, metadata, peer)
    {
      var provider := FindVisibleAny(parent, peer);
      if provider.None? {
        return peer in metadata.optionalPeers;
      }
      ghost var k :| NearestAt(nodes, parent, peer, k) && provider.value == parent[..k] + [peer];
      assert forall j :: NearestAt(nodes, parent, peer, j) ==> j == k;
      ok := env.matches(metadata.peerDependencies[peer], nodes[provider.value].metadata.version);
    }

    /** Platform mismatch skips an optional package and fails a required one. */
    method PlatformAllows(name: string, metadata: Metadata, optional: bool) returns (verdict: Outcome)
      ensures verdict == if env.platformFits(name, metadata) then At([]) else if optional then Skipped else Failed(PlatformMismatch)
    {
      verdict := if env.platformFits(name, metadata) then At([]) else if optional then Skipped else Failed(PlatformMismatch);
    }

    method UpgradeReachability(path: Path, optional: bool, dev: bool)
      requires Valid() && path in nodes
      modifies this
      ensures Valid() && ResolverSteps.Lands(old(S()), S(), path, optional, dev) && SameCopies(old(nodes), nodes)
    {
      hide WellPlaced, TargetsOnChain, FlagsAreConjunctions, FiniteRegistry, Grew, PairsDistinct, HistoryFits, Promises, TargetsJustified;
      var nodes' := nodes[path := Upgraded(nodes[path], optional, dev)];
      UpgradeKeeps(nodes, landings, path, optional, dev);
      HistoryLater(env, S(), S().(nodes := nodes', landings := landings + [Landing(path, optional, dev)]));
      SameKeepsPromises(env, nodes, nodes');
      SameKeepsJustified(env, nodes, nodes');
      if detours == [] {
        PairsStayDistinct(nodes, nodes');
      }
      nodes := nodes';
      landings := landings + [Landing(path, optional, dev)];
    }

    /** Insert a fresh copy of `name` under `parent`, as a detour or not. */
    method Place(parent: Path, name: string, metadata: Metadata, optional: bool, dev: bool, link: bool, ghost detour: Option<Detour>)
      requires Valid() && IsPlaced(nodes, parent) && parent + [name] !in nodes && env.platformFits(name, metadata)
      requires Suits(env, nodes, parent, name, metadata)
      requires detour.Some? ==>
                 MayDetour(env, detour.value) && DetourIs(detour.value, nodes, parent + [name], metadata)
      requires detours != [] || detour.Some? || (name, metadata.version) !in ChainPairs(nodes, parent)
      modifies this
      ensures Valid() && Places(old(S()), S(), parent + [name], Fresh(name, metadata, optional, dev, link), detour)
      ensures NothingBelow(nodes, parent + [name], {}) && Grew(old(nodes), nodes)
      ensures forall n :: !SkippedBy(skips, parent + [name], n)
    {
      hide WellPlaced, TargetsOnChain, FlagsAreConjunctions, FiniteRegistry, Grew, PairsDistinct, ChainPairs, HistoryFits, Promises, Suits,
        MayDetour, SkippedBy, AllFit, TargetsJustified;
      var path, node := parent + [name], Fresh(name, metadata, optional, dev, link);
      ghost var before := S();
      PlaceKeeps(nodes, landings, parent, name, node);
      PlaceKeepsPromises(env, nodes, parent, name, node);
      PlaceKeepsFit(env, nodes, parent, name, node);
      PlaceKeepsJustified(env, nodes, path, node);
      FreshHasNothingBelow(nodes, path, node);
      FreshHasNoSkips(env, before, path);
      if detours == [] && detour.None? {
        PlaceKeepsPairs(nodes, parent, name, node);
      }
      nodes := nodes[path := node];
      landings := landings + [Landing(path, optional, dev)];
      detours := if detour.Some? then detours + [detour.value] else detours;
      HistoryAfterPlacing(env, before, S(), path, node, detour);
    }

    /** One dependency request of the package at `parent` (the root when empty). */
    method ResolveDependency(parent: Path, name: string, requested: string, optional: bool, dev: bool, budget: nat)
      returns (outcome: Outcome)
      requires Valid() && IsPlaced(nodes, parent) && name in bounds.names
      modifies this
      ensures Valid() && Answered(env, old(S()), S(), parent, name, optional, dev, budget, outcome)
      ensures var spec := SpecAt(env, old(nodes), parent, name, requested);
              AsksRegistry(env, name, spec) ==> AnswersRegistry(env, old(nodes), nodes, parent, name, spec, optional, outcome)
      ensures outcome == Failed(PlacementConflict) ==>
                var spec := SpecAt(env, old(nodes), parent, name, requested);
                AsksRegistry(env, name, spec) && NoneVisible(env, nodes, parent, name, env.registryRequest(name, spec).1)
      ensures outcome.Skipped? ==> UnfitFrom(env, old(nodes), parent, name, requested)
      ensures outcome.At? && Compatible(env) ==> Loads(nodes, parent, name, outcome.path)
      ensures outcome.At? ==> AnswersRequest(env, old(nodes), nodes, parent, name, requested, optional, outcome.path)
      ensures outcome.Failed? ==> HasCause(env, nodes, parent, name, requested, optional, outcome.error)
      decreases budget, |Unplaced(bounds, nodes)|, |PairsLeft(bounds, nodes, parent)|, 1, 0
    {
      hide FiniteRegistry, Consistent, PairsDistinct, Answered, AnswersRegistry, NoneVisible, Unplaced, PairsLeft, Loads, UnfitFrom, Valid,
        AnswersRequest, HasCause;
      ghost var before := S();
      ValidPlaces();
      var ancestors := AncestorChain(parent);
      var spec := env.effectiveSpec(name, requested, ancestors);
      match env.workspace(name, spec) {
        case Rejected =>
          NothingDone(env, S(), parent, name, optional, dev, budget, Failed(WorkspaceError));
          OwnCause(env, nodes, parent, name, requested, optional, WorkspaceError);
          return Failed(WorkspaceError);
        case Link(member) =>
          LinkedMemberNamed(env, bounds, name, spec);
          outcome := LinkWorkspaceMember(parent, name, requested, spec, member, optional, dev, budget);
          if outcome.At? {
            LinkAnswers(env, before, S(), parent, name, requested, member, optional, dev, budget);
          }
          return;
        case NotLocal =>
      }
      if env.isSource(spec) {
        outcome := ResolveSourceDependency(parent, name, requested, spec, optional, dev, budget);
        if outcome.At? {
          SourceAnswers(env, before, S(), parent, name, requested, optional, dev, budget);
        }
        return;
      }
      outcome := ResolveRegistryDependency(parent, name, requested, spec, optional, dev, budget);
      if outcome.At? {
        RegistryAnswers(env, before, S(), parent, name, requested, optional, dev, budget, outcome.path);
      }
    }

    /** A registry request: share the nearest match, refuse an occupied slot, or place a copy. */
    method ResolveRegistryDependency(
      parent: Path, name: string, ghost requested: string, spec: string, optional: bool, dev: bool, budget: nat)
      returns (outcome: Outcome)
      requires Valid() && IsPlaced(nodes, parent) && name in bounds.names
      requires spec == SpecAt(env, nodes, parent, name, requested) && AsksRegistry(env, name, spec)
      modifies this
      ensures Valid() && Answered(env, old(S()), S(), parent, name, optional, dev, budget, outcome)
      ensures AnswersRegistry(env, old(nodes), nodes, parent, name, spec, optional, outcome)
      ensures outcome == Failed(PlacementConflict) ==> NoneVisible(env, nodes, parent, name, env.registryRequest(name, spec).1)
      ensures outcome.Failed? ==> HasCause(env, nodes, parent, name, requested, optional, outcome.error)
      ensures outcome.Skipped? ==> UnfitFrom(env, old(nodes), parent, name, requested)
      ensures outcome.At? && Compatible(env) ==> Loads(nodes, parent, name, outcome.path)
      decreases budget, |Unplaced(bounds, nodes)|, |PairsLeft(bounds, nodes, parent)|, 0, 2
    {
      hide FiniteRegistry, Consistent, PairsDistinct, Answered, AnswersRegistry, NoneVisible, Unplaced, PairsLeft, PlacesChosen, Loads,
        Promises, Compatible, UnfitFrom, HistoryFits, HasCause, TargetsJustified;
      var (registryName, range) := env.registryRequest(name, spec);
      var visible := FindVisible(parent, name, range);
      if visible.Some? {
        ghost var k :| NearestMatch(env, nodes, parent, name, range, k) && visible.value == parent[..k] + [name];
        ghost var before := S();
        UpgradeReachability(visible.value, optional, dev);
        if Compatible(env) {
          NearestMatchLoads(env, before.nodes, parent, name, spec, k);
          SameLoads(before.nodes, nodes, parent, name, visible.value);
        }
        SharesVisible(env, before.nodes, nodes, parent, name, spec, optional, k);
        LandingAnswers(env, before, S(), parent, name, visible.value, optional, dev, budget);
        return At(visible.value);
      }
      var path := parent + [name];
      if path in nodes {
        // A matching copy here would have been visible, so this one is the wrong version.
        ConflictsUnshared(env, nodes, parent, name, spec, optional);
        NothingDone(env, S(), parent, name, optional, dev, budget, Failed(PlacementConflict));
        OwnCause(env, nodes, parent, name, requested, optional, PlacementConflict);
        return Failed(PlacementConflict);
      }
      ghost var chosen;
      outcome, chosen := PlaceFromRegistry(parent, name, requested, spec, optional, dev, budget);
      PlacesUnshared(env, old(nodes), nodes, parent, name, spec, optional, outcome, chosen);
      if outcome.At? {
        OwnSlotLoads(nodes, parent, name);
      }
    }

    /** Bind to a workspace member: a root link whose own dependencies are hoisted to the root. */
    method LinkWorkspaceMember(
      parent: Path, name: string, ghost requested: string, ghost spec: string, member: Metadata, optional: bool, dev: bool, budget: nat)
      returns (outcome: Outcome)
      requires Valid() && IsPlaced(nodes, parent) && name in bounds.members && Named(bounds, member)
      requires spec == SpecAt(env, nodes, parent, name, requested) && env.workspace(name, spec) == Link(member)
      modifies this
      ensures Valid() && Answered(env, old(S()), S(), parent, name, optional, dev, budget, outcome)
      ensures outcome != Failed(PlacementConflict) && (outcome.At? ==> outcome.path == [name])
      ensures outcome.Failed? ==> HasCause(env, nodes, parent, name, requested, optional, outcome.error)
      ensures outcome.At? && [name] !in old(nodes) ==> [name] in nodes && nodes[[name]].metadata == member && nodes[[name]].link
      ensures outcome.Skipped? ==> UnfitFrom(env, old(nodes), parent, name, requested)
      decreases budget, |Unplaced(bounds, nodes)|, |PairsLeft(bounds, nodes, parent)|, 0, 0
    {
      hide FiniteRegistry, Consistent, PairsDistinct, Answered, ChildrenAnswered, PairsLeft, AllPairs, Grew, Promises, Suits, HistoryFits,
        SkippedBy, TargetsJustified, SomeChildFails, HasCause;
      ghost var before := S();
      var path := [name];
      assert parent[..0] + [name] == path && [] + [name] == path;
      if path in nodes {
        UpgradeReachability(path, optional, dev);
        LandingAnswers(env, before, S(), parent, name, path, optional, dev, budget);
        return At(path);
      }
      var verdict := PlatformAllows(name, member, optional);
      if !verdict.At? {
        assert Unfit(env, nodes, parent, name, requested, member);
        NothingDone(env, before, parent, name, optional, dev, budget, verdict);
        ForeignCause(env, nodes, parent, name, requested, member, optional);
        return verdict;
      }
      LocalSuits(env, nodes, [], name, spec, member);
      Place([], name, member, optional, dev, true, None);
      MemberPlaced(bounds, before.nodes, nodes, name);
      ghost var placed := S();
      var failure := ResolveChildrenHoisted(path, MergedDependencies(member), optional, dev, budget);
      PlacedAndAnswered(env, before, placed, S(), parent, name, Fresh(name, member, optional, dev, true), path, None, optional, dev, budget,
        failure);
      if failure.Some? {
        ChildrenCause(env, nodes, parent, name, requested, optional, failure.value);
      }
      outcome := if failure.Some? then Failed(failure.value) else At(path);
    }

    /** The selected version; when its peers do not fit, the newest version whose peers do. */
    method SelectVersion(parent: Path, registryName: string, range: string) returns (chosen: Option<Metadata>)
      ensures Selects(env, nodes, parent, registryName, range, chosen)
      ensures chosen.None? ==>
                env.select(registryName, range).None? ||
                exists i :: 0 <= i < |env.versionsNewestFirst(registryName, range)| && env.versionsNewestFirst(registryName, range)[i].None?
    {
      hide PeersFit;
      chosen := env.select(registryName, range);
      if chosen.None? {
        return;
      }
      var suits := PeerCandidateMatches(chosen.value, parent);
      if suits {
        return;
      }
      var candidates := env.versionsNewestFirst(registryName, range);
      for i := 0 to |candidates|
        invariant forall j :: 0 <= j < i ==> candidates[j].Some? && !PeersFit(env, nodes, parent, candidates[j].value)
      {
        if candidates[i].None? {
          assert ScanStopsAt(env, nodes, parent, candidates, i);
          return None;
        }
        suits := PeerCandidateMatches(candidates[i].value, parent);
        if suits {
          assert ScanStopsAt(env, nodes, parent, candidates, i);
          return candidates[i];
        }
      }
      assert ScanStopsAt(env, nodes, parent, candidates, |candidates|);
    }

    /** Select a version, fall back for peers, place it below `parent` and resolve its dependencies. */
    method PlaceFromRegistry(parent: Path, name: string, ghost requested: string, spec: string, optional: bool, dev: bool, budget: nat)
      returns (outcome: Outcome, ghost chosen: Option<Metadata>)
      requires Valid() && IsPlaced(nodes, parent) && name in bounds.names && parent + [name] !in nodes
      requires spec == SpecAt(env, nodes, parent, name, requested) && AsksRegistry(env, name, spec)
      requires NoneVisible(env, nodes, parent, name, env.registryRequest(name, spec).1)
      modifies this
      ensures Valid() && Answered(env, old(S()), S(), parent, name, optional, dev, budget, outcome)
      ensures PlacesChosen(env, old(nodes), nodes, parent, name, spec, optional, outcome, chosen)
      ensures outcome != Failed(PlacementConflict)
      ensures outcome.At? ==> outcome.path == parent + [name] && outcome.path in nodes
      ensures outcome.Failed? ==> HasCause(env, nodes, parent, name, requested, optional, outcome.error)
      ensures outcome.Skipped? ==> UnfitFrom(env, old(nodes), parent, name, requested)
      decreases budget, |Unplaced(bounds, nodes)|, |PairsLeft(bounds, nodes, parent)|, 0, 1
    {
      hide FiniteRegistry, Consistent, PairsDistinct, Answered, NoneVisible, Selects, PlacesChosen, PairsLeft, Unplaced, ChainPairs,
        AllPairs, PeersFit, Promises, Suits, HistoryFits, Valid, FailsAtOnce, SomeChildFails;
      ghost var before := S();
      ValidPlaces();
      var (registryName, range) := env.registryRequest(name, spec);
      var selected := SelectVersion(parent, registryName, range);
      chosen := selected;
      if selected.None? {
        NothingDone(env, before, parent, name, optional, dev, budget, Failed(RegistryError));
        OwnCause(env, nodes, parent, name, requested, optional, RegistryError) by {
          assert FailsAtOnce(env, nodes, parent, name, requested, optional, RegistryError) by {
            NoVersionFails(env, nodes, parent, name, requested, optional);
          }
        }
        ChosenPlaced(env, before.nodes, nodes, parent, name, spec, optional, Failed(RegistryError), chosen);
        return Failed(RegistryError), chosen;
      }
      var metadata := selected.value;
      SelectedIsKnown(env, bounds, nodes, parent, registryName, range, selected);
      var verdict := PlatformAllows(name, metadata, optional);
      if !verdict.At? {
        assert Unfit(env, nodes, parent, name, requested, metadata);
        NothingDone(env, before, parent, name, optional, dev, budget, verdict);
        ForeignCause(env, nodes, parent, name, requested, metadata, optional);
        ChosenPlaced(env, before.nodes, nodes, parent, name, spec, optional, verdict, chosen);
        return verdict, chosen;
      }
      SelectedSuits(env, bounds, nodes, parent, name, spec, metadata);
      if env.matches(range, metadata.version) {
        ChosenPairIsNew(env, bounds, nodes, parent, name, range, Fresh(name, metadata, optional, dev, false));
        outcome := PlaceAndResolve(parent, name, metadata, optional, dev, None, budget);
      } else {
        // Only peer backtracking gets here; the budget stands in for its missing range check.
        outcome := PlaceDetour(parent, name, metadata, optional, dev, Detour(nodes, parent, name, requested, metadata), budget);
      }
      ChosenPlaced(env, before.nodes, nodes, parent, name, spec, optional, outcome, chosen);
    }

    /** Place a copy the measure does not cover. */
    method PlaceDetour(parent: Path, name: string, metadata: Metadata, optional: bool, dev: bool, ghost detour: Detour, budget: nat)
      returns (outcome: Outcome)
      requires Valid() && Named(bounds, metadata) && MayDetour(env, detour) && Suits(env, nodes, parent, name, metadata)
      requires IsPlaced(nodes, parent) && parent + [name] !in nodes && env.platformFits(name, metadata)
      requires DetourIs(detour, nodes, parent + [name], metadata) && detour.name == name && detour.parent == parent
      modifies this
      ensures Valid() && Answered(env, old(S()), S(), parent, name, optional, dev, budget, outcome)
      ensures outcome.At? || (outcome.Failed? && outcome.error != PlacementConflict)
      ensures outcome.At? ==> outcome.path == parent + [name] && outcome.path in nodes && nodes[outcome.path].metadata == metadata
      ensures outcome.Failed? ==> HasCause(env, nodes, parent, name, detour.requested, optional, outcome.error)
      decreases budget, |Unplaced(bounds, nodes)|, |PairsLeft(bounds, nodes, parent)|, 0, 0
    {
      hide FiniteRegistry, Consistent, PairsDistinct, Answered, PairsLeft, Unplaced, ChainPairs, AllPairs, Promises, Suits, HistoryFits, Offers, MayDetour,
        SomeChildFails, FailsAtOnce;
      if budget == 0 {
        NothingDone(env, S(), parent, name, optional, dev, budget, Failed(OutOfBudget));
        DetourCause(env, nodes, detour, optional);
        return Failed(OutOfBudget);
      }
      outcome := PlaceAndResolve(parent, name, metadata, optional, dev, Some(detour), budget - 1);
    }

    /** Place a copy below `parent` and resolve its dependencies from there. */
    method PlaceAndResolve(
      parent: Path, name: string, metadata: Metadata, optional: bool, dev: bool, ghost detour: Option<Detour>, budget: nat)
      returns (outcome: Outcome)
      requires Valid() && IsPlaced(nodes, parent) && parent + [name] !in nodes && Named(bounds, metadata)
      requires env.platformFits(name, metadata) && Suits(env, nodes, parent, name, metadata)
      requires detour.Some? ==>
                 MayDetour(env, detour.value) && DetourIs(detour.value, nodes, parent + [name], metadata)
      requires detours != [] || detour.Some? || (name, metadata.version) !in ChainPairs(nodes, parent)
      modifies this
      ensures Valid()
      ensures Answered(env, old(S()), S(), parent, name, optional, dev, if detour.Some? then budget + 1 else budget, outcome)
      ensures outcome.At? || (outcome.Failed? && outcome.error != PlacementConflict && SomeChildFails(env, nodes, optional, outcome.error))
      ensures outcome.At? ==> outcome.path == parent + [name] && outcome.path in nodes && nodes[outcome.path].metadata == metadata
      decreases budget, |Unplaced(bounds, nodes)|,
                |PairsLeft(bounds, nodes[parent + [name] := Fresh(name, metadata, optional, dev, false)], parent + [name])|, 3, 0
    {
      hide FiniteRegistry, Consistent, PairsDistinct, Answered, ChildrenAnswered, PairsLeft, AllPairs, ChainPairs, Grew, Promises, Suits,
        HistoryFits, MayDetour, SkippedBy, SomeChildFails;
      ghost var before := S();
      var path := parent + [name];
      assert parent[..|parent|] == parent;
      Place(parent, name, metadata, optional, dev, false, detour);
      SubsetCardinality(Unplaced(bounds, nodes), Unplaced(bounds, before.nodes));
      ghost var placed := S();
      var failure := ResolveChildren(path, MergedDependencies(metadata), optional, dev, budget);
      PlacedAndAnswered(env, before, placed, S(), parent, name, Fresh(name, metadata, optional, dev, false), path, detour, optional, dev,
        budget, failure);
      outcome := if failure.Some? then Failed(failure.value) else At(path);
    }

    /** A file, git or tarball dependency: always its own copy below `parent`. */
    method ResolveSourceDependency(
      parent: Path, name: string, ghost requested: string, spec: string, optional: bool, dev: bool, budget: nat)
      returns (outcome: Outcome)
      requires Valid() && IsPlaced(nodes, parent)
      requires spec == SpecAt(env, nodes, parent, name, requested) && env.workspace(name, spec).NotLocal? && env.isSource(spec)
      modifies this
      ensures Valid() && Answered(env, old(S()), S(), parent, name, optional, dev, budget, outcome)
      ensures outcome != Failed(PlacementConflict) && (outcome.At? ==> outcome.path == parent + [name])
      ensures outcome.Failed? ==> HasCause(env, nodes, parent, name, requested, optional, outcome.error)
      ensures outcome.At? && outcome.path !in old(nodes) ==>
                outcome.path in nodes && env.loadSource(parent, spec) == Some(nodes[outcome.path].metadata)
      ensures outcome.Skipped? ==> UnfitFrom(env, old(nodes), parent, name, requested)
      decreases budget, |Unplaced(bounds, nodes)|, |PairsLeft(bounds, nodes, parent)|, 0, 1
    {
      hide FiniteRegistry, Consistent, PairsDistinct, Answered, PairsLeft, AllPairs, ChainPairs, Promises, Suits, HistoryFits,
        HasCause;
      ghost var before := S();
      var path := parent + [name];
      assert parent[..|parent|] == parent;
      if path in nodes {
        UpgradeReachability(path, optional, dev);
        LandingAnswers(env, before, S(), parent, name, path, optional, dev, budget);
        return At(path);
      }
      var loaded := env.loadSource(parent, spec);
      if loaded.None? {
        NothingDone(env, before, parent, name, optional, dev, budget, Failed(SourceError));
        OwnCause(env, nodes, parent, name, requested, optional, SourceError);
        return Failed(SourceError);
      }
      SourceNamed(env, bounds, parent, spec);
      var verdict := PlatformAllows(name, loaded.value, optional);
      if !verdict.At? {
        assert Unfit(env, nodes, parent, name, requested, loaded.value);
        NothingDone(env, before, parent, name, optional, dev, budget, verdict);
        ForeignCause(env, nodes, parent, name, requested, loaded.value, optional);
        return verdict;
      }
      LocalSuits(env, nodes, parent, name, spec, loaded.value);
      outcome := PlaceDetour(parent, name, loaded.value, optional, dev, Detour(nodes, parent, name, requested, loaded.value), budget);
    }

    method ResolveChildren(path: Path, dependencies: map<string, string>, optional: bool, dev: bool, budget: nat)
      returns (failure: Option<ResolveError>)
      requires Valid() && path in nodes && dependencies.Keys <= bounds.names
      requires nodes[path].dependencies == dependencies && nodes[path].targets == map[] && NothingBelow(nodes, path, {})
      requires forall n :: !SkippedBy(skips, path, n)
      modifies this
      ensures Valid() && ChildrenAnswered(env, old(S()), S(), path, dependencies.Keys, optional, dev, budget, failure)
      ensures failure.Some? ==> SomeChildFails(env, nodes, optional, failure.value)
      decreases budget, |Unplaced(bounds, nodes)|, |PairsLeft(bounds, nodes, path)|, 2, 0
    {
      hide FiniteRegistry, TargetsOnChain, FlagsAreConjunctions, PairsDistinct, Answered, AnswersRegistry, NoneVisible, SpecAt, AsksRegistry,
        ChildrenAnswered, AskedSoFar, PairsLeft, Unplaced, AllPairs, ChainPairs, ChildOptional, NothingBelow, Grew, WellPlaced,
        Consistent, Valid, TargetsRecorded, Advanced, SkippedBy, Loads, Compatible, UnfitFrom, AnswersRequest, Justified,
        HasCause, SomeChildFails;
      ghost var start := S();
      ValidPlaces();
      StartsAsking(start, path, optional, dev);
      var names := IterationOrder(dependencies.Keys);
      ghost var asked: set<string> := {};
      for i := 0 to |names|
        invariant Valid() && AskedSoFar(start, S(), path, asked, optional, dev)
        invariant asked <= dependencies.Keys && forall j :: 0 <= j < |names| ==> (names[j] in asked <==> j < i)
      {
        var child := names[i];
        ValidPlaces();
        SoFarKeeps(start, S(), path, asked, child, optional, dev);
        var childOptional := ChildOptional(nodes[path], child, optional);
        MeasureStable(bounds, start.nodes, nodes, path);
        ghost var mid := S();
        var outcome := ResolveDependency(path, child, dependencies[child], childOptional, dev, budget);
        ghost var answered := S();
        if outcome.At? {
          AnswerJustifies(env, mid.nodes, nodes, path, child, dependencies[child], childOptional, outcome.path);
        }
        if outcome.Failed? {
          ChildFailsSoFar(env, start, mid, answered, path, asked, dependencies.Keys, child, optional, dev, budget, outcome.error);
          AnsweredKeepsNode(env, mid, answered, path, child, childOptional, dev, budget, outcome, path);
          ChildCause(env, nodes, path, child, optional, outcome.error);
          return Some(outcome.error);
        }
        AnsweredCanRecord(env, mid, answered, path, child, childOptional, dev, budget, outcome);
        Record(path, child, dependencies[child], outcome);
        ChildDone(env, start, mid, answered, S(), path, asked, child, outcome, optional, dev, budget);
        asked := asked + {child};
      }
      assert asked == dependencies.Keys;
      AllAsked(env, start, S(), path, asked, optional, dev, budget);
      failure := None;
    }

    /** Record where the request for `name` landed; only the history knows that it was skipped. */
    method Record(path: Path, name: string, ghost requested: string, outcome: Outcome)
      requires Valid() && path in nodes && !outcome.Failed?
      requires name in nodes[path].dependencies && nodes[path].dependencies[name] == requested
      requires outcome.At? ==> outcome.path in nodes && OnAncestorChain(outcome.path, path, name)
      requires outcome.At? && Compatible(env) ==> Loads(nodes, path, name, outcome.path)
      requires outcome.At? ==> Justified(env, nodes, path, name, requested, outcome.path)
      requires outcome.Skipped? ==> UnfitFrom(env, nodes, path, name, requested) || UnfitFrom(env, nodes, [], name, requested)
      modifies this
      ensures Valid() && RecordsOutcome(old(S()), S(), path, name, outcome)
    {
      hide FiniteRegistry, Consistent, PairsDistinct, OnAncestorChain, Loads, Compatible, UnfitFrom, Valid, Justified;
      if outcome.At? {
        RecordTarget(path, name, requested, outcome.path);
      } else {
        RecordSkip(path, name, requested);
      }
    }

    method RecordTarget(path: Path, name: string, ghost requested: string, target: Path)
      requires Valid() && path in nodes && target in nodes && OnAncestorChain(target, path, name)
      requires name in nodes[path].dependencies && nodes[path].dependencies[name] == requested
      requires Justified(env, nodes, path, name, requested, target)
      requires Compatible(env) ==> Loads(nodes, path, name, target)
      modifies this
      ensures Valid() && RecordsOutcome(old(S()), S(), path, name, At(target))
    {
      hide WellPlaced, TargetsOnChain, FlagsAreConjunctions, FiniteRegistry, Grew, PairsDistinct, OnAncestorChain, Loads, Compatible, Promises,
        HistoryFits, Justified;
      var nodes' := nodes[path := nodes[path].(targets := nodes[path].targets[name := target])];
      RecordKeeps(nodes, landings, path, name, target);
      RecordKeepsPromises(env, nodes, path, name, target);
      JustifiedLater(env, nodes, nodes', path, name, requested, target);
      TargetsJustifiedLater(env, nodes, nodes', path, name);
      HistoryLater(env, S(), S().(nodes := nodes'));
      if detours == [] {
        PairsStayDistinct(nodes, nodes');
      }
      nodes := nodes';
    }

    ghost method RecordSkip(path: Path, name: string, requested: string)
      requires Valid() && path in nodes && name in nodes[path].dependencies && nodes[path].dependencies[name] == requested
      requires UnfitFrom(env, nodes, path, name, requested) || UnfitFrom(env, nodes, [], name, requested)
      modifies this`skips
      ensures Valid() && RecordsOutcome(old(S()), S(), path, name, Skipped)
    {
      hide FiniteRegistry, Consistent, PairsDistinct, HistoryFits, Promises, Unfit, TargetsJustified;
      var parent := if UnfitFrom(env, nodes, path, name, requested) then path else [];
      var metadata :| Unfit(env, nodes, parent, name, requested, metadata);
      var skip := Skip(path, nodes, parent, name, requested, metadata);
      HistoryOneSkip(env, S(), S().(skips := skips + [skip]), skip);
      skips := skips + [skip];
    }

    /** One dependency of a linked member: at the root, or below the link when the root slot is taken. */
    method ResolveHoistedChild(member: Path, child: string, requested: string, optional: bool, dev: bool, budget: nat)
      returns (outcome: Outcome)
      requires Valid() && member in nodes && |member| == 1 && nodes[member].link
      requires child in bounds.names && member + [child] !in nodes
      modifies this
      ensures Valid() && Answered(env, old(S()), S(), member, child, optional, dev, budget, outcome)
      ensures outcome != Failed(PlacementConflict)
      ensures outcome.At? ==> outcome.path == [child] || RootTaken(env, nodes, child, requested)
      ensures outcome.At? && Compatible(env) ==> Loads(nodes, member, child, outcome.path)
      ensures outcome.At? ==> Justified(env, nodes, member, child, requested, outcome.path)
      ensures outcome.Failed? ==> HasCause(env, nodes, member, child, requested, optional, outcome.error)
      ensures outcome.Skipped? ==>
                UnfitFrom(env, old(nodes), member, child, requested) || UnfitFrom(env, old(nodes), [], child, requested)
      decreases budget, |Unplaced(bounds, nodes)|, |AllPairs(bounds)| + 1, 0, 0
    {
      hide FiniteRegistry, Consistent, PairsDistinct, AnswersRegistry, PairsLeft, AllPairs, Unplaced, Extends, NewComplete,
        OnAncestorChain, Logged, HistoryFits, Loads, Compatible, UnfitFrom, Promises, AnswersRequest, TargetsJustified,
        SomeChildFails, FailsAtOnce;
      ghost var before := S();
      PairsLeftBounded(bounds, nodes, []);
      outcome := ResolveDependency([], child, requested, optional, dev, budget);
      if outcome == Failed(PlacementConflict) {
        assert [] + [child] == [child] && [][..0] + [child] == [child];
        assert RootTaken(env, nodes, child, requested) by {
          assert !VisibleAt(env, nodes, [], child, env.registryRequest(child, SpecAt(env, nodes, [], child, requested)).1, 0);
        }
        PairsLeftBounded(bounds, nodes, member);
        outcome := ResolveDependency(member, child, requested, optional, dev, budget);
        if outcome.At? {
          AnswerJustifies(env, before.nodes, nodes, member, child, requested, optional, outcome.path);
        }
        RequestGrows(before, S(), member + [child]);
        RootTakenLater(env, before.nodes, nodes, child, requested);
      } else {
        RootAnswersMember(env, before, S(), member, child, optional, dev, budget, outcome);
        AnsweredKeepsNode(env, before, S(), [], child, optional, dev, budget, outcome, member);
        RootAnswerBelowMember(env, before, S(), member, child, optional, dev, budget, outcome);
        if outcome.At? {
          MemberAnswerJustifies(env, before.nodes, nodes, member, child, requested, optional, outcome.path);
          assert member == [member[0]] && [member[0]] + [child] == [member[0], child];
          RootLoadsFromMember(nodes, member[0], child);
        }
      }
    }

    /** A linked member's dependencies go to the root; a taken root slot nests below the link. */
    method ResolveChildrenHoisted(member: Path, dependencies: map<string, string>, optional: bool, dev: bool, budget: nat)
      returns (failure: Option<ResolveError>)
      requires Valid() && member in nodes && |member| == 1 && nodes[member].link && dependencies.Keys <= bounds.names
      requires nodes[member].dependencies == dependencies && nodes[member].targets == map[] && NothingBelow(nodes, member, {})
      requires forall n :: !SkippedBy(skips, member, n)
      modifies this
      ensures Valid() && ChildrenAnswered(env, old(S()), S(), member, dependencies.Keys, optional, dev, budget, failure)
      ensures failure.Some? ==> SomeChildFails(env, nodes, optional, failure.value)
      ensures failure.None? ==> AtRootUnlessTaken(env, nodes, member, dependencies)
      decreases budget, |Unplaced(bounds, nodes)|, |AllPairs(bounds)| + 1, 1, 0
    {
      hide FiniteRegistry, TargetsOnChain, FlagsAreConjunctions, PairsDistinct, Answered, ChildrenAnswered, AskedSoFar, RootTaken,
        PairsLeft, Unplaced, AllPairs, ChainPairs, ChildOptional, NothingBelow, Grew, WellPlaced,
        Consistent, Valid, TargetsRecorded, Advanced, SkippedBy, Loads, Compatible, UnfitFrom, AtRootUnlessTaken, Justified,
        HasCause, SomeChildFails;
      ghost var start := S();
      ValidPlaces();
      StartsAsking(start, member, optional, dev);
      NothingHoisted(env, nodes, member, dependencies);
      var names := IterationOrder(dependencies.Keys);
      ghost var asked: set<string> := {};
      for i := 0 to |names|
        invariant Valid() && AskedSoFar(start, S(), member, asked, optional, dev)
        invariant asked <= dependencies.Keys && forall j :: 0 <= j < |names| ==> (names[j] in asked <==> j < i)
        invariant AtRootUnlessTaken(env, nodes, member, dependencies)
      {
        var child := names[i];
        ValidPlaces();
        SoFarKeeps(start, S(), member, asked, child, optional, dev);
        var childOptional := ChildOptional(nodes[member], child, optional);
        MeasureStable(bounds, start.nodes, nodes, member);
        ghost var mid := S();
        var outcome := ResolveHoistedChild(member, child, dependencies[child], childOptional, dev, budget);
        ghost var answered := S();
        if outcome.Failed? {
          ChildFailsSoFar(env, start, mid, answered, member, asked, dependencies.Keys, child, optional, dev, budget, outcome.error);
          AnsweredKeepsNode(env, mid, answered, member, child, childOptional, dev, budget, outcome, member);
          ChildCause(env, nodes, member, child, optional, outcome.error);
          return Some(outcome.error);
        }
        AnsweredCanRecord(env, mid, answered, member, child, childOptional, dev, budget, outcome);
        Record(member, child, dependencies[child], outcome);
        ChildDone(env, start, mid, answered, S(), member, asked, child, outcome, optional, dev, budget);
        StillAtRoot(env, mid, answered, S(), member, child, outcome, dependencies);
        asked := asked + {child};
      }
      assert asked == dependencies.Keys;
      AllAsked(env, start, S(), member, asked, optional, dev, budget);
      failure := None;
    }

    /** The root copy a successful root request ended on. */
    ghost predicate RootTargetsPlaced(rootTargets: map<string, Path>)
      reads this
    {
      forall n :: n in rootTargets ==> rootTargets[n] == [n] && [n] in nodes
    }

    method ResolveRoot(name: string, spec: string, optional: bool, dev: bool, rootTargets: map<string, Path>, budget: nat)
      returns (failure: Option<ResolveError>, targets: map<string, Path>)
      requires Valid() && name in bounds.names && RootTargetsPlaced(rootTargets) && name !in rootTargets
      modifies this
      ensures Valid() && RunAnswered(env, old(S()), S(), budget, failure)
      ensures RootTargetsPlaced(targets) && targets == if name in targets then rootTargets[name := [name]] else rootTargets
      ensures failure.None? ==> RootAsked(env, old(S()), S(), name, spec, optional, dev, name in targets)
      ensures failure.Some? ==> failure.value != PeerError && HasCause(env, nodes, [], name, spec, optional, failure.value)
    {
      hide FiniteRegistry, Consistent, PairsDistinct, AnswersRegistry, SpecAt, AsksRegistry, NoneVisible, HistoryFits, HasCause,
        Promises, Loads, Compatible, UnfitFrom, NewComplete, Logged, AnswersRequest, TargetsJustified, RunAnswered, Valid;
      ghost var before := S();
      var outcome := ResolveDependency([], name, spec, optional, dev, budget);
      RequestIsRun(env, before, S(), [], name, spec, optional, dev, budget, outcome);
      failure := if outcome.Failed? then Some(outcome.error) else None;
      targets := rootTargets;
      RunGrows(env, before, S(), budget, failure);
      if outcome.At? {
        RootChain(outcome.path, name);
        targets := targets[name := outcome.path];
        AnsweredNow(env, before, S(), [], name, spec, optional, dev, budget, outcome.path);
      } else if outcome.Skipped? {
        SkippedNow(env, before, name, spec);
      }
    }

    /** The manifest's dependencies in name order. */
    method ResolveRoots(
      rootDeps: map<string, string>, optionalDeps: set<string>, devDeps: set<string>, plainDeps: set<string>,
      ghost links: seq<(string, string)>, budget: nat)
      returns (failure: Option<ResolveError>, rootTargets: map<string, Path>)
      requires Valid() && rootDeps.Keys <= bounds.names
      modifies this
      ensures Valid() && RunAnswered(env, old(S()), S(), budget, failure) && RootTargetsPlaced(rootTargets)
      ensures failure.None? ==> RootsAnswered(env, old(S()), S(), rootDeps, optionalDeps, devDeps, plainDeps, rootDeps.Keys, rootTargets)
      ensures failure.None? ==>
                TargetsAnswered(env, old(S()), S(), rootDeps, optionalDeps, devDeps, plainDeps, links, 0, rootTargets)
      ensures rootTargets.Keys <= rootDeps.Keys
      ensures failure.Some? ==>
                && failure.value != PeerError
                && exists n :: n in rootDeps && HasCause(env, nodes, [], n, rootDeps[n], n in optionalDeps, failure.value)
    {
      hide FiniteRegistry, Consistent, PairsDistinct, RunAnswered, Valid, HasCause, RootsAnswered, TargetsAnswered, RootAsked, Advanced;
      ghost var start := S();
      RunSelf(env, start, budget);
      rootTargets := map[];
      var names := IterationOrder(rootDeps.Keys);
      ghost var asked: set<string> := {};
      NothingAsked(env, start, rootDeps, optionalDeps, devDeps, plainDeps, links);
      for i := 0 to |names|
        invariant Valid() && RunAnswered(env, start, S(), budget, None) && RootTargetsPlaced(rootTargets)
        invariant RootsAnswered(env, start, S(), rootDeps, optionalDeps, devDeps, plainDeps, asked, rootTargets)
        invariant TargetsAnswered(env, start, S(), rootDeps, optionalDeps, devDeps, plainDeps, links, 0, rootTargets)
        invariant asked <= rootDeps.Keys && forall j :: 0 <= j < |names| ==> (names[j] in asked <==> j < i)
        invariant rootTargets.Keys <= asked
      {
        var name := names[i];
        var optional := name in optionalDeps;
        var dev := name in devDeps && name !in plainDeps && name !in optionalDeps;
        ghost var (mid, before) := (S(), rootTargets);
        failure, rootTargets := ResolveRoot(name, rootDeps[name], optional, dev, rootTargets, budget);
        RunThen(env, start, mid, S(), budget, failure);
        if failure.Some? {
          return;
        }
        RunGrows(env, start, mid, budget, None);
        RunGrows(env, mid, S(), budget, None);
        OneMoreRoot(env, start, mid, S(), rootDeps, optionalDeps, devDeps, plainDeps, asked, name, before, rootTargets);
        TargetsWithRoot(env, start, mid, S(), rootDeps, optionalDeps, devDeps, plainDeps, links, name, before, rootTargets);
        asked := asked + {name};
      }
      assert asked == rootDeps.Keys;
      failure := None;
    }

    /** The workspace's own links that are no root targets yet. */
    method ResolveLinks(
      ghost start: Snap, ghost rootDeps: map<string, string>, ghost optionalDeps: set<string>, ghost devDeps: set<string>,
      ghost plainDeps: set<string>, links: seq<(string, string)>, targets: map<string, Path>, budget: nat)
      returns (failure: Option<ResolveError>, rootTargets: map<string, Path>)
      requires Valid() && RunAnswered(env, start, S(), budget, None) && RootTargetsPlaced(targets)
      requires forall i :: 0 <= i < |links| ==> links[i].0 in bounds.names
      requires RootsAnswered(env, start, S(), rootDeps, optionalDeps, devDeps, plainDeps, rootDeps.Keys, targets)
      requires TargetsAnswered(env, start, S(), rootDeps, optionalDeps, devDeps, plainDeps, links, 0, targets)
      modifies this
      ensures Valid() && RunAnswered(env, start, S(), budget, failure) && RootTargetsPlaced(rootTargets)
      ensures failure.None? ==> RootsAnswered(env, start, S(), rootDeps, optionalDeps, devDeps, plainDeps, rootDeps.Keys, rootTargets)
      ensures failure.None? ==>
                TargetsAnswered(env, start, S(), rootDeps, optionalDeps, devDeps, plainDeps, links, |links|, rootTargets)
      ensures failure.None? ==> forall i :: 0 <= i < |links| ==> links[i].0 in rootTargets
      ensures rootTargets.Keys <= targets.Keys + LinkNames(links)
      ensures failure.Some? ==>
                && failure.value != PeerError
                && exists i :: 0 <= i < |links| && HasCause(env, nodes, [], links[i].0, links[i].1, false, failure.value)
    {
      hide FiniteRegistry, Consistent, PairsDistinct, RunAnswered, Valid, HasCause, RootsAnswered, TargetsAnswered, RootAsked, Advanced;
      rootTargets := targets;
      for i := 0 to |links|
        invariant Valid() && RunAnswered(env, start, S(), budget, None) && RootTargetsPlaced(rootTargets)
        invariant RootsAnswered(env, start, S(), rootDeps, optionalDeps, devDeps, plainDeps, rootDeps.Keys, rootTargets)
        invariant TargetsAnswered(env, start, S(), rootDeps, optionalDeps, devDeps, plainDeps, links, i, rootTargets)
        invariant forall j :: 0 <= j < i ==> links[j].0 in rootTargets
        invariant rootTargets.Keys <= targets.Keys + LinkNames(links)
      {
        ghost var (mid, before) := (S(), rootTargets);
        assert links[i].0 in LinkNames(links);
        if links[i].0 !in rootTargets {
          failure, rootTargets := ResolveRoot(links[i].0, links[i].1, false, false, rootTargets, budget);
          RunThen(env, start, mid, S(), budget, failure);
          if failure.Some? {
            return;
          }
          RequiredRootLands(env, mid, S(), links[i].0, links[i].1, links[i].0 in rootTargets);
          RunGrows(env, mid, S(), budget, None);
        } else {
          AdvancedSelf(mid);
        }
        RunGrows(env, start, mid, budget, None);
        RootsAnsweredLater(env, start, mid, S(), rootDeps, optionalDeps, devDeps, plainDeps, rootDeps.Keys, before, rootTargets);
        TargetsWithLink(env, start, mid, S(), rootDeps, optionalDeps, devDeps, plainDeps, links, i, before, rootTargets);
      }
      failure := None;
    }

    /** Root dependencies, then the workspace's own root links, then the peers. */
    method ResolveManifest(
      rootDeps: map<string, string>, optionalDeps: set<string>, devDeps: set<string>, plainDeps: set<string>,
      links: seq<(string, string)>, budget: nat)
      returns (failure: Option<ResolveError>, rootTargets: map<string, Path>, ghost rounds: seq<Snap>)
      requires Valid() && rootDeps.Keys <= bounds.names && forall i :: 0 <= i < |links| ==> links[i].0 in bounds.names
      modifies this
      ensures Valid() && RunAnswered(env, old(S()), S(), budget, failure) && RootTargetsPlaced(rootTargets)
      ensures failure.None? ==> RootsAnswered(env, old(S()), S(), rootDeps, optionalDeps, devDeps, plainDeps, rootDeps.Keys, rootTargets)
      ensures failure.None? ==>
                TargetsAnswered(env, old(S()), S(), rootDeps, optionalDeps, devDeps, plainDeps, links, |links|, rootTargets)
      ensures failure.None? ==> forall i :: 0 <= i < |links| ==> links[i].0 in rootTargets
      ensures rootTargets.Keys <= rootDeps.Keys + LinkNames(links)
      ensures failure in {None, Some(PeerError)} ==>
                PeerRounds(env, rounds) && Advanced(old(S()), rounds[0]) && PeersEnd(env, rounds, S(), failure)
      ensures failure.Some? && failure.value != PeerError ==>
                ManifestCause(env, S(), rootDeps, optionalDeps, links, rounds, failure.value)
      ensures NoDetours(env) ==> failure != Some(OutOfBudget) && detours == [] && PairsDistinct(nodes)
    {
      hide FiniteRegistry, Consistent, PairsDistinct, RunAnswered, NoDetours, Valid, HasCause, RootsAnswered, TargetsAnswered, PeersEnd,
        PeerRounds, Advanced;
      ghost var start := S();
      rounds := [];
      failure, rootTargets := ResolveRoots(rootDeps, optionalDeps, devDeps, plainDeps, links, budget);
      if failure.Some? {
        EndsInBudget(start, failure, budget);
        return;
      }
      failure, rootTargets := ResolveLinks(start, rootDeps, optionalDeps, devDeps, plainDeps, links, rootTargets, budget);
      if failure.Some? {
        EndsInBudget(start, failure, budget);
        return;
      }
      ghost var bound := S();
      failure, rounds := BindPeers(budget);
      RunThen(env, start, bound, S(), budget, failure);
      RunGrows(env, start, bound, budget, None);
      RunGrows(env, bound, S(), budget, failure);
      RunKeepsRoots(env, bound, S(), rootTargets, budget, failure);
      RootsAnsweredLater(env, start, bound, S(), rootDeps, optionalDeps, devDeps, plainDeps, rootDeps.Keys, rootTargets, rootTargets);
      TargetsAnsweredLater(env, start, bound, S(), rootDeps, optionalDeps, devDeps, plainDeps, links, |links|, rootTargets);
      PeersCause(env, bound, S(), rounds, failure);
      EndsInBudget(start, failure, budget);
    }

    lemma RunKeepsRoots(env: Environment, a: Snap, b: Snap, rootTargets: map<string, Path>, budget: nat, failure: Option<ResolveError>)
      requires RunAnswered(env, a, b, budget, failure) && forall n :: n in rootTargets ==> rootTargets[n] == [n] && [n] in a.nodes
      ensures forall n :: n in rootTargets ==> rootTargets[n] == [n] && [n] in b.nodes
    {
      RunGrows(env, a, b, budget, failure);
    }

    /** Without a possible detour a run never ends for lack of budget. */
    lemma EndsInBudget(start: Snap, failure: Option<ResolveError>, budget: nat)
      requires Valid() && RunAnswered(env, start, S(), budget, failure)
      ensures NoDetours(env) ==> failure != Some(OutOfBudget) && detours == [] && PairsDistinct(nodes)
    {
      hide MayDetour;
      if NoDetours(env) {
        forall d
          ensures !MayDetour(env, d)
        {
          NeverDetours(env, bounds, d);
        }
        assert detours != [] ==> Taken(env, nodes, detours[0]);
        NoDetourCause(env, nodes);
      }
    }

    /** Up to sixteen rounds of installing missing peers; any left over is an error. */
    method BindPeers(budget: nat) returns (failure: Option<ResolveError>, ghost rounds: seq<Snap>)
      requires Valid()
      modifies this
      ensures Valid() && RunAnswered(env, old(S()), S(), budget, failure)
      ensures |rounds| > 0 && PeerRounds(env, rounds) && rounds[0] == old(S()) && PeersEnd(env, rounds, S(), failure)
    {
      hide FiniteRegistry, Consistent, PairsDistinct, RunAnswered, Valid, RepairRound, RepairFails;
      ghost var start := S();
      RunSelf(env, start, budget);
      rounds := [start];
      for round := 0 to 16
        invariant Valid() && RunAnswered(env, start, S(), budget, None)
        invariant PeerRounds(env, rounds) && rounds[0] == start && rounds[|rounds| - 1] == S() && |rounds| == round + 1
      {
        var repairs := env.bindPeers(nodes);
        if repairs.None? {
          RunUnbound(env, start, S(), budget);
          failure := Some(PeerError);
          return;
        }
        if repairs.value == [] {
          failure := None;
          return;
        }
        ghost var mid := S();
        failure := RepairPeers(repairs.value, budget);
        RunThen(env, start, mid, S(), budget, failure);
        if failure.Some? {
          return;
        }
        OneMoreRound(env, rounds, S());
        rounds := rounds + [S()];
      }
      if env.bindPeers(nodes) != Some([]) {
        RunUnbound(env, start, S(), budget);
        failure := Some(PeerError);
        return;
      }
      failure := None;
    }

    /** Ask for each missing peer beside its consumer; what stops one, but a lack of budget, is reported as a peer error. */
    method RepairPeers(repairs: seq<PeerRepair>, budget: nat) returns (failure: Option<ResolveError>)
      requires Valid() && env.bindPeers(nodes) == Some(repairs) && repairs != []
      modifies this
      ensures Valid() && RunAnswered(env, old(S()), S(), budget, failure)
      ensures failure.None? ==> RepairRound(env, old(S()), S())
      ensures failure.Some? ==> failure.value in {PeerError, OutOfBudget}
      ensures failure == Some(OutOfBudget) ==> RepairFails(env, old(S()), S(), OutOfBudget)
      ensures failure == Some(PeerError) ==> exists error :: error != OutOfBudget && RepairFails(env, old(S()), S(), error)
    {
      hide FiniteRegistry, TargetsOnChain, FlagsAreConjunctions, PairsDistinct, RunAnswered, Answered, AnswersRegistry, SpecAt,
        AsksRegistry, NoneVisible, HasCause, AnswersRequest, RepairAsked, UnfitFrom, Loads, Compatible, Consistent, Valid;
      ghost var start := S();
      ValidPlaces();
      RunSelf(env, start, budget);
      for i := 0 to |repairs|
        invariant Valid() && RunAnswered(env, start, S(), budget, None)
        invariant forall j :: 0 <= j < i ==> RepairAsked(env, start, S(), repairs[j])
      {
        var repair := repairs[i];
        ValidPlaces();
        RepairNamed(env, bounds, start.nodes, i);
        RunGrows(env, start, S(), budget, None);
        ConsumerParentPlaced(start.nodes, nodes, repair.consumer);
        ghost var mid := S();
        var outcome := ResolveDependency(Parent(repair.consumer), repair.peer, repair.range, false, false, budget);
        RequestIsRun(env, mid, S(), Parent(repair.consumer), repair.peer, repair.range, false, false, budget, outcome);
        RunThen(env, start, mid, S(), budget, if outcome.Failed? then Some(outcome.error) else None);
        RunGrows(env, start, S(), budget, if outcome.Failed? then Some(outcome.error) else None);
        if outcome.Failed? {
          RepairFailed(env, start, S(), repairs, i, outcome.error);
          if outcome.error == OutOfBudget {
            return Some(OutOfBudget);
          }
          RunUnboundSince(env, start, S(), budget, Some(outcome.error), start.nodes);
          return Some(PeerError);
        }
        RequiredLands(env, mid, S(), Parent(repair.consumer), repair.peer, repair.range, budget, outcome);
        RepairDone(env, start, mid, S(), repairs, i, outcome.path);
      }
      RunGrows(env, start, S(), budget, None);
      failure := None;
    }
  }
}
