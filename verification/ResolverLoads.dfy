/**
 Whether a recorded target is the copy Node loads, and whether a slot holds the package it names
 (src/async_resolver.rs, `resolve_dependency` and `find_visible`). Node takes the nearest copy whatever its version;
 the resolver walks past nearer mismatches and later claims slots in between, so the two can part.
 */
module ResolverLoads {
  import opened Options
  import opened ResolverState

  /** From the package at `path`, the nearest copy of `name` is the one at `target`. */
  ghost predicate Loads(nodes: Nodes, path: Path, name: string, target: Path)
  {
    exists k :: NearestAt(nodes, path, name, k) && target == path[..k] + [name]
  }

  /** `slot` is on the way from `path` to the copy of `name` below `path[..k]`. */
  ghost predicate InTheWay(slot: Path, path: Path, name: string, k: int)
  {
    exists j :: 0 <= k < j <= |path| && slot == path[..j] + [name]
  }

  /** A nearer copy of `name`, out of the range asked for. */
  ghost predicate WalkedPast(env: Environment, nodes: Nodes, path: Path, name: string, range: string, k: int)
  {
    exists j :: 0 <= k < j <= |path| && path[..j] + [name] in nodes && !env.matches(range, nodes[path[..j] + [name]].metadata.version)
  }

  lemma ChainSlotsDiffer(path: Path, name: string, j: int, k: int)
    requires 0 <= j <= |path| && 0 <= k <= |path| && path[..j] + [name] == path[..k] + [name]
    ensures j == k
  {
    assert |path[..j] + [name]| == j + 1 && |path[..k] + [name]| == k + 1;
  }

  /** Every copy nearer than the one a registry request landed on was out of range. */
  lemma NearerIsMismatch(
    env: Environment, before: Nodes, after: Nodes, path: Path, name: string, spec: string, optional: bool, k: nat, j: nat)
    requires k < j <= |path| && path[..j] + [name] in before
    requires AnswersRegistry(env, before, after, path, name, spec, optional, At(path[..k] + [name]))
    ensures !env.matches(env.registryRequest(name, spec).1, before[path[..j] + [name]].metadata.version)
  {
    hide Selects;
    var range := env.registryRequest(name, spec).1;
    if NoneVisible(env, before, path, name, range) {
      assert !VisibleAt(env, before, path, name, range, j);
    } else {
      var i :| VisibleAt(env, before, path, name, range, i);
      NearestExists(env, before, path, name, range, i);
      var m :| NearestMatch(env, before, path, name, range, m);
      assert At(path[..m] + [name]) == At(path[..k] + [name]);
      ChainSlotsDiffer(path, name, m, k);
      assert !VisibleAt(env, before, path, name, range, j);
    }
  }

  /**
   The target recorded for a registry request is the copy Node loads in any later state if and only if the lookup
   walked past no nearer copy out of range and nothing placed since is in the way.
   */
  lemma LoadsIff(
    env: Environment, before: Nodes, after: Nodes, later: Nodes, path: Path, name: string, spec: string, optional: bool, k: nat)
    requires k <= |path| && Grew(before, after) && Grew(after, later) && path[..k] + [name] in after
    requires AnswersRegistry(env, before, after, path, name, spec, optional, At(path[..k] + [name]))
    ensures Loads(later, path, name, path[..k] + [name]) <==>
              && !WalkedPast(env, before, path, name, env.registryRequest(name, spec).1, k)
              && forall q :: q in later && q !in before ==> !InTheWay(q, path, name, k)
  {
    hide AnswersRegistry;
    var target := path[..k] + [name];
    if Loads(later, path, name, target) {
      var m :| NearestAt(later, path, name, m) && target == path[..m] + [name];
      ChainSlotsDiffer(path, name, m, k);
    } else {
      assert !NearestAt(later, path, name, k);
      var j :| k < j <= |path| && path[..j] + [name] in later;
      if path[..j] + [name] in before {
        NearerIsMismatch(env, before, after, path, name, spec, optional, k, j);
      } else {
        assert InTheWay(path[..j] + [name], path, name, k);
      }
    }
  }

  // ---------------------------------------------------------------- worlds where targets are what Node loads

  ghost predicate Offered(env: Environment, name: string, spec: string, metadata: Metadata)
  {
    var (registryName, range) := env.registryRequest(name, spec);
    || env.select(registryName, range) == Some(metadata)
    || exists i :: 0 <= i < |env.versionsNewestFirst(registryName, range)| && env.versionsNewestFirst(registryName, range)[i] == Some(metadata)
  }

  /** No workspace members and no sources: everything comes from the registry. */
  ghost predicate RegistryOnly(env: Environment)
  {
    (forall s :: !env.isSource(s)) && forall n, s :: env.workspace(n, s).NotLocal?
  }

  /** Whatever is on offer for a name suits every request for that name. */
  ghost predicate Compatible(env: Environment)
  {
    && RegistryOnly(env)
    && forall n, s, t, m :: Offered(env, n, s, m) ==> env.matches(env.registryRequest(n, t).1, m.version)
  }

  /** No aliases either: every request asks the registry for the slot's own name. */
  ghost predicate PlainNames(env: Environment)
  {
    RegistryOnly(env) && forall n, s :: env.registryRequest(n, s).0 == n
  }

  ghost predicate SuitsAll(env: Environment, name: string, version: Version)
  {
    forall t :: env.matches(env.registryRequest(name, t).1, version)
  }

  ghost predicate VersionsSuit(env: Environment, nodes: Nodes)
  {
    forall p :: p in nodes && p != [] ==> SuitsAll(env, p[|p| - 1], nodes[p].metadata.version)
  }

  ghost predicate TargetsLoaded(nodes: Nodes)
  {
    forall p, c :: p in nodes && c in nodes[p].targets ==> Loads(nodes, p, c, nodes[p].targets[c])
  }

  ghost predicate NamesFit(nodes: Nodes)
  {
    forall p :: p in nodes && p != [] ==> nodes[p].metadata.name == p[|p| - 1]
  }

  /** What holds of the nodes in every reachable state, by the kind of world. */
  ghost predicate Promises(env: Environment, nodes: Nodes)
  {
    && (PlainNames(env) ==> NamesFit(nodes))
    && (Compatible(env) ==> VersionsSuit(env, nodes) && TargetsLoaded(nodes))
  }

  lemma NoPromiseYet(env: Environment)
    ensures Promises(env, map[])
  {
  }

  /** No copy of `name` is on the chain of `parent`. */
  ghost predicate NoneOnChain(nodes: Nodes, parent: Path, name: string)
  {
    forall k :: 0 <= k <= |parent| ==> parent[..k] + [name] !in nodes
  }

  /** What a placement must bring along to keep the promises. */
  ghost predicate Suits(env: Environment, nodes: Nodes, parent: Path, name: string, metadata: Metadata)
  {
    && (PlainNames(env) ==> metadata.name == name)
    && (Compatible(env) ==> SuitsAll(env, name, metadata.version) && NoneOnChain(nodes, parent, name))
  }

  /** Outside a registry-only world nothing is promised. */
  lemma LocalSuits(env: Environment, nodes: Nodes, parent: Path, name: string, spec: string, metadata: Metadata)
    requires env.isSource(spec) || !env.workspace(name, spec).NotLocal?
    ensures Suits(env, nodes, parent, name, metadata)
  {
  }

  /** In a compatible world every copy on the chain is visible to every request for its name. */
  lemma CopyIsVisible(env: Environment, nodes: Nodes, parent: Path, name: string, spec: string, k: nat)
    requires VersionsSuit(env, nodes) && k <= |parent| && parent[..k] + [name] in nodes
    ensures VisibleAt(env, nodes, parent, name, env.registryRequest(name, spec).1, k)
  {
    var p := parent[..k] + [name];
    assert p[|p| - 1] == name && SuitsAll(env, name, nodes[p].metadata.version);
  }

  /** A registry copy is only placed when no copy of the name is visible, and in a compatible world any copy would be. */
  lemma SelectedSuits(
    env: Environment, bounds: Bounds, nodes: Nodes, parent: Path, name: string, spec: string, metadata: Metadata)
    requires FiniteRegistry(env, bounds) && NoneVisible(env, nodes, parent, name, env.registryRequest(name, spec).1)
    requires Selects(env, nodes, parent, env.registryRequest(name, spec).0, env.registryRequest(name, spec).1, Some(metadata))
    requires Promises(env, nodes)
    ensures Suits(env, nodes, parent, name, metadata)
    ensures Compatible(env) ==> env.matches(env.registryRequest(name, spec).1, metadata.version)
  {
    hide FiniteRegistry, PeersFit, NamesFit, TargetsLoaded;
    var (registryName, range) := env.registryRequest(name, spec);
    SelectedIsKnown(env, bounds, nodes, parent, registryName, range, Some(metadata));
    assert Offered(env, name, spec, metadata);
    if Compatible(env) {
      forall k | 0 <= k <= |parent|
        ensures parent[..k] + [name] !in nodes
      {
        if parent[..k] + [name] in nodes {
          CopyIsVisible(env, nodes, parent, name, spec, k);
        }
      }
    }
  }

  lemma SlotTells(path: Path, j: nat, child: string, parent: Path, name: string)
    requires j <= |path| && path[..j] + [child] == parent + [name]
    ensures child == name && j == |parent| && forall k :: 0 <= k <= j ==> path[..k] == parent[..k]
  {
    assert |path[..j] + [child]| == j + 1 && |parent + [name]| == |parent| + 1;
    assert path[..j] == (path[..j] + [child])[..j] == (parent + [name])[..j] == parent;
    assert (path[..j] + [child])[j] == (parent + [name])[j];
  }

  lemma PlaceLoads(nodes: Nodes, parent: Path, name: string, node: Node)
    requires TargetsOnChain(nodes) && TargetsLoaded(nodes) && NoneOnChain(nodes, parent, name) && node.targets == map[]
    ensures TargetsLoaded(nodes[parent + [name] := node])
  {
    var slot := parent + [name];
    var nodes' := nodes[slot := node];
    forall p, c | p in nodes' && c in nodes'[p].targets
      ensures Loads(nodes', p, c, nodes'[p].targets[c])
    {
      assert p != slot;
      assert Loads(nodes, p, c, nodes[p].targets[c]);
      var k :| NearestAt(nodes, p, c, k) && nodes[p].targets[c] == p[..k] + [c];
      forall j | k < j <= |p|
        ensures p[..j] + [c] != slot
      {
        if p[..j] + [c] == slot {
          SlotTells(p, j, c, parent, name);
        }
      }
      assert NearestAt(nodes', p, c, k);
    }
  }

  lemma PlaceKeepsPromises(env: Environment, nodes: Nodes, parent: Path, name: string, node: Node)
    requires Promises(env, nodes) && TargetsOnChain(nodes) && Suits(env, nodes, parent, name, node.metadata) && node.targets == map[]
    ensures Promises(env, nodes[parent + [name] := node])
  {
    hide TargetsLoaded, SuitsAll, NoneOnChain, TargetsOnChain, Compatible, PlainNames;
    if Compatible(env) {
      PlaceLoads(nodes, parent, name, node);
    }
    assert (parent + [name])[|parent + [name]| - 1] == name;
  }

  /** Neither slots nor packages nor targets change. */
  ghost predicate SameCopies(before: Nodes, after: Nodes)
  {
    after.Keys == before.Keys && forall p :: p in before ==> after[p].metadata == before[p].metadata && after[p].targets == before[p].targets
  }

  lemma SameLoads(before: Nodes, after: Nodes, path: Path, name: string, target: Path)
    requires after.Keys == before.Keys
    ensures Loads(after, path, name, target) <==> Loads(before, path, name, target)
  {
    forall k
      ensures NearestAt(after, path, name, k) <==> NearestAt(before, path, name, k)
    {
    }
  }

  lemma SameKeepsPromises(env: Environment, before: Nodes, after: Nodes)
    requires Promises(env, before) && SameCopies(before, after)
    ensures Promises(env, after)
  {
    hide Loads, SuitsAll, Compatible, PlainNames;
    forall path, name, target
      ensures Loads(after, path, name, target) <==> Loads(before, path, name, target)
    {
      SameLoads(before, after, path, name, target);
    }
  }

  lemma RecordKeepsPromises(env: Environment, nodes: Nodes, path: Path, name: string, target: Path)
    requires Promises(env, nodes) && path in nodes && (Compatible(env) ==> Loads(nodes, path, name, target))
    ensures Promises(env, nodes[path := nodes[path].(targets := nodes[path].targets[name := target])])
  {
    hide Loads, SuitsAll, Compatible, PlainNames;
    var nodes' := nodes[path := nodes[path].(targets := nodes[path].targets[name := target])];
    forall p, c, t
      ensures Loads(nodes', p, c, t) <==> Loads(nodes, p, c, t)
    {
      SameLoads(nodes, nodes', p, c, t);
    }
  }

  /** A copy in the asker's own slot is what the asker loads. */
  lemma OwnSlotLoads(nodes: Nodes, parent: Path, name: string)
    requires parent + [name] in nodes
    ensures Loads(nodes, parent, name, parent + [name])
  {
    assert parent[..|parent|] == parent;
    assert NearestAt(nodes, parent, name, |parent|);
  }

  /** In a compatible world the nearest match is the nearest copy. */
  lemma NearestMatchLoads(env: Environment, nodes: Nodes, parent: Path, name: string, spec: string, k: nat)
    requires Promises(env, nodes) && Compatible(env) && NearestMatch(env, nodes, parent, name, env.registryRequest(name, spec).1, k)
    ensures Loads(nodes, parent, name, parent[..k] + [name])
  {
    hide TargetsLoaded, Compatible;
    forall j | k < j <= |parent|
      ensures parent[..j] + [name] !in nodes
    {
      if parent[..j] + [name] in nodes {
        CopyIsVisible(env, nodes, parent, name, spec, j);
      }
    }
    assert NearestAt(nodes, parent, name, k);
  }

  /** What the member at the root loads: a copy at the root, while nothing lies below the link. */
  lemma RootLoadsFromMember(nodes: Nodes, member: string, name: string)
    requires [name] in nodes && [member, name] !in nodes
    ensures Loads(nodes, [member], name, [name])
  {
    assert [member][..0] + [name] == [name] && [member][..1] + [name] == [member, name];
    assert NearestAt(nodes, [member], name, 0);
  }
}
