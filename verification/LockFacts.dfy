/**
 What a graph id and a closure digest (src/graph.rs) identify, said over the fields of two lockfiles: no field the program
 hashes can be left out, and none it does not hash is asked for.
 */
module LockFacts {
  import opened ClosureDigest
  import opened GraphEncoding
  import opened LockTypes
  import opened Options

  /** An absent text counts as an empty one. */
  predicate SameText(a: Option<string>, b: Option<string>)
  {
    a == b || (a.None? && b == Some("")) || (b.None? && a == Some(""))
  }

  // ---------------------------------------------------------------- the graph id

  /** The libc list recorded for a path; none recorded counts as an empty one. */
  ghost predicate SameLibc(a: Lock, b: Lock, path: string)
  {
    && (path in a.resolution.packages && path in b.resolution.packages ==>
          a.resolution.packages[path].libc == b.resolution.packages[path].libc)
    && (path in a.resolution.packages && path !in b.resolution.packages ==> a.resolution.packages[path].libc == [])
    && (path !in a.resolution.packages && path in b.resolution.packages ==> b.resolution.packages[path].libc == [])
  }

  ghost predicate SamePackage(a: Lock, b: Lock, i: nat)
    requires i < |a.packages| && i < |b.packages|
  {
    var (p, q) := (a.packages[i], b.packages[i]);
    && p.path == q.path && p.name == q.name && p.version == q.version && p.resolved == q.resolved
    && SameText(p.integrity, q.integrity)
    && (p.link <==> q.link) && (p.dev <==> q.dev) && (p.optional <==> q.optional)
    && p.os == q.os && p.cpu == q.cpu && SameLibc(a, b, p.path) && p.bin == q.bin && p.dependencies == q.dependencies
  }

  ghost predicate SameTarget(a: Option<LockTarget>, b: Option<LockTarget>)
  {
    && (a.Some? <==> b.Some?)
    && (a.Some? ==> a.value.os == b.value.os && a.value.cpu == b.value.cpu && SameText(a.value.libc, b.value.libc))
  }

  /** Everything a graph id covers of a lockfile. */
  ghost predicate SameGraph(a: Lock, b: Lock)
  {
    && a.root.dependencies == b.root.dependencies && a.resolution.root.overrides == b.resolution.root.overrides
    && SameTarget(a.resolution.root.target, b.resolution.root.target)
    && |a.packages| == |b.packages| && (forall i: nat :: i < |a.packages| ==> SamePackage(a, b, i))
    && a.resolution.registryNames == b.resolution.registryNames
  }

  lemma {:induction false} ViewsAt(lock: Lock, packages: seq<PackageEntry>, i: nat)
    requires i < |packages|
    ensures ViewPackages(lock, packages)[i] == ViewPackage(lock, packages[i])
    decreases |packages|
  {
    if i > 0 {
      ViewsAt(lock, packages[1..], i - 1);
    }
  }

  lemma SameViewPackage(a: Lock, b: Lock, i: nat)
    requires i < |a.packages| && i < |b.packages|
    ensures ViewPackage(a, a.packages[i]) == ViewPackage(b, b.packages[i]) <==> SamePackage(a, b, i)
  {
  }

  lemma SameViewIff(p1: string, a: Lock, prepared1: PreparedMap, profile1: InstallProfile,
                    p2: string, b: Lock, prepared2: PreparedMap, profile2: InstallProfile)
    ensures View(p1, a, prepared1, profile1) == View(p2, b, prepared2, profile2) <==>
              p1 == p2 && SameGraph(a, b) && prepared1 == prepared2 && profile1 == profile2
  {
    hide ViewPackages, ViewPackage, SamePackage;
    var (xs, ys) := (ViewPackages(a, a.packages), ViewPackages(b, b.packages));
    if |a.packages| == |b.packages| {
      forall i: nat | i < |a.packages|
        ensures xs[i] == ys[i] <==> SamePackage(a, b, i)
      {
        ViewsAt(a, a.packages, i);
        ViewsAt(b, b.packages, i);
        SameViewPackage(a, b, i);
      }
      assert xs == ys <==> forall i: nat :: i < |a.packages| ==> xs[i] == ys[i];
    }
  }

  /**
   Two installs share a graph id if and only if they agree on the platform, on every root dependency and override, on the
   target, package by package on every hashed field, on the registry names, on the prepared images and on the profile.
   */
  lemma SameIdIffSameGraph(
    p1: Text, a: StoredLock, prepared1: StoredImages, profile1: InstallProfile,
    p2: Text, b: StoredLock, prepared2: StoredImages, profile2: InstallProfile)
    ensures GraphIdOf(p1, a, prepared1, profile1) == GraphIdOf(p2, b, prepared2, profile2) <==>
              p1 == p2 && SameGraph(a, b) && prepared1 == prepared2 && profile1 == profile2
  {
    hide GraphIdOf, View, SameGraph;
    SameIdIffSameView(p1, a, prepared1, profile1, p2, b, prepared2, profile2);
    SameViewIff(p1, a, prepared1, profile1, p2, b, prepared2, profile2);
  }

  // ---------------------------------------------------------------- the closure digest

  /** The metadata of `path` records `target`, as a dependency, an optional one or a peer. */
  ghost predicate Records(lock: Lock, path: string, target: string)
  {
    path in lock.resolution.packages &&
    var m := lock.resolution.packages[path];
    || (exists n :: n in m.dependencies && m.dependencies[n].target == target)
    || (exists n :: n in m.optionalDependencies && m.optionalDependencies[n].target == target)
    || (exists n :: n in m.peerDependencies && m.peerDependencies[n].target == target)
  }

  lemma TargetsAre(lock: Lock, path: string, target: string)
    ensures target in Targets(lock, path) <==> Records(lock, path, target)
  {
  }

  /** Package `i` is the one a path stands for: the last with that path. */
  predicate StandsFor(lock: Lock, path: string, i: int)
  {
    0 <= i < |lock.packages| && lock.packages[i].path == path && forall j :: i < j < |lock.packages| ==> lock.packages[j].path != path
  }

  lemma {:induction false} IndexIs(packages: seq<PackageEntry>, path: string)
    ensures path in PackageIndex(packages) <==> exists i :: 0 <= i < |packages| && packages[i].path == path
    ensures path in PackageIndex(packages) ==>
              exists i :: 0 <= i < |packages| && packages[i] == PackageIndex(packages)[path] && packages[i].path == path
                          && forall j :: i < j < |packages| ==> packages[j].path != path
    decreases |packages|
  {
    if packages != [] {
      var n := |packages| - 1;
      var front := packages[..n];
      IndexIs(front, path);
      assert forall i :: 0 <= i < n ==> front[i] == packages[i];
      if packages[n].path == path {
        assert packages[n] == PackageIndex(packages)[path];
      } else if path in PackageIndex(front) {
        var i :| 0 <= i < n && front[i] == PackageIndex(front)[path] && front[i].path == path
                 && forall j :: i < j < n ==> front[j].path != path;
        assert packages[i] == PackageIndex(packages)[path] && forall j :: i < j < |packages| ==> packages[j].path != path;
      }
    }
  }

  /** The package at `path` is absent in both, or has one version, one URL and one integrity. */
  ghost predicate SameIdentity(a: Lock, b: Lock, path: string)
  {
    && ((exists i :: StandsFor(a, path, i)) <==> (exists j :: StandsFor(b, path, j)))
    && forall i, j :: StandsFor(a, path, i) && StandsFor(b, path, j) ==>
         && a.packages[i].version == b.packages[j].version && a.packages[i].resolved == b.packages[j].resolved
         && SameText(a.packages[i].integrity, b.packages[j].integrity)
  }

  lemma IdentityAt(lock: Lock, path: string)
    ensures IdentityIn(lock, path).Unknown? <==> !exists i :: StandsFor(lock, path, i)
    ensures forall i :: StandsFor(lock, path, i) ==>
              IdentityIn(lock, path) == Known(lock.packages[i].version, lock.packages[i].resolved,
                                              if lock.packages[i].integrity.Some? then lock.packages[i].integrity.value else "")
  {
    hide PackageIndex;
    IndexIs(lock.packages, path);
    if path in PackageIndex(lock.packages) {
      var i :| 0 <= i < |lock.packages| && lock.packages[i] == PackageIndex(lock.packages)[path] && lock.packages[i].path == path
               && forall j :: i < j < |lock.packages| ==> lock.packages[j].path != path;
      assert StandsFor(lock, path, i);
      assert forall k :: StandsFor(lock, path, k) ==> k == i;
    }
  }

  lemma SameIdentityIff(a: Lock, b: Lock, path: string)
    ensures IdentityIn(a, path) == IdentityIn(b, path) <==> SameIdentity(a, b, path)
  {
    hide IdentityIn;
    IdentityAt(a, path);
    IdentityAt(b, path);
    if i, j :| StandsFor(a, path, i) && StandsFor(b, path, j) {
      assert IdentityIn(a, path).Known? && IdentityIn(b, path).Known?;
    }
  }

  /** A chain of recorded targets from `path` to `end`. */
  ghost predicate Chain(lock: Lock, chain: seq<string>, path: string, end: string)
  {
    && |chain| > 0 && chain[0] == path && chain[|chain| - 1] == end
    && forall i :: 0 < i < |chain| ==> Records(lock, chain[i - 1], chain[i])
  }

  ghost predicate CanReach(lock: Lock, path: string, end: string)
  {
    exists chain :: Chain(lock, chain, path, end)
  }

  lemma ReachIff(lock: Lock, path: string, end: string)
    ensures Reaches(GraphOf(lock), path, end) <==> CanReach(lock, path, end)
  {
    forall p, t
      ensures t in Children(GraphOf(lock), p) <==> Records(lock, p, t)
    {
      GraphTells(lock, p);
      TargetsAre(lock, p, t);
    }
    hide Records, GraphOf;
    if Reaches(GraphOf(lock), path, end) {
      var trail :| TrailFromTo(GraphOf(lock), trail, path, end);
      assert Chain(lock, trail, path, end);
    }
    if CanReach(lock, path, end) {
      var chain :| Chain(lock, chain, path, end);
      assert TrailFromTo(GraphOf(lock), chain, path, end);
    }
  }

  /**
   Two lockfiles give a package one closure digest if and only if, at every path that a chain of recorded dependencies,
   optional dependencies and peers of the first leads to, they have the same package and record the same targets.
   */
  lemma SameDigestIffSameClosure(a: Lock, b: Lock, path: string)
    ensures PackageClosureDigest(a, path) == PackageClosureDigest(b, path) <==>
              forall q :: CanReach(a, path, q) ==>
                SameIdentity(a, b, q) && forall t :: Records(a, q, t) <==> Records(b, q, t)
  {
    hide Records, IdentityIn, Targets, SameIdentity, PackageClosureDigest, CanReach, Reaches;
    SameDigestIffAgree(a, b, path);
    forall q
      ensures Reaches(GraphOf(a), path, q) <==> CanReach(a, path, q)
      ensures IdentityIn(a, q) == IdentityIn(b, q) <==> SameIdentity(a, b, q)
      ensures Targets(a, q) == Targets(b, q) <==> forall t :: Records(a, q, t) <==> Records(b, q, t)
    {
      ReachIff(a, path, q);
      SameIdentityIff(a, b, q);
      SameTargetsIff(a, b, q);
    }
  }

  lemma SameTargetsIff(a: Lock, b: Lock, path: string)
    ensures Targets(a, path) == Targets(b, path) <==> forall t :: Records(a, path, t) <==> Records(b, path, t)
  {
    hide Targets, Records;
    forall t
      ensures t in Targets(a, path) <==> Records(a, path, t)
      ensures t in Targets(b, path) <==> Records(b, path, t)
    {
      TargetsAre(a, path, t);
      TargetsAre(b, path, t);
    }
  }
}
