/**
 One lock, three readings: locks with the same content have one normal form, one graph id for it,
 and give every package one closure digest (src/graph.rs, src/lockfile.rs).
 */
module LockIdentity {
  import opened ClosureDigest
  import opened GraphEncoding
  import opened LockNormal
  import opened LockTypes

  /** The index keeps the last entry of a path, and sorting keeps each path's entries in order. */
  lemma {:induction false} IndexIsLast(packages: seq<PackageEntry>, path: string)
    ensures var found := WithKey(packages, PathOf, path);
            && (path in PackageIndex(packages) <==> found != [])
            && (found != [] ==> PackageIndex(packages)[path] == found[|found| - 1])
    decreases |packages|
  {
    if packages != [] {
      var last := |packages| - 1;
      IndexIsLast(packages[..last], path);
      LastWithKey(packages, path);
    }
  }

  lemma {:induction false} LastWithKey(packages: seq<PackageEntry>, path: string)
    requires packages != []
    ensures var last := |packages| - 1;
            WithKey(packages, PathOf, path) ==
              WithKey(packages[..last], PathOf, path) + (if packages[last].path == path then [packages[last]] else [])
    decreases |packages|
  {
    if |packages| > 1 {
      var last := |packages| - 1;
      LastWithKey(packages[1..], path);
      assert packages[1..][..last - 1] == packages[..last][1..];
    }
  }

  lemma SameIdentities(a: Lock, b: Lock, path: string)
    requires SameContent(a, b)
    ensures IdentityIn(a, path) == IdentityIn(b, path)
  {
    IndexIsLast(a.packages, path);
    IndexIsLast(b.packages, path);
    assert WithKey(a.packages, PathOf, path) == WithKey(b.packages, PathOf, path);
  }

  lemma SameTargets(a: Lock, b: Lock, path: string)
    requires SameContent(a, b)
    ensures Targets(a, path) == Targets(b, path)
  {
    if path in a.resolution.packages {
      var (p, q) := (a.resolution.packages[path], b.resolution.packages[path]);
      assert p.(libc := []).dependencies == q.(libc := []).dependencies;
    }
  }

  /** The closure digest does not depend on how the lock was put together. */
  lemma SameContentSameDigest(a: Lock, b: Lock, path: string)
    requires SameContent(a, b)
    ensures PackageClosureDigest(a, path) == PackageClosureDigest(b, path)
  {
    hide SameContent, IdentityIn, Targets;
    forall q
      ensures IdentityIn(a, q) == IdentityIn(b, q) && Targets(a, q) == Targets(b, q)
    {
      SameIdentities(a, b, q);
      SameTargets(a, b, q);
    }
    SameDigestIffAgree(a, b, path);
  }

  /** Nor does the graph id of what is written. */
  lemma SameContentSameId(platform: string, a: Lock, b: Lock, prepared: PreparedMap, profile: InstallProfile)
    requires SameContent(a, b)
    ensures GraphIdOf(platform, Normal(a), prepared, profile) == GraphIdOf(platform, Normal(b), prepared, profile)
  {
    SameNormalIff(a, b);
  }
}
