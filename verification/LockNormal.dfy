/**
 `bpm.lock` in its canonical form, and the validator that reads it back (src/lockfile.rs).

 `sort_by` and `sort` are stable sorts, `dedup` drops an element equal to the one before it.
 The JSON text between writing and reading is not modelled: what is read is what was written.
 */
module LockNormal {
  import opened Options
  import opened Ordering
  import opened PathSafety
  import opened LockTypes

  const LEGACY_LOCK_VERSION := 1
  const BPM_LOCK_VERSION := 2

  function PathOf(p: PackageEntry): string
  {
    p.path
  }

  function Itself(s: string): string
  {
    s
  }

  // ---------------------------------------------------------------- stable sorting

  predicate OrderedBy<T(!new)>(xs: seq<T>, key: T -> string)
  {
    forall i, j :: 0 <= i < j < |xs| ==> !Less(key(xs[j]), key(xs[i]))
  }

  /** The elements with one key, in the order they stand. */
  function WithKey<T(!new)>(xs: seq<T>, key: T -> string, k: string): (r: seq<T>)
    ensures forall x :: x in r <==> x in xs && key(x) == k
  {
    if xs == [] then [] else if key(xs[0]) == k then [xs[0]] + WithKey(xs[1..], key, k) else WithKey(xs[1..], key, k)
  }

  /** `ys` is a stable sort of `xs`. */
  ghost predicate StablySorts<T(!new)>(xs: seq<T>, ys: seq<T>, key: T -> string)
  {
    OrderedBy(ys, key) && SameByKey(xs, ys, key)
  }

  ghost predicate SameByKey<T(!new)>(xs: seq<T>, ys: seq<T>, key: T -> string)
  {
    forall k :: WithKey(xs, key, k) == WithKey(ys, key, k)
  }

  function Insert<T(!new)>(x: T, xs: seq<T>, key: T -> string): (r: seq<T>)
  {
    if xs == [] || !Less(key(xs[0]), key(x)) then [x] + xs else [xs[0]] + Insert(x, xs[1..], key)
  }

  function StableSort<T(!new)>(xs: seq<T>, key: T -> string): (r: seq<T>)
  {
    if xs == [] then [] else Insert(xs[0], StableSort(xs[1..], key), key)
  }

  lemma {:induction false} InsertKeeps<T(!new)>(x: T, xs: seq<T>, key: T -> string)
    requires OrderedBy(xs, key)
    ensures OrderedBy(Insert(x, xs, key), key)
    ensures forall y :: y in Insert(x, xs, key) <==> y == x || y in xs
    ensures SameByKey([x] + xs, Insert(x, xs, key), key)
  {
    var r := Insert(x, xs, key);
    assert ([x] + xs)[1..] == xs;
    if xs == [] || !Less(key(xs[0]), key(x)) {
      forall j | 0 < j < |r|
        ensures !Less(key(r[j]), key(x))
      {
        if Less(key(r[j]), key(x)) {
          LessTrichotomy(key(x), key(xs[0]));
          LessTrichotomy(key(xs[0]), key(r[j]));
          if Less(key(x), key(xs[0])) {
            LessTransitive(key(r[j]), key(x), key(xs[0]));
          }
        }
      }
    } else {
      var rest := Insert(x, xs[1..], key);
      InsertKeeps(x, xs[1..], key);
      LessIsOneWay(key(xs[0]), key(x));
      forall j | 0 <= j < |rest|
        ensures !Less(key(rest[j]), key(xs[0]))
      {
        assert rest[j] in rest;
      }
      assert r[1..] == rest && ([x] + xs[1..])[1..] == xs[1..];
      forall k
        ensures WithKey([x] + xs, key, k) == WithKey(r, key, k)
      {
        assert WithKey([x] + xs[1..], key, k) == WithKey(rest, key, k);
        LessIrreflexive(key(x));
      }
    }
  }

  lemma LessIsOneWay(a: string, b: string)
    requires Less(a, b)
    ensures !Less(b, a)
  {
    if Less(b, a) {
      LessTransitive(a, b, a);
      LessIrreflexive(a);
    }
  }

  lemma {:induction false} StableSortSorts<T(!new)>(xs: seq<T>, key: T -> string)
    ensures StablySorts(xs, StableSort(xs, key), key)
  {
    if xs != [] {
      var rest := StableSort(xs[1..], key);
      StableSortSorts(xs[1..], key);
      InsertKeeps(xs[0], rest, key);
      assert ([xs[0]] + rest)[1..] == rest;
      forall k
        ensures WithKey(xs, key, k) == WithKey(StableSort(xs, key), key, k)
      {
        assert WithKey(xs[1..], key, k) == WithKey(rest, key, k);
        assert WithKey([xs[0]] + rest, key, k) == WithKey(StableSort(xs, key), key, k);
      }
    }
  }

  /** Being ordered and keeping each key's elements in order leaves one answer. */
  lemma {:induction false} StableSortUnique<T(!new)>(xs: seq<T>, ys: seq<T>, key: T -> string)
    requires OrderedBy(xs, key) && OrderedBy(ys, key) && SameByKey(xs, ys, key)
    ensures xs == ys
    decreases |xs|
  {
    if ys != [] {
      assert ys[0] in WithKey(ys, key, key(ys[0]));
      assert ys[0] in xs;
    }
    if xs != [] {
      assert xs[0] in WithKey(xs, key, key(xs[0]));
      assert xs[0] in ys;
      LessTrichotomy(key(xs[0]), key(ys[0]));
      var k0 := key(xs[0]);
      assert WithKey(xs, key, k0)[0] == xs[0] && WithKey(ys, key, k0)[0] == ys[0];
      forall k
        ensures WithKey(xs[1..], key, k) == WithKey(ys[1..], key, k)
      {
        var (a, b) := (WithKey(xs, key, k), WithKey(ys, key, k));
        assert a == b;
        if k == k0 {
          assert WithKey(xs[1..], key, k) == a[1..] && WithKey(ys[1..], key, k) == b[1..];
        }
      }
      StableSortUnique(xs[1..], ys[1..], key);
      assert xs == [xs[0]] + xs[1..] && ys == [ys[0]] + ys[1..];
    }
  }

  /** Two lists sort to the same list if and only if they agree key by key. */
  lemma SameSortIff<T(!new)>(xs: seq<T>, ys: seq<T>, key: T -> string)
    ensures StableSort(xs, key) == StableSort(ys, key) <==> SameByKey(xs, ys, key)
  {
    StableSortSorts(xs, key);
    StableSortSorts(ys, key);
    if StableSort(xs, key) == StableSort(ys, key) {
      forall k
        ensures WithKey(xs, key, k) == WithKey(ys, key, k)
      {
        assert WithKey(xs, key, k) == WithKey(StableSort(xs, key), key, k);
        assert WithKey(ys, key, k) == WithKey(StableSort(ys, key), key, k);
      }
    }
    if SameByKey(xs, ys, key) {
      forall k
        ensures WithKey(StableSort(xs, key), key, k) == WithKey(StableSort(ys, key), key, k)
      {
        assert WithKey(xs, key, k) == WithKey(StableSort(xs, key), key, k);
        assert WithKey(ys, key, k) == WithKey(StableSort(ys, key), key, k);
      }
      StableSortUnique(StableSort(xs, key), StableSort(ys, key), key);
    }
  }

  // ---------------------------------------------------------------- string lists

  /** `Vec::dedup` */
  function Dedup(xs: seq<string>): (r: seq<string>)
  {
    if |xs| < 2 then xs
    else if xs[0] == xs[1] then Dedup(xs[1..])
    else [xs[0]] + Dedup(xs[1..])
  }

  lemma {:induction false} DedupOrdered(xs: seq<string>)
    requires OrderedBy(xs, Itself)
    ensures Ascending(Dedup(xs))
    ensures forall x :: x in Dedup(xs) <==> x in xs
  {
    if |xs| >= 2 {
      DedupOrdered(xs[1..]);
      var rest := Dedup(xs[1..]);
      assert xs == [xs[0]] + xs[1..];
      if xs[0] != xs[1] {
        forall j | 0 <= j < |rest|
          ensures Less(xs[0], rest[j])
        {
          assert rest[j] in xs[1..];
          var m :| 1 <= m < |xs| && xs[m] == rest[j];
          AboveHead(xs, m);
        }
      }
    }
  }

  lemma AboveHead(xs: seq<string>, m: nat)
    requires OrderedBy(xs, Itself) && |xs| >= 2 && xs[0] != xs[1] && 1 <= m < |xs|
    ensures Less(xs[0], xs[m])
  {
    assert !Less(Itself(xs[1]), Itself(xs[0]));
    LessTrichotomy(xs[0], xs[1]);
    LessTrichotomy(xs[1], xs[m]);
    if m > 1 {
      assert !Less(Itself(xs[m]), Itself(xs[1]));
      if xs[1] != xs[m] {
        LessTransitive(xs[0], xs[1], xs[m]);
      }
    }
  }

  function Elements(xs: seq<string>): set<string>
  {
    set x | x in xs
  }

  function NormalList(xs: seq<string>): seq<string>
  {
    Dedup(StableSort(xs, Itself))
  }

  lemma NormalListIs(xs: seq<string>)
    ensures NormalList(xs) == Dedup(StableSort(xs, Itself))
  {
  }

  /** Sorting and deduplicating leaves exactly the set of elements, ascending. */
  lemma NormalListIsSorted(xs: seq<string>)
    ensures NormalList(xs) == Sorted(Elements(xs))
  {
    var sorted := StableSort(xs, Itself);
    StableSortSorts(xs, Itself);
    DedupOrdered(sorted);
    forall x
      ensures x in sorted <==> x in xs
    {
      assert WithKey(xs, Itself, x) == WithKey(sorted, Itself, x);
      assert Itself(x) == x;
    }
    AscendingUnique(Dedup(sorted), Sorted(Elements(xs)));
  }

  lemma NormalListIff(xs: seq<string>, ys: seq<string>)
    ensures NormalList(xs) == NormalList(ys) <==> Elements(xs) == Elements(ys)
    ensures NormalList(NormalList(xs)) == NormalList(xs)
  {
    NormalListIsSorted(xs);
    NormalListIsSorted(ys);
    SortedInjective(Elements(xs), Elements(ys));
    NormalListIsSorted(NormalList(xs));
    assert Elements(NormalList(xs)) == Elements(xs);
  }

  // ---------------------------------------------------------------- the normal form

  function NormalPackage(package: PackageResolution): PackageResolution
  {
    package.(libc := NormalList(package.libc))
  }

  function NormalPackages(packages: map<string, PackageResolution>): map<string, PackageResolution>
  {
    map p | p in packages :: NormalPackage(packages[p])
  }

  /** `root_resolution_lists` */
  function NormalResolution(r: ResolutionMetadata): ResolutionMetadata
  {
    r.(root := r.root.(workspacePatterns := NormalList(r.root.workspacePatterns)), packages := NormalPackages(r.packages))
  }

  /** The lock that `to_json` serialises. */
  function Normal(l: Lock): Lock
  {
    l.(packages := StableSort(l.packages, PathOf), resolution := NormalResolution(l.resolution))
  }

  /** Equal up to what the normal form forgets. */
  ghost predicate SameContent(a: Lock, b: Lock)
  {
    && a.lockfileVersion == b.lockfileVersion && a.generator == b.generator && a.root == b.root
    && SameByKey(a.packages, b.packages, PathOf)
    && Elements(a.resolution.root.workspacePatterns) == Elements(b.resolution.root.workspacePatterns)
    && a.resolution.root.(workspacePatterns := []) == b.resolution.root.(workspacePatterns := [])
    && a.resolution.registryNames == b.resolution.registryNames
    && SameResolutions(a.resolution.packages, b.resolution.packages)
  }

  ghost predicate SameResolutions(a: map<string, PackageResolution>, b: map<string, PackageResolution>)
  {
    && a.Keys == b.Keys
    && forall p :: p in a ==> Elements(a[p].libc) == Elements(b[p].libc) && a[p].(libc := []) == b[p].(libc := [])
  }

  lemma NormalResolutionsIff(a: map<string, PackageResolution>, b: map<string, PackageResolution>)
    ensures NormalPackages(a) == NormalPackages(b) <==> SameResolutions(a, b)
  {
    hide NormalList;
    forall p | p in a && p in b
      ensures (NormalPackages(a)[p] == NormalPackages(b)[p]
               <==> Elements(a[p].libc) == Elements(b[p].libc) && a[p].(libc := []) == b[p].(libc := []))
    {
      NormalListIff(a[p].libc, b[p].libc);
    }
    assert NormalPackages(a).Keys == a.Keys && NormalPackages(b).Keys == b.Keys;
    if NormalPackages(a) == NormalPackages(b) {
      assert a.Keys == b.Keys;
    }
  }

  /** Two locks have the same normal form if and only if they have the same content. */
  lemma SameNormalIff(a: Lock, b: Lock)
    ensures Normal(a) == Normal(b) <==> SameContent(a, b)
  {
    hide NormalList, NormalPackages, StableSort, SameByKey, SameResolutions;
    NormalListIff(a.resolution.root.workspacePatterns, b.resolution.root.workspacePatterns);
    NormalResolutionsIff(a.resolution.packages, b.resolution.packages);
    SameSortIff(a.packages, b.packages, PathOf);
    SameRoots(a.resolution.root, b.resolution.root);
  }

  lemma SameRoots(a: RootResolution, b: RootResolution)
    ensures a.(workspacePatterns := NormalList(a.workspacePatterns)) == b.(workspacePatterns := NormalList(b.workspacePatterns))
            <==> NormalList(a.workspacePatterns) == NormalList(b.workspacePatterns)
                 && a.(workspacePatterns := []) == b.(workspacePatterns := [])
  {
    hide NormalList;
  }

  lemma NormalIsIdempotent(l: Lock)
    ensures Normal(Normal(l)) == Normal(l)
  {
    hide NormalList, StableSort, SameByKey;
    StableSortSorts(l.packages, PathOf);
    NormalKeepsContent(l);
    SameNormalIff(Normal(l), l);
  }

  lemma NormalKeepsContent(l: Lock)
    ensures SameContent(Normal(l), l)
  {
    hide StableSort;
    StableSortSorts(l.packages, PathOf);
    SameByKeySymmetric(l.packages, StableSort(l.packages, PathOf), PathOf);
    KeepsElements(l.resolution.root.workspacePatterns);
    forall p | p in l.resolution.packages
      ensures Elements(NormalList(l.resolution.packages[p].libc)) == Elements(l.resolution.packages[p].libc)
    {
      KeepsElements(l.resolution.packages[p].libc);
    }
  }

  lemma KeepsElements(xs: seq<string>)
    ensures Elements(NormalList(xs)) == Elements(xs)
  {
    NormalListIsSorted(xs);
  }

  lemma SameByKeySymmetric<T(!new)>(xs: seq<T>, ys: seq<T>, key: T -> string)
    requires SameByKey(xs, ys, key)
    ensures SameByKey(ys, xs, key)
  {
    forall k
      ensures WithKey(ys, key, k) == WithKey(xs, key, k)
    {
      assert WithKey(xs, key, k) == WithKey(ys, key, k);
    }
  }

  // ---------------------------------------------------------------- reordering

  predicate DistinctPaths(packages: seq<PackageEntry>)
  {
    forall i, j :: 0 <= i < j < |packages| ==> packages[i].path != packages[j].path
  }

  lemma {:induction false} CountWithKey<T(!new)>(xs: seq<T>, key: T -> string, k: string, x: T)
    ensures multiset(WithKey(xs, key, k))[x] == if key(x) == k then multiset(xs)[x] else 0
  {
    if xs != [] {
      CountWithKey(xs[1..], key, k, x);
      assert xs == [xs[0]] + xs[1..];
    }
  }

  lemma {:induction false} OnePerPath(packages: seq<PackageEntry>, path: string)
    requires DistinctPaths(packages)
    ensures |WithKey(packages, PathOf, path)| <= 1
  {
    if packages != [] {
      OnePerPath(packages[1..], path);
      var rest := WithKey(packages[1..], PathOf, path);
      assert rest != [] ==> rest[0] in rest && rest[0] in packages[1..];
    }
  }

  lemma SmallEqual<T(!new)>(xs: seq<T>, ys: seq<T>)
    requires |xs| <= 1 && multiset(xs) == multiset(ys)
    ensures xs == ys
  {
    assert |multiset(xs)| == |xs| && |multiset(ys)| == |ys|;
    if |xs| == 1 {
      assert ys[0] in multiset(ys) && xs == [xs[0]];
      assert ys[0] in multiset([xs[0]]);
    }
  }

  /** Package lists with distinct paths that differ only in order agree path by path. */
  lemma ReorderedAgree(xs: seq<PackageEntry>, ys: seq<PackageEntry>)
    requires DistinctPaths(xs) && multiset(xs) == multiset(ys)
    ensures SameByKey(xs, ys, PathOf)
  {
    forall k
      ensures WithKey(xs, PathOf, k) == WithKey(ys, PathOf, k)
    {
      var (a, b) := (WithKey(xs, PathOf, k), WithKey(ys, PathOf, k));
      OnePerPath(xs, k);
      forall x
        ensures multiset(a)[x] == multiset(b)[x]
      {
        CountWithKey(xs, PathOf, k, x);
        CountWithKey(ys, PathOf, k, x);
      }
      assert multiset(a) == multiset(b);
      SmallEqual(a, b);
    }
  }

  /** The order of distinct packages, and order and repeats in the lists, leave the normal form alone. */
  lemma ReorderedLocksNormaliseEqually(l: Lock, packages: seq<PackageEntry>, patterns: seq<string>)
    requires DistinctPaths(l.packages) && multiset(packages) == multiset(l.packages)
    requires Elements(patterns) == Elements(l.resolution.root.workspacePatterns)
    ensures Normal(l.(packages := packages, resolution := l.resolution.(root := l.resolution.root.(workspacePatterns := patterns))))
            == Normal(l)
  {
    var l' := l.(packages := packages, resolution := l.resolution.(root := l.resolution.root.(workspacePatterns := patterns)));
    ReorderedAgree(l.packages, packages);
    SameByKeySymmetric(l.packages, packages, PathOf);
    SameNormalIff(l', l);
  }

  /** Without distinct paths the order of two packages at one path survives. */
  lemma SharedPathKeepsOrder(l: Lock, a: PackageEntry, b: PackageEntry)
    requires a != b && a.path == b.path
    ensures Normal(l.(packages := [a, b])) != Normal(l.(packages := [b, a]))
  {
    var xs, ys := [a, b], [b, a];
    assert WithKey(xs, PathOf, a.path)[0] == a;
    assert WithKey(ys, PathOf, a.path)[0] == b;
    assert !SameByKey(xs, ys, PathOf);
    SameSortIff(xs, ys, PathOf);
  }

  // ---------------------------------------------------------------- validation

  predicate FullGitCommit(s: string)
  {
    |s| == 40 && forall i :: 0 <= i < 40 ==> '0' <= s[i] <= '9' || 'a' <= s[i] <= 'f' || 'A' <= s[i] <= 'F'
  }

  /** `iter().find(|entry| entry.path == path)` */
  function FindEntry(packages: seq<PackageEntry>, path: string): (r: Option<PackageEntry>)
    ensures r.Some? <==> exists i :: 0 <= i < |packages| && packages[i].path == path
  {
    if packages == [] then None
    else if packages[0].path == path then Some(packages[0])
    else FindEntry(packages[1..], path)
  }

  predicate Blank(s: Option<string>)
  {
    s.None? || s.value == ""
  }

  predicate SourceFits(package: PackageEntry, metadata: PackageResolution)
  {
    match metadata.source
    case Registry(registry) => registry != "" && package.resolved != "" && !Blank(package.integrity)
    case Workspace(relativePath) =>
      package.link && metadata.workspaceTarget == Some(relativePath) && LegalRelativePath(relativePath)
    case LocalFile(path) => package.link && metadata.workspaceTarget == Some(path)
    case Tarball(url) => url != "" && package.resolved != ""
    case Git(url, _, commit) => url != "" && package.resolved != "" && FullGitCommit(commit)
    case Patch(_, patch) => patch != "" && package.resolved != "" && !Blank(package.integrity)
  }

  function PathsOf(packages: seq<PackageEntry>): (r: set<string>)
    ensures forall p :: p in r <==> exists i :: 0 <= i < |packages| && packages[i].path == p
  {
    set i | 0 <= i < |packages| :: packages[i].path
  }

  predicate TargetsExist(targets: TargetMap, paths: set<string>)
  {
    forall name :: name in targets ==> targets[name].target in paths
  }

  predicate ProvidersExist(context: map<string, PeerProvider>, paths: set<string>)
  {
    forall peer :: peer in context ==> context[peer].path in paths
  }

  type NameRule = string -> bool

  predicate NameFits(packages: seq<PackageEntry>, path: string, canonical: string, readable: NameRule)
  {
    var found := FindEntry(packages, path);
    found.Some? && canonical != "" && canonical != found.value.name && readable(canonical)
  }

  predicate MetadataFits(packages: seq<PackageEntry>, path: string, metadata: PackageResolution)
  {
    var found := FindEntry(packages, path);
    && found.Some? && SourceFits(found.value, metadata)
    && TargetsExist(metadata.dependencies, PathsOf(packages))
    && TargetsExist(metadata.optionalDependencies, PathsOf(packages))
    && TargetsExist(metadata.peerDependencies, PathsOf(packages))
    && ProvidersExist(metadata.peerContext, PathsOf(packages))
  }

  predicate StrictlyAscending(packages: seq<PackageEntry>)
  {
    forall i :: 0 < i < |packages| ==> Less(packages[i - 1].path, packages[i].path)
  }

  predicate AllLegal(packages: seq<PackageEntry>)
  {
    forall i :: 0 <= i < |packages| ==> LegalRelativePath(packages[i].path)
  }

  predicate AllNamesFit(l: Lock, readable: NameRule)
  {
    forall p :: p in l.resolution.registryNames ==> NameFits(l.packages, p, l.resolution.registryNames[p], readable)
  }

  predicate AllMetadataFit(l: Lock)
  {
    forall p :: p in l.resolution.packages ==> MetadataFits(l.packages, p, l.resolution.packages[p])
  }

  /** What `validate_v2` demands, its order demand apart. */
  predicate WellFormedButOrder(l: Lock, readable: NameRule)
  {
    AllLegal(l.packages) && AllNamesFit(l, readable) && AllMetadataFit(l)
  }

  predicate WellFormed(l: Lock, readable: NameRule)
  {
    WellFormedButOrder(l, readable) && StrictlyAscending(l.packages)
  }

  datatype Fault =
    | IllegalPath(path: string)
    | OutOfOrder(path: string)
    | BadRegistryName(path: string)
    | UnknownPackage(path: string)
    | BadSource(path: string)
    | MissingTarget(path: string)
    | MissingProvider(path: string)

  /** The fault a rejection names is there. */
  predicate HasFault(l: Lock, readable: NameRule, fault: Fault)
  {
    match fault
    case IllegalPath(p) => !LegalRelativePath(p) && p in PathsOf(l.packages)
    case OutOfOrder(p) =>
      exists i :: 0 < i < |l.packages| && l.packages[i].path == p && !Less(l.packages[i - 1].path, p)
    case BadRegistryName(p) =>
      p in l.resolution.registryNames && !NameFits(l.packages, p, l.resolution.registryNames[p], readable)
    case UnknownPackage(p) => p in l.resolution.packages && p !in PathsOf(l.packages)
    case BadSource(p) =>
      && p in l.resolution.packages && FindEntry(l.packages, p).Some?
      && !SourceFits(FindEntry(l.packages, p).value, l.resolution.packages[p])
    case MissingTarget(p) =>
      && p in l.resolution.packages
      && var m := l.resolution.packages[p];
      && !(TargetsExist(m.dependencies, PathsOf(l.packages)) && TargetsExist(m.optionalDependencies, PathsOf(l.packages))
           && TargetsExist(m.peerDependencies, PathsOf(l.packages)))
    case MissingProvider(p) =>
      p in l.resolution.packages && !ProvidersExist(l.resolution.packages[p].peerContext, PathsOf(l.packages))
  }

  lemma BadNameIsFault(l: Lock, readable: NameRule, path: string)
    requires path in l.resolution.registryNames && !NameFits(l.packages, path, l.resolution.registryNames[path], readable)
    ensures HasFault(l, readable, BadRegistryName(path))
  {
  }

  method ValidateTargets(targets: TargetMap, paths: set<string>) returns (ok: bool)
    ensures ok <==> TargetsExist(targets, paths)
  {
    var names := IterationOrder(targets.Keys);
    for i := 0 to |names|
      invariant forall j :: 0 <= j < i ==> names[j] in targets && targets[names[j]].target in paths
    {
      assert names[i] in targets.Keys;
      if targets[names[i]].target !in paths {
        return false;
      }
    }
    return true;
  }

  /** The loop over the resolved packages: every `libc` list sorted, then deduplicated. */
  method NormaliseLibc(packages: map<string, PackageResolution>) returns (r: map<string, PackageResolution>)
    ensures r == NormalPackages(packages)
  {
    hide NormalList, NormalPackages;
    r := packages;
    var paths := IterationOrder(packages.Keys);
    assert forall j :: 0 <= j < |paths| ==> paths[j] in packages.Keys;
    for i := 0 to |paths|
      invariant r.Keys == packages.Keys
      invariant forall j :: 0 <= j < |paths| ==> r[paths[j]] == if j < i then NormalPackage(packages[paths[j]]) else packages[paths[j]]
    {
      var path := paths[i];
      var libc := r[path].libc;
      libc := StableSort(libc, Itself);
      libc := Dedup(libc);
      NormalListIs(r[path].libc);
      r := r[path := r[path].(libc := libc)];
    }
    forall p | p in packages
      ensures r[p] == NormalPackage(packages[p])
    {
      assert p in paths;
    }
    AllNormal(packages, r);
  }

  lemma AllNormal(packages: map<string, PackageResolution>, r: map<string, PackageResolution>)
    requires r.Keys == packages.Keys && forall p :: p in packages ==> r[p] == NormalPackage(packages[p])
    ensures r == NormalPackages(packages)
  {
  }

  method CheckName(packages: seq<PackageEntry>, path: string, canonical: string, readable: NameRule) returns (ok: bool)
    ensures ok <==> NameFits(packages, path, canonical, readable)
  {
    var found := FindEntry(packages, path);
    if found.None? {
      return false;
    }
    if canonical == "" || canonical == found.value.name {
      return false;
    }
    return readable(canonical);
  }

  /** The mutable lock in memory. */
  class Lockfile {
    const lockfileVersion: int
    const generator: string
    const root: RootEntry
    var packages: seq<PackageEntry>
    var resolution: ResolutionMetadata

    ghost function Value(): Lock
      reads this
    {
      Lock(lockfileVersion, generator, root, packages, resolution)
    }

    constructor (lock: Lock)
      ensures Value() == lock
    {
      lockfileVersion, generator, root := lock.lockfileVersion, lock.generator, lock.root;
      packages, resolution := lock.packages, lock.resolution;
    }

    method SortPackages()
      modifies this`packages
      ensures packages == StableSort(old(packages), PathOf)
    {
      packages := StableSort(packages, PathOf);
    }

    method RootResolutionLists()
      modifies this`resolution
      ensures resolution == NormalResolution(old(resolution))
    {
      var patterns := StableSort(resolution.root.workspacePatterns, Itself);
      patterns := Dedup(patterns);
      var packages := NormaliseLibc(resolution.packages);
      resolution := resolution.(root := resolution.root.(workspacePatterns := patterns), packages := packages);
    }

    /** The copy that `to_json` normalises and serialises; this lock stays as it is. */
    method Canonical() returns (canonical: Lockfile)
      ensures fresh(canonical) && canonical.Value() == Normal(Value())
    {
      canonical := new Lockfile(Lock(lockfileVersion, generator, root, packages, resolution));
      canonical.SortPackages();
      canonical.RootResolutionLists();
    }

    method CheckPackages(readable: NameRule) returns (fault: Option<Fault>, paths: set<string>)
      ensures fault.None? <==> AllLegal(packages) && StrictlyAscending(packages)
      ensures fault.None? ==> paths == PathsOf(packages)
      ensures fault.Some? ==> HasFault(Value(), readable, fault.value)
    {
      var previous: Option<string> := None;
      paths := {};
      for i := 0 to |packages|
        invariant AllLegal(packages[..i]) && StrictlyAscending(packages[..i])
        invariant paths == PathsOf(packages[..i])
        invariant previous == if i == 0 then None else Some(packages[i - 1].path)
      {
        var path := packages[i].path;
        if !LegalRelativePath(path) {
          return Some(IllegalPath(path)), paths;
        }
        if previous.Some? && !Less(previous.value, path) {
          return Some(OutOfOrder(path)), paths;
        }
        previous := Some(path);
        paths := paths + {path};
        assert packages[..i + 1] == packages[..i] + [packages[i]];
      }
      assert packages[..|packages|] == packages;
      return None, paths;
    }

    method CheckNames(readable: NameRule) returns (fault: Option<Fault>)
      ensures fault.None? <==> AllNamesFit(Value(), readable)
      ensures fault.Some? ==> HasFault(Value(), readable, fault.value)
    {
      hide HasFault, NameFits;
      var names := resolution.registryNames;
      var paths := IterationOrder(names.Keys);
      for i := 0 to |paths|
        invariant forall j :: 0 <= j < i ==> paths[j] in names && NameFits(packages, paths[j], names[paths[j]], readable)
      {
        var path := paths[i];
        assert path in names.Keys;
        var fits := CheckName(packages, path, names[path], readable);
        if !fits {
          BadNameIsFault(Value(), readable, path);
          return Some(BadRegistryName(path));
        }
      }
      return None;
    }

    method CheckOne(path: string, metadata: PackageResolution, paths: set<string>) returns (fault: Option<Fault>)
      requires path in resolution.packages && metadata == resolution.packages[path] && paths == PathsOf(packages)
      ensures fault.None? <==> MetadataFits(packages, path, metadata)
      ensures fault.Some? ==> forall readable :: HasFault(Value(), readable, fault.value)
    {
      var found := FindEntry(packages, path);
      if found.None? {
        return Some(UnknownPackage(path));
      }
      if !SourceFits(found.value, metadata) {
        return Some(BadSource(path));
      }
      var direct := ValidateTargets(metadata.dependencies, paths);
      if !direct {
        return Some(MissingTarget(path));
      }
      var optional := ValidateTargets(metadata.optionalDependencies, paths);
      if !optional {
        return Some(MissingTarget(path));
      }
      var peers := ValidateTargets(metadata.peerDependencies, paths);
      if !peers {
        return Some(MissingTarget(path));
      }
      var context := IterationOrder(metadata.peerContext.Keys);
      for i := 0 to |context|
        invariant forall j :: 0 <= j < i ==> context[j] in metadata.peerContext && metadata.peerContext[context[j]].path in paths
      {
        assert context[i] in metadata.peerContext.Keys;
        if metadata.peerContext[context[i]].path !in paths {
          return Some(MissingProvider(path));
        }
      }
      return None;
    }

    method CheckMetadata(readable: NameRule, known: set<string>) returns (fault: Option<Fault>)
      requires known == PathsOf(packages)
      ensures fault.None? <==> AllMetadataFit(Value())
      ensures fault.Some? ==> HasFault(Value(), readable, fault.value)
    {
      hide MetadataFits, HasFault;
      var all := resolution.packages;
      var paths := IterationOrder(all.Keys);
      for i := 0 to |paths|
        invariant forall j :: 0 <= j < i ==> paths[j] in all && MetadataFits(packages, paths[j], all[paths[j]])
      {
        assert paths[i] in all.Keys;
        fault := CheckOne(paths[i], all[paths[i]], known);
        if fault.Some? {
          return;
        }
      }
      return None;
    }

    /** `validate_v2`: accepts exactly the well-formed locks, and names a fault that is there. */
    method ValidateV2(readable: NameRule) returns (fault: Option<Fault>)
      ensures fault.None? <==> WellFormed(Value(), readable)
      ensures fault.Some? ==> HasFault(Value(), readable, fault.value)
    {
      hide HasFault;
      var known;
      fault, known := CheckPackages(readable);
      if fault.Some? {
        return;
      }
      fault := CheckNames(readable);
      if fault.Some? {
        return;
      }
      fault := CheckMetadata(readable, known);
    }
  }

  // ---------------------------------------------------------------- writing, then reading

  lemma AscendingIsDistinct(packages: seq<PackageEntry>)
    requires OrderedBy(packages, PathOf)
    ensures StrictlyAscending(packages) <==> DistinctPaths(packages)
  {
    forall i | 0 < i < |packages|
      ensures Less(packages[i - 1].path, packages[i].path) <==> packages[i - 1].path != packages[i].path
    {
      assert !Less(PathOf(packages[i]), PathOf(packages[i - 1]));
      LessTrichotomy(packages[i - 1].path, packages[i].path);
      LessIrreflexive(packages[i].path);
    }
    if StrictlyAscending(packages) {
      forall i, j | 0 <= i < j < |packages|
        ensures packages[i].path != packages[j].path
      {
        AscendsFar(packages, i, j);
        LessIrreflexive(packages[i].path);
      }
    }
  }

  lemma {:induction false} AscendsFar(packages: seq<PackageEntry>, i: nat, j: nat)
    requires StrictlyAscending(packages) && i < j < |packages|
    ensures Less(packages[i].path, packages[j].path)
  {
    assert Less(packages[j - 1].path, packages[j].path);
    if i < j - 1 {
      AscendsFar(packages, i, j - 1);
      LessTransitive(packages[i].path, packages[j - 1].path, packages[j].path);
    }
  }

  lemma {:induction false} FindIsFirst(packages: seq<PackageEntry>, path: string)
    ensures var found := WithKey(packages, PathOf, path);
            FindEntry(packages, path) == if found == [] then None else Some(found[0])
  {
    if packages != [] {
      FindIsFirst(packages[1..], path);
    }
  }

  /** `FindEntry` and the set of paths do not depend on the order across different paths. */
  lemma SortKeepsLookups(xs: seq<PackageEntry>, ys: seq<PackageEntry>, path: string)
    requires SameByKey(xs, ys, PathOf)
    ensures FindEntry(xs, path) == FindEntry(ys, path)
    ensures path in PathsOf(xs) <==> path in PathsOf(ys)
  {
    FindIsFirst(xs, path);
    FindIsFirst(ys, path);
    assert WithKey(xs, PathOf, path) == WithKey(ys, PathOf, path);
  }

  lemma {:induction false} PairShares(xs: seq<PackageEntry>, i: nat, j: nat)
    requires i < j < |xs|
    ensures xs[i].path == xs[j].path ==> |WithKey(xs, PathOf, xs[i].path)| >= 2
  {
    if i == 0 {
      assert xs[1..][j - 1] == xs[j];
      assert xs[i].path == xs[j].path ==> xs[j] in WithKey(xs[1..], PathOf, xs[i].path);
    } else {
      PairShares(xs[1..], i - 1, j - 1);
    }
  }

  lemma SortKeepsDistinct(xs: seq<PackageEntry>, ys: seq<PackageEntry>)
    requires SameByKey(xs, ys, PathOf) && DistinctPaths(xs)
    ensures DistinctPaths(ys)
  {
    forall i, j | 0 <= i < j < |ys|
      ensures ys[i].path != ys[j].path
    {
      PairShares(ys, i, j);
      OnePerPath(xs, ys[i].path);
      assert WithKey(xs, PathOf, ys[i].path) == WithKey(ys, PathOf, ys[i].path);
    }
  }

  /** The order check passes on the normal form if and only if the paths are distinct. */
  lemma OrderCheckIff(packages: seq<PackageEntry>)
    ensures StrictlyAscending(StableSort(packages, PathOf)) <==> DistinctPaths(packages)
  {
    var sorted := StableSort(packages, PathOf);
    StableSortSorts(packages, PathOf);
    AscendingIsDistinct(sorted);
    SameByKeySymmetric(packages, sorted, PathOf);
    if DistinctPaths(packages) {
      SortKeepsDistinct(packages, sorted);
    }
    if DistinctPaths(sorted) {
      SortKeepsDistinct(sorted, packages);
    }
  }

  /** All but the order demand reads the same before and after normalising. */
  lemma NormalKeepsRest(l: Lock, readable: NameRule)
    ensures WellFormedButOrder(Normal(l), readable) <==> WellFormedButOrder(l, readable)
  {
    hide NormalList, StableSort, SourceFits, LegalRelativePath, SameByKey;
    var sorted := StableSort(l.packages, PathOf);
    StableSortSorts(l.packages, PathOf);
    forall path
      ensures FindEntry(sorted, path) == FindEntry(l.packages, path)
      ensures path in PathsOf(sorted) <==> path in PathsOf(l.packages)
    {
      SortKeepsLookups(l.packages, sorted, path);
    }
    assert PathsOf(sorted) == PathsOf(l.packages);
    AllLegalByPaths(sorted);
    AllLegalByPaths(l.packages);
    forall p | p in l.resolution.packages
      ensures (MetadataFits(sorted, p, Normal(l).resolution.packages[p])
               <==> MetadataFits(l.packages, p, l.resolution.packages[p]))
    {
      LibcIsFree(sorted, l.packages, p, l.resolution.packages[p], NormalList(l.resolution.packages[p].libc));
    }
    assert AllMetadataFit(Normal(l)) <==> AllMetadataFit(l);
    assert AllNamesFit(Normal(l), readable) <==> AllNamesFit(l, readable);
  }

  lemma LibcIsFree(xs: seq<PackageEntry>, ys: seq<PackageEntry>, path: string, m: PackageResolution, libc: seq<string>)
    requires FindEntry(xs, path) == FindEntry(ys, path) && PathsOf(xs) == PathsOf(ys)
    ensures MetadataFits(xs, path, m.(libc := libc)) <==> MetadataFits(ys, path, m)
  {
  }

  lemma AllLegalByPaths(packages: seq<PackageEntry>)
    ensures AllLegal(packages) <==> forall p :: p in PathsOf(packages) ==> LegalRelativePath(p)
  {
    hide LegalRelativePath;
    forall i | 0 <= i < |packages|
      ensures packages[i].path in PathsOf(packages)
    {
    }
  }

  type SafetyRule = PackageEntry -> bool

  datatype ReadOutcome = Loaded(lock: Lock) | UnsupportedVersion | UnsafeEntry | Invalid

  /** `from_json` after parsing: version, entry safety, legacy migration, validation. */
  function ReadBack(l: Lock, safe: SafetyRule, readable: NameRule): ReadOutcome
  {
    if l.lockfileVersion != LEGACY_LOCK_VERSION && l.lockfileVersion != BPM_LOCK_VERSION then UnsupportedVersion
    else if exists i :: 0 <= i < |l.packages| && !safe(l.packages[i]) then UnsafeEntry
    else if l.lockfileVersion == LEGACY_LOCK_VERSION then Loaded(l.(lockfileVersion := BPM_LOCK_VERSION, resolution := EmptyResolution()))
    else if WellFormed(l, readable) then Loaded(l)
    else Invalid
  }

  /** A legacy lock with safe entries always loads: as version 2, without resolution metadata, otherwise as it is. */
  lemma LegacyIsMigrated(l: Lock, safe: SafetyRule, readable: NameRule)
    requires l.lockfileVersion == 1 && forall i :: 0 <= i < |l.packages| ==> safe(l.packages[i])
    ensures var outcome := ReadBack(l, safe, readable);
            && outcome.Loaded? && outcome.lock.lockfileVersion == 2 && outcome.lock.packages == l.packages
            && outcome.lock.root == l.root && outcome.lock.generator == l.generator
            && outcome.lock.resolution.packages == map[] && outcome.lock.resolution.registryNames == map[]
            && outcome.lock.resolution.root.overrides == map[] && outcome.lock.resolution.root.workspacePatterns == []
  {
  }

  /** Nothing else loads: a lock is read as it stands, or migrated, or refused for its first fault. */
  lemma LoadsIff(l: Lock, safe: SafetyRule, readable: NameRule)
    ensures var outcome := ReadBack(l, safe, readable);
            && (outcome.Loaded? <==>
                  && (forall i :: 0 <= i < |l.packages| ==> safe(l.packages[i]))
                  && (l.lockfileVersion == 1 || (l.lockfileVersion == 2 && WellFormed(l, readable))))
            && (outcome.Loaded? && l.lockfileVersion == 2 ==> outcome.lock == l)
            && (outcome == UnsupportedVersion <==> l.lockfileVersion !in {1, 2})
  {
    hide WellFormed;
  }

  /**
   A lock that is written reads back as what was written if and only if it has the current
   version, safe entries, distinct paths, and meets every demand but order as it stands.
   */
  lemma WrittenReadsBackIff(l: Lock, safe: SafetyRule, readable: NameRule)
    ensures ReadBack(Normal(l), safe, readable) == Loaded(Normal(l))
            <==> (l.lockfileVersion == BPM_LOCK_VERSION
                  && (forall i :: 0 <= i < |l.packages| ==> safe(l.packages[i]))
                  && DistinctPaths(l.packages) && WellFormedButOrder(l, readable))
  {
    hide NormalList, StableSort, WellFormedButOrder, StrictlyAscending;
    NormalKeepsRest(l, readable);
    OrderCheckIff(l.packages);
    var sorted := StableSort(l.packages, PathOf);
    SameMembers(l.packages);
    assert (exists i :: 0 <= i < |sorted| && !safe(sorted[i])) <==> (exists x :: x in sorted && !safe(x));
    assert (exists i :: 0 <= i < |l.packages| && !safe(l.packages[i])) <==> (exists x :: x in l.packages && !safe(x));
  }

  lemma SameMembers(packages: seq<PackageEntry>)
    ensures forall x :: x in StableSort(packages, PathOf) <==> x in packages
  {
    var sorted := StableSort(packages, PathOf);
    StableSortSorts(packages, PathOf);
    forall x
      ensures x in sorted <==> x in packages
    {
      assert WithKey(packages, PathOf, x.path) == WithKey(sorted, PathOf, x.path);
      assert PathOf(x) == x.path;
    }
  }
}
