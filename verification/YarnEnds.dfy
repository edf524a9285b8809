/**
 When the yarn importer's walk ends (src/yarn_lock.rs): it does whenever the packages can be ranked so that no
 dependency rises and every dependency on a name that the lock holds in several versions falls; no dependency cycle
 then passes through such a name. Otherwise it may nest without end, see `YarnNests`.
 */
module YarnEnds {
  import opened Hoist
  import opened NodePaths
  import opened YarnImport

  predicate OneVersion(lock: YarnLock, name: string)
  {
    forall i, j :: 0 <= i < j < |lock.entries| && lock.entries[i].name == lock.entries[j].name == name ==>
      lock.entries[i].version == lock.entries[j].version
  }

  /** A rank of name and version. */
  type Rank = (string, string) -> nat

  function RankOf(rank: Rank, entry: LockEntry): nat
  {
    rank(entry.name, entry.version)
  }

  /** Along every dependency the rank does not rise, and it falls where the name has several versions. */
  ghost predicate Falls(lock: YarnLock, rank: Rank)
    requires WellFormed(lock)
  {
    forall i, n :: 0 <= i < |lock.entries| && n in lock.entries[i].dependencies ==> FallsAt(lock, rank, i, n)
  }

  ghost predicate FallsAt(lock: YarnLock, rank: Rank, i: nat, n: string)
    requires WellFormed(lock) && i < |lock.entries| && n in lock.entries[i].dependencies
  {
    assert FoundByName(lock, lock.entries[i].dependencies);
    var (above, below) := (RankOf(rank, lock.entries[i]), RankOf(rank, lock.entries[lock.entries[i].dependencies[n]]));
    below <= above && (OneVersion(lock, n) || below < above)
  }

  function MaxRank(entries: seq<LockEntry>, rank: Rank): (r: nat)
    ensures forall i :: 0 <= i < |entries| ==> RankOf(rank, entries[i]) <= r
  {
    if entries == [] then 0
    else
      var rest := MaxRank(entries[1..], rank);
      assert forall i :: 0 < i < |entries| ==> entries[i] == entries[1..][i - 1];
      if RankOf(rank, entries[0]) > rest then RankOf(rank, entries[0]) else rest
  }

  /** How many packages deep a path is. */
  function Depth(path: string): nat
  {
    if path == "" then 0 else |Ancestors(path)|
  }

  // ---------------------------------------------------------------- how deep the next path is

  lemma {:induction false} DepthOfAncestor(path: string, x: string)
    requires x in Ancestors(path)
    ensures |Ancestors(x)| <= |Ancestors(path)|
    decreases |path|
  {
    if x != path {
      DepthOfAncestor(ParentPackage(path).value, x);
    }
  }

  lemma DepthAtRoot(name: string)
    requires CleanName(name)
    ensures Depth(PackageIn(ROOT_DIR, name)) == 1
  {
    hide CleanName;
    InRoot(name);
    RootHasNoParent(name);
  }

  lemma DepthBelow(x: string, name: string)
    requires ROOT_PREFIX <= x && CleanName(name)
    ensures Depth(PackageIn(OwnDir(x), name)) == 1 + |Ancestors(x)|
  {
    hide CleanName;
    PlacedParent(x, name);
    assert PackageIn(OwnDir(x), name) != "";
  }

  /** A path given to a request is at most one package deeper than the dependent. */
  lemma OneDeeper(lock: YarnLock, w: Walk, dependent: string, dir: string, name: string)
    requires PathsFit(lock, w) && Known(w, dependent) && dir in DirChain(dependent) && CleanName(name)
    ensures Depth(PackageIn(dir, name)) <= Depth(dependent) + 1
  {
    hide CleanName, DirChain, Ancestors;
    ChainDirs(dependent, dir);
    if dir == ROOT_DIR {
      DepthAtRoot(name);
    } else {
      var x :| x in Ancestors(dependent) && dir == OwnDir(x);
      DepthOfAncestor(dependent, x);
      DepthBelow(x, name);
    }
  }

  // ---------------------------------------------------------------- names with one version stay at the root

  ghost predicate SinglesAtRoot(lock: YarnLock, occupied: Occupied)
  {
    forall dir, n :: OneVersion(lock, n) && Holds(occupied, dir, n) ==> dir == ROOT_DIR && IsVersionOf(lock, n, occupied[dir][n])
  }

  predicate IsVersionOf(lock: YarnLock, name: string, version: string)
  {
    exists i :: 0 <= i < |lock.entries| && lock.entries[i].name == name && lock.entries[i].version == version
  }

  lemma PlaceKeepsSingles(lock: YarnLock, occupied: Occupied, request: Request)
    requires SinglesAtRoot(lock, occupied) && IsVersionOf(lock, request.name, request.version)
    ensures SinglesAtRoot(lock, PlaceIn(occupied, request).0)
    ensures OneVersion(lock, request.name) ==> PlaceIn(occupied, request).1 == PackageIn(ROOT_DIR, request.name)
  {
    hide DirChain;
    var chain := DirChain(request.dependent);
    var i := FirstHolding(occupied, chain, request.name);
    var target := if i < |chain| then chain[0] else ROOT_DIR;
    if OneVersion(lock, request.name) && i < |chain| {
      OnlyVersion(lock, request.name, occupied[chain[i]][request.name], request.version);
    }
    forall dir, n | OneVersion(lock, n) && Holds(PlaceIn(occupied, request).0, dir, n)
      ensures dir == ROOT_DIR && IsVersionOf(lock, n, PlaceIn(occupied, request).0[dir][n])
    {
      ClaimAddsOne(occupied, target, request.name, request.version, dir, n);
    }
  }

  lemma OnlyVersion(lock: YarnLock, name: string, v: string, w: string)
    requires OneVersion(lock, name) && IsVersionOf(lock, name, v) && IsVersionOf(lock, name, w)
    ensures v == w
  {
  }

  // ---------------------------------------------------------------- how deep all paths are

  /** Every path given, with the rank of its package, stays below the bound. */
  ghost predicate Shallow(lock: YarnLock, w: Walk, rank: Rank, bound: nat)
  {
    && |w.paths| == |w.placed|
    && (forall k :: 0 <= k < |w.paths| ==> Depth(w.paths[k]) + rank(w.placed[k].name, w.placed[k].version) <= bound)
    && SinglesAtRoot(lock, Run(w.placed).0)
  }

  /** The dependent of a queued item was given its path for an entry that needs the item. */
  lemma DependentOf(lock: YarnLock, w: Walk, a: nat) returns (k: nat, i: nat, n: string)
    requires Inv(lock, w) && a < |w.log| && w.log[a].dependent != ""
    ensures k < |w.paths| && k < |w.placed| && w.paths[k] == w.log[a].dependent && i < |lock.entries|
    ensures w.placed[k].name == lock.entries[i].name && w.placed[k].version == lock.entries[i].version
    ensures n in lock.entries[i].dependencies && lock.entries[i].dependencies[n] == w.log[a].index
  {
    hide NeedsQueued, AboveFirst, TakenPlaced, Run, Ancestors;
    var dependent := w.log[a].dependent;
    assert dependent in w.at && w.log[a].index in w.at[dependent].Values;
    k :| 0 <= k < |w.paths| && w.paths[k] == dependent;
    assert GivenFits(lock, w, w.firsts[k], w.paths[k]) && FirstFits(lock, w, w.firsts[k], w.placed[k]);
    i := w.log[w.firsts[k]].index;
    n :| n in lock.entries[i].dependencies && lock.entries[i].dependencies[n] == w.log[a].index;
  }

  lemma NextIsShallow(lock: YarnLock, w: Walk, rank: Rank, bound: nat)
    requires WellFormed(lock) && Falls(lock, rank) && Inv(lock, w) && InBounds(lock, w) && w.head < |w.log|
    requires w.log[w.head] !in w.log[..w.head] && Shallow(lock, w, rank, bound) && MaxRank(lock.entries, rank) < bound
    ensures Shallow(lock, Step(lock, w), rank, bound)
  {
    hide Inv, Run, PlaceIn, SinglesAtRoot, WellFormed, Falls, OneVersion, Depth, Items, Ancestors;
    var request := RequestOf(lock, w.log[w.head]);
    var (occupied, path) := PlaceIn(Run(w.placed).0, request);
    NextPath(lock, w);
    assert lock.entries[w.log[w.head].index].name == request.name;
    PlaceKeepsSingles(lock, Run(w.placed).0, request);
    NextDepth(lock, w, rank, bound, path);
    VisitedParts(lock, w, path);
    assert Asked(lock, w).placed == w.placed + [request];
  }

  lemma NextDepth(lock: YarnLock, w: Walk, rank: Rank, bound: nat, path: string)
    requires WellFormed(lock) && Falls(lock, rank) && Inv(lock, w) && InBounds(lock, w) && w.head < |w.log|
    requires w.log[w.head] !in w.log[..w.head] && Shallow(lock, w, rank, bound) && MaxRank(lock.entries, rank) < bound
    requires path == PlaceIn(Run(w.placed).0, RequestOf(lock, w.log[w.head])).1
    requires OneVersion(lock, RequestOf(lock, w.log[w.head]).name) ==> path == PackageIn(ROOT_DIR, RequestOf(lock, w.log[w.head]).name)
    ensures Depth(path) + rank(RequestOf(lock, w.log[w.head]).name, RequestOf(lock, w.log[w.head]).version) <= bound
  {
    hide Inv, Run, PlaceIn, SinglesAtRoot, WellFormed, OneVersion, Depth, Ancestors, CleanName;
    var (item, request) := (w.log[w.head], RequestOf(lock, w.log[w.head]));
    assert RankOf(rank, lock.entries[item.index]) == rank(request.name, request.version);
    NameIsClean(lock, item.index);
    if OneVersion(lock, request.name) {
      DepthAtRoot(request.name);
    } else {
      NextIsOneDeeper(lock, w, path);
      if item.dependent == "" {
        NoDepth();
      } else {
        var k, i, n := DependentOf(lock, w, w.head);
        FoundAt(lock, i, n);
        assert FallsAt(lock, rank, i, n);
      }
    }
  }

  lemma NoDepth()
    ensures Depth("") == 0
  {
  }

  lemma NameIsClean(lock: YarnLock, i: nat)
    requires WellFormed(lock) && i < |lock.entries|
    ensures CleanName(lock.entries[i].name)
  {
  }

  lemma FoundAt(lock: YarnLock, i: nat, n: string)
    requires WellFormed(lock) && i < |lock.entries| && n in lock.entries[i].dependencies
    ensures lock.entries[i].dependencies[n] < |lock.entries| && lock.entries[lock.entries[i].dependencies[n]].name == n
  {
    hide CleanName;
    assert FoundByName(lock, lock.entries[i].dependencies);
  }

  lemma NextIsOneDeeper(lock: YarnLock, w: Walk, path: string)
    requires WellFormed(lock) && Inv(lock, w) && InBounds(lock, w) && w.head < |w.log| && w.log[w.head] !in w.log[..w.head]
    requires path == PlaceIn(Run(w.placed).0, RequestOf(lock, w.log[w.head])).1
    ensures Depth(path) <= Depth(w.log[w.head].dependent) + 1
  {
    hide Run, PlaceIn, WellFormed, Depth, Ancestors, CleanName, EdgeHolds, NeedsQueued, AboveFirst, PlacedFits, TakenPlaced, PathsGiven;
    var (item, request) := (w.log[w.head], RequestOf(lock, w.log[w.head]));
    NewEdgeHolds(Run(w.placed).0, request);
    var dir := EdgePlace(PlaceIn(Run(w.placed).0, request).0, request, path);
    NameIsClean(lock, item.index);
    assert Known(w, item.dependent);
    OneDeeper(lock, w, item.dependent, dir, request.name);
  }

  lemma {:induction false} WalkIsShallow(lock: YarnLock, rank: Rank, bound: nat, steps: nat)
    requires WellFormed(lock) && Falls(lock, rank) && MaxRank(lock.entries, rank) < bound
    ensures Shallow(lock, WalkFor(lock, steps), rank, bound)
  {
    hide WellFormed, Falls, Inv, Step, Shallow;
    if steps == 0 {
      StartIsShallow(lock, rank, bound);
    } else {
      var w := WalkFor(lock, steps - 1);
      WalkIsShallow(lock, rank, bound, steps - 1);
      WalkKeeps(lock, steps - 1);
      if w.head < |w.log| {
        if w.log[w.head] in w.log[..w.head] {
          SkipParts(lock, w);
          SkipIsShallow(lock, w, rank, bound);
        } else {
          NextIsShallow(lock, w, rank, bound);
        }
      }
    }
  }

  lemma StartIsShallow(lock: YarnLock, rank: Rank, bound: nat)
    ensures Shallow(lock, Start(lock), rank, bound)
  {
    RunOfNone();
  }

  lemma SkipIsShallow(lock: YarnLock, w: Walk, rank: Rank, bound: nat)
    requires Shallow(lock, w, rank, bound)
    ensures Shallow(lock, w.(head := w.head + 1), rank, bound)
  {
  }

  lemma SkipParts(lock: YarnLock, w: Walk)
    requires InBounds(lock, w) && w.head < |w.log| && w.log[w.head] in w.log[..w.head]
    ensures Step(lock, w) == w.(head := w.head + 1)
  {
  }

  // ---------------------------------------------------------------- finitely many items

  ghost function Names(lock: YarnLock): set<string>
  {
    set i | 0 <= i < |lock.entries| :: lock.entries[i].name
  }

  /** The package paths of at most `depth` names. */
  ghost function PathsTo(names: set<string>, depth: nat): (r: set<string>)
    ensures depth > 0 ==> PathsTo(names, depth - 1) <= r
  {
    if depth == 0 then {}
    else
      var above := PathsTo(names, depth - 1);
      above + (set n | n in names :: PackageIn(ROOT_DIR, n)) + (set p, n | p in above && n in names :: PackageIn(OwnDir(p), n))
  }

  lemma {:induction false} DeeperHasMore(names: set<string>, d: nat, e: nat)
    requires d <= e
    ensures PathsTo(names, d) <= PathsTo(names, e)
    decreases e - d
  {
    hide PathsTo;
    if d < e {
      DeeperHasMore(names, d, e - 1);
    }
  }

  ghost predicate PathsListed(lock: YarnLock, w: Walk)
  {
    forall p :: p in w.at ==> p in PathsTo(Names(lock), Depth(p))
  }

  lemma PlacedIsListed(lock: YarnLock, w: Walk, dependent: string, dir: string, name: string)
    requires PathsFit(lock, w) && PathsListed(lock, w) && Known(w, dependent) && dir in DirChain(dependent)
    requires CleanName(name) && name in Names(lock)
    ensures PackageIn(dir, name) in PathsTo(Names(lock), Depth(PackageIn(dir, name)))
  {
    hide CleanName, DirChain, Ancestors, FoundByName;
    ChainDirs(dependent, dir);
    if dir == ROOT_DIR {
      DepthAtRoot(name);
    } else {
      var x :| x in Ancestors(dependent) && dir == OwnDir(x);
      DepthBelow(x, name);
      assert x in w.at && Depth(x) == |Ancestors(x)|;
    }
  }

  lemma NextIsListed(lock: YarnLock, w: Walk)
    requires WellFormed(lock) && Inv(lock, w) && InBounds(lock, w) && w.head < |w.log| && w.log[w.head] !in w.log[..w.head]
    requires PathsListed(lock, w)
    ensures PathsListed(lock, Step(lock, w))
  {
    hide Run, PlaceIn, WellFormed, Depth, Ancestors, CleanName, EdgeHolds, NeedsQueued, AboveFirst, PlacedFits, TakenPlaced, PathsGiven,
      PathsTo, Items, PathsFit;
    var (item, request) := (w.log[w.head], RequestOf(lock, w.log[w.head]));
    var path := PlaceIn(Run(w.placed).0, request).1;
    NewEdgeHolds(Run(w.placed).0, request);
    var dir := EdgePlace(PlaceIn(Run(w.placed).0, request).0, request, path);
    NameIsClean(lock, item.index);
    assert Known(w, item.dependent) && lock.entries[item.index].name in Names(lock);
    PlacedIsListed(lock, w, item.dependent, dir, request.name);
  }

  lemma {:induction false} WalkIsListed(lock: YarnLock, steps: nat)
    requires WellFormed(lock)
    ensures PathsListed(lock, WalkFor(lock, steps))
  {
    hide WellFormed, Inv, Step, Depth, PathsTo;
    if steps > 0 {
      var w := WalkFor(lock, steps - 1);
      WalkIsListed(lock, steps - 1);
      WalkKeeps(lock, steps - 1);
      if w.head < |w.log| {
        if w.log[w.head] in w.log[..w.head] {
          SkipParts(lock, w);
        } else {
          NextIsListed(lock, w);
        }
      }
    }
  }

  ghost function AllItems(lock: YarnLock, depth: nat): set<Item>
  {
    set i, p | 0 <= i < |lock.entries| && p in PathsTo(Names(lock), depth) + {""} :: Item(i, p)
  }

  /** Every item queued is one of finitely many. */
  lemma LogIsFinite(lock: YarnLock, w: Walk, rank: Rank, bound: nat, a: nat)
    requires Inv(lock, w) && InBounds(lock, w) && PathsListed(lock, w) && Shallow(lock, w, rank, bound) && a < |w.log|
    ensures w.log[a] in AllItems(lock, bound)
  {
    hide NeedsQueued, AboveFirst, TakenPlaced, Run, Ancestors, PathsTo, SinglesAtRoot, PlacedFits, Depth, PathsFit;
    var dependent := w.log[a].dependent;
    if dependent != "" {
      assert dependent in w.at;
      var k :| 0 <= k < |w.paths| && w.paths[k] == dependent;
      DeeperHasMore(Names(lock), Depth(dependent), bound);
    }
    assert w.log[a] == Item(w.log[a].index, dependent);
  }

  // ---------------------------------------------------------------- so the walk ends

  /** A list without repeats, drawn from a set, is no longer than the set. */
  lemma {:induction false} NoRepeats<T>(xs: seq<T>, all: set<T>)
    requires forall i :: 0 <= i < |xs| ==> xs[i] in all && xs[i] !in xs[..i]
    ensures |xs| <= |all|
  {
    if xs != [] {
      var last := |xs| - 1;
      var rest := xs[..last];
      forall i | 0 <= i < |rest|
        ensures rest[i] in all - {xs[last]} && rest[i] !in rest[..i]
      {
        assert rest[..i] == xs[..i] && rest[i] == xs[i] && xs[last] !in xs[..last];
      }
      NoRepeats(rest, all - {xs[last]});
    }
  }

  /** The items taken for the first time, in order. */
  ghost function FirstItems(w: Walk): seq<Item>
    requires forall k :: 0 <= k < |w.firsts| ==> w.firsts[k] < |w.log|
  {
    seq(|w.firsts|, k requires 0 <= k < |w.firsts| => w.log[w.firsts[k]])
  }

  lemma FewFirsts(lock: YarnLock, w: Walk, all: set<Item>)
    requires PlacedFits(lock, w) && forall a :: 0 <= a < |w.log| ==> w.log[a] in all
    ensures |w.firsts| <= |all|
  {
    forall k | 0 <= k < |w.firsts|
      ensures w.firsts[k] < |w.log|
    {
      assert FirstFits(lock, w, w.firsts[k], w.placed[k]);
    }
    var xs := FirstItems(w);
    forall k | 0 <= k < |xs|
      ensures xs[k] in all && xs[k] !in xs[..k]
    {
      assert FirstFits(lock, w, w.firsts[k], w.placed[k]);
      forall m | 0 <= m < k
        ensures xs[m] != xs[k]
      {
        assert w.log[..w.firsts[k]][w.firsts[m]] == xs[m];
      }
    }
    NoRepeats(xs, all);
  }

  /** At least the number of needs of any entry. */
  function MostNeeds(entries: seq<LockEntry>): (r: nat)
    ensures forall i :: 0 <= i < |entries| ==> |entries[i].dependencies| <= r
  {
    if entries == [] then 0
    else
      var rest := MostNeeds(entries[1..]);
      assert forall i :: 0 < i < |entries| ==> entries[i] == entries[1..][i - 1];
      |entries[0].dependencies| + rest
  }

  lemma ItemsCount(needs: Needs, dependent: string)
    ensures |Items(needs, dependent)| == |needs|
  {
    assert |needs.Keys| == |needs|;
  }

  lemma VisitedCounts(lock: YarnLock, w: Walk)
    requires InBounds(lock, w) && w.head < |w.log| && w.log[w.head] !in w.log[..w.head]
    ensures var w' := Step(lock, w);
            |w'.log| <= |w.log| + MostNeeds(lock.entries) && |w'.firsts| == |w.firsts| + 1 && w'.head == w.head + 1
  {
    hide PlaceIn, Run, Items, MostNeeds;
    ItemsCount(lock.entries[w.log[w.head].index].dependencies, PlaceIn(Run(w.placed).0, RequestOf(lock, w.log[w.head])).1);
  }

  /** How long the log can be, and how far the walk is if it has not ended. */
  lemma {:induction false} LogGrowsSlowly(lock: YarnLock, steps: nat)
    requires WellFormed(lock)
    ensures var w := WalkFor(lock, steps);
            && |w.log| <= |lock.roots| + |w.firsts| * MostNeeds(lock.entries)
            && (w.head < |w.log| ==> w.head == steps)
  {
    hide WellFormed, Inv, Step, MostNeeds, Items;
    if steps == 0 {
      ItemsCount(lock.roots, "");
    } else {
      LogGrowsSlowly(lock, steps - 1);
      var w := WalkFor(lock, steps - 1);
      if w.head < |w.log| {
        if w.log[w.head] in w.log[..w.head] {
          SkipParts(lock, w);
        } else {
          VisitedCounts(lock, w);
          var most := MostNeeds(lock.entries);
          assert |Step(lock, w).firsts| * most == |w.firsts| * most + most;
        }
      }
    }
  }

  lemma Product(a: nat, b: nat, c: nat)
    requires a <= b
    ensures a * c <= b * c
  {
  }

  /**
   When no dependency cycle passes through a name with several versions, which a falling rank shows, the walk ends,
   with everything needed asked for and every edge resolving to its version at its path.
   */
  lemma WalkEnds(lock: YarnLock, rank: Rank) returns (steps: nat)
    requires WellFormed(lock) && Falls(lock, rank)
    ensures var w := WalkFor(lock, steps);
            w.head == |w.log| && AsksForAll(lock, w) && HoldsThroughout(w.placed)
    ensures forall n: nat :: WalkFor(lock, n).head < |WalkFor(lock, n).log| ==> n < steps
  {
    hide WellFormed, Falls, Inv, WalkFor, MostNeeds, AsksForAll, HoldsThroughout, Disciplined, AllItems, Shallow, PathsListed;
    var bound := MaxRank(lock.entries, rank) + 1;
    var (all, most) := (AllItems(lock, bound), MostNeeds(lock.entries));
    steps := |lock.roots| + |all| * most;
    var w := WalkFor(lock, steps);
    WalkKeeps(lock, steps);
    WalkIsShallow(lock, rank, bound, steps);
    WalkIsListed(lock, steps);
    forall a | 0 <= a < |w.log|
      ensures w.log[a] in all
    {
      LogIsFinite(lock, w, rank, bound, a);
    }
    FirstsFit(lock, w);
    FewFirsts(lock, w, all);
    LogGrowsSlowly(lock, steps);
    Product(|w.firsts|, |all|, most);
    FinishedIsComplete(lock, steps);
    ImportHolds(lock, steps);
    forall n: nat | WalkFor(lock, n).head < |WalkFor(lock, n).log|
      ensures n < steps
    {
      if n >= steps {
        OnceEnded(lock, steps, n);
      }
    }
  }

  lemma {:induction false} OnceEnded(lock: YarnLock, m: nat, n: nat)
    requires WellFormed(lock) && m <= n && WalkFor(lock, m).head == |WalkFor(lock, m).log|
    ensures WalkFor(lock, n) == WalkFor(lock, m)
    decreases n
  {
    hide WellFormed, Step;
    if m < n {
      OnceEnded(lock, m, n - 1);
    }
  }

  lemma FirstsFit(lock: YarnLock, w: Walk)
    requires Inv(lock, w)
    ensures PlacedFits(lock, w)
  {
  }

  /** A lock with one version of every name is one such lock. */
  lemma OneVersionEach(lock: YarnLock) returns (rank: Rank)
    requires WellFormed(lock) && forall n :: OneVersion(lock, n)
    ensures Falls(lock, rank)
  {
    hide CleanName, OneVersion;
    rank := (name, version) => 0;
    forall i, n | 0 <= i < |lock.entries| && n in lock.entries[i].dependencies
      ensures FallsAt(lock, rank, i, n)
    {
      FoundAt(lock, i, n);
    }
  }

  /** On such a lock the importer's own loop, which stops only when the queue is empty, ends with a whole import. */
  method ImportToTheEnd(lock: YarnLock, ghost rank: Rank) returns (placed: seq<Request>, paths: seq<string>)
    requires WellFormed(lock) && Falls(lock, rank)
    ensures HoldsThroughout(placed) && paths == Run(placed).1 && AskedFor(lock, placed, "", lock.roots)
    ensures forall k, i: nat :: 0 <= k < |placed| && IsEntryFor(lock, i, placed[k].name, placed[k].version) ==>
              FoundByName(lock, lock.entries[i].dependencies) && AskedFor(lock, placed, paths[k], lock.entries[i].dependencies)
  {
    hide Run, WellFormed, Inv, Items, Mirrors, Step, Falls, HoldsThroughout, FoundByName, AskedFor;
    ghost var last := WalkEnds(lock, rank);
    var placer := new Placer();
    var queue := QueueNeeds(lock.roots, "");
    var visited: set<Item> := {};
    placed, paths := [], [];
    RunOfNone();
    MirrorsStart(lock);
    ghost var n: nat := 0;
    while queue != []
      invariant Follows(WalkFor(lock, n), placer.occupied, queue, visited, placed, paths)
      decreases last - n
    {
      QueueLength(WalkFor(lock, n), queue, visited);
      WalkKeeps(lock, n);
      queue, visited, placed, paths := TakeHead(lock, placer, queue, visited, placed, paths, WalkFor(lock, n));
      n := n + 1;
    }
    QueueLength(WalkFor(lock, n), queue, visited);
    ImportHolds(lock, n);
    FinishedIsComplete(lock, n);
    AllFound(lock);
  }

  lemma AllFound(lock: YarnLock)
    requires WellFormed(lock)
    ensures forall i :: 0 <= i < |lock.entries| ==> FoundByName(lock, lock.entries[i].dependencies)
  {
    hide CleanName, FoundByName;
  }
}
