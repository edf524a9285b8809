/**
 The yarn importer's breadth-first walk (src/yarn_lock.rs): a queue of (entry, dependent) pairs that
 feeds the hoisting placer. Its requests keep the order the placer needs, so every edge holds; when
 the queue runs dry, every need of everything placed was asked for.

 Which lock entry of a name satisfies a dependency is an input; the walk is cut after any number of steps.
 */
module YarnImport {
  import opened Hoist
  import opened NodePaths
  import opened Options
  import opened Ordering

  /** Dependency name -> index of the lock entry found for it; names without an entry are left out. */
  type Needs = map<string, nat>

  datatype LockEntry = LockEntry(name: string, version: string, dependencies: Needs)

  datatype YarnLock = YarnLock(entries: seq<LockEntry>, roots: Needs)

  datatype Item = Item(index: nat, dependent: string)

  function RequestOf(lock: YarnLock, item: Item): Request
    requires item.index < |lock.entries|
  {
    Request(item.dependent, lock.entries[item.index].name, lock.entries[item.index].version)
  }

  /** Entries are looked up by name. */
  ghost predicate FoundByName(lock: YarnLock, needs: Needs)
  {
    forall n :: n in needs ==> needs[n] < |lock.entries| && lock.entries[needs[n]].name == n
  }

  predicate IsEntryFor(lock: YarnLock, i: nat, name: string, version: string)
  {
    i < |lock.entries| && lock.entries[i].name == name && lock.entries[i].version == version
  }

  /** Entries of one name and version, if there are several, have the same needs. */
  ghost predicate WellFormed(lock: YarnLock)
  {
    && (forall i :: 0 <= i < |lock.entries| ==>
          CleanName(lock.entries[i].name) && FoundByName(lock, lock.entries[i].dependencies))
    && FoundByName(lock, lock.roots)
    && forall i, j :: 0 <= i < j < |lock.entries| && IsEntryFor(lock, j, lock.entries[i].name, lock.entries[i].version) ==>
         lock.entries[i].dependencies == lock.entries[j].dependencies
  }

  // ---------------------------------------------------------------- the walk

  /**
   Every item queued so far in order, how many were taken, the needs of the package at each path,
   and the requests made with the positions of their items and the paths they got.
   */
  datatype Walk = Walk(log: seq<Item>, head: nat, at: map<string, Needs>, firsts: seq<nat>, placed: seq<Request>, paths: seq<string>)

  predicate InBounds(lock: YarnLock, w: Walk)
  {
    w.head <= |w.log| && forall a :: 0 <= a < |w.log| ==> w.log[a].index < |lock.entries|
  }

  /** The items for a map of needs, in the order of the dependency names. */
  function Items(needs: Needs, dependent: string): seq<Item>
  {
    var names := Sorted(needs.Keys);
    seq(|names|, i requires 0 <= i < |names| => assert names[i] in needs.Keys; Item(needs[names[i]], dependent))
  }

  lemma ItemsFit(needs: Needs, dependent: string)
    ensures var batch := Items(needs, dependent);
            && (forall i :: 0 <= i < |batch| ==> batch[i].dependent == dependent && batch[i].index in needs.Values)
            && forall n :: n in needs ==> Item(needs[n], dependent) in batch
  {
    var (names, batch) := (Sorted(needs.Keys), Items(needs, dependent));
    forall i | 0 <= i < |batch|
      ensures batch[i].dependent == dependent && batch[i].index in needs.Values
    {
      assert names[i] in needs.Keys;
    }
    forall n | n in needs
      ensures Item(needs[n], dependent) in batch
    {
      var i :| 0 <= i < |names| && names[i] == n;
      assert batch[i] == Item(needs[n], dependent);
    }
  }

  /** The needs are queued in the bytewise order of their names, one item for each. */
  lemma ItemsInNameOrder(lock: YarnLock, needs: Needs, dependent: string)
    requires FoundByName(lock, needs)
    ensures var batch := Items(needs, dependent);
            && |batch| == |needs|
            && (forall i :: 0 <= i < |batch| ==> batch[i].dependent == dependent && batch[i].index < |lock.entries|)
            && forall i, j :: 0 <= i < j < |batch| ==> Less(lock.entries[batch[i].index].name, lock.entries[batch[j].index].name)
  {
    var (names, batch) := (Sorted(needs.Keys), Items(needs, dependent));
    assert |needs.Keys| == |needs|;
    forall i | 0 <= i < |batch|
      ensures batch[i].index < |lock.entries| && lock.entries[batch[i].index].name == names[i]
    {
      assert names[i] in needs.Keys;
    }
  }

  /** A first visit of the item at the head: its path, and its needs queued behind everything else. */
  function Visited(lock: YarnLock, w: Walk, path: string): Walk
    requires InBounds(lock, w) && w.head < |w.log|
  {
    var entry := lock.entries[w.log[w.head].index];
    Walk(w.log + Items(entry.dependencies, path), w.head + 1, w.at[path := entry.dependencies],
         w.firsts + [w.head], w.placed + [RequestOf(lock, w.log[w.head])], w.paths + [path])
  }

  /** One turn of the loop. */
  function Step(lock: YarnLock, w: Walk): Walk
    requires InBounds(lock, w) && w.head < |w.log|
  {
    if w.log[w.head] in w.log[..w.head] then w.(head := w.head + 1)
    else Visited(lock, w, PlaceIn(Run(w.placed).0, RequestOf(lock, w.log[w.head])).1)
  }

  function Start(lock: YarnLock): Walk
  {
    Walk(Items(lock.roots, ""), 0, map[], [], [], [])
  }

  /** The walk after at most `steps` turns. */
  ghost function WalkFor(lock: YarnLock, steps: nat): (w: Walk)
    requires WellFormed(lock)
    ensures InBounds(lock, w)
  {
    if steps == 0 then
      StartFits(lock);
      Start(lock)
    else
      var w := WalkFor(lock, steps - 1);
      if w.head == |w.log| then w
      else
        StepInBounds(lock, w);
        Step(lock, w)
  }

  // ---------------------------------------------------------------- what every turn keeps

  predicate Known(w: Walk, dependent: string)
  {
    dependent == "" || dependent in w.at
  }

  /** What the package at `dependent` (the root when empty) needs. */
  function NeedsOf(lock: YarnLock, w: Walk, dependent: string): Needs
  {
    if dependent == "" then lock.roots
    else if dependent in w.at then w.at[dependent]
    else map[]
  }

  /** Every queued item is a need of a known dependent. */
  ghost predicate LogFits(lock: YarnLock, w: Walk)
  {
    forall a :: 0 <= a < |w.log| ==>
      Known(w, w.log[a].dependent) && w.log[a].index in NeedsOf(lock, w, w.log[a].dependent).Values
  }

  ghost predicate AllQueued(lock: YarnLock, w: Walk, dependent: string, log: seq<Item>)
  {
    forall n :: n in NeedsOf(lock, w, dependent) ==> Item(NeedsOf(lock, w, dependent)[n], dependent) in log
  }

  /** All needs of a known dependent are queued. */
  ghost predicate NeedsQueued(lock: YarnLock, w: Walk)
  {
    forall p :: Known(w, p) ==> AllQueued(lock, w, p, w.log)
  }

  /** Known paths are package paths whose ancestors are known. */
  ghost predicate PathsFit(lock: YarnLock, w: Walk)
  {
    forall p :: p in w.at ==>
      && p != "" && ROOT_PREFIX <= p && FoundByName(lock, w.at[p])
      && forall a :: a in Ancestors(p) ==> a in w.at
  }

  /** Before an item of a package is queued, all the needs of everything above that package are. */
  ghost predicate AboveFirst(lock: YarnLock, w: Walk)
  {
    forall a, p {:trigger Below(w.log[a].dependent, p)} :: 0 <= a < |w.log| && Below(w.log[a].dependent, p) ==>
      Known(w, p) && AllQueued(lock, w, p, w.log[..a])
  }

  ghost predicate FirstFits(lock: YarnLock, w: Walk, a: nat, request: Request)
  {
    && a < w.head <= |w.log| && w.log[a] !in w.log[..a] && w.log[a].index < |lock.entries|
    && request == RequestOf(lock, w.log[a])
  }

  /** The requests made are those of the first occurrences taken, in order. */
  ghost predicate PlacedFits(lock: YarnLock, w: Walk)
  {
    && w.head <= |w.log| && |w.placed| == |w.firsts|
    && (forall k :: 0 <= k < |w.firsts| ==> FirstFits(lock, w, w.firsts[k], w.placed[k]))
    && (forall k, m :: 0 <= k < m < |w.firsts| ==> w.firsts[k] < w.firsts[m])
  }

  /** Every item taken was asked for. */
  ghost predicate TakenPlaced(lock: YarnLock, w: Walk)
  {
    InBounds(lock, w) && forall a :: 0 <= a < w.head ==> RequestOf(lock, w.log[a]) in w.placed
  }

  /** Known paths are those given to requests, with the needs of the entry asked for. */
  ghost predicate PathsGiven(lock: YarnLock, w: Walk)
  {
    && |w.paths| == |w.firsts| && (forall p :: p in w.at ==> p in w.paths)
    && forall k :: 0 <= k < |w.paths| ==> GivenFits(lock, w, w.firsts[k], w.paths[k])
  }

  ghost predicate GivenFits(lock: YarnLock, w: Walk, a: nat, path: string)
  {
    && a < |w.log| && w.log[a].index < |lock.entries|
    && path in w.at && w.at[path] == lock.entries[w.log[a].index].dependencies
  }

  ghost predicate Inv(lock: YarnLock, w: Walk)
  {
    && LogFits(lock, w) && NeedsQueued(lock, w) && PathsFit(lock, w) && AboveFirst(lock, w)
    && PlacedFits(lock, w) && TakenPlaced(lock, w) && PathsGiven(lock, w) && w.paths == Run(w.placed).1
  }

  // ---------------------------------------------------------------- the requests are disciplined

  lemma NeedsFound(lock: YarnLock, w: Walk, dependent: string)
    requires WellFormed(lock) && PathsFit(lock, w)
    ensures FoundByName(lock, NeedsOf(lock, w, dependent))
  {
    hide Ancestors;
  }

  /** Two items of one dependent for one name are one item. */
  lemma OneItemPerName(lock: YarnLock, w: Walk, a: nat, b: nat)
    requires WellFormed(lock) && LogFits(lock, w) && PathsFit(lock, w) && a < |w.log| && b < |w.log|
    requires w.log[a].dependent == w.log[b].dependent
    ensures w.log[a].index < |lock.entries| && w.log[b].index < |lock.entries|
    ensures lock.entries[w.log[a].index].name == lock.entries[w.log[b].index].name ==> w.log[a] == w.log[b]
  {
    hide WellFormed, PathsFit, NeedsOf;
    NeedsFound(lock, w, w.log[a].dependent);
    var needs := NeedsOf(lock, w, w.log[a].dependent);
    var n :| n in needs && needs[n] == w.log[a].index;
    var m :| m in needs && needs[m] == w.log[b].index;
  }

  lemma FirstsAreDisciplined(lock: YarnLock, w: Walk)
    requires WellFormed(lock) && LogFits(lock, w) && PathsFit(lock, w) && AboveFirst(lock, w) && PlacedFits(lock, w)
    ensures Disciplined(w.placed)
  {
    hide WellFormed, Below, PathsFit, NeedsOf, LogFits;
    var placed := w.placed;
    forall i, j | 0 <= i < j < |placed|
      ensures placed[i].dependent == placed[j].dependent && placed[i].name == placed[j].name ==> placed[i].version == placed[j].version
      ensures !Below(placed[i].dependent, placed[j].dependent)
    {
      var (a, b) := (w.firsts[i], w.firsts[j]);
      assert FirstFits(lock, w, a, placed[i]) && FirstFits(lock, w, b, placed[j]);
      if placed[i].dependent == placed[j].dependent {
        OneItemPerName(lock, w, a, b);
      }
      if Below(placed[i].dependent, placed[j].dependent) {
        assert Below(w.log[a].dependent, placed[j].dependent);
        ItemQueued(lock, w, b, w.log[..a]);
        PrefixGrows(w.log, w.log[b], a, b);
      }
    }
  }

  lemma ItemQueued(lock: YarnLock, w: Walk, b: nat, log: seq<Item>)
    requires LogFits(lock, w) && b < |w.log| && AllQueued(lock, w, w.log[b].dependent, log)
    ensures w.log[b] in log
  {
    hide NeedsOf;
    var needs := NeedsOf(lock, w, w.log[b].dependent);
    var n :| n in needs && needs[n] == w.log[b].index;
    assert Item(needs[n], w.log[b].dependent) in log;
  }

  lemma PrefixGrows(log: seq<Item>, item: Item, a: nat, b: nat)
    requires a <= b <= |log| && item in log[..a]
    ensures item in log[..b]
  {
    var i :| 0 <= i < a && log[..a][i] == item;
    assert log[..b][i] == item;
  }

  // ---------------------------------------------------------------- one path, one entry

  /** A directory a chain ends or passes through, with the package it belongs to. */
  lemma ChainDirs(dependent: string, dir: string)
    requires dir in DirChain(dependent)
    ensures dir == ROOT_DIR || exists x :: x in Ancestors(dependent) && dependent != "" && dir == OwnDir(x)
  {
    if dir != ROOT_DIR {
      var i :| 0 <= i < |DirChain(dependent)| && DirChain(dependent)[i] == dir;
      assert dir == OwnDir(Ancestors(dependent)[i]);
    }
  }

  /** The path of a package in a directory of `node_modules` tells directory and name. */
  lemma PlaceOfPath(dir: string, name: string)
    requires CleanName(name) && (dir == ROOT_DIR || exists x :: dir == OwnDir(x))
    ensures SplitLast(PackageIn(dir, name)) == if dir == ROOT_DIR then None else Some((dir[..|dir| - |"/node_modules"|], name))
    ensures dir == ROOT_DIR ==> PackageIn(dir, name)[|ROOT_PREFIX|..] == name && ROOT_PREFIX <= PackageIn(dir, name)
  {
    hide SplitLast, CleanName;
    if dir == ROOT_DIR {
      SplitRoot(name);
      assert PackageIn(dir, name) == ROOT_PREFIX + name;
    } else {
      var x :| dir == OwnDir(x);
      SplitChild(x, name);
      assert PackageIn(dir, name) == x + SEPARATOR + name;
      assert dir[..|dir| - |"/node_modules"|] == x;
    }
  }

  lemma SamePlace(dir1: string, name1: string, dir2: string, name2: string)
    requires CleanName(name1) && CleanName(name2) && PackageIn(dir1, name1) == PackageIn(dir2, name2)
    requires dir1 == ROOT_DIR || exists x :: dir1 == OwnDir(x)
    requires dir2 == ROOT_DIR || exists x :: dir2 == OwnDir(x)
    ensures dir1 == dir2 && name1 == name2
  {
    hide SplitLast, CleanName;
    PlaceOfPath(dir1, name1);
    PlaceOfPath(dir2, name2);
    if dir1 != ROOT_DIR {
      var x :| dir1 == OwnDir(x);
      var y :| dir2 == OwnDir(y);
      assert dir1[..|dir1| - |"/node_modules"|] == x && dir2[..|dir2| - |"/node_modules"|] == y;
    }
  }

  /** Where an edge that holds leads. */
  lemma EdgePlace(occupied: Occupied, request: Request, path: string) returns (dir: string)
    requires EdgeHolds(occupied, request, path)
    ensures dir in DirChain(request.dependent) && path == PackageIn(dir, request.name)
    ensures Holds(occupied, dir, request.name) && occupied[dir][request.name] == request.version
  {
    dir := DirChain(request.dependent)[FirstHolding(occupied, DirChain(request.dependent), request.name)];
  }

  /** Two requests whose edges hold and lead to one path are for one name and version. */
  lemma SamePathSamePackage(occupied: Occupied, r: Request, s: Request, path: string)
    requires EdgeHolds(occupied, r, path) && EdgeHolds(occupied, s, path) && CleanName(r.name) && CleanName(s.name)
    ensures r.name == s.name && r.version == s.version
  {
    hide EdgeHolds, CleanName, DirChain;
    var d := EdgePlace(occupied, r, path);
    var e := EdgePlace(occupied, s, path);
    ChainDirs(r.dependent, d);
    ChainDirs(s.dependent, e);
    SamePlace(d, r.name, e, s.name);
  }

  lemma InRoot(name: string)
    ensures PackageIn(ROOT_DIR, name) == ROOT_PREFIX + name
  {
  }

  /** A new path's ancestors are itself and ancestors of the dependent. */
  lemma AncestorsOfPlaced(dependent: string, dir: string, name: string, a: string)
    requires CleanName(name) && dir in DirChain(dependent)
    requires dependent != "" ==> forall x :: x in Ancestors(dependent) ==> ROOT_PREFIX <= x
    requires a in Ancestors(PackageIn(dir, name)) && a != PackageIn(dir, name)
    ensures dependent != "" && exists x :: x in Ancestors(dependent) && a in Ancestors(x)
  {
    hide CleanName;
    ChainDirs(dependent, dir);
    if dir == ROOT_DIR {
      InRoot(name);
      RootHasNoParent(name);
    } else {
      var x :| x in Ancestors(dependent) && dir == OwnDir(x);
      PlacedParent(x, name);
      assert Ancestors(PackageIn(dir, name)) == [PackageIn(dir, name)] + Ancestors(x);
    }
  }

  lemma PlacedIsRooted(dependent: string, dir: string, name: string)
    requires dir in DirChain(dependent) && (dependent != "" ==> forall x :: x in Ancestors(dependent) ==> ROOT_PREFIX <= x)
    ensures ROOT_PREFIX <= PackageIn(dir, name) && PackageIn(dir, name) != ""
  {
    ChainDirs(dependent, dir);
    if dir == ROOT_DIR {
      assert PackageIn(dir, name) == ROOT_PREFIX + name;
    } else {
      var x :| x in Ancestors(dependent) && dir == OwnDir(x);
      assert PackageIn(dir, name) == x + ("/node_modules" + ("/" + name));
    }
  }

  // ---------------------------------------------------------------- one turn of the walk

  /** Taking an item changes neither the log nor what is known. */
  lemma TakeKeeps(lock: YarnLock, w: Walk, w': Walk)
    requires w'.log == w.log && w'.at == w.at
    requires LogFits(lock, w) && NeedsQueued(lock, w) && PathsFit(lock, w) && AboveFirst(lock, w)
    ensures LogFits(lock, w') && NeedsQueued(lock, w') && PathsFit(lock, w') && AboveFirst(lock, w')
  {
    hide Ancestors, Below, FoundByName;
    forall p
      ensures NeedsOf(lock, w', p) == NeedsOf(lock, w, p)
    {
    }
    forall p | Known(w', p)
      ensures AllQueued(lock, w', p, w'.log)
    {
      assert Known(w, p) && AllQueued(lock, w, p, w.log);
    }
    forall a, p {:trigger Below(w'.log[a].dependent, p)} | 0 <= a < |w'.log| && Below(w'.log[a].dependent, p)
      ensures Known(w', p) && AllQueued(lock, w', p, w'.log[..a])
    {
      assert Below(w.log[a].dependent, p) && AllQueued(lock, w, p, w.log[..a]);
    }
  }

  lemma SkipPlaced(lock: YarnLock, w: Walk)
    requires PlacedFits(lock, w) && TakenPlaced(lock, w) && w.head < |w.log| && w.log[w.head] in w.log[..w.head]
    ensures PlacedFits(lock, w.(head := w.head + 1)) && TakenPlaced(lock, w.(head := w.head + 1))
  {
    hide RequestOf;
    var w' := w.(head := w.head + 1);
    forall k | 0 <= k < |w.firsts|
      ensures FirstFits(lock, w', w'.firsts[k], w'.placed[k])
    {
      assert FirstFits(lock, w, w.firsts[k], w.placed[k]);
    }
    var b :| 0 <= b < w.head && w.log[..w.head][b] == w.log[w.head];
    assert RequestOf(lock, w.log[b]) in w.placed;
  }

  lemma SkipGiven(lock: YarnLock, w: Walk)
    requires PathsGiven(lock, w)
    ensures PathsGiven(lock, w.(head := w.head + 1))
  {
    forall k | 0 <= k < |w.paths|
      ensures GivenFits(lock, w.(head := w.head + 1), w.firsts[k], w.paths[k])
    {
      assert GivenFits(lock, w, w.firsts[k], w.paths[k]);
    }
  }

  lemma SkipKeeps(lock: YarnLock, w: Walk)
    requires Inv(lock, w) && w.head < |w.log| && w.log[w.head] in w.log[..w.head]
    ensures Inv(lock, w.(head := w.head + 1))
  {
    hide LogFits, NeedsQueued, PathsFit, AboveFirst, PlacedFits, TakenPlaced, PathsGiven, Run;
    TakeKeeps(lock, w, w.(head := w.head + 1));
    SkipPlaced(lock, w);
    SkipGiven(lock, w);
  }

  /** The walk with the item at the head taken and asked for. */
  function Asked(lock: YarnLock, w: Walk): Walk
    requires InBounds(lock, w) && w.head < |w.log|
  {
    w.(head := w.head + 1, firsts := w.firsts + [w.head], placed := w.placed + [RequestOf(lock, w.log[w.head])])
  }

  lemma AskedFits(lock: YarnLock, w: Walk)
    requires PlacedFits(lock, w) && InBounds(lock, w) && w.head < |w.log| && w.log[w.head] !in w.log[..w.head]
    ensures PlacedFits(lock, Asked(lock, w))
  {
    hide RequestOf;
    var w' := Asked(lock, w);
    forall k | 0 <= k < |w'.firsts|
      ensures FirstFits(lock, w', w'.firsts[k], w'.placed[k])
    {
      if k < |w.firsts| {
        assert FirstFits(lock, w, w.firsts[k], w.placed[k]);
      }
    }
    forall k, m | 0 <= k < m < |w'.firsts|
      ensures w'.firsts[k] < w'.firsts[m]
    {
      assert FirstFits(lock, w, w.firsts[k], w.placed[k]);
    }
  }

  /** With the item at the head asked for, the requests are disciplined. */
  lemma NextIsDisciplined(lock: YarnLock, w: Walk)
    requires WellFormed(lock) && Inv(lock, w) && w.head < |w.log| && w.log[w.head] !in w.log[..w.head]
    ensures Disciplined(Asked(lock, w).placed) && PlacedFits(lock, Asked(lock, w))
  {
    hide WellFormed, LogFits, NeedsQueued, PathsFit, AboveFirst, PathsGiven, PlacedFits, RequestOf, Run, Disciplined;
    AskedFits(lock, w);
    TakeKeeps(lock, w, Asked(lock, w));
    FirstsAreDisciplined(lock, Asked(lock, w));
  }

  /** A path given again is given for an entry with the same needs. */
  lemma SameNeedsAgain(lock: YarnLock, w: Walk, path: string, occupied: Occupied)
    requires WellFormed(lock) && PlacedFits(lock, w) && PathsGiven(lock, w) && InBounds(lock, w) && w.head < |w.log|
    requires path in w.at && EdgesHold(occupied, Asked(lock, w).placed, w.paths + [path])
    ensures w.at[path] == lock.entries[w.log[w.head].index].dependencies
  {
    hide EdgeHolds, CleanName, FoundByName;
    var k :| 0 <= k < |w.paths| && w.paths[k] == path;
    assert FirstFits(lock, w, w.firsts[k], w.placed[k]) && GivenFits(lock, w, w.firsts[k], w.paths[k]);
    var all, given := Asked(lock, w).placed, w.paths + [path];
    assert EdgeHolds(occupied, all[k], given[k]) && EdgeHolds(occupied, all[|w.placed|], given[|w.placed|]);
    SamePathSamePackage(occupied, w.placed[k], RequestOf(lock, w.log[w.head]), path);
  }

  /** What the placer's answer for the item at the head is. */
  lemma NextPath(lock: YarnLock, w: Walk)
    requires WellFormed(lock) && Inv(lock, w) && w.head < |w.log| && w.log[w.head] !in w.log[..w.head]
    ensures var (occupied, path) := PlaceIn(Run(w.placed).0, RequestOf(lock, w.log[w.head]));
            && Run(Asked(lock, w).placed) == (occupied, w.paths + [path])
            && (path in w.at ==> w.at[path] == lock.entries[w.log[w.head].index].dependencies)
            && path != "" && ROOT_PREFIX <= path
            && forall a :: a in Ancestors(path) ==> a == path || a in w.at
  {
    hide WellFormed, AboveFirst, NeedsQueued, Disciplined, PlaceIn, Run, EdgeHolds, CleanName, DirChain, LogFits, PathsFit;
    NextIsDisciplined(lock, w);
    var request := RequestOf(lock, w.log[w.head]);
    var placed := Asked(lock, w).placed;
    var (occupied, path) := PlaceIn(Run(w.placed).0, request);
    DisciplinedRunHolds(placed);
    RunStep(placed, |w.placed|);
    assert placed[..|w.placed|] == w.placed && placed[..|placed|] == placed;
    assert EdgesHold(Run(placed[..|placed|]).0, placed[..|placed|], Run(placed[..|placed|]).1);
    assert EdgeHolds(occupied, placed[|w.placed|], (w.paths + [path])[|w.placed|]);
    if path in w.at {
      SameNeedsAgain(lock, w, path, occupied);
    }
    NextPathFits(lock, w, occupied, path);
  }

  lemma NextPathFits(lock: YarnLock, w: Walk, occupied: Occupied, path: string)
    requires WellFormed(lock) && LogFits(lock, w) && PathsFit(lock, w) && InBounds(lock, w) && w.head < |w.log|
    requires EdgeHolds(occupied, RequestOf(lock, w.log[w.head]), path)
    ensures path != "" && ROOT_PREFIX <= path
    ensures forall a :: a in Ancestors(path) ==> a == path || a in w.at
  {
    hide EdgeHolds, CleanName, DirChain, Ancestors, FoundByName;
    var item := w.log[w.head];
    var request := RequestOf(lock, item);
    assert Known(w, item.dependent);
    var dir := EdgePlace(occupied, request, path);
    PlacedIsRooted(item.dependent, dir, request.name);
    forall a | a in Ancestors(path)
      ensures a == path || a in w.at
    {
      if a != path {
        AncestorsOfPlaced(item.dependent, dir, request.name, a);
        var x :| x in Ancestors(item.dependent) && a in Ancestors(x);
        assert x in w.at;
      }
    }
  }

  /** A path is added, or given again for the same needs. */
  ghost predicate Fresh(lock: YarnLock, w: Walk, path: string)
  {
    && InBounds(lock, w) && w.head < |w.log| && path != ""
    && (path in w.at ==> w.at[path] == lock.entries[w.log[w.head].index].dependencies)
  }

  /** Known dependents keep their needs, and the path gets those of the entry. */
  lemma NeedsStay(lock: YarnLock, w: Walk, path: string, p: string)
    requires Fresh(lock, w, path)
    ensures Known(w, p) ==> Known(Visited(lock, w, path), p) && NeedsOf(lock, Visited(lock, w, path), p) == NeedsOf(lock, w, p)
    ensures Known(Visited(lock, w, path), p) ==> Known(w, p) || p == path
    ensures Known(Visited(lock, w, path), path)
    ensures NeedsOf(lock, Visited(lock, w, path), path) == lock.entries[w.log[w.head].index].dependencies
  {
  }

  lemma VisitLog(lock: YarnLock, w: Walk, path: string)
    requires LogFits(lock, w) && Fresh(lock, w, path)
    ensures LogFits(lock, Visited(lock, w, path))
  {
    hide NeedsOf, Known, Items;
    var w' := Visited(lock, w, path);
    var batch := Items(lock.entries[w.log[w.head].index].dependencies, path);
    NeedsStay(lock, w, path, path);
    ItemsFit(lock.entries[w.log[w.head].index].dependencies, path);
    forall a | 0 <= a < |w'.log|
      ensures Known(w', w'.log[a].dependent) && w'.log[a].index in NeedsOf(lock, w', w'.log[a].dependent).Values
    {
      if a < |w.log| {
        NeedsStay(lock, w, path, w.log[a].dependent);
      } else {
        assert w'.log[a] == batch[a - |w.log|];
      }
    }
  }

  lemma VisitQueues(lock: YarnLock, w: Walk, path: string)
    requires NeedsQueued(lock, w) && Fresh(lock, w, path)
    ensures NeedsQueued(lock, Visited(lock, w, path))
  {
    hide NeedsOf, Known, Items, AllQueued;
    var w' := Visited(lock, w, path);
    forall p | Known(w', p)
      ensures AllQueued(lock, w', p, w'.log)
    {
      NeedsStay(lock, w, path, p);
      if Known(w, p) {
        QueuedStays(lock, w, w', p, |w'.log|);
        assert w'.log[..|w'.log|] == w'.log;
      } else {
        BatchQueued(lock, w, path);
      }
    }
  }

  lemma BatchQueued(lock: YarnLock, w: Walk, path: string)
    requires Fresh(lock, w, path)
    ensures AllQueued(lock, Visited(lock, w, path), path, Visited(lock, w, path).log)
  {
    hide Items, NeedsOf;
    ItemsFit(lock.entries[w.log[w.head].index].dependencies, path);
    NeedsStay(lock, w, path, path);
  }

  lemma VisitPaths(lock: YarnLock, w: Walk, path: string)
    requires WellFormed(lock) && PathsFit(lock, w) && Fresh(lock, w, path) && ROOT_PREFIX <= path
    requires forall a :: a in Ancestors(path) ==> a == path || a in w.at
    ensures PathsFit(lock, Visited(lock, w, path))
  {
    hide Ancestors, FoundByName;
  }

  lemma VisitAbove(lock: YarnLock, w: Walk, path: string)
    requires AboveFirst(lock, w) && NeedsQueued(lock, w) && Fresh(lock, w, path)
    requires forall a :: a in Ancestors(path) ==> a == path || a in w.at
    ensures AboveFirst(lock, Visited(lock, w, path))
  {
    hide NeedsOf, Ancestors, Items;
    var w' := Visited(lock, w, path);
    var batch := Items(lock.entries[w.log[w.head].index].dependencies, path);
    ItemsFit(lock.entries[w.log[w.head].index].dependencies, path);
    forall a, p {:trigger Below(w'.log[a].dependent, p)} | 0 <= a < |w'.log| && Below(w'.log[a].dependent, p)
      ensures Known(w', p) && AllQueued(lock, w', p, w'.log[..a])
    {
      NeedsStay(lock, w, path, p);
      if a < |w.log| {
        assert Below(w.log[a].dependent, p) && AllQueued(lock, w, p, w.log[..a]);
        assert w'.log[..a] == w.log[..a];
      } else {
        assert w'.log[a] == batch[a - |w.log|];
        assert Known(w, p) && AllQueued(lock, w, p, w.log);
        QueuedStays(lock, w, w', p, a);
      }
    }
  }

  lemma QueuedStays(lock: YarnLock, w: Walk, w': Walk, p: string, a: nat)
    requires AllQueued(lock, w, p, w.log) && w.log <= w'.log && |w.log| <= a <= |w'.log|
    requires NeedsOf(lock, w', p) == NeedsOf(lock, w, p)
    ensures AllQueued(lock, w', p, w'.log[..a])
  {
    hide NeedsOf;
    var needs := NeedsOf(lock, w, p);
    forall n | n in needs
      ensures Item(needs[n], p) in w'.log[..a]
    {
      assert w'.log[..|w.log|] == w.log;
      PrefixGrows(w'.log, Item(needs[n], p), |w.log|, a);
    }
  }

  lemma VisitGiven(lock: YarnLock, w: Walk, path: string)
    requires PathsGiven(lock, w) && Fresh(lock, w, path)
    ensures PathsGiven(lock, Visited(lock, w, path))
  {
    hide Items;
    var w' := Visited(lock, w, path);
    forall k | 0 <= k < |w'.paths|
      ensures GivenFits(lock, w', w'.firsts[k], w'.paths[k])
    {
      if k < |w.paths| {
        assert GivenFits(lock, w, w.firsts[k], w.paths[k]);
      }
    }
    forall p | p in w'.at
      ensures p in w'.paths
    {
      if p == path {
        assert w'.paths[|w.paths|] == path;
      } else {
        assert p in w.paths;
      }
    }
  }

  lemma VisitPlaced(lock: YarnLock, w: Walk, path: string)
    requires TakenPlaced(lock, w) && w.head < |w.log| && PlacedFits(lock, Asked(lock, w))
    requires InBounds(lock, Visited(lock, w, path))
    ensures PlacedFits(lock, Visited(lock, w, path)) && TakenPlaced(lock, Visited(lock, w, path))
  {
    hide Items, RequestOf;
    var (v, w') := (Asked(lock, w), Visited(lock, w, path));
    forall k | 0 <= k < |v.firsts|
      ensures FirstFits(lock, w', w'.firsts[k], w'.placed[k])
    {
      assert FirstFits(lock, v, v.firsts[k], v.placed[k]);
      assert w'.log[..v.firsts[k]] == v.log[..v.firsts[k]];
    }
    forall a | 0 <= a < w'.head
      ensures RequestOf(lock, w'.log[a]) in w'.placed
    {
      if a < w.head {
        assert RequestOf(lock, w.log[a]) in w.placed;
      } else {
        assert w'.placed[|w.placed|] == RequestOf(lock, w'.log[a]);
      }
    }
  }

  lemma IndicesFound(lock: YarnLock, needs: Needs)
    requires FoundByName(lock, needs)
    ensures forall d :: d in needs.Values ==> d < |lock.entries|
  {
    forall d | d in needs.Values
      ensures d < |lock.entries|
    {
      var n :| n in needs && needs[n] == d;
    }
  }

  lemma VisitInBounds(lock: YarnLock, w: Walk, path: string)
    requires WellFormed(lock) && InBounds(lock, w) && w.head < |w.log|
    ensures InBounds(lock, Visited(lock, w, path))
  {
    hide Items, CleanName, FoundByName;
    var needs := lock.entries[w.log[w.head].index].dependencies;
    ItemsFit(needs, path);
    IndicesFound(lock, needs);
  }

  lemma StepInBounds(lock: YarnLock, w: Walk)
    requires WellFormed(lock) && InBounds(lock, w) && w.head < |w.log|
    ensures InBounds(lock, Step(lock, w))
  {
    hide WellFormed, PlaceIn, Run, Visited;
    VisitInBounds(lock, w, PlaceIn(Run(w.placed).0, RequestOf(lock, w.log[w.head])).1);
  }

  lemma StartFits(lock: YarnLock)
    requires WellFormed(lock)
    ensures InBounds(lock, Start(lock)) && Inv(lock, Start(lock))
  {
    hide CleanName, Items, Run, FoundByName;
    ItemsFit(lock.roots, "");
    IndicesFound(lock, lock.roots);
    RunOfNone();
    NothingAbove(lock);
  }

  lemma NothingAbove(lock: YarnLock)
    ensures AboveFirst(lock, Start(lock))
  {
    hide Ancestors;
    ItemsFit(lock.roots, "");
  }

  lemma StepKeeps(lock: YarnLock, w: Walk)
    requires WellFormed(lock) && Inv(lock, w) && w.head < |w.log|
    ensures Inv(lock, Step(lock, w))
  {
    hide WellFormed, LogFits, NeedsQueued, PathsFit, AboveFirst, PlacedFits, PathsGiven, Run, PlaceIn, Disciplined, Ancestors, Visited, RequestOf;
    if w.log[w.head] in w.log[..w.head] {
      SkipKeeps(lock, w);
    } else {
      var path := PlaceIn(Run(w.placed).0, RequestOf(lock, w.log[w.head])).1;
      NextPath(lock, w);
      NextIsDisciplined(lock, w);
      VisitInBounds(lock, w, path);
      VisitLog(lock, w, path);
      VisitQueues(lock, w, path);
      VisitPaths(lock, w, path);
      VisitAbove(lock, w, path);
      VisitGiven(lock, w, path);
      VisitPlaced(lock, w, path);
      VisitedParts(lock, w, path);
    }
  }

  lemma VisitedParts(lock: YarnLock, w: Walk, path: string)
    requires InBounds(lock, w) && w.head < |w.log|
    ensures Visited(lock, w, path).placed == Asked(lock, w).placed && Visited(lock, w, path).paths == w.paths + [path]
  {
  }

  lemma {:induction false} WalkKeeps(lock: YarnLock, steps: nat)
    requires WellFormed(lock)
    ensures Inv(lock, WalkFor(lock, steps))
  {
    hide WellFormed, Inv, Step;
    if steps == 0 {
      StartFits(lock);
    } else {
      WalkKeeps(lock, steps - 1);
      if WalkFor(lock, steps - 1).head < |WalkFor(lock, steps - 1).log| {
        StepKeeps(lock, WalkFor(lock, steps - 1));
      }
    }
  }

  // ---------------------------------------------------------------- the results

  /** However long it runs, the walk asks in the order the placer needs, so every edge holds after every call. */
  lemma {:induction false} ImportHolds(lock: YarnLock, steps: nat)
    requires WellFormed(lock)
    ensures Disciplined(WalkFor(lock, steps).placed) && HoldsThroughout(WalkFor(lock, steps).placed)
  {
    hide WellFormed, LogFits, PathsFit, AboveFirst, PlacedFits, Disciplined, Run, WalkFor;
    WalkKeeps(lock, steps);
    FirstsAreDisciplined(lock, WalkFor(lock, steps));
    DisciplinedRunHolds(WalkFor(lock, steps).placed);
  }

  /** For each of the needs a request on behalf of `dependent` is among `placed`. */
  ghost predicate AskedFor(lock: YarnLock, placed: seq<Request>, dependent: string, needs: Needs)
    requires FoundByName(lock, needs)
  {
    forall name :: name in needs ==> Request(dependent, name, lock.entries[needs[name]].version) in placed
  }

  lemma KnownIsAsked(lock: YarnLock, w: Walk, p: string)
    requires Inv(lock, w) && w.head == |w.log| && Known(w, p) && FoundByName(lock, NeedsOf(lock, w, p))
    ensures AskedFor(lock, w.placed, p, NeedsOf(lock, w, p))
  {
    hide NeedsOf, LogFits, PathsFit, AboveFirst, PlacedFits, PathsGiven, Run;
    var needs := NeedsOf(lock, w, p);
    assert AllQueued(lock, w, p, w.log);
    forall name | name in needs
      ensures Request(p, name, lock.entries[needs[name]].version) in w.placed
    {
      var a :| 0 <= a < |w.log| && w.log[a] == Item(needs[name], p);
      assert RequestOf(lock, w.log[a]) in w.placed;
    }
  }

  /** Everything the root needs and everything any placed package needs was asked for on its behalf. */
  ghost predicate AsksForAll(lock: YarnLock, w: Walk)
    requires WellFormed(lock)
  {
    && AskedFor(lock, w.placed, "", lock.roots)
    && |w.paths| == |w.placed|
    && forall k, i: nat :: 0 <= k < |w.placed| && IsEntryFor(lock, i, w.placed[k].name, w.placed[k].version) ==>
         AskedFor(lock, w.placed, w.paths[k], lock.entries[i].dependencies)
  }

  /** Once the queue is empty nothing needed is missing. */
  lemma {:induction false} FinishedIsComplete(lock: YarnLock, steps: nat)
    requires WellFormed(lock)
    ensures var w := WalkFor(lock, steps);
            w.head == |w.log| ==> AsksForAll(lock, w)
  {
    hide Inv, WalkFor, NeedsOf, CleanName, FoundByName, AskedFor;
    WalkKeeps(lock, steps);
    var w := WalkFor(lock, steps);
    if w.head == |w.log| {
      NeedsAtRoot(lock, w);
      KnownIsAsked(lock, w, "");
      SameLength(lock, w);
      forall k, i: nat | 0 <= k < |w.placed| && IsEntryFor(lock, i, w.placed[k].name, w.placed[k].version)
        ensures AskedFor(lock, w.placed, w.paths[k], lock.entries[i].dependencies)
      {
        NeedsAtPath(lock, w, k, i);
        KnownIsAsked(lock, w, w.paths[k]);
      }
    }
  }

  lemma NeedsAtRoot(lock: YarnLock, w: Walk)
    ensures NeedsOf(lock, w, "") == lock.roots
  {
  }

  lemma SameLength(lock: YarnLock, w: Walk)
    requires Inv(lock, w)
    ensures |w.paths| == |w.placed| == |w.firsts|
  {
    hide LogFits, NeedsQueued, AboveFirst, PathsFit, TakenPlaced, Run, FirstFits, GivenFits;
  }

  lemma NeedsAtPath(lock: YarnLock, w: Walk, k: nat, i: nat)
    requires WellFormed(lock) && Inv(lock, w) && k < |w.placed| == |w.paths|
    requires IsEntryFor(lock, i, w.placed[k].name, w.placed[k].version)
    ensures Known(w, w.paths[k]) && NeedsOf(lock, w, w.paths[k]) == lock.entries[i].dependencies
  {
    hide LogFits, NeedsQueued, AboveFirst, TakenPlaced, Run, WellFormed, Ancestors, FoundByName;
    assert FirstFits(lock, w, w.firsts[k], w.placed[k]) && GivenFits(lock, w, w.firsts[k], w.paths[k]);
    SameNeeds(lock, i, w.log[w.firsts[k]].index);
  }

  lemma SameNeeds(lock: YarnLock, i: nat, j: nat)
    requires WellFormed(lock) && j < |lock.entries| && IsEntryFor(lock, i, lock.entries[j].name, lock.entries[j].version)
    ensures lock.entries[i].dependencies == lock.entries[j].dependencies
  {
    hide CleanName, FoundByName;
  }

  /** The request is a need of the root or of the package at a path given in this walk. */
  ghost predicate IsNeeded(lock: YarnLock, w: Walk, request: Request)
  {
    var needs := NeedsOf(lock, w, request.dependent);
    && (request.dependent == "" || request.dependent in w.paths)
    && request.name in needs && needs[request.name] < |lock.entries|
    && lock.entries[needs[request.name]].version == request.version
  }

  lemma {:induction false} NothingElseIsAsked(lock: YarnLock, steps: nat)
    requires WellFormed(lock)
    ensures var w := WalkFor(lock, steps); forall k :: 0 <= k < |w.placed| ==> IsNeeded(lock, w, w.placed[k])
  {
    hide WalkFor, Inv, IsNeeded, WellFormed;
    WalkKeeps(lock, steps);
    var w := WalkFor(lock, steps);
    forall k | 0 <= k < |w.placed|
      ensures IsNeeded(lock, w, w.placed[k])
    {
      PlacedIsNeeded(lock, w, k);
    }
  }

  lemma PlacedIsNeeded(lock: YarnLock, w: Walk, k: nat)
    requires WellFormed(lock) && Inv(lock, w) && k < |w.placed|
    ensures IsNeeded(lock, w, w.placed[k])
  {
    hide NeedsOf, CleanName, WellFormed, Ancestors, Run, AboveFirst, NeedsQueued, PathsFit;
    var (a, needs) := (w.firsts[k], NeedsOf(lock, w, w.placed[k].dependent));
    assert FirstFits(lock, w, a, w.placed[k]);
    NeedsFound(lock, w, w.placed[k].dependent);
    var n :| n in needs && needs[n] == w.log[a].index;
  }

  // ---------------------------------------------------------------- the importer

  /** The items of one map, pushed one by one. */
  method QueueNeeds(needs: Needs, dependent: string) returns (batch: seq<Item>)
    ensures batch == Items(needs, dependent)
  {
    batch := [];
    var names := Sorted(needs.Keys);
    for i := 0 to |names|
      invariant batch == Items(needs, dependent)[..i]
    {
      assert names[i] in needs.Keys;
      batch := batch + [Item(needs[names[i]], dependent)];
    }
  }

  /** The queue and the visited set stand for the log and the head. */
  ghost predicate Mirrors(w: Walk, queue: seq<Item>, visited: set<Item>)
  {
    w.head <= |w.log| && queue == w.log[w.head..] && forall item :: item in visited <==> item in w.log[..w.head]
  }

  lemma MirrorsTaken(w: Walk, w': Walk, queue: seq<Item>, visited: set<Item>, batch: seq<Item>)
    requires Mirrors(w, queue, visited) && queue != [] && w'.log == w.log + batch && w'.head == w.head + 1
    ensures Mirrors(w', queue[1..] + batch, visited + {queue[0]})
  {
    assert w'.log[..w'.head] == w.log[..w.head] + [queue[0]];
  }

  /** The state after a turn, in the parts the importer keeps. */
  lemma StepParts(lock: YarnLock, w: Walk)
    requires InBounds(lock, w) && w.head < |w.log|
    ensures var (item, w') := (w.log[w.head], Step(lock, w));
            && w'.head == w.head + 1
            && (item in w.log[..w.head] ==> w' == w.(head := w.head + 1))
            && (item !in w.log[..w.head] ==>
                  var path := PlaceIn(Run(w.placed).0, RequestOf(lock, item)).1;
                  && w'.placed == Asked(lock, w).placed && w'.paths == w.paths + [path]
                  && w'.log == w.log + Items(lock.entries[item.index].dependencies, path))
  {
    hide PlaceIn, Run, Items;
  }

  /** The importer's state stands for the walk. */
  ghost predicate Follows(
    w: Walk, occupied: Occupied, queue: seq<Item>, visited: set<Item>, placed: seq<Request>, paths: seq<string>)
  {
    Mirrors(w, queue, visited) && (placed, paths) == (w.placed, w.paths) && (occupied, paths) == Run(placed)
  }

  /** One turn of the loop: the item at the head of the queue. */
  method TakeHead(
    lock: YarnLock, placer: Placer, queue: seq<Item>, visited: set<Item>, placed: seq<Request>, paths: seq<string>, ghost w: Walk)
    returns (queue': seq<Item>, visited': set<Item>, placed': seq<Request>, paths': seq<string>)
    requires WellFormed(lock) && Inv(lock, w) && InBounds(lock, w) && queue != []
    requires Follows(w, placer.occupied, queue, visited, placed, paths)
    modifies placer
    ensures w.head < |w.log| && Follows(Step(lock, w), placer.occupied, queue', visited', placed', paths')
  {
    hide Run, PlaceIn, WellFormed, Inv, Items, Mirrors, Disciplined, Ancestors, Step;
    HeadMirrored(w, queue, visited);
    StepParts(lock, w);
    var item := queue[0];
    var batch := [];
    placed', paths' := placed, paths;
    if item !in visited {
      NextPath(lock, w);
      var entry := lock.entries[item.index];
      var path := placer.Place(entry.name, entry.version, item.dependent);
      batch := QueueNeeds(entry.dependencies, path);
      placed', paths' := placed + [Request(item.dependent, entry.name, entry.version)], paths + [path];
    }
    MirrorsTaken(w, Step(lock, w), queue, visited, batch);
    queue' := queue[1..] + batch;
    visited' := visited + {item};
  }

  /** The importer's loop for at most `steps` turns: the requests made, their paths, and whether the queue ran dry. */
  method ImportYarn(lock: YarnLock, steps: nat) returns (placed: seq<Request>, paths: seq<string>, finished: bool)
    requires WellFormed(lock)
    ensures var w := WalkFor(lock, steps); placed == w.placed && paths == w.paths && finished == (w.head == |w.log|)
  {
    hide Run, WellFormed, Inv, Items, Mirrors, Step;
    var placer := new Placer();
    var queue := QueueNeeds(lock.roots, "");
    var visited: set<Item> := {};
    placed, paths := [], [];
    RunOfNone();
    MirrorsStart(lock);
    for i := 0 to steps
      invariant Follows(WalkFor(lock, i), placer.occupied, queue, visited, placed, paths)
    {
      QueueLength(WalkFor(lock, i), queue, visited);
      if queue != [] {
        WalkKeeps(lock, i);
        queue, visited, placed, paths := TakeHead(lock, placer, queue, visited, placed, paths, WalkFor(lock, i));
      }
    }
    QueueLength(WalkFor(lock, steps), queue, visited);
    finished := queue == [];
  }

  lemma HeadMirrored(w: Walk, queue: seq<Item>, visited: set<Item>)
    requires Mirrors(w, queue, visited) && queue != []
    ensures w.head < |w.log| && queue[0] == w.log[w.head] && (queue[0] in visited <==> w.log[w.head] in w.log[..w.head])
  {
  }

  lemma MirrorsStart(lock: YarnLock)
    ensures Mirrors(Start(lock), Items(lock.roots, ""), {})
  {
  }

  lemma QueueLength(w: Walk, queue: seq<Item>, visited: set<Item>)
    requires Mirrors(w, queue, visited)
    ensures w.head <= |w.log| && |queue| == |w.log| - w.head
  {
  }

  lemma RunOfNone()
    ensures Run([]) == (map[], [])
  {
  }
}
