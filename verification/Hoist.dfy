/**
 The shared hoisting placer (src/hoist.rs): where yarn and pnpm imports physically put a package,
 and the promise that every dependency edge resolves to its exact version.
 */
module Hoist {
  import opened Options
  import opened NodePaths

  const ROOT_DIR := "node_modules"

  /** `None` for a root-level package and for anything outside `node_modules`. */
  function ParentPackage(path: string): (r: Option<string>)
    ensures r.Some? ==> |r.value| < |path|
  {
    if !(ROOT_PREFIX <= path) then None
    else
      match RFind(path, SEPARATOR)
      case None => None
      case Some(at) => Some(path[..at])
  }

  function OwnDir(package: string): string
  {
    package + "/node_modules"
  }

  /** The package and the packages it is nested under, innermost first. */
  function Ancestors(package: string): (r: seq<string>)
    ensures |r| > 0 && r[0] == package
    decreases |package|
  {
    match ParentPackage(package)
    case None => [package]
    case Some(parent) => [package] + Ancestors(parent)
  }

  function OwnDirs(packages: seq<string>): (r: seq<string>)
    ensures |r| == |packages| && forall i :: 0 <= i < |r| ==> r[i] == OwnDir(packages[i])
  {
    seq(|packages|, i requires 0 <= i < |packages| => OwnDir(packages[i]))
  }

  /** The `node_modules` directories a dependent looks through, nearest first. */
  function DirChain(dependent: string): (r: seq<string>)
    ensures |r| > 0 && r[|r| - 1] == ROOT_DIR
  {
    (if dependent == "" then [] else OwnDirs(Ancestors(dependent))) + [ROOT_DIR]
  }

  /** directory -> (name -> version) */
  type Occupied = map<string, map<string, string>>

  predicate Holds(occupied: Occupied, dir: string, name: string)
  {
    dir in occupied && name in occupied[dir]
  }

  /** Index of the first directory holding any version of `name`, or the chain's length. */
  function FirstHolding(occupied: Occupied, chain: seq<string>, name: string): (i: nat)
    ensures i <= |chain| && (i < |chain| ==> Holds(occupied, chain[i], name))
    ensures forall j :: 0 <= j < i ==> !Holds(occupied, chain[j], name)
  {
    if chain == [] then 0
    else if Holds(occupied, chain[0], name) then 0
    else 1 + FirstHolding(occupied, chain[1..], name)
  }

  function Claim(occupied: Occupied, dir: string, name: string, version: string): Occupied
  {
    occupied[dir := (if dir in occupied then occupied[dir] else map[])[name := version]]
  }

  function PackageIn(dir: string, name: string): string
  {
    dir + "/" + name
  }

  datatype Request = Request(dependent: string, name: string, version: string)

  /** One `place` call: the new occupancy and the package's path. */
  function PlaceIn(occupied: Occupied, request: Request): (Occupied, string)
  {
    var chain := DirChain(request.dependent);
    var i := FirstHolding(occupied, chain, request.name);
    if i < |chain| && occupied[chain[i]][request.name] == request.version then
      (occupied, PackageIn(chain[i], request.name))
    else
      var target := if i < |chain| then chain[0] else ROOT_DIR;
      (Claim(occupied, target, request.name, request.version), PackageIn(target, request.name))
  }

  method BuildChain(dependent: string) returns (chain: seq<string>)
    ensures chain == DirChain(dependent)
  {
    chain := [];
    if dependent == "" {
      chain := chain + [ROOT_DIR];
    } else {
      var current := Some(dependent);
      while current.Some?
        invariant OwnDirs(Ancestors(dependent)) == chain + (if current.Some? then OwnDirs(Ancestors(current.value)) else [])
        decreases if current.Some? then |current.value| + 1 else 0
      {
        chain := chain + [OwnDir(current.value)];
        current := ParentPackage(current.value);
      }
      chain := chain + [ROOT_DIR];
    }
  }

  class Placer {
    var occupied: Occupied

    constructor ()
      ensures occupied == map[]
    {
      occupied := map[];
    }

    method Place(name: string, version: string, dependent: string) returns (path: string)
      modifies this
      ensures (occupied, path) == PlaceIn(old(occupied), Request(dependent, name, version))
    {
      hide DirChain;
      var chain := BuildChain(dependent);
      var root, own := chain[|chain| - 1], chain[0];
      var rootFree := true;
      ghost var first := FirstHolding(occupied, chain, name);
      for i := 0 to |chain|
        invariant rootFree && i <= first && occupied == old(occupied)
      {
        if Holds(occupied, chain[i], name) {
          if occupied[chain[i]][name] == version {
            return PackageIn(chain[i], name);
          }
          rootFree := false;
          break;
        }
      }
      var target := if rootFree then root else own;
      occupied := Claim(occupied, target, name, version);
      path := PackageIn(target, name);
    }
  }

  // ---------------------------------------------------------------- runs and edges

  /** What Node resolves: the nearest copy of the name on the dependent's chain. */
  function ResolveEdge(occupied: Occupied, dependent: string, name: string): Option<(string, string)>
  {
    var chain := DirChain(dependent);
    var i := FirstHolding(occupied, chain, name);
    if i < |chain| then Some((PackageIn(chain[i], name), occupied[chain[i]][name])) else None
  }

  /** The edge still leads to the version it asked for, at the path it was given. */
  predicate EdgeHolds(occupied: Occupied, request: Request, path: string)
  {
    ResolveEdge(occupied, request.dependent, request.name) == Some((path, request.version))
  }

  /** A fresh placer run over the requests in order: final occupancy and the returned paths. */
  function Run(requests: seq<Request>): (r: (Occupied, seq<string>))
    ensures |r.1| == |requests|
  {
    if requests == [] then (map[], [])
    else
      var last := |requests| - 1;
      var (occupied, paths) := Run(requests[..last]);
      var (occupied', path) := PlaceIn(occupied, requests[last]);
      (occupied', paths + [path])
  }

  method RunPlacer(requests: seq<Request>) returns (paths: seq<string>)
    ensures paths == Run(requests).1
  {
    var placer := new Placer();
    paths := [];
    for i := 0 to |requests|
      invariant (placer.occupied, paths) == Run(requests[..i])
    {
      var path := placer.Place(requests[i].name, requests[i].version, requests[i].dependent);
      assert requests[..i + 1][..i] == requests[..i];
      paths := paths + [path];
    }
    assert requests[..|requests|] == requests;
  }

  predicate EdgesHold(occupied: Occupied, requests: seq<Request>, paths: seq<string>)
    requires |paths| == |requests|
  {
    forall i :: 0 <= i < |requests| ==> EdgeHolds(occupied, requests[i], paths[i])
  }

  /** Another version of the name is what the dependent sees now. */
  predicate Blocked(occupied: Occupied, request: Request)
  {
    var chain := DirChain(request.dependent);
    var i := FirstHolding(occupied, chain, request.name);
    i < |chain| && occupied[chain[i]][request.name] != request.version
  }

  /** The edge looks through `dir` before or when it finds its copy. */
  predicate LooksThrough(occupied: Occupied, edge: Request, dir: string)
  {
    var chain := DirChain(edge.dependent);
    exists j :: 0 <= j <= FirstHolding(occupied, chain, edge.name) && j < |chain| && chain[j] == dir
  }

  /** The guard of the failing branch: an own-directory claim in the way of an edge already placed. */
  predicate Shadows(occupied: Occupied, placed: seq<Request>, request: Request)
  {
    && Blocked(occupied, request)
    && exists i :: 0 <= i < |placed| && placed[i].name == request.name &&
         LooksThrough(occupied, placed[i], DirChain(request.dependent)[0])
  }

  // ---------------------------------------------------------------- chains

  lemma {:induction false} AncestorsShrink(package: string, i: nat, j: nat)
    requires i < j < |Ancestors(package)|
    ensures |Ancestors(package)[j]| < |Ancestors(package)[i]|
    decreases |package|
  {
    var parent := ParentPackage(package).value;
    assert Ancestors(package)[1..] == Ancestors(parent);
    if i > 0 {
      AncestorsShrink(parent, i - 1, j - 1);
    } else if j > 1 {
      AncestorsShrink(parent, 0, j - 1);
    }
  }

  lemma OwnDirInjective(a: string, b: string)
    requires OwnDir(a) == OwnDir(b)
    ensures a == b
  {
    assert OwnDir(a)[..|a|] == a && OwnDir(b)[..|b|] == b;
  }

  /** No directory occurs twice on a chain. */
  lemma ChainDistinct(dependent: string, i: nat, j: nat)
    requires i < j < |DirChain(dependent)|
    ensures DirChain(dependent)[i] != DirChain(dependent)[j]
  {
    var chain := DirChain(dependent);
    var packages := Ancestors(dependent);
    if j < |packages| {
      AncestorsShrink(dependent, i, j);
    } else {
      assert |chain[i]| == |packages[i]| + 13;
    }
  }

  lemma FirstHoldingIs(occupied: Occupied, chain: seq<string>, name: string, i: nat)
    requires i < |chain| && Holds(occupied, chain[i], name)
    requires forall j :: 0 <= j < i ==> !Holds(occupied, chain[j], name)
    ensures FirstHolding(occupied, chain, name) == i
  {
  }

  lemma PackageInInjective(a: string, b: string, name: string)
    ensures PackageIn(a, name) == PackageIn(b, name) <==> a == b
  {
    assert PackageIn(a, name)[..|a|] == a && PackageIn(b, name)[..|b|] == b;
  }

  // ---------------------------------------------------------------- exactly when a call keeps every edge

  lemma ClaimAddsOne(occupied: Occupied, dir: string, name: string, version: string, d: string, n: string)
    ensures var after := Claim(occupied, dir, name, version);
            && (Holds(after, d, n) <==> Holds(occupied, d, n) || (d == dir && n == name))
            && (Holds(after, d, n) ==> after[d][n] == if d == dir && n == name then version else occupied[d][n])
  {
  }

  /** A claim the edge does not look through leaves the edge alone. */
  lemma ClaimElsewhere(occupied: Occupied, dir: string, name: string, version: string, edge: Request, path: string)
    requires EdgeHolds(occupied, edge, path)
    requires edge.name == name ==> !LooksThrough(occupied, edge, dir)
    ensures EdgeHolds(Claim(occupied, dir, name, version), edge, path)
  {
    var chain := DirChain(edge.dependent);
    var i := FirstHolding(occupied, chain, edge.name);
    var after := Claim(occupied, dir, name, version);
    forall j | 0 <= j <= i
      ensures Holds(after, chain[j], edge.name) <==> Holds(occupied, chain[j], edge.name)
      ensures j == i ==> after[chain[j]][edge.name] == occupied[chain[j]][edge.name]
    {
      ClaimAddsOne(occupied, dir, name, version, chain[j], edge.name);
    }
    FirstHoldingIs(after, chain, edge.name, i);
  }

  /** A claim of another version in a directory the edge looks through breaks the edge. */
  lemma ClaimInTheWay(occupied: Occupied, request: Request, edge: Request, path: string)
    requires EdgeHolds(occupied, edge, path) && Blocked(occupied, request)
    requires edge.name == request.name && LooksThrough(occupied, edge, DirChain(request.dependent)[0])
    ensures !EdgeHolds(PlaceIn(occupied, request).0, edge, path)
  {
    var dir := DirChain(request.dependent)[0];
    var chain := DirChain(edge.dependent);
    var i := FirstHolding(occupied, chain, edge.name);
    var j :| 0 <= j <= i && j < |chain| && chain[j] == dir;
    var after := PlaceIn(occupied, request).0;
    forall k | 0 <= k < j
      ensures !Holds(after, chain[k], edge.name)
    {
      ChainDistinct(edge.dependent, k, j);
      ClaimAddsOne(occupied, dir, request.name, request.version, chain[k], edge.name);
    }
    ClaimAddsOne(occupied, dir, request.name, request.version, dir, edge.name);
    FirstHoldingIs(after, chain, edge.name, j);
    if j < i {
      ChainDistinct(edge.dependent, j, i);
      PackageInInjective(chain[j], chain[i], edge.name);
    } else {
      FirstHoldingIs(occupied, DirChain(request.dependent), request.name, 0);
    }
  }

  /** The edge just placed holds, whichever branch placed it. */
  lemma NewEdgeHolds(occupied: Occupied, request: Request)
    ensures EdgeHolds(PlaceIn(occupied, request).0, request, PlaceIn(occupied, request).1)
  {
    var chain := DirChain(request.dependent);
    var i := FirstHolding(occupied, chain, request.name);
    var after := PlaceIn(occupied, request).0;
    if i == |chain| {
      forall j | 0 <= j < |chain|
        ensures Holds(after, chain[j], request.name) <==> j == |chain| - 1
      {
        if j < |chain| - 1 {
          ChainDistinct(request.dependent, j, |chain| - 1);
        }
        ClaimAddsOne(occupied, ROOT_DIR, request.name, request.version, chain[j], request.name);
      }
      FirstHoldingIs(after, chain, request.name, |chain| - 1);
    } else if occupied[chain[i]][request.name] != request.version {
      ClaimAddsOne(occupied, chain[0], request.name, request.version, chain[0], request.name);
      FirstHoldingIs(after, chain, request.name, 0);
    }
  }

  /** While the root does not hold the name, no edge for it looks as far as the root. */
  lemma RootNotReached(occupied: Occupied, edge: Request, path: string)
    requires EdgeHolds(occupied, edge, path) && !Holds(occupied, ROOT_DIR, edge.name)
    ensures !LooksThrough(occupied, edge, ROOT_DIR)
  {
    var chain := DirChain(edge.dependent);
    var last := |chain| - 1;
    forall j | 0 <= j <= FirstHolding(occupied, chain, edge.name)
      ensures chain[j] != ROOT_DIR
    {
      assert chain[last] == ROOT_DIR;
      ChainDistinct(edge.dependent, j, last);
    }
  }

  lemma OldEdgeHolds(occupied: Occupied, placed: seq<Request>, request: Request, edge: Request, path: string)
    requires edge in placed && EdgeHolds(occupied, edge, path) && !Shadows(occupied, placed, request)
    ensures EdgeHolds(PlaceIn(occupied, request).0, edge, path)
  {
    var chain := DirChain(request.dependent);
    var i := FirstHolding(occupied, chain, request.name);
    if i == |chain| {
      assert chain[|chain| - 1] == ROOT_DIR;
      if edge.name == request.name {
        RootNotReached(occupied, edge, path);
      }
      ClaimElsewhere(occupied, ROOT_DIR, request.name, request.version, edge, path);
    } else if occupied[chain[i]][request.name] != request.version {
      var k :| 0 <= k < |placed| && placed[k] == edge;
      ClaimElsewhere(occupied, chain[0], request.name, request.version, edge, path);
    }
  }

  /** One call keeps every edge, old and new, exactly when it does not shadow an old one. */
  lemma PlaceKeepsEdgesIff(occupied: Occupied, placed: seq<Request>, paths: seq<string>, request: Request)
    requires |paths| == |placed| && EdgesHold(occupied, placed, paths)
    ensures var (after, path) := PlaceIn(occupied, request);
            EdgesHold(after, placed + [request], paths + [path]) <==> !Shadows(occupied, placed, request)
  {
    var (after, path) := PlaceIn(occupied, request);
    var requests', paths' := placed + [request], paths + [path];
    if Shadows(occupied, placed, request) {
      var i :| 0 <= i < |placed| && placed[i].name == request.name &&
        LooksThrough(occupied, placed[i], DirChain(request.dependent)[0]);
      ClaimInTheWay(occupied, request, placed[i], paths[i]);
      assert requests'[i] == placed[i] && paths'[i] == paths[i];
    } else {
      NewEdgeHolds(occupied, request);
      forall i | 0 <= i < |requests'|
        ensures EdgeHolds(after, requests'[i], paths'[i])
      {
        if i < |placed| {
          OldEdgeHolds(occupied, placed, request, placed[i], paths[i]);
        }
      }
    }
  }

  /** After every call of the run, every edge placed so far holds. */
  ghost predicate HoldsThroughout(requests: seq<Request>)
  {
    forall k :: 0 <= k <= |requests| ==> EdgesHold(Run(requests[..k]).0, requests[..k], Run(requests[..k]).1)
  }

  ghost predicate NeverShadows(requests: seq<Request>)
  {
    forall k :: 0 <= k < |requests| ==> !Shadows(Run(requests[..k]).0, requests[..k], requests[k])
  }

  lemma RunStep(requests: seq<Request>, k: nat)
    requires k < |requests|
    ensures var (occupied, paths) := Run(requests[..k]);
            var (occupied', path) := PlaceIn(occupied, requests[k]);
            requests[..k + 1] == requests[..k] + [requests[k]] && Run(requests[..k + 1]) == (occupied', paths + [path])
  {
    assert requests[..k + 1][..k] == requests[..k];
  }

  /** All edges hold after every call exactly when no call of the run shadows one. */
  lemma {:induction false} RunKeepsEdgesIff(requests: seq<Request>)
    ensures HoldsThroughout(requests) <==> NeverShadows(requests)
  {
    hide Run, PlaceIn, Shadows, EdgeHolds;
    if NeverShadows(requests) {
      assert requests[..0] == [];
      for k := 0 to |requests|
        invariant forall m :: 0 <= m <= k ==> EdgesHold(Run(requests[..m]).0, requests[..m], Run(requests[..m]).1)
      {
        RunStep(requests, k);
        PlaceKeepsEdgesIff(Run(requests[..k]).0, requests[..k], Run(requests[..k]).1, requests[k]);
      }
    }
    if HoldsThroughout(requests) {
      forall k | 0 <= k < |requests|
        ensures !Shadows(Run(requests[..k]).0, requests[..k], requests[k])
      {
        RunStep(requests, k);
        assert EdgesHold(Run(requests[..k + 1]).0, requests[..k + 1], Run(requests[..k + 1]).1);
        PlaceKeepsEdgesIff(Run(requests[..k]).0, requests[..k], Run(requests[..k]).1, requests[k]);
      }
    }
  }

  // ---------------------------------------------------------------- the order discipline

  predicate Below(package: string, ancestor: string)
  {
    package != ancestor && package != "" && (ancestor == "" || ancestor in Ancestors(package))
  }

  /**
   Each dependent asks for a name at one version, and asks for everything it needs before
   anything below it asks; asking again for something already placed is allowed.
   */
  predicate Disciplined(requests: seq<Request>)
  {
    forall i, j :: 0 <= i < j < |requests| ==>
      && (requests[i].dependent == requests[j].dependent && requests[i].name == requests[j].name ==>
            requests[i].version == requests[j].version)
      && (Below(requests[i].dependent, requests[j].dependent) ==> requests[j] in requests[..j])
  }

  lemma OwnDirOnChain(dependent: string, package: string)
    ensures DirChain(package)[0] in DirChain(dependent) ==> dependent == package || Below(dependent, package)
  {
    var chain := DirChain(dependent);
    if package != "" && DirChain(package)[0] in chain {
      var dir := DirChain(package)[0];
      assert dir == OwnDir(package) && |dir| > |ROOT_DIR|;
      var i :| 0 <= i < |chain| && chain[i] == dir;
      OwnDirInjective(Ancestors(dependent)[i], package);
    }
  }

  lemma DisciplinedStep(requests: seq<Request>, k: nat)
    requires Disciplined(requests) && k < |requests|
    requires EdgesHold(Run(requests[..k]).0, requests[..k], Run(requests[..k]).1)
    ensures !Shadows(Run(requests[..k]).0, requests[..k], requests[k])
  {
    hide Run, EdgeHolds, Blocked;
    var occupied := Run(requests[..k]).0;
    var request := requests[k];
    if request in requests[..k] {
      var m :| 0 <= m < k && requests[..k][m] == request;
      RepeatNotBlocked(occupied, request, Run(requests[..k]).1[m]);
    } else {
      forall i | 0 <= i < k && requests[..k][i].name == request.name
        ensures !LooksThrough(occupied, requests[..k][i], DirChain(request.dependent)[0])
      {
        assert requests[..k][i] == requests[i] && requests[i] in requests[..k];
        OwnDirOnChain(requests[i].dependent, request.dependent);
      }
    }
  }

  /** Asking again for what already resolves is shared, not placed. */
  lemma RepeatNotBlocked(occupied: Occupied, request: Request, path: string)
    requires EdgeHolds(occupied, request, path)
    ensures !Blocked(occupied, request)
  {
  }

  /**
   In every disciplined run, after every call, every edge placed so far resolves to the version
   it asked for at the path it was given.
   */
  lemma DisciplinedRunHolds(requests: seq<Request>)
    requires Disciplined(requests)
    ensures HoldsThroughout(requests)
  {
    hide Run, PlaceIn, Shadows, EdgeHolds, Disciplined;
    assert requests[..0] == [];
    for k := 0 to |requests|
      invariant forall m :: 0 <= m <= k ==> EdgesHold(Run(requests[..m]).0, requests[..m], Run(requests[..m]).1)
    {
      RunStep(requests, k);
      DisciplinedStep(requests, k);
      PlaceKeepsEdgesIff(Run(requests[..k]).0, requests[..k], Run(requests[..k]).1, requests[k]);
    }
  }

  /** The parent of a package placed in its dependent's own directory is that dependent. */
  lemma PlacedParent(dependent: string, name: string)
    requires ROOT_PREFIX <= dependent && CleanName(name)
    ensures ParentPackage(PackageIn(OwnDir(dependent), name)) == Some(dependent)
  {
    var path := PackageIn(OwnDir(dependent), name);
    assert path == dependent + SEPARATOR + name;
    SplitChild(dependent, name);
    assert path[..|ROOT_PREFIX|] == dependent[..|ROOT_PREFIX|];
  }

  /**
   The discipline is needed: a deep dependent first shares the root copy of `a`, then the package
   it is nested under asks for another version and its own claim shadows the shared copy.
   */
  lemma UndisciplinedRunBreaks()
    ensures var b, c := "node_modules/b", "node_modules/b/node_modules/c";
            !HoldsThroughout([Request(c, "a", "1"), Request(b, "a", "2")])
  {
    hide DirChain, RFind, Run, Shadows;
    var b, c := "node_modules/b", "node_modules/b/node_modules/c";
    var first, second := Request(c, "a", "1"), Request(b, "a", "2");
    var requests := [first, second];
    ExampleChains();
    SharedThenShadowed(requests, first, second);
    assert requests[..1] == [first];
    RunKeepsEdgesIff(requests);
  }

  lemma RootHasNoParent(name: string)
    requires CleanName(name)
    ensures ParentPackage(ROOT_PREFIX + name) == None
  {
    hide RFind, CleanName;
    SplitRoot(name);
  }

  lemma ExampleChains()
    ensures DirChain("node_modules/b") == [OwnDir("node_modules/b"), ROOT_DIR]
    ensures DirChain("node_modules/b/node_modules/c") ==
            [OwnDir("node_modules/b/node_modules/c"), OwnDir("node_modules/b"), ROOT_DIR]
  {
    hide ParentPackage, RFind;
    var b, c := "node_modules/b", "node_modules/b/node_modules/c";
    assert PackageIn(OwnDir(b), "c") == c;
    PlacedParent(b, "c");
    assert ROOT_PREFIX + "b" == b;
    RootHasNoParent("b");
    assert Ancestors(b) == [b] && Ancestors(c) == [c, b];
  }

  /** The two calls of that run, on the chains they see. */
  lemma SharedThenShadowed(requests: seq<Request>, first: Request, second: Request)
    requires requests == [first, second] && first.name == second.name && first.version != second.version
    requires |DirChain(second.dependent)| == 2 && |DirChain(first.dependent)| == 3
    requires DirChain(first.dependent)[1] == DirChain(second.dependent)[0]
    ensures Shadows(Run(requests[..1]).0, requests[..1], second)
  {
    var name := first.name;
    assert requests[..1] == [first] && [first][..0] == [];
    assert Run([]) == (map[], []);
    var near, far := DirChain(second.dependent), DirChain(first.dependent);
    FirstHoldingNone(map[], far, name);
    var occupied := Run(requests[..1]).0;
    assert occupied == Claim(map[], ROOT_DIR, name, first.version);
    ChainDistinct(first.dependent, 0, 2);
    ChainDistinct(first.dependent, 1, 2);
    FirstHoldingIs(occupied, far, name, 2);
    FirstHoldingIs(occupied, near, name, 1);
    assert far[1] == near[0];
    assert LooksThrough(occupied, requests[..1][0], near[0]);
  }

  lemma {:induction false} FirstHoldingNone(occupied: Occupied, chain: seq<string>, name: string)
    requires forall j :: 0 <= j < |chain| ==> !Holds(occupied, chain[j], name)
    ensures FirstHolding(occupied, chain, name) == |chain|
  {
    if chain != [] {
      FirstHoldingNone(occupied, chain[1..], name);
    }
  }
}
