/**
 `package_closure_digest` (src/graph.rs): the memoised depth-first walk whose digest is the
 `dependency_graph` input of a derived-artifact key.

 BLAKE3 is a free constructor here: `Node` is the hash of one package frame and `Cycle` the hash of
 one back-edge marker. `ClosureBytes` says what that means for 32-byte hashes.
 */
module ClosureDigest {
  import opened Options
  import opened Ordering
  import opened LockTypes

  // ---------------------------------------------------------------- the lockfile

  /** What a package contributes about itself; an absent integrity hashes like an empty one. */
  datatype Identity = Unknown | Known(version: string, resolved: string, integrity: string)

  /** Collecting `(path, entry)` pairs into a hash map keeps the last entry of a path. */
  function PackageIndex(packages: seq<PackageEntry>): map<string, PackageEntry>
  {
    if packages == [] then map[]
    else
      var last := packages[|packages| - 1];
      PackageIndex(packages[..|packages| - 1])[last.path := last]
  }

  function IdentityIn(lock: Lock, path: string): Identity
  {
    var index := PackageIndex(lock.packages);
    if path !in index then Unknown
    else
      var entry := index[path];
      Known(entry.version, entry.resolved, if entry.integrity.Some? then entry.integrity.value else "")
  }

  function TargetPaths(dependencies: TargetMap): set<string>
  {
    set name | name in dependencies :: dependencies[name].target
  }

  /** The target paths of all three dependency groups. */
  function Targets(lock: Lock, path: string): set<string>
  {
    if path !in lock.resolution.packages then {}
    else
      var r := lock.resolution.packages[path];
      TargetPaths(r.dependencies) + TargetPaths(r.optionalDependencies) + TargetPaths(r.peerDependencies)
  }

  /** The facts the walk reads: each package's identity and its targets in iteration order. */
  datatype Graph = Graph(identities: map<string, Identity>, children: map<string, seq<string>>)

  function GraphOf(lock: Lock): Graph
  {
    Graph(map p | p in PackageIndex(lock.packages) :: IdentityIn(lock, p),
          map p | p in lock.resolution.packages :: Sorted(Targets(lock, p)))
  }

  function IdentityOf(graph: Graph, path: string): Identity
  {
    if path in graph.identities then graph.identities[path] else Unknown
  }

  function Children(graph: Graph, path: string): seq<string>
  {
    if path in graph.children then graph.children[path] else []
  }

  // ---------------------------------------------------------------- the digest and the walk

  datatype Digest = Node(path: string, identity: Identity, children: seq<Digest>) | Cycle(path: string)

  type Memo = map<string, Digest>

  /** The walk as a function: the digest of `path` and the memo it leaves behind. */
  function Walk(graph: Graph, path: string, memo: Memo, stack: set<string>): (Digest, Memo)
    decreases |graph.children.Keys - stack|, 0, 1
    requires path !in stack
  {
    if path in memo then (memo[path], memo)
    else
      StackGrows(graph, path, stack);
      var (folded, after) := WalkChildren(graph, Children(graph, path), memo, stack + {path});
      var digest := Node(path, IdentityOf(graph, path), folded);
      (digest, after[path := digest])
  }

  function WalkChildren(graph: Graph, targets: seq<string>, memo: Memo, stack: set<string>): (r: (seq<Digest>, Memo))
    ensures |r.0| == |targets|
    decreases |graph.children.Keys - stack|, |targets|, 0
  {
    if targets == [] then ([], memo)
    else
      var (first, mid) := WalkChild(graph, targets[0], memo, stack);
      var (rest, after) := WalkChildren(graph, targets[1..], mid, stack);
      ([first] + rest, after)
  }

  function WalkChild(graph: Graph, target: string, memo: Memo, stack: set<string>): (Digest, Memo)
    decreases |graph.children.Keys - stack|, 0, 2
  {
    if target in stack then (Cycle(target), memo) else Walk(graph, target, memo, stack)
  }

  lemma StackGrows(graph: Graph, path: string, stack: set<string>)
    requires path !in stack
    ensures path in graph.children ==> |graph.children.Keys - (stack + {path})| < |graph.children.Keys - stack|
    ensures path !in graph.children ==> graph.children.Keys - (stack + {path}) == graph.children.Keys - stack
  {
    var before, after := graph.children.Keys - stack, graph.children.Keys - (stack + {path});
    if path in graph.children {
      assert before == after + {path};
    } else {
      assert before == after;
    }
  }

  function GraphMemo(graph: Graph, path: string): Memo
  {
    Walk(graph, path, map[], {}).1
  }

  function GraphDigest(graph: Graph, path: string): Digest
  {
    Walk(graph, path, map[], {}).0
  }

  // ---------------------------------------------------------------- reachability

  ghost predicate IsTrail(graph: Graph, trail: seq<string>)
  {
    |trail| > 0 && forall i :: 0 < i < |trail| ==> trail[i] in Children(graph, trail[i - 1])
  }

  ghost predicate TrailFromTo(graph: Graph, trail: seq<string>, p: string, q: string)
  {
    IsTrail(graph, trail) && trail[0] == p && trail[|trail| - 1] == q
  }

  /** `q` can be reached from `p` by following recorded targets, in zero or more steps. */
  ghost predicate Reaches(graph: Graph, p: string, q: string)
  {
    exists trail :: TrailFromTo(graph, trail, p, q)
  }

  lemma ReachesSelf(graph: Graph, p: string)
    ensures Reaches(graph, p, p)
  {
    assert TrailFromTo(graph, [p], p, p);
  }

  lemma ReachesStep(graph: Graph, p: string, q: string, r: string)
    requires q in Children(graph, p) && Reaches(graph, q, r)
    ensures Reaches(graph, p, r)
  {
    var trail :| TrailFromTo(graph, trail, q, r);
    var longer := [p] + trail;
    forall i | 0 < i < |longer|
      ensures longer[i] in Children(graph, longer[i - 1])
    {
      if i > 1 {
        assert trail[i - 1] in Children(graph, trail[i - 2]);
      }
    }
    assert TrailFromTo(graph, longer, p, r);
  }

  lemma ReachesThen(graph: Graph, p: string, q: string, r: string)
    requires Reaches(graph, p, q) && r in Children(graph, q)
    ensures Reaches(graph, p, r)
  {
    var trail :| TrailFromTo(graph, trail, p, q);
    var longer := trail + [r];
    assert TrailFromTo(graph, longer, p, r);
  }

  /** A set closed under targets that holds `p` holds everything `p` reaches. */
  lemma ClosedHoldsReachable(graph: Graph, closed: set<string>, p: string, q: string)
    requires p in closed && forall s :: s in closed ==> (forall t :: t in Children(graph, s) ==> t in closed)
    requires Reaches(graph, p, q)
    ensures q in closed
  {
    var trail :| TrailFromTo(graph, trail, p, q);
    var i := 1;
    while i < |trail|
      invariant 1 <= i <= |trail|
      invariant trail[i - 1] in closed
    {
      assert trail[i] in Children(graph, trail[i - 1]);
      i := i + 1;
    }
  }

  // ---------------------------------------------------------------- what the memo holds

  /** Every target of a memoised path is memoised itself or still being computed. */
  ghost predicate MemoClosed(graph: Graph, memo: Memo, stack: set<string>)
  {
    forall p :: p in memo ==> forall t :: t in Children(graph, p) ==> t in memo || t in stack
  }

  /** The paths whose own frame occurs somewhere inside the digest. */
  function FramedPaths(digest: Digest): set<string>
  {
    match digest
    case Cycle(_) => {}
    case Node(path, _, children) => {path} + FramedInAll(children)
  }

  function FramedInAll(digests: seq<Digest>): set<string>
  {
    if digests == [] then {} else FramedPaths(digests[0]) + FramedInAll(digests[1..])
  }

  /** From `before` to `after` the walk only added entries, all of them framed in `framed`
      and reachable from `from`. */
  ghost predicate Extends(graph: Graph, before: Memo, after: Memo, framed: set<string>, from: set<string>)
  {
    && before.Keys <= after.Keys <= before.Keys + framed
    && (forall p :: p in before ==> after[p] == before[p])
    && (forall q :: q in after && q !in before ==> exists p :: p in from && Reaches(graph, p, q))
  }

  /** Storing the digest of `path` once its targets are done keeps the memo closed. */
  lemma FinishPath(graph: Graph, path: string, memo: Memo, mid: Memo, digest: Digest, framed: set<string>, stack: set<string>)
    requires path !in memo && path !in stack
    requires MemoClosed(graph, mid, stack + {path}) && mid.Keys !! stack + {path}
    requires forall t :: t in Children(graph, path) ==> t in mid || t in stack + {path}
    requires Extends(graph, memo, mid, framed, set t | t in Children(graph, path))
    ensures MemoClosed(graph, mid[path := digest], stack) && mid[path := digest].Keys !! stack
    ensures Extends(graph, memo, mid[path := digest], {path} + framed, {path})
  {
    forall q | q in mid && q !in memo
      ensures Reaches(graph, path, q)
    {
      var t :| t in (set t | t in Children(graph, path)) && Reaches(graph, t, q);
      ReachesStep(graph, path, t, q);
    }
    ReachesSelf(graph, path);
  }

  lemma ExtendsThen(graph: Graph, a: Memo, b: Memo, c: Memo, f: set<string>, g: set<string>, s: set<string>, t: set<string>)
    requires Extends(graph, a, b, f, s) && Extends(graph, b, c, g, t)
    ensures Extends(graph, a, c, f + g, s + t)
  {
    forall q | q in c && q !in a
      ensures exists p :: p in s + t && Reaches(graph, p, q)
    {
      if q in b {
        var p :| p in s && Reaches(graph, p, q);
      } else {
        var p :| p in t && Reaches(graph, p, q);
      }
    }
  }

  /** What one visit leaves: `path` memoised, the memo still closed, nothing unreachable added. */
  ghost predicate Visited(graph: Graph, path: string, memo: Memo, stack: set<string>, digest: Digest, after: Memo)
  {
    && path in after && MemoClosed(graph, after, stack) && after.Keys !! stack
    && Extends(graph, memo, after, FramedPaths(digest), {path})
  }

  ghost predicate AllVisited(graph: Graph, targets: seq<string>, memo: Memo, stack: set<string>, folded: seq<Digest>, after: Memo)
  {
    && (forall t :: t in targets ==> t in after || t in stack)
    && MemoClosed(graph, after, stack) && after.Keys !! stack
    && Extends(graph, memo, after, FramedInAll(folded), set t | t in targets)
  }

  lemma {:induction false} WalkExtends(graph: Graph, path: string, memo: Memo, stack: set<string>)
    requires path !in stack && MemoClosed(graph, memo, stack) && memo.Keys !! stack
    ensures Visited(graph, path, memo, stack, Walk(graph, path, memo, stack).0, Walk(graph, path, memo, stack).1)
    decreases |graph.children.Keys - stack|, 0, 1
  {
    if path !in memo {
      StackGrows(graph, path, stack);
      var targets := Children(graph, path);
      WalkChildrenExtends(graph, targets, memo, stack + {path});
      var (folded, mid) := WalkChildren(graph, targets, memo, stack + {path});
      var digest := Node(path, IdentityOf(graph, path), folded);
      FinishPath(graph, path, memo, mid, digest, FramedInAll(folded), stack);
    }
  }

  lemma {:induction false} WalkChildrenExtends(graph: Graph, targets: seq<string>, memo: Memo, stack: set<string>)
    requires MemoClosed(graph, memo, stack) && memo.Keys !! stack
    ensures AllVisited(graph, targets, memo, stack,
              WalkChildren(graph, targets, memo, stack).0, WalkChildren(graph, targets, memo, stack).1)
    decreases |graph.children.Keys - stack|, |targets|, 0
  {
    if targets != [] {
      var (first, mid) := WalkChild(graph, targets[0], memo, stack);
      assert Extends(graph, memo, mid, FramedPaths(first), {targets[0]}) && MemoClosed(graph, mid, stack) && mid.Keys !! stack
        && (targets[0] in mid || targets[0] in stack) by {
        if targets[0] !in stack {
          WalkExtends(graph, targets[0], memo, stack);
        }
      }
      WalkChildrenExtends(graph, targets[1..], mid, stack);
      var (rest, after) := WalkChildren(graph, targets[1..], mid, stack);
      assert ([first] + rest)[1..] == rest;
      ExtendsThen(graph, memo, mid, after, FramedPaths(first), FramedInAll(rest), {targets[0]}, set t | t in targets[1..]);
      assert (set t | t in targets) == {targets[0]} + (set t | t in targets[1..]);
    }
  }

  /** The memo ends holding exactly the paths reachable from the requested package. */
  lemma MemoIsReachable(graph: Graph, path: string, q: string)
    ensures q in GraphMemo(graph, path) <==> Reaches(graph, path, q)
    ensures q in GraphMemo(graph, path) ==> q in FramedPaths(GraphDigest(graph, path))
  {
    WalkExtends(graph, path, map[], {});
    if Reaches(graph, path, q) {
      ClosedHoldsReachable(graph, GraphMemo(graph, path).Keys, path, q);
    }
  }

  // ---------------------------------------------------------------- what a digest says

  /** The digest tells the truth about `graph` wherever it carries a frame. */
  ghost predicate Faithful(graph: Graph, digest: Digest)
  {
    match digest
    case Cycle(_) => true
    case Node(path, identity, children) =>
      && identity == IdentityOf(graph, path)
      && |children| == |Children(graph, path)|
      && forall i :: 0 <= i < |children| ==>
           children[i].path == Children(graph, path)[i] && Faithful(graph, children[i])
  }

  ghost predicate FaithfulMemo(graph: Graph, memo: Memo)
  {
    forall p :: p in memo ==> memo[p].path == p && memo[p].Node? && Faithful(graph, memo[p])
  }

  ghost predicate FaithfulAll(graph: Graph, targets: seq<string>, digests: seq<Digest>)
  {
    && |digests| == |targets|
    && forall i :: 0 <= i < |targets| ==> digests[i].path == targets[i] && Faithful(graph, digests[i])
  }

  lemma FaithfulNode(graph: Graph, path: string, folded: seq<Digest>, mid: Memo)
    requires FaithfulAll(graph, Children(graph, path), folded) && FaithfulMemo(graph, mid)
    ensures var digest := Node(path, IdentityOf(graph, path), folded);
            Faithful(graph, digest) && FaithfulMemo(graph, mid[path := digest])
  {
  }

  lemma FaithfulCons(graph: Graph, targets: seq<string>, first: Digest, rest: seq<Digest>)
    requires targets != [] && first.path == targets[0] && Faithful(graph, first)
    requires FaithfulAll(graph, targets[1..], rest)
    ensures FaithfulAll(graph, targets, [first] + rest)
  {
    var all := [first] + rest;
    forall i | 0 <= i < |targets|
      ensures all[i].path == targets[i] && Faithful(graph, all[i])
    {
      if i > 0 {
        assert all[i] == rest[i - 1] && targets[i] == targets[1..][i - 1];
      }
    }
  }

  lemma {:induction false} WalkFaithful(graph: Graph, path: string, memo: Memo, stack: set<string>)
    requires path !in stack && FaithfulMemo(graph, memo)
    ensures var r := Walk(graph, path, memo, stack);
            r.0.Node? && r.0.path == path && Faithful(graph, r.0) && FaithfulMemo(graph, r.1)
    decreases |graph.children.Keys - stack|, 0, 1
  {
    if path !in memo {
      StackGrows(graph, path, stack);
      var targets := Children(graph, path);
      WalkChildrenFaithful(graph, targets, memo, stack + {path});
      var (folded, mid) := WalkChildren(graph, targets, memo, stack + {path});
      FaithfulNode(graph, path, folded, mid);
    }
  }

  lemma {:induction false} WalkChildrenFaithful(graph: Graph, targets: seq<string>, memo: Memo, stack: set<string>)
    requires FaithfulMemo(graph, memo)
    ensures var r := WalkChildren(graph, targets, memo, stack);
            FaithfulMemo(graph, r.1) && FaithfulAll(graph, targets, r.0)
    decreases |graph.children.Keys - stack|, |targets|, 0
  {
    if targets != [] {
      if targets[0] !in stack {
        WalkFaithful(graph, targets[0], memo, stack);
      }
      var (first, mid) := WalkChild(graph, targets[0], memo, stack);
      WalkChildrenFaithful(graph, targets[1..], mid, stack);
      FaithfulCons(graph, targets, first, WalkChildren(graph, targets[1..], mid, stack).0);
    }
  }

  ghost predicate AgreeAt(a: Graph, b: Graph, q: string)
  {
    IdentityOf(a, q) == IdentityOf(b, q) && Children(a, q) == Children(b, q)
  }

  /** A digest faithful to two lockfiles makes them agree on every path it frames. */
  lemma {:induction false} SharedDigestAgrees(a: Graph, b: Graph, digest: Digest, q: string)
    requires Faithful(a, digest) && Faithful(b, digest) && q in FramedPaths(digest)
    ensures AgreeAt(a, b, q)
    decreases digest
  {
    if digest.path == q && digest.Node? {
      assert forall i :: 0 <= i < |digest.children| ==> Children(a, q)[i] == Children(b, q)[i];
      assert Children(a, q) == Children(b, q);
    } else {
      var i := FramedChild(digest.children, q);
      SharedDigestAgrees(a, b, digest.children[i], q);
    }
  }

  lemma {:induction false} FramedChild(digests: seq<Digest>, q: string) returns (i: nat)
    requires q in FramedInAll(digests)
    ensures i < |digests| && q in FramedPaths(digests[i])
  {
    if q in FramedPaths(digests[0]) {
      i := 0;
    } else {
      i := FramedChild(digests[1..], q);
      i := i + 1;
    }
  }

  ghost predicate AgreeOnReachable(a: Graph, b: Graph, path: string)
  {
    forall q :: Reaches(a, path, q) ==> AgreeAt(a, b, q)
  }

  lemma {:induction false} WalkAgrees(a: Graph, b: Graph, root: string, path: string, memo: Memo, stack: set<string>)
    requires AgreeOnReachable(a, b, root) && Reaches(a, root, path) && path !in stack
    ensures Walk(a, path, memo, stack) == Walk(b, path, memo, stack)
    decreases |a.children.Keys - stack|, 0, 1
  {
    if path !in memo {
      assert AgreeAt(a, b, path);
      StackGrows(a, path, stack);
      forall t | t in Children(a, path)
        ensures Reaches(a, root, t)
      {
        ReachesThen(a, root, path, t);
      }
      WalkChildrenAgree(a, b, root, Children(a, path), memo, stack + {path});
    }
  }

  lemma {:induction false} WalkChildrenAgree(a: Graph, b: Graph, root: string, targets: seq<string>, memo: Memo, stack: set<string>)
    requires AgreeOnReachable(a, b, root) && forall t :: t in targets ==> Reaches(a, root, t)
    ensures WalkChildren(a, targets, memo, stack) == WalkChildren(b, targets, memo, stack)
    decreases |a.children.Keys - stack|, |targets|, 0
  {
    if targets != [] {
      if targets[0] !in stack {
        WalkAgrees(a, b, root, targets[0], memo, stack);
      }
      WalkChildrenAgree(a, b, root, targets[1..], WalkChild(a, targets[0], memo, stack).1, stack);
    }
  }

  lemma SameGraphDigestIffAgree(a: Graph, b: Graph, path: string)
    ensures GraphDigest(a, path) == GraphDigest(b, path) <==> AgreeOnReachable(a, b, path)
  {
    if AgreeOnReachable(a, b, path) {
      ReachesSelf(a, path);
      WalkAgrees(a, b, path, path, map[], {});
    }
    if GraphDigest(a, path) == GraphDigest(b, path) {
      WalkFaithful(a, path, map[], {});
      WalkFaithful(b, path, map[], {});
      forall q | Reaches(a, path, q)
        ensures AgreeAt(a, b, q)
      {
        MemoIsReachable(a, path, q);
        SharedDigestAgrees(a, b, GraphDigest(a, path), q);
      }
    }
  }

  // ---------------------------------------------------------------- acyclic graphs

  /** No path reachable from `path` can be reached again from one of its own targets. */
  ghost predicate Acyclic(graph: Graph, path: string)
  {
    forall q, t :: Reaches(graph, path, q) && t in Children(graph, q) ==> !Reaches(graph, t, q)
  }

  ghost function ReachableSet(graph: Graph, path: string): set<string>
  {
    set q | q in {path} + (set p, t | p in graph.children && t in Children(graph, p) :: t) && Reaches(graph, path, q)
  }

  lemma ReachableSetIsExact(graph: Graph, path: string, q: string)
    ensures q in ReachableSet(graph, path) <==> Reaches(graph, path, q)
  {
    if Reaches(graph, path, q) && q != path {
      var trail :| TrailFromTo(graph, trail, path, q);
      assert |trail| > 1;
      assert q in Children(graph, trail[|trail| - 2]);
    }
  }

  lemma AcyclicBelow(graph: Graph, path: string, target: string)
    requires Acyclic(graph, path) && target in Children(graph, path)
    ensures Acyclic(graph, target)
    ensures |ReachableSet(graph, target)| < |ReachableSet(graph, path)|
  {
    forall q | Reaches(graph, target, q)
      ensures Reaches(graph, path, q)
    {
      ReachesStep(graph, path, target, q);
    }
    ReachesSelf(graph, path);
    forall q
      ensures q in ReachableSet(graph, target) ==> q in ReachableSet(graph, path)
      ensures q == path ==> q in ReachableSet(graph, path) && q !in ReachableSet(graph, target)
    {
      ReachableSetIsExact(graph, target, q);
      ReachableSetIsExact(graph, path, q);
    }
    SubsetIsSmaller(ReachableSet(graph, target), ReachableSet(graph, path), path);
  }

  lemma SubsetIsSmaller<T>(a: set<T>, b: set<T>, x: T)
    requires a <= b && x in b && x !in a
    ensures |a| < |b|
  {
    assert a + (b - a - {x}) + {x} == b;
  }

  /** The digest by plain recursion: no memo, no stack. */
  ghost function PlainDigest(graph: Graph, path: string): Digest
    requires Acyclic(graph, path)
    decreases |ReachableSet(graph, path)|, 0
  {
    Node(path, IdentityOf(graph, path), PlainDigests(graph, path, Children(graph, path)))
  }

  ghost function PlainDigests(graph: Graph, path: string, targets: seq<string>): (r: seq<Digest>)
    requires Acyclic(graph, path) && forall t :: t in targets ==> t in Children(graph, path)
    ensures |r| == |targets|
    decreases |ReachableSet(graph, path)|, 0, |targets|
  {
    if targets == [] then []
    else
      AcyclicBelow(graph, path, targets[0]);
      [PlainDigest(graph, targets[0])] + PlainDigests(graph, path, targets[1..])
  }

  ghost predicate PlainMemo(graph: Graph, memo: Memo)
  {
    forall p :: p in memo ==> Acyclic(graph, p) && memo[p] == PlainDigest(graph, p)
  }

  lemma {:induction false} WalkIsPlain(graph: Graph, path: string, memo: Memo, stack: set<string>)
    requires Acyclic(graph, path) && path !in stack && PlainMemo(graph, memo)
    requires forall s :: s in stack ==> Reaches(graph, s, path)
    ensures var (digest, after) := Walk(graph, path, memo, stack);
            digest == PlainDigest(graph, path) && PlainMemo(graph, after)
    decreases |graph.children.Keys - stack|, 0, 1
  {
    if path !in memo {
      StackGrows(graph, path, stack);
      ReachesSelf(graph, path);
      WalkChildrenPlain(graph, path, Children(graph, path), memo, stack + {path});
      var (folded, mid) := WalkChildren(graph, Children(graph, path), memo, stack + {path});
      assert Walk(graph, path, memo, stack).0 == PlainDigest(graph, path);
    }
  }

  lemma {:induction false} WalkChildrenPlain(graph: Graph, path: string, targets: seq<string>, memo: Memo, stack: set<string>)
    requires Acyclic(graph, path) && PlainMemo(graph, memo)
    requires forall t :: t in targets ==> t in Children(graph, path)
    requires forall s :: s in stack ==> Reaches(graph, s, path)
    ensures var (folded, after) := WalkChildren(graph, targets, memo, stack);
            folded == PlainDigests(graph, path, targets) && PlainMemo(graph, after)
    decreases |graph.children.Keys - stack|, |targets|, 0
  {
    if targets != [] {
      ReachesSelf(graph, path);
      assert targets[0] !in stack;
      AcyclicBelow(graph, path, targets[0]);
      forall s | s in stack
        ensures Reaches(graph, s, targets[0])
      {
        ReachesThen(graph, s, path, targets[0]);
      }
      WalkIsPlain(graph, targets[0], memo, stack);
      WalkChildrenPlain(graph, path, targets[1..], WalkChild(graph, targets[0], memo, stack).1, stack);
    }
  }

  /** On acyclic graphs memo and stack are an optimisation: the plain recursion gives the same digest. */
  lemma AcyclicDigestIsPlain(graph: Graph, path: string)
    requires Acyclic(graph, path)
    ensures GraphDigest(graph, path) == PlainDigest(graph, path)
  {
    WalkIsPlain(graph, path, map[], {});
  }


  // ---------------------------------------------------------------- the lockfile's digest

  function PackageClosureDigest(lock: Lock, path: string): Digest
  {
    GraphDigest(GraphOf(lock), path)
  }

  lemma GraphTells(lock: Lock, path: string)
    ensures IdentityOf(GraphOf(lock), path) == IdentityIn(lock, path)
    ensures Children(GraphOf(lock), path) == Sorted(Targets(lock, path))
  {
  }

  /** Equal target sets and package facts on every path that `a` can reach from `path`. */
  ghost predicate LocksAgreeOnReachable(a: Lock, b: Lock, path: string)
  {
    forall q :: Reaches(GraphOf(a), path, q) ==> IdentityIn(a, q) == IdentityIn(b, q) && Targets(a, q) == Targets(b, q)
  }

  /**
   Two lockfiles give a package the same closure digest exactly when they agree on everything
   reachable from it, cycles included.
   */
  lemma SameDigestIffAgree(a: Lock, b: Lock, path: string)
    ensures PackageClosureDigest(a, path) == PackageClosureDigest(b, path) <==> LocksAgreeOnReachable(a, b, path)
  {
    SameGraphDigestIffAgree(GraphOf(a), GraphOf(b), path);
    forall q
      ensures AgreeAt(GraphOf(a), GraphOf(b), q) <==>
              IdentityIn(a, q) == IdentityIn(b, q) && Targets(a, q) == Targets(b, q)
    {
      AgreementInGraph(a, b, q);
    }
  }

  lemma AgreementInGraph(a: Lock, b: Lock, q: string)
    ensures AgreeAt(GraphOf(a), GraphOf(b), q) <==>
            IdentityIn(a, q) == IdentityIn(b, q) && Targets(a, q) == Targets(b, q)
  {
    GraphTells(a, q);
    GraphTells(b, q);
    SortedInjective(Targets(a, q), Targets(b, q));
  }
}
