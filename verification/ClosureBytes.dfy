/**
 The closure digest in bytes (src/graph.rs): what the walk feeds to the hash, and what equal
 32-byte digests mean for any hash function whatever.
 */
module ClosureBytes {
  import opened ClosureDigest
  import opened Hashes
  import opened LockTypes
  import opened Ordering

  // ---------------------------------------------------------------- the hashed frame

  function Label(s: string): string
  {
    s + "\0"
  }

  /** The bytes of one package frame; strings are neither length-prefixed nor terminated. */
  function FrameBytes(path: string, identity: Identity, kids: seq<Key>): string
  {
    Header(path) + (IdentityPart(identity) + ChildPart(kids))
  }

  function CycleBytes(path: string): string
  {
    Label("bpm-package-closure-cycle") + path
  }

  function Header(path: string): string
  {
    Label("bpm-package-closure-v1") + (Label("path") + path)
  }

  function IdentityPart(identity: Identity): string
  {
    match identity
    case Unknown => ""
    case Known(version, resolved, integrity) =>
      Label("version") + (version + (Label("resolved") + (resolved + (Label("integrity") + integrity))))
  }

  function ChildPart(kids: seq<Key>): string
  {
    if kids == [] then "" else Label("child") + (kids[0] + ChildPart(kids[1..]))
  }

  /** The 32 bytes the program computes where the model has a symbolic digest. */
  function HashOf(hash: Hash, digest: Digest): Key
    decreases digest, 1
  {
    hash(Preimage(hash, digest))
  }

  function Preimage(hash: Hash, digest: Digest): string
    decreases digest, 0
  {
    match digest
    case Cycle(path) => CycleBytes(path)
    case Node(path, identity, children) => FrameBytes(path, identity, HashesOf(hash, children))
  }

  function HashesOf(hash: Hash, digests: seq<Digest>): (r: seq<Key>)
    ensures |r| == |digests| && forall i :: 0 <= i < |r| ==> r[i] == HashOf(hash, digests[i])
    decreases digests
  {
    if digests == [] then [] else [HashOf(hash, digests[0])] + HashesOf(hash, digests[1..])
  }

  lemma Associates(a: string, b: string, c: string)
    ensures (a + b) + c == a + (b + c)
  {
  }

  lemma {:induction false} OneMoreKid(kids: seq<Key>, kid: Key)
    ensures ChildPart(kids + [kid]) == ChildPart(kids) + (Label("child") + kid)
    decreases |kids|
  {
    var tail := Label("child") + kid;
    if kids == [] {
      assert ([kid])[1..] == [] && kids + [kid] == [kid] && kid + "" == kid && "" + tail == tail;
    } else {
      OneMoreKid(kids[1..], kid);
      assert (kids + [kid])[1..] == kids[1..] + [kid];
      var rest := ChildPart(kids[1..]);
      Associates(kids[0], rest, tail);
      Associates(Label("child"), kids[0] + rest, tail);
    }
  }

  lemma OneMoreChild(hash: Hash, path: string, identity: Identity, folded: seq<Digest>, child: Digest)
    ensures FrameBytes(path, identity, HashesOf(hash, folded + [child])) ==
              FrameBytes(path, identity, HashesOf(hash, folded)) + (Label("child") + HashOf(hash, child))
  {
    hide Header, IdentityPart, ChildPart, HashOf;
    var kids := HashesOf(hash, folded);
    assert HashesOf(hash, folded + [child]) == kids + [HashOf(hash, child)];
    OneMoreKid(kids, HashOf(hash, child));
    Associates(IdentityPart(identity), ChildPart(kids), Label("child") + HashOf(hash, child));
    Associates(Header(path), IdentityPart(identity) + ChildPart(kids), Label("child") + HashOf(hash, child));
  }

  lemma NoKids(path: string, identity: Identity)
    ensures FrameBytes(path, identity, []) == Header(path) + IdentityPart(identity)
  {
    hide Header, IdentityPart;
    assert IdentityPart(identity) + "" == IdentityPart(identity);
  }

  lemma HashIs(hash: Hash, digest: Digest)
    ensures digest.Cycle? ==> HashOf(hash, digest) == hash(CycleBytes(digest.path))
    ensures digest.Node? ==> HashOf(hash, digest) == hash(FrameBytes(digest.path, digest.identity, HashesOf(hash, digest.children)))
  {
  }

  // ---------------------------------------------------------------- the walk as the program runs it

  /** With `folded` done and `memo` as it stands, the remaining targets complete `all`. */
  ghost predicate FoldedSoFar(graph: Graph, targets: seq<string>, memo: Memo, stack: set<string>, folded: seq<Digest>, all: (seq<Digest>, Memo))
  {
    && |folded| <= |targets| == |all.0|
    && all.0[..|folded|] == folded
    && WalkChildren(graph, targets[|folded|..], memo, stack) == (all.0[|folded|..], all.1)
  }

  lemma NextChild(graph: Graph, targets: seq<string>, memo: Memo, stack: set<string>, folded: seq<Digest>, all: (seq<Digest>, Memo))
    requires FoldedSoFar(graph, targets, memo, stack, folded, all) && |folded| < |targets|
    ensures var (child, mid) := WalkChild(graph, targets[|folded|], memo, stack);
            FoldedSoFar(graph, targets, mid, stack, folded + [child], all)
  {
    var i := |folded|;
    var (child, mid) := WalkChild(graph, targets[i], memo, stack);
    var rest := WalkChildren(graph, targets[i + 1..], mid, stack);
    assert targets[i..][1..] == targets[i + 1..];
    assert all.0[i..] == [child] + rest.0;
    assert all.0[i..][1..] == all.0[i + 1..] && ([child] + rest.0)[1..] == rest.0;
    assert all.0[i] == all.0[i..][0] == child;
    assert all.0[..i + 1] == folded + [child];
  }

  lemma NothingFolded(graph: Graph, targets: seq<string>, memo: Memo, stack: set<string>)
    ensures FoldedSoFar(graph, targets, memo, stack, [], WalkChildren(graph, targets, memo, stack))
  {
    assert targets[0..] == targets;
  }

  lemma AllFolded(graph: Graph, targets: seq<string>, memo: Memo, stack: set<string>, folded: seq<Digest>, all: (seq<Digest>, Memo))
    requires FoldedSoFar(graph, targets, memo, stack, folded, all) && |folded| == |targets|
    ensures folded == all.0 && memo == all.1
  {
    assert targets[|folded|..] == [];
  }

  lemma WalkIs(graph: Graph, path: string, memo: Memo, stack: set<string>)
    requires path !in stack
    ensures path in memo ==> Walk(graph, path, memo, stack) == (memo[path], memo)
    ensures path !in memo ==>
              (var all := WalkChildren(graph, Children(graph, path), memo, stack + {path});
               var digest := Node(path, IdentityOf(graph, path), all.0);
               Walk(graph, path, memo, stack) == (digest, all.1[path := digest]))
  {
  }

  lemma HashesOfNone(hash: Hash)
    ensures HashesOf(hash, []) == []
  {
  }

  /** One memo and one stack shared by all recursive visits; `digests` is the memo's meaning. */
  class ClosureWalk {
    const graph: Graph
    const hash: Hash
    var memo: map<string, Key>
    var stack: set<string>
    ghost var digests: Memo

    ghost predicate Valid()
      reads this
    {
      memo.Keys == digests.Keys && forall p :: p in memo ==> memo[p] == HashOf(hash, digests[p])
    }

    constructor (lock: Lock, hash: Hash)
      ensures Valid() && graph == GraphOf(lock) && this.hash == hash && digests == map[] && stack == {}
    {
      graph := GraphOf(lock);
      this.hash := hash;
      memo, stack, digests := map[], {}, map[];
    }

    method Visit(path: string) returns (bytes: Key, ghost digest: Digest)
      requires Valid() && path !in stack
      modifies this
      ensures Valid() && (digest, digests) == Walk(graph, path, old(digests), old(stack)) && stack == old(stack)
      ensures bytes == HashOf(hash, digest)
      decreases |graph.children.Keys - stack|, 0
    {
      hide Header, IdentityPart, FrameBytes, HashOf, HashesOf, FoldedSoFar, Walk, WalkChildren, WalkChild, Label;
      WalkIs(graph, path, digests, stack);
      if path in memo {
        return memo[path], digests[path];
      }
      var identity := IdentityOf(graph, path);
      var hasher := Header(path) + IdentityPart(identity);
      NoKids(path, identity);
      StackGrows(graph, path, stack);
      stack := stack + {path};
      var targets := Children(graph, path);
      ghost var folded: seq<Digest> := [];
      ghost var all := WalkChildren(graph, targets, digests, stack);
      NothingFolded(graph, targets, digests, stack);
      HashesOfNone(hash);
      for i := 0 to |targets|
        invariant Valid() && |folded| == i && stack == old(stack) + {path}
        invariant hasher == FrameBytes(path, identity, HashesOf(hash, folded))
        invariant FoldedSoFar(graph, targets, digests, stack, folded, all)
      {
        NextChild(graph, targets, digests, stack, folded, all);
        hasher := hasher + Label("child");
        var child: Key;
        ghost var childDigest: Digest;
        child, childDigest := VisitChild(targets[i]);
        OneMoreChild(hash, path, identity, folded, childDigest);
        Associates(FrameBytes(path, identity, HashesOf(hash, folded)), Label("child"), child);
        hasher := hasher + child;
        folded := folded + [childDigest];
      }
      AllFolded(graph, targets, digests, stack, folded, all);
      stack := stack - {path};
      bytes := hash(hasher);
      digest := Node(path, identity, folded);
      HashIs(hash, digest);
      memo, digests := memo[path := bytes], digests[path := digest];
    }

    /** A child's 32 bytes: the cycle marker's hash on a back edge, else the child's own digest. */
    method VisitChild(target: string) returns (bytes: Key, ghost digest: Digest)
      requires Valid()
      modifies this
      ensures Valid() && (digest, digests) == WalkChild(graph, target, old(digests), old(stack)) && stack == old(stack)
      ensures bytes == HashOf(hash, digest)
      decreases |graph.children.Keys - stack|, 1
    {
      hide HashOf, Walk, FrameBytes, CycleBytes;
      if target in stack {
        digest := Cycle(target);
        HashIs(hash, digest);
        bytes := hash(CycleBytes(target));
      } else {
        bytes, digest := Visit(target);
      }
    }
  }

  method RunPackageClosureDigest(lock: Lock, path: string, hash: Hash) returns (bytes: Key)
    ensures bytes == HashOf(hash, PackageClosureDigest(lock, path))
  {
    var walk := new ClosureWalk(lock, hash);
    ghost var digest;
    bytes, digest := walk.Visit(path);
  }

  // ---------------------------------------------------------------- reading a frame back

  predicate NulFree(s: string)
  {
    forall i :: 0 <= i < |s| ==> s[i] != '\0'
  }

  predicate NulFreeIdentity(identity: Identity)
  {
    identity.Known? ==> NulFree(identity.version) && NulFree(identity.resolved) && NulFree(identity.integrity)
  }

  lemma FirstNul(x: string, y: string, a: string, b: string)
    requires NulFree(x) && NulFree(y) && Label(x) + a == Label(y) + b
    ensures x == y && a == b
  {
    var s, t := Label(x) + a, Label(y) + b;
    assert s[|x|] == '\0' && t[|y|] == '\0';
    assert forall i :: 0 <= i < |x| ==> s[i] == x[i];
    assert forall i :: 0 <= i < |y| ==> t[i] == y[i];
    assert |x| == |y|;
    assert s[..|x|] == x && t[..|y|] == y;
    assert s[|x| + 1..] == a && t[|y| + 1..] == b;
  }

  lemma NoNul(x: string, y: string, b: string)
    requires NulFree(x)
    ensures x != Label(y) + b
  {
    assert (Label(y) + b)[|y|] == '\0';
  }

  /** A field and the label after it run together, and still split apart. */
  lemma FieldThenLabel(x: string, l: string, y: string, m: string, a: string, b: string)
    requires NulFree(x) && NulFree(l) && NulFree(y) && NulFree(m)
    requires x + (Label(l) + a) == y + (Label(m) + b)
    ensures x + l == y + m && a == b
  {
    assert x + (Label(l) + a) == Label(x + l) + a;
    assert y + (Label(m) + b) == Label(y + m) + b;
    FirstNul(x + l, y + m, a, b);
  }

  lemma CancelSuffix(x: string, y: string, l: string)
    requires x + l == y + l
    ensures x == y
  {
    assert (x + l)[..|x|] == x && (y + l)[..|y|] == y;
  }

  /** The last string of a frame, then its children: both are recovered. */
  lemma {:induction false} LastField(x: string, y: string, c: seq<Key>, d: seq<Key>)
    requires NulFree(x) && NulFree(y)
    requires x + ChildPart(c) == y + ChildPart(d)
    ensures x == y && c == d
    decreases |c|
  {
    assert x + "" == x && y + "" == y;
    if c == [] && d == [] {
    } else if c == [] || d == [] {
      var (p, q, e) := if c == [] then (x, y, d) else (y, x, c);
      var tail := e[0] + ChildPart(e[1..]);
      assert q + (Label("child") + tail) == Label(q + "child") + tail;
      NoNul(p, q + "child", tail);
    } else {
      var s, t := c[0] + ChildPart(c[1..]), d[0] + ChildPart(d[1..]);
      FieldThenLabel(x, "child", y, "child", s, t);
      CancelSuffix(x, y, "child");
      assert s[..32] == c[0] && t[..32] == d[0] && s[32..] == ChildPart(c[1..]) && t[32..] == ChildPart(d[1..]);
      assert "" + ChildPart(c[1..]) == ChildPart(c[1..]);
      assert "" + ChildPart(d[1..]) == ChildPart(d[1..]);
      LastField("", "", c[1..], d[1..]);
      assert c == [c[0]] + c[1..] && d == [d[0]] + d[1..];
    }
  }

  function AfterPath(identity: Identity, kids: seq<Key>): string
  {
    match identity
    case Unknown => ChildPart(kids)
    case Known(version, resolved, integrity) =>
      Label("version") + (version + (Label("resolved") + (resolved + (Label("integrity") + (integrity + ChildPart(kids))))))
  }

  lemma FrameFromFront(path: string, identity: Identity, kids: seq<Key>)
    ensures FrameBytes(path, identity, kids) ==
              Label("bpm-package-closure-v1") + (Label("path") + (path + AfterPath(identity, kids)))
  {
    hide ChildPart, Label, IdentityPart, AfterPath;
    IdentityThenKids(identity, kids);
    var tail := AfterPath(identity, kids);
    Associates(Label("path"), path, tail);
    Associates(Label("bpm-package-closure-v1"), Label("path") + path, tail);
  }

  lemma IdentityThenKids(identity: Identity, kids: seq<Key>)
    ensures IdentityPart(identity) + ChildPart(kids) == AfterPath(identity, kids)
  {
    hide ChildPart, Label;
    var t := ChildPart(kids);
    match identity
    case Unknown => assert "" + t == t;
    case Known(v, r, i) =>
      var i1 := Label("integrity") + i;
      var r2 := r + i1;
      var r1 := Label("resolved") + r2;
      var v2 := v + r1;
      Associates(Label("integrity"), i, t);
      Associates(r, i1, t);
      Associates(Label("resolved"), r2, t);
      Associates(v, r1, t);
      Associates(Label("version"), v2, t);
  }

  lemma LastLettersDiffer(p: string, q: string)
    ensures p + "version" != q + "child"
  {
    assert (p + "version")[|p + "version"| - 1] == 'n';
    assert (q + "child")[|q + "child"| - 1] == 'd';
  }

  lemma KnownVersusUnknown(p: string, id: Identity, q: string, c: seq<Key>, d: seq<Key>)
    requires NulFree(p) && NulFree(q) && id.Known?
    ensures p + AfterPath(id, c) != q + AfterPath(Unknown, d)
  {
    hide ChildPart;
    LastLettersDiffer(p, q);
    if p + AfterPath(id, c) == q + AfterPath(Unknown, d) {
      var a := id.version + (Label("resolved") + (id.resolved + (Label("integrity") + (id.integrity + ChildPart(c)))));
      assert p + (Label("version") + a) == Label(p + "version") + a;
      KidsOrNothing(d);
      if d == [] {
        assert q + "" == q;
        NoNul(q, p + "version", a);
      } else {
        FieldThenLabel(p, "version", q, "child", a, d[0] + ChildPart(d[1..]));
      }
    }
  }

  lemma KidsOrNothing(kids: seq<Key>)
    ensures ChildPart(kids) == if kids == [] then "" else Label("child") + (kids[0] + ChildPart(kids[1..]))
  {
  }

  lemma KnownFields(p: string, a: Identity, q: string, b: Identity, c: seq<Key>, d: seq<Key>)
    requires NulFree(p) && NulFree(q) && NulFreeIdentity(a) && NulFreeIdentity(b) && a.Known? && b.Known?
    requires p + AfterPath(a, c) == q + AfterPath(b, d)
    ensures p == q && a == b && c == d
  {
    hide ChildPart;
    var (a3, b3) := (a.integrity + ChildPart(c), b.integrity + ChildPart(d));
    var (a2, b2) := (a.resolved + (Label("integrity") + a3), b.resolved + (Label("integrity") + b3));
    var (a1, b1) := (a.version + (Label("resolved") + a2), b.version + (Label("resolved") + b2));
    FieldThenLabel(p, "version", q, "version", a1, b1);
    CancelSuffix(p, q, "version");
    FieldThenLabel(a.version, "resolved", b.version, "resolved", a2, b2);
    CancelSuffix(a.version, b.version, "resolved");
    FieldThenLabel(a.resolved, "integrity", b.resolved, "integrity", a3, b3);
    CancelSuffix(a.resolved, b.resolved, "integrity");
    LastField(a.integrity, b.integrity, c, d);
  }

  lemma AfterPathInjective(p: string, a: Identity, q: string, b: Identity, c: seq<Key>, d: seq<Key>)
    requires NulFree(p) && NulFree(q) && NulFreeIdentity(a) && NulFreeIdentity(b)
    requires p + AfterPath(a, c) == q + AfterPath(b, d)
    ensures p == q && a == b && c == d
  {
    hide ChildPart;
    if a.Known? && b.Known? {
      KnownFields(p, a, q, b, c, d);
    } else if a.Known? {
      KnownVersusUnknown(p, a, q, c, d);
    } else if b.Known? {
      KnownVersusUnknown(q, b, p, d, c);
    } else {
      LastField(p, q, c, d);
    }
  }

  /** For strings without NUL bytes the unprefixed layout is uniquely decodable, raw child hashes included. */
  lemma FrameInjective(p: string, a: Identity, q: string, b: Identity, c: seq<Key>, d: seq<Key>)
    requires NulFree(p) && NulFree(q) && NulFreeIdentity(a) && NulFreeIdentity(b)
    requires FrameBytes(p, a, c) == FrameBytes(q, b, d)
    ensures p == q && a == b && c == d
  {
    hide FrameBytes, AfterPath;
    FrameFromFront(p, a, c);
    FrameFromFront(q, b, d);
    var (x, y) := (p + AfterPath(a, c), q + AfterPath(b, d));
    FirstNul("bpm-package-closure-v1", "bpm-package-closure-v1", Label("path") + x, Label("path") + y);
    FirstNul("path", "path", x, y);
    AfterPathInjective(p, a, q, b, c, d);
  }

  lemma FrameIsNoCycle(p: string, a: Identity, c: seq<Key>, q: string)
    ensures FrameBytes(p, a, c) != CycleBytes(q)
  {
    hide IdentityPart, ChildPart;
    var (v, w) := ("bpm-package-closure-v1", "bpm-package-closure-cycle");
    assert v[20] == 'v' && w[20] == 'c';
    assert FrameBytes(p, a, c)[20] == 'v' && CycleBytes(q)[20] == 'c';
  }

  lemma CycleInjective(p: string, q: string)
    requires CycleBytes(p) == CycleBytes(q)
    ensures p == q
  {
    var w := Label("bpm-package-closure-cycle");
    assert (w + p)[|w|..] == p && (w + q)[|w|..] == q;
  }

  // ---------------------------------------------------------------- equal digests

  predicate NulFreeDigest(digest: Digest)
  {
    NulFree(digest.path) &&
    (digest.Node? ==> NulFreeIdentity(digest.identity) && forall i :: 0 <= i < |digest.children| ==> NulFreeDigest(digest.children[i]))
  }

  /** Everything hashed on the way to the digest. */
  function Preimages(hash: Hash, digest: Digest): set<string>
    decreases digest
  {
    {Preimage(hash, digest)} +
      (if digest.Node? then set i, x | 0 <= i < |digest.children| && x in Preimages(hash, digest.children[i]) :: x else {})
  }

  /** Two of the strings hashed are different and have the same hash. */
  ghost predicate Collides(hash: Hash, a: Digest, b: Digest)
  {
    exists x, y :: x in Preimages(hash, a) && y in Preimages(hash, b) && x != y && hash(x) == hash(y)
  }

  lemma CollisionBelow(hash: Hash, a: Digest, b: Digest, i: nat, j: nat)
    requires a.Node? && b.Node? && i < |a.children| && j < |b.children| && Collides(hash, a.children[i], b.children[j])
    ensures Collides(hash, a, b)
  {
  }

  /** Equal 32-byte digests are equal digests, or the hash function collides on strings that were hashed. */
  lemma {:induction false} SameBytesOrCollision(hash: Hash, a: Digest, b: Digest)
    requires NulFreeDigest(a) && NulFreeDigest(b) && HashOf(hash, a) == HashOf(hash, b)
    ensures a == b || Collides(hash, a, b)
    decreases a, 1
  {
    hide FrameBytes, CycleBytes;
    if Preimage(hash, a) == Preimage(hash, b) {
      if a.Cycle? && b.Cycle? {
        CycleInjective(a.path, b.path);
      } else if a.Cycle? {
        FrameIsNoCycle(b.path, b.identity, HashesOf(hash, b.children), a.path);
      } else if b.Cycle? {
        FrameIsNoCycle(a.path, a.identity, HashesOf(hash, a.children), b.path);
      } else {
        FrameInjective(a.path, a.identity, b.path, b.identity, HashesOf(hash, a.children), HashesOf(hash, b.children));
        SameChildrenOrCollision(hash, a, b);
      }
    } else {
      assert Preimage(hash, a) in Preimages(hash, a) && Preimage(hash, b) in Preimages(hash, b);
    }
  }

  lemma SameChildrenOrCollision(hash: Hash, a: Digest, b: Digest)
    requires a.Node? && b.Node? && NulFreeDigest(a) && NulFreeDigest(b)
    requires HashesOf(hash, a.children) == HashesOf(hash, b.children)
    ensures a.children == b.children || Collides(hash, a, b)
    decreases a, 0
  {
    hide Collides;
    if a.children != b.children {
      var i :| 0 <= i < |a.children| && a.children[i] != b.children[i];
      assert HashesOf(hash, a.children)[i] == HashesOf(hash, b.children)[i];
      SameBytesOrCollision(hash, a.children[i], b.children[i]);
      CollisionBelow(hash, a, b, i, i);
    }
  }

  /** A lock none of whose strings that reach the hash holds a NUL byte. */
  ghost predicate NulFreeLock(lock: Lock)
  {
    && (forall p :: NulFreeIdentity(IdentityIn(lock, p)))
    && forall p, t :: t in Targets(lock, p) ==> NulFree(t)
  }

  lemma {:induction false} FaithfulIsNulFree(lock: Lock, digest: Digest)
    requires NulFreeLock(lock) && NulFree(digest.path) && Faithful(GraphOf(lock), digest)
    ensures NulFreeDigest(digest)
    decreases digest
  {
    if digest.Node? {
      var graph := GraphOf(lock);
      GraphTells(lock, digest.path);
      forall i | 0 <= i < |digest.children|
        ensures NulFreeDigest(digest.children[i])
      {
        var target := Children(graph, digest.path)[i];
        assert target in Sorted(Targets(lock, digest.path));
        FaithfulIsNulFree(lock, digest.children[i]);
      }
    }
  }

  /**
   For any hash function: locks that agree on what is reachable give the package the same 32 bytes,
   and the same 32 bytes mean agreement unless the hash function collides on strings it was given.
   */
  lemma SameBytesIffAgree(hash: Hash, a: Lock, b: Lock, path: string)
    requires NulFreeLock(a) && NulFreeLock(b) && NulFree(path)
    ensures var (x, y) := (PackageClosureDigest(a, path), PackageClosureDigest(b, path));
            && (LocksAgreeOnReachable(a, b, path) ==> HashOf(hash, x) == HashOf(hash, y))
            && (HashOf(hash, x) == HashOf(hash, y) ==> LocksAgreeOnReachable(a, b, path) || Collides(hash, x, y))
  {
    hide HashOf, Collides, LocksAgreeOnReachable, NulFreeDigest, Faithful;
    SameDigestIffAgree(a, b, path);
    var (x, y) := (PackageClosureDigest(a, path), PackageClosureDigest(b, path));
    WalkFaithful(GraphOf(a), path, map[], {});
    WalkFaithful(GraphOf(b), path, map[], {});
    FaithfulIsNulFree(a, x);
    FaithfulIsNulFree(b, y);
    if HashOf(hash, x) == HashOf(hash, y) {
      SameBytesOrCollision(hash, x, y);
    }
  }

  /** With NUL bytes in the version or the resolved URL, two different packages feed the same bytes. */
  lemma NulBytesCollide()
    ensures FrameBytes("p", Known("", "resolved\0", ""), []) == FrameBytes("p", Known("resolved\0", "", ""), [])
  {
    var tail := Label("integrity") + "";
    assert "" + (Label("resolved") + ("resolved\0" + tail)) == "resolved\0" + (Label("resolved") + ("" + tail));
  }
}
