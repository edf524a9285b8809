/**
 Pass A of materialisation (src/materializer.rs): linking every package image into the tree,
 serially or in depth-ordered parallel waves.

 A tree maps the component list of a file or symlink to its content; directories are implied.
 */
module Materializer {
  import opened Options
  import opened Ordering
  import opened PathSafety
  import opened PathText

  type Path = seq<string>

  datatype Entry = File(content: string) | Symlink(target: string)

  type Tree = map<Path, Entry>

  function Get(tree: Tree, p: Path): Option<Entry>
  {
    if p in tree then Some(tree[p]) else None
  }

  /** One package to link: its lockfile path and its store image. */
  datatype Job = Job(path: string, image: Tree)

  function Target(job: Job): Path
  {
    Split(job.path)
  }

  function CountNodeModules(parts: seq<string>): nat
  {
    if parts == [] then 0
    else (if parts[0] == "node_modules" then 1 else 0) + CountNodeModules(parts[1..])
  }

  /** The wave a package belongs to. */
  function Depth(job: Job): nat
  {
    CountNodeModules(Target(job))
  }

  // ---------------------------------------------------------------- file operations

  datatype Op = Clear(target: Path) | Put(path: Path, entry: Entry)

  function Apply(tree: Tree, op: Op): Tree
  {
    match op
    case Clear(target) => map p | p in tree && !(target <= p) :: tree[p]
    case Put(path, entry) => tree[path := entry]
  }

  function ApplyAll(tree: Tree, ops: seq<Op>): Tree
    decreases |ops|
  {
    if ops == [] then tree else ApplyAll(Apply(tree, ops[0]), ops[1..])
  }

  /** What an operation does to the single path `p`, holding `v` before. */
  function Step(op: Op, p: Path, v: Option<Entry>): Option<Entry>
  {
    match op
    case Clear(target) => if target <= p then None else v
    case Put(path, entry) => if path == p then Some(entry) else v
  }

  function At(ops: seq<Op>, p: Path, v: Option<Entry>): Option<Entry>
  {
    if ops == [] then v else At(ops[1..], p, Step(ops[0], p, v))
  }

  lemma {:induction false} ApplyAllAt(tree: Tree, ops: seq<Op>, p: Path)
    ensures Get(ApplyAll(tree, ops), p) == At(ops, p, Get(tree, p))
    decreases |ops|
  {
    if ops != [] {
      ApplyAllAt(Apply(tree, ops[0]), ops[1..], p);
      assert Get(Apply(tree, ops[0]), p) == Step(ops[0], p, Get(tree, p));
    }
  }

  lemma {:induction false} AtAppend(a: seq<Op>, b: seq<Op>, p: Path, v: Option<Entry>)
    ensures At(a + b, p, v) == At(b, p, At(a, p, v))
    decreases |a|
  {
    if a == [] {
      assert a + b == b;
    } else {
      assert (a + b)[1..] == a[1..] + b;
      AtAppend(a[1..], b, p, Step(a[0], p, v));
    }
  }

  lemma {:induction false} ApplyAllAppend(tree: Tree, a: seq<Op>, b: seq<Op>)
    ensures ApplyAll(tree, a + b) == ApplyAll(ApplyAll(tree, a), b)
    decreases |a|
  {
    if a == [] {
      assert a + b == b;
    } else {
      assert (a + b)[1..] == a[1..] + b;
      ApplyAllAppend(Apply(tree, a[0]), a[1..], b);
    }
  }

  /** The operation only writes or removes below `target`. */
  predicate Confined(op: Op, target: Path)
  {
    match op
    case Clear(t) => target <= t
    case Put(path, _) => target <= path
  }

  predicate AllConfined(ops: seq<Op>, target: Path)
  {
    forall i :: 0 <= i < |ops| ==> Confined(ops[i], target)
  }

  /** Run alone, the operations leave exactly the image below the target and nothing else changed. */
  ghost predicate Realises(job: Job, ops: seq<Op>)
  {
    && AllConfined(ops, Target(job))
    && forall p, v :: Target(job) <= p ==> At(ops, p, v) == Get(job.image, p[|Target(job)|..])
  }

  lemma {:induction false} OutsideUntouched(ops: seq<Op>, target: Path, p: Path, v: Option<Entry>)
    requires AllConfined(ops, target) && !(target <= p)
    ensures At(ops, p, v) == v
    decreases |ops|
  {
    if ops != [] {
      ConfinedStep(ops[0], target, p, v);
      OutsideUntouched(ops[1..], target, p, v);
    }
  }

  lemma ConfinedStep(op: Op, target: Path, p: Path, v: Option<Entry>)
    requires Confined(op, target) && !(target <= p)
    ensures Step(op, p, v) == v
  {
    if op.Clear? {
      PrefixTransitive(target, op.target, p);
    }
  }

  lemma PrefixTransitive(a: Path, b: Path, c: Path)
    ensures a <= b && b <= c ==> a <= c
  {
  }

  /** Two prefixes of one path are comparable. */
  lemma PrefixesCompare(a: Path, b: Path, p: Path)
    ensures a <= p && b <= p && |a| <= |b| ==> a <= b
  {
  }

  /** `link_tree`: remove whatever is at the target, then create the image's entries in walk order. */
  function LinkOps(job: Job, order: seq<Path>): seq<Op>
    requires forall r :: r in order ==> r in job.image
  {
    [Clear(Target(job))] + seq(|order|, i requires 0 <= i < |order| => Put(Target(job) + order[i], job.image[order[i]]))
  }

  lemma {:induction false} PutsAt(job: Job, order: seq<Path>, p: Path, v: Option<Entry>)
    requires (forall r :: r in order ==> r in job.image) && Target(job) <= p
    ensures var r := p[|Target(job)|..];
            At(LinkOps(job, order)[1..], p, v) == if r in order then Some(job.image[r]) else v
    decreases |order|
  {
    var puts := LinkOps(job, order)[1..];
    var r := p[|Target(job)|..];
    assert p == Target(job) + r;
    if order != [] {
      var v' := Step(puts[0], p, v);
      assert Target(job) + order[0] == p <==> order[0] == r by {
        assert (Target(job) + order[0])[|Target(job)|..] == order[0];
      }
      PutsAt(job, order[1..], p, v');
      assert puts[1..] == LinkOps(job, order[1..])[1..];
      assert order == [order[0]] + order[1..];
    }
  }

  /** Any walk order that visits the whole image realises the job. */
  lemma LinkTreeRealises(job: Job, order: seq<Path>)
    requires (forall r :: r in order ==> r in job.image) && forall r :: r in job.image ==> r in order
    ensures Realises(job, LinkOps(job, order))
  {
    var ops := LinkOps(job, order);
    forall p, v: Option<Entry> | Target(job) <= p
      ensures At(ops, p, v) == Get(job.image, p[|Target(job)|..])
    {
      PutsAt(job, order, p, None);
    }
  }

  // ---------------------------------------------------------------- the specification

  ghost predicate IsTargetOf(jobs: seq<Job>, i: int, p: Path)
  {
    0 <= i < |jobs| && Target(jobs[i]) <= p
  }

  /** Package `i` has the longest target that is a prefix of `p`. */
  ghost predicate Decides(jobs: seq<Job>, i: int, p: Path)
  {
    IsTargetOf(jobs, i, p) && forall k :: IsTargetOf(jobs, k, p) ==> |Target(jobs[k])| <= |Target(jobs[i])|
  }

  function Placed(jobs: seq<Job>, i: nat, p: Path): Option<Entry>
    requires i < |jobs| && Target(jobs[i]) <= p
  {
    Get(jobs[i].image, p[|Target(jobs[i])|..])
  }

  /** Each path is decided by the longest package target that is a prefix of it. */
  ghost predicate Specified(jobs: seq<Job>, before: Tree, after: Tree)
  {
    forall p ::
      && (forall i :: Decides(jobs, i, p) ==> Get(after, p) == Placed(jobs, i, p))
      && ((forall i :: !IsTargetOf(jobs, i, p)) ==> Get(after, p) == Get(before, p))
  }

  ghost predicate LongestAmong(jobs: seq<Job>, n: nat, d: int, p: Path)
  {
    && 0 <= d < n && IsTargetOf(jobs, d, p)
    && forall k :: 0 <= k < n && IsTargetOf(jobs, k, p) ==> |Target(jobs[k])| <= |Target(jobs[d])|
  }

  lemma {:induction false} DeciderExists(jobs: seq<Job>, n: nat, p: Path, i: int)
    requires n <= |jobs| && 0 <= i < n && IsTargetOf(jobs, i, p)
    ensures exists d :: LongestAmong(jobs, n, d, p)
    decreases n
  {
    var last := n - 1;
    if exists k :: 0 <= k < last && IsTargetOf(jobs, k, p) {
      var k :| 0 <= k < last && IsTargetOf(jobs, k, p);
      DeciderExists(jobs, last, p, k);
      var d :| LongestAmong(jobs, last, d, p);
      if IsTargetOf(jobs, last, p) && |Target(jobs[last])| > |Target(jobs[d])| {
        assert LongestAmong(jobs, n, last, p);
      } else {
        assert LongestAmong(jobs, n, d, p);
      }
    } else {
      assert LongestAmong(jobs, n, last, p);
    }
  }

  /** The specification leaves no freedom: it determines the whole tree. */
  lemma SpecifiedUnique(jobs: seq<Job>, before: Tree, a: Tree, b: Tree)
    requires Specified(jobs, before, a) && Specified(jobs, before, b)
    ensures a == b
  {
    forall p
      ensures Get(a, p) == Get(b, p)
    {
      if exists i :: IsTargetOf(jobs, i, p) {
        var i :| IsTargetOf(jobs, i, p);
        DeciderExists(jobs, |jobs|, p, i);
        var d :| LongestAmong(jobs, |jobs|, d, p);
        assert Decides(jobs, d, p);
      }
    }
    assert forall p :: p in a <==> Get(a, p).Some?;
    assert forall p :: p in b <==> Get(b, p).Some?;
    assert forall p :: p in a ==> a[p] == Get(a, p).value == Get(b, p).value;
  }

  // ---------------------------------------------------------------- the serial pass

  ghost predicate StrictlySorted(jobs: seq<Job>)
  {
    forall i, j :: 0 <= i < j < |jobs| ==> Less(jobs[i].path, jobs[j].path)
  }

  lemma SortedTargets(jobs: seq<Job>, i: nat, k: nat)
    requires StrictlySorted(jobs) && i < k < |jobs|
    ensures !(Target(jobs[k]) <= Target(jobs[i]))
  {
    var (a, b) := (jobs[i].path, jobs[k].path);
    JoinSplit(a);
    JoinSplit(b);
    LessIrreflexive(a);
    assert Split(a) != Split(b);
    if Split(b) < Split(a) {
      InsideSortsAfter(b, a);
      LessTransitive(a, b, a);
    }
  }

  function Concat(programs: seq<seq<Op>>): seq<Op>
  {
    if programs == [] then [] else Concat(programs[..|programs| - 1]) + programs[|programs| - 1]
  }

  ghost predicate AllRealise(jobs: seq<Job>, programs: seq<seq<Op>>)
  {
    |programs| == |jobs| && forall i :: 0 <= i < |jobs| ==> Realises(jobs[i], programs[i])
  }

  /** Of the first `n` packages, `i` is the last whose target contains `p`. */
  ghost predicate LastAbove(jobs: seq<Job>, n: nat, i: int, p: Path)
  {
    0 <= i < n && IsTargetOf(jobs, i, p) && forall k :: i < k < n ==> !IsTargetOf(jobs, k, p)
  }

  /** After the first `n` packages the last one whose target contains `p` has decided it. */
  lemma {:induction false} SerialAt(jobs: seq<Job>, programs: seq<seq<Op>>, n: nat, p: Path, v: Option<Entry>)
    requires AllRealise(jobs, programs) && n <= |jobs|
    ensures var after := At(Concat(programs[..n]), p, v);
            && ((forall i :: 0 <= i < n ==> !IsTargetOf(jobs, i, p)) ==> after == v)
            && (forall i :: LastAbove(jobs, n, i, p) ==> after == Placed(jobs, i, p))
    decreases n
  {
    hide Realises, At;
    if n > 0 {
      var m := n - 1;
      SerialAt(jobs, programs, m, p, v);
      assert programs[..n][..m] == programs[..m];
      var before := At(Concat(programs[..m]), p, v);
      AtAppend(Concat(programs[..m]), programs[m], p, v);
      if IsTargetOf(jobs, m, p) {
        RealisedAt(jobs[m], programs[m], p, before);
      } else {
        RealisedOutside(jobs[m], programs[m], p, before);
        forall i | LastAbove(jobs, n, i, p)
          ensures LastAbove(jobs, m, i, p)
        {
        }
      }
    } else {
      AtNothing(p, v);
    }
  }

  lemma AtNothing(p: Path, v: Option<Entry>)
    ensures At([], p, v) == v
  {
  }

  lemma RealisedAt(job: Job, ops: seq<Op>, p: Path, v: Option<Entry>)
    requires Realises(job, ops) && Target(job) <= p
    ensures At(ops, p, v) == Get(job.image, p[|Target(job)|..])
  {
  }

  lemma RealisedOutside(job: Job, ops: seq<Op>, p: Path, v: Option<Entry>)
    requires Realises(job, ops) && !(Target(job) <= p)
    ensures At(ops, p, v) == v
  {
    OutsideUntouched(ops, Target(job), p, v);
  }

  /** The serial pass over a path-sorted lock builds the specified tree. */
  lemma SerialIsSpecified(jobs: seq<Job>, programs: seq<seq<Op>>, before: Tree)
    requires StrictlySorted(jobs) && AllRealise(jobs, programs)
    ensures Specified(jobs, before, ApplyAll(before, Concat(programs)))
  {
    hide Realises, Less;
    var after := ApplyAll(before, Concat(programs));
    assert programs[..|jobs|] == programs;
    forall p
      ensures forall i :: Decides(jobs, i, p) ==> Get(after, p) == Placed(jobs, i, p)
      ensures (forall i :: !IsTargetOf(jobs, i, p)) ==> Get(after, p) == Get(before, p)
    {
      ApplyAllAt(before, Concat(programs), p);
      SerialAt(jobs, programs, |jobs|, p, Get(before, p));
      forall i | Decides(jobs, i, p)
        ensures LastAbove(jobs, |jobs|, i, p)
      {
        forall k | i < k < |jobs|
          ensures !IsTargetOf(jobs, k, p)
        {
          SortedTargets(jobs, i, k);
          PrefixesCompare(Target(jobs[k]), Target(jobs[i]), p);
        }
      }
    }
  }

  // ---------------------------------------------------------------- depth-ordered waves

  /** What the scheduler did in one wave: each operation with the job whose worker issued it. */
  type Trace = seq<(nat, Op)>

  function OpsOf(trace: Trace): (r: seq<Op>)
    ensures |r| == |trace|
  {
    seq(|trace|, i requires 0 <= i < |trace| => trace[i].1)
  }

  /** The operations of one job in the order its worker issued them. */
  function Project(trace: Trace, j: nat): seq<Op>
  {
    if trace == [] then []
    else (if trace[0].0 == j then [trace[0].1] else []) + Project(trace[1..], j)
  }

  /** The operations of a set of jobs in the order they were issued. */
  function Keep(trace: Trace, group: set<nat>): seq<Op>
  {
    if trace == [] then []
    else (if trace[0].0 in group then [trace[0].1] else []) + Keep(trace[1..], group)
  }

  /** The operations of a group's first `n` jobs, one job after the other in work order. */
  function OneByOne(trace: Trace, group: set<nat>, n: nat): seq<Op>
  {
    if n == 0 then []
    else OneByOne(trace, group, n - 1) + (if n - 1 in group then Project(trace, n - 1) else [])
  }

  /** Work indices of the packages at one depth, in work order. */
  function IndicesAt(jobs: seq<Job>, n: nat, depth: int): seq<int>
    requires n <= |jobs|
  {
    if n == 0 then []
    else IndicesAt(jobs, n - 1, depth) + (if Depth(jobs[n - 1]) == depth then [n - 1] else [])
  }

  lemma {:induction false} IndicesAtAre(jobs: seq<Job>, n: nat, depth: int, j: int)
    requires n <= |jobs|
    ensures j in IndicesAt(jobs, n, depth) <==> 0 <= j < n && Depth(jobs[j]) == depth
  {
    if n > 0 {
      IndicesAtAre(jobs, n - 1, depth, j);
    }
  }

  /** The chunk of the wave, and so the worker, that package `i` falls to. */
  function ChunkOf(jobs: seq<Job>, workers: nat, i: nat): nat
    requires i < |jobs|
  {
    var size := |IndicesAt(jobs, |jobs|, Depth(jobs[i]))|;
    var position := |IndicesAt(jobs, i, Depth(jobs[i]))|;
    position / ChunkSize(size, workers)
  }

  /** `size` packages in equal chunks for at most `workers` workers. */
  function ChunkSize(size: nat, workers: nat): (chunk: nat)
    ensures chunk > 0
  {
    var hands := if workers < size then workers else size;
    if hands == 0 then 1
    else
      var chunk := (size + hands - 1) / hands;
      if chunk == 0 then 1 else chunk
  }

  /** Chunks are as small as they can be for the packages to fit into one chunk per worker. */
  lemma ChunkSizeIs(size: nat, workers: nat, position: nat)
    requires workers > 0 && position < size
    ensures position / ChunkSize(size, workers) < workers
    ensures ChunkSize(size, workers) > 1 ==> (ChunkSize(size, workers) - 1) * workers < size
  {
    var (hands, chunk) := (if workers < size then workers else size, ChunkSize(size, workers));
    assert chunk == (size + hands - 1) / hands;
    CeilingIs(size, hands);
    if position / chunk >= hands {
      assert chunk * (position / chunk) <= position;
      Times(hands, position / chunk, chunk);
    }
    if chunk > 1 && workers > size {
      assert hands == size && chunk == 1 by { CeilingOfSelf(size); }
    }
  }

  lemma Times(a: nat, b: nat, c: nat)
    requires a <= b
    ensures c * a <= c * b
  {
  }

  lemma CeilingIs(size: nat, hands: nat)
    requires hands > 0 && size > 0
    ensures var chunk := (size + hands - 1) / hands; chunk > 0 && chunk * hands >= size && (chunk - 1) * hands < size
  {
    var (q, r) := ((size + hands - 1) / hands, (size + hands - 1) % hands);
    assert size + hands - 1 == hands * q + r && 0 <= r < hands;
    assert (q - 1) * hands == q * hands - hands;
  }

  lemma CeilingOfSelf(size: nat)
    requires size > 0
    ensures (size + size - 1) / size == 1
  {
    assert size + size - 1 == size * 1 + (size - 1);
  }

  predicate SameChunk(jobs: seq<Job>, workers: nat, i: nat, j: nat)
    requires i < |jobs| && j < |jobs|
  {
    Depth(jobs[i]) == Depth(jobs[j]) && ChunkOf(jobs, workers, i) == ChunkOf(jobs, workers, j)
  }

  /** The packages in the chunk of `i`. */
  function Mates(jobs: seq<Job>, workers: nat, i: nat): set<nat>
    requires i < |jobs|
  {
    set j: nat | j < |jobs| && SameChunk(jobs, workers, i, j)
  }

  /**
   Any interleaving of the wave's chunks: each package runs its own link in order, and the packages
   of a chunk follow one another in work order.
   */
  ghost predicate WaveSchedule(jobs: seq<Job>, workers: nat, depth: nat, trace: Trace)
  {
    && (forall i :: 0 <= i < |trace| ==> trace[i].0 < |jobs| && Depth(jobs[trace[i].0]) == depth)
    && (forall j :: 0 <= j < |jobs| && Depth(jobs[j]) == depth ==> Realises(jobs[j], Project(trace, j)))
    && (forall j :: 0 <= j < |jobs| && Depth(jobs[j]) == depth ==>
          Keep(trace, Mates(jobs, workers, j)) == OneByOne(trace, Mates(jobs, workers, j), |jobs|))
  }

  lemma {:induction false} InProjection(trace: Trace, i: nat)
    requires i < |trace|
    ensures trace[i].1 in Project(trace, trace[i].0)
    decreases |trace|
  {
    if i > 0 {
      InProjection(trace[1..], i - 1);
    }
  }

  /** Where only a group acts, the interleaving looks like the group running alone. */
  lemma {:induction false} AtKeep(trace: Trace, group: set<nat>, p: Path, v: Option<Entry>)
    requires forall i, w :: 0 <= i < |trace| && trace[i].0 !in group ==> Step(trace[i].1, p, w) == w
    ensures At(OpsOf(trace), p, v) == At(Keep(trace, group), p, v)
    decreases |trace|
  {
    if trace != [] {
      var v' := Step(trace[0].1, p, v);
      assert OpsOf(trace)[1..] == OpsOf(trace[1..]);
      AtKeep(trace[1..], group, p, v');
      if trace[0].0 in group {
        assert Keep(trace, group)[1..] == Keep(trace[1..], group);
      } else {
        assert Keep(trace, group) == Keep(trace[1..], group);
      }
    }
  }

  /** Of the group's first `n` packages, `i` is the last whose target contains `p`. */
  ghost predicate LastOfGroup(jobs: seq<Job>, group: set<nat>, n: nat, i: nat, p: Path)
  {
    i < n && i in group && IsTargetOf(jobs, i, p) && forall k :: i < k < n && k in group ==> !IsTargetOf(jobs, k, p)
  }

  /** One after the other, the last package of the group whose target contains `p` decides it. */
  lemma {:induction false} OneByOneAt(
    jobs: seq<Job>, trace: Trace, group: set<nat>, n: nat, p: Path, v: Option<Entry>)
    requires n <= |jobs| && forall j :: j in group ==> j < |jobs| && Realises(jobs[j], Project(trace, j))
    ensures var after := At(OneByOne(trace, group, n), p, v);
            forall i :: LastOfGroup(jobs, group, n, i, p) ==> after == Placed(jobs, i, p)
    decreases n
  {
    hide Realises, At;
    if n > 0 {
      var m := n - 1;
      OneByOneAt(jobs, trace, group, m, p, v);
      var before := At(OneByOne(trace, group, m), p, v);
      if m in group {
        AtAppend(OneByOne(trace, group, m), Project(trace, m), p, v);
        if IsTargetOf(jobs, m, p) {
          RealisedAt(jobs[m], Project(trace, m), p, before);
        } else {
          RealisedOutside(jobs[m], Project(trace, m), p, before);
        }
      } else {
        assert OneByOne(trace, group, n) == OneByOne(trace, group, m);
      }
      forall i | LastOfGroup(jobs, group, n, i, p) && i != m
        ensures LastOfGroup(jobs, group, m, i, p)
      {
      }
    }
  }

  /** Every operation of the wave stays below its own job's target. */
  lemma WaveConfined(jobs: seq<Job>, workers: nat, depth: nat, trace: Trace, i: nat)
    requires WaveSchedule(jobs, workers, depth, trace) && i < |trace|
    ensures Confined(trace[i].1, Target(jobs[trace[i].0]))
  {
    InProjection(trace, i);
  }

  /** Packages nested in one another are at different depths. */
  ghost predicate NestsThroughNodeModules(jobs: seq<Job>)
  {
    forall i, j :: 0 <= i < |jobs| && 0 <= j < |jobs| && Target(jobs[i]) < Target(jobs[j]) ==> Depth(jobs[i]) < Depth(jobs[j])
  }

  /** Packages nested in one another are at different depths, or fall to one worker. */
  ghost predicate ChunksNest(jobs: seq<Job>, workers: nat)
  {
    forall i, j :: 0 <= i < |jobs| && 0 <= j < |jobs| && Target(jobs[i]) < Target(jobs[j]) ==>
      Depth(jobs[i]) < Depth(jobs[j]) || SameChunk(jobs, workers, i, j)
  }

  /** `i` is the wave's package with the longest target that contains `p`. */
  ghost predicate DecidesInWave(jobs: seq<Job>, depth: nat, i: int, p: Path)
  {
    && InWave(jobs, i, depth) && IsTargetOf(jobs, i, p)
    && forall k :: InWave(jobs, k, depth) && IsTargetOf(jobs, k, p) ==> |Target(jobs[k])| <= |Target(jobs[i])|
  }

  /** All packages of a wave above one path fall to one worker. */
  lemma OneChunkAbove(jobs: seq<Job>, workers: nat, i: nat, j: nat, p: Path)
    requires ChunksNest(jobs, workers) && StrictlySorted(jobs)
    requires i < |jobs| && j < |jobs| && Depth(jobs[i]) == Depth(jobs[j])
    ensures IsTargetOf(jobs, i, p) && IsTargetOf(jobs, j, p) ==> SameChunk(jobs, workers, i, j)
  {
    hide Depth, ChunkOf;
    if IsTargetOf(jobs, i, p) && IsTargetOf(jobs, j, p) && i != j {
      PrefixesCompare(Target(jobs[i]), Target(jobs[j]), p);
      PrefixesCompare(Target(jobs[j]), Target(jobs[i]), p);
      assert Target(jobs[i]) != Target(jobs[j]) by { SortedDiffer(jobs, i, j); }
    }
  }

  lemma SortedDiffer(jobs: seq<Job>, i: nat, j: nat)
    requires StrictlySorted(jobs) && i < |jobs| && j < |jobs| && i != j
    ensures Target(jobs[i]) != Target(jobs[j])
  {
    SortedTargets(jobs, if i < j then i else j, if i < j then j else i);
  }

  /** One wave, whatever the interleaving: the longest of its targets containing `p` decides `p`, else nothing happens to `p`. */
  lemma WaveAt(jobs: seq<Job>, workers: nat, depth: nat, trace: Trace, p: Path, v: Option<Entry>)
    requires ChunksNest(jobs, workers) && StrictlySorted(jobs) && WaveSchedule(jobs, workers, depth, trace)
    ensures forall j :: DecidesInWave(jobs, depth, j, p) ==> At(OpsOf(trace), p, v) == Placed(jobs, j, p)
    ensures (forall j :: InWave(jobs, j, depth) ==> !IsTargetOf(jobs, j, p)) ==> At(OpsOf(trace), p, v) == v
  {
    hide Realises, Depth, ChunkOf, ChunksNest, StrictlySorted;
    forall j | DecidesInWave(jobs, depth, j, p)
      ensures At(OpsOf(trace), p, v) == Placed(jobs, j, p)
    {
      ChunkDecides(jobs, workers, depth, trace, j, p, v);
    }
    if forall j :: InWave(jobs, j, depth) ==> !IsTargetOf(jobs, j, p) {
      forall i, w | 0 <= i < |trace|
        ensures Step(trace[i].1, p, w) == w
      {
        WaveConfined(jobs, workers, depth, trace, i);
        assert InWave(jobs, trace[i].0, depth);
        ConfinedStep(trace[i].1, Target(jobs[trace[i].0]), p, w);
      }
      AtKeep(trace, {}, p, v);
      KeepsNothing(trace);
    }
  }

  lemma {:induction false} KeepsNothing(trace: Trace)
    ensures Keep(trace, {}) == []
    decreases |trace|
  {
    if trace != [] {
      KeepsNothing(trace[1..]);
    }
  }

  lemma ChunkDecides(jobs: seq<Job>, workers: nat, depth: nat, trace: Trace, j: nat, p: Path, v: Option<Entry>)
    requires ChunksNest(jobs, workers) && StrictlySorted(jobs) && WaveSchedule(jobs, workers, depth, trace)
    requires DecidesInWave(jobs, depth, j, p)
    ensures At(OpsOf(trace), p, v) == Placed(jobs, j, p)
  {
    hide Realises, Depth, ChunkOf, ChunksNest, StrictlySorted, OneByOne, Keep;
    var group := Mates(jobs, workers, j);
    forall i, w | 0 <= i < |trace| && trace[i].0 !in group
      ensures Step(trace[i].1, p, w) == w
    {
      WaveConfined(jobs, workers, depth, trace, i);
      OneChunkAbove(jobs, workers, j, trace[i].0, p);
      ConfinedStep(trace[i].1, Target(jobs[trace[i].0]), p, w);
    }
    AtKeep(trace, group, p, v);
    OneByOneAt(jobs, trace, group, |jobs|, p, v);
    forall k | j < k < |jobs| && k in group
      ensures !IsTargetOf(jobs, k, p)
    {
      SortedTargets(jobs, j, k);
      PrefixesCompare(Target(jobs[k]), Target(jobs[j]), p);
      assert InWave(jobs, k, depth);
    }
    assert LastOfGroup(jobs, group, |jobs|, j, p);
  }

  ghost predicate InWave(jobs: seq<Job>, j: int, depth: nat)
  {
    0 <= j < |jobs| && Depth(jobs[j]) == depth
  }

  lemma {:induction false} NoProjection(trace: Trace, j: nat)
    requires forall i :: 0 <= i < |trace| ==> trace[i].0 != j
    ensures Project(trace, j) == []
    decreases |trace|
  {
    if trace != [] {
      NoProjection(trace[1..], j);
    }
  }

  /** All operations of the waves below `depth`, in wave order. */
  function WaveOps(traces: seq<Trace>): seq<Op>
  {
    if traces == [] then [] else WaveOps(traces[..|traces| - 1]) + OpsOf(traces[|traces| - 1])
  }

  ghost predicate AllWaves(jobs: seq<Job>, workers: nat, traces: seq<Trace>)
  {
    forall d :: 0 <= d < |traces| ==> WaveSchedule(jobs, workers, d, traces[d])
  }

  /** Of the packages above wave `depth`, `i` has the longest target that contains `p`. */
  ghost predicate LongestBelow(jobs: seq<Job>, i: int, depth: nat, p: Path)
  {
    && IsTargetOf(jobs, i, p) && Depth(jobs[i]) < depth
    && forall k :: IsTargetOf(jobs, k, p) && Depth(jobs[k]) < depth ==> |Target(jobs[k])| <= |Target(jobs[i])|
  }

  /** A shorter target containing `p` is no deeper. */
  lemma ShorterIsNoDeeper(a: Job, b: Job, p: Path)
    requires Target(a) <= p && Target(b) <= p && |Target(a)| <= |Target(b)|
    ensures Depth(a) <= Depth(b)
  {
    PrefixesCompare(Target(a), Target(b), p);
    var rest := Target(b)[|Target(a)|..];
    assert Target(b) == Target(a) + rest;
    CountAppend(Target(a), rest);
  }

  lemma {:induction false} WavesAt(jobs: seq<Job>, workers: nat, traces: seq<Trace>, depth: nat, p: Path, v: Option<Entry>)
    requires ChunksNest(jobs, workers) && StrictlySorted(jobs) && AllWaves(jobs, workers, traces) && depth <= |traces|
    ensures var after := At(WaveOps(traces[..depth]), p, v);
            && (forall i :: LongestBelow(jobs, i, depth, p) ==> after == Placed(jobs, i, p))
            && ((forall i :: IsTargetOf(jobs, i, p) ==> Depth(jobs[i]) >= depth) ==> after == v)
    decreases depth
  {
    hide WaveSchedule, ChunksNest, StrictlySorted, Depth;
    if depth > 0 {
      var d := depth - 1;
      WavesAt(jobs, workers, traces, d, p, v);
      assert traces[..depth][..d] == traces[..d];
      var before := At(WaveOps(traces[..d]), p, v);
      AtAppend(WaveOps(traces[..d]), OpsOf(traces[d]), p, v);
      WaveAt(jobs, workers, d, traces[d], p, before);
      forall i | LongestBelow(jobs, i, depth, p)
        ensures At(OpsOf(traces[d]), p, before) == Placed(jobs, i, p)
      {
        if Depth(jobs[i]) == d {
          assert DecidesInWave(jobs, d, i, p);
        } else {
          assert LongestBelow(jobs, i, d, p);
          NoneInWave(jobs, i, d, p);
        }
      }
    }
  }

  lemma NoneInWave(jobs: seq<Job>, i: int, d: nat, p: Path)
    requires LongestBelow(jobs, i, d + 1, p) && Depth(jobs[i]) < d
    ensures forall k :: InWave(jobs, k, d) ==> !IsTargetOf(jobs, k, p)
  {
    hide Depth;
    forall k | InWave(jobs, k, d)
      ensures !IsTargetOf(jobs, k, p)
    {
      if IsTargetOf(jobs, k, p) {
        ShorterIsNoDeeper(jobs[k], jobs[i], p);
      }
    }
  }

  /** Depth-ordered waves build the specified tree under every interleaving of their chunks. */
  lemma WavesAreSpecified(jobs: seq<Job>, workers: nat, traces: seq<Trace>, before: Tree)
    requires ChunksNest(jobs, workers) && StrictlySorted(jobs) && AllWaves(jobs, workers, traces)
    requires forall j :: 0 <= j < |jobs| ==> Depth(jobs[j]) < |traces|
    ensures Specified(jobs, before, ApplyAll(before, WaveOps(traces)))
  {
    hide AllWaves, ChunksNest, StrictlySorted, Depth, WaveOps;
    var after := ApplyAll(before, WaveOps(traces));
    assert traces[..|traces|] == traces;
    forall p
      ensures forall i :: Decides(jobs, i, p) ==> Get(after, p) == Placed(jobs, i, p)
      ensures (forall i :: !IsTargetOf(jobs, i, p)) ==> Get(after, p) == Get(before, p)
    {
      ApplyAllAt(before, WaveOps(traces), p);
      WavesAt(jobs, workers, traces, |traces|, p, Get(before, p));
      forall i | Decides(jobs, i, p)
        ensures LongestBelow(jobs, i, |traces|, p)
      {
      }
    }
  }

  /** Waves and serial pass build the same tree. */
  lemma WavesEqualSerial(jobs: seq<Job>, workers: nat, programs: seq<seq<Op>>, traces: seq<Trace>, before: Tree)
    requires StrictlySorted(jobs) && ChunksNest(jobs, workers)
    requires AllRealise(jobs, programs) && AllWaves(jobs, workers, traces)
    requires forall j :: 0 <= j < |jobs| ==> Depth(jobs[j]) < |traces|
    ensures ApplyAll(before, WaveOps(traces)) == ApplyAll(before, Concat(programs))
  {
    hide Specified, AllRealise, AllWaves, ChunksNest;
    SerialIsSpecified(jobs, programs, before);
    WavesAreSpecified(jobs, workers, traces, before);
    SpecifiedUnique(jobs, before, ApplyAll(before, WaveOps(traces)), ApplyAll(before, Concat(programs)));
  }

  // ---------------------------------------------------------------- npm-shaped paths

  predicate Scope(part: string)
  {
    |part| > 0 && part[0] == '@'
  }

  /** `node_modules/name` or `node_modules/@scope/name`, any number of times. */
  predicate PackagePath(parts: seq<string>)
    decreases |parts|
  {
    && |parts| >= 2 && parts[0] == "node_modules" && parts[1] != "node_modules"
    && if Scope(parts[1]) then |parts| >= 3 && parts[2] != "node_modules" && (|parts| == 3 || PackagePath(parts[3..]))
       else |parts| == 2 || PackagePath(parts[2..])
  }

  lemma {:induction false} CountAppend(a: seq<string>, b: seq<string>)
    ensures CountNodeModules(a + b) == CountNodeModules(a) + CountNodeModules(b)
    decreases |a|
  {
    if a == [] {
      assert a + b == b;
    } else {
      assert (a + b)[1..] == a[1..] + b;
      CountAppend(a[1..], b);
    }
  }

  lemma {:induction false} NestedStartsAfresh(a: seq<string>, b: seq<string>)
    requires PackagePath(a) && PackagePath(a + b) && b != []
    ensures b[0] == "node_modules"
    decreases |a|
  {
    var k := if Scope(a[1]) then 3 else 2;
    assert (a + b)[k..] == a[k..] + b;
    if |a| == k {
      assert a[k..] + b == b;
    } else {
      NestedStartsAfresh(a[k..], b);
    }
  }

  /** Between npm-shaped package paths every nesting crosses a `node_modules` directory. */
  lemma PackagePathsNest(jobs: seq<Job>)
    requires forall i :: 0 <= i < |jobs| ==> PackagePath(Target(jobs[i]))
    ensures NestsThroughNodeModules(jobs)
  {
    hide PackagePath;
    forall i, j | 0 <= i < |jobs| && 0 <= j < |jobs| && Target(jobs[i]) < Target(jobs[j])
      ensures Depth(jobs[i]) < Depth(jobs[j])
    {
      var a := Target(jobs[i]);
      var b := Target(jobs[j])[|a|..];
      assert a + b == Target(jobs[j]);
      NestedStartsAfresh(a, b);
      CountAppend(a, b);
    }
  }

  // ---------------------------------------------------------------- exactly when waves are safe

  function Bare(paths: seq<string>): seq<Job>
  {
    seq(|paths|, i requires 0 <= i < |paths| => Job(paths[i], map[]))
  }

  ghost predicate HavePaths(jobs: seq<Job>, paths: seq<string>)
  {
    |jobs| == |paths| && forall k :: 0 <= k < |jobs| ==> jobs[k].path == paths[k]
  }

  ghost predicate EnoughWaves(jobs: seq<Job>, traces: seq<Trace>)
  {
    forall k :: 0 <= k < |jobs| ==> Depth(jobs[k]) < |traces|
  }

  /** For these package paths and workers, whatever the images, the walk orders and the schedule. */
  ghost predicate WavesAlwaysAgree(paths: seq<string>, workers: nat)
  {
    forall jobs, programs, traces, before: Tree ::
      HavePaths(jobs, paths) && AllRealise(jobs, programs) && AllWaves(jobs, workers, traces) && EnoughWaves(jobs, traces) ==>
        ApplyAll(before, WaveOps(traces)) == ApplyAll(before, Concat(programs))
  }

  /** A nested pair in one wave: the inner image holds one file, every other image is empty. */
  function Adversary(paths: seq<string>, inner: nat, name: string): seq<Job>
  {
    seq(|paths|, k requires 0 <= k < |paths| => Job(paths[k], if k == inner then map[[name] := File("")] else map[]))
  }

  function LinkOf(jobs: seq<Job>, k: nat, inner: nat, name: string): seq<Op>
    requires k < |jobs|
  {
    [Clear(Target(jobs[k]))] + (if k == inner then [Put(Target(jobs[k]) + [name], File(""))] else [])
  }

  function Tagged(k: nat, ops: seq<Op>): (r: Trace)
    ensures |r| == |ops|
  {
    seq(|ops|, i requires 0 <= i < |ops| => (k, ops[i]))
  }

  /** The first `n` jobs at this depth one after the other: those in `late`, or those not. */
  function Part(jobs: seq<Job>, n: nat, depth: nat, late: set<nat>, which: bool, inner: nat, name: string): Trace
    requires n <= |jobs|
  {
    if n == 0 then []
    else
      Part(jobs, n - 1, depth, late, which, inner, name) +
        (if Depth(jobs[n - 1]) == depth && (n - 1 in late) == which then Tagged(n - 1, LinkOf(jobs, n - 1, inner, name)) else [])
  }

  /** A legal schedule in which the worker of the `late` chunk comes last. */
  function LateChunk(jobs: seq<Job>, depth: nat, late: set<nat>, inner: nat, name: string): Trace
  {
    Part(jobs, |jobs|, depth, late, false, inner, name) + Part(jobs, |jobs|, depth, late, true, inner, name)
  }

  lemma {:induction false} KeepAppend(a: Trace, b: Trace, group: set<nat>)
    ensures Keep(a + b, group) == Keep(a, group) + Keep(b, group)
    decreases |a|
  {
    if a == [] {
      assert a + b == b;
    } else {
      KeepAppend(a[1..], b, group);
      var head := if a[0].0 in group then [a[0].1] else [];
      assert Keep(a + b, group) == head + Keep(a[1..] + b, group) by {
        assert (a + b)[1..] == a[1..] + b;
      }
      assert Keep(a, group) == head + Keep(a[1..], group);
      assert head + (Keep(a[1..], group) + Keep(b, group)) == (head + Keep(a[1..], group)) + Keep(b, group);
    }
  }

  lemma {:induction false} KeepTagged(k: nat, ops: seq<Op>, group: set<nat>)
    ensures Keep(Tagged(k, ops), group) == if k in group then ops else []
    decreases |ops|
  {
    if ops != [] {
      assert Tagged(k, ops)[1..] == Tagged(k, ops[1..]);
      KeepTagged(k, ops[1..], group);
      assert ops == [ops[0]] + ops[1..];
    }
  }

  lemma {:induction false} ProjectIsKeep(trace: Trace, k: nat)
    ensures Project(trace, k) == Keep(trace, {k})
    decreases |trace|
  {
    if trace != [] {
      ProjectIsKeep(trace[1..], k);
    }
  }

  /** The links of the group's first `n` jobs, one job after the other. */
  function Links(jobs: seq<Job>, group: set<nat>, n: nat, inner: nat, name: string): seq<Op>
    requires n <= |jobs|
  {
    if n == 0 then []
    else Links(jobs, group, n - 1, inner, name) + (if n - 1 in group then LinkOf(jobs, n - 1, inner, name) else [])
  }

  /** A group that is all in the part, or all out of it. */
  lemma {:induction false} KeepPart(
    jobs: seq<Job>, n: nat, depth: nat, late: set<nat>, which: bool, inner: nat, name: string, group: set<nat>, with: bool)
    requires n <= |jobs|
    requires forall k :: k in group && k < |jobs| ==> ((Depth(jobs[k]) == depth && (k in late) == which) <==> with)
    ensures Keep(Part(jobs, n, depth, late, which, inner, name), group) == if with then Links(jobs, group, n, inner, name) else []
  {
    hide Depth, LinkOf, Keep, Tagged;
    if n == 0 {
      NothingKept(group);
    } else {
      KeepPart(jobs, n - 1, depth, late, which, inner, name, group, with);
      var front := Part(jobs, n - 1, depth, late, which, inner, name);
      if Depth(jobs[n - 1]) == depth && (n - 1 in late) == which {
        KeepAppend(front, Tagged(n - 1, LinkOf(jobs, n - 1, inner, name)), group);
        KeepTagged(n - 1, LinkOf(jobs, n - 1, inner, name), group);
      } else {
        assert front + [] == front;
      }
    }
  }

  lemma NothingKept(group: set<nat>)
    ensures Keep([], group) == []
  {
  }

  /** What a group of the wave does in the late schedule, when it is late as a whole or not at all. */
  lemma KeepLate(jobs: seq<Job>, depth: nat, late: set<nat>, inner: nat, name: string, group: set<nat>, which: bool)
    requires forall k :: k in group ==> k < |jobs| && Depth(jobs[k]) == depth && (k in late) == which
    ensures Keep(LateChunk(jobs, depth, late, inner, name), group) == Links(jobs, group, |jobs|, inner, name)
  {
    hide Depth, Keep, Part, Links;
    var n := |jobs|;
    KeepAppend(Part(jobs, n, depth, late, false, inner, name), Part(jobs, n, depth, late, true, inner, name), group);
    KeepPart(jobs, n, depth, late, false, inner, name, group, !which);
    KeepPart(jobs, n, depth, late, true, inner, name, group, which);
  }

  lemma {:induction false} LinksOfOne(jobs: seq<Job>, k: nat, n: nat, inner: nat, name: string)
    requires n <= |jobs|
    ensures Links(jobs, {k}, n, inner, name) == if k < n then LinkOf(jobs, k, inner, name) else []
  {
    hide LinkOf;
    if n > 0 {
      LinksOfOne(jobs, k, n - 1, inner, name);
    }
  }

  lemma ProjectLate(jobs: seq<Job>, depth: nat, late: set<nat>, inner: nat, name: string, k: nat)
    requires k < |jobs| && Depth(jobs[k]) == depth
    ensures Project(LateChunk(jobs, depth, late, inner, name), k) == LinkOf(jobs, k, inner, name)
  {
    hide Depth, Keep, LinkOf, Links, LateChunk;
    ProjectIsKeep(LateChunk(jobs, depth, late, inner, name), k);
    KeepLate(jobs, depth, late, inner, name, {k}, k in late);
    LinksOfOne(jobs, k, |jobs|, inner, name);
  }

  lemma {:induction false} OneByOneIsLinks(
    jobs: seq<Job>, depth: nat, late: set<nat>, inner: nat, name: string, group: set<nat>, n: nat)
    requires n <= |jobs| && forall k :: k in group ==> k < |jobs| && Depth(jobs[k]) == depth
    ensures OneByOne(LateChunk(jobs, depth, late, inner, name), group, n) == Links(jobs, group, n, inner, name)
  {
    hide Depth, LateChunk, LinkOf;
    if n > 0 {
      OneByOneIsLinks(jobs, depth, late, inner, name, group, n - 1);
      if n - 1 in group {
        ProjectLate(jobs, depth, late, inner, name, n - 1);
      }
    }
  }

  /** Only jobs of the wave act, and `Put` belongs to the inner package. */
  lemma {:induction false} PartFits(jobs: seq<Job>, n: nat, depth: nat, late: set<nat>, which: bool, inner: nat, name: string)
    requires n <= |jobs|
    ensures forall t :: t in Part(jobs, n, depth, late, which, inner, name) ==>
              t.0 < |jobs| && Depth(jobs[t.0]) == depth && (t.0 in late) == which && (t.1.Put? ==> t.0 == inner)
  {
    hide Depth;
    if n > 0 {
      PartFits(jobs, n - 1, depth, late, which, inner, name);
    }
  }

  lemma LinkOfRealises(paths: seq<string>, inner: nat, name: string, k: nat)
    requires k < |paths|
    ensures var jobs := Adversary(paths, inner, name); Realises(jobs[k], LinkOf(jobs, k, inner, name))
  {
    hide Realises;
    var jobs := Adversary(paths, inner, name);
    if k == inner {
      LinkTreeRealises(jobs[k], [[name]]);
      assert LinkOps(jobs[k], [[name]]) == LinkOf(jobs, k, inner, name);
    } else {
      LinkTreeRealises(jobs[k], []);
      assert LinkOps(jobs[k], []) == LinkOf(jobs, k, inner, name);
    }
  }

  /** A chunk is late as a whole or not at all. */
  lemma MatesStayTogether(jobs: seq<Job>, workers: nat, outer: nat, j: nat, k: nat)
    requires outer < |jobs| && j < |jobs| && k in Mates(jobs, workers, j)
    ensures k < |jobs| && Depth(jobs[k]) == Depth(jobs[j]) && (k in Mates(jobs, workers, outer) <==> j in Mates(jobs, workers, outer))
  {
    hide Depth, ChunkOf;
  }

  lemma LateIsLegal(paths: seq<string>, workers: nat, depth: nat, outer: nat, inner: nat, name: string)
    requires outer < |paths| && inner < |paths|
    ensures var jobs := Adversary(paths, inner, name);
            WaveSchedule(jobs, workers, depth, LateChunk(jobs, depth, Mates(jobs, workers, outer), inner, name))
  {
    hide Realises, Depth, Mates, Keep, OneByOne, Part, LinkOf, Links;
    var jobs := Adversary(paths, inner, name);
    var late := Mates(jobs, workers, outer);
    var trace := LateChunk(jobs, depth, late, inner, name);
    LateFits(jobs, depth, late, inner, name);
    forall k | 0 <= k < |jobs| && Depth(jobs[k]) == depth
      ensures Realises(jobs[k], Project(trace, k))
    {
      LinkOfRealises(paths, inner, name, k);
      ProjectLate(jobs, depth, late, inner, name, k);
    }
    forall j | 0 <= j < |jobs| && Depth(jobs[j]) == depth
      ensures Keep(trace, Mates(jobs, workers, j)) == OneByOne(trace, Mates(jobs, workers, j), |jobs|)
    {
      var group := Mates(jobs, workers, j);
      forall k | k in group
        ensures k < |jobs| && Depth(jobs[k]) == depth && (k in late <==> j in late)
      {
        MatesStayTogether(jobs, workers, outer, j, k);
      }
      KeepLate(jobs, depth, late, inner, name, group, j in late);
      OneByOneIsLinks(jobs, depth, late, inner, name, group, |jobs|);
    }
  }

  lemma LateFits(jobs: seq<Job>, depth: nat, late: set<nat>, inner: nat, name: string)
    ensures var trace := LateChunk(jobs, depth, late, inner, name);
            forall i :: 0 <= i < |trace| ==>
              trace[i].0 < |jobs| && Depth(jobs[trace[i].0]) == depth && (trace[i].1.Put? ==> trace[i].0 == inner)
  {
    hide Depth, Part;
    var trace := LateChunk(jobs, depth, late, inner, name);
    var front := Part(jobs, |jobs|, depth, late, false, inner, name);
    var back := Part(jobs, |jobs|, depth, late, true, inner, name);
    PartFits(jobs, |jobs|, depth, late, false, inner, name);
    PartFits(jobs, |jobs|, depth, late, true, inner, name);
    forall i | 0 <= i < |trace|
      ensures trace[i] in front || trace[i] in back
    {
      assert trace[i] == if i < |front| then front[i] else back[i - |front|];
    }
  }

  lemma {:induction false} ClearsKeepNone(ops: seq<Op>, p: Path)
    requires forall i :: 0 <= i < |ops| ==> ops[i].Clear?
    ensures At(ops, p, None) == None
    decreases |ops|
  {
    if ops != [] {
      ClearsKeepNone(ops[1..], p);
    }
  }

  lemma OpsOfAppend(a: Trace, b: Trace)
    ensures OpsOf(a + b) == OpsOf(a) + OpsOf(b)
  {
  }

  lemma OpsOfTagged(k: nat, ops: seq<Op>)
    ensures OpsOf(Tagged(k, ops)) == ops
  {
  }

  /** The late chunk, from the outer package on, leaves nothing below that package's target. */
  lemma {:induction false} LatePartClears(
    jobs: seq<Job>, n: nat, depth: nat, late: set<nat>, outer: nat, inner: nat, name: string, p: Path, v: Option<Entry>)
    requires outer < n <= |jobs| && outer in late && inner !in late && Depth(jobs[outer]) == depth && Target(jobs[outer]) <= p
    ensures At(OpsOf(Part(jobs, n, depth, late, true, inner, name)), p, v) == None
    decreases n
  {
    hide Depth, Target, OpsOf, Tagged, At;
    var m := n - 1;
    var front := Part(jobs, m, depth, late, true, inner, name);
    if Depth(jobs[m]) == depth && m in late {
      var ops := LinkOf(jobs, m, inner, name);
      OpsOfAppend(front, Tagged(m, ops));
      OpsOfTagged(m, ops);
      AtAppend(OpsOf(front), ops, p, v);
      OneClear(Target(jobs[m]), p, At(OpsOf(front), p, v));
      assert ops == [Clear(Target(jobs[m]))];
    } else {
      assert front + [] == front;
    }
    if m > outer {
      LatePartClears(jobs, m, depth, late, outer, inner, name, p, v);
    }
  }

  lemma OneClear(target: Path, p: Path, v: Option<Entry>)
    ensures At([Clear(target)], p, v) == if target <= p then None else v
  {
    assert [Clear(target)][1..] == [];
  }

  function LateWaves(jobs: seq<Job>, n: nat, late: set<nat>, inner: nat, name: string): seq<Trace>
  {
    seq(n, depth requires 0 <= depth => LateChunk(jobs, depth, late, inner, name))
  }

  /** After the wave of the pair, nothing is left below the outer package's target. */
  lemma {:induction false} LateWavesLose(
    jobs: seq<Job>, n: nat, late: set<nat>, outer: nat, inner: nat, name: string, p: Path)
    requires outer < |jobs| && inner < |jobs| && outer in late && inner !in late
    requires Depth(jobs[outer]) == Depth(jobs[inner]) < n && Target(jobs[outer]) <= p
    ensures At(WaveOps(LateWaves(jobs, n, late, inner, name)), p, None) == None
  {
    hide Depth, Target, At, LateChunk, OpsOf;
    var depth := n - 1;
    var traces := LateWaves(jobs, n, late, inner, name);
    assert traces[..depth] == LateWaves(jobs, depth, late, inner, name);
    var before := At(WaveOps(traces[..depth]), p, None);
    AtAppend(WaveOps(traces[..depth]), OpsOf(traces[depth]), p, None);
    if depth == Depth(jobs[outer]) {
      LateChunkClears(jobs, depth, late, outer, inner, name, p, before);
    } else {
      LateWavesLose(jobs, depth, late, outer, inner, name, p);
      LaterWavesClear(jobs, depth, late, inner, name, p);
    }
  }

  /** The pair's own wave ends with the removal of the outer package and its mates. */
  lemma LateChunkClears(
    jobs: seq<Job>, depth: nat, late: set<nat>, outer: nat, inner: nat, name: string, p: Path, v: Option<Entry>)
    requires outer < |jobs| && outer in late && inner !in late && Depth(jobs[outer]) == depth && Target(jobs[outer]) <= p
    ensures At(OpsOf(LateChunk(jobs, depth, late, inner, name)), p, v) == None
  {
    hide Depth, Target, Part, OpsOf, At;
    var front := Part(jobs, |jobs|, depth, late, false, inner, name);
    var back := Part(jobs, |jobs|, depth, late, true, inner, name);
    OpsOfAppend(front, back);
    AtAppend(OpsOf(front), OpsOf(back), p, v);
    LatePartClears(jobs, |jobs|, depth, late, outer, inner, name, p, At(OpsOf(front), p, v));
  }

  /** No other wave puts anything. */
  lemma LaterWavesClear(jobs: seq<Job>, depth: nat, late: set<nat>, inner: nat, name: string, p: Path)
    requires inner < |jobs| && Depth(jobs[inner]) != depth
    ensures At(OpsOf(LateChunk(jobs, depth, late, inner, name)), p, None) == None
  {
    hide Depth, Target, At, Part, LateChunk;
    var trace := LateChunk(jobs, depth, late, inner, name);
    LateFits(jobs, depth, late, inner, name);
    ClearsKeepNone(OpsOf(trace), p);
  }

  lemma {:induction false} PieceNoLonger(s: string, i: nat)
    requires i < |Split(s)|
    ensures |Split(s)[i]| <= |s|
  {
    if s != "" {
      var rest := Split(s[1..]);
      PieceNoLonger(s[1..], if s[0] == '/' && i > 0 then i - 1 else if s[0] == '/' then 0 else i);
    }
  }

  function LongestPath(paths: seq<string>): (n: nat)
    ensures forall k :: 0 <= k < |paths| ==> |paths[k]| <= n
  {
    if paths == [] then 0
    else
      var rest := LongestPath(paths[..|paths| - 1]);
      assert forall k :: 0 <= k < |paths| - 1 ==> paths[..|paths| - 1][k] == paths[k];
      if |paths[|paths| - 1]| > rest then |paths[|paths| - 1]| else rest
  }

  /** A name longer than every package path, so no target ends in it. */
  function FreshName(paths: seq<string>): string
  {
    seq(LongestPath(paths) + 1, i => 'x')
  }

  lemma FreshEnds(paths: seq<string>, k: nat, p: Path)
    requires k < |paths|
    ensures Split(paths[k]) != p + [FreshName(paths)]
  {
    var parts := Split(paths[k]);
    PieceNoLonger(paths[k], |parts| - 1);
    assert |(p + [FreshName(paths)])[|p|]| == LongestPath(paths) + 1;
    assert |parts| == |p| + 1 ==> |parts[|p|]| <= LongestPath(paths);
  }

  function DeepestOf(jobs: seq<Job>): (n: nat)
    ensures forall k :: 0 <= k < |jobs| ==> Depth(jobs[k]) <= n
  {
    if jobs == [] then 0
    else
      var rest := DeepestOf(jobs[..|jobs| - 1]);
      assert forall k :: 0 <= k < |jobs| - 1 ==> jobs[..|jobs| - 1][k] == jobs[k];
      if Depth(jobs[|jobs| - 1]) > rest then Depth(jobs[|jobs| - 1]) else rest
  }

  /** The serial pass keeps the inner package's file. */
  lemma SerialKeepsInner(paths: seq<string>, inner: nat, programs: seq<seq<Op>>)
    requires StrictlySorted(Bare(paths)) && inner < |paths|
    requires AllRealise(Adversary(paths, inner, FreshName(paths)), programs)
    ensures Get(ApplyAll(map[], Concat(programs)), Split(paths[inner]) + [FreshName(paths)]) == Some(File(""))
  {
    hide Realises, AllRealise, Less, FreshName;
    var name := FreshName(paths);
    var jobs := Adversary(paths, inner, name);
    var p := Split(paths[inner]) + [name];
    assert StrictlySorted(jobs) by {
      assert forall k :: 0 <= k < |paths| ==> jobs[k].path == Bare(paths)[k].path;
    }
    SerialIsSpecified(jobs, programs, map[]);
    forall k | IsTargetOf(jobs, k, p)
      ensures |Target(jobs[k])| <= |Target(jobs[inner])|
    {
      FreshEnds(paths, k, Split(paths[inner]));
    }
    assert Decides(jobs, inner, p);
    assert p[|Target(jobs[inner])|..] == [name];
  }

  /** A nested pair in two chunks of one wave can lose the inner package's files. */
  lemma NestedPairRaces(paths: seq<string>, workers: nat, outer: nat, inner: nat)
    requires StrictlySorted(Bare(paths)) && outer < |paths| && inner < |paths|
    requires Split(paths[outer]) < Split(paths[inner])
    requires CountNodeModules(Split(paths[outer])) == CountNodeModules(Split(paths[inner]))
    requires !SameChunk(Bare(paths), workers, outer, inner)
    ensures !WavesAlwaysAgree(paths, workers)
  {
    hide Realises, FreshName, CountNodeModules, ApplyAll, At, LateChunk, WaveSchedule, StrictlySorted, Mates, ChunkOf;
    var name := FreshName(paths);
    var jobs := Adversary(paths, inner, name);
    var programs := seq(|jobs|, k requires 0 <= k < |jobs| => LinkOf(jobs, k, inner, name));
    forall k | 0 <= k < |jobs|
      ensures Realises(jobs[k], programs[k])
    {
      LinkOfRealises(paths, inner, name, k);
    }
    var n, late := DeepestOf(jobs) + 1, Mates(jobs, workers, outer);
    var traces := LateWaves(jobs, n, late, inner, name);
    forall d | 0 <= d < |traces|
      ensures WaveSchedule(jobs, workers, d, traces[d])
    {
      LateIsLegal(paths, workers, d, outer, inner, name);
    }
    var p := Split(paths[inner]) + [name];
    SameChunks(jobs, paths, workers, outer, inner);
    OnlyMates(jobs, workers, outer, inner);
    LateWavesLose(jobs, n, late, outer, inner, name, p);
    ApplyAllAt(map[], WaveOps(traces), p);
    SerialKeepsInner(paths, inner, programs);
    assert HavePaths(jobs, paths) && AllRealise(jobs, programs) && AllWaves(jobs, workers, traces) && EnoughWaves(jobs, traces);
  }

  lemma OnlyMates(jobs: seq<Job>, workers: nat, i: nat, j: nat)
    requires i < |jobs| && j < |jobs|
    ensures i in Mates(jobs, workers, i) && (j in Mates(jobs, workers, i) <==> SameChunk(jobs, workers, i, j))
  {
    hide ChunkOf, Depth;
  }

  /** Waves and chunks depend on the paths alone. */
  lemma {:induction false} SameIndices(jobs: seq<Job>, paths: seq<string>, n: nat, depth: int)
    requires HavePaths(jobs, paths) && n <= |jobs|
    ensures IndicesAt(jobs, n, depth) == IndicesAt(Bare(paths), n, depth)
  {
    hide CountNodeModules;
    if n > 0 {
      SameIndices(jobs, paths, n - 1, depth);
    }
  }

  lemma SameChunks(jobs: seq<Job>, paths: seq<string>, workers: nat, i: nat, j: nat)
    requires HavePaths(jobs, paths) && i < |jobs| && j < |jobs|
    ensures SameChunk(jobs, workers, i, j) <==> SameChunk(Bare(paths), workers, i, j)
  {
    hide CountNodeModules, IndicesAt, ChunkSize;
    var bare := Bare(paths);
    assert Depth(jobs[i]) == Depth(bare[i]) && Depth(jobs[j]) == Depth(bare[j]);
    SameIndices(jobs, paths, |jobs|, Depth(jobs[i]));
    SameIndices(jobs, paths, |jobs|, Depth(jobs[j]));
    SameIndices(jobs, paths, i, Depth(jobs[i]));
    SameIndices(jobs, paths, j, Depth(jobs[j]));
  }

  lemma SameShape(jobs: seq<Job>, paths: seq<string>, workers: nat)
    requires HavePaths(jobs, paths)
    ensures StrictlySorted(jobs) <==> StrictlySorted(Bare(paths))
    ensures ChunksNest(jobs, workers) <==> ChunksNest(Bare(paths), workers)
  {
    hide CountNodeModules, Less, SameChunk;
    assert forall k :: 0 <= k < |paths| ==> jobs[k].path == Bare(paths)[k].path;
    assert forall k :: 0 <= k < |paths| ==> Target(jobs[k]) == Target(Bare(paths)[k]) && Depth(jobs[k]) == Depth(Bare(paths)[k]);
    forall i: nat, j: nat | i < |jobs| && j < |jobs|
      ensures SameChunk(jobs, workers, i, j) <==> SameChunk(Bare(paths), workers, i, j)
    {
      SameChunks(jobs, paths, workers, i, j);
    }
  }

  /**
   For path-sorted packages and any number of workers, the waves build the serial pass's tree under every
   image and every schedule of their chunks if and only if every nesting crosses a `node_modules` directory
   or stays within one worker's chunk.
   */
  lemma WavesAgreeIff(paths: seq<string>, workers: nat)
    requires StrictlySorted(Bare(paths))
    ensures WavesAlwaysAgree(paths, workers) <==> ChunksNest(Bare(paths), workers)
  {
    hide AllRealise, AllWaves, ApplyAll, StrictlySorted, CountNodeModules, ChunkOf;
    if ChunksNest(Bare(paths), workers) {
      forall jobs, programs, traces, before: Tree |
        HavePaths(jobs, paths) && AllRealise(jobs, programs) && AllWaves(jobs, workers, traces) && EnoughWaves(jobs, traces)
        ensures ApplyAll(before, WaveOps(traces)) == ApplyAll(before, Concat(programs))
      {
        SameShape(jobs, paths, workers);
        WavesEqualSerial(jobs, workers, programs, traces, before);
      }
    } else {
      var bare := Bare(paths);
      var i, j :| 0 <= i < |bare| && 0 <= j < |bare| && Target(bare[i]) < Target(bare[j]) && Depth(bare[i]) >= Depth(bare[j])
        && !SameChunk(bare, workers, i, j);
      var (a, b) := (Target(bare[i]), Target(bare[j])[|Target(bare[i])|..]);
      assert Target(bare[j]) == a + b;
      CountAppend(a, b);
      NestedPairRaces(paths, workers, i, j);
    }
  }

  /** With a worker for every package, packages of one wave never share a chunk. */
  lemma ManyWorkers(jobs: seq<Job>, workers: nat, i: nat, j: nat)
    requires i < j < |jobs| && workers >= |jobs| && Depth(jobs[i]) == Depth(jobs[j])
    ensures !SameChunk(jobs, workers, i, j)
  {
    hide Depth;
    var depth := Depth(jobs[i]);
    IndicesGrow(jobs, i + 1, j, depth);
    IndicesGrow(jobs, j + 1, |jobs|, depth);
    IndicesFew(jobs, |jobs|, depth);
    var size := |IndicesAt(jobs, |jobs|, depth)|;
    assert ChunkSize(size, workers) == 1;
  }

  lemma {:induction false} IndicesGrow(jobs: seq<Job>, m: nat, n: nat, depth: int)
    requires m <= n <= |jobs|
    ensures |IndicesAt(jobs, m, depth)| <= |IndicesAt(jobs, n, depth)|
    decreases n
  {
    hide Depth;
    if m < n {
      IndicesGrow(jobs, m, n - 1, depth);
    }
  }

  lemma {:induction false} IndicesFew(jobs: seq<Job>, n: nat, depth: int)
    requires n <= |jobs|
    ensures |IndicesAt(jobs, n, depth)| <= n
  {
    hide Depth;
    if n > 0 {
      IndicesFew(jobs, n - 1, depth);
    }
  }

  /** Whatever the number of workers, the waves are safe if and only if every nesting crosses a `node_modules` directory. */
  lemma AnyWorkersAgreeIff(paths: seq<string>)
    requires StrictlySorted(Bare(paths))
    ensures (forall workers :: WavesAlwaysAgree(paths, workers)) <==> NestsThroughNodeModules(Bare(paths))
  {
    hide WavesAlwaysAgree, StrictlySorted, Depth, ChunkOf;
    var bare := Bare(paths);
    forall workers
      ensures WavesAlwaysAgree(paths, workers) <==> ChunksNest(bare, workers)
    {
      WavesAgreeIff(paths, workers);
    }
    if forall workers :: WavesAlwaysAgree(paths, workers) {
      assert ChunksNest(bare, |paths|);
      forall i, j | 0 <= i < |bare| && 0 <= j < |bare| && Target(bare[i]) < Target(bare[j])
        ensures Depth(bare[i]) < Depth(bare[j])
      {
        if Depth(bare[i]) == Depth(bare[j]) {
          if i < j {
            ManyWorkers(bare, |paths|, i, j);
          } else {
            ManyWorkers(bare, |paths|, j, i);
          }
        }
      }
    }
  }

  lemma PairSplits()
    ensures Split("node_modules/a") == ["node_modules", "a"]
    ensures Split("node_modules/a/b") == ["node_modules", "a", "b"]
  {
    hide Split;
    var tail := "a" + "/" + "b";
    assert "node_modules/a" == "node_modules" + "/" + "a" && "node_modules/a/b" == "node_modules" + "/" + tail;
    SplitPiece("a");
    SplitPiece("b");
    SplitFront("a", "b");
    SplitFront("node_modules", "a");
    SplitFront("node_modules", tail);
  }

  lemma PairDepths()
    ensures CountNodeModules(["node_modules", "a"]) == CountNodeModules(["node_modules", "a", "b"])
  {
    var (a, b) := (["node_modules", "a"], ["node_modules", "a", "b"]);
    assert a[1..] == ["a"] && b[1..] == ["a", "b"] && ["a", "b"][1..] == ["b"];
    assert CountNodeModules(["b"]) == 0 && CountNodeModules(["a"]) == 0;
  }

  lemma PairIsValid()
    ensures ValidPackagePath("node_modules/a") && ValidPackagePath("node_modules/a/b")
  {
    hide Split;
    PairSplits();
    assert Split("node_modules/a")[0] == Split("node_modules/a/b")[0] == "node_modules";
  }

  /** A pair the path validator accepts, for which the waves of two or more workers can lose files. */
  lemma SiblingInsidePackage(workers: nat)
    requires workers > 1
    ensures var paths := ["node_modules/a", "node_modules/a/b"];
            && (forall i :: 0 <= i < |paths| ==> ValidPackagePath(paths[i]))
            && StrictlySorted(Bare(paths)) && !WavesAlwaysAgree(paths, workers)
  {
    hide Split, CountNodeModules, WavesAlwaysAgree, Less, ValidPackagePath, SameChunk;
    PairSplits();
    PairIsValid();
    PairDepths();
    var paths := ["node_modules/a", "node_modules/a/b"];
    InsideSortsAfter(paths[0], paths[1]);
    ManyWorkers(Bare(paths), workers, 0, 1);
    NestedPairRaces(paths, workers, 0, 1);
  }

  // ---------------------------------------------------------------- the pass as the program runs it

  class FileTree {
    var files: Tree

    method Do(op: Op)
      modifies this
      ensures files == Apply(old(files), op)
    {
      files := Apply(files, op);
    }

    method DoAll(ops: seq<Op>)
      modifies this
      ensures files == ApplyAll(old(files), ops)
    {
      assert ops[0..] == ops;
      for i := 0 to |ops|
        invariant ApplyAll(files, ops[i..]) == ApplyAll(old(files), ops)
      {
        assert ops[i..][1..] == ops[i + 1..];
        Do(ops[i]);
      }
    }
  }

  function WaveIn(waves: map<int, seq<int>>, depth: int): seq<int>
  {
    if depth in waves then waves[depth] else []
  }

  ghost predicate Grouped(jobs: seq<Job>, n: nat, waves: map<int, seq<int>>)
    requires n <= |jobs|
  {
    forall d :: WaveIn(waves, d) == IndicesAt(jobs, n, d)
  }

  lemma GroupedStep(jobs: seq<Job>, n: nat, waves: map<int, seq<int>>)
    requires n < |jobs| && Grouped(jobs, n, waves)
    ensures var depth := Depth(jobs[n]); Grouped(jobs, n + 1, waves[depth := WaveIn(waves, depth) + [n]])
  {
    hide Depth;
    var depth := Depth(jobs[n]);
    var waves' := waves[depth := WaveIn(waves, depth) + [n]];
    forall d
      ensures WaveIn(waves', d) == IndicesAt(jobs, n + 1, d)
    {
      assert WaveIn(waves, d) == IndicesAt(jobs, n, d);
    }
  }

  method BuildWaves(jobs: seq<Job>) returns (waves: map<int, seq<int>>)
    ensures Grouped(jobs, |jobs|, waves)
  {
    waves := map[];
    assert Grouped(jobs, 0, waves);
    hide Grouped, Depth;
    for n := 0 to |jobs|
      invariant Grouped(jobs, n, waves)
    {
      GroupedStep(jobs, n, waves);
      var depth := Depth(jobs[n]);
      waves := waves[depth := WaveIn(waves, depth) + [n]];
    }
  }

  /** Waves in ascending depth; the symlink flags come back under their original work indices. */
  method LinkByDepth(tree: FileTree, jobs: seq<Job>, traces: seq<Trace>, outcomes: seq<bool>) returns (flags: seq<bool>)
    requires |outcomes| == |jobs| && forall j :: 0 <= j < |jobs| ==> Depth(jobs[j]) < |traces|
    modifies tree
    ensures tree.files == ApplyAll(old(tree.files), WaveOps(traces))
    ensures flags == outcomes
  {
    hide Depth, ApplyAll, OpsOf, WaveOps, WaveIn, IndicesAt, Grouped;
    var waves := BuildWaves(jobs);
    flags := seq(|jobs|, i => false);
    NoWaves(tree.files);
    assert traces[..0] == [];
    for d := 0 to |traces|
      invariant tree.files == ApplyAll(old(tree.files), WaveOps(traces[..d]))
      invariant FlagsBelow(jobs, d, flags, outcomes)
    {
      NextWave(old(tree.files), traces, d);
      tree.DoAll(OpsOf(traces[d]));
      ghost var before := flags;
      flags := CopyFlags(flags, WaveIn(waves, d), outcomes);
      FlagsOfWave(jobs, waves, d, before, flags, outcomes);
    }
    assert traces[..|traces|] == traces;
  }

  lemma NoWaves(tree: Tree)
    ensures ApplyAll(tree, WaveOps([])) == tree
  {
  }

  lemma NextWave(tree: Tree, traces: seq<Trace>, d: nat)
    requires d < |traces|
    ensures ApplyAll(tree, WaveOps(traces[..d + 1])) == ApplyAll(ApplyAll(tree, WaveOps(traces[..d])), OpsOf(traces[d]))
  {
    assert traces[..d + 1][..d] == traces[..d];
    ApplyAllAppend(tree, WaveOps(traces[..d]), OpsOf(traces[d]));
  }

  ghost predicate FlagsBelow(jobs: seq<Job>, depth: nat, flags: seq<bool>, outcomes: seq<bool>)
  {
    && |flags| == |outcomes| == |jobs|
    && forall j :: 0 <= j < |jobs| && Depth(jobs[j]) < depth ==> flags[j] == outcomes[j]
  }

  lemma FlagsOfWave(jobs: seq<Job>, waves: map<int, seq<int>>, d: nat, before: seq<bool>, after: seq<bool>, outcomes: seq<bool>)
    requires Grouped(jobs, |jobs|, waves) && FlagsBelow(jobs, d, before, outcomes) && |after| == |before|
    requires forall j :: 0 <= j < |after| ==> after[j] == if j in WaveIn(waves, d) then outcomes[j] else before[j]
    ensures FlagsBelow(jobs, d + 1, after, outcomes)
  {
    hide Depth;
    assert WaveIn(waves, d) == IndicesAt(jobs, |jobs|, d);
    forall j | 0 <= j < |jobs| && Depth(jobs[j]) < d + 1
      ensures after[j] == outcomes[j]
    {
      IndicesAtAre(jobs, |jobs|, d, j);
    }
  }

  method CopyFlags(flags: seq<bool>, wave: seq<int>, outcomes: seq<bool>) returns (r: seq<bool>)
    requires |flags| == |outcomes|
    ensures |r| == |flags|
    ensures forall j :: 0 <= j < |r| ==> r[j] == if j in wave then outcomes[j] else flags[j]
  {
    r := flags;
    for i := 0 to |wave|
      invariant |r| == |flags|
      invariant forall j :: 0 <= j < |r| ==> r[j] == if j in wave[..i] then outcomes[j] else flags[j]
    {
      assert wave[..i + 1] == wave[..i] + [wave[i]];
      if 0 <= wave[i] < |r| {
        r := r[wave[i] := outcomes[wave[i]]];
      }
    }
    assert wave[..|wave|] == wave;
  }

  method LinkSerially(tree: FileTree, jobs: seq<Job>, programs: seq<seq<Op>>, outcomes: seq<bool>) returns (flags: seq<bool>)
    requires |programs| == |jobs| == |outcomes|
    modifies tree
    ensures tree.files == ApplyAll(old(tree.files), Concat(programs))
    ensures flags == outcomes
  {
    flags := [];
    for i := 0 to |jobs|
      invariant tree.files == ApplyAll(old(tree.files), Concat(programs[..i]))
      invariant flags == outcomes[..i]
    {
      assert programs[..i + 1][..i] == programs[..i];
      ApplyAllAppend(old(tree.files), Concat(programs[..i]), programs[i]);
      tree.DoAll(programs[i]);
      flags := flags + [outcomes[i]];
    }
    assert programs[..|programs|] == programs;
  }

  /** Pass A: waves when there is more than one worker, else the serial pass. */
  method PassA(
    byDepth: bool, workers: nat, tree: FileTree, jobs: seq<Job>,
    programs: seq<seq<Op>>, traces: seq<Trace>, outcomes: seq<bool>)
    returns (flags: seq<bool>)
    requires StrictlySorted(jobs) && ChunksNest(jobs, workers) && |outcomes| == |jobs|
    requires AllRealise(jobs, programs) && AllWaves(jobs, workers, traces)
    requires forall j :: 0 <= j < |jobs| ==> Depth(jobs[j]) < |traces|
    modifies tree
    ensures Specified(jobs, old(tree.files), tree.files) && flags == outcomes
  {
    hide Specified, AllWaves, ChunksNest;
    if byDepth && workers > 1 {
      WavesAreSpecified(jobs, workers, traces, tree.files);
      flags := LinkByDepth(tree, jobs, traces, outcomes);
    } else {
      SerialIsSpecified(jobs, programs, tree.files);
      flags := LinkSerially(tree, jobs, programs, outcomes);
    }
  }
}
