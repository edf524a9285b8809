/**
 Snapshotting a built package and attaching the snapshot elsewhere (src/lifecycle.rs).

 A directory is a map from names to entries. Its listing comes in any order; an operation may
 fail, in which case the work stops and what was being replaced may be left half done.
 */
module DerivedTree {
  import opened Options

  datatype Node = File(bytes: string, mode: int) | Symlink(target: string) | Dir(entries: map<string, Node>)

  type Entries = map<string, Node>

  const NODE_MODULES := "node_modules"

  function At(entries: Entries, name: string): Option<Node>
  {
    if name in entries then Some(entries[name]) else None
  }

  /** A package's own tree: all but the top-level `node_modules`. */
  function Own(entries: Entries): Entries
  {
    entries - {NODE_MODULES}
  }

  function Mirrored(src: Entries, skipTop: bool): Entries
  {
    if skipTop then Own(src) else src
  }

  /** What is mirrored: everything, or everything but the top-level `node_modules`. */
  lemma MirroredIs(src: Entries, skipTop: bool, name: string)
    ensures At(Mirrored(src, skipTop), name) == if skipTop && name == NODE_MODULES then None else At(src, name)
  {
  }

  /** The next operations to succeed before one fails; `None` when none ever fails. */
  type Budget = Option<nat>

  method Attempt(budget: Budget) returns (ok: bool, left: Budget)
    ensures budget.None? ==> ok && left.None?
  {
    match budget
    case None => return true, None;
    case Some(n) =>
      if n == 0 {
        return false, Some(0);
      }
      return true, Some(n - 1);
  }

  /** Same entries outside the names given. */
  ghost predicate SameBut(a: Entries, b: Entries, names: set<string>)
  {
    forall n :: n !in names ==> At(a, n) == At(b, n)
  }

  class Directory {
    var entries: Entries

    constructor (entries: Entries)
      ensures this.entries == entries
    {
      this.entries := entries;
    }

    /** `remove_any`: a failure may leave a remnant behind. */
    method RemoveAny(name: string, budget: Budget) returns (ok: bool, left: Budget)
      requires name in entries
      modifies this
      ensures ok ==> entries == old(entries) - {name}
      ensures SameBut(entries, old(entries), {name})
      ensures budget.None? ==> ok && left.None?
    {
      ok, left := Attempt(budget);
      if ok {
        entries := entries - {name};
      } else {
        var remnant: Entries := *;
        entries := entries[name := Dir(remnant)];
      }
    }

    /** Put a file or a symlink where there is nothing. */
    method Create(name: string, node: Node, budget: Budget) returns (ok: bool, left: Budget)
      requires name !in entries
      modifies this
      ensures ok ==> entries == old(entries)[name := node]
      ensures SameBut(entries, old(entries), {name})
      ensures budget.None? ==> ok && left.None?
    {
      ok, left := Attempt(budget);
      var written := node;
      if !ok && node.File? {
        written := *;
      }
      if ok || node.File? {
        entries := entries[name := written];
      }
    }
  }

  lemma OverlayIs(after: Entries, before: Entries, over: Entries)
    requires SameBut(after, before, over.Keys) && forall n :: n in over ==> At(after, n) == At(over, n)
    ensures after == before + over
  {
    forall n
      ensures At(after, n) == At(before + over, n)
    {
    }
    SameEntries(after, before + over);
  }

  lemma SameEntries(a: Entries, b: Entries)
    requires forall n :: At(a, n) == At(b, n)
    ensures a == b
  {
    forall n
      ensures n in a <==> n in b
      ensures n in a ==> a[n] == b[n]
    {
      assert At(a, n) == At(b, n);
    }
  }

  /** `mirror_tree`: overwrite `dst` with the entries of `src`, one by one. */
  method MirrorTree(src: Entries, dst: Directory, skipTop: bool, budget: Budget) returns (ok: bool, left: Budget)
    modifies dst
    ensures ok ==> dst.entries == old(dst.entries) + Mirrored(src, skipTop)
    ensures SameBut(dst.entries, old(dst.entries), Mirrored(src, skipTop).Keys)
    ensures budget.None? ==> ok && left.None?
    decreases Dir(src)
  {
    ok, left := Attempt(budget);
    if !ok {
      return;
    }
    var pending := src.Keys;
    ghost var done: set<string> := {};
    while pending != {}
      invariant pending <= src.Keys && done == (src.Keys - pending) * Mirrored(src, skipTop).Keys
      invariant forall n :: n in done ==> n in dst.entries && dst.entries[n] == src[n]
      invariant SameBut(dst.entries, old(dst.entries), done)
      invariant budget.None? ==> left.None?
    {
      var name :| name in pending;
      pending := pending - {name};
      if skipTop && name == NODE_MODULES {
        continue;
      }
      ok, left := MirrorEntry(src, name, dst, left);
      if !ok {
        return;
      }
      done := done + {name};
    }
    assert done == Mirrored(src, skipTop).Keys;
    OverlayIs(dst.entries, old(dst.entries), Mirrored(src, skipTop));
    return true, left;
  }

  /** One entry: clear the way, then copy by kind. */
  method MirrorEntry(src: Entries, name: string, dst: Directory, budget: Budget) returns (ok: bool, left: Budget)
    requires name in src
    modifies dst
    ensures ok ==> dst.entries == old(dst.entries)[name := src[name]]
    ensures SameBut(dst.entries, old(dst.entries), {name})
    ensures budget.None? ==> ok && left.None?
    decreases Dir(src), 0
  {
    ok, left := true, budget;
    if name in dst.entries {
      ok, left := dst.RemoveAny(name, left);
      if !ok {
        return;
      }
    }
    var node := src[name];
    if node.Dir? {
      var inner := new Directory(map[]);
      ok, left := MirrorTree(node.entries, inner, false, left);
      assert map[] + node.entries == node.entries;
      dst.entries := dst.entries[name := Dir(inner.entries)];
    } else {
      ok, left := dst.Create(name, node, left);
    }
  }

  method ClearDirContents(dir: Directory, budget: Budget) returns (ok: bool, left: Budget)
    modifies dir
    ensures ok ==> dir.entries == map[]
    ensures budget.None? ==> ok && left.None?
  {
    ok, left := RemoveAllBut(dir, {}, budget);
  }

  method RemoveAllBut(dir: Directory, kept: set<string>, budget: Budget) returns (ok: bool, left: Budget)
    modifies dir
    ensures ok ==> dir.entries.Keys <= kept
    ensures forall n :: n in kept ==> At(dir.entries, n) == At(old(dir.entries), n)
    ensures budget.None? ==> ok && left.None?
  {
    ok, left := true, budget;
    var pending := dir.entries.Keys;
    while pending != {}
      invariant pending <= dir.entries.Keys <= pending + kept
      invariant forall n :: n in kept ==> At(dir.entries, n) == At(old(dir.entries), n)
      invariant ok && (budget.None? ==> left.None?)
    {
      var name :| name in pending;
      pending := pending - {name};
      if name in kept {
        continue;
      }
      ok, left := dir.RemoveAny(name, left);
      if !ok {
        return;
      }
    }
  }

  /** `snapshot_pkg_tree`: the staging image becomes the built package's own tree. */
  method SnapshotPkgTree(built: Directory, staging: Directory, budget: Budget) returns (ok: bool, left: Budget)
    requires built != staging
    modifies staging
    ensures ok ==> staging.entries == Snapshot(built.entries)
    ensures budget.None? ==> ok && left.None?
  {
    ok, left := ClearDirContents(staging, budget);
    if !ok {
      return;
    }
    ok, left := MirrorTree(built.entries, staging, true, left);
  }

  /** `attach_derived`: clear all but `node_modules`, then overlay the image. */
  method AttachDerived(image: Entries, vol: Directory, budget: Budget) returns (ok: bool, left: Budget)
    modifies vol
    ensures ok ==> vol.entries == Attached(image, old(vol.entries))
    ensures NODE_MODULES !in image ==> At(vol.entries, NODE_MODULES) == At(old(vol.entries), NODE_MODULES)
    ensures budget.None? ==> ok && left.None?
  {
    ok, left := RemoveAllBut(vol, {NODE_MODULES}, budget);
    if !ok {
      return;
    }
    ghost var kept := vol.entries;
    ok, left := MirrorTree(image, vol, false, left);
  }

  // ---------------------------------------------------------------- what attaching gives

  function Snapshot(built: Entries): Entries
  {
    Own(built)
  }

  function Attached(image: Entries, vol: Entries): Entries
  {
    (map n | n in vol && n == NODE_MODULES :: vol[n]) + image
  }

  /** The own tree is the built one, `node_modules` is the volume's. */
  lemma AttachedIs(built: Entries, vol: Entries)
    ensures Own(Attached(Snapshot(built), vol)) == Own(built)
    ensures At(Attached(Snapshot(built), vol), NODE_MODULES) == At(vol, NODE_MODULES)
  {
  }

  lemma SplitEntries(a: Entries, b: Entries)
    ensures a == b <==> Own(a) == Own(b) && At(a, NODE_MODULES) == At(b, NODE_MODULES)
  {
    if Own(a) == Own(b) && At(a, NODE_MODULES) == At(b, NODE_MODULES) {
      forall n
        ensures At(a, n) == At(b, n)
      {
        assert n != NODE_MODULES ==> At(a, n) == At(Own(a), n) && At(b, n) == At(Own(b), n);
      }
      SameEntries(a, b);
    }
  }

  /** One lifecycle script: what it makes of the package directory, and its exit code. */
  type Phase = Entries -> (Entries, int)

  /** The phases in order, up to the first that fails. */
  function RunPhases(entries: Entries, phases: seq<Phase>): (Entries, int)
    decreases |phases|
  {
    if phases == [] then (entries, 0)
    else
      var (after, code) := phases[0](entries);
      if code != 0 then (after, code) else RunPhases(after, phases[1..])
  }

  /** The scripts in `phases` all succeed: each starts on what the one before it left, the first on `stages[0]`. */
  ghost predicate AllSucceed(phases: seq<Phase>, stages: seq<Entries>)
  {
    && |stages| == |phases| + 1
    && forall i :: 0 <= i < |phases| ==> phases[i](stages[i]) == (stages[i + 1], 0)
  }

  /** Scripts that all succeed leave what the last one leaves, with exit code 0. */
  lemma {:induction false} SucceedingPhases(phases: seq<Phase>, stages: seq<Entries>)
    requires AllSucceed(phases, stages)
    ensures RunPhases(stages[0], phases) == (stages[|phases|], 0)
    decreases |phases|
  {
    if phases != [] {
      SucceedingPhases(phases[1..], stages[1..]);
    }
  }

  /** The first script that fails is the last that runs: its tree and its exit code are the result, whatever comes after. */
  lemma {:induction false} FailureStopsPhases(phases: seq<Phase>, stages: seq<Entries>, failing: Phase, rest: seq<Phase>)
    requires AllSucceed(phases, stages) && failing(stages[|phases|]).1 != 0
    ensures RunPhases(stages[0], phases + [failing] + rest) == failing(stages[|phases|])
    decreases |phases|
  {
    var all := phases + [failing] + rest;
    if phases == [] {
      assert all[0] == failing;
    } else {
      assert all[0] == phases[0] && all[1..] == phases[1..] + [failing] + rest;
      FailureStopsPhases(phases[1..], stages[1..], failing, rest);
    }
  }

  ghost predicate LeavesNodeModules(phase: Phase)
  {
    forall e :: At(phase(e).0, NODE_MODULES) == At(e, NODE_MODULES)
  }

  /** What the script makes of the own tree does not depend on `node_modules`. */
  ghost predicate OwnTreeOnly(phase: Phase)
  {
    forall a, b :: Own(a) == Own(b) ==> Own(phase(a).0) == Own(phase(b).0) && phase(a).1 == phase(b).1
  }

  lemma {:induction false} PhasesLeaveNodeModules(entries: Entries, phases: seq<Phase>)
    requires forall i :: 0 <= i < |phases| ==> LeavesNodeModules(phases[i])
    ensures At(RunPhases(entries, phases).0, NODE_MODULES) == At(entries, NODE_MODULES)
    decreases |phases|
  {
    if phases != [] {
      assert LeavesNodeModules(phases[0]);
      if phases[0](entries).1 == 0 {
        PhasesLeaveNodeModules(phases[0](entries).0, phases[1..]);
      }
    }
  }

  lemma {:induction false} PhasesAgreeOnOwn(a: Entries, b: Entries, phases: seq<Phase>)
    requires Own(a) == Own(b) && forall i :: 0 <= i < |phases| ==> OwnTreeOnly(phases[i])
    ensures Own(RunPhases(a, phases).0) == Own(RunPhases(b, phases).0)
    ensures RunPhases(a, phases).1 == RunPhases(b, phases).1
    decreases |phases|
  {
    if phases != [] {
      assert OwnTreeOnly(phases[0]);
      if phases[0](a).1 == 0 {
        PhasesAgreeOnOwn(phases[0](a).0, phases[0](b).0, phases[1..]);
      }
    }
  }

  /**
   Attaching what was built elsewhere equals a given outcome on this entry if and only if the own
   trees agree and the outcome has the `node_modules` the entry has now.
   */
  lemma AttachEqualsIff(built: Entries, vol: Entries, outcome: Entries)
    ensures Attached(Snapshot(built), vol) == outcome <==>
              Own(built) == Own(outcome) && At(vol, NODE_MODULES) == At(outcome, NODE_MODULES)
  {
    AttachedIs(built, vol);
    SplitEntries(Attached(Snapshot(built), vol), outcome);
  }

  /** On the entry it was built from, a hit repeats the build if and only if `node_modules` came through. */
  lemma HitRepeatsBuildIff(pristine: Entries, phases: seq<Phase>)
    ensures var built := RunPhases(pristine, phases).0;
            Attached(Snapshot(built), pristine) == built <==> At(built, NODE_MODULES) == At(pristine, NODE_MODULES)
  {
    AttachEqualsIff(RunPhases(pristine, phases).0, pristine, RunPhases(pristine, phases).0);
  }

  /**
   Scripts that leave `node_modules` alone and look only at the package's own tree: a hit on any
   volume entry with the same own tree is what running them in place there would give.
   */
  lemma HitEqualsInPlace(first: Entries, vol: Entries, phases: seq<Phase>)
    requires Own(first) == Own(vol)
    requires forall i :: 0 <= i < |phases| ==> LeavesNodeModules(phases[i]) && OwnTreeOnly(phases[i])
    ensures Attached(Snapshot(RunPhases(first, phases).0), vol) == RunPhases(vol, phases).0
  {
    PhasesAgreeOnOwn(first, vol, phases);
    PhasesLeaveNodeModules(vol, phases);
    AttachEqualsIff(RunPhases(first, phases).0, vol, RunPhases(vol, phases).0);
  }

  /** A script that drops its `node_modules` shows the condition is needed. */
  lemma HitCanDiffer(pristine: Entries)
    requires NODE_MODULES in pristine
    ensures var phases: seq<Phase> := [e => (Own(e), 0)];
            Attached(Snapshot(RunPhases(pristine, phases).0), pristine) != RunPhases(pristine, phases).0
  {
    var phases: seq<Phase> := [e => (Own(e), 0)];
    assert RunPhases(Own(pristine), phases[1..]) == (Own(pristine), 0);
    HitRepeatsBuildIff(pristine, phases);
  }

  // ---------------------------------------------------------------- the two outcomes

  datatype Outcome = Hit | Built | RanInPlace | ScriptFailed(code: int) | AttachFailed | SnapshotFailed

  /** Where the store itself fails: not at all, before it would build, or when it publishes what was built. */
  datatype StoreFault = NoFault | BeforeBuild | AfterBuild

  /** The images published so far, by key. */
  class DerivedStore {
    var images: map<string, Entries>

    constructor ()
      ensures Valid() && images == map[]
    {
      images := map[];
    }

    /** No published image carries a top-level `node_modules`. */
    ghost predicate Valid()
      reads this
    {
      forall key :: key in images ==> NODE_MODULES !in images[key]
    }
  }

  method RunScripts(dir: Directory, phases: seq<Phase>) returns (code: int)
    modifies dir
    ensures (dir.entries, code) == RunPhases(old(dir.entries), phases)
  {
    for i := 0 to |phases|
      invariant RunPhases(dir.entries, phases[i..]) == RunPhases(old(dir.entries), phases)
    {
      assert phases[i..][0] == phases[i] && phases[i..][1..] == phases[i + 1..];
      var (after, status) := phases[i](dir.entries);
      dir.entries := after;
      if status != 0 {
        return status;
      }
    }
    return 0;
  }

  /** Ordinary execution in the package directory. */
  method RunInPlace(pkgDir: Directory, phases: seq<Phase>) returns (outcome: Outcome)
    modifies pkgDir
    ensures pkgDir.entries == RunPhases(old(pkgDir.entries), phases).0
    ensures var code := RunPhases(old(pkgDir.entries), phases).1; outcome == if code == 0 then RanInPlace else ScriptFailed(code)
  {
    var code := RunScripts(pkgDir, phases);
    return if code == 0 then RanInPlace else ScriptFailed(code);
  }

  /**
   The derived-store path of `run_lifecycle_with_profile` for one package. When the store fails the
   scripts run in place, a second time if they had already run for the build.
   */
  method RunThroughStore(
    store: DerivedStore, key: string, sourceImage: Entries, pkgDir: Directory, phases: seq<Phase>, fault: StoreFault, budget: Budget)
    returns (outcome: Outcome)
    requires store.Valid()
    modifies store, pkgDir
    ensures store.Valid() && (outcome != Built ==> store.images == old(store.images))
    ensures fault == BeforeBuild ==>
              && pkgDir.entries == RunPhases(old(pkgDir.entries), phases).0
              && var code := RunPhases(old(pkgDir.entries), phases).1; outcome == if code == 0 then RanInPlace else ScriptFailed(code)
    ensures fault != BeforeBuild && key in old(store.images) ==>
              && (outcome == Hit ==> pkgDir.entries == Attached(old(store.images)[key], old(pkgDir.entries)))
              && At(pkgDir.entries, NODE_MODULES) == At(old(pkgDir.entries), NODE_MODULES)
              && outcome in {Hit, AttachFailed} && (budget.None? ==> outcome == Hit)
    ensures fault != BeforeBuild && key !in old(store.images) ==>
              var (built, code) := RunPhases(old(pkgDir.entries), phases);
              && (code != 0 ==> pkgDir.entries == built && outcome == ScriptFailed(code))
              && (code == 0 && outcome == SnapshotFailed ==> pkgDir.entries == built && budget.Some?)
              && (code == 0 && outcome != SnapshotFailed && fault == NoFault ==>
                    outcome == Built && pkgDir.entries == built && store.images == old(store.images)[key := Snapshot(built)])
              && (code == 0 && outcome != SnapshotFailed && fault == AfterBuild ==>
                    var (again, second) := RunPhases(built, phases);
                    pkgDir.entries == again && outcome == if second == 0 then RanInPlace else ScriptFailed(second))
  {
    if fault == BeforeBuild {
      outcome := RunInPlace(pkgDir, phases);
      return;
    }
    if key in store.images {
      var ok, _ := AttachDerived(store.images[key], pkgDir, budget);
      return if ok then Hit else AttachFailed;
    }
    var staging := new Directory(sourceImage);
    var code := RunScripts(pkgDir, phases);
    if code != 0 {
      return ScriptFailed(code);
    }
    var ok, _ := SnapshotPkgTree(pkgDir, staging, budget);
    if !ok {
      return SnapshotFailed;
    }
    if fault == AfterBuild {
      outcome := RunInPlace(pkgDir, phases);
      return;
    }
    store.images := store.images[key := staging.entries];
    return Built;
  }
}
