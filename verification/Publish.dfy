/**
 Publishing `package.json` and `bpm.lock` together, with rollback (src/manifest_edit.rs,
 `publish_impl`, Unix shape).

 Every file operation asks a fault script how it goes, so a statement about all scripts covers
 every pattern of I/O failures. `trace` records the visible files after each primitive effect;
 a process that stops leaves the files of some prefix of it.
 */
module Publish {
  import opened Options

  type Files = map<string, string>

  function Get(files: Files, path: string): Option<string>
  {
    if path in files then Some(files[path]) else None
  }

  /** How one operation goes; `Partly(n)` fails after `n` bytes, or after the rename but before its directory sync. */
  datatype Fault = Fine | Fails | Partly(n: nat)

  type Script = nat -> Fault

  datatype World = World(
    files: Files,
    clock: nat,
    trace: seq<Files>,
    /** Paths an existence probe reported absent although they were there. */
    misread: set<string>)

  function Now(w: World, script: Script): Fault
  {
    script(w.clock)
  }

  function Quiet(w: World): World
  {
    w.(clock := w.clock + 1)
  }

  function Becomes(w: World, files: Files): World
  {
    w.(clock := w.clock + 1, files := files, trace := w.trace + [files])
  }

  datatype ReadResult = Bytes(bytes: string) | NotFound | ReadError

  /** `capture_original`: a missing file is remembered as absent, any other error is reported. */
  function CaptureOriginal(w: World, script: Script, path: string): (World, ReadResult)
  {
    (Quiet(w), if !Now(w, script).Fine? then ReadError else if path in w.files then Bytes(w.files[path]) else NotFound)
  }

  /** `write_temp`: create-new, write, sync; the file may be left behind empty or cut short. */
  function WriteTemp(w: World, script: Script, path: string, bytes: string): (World, bool)
  {
    if path in w.files || Now(w, script).Fails? then (Quiet(w), false)
    else
      match Now(w, script) {
        case Partly(n) => (Becomes(w, w.files[path := if n <= |bytes| then bytes[..n] else bytes]), false)
        case _ => (Becomes(w, w.files[path := bytes]), true)
      }
  }

  /** `replace_destination`: an atomic rename, then a directory sync that may fail on its own. */
  function ReplaceDestination(w: World, script: Script, tmp: string, dest: string): (World, bool)
  {
    if tmp !in w.files || Now(w, script).Fails? then (Quiet(w), false)
    else (Becomes(w, (w.files - {tmp})[dest := w.files[tmp]]), Now(w, script).Fine?)
  }

  function RemoveFile(w: World, script: Script, path: string): (World, bool)
  {
    if path !in w.files || !Now(w, script).Fine? then (Quiet(w), false)
    else (Becomes(w, w.files - {path}), true)
  }

  /** `Path::exists`: an error of the underlying stat reads as "absent". */
  function ProbeExists(w: World, script: Script, path: string): (World, bool)
  {
    if path !in w.files then (Quiet(w), false)
    else if Now(w, script).Fine? then (Quiet(w), true)
    else (Quiet(w).(misread := w.misread + {path}), false)
  }

  datatype Plan = Plan(
    manifestPath: string, manifestBytes: string, lockPath: string, lockBytes: string,
    manifestTmp: string, lockTmp: string, manifestRestoreTmp: string, lockRestoreTmp: string)
  {
    /** Two different destinations, and temp names that are neither; temp names may even collide. */
    predicate Valid()
    {
      manifestPath != lockPath &&
      {manifestPath, lockPath} !! {manifestTmp, lockTmp, manifestRestoreTmp, lockRestoreTmp}
    }
  }

  datatype Outcome =
    | Published
    | Failed(publicationBegan: bool, lockRestoreFailed: bool, manifestRestoreFailed: bool)
  {
    predicate RollbackComplete() { Failed? && !lockRestoreFailed && !manifestRestoreFailed }
  }

  function Restore(w: World, script: Script, path: string, original: ReadResult, tmp: string): (World, bool)
  {
    match original
    case Bytes(bytes) =>
      var (w1, written) := WriteTemp(w, script, tmp, bytes);
      if !written then (w1, false) else ReplaceDestination(w1, script, tmp, path)
    case _ =>
      var (w1, present) := ProbeExists(w, script, path);
      if present then RemoveFile(w1, script, path) else (w1, true)
  }

  /** The fallible part: both temps, then the lock, then the manifest. */
  function Attempt(w: World, script: Script, plan: Plan): (World, bool, bool)
  {
    var (w1, wroteManifest) := WriteTemp(w, script, plan.manifestTmp, plan.manifestBytes);
    if !wroteManifest then (w1, false, false)
    else
      var (w2, wroteLock) := WriteTemp(w1, script, plan.lockTmp, plan.lockBytes);
      if !wroteLock then (w2, false, false)
      else
        var (w3, lockReplaced) := ReplaceDestination(w2, script, plan.lockTmp, plan.lockPath);
        if !lockReplaced then (w3, false, true)
        else
          var (w4, manifestReplaced) := ReplaceDestination(w3, script, plan.manifestTmp, plan.manifestPath);
          (w4, manifestReplaced, true)
  }

  /** After the attempt: both temps removed, best effort. */
  function CleanUp(w: World, script: Script, plan: Plan): World
  {
    var (w1, _) := RemoveFile(w, script, plan.manifestTmp);
    var (w2, _) := RemoveFile(w1, script, plan.lockTmp);
    w2
  }

  /** The rollback of a failed attempt: the lock first, then the manifest. */
  function RollBack(w: World, script: Script, plan: Plan, manifestOriginal: ReadResult, lockOriginal: ReadResult): (World, bool, bool)
  {
    var (w1, lockRestored) := Restore(w, script, plan.lockPath, lockOriginal, plan.lockRestoreTmp);
    var (w2, manifestRestored) := Restore(w1, script, plan.manifestPath, manifestOriginal, plan.manifestRestoreTmp);
    (w2, lockRestored, manifestRestored)
  }

  /** Everything after both originals are read. */
  function Finish(w: World, script: Script, plan: Plan, manifestOriginal: ReadResult, lockOriginal: ReadResult): (World, Outcome)
  {
    var (w1, ok, began) := Attempt(w, script, plan);
    var w2 := CleanUp(w1, script, plan);
    if ok then (w2, Published)
    else
      var (w3, lockRestored, manifestRestored) := RollBack(w2, script, plan, manifestOriginal, lockOriginal);
      (w3, Failed(began, !lockRestored, !manifestRestored))
  }

  function RunPublish(w: World, script: Script, plan: Plan): (World, Outcome)
  {
    var (w1, manifestOriginal) := CaptureOriginal(w, script, plan.manifestPath);
    if manifestOriginal.ReadError? then (w1, Failed(false, false, false))
    else
      var (w2, lockOriginal) := CaptureOriginal(w1, script, plan.lockPath);
      if lockOriginal.ReadError? then (w2, Failed(false, false, false))
      else Finish(w2, script, plan, manifestOriginal, lockOriginal)
  }

  /** The file store the program works on, one operation at a time. */
  class FileStore {
    var world: World
    const script: Script

    constructor (files: Files, script: Script)
      ensures world == World(files, 0, [], {}) && this.script == script
    {
      world := World(files, 0, [], {});
      this.script := script;
    }

    method WriteTempFile(path: string, bytes: string) returns (ok: bool)
      modifies this
      ensures (world, ok) == WriteTemp(old(world), script, path, bytes)
    {
      var (next, written) := WriteTemp(world, script, path, bytes);
      world, ok := next, written;
    }

    method Replace(tmp: string, dest: string) returns (ok: bool)
      modifies this
      ensures (world, ok) == ReplaceDestination(old(world), script, tmp, dest)
    {
      var (next, replaced) := ReplaceDestination(world, script, tmp, dest);
      world, ok := next, replaced;
    }

    method Remove(path: string) returns (ok: bool)
      modifies this
      ensures (world, ok) == RemoveFile(old(world), script, path)
    {
      var (next, removed) := RemoveFile(world, script, path);
      world, ok := next, removed;
    }

    method Exists(path: string) returns (present: bool)
      modifies this
      ensures (world, present) == ProbeExists(old(world), script, path)
    {
      var (next, seen) := ProbeExists(world, script, path);
      world, present := next, seen;
    }

    method Capture(path: string) returns (original: ReadResult)
      modifies this
      ensures (world, original) == CaptureOriginal(old(world), script, path)
    {
      var (next, result) := CaptureOriginal(world, script, path);
      world, original := next, result;
    }

    method RestoreFile(path: string, original: ReadResult, tmp: string) returns (ok: bool)
      modifies this
      ensures (world, ok) == Restore(old(world), script, path, original, tmp)
    {
      if original.Bytes? {
        ok := WriteTempFile(tmp, original.bytes);
        if ok {
          ok := Replace(tmp, path);
        }
      } else {
        ok := true;
        var present := Exists(path);
        if present {
          ok := Remove(path);
        }
      }
    }

    method PublishPair(plan: Plan) returns (outcome: Outcome)
      modifies this
      ensures (world, outcome) == RunPublish(old(world), script, plan)
    {
      hide WriteTemp, ReplaceDestination, RemoveFile, Restore, CaptureOriginal;
      var manifestOriginal := Capture(plan.manifestPath);
      if manifestOriginal.ReadError? {
        return Failed(false, false, false);
      }
      var lockOriginal := Capture(plan.lockPath);
      if lockOriginal.ReadError? {
        return Failed(false, false, false);
      }
      var publicationBegan := false;
      var ok := WriteTempFile(plan.manifestTmp, plan.manifestBytes);
      if ok {
        ok := WriteTempFile(plan.lockTmp, plan.lockBytes);
        if ok {
          publicationBegan := true;
          ok := Replace(plan.lockTmp, plan.lockPath);
          if ok {
            ok := Replace(plan.manifestTmp, plan.manifestPath);
          }
        }
      }
      var _ := Remove(plan.manifestTmp);
      var _ := Remove(plan.lockTmp);
      if ok {
        return Published;
      }
      var lockRestored := RestoreFile(plan.lockPath, lockOriginal, plan.lockRestoreTmp);
      var manifestRestored := RestoreFile(plan.manifestPath, manifestOriginal, plan.manifestRestoreTmp);
      outcome := Failed(publicationBegan, !lockRestored, !manifestRestored);
    }
  }

  // ---------------------------------------------------------------- what every step keeps

  /** The destination holds its original content (or absence) or its planned content. */
  predicate OldOrNew(before: Files, files: Files, path: string, planned: string)
  {
    Get(files, path) == Get(before, path) || Get(files, path) == Some(planned)
  }

  predicate Safe(before: Files, files: Files, plan: Plan)
  {
    OldOrNew(before, files, plan.manifestPath, plan.manifestBytes) && OldOrNew(before, files, plan.lockPath, plan.lockBytes)
  }

  /** Both destinations hold what they held before. */
  predicate Untouched(before: Files, files: Files, plan: Plan)
  {
    Get(files, plan.manifestPath) == Get(before, plan.manifestPath) && Get(files, plan.lockPath) == Get(before, plan.lockPath)
  }

  predicate IsTemp(plan: Plan, path: string)
  {
    path in {plan.manifestTmp, plan.lockTmp, plan.manifestRestoreTmp, plan.lockRestoreTmp}
  }

  /** From `w` to `w'`: safe at every step in between, nothing touched but destinations and temps. */
  ghost predicate SafeStretch(before: Files, w: World, w': World, plan: Plan)
  {
    && w.trace <= w'.trace && w.misread <= w'.misread
    && (forall i :: |w.trace| <= i < |w'.trace| ==> Safe(before, w'.trace[i], plan))
    && Safe(before, w'.files, plan)
    && forall p :: !IsTemp(plan, p) && p != plan.manifestPath && p != plan.lockPath ==> Get(w'.files, p) == Get(w.files, p)
  }

  lemma SafeThen(before: Files, a: World, b: World, c: World, plan: Plan)
    requires SafeStretch(before, a, b, plan) && SafeStretch(before, b, c, plan)
    ensures SafeStretch(before, a, c, plan)
  {
    forall i | |a.trace| <= i < |c.trace|
      ensures Safe(before, c.trace[i], plan)
    {
      if i < |b.trace| {
        assert c.trace[i] == b.trace[i];
      }
    }
  }

  /** One operation that leaves both destinations alone, or gives one of them an allowed content. */
  lemma OneEffect(before: Files, w: World, w': World, plan: Plan)
    requires Safe(before, w.files, plan) && w.misread <= w'.misread
    requires (w'.files == w.files && w'.trace == w.trace) || (w'.trace == w.trace + [w'.files] && Safe(before, w'.files, plan))
    requires forall p :: !IsTemp(plan, p) && p != plan.manifestPath && p != plan.lockPath ==> Get(w'.files, p) == Get(w.files, p)
    ensures SafeStretch(before, w, w', plan)
  {
  }

  lemma WriteTempSafe(before: Files, w: World, script: Script, plan: Plan, tmp: string, bytes: string)
    requires plan.Valid() && Safe(before, w.files, plan) && IsTemp(plan, tmp)
    ensures var (w', ok) := WriteTemp(w, script, tmp, bytes);
            && SafeStretch(before, w, w', plan)
            && w'.misread == w.misread && (ok ==> tmp !in w.files && w'.files == w.files[tmp := bytes])
            && Get(w'.files, plan.manifestPath) == Get(w.files, plan.manifestPath)
            && Get(w'.files, plan.lockPath) == Get(w.files, plan.lockPath)
  {
    var (w', ok) := WriteTemp(w, script, tmp, bytes);
    OneEffect(before, w, w', plan);
  }

  lemma RemoveTempSafe(before: Files, w: World, script: Script, plan: Plan, tmp: string)
    requires plan.Valid() && Safe(before, w.files, plan) && IsTemp(plan, tmp)
    ensures var (w', _) := RemoveFile(w, script, tmp);
            && SafeStretch(before, w, w', plan) && w'.misread == w.misread
            && Get(w'.files, plan.manifestPath) == Get(w.files, plan.manifestPath)
            && Get(w'.files, plan.lockPath) == Get(w.files, plan.lockPath)
  {
    var (w', _) := RemoveFile(w, script, tmp);
    OneEffect(before, w, w', plan);
  }

  predicate IsDestination(plan: Plan, path: string)
  {
    path == plan.manifestPath || path == plan.lockPath
  }

  function PlannedFor(plan: Plan, path: string): string
  {
    if path == plan.manifestPath then plan.manifestBytes else plan.lockBytes
  }

  function OtherThan(plan: Plan, path: string): string
  {
    if path == plan.manifestPath then plan.lockPath else plan.manifestPath
  }

  lemma ReplaceSafe(before: Files, w: World, script: Script, plan: Plan, tmp: string, dest: string)
    requires plan.Valid() && Safe(before, w.files, plan) && IsTemp(plan, tmp) && IsDestination(plan, dest)
    requires tmp in w.files ==> Some(w.files[tmp]) == Some(PlannedFor(plan, dest)) || Some(w.files[tmp]) == Get(before, dest)
    ensures var (w', ok) := ReplaceDestination(w, script, tmp, dest);
            && SafeStretch(before, w, w', plan) && w'.misread == w.misread
            && (ok ==> tmp in w.files && Get(w'.files, dest) == Some(w.files[tmp]))
            && Get(w'.files, OtherThan(plan, dest)) == Get(w.files, OtherThan(plan, dest))
            && (forall p :: p != tmp && p != dest ==> Get(w'.files, p) == Get(w.files, p))
  {
    var (w', ok) := ReplaceDestination(w, script, tmp, dest);
    OneEffect(before, w, w', plan);
  }

  /** A restore that reports success restored the file, unless its existence probe misread. */
  lemma RestoreSafe(before: Files, w: World, script: Script, plan: Plan, dest: string, original: ReadResult, tmp: string)
    requires plan.Valid() && Safe(before, w.files, plan) && IsTemp(plan, tmp) && IsDestination(plan, dest) && dest !in w.misread
    requires !original.ReadError? && Get(before, dest) == if original.Bytes? then Some(original.bytes) else None
    ensures var (w', ok) := Restore(w, script, dest, original, tmp);
            && SafeStretch(before, w, w', plan)
            && w'.misread <= w.misread + {dest}
            && (ok ==> (Get(w'.files, dest) == Get(before, dest) <==> dest !in w'.misread))
            && (Get(w.files, dest) == Get(before, dest) ==> Get(w'.files, dest) == Get(before, dest))
            && Get(w'.files, OtherThan(plan, dest)) == Get(w.files, OtherThan(plan, dest))
  {
    match original
    case Bytes(bytes) =>
      var (w1, written) := WriteTemp(w, script, tmp, bytes);
      WriteTempSafe(before, w, script, plan, tmp, bytes);
      if written {
        ReplaceSafe(before, w1, script, plan, tmp, dest);
        SafeThen(before, w, w1, ReplaceDestination(w1, script, tmp, dest).0, plan);
      }
    case NotFound =>
      var (w1, present) := ProbeExists(w, script, dest);
      OneEffect(before, w, w1, plan);
      if present {
        var (w2, _) := RemoveFile(w1, script, dest);
        OneEffect(before, w1, w2, plan);
        SafeThen(before, w, w1, w2, plan);
      }
  }

  lemma AttemptSafe(w: World, script: Script, plan: Plan)
    requires plan.Valid()
    ensures var (w', ok, began) := Attempt(w, script, plan);
            && SafeStretch(w.files, w, w', plan) && w'.misread == w.misread
            && (ok ==> Get(w'.files, plan.manifestPath) == Some(plan.manifestBytes) && Get(w'.files, plan.lockPath) == Some(plan.lockBytes))
            && (!began ==> Untouched(w.files, w'.files, plan))
  {
    hide SafeStretch, ReplaceDestination, Safe;
    var before := w.files;
    assert Safe(before, w.files, plan) by { StartsSafe(before, plan); }
    var (w1, wroteManifest) := WriteTemp(w, script, plan.manifestTmp, plan.manifestBytes);
    WriteTempSafe(before, w, script, plan, plan.manifestTmp, plan.manifestBytes);
    if wroteManifest {
      StretchEnds(before, w, w1, plan);
      var (w2, wroteLock) := WriteTemp(w1, script, plan.lockTmp, plan.lockBytes);
      WriteTempSafe(before, w1, script, plan, plan.lockTmp, plan.lockBytes);
      SafeThen(before, w, w1, w2, plan);
      if wroteLock {
        StretchEnds(before, w, w2, plan);
        var (w3, lockReplaced) := ReplaceDestination(w2, script, plan.lockTmp, plan.lockPath);
        ReplaceSafe(before, w2, script, plan, plan.lockTmp, plan.lockPath);
        SafeThen(before, w, w2, w3, plan);
        if lockReplaced {
          StretchEnds(before, w, w3, plan);
          assert Get(w3.files, plan.manifestTmp) == Some(plan.manifestBytes);
          ReplaceSafe(before, w3, script, plan, plan.manifestTmp, plan.manifestPath);
          SafeThen(before, w, w3, ReplaceDestination(w3, script, plan.manifestTmp, plan.manifestPath).0, plan);
        }
      }
    }
  }

  lemma StartsSafe(before: Files, plan: Plan)
    ensures Safe(before, before, plan)
  {
  }

  lemma StretchEnds(before: Files, w: World, w': World, plan: Plan)
    requires SafeStretch(before, w, w', plan)
    ensures Safe(before, w'.files, plan)
  {
  }

  // ---------------------------------------------------------------- main results

  function Start(files: Files): World
  {
    World(files, 0, [], {})
  }

  function OriginalOf(files: Files, path: string): ReadResult
  {
    if path in files then Bytes(files[path]) else NotFound
  }

  lemma RollBackSafe(before: Files, w: World, script: Script, plan: Plan)
    requires plan.Valid() && Safe(before, w.files, plan) && w.misread == {}
    ensures var (w', lockRestored, manifestRestored) :=
              RollBack(w, script, plan, OriginalOf(before, plan.manifestPath), OriginalOf(before, plan.lockPath));
            && SafeStretch(before, w, w', plan)
            && (lockRestored ==> (Get(w'.files, plan.lockPath) == Get(before, plan.lockPath) <==> plan.lockPath !in w'.misread))
            && (manifestRestored ==>
                  (Get(w'.files, plan.manifestPath) == Get(before, plan.manifestPath) <==> plan.manifestPath !in w'.misread))
            && (Untouched(before, w.files, plan) ==> Untouched(before, w'.files, plan))
  {
    hide Restore, Safe;
    var lockOriginal := OriginalOf(before, plan.lockPath);
    var (w1, _) := Restore(w, script, plan.lockPath, lockOriginal, plan.lockRestoreTmp);
    RestoreSafe(before, w, script, plan, plan.lockPath, lockOriginal, plan.lockRestoreTmp);
    StretchEnds(before, w, w1, plan);
    var manifestOriginal := OriginalOf(before, plan.manifestPath);
    RestoreSafe(before, w1, script, plan, plan.manifestPath, manifestOriginal, plan.manifestRestoreTmp);
    SafeThen(before, w, w1, Restore(w1, script, plan.manifestPath, manifestOriginal, plan.manifestRestoreTmp).0, plan);
  }

  lemma CleanUpSafe(before: Files, w: World, script: Script, plan: Plan)
    requires plan.Valid() && Safe(before, w.files, plan)
    ensures var w' := CleanUp(w, script, plan);
            SafeStretch(before, w, w', plan) && w'.misread == w.misread && Untouched(w.files, w'.files, plan)
  {
    hide RemoveFile, Safe;
    var (w1, _) := RemoveFile(w, script, plan.manifestTmp);
    RemoveTempSafe(before, w, script, plan, plan.manifestTmp);
    StretchEnds(before, w, w1, plan);
    var (w2, _) := RemoveFile(w1, script, plan.lockTmp);
    RemoveTempSafe(before, w1, script, plan, plan.lockTmp);
    SafeThen(before, w, w1, w2, plan);
  }

  /** What one publication guarantees, whatever the script does. */
  ghost predicate PublishGuarantee(before: World, w: World, outcome: Outcome, plan: Plan)
  {
    var files := before.files;
    && SafeStretch(files, before, w, plan)
    && (outcome.Published? ==>
          Get(w.files, plan.manifestPath) == Some(plan.manifestBytes) && Get(w.files, plan.lockPath) == Some(plan.lockBytes))
    && (outcome.Failed? && !outcome.publicationBegan ==> Untouched(files, w.files, plan))
    && (outcome.Failed? && !outcome.lockRestoreFailed ==>
          (Get(w.files, plan.lockPath) == Get(files, plan.lockPath) <==> plan.lockPath !in w.misread))
    && (outcome.Failed? && !outcome.manifestRestoreFailed ==>
          (Get(w.files, plan.manifestPath) == Get(files, plan.manifestPath) <==> plan.manifestPath !in w.misread))
  }

  lemma FinishSafe(w: World, script: Script, plan: Plan)
    requires plan.Valid() && w.misread == {}
    ensures var (w', outcome) := Finish(w, script, plan, OriginalOf(w.files, plan.manifestPath), OriginalOf(w.files, plan.lockPath));
            PublishGuarantee(w, w', outcome, plan)
  {
    hide Attempt, RollBack, CleanUp, SafeStretch, Safe;
    var (w1, ok, began) := Attempt(w, script, plan);
    AttemptSafe(w, script, plan);
    StretchEnds(w.files, w, w1, plan);
    var w2 := CleanUp(w1, script, plan);
    CleanUpSafe(w.files, w1, script, plan);
    SafeThen(w.files, w, w1, w2, plan);
    if !ok {
      StretchEnds(w.files, w, w2, plan);
      RollBackSafe(w.files, w2, script, plan);
      var w3 := RollBack(w2, script, plan, OriginalOf(w.files, plan.manifestPath), OriginalOf(w.files, plan.lockPath)).0;
      SafeThen(w.files, w, w2, w3, plan);
    }
  }

  /**
   For every script of failures: at every step each destination holds its old or its planned
   content and no other file but a temp changes; success means both new contents; a failure before
   publication began left both as they were; and a destination whose restore reported no failure
   is back to its original if and only if its existence probe did not misread.
   */
  lemma EveryStepSafe(files: Files, script: Script, plan: Plan)
    requires plan.Valid()
    ensures var (w, outcome) := RunPublish(Start(files), script, plan);
            PublishGuarantee(Start(files), w, outcome, plan)
  {
    hide Finish;
    var w0 := Start(files);
    var (w1, manifestOriginal) := CaptureOriginal(w0, script, plan.manifestPath);
    if !manifestOriginal.ReadError? {
      var (w2, lockOriginal) := CaptureOriginal(w1, script, plan.lockPath);
      if !lockOriginal.ReadError? {
        FinishSafe(w2, script, plan);
      }
    }
  }

  /** A probe misreads only a destination that was absent before and is there when rollback looks. */
  lemma OnlyAbsentMisread(w: World, script: Script, plan: Plan, dest: string, original: ReadResult, tmp: string)
    ensures var (w', _) := Restore(w, script, dest, original, tmp);
            && (original.Bytes? ==> w'.misread == w.misread)
            && (!original.Bytes? ==> w'.misread == w.misread + (if dest in w.files && !script(w.clock).Fine? then {dest} else {}))
  {
  }

  // ---------------------------------------------------------------- when a complete rollback can be trusted

  /** Temp names as the program makes them: pairwise different, and no such file is there. */
  predicate FreeTemps(files: Files, plan: Plan)
  {
    && plan.manifestTmp != plan.lockTmp && plan.manifestRestoreTmp != plan.lockRestoreTmp
    && {plan.manifestTmp, plan.lockTmp} !! {plan.manifestRestoreTmp, plan.lockRestoreTmp}
    && {plan.manifestTmp, plan.lockTmp, plan.manifestRestoreTmp, plan.lockRestoreTmp} !! files.Keys
  }

  /** However the operations fail, a rollback reported complete means this destination is back. */
  ghost predicate RollbackTrusted(files: Files, plan: Plan, dest: string)
  {
    forall script :: TrustedRun(files, script, plan, dest)
  }

  ghost predicate TrustedRun(files: Files, script: Script, plan: Plan, dest: string)
  {
    var (w, outcome) := RunPublish(Start(files), script, plan);
    outcome.RollbackComplete() ==> Get(w.files, dest) == Get(files, dest)
  }

  /** No probe, no misreading: a destination that was there is restored from its bytes. */
  lemma RollBackMisreads(w: World, script: Script, plan: Plan, manifestOriginal: ReadResult, lockOriginal: ReadResult)
    requires plan.Valid() && w.misread == {}
    ensures var w' := RollBack(w, script, plan, manifestOriginal, lockOriginal).0;
            && (lockOriginal.Bytes? ==> plan.lockPath !in w'.misread)
            && (manifestOriginal.Bytes? ==> plan.manifestPath !in w'.misread)
  {
    hide Restore;
    var w1 := Restore(w, script, plan.lockPath, lockOriginal, plan.lockRestoreTmp).0;
    OnlyAbsentMisread(w, script, plan, plan.lockPath, lockOriginal, plan.lockRestoreTmp);
    OnlyAbsentMisread(w1, script, plan, plan.manifestPath, manifestOriginal, plan.manifestRestoreTmp);
  }

  lemma FinishMisreads(w: World, script: Script, plan: Plan)
    requires plan.Valid() && w.misread == {}
    ensures var (w', outcome) := Finish(w, script, plan, OriginalOf(w.files, plan.manifestPath), OriginalOf(w.files, plan.lockPath));
            forall dest :: IsDestination(plan, dest) && dest in w.files ==> dest !in w'.misread
  {
    hide Attempt, CleanUp, RollBack, SafeStretch, Safe;
    var (w1, ok, _) := Attempt(w, script, plan);
    AttemptSafe(w, script, plan);
    StretchEnds(w.files, w, w1, plan);
    CleanUpSafe(w.files, w1, script, plan);
    if !ok {
      RollBackMisreads(CleanUp(w1, script, plan), script, plan, OriginalOf(w.files, plan.manifestPath), OriginalOf(w.files, plan.lockPath));
    }
  }

  lemma PresentIsTrusted(files: Files, script: Script, plan: Plan, dest: string)
    requires plan.Valid() && IsDestination(plan, dest) && dest in files
    ensures TrustedRun(files, script, plan, dest)
  {
    hide Finish, SafeStretch;
    EveryStepSafe(files, script, plan);
    var (w1, manifestOriginal) := CaptureOriginal(Start(files), script, plan.manifestPath);
    if !manifestOriginal.ReadError? {
      var (w2, lockOriginal) := CaptureOriginal(w1, script, plan.lockPath);
      if !lockOriginal.ReadError? {
        FinishMisreads(w2, script, plan);
      }
    }
  }

  /** The manifest's rename fails outright, then the probe of the new lock does. */
  function LockStays(t: nat): Fault
  {
    if t == 5 || t == 8 then Fails else Fine
  }

  /** The manifest is renamed but its directory sync fails, then the probe of the new manifest does. */
  function ManifestStays(t: nat): Fault
  {
    if t == 5 then Partly(0) else if t == 10 then Fails else Fine
  }

  /** Both scripts up to the failed manifest rename: the temps written, the lock renamed. */
  lemma LockIsRenamed(w: World, script: Script, plan: Plan)
    requires plan.Valid() && FreeTemps(w.files, plan) && w.clock == 2 && forall t :: 2 <= t <= 4 ==> script(t) == Fine
    ensures var (w', _) := ReplaceDestination(
              WriteTemp(WriteTemp(w, script, plan.manifestTmp, plan.manifestBytes).0, script, plan.lockTmp, plan.lockBytes).0,
              script, plan.lockTmp, plan.lockPath);
            w'.files == w.files[plan.manifestTmp := plan.manifestBytes][plan.lockPath := plan.lockBytes]
            && w'.clock == 5 && w'.misread == w.misread
    ensures WriteTemp(w, script, plan.manifestTmp, plan.manifestBytes).1
    ensures WriteTemp(WriteTemp(w, script, plan.manifestTmp, plan.manifestBytes).0, script, plan.lockTmp, plan.lockBytes).1
    ensures ReplaceDestination(
              WriteTemp(WriteTemp(w, script, plan.manifestTmp, plan.manifestBytes).0, script, plan.lockTmp, plan.lockBytes).0,
              script, plan.lockTmp, plan.lockPath).1
  {
    var (w1, _) := WriteTemp(w, script, plan.manifestTmp, plan.manifestBytes);
    assert w1.clock == 3 && w1.files == w.files[plan.manifestTmp := plan.manifestBytes];
    var (w2, _) := WriteTemp(w1, script, plan.lockTmp, plan.lockBytes);
    assert w2.clock == 4 && w2.files == w1.files[plan.lockTmp := plan.lockBytes];
    assert w2.files - {plan.lockTmp} == w1.files;
  }

  lemma LockStaysRun(w: World, plan: Plan)
    requires plan.Valid() && FreeTemps(w.files, plan) && w.clock == 2 && w.misread == {} && plan.lockPath !in w.files
    ensures var (w', outcome) := Finish(w, LockStays, plan, OriginalOf(w.files, plan.manifestPath), NotFound);
            outcome.RollbackComplete() && Get(w'.files, plan.lockPath) == Some(plan.lockBytes)
  {
    LockIsRenamed(w, LockStays, plan);
    var (w3, ok, began) := Attempt(w, LockStays, plan);
    assert !ok && w3.clock == 6 && w3.files == w.files[plan.manifestTmp := plan.manifestBytes][plan.lockPath := plan.lockBytes];
    var w4 := CleanUp(w3, LockStays, plan);
    assert w4.clock == 8 && w4.files == w.files[plan.lockPath := plan.lockBytes] by { CleansUp(w3, LockStays, plan); }
    var (w5, restored) := Restore(w4, LockStays, plan.lockPath, NotFound, plan.lockRestoreTmp);
    assert restored && w5.files == w4.files && w5.clock == 9;
    RestoresFine(w5, LockStays, plan.manifestPath, OriginalOf(w.files, plan.manifestPath), plan.manifestRestoreTmp);
  }

  lemma CleansUp(w: World, script: Script, plan: Plan)
    requires plan.Valid() && w.clock == 6 && script(6) == Fine && script(7) == Fine
    ensures var w' := CleanUp(w, script, plan);
            w'.clock == 8 && w'.files == w.files - {plan.manifestTmp, plan.lockTmp} && w'.misread == w.misread
  {
    var (w1, _) := RemoveFile(w, script, plan.manifestTmp);
    assert w1.files == w.files - {plan.manifestTmp} && w1.clock == 7;
    var (w2, _) := RemoveFile(w1, script, plan.lockTmp);
    assert w2.files == w1.files - {plan.lockTmp};
  }

  /** With nothing failing a restore takes its two steps, or one where nothing is there. */
  lemma RestoresFine(w: World, script: Script, dest: string, original: ReadResult, tmp: string)
    requires !original.ReadError? && tmp !in w.files && tmp != dest
    requires script(w.clock) == Fine && script(w.clock + 1) == Fine
    ensures var (w', ok) := Restore(w, script, dest, original, tmp);
            && ok && w'.misread == w.misread
            && (forall p :: p != dest ==> Get(w'.files, p) == Get(w.files, p))
            && (original.Bytes? || dest in w.files ==> w'.clock == w.clock + 2)
  {
    match original
    case Bytes(bytes) =>
      var (w1, _) := WriteTemp(w, script, tmp, bytes);
      assert w1.clock == w.clock + 1 && w1.files == w.files[tmp := bytes];
    case NotFound =>
      var (w1, _) := ProbeExists(w, script, dest);
      assert w1.clock == w.clock + 1 && w1.files == w.files;
  }

  lemma ManifestStaysRun(w: World, plan: Plan)
    requires plan.Valid() && FreeTemps(w.files, plan) && w.clock == 2 && w.misread == {} && plan.manifestPath !in w.files
    ensures var (w', outcome) := Finish(w, ManifestStays, plan, NotFound, OriginalOf(w.files, plan.lockPath));
            outcome.RollbackComplete() && Get(w'.files, plan.manifestPath) == Some(plan.manifestBytes)
  {
    LockIsRenamed(w, ManifestStays, plan);
    var (w3, ok, began) := Attempt(w, ManifestStays, plan);
    assert !ok && w3.clock == 6 && Get(w3.files, plan.manifestPath) == Some(plan.manifestBytes);
    assert Get(w3.files, plan.lockPath) == Some(plan.lockBytes) && plan.lockRestoreTmp !in w3.files;
    CleansUp(w3, ManifestStays, plan);
    var w4 := CleanUp(w3, ManifestStays, plan);
    RestoresFine(w4, ManifestStays, plan.lockPath, OriginalOf(w.files, plan.lockPath), plan.lockRestoreTmp);
    var (w5, _) := Restore(w4, ManifestStays, plan.lockPath, OriginalOf(w.files, plan.lockPath), plan.lockRestoreTmp);
    assert w5.clock == 10 && Get(w5.files, plan.manifestPath) == Get(w4.files, plan.manifestPath);
  }

  lemma AbsentIsNotTrusted(files: Files, plan: Plan, dest: string)
    requires plan.Valid() && FreeTemps(files, plan) && IsDestination(plan, dest) && dest !in files
    ensures !RollbackTrusted(files, plan, dest)
  {
    hide Finish;
    var script := if dest == plan.lockPath then LockStays else ManifestStays;
    var (w1, manifestOriginal) := CaptureOriginal(Start(files), script, plan.manifestPath);
    var (w2, lockOriginal) := CaptureOriginal(w1, script, plan.lockPath);
    assert w2 == World(files, 2, [], {});
    if dest == plan.lockPath {
      LockStaysRun(w2, plan);
    } else {
      ManifestStaysRun(w2, plan);
    }
    assert !TrustedRun(files, script, plan, dest);
  }

  /**
   An error that reports a complete rollback means the destination is back, for every pattern of
   failures, if and only if the destination was there before the call.
   */
  lemma RollbackTrustedIff(files: Files, plan: Plan, dest: string)
    requires plan.Valid() && FreeTemps(files, plan) && IsDestination(plan, dest)
    ensures RollbackTrusted(files, plan, dest) <==> dest in files
  {
    hide TrustedRun;
    if dest in files {
      forall script
        ensures TrustedRun(files, script, plan, dest)
      {
        PresentIsTrusted(files, script, plan, dest);
      }
    } else {
      AbsentIsNotTrusted(files, plan, dest);
    }
  }

  ghost predicate RestoresBoth(files: Files, script: Script, plan: Plan)
  {
    var (w, outcome) := RunPublish(Start(files), script, plan);
    outcome.RollbackComplete() ==> Untouched(files, w.files, plan)
  }

  lemma RestoresBothIs(files: Files, script: Script, plan: Plan)
    ensures RestoresBoth(files, script, plan) <==>
              TrustedRun(files, script, plan, plan.manifestPath) && TrustedRun(files, script, plan, plan.lockPath)
  {
    hide RunPublish;
  }

  /**
   "Complete rollback" means both files are back, for every pattern of failures, if and only if
   both were there before the call.
   */
  lemma CompleteRollbackIff(files: Files, plan: Plan)
    requires plan.Valid() && FreeTemps(files, plan)
    ensures (forall script :: RestoresBoth(files, script, plan)) <==> plan.manifestPath in files && plan.lockPath in files
  {
    hide RestoresBoth, TrustedRun;
    RollbackTrustedIff(files, plan, plan.manifestPath);
    RollbackTrustedIff(files, plan, plan.lockPath);
    forall script
      ensures RestoresBoth(files, script, plan) <==>
                TrustedRun(files, script, plan, plan.manifestPath) && TrustedRun(files, script, plan, plan.lockPath)
    {
      RestoresBothIs(files, script, plan);
    }
  }

  /** A run that reports a complete rollback while the new lock is still there. */
  lemma CompleteRollbackCanBeWrong()
    ensures var plan := Plan("m", "new m", "l", "new l", "m1", "l1", "m2", "l2");
            var (w, outcome) := RunPublish(Start(map["m" := "old m"]), LockStays, plan);
            && plan.Valid() && outcome.RollbackComplete() && Get(w.files, "l") == Some("new l")
  {
    hide Finish;
    var plan := Plan("m", "new m", "l", "new l", "m1", "l1", "m2", "l2");
    var w2 := CaptureOriginal(CaptureOriginal(Start(map["m" := "old m"]), LockStays, "m").0, LockStays, "l").0;
    LockStaysRun(w2, plan);
  }
}
