/**
 Which publication succeeds and what each one leaves behind (src/manifest_edit.rs, `publish_impl`): exactly six
 operations decide success, and a failure of one of them alone leaves every file as it was.
 */
module PublishOutcome {
  import opened Options
  import opened Publish

  /** The operations before `n` all go well. */
  ghost predicate FineUntil(script: Script, n: nat)
  {
    forall t: nat :: t < n ==> script(t).Fine?
  }

  ghost predicate FineFrom(script: Script, n: nat)
  {
    forall t: nat :: t >= n ==> script(t).Fine?
  }

  /** No file changes but those at `paths`. */
  ghost predicate SameOff(before: Files, after: Files, paths: set<string>)
  {
    forall p :: p !in paths ==> Get(after, p) == Get(before, p)
  }

  lemma SameFiles(a: Files, b: Files)
    requires forall p :: Get(a, p) == Get(b, p)
    ensures a == b
  {
    assert forall p :: p in a <==> Get(a, p).Some?;
    assert forall p :: p in b <==> Get(b, p).Some?;
    assert forall p :: p in a ==> a[p] == Get(a, p).value == Get(b, p).value;
  }

  lemma WriteTempIs(w: World, script: Script, path: string, bytes: string)
    ensures var (w', ok) := WriteTemp(w, script, path, bytes);
            && w'.clock == w.clock + 1 && (ok <==> path !in w.files && script(w.clock).Fine?)
            && (ok ==> w'.files == w.files[path := bytes])
            && SameOff(w.files, w'.files, {path})
  {
  }

  lemma ReplaceIs(w: World, script: Script, tmp: string, dest: string)
    ensures var (w', ok) := ReplaceDestination(w, script, tmp, dest);
            && w'.clock == w.clock + 1 && (ok <==> tmp in w.files && script(w.clock).Fine?)
            && (ok ==> w'.files == (w.files - {tmp})[dest := w.files[tmp]])
            && SameOff(w.files, w'.files, {tmp, dest})
  {
  }

  /** The attempt succeeds exactly when its four operations do, and then it leaves the two new contents and no temp. */
  lemma AttemptIff(w: World, script: Script, plan: Plan)
    requires plan.Valid() && FreeTemps(w.files, plan)
    ensures var (w', ok, began) := Attempt(w, script, plan);
            && (began <==> script(w.clock).Fine? && script(w.clock + 1).Fine?)
            && (ok <==> began && script(w.clock + 2).Fine? && script(w.clock + 3).Fine?)
            && (ok ==> w'.clock == w.clock + 4
                       && w'.files == w.files[plan.lockPath := plan.lockBytes][plan.manifestPath := plan.manifestBytes])
            && (!ok ==> w'.clock > w.clock && !script(w'.clock - 1).Fine?)
            && SameOff(w.files, w'.files, {plan.manifestTmp, plan.lockTmp, plan.manifestPath, plan.lockPath})
  {
    hide WriteTemp, ReplaceDestination;
    var (w1, wroteManifest) := WriteTemp(w, script, plan.manifestTmp, plan.manifestBytes);
    WriteTempIs(w, script, plan.manifestTmp, plan.manifestBytes);
    if wroteManifest {
      var (w2, wroteLock) := WriteTemp(w1, script, plan.lockTmp, plan.lockBytes);
      WriteTempIs(w1, script, plan.lockTmp, plan.lockBytes);
      if wroteLock {
        var (w3, lockReplaced) := ReplaceDestination(w2, script, plan.lockTmp, plan.lockPath);
        ReplaceIs(w2, script, plan.lockTmp, plan.lockPath);
        assert w2.files[plan.lockTmp] == plan.lockBytes;
        if lockReplaced {
          assert w3.files[plan.manifestTmp] == plan.manifestBytes;
          ReplaceIs(w3, script, plan.manifestTmp, plan.manifestPath);
        }
      }
    }
  }

  lemma RemoveIs(w: World, script: Script, path: string)
    requires script(w.clock).Fine?
    ensures var (w', ok) := RemoveFile(w, script, path);
            w'.clock == w.clock + 1 && (ok <==> path in w.files) && w'.files == w.files - {path}
  {
  }

  lemma CleanUpIs(w: World, script: Script, plan: Plan)
    requires FineFrom(script, w.clock)
    ensures var w' := CleanUp(w, script, plan);
            w'.clock == w.clock + 2 && w'.files == w.files - {plan.manifestTmp, plan.lockTmp}
  {
    hide RemoveFile;
    RemoveIs(w, script, plan.manifestTmp);
    RemoveIs(RemoveFile(w, script, plan.manifestTmp).0, script, plan.lockTmp);
  }

  /** With the rest going well a restore gives the destination its original, bytes or absence, and leaves no temp. */
  lemma RestoreIs(w: World, script: Script, path: string, original: ReadResult, tmp: string)
    requires FineFrom(script, w.clock) && tmp !in w.files && tmp != path && !original.ReadError?
    ensures var (w', ok) := Restore(w, script, path, original, tmp);
            && ok && w'.clock >= w.clock
            && w'.files == if original.Bytes? then w.files[path := original.bytes] else w.files - {path}
  {
    hide WriteTemp, ReplaceDestination, RemoveFile;
    if original.Bytes? {
      WriteTempIs(w, script, tmp, original.bytes);
      ReplaceIs(WriteTemp(w, script, tmp, original.bytes).0, script, tmp, path);
      assert w.files[tmp := original.bytes] - {tmp} == w.files;
    } else {
      RemoveIs(ProbeExists(w, script, path).0, script, path);
    }
  }

  /** After a failed attempt, with the rest going well, every file is as it was. */
  lemma RollsBack(before: Files, w: World, script: Script, plan: Plan)
    requires plan.Valid() && FreeTemps(before, plan) && FineFrom(script, w.clock)
    requires SameOff(before, w.files, {plan.manifestTmp, plan.lockTmp, plan.manifestPath, plan.lockPath})
    ensures var w1 := CleanUp(w, script, plan);
            var (w2, lockRestored, manifestRestored) :=
              RollBack(w1, script, plan, OriginalOf(before, plan.manifestPath), OriginalOf(before, plan.lockPath));
            lockRestored && manifestRestored && w2.files == before
  {
    hide CleanUp, Restore;
    var w1 := CleanUp(w, script, plan);
    CleanUpIs(w, script, plan);
    assert forall p :: Get(w1.files, p) == if p in {plan.manifestTmp, plan.lockTmp} then None else Get(w.files, p);
    assert Get(w1.files, plan.lockRestoreTmp).None? && Get(w1.files, plan.manifestRestoreTmp).None?;
    var lockOriginal, manifestOriginal := OriginalOf(before, plan.lockPath), OriginalOf(before, plan.manifestPath);
    RestoreIs(w1, script, plan.lockPath, lockOriginal, plan.lockRestoreTmp);
    var w2 := Restore(w1, script, plan.lockPath, lockOriginal, plan.lockRestoreTmp).0;
    RestoreIs(w2, script, plan.manifestPath, manifestOriginal, plan.manifestRestoreTmp);
    SameFiles(Restore(w2, script, plan.manifestPath, manifestOriginal, plan.manifestRestoreTmp).0.files, before);
  }

  /** What is read at the start. */
  lemma ReadsOriginals(files: Files, script: Script, plan: Plan)
    requires script(0).Fine? && script(1).Fine?
    ensures var (w1, manifestOriginal) := CaptureOriginal(Start(files), script, plan.manifestPath);
            var (w2, lockOriginal) := CaptureOriginal(w1, script, plan.lockPath);
            && manifestOriginal == OriginalOf(files, plan.manifestPath) && lockOriginal == OriginalOf(files, plan.lockPath)
            && w2 == World(files, 2, [], {})
  {
  }

  lemma CleanUpOfNothing(w: World, script: Script, plan: Plan)
    requires plan.manifestTmp !in w.files && plan.lockTmp !in w.files
    ensures CleanUp(w, script, plan).files == w.files
  {
  }

  /**
   A publication succeeds if and only if its first six operations do: reading both originals, writing both temps,
   replacing the lock, replacing the manifest. Then exactly the two destinations change, and no temp is left.
   Publication has begun in a failure if and only if the first four went well.
   */
  lemma PublishedIff(files: Files, script: Script, plan: Plan)
    requires plan.Valid() && FreeTemps(files, plan)
    ensures var (w, outcome) := RunPublish(Start(files), script, plan);
            && (outcome.Published? <==> FineUntil(script, 6))
            && (outcome.Published? ==> w.files == files[plan.lockPath := plan.lockBytes][plan.manifestPath := plan.manifestBytes])
            && (outcome.Failed? ==> (outcome.publicationBegan <==> FineUntil(script, 4)))
  {
    hide Attempt, CleanUp, RollBack;
    if script(0).Fine? && script(1).Fine? {
      ReadsOriginals(files, script, plan);
      var w := World(files, 2, [], {});
      AttemptIff(w, script, plan);
      if Attempt(w, script, plan).1 {
        CleanUpOfNothing(Attempt(w, script, plan).0, script, plan);
      }
      assert FineUntil(script, 6) <==> script(2).Fine? && script(3).Fine? && script(4).Fine? && script(5).Fine?;
      assert FineUntil(script, 4) <==> script(2).Fine? && script(3).Fine?;
    }
  }

  /** Only the operation at time `t` goes wrong. */
  ghost predicate OneFault(script: Script, t: nat)
  {
    !script(t).Fine? && forall u: nat :: u != t ==> script(u).Fine?
  }

  /**
   When one of the six fails, in whichever way, and nothing else does, the error says whether publication had begun, the
   rollback is complete, and every file, the temps included, is as it was.
   */
  lemma OneFaultChangesNothing(files: Files, script: Script, plan: Plan, t: nat)
    requires plan.Valid() && FreeTemps(files, plan) && OneFault(script, t) && t < 6
    ensures var (w, outcome) := RunPublish(Start(files), script, plan);
            outcome == Failed(t >= 4, false, false) && w.files == files
  {
    hide Attempt, CleanUp, RollBack;
    PublishedIff(files, script, plan);
    assert !FineUntil(script, 6) && (FineUntil(script, 4) <==> t >= 4);
    if t >= 2 {
      ReadsOriginals(files, script, plan);
      var w := World(files, 2, [], {});
      AttemptIff(w, script, plan);
      var w1 := Attempt(w, script, plan).0;
      assert w1.clock - 1 == t;
      RollsBack(files, w1, script, plan);
    }
  }

  /** A failure after the six, in the removal of the temps the renames consumed, is not noticed. */
  lemma LateFaultsAreHarmless(files: Files, script: Script, plan: Plan)
    requires plan.Valid() && FreeTemps(files, plan) && FineUntil(script, 6)
    ensures RunPublish(Start(files), script, plan).0.files == RunPublish(Start(files), t => Fine, plan).0.files
    ensures RunPublish(Start(files), script, plan).1 == Published
  {
    hide RunPublish;
    PublishedIff(files, script, plan);
    PublishedIff(files, t => Fine, plan);
  }
}
