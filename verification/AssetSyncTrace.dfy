/**
 Which stopped syncs leave something behind: what a restore does not undo, told by the history.

 A file that a stopped sync placed where the vanilla client has none is in no saved state. Nothing later
 forgets it: a sync that installs the path keeps that file as an original, and dropping the path brings
 it back.
 */
module AssetSyncTrace {
  import opened Options
  import opened AssetSync
  import opened AssetSyncHistory
  import opened AssetSyncRestore

  /** A backup, or a file that the saved state does not own. */
  predicate HasTrace(w: World, x: Path) {
    x in w.disk.backups || (x in w.disk.tree && x !in Owned(RecordsOf(w)))
  }

  /** A sync was stopped after it placed a file at a path where none was and that no state owned. */
  predicate Litters(payload: Payload, w: World, e: Event, x: Path) {
    && !Completed(payload, w, e) && x !in Owned(RecordsOf(w)) && x !in w.disk.tree
    && x in Step(payload, w, e).disk.tree
  }

  /** Some event of a history did. */
  ghost predicate Littered(payload: Payload, vanilla: Tree, events: seq<Event>, k: nat, x: Path)
    requires k <= |events|
  {
    exists j :: 0 <= j < k && Litters(payload, Run(payload, Vanilla(vanilla), events, j), events[j], x)
  }

  // ---------- One sync ----------

  /** What an installation keeps at a path, wherever it stops. */
  predicate Carries(x: Path, p: Installing, r: Installing) {
    && (x in p.disk.backups ==> x in r.disk.backups)
    && (x in p.disk.tree ==> x in r.disk.tree)
    && (x !in p.disk.backups && (x in p.owned || x !in p.disk.tree) ==>
          x !in r.disk.backups && (x in r.owned || x !in r.disk.tree))
  }

  lemma {:induction false} FilesCarry(p: Installing, files: seq<File>, k: nat, x: Path)
    requires k <= |files|
    ensures Carries(x, p, InstallFiles(p, files, k))
  {
    if k > 0 {
      FilesCarry(p, files, k - 1, x);
    }
  }

  lemma {:induction false} AssetsCarry(p: Installing, payload: Payload, assets: seq<Asset>, k: nat, x: Path)
    requires k <= |assets|
    ensures Carries(x, p, InstallAssets(p, payload, assets, k))
  {
    if k > 0 {
      AssetsCarry(p, payload, assets, k - 1, x);
      var files := payload(assets[k - 1].id);
      FilesCarry(InstallAssets(p, payload, assets, k - 1), files, |files|, x);
      hide InstallFiles;
    }
  }

  lemma StoppedTrace(payload: Payload, w: World, m: Manifest, thorough: bool, budget: nat, x: Path)
    requires Sync(w, payload, m, thorough, budget).1.Failed?
    ensures HasTrace(Sync(w, payload, m, thorough, budget).0, x) <==>
            HasTrace(w, x) || Litters(payload, w, Synced(m, thorough, budget), x)
  {
    var pending := Pending(w, m.assets, thorough, |m.assets|);
    AssetsCarry(Installing(w.disk, Owned(RecordsOf(w)), budget, false), payload, pending, |pending|, x);
    hide Pending, Kept, InstallAssets, Cleanup, NewRecords, RecordPaths, Owned;
  }

  lemma CompletedTrace(payload: Payload, w: World, m: Manifest, thorough: bool, budget: nat, x: Path)
    requires Knows(payload, w) && ManifestOk(payload, m.assets)
    requires !Sync(w, payload, m, thorough, budget).1.Failed?
    ensures HasTrace(Sync(w, payload, m, thorough, budget).0, x) <==> HasTrace(w, x)
  {
    var assets, was := m.assets, RecordsOf(w);
    var pending, kept := Pending(w, assets, thorough, |assets|), Kept(w, assets, thorough, |assets|);
    var records := SyncedRecords(payload, w, assets, thorough);
    var start := Installing(w.disk, Owned(was), budget, false);
    var done := InstallAssets(start, payload, pending, |pending|);
    var paths := RecordPaths(was, |was|);
    InstallsAssetsAt(start, payload, pending, |pending|, x);
    ListedPaths(payload, was, |was|);
    assert paths[..|paths|] == paths;
    CleansUpAt(done.disk, paths, Owned(records), |paths|, Owned(was), x);
    SyncedRecordsOk(payload, w, assets, thorough);
    OwnedIs(payload, records);
    OwnedJoined(payload, kept, pending, |pending|, x);
    KeptOwned(payload, w, assets, thorough, x);
    hide Pending, Kept, InstallAssets, Cleanup, RecordPaths, Provided, OwnedUpTo, NewRecords, RecordsOk, ManifestOk,
         Knows, From;
  }

  // ---------- Histories ----------

  lemma StepTrace(payload: Payload, w: World, e: Event, x: Path)
    requires Knows(payload, w) && Allowed(payload, w, e)
    ensures HasTrace(Step(payload, w, e), x) <==> HasTrace(w, x) || Litters(payload, w, e, x)
  {
    hide Knows, Sync, Owned;
    if e.Synced? {
      if Sync(w, payload, e.manifest, e.thorough, e.budget).1.Failed? {
        StoppedTrace(payload, w, e.manifest, e.thorough, e.budget, x);
      } else {
        CompletedTrace(payload, w, e.manifest, e.thorough, e.budget, x);
      }
    } else if e.Drifted? {
      assert x !in Owned(RecordsOf(w)) && x !in w.disk.backups ==> At(e.tree, x) == At(w.disk.tree, x);
    }
  }

  /** A path that the vanilla client lacks has a trace exactly when a stopped sync littered it. */
  lemma {:induction false} TraceIsLitter(payload: Payload, vanilla: Tree, events: seq<Event>, k: nat, x: Path)
    requires k <= |events| && AllAllowed(payload, vanilla, events, k) && x !in vanilla
    ensures HasTrace(Run(payload, Vanilla(vanilla), events, k), x) <==> Littered(payload, vanilla, events, k, x)
  {
    hide HasTrace, Litters, Step, Allowed, Knows;
    if k == 0 {
      VanillaHasNoTrace(vanilla, x);
    } else {
      var w := Run(payload, Vanilla(vanilla), events, k - 1);
      TraceIsLitter(payload, vanilla, events, k - 1, x);
      RunKeepsSafe(payload, vanilla, events, k - 1);
      StepTrace(payload, w, events[k - 1], x);
      LitteredNext(payload, vanilla, events, k, x);
    }
  }

  lemma VanillaHasNoTrace(vanilla: Tree, x: Path)
    requires x !in vanilla
    ensures !HasTrace(Vanilla(vanilla), x)
  {
  }

  lemma LitteredNext(payload: Payload, vanilla: Tree, events: seq<Event>, k: nat, x: Path)
    requires 0 < k <= |events|
    ensures Littered(payload, vanilla, events, k, x) <==>
            || Littered(payload, vanilla, events, k - 1, x)
            || Litters(payload, Run(payload, Vanilla(vanilla), events, k - 1), events[k - 1], x)
  {
    hide Litters, Run;
    if Littered(payload, vanilla, events, k, x) {
      var j :| 0 <= j < k && Litters(payload, Run(payload, Vanilla(vanilla), events, j), events[j], x);
      assert j < k - 1 || j == k - 1;
    }
  }

  /** Restoring undoes a history in which syncs were stopped exactly when it neither hides an original
      nor has littered a path, unless others have cleared that since. */
  ghost predicate LeavesNoLitter(payload: Payload, vanilla: Tree, events: seq<Event>) {
    var w := Run(payload, Vanilla(vanilla), events, |events|);
    && (forall x :: x in vanilla && x !in Owned(RecordsOf(w)) && x in w.disk.backups ==>
          At(w.disk.tree, x) == At(w.disk.backups, x))
    && (forall x :: x !in vanilla && Littered(payload, vanilla, events, |events|, x) ==>
          x !in Owned(RecordsOf(w)) && x !in w.disk.tree)
  }

  lemma RestoreExactlyWhenNoLitter(payload: Payload, vanilla: Tree, events: seq<Event>)
    requires AllAllowed(payload, vanilla, events, |events|)
    ensures Restore(Run(payload, Vanilla(vanilla), events, |events|)) == Vanilla(vanilla) <==>
            LeavesNoLitter(payload, vanilla, events)
  {
    var w := Run(payload, Vanilla(vanilla), events, |events|);
    RestoreExactlyWhen(payload, vanilla, events);
    hide Restore, Littered, Run, Owned, AllAllowed;
    forall x | x !in vanilla
      ensures UnstainedAt(false, SpotOf(w.disk, Owned(RecordsOf(w)), x)) <==>
              (Littered(payload, vanilla, events, |events|, x) ==>
                 x !in Owned(RecordsOf(w)) && x !in w.disk.tree)
    {
      TraceIsLitter(payload, vanilla, events, |events|, x);
    }
    NoLitterMeans(payload, vanilla, events, w);
  }

  lemma NoLitterMeans(payload: Payload, vanilla: Tree, events: seq<Event>, w: World)
    requires w == Run(payload, Vanilla(vanilla), events, |events|)
    requires forall x | x !in vanilla ::
               UnstainedAt(false, SpotOf(w.disk, Owned(RecordsOf(w)), x)) <==>
               (Littered(payload, vanilla, events, |events|, x) ==>
                  x !in Owned(RecordsOf(w)) && x !in w.disk.tree)
    ensures Unstained(vanilla, w) <==> LeavesNoLitter(payload, vanilla, events)
  {
    hide Littered, Run, Owned;
    if LeavesNoLitter(payload, vanilla, events) {
      forall x: Path ensures UnstainedAt(x in vanilla, SpotOf(w.disk, Owned(RecordsOf(w)), x)) {
      }
    }
    if Unstained(vanilla, w) {
      forall x: Path ensures UnstainedAt(x in vanilla, SpotOf(w.disk, Owned(RecordsOf(w)), x)) {
      }
    }
  }
}
