/**
 Undoing asset synchronization: what restoring gives back after every history, what an aborted
 sync leaves behind, and where the promise to undo everything fails.
 */
module AssetSyncRestore {
  import opened Options
  import opened AssetSync
  import opened AssetSyncHistory

  // ---------- Histories ----------

  /** A sync with some number of successful steps, a sync without a feed, or changes made to the
      client by anything else. */
  datatype Event = Synced(manifest: Manifest, thorough: bool, budget: nat) | Offline | Drifted(tree: Tree)

  function Step(payload: Payload, w: World, e: Event): World {
    match e
    case Synced(m, thorough, budget) => Sync(w, payload, m, thorough, budget).0
    case Offline => w
    case Drifted(tree) => w.(disk := w.disk.(tree := tree))
  }

  function Run(payload: Payload, w: World, events: seq<Event>, k: nat): World
    requires k <= |events|
  {
    if k == 0 then w else Step(payload, Run(payload, w, events, k - 1), events[k - 1])
  }

  /** Manifests are fit, and only files that the feed owns or has backed up are changed by others. */
  ghost predicate Allowed(payload: Payload, w: World, e: Event) {
    match e
    case Synced(m, thorough, budget) => ManifestOk(payload, m.assets)
    case Offline => true
    case Drifted(tree) =>
      forall x: Path :: x !in Owned(RecordsOf(w)) && x !in w.disk.backups ==> At(tree, x) == At(w.disk.tree, x)
  }

  /** The event is not a sync that was stopped half-way. */
  predicate Completed(payload: Payload, w: World, e: Event) {
    e.Synced? ==> !Sync(w, payload, e.manifest, e.thorough, e.budget).1.Failed?
  }

  function Vanilla(tree: Tree): World {
    World(Disk(tree, map[]), None)
  }

  /** The first `k` events of a history that starts from a vanilla client. */
  ghost predicate AllAllowed(payload: Payload, vanilla: Tree, events: seq<Event>, k: nat)
    requires k <= |events|
  {
    k == 0 || (
      && AllAllowed(payload, vanilla, events, k - 1)
      && Allowed(payload, Run(payload, Vanilla(vanilla), events, k - 1), events[k - 1]))
  }

  ghost predicate AllCompleted(payload: Payload, vanilla: Tree, events: seq<Event>, k: nat)
    requires k <= |events|
  {
    k == 0 || (
      && AllCompleted(payload, vanilla, events, k - 1)
      && var w := Run(payload, Vanilla(vanilla), events, k - 1);
         Allowed(payload, w, events[k - 1]) && Completed(payload, w, events[k - 1]))
  }

  lemma StepKeepsClean(payload: Payload, vanilla: Tree, w: World, e: Event)
    requires Knows(payload, w) && Clean(vanilla, w) && Allowed(payload, w, e) && Completed(payload, w, e)
    ensures Knows(payload, Step(payload, w, e)) && Clean(vanilla, Step(payload, w, e))
  {
    match e
    case Synced(m, thorough, budget) =>
      SyncKeepsClean(payload, w, m, thorough, budget, vanilla);
    case Offline =>
    case Drifted(tree) =>
      var after := Step(payload, w, e);
      assert RecordsOf(after) == RecordsOf(w);
      forall x: Path ensures CleanSpot(SpotOf(after.disk, Owned(RecordsOf(after)), x), At(vanilla, x)) {
        assert CleanSpot(SpotOf(w.disk, Owned(RecordsOf(w)), x), At(vanilla, x));
      }
  }

  lemma {:induction false} RunKeepsClean(payload: Payload, vanilla: Tree, events: seq<Event>, k: nat)
    requires k <= |events|
    requires AllCompleted(payload, vanilla, events, k)
    ensures var w := Run(payload, Vanilla(vanilla), events, k);
            Knows(payload, w) && Clean(vanilla, w)
  {
    hide Knows, Clean, Safe, Step, Allowed, Completed;
    VanillaIsClean(payload, vanilla);
    if k > 0 {
      RunKeepsClean(payload, vanilla, events, k - 1);
      StepKeepsClean(payload, vanilla, Run(payload, Vanilla(vanilla), events, k - 1), events[k - 1]);
    }
  }

  lemma VanillaIsClean(payload: Payload, vanilla: Tree)
    ensures Knows(payload, Vanilla(vanilla)) && Clean(vanilla, Vanilla(vanilla)) && Safe(vanilla, Vanilla(vanilla))
  {
  }

  /** What restoring leaves at a path. */
  lemma RestoredAt(payload: Payload, w: World, x: Path)
    requires Knows(payload, w)
    ensures At(Restore(w).disk.tree, x) ==
            if x in Owned(RecordsOf(w)) then At(w.disk.backups, x) else At(w.disk.tree, x)
  {
    var records := RecordsOf(w);
    var paths := RecordPaths(records, |records|);
    ListedPaths(payload, records, |records|);
    assert paths[..|paths|] == paths;
    CleansUpAt(w.disk, paths, {}, |paths|, {}, x);
    hide RecordPaths, Cleanup, OwnedUpTo;
  }

  /** From a clean world restoring gives the vanilla client, with no state and no backups. */
  lemma RestoreFromClean(payload: Payload, vanilla: Tree, w: World)
    requires Knows(payload, w) && Clean(vanilla, w)
    ensures Restore(w) == Vanilla(vanilla)
  {
    forall x: Path ensures At(Restore(w).disk.tree, x) == At(vanilla, x) {
      RestoredAt(payload, w, x);
      assert CleanSpot(SpotOf(w.disk, Owned(RecordsOf(w)), x), At(vanilla, x));
    }
    SameTree(Restore(w).disk.tree, vanilla);
  }

  /** Restoring undoes every history of completed syncs and of drift in the files they own. */
  lemma RestoreUndoesEveryHistory(payload: Payload, vanilla: Tree, events: seq<Event>)
    requires AllCompleted(payload, vanilla, events, |events|)
    ensures Restore(Run(payload, Vanilla(vanilla), events, |events|)) == Vanilla(vanilla)
  {
    RunKeepsClean(payload, vanilla, events, |events|);
    RestoreFromClean(payload, vanilla, Run(payload, Vanilla(vanilla), events, |events|));
  }

  /** The same client results from the same manifest after any two histories. */
  lemma SyncForgetsHistory(payload: Payload, vanilla: Tree, events: seq<Event>, m: Manifest, budget: nat)
    requires AllCompleted(payload, vanilla, events, |events|)
    requires ManifestOk(payload, m.assets)
    requires !Sync(Run(payload, Vanilla(vanilla), events, |events|), payload, m, true, budget).1.Failed?
    ensures Sync(Run(payload, Vanilla(vanilla), events, |events|), payload, m, true, budget).0.disk.tree ==
            Overlay(vanilla, payload, m)
  {
    RunKeepsClean(payload, vanilla, events, |events|);
    hide Run, Knows, Clean, Allowed, Completed, ManifestOk, Sync;
    ThoroughSyncIsOverlay(payload, Run(payload, Vanilla(vanilla), events, |events|), m, budget, vanilla);
  }

  // ---------- Syncs that were stopped ----------

  /** A vanilla file is still in place, untouched and unowned, or it is in the backups. */
  ghost predicate SafeSpot(s: Spot, original: Option<Content>) {
    original.Some? ==> s.backup == original || (s.backup.None? && !s.owned && s.content == original)
  }

  ghost predicate Safe(vanilla: Tree, w: World) {
    forall x: Path :: SafeSpot(SpotOf(w.disk, Owned(RecordsOf(w)), x), At(vanilla, x))
  }

  lemma InstallFileSafe(p: Installing, f: File, x: Path, original: Option<Content>)
    requires SafeSpot(SpotOf(p.disk, p.owned, x), original)
    ensures var r := InstallFile(p, f);
            SafeSpot(SpotOf(r.disk, r.owned, x), original) && p.owned <= r.owned
  {
  }

  lemma {:induction false} InstallFilesSafe(p: Installing, files: seq<File>, k: nat, x: Path, original: Option<Content>)
    requires k <= |files| && SafeSpot(SpotOf(p.disk, p.owned, x), original)
    ensures var r := InstallFiles(p, files, k);
            SafeSpot(SpotOf(r.disk, r.owned, x), original) && p.owned <= r.owned
  {
    if k > 0 {
      InstallFilesSafe(p, files, k - 1, x, original);
      InstallFileSafe(InstallFiles(p, files, k - 1), files[k - 1], x, original);
      hide SafeSpot, InstallFile;
    }
  }

  /** An installation keeps every original, wherever it stops. */
  lemma {:induction false} InstallAssetsSafe(p: Installing, payload: Payload, assets: seq<Asset>, k: nat, x: Path,
                                             original: Option<Content>)
    requires k <= |assets| && SafeSpot(SpotOf(p.disk, p.owned, x), original)
    ensures var r := InstallAssets(p, payload, assets, k);
            SafeSpot(SpotOf(r.disk, r.owned, x), original) && p.owned <= r.owned
  {
    if k > 0 {
      InstallAssetsSafe(p, payload, assets, k - 1, x, original);
      var files := payload(assets[k - 1].id);
      InstallFilesSafe(InstallAssets(p, payload, assets, k - 1), files, |files|, x, original);
      hide SafeSpot, InstallFiles;
    }
  }

  /** A sync keeps every original, completed or not. */
  lemma SyncSafeAt(payload: Payload, w: World, m: Manifest, thorough: bool, budget: nat, vanilla: Tree, x: Path)
    requires Knows(payload, w) && ManifestOk(payload, m.assets)
    requires SafeSpot(SpotOf(w.disk, Owned(RecordsOf(w)), x), At(vanilla, x))
    ensures var after := Sync(w, payload, m, thorough, budget).0;
            SafeSpot(SpotOf(after.disk, Owned(RecordsOf(after)), x), At(vanilla, x))
  {
    var assets, was := m.assets, RecordsOf(w);
    var pending, kept := Pending(w, assets, thorough, |assets|), Kept(w, assets, thorough, |assets|);
    var records := SyncedRecords(payload, w, assets, thorough);
    var start := Installing(w.disk, Owned(was), budget, false);
    var done := InstallAssets(start, payload, pending, |pending|);
    InstallAssetsSafe(start, payload, pending, |pending|, x, At(vanilla, x));
    if !done.failed {
      var paths := RecordPaths(was, |was|);
      InstallsAssetsAt(start, payload, pending, |pending|, x);
      ListedPaths(payload, was, |was|);
      assert paths[..|paths|] == paths;
      CleansUpAt(done.disk, paths, Owned(records), |paths|, Owned(was), x);
      SyncedRecordsOk(payload, w, assets, thorough);
      OwnedIs(payload, records);
      OwnedJoined(payload, kept, pending, |pending|, x);
      KeptOwned(payload, w, assets, thorough, x);
    }
    hide Pending, Kept, InstallAssets, Cleanup, RecordPaths, Provided, OwnedUpTo, NewRecords, RecordsOk, ManifestOk,
         Knows, From;
  }

  lemma StepKeepsSafe(payload: Payload, vanilla: Tree, w: World, e: Event)
    requires Knows(payload, w) && Safe(vanilla, w) && Allowed(payload, w, e)
    ensures Knows(payload, Step(payload, w, e)) && Safe(vanilla, Step(payload, w, e))
  {
    var after := Step(payload, w, e);
    forall x: Path ensures SafeSpot(SpotOf(after.disk, Owned(RecordsOf(after)), x), At(vanilla, x)) {
      assert SafeSpot(SpotOf(w.disk, Owned(RecordsOf(w)), x), At(vanilla, x));
      if e.Synced? {
        SyncSafeAt(payload, w, e.manifest, e.thorough, e.budget, vanilla, x);
      }
    }
    if e.Synced? && Completed(payload, w, e) {
      SyncedRecordsOk(payload, w, e.manifest.assets, e.thorough);
    }
    hide SafeSpot, RecordsOk, ManifestOk;
  }

  lemma {:induction false} RunKeepsSafe(payload: Payload, vanilla: Tree, events: seq<Event>, k: nat)
    requires k <= |events|
    requires AllAllowed(payload, vanilla, events, k)
    ensures var w := Run(payload, Vanilla(vanilla), events, k);
            Knows(payload, w) && Safe(vanilla, w)
  {
    hide Knows, Clean, Safe, Step, Allowed;
    VanillaIsClean(payload, vanilla);
    if k > 0 {
      RunKeepsSafe(payload, vanilla, events, k - 1);
      StepKeepsSafe(payload, vanilla, Run(payload, Vanilla(vanilla), events, k - 1), events[k - 1]);
    }
  }

  /** No history loses a vanilla file, wherever its syncs were stopped. */
  lemma NothingIsLost(payload: Payload, vanilla: Tree, events: seq<Event>, x: Path)
    requires AllAllowed(payload, vanilla, events, |events|)
    requires x in vanilla
    ensures var d := Run(payload, Vanilla(vanilla), events, |events|).disk;
            At(d.backups, x) == Some(vanilla[x]) || At(d.tree, x) == Some(vanilla[x])
  {
    RunKeepsSafe(payload, vanilla, events, |events|);
    var w := Run(payload, Vanilla(vanilla), events, |events|);
    assert SafeSpot(SpotOf(w.disk, Owned(RecordsOf(w)), x), At(vanilla, x));
  }

  /** No vanilla path that the saved state does not own was replaced behind its backup, no other unowned
      path has a file, and no owned path that vanilla lacks has a backup. Nothing is compared with the
      vanilla contents. */
  ghost predicate Unstained(vanilla: Tree, w: World) {
    forall x: Path :: UnstainedAt(x in vanilla, SpotOf(w.disk, Owned(RecordsOf(w)), x))
  }

  predicate UnstainedAt(vanillaHasIt: bool, s: Spot) {
    if vanillaHasIt then !s.owned && s.backup.Some? ==> s.content == s.backup
    else if s.owned then s.backup.None?
    else s.content.None?
  }

  /** Exactly when restoring undoes a history in which syncs were stopped. */
  lemma RestoreExactlyWhen(payload: Payload, vanilla: Tree, events: seq<Event>)
    requires AllAllowed(payload, vanilla, events, |events|)
    ensures var w := Run(payload, Vanilla(vanilla), events, |events|);
            Restore(w) == Vanilla(vanilla) <==> Unstained(vanilla, w)
  {
    RunKeepsSafe(payload, vanilla, events, |events|);
    RestoreOfSafe(payload, vanilla, Run(payload, Vanilla(vanilla), events, |events|));
  }

  lemma RestoreOfSafe(payload: Payload, vanilla: Tree, w: World)
    requires Knows(payload, w) && Safe(vanilla, w)
    ensures Restore(w) == Vanilla(vanilla) <==> Unstained(vanilla, w)
  {
    hide Owned, Knows;
    forall x: Path
      ensures At(Restore(w).disk.tree, x) == At(vanilla, x) <==>
              UnstainedAt(x in vanilla, SpotOf(w.disk, Owned(RecordsOf(w)), x))
    {
      RestoredAt(payload, w, x);
      assert SafeSpot(SpotOf(w.disk, Owned(RecordsOf(w)), x), At(vanilla, x));
    }
    hide Safe, UnstainedAt, Restore;
    if Unstained(vanilla, w) {
      SameTree(Restore(w).disk.tree, vanilla);
      RestoreForgets(w);
    }
    if Restore(w) == Vanilla(vanilla) {
      forall x: Path ensures UnstainedAt(x in vanilla, SpotOf(w.disk, Owned(RecordsOf(w)), x)) {
        assert At(Restore(w).disk.tree, x) == At(vanilla, x);
      }
    }
  }

  lemma RestoreForgets(w: World)
    ensures Restore(w).disk.backups == map[] && Restore(w).state == None
  {
  }

  // ---------- Where the promise fails ----------

  const CLIENT: Tree := map["p" := "original"]
  const FIRST: AssetId := AssetId("first", "1", Sha256("first"))
  const SECOND: AssetId := AssetId("second", "1", Sha256("second"))
  const TWO_PACKS: Manifest := Manifest("1", [Asset(FIRST, false), Asset(SECOND, false)])
  const NO_PACKS: Manifest := Manifest("2", [])

  /** Two packs that provide the same path. */
  function Overlapping(id: AssetId): seq<File> {
    [File("p", if id == FIRST then "one" else "two")]
  }

  /** Two packs that do not. */
  function Disjoint(id: AssetId): seq<File> {
    if id == FIRST then [File("p", "one")] else [File("q", "two")]
  }

  /** A sync of two packs of one file each, without a saved state. */
  lemma FirstSync(payload: Payload, d: Disk, budget: nat)
    requires |payload(FIRST)| == |payload(SECOND)| == 1
    ensures var w := World(d, None);
            && Pending(w, TWO_PACKS.assets, true, 2) == TWO_PACKS.assets
            && Kept(w, TWO_PACKS.assets, true, 2) == []
            && var start := Installing(d, {}, budget, false);
               InstallAssets(start, payload, TWO_PACKS.assets, 2) ==
               InstallFile(InstallFile(start, payload(FIRST)[0]), payload(SECOND)[0])
  {
    hide InstallFile;
    var w, assets := World(d, None), TWO_PACKS.assets;
    assert Keeps(w, assets[0], true).None? && Keeps(w, assets[1], true).None?;
    assert Pending(w, assets, true, 1) == [assets[0]] && Kept(w, assets, true, 1) == [];
    var start := Installing(d, {}, budget, false);
    assert InstallAssets(start, payload, assets, 1) == InstallFiles(start, payload(FIRST), 1);
    assert InstallFiles(start, payload(FIRST), 1) == InstallFile(start, payload(FIRST)[0]);
    var next := InstallFile(start, payload(FIRST)[0]);
    assert InstallFiles(next, payload(SECOND), 1) == InstallFile(next, payload(SECOND)[0]);
  }

  /** What such a sync leaves when it completes. */
  lemma FirstSyncCompletes(payload: Payload, d: Disk, done: Disk)
    requires |payload(FIRST)| == |payload(SECOND)| == 1
    requires InstallFile(InstallFile(Installing(d, {}, 4, false), payload(FIRST)[0]), payload(SECOND)[0]) ==
             Installing(done, {payload(FIRST)[0].path, payload(SECOND)[0].path}, 0, false)
    ensures Sync(World(d, None), payload, TWO_PACKS, true, 4) ==
            (World(done, Some(State("1", [RecordFor(payload, FIRST), RecordFor(payload, SECOND)]))), Updated("1"))
  {
    hide Kept, Pending, InstallAssets, InstallFile, RecordFor, Owned;
    FirstSync(payload, d, 4);
    TwoRecords(payload);
    assert RecordPaths([], 0) == [];
    NothingOwned();
    hide NewRecords;
  }

  lemma TwoRecords(payload: Payload)
    ensures [] + NewRecords(payload, TWO_PACKS.assets, 2) == [RecordFor(payload, FIRST), RecordFor(payload, SECOND)]
  {
    assert NewRecords(payload, TWO_PACKS.assets, 1) == [RecordFor(payload, FIRST)];
  }

  lemma NothingOwned()
    ensures RecordPaths([], 0) == [] && Owned([]) == {}
  {
  }

  /** Both packs installed: the second one's file over the backed-up original. */
  function BothInstalled(): World {
    World(Disk(map["p" := "two"], CLIENT),
          Some(State("1", [RecordFor(Overlapping, FIRST), RecordFor(Overlapping, SECOND)])))
  }

  lemma OverlapInstalls()
    ensures Sync(Vanilla(CLIENT), Overlapping, TWO_PACKS, true, 4).0 == BothInstalled()
  {
    hide Sync;
    var start := Installing(Disk(CLIENT, map[]), {}, 4, false);
    var first := InstallFile(start, File("p", "one"));
    assert first == Installing(Disk(map["p" := "one"], CLIENT), {"p"}, 2, false);
    assert |"first"| != |"second"|;
    assert Overlapping(FIRST)[0] == File("p", "one") && Overlapping(SECOND)[0] == File("p", "two");
    assert InstallFile(first, File("p", "two")) == Installing(Disk(map["p" := "two"], CLIENT), {"p", "p"}, 0, false);
    FirstSyncCompletes(Overlapping, Disk(CLIENT, map[]), Disk(map["p" := "two"], CLIENT));
  }

  lemma TwoPaths(payload: Payload, x: Path, y: Path)
    requires |payload(FIRST)| == |payload(SECOND)| == 1 && payload(FIRST)[0].path == x && payload(SECOND)[0].path == y
    ensures RecordPaths([RecordFor(payload, FIRST), RecordFor(payload, SECOND)], 2) == [x, y]
  {
    var records := [RecordFor(payload, FIRST), RecordFor(payload, SECOND)];
    RecordFilePaths(payload, FIRST, 1);
    RecordFilePaths(payload, SECOND, 1);
    hide RecordFor, FilePaths;
    assert RecordPaths(records, 0) == [];
    assert RecordPaths(records, 1) == [x];
  }

  lemma OverlapDrops()
    ensures Sync(BothInstalled(), Overlapping, NO_PACKS, true, 0).0.disk == Disk(map[], map[])
  {
    hide RecordPaths, Cleanup, Owned, RecordFor;
    TwoPaths(Overlapping, "p", "p");
    NothingOwned();
    assert [] + NewRecords(Overlapping, [], 0) == [];
    DropTwice(BothInstalled().disk);
  }

  lemma DropTwice(d: Disk)
    requires d == Disk(map["p" := "two"], CLIENT)
    ensures Cleanup(d, ["p", "p"], {}, 2) == Disk(map[], map[])
  {
    assert RestoreOrRemove(d, "p") == Disk(CLIENT, map[]);
    assert Cleanup(d, ["p", "p"], {}, 1) == Disk(CLIENT, map[]);
  }

  /** If two packs provide one path, dropping both puts the original back and then deletes it. */
  lemma OverlapLosesTheOriginal()
    ensures var both := Sync(Vanilla(CLIENT), Overlapping, TWO_PACKS, true, 4).0;
            Sync(both, Overlapping, NO_PACKS, true, 0).0.disk == Disk(map[], map[])
  {
    OverlapInstalls();
    OverlapDrops();
    hide Sync;
  }

  /** If a first sync is stopped after it has replaced a file, restoring keeps the replacement and
      deletes the only copy of the original. */
  lemma RestoreAfterAbortLosesTheOriginal()
    ensures var (aborted, outcome) := Sync(Vanilla(CLIENT), Disjoint, TWO_PACKS, true, 2);
            outcome == Failed && Restore(aborted) == Vanilla(map["p" := "one"])
  {
    var (aborted, outcome) := Sync(Vanilla(CLIENT), Disjoint, TWO_PACKS, true, 2);
    FirstSync(Disjoint, Disk(CLIENT, map[]), 2);
    assert RecordPaths([], 0) == [];
    assert Owned([]) == {};
    assert aborted == World(Disk(map["p" := "one"], CLIENT), None);
  }

  /** Nor does completing the sync afterwards help: it keeps the feed's own file as if it were an
      original, and restoring leaves that file behind. */
  lemma RetryDoesNotHeal()
    ensures var (aborted, outcome) := Sync(Vanilla(map[]), Disjoint, TWO_PACKS, true, 2);
            var (done, retried) := Sync(aborted, Disjoint, TWO_PACKS, true, 4);
            outcome == Failed && retried == Updated("1") && Restore(done) == Vanilla(map["p" := "one"])
  {
    hide Restore;
    StopsAfterOne();
    RetryCompletes();
    hide Sync;
    RestoreKeepsTheFeeds();
  }

  const STOPPED: Disk := Disk(map["p" := "one"], map[])
  const RETRIED: Disk := Disk(map["p" := "one", "q" := "two"], map["p" := "one"])

  lemma StopsAfterOne()
    ensures Sync(Vanilla(map[]), Disjoint, TWO_PACKS, true, 2) == (World(STOPPED, None), Failed)
  {
    hide Kept, Pending, InstallAssets;
    FirstSync(Disjoint, Disk(map[], map[]), 2);
    NothingOwned();
    hide Owned, RecordPaths;
    var start := Installing(Disk(map[], map[]), {}, 2, false);
    assert InstallFile(start, File("p", "one")) == Installing(STOPPED, {"p"}, 0, false);
    assert Disjoint(FIRST)[0] == File("p", "one");
  }

  lemma RetryCompletes()
    ensures Sync(World(STOPPED, None), Disjoint, TWO_PACKS, true, 4) ==
            (World(RETRIED, Some(State("1", [RecordFor(Disjoint, FIRST), RecordFor(Disjoint, SECOND)]))), Updated("1"))
  {
    hide Sync, RecordFor;
    var first := InstallFile(Installing(STOPPED, {}, 4, false), File("p", "one"));
    assert map["p" := "one"]["p" := "one"] == map["p" := "one"];
    assert first == Installing(Disk(map["p" := "one"], map["p" := "one"]), {"p"}, 2, false);
    assert |"first"| != |"second"|;
    assert Disjoint(FIRST)[0] == File("p", "one") && Disjoint(SECOND)[0] == File("q", "two");
    assert map["p" := "one"]["q" := "two"] == map["p" := "one", "q" := "two"];
    assert InstallFile(first, File("q", "two")) == Installing(RETRIED, {"p", "q"}, 0, false);
    FirstSyncCompletes(Disjoint, STOPPED, RETRIED);
  }

  lemma RestoreKeepsTheFeeds()
    ensures Restore(World(RETRIED, Some(State("1", [RecordFor(Disjoint, FIRST), RecordFor(Disjoint, SECOND)])))) ==
            Vanilla(map["p" := "one"])
  {
    hide RecordFor, RecordPaths;
    assert |"first"| != |"second"|;
    TwoPaths(Disjoint, "p", "q");
    var once := Disk(RETRIED.tree["p" := "one"], RETRIED.backups - {"p"});
    assert RETRIED.tree["p" := "one"] == RETRIED.tree && RETRIED.backups - {"p"} == map[];
    assert Cleanup(RETRIED, ["p", "q"], {}, 1) == Disk(RETRIED.tree, map[]);
    assert RETRIED.tree - {"q"} == map["p" := "one"];
    assert Cleanup(RETRIED, ["p", "q"], {}, 2) == Disk(map["p" := "one"], map[]);
  }

  // ---------- Without a feed ----------

  /** Without a feed the launcher warns with the version of the last sync that completed, and fails
      exactly when none ever did. */
  lemma {:induction false} OfflineNamesTheLastSync(payload: Payload, vanilla: Tree, events: seq<Event>, k: nat)
    requires k <= |events|
    ensures var outcome := SyncOffline(Run(payload, Vanilla(vanilla), events, k));
            match LastCompleted(payload, vanilla, events, k)
            case None => outcome == Failed
            case Some(m) => outcome == OfflineWarning(m.packVersion)
  {
    hide Step, Completed;
    if k > 0 {
      OfflineNamesTheLastSync(payload, vanilla, events, k - 1);
      StepNames(payload, Run(payload, Vanilla(vanilla), events, k - 1), events[k - 1]);
    }
  }

  /** Only a completed sync changes what the launcher says without a feed. */
  lemma StepNames(payload: Payload, w: World, e: Event)
    ensures SyncOffline(Step(payload, w, e)) ==
            if e.Synced? && Completed(payload, w, e) then OfflineWarning(e.manifest.packVersion) else SyncOffline(w)
  {
    hide Pending, Kept, InstallAssets, Cleanup, NewRecords, RecordPaths, Owned;
  }

  function LastCompleted(payload: Payload, vanilla: Tree, events: seq<Event>, k: nat): Option<Manifest>
    requires k <= |events|
  {
    if k == 0 then None
    else if events[k - 1].Synced? && Completed(payload, Run(payload, Vanilla(vanilla), events, k - 1), events[k - 1])
    then Some(events[k - 1].manifest)
    else LastCompleted(payload, vanilla, events, k - 1)
  }
}
