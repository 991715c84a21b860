/**
 Asset synchronization when packs may share paths: exactly when dropping and restoring still work.

 A listed path is restored or removed once for every record that lists it. The first time puts an
 original back; a second time deletes it.
 */
module AssetSyncOverlap {
  import opened Options
  import opened AssetSync
  import opened AssetSyncHistory
  import opened AssetSyncRestore

  /** How often a path is among the first `k` listed ones. */
  function Count(paths: seq<Path>, k: nat, x: Path): nat
    requires k <= |paths|
  {
    if k == 0 then 0 else Count(paths, k - 1, x) + if paths[k - 1] == x then 1 else 0
  }

  /** How often the saved state lists a path. */
  function Listings(records: seq<Record>, x: Path): nat {
    var paths := RecordPaths(records, |records|);
    Count(paths, |paths|, x)
  }

  lemma {:induction false} CountIsListed(paths: seq<Path>, k: nat, x: Path)
    requires k <= |paths|
    ensures x in paths[..k] <==> Count(paths, k, x) > 0
  {
    if k > 0 {
      CountIsListed(paths, k - 1, x);
      assert paths[..k] == paths[..k - 1] + [paths[k - 1]];
    }
  }

  lemma OwnedIsListed(records: seq<Record>, x: Path)
    ensures x in Owned(records) <==> Listings(records, x) > 0
  {
    var paths := RecordPaths(records, |records|);
    CountIsListed(paths, |paths|, x);
    assert paths[..|paths|] == paths;
  }

  /** What dropping a path some number of times leaves at it. */
  function DroppedSpot(s: Spot, times: nat): Spot {
    if times == 0 then s else if times == 1 then Drop(s) else Spot(None, None, s.owned)
  }

  lemma {:induction false} CleansUpMany(d: Disk, paths: seq<Path>, desired: set<Path>, k: nat, owned: set<Path>,
                                        x: Path)
    requires k <= |paths|
    ensures SpotOf(Cleanup(d, paths, desired, k), owned, x) ==
            DroppedSpot(SpotOf(d, owned, x), if x in desired then 0 else Count(paths, k, x))
  {
    if k > 0 {
      CleansUpMany(d, paths, desired, k - 1, owned, x);
    }
  }

  /** Restoring gives the vanilla client back exactly when the saved state lists no vanilla path twice.
      A path that vanilla lacks may be listed any number of times. */
  lemma RestoreExactlyWhenListedOnce(vanilla: Tree, w: World)
    requires Clean(vanilla, w)
    ensures Restore(w) == Vanilla(vanilla) <==> forall x :: x in vanilla ==> Listings(RecordsOf(w), x) <= 1
  {
    forall x: Path
      ensures At(Restore(w).disk.tree, x) == At(vanilla, x) <==> (x in vanilla ==> Listings(RecordsOf(w), x) <= 1)
    {
      assert CleanSpot(SpotOf(w.disk, Owned(RecordsOf(w)), x), At(vanilla, x));
      RestoredMany(vanilla, w, x);
    }
    hide Clean, Restore, Listings;
    if forall x :: x in vanilla ==> Listings(RecordsOf(w), x) <= 1 {
      SameTree(Restore(w).disk.tree, vanilla);
      RestoreForgets(w);
    }
    if Restore(w) == Vanilla(vanilla) {
      forall x | x in vanilla ensures Listings(RecordsOf(w), x) <= 1 {
        assert At(Restore(w).disk.tree, x) == At(vanilla, x);
      }
    }
  }

  lemma RestoredMany(vanilla: Tree, w: World, x: Path)
    requires CleanSpot(SpotOf(w.disk, Owned(RecordsOf(w)), x), At(vanilla, x))
    ensures At(Restore(w).disk.tree, x) == At(vanilla, x) <==> (x in vanilla ==> Listings(RecordsOf(w), x) <= 1)
  {
    var records := RecordsOf(w);
    var paths := RecordPaths(records, |records|);
    CleansUpMany(w.disk, paths, {}, |paths|, Owned(records), x);
    OwnedIsListed(records, x);
    hide Cleanup, RecordPaths, Owned, Count;
  }

  // ---------- What records own ----------

  predicate Lists(r: Record, x: Path) {
    exists i :: 0 <= i < |r.files| && r.files[i].path == x
  }

  lemma {:induction false} FilePathsHas(files: seq<FileRecord>, k: nat, x: Path)
    requires k <= |files|
    ensures x in FilePaths(files, k) <==> exists i :: 0 <= i < k && files[i].path == x
  {
    if k > 0 {
      FilePathsHas(files, k - 1, x);
    }
  }

  lemma {:induction false} RecordPathsHas(records: seq<Record>, k: nat, x: Path)
    requires k <= |records|
    ensures x in RecordPaths(records, k) <==> exists i :: 0 <= i < k && Lists(records[i], x)
  {
    if k > 0 {
      RecordPathsHas(records, k - 1, x);
      FilePathsHas(records[k - 1].files, |records[k - 1].files|, x);
      assert x in FilePaths(records[k - 1].files, |records[k - 1].files|) <==> Lists(records[k - 1], x);
      hide Lists, FilePaths;
    }
  }

  lemma OwnedHas(records: seq<Record>, x: Path)
    ensures x in Owned(records) <==> exists r :: r in records && Lists(r, x)
  {
    hide Lists, RecordPaths;
    RecordPathsHas(records, |records|, x);
    if x in Owned(records) {
      var i :| 0 <= i < |records| && Lists(records[i], x);
      assert records[i] in records;
    }
    if r :| r in records && Lists(r, x) {
      var i :| 0 <= i < |records| && records[i] == r;
    }
  }

  lemma OwnedOfBoth(a: seq<Record>, b: seq<Record>, x: Path)
    ensures x in Owned(a + b) <==> x in Owned(a) || x in Owned(b)
  {
    hide Lists, Owned;
    OwnedHas(a, x);
    OwnedHas(b, x);
    OwnedHas(a + b, x);
  }

  lemma ListsItsPack(payload: Payload, a: Asset, x: Path)
    ensures Lists(RecordOf(payload, a), x) <==> x in Pack(payload, a.id)
  {
    var r, files := RecordOf(payload, a), payload(a.id);
    PackTreeHas(files, |files|, x);
    assert forall i :: 0 <= i < |files| ==> r.files[i].path == files[i].path;
  }

  lemma {:induction false} NewRecordsOwn(payload: Payload, assets: seq<Asset>, k: nat, x: Path)
    requires k <= |assets|
    ensures x in Owned(NewRecords(payload, assets, k)) <==> x in Provided(payload, assets, k)
  {
    hide Owned, Lists, Pack, RecordOf;
    if k == 0 {
      NothingOwned();
    } else {
      var r := RecordOf(payload, assets[k - 1]);
      NewRecordsOwn(payload, assets, k - 1, x);
      OwnedOfBoth(NewRecords(payload, assets, k - 1), [r], x);
      OwnedHas([r], x);
      ListsItsPack(payload, assets[k - 1], x);
    }
  }

  lemma {:induction false} KeptWasSaved(w: World, assets: seq<Asset>, thorough: bool, k: nat, r: Record)
    requires k <= |assets| && r in Kept(w, assets, thorough, k)
    ensures r in RecordsOf(w)
  {
    if r !in Kept(w, assets, thorough, k - 1) {
      PreviousIs(RecordsOf(w), assets[k - 1].id.name, |RecordsOf(w)|);
    } else {
      KeptWasSaved(w, assets, thorough, k - 1, r);
    }
  }

  lemma KeptOwnsNoMore(w: World, assets: seq<Asset>, thorough: bool, x: Path)
    ensures x in Owned(Kept(w, assets, thorough, |assets|)) ==> x in Owned(RecordsOf(w))
  {
    hide Owned, Lists, Kept;
    var kept := Kept(w, assets, thorough, |assets|);
    OwnedHas(kept, x);
    OwnedHas(RecordsOf(w), x);
    forall r | r in kept ensures r in RecordsOf(w) {
      KeptWasSaved(w, assets, thorough, |assets|, r);
    }
  }

  // ---------- A sync of any manifest ----------

  /** Of a vanilla path that nothing provides anymore, the sync drops the original once at most. */
  ghost predicate DropsOnce(vanilla: Tree, before: World, after: World) {
    forall x :: x in vanilla && x !in Owned(RecordsOf(after)) ==> Listings(RecordsOf(before), x) <= 1
  }

  /** A path is as if the vanilla client had never had it. */
  ghost predicate IsLost(w: World, x: Path) {
    CleanSpot(SpotOf(w.disk, Owned(RecordsOf(w)), x), None)
  }

  lemma SyncedManyAt(payload: Payload, w: World, m: Manifest, thorough: bool, budget: nat, vanilla: Tree, x: Path)
    requires CleanSpot(SpotOf(w.disk, Owned(RecordsOf(w)), x), At(vanilla, x))
    requires !Sync(w, payload, m, thorough, budget).1.Failed?
    ensures var after := Sync(w, payload, m, thorough, budget).0;
            CleanSpot(SpotOf(after.disk, Owned(RecordsOf(after)), x), At(vanilla, x)) <==>
            (x in vanilla && x !in Owned(RecordsOf(after)) ==> Listings(RecordsOf(w), x) <= 1)
    ensures var after := Sync(w, payload, m, thorough, budget).0;
            x !in Owned(RecordsOf(after)) && Listings(RecordsOf(w), x) > 1 ==> IsLost(after, x)
  {
    var assets, was := m.assets, RecordsOf(w);
    var pending, kept := Pending(w, assets, thorough, |assets|), Kept(w, assets, thorough, |assets|);
    var records := kept + NewRecords(payload, pending, |pending|);
    var done := InstallAssets(Installing(w.disk, Owned(was), budget, false), payload, pending, |pending|);
    var paths := RecordPaths(was, |was|);
    assert RecordsOf(Sync(w, payload, m, thorough, budget).0) == records;
    InstallsAssetsAt(Installing(w.disk, Owned(was), budget, false), payload, pending, |pending|, x);
    CleansUpMany(done.disk, paths, Owned(records), |paths|, Owned(records), x);
    OwnedIsListed(was, x);
    OwnedOfBoth(kept, NewRecords(payload, pending, |pending|), x);
    NewRecordsOwn(payload, pending, |pending|, x);
    KeptOwnsNoMore(w, assets, thorough, x);
    hide Pending, Kept, InstallAssets, Cleanup, RecordPaths, Provided, NewRecords, Owned, Count;
  }

  /** A completed sync of any manifest, whatever paths its packs share, keeps every original restorable
      exactly when it drops none twice. */
  lemma SyncKeepsCleanExactlyWhen(payload: Payload, w: World, m: Manifest, thorough: bool, budget: nat, vanilla: Tree)
    requires Clean(vanilla, w) && !Sync(w, payload, m, thorough, budget).1.Failed?
    ensures var after := Sync(w, payload, m, thorough, budget).0;
            Clean(vanilla, after) <==> DropsOnce(vanilla, w, after)
  {
    var after := Sync(w, payload, m, thorough, budget).0;
    forall x: Path
      ensures CleanSpot(SpotOf(after.disk, Owned(RecordsOf(after)), x), At(vanilla, x)) <==>
              (x in vanilla && x !in Owned(RecordsOf(after)) ==> Listings(RecordsOf(w), x) <= 1)
    {
      assert CleanSpot(SpotOf(w.disk, Owned(RecordsOf(w)), x), At(vanilla, x));
      SyncedManyAt(payload, w, m, thorough, budget, vanilla, x);
    }
    hide Sync, Owned, Listings, CleanSpot;
  }

  // ---------- The condition on the manifest ----------

  /** The records are those of their ids. */
  ghost predicate Honest(payload: Payload, records: seq<Record>) {
    forall r :: r in records ==> r == RecordFor(payload, r.id)
  }

  /** The sync keeps or installs exactly the paths of the manifest. */
  lemma {:induction false} PlanOwns(payload: Payload, w: World, assets: seq<Asset>, thorough: bool, k: nat, x: Path)
    requires k <= |assets| && Honest(payload, RecordsOf(w))
    ensures var pending := Pending(w, assets, thorough, k);
            x in Owned(Kept(w, assets, thorough, k)) || x in Provided(payload, pending, |pending|) <==>
            x in Provided(payload, assets, k)
  {
    hide Owned, Pack, Lists, Keeps, Provided, RecordFor, Pending, Kept;
    PlanStarts(payload, w, assets, thorough, x);
    if k > 0 {
      var a, keeps := assets[k - 1], Keeps(w, assets[k - 1], thorough);
      PlanOwns(payload, w, assets, thorough, k - 1, x);
      ProvidedStep(payload, assets, k, x);
      if keeps.None? {
        PlanInstalls(w, assets, thorough, k);
        ProvidedMore(payload, Pending(w, assets, thorough, k - 1), a, x);
      } else {
        PlanKeepsRecord(w, assets, thorough, k);
        KeepsItsRecord(payload, w, a, thorough, x);
        OwnedOfBoth(Kept(w, assets, thorough, k - 1), [keeps.value], x);
      }
    }
  }

  lemma ProvidedMore(payload: Payload, assets: seq<Asset>, a: Asset, x: Path)
    ensures x in Provided(payload, assets + [a], |assets| + 1) <==>
            x in Provided(payload, assets, |assets|) || x in Pack(payload, a.id)
  {
    hide Pack;
    ProvidedPrefix(payload, assets, a, |assets|);
  }

  lemma PlanKeepsRecord(w: World, assets: seq<Asset>, thorough: bool, k: nat)
    requires 0 < k <= |assets| && Keeps(w, assets[k - 1], thorough).Some?
    ensures Pending(w, assets, thorough, k) == Pending(w, assets, thorough, k - 1)
    ensures Kept(w, assets, thorough, k) ==
            Kept(w, assets, thorough, k - 1) + [Keeps(w, assets[k - 1], thorough).value]
  {
    hide Keeps;
    assert Pending(w, assets, thorough, k - 1) + [] == Pending(w, assets, thorough, k - 1);
  }

  lemma PlanStarts(payload: Payload, w: World, assets: seq<Asset>, thorough: bool, x: Path)
    ensures Pending(w, assets, thorough, 0) == [] && Kept(w, assets, thorough, 0) == []
    ensures x !in Owned([]) && x !in Provided(payload, [], 0) && x !in Provided(payload, assets, 0)
  {
    NothingOwned();
  }

  lemma ProvidedStep(payload: Payload, assets: seq<Asset>, k: nat, x: Path)
    requires 0 < k <= |assets|
    ensures x in Provided(payload, assets, k) <==>
            x in Provided(payload, assets, k - 1) || x in Pack(payload, assets[k - 1].id)
  {
    hide Pack;
  }

  lemma KeepsItsRecord(payload: Payload, w: World, a: Asset, thorough: bool, x: Path)
    requires Honest(payload, RecordsOf(w)) && Keeps(w, a, thorough).Some?
    ensures x in Owned([Keeps(w, a, thorough).value]) <==> x in Pack(payload, a.id)
  {
    var r := Keeps(w, a, thorough).value;
    PreviousIs(RecordsOf(w), a.id.name, |RecordsOf(w)|);
    assert r in RecordsOf(w);
    hide Owned, Lists, Pack, NeedsRepair, Previous;
    OwnedHas([r], x);
    ListsItsPack(payload, Asset(a.id, false), x);
  }

  /** After a completed sync the paths in the state are those of its manifest. */
  lemma SyncOwnsTheManifest(payload: Payload, w: World, m: Manifest, thorough: bool, budget: nat, x: Path)
    requires Honest(payload, RecordsOf(w)) && !Sync(w, payload, m, thorough, budget).1.Failed?
    ensures var after := Sync(w, payload, m, thorough, budget).0;
            x in Owned(RecordsOf(after)) <==> x in Provided(payload, m.assets, |m.assets|)
  {
    var n := |m.assets|;
    var pending, kept := Pending(w, m.assets, thorough, n), Kept(w, m.assets, thorough, n);
    assert RecordsOf(Sync(w, payload, m, thorough, budget).0) == kept + NewRecords(payload, pending, |pending|);
    hide Sync, Pending, Kept, NewRecords, Owned, Provided;
    PlanOwns(payload, w, m.assets, thorough, n, x);
    NewRecordsOwn(payload, pending, |pending|, x);
    OwnedOfBoth(kept, NewRecords(payload, pending, |pending|), x);
  }

  lemma {:induction false} NewRecordsAreHonest(payload: Payload, assets: seq<Asset>, k: nat)
    requires k <= |assets|
    ensures Honest(payload, NewRecords(payload, assets, k))
  {
    if k > 0 {
      NewRecordsAreHonest(payload, assets, k - 1);
    }
  }

  lemma SyncStaysHonest(payload: Payload, w: World, m: Manifest, thorough: bool, budget: nat)
    requires Honest(payload, RecordsOf(w))
    ensures Honest(payload, RecordsOf(Sync(w, payload, m, thorough, budget).0))
  {
    var n := |m.assets|;
    var pending, kept := Pending(w, m.assets, thorough, n), Kept(w, m.assets, thorough, n);
    NewRecordsAreHonest(payload, pending, |pending|);
    forall r | r in kept ensures r in RecordsOf(w) {
      KeptWasSaved(w, m.assets, thorough, n, r);
    }
    hide Pending, Kept, NewRecords, RecordFor, InstallAssets, Cleanup, RecordPaths;
  }

  /** No vanilla path that the manifest does not provide is listed twice. */
  ghost predicate SparesOriginals(payload: Payload, vanilla: Tree, w: World, m: Manifest) {
    forall x :: x in vanilla && x !in Provided(payload, m.assets, |m.assets|) ==> Listings(RecordsOf(w), x) <= 1
  }

  /** The condition before the sync: it is about the saved state and the manifest. */
  lemma SyncKeepsCleanByManifest(payload: Payload, w: World, m: Manifest, thorough: bool, budget: nat, vanilla: Tree)
    requires Clean(vanilla, w) && Honest(payload, RecordsOf(w)) && !Sync(w, payload, m, thorough, budget).1.Failed?
    ensures Clean(vanilla, Sync(w, payload, m, thorough, budget).0) <==> SparesOriginals(payload, vanilla, w, m)
  {
    var after := Sync(w, payload, m, thorough, budget).0;
    SyncKeepsCleanExactlyWhen(payload, w, m, thorough, budget, vanilla);
    hide Sync, Clean, Honest, Owned, Provided, Listings;
    forall x: Path ensures x in Owned(RecordsOf(after)) <==> x in Provided(payload, m.assets, |m.assets|) {
      SyncOwnsTheManifest(payload, w, m, thorough, budget, x);
    }
  }

  // ---------- Histories of any manifests ----------

  /** A completed sync, or changes that others make to files that the feed owns or has backed up. */
  ghost predicate Ordinary(payload: Payload, w: World, e: Event) {
    (e.Drifted? ==> Allowed(payload, w, e)) && Completed(payload, w, e)
  }

  ghost predicate AllOrdinary(payload: Payload, vanilla: Tree, events: seq<Event>, k: nat)
    requires k <= |events|
  {
    k == 0 || (
      && AllOrdinary(payload, vanilla, events, k - 1)
      && Ordinary(payload, Run(payload, Vanilla(vanilla), events, k - 1), events[k - 1]))
  }

  ghost predicate Spares(payload: Payload, vanilla: Tree, w: World, e: Event) {
    e.Synced? ==> SparesOriginals(payload, vanilla, w, e.manifest)
  }

  /** None of the first `k` events drops a vanilla path that is listed twice. */
  ghost predicate AllSpare(payload: Payload, vanilla: Tree, events: seq<Event>, k: nat)
    requires k <= |events|
  {
    k == 0 || (
      && AllSpare(payload, vanilla, events, k - 1)
      && Spares(payload, vanilla, Run(payload, Vanilla(vanilla), events, k - 1), events[k - 1]))
  }

  /** Some vanilla file is gone for good. */
  ghost predicate LosesSome(vanilla: Tree, w: World) {
    exists x :: x in vanilla && IsLost(w, x)
  }

  lemma SparingKeepsClean(payload: Payload, vanilla: Tree, w: World, e: Event)
    requires Clean(vanilla, w) && Honest(payload, RecordsOf(w))
    requires Ordinary(payload, w, e) && Spares(payload, vanilla, w, e)
    ensures Clean(vanilla, Step(payload, w, e))
  {
    hide Sync, Owned, Listings, Honest, SparesOriginals;
    match e
    case Synced(m, thorough, budget) =>
      SyncKeepsCleanByManifest(payload, w, m, thorough, budget, vanilla);
    case Offline =>
    case Drifted(tree) =>
      var after := Step(payload, w, e);
      forall x: Path ensures CleanSpot(SpotOf(after.disk, Owned(RecordsOf(after)), x), At(vanilla, x)) {
        assert CleanSpot(SpotOf(w.disk, Owned(RecordsOf(w)), x), At(vanilla, x));
      }
  }

  lemma DroppingTwiceLoses(payload: Payload, vanilla: Tree, w: World, e: Event)
    requires Clean(vanilla, w) && Honest(payload, RecordsOf(w))
    requires Ordinary(payload, w, e) && !Spares(payload, vanilla, w, e)
    ensures LosesSome(vanilla, Step(payload, w, e))
  {
    hide Sync, Owned, Listings, IsLost, Honest, Provided;
    var x :| x in vanilla && x !in Provided(payload, e.manifest.assets, |e.manifest.assets|)
             && Listings(RecordsOf(w), x) > 1;
    SyncOwnsTheManifest(payload, w, e.manifest, e.thorough, e.budget, x);
    assert CleanSpot(SpotOf(w.disk, Owned(RecordsOf(w)), x), At(vanilla, x));
    SyncedManyAt(payload, w, e.manifest, e.thorough, e.budget, vanilla, x);
    assert x in vanilla && IsLost(Step(payload, w, e), x);
  }

  /** Nothing brings back what is lost. */
  lemma LostStaysLost(payload: Payload, w: World, e: Event, x: Path)
    requires IsLost(w, x) && Ordinary(payload, w, e)
    ensures IsLost(Step(payload, w, e), x)
  {
    hide Sync, Owned, Listings;
    if e.Synced? {
      SyncedManyAt(payload, w, e.manifest, e.thorough, e.budget, map[], x);
    }
  }

  lemma {:induction false} RunIsHonest(payload: Payload, vanilla: Tree, events: seq<Event>, k: nat)
    requires k <= |events|
    ensures Honest(payload, RecordsOf(Run(payload, Vanilla(vanilla), events, k)))
  {
    hide Sync, Honest;
    if k == 0 {
      assert Honest(payload, []) by {
        NothingIsHonest(payload);
      }
    } else {
      RunIsHonest(payload, vanilla, events, k - 1);
      var w, e := Run(payload, Vanilla(vanilla), events, k - 1), events[k - 1];
      if e.Synced? {
        SyncStaysHonest(payload, w, e.manifest, e.thorough, e.budget);
      }
    }
  }

  lemma NothingIsHonest(payload: Payload)
    ensures Honest(payload, [])
  {
  }

  lemma {:induction false} CleanOrLost(payload: Payload, vanilla: Tree, events: seq<Event>, k: nat)
    requires k <= |events| && AllOrdinary(payload, vanilla, events, k)
    ensures var w := Run(payload, Vanilla(vanilla), events, k);
            if AllSpare(payload, vanilla, events, k) then Clean(vanilla, w) else LosesSome(vanilla, w)
  {
    hide Clean, Step, Ordinary, Spares, IsLost, Honest;
    VanillaIsClean(_ => [], vanilla);
    if k > 0 {
      CleanOrLost(payload, vanilla, events, k - 1);
      RunIsHonest(payload, vanilla, events, k - 1);
      var w, e := Run(payload, Vanilla(vanilla), events, k - 1), events[k - 1];
      if !AllSpare(payload, vanilla, events, k - 1) {
        var x :| x in vanilla && IsLost(w, x);
        LostStaysLost(payload, w, e, x);
      } else if Spares(payload, vanilla, w, e) {
        SparingKeepsClean(payload, vanilla, w, e);
      } else {
        DroppingTwiceLoses(payload, vanilla, w, e);
      }
    }
  }

  lemma LostIsNotRestored(vanilla: Tree, w: World)
    requires LosesSome(vanilla, w)
    ensures Restore(w) != Vanilla(vanilla)
  {
    hide Restore, Owned, Listings;
    var x :| x in vanilla && IsLost(w, x);
    RestoredMany(map[], w, x);
    assert At(Restore(w).disk.tree, x) == None;
  }

  /** Of packs nothing is assumed, they may share any paths: restoring undoes a history of completed syncs
      exactly when no vanilla path is ever listed twice as its manifest goes, and none is at the end. */
  lemma RestoreUndoesOverlaps(payload: Payload, vanilla: Tree, events: seq<Event>)
    requires AllOrdinary(payload, vanilla, events, |events|)
    ensures var w := Run(payload, Vanilla(vanilla), events, |events|);
            Restore(w) == Vanilla(vanilla) <==>
            && AllSpare(payload, vanilla, events, |events|)
            && forall x :: x in vanilla ==> Listings(RecordsOf(w), x) <= 1
  {
    hide Restore, Clean, LosesSome;
    CleanOrLost(payload, vanilla, events, |events|);
    var w := Run(payload, Vanilla(vanilla), events, |events|);
    if AllSpare(payload, vanilla, events, |events|) {
      RestoreExactlyWhenListedOnce(vanilla, w);
    } else {
      LostIsNotRestored(vanilla, w);
    }
  }
}
