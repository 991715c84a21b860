/**
 What a sync installs and what it reports (electron/services/asset-sync.ts:493-562), told by the saved
 state, the client and the manifest alone.
 */
module AssetSyncOutcome {
  import opened Options
  import opened AssetSync
  import opened AssetSyncHistory
  import opened AssetSyncAgain

  // ---------- What is installed again ----------

  /** A recorded file is there with the recorded size and, if it is looked at closely, the recorded digest. */
  ghost predicate FileInPlace(d: Disk, f: FileRecord, closely: bool) {
    f.path in d.tree && |d.tree[f.path]| == f.size && (closely ==> Sha256(d.tree[f.path]) == f.sha256)
  }

  /** The last record of the asset's name is of this version and digest, and its files are in place.  A
      standalone file is always looked at closely. */
  ghost predicate InPlace(w: World, a: Asset, thorough: bool) {
    var records := RecordsOf(w);
    exists i :: 0 <= i < |records| && LastNamed(records, i, |records|, a.id.name) && records[i].id == a.id
                && forall j :: 0 <= j < |records[i].files| ==>
                     FileInPlace(w.disk, records[i].files[j], thorough || a.standalone)
  }

  ghost predicate LastNamed(records: seq<Record>, i: nat, n: nat, name: string)
    requires i < n <= |records|
  {
    records[i].id.name == name && forall j :: i < j < n ==> records[j].id.name != name
  }

  lemma {:induction false} PreviousIsLast(records: seq<Record>, name: string, n: nat, i: nat)
    requires i < n <= |records| && LastNamed(records, i, n, name)
    ensures Previous(records, name, n) == Some(records[i])
  {
    if i < n - 1 {
      PreviousIsLast(records, name, n - 1, i);
    }
  }

  lemma {:induction false} LastIsThere(records: seq<Record>, name: string, n: nat) returns (i: nat)
    requires n <= |records| && Previous(records, name, n).Some?
    ensures i < n && LastNamed(records, i, n, name)
  {
    i := n - 1;
    if records[n - 1].id.name != name {
      i := LastIsThere(records, name, n - 1);
    }
  }

  lemma RepairIsNotInPlace(d: Disk, r: Record, closely: bool)
    ensures NeedsRepair(d, r, closely) <==> !forall j :: 0 <= j < |r.files| ==> FileInPlace(d, r.files[j], closely)
  {
    assert forall j :: 0 <= j < |r.files| ==>
        (FileNeedsRepair(d, r.files[j], closely) <==> !FileInPlace(d, r.files[j], closely));
  }

  /** An asset keeps its record exactly when it is in place. */
  lemma KeptExactlyWhenInPlace(w: World, a: Asset, thorough: bool)
    ensures Keeps(w, a, thorough).Some? <==> InPlace(w, a, thorough)
  {
    hide NeedsRepair, LastNamed, FileInPlace;
    var records, closely := RecordsOf(w), thorough || a.standalone;
    if Keeps(w, a, thorough).Some? {
      var i := LastIsThere(records, a.id.name, |records|);
      PreviousIsLast(records, a.id.name, |records|, i);
      RepairIsNotInPlace(w.disk, records[i], closely);
    }
    if InPlace(w, a, thorough) {
      var i :| 0 <= i < |records| && LastNamed(records, i, |records|, a.id.name) && records[i].id == a.id
               && forall j :: 0 <= j < |records[i].files| ==> FileInPlace(w.disk, records[i].files[j], closely);
      PreviousIsLast(records, a.id.name, |records|, i);
      RepairIsNotInPlace(w.disk, records[i], closely);
    }
  }

  /** What a sync installs: the assets that are not in place, and every one of the others keeps a record. */
  lemma {:induction false} InstalledExactlyWhen(w: World, assets: seq<Asset>, thorough: bool, k: nat, a: Asset)
    requires k <= |assets|
    ensures a in Pending(w, assets, thorough, k) <==> a in assets[..k] && !InPlace(w, a, thorough)
    ensures |Pending(w, assets, thorough, k)| + |Kept(w, assets, thorough, k)| == k
  {
    hide Keeps, InPlace;
    if k > 0 {
      var b := assets[k - 1];
      InstalledExactlyWhen(w, assets, thorough, k - 1, a);
      KeptExactlyWhenInPlace(w, b, thorough);
      assert assets[..k] == assets[..k - 1] + [b];
      InOneMore(Pending(w, assets, thorough, k - 1), b, a);
      InOneMore(assets[..k - 1], b, a);
    }
  }

  lemma InOneMore<T>(s: seq<T>, x: T, y: T)
    ensures y in s + [x] <==> y in s || y == x
  {
  }

  // ---------- What is reported ----------

  lemma {:induction false} NewRecordsCount(payload: Payload, assets: seq<Asset>, k: nat)
    requires k <= |assets|
    ensures |NewRecords(payload, assets, k)| == k
  {
    if k > 0 {
      NewRecordsCount(payload, assets, k - 1);
    }
  }

  /** A completed sync saves the version of the manifest and one record for each of its assets, and
      reports "up-to-date" exactly when the saved version was that of the manifest already, every asset
      was in place, and there were as many records as assets. Otherwise it reports "updated". */
  lemma ReportsUpToDateExactlyWhen(payload: Payload, w: World, m: Manifest, thorough: bool, budget: nat)
    requires !Sync(w, payload, m, thorough, budget).1.Failed?
    ensures var (after, outcome) := Sync(w, payload, m, thorough, budget);
            && after.state.Some? && after.state.value.packVersion == m.packVersion
            && |RecordsOf(after)| == |m.assets|
            && (outcome == UpToDate(m.packVersion) || outcome == Updated(m.packVersion))
            && (outcome == UpToDate(m.packVersion) <==>
                && w.state.Some? && w.state.value.packVersion == m.packVersion
                && |w.state.value.records| == |m.assets|
                && forall a :: a in m.assets ==> InPlace(w, a, thorough))
  {
    hide Pending, Kept, InPlace, InstallAssets, Cleanup, Owned, RecordPaths;
    var pending := Pending(w, m.assets, thorough, |m.assets|);
    assert m.assets[..|m.assets|] == m.assets;
    forall a ensures a in pending <==> a in m.assets && !InPlace(w, a, thorough) {
      InstalledExactlyWhen(w, m.assets, thorough, |m.assets|, a);
    }
    PlanCount(w, m.assets, thorough);
    NewRecordsCount(payload, pending, |pending|);
    assert pending != [] <==> exists a :: a in m.assets && !InPlace(w, a, thorough) by {
      if pending != [] {
        assert pending[0] in pending;
      }
    }
  }

  lemma PlanCount(w: World, assets: seq<Asset>, thorough: bool)
    ensures |Pending(w, assets, thorough, |assets|)| + |Kept(w, assets, thorough, |assets|)| == |assets|
  {
    InstalledExactlyWhen(w, assets, thorough, |assets|, Asset(AssetId("", "", Sha256("")), false));
  }

  /** A sync that reports "up-to-date" leaves the version and the records that it found. */
  lemma UpToDateKeepsTheState(payload: Payload, w: World, m: Manifest, thorough: bool, budget: nat)
    requires Knows(payload, w) && ManifestOk(payload, m.assets)
    requires Sync(w, payload, m, thorough, budget).1.UpToDate?
    ensures var after := Sync(w, payload, m, thorough, budget).0;
            && w.state.Some? && after.state.Some?
            && after.state.value.packVersion == w.state.value.packVersion
            && forall r :: r in after.state.value.records <==> r in w.state.value.records
  {
    hide ManifestOk, Knows, RecordsOk, InstallAssets, Cleanup, Owned, RecordPaths;
    var was, kept := RecordsOf(w), Kept(w, m.assets, thorough, |m.assets|);
    assert SyncedRecords(payload, w, m.assets, thorough) == kept;
    SyncedRecordsOk(payload, w, m.assets, thorough);
    forall r | r in kept ensures r in was {
      KeptRecord(payload, w, m, thorough, r);
    }
    forall i, j | 0 <= i < j < |kept| ensures kept[i] != kept[j] {
      DistinctNames(payload, kept, i, j);
    }
    AllOfThem(kept, was);
  }

  // ---------- A sync that is stopped ----------

  /** How many files the first `k` assets make a sync install. */
  ghost function FilesToInstall(payload: Payload, w: World, assets: seq<Asset>, thorough: bool, k: nat): nat
    requires k <= |assets|
  {
    if k == 0 then 0
    else FilesToInstall(payload, w, assets, thorough, k - 1) +
         if InPlace(w, assets[k - 1], thorough) then 0 else |payload(assets[k - 1].id)|
  }

  lemma {:induction false} FilesStop(p: Installing, files: seq<File>, k: nat)
    requires k <= |files| && !p.failed
    ensures var r := InstallFiles(p, files, k);
            (r.failed <==> p.budget < 2 * k) && (!r.failed ==> r.budget == p.budget - 2 * k)
  {
    if k > 0 {
      FilesStop(p, files, k - 1);
      hide BackupOriginal;
    }
  }

  lemma OneMoreAsset(p: Installing, payload: Payload, assets: seq<Asset>, a: Asset)
    ensures InstallAssets(p, payload, assets + [a], |assets| + 1) ==
            InstallFiles(InstallAssets(p, payload, assets, |assets|), payload(a.id), |payload(a.id)|)
  {
    hide InstallFiles;
    SameAssets(p, payload, assets, a, |assets|);
  }

  lemma {:induction false} SameAssets(p: Installing, payload: Payload, assets: seq<Asset>, a: Asset, k: nat)
    requires k <= |assets|
    ensures InstallAssets(p, payload, assets + [a], k) == InstallAssets(p, payload, assets, k)
  {
    hide InstallFiles;
    if k > 0 {
      SameAssets(p, payload, assets, a, k - 1);
    }
  }

  lemma {:induction false} AssetsStop(p: Installing, payload: Payload, w: World, assets: seq<Asset>, thorough: bool,
                                      k: nat)
    requires k <= |assets| && !p.failed
    ensures var pending, steps := Pending(w, assets, thorough, k), 2 * FilesToInstall(payload, w, assets, thorough, k);
            var r := InstallAssets(p, payload, pending, |pending|);
            (r.failed <==> p.budget < steps) && (!r.failed ==> r.budget == p.budget - steps)
  {
    hide Keeps, InPlace, InstallFiles;
    if k > 0 {
      AssetsStop(p, payload, w, assets, thorough, k - 1);
      KeptExactlyWhenInPlace(w, assets[k - 1], thorough);
      var pending, files := Pending(w, assets, thorough, k - 1), payload(assets[k - 1].id);
      var before := InstallAssets(p, payload, pending, |pending|);
      if !InPlace(w, assets[k - 1], thorough) {
        OneMoreAsset(p, payload, pending, assets[k - 1]);
        if before.failed {
          NothingYet(before, files);
          FailureLasts(before, files, 0, |files|);
        } else {
          FilesStop(before, files, |files|);
        }
      } else {
        assert Pending(w, assets, thorough, k) == pending + [] == pending;
      }
    }
  }

  lemma NothingYet(p: Installing, files: seq<File>)
    ensures InstallFiles(p, files, 0) == p
  {
  }

  /** A sync stops exactly when fewer steps succeed than the files of the assets that are not in place need,
      two for each. It then keeps the saved state. */
  lemma StopsExactlyWhen(payload: Payload, w: World, m: Manifest, thorough: bool, budget: nat)
    ensures var (after, outcome) := Sync(w, payload, m, thorough, budget);
            && (outcome.Failed? <==> budget < 2 * FilesToInstall(payload, w, m.assets, thorough, |m.assets|))
            && (outcome.Failed? ==> after.state == w.state)
  {
    hide Pending, Kept, InPlace, InstallAssets, Cleanup, Owned, RecordPaths, FilesToInstall;
    AssetsStop(Installing(w.disk, Owned(RecordsOf(w)), budget, false), payload, w, m.assets, thorough, |m.assets|);
  }

  // ---------- What is in place afterwards ----------

  /** After a completed sync every asset of the manifest is in place, also when a thorough sync looks, if
      this one was thorough. */
  lemma SyncPutsInPlace(payload: Payload, w: World, m: Manifest, thorough: bool, budget: nat, vanilla: Tree, a: nat)
    requires Knows(payload, w) && Clean(vanilla, w) && ManifestOk(payload, m.assets)
    requires !Sync(w, payload, m, thorough, budget).1.Failed? && a < |m.assets|
    ensures InPlace(Sync(w, payload, m, thorough, budget).0, m.assets[a], thorough)
  {
    hide Sync, Knows, Clean, ManifestOk, InPlace, Serves, KeptIntact;
    var after := Sync(w, payload, m, thorough, budget).0;
    if thorough {
      ThoroughKeepsAllIntact(payload, w, m);
    }
    SyncedServes(payload, w, m, thorough, budget, vanilla, thorough);
    ServesKeeps(payload, after, m.assets, a, thorough);
    KeptExactlyWhenInPlace(after, m.assets[a], thorough);
  }

  lemma ThoroughKeepsAllIntact(payload: Payload, w: World, m: Manifest)
    requires Knows(payload, w) && ManifestOk(payload, m.assets)
    ensures KeptIntact(payload, w, m, true)
  {
    hide Knows, ManifestOk, Kept, NeedsRepair;
    forall r | r in Kept(w, m.assets, true, |m.assets|) ensures !NeedsRepair(w.disk, r, true) {
      ThoroughKeepsIntact(payload, w, m.assets, |m.assets|, r);
    }
  }
}
