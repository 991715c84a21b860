/**
 Synchronizing again: exactly when a second sync of the same manifest has nothing to do, and what
 the report "up-to-date" means.
 */
module AssetSyncAgain {
  import opened Options
  import opened AssetSync
  import opened AssetSyncHistory

  // ---------- Up to date ----------

  function Elements<T>(s: seq<T>): set<T> { set x | x in s }

  lemma {:induction false} DistinctSize<T>(s: seq<T>)
    requires forall i, j :: 0 <= i < j < |s| ==> s[i] != s[j]
    ensures |Elements(s)| == |s|
  {
    if s != [] {
      var init, x := s[..|s| - 1], s[|s| - 1];
      DistinctSize(init);
      assert s == init + [x];
      assert Elements(s) == Elements(init) + {x};
    }
  }

  lemma {:induction false} SizeAtMost<T>(s: seq<T>)
    ensures |Elements(s)| <= |s|
  {
    if s != [] {
      var init, x := s[..|s| - 1], s[|s| - 1];
      SizeAtMost(init);
      assert s == init + [x];
      assert Elements(s) == Elements(init) + {x};
    }
  }

  /** As many different items of a list as the list is long are all of its items. */
  lemma AllOfThem<T>(some: seq<T>, list: seq<T>)
    requires forall i, j :: 0 <= i < j < |some| ==> some[i] != some[j]
    requires |some| == |list| && forall x :: x in some ==> x in list
    ensures forall x :: x in list ==> x in some
  {
    DistinctSize(some);
    SizeAtMost(list);
    assert Elements(some) <= Elements(list);
    assert |Elements(list) - Elements(some)| == |Elements(list)| - |Elements(some)|;
    forall x | x in list ensures x in some {
      assert x in Elements(list) && Elements(list) - Elements(some) == {};
    }
  }

  lemma {:induction false} NothingToDrop(d: Disk, paths: seq<Path>, desired: set<Path>, k: nat)
    requires k <= |paths| && forall i :: 0 <= i < k ==> paths[i] in desired
    ensures Cleanup(d, paths, desired, k) == d
  {
    if k > 0 {
      NothingToDrop(d, paths, desired, k - 1);
    }
  }

  lemma SameRecordsOwnTheSame(payload: Payload, a: seq<Record>, b: seq<Record>)
    requires RecordsOk(payload, a) && RecordsOk(payload, b) && forall r :: r in a ==> r in b
    ensures Owned(a) <= Owned(b)
  {
    hide Owned, OwnedUpTo, RecordsOk;
    OwnedIs(payload, a);
    OwnedIs(payload, b);
    MoreOwned(payload, a, b);
  }

  lemma MoreOwned(payload: Payload, a: seq<Record>, b: seq<Record>)
    requires forall r :: r in a ==> r in b
    ensures OwnedUpTo(payload, a, |a|) <= OwnedUpTo(payload, b, |b|)
  {
    hide OwnedUpTo, Pack;
    OwnedUpToHas(payload, a, |a|);
    forall x | x in OwnedUpTo(payload, a, |a|) ensures x in OwnedUpTo(payload, b, |b|) {
      var i :| 0 <= i < |a| && x in Pack(payload, a[i].id);
      assert a[i] in b;
      var j :| 0 <= j < |b| && b[j] == a[i];
      OwnedUpToHas(payload, b, |b|);
    }
  }

  /** A sync that reports "up-to-date" has changed no file and no backup. */
  lemma UpToDateMeansUnchanged(payload: Payload, w: World, m: Manifest, thorough: bool, budget: nat)
    requires Knows(payload, w) && ManifestOk(payload, m.assets)
    requires Sync(w, payload, m, thorough, budget).1.UpToDate?
    ensures Sync(w, payload, m, thorough, budget).0.disk == w.disk
  {
    var was, kept := RecordsOf(w), Kept(w, m.assets, thorough, |m.assets|);
    var paths := RecordPaths(was, |was|);
    assert SyncedRecords(payload, w, m.assets, thorough) == kept;
    SyncedRecordsOk(payload, w, m.assets, thorough);
    forall r | r in kept ensures r in was {
      KeptRecord(payload, w, m, thorough, r);
    }
    forall i, j | 0 <= i < j < |kept| ensures kept[i] != kept[j] {
      DistinctNames(payload, kept, i, j);
    }
    AllOfThem(kept, was);
    SameRecordsOwnTheSame(payload, was, kept);
    assert forall i :: 0 <= i < |paths| ==> paths[i] in Owned(was);
    NothingToDrop(w.disk, paths, Owned(kept), |paths|);
  }

  // ---------- Every asset has its record ----------

  /** Every one of the first `k` assets is among the ids. */
  ghost predicate Covers(ids: seq<AssetId>, assets: seq<Asset>, k: nat)
    requires k <= |assets|
  {
    forall a :: 0 <= a < k ==> assets[a].id in ids
  }

  lemma {:induction false} PlanCovers(payload: Payload, w: World, assets: seq<Asset>, thorough: bool, k: nat)
    requires Knows(payload, w) && k <= |assets|
    ensures Covers(RecordIds(Kept(w, assets, thorough, k)) + AssetIds(Pending(w, assets, thorough, k)), assets, k)
  {
    hide Keeps, Kept, Pending, Knows, RecordFor, NeedsRepair;
    if k == 0 {
      NoPlan(w, assets, thorough);
    } else {
      var pending, kept := Pending(w, assets, thorough, k - 1), Kept(w, assets, thorough, k - 1);
      PlanCovers(payload, w, assets, thorough, k - 1);
      if Keeps(w, assets[k - 1], thorough).None? {
        PlanInstalls(w, assets, thorough, k);
        CoverMore(RecordIds(kept), AssetIds(pending), AssetIds(pending + [assets[k - 1]]), assets, k);
      } else {
        var r := PlanKeeps(payload, w, assets, thorough, k);
        CoverKept(kept, r, AssetIds(pending), assets, k);
      }
    }
  }

  lemma CoverMore(kept: seq<AssetId>, pending: seq<AssetId>, more: seq<AssetId>, assets: seq<Asset>, k: nat)
    requires 0 < k <= |assets| && Covers(kept + pending, assets, k - 1) && more == pending + [assets[k - 1].id]
    ensures Covers(kept + more, assets, k)
  {
  }

  lemma CoverKept(kept: seq<Record>, r: Record, pending: seq<AssetId>, assets: seq<Asset>, k: nat)
    requires 0 < k <= |assets| && r.id == assets[k - 1].id
    requires Covers(RecordIds(kept) + pending, assets, k - 1)
    ensures Covers(RecordIds(kept + [r]) + pending, assets, k)
  {
    assert RecordIds(kept + [r]) == RecordIds(kept) + [r.id];
  }

  lemma SyncedCovers(payload: Payload, w: World, assets: seq<Asset>, thorough: bool)
    requires Knows(payload, w)
    ensures Covers(RecordIds(SyncedRecords(payload, w, assets, thorough)), assets, |assets|)
  {
    PlanCovers(payload, w, assets, thorough, |assets|);
    SyncedIds(payload, w, assets, thorough);
    hide SyncedRecords, Kept, Pending;
  }

  lemma DistinctNames(payload: Payload, records: seq<Record>, i: nat, j: nat)
    requires RecordsOk(payload, records) && i < |records| && j < |records| && i != j
    ensures records[i].id.name != records[j].id.name
  {
    var ids := RecordIds(records);
    if i < j {
      assert Compatible(payload, ids[i], ids[j]);
    } else {
      assert Compatible(payload, ids[j], ids[i]);
    }
    hide RecordsOk, RecordFor;
  }

  // ---------- A second sync ----------

  /** Every asset has its record, and a sync that looks this closely finds every pack in place. */
  ghost predicate Serves(payload: Payload, w: World, assets: seq<Asset>, thorough: bool) {
    && Knows(payload, w)
    && Covers(RecordIds(RecordsOf(w)), assets, |assets|)
    && forall a, r :: 0 <= a < |assets| && r in RecordsOf(w) && r.id == assets[a].id ==>
         !NeedsRepair(w.disk, r, thorough || assets[a].standalone)
  }

  lemma ServesKeeps(payload: Payload, w: World, assets: seq<Asset>, a: nat, thorough: bool)
    requires Serves(payload, w, assets, thorough) && a < |assets|
    ensures Keeps(w, assets[a], thorough).Some?
  {
    hide Previous, NeedsRepair, RecordFor, Compatible;
    var records, id := RecordsOf(w), assets[a].id;
    PreviousIs(records, id.name, |records|);
    assert id in RecordIds(records);
    var i :| 0 <= i < |records| && RecordIds(records)[i] == id;
    assert records[i].id.name == id.name;
    var previous := Previous(records, id.name, |records|);
    var j :| 0 <= j < |records| && records[j] == previous.value && previous.value.id.name == id.name;
    if i != j {
      DistinctNames(payload, records, i, j);
    }
    assert records[j] in records;
  }

  lemma {:induction false} NothingPending(payload: Payload, w: World, assets: seq<Asset>, thorough: bool, k: nat)
    requires Serves(payload, w, assets, thorough) && k <= |assets|
    ensures Pending(w, assets, thorough, k) == [] && |Kept(w, assets, thorough, k)| == k
  {
    hide Serves, Keeps;
    if k > 0 {
      NothingPending(payload, w, assets, thorough, k - 1);
      ServesKeeps(payload, w, assets, k - 1, thorough);
    }
  }

  lemma IdleSync(payload: Payload, w: World, m: Manifest, thorough: bool, steps: nat)
    requires Serves(payload, w, m.assets, thorough) && ManifestOk(payload, m.assets)
    requires w.state.Some? && w.state.value.packVersion == m.packVersion && |RecordsOf(w)| == |m.assets|
    ensures var (next, outcome) := Sync(w, payload, m, thorough, steps);
            next.disk == w.disk && outcome == UpToDate(m.packVersion)
  {
    NothingPending(payload, w, m.assets, thorough, |m.assets|);
    assert Sync(w, payload, m, thorough, steps).1 == UpToDate(m.packVersion) by {
      hide Serves, ManifestOk, Kept, Pending;
    }
    hide Sync;
    UpToDateMeansUnchanged(payload, w, m, thorough, steps);
  }

  // ---------- What a sync leaves in place ----------

  lemma RepairMonotone(d: Disk, r: Record, closely: bool, thorough: bool)
    requires !NeedsRepair(d, r, closely) && (thorough ==> closely)
    ensures !NeedsRepair(d, r, thorough)
  {
    forall i | 0 <= i < |r.files| ensures !FileNeedsRepair(d, r.files[i], thorough) {
      assert !FileNeedsRepair(d, r.files[i], closely);
    }
  }

  /** Why a record was kept. */
  lemma {:induction false} KeptWhy(payload: Payload, w: World, assets: seq<Asset>, thorough: bool, k: nat, r: Record)
    returns (a: nat)
    requires Knows(payload, w) && k <= |assets| && r in Kept(w, assets, thorough, k)
    ensures a < k && r.id == assets[a].id && !NeedsRepair(w.disk, r, thorough || assets[a].standalone)
  {
    hide Knows, Keeps, Kept, Pending, NeedsRepair, RecordFor;
    a := 0;
    if k == 0 {
      NoPlan(w, assets, thorough);
    } else if r in Kept(w, assets, thorough, k - 1) {
      a := KeptWhy(payload, w, assets, thorough, k - 1, r);
    } else if Keeps(w, assets[k - 1], thorough).None? {
      PlanInstalls(w, assets, thorough, k);
    } else {
      var s := PlanKeeps(payload, w, assets, thorough, k);
      a := k - 1;
    }
  }

  /** A record needs repair or not by what is at its own paths. */
  lemma SameFilesSameRepair(payload: Payload, d: Disk, e: Disk, id: AssetId, thorough: bool)
    requires forall x :: x in Pack(payload, id) ==> At(d.tree, x) == At(e.tree, x)
    requires !NeedsRepair(d, RecordFor(payload, id), thorough)
    ensures !NeedsRepair(e, RecordFor(payload, id), thorough)
  {
    var r, files := RecordFor(payload, id), payload(id);
    forall i | 0 <= i < |r.files| ensures !FileNeedsRepair(e, r.files[i], thorough) {
      assert !FileNeedsRepair(d, r.files[i], thorough);
      assert files[i].path == r.files[i].path;
      PackTreeHas(files, |files|, files[i].path);
      assert At(d.tree, files[i].path) == At(e.tree, files[i].path);
    }
  }

  /** A kept record is as it was: a sync leaves its files alone. */
  lemma KeptIsUntouched(payload: Payload, w: World, m: Manifest, thorough: bool, budget: nat, vanilla: Tree, r: Record,
                        closely: bool)
    requires Knows(payload, w) && Clean(vanilla, w) && ManifestOk(payload, m.assets)
    requires !Sync(w, payload, m, thorough, budget).1.Failed?
    requires r in Kept(w, m.assets, thorough, |m.assets|) && !NeedsRepair(w.disk, r, closely)
    ensures !NeedsRepair(Sync(w, payload, m, thorough, budget).0.disk, r, closely)
  {
    hide Sync, Kept, Provided, Knows, ManifestOk, Pack, RecordFor, PackDistinct, NeedsRepair;
    var after := Sync(w, payload, m, thorough, budget).0;
    KeptRecord(payload, w, m, thorough, r);
    forall x | x in Pack(payload, r.id) ensures At(w.disk.tree, x) == At(after.disk.tree, x) {
      KeptProvides(payload, w, m, thorough, r, x);
      assert CleanSpot(SpotOf(w.disk, Owned(RecordsOf(w)), x), At(vanilla, x));
      SyncedAt(payload, w, m, thorough, budget, vanilla, x);
    }
    SameFilesSameRepair(payload, w.disk, after.disk, r.id, closely);
  }

  /** An asset that was installed is intact. */
  lemma InstalledIsIntact(payload: Payload, w: World, m: Manifest, thorough: bool, budget: nat, vanilla: Tree,
                          r: Record)
    requires Knows(payload, w) && Clean(vanilla, w) && ManifestOk(payload, m.assets)
    requires !Sync(w, payload, m, thorough, budget).1.Failed?
    requires r in SyncedRecords(payload, w, m.assets, thorough) && r !in Kept(w, m.assets, thorough, |m.assets|)
    ensures !NeedsRepair(Sync(w, payload, m, thorough, budget).0.disk, r, true)
  {
    hide Sync, Kept, SyncedRecords, Provided, Knows, Clean, ManifestOk, Pack, RecordFor, PackDistinct, NeedsRepair;
    var records, kept := SyncedRecords(payload, w, m.assets, thorough), Kept(w, m.assets, thorough, |m.assets|);
    var after := Sync(w, payload, m, thorough, budget).0;
    SyncedRecordsOk(payload, w, m.assets, thorough);
    SyncedStartsKept(payload, w, m.assets, thorough);
    var i :| 0 <= i < |records| && records[i] == r;
    assert RecordIds(records)[i] == r.id;
    var a :| 0 <= a < |m.assets| && m.assets[a].id == RecordIds(records)[i];
    assert r == RecordFor(payload, r.id) && PackDistinct(payload(r.id));
    forall x | x in Pack(payload, r.id) ensures At(after.disk.tree, x) == At(Pack(payload, r.id), x) {
      ProvidedIs(payload, m.assets, |m.assets|, a, x);
      KeptDoesNotOwn(payload, records, kept, i, x);
      assert CleanSpot(SpotOf(w.disk, Owned(RecordsOf(w)), x), At(vanilla, x)) by { CleanAt(vanilla, w, x); }
      SyncedAt(payload, w, m, thorough, budget, vanilla, x);
    }
    IntactIs(payload, after.disk, r.id);
  }

  lemma CleanAt(vanilla: Tree, w: World, x: Path)
    requires Clean(vanilla, w)
    ensures CleanSpot(SpotOf(w.disk, Owned(RecordsOf(w)), x), At(vanilla, x))
  {
  }

  lemma SyncedStartsKept(payload: Payload, w: World, assets: seq<Asset>, thorough: bool)
    ensures Kept(w, assets, thorough, |assets|) <= SyncedRecords(payload, w, assets, thorough)
  {
    hide Kept, Pending, NewRecords;
  }

  lemma KeptDoesNotOwn(payload: Payload, records: seq<Record>, kept: seq<Record>, i: nat, x: Path)
    requires RecordsOk(payload, records) && kept <= records && i < |records| && records[i] !in kept
    requires x in Pack(payload, records[i].id)
    ensures x !in OwnedUpTo(payload, kept, |kept|)
  {
    hide Pack, RecordFor, OwnedUpTo;
    OwnedUpToHas(payload, kept, |kept|);
    forall j | 0 <= j < |kept| ensures x !in Pack(payload, kept[j].id) {
      assert j < i;
      assert Compatible(payload, RecordIds(records)[j], RecordIds(records)[i]);
    }
  }

  /** After a sync its own manifest is served to every sync that looks no closer, and to a thorough
      one if nothing that was kept had drifted unnoticed. */
  lemma SyncedServes(payload: Payload, w: World, m: Manifest, thorough: bool, budget: nat, vanilla: Tree, again: bool)
    requires Knows(payload, w) && Clean(vanilla, w) && ManifestOk(payload, m.assets)
    requires !Sync(w, payload, m, thorough, budget).1.Failed?
    requires again ==> KeptIntact(payload, w, m, thorough)
    ensures Serves(payload, Sync(w, payload, m, thorough, budget).0, m.assets, again)
  {
    var after, kept := Sync(w, payload, m, thorough, budget).0, Kept(w, m.assets, thorough, |m.assets|);
    assert RecordsOf(after) == SyncedRecords(payload, w, m.assets, thorough);
    SyncedRecordsOk(payload, w, m.assets, thorough);
    SyncedCovers(payload, w, m.assets, thorough);
    hide Sync, Kept, SyncedRecords, Knows, Clean, NeedsRepair, RecordsOk, Covers;
    forall a, r | 0 <= a < |m.assets| && r in RecordsOf(after) && r.id == m.assets[a].id
      ensures !NeedsRepair(after.disk, r, again || m.assets[a].standalone)
    {
      if r !in kept {
        InstalledIsIntact(payload, w, m, thorough, budget, vanilla, r);
        RepairMonotone(after.disk, r, true, again || m.assets[a].standalone);
      } else if again {
        KeptIsUntouched(payload, w, m, thorough, budget, vanilla, r, true);
      } else {
        var b := KeptWhy(payload, w, m.assets, thorough, |m.assets|, r);
        SameAsset(payload, m.assets, a, b);
        KeptIsUntouched(payload, w, m, thorough, budget, vanilla, r, thorough || m.assets[a].standalone);
        RepairMonotone(after.disk, r, thorough || m.assets[a].standalone, m.assets[a].standalone);
      }
    }
    assert Knows(payload, after) by { KnowsIs(payload, after, SyncedRecords(payload, w, m.assets, thorough)); }
  }

  lemma SameAsset(payload: Payload, assets: seq<Asset>, a: nat, b: nat)
    requires ManifestOk(payload, assets) && a < |assets| && b < |assets| && assets[a].id == assets[b].id
    ensures a == b
  {
    hide ManifestOk;
    if a < b {
      ManifestCompatible(payload, assets, a, b);
    } else if b < a {
      ManifestCompatible(payload, assets, b, a);
    }
  }

  lemma KnowsIs(payload: Payload, w: World, records: seq<Record>)
    requires RecordsOf(w) == records && RecordsOk(payload, records)
    ensures Knows(payload, w)
  {
  }

  /** A second sync of the same manifest changes no file and no backup and reports "up-to-date", unless
      it is thorough and the first one had kept a file that had drifted unnoticed. */
  lemma ResyncChangesNothing(payload: Payload, w: World, m: Manifest, thorough: bool, budget: nat, vanilla: Tree,
                             again: bool, steps: nat)
    requires Knows(payload, w) && Clean(vanilla, w) && ManifestOk(payload, m.assets)
    requires !Sync(w, payload, m, thorough, budget).1.Failed?
    ensures var after := Sync(w, payload, m, thorough, budget).0;
            var (next, outcome) := Sync(after, payload, m, again, steps);
            (next.disk == after.disk && outcome == UpToDate(m.packVersion)) <==>
            (again ==> KeptIntact(payload, w, m, thorough))
  {
    var after := Sync(w, payload, m, thorough, budget).0;
    assert RecordsOf(after) == SyncedRecords(payload, w, m.assets, thorough);
    assert after.state.Some? && after.state.value.packVersion == m.packVersion;
    SyncedRecordsOk(payload, w, m.assets, thorough);
    hide Sync, Knows, Clean, Serves, ManifestOk, SyncedRecords, KeptIntact;
    if again ==> KeptIntact(payload, w, m, thorough) {
      SyncedServes(payload, w, m, thorough, budget, vanilla, again);
      IdleSync(payload, after, m, again, steps);
    } else if Sync(after, payload, m, true, steps).1 == UpToDate(m.packVersion) {
      ThoroughFindsNothing(payload, w, m, thorough, budget, vanilla, steps);
    }
  }

  /** When a thorough second sync finds nothing to do, nothing had drifted unnoticed. */
  lemma ThoroughFindsNothing(payload: Payload, w: World, m: Manifest, thorough: bool, budget: nat, vanilla: Tree,
                             steps: nat)
    requires Knows(payload, w) && Clean(vanilla, w) && ManifestOk(payload, m.assets)
    requires !Sync(w, payload, m, thorough, budget).1.Failed?
    requires Sync(Sync(w, payload, m, thorough, budget).0, payload, m, true, steps).1 == UpToDate(m.packVersion)
    ensures KeptIntact(payload, w, m, thorough)
  {
    hide Sync, Knows, Clean, ManifestOk, KeptIntact;
    var after := Sync(w, payload, m, thorough, budget).0;
    SyncKeepsClean(payload, w, m, thorough, budget, vanilla);
    ThoroughSyncIsOverlay(payload, after, m, steps, vanilla);
    UpToDateMeansUnchanged(payload, after, m, true, steps);
    SyncIsOverlay(payload, w, m, thorough, budget, vanilla);
  }

  // ---------- Drift that a fast sync does not see ----------

  const PACK: AssetId := AssetId("pack", "1", Sha256("pack"))
  const ONE_PACK: Manifest := Manifest("1", [Asset(PACK, false)])

  function OneFile(id: AssetId): seq<File> { [File("p", "one")] }

  /** A client whose one installed file was replaced by another of the same size. */
  function Drifted(): World {
    World(Disk(map["p" := "two"], map[]), Some(State("1", [RecordFor(OneFile, PACK)])))
  }

  /** A fast sync reports such a client as up to date and leaves the wrong file; a thorough one puts the
      right file back. */
  lemma FastSyncKeepsDrift()
    ensures Clean(map[], Drifted()) && ManifestOk(OneFile, ONE_PACK.assets)
    ensures Sync(Drifted(), OneFile, ONE_PACK, false, 0) == (Drifted(), UpToDate("1"))
    ensures Sync(Drifted(), OneFile, ONE_PACK, true, 2).0.disk.tree == map["p" := "one"]
  {
    DriftedOwns();
    DriftedPlans();
    DriftedSyncs();
  }

  lemma DriftedPlans()
    ensures Kept(Drifted(), ONE_PACK.assets, false, 1) == RecordsOf(Drifted())
    ensures Pending(Drifted(), ONE_PACK.assets, false, 1) == []
    ensures Kept(Drifted(), ONE_PACK.assets, true, 1) == []
    ensures Pending(Drifted(), ONE_PACK.assets, true, 1) == ONE_PACK.assets
  {
    hide RecordFor, NeedsRepair;
    var w, record, a := Drifted(), RecordFor(OneFile, PACK), ONE_PACK.assets[0];
    DriftedNeedsRepair();
    RecordForId(OneFile, PACK);
    assert Previous(RecordsOf(w), a.id.name, 0) == None;
    assert RecordsOf(w)[0] == record && record.id == a.id && a == Asset(PACK, false);
    assert Previous(RecordsOf(w), a.id.name, 1) == Some(record);
    assert Keeps(w, a, true).None?;
    assert Keeps(w, a, false) == Some(record);
    hide Keeps;
  }

  lemma DriftedNeedsRepair()
    ensures !NeedsRepair(Drifted().disk, RecordFor(OneFile, PACK), false)
    ensures NeedsRepair(Drifted().disk, RecordFor(OneFile, PACK), true)
  {
    var record, one, two := RecordFor(OneFile, PACK), "one", "two";
    assert record.files == [FileRecord("p", Sha256(one), 3)];
    assert one[0] == 'o' && two[0] == 't';
    assert FileNeedsRepair(Drifted().disk, record.files[0], true);
  }

  lemma DriftedOwns()
    ensures RecordPaths(RecordsOf(Drifted()), 1) == ["p"] && Owned(RecordsOf(Drifted())) == {"p"}
  {
    RecordFilePaths(OneFile, PACK, 1);
    assert RecordPaths(RecordsOf(Drifted()), 0) == [];
  }

  lemma DriftedSyncs()
    requires Kept(Drifted(), ONE_PACK.assets, false, 1) == RecordsOf(Drifted())
    requires Pending(Drifted(), ONE_PACK.assets, false, 1) == []
    requires Kept(Drifted(), ONE_PACK.assets, true, 1) == []
    requires Pending(Drifted(), ONE_PACK.assets, true, 1) == ONE_PACK.assets
    ensures Sync(Drifted(), OneFile, ONE_PACK, false, 0) == (Drifted(), UpToDate("1"))
    ensures Sync(Drifted(), OneFile, ONE_PACK, true, 2).0.disk.tree == map["p" := "one"]
  {
    hide Kept, Pending, RecordPaths, Owned, RecordFor;
    DriftedOwns();
    var w, assets := Drifted(), ONE_PACK.assets;
    var start := Installing(w.disk, {"p"}, 2, false);
    assert RecordsOf(w) + NewRecords(OneFile, [], 0) == RecordsOf(w);
    assert InstallFiles(start, OneFile(PACK), 1) == InstallFile(start, File("p", "one"));
    assert InstallAssets(start, OneFile, assets, 1) == InstallFile(start, File("p", "one"));
    assert w.disk.tree["p" := "one"] == map["p" := "one"] && {"p"} + {"p"} == {"p"};
    assert InstallFile(start, File("p", "one")) == Installing(Disk(map["p" := "one"], map[]), {"p"}, 0, false);
    OneRecord();
    assert Cleanup(w.disk, ["p"], {"p"}, 1) == w.disk;
    assert Cleanup(Disk(map["p" := "one"], map[]), ["p"], {"p"}, 1) == Disk(map["p" := "one"], map[]);
  }

  lemma OneRecord()
    ensures [] + NewRecords(OneFile, ONE_PACK.assets, 1) == RecordsOf(Drifted())
  {
  }
}
