/**
 What asset synchronization promises over whole histories: a completed sync leaves the client as
 its manifest says whatever came before, and restoring leaves it as it was before the first sync.
 */
module AssetSyncHistory {
  import opened Options
  import opened AssetSync

  type Tree = map<Path, Content>

  // ---------- What a manifest provides ----------

  /** The first `k` files of a pack, as a tree. */
  function PackTree(files: seq<File>, k: nat): Tree
    requires k <= |files|
  {
    if k == 0 then map[] else PackTree(files, k - 1)[files[k - 1].path := files[k - 1].content]
  }

  function Pack(payload: Payload, id: AssetId): Tree {
    PackTree(payload(id), |payload(id)|)
  }

  /** The first `k` assets of a manifest, as a tree. */
  function Provided(payload: Payload, assets: seq<Asset>, k: nat): Tree
    requires k <= |assets|
  {
    if k == 0 then map[] else Provided(payload, assets, k - 1) + Pack(payload, assets[k - 1].id)
  }

  /** The vanilla client with a manifest's files over it. */
  function Overlay(vanilla: Tree, payload: Payload, m: Manifest): Tree {
    vanilla + Provided(payload, m.assets, |m.assets|)
  }

  ghost predicate PackDistinct(files: seq<File>) {
    forall i, j :: 0 <= i < j < |files| ==> files[i].path != files[j].path
  }

  /** Two assets that may be installed side by side. */
  ghost predicate Compatible(payload: Payload, a: AssetId, b: AssetId) {
    a.name != b.name && Pack(payload, a).Keys !! Pack(payload, b).Keys
  }

  ghost predicate IdsOk(payload: Payload, ids: seq<AssetId>) {
    && (forall i :: 0 <= i < |ids| ==> PackDistinct(payload(ids[i])))
    && (forall i, j :: 0 <= i < j < |ids| ==> Compatible(payload, ids[i], ids[j]))
  }

  function AssetIds(assets: seq<Asset>): seq<AssetId> {
    seq(|assets|, i requires 0 <= i < |assets| => assets[i].id)
  }

  /** No path is provided by two assets or twice by one, and no name is used twice. */
  ghost predicate ManifestOk(payload: Payload, assets: seq<Asset>) {
    IdsOk(payload, AssetIds(assets))
  }

  lemma ManifestCompatible(payload: Payload, assets: seq<Asset>, i: nat, j: nat)
    requires ManifestOk(payload, assets) && i < j < |assets|
    ensures Compatible(payload, assets[i].id, assets[j].id) && PackDistinct(payload(assets[i].id))
    ensures PackDistinct(payload(assets[j].id))
  {
    hide Compatible, PackDistinct;
    var ids := AssetIds(assets);
    assert ids[i] == assets[i].id && ids[j] == assets[j].id;
  }

  // ---------- What a saved state remembers ----------

  function RecordFor(payload: Payload, id: AssetId): Record {
    RecordOf(payload, Asset(id, false))
  }

  function RecordIds(records: seq<Record>): seq<AssetId> {
    seq(|records|, i requires 0 <= i < |records| => records[i].id)
  }

  /** The records are those of a manifest that was fit to be installed. */
  ghost predicate RecordsOk(payload: Payload, records: seq<Record>) {
    && IdsOk(payload, RecordIds(records))
    && forall i :: 0 <= i < |records| ==> records[i] == RecordFor(payload, records[i].id)
  }

  ghost predicate Distinct(paths: seq<Path>) {
    forall i, j :: 0 <= i < j < |paths| ==> paths[i] != paths[j]
  }

  lemma {:induction false} PackTreeHas(files: seq<File>, k: nat, x: Path)
    requires k <= |files|
    ensures x in PackTree(files, k) <==> exists i :: 0 <= i < k && files[i].path == x
  {
    if k > 0 {
      PackTreeHas(files, k - 1, x);
      if x == files[k - 1].path {
        assert files[k - 1].path == x;
      }
    }
  }

  lemma {:induction false} PackTreeHolds(files: seq<File>, k: nat, i: nat)
    requires PackDistinct(files) && i < k <= |files|
    ensures files[i].path in PackTree(files, k) && PackTree(files, k)[files[i].path] == files[i].content
  {
    if i < k - 1 {
      PackTreeHolds(files, k - 1, i);
    }
  }

  /** The paths of a pack's record are its files' paths. */
  lemma {:induction false} RecordFilePaths(payload: Payload, id: AssetId, k: nat)
    requires k <= |payload(id)|
    ensures var paths := FilePaths(RecordFor(payload, id).files, k);
            |paths| == k && forall i :: 0 <= i < k ==> paths[i] == payload(id)[i].path
  {
    if k > 0 {
      RecordFilePaths(payload, id, k - 1);
    }
  }

  /** The paths that the first `k` records own. */
  function OwnedUpTo(payload: Payload, records: seq<Record>, k: nat): set<Path>
    requires k <= |records|
  {
    if k == 0 then {} else OwnedUpTo(payload, records, k - 1) + Pack(payload, records[k - 1].id).Keys
  }

  lemma {:induction false} OwnedUpToHas(payload: Payload, records: seq<Record>, k: nat)
    requires k <= |records|
    ensures forall p :: p in OwnedUpTo(payload, records, k) <==>
              exists i :: 0 <= i < k && p in Pack(payload, records[i].id)
  {
    if k > 0 {
      hide Pack;
      OwnedUpToHas(payload, records, k - 1);
    }
  }

  /** The listed paths are distinct, and they are the owned ones. */
  lemma {:induction false} ListedPaths(payload: Payload, records: seq<Record>, k: nat)
    requires RecordsOk(payload, records) && k <= |records|
    ensures Distinct(RecordPaths(records, k))
    ensures forall p :: p in RecordPaths(records, k) <==> p in OwnedUpTo(payload, records, k)
  {
    if k > 0 {
      ListedPaths(payload, records, k - 1);
      var id := records[k - 1].id;
      var files := payload(id);
      var before, mine := RecordPaths(records, k - 1), FilePaths(records[k - 1].files, |records[k - 1].files|);
      RecordFilePaths(payload, id, |files|);
      forall p ensures p in mine <==> p in Pack(payload, id) {
        PackTreeHas(files, |files|, p);
        if p in Pack(payload, id) {
          var i :| 0 <= i < |files| && files[i].path == p;
          assert mine[i] == p;
        }
      }
      assert PackDistinct(payload(RecordIds(records)[k - 1]));
      assert Distinct(mine);
      OwnedUpToHas(payload, records, k - 1);
      forall p | p in before ensures p !in mine {
        var i :| 0 <= i < k - 1 && p in Pack(payload, records[i].id);
        assert Compatible(payload, RecordIds(records)[i], RecordIds(records)[k - 1]);
      }
      JoinDistinct(before, mine);
    }
  }

  lemma JoinDistinct(a: seq<Path>, b: seq<Path>)
    requires Distinct(a) && Distinct(b) && forall p :: p in a ==> p !in b
    ensures Distinct(a + b)
  {
    forall i, j | 0 <= i < j < |a + b| ensures (a + b)[i] != (a + b)[j] {
      if i < |a| <= j {
        assert a[i] in a && b[j - |a|] in b;
      }
    }
  }

  lemma OwnedIs(payload: Payload, records: seq<Record>)
    requires RecordsOk(payload, records)
    ensures Owned(records) == OwnedUpTo(payload, records, |records|)
  {
    ListedPaths(payload, records, |records|);
  }

  // ---------- One path at a time ----------

  function At(tree: Tree, path: Path): Option<Content> {
    if path in tree then Some(tree[path]) else None
  }

  /** What is at one path: in the client, in the backups, and whether the feed owns it. */
  datatype Spot = Spot(content: Option<Content>, backup: Option<Content>, owned: bool)

  function SpotOf(d: Disk, owned: set<Path>, path: Path): Spot {
    Spot(At(d.tree, path), At(d.backups, path), path in owned)
  }

  /** Installing a file, if one is provided. */
  function Put(s: Spot, provided: Option<Content>): Spot {
    if provided.None? then s
    else Spot(provided, if s.owned || s.backup.Some? then s.backup else s.content, true)
  }

  /** Putting the original back. */
  function Drop(s: Spot): Spot {
    Spot(s.backup, None, s.owned)
  }

  lemma {:induction false} InstallsFilesAt(p: Installing, files: seq<File>, k: nat, x: Path)
    requires k <= |files| && !InstallFiles(p, files, k).failed
    ensures var r := InstallFiles(p, files, k);
            SpotOf(r.disk, r.owned, x) == Put(SpotOf(p.disk, p.owned, x), At(PackTree(files, k), x))
  {
    if k > 0 {
      InstallsFilesAt(p, files, k - 1, x);
    }
  }

  /** A completed installation has put every provided file in place and kept its original once. */
  lemma {:induction false} InstallsAssetsAt(p: Installing, payload: Payload, assets: seq<Asset>, k: nat, x: Path)
    requires k <= |assets| && !InstallAssets(p, payload, assets, k).failed
    ensures var r := InstallAssets(p, payload, assets, k);
            SpotOf(r.disk, r.owned, x) == Put(SpotOf(p.disk, p.owned, x), At(Provided(payload, assets, k), x))
  {
    if k > 0 {
      var q, files := InstallAssets(p, payload, assets, k - 1), payload(assets[k - 1].id);
      if q.failed {
        FailureLasts(q, files, 0, |files|);
      } else {
        InstallsAssetsAt(p, payload, assets, k - 1, x);
        InstallsFilesAt(q, files, |files|, x);
      }
    }
  }

  /** A cleanup puts back each listed path that is no longer desired, once. */
  lemma {:induction false} CleansUpAt(d: Disk, paths: seq<Path>, desired: set<Path>, k: nat, owned: set<Path>, x: Path)
    requires Distinct(paths) && k <= |paths|
    ensures SpotOf(Cleanup(d, paths, desired, k), owned, x) ==
            if x in paths[..k] && x !in desired then Drop(SpotOf(d, owned, x)) else SpotOf(d, owned, x)
  {
    if k > 0 {
      CleansUpAt(d, paths, desired, k - 1, owned, x);
      assert paths[..k] == paths[..k - 1] + [paths[k - 1]];
    }
  }

  // ---------- Which assets are installed again ----------

  ghost predicate Knows(payload: Payload, w: World) {
    RecordsOk(payload, RecordsOf(w))
  }

  lemma {:induction false} PreviousIs(records: seq<Record>, name: string, k: nat)
    requires k <= |records|
    ensures var r := Previous(records, name, k);
            && (r.Some? ==> exists i :: 0 <= i < k && records[i] == r.value && r.value.id.name == name)
            && (r.None? ==> forall i :: 0 <= i < k ==> records[i].id.name != name)
  {
    if k > 0 {
      PreviousIs(records, name, k - 1);
    }
  }

  /** Only a record of the asset itself is kept. */
  lemma KeepsOwn(payload: Payload, w: World, a: Asset, thorough: bool)
    requires Knows(payload, w)
    ensures var keeps := Keeps(w, a, thorough);
            keeps.Some? ==>
              && keeps.value == RecordFor(payload, a.id)
              && keeps.value in RecordsOf(w)
              && !NeedsRepair(w.disk, keeps.value, thorough || a.standalone)
  {
    PreviousIs(RecordsOf(w), a.id.name, |RecordsOf(w)|);
  }

  lemma {:induction false} ProvidedPrefix(payload: Payload, s: seq<Asset>, a: Asset, k: nat)
    requires k <= |s|
    ensures Provided(payload, s + [a], k) == Provided(payload, s, k)
  {
    if k > 0 {
      ProvidedPrefix(payload, s, a, k - 1);
    }
  }

  lemma {:induction false} OwnedPrefix(payload: Payload, s: seq<Record>, r: Record, k: nat)
    requires k <= |s|
    ensures OwnedUpTo(payload, s + [r], k) == OwnedUpTo(payload, s, k)
  {
    if k > 0 {
      OwnedPrefix(payload, s, r, k - 1);
    }
  }

  lemma ProvidedAppend(payload: Payload, s: seq<Asset>, a: Asset, x: Path)
    ensures At(Provided(payload, s + [a], |s| + 1), x) ==
            if x in Pack(payload, a.id) then At(Pack(payload, a.id), x) else At(Provided(payload, s, |s|), x)
  {
    ProvidedPrefix(payload, s, a, |s|);
    hide Pack;
  }

  lemma OwnedAppend(payload: Payload, s: seq<Record>, r: Record, x: Path)
    ensures x in OwnedUpTo(payload, s + [r], |s| + 1) <==>
            x in OwnedUpTo(payload, s, |s|) || x in Pack(payload, r.id)
  {
    OwnedPrefix(payload, s, r, |s|);
    hide Pack;
  }

  lemma {:induction false} ProvidedHas(payload: Payload, assets: seq<Asset>, k: nat, x: Path)
    requires k <= |assets| && x in Provided(payload, assets, k)
    ensures exists i :: 0 <= i < k && x in Pack(payload, assets[i].id)
  {
    if x !in Pack(payload, assets[k - 1].id) {
      ProvidedHas(payload, assets, k - 1, x);
    }
  }

  /** One asset of the plan: installed again, or kept as the record of itself. */
  lemma PlanInstalls(w: World, assets: seq<Asset>, thorough: bool, k: nat)
    requires 0 < k <= |assets| && Keeps(w, assets[k - 1], thorough).None?
    ensures Pending(w, assets, thorough, k) == Pending(w, assets, thorough, k - 1) + [assets[k - 1]]
    ensures Kept(w, assets, thorough, k) == Kept(w, assets, thorough, k - 1)
  {
    hide Keeps;
  }

  lemma PlanKeeps(payload: Payload, w: World, assets: seq<Asset>, thorough: bool, k: nat) returns (r: Record)
    requires Knows(payload, w) && 0 < k <= |assets| && Keeps(w, assets[k - 1], thorough).Some?
    ensures Pending(w, assets, thorough, k) == Pending(w, assets, thorough, k - 1)
    ensures Kept(w, assets, thorough, k) == Kept(w, assets, thorough, k - 1) + [r]
    ensures r == RecordFor(payload, assets[k - 1].id) && r.id == assets[k - 1].id && r in RecordsOf(w)
    ensures !NeedsRepair(w.disk, r, thorough || assets[k - 1].standalone)
  {
    KeepsOwn(payload, w, assets[k - 1], thorough);
    r := Keeps(w, assets[k - 1], thorough).value;
    hide Keeps, Knows, NeedsRepair;
  }

  lemma NoPlan(w: World, assets: seq<Asset>, thorough: bool)
    ensures Pending(w, assets, thorough, 0) == [] && Kept(w, assets, thorough, 0) == []
  {
  }

  /** What is provided at a path comes from a pending asset or from a kept record, not both. */
  ghost predicate SplitAt(payload: Payload, pending: seq<Asset>, kept: seq<Record>, provided: Option<Content>,
                          x: Path) {
    var installs := At(Provided(payload, pending, |pending|), x);
    if x in OwnedUpTo(payload, kept, |kept|) then provided.Some? && installs.None? else installs == provided
  }

  lemma NothingSplit(payload: Payload, x: Path)
    ensures SplitAt(payload, [], [], At(map[], x), x)
  {
  }

  lemma SplitPending(payload: Payload, pending: seq<Asset>, kept: seq<Record>, a: Asset, earlier: Option<Content>,
                     x: Path)
    requires SplitAt(payload, pending, kept, earlier, x)
    requires x in Pack(payload, a.id) ==> earlier.None?
    ensures SplitAt(payload, pending + [a], kept, AtOr(Pack(payload, a.id), x, earlier), x)
  {
    ProvidedAppend(payload, pending, a, x);
    hide Pack, Provided, OwnedUpTo;
  }

  lemma SplitKept(payload: Payload, pending: seq<Asset>, kept: seq<Record>, r: Record, earlier: Option<Content>,
                  x: Path)
    requires SplitAt(payload, pending, kept, earlier, x)
    requires x in Pack(payload, r.id) ==> earlier.None?
    ensures SplitAt(payload, pending, kept + [r], AtOr(Pack(payload, r.id), x, earlier), x)
  {
    OwnedAppend(payload, kept, r, x);
    hide Pack, Provided, OwnedUpTo;
  }

  function AtOr(tree: Tree, x: Path, otherwise: Option<Content>): Option<Content> {
    if x in tree then At(tree, x) else otherwise
  }

  lemma {:induction false} PlanAt(payload: Payload, w: World, assets: seq<Asset>, thorough: bool, k: nat, x: Path)
    requires Knows(payload, w) && ManifestOk(payload, assets) && k <= |assets|
    ensures SplitAt(payload, Pending(w, assets, thorough, k), Kept(w, assets, thorough, k),
                    At(Provided(payload, assets, k), x), x)
  {
    hide Keeps, Knows, ManifestOk, Pending, Kept, Pack, SplitAt, RecordFor, AtOr, At, NeedsRepair;
    if k == 0 {
      NoPlan(w, assets, thorough);
      NothingSplit(payload, x);
    } else {
      var pending, kept := Pending(w, assets, thorough, k - 1), Kept(w, assets, thorough, k - 1);
      var earlier := At(Provided(payload, assets, k - 1), x);
      hide Provided;
      PlanAt(payload, w, assets, thorough, k - 1, x);
      ProvidedOnce(payload, assets, k, x);
      if Keeps(w, assets[k - 1], thorough).None? {
        PlanInstalls(w, assets, thorough, k);
        SplitPending(payload, pending, kept, assets[k - 1], earlier, x);
      } else {
        var r := PlanKeeps(payload, w, assets, thorough, k);
        SplitKept(payload, pending, kept, r, earlier, x);
      }
    }
  }

  /** The last asset provides what no earlier one does. */
  lemma ProvidedOnce(payload: Payload, assets: seq<Asset>, k: nat, x: Path)
    requires ManifestOk(payload, assets) && 0 < k <= |assets|
    ensures var pack, earlier := Pack(payload, assets[k - 1].id), At(Provided(payload, assets, k - 1), x);
            && At(Provided(payload, assets, k), x) == AtOr(pack, x, earlier)
            && (x in pack ==> earlier.None?)
  {
    hide ManifestOk, Pack;
    if x in Pack(payload, assets[k - 1].id) && x in Provided(payload, assets, k - 1) {
      ProvidedHas(payload, assets, k - 1, x);
      var i :| 0 <= i < k - 1 && x in Pack(payload, assets[i].id);
      ManifestCompatible(payload, assets, i, k - 1);
    }
  }

  // ---------- The new records ----------

  /** Every id comes from the first `k` assets. */
  ghost predicate From(ids: seq<AssetId>, assets: seq<Asset>, k: nat)
    requires k <= |assets|
  {
    forall i :: 0 <= i < |ids| ==> exists a :: 0 <= a < k && assets[a].id == ids[i]
  }

  lemma InsertOk(payload: Payload, before: seq<AssetId>, id: AssetId, after: seq<AssetId>)
    requires IdsOk(payload, before + after) && PackDistinct(payload(id))
    requires forall i :: 0 <= i < |before + after| ==> Compatible(payload, (before + after)[i], id)
    ensures IdsOk(payload, before + [id] + after)
  {
    var ids, all := before + after, before + [id] + after;
    forall i, j | 0 <= i < j < |all| ensures Compatible(payload, all[i], all[j]) {
      var b := |before|;
      assert i < b ==> all[i] == ids[i];
      assert i > b ==> all[i] == ids[i - 1];
      assert j < b ==> all[j] == ids[j];
      assert j > b ==> all[j] == ids[j - 1];
      if i == b {
        assert Compatible(payload, ids[j - 1], id);
      } else if j == b {
        assert Compatible(payload, ids[i], id);
      } else {
        assert Compatible(payload, if i < b then ids[i] else ids[i - 1], if j < b then ids[j] else ids[j - 1]);
      }
      hide Compatible;
    }
    hide Compatible, PackDistinct;
    forall i | 0 <= i < |all| ensures PackDistinct(payload(all[i])) {
      assert i < |before| ==> all[i] == ids[i];
      assert i > |before| ==> all[i] == ids[i - 1];
    }
  }

  /** The kept records and the pending assets together may be installed side by side. */
  lemma {:induction false} PlanOk(payload: Payload, w: World, assets: seq<Asset>, thorough: bool, k: nat)
    requires Knows(payload, w) && ManifestOk(payload, assets) && k <= |assets|
    ensures var pending, kept := AssetIds(Pending(w, assets, thorough, k)), RecordIds(Kept(w, assets, thorough, k));
            IdsOk(payload, kept + pending) && From(kept + pending, assets, k) && |kept + pending| == k
  {
    hide Keeps, Compatible, PackDistinct, Knows, ManifestOk, Pending, Kept, IdsOk, From, RecordFor, NeedsRepair;
    if k == 0 {
      NoPlan(w, assets, thorough);
      NothingFrom(payload, assets);
    } else {
      var pending, kept := Pending(w, assets, thorough, k - 1), Kept(w, assets, thorough, k - 1);
      PlanOk(payload, w, assets, thorough, k - 1);
      NewcomerOk(payload, assets, k, RecordIds(kept) + AssetIds(pending));
      if Keeps(w, assets[k - 1], thorough).None? {
        PlanInstalls(w, assets, thorough, k);
        GrowPending(payload, kept, pending, assets[k - 1], assets, k);
      } else {
        var r := PlanKeeps(payload, w, assets, thorough, k);
        GrowKept(payload, kept, pending, r, assets, k);
      }
    }
  }

  lemma NothingFrom(payload: Payload, assets: seq<Asset>)
    ensures var ids := RecordIds([]) + AssetIds([]);
            IdsOk(payload, ids) && From(ids, assets, 0) && |ids| == 0
  {
  }

  lemma GrowKept(payload: Payload, kept: seq<Record>, pending: seq<Asset>, r: Record, assets: seq<Asset>, k: nat)
    requires 0 < k <= |assets| && assets[k - 1].id == r.id && PackDistinct(payload(r.id))
    requires var ids := RecordIds(kept) + AssetIds(pending);
             && IdsOk(payload, ids) && From(ids, assets, k - 1)
             && forall i :: 0 <= i < |ids| ==> Compatible(payload, ids[i], r.id)
    ensures var ids := RecordIds(kept + [r]) + AssetIds(pending);
            IdsOk(payload, ids) && From(ids, assets, k)
  {
    hide Compatible, PackDistinct, IdsOk, From;
    InsertOk(payload, RecordIds(kept), r.id, AssetIds(pending));
    InsertFrom(RecordIds(kept), r.id, AssetIds(pending), assets, k);
    assert RecordIds(kept + [r]) == RecordIds(kept) + [r.id];
  }

  lemma GrowPending(payload: Payload, kept: seq<Record>, pending: seq<Asset>, a: Asset, assets: seq<Asset>, k: nat)
    requires 0 < k <= |assets| && assets[k - 1] == a && PackDistinct(payload(a.id))
    requires var ids := RecordIds(kept) + AssetIds(pending);
             && IdsOk(payload, ids) && From(ids, assets, k - 1)
             && forall i :: 0 <= i < |ids| ==> Compatible(payload, ids[i], a.id)
    ensures var ids := RecordIds(kept) + AssetIds(pending + [a]);
            IdsOk(payload, ids) && From(ids, assets, k)
  {
    hide Compatible, PackDistinct, IdsOk, From;
    var ids := RecordIds(kept) + AssetIds(pending);
    assert ids + [] == ids;
    InsertOk(payload, ids, a.id, []);
    InsertFrom(ids, a.id, [], assets, k);
    assert AssetIds(pending + [a]) == AssetIds(pending) + [a.id];
    assert ids + [a.id] + [] == RecordIds(kept) + (AssetIds(pending) + [a.id]);
  }

  lemma NewcomerOk(payload: Payload, assets: seq<Asset>, k: nat, ids: seq<AssetId>)
    requires ManifestOk(payload, assets) && 0 < k <= |assets| && From(ids, assets, k - 1)
    ensures PackDistinct(payload(assets[k - 1].id))
    ensures forall i :: 0 <= i < |ids| ==> Compatible(payload, ids[i], assets[k - 1].id)
  {
    hide Compatible, PackDistinct;
    assert AssetIds(assets)[k - 1] == assets[k - 1].id;
    forall i | 0 <= i < |ids| ensures Compatible(payload, ids[i], assets[k - 1].id) {
      var id := ids[i];
      var b :| 0 <= b < k - 1 && assets[b].id == id;
      ManifestCompatible(payload, assets, b, k - 1);
    }
  }

  lemma InsertFrom(before: seq<AssetId>, id: AssetId, after: seq<AssetId>, assets: seq<Asset>, k: nat)
    requires 0 < k <= |assets| && From(before + after, assets, k - 1) && assets[k - 1].id == id
    ensures From(before + [id] + after, assets, k)
  {
    var ids, all := before + after, before + [id] + after;
    forall i | 0 <= i < |all| ensures exists a :: 0 <= a < k && assets[a].id == all[i] {
      if i == |before| {
        assert assets[k - 1].id == all[i];
      } else {
        var j := if i < |before| then i else i - 1;
        assert all[i] == ids[j];
        var a :| 0 <= a < k - 1 && assets[a].id == ids[j];
      }
    }
  }

  lemma {:induction false} KeptKnown(payload: Payload, w: World, assets: seq<Asset>, thorough: bool, k: nat)
    requires Knows(payload, w) && k <= |assets|
    ensures var kept := Kept(w, assets, thorough, k);
            && (forall i :: 0 <= i < |kept| ==> kept[i] == RecordFor(payload, kept[i].id))
            && (forall r :: r in kept ==> r in RecordsOf(w))
  {
    hide Keeps, Kept, Pending, RecordFor, Knows, NeedsRepair;
    if k == 0 {
      NoPlan(w, assets, thorough);
    } else {
      KeptKnown(payload, w, assets, thorough, k - 1);
      if Keeps(w, assets[k - 1], thorough).None? {
        PlanInstalls(w, assets, thorough, k);
      } else {
        var r := PlanKeeps(payload, w, assets, thorough, k);
      }
    }
  }

  lemma {:induction false} NewRecordsAre(payload: Payload, assets: seq<Asset>, k: nat)
    requires k <= |assets|
    ensures var records := NewRecords(payload, assets, k);
            |records| == k && forall i :: 0 <= i < k ==> records[i] == RecordFor(payload, assets[i].id)
  {
    if k > 0 {
      NewRecordsAre(payload, assets, k - 1);
    }
  }

  function SyncedRecords(payload: Payload, w: World, assets: seq<Asset>, thorough: bool): seq<Record> {
    var pending := Pending(w, assets, thorough, |assets|);
    Kept(w, assets, thorough, |assets|) + NewRecords(payload, pending, |pending|)
  }

  lemma SyncedIds(payload: Payload, w: World, assets: seq<Asset>, thorough: bool)
    ensures RecordIds(SyncedRecords(payload, w, assets, thorough)) ==
            RecordIds(Kept(w, assets, thorough, |assets|)) + AssetIds(Pending(w, assets, thorough, |assets|))
  {
    var pending, kept := Pending(w, assets, thorough, |assets|), Kept(w, assets, thorough, |assets|);
    var added := NewRecords(payload, pending, |pending|);
    NewRecordsAre(payload, pending, |pending|);
    hide Kept, Pending, NewRecords, RecordFor;
    forall i | 0 <= i < |pending| ensures added[i].id == pending[i].id {
      RecordForId(payload, pending[i].id);
    }
    assert RecordIds(kept + added) == RecordIds(kept) + AssetIds(pending);
  }

  /** The records that a completed sync saves are again fit. */
  lemma SyncedRecordsOk(payload: Payload, w: World, assets: seq<Asset>, thorough: bool)
    requires Knows(payload, w) && ManifestOk(payload, assets)
    ensures var records := SyncedRecords(payload, w, assets, thorough);
            RecordsOk(payload, records) && |records| == |assets| && From(RecordIds(records), assets, |assets|)
  {
    hide IdsOk, From, Knows, ManifestOk, RecordFor;
    var pending, kept := Pending(w, assets, thorough, |assets|), Kept(w, assets, thorough, |assets|);
    var added := NewRecords(payload, pending, |pending|);
    PlanOk(payload, w, assets, thorough, |assets|);
    KeptKnown(payload, w, assets, thorough, |assets|);
    NewRecordsAre(payload, pending, |pending|);
    SyncedIds(payload, w, assets, thorough);
    hide Kept, Pending, NewRecords;
    var records := kept + added;
    forall i | 0 <= i < |records| ensures records[i] == RecordFor(payload, records[i].id) {
      if i >= |kept| {
        RecordForId(payload, pending[i - |kept|].id);
      }
    }
  }

  lemma RecordForId(payload: Payload, id: AssetId)
    ensures RecordFor(payload, id).id == id
  {
  }

  lemma {:induction false} OwnedJoined(payload: Payload, kept: seq<Record>, pending: seq<Asset>, k: nat, x: Path)
    requires k <= |pending|
    ensures var records := kept + NewRecords(payload, pending, k);
            x in OwnedUpTo(payload, records, |records|) <==>
            x in OwnedUpTo(payload, kept, |kept|) || x in Provided(payload, pending, k)
  {
    hide Pack;
    if k == 0 {
      assert kept + [] == kept;
    } else {
      OwnedJoined(payload, kept, pending, k - 1, x);
      var before, r := kept + NewRecords(payload, pending, k - 1), RecordOf(payload, pending[k - 1]);
      OwnedAppend(payload, before, r, x);
      assert before + [r] == kept + NewRecords(payload, pending, k);
    }
  }

  /** What a kept record owns was owned before. */
  lemma KeptOwned(payload: Payload, w: World, assets: seq<Asset>, thorough: bool, x: Path)
    requires Knows(payload, w)
    ensures var kept := Kept(w, assets, thorough, |assets|);
            x in OwnedUpTo(payload, kept, |kept|) ==> x in Owned(RecordsOf(w))
  {
    var kept, records := Kept(w, assets, thorough, |assets|), RecordsOf(w);
    KeptKnown(payload, w, assets, thorough, |assets|);
    OwnedIs(payload, records);
    OwnedUpToHas(payload, kept, |kept|);
    OwnedUpToHas(payload, records, |records|);
    hide Kept, Pack, RecordFor, OwnedUpTo, Knows;
    if x in OwnedUpTo(payload, kept, |kept|) {
      var i :| 0 <= i < |kept| && x in Pack(payload, kept[i].id);
      assert kept[i] in records;
      var j :| 0 <= j < |records| && records[j] == kept[i];
      assert x in Pack(payload, records[j].id);
    }
  }

  // ---------- A sync, seen at one path ----------

  /** Unowned paths are vanilla and have no backup; owned ones have the original as their backup
      exactly when there was one. */
  ghost predicate CleanSpot(s: Spot, original: Option<Content>) {
    if s.owned then s.backup == original else s.backup.None? && s.content == original
  }

  ghost predicate Clean(vanilla: Tree, w: World) {
    forall x: Path :: CleanSpot(SpotOf(w.disk, Owned(RecordsOf(w)), x), At(vanilla, x))
  }

  /** What a completed sync leaves at a path. */
  lemma SyncedAt(payload: Payload, w: World, m: Manifest, thorough: bool, budget: nat, vanilla: Tree, x: Path)
    requires Knows(payload, w) && ManifestOk(payload, m.assets)
    requires CleanSpot(SpotOf(w.disk, Owned(RecordsOf(w)), x), At(vanilla, x))
    requires !Sync(w, payload, m, thorough, budget).1.Failed?
    ensures var after := Sync(w, payload, m, thorough, budget).0;
            var s := SpotOf(after.disk, Owned(RecordsOf(after)), x);
            var provided := At(Provided(payload, m.assets, |m.assets|), x);
            var kept := Kept(w, m.assets, thorough, |m.assets|);
            && CleanSpot(s, At(vanilla, x))
            && (s.owned <==> provided.Some?)
            && s.content == (if provided.None? then At(vanilla, x)
                             else if x in OwnedUpTo(payload, kept, |kept|) then At(w.disk.tree, x)
                             else provided)
  {
    var assets, was := m.assets, RecordsOf(w);
    var pending, kept := Pending(w, assets, thorough, |assets|), Kept(w, assets, thorough, |assets|);
    var records := SyncedRecords(payload, w, assets, thorough);
    var start := Installing(w.disk, Owned(was), budget, false);
    var done := InstallAssets(start, payload, pending, |pending|);
    var paths := RecordPaths(was, |was|);
    assert !done.failed;
    InstallsAssetsAt(start, payload, pending, |pending|, x);
    ListedPaths(payload, was, |was|);
    assert paths[..|paths|] == paths;
    CleansUpAt(done.disk, paths, Owned(records), |paths|, Owned(was), x);
    SyncedRecordsOk(payload, w, assets, thorough);
    OwnedIs(payload, records);
    OwnedJoined(payload, kept, pending, |pending|, x);
    PlanAt(payload, w, assets, thorough, |assets|, x);
    KeptOwned(payload, w, assets, thorough, x);
    hide Pending, Kept, InstallAssets, Cleanup, RecordPaths, Provided, OwnedUpTo, NewRecords, RecordsOk, ManifestOk,
      Knows, From;
  }

  // ---------- What a completed sync leaves ----------

  lemma SameTree(a: Tree, b: Tree)
    requires forall x: Path :: At(a, x) == At(b, x)
    ensures a == b
  {
    forall x ensures x in a <==> x in b {
      assert At(a, x) == At(b, x);
    }
    forall x | x in a ensures a[x] == b[x] {
      assert At(a, x) == At(b, x);
    }
  }

  /** A completed sync keeps every original restorable. */
  lemma SyncKeepsClean(payload: Payload, w: World, m: Manifest, thorough: bool, budget: nat, vanilla: Tree)
    requires Knows(payload, w) && Clean(vanilla, w) && ManifestOk(payload, m.assets)
    requires !Sync(w, payload, m, thorough, budget).1.Failed?
    ensures var after := Sync(w, payload, m, thorough, budget).0;
            Clean(vanilla, after) && Knows(payload, after)
  {
    var after := Sync(w, payload, m, thorough, budget).0;
    SyncedRecordsOk(payload, w, m.assets, thorough);
    assert RecordsOf(after) == SyncedRecords(payload, w, m.assets, thorough);
    forall x: Path ensures CleanSpot(SpotOf(after.disk, Owned(RecordsOf(after)), x), At(vanilla, x)) {
      SyncedAt(payload, w, m, thorough, budget, vanilla, x);
    }
    hide Sync, CleanSpot, RecordsOk, ManifestOk;
  }

  /** A record is intact exactly when the client holds its pack. */
  lemma IntactIs(payload: Payload, d: Disk, id: AssetId)
    requires PackDistinct(payload(id))
    ensures !NeedsRepair(d, RecordFor(payload, id), true) <==>
            forall x :: x in Pack(payload, id) ==> At(d.tree, x) == At(Pack(payload, id), x)
  {
    var files, record := payload(id), RecordFor(payload, id);
    forall i | 0 <= i < |files|
      ensures FileNeedsRepair(d, record.files[i], true) <==>
              At(d.tree, files[i].path) != At(Pack(payload, id), files[i].path)
      ensures files[i].path in Pack(payload, id)
    {
      PackTreeHolds(files, |files|, i);
      assert record.files[i] == RecordFile(files[i]);
    }
    if !NeedsRepair(d, record, true) {
      forall x | x in Pack(payload, id) ensures At(d.tree, x) == At(Pack(payload, id), x) {
        PackTreeHas(files, |files|, x);
        var i :| 0 <= i < |files| && files[i].path == x;
        assert !FileNeedsRepair(d, record.files[i], true);
      }
    }
  }

  lemma {:induction false} ProvidedIs(payload: Payload, assets: seq<Asset>, k: nat, i: nat, x: Path)
    requires ManifestOk(payload, assets) && i < k <= |assets| && x in Pack(payload, assets[i].id)
    ensures At(Provided(payload, assets, k), x) == At(Pack(payload, assets[i].id), x)
  {
    hide Pack, ManifestOk;
    ProvidedOnce(payload, assets, k, x);
    if i < k - 1 {
      ProvidedIs(payload, assets, k - 1, i, x);
    }
  }

  /** Nothing that a sync keeps has drifted. */
  ghost predicate KeptIntact(payload: Payload, w: World, m: Manifest, thorough: bool) {
    forall r :: r in Kept(w, m.assets, thorough, |m.assets|) ==> !NeedsRepair(w.disk, r, true)
  }

  /** The pack of a kept record, where the manifest provides it. */
  lemma KeptProvides(payload: Payload, w: World, m: Manifest, thorough: bool, r: Record, x: Path)
    requires Knows(payload, w) && ManifestOk(payload, m.assets)
    requires r in Kept(w, m.assets, thorough, |m.assets|) && x in Pack(payload, r.id)
    ensures var kept := Kept(w, m.assets, thorough, |m.assets|);
            && x in OwnedUpTo(payload, kept, |kept|)
            && At(Provided(payload, m.assets, |m.assets|), x) == At(Pack(payload, r.id), x)
            && r == RecordFor(payload, r.id) && PackDistinct(payload(r.id))
  {
    var assets := m.assets;
    var kept := Kept(w, assets, thorough, |assets|);
    var pending := AssetIds(Pending(w, assets, thorough, |assets|));
    KeptKnown(payload, w, assets, thorough, |assets|);
    PlanOk(payload, w, assets, thorough, |assets|);
    OwnedUpToHas(payload, kept, |kept|);
    hide Kept, Pending, Pack, Knows, OwnedUpTo, ManifestOk, RecordFor, PackDistinct;
    var i :| 0 <= i < |kept| && kept[i] == r;
    assert (RecordIds(kept) + pending)[i] == r.id;
    var a :| 0 <= a < |assets| && assets[a].id == (RecordIds(kept) + pending)[i];
    ProvidedIs(payload, assets, |assets|, a, x);
    assert x in Pack(payload, kept[i].id);
  }

  /** After a completed sync the client is vanilla overlaid with the manifest's files, whatever
      syncs came before, exactly when nothing that was kept had drifted unnoticed. */
  lemma SyncIsOverlay(payload: Payload, w: World, m: Manifest, thorough: bool, budget: nat, vanilla: Tree)
    requires Knows(payload, w) && Clean(vanilla, w) && ManifestOk(payload, m.assets)
    requires !Sync(w, payload, m, thorough, budget).1.Failed?
    ensures Sync(w, payload, m, thorough, budget).0.disk.tree == Overlay(vanilla, payload, m) <==>
            KeptIntact(payload, w, m, thorough)
  {
    var after := Sync(w, payload, m, thorough, budget).0;
    var kept := Kept(w, m.assets, thorough, |m.assets|);
    hide Sync, Kept, Provided, Knows, ManifestOk, Pack, RecordFor, PackDistinct;
    if KeptIntact(payload, w, m, thorough) {
      forall x: Path ensures At(after.disk.tree, x) == At(Overlay(vanilla, payload, m), x) {
        assert CleanSpot(SpotOf(w.disk, Owned(RecordsOf(w)), x), At(vanilla, x));
        SyncedAt(payload, w, m, thorough, budget, vanilla, x);
        if x in OwnedUpTo(payload, kept, |kept|) {
          OwnedUpToHas(payload, kept, |kept|);
          var i :| 0 <= i < |kept| && x in Pack(payload, kept[i].id);
          KeptProvides(payload, w, m, thorough, kept[i], x);
          IntactIs(payload, w.disk, kept[i].id);
        }
      }
      SameTree(after.disk.tree, Overlay(vanilla, payload, m));
    }
    if after.disk.tree == Overlay(vanilla, payload, m) {
      forall r | r in kept ensures !NeedsRepair(w.disk, r, true) {
        KeptRecord(payload, w, m, thorough, r);
        forall x | x in Pack(payload, r.id) ensures At(w.disk.tree, x) == At(Pack(payload, r.id), x) {
          KeptProvides(payload, w, m, thorough, r, x);
          assert CleanSpot(SpotOf(w.disk, Owned(RecordsOf(w)), x), At(vanilla, x));
          SyncedAt(payload, w, m, thorough, budget, vanilla, x);
        }
        IntactIs(payload, w.disk, r.id);
      }
    }
  }

  lemma KeptRecord(payload: Payload, w: World, m: Manifest, thorough: bool, r: Record)
    requires Knows(payload, w) && ManifestOk(payload, m.assets) && r in Kept(w, m.assets, thorough, |m.assets|)
    ensures r == RecordFor(payload, r.id) && PackDistinct(payload(r.id)) && r in RecordsOf(w)
  {
    var records := RecordsOf(w);
    KeptKnown(payload, w, m.assets, thorough, |m.assets|);
    hide Kept, RecordFor, PackDistinct, ManifestOk;
    var i :| 0 <= i < |records| && records[i] == r;
    assert RecordIds(records)[i] == r.id;
  }

  lemma {:induction false} ThoroughKeepsIntact(payload: Payload, w: World, assets: seq<Asset>, k: nat, r: Record)
    requires Knows(payload, w) && k <= |assets| && r in Kept(w, assets, true, k)
    ensures !NeedsRepair(w.disk, r, true)
  {
    hide Knows, Keeps, Kept, Pending, NeedsRepair, RecordFor;
    if k == 0 {
      NoPlan(w, assets, true);
    } else if r in Kept(w, assets, true, k - 1) {
      ThoroughKeepsIntact(payload, w, assets, k - 1, r);
    } else if Keeps(w, assets[k - 1], true).None? {
      PlanInstalls(w, assets, true, k);
    } else {
      var s := PlanKeeps(payload, w, assets, true, k);
    }
  }

  /** A thorough sync repairs all drift: its result depends on the manifest alone. */
  lemma ThoroughSyncIsOverlay(payload: Payload, w: World, m: Manifest, budget: nat, vanilla: Tree)
    requires Knows(payload, w) && Clean(vanilla, w) && ManifestOk(payload, m.assets)
    requires !Sync(w, payload, m, true, budget).1.Failed?
    ensures Sync(w, payload, m, true, budget).0.disk.tree == Overlay(vanilla, payload, m)
  {
    hide Sync, Kept, Knows, Clean, ManifestOk, NeedsRepair;
    forall r | r in Kept(w, m.assets, true, |m.assets|) ensures !NeedsRepair(w.disk, r, true) {
      ThoroughKeepsIntact(payload, w, m.assets, |m.assets|, r);
    }
    SyncIsOverlay(payload, w, m, true, budget, vanilla);
  }
}
