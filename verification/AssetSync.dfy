/**
 Installing asset packs over a client tree, and undoing it (electron/services/asset-sync.ts).

 A tree and the directory of backups map case-folded relative paths to contents.  The functions
 say what each operation does to them; the class at the end performs the operations step by step.
 */
module AssetSync {
  import opened Options

  type Path = string
  type Content = seq<char>

  /** The SHA-256 digest of a content, taken to be injective. */
  datatype Digest = Sha256(of: Content)

  /** The identity a manifest gives an asset, and a record keeps of it. */
  datatype AssetId = AssetId(name: string, version: string, sha256: Digest)

  /** A manifest entry: a standalone file or a ZIP pack. */
  datatype Asset = Asset(id: AssetId, standalone: bool)

  datatype Manifest = Manifest(packVersion: string, assets: seq<Asset>)

  /** A file that a pack installs. */
  datatype File = File(path: Path, content: Content)

  /** The files that the verified payload of an asset installs, in order. */
  type Payload = AssetId -> seq<File>

  datatype FileRecord = FileRecord(path: Path, sha256: Digest, size: nat)

  datatype Record = Record(id: AssetId, files: seq<FileRecord>)

  datatype State = State(packVersion: string, records: seq<Record>)

  datatype Disk = Disk(tree: map<Path, Content>, backups: map<Path, Content>)

  datatype World = World(disk: Disk, state: Option<State>)

  datatype Outcome = UpToDate(packVersion: string) | Updated(packVersion: string)
                   | OfflineWarning(packVersion: string) | Failed

  function RecordsOf(w: World): seq<Record> {
    if w.state.Some? then w.state.value.records else []
  }

  // ---------- One file ----------

  /** Keep a one-time copy of a client file that no previous sync installed. */
  function BackupOriginal(d: Disk, path: Path, owned: set<Path>): Disk {
    if path in owned || path !in d.tree || path in d.backups then d
    else d.(backups := d.backups[path := d.tree[path]])
  }

  /** Put the original back, or remove a file that the feed added. */
  function RestoreOrRemove(d: Disk, path: Path): Disk {
    if path in d.backups then Disk(d.tree[path := d.backups[path]], d.backups - {path})
    else d.(tree := d.tree - {path})
  }

  /** A path is kept again and again, while its file becomes what `trees` says. */
  function KeptAgain(d: Disk, path: Path, owned: set<Path>, trees: seq<map<Path, Content>>): Disk {
    if trees == [] then BackupOriginal(d, path, owned)
    else
      var n := |trees| - 1;
      BackupOriginal(KeptAgain(d, path, owned, trees[..n]).(tree := trees[n]), path, owned)
  }

  /** Keeping an original touches no client file and no copy made before. Only the first time counts,
      whatever is put in the original's place later, provided that there was a file. */
  lemma {:induction false} OriginalsAreKeptOnce(d: Disk, path: Path, owned: set<Path>,
                                                trees: seq<map<Path, Content>>)
    requires path in d.tree || path in d.backups || path in owned
    ensures var kept := KeptAgain(d, path, owned, trees);
            && kept.tree == (if trees == [] then d.tree else trees[|trees| - 1])
            && kept.backups == if path in owned || path in d.backups then d.backups
                               else d.backups[path := d.tree[path]]
  {
    if trees != [] {
      OriginalsAreKeptOnce(d, path, owned, trees[..|trees| - 1]);
    }
  }

  /** Putting a path back undoes keeping and placing it, whatever has become of the file since. */
  lemma PuttingBackUndoesPlacing(d: Disk, path: Path, owned: set<Path>, later: map<Path, Content>)
    requires path !in owned && path !in d.backups && later - {path} == d.tree - {path}
    ensures RestoreOrRemove(BackupOriginal(d, path, owned).(tree := later), path) == d
  {
    var back := RestoreOrRemove(BackupOriginal(d, path, owned).(tree := later), path);
    assert forall x :: x != path ==> (x in later <==> x in later - {path}) && (x in d.tree <==> x in d.tree - {path});
    forall x | x in back.tree ensures x in d.tree && back.tree[x] == d.tree[x] {
      if x != path {
        assert (later - {path})[x] == (d.tree - {path})[x];
      }
    }
    assert back.tree == d.tree;
    assert back.backups == d.backups;
  }

  /** An installation under way.  `budget` counts the file-system steps that succeed before a
      download, an extraction, a rename or the user stops it. */
  datatype Installing = Installing(disk: Disk, owned: set<Path>, budget: nat, failed: bool)

  function InstallFile(p: Installing, f: File): Installing {
    if p.failed || p.budget == 0 then p.(failed := true)
    else
      var kept := BackupOriginal(p.disk, f.path, p.owned);
      if p.budget == 1 then Installing(kept, p.owned, 0, true)
      else Installing(kept.(tree := kept.tree[f.path := f.content]), p.owned + {f.path}, p.budget - 2, false)
  }

  /** The first `k` files. */
  function InstallFiles(p: Installing, files: seq<File>, k: nat): Installing
    requires k <= |files|
  {
    if k == 0 then p else InstallFile(InstallFiles(p, files, k - 1), files[k - 1])
  }

  /** The first `k` assets. */
  function InstallAssets(p: Installing, payload: Payload, assets: seq<Asset>, k: nat): Installing
    requires k <= |assets|
  {
    if k == 0 then p
    else
      var files := payload(assets[k - 1].id);
      InstallFiles(InstallAssets(p, payload, assets, k - 1), files, |files|)
  }

  function RecordFile(f: File): FileRecord {
    FileRecord(f.path, Sha256(f.content), |f.content|)
  }

  function RecordOf(payload: Payload, a: Asset): Record {
    var files := payload(a.id);
    Record(a.id, seq(|files|, i requires 0 <= i < |files| => RecordFile(files[i])))
  }

  // ---------- What to install and what to drop ----------

  /** A recorded file is gone, has another size or, when asked to look closely, another digest. */
  predicate FileNeedsRepair(d: Disk, f: FileRecord, thorough: bool) {
    || f.path !in d.tree
    || |d.tree[f.path]| != f.size
    || (thorough && Sha256(d.tree[f.path]) != f.sha256)
  }

  predicate NeedsRepair(d: Disk, record: Record, thorough: bool) {
    exists i :: 0 <= i < |record.files| && FileNeedsRepair(d, record.files[i], thorough)
  }

  /** The last of the first `k` records that carries this name. */
  function Previous(records: seq<Record>, name: string, k: nat): Option<Record>
    requires k <= |records|
  {
    if k == 0 then None
    else if records[k - 1].id.name == name then Some(records[k - 1])
    else Previous(records, name, k - 1)
  }

  /** The asset's record, when the asset need not be installed again. */
  function Keeps(w: World, a: Asset, thorough: bool): Option<Record> {
    var previous := Previous(RecordsOf(w), a.id.name, |RecordsOf(w)|);
    if previous.Some? && previous.value.id == a.id &&
       !NeedsRepair(w.disk, previous.value, thorough || a.standalone) then previous
    else None
  }

  function Pending(w: World, assets: seq<Asset>, thorough: bool, k: nat): seq<Asset>
    requires k <= |assets|
  {
    if k == 0 then []
    else Pending(w, assets, thorough, k - 1) +
         if Keeps(w, assets[k - 1], thorough).None? then [assets[k - 1]] else []
  }

  function Kept(w: World, assets: seq<Asset>, thorough: bool, k: nat): seq<Record>
    requires k <= |assets|
  {
    if k == 0 then []
    else Kept(w, assets, thorough, k - 1) +
         var keeps := Keeps(w, assets[k - 1], thorough);
         if keeps.Some? then [keeps.value] else []
  }

  function NewRecords(payload: Payload, assets: seq<Asset>, k: nat): seq<Record>
    requires k <= |assets|
  {
    if k == 0 then [] else NewRecords(payload, assets, k - 1) + [RecordOf(payload, assets[k - 1])]
  }

  /** The paths of the first `k` files of a record, and of the first `k` records, in order. */
  function FilePaths(files: seq<FileRecord>, k: nat): seq<Path>
    requires k <= |files|
  {
    if k == 0 then [] else FilePaths(files, k - 1) + [files[k - 1].path]
  }

  function RecordPaths(records: seq<Record>, k: nat): seq<Path>
    requires k <= |records|
  {
    if k == 0 then []
    else RecordPaths(records, k - 1) + FilePaths(records[k - 1].files, |records[k - 1].files|)
  }

  function Owned(records: seq<Record>): set<Path> {
    set path | path in RecordPaths(records, |records|)
  }

  /** Restore or remove those of the first `k` paths that nothing provides anymore. */
  function Cleanup(d: Disk, paths: seq<Path>, desired: set<Path>, k: nat): Disk
    requires k <= |paths|
  {
    if k == 0 then d
    else
      var before := Cleanup(d, paths, desired, k - 1);
      if paths[k - 1] in desired then before else RestoreOrRemove(before, paths[k - 1])
  }

  // ---------- The operations ----------

  /** Bring the installed assets in line with a manifest; `budget` steps succeed. */
  function Sync(w: World, payload: Payload, m: Manifest, thorough: bool, budget: nat): (World, Outcome) {
    var pending := Pending(w, m.assets, thorough, |m.assets|);
    var kept := Kept(w, m.assets, thorough, |m.assets|);
    var was := RecordsOf(w);
    var done := InstallAssets(Installing(w.disk, Owned(was), budget, false), payload, pending, |pending|);
    if done.failed then (World(done.disk, w.state), Failed)
    else
      var records := kept + NewRecords(payload, pending, |pending|);
      var paths := RecordPaths(was, |was|);
      var disk := Cleanup(done.disk, paths, Owned(records), |paths|);
      var changed := pending != [] || w.state.None? || w.state.value.packVersion != m.packVersion ||
                     |was| != |records|;
      (World(disk, Some(State(m.packVersion, records))),
       if changed then Updated(m.packVersion) else UpToDate(m.packVersion))
  }

  /** The feed could not be fetched. */
  function SyncOffline(w: World): Outcome {
    if w.state.Some? then OfflineWarning(w.state.value.packVersion) else Failed
  }

  /** Return the client to its state before any sync. */
  function Restore(w: World): World {
    var paths := RecordPaths(RecordsOf(w), |RecordsOf(w)|);
    World(Disk(Cleanup(w.disk, paths, {}, |paths|).tree, map[]), None)
  }

  // ---------- The operations, step by step ----------

  class Service {
    var tree: map<Path, Content>
    var backups: map<Path, Content>
    var state: Option<State>

    function Abstract(): World
      reads this
    {
      World(Disk(tree, backups), state)
    }

    constructor (client: map<Path, Content>)
      ensures Abstract() == World(Disk(client, map[]), None)
    {
      tree, backups, state := client, map[], None;
    }

    method KeepOriginal(path: Path, owned: set<Path>)
      modifies this`backups
      ensures Abstract().disk == BackupOriginal(old(Abstract().disk), path, owned)
    {
      if path in owned { return; }
      if path !in tree { return; }
      if path in backups { return; }
      backups := backups[path := tree[path]];
    }

    method PutBack(path: Path)
      modifies this`tree, this`backups
      ensures Abstract().disk == RestoreOrRemove(old(Abstract().disk), path)
    {
      if path in backups {
        tree := tree[path := backups[path]];
        backups := backups - {path};
      } else {
        tree := tree - {path};
      }
    }

    method RecordNeedsRepair(record: Record, thorough: bool) returns (repair: bool)
      ensures repair == NeedsRepair(Abstract().disk, record, thorough)
    {
      for i := 0 to |record.files|
        invariant forall k :: 0 <= k < i ==> !FileNeedsRepair(Abstract().disk, record.files[k], thorough)
      {
        var file := record.files[i];
        if file.path !in tree || |tree[file.path]| != file.size { return true; }
        if thorough && Sha256(tree[file.path]) != file.sha256 { return true; }
      }
      repair := false;
    }

    /** The loop over the files of one pack. */
    method InstallAsset(files: seq<File>, owned: set<Path>, budget: nat)
      returns (owned': set<Path>, budget': nat, failed: bool)
      modifies this`tree, this`backups
      ensures Installing(Abstract().disk, owned', budget', failed) ==
              InstallFiles(Installing(old(Abstract().disk), owned, budget, false), files, |files|)
    {
      owned', budget', failed := owned, budget, false;
      ghost var start := Installing(Abstract().disk, owned, budget, false);
      for i := 0 to |files|
        invariant !failed
        invariant Installing(Abstract().disk, owned', budget', false) == InstallFiles(start, files, i)
      {
        var file := files[i];
        if budget' == 0 {
          FailureLasts(start, files, i + 1, |files|);
          return owned', budget', true;
        }
        KeepOriginal(file.path, owned');
        if budget' == 1 {
          FailureLasts(start, files, i + 1, |files|);
          return owned', 0, true;
        }
        tree := tree[file.path := file.content];
        owned', budget' := owned' + {file.path}, budget' - 2;
      }
    }

    /** The loop over the manifest: which assets to install, and which records stay. */
    method Plan(assets: seq<Asset>, thorough: bool) returns (pending: seq<Asset>, kept: seq<Record>)
      ensures pending == Pending(Abstract(), assets, thorough, |assets|)
      ensures kept == Kept(Abstract(), assets, thorough, |assets|)
    {
      var previousRecords := RecordsOf(Abstract());
      pending, kept := [], [];
      for i := 0 to |assets|
        invariant pending == Pending(Abstract(), assets, thorough, i)
        invariant kept == Kept(Abstract(), assets, thorough, i)
      {
        var asset := assets[i];
        var record := Previous(previousRecords, asset.id.name, |previousRecords|);
        if record.None? || record.value.id != asset.id {
          pending := pending + [asset];
        } else {
          var repair := RecordNeedsRepair(record.value, thorough || asset.standalone);
          if repair {
            pending := pending + [asset];
          } else {
            kept := kept + [record.value];
          }
        }
      }
    }

    /** The loop over the pending assets. */
    method InstallPending(payload: Payload, pending: seq<Asset>, owned: set<Path>, budget: nat)
      returns (records: seq<Record>, failed: bool)
      modifies this`tree, this`backups
      ensures var done := InstallAssets(Installing(old(Abstract().disk), owned, budget, false), payload,
                                        pending, |pending|);
              Abstract().disk == done.disk && failed == done.failed
      ensures !failed ==> records == NewRecords(payload, pending, |pending|)
    {
      ghost var start := Installing(Abstract().disk, owned, budget, false);
      var ownedFiles, steps := owned, budget;
      records, failed := [], false;
      for i := 0 to |pending|
        invariant !failed
        invariant Installing(Abstract().disk, ownedFiles, steps, false) == InstallAssets(start, payload, pending, i)
        invariant records == NewRecords(payload, pending, i)
      {
        ownedFiles, steps, failed := InstallAsset(payload(pending[i].id), ownedFiles, steps);
        if failed {
          FailureStops(start, payload, pending, i + 1, |pending|);
          return;
        }
        records := records + [RecordOf(payload, pending[i])];
      }
    }

    method RunSync(payload: Payload, m: Manifest, thorough: bool, budget: nat) returns (outcome: Outcome)
      modifies this
      ensures (Abstract(), outcome) == Sync(old(Abstract()), payload, m, thorough, budget)
    {
      var previousRecords := RecordsOf(Abstract());
      var pending, kept := Plan(m.assets, thorough);
      var records, failed := InstallPending(payload, pending, Owned(previousRecords), budget);
      if failed {
        return Failed;
      }
      var newRecords := kept + records;
      DropUnprovided(RecordPaths(previousRecords, |previousRecords|), Owned(newRecords));
      var changed := pending != [] || state.None? || state.value.packVersion != m.packVersion ||
                     |state.value.records| != |newRecords|;
      state := Some(State(m.packVersion, newRecords));
      outcome := if changed then Updated(m.packVersion) else UpToDate(m.packVersion);
    }

    /** The loop that restores what nothing provides anymore. */
    method DropUnprovided(paths: seq<Path>, desired: set<Path>)
      modifies this`tree, this`backups
      ensures Abstract().disk == Cleanup(old(Abstract().disk), paths, desired, |paths|)
    {
      for i := 0 to |paths|
        invariant Abstract().disk == Cleanup(old(Abstract().disk), paths, desired, i)
      {
        if paths[i] !in desired {
          PutBack(paths[i]);
        }
      }
    }

    method RunRestore()
      modifies this
      ensures Abstract() == Restore(old(Abstract()))
    {
      var records := if state.Some? then state.value.records else [];
      DropUnprovided(RecordPaths(records, |records|), {});
      state := None;
      backups := map[];
    }
  }

  lemma {:induction false} FailureLasts(p: Installing, files: seq<File>, k: nat, n: nat)
    requires k <= n <= |files| && InstallFiles(p, files, k).failed
    ensures InstallFiles(p, files, n) == InstallFiles(p, files, k)
  {
    if k < n {
      FailureLasts(p, files, k, n - 1);
    }
  }

  lemma {:induction false} FailureStops(p: Installing, payload: Payload, assets: seq<Asset>, k: nat, n: nat)
    requires k <= n <= |assets| && InstallAssets(p, payload, assets, k).failed
    ensures InstallAssets(p, payload, assets, n) == InstallAssets(p, payload, assets, k)
  {
    if k < n {
      FailureStops(p, payload, assets, k, n - 1);
      var files := payload(assets[n - 1].id);
      FailureLasts(InstallAssets(p, payload, assets, n - 1), files, 0, |files|);
    }
  }
}
