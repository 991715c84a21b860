/**
 Measuring an installation against its manifest (electron/services/integrity-attestation.ts), and
 the expected files it is measured against (electron/services/base-manifest.ts).

 Files are found by folded path.  `hash` digests a content to 64 hexadecimal digits.
 */
module Measurement {
  import opened Basics
  import opened Options
  import opened ManifestRoot

  type Content = seq<char>

  /** A regular file: its size and modification time, the stamp, and what is in it. */
  datatype FileInfo = FileInfo(size: int, mtime: int, content: Content)

  type Files = map<string, FileInfo>

  datatype Kind = Missing | Mismatch | Unexpected

  datatype Deviation = Deviation(path: string, kind: Kind, observed: Option<string>)

  datatype CacheEntry = CacheEntry(size: int, mtime: int, sha256: string)

  /** The persisted hash cache, in insertion order. */
  type CacheFile = seq<(string, CacheEntry)>

  datatype Outcome = Measured(root: Digest, fileCount: nat, totalBytes: int, deviations: seq<Deviation>)
                   | InvalidManifest | NoRoot(fault: Fault)

  const MAX_CACHE_ENTRIES: nat := 100000
  const MAX_REPORTED_DEVIATIONS: nat := 50

  /** How paths are folded and contents digested. */
  datatype Setting = Setting(fold: string -> string, hash: Content -> string)

  // ---------- The cache ----------

  /** The first `k` well-formed entries; later ones win. */
  function Load(file: CacheFile, k: nat): map<string, CacheEntry>
    requires k <= |file|
  {
    if k == 0 then map[]
    else
      var (key, entry) := file[k - 1];
      if IsSha256Hex(entry.sha256) then Load(file, k - 1)[key := entry] else Load(file, k - 1)
  }

  /** Setting a key keeps its place if it has one. */
  function Set(file: CacheFile, key: string, entry: CacheEntry): CacheFile {
    if file == [] then [(key, entry)]
    else if file[|file| - 1].0 == key then file[..|file| - 1] + [(key, entry)]
    else if key in KeysOf(file) then Set(file[..|file| - 1], key, entry) + [file[|file| - 1]]
    else file + [(key, entry)]
  }

  function KeysOf(file: CacheFile): set<string> {
    set i | 0 <= i < |file| :: file[i].0
  }

  predicate StampIs(info: FileInfo, entry: CacheEntry) {
    entry.size == info.size && entry.mtime == info.mtime
  }

  /** The cached digest of a file with an unchanged stamp, or a fresh one. */
  function DigestOf(s: Setting, cache: map<string, CacheEntry>, files: Files, key: string): string
    requires key in files
  {
    if key in cache && StampIs(files[key], cache[key]) then cache[key].sha256 else s.hash(files[key].content)
  }

  // ---------- A measurement ----------

  datatype Progress = Progress(observed: seq<Entry>, deviations: seq<Deviation>, nextCache: CacheFile)

  function ObserveExpected(s: Setting, cache: map<string, CacheEntry>, files: Files, p: Progress, e: Entry): Progress {
    var key := s.fold(e.path);
    if key !in files then p.(deviations := p.deviations + [Deviation(e.path, Missing, None)])
    else
      var digest := DigestOf(s, cache, files, key);
      Progress(p.observed + [Entry(e.path, files[key].size, digest)],
               if digest != e.sha256 then p.deviations + [Deviation(e.path, Mismatch, Some(digest))] else p.deviations,
               Set(p.nextCache, key, CacheEntry(files[key].size, files[key].mtime, digest)))
  }

  /** The first `k` expected files. */
  function Expected(s: Setting, cache: map<string, CacheEntry>, files: Files, expected: seq<Entry>, k: nat): Progress
    requires k <= |expected|
  {
    if k == 0 then Progress([], [], [])
    else ObserveExpected(s, cache, files, Expected(s, cache, files, expected, k - 1), expected[k - 1])
  }

  function ObserveUnexpected(s: Setting, files: Files, p: Progress, path: string): Progress {
    var key := s.fold(path);
    if !IsManifestPath(path) then p
    else if key !in files then p.(deviations := p.deviations + [Deviation(path, Unexpected, None)])
    else
      var digest := s.hash(files[key].content);
      p.(observed := p.observed + [Entry(path, files[key].size, digest)],
         deviations := p.deviations + [Deviation(path, Unexpected, Some(digest))])
  }

  /** Then the first `k` unexpected ones. */
  function Extra(s: Setting, files: Files, p: Progress, unexpected: seq<string>, k: nat): Progress
    requires k <= |unexpected|
  {
    if k == 0 then p else ObserveUnexpected(s, files, Extra(s, files, p, unexpected, k - 1), unexpected[k - 1])
  }

  function TotalBytes(observed: seq<Entry>, k: nat): int
    requires k <= |observed|
  {
    if k == 0 then 0 else TotalBytes(observed, k - 1) + observed[k - 1].size
  }

  predicate AllPathsOk(expected: seq<Entry>) {
    forall i :: 0 <= i < |expected| ==> IsManifestPath(expected[i].path)
  }

  function Finish(s: Setting, p: Progress): Outcome {
    var root := Compute(s.fold, p.observed);
    if root.Failure? then NoRoot(root.fault)
    else Measured(root.digest, |p.observed|, TotalBytes(p.observed, |p.observed|),
                  Report(p.deviations))
  }

  function Report(deviations: seq<Deviation>): seq<Deviation> {
    deviations[..Min(|deviations|, MAX_REPORTED_DEVIATIONS)]
  }

  /** A measurement with a given cache, and the cache it would save. */
  function Measure(s: Setting, cache: map<string, CacheEntry>, files: Files, expected: seq<Entry>,
                   unexpected: seq<string>): (Outcome, Option<CacheFile>)
  {
    if !AllPathsOk(expected) then (InvalidManifest, None)
    else
      var p := Extra(s, files, Expected(s, cache, files, expected, |expected|), unexpected, |unexpected|);
      (Finish(s, p), Some(p.nextCache[..Min(|p.nextCache|, MAX_CACHE_ENTRIES)]))
  }

  /** The measurement that digests every file. */
  function Direct(s: Setting, files: Files, expected: seq<Entry>, unexpected: seq<string>): Outcome {
    Measure(s, map[], files, expected, unexpected).0
  }

  // ---------- The measurement in steps ----------

  /** What became of the attempt to persist the cache. */
  datatype Saving = Written | Untouched | Garbled

  class Service {
    var cacheFile: CacheFile
    const setting: Setting

    constructor (setting: Setting)
      ensures this.setting == setting && cacheFile == []
    {
      this.setting, cacheFile := setting, [];
    }

    method LoadCache() returns (cache: map<string, CacheEntry>)
      ensures cache == Load(cacheFile, Min(|cacheFile|, MAX_CACHE_ENTRIES))
    {
      cache := map[];
      for i := 0 to Min(|cacheFile|, MAX_CACHE_ENTRIES)
        invariant cache == Load(cacheFile, i)
      {
        var (key, entry) := cacheFile[i];
        if IsSha256Hex(entry.sha256) {
          cache := cache[key := entry];
        }
      }
    }

    method MeasureInstallation(files: Files, expected: seq<Entry>, unexpected: seq<string>, saving: Saving)
      returns (outcome: Outcome)
      modifies this`cacheFile
      ensures var measured := Measure(setting, Load(old(cacheFile), Min(|old(cacheFile)|, MAX_CACHE_ENTRIES)),
                                      files, expected, unexpected);
              outcome == measured.0 && cacheFile == Persisted(old(cacheFile), measured.1, saving)
    {
      var cache := LoadCache();
      var observed: seq<Entry>, deviations: seq<Deviation>, nextCache: CacheFile := [], [], [];
      for i := 0 to |expected|
        invariant Progress(observed, deviations, nextCache) == Expected(setting, cache, files, expected, i)
        invariant forall k :: 0 <= k < i ==> IsManifestPath(expected[k].path)
      {
        var entry := expected[i];
        if !IsManifestPath(entry.path) {
          return InvalidManifest;
        }
        var key := setting.fold(entry.path);
        if key !in files {
          deviations := deviations + [Deviation(entry.path, Missing, None)];
        } else {
          var digest := DigestOf(setting, cache, files, key);
          nextCache := Set(nextCache, key, CacheEntry(files[key].size, files[key].mtime, digest));
          observed := observed + [Entry(entry.path, files[key].size, digest)];
          if digest != entry.sha256 {
            deviations := deviations + [Deviation(entry.path, Mismatch, Some(digest))];
          }
        }
      }
      ghost var start := Progress(observed, deviations, nextCache);
      for i := 0 to |unexpected|
        invariant Progress(observed, deviations, nextCache) == Extra(setting, files, start, unexpected, i)
      {
        var path := unexpected[i];
        if IsManifestPath(path) {
          var key := setting.fold(path);
          if key in files {
            var digest := setting.hash(files[key].content);
            deviations := deviations + [Deviation(path, Unexpected, Some(digest))];
            observed := observed + [Entry(path, files[key].size, digest)];
          } else {
            deviations := deviations + [Deviation(path, Unexpected, None)];
          }
        }
      }
      cacheFile := Persisted(cacheFile, Some(nextCache[..Min(|nextCache|, MAX_CACHE_ENTRIES)]), saving);
      var root := ComputeManifestRoot(setting.fold, observed);
      match root
      case Failure(fault) => outcome := NoRoot(fault);
      case Root(digest) =>
        outcome := Measured(digest, |observed|, TotalBytes(observed, |observed|),
                            deviations[..Min(|deviations|, MAX_REPORTED_DEVIATIONS)]);
    }
  }

  /** The cache file after an attempt to save; a file that does not parse counts as empty. */
  function Persisted(file: CacheFile, next: Option<CacheFile>, saving: Saving): CacheFile {
    if next.None? || saving.Untouched? then file
    else if saving.Garbled? then []
    else next.value
  }

  // ---------- The cache agrees with direct hashing ----------

  /** The entry is the stamp and the digest of a file as it was then. */
  predicate Witnessed(s: Setting, files: Files, entry: (string, CacheEntry)) {
    entry.0 in files && StampIs(files[entry.0], entry.1) && entry.1.sha256 == s.hash(files[entry.0].content)
  }

  /** Where a stamp is still right, so is the digest. */
  ghost predicate Sound(s: Setting, cache: map<string, CacheEntry>, files: Files) {
    forall key :: key in cache && key in files && StampIs(files[key], cache[key]) ==>
                    cache[key].sha256 == s.hash(files[key].content)
  }

  lemma {:induction false} ExpectedAgrees(s: Setting, cache: map<string, CacheEntry>, files: Files,
                                          expected: seq<Entry>, k: nat)
    requires Sound(s, cache, files) && k <= |expected|
    ensures Expected(s, cache, files, expected, k) == Expected(s, map[], files, expected, k)
  {
    if k > 0 {
      ExpectedAgrees(s, cache, files, expected, k - 1);
    }
  }

  lemma {:induction false} SetKeeps(file: CacheFile, key: string, entry: CacheEntry)
    ensures forall x :: x in Set(file, key, entry) ==> x in file || x == (key, entry)
  {
    if file != [] && file[|file| - 1].0 != key && key in KeysOf(file) {
      SetKeeps(file[..|file| - 1], key, entry);
    }
  }

  /** What a sound measurement remembers is witnessed by the files it measured. */
  lemma {:induction false} NextWitnessed(s: Setting, cache: map<string, CacheEntry>, files: Files,
                                         expected: seq<Entry>, k: nat)
    requires Sound(s, cache, files) && k <= |expected|
    ensures forall x :: x in Expected(s, cache, files, expected, k).nextCache ==> Witnessed(s, files, x)
  {
    if k > 0 {
      NextWitnessed(s, cache, files, expected, k - 1);
      var p := Expected(s, cache, files, expected, k - 1);
      var key := s.fold(expected[k - 1].path);
      if key in files {
        SetKeeps(p.nextCache, key, CacheEntry(files[key].size, files[key].mtime, DigestOf(s, cache, files, key)));
      }
      hide Set;
    }
  }

  lemma {:induction false} ExtraKeepsCache(s: Setting, files: Files, p: Progress, unexpected: seq<string>, k: nat)
    requires k <= |unexpected|
    ensures Extra(s, files, p, unexpected, k).nextCache == p.nextCache
  {
    if k > 0 {
      ExtraKeepsCache(s, files, p, unexpected, k - 1);
      hide IsManifestPath;
    }
  }

  lemma {:induction false} LoadedFrom(file: CacheFile, k: nat, key: string)
    requires k <= |file| && key in Load(file, k)
    ensures (key, Load(file, k)[key]) in file
  {
    if !(file[k - 1].0 == key && IsSha256Hex(file[k - 1].1.sha256)) {
      hide IsSha256Hex;
      LoadedFrom(file, k - 1, key);
    }
  }

  // ---------- Histories of measurements ----------

  /** One launch: the files as they are, what is expected of them, and how saving the cache goes. */
  datatype Visit = Visit(files: Files, expected: seq<Entry>, unexpected: seq<string>, saving: Saving)

  function Loaded(file: CacheFile): map<string, CacheEntry> {
    Load(file, Min(|file|, MAX_CACHE_ENTRIES))
  }

  /** The cache file after the first `k` launches. */
  function CacheAfter(s: Setting, visits: seq<Visit>, k: nat): CacheFile
    requires k <= |visits|
  {
    if k == 0 then []
    else
      var file, v := CacheAfter(s, visits, k - 1), visits[k - 1];
      Persisted(file, Measure(s, Loaded(file), v.files, v.expected, v.unexpected).1, v.saving)
  }

  /** Over the whole history, a file whose stamp is unchanged has unchanged content. */
  ghost predicate StampsFaithful(visits: seq<Visit>) {
    forall i, j, key :: 0 <= i < |visits| && 0 <= j < |visits| && key in visits[i].files && key in visits[j].files ==>
      visits[i].files[key].size == visits[j].files[key].size &&
      visits[i].files[key].mtime == visits[j].files[key].mtime ==>
        visits[i].files[key].content == visits[j].files[key].content
  }

  /** Every remembered entry was witnessed by one of the first `k` launches. */
  ghost predicate Remembers(s: Setting, visits: seq<Visit>, k: nat, file: CacheFile)
    requires k <= |visits|
  {
    forall x :: x in file ==> exists j :: 0 <= j < k && Witnessed(s, visits[j].files, x)
  }

  lemma RememberedIsSound(s: Setting, visits: seq<Visit>, k: nat, file: CacheFile)
    requires StampsFaithful(visits) && k < |visits| && Remembers(s, visits, k, file)
    ensures Sound(s, Loaded(file), visits[k].files)
  {
    var cache, files := Loaded(file), visits[k].files;
    forall key | key in cache && key in files && StampIs(files[key], cache[key])
      ensures cache[key].sha256 == s.hash(files[key].content)
    {
      LoadedFrom(file, Min(|file|, MAX_CACHE_ENTRIES), key);
      var j :| 0 <= j < k && Witnessed(s, visits[j].files, (key, cache[key]));
      assert visits[j].files[key].content == visits[k].files[key].content;
    }
  }

  lemma {:induction false} CacheRemembers(s: Setting, visits: seq<Visit>, k: nat)
    requires StampsFaithful(visits) && k <= |visits|
    ensures Remembers(s, visits, k, CacheAfter(s, visits, k))
  {
    if k > 0 {
      CacheRemembers(s, visits, k - 1);
      var file, v := CacheAfter(s, visits, k - 1), visits[k - 1];
      RememberedIsSound(s, visits, k - 1, file);
      MeasureWitnessed(s, Loaded(file), v.files, v.expected, v.unexpected);
      PersistedRemembers(s, visits, k, file, Measure(s, Loaded(file), v.files, v.expected, v.unexpected).1, v.saving);
      hide StampsFaithful, Sound, Remembers, Measure;
    }
  }

  /** What a sound measurement would save is witnessed by the files it measured. */
  lemma MeasureWitnessed(s: Setting, cache: map<string, CacheEntry>, files: Files, expected: seq<Entry>,
                         unexpected: seq<string>)
    requires Sound(s, cache, files)
    ensures var next := Measure(s, cache, files, expected, unexpected).1;
            next.Some? ==> forall x :: x in next.value ==> Witnessed(s, files, x)
  {
    NextWitnessed(s, cache, files, expected, |expected|);
    var p := Expected(s, cache, files, expected, |expected|);
    ExtraKeepsCache(s, files, p, unexpected, |unexpected|);
    hide Expected, Extra, Witnessed, Finish, AllPathsOk;
  }

  lemma PersistedRemembers(s: Setting, visits: seq<Visit>, k: nat, file: CacheFile, next: Option<CacheFile>,
                           saving: Saving)
    requires 0 < k <= |visits| && Remembers(s, visits, k - 1, file)
    requires next.Some? ==> forall x :: x in next.value ==> Witnessed(s, visits[k - 1].files, x)
    ensures Remembers(s, visits, k, Persisted(file, next, saving))
  {
    hide Witnessed;
  }

  /** Whatever was changed, removed, restored or lost in between, each launch of a history whose
      stamps are faithful measures what it would measure without any cache. */
  lemma CacheAgreesWithHashing(s: Setting, visits: seq<Visit>, k: nat)
    requires StampsFaithful(visits) && k < |visits|
    ensures var v := visits[k];
            Measure(s, Loaded(CacheAfter(s, visits, k)), v.files, v.expected, v.unexpected).0 ==
            Direct(s, v.files, v.expected, v.unexpected)
  {
    var v, file := visits[k], CacheAfter(s, visits, k);
    CacheRemembers(s, visits, k);
    RememberedIsSound(s, visits, k, file);
    ExpectedAgrees(s, Loaded(file), v.files, v.expected, |v.expected|);
    hide Sound, Remembers, StampsFaithful;
  }

  // ---------- The verdict ----------

  ghost predicate SettingOk(s: Setting) {
    forall c: Content :: IsSha256Hex(s.hash(c))
  }

  ghost predicate FilesOk(files: Files) {
    forall key :: key in files ==> 0 <= files[key].size <= MAX_SAFE_INTEGER
  }

  /** The undeclared files are undeclared, and listed once. */
  ghost predicate UnexpectedOk(s: Setting, expected: seq<Entry>, unexpected: seq<string>) {
    && (forall i, j :: 0 <= i < j < |unexpected| ==> s.fold(unexpected[i]) != s.fold(unexpected[j]))
    && (forall i, j :: 0 <= i < |expected| && 0 <= j < |unexpected| ==>
          s.fold(expected[i].path) != s.fold(unexpected[j]))
  }

  /** The file is there with the expected digest. */
  predicate Conforms(s: Setting, files: Files, e: Entry) {
    var key := s.fold(e.path);
    key in files && s.hash(files[key].content) == e.sha256
  }

  /** An undeclared file that the root takes in. */
  predicate Intrudes(s: Setting, files: Files, path: string) {
    IsManifestPath(path) && s.fold(path) in files
  }

  /** What an observation of a path would be. */
  function Seen(s: Setting, files: Files, path: string): Entry
    requires s.fold(path) in files
  {
    Entry(path, files[s.fold(path)].size, s.hash(files[s.fold(path)].content))
  }

  /** The observed entries after `k` expected files and `n` unexpected ones, in order. */
  function Observed(s: Setting, files: Files, expected: seq<Entry>, k: nat, unexpected: seq<string>, n: nat): seq<Entry>
    requires k <= |expected| && n <= |unexpected|
  {
    if n > 0 then
      Observed(s, files, expected, k, unexpected, n - 1) +
      if Intrudes(s, files, unexpected[n - 1]) then [Seen(s, files, unexpected[n - 1])] else []
    else if k > 0 then
      Observed(s, files, expected, k - 1, unexpected, 0) +
      if s.fold(expected[k - 1].path) in files then [Seen(s, files, expected[k - 1].path)] else []
    else []
  }

  lemma {:induction false} ExpectedObserves(s: Setting, files: Files, expected: seq<Entry>, k: nat,
                                            unexpected: seq<string>)
    requires k <= |expected|
    ensures Expected(s, map[], files, expected, k).observed == Observed(s, files, expected, k, unexpected, 0)
  {
    if k > 0 {
      ExpectedObserves(s, files, expected, k - 1, unexpected);
    }
  }

  lemma {:induction false} ExtraObserves(s: Setting, files: Files, expected: seq<Entry>, unexpected: seq<string>,
                                         n: nat)
    requires n <= |unexpected|
    ensures Extra(s, files, Expected(s, map[], files, expected, |expected|), unexpected, n).observed ==
            Observed(s, files, expected, |expected|, unexpected, n)
  {
    hide IsManifestPath;
    if n == 0 {
      ExpectedObserves(s, files, expected, |expected|, unexpected);
    } else {
      ExtraObserves(s, files, expected, unexpected, n - 1);
    }
  }

  /** Everything observed is one of the listed paths as it is on disk, and all of those are observed. */
  lemma {:induction false} ObservedIs(s: Setting, files: Files, expected: seq<Entry>, k: nat, unexpected: seq<string>,
                                      n: nat)
    requires k <= |expected| && n <= |unexpected|
    ensures forall x :: x in Observed(s, files, expected, k, unexpected, n) <==>
              || (exists i :: 0 <= i < k && s.fold(expected[i].path) in files && x == Seen(s, files, expected[i].path))
              || (exists j :: 0 <= j < n && Intrudes(s, files, unexpected[j]) && x == Seen(s, files, unexpected[j]))
  {
    hide Intrudes, Seen;
    if n > 0 {
      ObservedIs(s, files, expected, k, unexpected, n - 1);
    } else if k > 0 {
      ObservedIs(s, files, expected, k - 1, unexpected, 0);
    }
  }

  /** The keys of the first `k` expected files and `n` unexpected ones. */
  ghost function ListedKeys(s: Setting, expected: seq<Entry>, k: nat, unexpected: seq<string>, n: nat): set<string>
    requires k <= |expected| && n <= |unexpected|
  {
    (set i | 0 <= i < k :: s.fold(expected[i].path)) + (set j | 0 <= j < n :: s.fold(unexpected[j]))
  }

  lemma SeenOk(s: Setting, files: Files, path: string)
    requires SettingOk(s) && FilesOk(files) && IsManifestPath(path) && s.fold(path) in files
    ensures EntryOk(Seen(s, files, path)) && Seen(s, files, path).path == path
  {
    hide IsManifestPath, IsSha256Hex;
    assert IsSha256Hex(s.hash(files[s.fold(path)].content));
  }

  lemma AppendValid(fold: string -> string, entries: seq<Entry>, e: Entry)
    requires Valid(fold, entries) && EntryOk(e)
    requires forall x :: x in entries ==> fold(x.path) != fold(e.path)
    ensures Valid(fold, entries + [e])
  {
    hide EntryOk;
    forall i | 0 <= i < |entries| ensures fold(entries[i].path) != fold(e.path) {
      assert entries[i] in entries;
    }
  }

  /** What is observed always has a root. */
  lemma {:induction false} ObservedValid(s: Setting, files: Files, expected: seq<Entry>, k: nat,
                                         unexpected: seq<string>,
                                         n: nat)
    requires SettingOk(s) && FilesOk(files) && Valid(s.fold, expected) && UnexpectedOk(s, expected, unexpected)
    requires k <= |expected| && n <= |unexpected|
    ensures var observed := Observed(s, files, expected, k, unexpected, n);
            && Valid(s.fold, observed)
            && forall x :: x in observed ==> s.fold(x.path) in ListedKeys(s, expected, k, unexpected, n)
  {
    hide SettingOk, FilesOk, Seen, EntryOk, IsManifestPath;
    if n > 0 {
      var path := unexpected[n - 1];
      ObservedValid(s, files, expected, k, unexpected, n - 1);
      UnlistedExtra(s, expected, k, unexpected, n);
      if Intrudes(s, files, path) {
        SeenOk(s, files, path);
        AppendValid(s.fold, Observed(s, files, expected, k, unexpected, n - 1), Seen(s, files, path));
      }
      hide Valid, UnexpectedOk;
    } else if k > 0 {
      var path := expected[k - 1].path;
      ObservedValid(s, files, expected, k - 1, unexpected, 0);
      UnlistedExpected(s, expected, k, unexpected);
      if s.fold(path) in files {
        assert IsManifestPath(path) by { ExpectedPathOk(s, expected, k - 1); }
        SeenOk(s, files, path);
        AppendValid(s.fold, Observed(s, files, expected, k - 1, unexpected, 0), Seen(s, files, path));
      }
      hide Valid, UnexpectedOk;
    }
  }

  lemma ExpectedPathOk(s: Setting, expected: seq<Entry>, i: nat)
    requires Valid(s.fold, expected) && i < |expected|
    ensures IsManifestPath(expected[i].path)
  {
    assert EntryOk(expected[i]);
    hide IsManifestPath;
  }

  lemma UnlistedExtra(s: Setting, expected: seq<Entry>, k: nat, unexpected: seq<string>, n: nat)
    requires UnexpectedOk(s, expected, unexpected) && k <= |expected| && 0 < n <= |unexpected|
    ensures var key := s.fold(unexpected[n - 1]);
            && key !in ListedKeys(s, expected, k, unexpected, n - 1)
            && ListedKeys(s, expected, k, unexpected, n) == ListedKeys(s, expected, k, unexpected, n - 1) + {key}
  {
  }

  lemma UnlistedExpected(s: Setting, expected: seq<Entry>, k: nat, unexpected: seq<string>)
    requires Valid(s.fold, expected) && 0 < k <= |expected|
    ensures var key := s.fold(expected[k - 1].path);
            && key !in ListedKeys(s, expected, k - 1, unexpected, 0)
            && ListedKeys(s, expected, k, unexpected, 0) == ListedKeys(s, expected, k - 1, unexpected, 0) + {key}
  {
    hide EntryOk;
  }

  /** Every expected file conforms, and no undeclared file is taken in. */
  ghost predicate Pristine(s: Setting, files: Files, expected: seq<Entry>, unexpected: seq<string>) {
    && (forall i :: 0 <= i < |expected| ==> Conforms(s, files, expected[i]))
    && (forall j :: 0 <= j < |unexpected| ==> !Intrudes(s, files, unexpected[j]))
  }

  lemma SamePairsWhenPristine(s: Setting, files: Files, expected: seq<Entry>, unexpected: seq<string>,
                              observed: seq<Entry>)
    requires UnexpectedOk(s, expected, unexpected)
    requires observed == Observed(s, files, expected, |expected|, unexpected, |unexpected|)
    ensures Pairs(observed) == Pairs(expected) <==> Pristine(s, files, expected, unexpected)
  {
    ObservedIs(s, files, expected, |expected|, unexpected, |unexpected|);
    hide Observed, Intrudes;
    if Pristine(s, files, expected, unexpected) {
      forall p ensures p in Pairs(observed) <==> p in Pairs(expected) {
        if p in Pairs(observed) {
          var x :| 0 <= x < |observed| && Pair(observed[x]) == p;
          assert observed[x] in observed;
          var i :| 0 <= i < |expected| && observed[x] == Seen(s, files, expected[i].path);
          assert Conforms(s, files, expected[i]);
          assert Pair(expected[i]) == p;
        }
        if p in Pairs(expected) {
          var i :| 0 <= i < |expected| && Pair(expected[i]) == p;
          assert Conforms(s, files, expected[i]);
          assert Seen(s, files, expected[i].path) in observed;
        }
      }
    }
    if Pairs(observed) == Pairs(expected) {
      forall i | 0 <= i < |expected| ensures Conforms(s, files, expected[i]) {
        assert Pair(expected[i]) in Pairs(observed);
        var x :| 0 <= x < |observed| && Pair(observed[x]) == Pair(expected[i]);
        assert observed[x] in observed;
      }
      forall j | 0 <= j < |unexpected| ensures !Intrudes(s, files, unexpected[j]) {
        if s.fold(unexpected[j]) in files {
          NotIntruding(s, files, expected, unexpected, j, observed);
        } else {
          NotThere(s, files, unexpected[j]);
        }
      }
    }
  }

  lemma NotThere(s: Setting, files: Files, path: string)
    requires s.fold(path) !in files
    ensures !Intrudes(s, files, path)
  {
  }

  lemma NotIntruding(s: Setting, files: Files, expected: seq<Entry>, unexpected: seq<string>, j: nat,
                     observed: seq<Entry>)
    requires UnexpectedOk(s, expected, unexpected) && j < |unexpected| && s.fold(unexpected[j]) in files
    requires Pairs(observed) == Pairs(expected)
    requires Intrudes(s, files, unexpected[j]) ==> Seen(s, files, unexpected[j]) in observed
    ensures !Intrudes(s, files, unexpected[j])
  {
    hide Intrudes;
    var seen := Seen(s, files, unexpected[j]);
    UndeclaredPair(s, expected, unexpected, j, seen);
    ObservedPair(observed, seen);
    hide Pairs;
  }

  lemma UndeclaredPair(s: Setting, expected: seq<Entry>, unexpected: seq<string>, j: nat, x: Entry)
    requires UnexpectedOk(s, expected, unexpected) && j < |unexpected| && x.path == unexpected[j]
    ensures Pair(x) !in Pairs(expected)
  {
    forall i | 0 <= i < |expected| ensures Pair(expected[i]) != Pair(x) {
      assert s.fold(expected[i].path) != s.fold(unexpected[j]);
    }
  }

  lemma ObservedPair(observed: seq<Entry>, x: Entry)
    ensures x in observed ==> Pair(x) in Pairs(observed)
  {
    if x in observed {
      var i :| 0 <= i < |observed| && observed[i] == x;
      assert Pair(observed[i]) in Pairs(observed);
    }
  }

  /** A measurement against a well-formed manifest has a root, and it is the expected root exactly
      when no declared file is missing or altered and no undeclared one is taken in. */
  lemma RootDecides(s: Setting, files: Files, expected: seq<Entry>, unexpected: seq<string>)
    requires SettingOk(s) && FilesOk(files) && Valid(s.fold, expected) && UnexpectedOk(s, expected, unexpected)
    ensures var outcome := Direct(s, files, expected, unexpected);
            && Compute(s.fold, expected).Root?
            && outcome.Measured?
            && (outcome.root == Compute(s.fold, expected).digest <==> Pristine(s, files, expected, unexpected))
  {
    var observed := Observed(s, files, expected, |expected|, unexpected, |unexpected|);
    ObservedValid(s, files, expected, |expected|, unexpected, |unexpected|);
    RootExists(s.fold, observed);
    RootExists(s.fold, expected);
    RootIsCanonical(s.fold, observed, expected);
    SamePairsWhenPristine(s, files, expected, unexpected, observed);
    ExtraObserves(s, files, expected, unexpected, |unexpected|);
    forall i | 0 <= i < |expected| ensures IsManifestPath(expected[i].path) {
      ExpectedPathOk(s, expected, i);
    }
    hide Valid, Compute, Observed, Expected, Extra, IsManifestPath, Pristine, UnexpectedOk, SettingOk, FilesOk;
  }

  /** Every deviation is an undeclared file that could not be digested. */
  ghost predicate OnlyUnreadable(deviations: seq<Deviation>) {
    forall d :: d in deviations ==> d.kind == Unexpected && d.observed == None
  }

  lemma {:induction false} ExpectedDeviations(s: Setting, files: Files, expected: seq<Entry>, k: nat)
    requires k <= |expected|
    ensures OnlyUnreadable(Expected(s, map[], files, expected, k).deviations) <==>
            forall i :: 0 <= i < k ==> Conforms(s, files, expected[i])
  {
    if k > 0 {
      ExpectedDeviations(s, files, expected, k - 1);
      var before := Expected(s, map[], files, expected, k - 1).deviations;
      var after := Expected(s, map[], files, expected, k).deviations;
      if !Conforms(s, files, expected[k - 1]) {
        assert after[|after| - 1] in after;
      } else {
        assert after == before;
      }
      forall d | d in before ensures d in after {}
      hide Set;
    }
  }

  lemma {:induction false} ExtraDeviations(s: Setting, files: Files, p: Progress, unexpected: seq<string>, n: nat)
    requires n <= |unexpected|
    ensures OnlyUnreadable(Extra(s, files, p, unexpected, n).deviations) <==>
            OnlyUnreadable(p.deviations) && forall j :: 0 <= j < n ==> !Intrudes(s, files, unexpected[j])
  {
    hide IsManifestPath;
    if n > 0 {
      ExtraDeviations(s, files, p, unexpected, n - 1);
      var before := Extra(s, files, p, unexpected, n - 1).deviations;
      var after := Extra(s, files, p, unexpected, n).deviations;
      if Intrudes(s, files, unexpected[n - 1]) {
        assert after[|after| - 1] in after;
      }
      forall d | d in before ensures d in after {}
      if OnlyUnreadable(before) && !Intrudes(s, files, unexpected[n - 1]) {
        forall d | d in after ensures d.kind == Unexpected && d.observed == None {
          if d !in before {
            assert after == before + [Deviation(unexpected[n - 1], Unexpected, None)];
          }
        }
      }
    }
  }

  /** The deviations, before the report is cut to its limit, tell the same story as the root. */
  lemma DeviationsDecide(s: Setting, files: Files, expected: seq<Entry>, unexpected: seq<string>)
    ensures var p := Extra(s, files, Expected(s, map[], files, expected, |expected|), unexpected, |unexpected|);
            OnlyUnreadable(p.deviations) <==> Pristine(s, files, expected, unexpected)
  {
    ExpectedDeviations(s, files, expected, |expected|);
    ExtraDeviations(s, files, Expected(s, map[], files, expected, |expected|), unexpected, |unexpected|);
    hide Expected, Extra, Conforms, Intrudes, OnlyUnreadable;
  }

  // ---------- The report that is cut ----------

  /** How many of the first `n` undeclared paths are reported but cannot be digested. */
  function CountUnreadable(s: Setting, files: Files, unexpected: seq<string>, n: nat): nat
    requires n <= |unexpected|
  {
    if n == 0 then 0
    else CountUnreadable(s, files, unexpected, n - 1) +
         if IsManifestPath(unexpected[n - 1]) && s.fold(unexpected[n - 1]) !in files then 1 else 0
  }

  /** The `j`-th undeclared path is the first that intrudes. */
  ghost predicate IntrudesFirst(s: Setting, files: Files, unexpected: seq<string>, j: nat) {
    && j < |unexpected| && Intrudes(s, files, unexpected[j])
    && forall i :: 0 <= i < j ==> !Intrudes(s, files, unexpected[i])
  }

  /** No declared file deviates, and so many undeclared ones cannot be read that the report has no room
      for the first that intrudes. */
  ghost predicate Hides(s: Setting, files: Files, expected: seq<Entry>, unexpected: seq<string>) {
    && (forall i :: 0 <= i < |expected| ==> Conforms(s, files, expected[i]))
    && exists j: nat :: IntrudesFirst(s, files, unexpected, j)
                        && CountUnreadable(s, files, unexpected, j) >= MAX_REPORTED_DEVIATIONS
  }

  lemma {:induction false} ExpectedKinds(s: Setting, files: Files, expected: seq<Entry>, k: nat)
    requires k <= |expected|
    ensures forall d :: d in Expected(s, map[], files, expected, k).deviations ==> d.kind != Unexpected
  {
    if k > 0 {
      ExpectedKinds(s, files, expected, k - 1);
    }
    hide Set;
  }

  lemma {:induction false} ExtraAppends(s: Setting, files: Files, p: Progress, unexpected: seq<string>, j: nat, n: nat)
    requires j <= n <= |unexpected|
    ensures Extra(s, files, p, unexpected, j).deviations <= Extra(s, files, p, unexpected, n).deviations
  {
    hide IsManifestPath;
    if j < n {
      ExtraAppends(s, files, p, unexpected, j, n - 1);
    }
  }

  lemma {:induction false} CountsUnreadable(s: Setting, files: Files, p: Progress, unexpected: seq<string>, n: nat)
    requires n <= |unexpected| && p.deviations == [] && forall i :: 0 <= i < n ==> !Intrudes(s, files, unexpected[i])
    ensures |Extra(s, files, p, unexpected, n).deviations| == CountUnreadable(s, files, unexpected, n)
  {
    hide IsManifestPath;
    if n > 0 {
      CountsUnreadable(s, files, p, unexpected, n - 1);
      assert !Intrudes(s, files, unexpected[n - 1]);
    }
  }

  /** Where a declared file deviates the report says so first. */
  lemma DeclaredComeFirst(s: Setting, files: Files, expected: seq<Entry>, unexpected: seq<string>)
    requires !(forall i :: 0 <= i < |expected| ==> Conforms(s, files, expected[i]))
    ensures var p := Extra(s, files, Expected(s, map[], files, expected, |expected|), unexpected, |unexpected|);
            !OnlyUnreadable(Report(p.deviations))
  {
    var start := Expected(s, map[], files, expected, |expected|);
    ExpectedDeviations(s, files, expected, |expected|);
    ExpectedKinds(s, files, expected, |expected|);
    ExtraAppends(s, files, start, unexpected, 0, |unexpected|);
    StartsWith(s, files, start, unexpected);
    hide Expected, Conforms, Extra;
    var all := Extra(s, files, start, unexpected, |unexpected|).deviations;
    assert start.deviations != [];
    assert all[0] == start.deviations[0] && all[0] in start.deviations;
    assert Report(all)[0] == all[0] && Report(all)[0] in Report(all);
  }

  lemma StartsWith(s: Setting, files: Files, p: Progress, unexpected: seq<string>)
    ensures Extra(s, files, p, unexpected, 0) == p
  {
  }

  /** Where all declared files conform there is nothing before the undeclared ones. */
  lemma {:induction false} NothingDeclared(s: Setting, files: Files, expected: seq<Entry>, k: nat)
    requires k <= |expected| && forall i :: 0 <= i < k ==> Conforms(s, files, expected[i])
    ensures Expected(s, map[], files, expected, k).deviations == []
  {
    hide Set;
    if k > 0 {
      NothingDeclared(s, files, expected, k - 1);
      assert Conforms(s, files, expected[k - 1]);
    }
  }

  /** Where undeclared paths intrude, the report shows the first of them if it has room. */
  lemma FirstIntruder(s: Setting, files: Files, p: Progress, unexpected: seq<string>, j: nat)
    requires p.deviations == [] && IntrudesFirst(s, files, unexpected, j)
    ensures var all := Extra(s, files, p, unexpected, |unexpected|).deviations;
            OnlyUnreadable(Report(all)) <==> CountUnreadable(s, files, unexpected, j) >= MAX_REPORTED_DEVIATIONS
  {
    var before := Extra(s, files, p, unexpected, j).deviations;
    var all := Extra(s, files, p, unexpected, |unexpected|).deviations;
    var count := CountUnreadable(s, files, unexpected, j);
    CountsUnreadable(s, files, p, unexpected, j);
    ExtraDeviations(s, files, p, unexpected, j);
    ExtraAppends(s, files, p, unexpected, j, |unexpected|);
    ExtraAppends(s, files, p, unexpected, j + 1, |unexpected|);
    IntruderAppends(s, files, p, unexpected, j);
    hide Extra, CountUnreadable, Intrudes;
    if count >= MAX_REPORTED_DEVIATIONS {
      assert Report(all) == before[..MAX_REPORTED_DEVIATIONS];
    } else {
      assert Report(all)[count] == all[count];
    }
  }

  lemma IntruderAppends(s: Setting, files: Files, p: Progress, unexpected: seq<string>, j: nat)
    requires j < |unexpected| && Intrudes(s, files, unexpected[j])
    ensures var before := Extra(s, files, p, unexpected, j).deviations;
            var after := Extra(s, files, p, unexpected, j + 1).deviations;
            |after| == |before| + 1 && after[|before|].observed.Some?
  {
    hide IsManifestPath;
  }

  lemma {:induction false} SomeIntrudesFirst(s: Setting, files: Files, unexpected: seq<string>, j: nat) returns (i: nat)
    requires j < |unexpected| && Intrudes(s, files, unexpected[j])
    ensures IntrudesFirst(s, files, unexpected, i)
  {
    hide Intrudes;
    if k: nat :| k < j && Intrudes(s, files, unexpected[k]) {
      i := SomeIntrudesFirst(s, files, unexpected, k);
    } else {
      i := j;
    }
  }

  /** The report tells the same story as the root, except exactly when it has no room left for the first
      file that intrudes: declared files come first, so only unreadable undeclared ones can fill it. */
  lemma ReportDecidesExactlyWhen(s: Setting, files: Files, expected: seq<Entry>, unexpected: seq<string>)
    ensures var outcome := Direct(s, files, expected, unexpected);
            outcome.Measured? ==>
              ((OnlyUnreadable(outcome.deviations) <==> Pristine(s, files, expected, unexpected)) <==>
               !Hides(s, files, expected, unexpected))
  {
    CutDecidesExactlyWhen(s, files, expected, unexpected);
    hide Expected, Extra, Pristine, Hides, Report, OnlyUnreadable;
  }

  lemma CutDecidesExactlyWhen(s: Setting, files: Files, expected: seq<Entry>, unexpected: seq<string>)
    ensures var p := Extra(s, files, Expected(s, map[], files, expected, |expected|), unexpected, |unexpected|);
            (OnlyUnreadable(Report(p.deviations)) <==> Pristine(s, files, expected, unexpected)) <==>
            !Hides(s, files, expected, unexpected)
  {
    var start := Expected(s, map[], files, expected, |expected|);
    var all := Extra(s, files, start, unexpected, |unexpected|).deviations;
    DeviationsDecide(s, files, expected, unexpected);
    if !(forall i :: 0 <= i < |expected| ==> Conforms(s, files, expected[i])) {
      DeclaredComeFirst(s, files, expected, unexpected);
    } else {
      NothingDeclared(s, files, expected, |expected|);
      hide Expected, Extra, Conforms, Intrudes, CountUnreadable;
      if j: nat :| j < |unexpected| && Intrudes(s, files, unexpected[j]) {
        var i := SomeIntrudesFirst(s, files, unexpected, j);
        FirstIntruder(s, files, start, unexpected, i);
        forall k: nat | IntrudesFirst(s, files, unexpected, k) ensures k == i {
          assert !(k < i) && !(i < k);
        }
      } else {
        assert OnlyUnreadable(all);
      }
    }
  }

  // ---------- What is expected ----------

  /** The last entry for a key wins, in the place of the first. */
  function SetEntry(fold: string -> string, merged: seq<Entry>, e: Entry): seq<Entry> {
    if merged == [] then [e]
    else if fold(merged[|merged| - 1].path) == fold(e.path) then merged[..|merged| - 1] + [e]
    else if fold(e.path) in Keys(fold, merged) then SetEntry(fold, merged[..|merged| - 1], e) + [merged[|merged| - 1]]
    else merged + [e]
  }

  /** The first `k` of the layered entries. */
  function Merge(fold: string -> string, excluded: string -> bool, layers: seq<Entry>, k: nat): seq<Entry>
    requires k <= |layers|
  {
    if k == 0 then []
    else if excluded(layers[k - 1].path) then Merge(fold, excluded, layers, k - 1)
    else SetEntry(fold, Merge(fold, excluded, layers, k - 1), layers[k - 1])
  }

  /** The three layers, base files first and the launcher's own files last. */
  method MergeExpectedFiles(fold: string -> string, excluded: string -> bool, base: seq<Entry>,
                            installedAssets: seq<Entry>, overrides: seq<Entry>) returns (merged: seq<Entry>)
    ensures var layers := base + installedAssets + overrides;
            merged == Merge(fold, excluded, layers, |layers|)
  {
    hide Merge, SetEntry;
    var groups := [base, installedAssets, overrides];
    MergeNothing(fold, excluded);
    merged := [];
    for g := 0 to |groups|
      invariant merged == Merge(fold, excluded, Joined(groups, g), |Joined(groups, g)|)
    {
      merged := MergeGroup(fold, excluded, merged, groups[g], Joined(groups, g));
    }
    ThreeJoined(base, installedAssets, overrides);
  }

  /** One more layer on top of the entries `below`. */
  method MergeGroup(fold: string -> string, excluded: string -> bool, before: seq<Entry>, group: seq<Entry>,
                    ghost below: seq<Entry>) returns (merged: seq<Entry>)
    requires before == Merge(fold, excluded, below, |below|)
    ensures merged == Merge(fold, excluded, below + group, |below + group|)
  {
    hide SetEntry;
    merged := before;
    MergePrefix(fold, excluded, below, group, |below|);
    for i := 0 to |group|
      invariant merged == Merge(fold, excluded, below + group, |below| + i)
    {
      assert (below + group)[|below| + i] == group[i];
      if !excluded(group[i].path) {
        merged := SetEntry(fold, merged, group[i]);
      }
    }
  }

  /** The first `n` layers, one after the other. */
  function Joined(groups: seq<seq<Entry>>, n: nat): seq<Entry>
    requires n <= |groups|
  {
    if n == 0 then [] else Joined(groups, n - 1) + groups[n - 1]
  }

  lemma ThreeJoined(a: seq<Entry>, b: seq<Entry>, c: seq<Entry>)
    ensures Joined([a, b, c], 3) == a + b + c
  {
    assert Joined([a, b, c], 1) == [] + a == a;
    assert Joined([a, b, c], 2) == a + b;
  }

  lemma MergeNothing(fold: string -> string, excluded: string -> bool)
    ensures Merge(fold, excluded, [], 0) == []
  {
  }

  lemma {:induction false} MergePrefix(fold: string -> string, excluded: string -> bool, below: seq<Entry>,
                                       group: seq<Entry>, k: nat)
    requires k <= |below|
    ensures Merge(fold, excluded, below + group, k) == Merge(fold, excluded, below, k)
  {
    hide SetEntry;
    if k > 0 {
      MergePrefix(fold, excluded, below, group, k - 1);
      assert (below + group)[k - 1] == below[k - 1];
    }
  }

  ghost predicate DistinctKeys(fold: string -> string, entries: seq<Entry>) {
    forall i, j :: 0 <= i < j < |entries| ==> fold(entries[i].path) != fold(entries[j].path)
  }

  lemma {:induction false} SetEntryIs(fold: string -> string, merged: seq<Entry>, e: Entry)
    requires DistinctKeys(fold, merged)
    ensures var r := SetEntry(fold, merged, e);
            && DistinctKeys(fold, r)
            && forall x :: x in r <==> x == e || (x in merged && fold(x.path) != fold(e.path))
  {
    if merged != [] {
      var front, last := merged[..|merged| - 1], merged[|merged| - 1];
      assert merged == front + [last];
      forall x | x in front ensures fold(x.path) != fold(last.path) {
        var i :| 0 <= i < |front| && front[i] == x;
        assert merged[i] == x;
      }
      assert DistinctKeys(fold, front) by {
        forall i, j | 0 <= i < j < |front| ensures fold(front[i].path) != fold(front[j].path) {
          assert merged[i] == front[i] && merged[j] == front[j];
        }
      }
      if fold(last.path) == fold(e.path) {
        AppendDistinct(fold, front, e);
      } else if fold(e.path) in Keys(fold, merged) {
        SetEntryIs(fold, front, e);
        AppendDistinct(fold, SetEntry(fold, front, e), last);
      } else {
        forall x | x in merged ensures fold(x.path) != fold(e.path) {
          var i :| 0 <= i < |merged| && merged[i] == x;
        }
        AppendDistinct(fold, merged, e);
      }
    }
  }

  lemma AppendDistinct(fold: string -> string, entries: seq<Entry>, e: Entry)
    requires DistinctKeys(fold, entries) && forall x :: x in entries ==> fold(x.path) != fold(e.path)
    ensures DistinctKeys(fold, entries + [e])
  {
    forall i | 0 <= i < |entries| ensures fold(entries[i].path) != fold(e.path) {
      assert entries[i] in entries;
    }
  }

  /** `x` is the last of the first `k` layered entries for its file, and is not excluded. */
  ghost predicate LastOf(fold: string -> string, excluded: string -> bool, layers: seq<Entry>, k: nat, x: Entry)
    requires k <= |layers|
  {
    exists i :: 0 <= i < k && layers[i] == x && !excluded(x.path) &&
                forall j :: i < j < k && fold(layers[j].path) == fold(x.path) ==> excluded(layers[j].path)
  }

  /** Merging keeps one entry per file, the last that no rule excludes, and nothing else. */
  lemma {:induction false} MergeIsLayered(fold: string -> string, excluded: string -> bool, layers: seq<Entry>, k: nat)
    requires k <= |layers|
    ensures var merged := Merge(fold, excluded, layers, k);
            && DistinctKeys(fold, merged)
            && forall x :: x in merged <==> LastOf(fold, excluded, layers, k, x)
  {
    if k > 0 {
      MergeIsLayered(fold, excluded, layers, k - 1);
      var before, e := Merge(fold, excluded, layers, k - 1), layers[k - 1];
      if !excluded(e.path) {
        SetEntryIs(fold, before, e);
      }
      hide SetEntry;
      forall x ensures LastOf(fold, excluded, layers, k, x) <==>
                       if excluded(e.path) then LastOf(fold, excluded, layers, k - 1, x)
                       else x == e || (LastOf(fold, excluded, layers, k - 1, x) && fold(x.path) != fold(e.path))
      {
        LastOfStep(fold, excluded, layers, k, x);
      }
      hide LastOf;
    }
  }

  lemma LastOfStep(fold: string -> string, excluded: string -> bool, layers: seq<Entry>, k: nat, x: Entry)
    requires 0 < k <= |layers|
    ensures var e := layers[k - 1];
            LastOf(fold, excluded, layers, k, x) <==>
            if excluded(e.path) then LastOf(fold, excluded, layers, k - 1, x)
            else x == e || (LastOf(fold, excluded, layers, k - 1, x) && fold(x.path) != fold(e.path))
  {
    var e := layers[k - 1];
    if LastOf(fold, excluded, layers, k, x) {
      var i :| 0 <= i < k && layers[i] == x && !excluded(x.path) &&
               forall j :: i < j < k && fold(layers[j].path) == fold(x.path) ==> excluded(layers[j].path);
    }
    if LastOf(fold, excluded, layers, k - 1, x) {
      var i :| 0 <= i < k - 1 && layers[i] == x && !excluded(x.path) &&
               forall j :: i < j < k - 1 && fold(layers[j].path) == fold(x.path) ==> excluded(layers[j].path);
    }
  }

  /** Well-formed layers merge into a manifest that has a root. */
  lemma MergedHasRoot(fold: string -> string, excluded: string -> bool, layers: seq<Entry>)
    requires forall i :: 0 <= i < |layers| ==> EntryOk(layers[i])
    ensures Compute(fold, Merge(fold, excluded, layers, |layers|)).Root?
  {
    hide EntryOk;
    var merged := Merge(fold, excluded, layers, |layers|);
    MergeIsLayered(fold, excluded, layers, |layers|);
    forall i | 0 <= i < |merged| ensures EntryOk(merged[i]) {
      assert merged[i] in merged;
    }
    RootExists(fold, merged);
  }
}
