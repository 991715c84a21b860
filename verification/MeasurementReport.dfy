/**
 What a measurement reports (electron/services/integrity-attestation.ts:414-475), told by the files on
 disk and by the two lists alone.
 */
module MeasurementReport {
  import opened Basics
  import opened Options
  import opened ManifestRoot
  import opened Measurement

  // ---------- Lists made in the order of their sources ----------

  /** Every item of `list` is what one of the first `n` sources says, in the order of the sources, and
      every one of these that says something has its item. */
  ghost predicate Lists<T(!new)>(list: seq<T>, at: seq<nat>, n: nat, says: (nat, T) -> bool) {
    && |at| == |list|
    && (forall d, e :: 0 <= d < e < |at| ==> at[d] < at[e])
    && (forall d :: 0 <= d < |at| ==> at[d] < n && says(at[d], list[d]))
    && (forall m: nat, x :: m < n && says(m, x) ==> m in at)
  }

  lemma ListsMore<T(!new)>(list: seq<T>, at: seq<nat>, n: nat, says: (nat, T) -> bool, x: T)
    requires Lists(list, at, n, says) && says(n, x)
    ensures Lists(list + [x], at + [n], n + 1, says)
  {
    forall m: nat, y | m < n + 1 && says(m, y) ensures m in at + [n] {
      if m < n {
        assert m in at;
      } else {
        assert (at + [n])[|at|] == n;
      }
    }
  }

  lemma ListsNoMore<T(!new)>(list: seq<T>, at: seq<nat>, n: nat, says: (nat, T) -> bool)
    requires Lists(list, at, n, says) && forall x :: !says(n, x)
    ensures Lists(list, at, n + 1, says)
  {
  }

  lemma ListedExactly<T(!new)>(list: seq<T>, at: seq<nat>, n: nat, says: (nat, T) -> bool, x: T)
    requires Lists(list, at, n, says)
    requires forall m: nat, y, z :: m < n && says(m, y) && says(m, z) ==> y == z
    ensures x in list <==> exists m: nat :: m < n && says(m, x)
  {
    if x in list {
      var d :| 0 <= d < |list| && list[d] == x;
      assert says(at[d], x);
    }
    if exists m: nat :: m < n && says(m, x) {
      var m: nat :| m < n && says(m, x);
      assert m in at;
      var d :| 0 <= d < |at| && at[d] == m;
      assert says(at[d], list[d]);
    }
  }

  // ---------- The deviations ----------

  /** The `n`-th path, of the declared ones and then of the undeclared ones, deviates. */
  ghost predicate Deviates(s: Setting, files: Files, expected: seq<Entry>, unexpected: seq<string>, n: nat,
                           d: Deviation)
  {
    if n < |expected| then
      var e := expected[n];
      && d.path == e.path
      && if s.fold(e.path) in files then
           var digest := s.hash(files[s.fold(e.path)].content);
           digest != e.sha256 && d.kind == Mismatch && d.observed == Some(digest)
         else d.kind == Missing && d.observed == None
    else
      && n - |expected| < |unexpected| && d.path == unexpected[n - |expected|]
      && IsManifestPath(d.path) && d.kind == Unexpected
      && d.observed == if s.fold(d.path) in files then Some(s.hash(files[s.fold(d.path)].content)) else None
  }

  ghost function Deviating(s: Setting, files: Files, expected: seq<Entry>, unexpected: seq<string>)
    : (nat, Deviation) -> bool
  {
    (n: nat, d) => Deviates(s, files, expected, unexpected, n, d)
  }

  /** The list of deviations before it is cut. */
  function Uncut(s: Setting, cache: map<string, CacheEntry>, files: Files, expected: seq<Entry>,
                 unexpected: seq<string>): seq<Deviation>
  {
    Extra(s, files, Expected(s, cache, files, expected, |expected|), unexpected, |unexpected|).deviations
  }

  lemma {:induction false} ExpectedLists(s: Setting, files: Files, expected: seq<Entry>, k: nat,
                                         unexpected: seq<string>) returns (at: seq<nat>)
    requires k <= |expected|
    ensures Lists(Expected(s, map[], files, expected, k).deviations, at, k,
                  Deviating(s, files, expected, unexpected))
  {
    hide Lists, IsManifestPath;
    if k == 0 {
      at := [];
      ListsNothing(Deviating(s, files, expected, unexpected));
    } else {
      at := ExpectedLists(s, files, expected, k - 1, unexpected);
      var before := Expected(s, map[], files, expected, k - 1).deviations;
      var e, says := expected[k - 1], Deviating(s, files, expected, unexpected);
      if s.fold(e.path) !in files {
        ListsMore(before, at, k - 1, says, Deviation(e.path, Missing, None));
        at := at + [k - 1];
      } else if s.hash(files[s.fold(e.path)].content) != e.sha256 {
        ListsMore(before, at, k - 1, says, Deviation(e.path, Mismatch, Some(s.hash(files[s.fold(e.path)].content))));
        at := at + [k - 1];
      } else {
        ListsNoMore(before, at, k - 1, says);
      }
    }
  }

  lemma ListsNothing<T(!new)>(says: (nat, T) -> bool)
    ensures Lists([], [], 0, says)
  {
  }

  lemma {:induction false} ExtraLists(s: Setting, files: Files, expected: seq<Entry>, unexpected: seq<string>, k: nat)
    returns (at: seq<nat>)
    requires k <= |unexpected|
    ensures Lists(Extra(s, files, Expected(s, map[], files, expected, |expected|), unexpected, k).deviations, at,
                  |expected| + k, Deviating(s, files, expected, unexpected))
  {
    hide Lists, IsManifestPath, Expected;
    if k == 0 {
      at := ExpectedLists(s, files, expected, |expected|, unexpected);
    } else {
      at := ExtraLists(s, files, expected, unexpected, k - 1);
      var before := Extra(s, files, Expected(s, map[], files, expected, |expected|), unexpected, k - 1).deviations;
      var path, says, n := unexpected[k - 1], Deviating(s, files, expected, unexpected), |expected| + k - 1;
      if !IsManifestPath(path) {
        ListsNoMore(before, at, n, says);
      } else {
        var key := s.fold(path);
        var observed := if key in files then Some(s.hash(files[key].content)) else None;
        ListsMore(before, at, n, says, Deviation(path, Unexpected, observed));
        at := at + [n];
      }
    }
  }

  /** The list, before it is cut, tells path by path what is wrong with it, the declared ones first, in the
      order of the two lists: a declared path that is absent, one with another digest, an undeclared
      path that is admissible. A cache whose digests are right makes no difference. */
  lemma DeviationsAreTheirSources(s: Setting, cache: map<string, CacheEntry>, files: Files, expected: seq<Entry>,
                                  unexpected: seq<string>) returns (at: seq<nat>)
    requires Sound(s, cache, files)
    ensures Lists(Uncut(s, cache, files, expected, unexpected), at, |expected| + |unexpected|,
                  Deviating(s, files, expected, unexpected))
  {
    hide Lists, Sound;
    ExpectedAgrees(s, cache, files, expected, |expected|);
    at := ExtraLists(s, files, expected, unexpected, |unexpected|);
  }

  /** Which deviations are listed. */
  lemma DeviationsExactly(s: Setting, cache: map<string, CacheEntry>, files: Files, expected: seq<Entry>,
                          unexpected: seq<string>, path: string, observed: Option<string>)
    requires Sound(s, cache, files)
    ensures var list := Uncut(s, cache, files, expected, unexpected);
            && (Deviation(path, Missing, observed) in list <==>
                && observed == None && s.fold(path) !in files
                && exists i :: 0 <= i < |expected| && expected[i].path == path)
            && (Deviation(path, Mismatch, observed) in list <==>
                && s.fold(path) in files && observed == Some(s.hash(files[s.fold(path)].content))
                && exists i :: 0 <= i < |expected| && expected[i].path == path && Some(expected[i].sha256) != observed)
            && (Deviation(path, Unexpected, observed) in list <==>
                && path in unexpected && IsManifestPath(path)
                && observed == if s.fold(path) in files then Some(s.hash(files[s.fold(path)].content)) else None)
  {
    hide Lists, Sound, Uncut, IsManifestPath;
    var list, says := Uncut(s, cache, files, expected, unexpected), Deviating(s, files, expected, unexpected);
    var n := |expected| + |unexpected|;
    var at := DeviationsAreTheirSources(s, cache, files, expected, unexpected);
    ListedExactly(list, at, n, says, Deviation(path, Missing, observed));
    ListedExactly(list, at, n, says, Deviation(path, Mismatch, observed));
    ListedExactly(list, at, n, says, Deviation(path, Unexpected, observed));
    SaysMissing(s, files, expected, unexpected, path, observed);
    SaysMismatch(s, files, expected, unexpected, path, observed);
    SaysUnexpected(s, files, expected, unexpected, path, observed);
  }

  lemma SaysMissing(s: Setting, files: Files, expected: seq<Entry>, unexpected: seq<string>, path: string,
                    observed: Option<string>)
    ensures (exists m: nat :: m < |expected| + |unexpected|
                              && Deviating(s, files, expected, unexpected)(m, Deviation(path, Missing, observed))) <==>
            && observed == None && s.fold(path) !in files
            && exists i :: 0 <= i < |expected| && expected[i].path == path
  {
    hide IsManifestPath;
    if observed == None && s.fold(path) !in files && exists i :: 0 <= i < |expected| && expected[i].path == path {
      var i :| 0 <= i < |expected| && expected[i].path == path;
      assert Deviating(s, files, expected, unexpected)(i, Deviation(path, Missing, observed));
    }
  }

  lemma SaysMismatch(s: Setting, files: Files, expected: seq<Entry>, unexpected: seq<string>, path: string,
                     observed: Option<string>)
    ensures (exists m: nat :: m < |expected| + |unexpected|
                              && Deviating(s, files, expected, unexpected)(m, Deviation(path, Mismatch, observed))) <==>
            && s.fold(path) in files && observed == Some(s.hash(files[s.fold(path)].content))
            && exists i :: 0 <= i < |expected| && expected[i].path == path && Some(expected[i].sha256) != observed
  {
    hide IsManifestPath;
    if && s.fold(path) in files && observed == Some(s.hash(files[s.fold(path)].content))
       && exists i :: 0 <= i < |expected| && expected[i].path == path && Some(expected[i].sha256) != observed {
      var i :| 0 <= i < |expected| && expected[i].path == path && Some(expected[i].sha256) != observed;
      assert Deviating(s, files, expected, unexpected)(i, Deviation(path, Mismatch, observed));
    }
  }

  lemma SaysUnexpected(s: Setting, files: Files, expected: seq<Entry>, unexpected: seq<string>, path: string,
                       observed: Option<string>)
    ensures (exists m: nat :: m < |expected| + |unexpected|
                              && Deviating(s, files, expected, unexpected)(m, Deviation(path, Unexpected, observed)))
            <==>
            && path in unexpected && IsManifestPath(path)
            && observed == if s.fold(path) in files then Some(s.hash(files[s.fold(path)].content)) else None
  {
    hide IsManifestPath;
    if && path in unexpected && IsManifestPath(path)
       && observed == (if s.fold(path) in files then Some(s.hash(files[s.fold(path)].content)) else None) {
      var j :| 0 <= j < |unexpected| && unexpected[j] == path;
      assert Deviating(s, files, expected, unexpected)(|expected| + j, Deviation(path, Unexpected, observed));
    }
  }

  // ---------- What is counted ----------

  /** The `n`-th path is taken in: a declared one that is there, or an undeclared admissible one. */
  ghost predicate TakesIn(s: Setting, files: Files, expected: seq<Entry>, unexpected: seq<string>, n: nat, e: Entry) {
    && (if n < |expected| then e.path == expected[n].path
        else n - |expected| < |unexpected| && e.path == unexpected[n - |expected|] && IsManifestPath(e.path))
    && s.fold(e.path) in files
    && e.size == files[s.fold(e.path)].size && e.sha256 == s.hash(files[s.fold(e.path)].content)
  }

  ghost function TakingIn(s: Setting, files: Files, expected: seq<Entry>, unexpected: seq<string>)
    : (nat, Entry) -> bool
  {
    (n: nat, e) => TakesIn(s, files, expected, unexpected, n, e)
  }

  lemma {:induction false} ObservedLists(s: Setting, files: Files, expected: seq<Entry>, k: nat,
                                         unexpected: seq<string>, n: nat) returns (at: seq<nat>)
    requires k <= |expected| && n <= |unexpected| && (n > 0 ==> k == |expected|)
    ensures Lists(Observed(s, files, expected, k, unexpected, n), at, k + n, TakingIn(s, files, expected, unexpected))
    decreases n, k
  {
    hide Lists, IsManifestPath;
    var says := TakingIn(s, files, expected, unexpected);
    if n > 0 {
      at := ObservedLists(s, files, expected, k, unexpected, n - 1);
      var before, path := Observed(s, files, expected, k, unexpected, n - 1), unexpected[n - 1];
      if Intrudes(s, files, path) {
        ListsMore(before, at, k + n - 1, says, Seen(s, files, path));
        at := at + [k + n - 1];
      } else {
        ListsNoMore(before, at, k + n - 1, says);
        assert before + [] == before;
      }
    } else if k > 0 {
      at := ObservedLists(s, files, expected, k - 1, unexpected, 0);
      var before, path := Observed(s, files, expected, k - 1, unexpected, 0), expected[k - 1].path;
      if s.fold(path) in files {
        ListsMore(before, at, k - 1, says, Seen(s, files, path));
        at := at + [k - 1];
      } else {
        ListsNoMore(before, at, k - 1, says);
        assert before + [] == before;
      }
    } else {
      at := [];
      ListsNothing(says);
    }
  }

  lemma {:induction false} TotalAdds(a: seq<Entry>, b: seq<Entry>, k: nat)
    requires k <= |b|
    ensures TotalBytes(a + b, |a| + k) == TotalBytes(a, |a|) + TotalBytes(b, k)
  {
    if k > 0 {
      TotalAdds(a, b, k - 1);
    } else {
      TotalPrefix(a, b, |a|);
    }
  }

  lemma {:induction false} TotalPrefix(a: seq<Entry>, b: seq<Entry>, k: nat)
    requires k <= |a|
    ensures TotalBytes(a + b, k) == TotalBytes(a, k)
  {
    if k > 0 {
      TotalPrefix(a, b, k - 1);
    }
  }

  /** What a completed measurement reports: the files that are there, declared or admissible, as they are,
      in the order of the lists; how many they are; how many bytes they have; and the first fifty
      deviations. */
  lemma ReportIs(s: Setting, cache: map<string, CacheEntry>, files: Files, expected: seq<Entry>,
                 unexpected: seq<string>) returns (observed: seq<Entry>, at: seq<nat>)
    requires Sound(s, cache, files)
    ensures Lists(observed, at, |expected| + |unexpected|, TakingIn(s, files, expected, unexpected))
    ensures var outcome := Measure(s, cache, files, expected, unexpected).0;
            var list := Uncut(s, cache, files, expected, unexpected);
            outcome.Measured? ==>
              && Compute(s.fold, observed) == Root(outcome.root)
              && outcome.fileCount == |at| && outcome.totalBytes == TotalBytes(observed, |observed|)
              && outcome.deviations == if |list| <= 50 then list else list[..50]
  {
    hide Sound, Compute, IsManifestPath;
    ExpectedAgrees(s, cache, files, expected, |expected|);
    ExtraObserves(s, files, expected, unexpected, |unexpected|);
    observed := Observed(s, files, expected, |expected|, unexpected, |unexpected|);
    at := ObservedLists(s, files, expected, |expected|, unexpected, |unexpected|);
    hide Expected, Extra, Observed;
  }

  // ---------- What the cache keeps ----------

  ghost predicate OneEntryEach(file: CacheFile) {
    forall i, j :: 0 <= i < j < |file| ==> file[i].0 != file[j].0
  }

  /** Setting a key gives it its entry, keeps the others, and never gives a key a second entry. */
  lemma {:induction false} SetHolds(file: CacheFile, key: string, entry: CacheEntry)
    requires OneEntryEach(file)
    ensures (key, entry) in Set(file, key, entry) && OneEntryEach(Set(file, key, entry))
    ensures forall x :: x in file && x.0 != key ==> x in Set(file, key, entry)
  {
    var after := Set(file, key, entry);
    if file == [] {
      assert after[0] == (key, entry);
    } else {
      var init, last := file[..|file| - 1], file[|file| - 1];
      assert file == init + [last];
      if last.0 == key {
        assert after[|init|] == (key, entry);
      } else if key in KeysOf(file) {
        SetHolds(init, key, entry);
        SetKeeps(init, key, entry);
        SetInside(init, last, key, entry);
      } else {
        assert after[|file|] == (key, entry);
      }
    }
  }

  lemma SetInside(init: CacheFile, last: (string, CacheEntry), key: string, entry: CacheEntry)
    requires OneEntryEach(init + [last]) && last.0 != key && OneEntryEach(Set(init, key, entry))
    requires forall x :: x in Set(init, key, entry) ==> x in init || x == (key, entry)
    ensures OneEntryEach(Set(init, key, entry) + [last])
  {
    hide Set;
    var after := Set(init, key, entry);
    forall i | 0 <= i < |after| ensures after[i].0 != last.0 {
      assert after[i] in after;
      if after[i] in init {
        var j :| 0 <= j < |init| && init[j] == after[i];
        assert (init + [last])[j].0 != (init + [last])[|init|].0;
      }
    }
  }

  /** After a measurement every declared file that is there has one entry, with its stamp and digest. */
  lemma {:induction false} EveryFileIsRemembered(s: Setting, files: Files, expected: seq<Entry>, k: nat, i: nat)
    requires k <= |expected|
    ensures var next := Expected(s, map[], files, expected, k).nextCache;
            && OneEntryEach(next)
            && (i < k && s.fold(expected[i].path) in files ==>
                  var key := s.fold(expected[i].path);
                  (key, CacheEntry(files[key].size, files[key].mtime, s.hash(files[key].content))) in next)
  {
    hide Set, OneEntryEach;
    if k == 0 {
      NoEntries();
    } else {
      EveryFileIsRemembered(s, files, expected, k - 1, i);
      var key := s.fold(expected[k - 1].path);
      if key in files {
        SetHolds(Expected(s, map[], files, expected, k - 1).nextCache, key,
                 CacheEntry(files[key].size, files[key].mtime, s.hash(files[key].content)));
      }
    }
  }

  lemma NoEntries()
    ensures OneEntryEach([])
  {
  }

  /** Once a cache is written, the next launch finds the stamp and the digest of every declared file that
      was there. */
  lemma WrittenIsRemembered(s: Setting, visits: seq<Visit>, k: nat, i: nat)
    requires StampsFaithful(visits) && k < |visits| && visits[k].saving.Written? && AllPathsOk(visits[k].expected)
    requires |visits[k].expected| <= 100000 && i < |visits[k].expected|
    requires s.fold(visits[k].expected[i].path) in visits[k].files
    ensures var key := s.fold(visits[k].expected[i].path);
            var info := visits[k].files[key];
            (key, CacheEntry(info.size, info.mtime, s.hash(info.content))) in CacheAfter(s, visits, k + 1)
  {
    hide Set, Sound, Remembers, StampsFaithful, AllPathsOk, OneEntryEach;
    var v, file := visits[k], CacheAfter(s, visits, k);
    CacheRemembers(s, visits, k);
    RememberedIsSound(s, visits, k, file);
    ExpectedAgrees(s, Loaded(file), v.files, v.expected, |v.expected|);
    EveryFileIsRemembered(s, v.files, v.expected, |v.expected|, i);
    NotMoreThan(s, v.files, v.expected, |v.expected|);
    ExtraKeepsCache(s, v.files, Expected(s, map[], v.files, v.expected, |v.expected|), v.unexpected, |v.unexpected|);
    hide Expected, Extra, Finish;
  }

  lemma {:induction false} SetSize(file: CacheFile, key: string, entry: CacheEntry)
    ensures |Set(file, key, entry)| <= |file| + 1
  {
    if file != [] && file[|file| - 1].0 != key && key in KeysOf(file) {
      SetSize(file[..|file| - 1], key, entry);
    }
  }

  lemma {:induction false} NotMoreThan(s: Setting, files: Files, expected: seq<Entry>, k: nat)
    requires k <= |expected|
    ensures |Expected(s, map[], files, expected, k).nextCache| <= k
  {
    hide Set;
    if k > 0 {
      NotMoreThan(s, files, expected, k - 1);
      var key := s.fold(expected[k - 1].path);
      if key in files {
        SetSize(Expected(s, map[], files, expected, k - 1).nextCache, key,
                CacheEntry(files[key].size, files[key].mtime, s.hash(files[key].content)));
      }
    }
  }
}
