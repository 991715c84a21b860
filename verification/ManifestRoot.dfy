/**
 The canonical root of a file manifest (shared/attestation.ts:156-232).

 `fold` is the lower-casing that identifies Windows paths; nothing here depends on how it folds.
 The pre-hash text is a string; its UTF-8 encoding is not part of this model.
 */
module ManifestRoot {
  import opened Options

  datatype Entry = Entry(path: string, size: int, sha256: string)

  datatype Fault = InvalidPath | InvalidSha256 | InvalidSize | DuplicatePath

  /** SHA-256, taken to be injective, of a text. */
  datatype Digest = Sha256(text: string)

  datatype Result = Root(digest: Digest) | Failure(fault: Fault)

  const DOMAIN := "rotk-manifest-v1"
  const MAX_SAFE_INTEGER := 0x1F_FFFF_FFFF_FFFF

  // ---------- What an entry may hold ----------

  predicate IsHexDigit(c: char) { '0' <= c <= '9' || 'a' <= c <= 'f' }

  predicate IsSha256Hex(s: string) {
    |s| == 64 && forall i :: 0 <= i < |s| ==> IsHexDigit(s[i])
  }

  predicate IsForbiddenChar(c: char) {
    c in {'\\', ':', '*', '?', '\"', '<', '>', '|', '\r', '\n'}
  }

  /** A line separator, which the path pattern's lookaheads do not cross. */
  predicate IsSeparator(c: char) { c == '\U{2028}' || c == '\U{2029}' }

  /** A doubled slash, or a segment "..", starts at `i`. */
  predicate BadStep(p: string, i: nat)
    requires i < |p|
  {
    || (p[i] == '/' && i + 1 < |p| && p[i + 1] == '/')
    || ((i == 0 || p[i - 1] == '/') && p[i] == '.' && i + 1 < |p| && p[i + 1] == '.' &&
        (i + 2 == |p| || p[i + 2] == '/'))
  }

  predicate IsManifestPath(p: string) {
    && 0 < |p| <= 512
    && p[0] != '/'
    && (forall i :: 0 <= i < |p| ==> !IsForbiddenChar(p[i]))
    && (forall i :: 0 <= i < |p| && BadStep(p, i) ==> exists j :: 0 <= j < i && IsSeparator(p[j]))
  }

  /** The part of a path from `i` to `j` stands between slashes or the ends of the path. */
  ghost predicate IsSegment(p: string, i: nat, j: nat) {
    && i <= j <= |p| && (i == 0 || p[i - 1] == '/') && (j == |p| || p[j] == '/')
    && forall k :: i <= k < j ==> p[k] != '/'
  }

  /** A segment that leads out of the installation, or an empty one before the last. */
  ghost predicate Strays(p: string, i: nat, j: nat) {
    IsSegment(p, i, j) && (p[i..j] == ".." || i == j < |p|)
  }

  ghost predicate Hidden(p: string, i: nat) {
    exists k :: 0 <= k < i && k < |p| && IsSeparator(p[k])
  }

  /** A path is accepted exactly when it is relative, of admissible length and characters, and none of its
      segments is ".." or, before the last, empty, but for those behind a line separator, which the
      pattern does not look at. */
  lemma AcceptedExactly(p: string)
    ensures IsManifestPath(p) <==>
            && 0 < |p| <= 512 && p[0] != '/' && (forall i :: 0 <= i < |p| ==> !IsForbiddenChar(p[i]))
            && forall i: nat, j: nat :: Strays(p, i, j) ==> Hidden(p, i)
  {
    hide IsForbiddenChar;
    if 0 < |p| && p[0] != '/' {
      if forall i: nat, j: nat :: Strays(p, i, j) ==> Hidden(p, i) {
        forall i | 0 <= i < |p| && BadStep(p, i) ensures exists j :: 0 <= j < i && IsSeparator(p[j]) {
          StepStrays(p, i);
        }
      }
      forall i: nat, j: nat | Strays(p, i, j)
        ensures exists k :: 0 <= k < |p| && BadStep(p, k) && (Hidden(p, i) <==> Hidden(p, k))
      {
        StrayIsStep(p, i, j);
      }
    }
  }

  lemma StepStrays(p: string, i: nat)
    requires i < |p| && BadStep(p, i)
    ensures var start := if p[i] == '/' then i + 1 else i;
            Strays(p, start, if p[i] == '/' then start else start + 2) && (Hidden(p, start) <==> Hidden(p, i))
  {
  }

  lemma StrayIsStep(p: string, i: nat, j: nat)
    requires Strays(p, i, j) && p[0] != '/'
    ensures exists k :: 0 <= k < |p| && BadStep(p, k) && (Hidden(p, i) <==> Hidden(p, k))
  {
    if i == j {
      assert BadStep(p, i - 1);
    } else {
      assert p[i..j][0] == '.' && p[i..j][1] == '.';
      assert BadStep(p, i);
    }
  }

  /** Digits and the letters a to f, in lower case only. */
  lemma HexDigitsAre(c: char)
    ensures IsHexDigit(c) <==> 48 <= c as int <= 57 || 97 <= c as int <= 102
  {
  }

  predicate EntryOk(e: Entry) {
    IsManifestPath(e.path) && IsSha256Hex(e.sha256) && 0 <= e.size <= MAX_SAFE_INTEGER
  }

  /** The first complaint about the first `k` entries. */
  function FirstFault(fold: string -> string, entries: seq<Entry>, k: nat): Option<Fault>
    requires k <= |entries|
  {
    if k == 0 then None
    else
      var earlier := FirstFault(fold, entries, k - 1);
      if earlier.Some? then earlier else FaultOf(fold, entries[..k - 1], entries[k - 1])
  }

  /** The complaint about an entry after the ones seen so far. */
  function FaultOf(fold: string -> string, seen: seq<Entry>, e: Entry): Option<Fault> {
    if !IsManifestPath(e.path) then Some(InvalidPath)
    else if !IsSha256Hex(e.sha256) then Some(InvalidSha256)
    else if !(0 <= e.size <= MAX_SAFE_INTEGER) then Some(InvalidSize)
    else if fold(e.path) in Keys(fold, seen) then Some(DuplicatePath)
    else None
  }

  function Keys(fold: string -> string, entries: seq<Entry>): set<string> {
    set i | 0 <= i < |entries| :: fold(entries[i].path)
  }

  ghost predicate Valid(fold: string -> string, entries: seq<Entry>) {
    && (forall i :: 0 <= i < |entries| ==> EntryOk(entries[i]))
    && (forall i, j :: 0 <= i < j < |entries| ==> fold(entries[i].path) != fold(entries[j].path))
  }

  lemma {:induction false} FaultlessIsValid(fold: string -> string, entries: seq<Entry>, k: nat)
    requires k <= |entries|
    ensures FirstFault(fold, entries, k).None? <==> Valid(fold, entries[..k])
  {
    if k > 0 {
      hide IsManifestPath, IsSha256Hex;
      FaultlessIsValid(fold, entries, k - 1);
      var before, all := entries[..k - 1], entries[..k];
      assert all == before + [entries[k - 1]];
      if Valid(fold, all) {
        assert forall i :: 0 <= i < k - 1 ==> before[i] == all[i];
        assert EntryOk(all[k - 1]);
      }
    }
  }

  // ---------- The order ----------

  /** Comparison by code units. */
  predicate Less(a: string, b: string)
    decreases |b|
  {
    |b| > 0 && (|a| == 0 || a[0] < b[0] || (a[0] == b[0] && Less(a[1..], b[1..])))
  }

  /** The first position at which two texts differ decides. */
  ghost predicate DiffersAt(a: string, b: string, k: nat) {
    k <= |a| && k < |b| && a[..k] == b[..k] && (k == |a| || a[k] < b[k])
  }

  lemma {:induction false} LessExactly(a: string, b: string)
    ensures Less(a, b) <==> exists k: nat :: DiffersAt(a, b, k)
    decreases |b|
  {
    if |a| == 0 || |b| == 0 || a[0] < b[0] {
      assert |b| > 0 ==> DiffersAt(a, b, 0);
    } else {
      LessExactly(a[1..], b[1..]);
      if a[0] == b[0] && Less(a[1..], b[1..]) {
        var k: nat :| DiffersAt(a[1..], b[1..], k);
        assert a[..k + 1] == [a[0]] + a[1..][..k] && b[..k + 1] == [b[0]] + b[1..][..k];
        assert DiffersAt(a, b, k + 1);
      }
      if exists k: nat :: DiffersAt(a, b, k) {
        var k: nat :| DiffersAt(a, b, k);
        DiffersLater(a, b, k);
      }
    }
  }

  lemma DiffersLater(a: string, b: string, k: nat)
    requires DiffersAt(a, b, k) && |a| > 0 && |b| > 0 && !(a[0] < b[0])
    ensures a[0] == b[0] && k > 0 && DiffersAt(a[1..], b[1..], k - 1)
  {
    if k > 0 {
      assert a[..k][0] == b[..k][0];
      assert a[1..][..k - 1] == a[..k][1..] && b[1..][..k - 1] == b[..k][1..];
    }
  }

  lemma {:induction false} LessTotal(a: string, b: string)
    ensures a == b || Less(a, b) || Less(b, a)
    decreases |b|
  {
    if |a| > 0 && |b| > 0 && a[0] == b[0] {
      LessTotal(a[1..], b[1..]);
      if a[1..] == b[1..] {
        assert a == [a[0]] + a[1..] && b == [b[0]] + b[1..];
      }
    }
  }

  lemma {:induction false} LessAsymmetric(a: string, b: string)
    requires Less(a, b)
    ensures !Less(b, a) && a != b
    decreases |b|
  {
    if |a| > 0 && a[0] == b[0] {
      LessAsymmetric(a[1..], b[1..]);
    }
  }

  lemma {:induction false} LessTransitive(a: string, b: string, c: string)
    requires Less(a, b) && Less(b, c)
    ensures Less(a, c)
    decreases |c|
  {
    if |a| > 0 && a[0] == b[0] == c[0] {
      LessTransitive(a[1..], b[1..], c[1..]);
    }
  }

  /** Stable insertion into a sorted list, after the entries whose keys are not greater. */
  function Insert(fold: string -> string, sorted: seq<Entry>, e: Entry): seq<Entry> {
    if sorted == [] || !Less(fold(e.path), fold(sorted[|sorted| - 1].path)) then sorted + [e]
    else Insert(fold, sorted[..|sorted| - 1], e) + [sorted[|sorted| - 1]]
  }

  /** The stable sort of the first `k` entries. */
  function Sorted(fold: string -> string, entries: seq<Entry>, k: nat): seq<Entry>
    requires k <= |entries|
  {
    if k == 0 then [] else Insert(fold, Sorted(fold, entries, k - 1), entries[k - 1])
  }

  ghost predicate Rising(fold: string -> string, entries: seq<Entry>) {
    forall i, j :: 0 <= i < j < |entries| ==> Less(fold(entries[i].path), fold(entries[j].path))
  }

  lemma {:induction false} InsertRises(fold: string -> string, sorted: seq<Entry>, e: Entry)
    requires Rising(fold, sorted) && forall x :: x in sorted ==> fold(x.path) != fold(e.path)
    ensures Rising(fold, Insert(fold, sorted, e))
    ensures forall x :: x in Insert(fold, sorted, e) <==> x in sorted || x == e
  {
    if sorted != [] {
      var front, last := sorted[..|sorted| - 1], sorted[|sorted| - 1];
      assert sorted == front + [last];
      LessTotal(fold(e.path), fold(last.path));
      if Less(fold(e.path), fold(last.path)) {
        InsertRises(fold, front, e);
        var r := Insert(fold, front, e);
        forall i | 0 <= i < |r| ensures Less(fold(r[i].path), fold(last.path)) {
          assert r[i] in r;
          if r[i] != e {
            var j :| 0 <= j < |front| && front[j] == r[i];
            assert sorted[j] == r[i];
          }
        }
        hide Insert;
      } else {
        forall i | 0 <= i < |sorted| ensures Less(fold(sorted[i].path), fold(e.path)) {
          if i < |front| {
            assert Less(fold(sorted[i].path), fold(sorted[|sorted| - 1].path));
            LessTransitive(fold(sorted[i].path), fold(last.path), fold(e.path));
          }
        }
      }
    }
  }

  lemma {:induction false} SortedRises(fold: string -> string, entries: seq<Entry>, k: nat)
    requires Valid(fold, entries) && k <= |entries|
    ensures Rising(fold, Sorted(fold, entries, k))
    ensures forall x :: x in Sorted(fold, entries, k) <==> x in entries[..k]
  {
    if k > 0 {
      SortedRises(fold, entries, k - 1);
      assert entries[..k] == entries[..k - 1] + [entries[k - 1]];
      var before, e := Sorted(fold, entries, k - 1), entries[k - 1];
      forall x | x in before ensures fold(x.path) != fold(e.path) {
        var i :| 0 <= i < k - 1 && entries[..k - 1][i] == x;
        assert entries[i] == x;
      }
      InsertRises(fold, before, e);
    }
  }

  // ---------- The text ----------

  function Line(e: Entry): string { e.path + "\0" + e.sha256 + "\n" }

  /** The lines of the first `k` entries. */
  function Lines(entries: seq<Entry>, k: nat): string
    requires k <= |entries|
  {
    if k == 0 then "" else Lines(entries, k - 1) + Line(entries[k - 1])
  }

  /** The text that is hashed. */
  function Text(fold: string -> string, entries: seq<Entry>): string {
    var sorted := Sorted(fold, entries, |entries|);
    DOMAIN + "\0" + Lines(sorted, |sorted|)
  }

  function Compute(fold: string -> string, entries: seq<Entry>): Result {
    var fault := FirstFault(fold, entries, |entries|);
    if fault.Some? then Failure(fault.value) else Root(Sha256(Text(fold, entries)))
  }

  /** The loops: validation with the keys seen so far, then one update per entry in order. */
  method ComputeManifestRoot(fold: string -> string, entries: seq<Entry>) returns (result: Result)
    ensures result == Compute(fold, entries)
  {
    var seen: set<string> := {};
    for i := 0 to |entries|
      invariant seen == Keys(fold, entries[..i])
      invariant FirstFault(fold, entries, i).None?
    {
      var entry := entries[i];
      var fault := None;
      if !IsManifestPath(entry.path) {
        fault := Some(InvalidPath);
      } else if !IsSha256Hex(entry.sha256) {
        fault := Some(InvalidSha256);
      } else if !(0 <= entry.size <= MAX_SAFE_INTEGER) {
        fault := Some(InvalidSize);
      } else if fold(entry.path) in seen {
        fault := Some(DuplicatePath);
      }
      assert fault == FaultOf(fold, entries[..i], entry);
      if fault.Some? {
        FaultLasts(fold, entries, i + 1, |entries|);
        return Failure(fault.value);
      }
      seen := seen + {fold(entry.path)};
      MoreKeys(fold, entries, i);
    }
    var sorted := Sorted(fold, entries, |entries|);
    var text := DOMAIN + "\0";
    for i := 0 to |sorted|
      invariant text == DOMAIN + "\0" + Lines(sorted, i)
    {
      text := text + (sorted[i].path + "\0" + sorted[i].sha256 + "\n");
    }
    result := Root(Sha256(text));
  }

  lemma MoreKeys(fold: string -> string, entries: seq<Entry>, i: nat)
    requires i < |entries|
    ensures Keys(fold, entries[..i + 1]) == Keys(fold, entries[..i]) + {fold(entries[i].path)}
  {
    var before, all := entries[..i], entries[..i + 1];
    forall x | x in Keys(fold, all) ensures x in Keys(fold, before) + {fold(entries[i].path)} {
      var k :| 0 <= k < |all| && fold(all[k].path) == x;
      if k < i {
        assert before[k] == all[k];
      }
    }
    forall x | x in Keys(fold, before) ensures x in Keys(fold, all) {
      var k :| 0 <= k < |before| && fold(before[k].path) == x;
      assert all[k] == before[k];
    }
    assert all[i] == entries[i];
  }

  lemma {:induction false} FaultLasts(fold: string -> string, entries: seq<Entry>, k: nat, n: nat)
    requires k <= n <= |entries| && FirstFault(fold, entries, k).Some?
    ensures FirstFault(fold, entries, n) == FirstFault(fold, entries, k)
  {
    if k < n {
      FaultLasts(fold, entries, k, n - 1);
    }
  }

  /** A path, a null character, its digest and a line feed, for every entry in turn. */
  function Listed(entries: seq<Entry>): string {
    if entries == [] then ""
    else entries[0].path + "\0" + entries[0].sha256 + "\n" + Listed(entries[1..])
  }

  lemma {:induction false} LinesAreListed(entries: seq<Entry>, k: nat)
    requires k <= |entries|
    ensures Lines(entries, k) + Listed(entries[k..]) == Listed(entries)
  {
    if k > 0 {
      LinesAreListed(entries, k - 1);
      var e := entries[k - 1];
      assert entries[k - 1..][1..] == entries[k..] && entries[k - 1..][0] == e;
      assert Lines(entries, k - 1) + (Line(e) + Listed(entries[k..])) == Lines(entries, k) + Listed(entries[k..]);
    }
  }

  /** The root of a faultless list is the digest of the domain and of its entries by rising folded path. */
  lemma RootIsOf(fold: string -> string, entries: seq<Entry>) returns (sorted: seq<Entry>)
    requires Valid(fold, entries)
    ensures Rising(fold, sorted) && forall x :: x in sorted <==> x in entries
    ensures Compute(fold, entries) == Root(Sha256("rotk-manifest-v1" + "\0" + Listed(sorted)))
  {
    hide EntryOk;
    sorted := Sorted(fold, entries, |entries|);
    assert entries[..|entries|] == entries;
    FaultlessIsValid(fold, entries, |entries|);
    SortedRises(fold, entries, |entries|);
    LinesAreListed(sorted, |sorted|);
    hide Sorted, Lines, Listed, Rising, Valid;
    EndOfList(sorted);
  }

  lemma EndOfList(entries: seq<Entry>)
    ensures Lines(entries, |entries|) + Listed(entries[|entries|..]) == Lines(entries, |entries|)
  {
  }

  // ---------- The root is canonical ----------

  /** What the root is about. */
  function Pair(e: Entry): (string, string) { (e.path, e.sha256) }

  ghost function Pairs(entries: seq<Entry>): set<(string, string)> {
    set i | 0 <= i < |entries| :: Pair(entries[i])
  }

  /** Two lists that agree entry by entry on path and digest. */
  ghost predicate SamePairs(s: seq<Entry>, t: seq<Entry>) {
    |s| == |t| && forall i :: 0 <= i < |s| ==> Pair(s[i]) == Pair(t[i])
  }

  predicate EndsLine(text: string) { text == "" || text[|text| - 1] == '\n' }

  lemma LineShape(e: Entry)
    requires EntryOk(e)
    ensures var line := Line(e);
            && |line| == |e.path| + 66
            && line[|line| - 1] == '\n'
            && (forall i :: 0 <= i < |line| - 1 ==> line[i] != '\n')
            && line[..|e.path|] == e.path
            && line[|e.path| + 1..|e.path| + 65] == e.sha256
  {
    var line := Line(e);
    forall i | 0 <= i < |line| - 1 ensures line[i] != '\n' {
      if i < |e.path| {
        assert !IsForbiddenChar(e.path[i]);
      } else if i > |e.path| {
        assert IsHexDigit(e.sha256[i - |e.path| - 1]);
      }
    }
  }

  /** The last line of a text can be read back. */
  lemma LastLine(a: string, x: Entry, b: string, y: Entry)
    requires EntryOk(x) && EntryOk(y) && EndsLine(a) && EndsLine(b)
    requires a + Line(x) == b + Line(y)
    ensures a == b && Pair(x) == Pair(y)
  {
    var text := a + Line(x);
    hide Line, EntryOk;
    NoBreakInside(a, x, |a|);
    NoBreakInside(b, y, |b|);
    assert |a| > 0 ==> text[|a| - 1] == '\n';
    assert |b| > 0 ==> text[|b| - 1] == '\n';
    if |a| > |b| {
      NoBreakInside(b, y, |a| - 1);
    }
    if |b| > |a| {
      NoBreakInside(a, x, |b| - 1);
    }
    assert a == text[..|a|] == b;
    assert Line(x) == text[|a|..] == Line(y);
    LineShape(x);
    LineShape(y);
  }

  /** A line has its only break at its end. */
  lemma NoBreakInside(b: string, y: Entry, i: nat)
    requires EntryOk(y) && |b| <= i
    ensures i + 1 < |b + Line(y)| ==> (b + Line(y))[i] != '\n'
    ensures Line(y) != ""
  {
    LineShape(y);
    hide Line;
  }

  lemma {:induction false} LinesEnd(s: seq<Entry>, k: nat)
    requires k <= |s| && forall i :: 0 <= i < k ==> EntryOk(s[i])
    ensures EndsLine(Lines(s, k)) && (k > 0 ==> Lines(s, k) != "")
  {
    if k > 0 {
      LinesEnd(s, k - 1);
      LineShape(s[k - 1]);
    }
  }

  /** Different pairs make different texts. */
  lemma {:induction false} LinesInjective(s: seq<Entry>, k: nat, t: seq<Entry>, n: nat)
    requires k <= |s| && n <= |t| && Lines(s, k) == Lines(t, n)
    requires forall i :: 0 <= i < |s| ==> EntryOk(s[i])
    requires forall i :: 0 <= i < |t| ==> EntryOk(t[i])
    ensures SamePairs(s[..k], t[..n])
  {
    hide EntryOk, Line, Pair;
    LinesEnd(s, k);
    LinesEnd(t, n);
    if k > 0 && n > 0 {
      LinesEnd(s, k - 1);
      LinesEnd(t, n - 1);
      LastLine(Lines(s, k - 1), s[k - 1], Lines(t, n - 1), t[n - 1]);
      LinesInjective(s, k - 1, t, n - 1);
      forall i | 0 <= i < k ensures Pair(s[..k][i]) == Pair(t[..n][i]) {
        if i < k - 1 {
          assert Pair(s[..k - 1][i]) == Pair(t[..n - 1][i]);
        }
      }
    }
  }

  lemma {:induction false} SameLines(s: seq<Entry>, t: seq<Entry>, k: nat)
    requires SamePairs(s, t) && k <= |s|
    ensures Lines(s, k) == Lines(t, k)
  {
    if k > 0 {
      SameLines(s, t, k - 1);
      assert Pair(s[k - 1]) == Pair(t[k - 1]);
    }
  }

  /** Rising lists over the same pairs are the same list of pairs. */
  lemma {:induction false} RisingUnique(fold: string -> string, s: seq<Entry>, t: seq<Entry>)
    requires Rising(fold, s) && Rising(fold, t) && Pairs(s) == Pairs(t)
    ensures SamePairs(s, t)
    decreases |s|
  {
    NoPairs(s);
    NoPairs(t);
    if s != [] && t != [] {
      LastAgrees(fold, s, t);
      var s', t' := s[..|s| - 1], t[..|t| - 1];
      DropLast(fold, s);
      DropLast(fold, t);
      hide Pair, Rising, Pairs;
      RisingUnique(fold, s', t');
      forall i | 0 <= i < |s| ensures Pair(s[i]) == Pair(t[i]) {
        if i < |s'| {
          assert Pair(s'[i]) == Pair(t'[i]);
        }
      }
    }
  }

  lemma NoPairs(s: seq<Entry>)
    ensures Pairs(s) == {} <==> s == []
  {
    if s != [] {
      assert Pair(s[0]) in Pairs(s);
    }
  }

  lemma LastAgrees(fold: string -> string, s: seq<Entry>, t: seq<Entry>)
    requires Rising(fold, s) && Rising(fold, t) && Pairs(s) == Pairs(t) && s != [] && t != []
    ensures Pair(s[|s| - 1]) == Pair(t[|t| - 1])
  {
    var x, y := s[|s| - 1], t[|t| - 1];
    assert Pair(x) in Pairs(t) && Pair(y) in Pairs(s);
    var i :| 0 <= i < |t| && Pair(t[i]) == Pair(x);
    var j :| 0 <= j < |s| && Pair(s[j]) == Pair(y);
    if i < |t| - 1 && j < |s| - 1 {
      assert Less(fold(x.path), fold(y.path)) && Less(fold(y.path), fold(x.path));
      LessAsymmetric(fold(x.path), fold(y.path));
    }
  }

  lemma DropLast(fold: string -> string, s: seq<Entry>)
    requires Rising(fold, s) && s != []
    ensures Rising(fold, s[..|s| - 1])
    ensures Pairs(s[..|s| - 1]) == Pairs(s) - {Pair(s[|s| - 1])}
  {
    var front, last := s[..|s| - 1], s[|s| - 1];
    forall i | 0 <= i < |front| ensures Pair(front[i]) != Pair(last) {
      LessAsymmetric(fold(s[i].path), fold(last.path));
    }
    forall p | p in Pairs(s) && p != Pair(last) ensures p in Pairs(front) {
      var i :| 0 <= i < |s| && Pair(s[i]) == p;
      assert front[i] == s[i];
    }
    forall p | p in Pairs(front) ensures p in Pairs(s) && p != Pair(last) {
      var i :| 0 <= i < |front| && Pair(front[i]) == p;
      assert s[i] == front[i];
    }
  }

  lemma SortedPairs(fold: string -> string, entries: seq<Entry>)
    requires Valid(fold, entries)
    ensures var sorted := Sorted(fold, entries, |entries|);
            && Rising(fold, sorted) && Pairs(sorted) == Pairs(entries)
            && forall i :: 0 <= i < |sorted| ==> EntryOk(sorted[i])
  {
    hide EntryOk;
    var sorted := Sorted(fold, entries, |entries|);
    SortedRises(fold, entries, |entries|);
    assert entries[..|entries|] == entries;
    forall i | 0 <= i < |sorted| ensures EntryOk(sorted[i]) {
      assert sorted[i] in entries;
    }
    forall p ensures p in Pairs(sorted) <==> p in Pairs(entries) {
      if p in Pairs(sorted) {
        var i :| 0 <= i < |sorted| && Pair(sorted[i]) == p;
        assert sorted[i] in entries;
      }
      if p in Pairs(entries) {
        var i :| 0 <= i < |entries| && Pair(entries[i]) == p;
        assert entries[i] in sorted;
      }
    }
  }

  /** Two lists that have roots have the same root exactly when they hold the same (path, digest)
      pairs, in whatever order. */
  lemma RootIsCanonical(fold: string -> string, a: seq<Entry>, b: seq<Entry>)
    requires Compute(fold, a).Root? && Compute(fold, b).Root?
    ensures Compute(fold, a) == Compute(fold, b) <==> Pairs(a) == Pairs(b)
  {
    assert a[..|a|] == a && b[..|b|] == b;
    FaultlessIsValid(fold, a, |a|);
    FaultlessIsValid(fold, b, |b|);
    SortedPairs(fold, a);
    SortedPairs(fold, b);
    var s, t := Sorted(fold, a, |a|), Sorted(fold, b, |b|);
    hide Valid, FirstFault, Sorted, EntryOk;
    if Pairs(a) == Pairs(b) {
      RisingUnique(fold, s, t);
      SameLines(s, t, |s|);
    }
    if Compute(fold, a) == Compute(fold, b) {
      var prefix := DOMAIN + "\0";
      assert Lines(s, |s|) == (prefix + Lines(s, |s|))[|prefix|..];
      assert Lines(t, |t|) == (prefix + Lines(t, |t|))[|prefix|..];
      LinesInjective(s, |s|, t, |t|);
      SamePairsSet(s, t);
    }
  }

  lemma SamePairsSet(s: seq<Entry>, t: seq<Entry>)
    requires SamePairs(s[..|s|], t[..|t|])
    ensures Pairs(s) == Pairs(t)
  {
    assert s[..|s|] == s && t[..|t|] == t;
  }

  /** A list has a root exactly when every entry is well-formed and no two denote one file. */
  lemma RootExists(fold: string -> string, entries: seq<Entry>)
    ensures Compute(fold, entries).Root? <==> Valid(fold, entries)
  {
    assert entries[..|entries|] == entries;
    FaultlessIsValid(fold, entries, |entries|);
    hide Valid;
  }
}
