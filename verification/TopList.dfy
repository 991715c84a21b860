/**
 Bounded lists of the largest items seen (native/diagnostics/performance.h:168-175 and
 electron/services/diagnostic-frame-times.ts:170-182).

 Both lists are checked against the first sixteen items of the stable descending sort of
 everything that was ever added.
 */
module TopList {
  import opened Basics

  const TOP_COUNT: nat := 16

  // ---------- The stable descending sort ----------

  /** How many items at the front of a list score at least as much as `x`. */
  function Place<T>(score: T -> real, s: seq<T>, x: T): (p: nat)
    ensures p <= |s|
    ensures forall i :: 0 <= i < p ==> score(s[i]) >= score(x)
    ensures p < |s| ==> score(s[p]) < score(x)
  {
    if s == [] || score(s[0]) < score(x) then 0 else 1 + Place(score, s[1..], x)
  }

  function Insert<T>(score: T -> real, s: seq<T>, x: T): (r: seq<T>)
    ensures |r| == |s| + 1
  {
    var p := Place(score, s, x);
    s[..p] + [x] + s[p..]
  }

  /** The first `k` items, by falling score, equal scores in the order of their arrival. */
  function Sorted<T>(score: T -> real, history: seq<T>, k: nat): (r: seq<T>)
    requires k <= |history|
    ensures |r| == k
  {
    if k == 0 then [] else Insert(score, Sorted(score, history, k - 1), history[k - 1])
  }

  function Sort<T>(score: T -> real, history: seq<T>): seq<T> {
    Sorted(score, history, |history|)
  }

  ghost predicate Falling<T>(score: T -> real, s: seq<T>) {
    forall i, j :: 0 <= i < j < |s| ==> score(s[i]) >= score(s[j])
  }

  lemma PlaceIs<T>(score: T -> real, s: seq<T>, x: T, p: nat)
    requires p <= |s|
    requires forall i :: 0 <= i < p ==> score(s[i]) >= score(x)
    requires p < |s| ==> score(s[p]) < score(x)
    ensures Place(score, s, x) == p
  {
    var q := Place(score, s, x);
    assert !(q < p) && !(p < q);
  }

  lemma InsertFalls<T>(score: T -> real, s: seq<T>, x: T)
    requires Falling(score, s)
    ensures Falling(score, Insert(score, s, x))
  {
    var p := Place(score, s, x);
    forall i | p <= i < |s| ensures score(s[i]) < score(x) {
      if i > p {
        assert score(s[p]) >= score(s[i]);
      }
    }
  }

  lemma {:induction false} SortedFalls<T>(score: T -> real, history: seq<T>, k: nat)
    requires k <= |history|
    ensures Falling(score, Sorted(score, history, k))
  {
    if k > 0 {
      SortedFalls(score, history, k - 1);
      InsertFalls(score, Sorted(score, history, k - 1), history[k - 1]);
    }
  }

  // ---------- It is the stable sort ----------

  /** The indices of a history in the order in which a stable descending sort lists them. */
  function Ranks<T>(score: T -> real, history: seq<T>, k: nat): seq<nat>
    requires k <= |history|
  {
    Sorted(IndexScore(score, history), Indices(|history|), k)
  }

  function Indices(n: nat): seq<nat> { seq(n, i => i) }

  function IndexScore<T>(score: T -> real, history: seq<T>): nat -> real {
    (i: nat) => if i < |history| then score(history[i]) else 0.0
  }

  /** Item `i` goes before item `j`: it scores more, or as much and came first. */
  predicate Before<T>(score: T -> real, history: seq<T>, i: nat, j: nat)
    requires i < |history| && j < |history|
  {
    score(history[i]) > score(history[j]) || (score(history[i]) == score(history[j]) && i < j)
  }

  /** A list of all the first `k` indices, each once, in order. */
  ghost predicate IsRanking<T>(score: T -> real, history: seq<T>, k: nat, ranks: seq<nat>)
    requires k <= |history|
  {
    && |ranks| == k
    && (forall i :: 0 <= i < |ranks| ==> ranks[i] < k)
    && (forall i :: 0 <= i < k ==> i in ranks)
    && (forall i, j :: 0 <= i < j < |ranks| ==> Before(score, history, ranks[i], ranks[j]))
  }

  /** `Sort` lists the items of a history in the order of their ranking: every item once, larger
      scores first, and equal scores in the order of their arrival. */
  lemma {:induction false} SortIsStable<T>(score: T -> real, history: seq<T>, k: nat)
    requires k <= |history|
    ensures IsRanking(score, history, k, Ranks(score, history, k))
    ensures forall i :: 0 <= i < k ==> Sorted(score, history, k)[i] == history[Ranks(score, history, k)[i]]
  {
    if k > 0 {
      SortIsStable(score, history, k - 1);
      var s, r := Sorted(score, history, k - 1), Ranks(score, history, k - 1);
      var p := Place(score, s, history[k - 1]);
      RankPlace(score, history, k - 1, s, r, p);
      InsertRanks(score, history, k, r, p);
      RanksGrow(score, history, k);
      InsertedMatch(history, s, r, p, k - 1);
    }
  }

  lemma RanksGrow<T>(score: T -> real, history: seq<T>, k: nat)
    requires 0 < k <= |history|
    ensures Ranks(score, history, k) == Insert<nat>(IndexScore(score, history), Ranks(score, history, k - 1), k - 1)
  {
    assert Indices(|history|)[k - 1] == k - 1;
  }

  lemma InsertedMatch<T>(history: seq<T>, s: seq<T>, r: seq<nat>, p: nat, k: nat)
    requires |s| == |r| && p <= |s| && k < |history|
    requires forall i :: 0 <= i < |r| ==> r[i] < |history| && s[i] == history[r[i]]
    ensures var t, q := s[..p] + [history[k]] + s[p..], r[..p] + [k] + r[p..];
            forall i :: 0 <= i < |q| ==> q[i] < |history| && t[i] == history[q[i]]
  {
  }

  /** An item goes to the same place among the items and among their ranks. */
  lemma RankPlace<T>(score: T -> real, history: seq<T>, k: nat, s: seq<T>, r: seq<nat>, p: nat)
    requires k < |history| && |s| == |r| && p == Place(score, s, history[k])
    requires forall i :: 0 <= i < |r| ==> r[i] < |history| && s[i] == history[r[i]]
    ensures Place<nat>(IndexScore(score, history), r, k) == p
  {
    PlaceIs<nat>(IndexScore(score, history), r, k, p);
  }

  lemma InsertRanks<T>(score: T -> real, history: seq<T>, k: nat, r: seq<nat>, p: nat)
    requires 0 < k <= |history| && IsRanking(score, history, k - 1, r) && p <= |r|
    requires forall i :: 0 <= i < p ==> score(history[r[i]]) >= score(history[k - 1])
    requires p < |r| ==> score(history[r[p]]) < score(history[k - 1])
    ensures IsRanking(score, history, k, r[..p] + [k - 1] + r[p..])
  {
    var t := r[..p] + [k - 1] + r[p..];
    forall i: nat | i < k ensures i in t {
      InsertHas(r, p, k, i);
    }
    forall i | p <= i < |r| ensures score(history[r[i]]) < score(history[k - 1]) {
      if i > p {
        assert Before(score, history, r[p], r[i]);
      }
    }
    forall i, j | 0 <= i < j < |t| ensures Before(score, history, t[i], t[j]) {
      InsertKeepsOrder(score, history, k, r, p, i, j);
    }
  }

  lemma InsertHas(r: seq<nat>, p: nat, k: nat, i: nat)
    requires p <= |r| && i < k && (i == k - 1 || i in r)
    ensures i in r[..p] + [k - 1] + r[p..]
  {
    var t := r[..p] + [k - 1] + r[p..];
    if i == k - 1 {
      assert t[p] == i;
    } else {
      var j :| 0 <= j < |r| && r[j] == i;
      assert t[if j < p then j else j + 1] == i;
    }
  }

  lemma InsertKeepsOrder<T>(score: T -> real, history: seq<T>, k: nat, r: seq<nat>, p: nat, i: nat, j: nat)
    requires 0 < k <= |history| && IsRanking(score, history, k - 1, r) && p <= |r| && i < j <= |r|
    requires forall i :: 0 <= i < p ==> score(history[r[i]]) >= score(history[k - 1])
    requires forall i :: p <= i < |r| ==> score(history[r[i]]) < score(history[k - 1])
    ensures var t := r[..p] + [k - 1] + r[p..];
            t[i] < k && t[j] < k && Before(score, history, t[i], t[j])
  {
    var t := r[..p] + [k - 1] + r[p..];
    if i != p && j != p {
      var a, b := if i < p then i else i - 1, if j < p then j else j - 1;
      assert t[i] == r[a] && t[j] == r[b];
      assert Before(score, history, r[a], r[b]);
    }
  }

  // ---------- The first sixteen ----------

  /** The first sixteen of the stable descending sort of a whole history. */
  function Top<T>(score: T -> real, history: seq<T>): seq<T> {
    Sort(score, history)[..Min(|history|, TOP_COUNT)]
  }

  /** What a bounded list becomes when an item is added. */
  function Push<T>(score: T -> real, top: seq<T>, x: T): seq<T> {
    var longer := Insert(score, top, x);
    longer[..Min(|longer|, TOP_COUNT)]
  }

  /** Dropping what falls off the end loses nothing that could ever come back. */
  lemma TopOfMore<T>(score: T -> real, history: seq<T>, x: T)
    ensures Top(score, history + [x]) == Push(score, Top(score, history), x)
  {
    var s := Sort(score, history);
    SortedPrefix(score, history, x, |history|);
    assert Sort(score, history + [x]) == Insert(score, s, x);
    InsertCut(score, s, x);
  }

  lemma {:induction false} SortedPrefix<T>(score: T -> real, history: seq<T>, x: T, k: nat)
    requires k <= |history|
    ensures Sorted(score, history + [x], k) == Sorted(score, history, k)
  {
    if k > 0 {
      SortedPrefix(score, history, x, k - 1);
    }
  }

  lemma InsertCut<T>(score: T -> real, s: seq<T>, x: T)
    ensures Insert(score, s, x)[..Min(|s| + 1, TOP_COUNT)] == Push(score, s[..Min(|s|, TOP_COUNT)], x)
  {
    var top := s[..Min(|s|, TOP_COUNT)];
    var p := Place(score, s, x);
    var q := Min(p, |top|);
    PlaceIs(score, top, x, q);
    var n := Min(|s| + 1, TOP_COUNT);
    assert Push(score, top, x) == (top[..q] + [x] + top[q..])[..n];
    hide Place, Insert;
    if |s| < TOP_COUNT {
      assert top == s;
    } else if p < TOP_COUNT {
      CutBefore(s, x, p);
    } else {
      CutAfter(s, x, p);
    }
  }

  lemma CutBefore<T>(s: seq<T>, x: T, p: nat)
    requires p < TOP_COUNT <= |s|
    ensures var top := s[..TOP_COUNT];
            (s[..p] + [x] + s[p..])[..TOP_COUNT] == (top[..p] + [x] + top[p..])[..TOP_COUNT]
  {
    var top := s[..TOP_COUNT];
    var a, b := s[..p] + [x] + s[p..], top[..p] + [x] + top[p..];
    forall i | 0 <= i < TOP_COUNT ensures a[i] == b[i] {
    }
  }

  lemma CutAfter<T>(s: seq<T>, x: T, p: nat)
    requires TOP_COUNT <= p <= |s|
    ensures var top := s[..TOP_COUNT];
            (s[..p] + [x] + s[p..])[..TOP_COUNT] == (top[..|top|] + [x] + top[|top|..])[..TOP_COUNT]
  {
    var top := s[..TOP_COUNT];
    assert (s[..p] + [x] + s[p..])[..TOP_COUNT] == top;
    assert (top[..|top|] + [x] + top[|top|..])[..TOP_COUNT] == top;
  }

  /** Sorting a list that was already sorted but for its last item inserts that item. */
  lemma SortingInserts<T>(score: T -> real, top: seq<T>, x: T)
    requires Falling(score, top)
    ensures Sort(score, top + [x]) == Insert(score, top, x)
  {
    SortedPrefix(score, top, x, |top|);
    SortedIsFixed(score, top, |top|);
    assert top[..|top|] == top;
  }

  lemma {:induction false} SortedIsFixed<T>(score: T -> real, s: seq<T>, k: nat)
    requires Falling(score, s) && k <= |s|
    ensures Sorted(score, s, k) == s[..k]
  {
    if k > 0 {
      SortedIsFixed(score, s, k - 1);
      PlaceIs(score, s[..k - 1], s[k - 1], k - 1);
    }
  }

  lemma TopFalls<T>(score: T -> real, history: seq<T>)
    ensures Falling(score, Top(score, history))
  {
    SortedFalls(score, history, |history|);
  }

  lemma PushBelow<T>(score: T -> real, top: seq<T>, x: T)
    requires |top| == TOP_COUNT == Place(score, top, x)
    ensures Push(score, top, x) == top
  {
  }

  /** Shifting the lower items down by one and storing the new one at its place pushes it. */
  lemma ShiftedIsPush<T>(score: T -> real, top: seq<T>, x: T, shifted: seq<T>)
    requires |shifted| == Min(|top| + 1, TOP_COUNT) && Place(score, top, x) < |shifted|
    requires forall k :: 0 <= k < Place(score, top, x) ==> shifted[k] == top[k]
    requires shifted[Place(score, top, x)] == x
    requires forall k :: Place(score, top, x) < k < |shifted| ==> shifted[k] == top[k - 1]
    ensures shifted == Push(score, top, x)
  {
    IsCut(top, x, Place(score, top, x), shifted);
  }

  lemma IsCut<T>(s: seq<T>, x: T, p: nat, r: seq<T>)
    requires |r| <= |s| + 1 && p < |r|
    requires forall k :: 0 <= k < p ==> r[k] == s[k]
    requires r[p] == x
    requires forall k :: p < k < |r| ==> r[k] == s[k - 1]
    ensures r == (s[..p] + [x] + s[p..])[..|r|]
  {
    var longer := s[..p] + [x] + s[p..];
    forall k | 0 <= k < |r| ensures r[k] == longer[k] {
    }
  }

  // ---------- The two lists ----------

  /** The list that is pushed to, sorted and popped. */
  class SortedList<T> {
    const score: T -> real
    var items: seq<T>
    ghost var history: seq<T>

    ghost predicate Valid()
      reads this
    {
      items == Top(score, history)
    }

    constructor (score: T -> real)
      ensures Valid() && history == [] && this.score == score
    {
      this.score, items, history := score, [], [];
    }

    method Add(x: T)
      requires Valid()
      modifies this
      ensures Valid() && history == old(history) + [x]
    {
      TopOfMore(score, history, x);
      TopFalls(score, history);
      SortingInserts(score, items, x);
      items := items + [x];
      items := Sort(score, items);
      if |items| > TOP_COUNT {
        items := items[..|items| - 1];
      }
      history := history + [x];
    }
  }

  /** The array that is shifted in place. */
  class PeakArray<T(0)> {
    const score: T -> real
    const peaks: array<T>
    var count: nat
    ghost var history: seq<T>

    ghost predicate Valid()
      reads this, peaks
    {
      peaks.Length == TOP_COUNT && count <= TOP_COUNT && peaks[..count] == Top(score, history)
    }

    constructor (score: T -> real)
      ensures Valid() && history == [] && this.score == score && fresh(peaks)
    {
      this.score, peaks, count, history := score, new T[TOP_COUNT], 0, [];
    }

    method AddPeak(peak: T)
      requires Valid()
      modifies this`count, this`history, peaks
      ensures Valid() && history == old(history) + [peak]
    {
      TopOfMore(score, history, peak);
      ghost var top := peaks[..count];
      var position := FindPlace(peak);
      hide Place, Top, Insert;
      history := history + [peak];
      if position == TOP_COUNT {
        PushBelow(score, top, peak);
        return;
      }
      if count < TOP_COUNT {
        count := count + 1;
      }
      ShiftIn(position, count - 1, peak);
      ShiftedIsPush(score, top, peak, peaks[..count]);
    }

    method FindPlace(peak: T) returns (position: nat)
      requires count <= peaks.Length
      ensures position == Place(score, peaks[..count], peak)
    {
      position := 0;
      while position < count && score(peaks[position]) >= score(peak)
        invariant position <= count
        invariant forall i :: 0 <= i < position ==> score(peaks[i]) >= score(peak)
      {
        position := position + 1;
      }
      PlaceIs(score, peaks[..count], peak, position);
    }

    /** Shift the peaks from `position` one place towards `last`, and store a new one. */
    method ShiftIn(position: nat, last: nat, peak: T)
      requires position <= last < peaks.Length
      modifies peaks
      ensures forall k :: 0 <= k < position ==> peaks[k] == old(peaks[k])
      ensures peaks[position] == peak
      ensures forall k :: position < k <= last ==> peaks[k] == old(peaks[k - 1])
    {
      var i := last;
      while i > position
        invariant position <= i <= last
        invariant forall k :: 0 <= k <= i ==> peaks[k] == old(peaks[k])
        invariant forall k :: i < k <= last ==> peaks[k] == old(peaks[k - 1])
      {
        peaks[i] := peaks[i - 1];
        i := i - 1;
      }
      peaks[position] := peak;
    }
  }
}
