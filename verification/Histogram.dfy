/**
 The frame time statistics of one swap chain (electron/services/diagnostic-frame-times.ts:152-202).

 The counters and bins are checked against the whole list of intervals, and a percentile against
 the sorted list.
 */
module Histogram {
  import opened Basics
  import opened Options
  import opened TopList

  const HISTOGRAM_MS: seq<real> :=
    [1.0, 2.0, 4.0, 8.0, 12.0, 16.667, 20.0, 25.0, 33.334, 50.0, 75.0, 100.0, 150.0, 250.0, 500.0, 1000.0, 2000.0,
     5000.0, 10000.0, 30000.0, 28800000.0]
  const LONG_FRAME_MS: real := 50.0
  const RELATIVE_MIN_MS: real := 8.0
  const RELATIVE_MULTIPLIER: real := 3.0
  const EWMA_ALPHA: real := 0.05

  // ---------- What the whole list says ----------

  ghost predicate Rising(edges: seq<real>) {
    edges != [] && forall i, j :: 0 <= i < j < |edges| ==> edges[i] < edges[j]
  }

  lemma HistogramRises()
    ensures Rising(HISTOGRAM_MS)
  {
  }

  function Last(edges: seq<real>): real
    requires edges != []
  {
    edges[|edges| - 1]
  }

  /** The first bin whose upper edge is not below `x`. */
  function Bin(edges: seq<real>, x: real): (i: nat)
    requires edges != [] && x <= Last(edges)
    ensures i < |edges| && x <= edges[i]
    ensures forall j :: 0 <= j < i ==> edges[j] < x
  {
    if x <= edges[0] then 0 else 1 + Bin(edges[1..], x)
  }

  /** All intervals are at most the last edge. */
  ghost predicate Bounded(edges: seq<real>, s: seq<real>) {
    edges != [] && forall i :: 0 <= i < |s| ==> s[i] <= Last(edges)
  }

  function InBin(edges: seq<real>, s: seq<real>, i: nat): nat
    requires Bounded(edges, s)
  {
    if s == [] then 0
    else InBin(edges, s[..|s| - 1], i) + if Bin(edges, s[|s| - 1]) == i then 1 else 0
  }

  function AtMost(s: seq<real>, e: real): nat {
    if s == [] then 0 else AtMost(s[..|s| - 1], e) + if s[|s| - 1] <= e then 1 else 0
  }

  function AtLeast(s: seq<real>, e: real): nat {
    if s == [] then 0 else AtLeast(s[..|s| - 1], e) + if s[|s| - 1] >= e then 1 else 0
  }

  function Positive(history: seq<real>): seq<real> {
    if history == [] then []
    else
      var x := history[|history| - 1];
      Positive(history[..|history| - 1]) + if x > 0.0 then [x] else []
  }

  function Sum(s: seq<real>): real {
    if s == [] then 0.0 else Sum(s[..|s| - 1]) + s[|s| - 1]
  }

  function Total(counts: seq<nat>): nat {
    if counts == [] then 0 else Total(counts[..|counts| - 1]) + counts[|counts| - 1]
  }

  function Averaged(before: Option<real>, x: real): real {
    if before.None? then x else EWMA_ALPHA * x + (1.0 - EWMA_ALPHA) * before.value
  }

  /** The moving average of the intervals; the first one starts it. */
  function Baseline(s: seq<real>): Option<real> {
    if s == [] then None
    else
      var x := s[|s| - 1];
      Some(Averaged(Baseline(s[..|s| - 1]), x))
  }

  function Threshold(baseline: real): real {
    if RELATIVE_MULTIPLIER * baseline < RELATIVE_MIN_MS then RELATIVE_MIN_MS else RELATIVE_MULTIPLIER * baseline
  }

  /** How many intervals were far above the average before them. */
  function Stutters(s: seq<real>): nat {
    if s == [] then 0
    else
      var before := Baseline(s[..|s| - 1]);
      Stutters(s[..|s| - 1]) + if before.Some? && s[|s| - 1] > Threshold(before.value) then 1 else 0
  }

  // ---------- Sorting up ----------

  function Negated(): real -> real { (x: real) => -x }

  /** The intervals from the smallest to the largest. */
  function Ascending(s: seq<real>): seq<real> { Sort(Negated(), s) }

  lemma InsertCounts(s: seq<real>, x: real, p: nat, e: real)
    requires p <= |s|
    ensures AtMost(s[..p] + [x] + s[p..], e) == AtMost(s, e) + if x <= e then 1 else 0
  {
    AtMostJoins(s[..p] + [x], s[p..], e);
    AtMostJoins(s[..p], [x], e);
    AtMostJoins(s[..p], s[p..], e);
    assert s[..p] + s[p..] == s;
    assert AtMost([x], e) == AtMost([], e) + if x <= e then 1 else 0;
  }

  lemma {:induction false} AtMostJoins(a: seq<real>, b: seq<real>, e: real)
    ensures AtMost(a + b, e) == AtMost(a, e) + AtMost(b, e)
  {
    if b == [] {
      assert a + b == a;
    } else {
      AtMostJoins(a, b[..|b| - 1], e);
      assert (a + b)[..|a + b| - 1] == a + b[..|b| - 1];
    }
  }

  lemma {:induction false} SortingCounts(s: seq<real>, k: nat, e: real)
    requires k <= |s|
    ensures AtMost(Sorted(Negated(), s, k), e) == AtMost(s[..k], e)
  {
    if k > 0 {
      SortingCounts(s, k - 1, e);
      var t, x := Sorted(Negated(), s, k - 1), s[k - 1];
      InsertCounts(t, x, Place(Negated(), t, x), e);
      assert s[..k][..k - 1] == s[..k - 1];
    }
  }

  lemma AscendingCounts(s: seq<real>, e: real)
    ensures |Ascending(s)| == |s| && AtMost(Ascending(s), e) == AtMost(s, e)
  {
    SortingCounts(s, |s|, e);
    assert s[..|s|] == s;
  }

  lemma AscendingRises(s: seq<real>)
    ensures forall i, j :: 0 <= i < j < |Ascending(s)| ==> Ascending(s)[i] <= Ascending(s)[j]
  {
    SortedFalls(Negated(), s, |s|);
    forall i, j | 0 <= i < j < |Ascending(s)| ensures Ascending(s)[i] <= Ascending(s)[j] {
      assert Negated()(Ascending(s)[i]) >= Negated()(Ascending(s)[j]);
    }
  }

  /** In a rising list the `k`-th item is at most `e` exactly when `k` items are. */
  lemma {:induction false} RankIs(s: seq<real>, k: nat, e: real)
    requires 0 < k <= |s| && forall i, j :: 0 <= i < j < |s| ==> s[i] <= s[j]
    ensures s[k - 1] <= e <==> AtMost(s, e) >= k
  {
    var init := s[..|s| - 1];
    AtMostBound(init, e);
    if k < |s| {
      RankIs(init, k, e);
    } else if s[k - 1] <= e {
      AllAtMost(s, e);
    }
  }

  lemma {:induction false} AtMostBound(s: seq<real>, e: real)
    ensures AtMost(s, e) <= |s|
  {
    if s != [] {
      AtMostBound(s[..|s| - 1], e);
    }
  }

  lemma {:induction false} AllAtMost(s: seq<real>, e: real)
    requires forall i :: 0 <= i < |s| ==> s[i] <= e
    ensures AtMost(s, e) == |s|
  {
    if s != [] {
      AllAtMost(s[..|s| - 1], e);
    }
  }

  // ---------- The bins ----------

  /** The bins after some intervals. */
  function Bins(edges: seq<real>, s: seq<real>): (bins: seq<nat>)
    requires Bounded(edges, s)
    ensures |bins| == |edges|
  {
    seq(|edges|, i requires 0 <= i < |edges| => InBin(edges, s, i))
  }

  lemma {:induction false} TotalOfMore(bins: seq<nat>, k: nat)
    requires k < |bins|
    ensures Total(bins[k := bins[k] + 1]) == Total(bins) + 1
  {
    var n := |bins| - 1;
    var more := bins[k := bins[k] + 1];
    if k == n {
      assert more[..n] == bins[..n];
    } else {
      TotalOfMore(bins[..n], k);
      assert more[..n] == bins[..n][k := bins[k] + 1];
    }
  }

  lemma {:induction false} TotalOfNone(bins: seq<nat>)
    requires forall i :: 0 <= i < |bins| ==> bins[i] == 0
    ensures Total(bins) == 0
  {
    if bins != [] {
      TotalOfNone(bins[..|bins| - 1]);
    }
  }

  lemma BinsOfMore(edges: seq<real>, s: seq<real>, x: real)
    requires Bounded(edges, s + [x])
    ensures Bounded(edges, s) && x <= Last(edges)
    ensures var k := Bin(edges, x);
            Bins(edges, s + [x]) == Bins(edges, s)[k := Bins(edges, s)[k] + 1]
  {
    assert (s + [x])[|s|] == x && (s + [x])[..|s|] == s;
    assert forall i :: 0 <= i < |s| ==> s[i] == (s + [x])[i];
  }

  lemma BinBelow(edges: seq<real>, x: real, i: nat)
    requires Rising(edges) && x <= Last(edges) && i < |edges|
    ensures x <= edges[i] <==> Bin(edges, x) <= i
  {
    var k := Bin(edges, x);
    if k < i {
      assert edges[k] < edges[i];
    }
  }

  /** The bins up to `i` together hold the intervals that are at most its edge. */
  lemma {:induction false} BinsAreCumulative(edges: seq<real>, s: seq<real>, i: nat)
    requires Rising(edges) && Bounded(edges, s) && i < |edges|
    ensures Total(Bins(edges, s)[..i + 1]) == AtMost(s, edges[i])
  {
    if s == [] {
      TotalOfNone(Bins(edges, s)[..i + 1]);
    } else {
      var init, x := s[..|s| - 1], s[|s| - 1];
      assert s == init + [x];
      BinsOfMore(edges, init, x);
      BinsAreCumulative(edges, init, i);
      BinBelow(edges, x, i);
      CutOfMore(Bins(edges, init), Bin(edges, x), i + 1);
    }
  }

  lemma CutOfMore(bins: seq<nat>, k: nat, n: nat)
    requires k < |bins| && n <= |bins|
    ensures Total(bins[k := bins[k] + 1][..n]) == Total(bins[..n]) + if k < n then 1 else 0
  {
    var more := bins[k := bins[k] + 1];
    if k < n {
      TotalOfMore(bins[..n], k);
      assert more[..n] == bins[..n][k := bins[k] + 1];
    } else {
      assert more[..n] == bins[..n];
    }
  }

  /** All bins together hold every interval once. */
  lemma BinsHoldAll(edges: seq<real>, s: seq<real>)
    requires Rising(edges) && Bounded(edges, s)
    ensures Total(Bins(edges, s)) == |s|
  {
    BinsAreCumulative(edges, s, |edges| - 1);
    assert Bins(edges, s)[..|edges|] == Bins(edges, s);
    AllAtMost(s, Last(edges));
  }

  // ---------- Percentiles ----------

  /** The rank of a percentile among `n` intervals, counted from one. */
  function Rank(n: nat, fraction: real): int { Ceil(n as real * fraction) }

  lemma RankIsAPlace(n: nat, fraction: real)
    requires n > 0 && 0.0 < fraction <= 1.0
    ensures 0 < Rank(n, fraction) <= n
  {
    var x := n as real * fraction;
    assert 0.0 < x;
    assert x <= n as real;
  }

  /** The running count at bin `i`. */
  function UpTo(bins: seq<nat>, i: nat): nat
    requires i < |bins|
  {
    Total(bins[..i + 1])
  }

  /** The first bin at which the running count reaches `k`. */
  ghost predicate Reaches(bins: seq<nat>, i: nat, k: int) {
    i < |bins| && UpTo(bins, i) >= k && forall j :: 0 <= j < i ==> UpTo(bins, j) < k
  }

  /** It is the bin of the `k`-th smallest interval. */
  lemma ReachedBinHoldsRank(edges: seq<real>, s: seq<real>, i: nat, k: nat)
    requires Rising(edges) && Bounded(edges, s) && 0 < k <= |s| && Reaches(Bins(edges, s), i, k)
    ensures |Ascending(s)| == |s| && Ascending(s)[k - 1] <= Last(edges) && i == Bin(edges, Ascending(s)[k - 1])
  {
    hide Ascending, UpTo, Bins;
    AscendingIsBounded(edges, s);
    var t := Ascending(s);
    AtEdge(edges, s, i, k);
    BinBelow(edges, t[k - 1], i);
    if i > 0 {
      assert UpTo(Bins(edges, s), i - 1) < k;
      AtEdge(edges, s, i - 1, k);
      BinBelow(edges, t[k - 1], i - 1);
    }
  }

  /** The bins up to an edge reach `k` when the `k`-th smallest interval is not above the edge. */
  lemma AtEdge(edges: seq<real>, s: seq<real>, i: nat, k: nat)
    requires Rising(edges) && Bounded(edges, s) && 0 < k <= |s| && i < |edges|
    ensures |Ascending(s)| == |s|
    ensures UpTo(Bins(edges, s), i) >= k <==> Ascending(s)[k - 1] <= edges[i]
  {
    AscendingCounts(s, edges[i]);
    AscendingRises(s);
    RankIs(Ascending(s), k, edges[i]);
    BinsAreCumulative(edges, s, i);
  }

  /** The upper edge of the bin of the interval with this rank. */
  function PercentileOf(edges: seq<real>, s: seq<real>, fraction: real): Option<real>
    requires Bounded(edges, s) && 0.0 < fraction <= 1.0
  {
    if s == [] then None
    else
      RankIsAPlace(|s|, fraction);
      AscendingIsBounded(edges, s);
      Some(edges[Bin(edges, Ascending(s)[Rank(|s|, fraction) - 1])])
  }

  lemma AscendingIsBounded(edges: seq<real>, s: seq<real>)
    requires Bounded(edges, s)
    ensures |Ascending(s)| == |s| && Bounded(edges, Ascending(s))
  {
    var t, n := Ascending(s), |s|;
    AllAtMost(s, Last(edges));
    AscendingCounts(s, Last(edges));
    AscendingRises(s);
    forall i | 0 <= i < n ensures t[i] <= Last(edges) {
      RankIs(t, n, Last(edges));
      assert i < n - 1 ==> t[i] <= t[n - 1];
    }
  }

  /** The percentile is the first edge that so large a share of the intervals does not exceed. */
  lemma PercentileExactly(edges: seq<real>, s: seq<real>, fraction: real, i: nat)
    requires Rising(edges) && Bounded(edges, s) && 0.0 < fraction <= 1.0 && s != [] && i < |edges|
    ensures PercentileOf(edges, s, fraction) == Some(edges[i]) <==>
            && AtMost(s, edges[i]) as real >= |s| as real * fraction
            && forall j :: 0 <= j < i ==> (AtMost(s, edges[j]) as real) < |s| as real * fraction
  {
    hide Ascending, AtMost, Bounded, Rank;
    AscendingIsBounded(edges, s);
    RankIsAPlace(|s|, fraction);
    var k := Rank(|s|, fraction);
    var x := Ascending(s)[k - 1];
    var b := Bin(edges, x);
    forall j | 0 <= j < |edges|
      ensures AtMost(s, edges[j]) as real >= |s| as real * fraction <==> b <= j
    {
      ShareReached(edges, s, fraction, j);
      BinBelow(edges, x, j);
    }
    if b < i {
      assert edges[b] < edges[i];
    } else if i < b {
      assert edges[i] < edges[b];
    }
  }

  lemma ShareReached(edges: seq<real>, s: seq<real>, fraction: real, j: nat)
    requires Rising(edges) && Bounded(edges, s) && 0.0 < fraction <= 1.0 && s != [] && j < |edges|
    ensures 0 < Rank(|s|, fraction) <= |s| == |Ascending(s)|
    ensures AtMost(s, edges[j]) as real >= |s| as real * fraction <==>
            Ascending(s)[Rank(|s|, fraction) - 1] <= edges[j]
  {
    hide Ascending, AtMost, Bounded;
    RankIsAPlace(|s|, fraction);
    AtEdge(edges, s, j, Rank(|s|, fraction));
    BinsAreCumulative(edges, s, j);
  }

  // ---------- The moving average ----------

  /** The average never leaves the range of the intervals. */
  lemma {:induction false} BaselineStaysWithin(s: seq<real>, low: real, high: real)
    requires s != [] && forall i :: 0 <= i < |s| ==> low <= s[i] <= high
    ensures Baseline(s).Some? && low <= Baseline(s).value <= high
  {
    if |s| > 1 {
      BaselineStaysWithin(s[..|s| - 1], low, high);
    }
  }

  /** Every interval after the first draws the average a twentieth of the way towards itself. */
  lemma AverageFollows(s: seq<real>, x: real)
    ensures s == [] ==> Baseline(s + [x]) == Some(x)
    ensures s != [] ==> Baseline(s).Some? && Baseline(s + [x]).Some?
    ensures s != [] ==> (Baseline(s + [x]).value - Baseline(s).value) * 20.0 == x - Baseline(s).value
  {
    assert (s + [x])[..|s|] == s;
  }

  function Power(x: real, n: nat): real { if n == 0 then 1.0 else Power(x, n - 1) * x }

  function Average(s: seq<real>): real { if Baseline(s).Some? then Baseline(s).value else 0.0 }

  /** What came before is forgotten at this pace: after `n` common intervals two averages have drawn
      together by the `n`-th power of nineteen twentieths. */
  lemma {:induction false} AverageForgets(a: seq<real>, b: seq<real>, common: seq<real>)
    requires a != [] && b != []
    ensures Average(a + common) - Average(b + common) == Share(Average(a) - Average(b), Power(0.95, |common|))
  {
    hide Average, Power, Share;
    if common == [] {
      assert a + common == a && b + common == b;
      Undiminished(Average(a) - Average(b));
    } else {
      var init, x := common[..|common| - 1], common[|common| - 1];
      AverageForgets(a, b, init);
      assert a + common == a + init + [x] && b + common == b + init + [x];
      Drawn(a + init, b + init, x);
      Regrouped(Average(a) - Average(b), |init|);
    }
  }

  function Share(x: real, y: real): real { x * y }

  lemma Undiminished(x: real)
    ensures Share(x, Power(0.95, 0)) == x
  {
  }

  lemma Drawn(a: seq<real>, b: seq<real>, x: real)
    requires a != [] && b != []
    ensures Average(a + [x]) - Average(b + [x]) == (Average(a) - Average(b)) * 0.95
  {
    AverageFollows(a, x);
    AverageFollows(b, x);
    hide Baseline;
  }

  lemma Regrouped(x: real, n: nat)
    ensures Share(x, Power(0.95, n)) * 0.95 == Share(x, Power(0.95, n + 1))
  {
  }

  // ---------- Stutters ----------

  /** An interval above eight milliseconds and above three times the average before it. */
  ghost predicate IsStutter(s: seq<real>, i: nat)
    requires i < |s|
  {
    Baseline(s[..i]).Some? && s[i] > 8.0 && s[i] > 3.0 * Baseline(s[..i]).value
  }

  /** The stutters are these, and the first interval is none. */
  lemma {:induction false} StuttersAre(s: seq<real>)
    ensures Stutters(s) == |set i | 0 <= i < |s| && IsStutter(s, i)|
    ensures s != [] ==> !IsStutter(s, 0)
  {
    if s != [] {
      var n := |s| - 1;
      StuttersAre(s[..n]);
      hide IsStutter;
      MoreStutters(s, n);
      assert Stutters(s) == Stutters(s[..n]) + if IsStutter(s, n) then 1 else 0 by { LastStutter(s); }
      NoStutterFirst(s);
    }
  }

  lemma LastStutter(s: seq<real>)
    requires s != []
    ensures Stutters(s) == Stutters(s[..|s| - 1]) + if IsStutter(s, |s| - 1) then 1 else 0
  {
  }

  lemma NoStutterFirst(s: seq<real>)
    requires s != []
    ensures !IsStutter(s, 0)
  {
  }

  lemma MoreStutters(s: seq<real>, n: nat)
    requires n < |s|
    ensures |set i | 0 <= i < n + 1 && IsStutter(s, i)| ==
            |set i | 0 <= i < n && IsStutter(s[..n], i)| + if IsStutter(s, n) then 1 else 0
  {
    var before, after := set i | 0 <= i < n && IsStutter(s[..n], i), set i | 0 <= i < n + 1 && IsStutter(s, i);
    forall i | 0 <= i < n ensures IsStutter(s[..n], i) <==> IsStutter(s, i) {
      assert s[..n][..i] == s[..i];
    }
    hide IsStutter;
    assert after == if IsStutter(s, n) then before + {n} else before;
  }

  // ---------- One chain ----------

  class Chain {
    const edges: seq<real>
    var intervals: nat
    var zeroIntervals: nat
    var sumMs: real
    var minMs: Option<real>
    var maxMs: real
    var longFrames: nat
    var relativeStutters: nat
    var baselineMs: Option<real>
    const bins: array<nat>
    ghost var history: seq<real>

    /** The positive intervals. */
    ghost function Intervals(): seq<real>
      reads this
    {
      Positive(history)
    }

    ghost predicate Valid()
      reads this, bins
    {
      var s := Intervals();
      && Rising(edges) && Bounded(edges, s)
      && intervals == |s| && intervals + zeroIntervals == |history|
      && sumMs == Sum(s) && IsMin(s, minMs) && IsMax(s, maxMs)
      && longFrames == AtLeast(s, LONG_FRAME_MS)
      && relativeStutters == Stutters(s) && baselineMs == Baseline(s)
      && bins[..] == Bins(edges, s)
    }

    constructor ()
      ensures Valid() && history == [] && fresh(bins) && edges == HISTOGRAM_MS
    {
      HistogramRises();
      edges := HISTOGRAM_MS;
      intervals, zeroIntervals, sumMs, minMs, maxMs := 0, 0, 0.0, None, 0.0;
      longFrames, relativeStutters, baselineMs := 0, 0, None;
      bins, history := new nat[|HISTOGRAM_MS|](_ => 0), [];
      new;
      assert bins[..] == Bins(edges, []);
    }

    method Add(ms: real)
      requires Valid() && ms <= Last(edges)
      modifies this, bins
      ensures Valid() && history == old(history) + [ms]
    {
      hide Positive, Bins, Sum, AtLeast, Stutters, Baseline, Averaged, IsMin, IsMax, Rising, Bounded, Threshold, Last;
      ghost var s := Intervals();
      PositiveOfMore(history, ms);
      BoundedOfMore(edges, s, ms);
      history := history + [ms];
      if ms <= 0.0 {
        zeroIntervals := zeroIntervals + 1;
        return;
      }
      StatisticsOfMore(s, ms);
      ExtremesOfMore(s, ms, minMs, maxMs);
      intervals, sumMs := intervals + 1, sumMs + ms;
      minMs := Some(if minMs.Some? && minMs.value < ms then minMs.value else ms);
      maxMs := if maxMs > ms then maxMs else ms;
      Count(s, ms);
      if ms >= LONG_FRAME_MS {
        longFrames := longFrames + 1;
      }
      Track(ms);
    }

    method Track(ms: real)
      modifies this`relativeStutters, this`baselineMs
      ensures relativeStutters ==
              old(relativeStutters) + if old(baselineMs).Some? && ms > Threshold(old(baselineMs).value) then 1 else 0
      ensures baselineMs == Some(Averaged(old(baselineMs), ms))
    {
      var threshold := Threshold(if baselineMs.Some? then baselineMs.value else ms);
      if baselineMs.Some? && ms > threshold {
        relativeStutters := relativeStutters + 1;
      }
      baselineMs := Some(if baselineMs.None? then ms else EWMA_ALPHA * ms + (1.0 - EWMA_ALPHA) * baselineMs.value);
    }

    /** One more interval falls into its bin. */
    method Count(ghost s: seq<real>, ms: real)
      requires Bounded(edges, s + [ms]) && Bounded(edges, s) && ms <= Last(edges)
      requires bins[..] == Bins(edges, s)
      modifies bins
      ensures bins[..] == Bins(edges, s + [ms])
    {
      BinsOfMore(edges, s, ms);
      hide Bins;
      var i := Bin(edges, ms);
      bins[i] := bins[i] + 1;
      assert bins[..] == old(bins[..])[i := old(bins[i]) + 1];
    }

    /** The running count stops at the bin of the interval with the rank of the percentile. */
    method Percentile(fraction: real) returns (r: Option<real>)
      requires Valid() && 0.0 < fraction <= 1.0
      ensures r == PercentileOf(edges, Intervals(), fraction)
      ensures r.None? <==> Intervals() == []
    {
      if intervals == 0 {
        return None;
      }
      ghost var s := Intervals();
      hide Positive, Bins, Sum, AtLeast, Stutters, Baseline, IsMin, IsMax, Ascending, Rank;
      BinsHoldAll(edges, s);
      RankIsAPlace(intervals, fraction);
      var i := FindRank(Rank(intervals, fraction));
      ReachedBinHoldsRank(edges, s, i, Rank(intervals, fraction));
      return Some(edges[i]);
    }

    /** The running count reaches `rank` at some bin. */
    method FindRank(rank: nat) returns (i: nat)
      requires 0 < rank <= Total(bins[..])
      ensures Reaches(bins[..], i, rank)
    {
      assert bins[..bins.Length] == bins[..];
      var count: nat := 0;
      i := 0;
      hide Total, UpTo;
      NextCountNone(bins[..]);
      while i < bins.Length
        invariant i <= bins.Length
        invariant count == Total(bins[..i]) < rank
        invariant forall j :: 0 <= j < i ==> UpTo(bins[..], j) < rank
      {
        NextCount(bins[..], i);
        assert bins[..][..i] == bins[..i] && bins[..][..i + 1] == bins[..i + 1];
        count := count + bins[i];
        if count >= rank {
          return;
        }
        i := i + 1;
      }
      assert false;
    }
  }

  lemma NextCountNone(bins: seq<nat>)
    ensures Total(bins[..0]) == 0
  {
  }

  lemma NextCount(bins: seq<nat>, i: nat)
    requires i < |bins|
    ensures Total(bins[..i + 1]) == UpTo(bins, i) == Total(bins[..i]) + bins[i]
  {
    assert bins[..i + 1][..i] == bins[..i];
  }

  lemma BoundedOfMore(edges: seq<real>, s: seq<real>, ms: real)
    requires Bounded(edges, s) && ms <= Last(edges)
    ensures Bounded(edges, s + [ms])
  {
  }

  lemma PositiveOfMore(history: seq<real>, ms: real)
    ensures Positive(history + [ms]) == if ms > 0.0 then Positive(history) + [ms] else Positive(history)
  {
    assert (history + [ms])[..|history|] == history;
  }

  lemma StatisticsOfMore(s: seq<real>, ms: real)
    ensures Sum(s + [ms]) == Sum(s) + ms
    ensures AtLeast(s + [ms], LONG_FRAME_MS) == AtLeast(s, LONG_FRAME_MS) + if ms >= LONG_FRAME_MS then 1 else 0
    ensures Stutters(s + [ms]) ==
            Stutters(s) + if Baseline(s).Some? && ms > Threshold(Baseline(s).value) then 1 else 0
    ensures Baseline(s + [ms]) == Some(Averaged(Baseline(s), ms))
  {
    assert (s + [ms])[..|s|] == s;
  }

  lemma ExtremesOfMore(s: seq<real>, ms: real, low: Option<real>, high: real)
    requires IsMin(s, low) && IsMax(s, high) && ms > 0.0
    ensures IsMin(s + [ms], Some(if low.Some? && low.value < ms then low.value else ms))
    ensures IsMax(s + [ms], if high > ms then high else ms)
  {
    assert (s + [ms])[|s|] == ms;
    assert forall i :: 0 <= i < |s| ==> (s + [ms])[i] == s[i];
  }

  ghost predicate IsMin(s: seq<real>, m: Option<real>) {
    if s == [] then m == None
    else m.Some? && m.value in s && forall i :: 0 <= i < |s| ==> m.value <= s[i]
  }

  ghost predicate IsMax(s: seq<real>, m: real) {
    if s == [] then m == 0.0 else m in s && forall i :: 0 <= i < |s| ==> s[i] <= m
  }
}
