/** How many runs overlap: the sorted sweep of the concurrency probe, and the summary made with it. */
module Sweep {
  import opened Reals
  import opened Sequences
  import opened Sorting

  datatype Interval = Interval(start: real, end: real)

  /** A start is `+1`, an end is `-1`. */
  datatype Edge = Edge(at: real, delta: int)

  function EdgesOf(intervals: seq<Interval>): (edges: seq<Edge>) {
    Starts(intervals) + Ends(intervals)
  }

  function Starts(intervals: seq<Interval>): seq<Edge> {
    if intervals == [] then [] else [Edge(intervals[0].start, 1)] + Starts(intervals[1..])
  }

  function Ends(intervals: seq<Interval>): seq<Edge> {
    if intervals == [] then [] else [Edge(intervals[0].end, -1)] + Ends(intervals[1..])
  }

  /** The sort key: time first, then ends before starts. */
  predicate Before(a: Edge, b: Edge) {
    a.at < b.at || (a.at == b.at && a.delta <= b.delta)
  }

  ghost predicate Sorted(edges: seq<Edge>) {
    forall i, j :: 0 <= i < j < |edges| ==> Before(edges[i], edges[j])
  }

  function Sort(edges: seq<Edge>): seq<Edge> {
    SortBy(edges, Before)
  }

  // ---- the reference: how many intervals hold an instant -------------------

  predicate Holds(i: Interval, t: real) {
    i.start <= t < i.end
  }

  function Count(intervals: seq<Interval>, t: real): nat {
    if intervals == [] then 0 else (if Holds(intervals[0], t) then 1 else 0) + Count(intervals[1..], t)
  }

  /** The same with intervals that may run backwards: those begun less those ended. */
  function Net(intervals: seq<Interval>, t: real): int {
    if intervals == [] then 0 else Begun(intervals[0], t) + Net(intervals[1..], t)
  }

  function Begun(i: Interval, t: real): int {
    (if i.start <= t then 1 else 0) - (if i.end <= t then 1 else 0)
  }

  /** The maximum, over all instants, of the number of intervals that hold the instant. */
  ghost predicate IsPeak(intervals: seq<Interval>, peak: int) {
    (forall t :: Net(intervals, t) <= peak) && exists t :: Net(intervals, t) == peak
  }

  ghost predicate Proper(intervals: seq<Interval>) {
    forall k :: 0 <= k < |intervals| ==> intervals[k].start <= intervals[k].end
  }

  // ---- the sweep -----------------------------------------------------------

  /** The number running after the first `k` edges. */
  function Running(edges: seq<Edge>, k: nat): int
    requires k <= |edges|
  {
    if k == 0 then 0 else Running(edges, k - 1) + edges[k - 1].delta
  }

  /** The sum of the edges up to an instant, in any order. */
  function SumUpTo(edges: seq<Edge>, t: real): int {
    if edges == [] then 0 else (if edges[0].at <= t then edges[0].delta else 0) + SumUpTo(edges[1..], t)
  }

  /** `peak_overlap`. */
  method PeakOverlap(intervals: seq<Interval>) returns (peak: int)
    ensures IsPeak(intervals, peak)
    ensures Proper(intervals) ==> (forall t :: Count(intervals, t) <= peak) && exists t :: Count(intervals, t) == peak
  {
    var edges := Sort(EdgesOf(intervals));
    SortIsSorted(EdgesOf(intervals));
    var current := 0;
    peak := 0;
    ghost var best := 0;
    for k := 0 to |edges|
      invariant current == Running(edges, k)
      invariant forall j :: 0 <= j <= k ==> Running(edges, j) <= peak
      invariant 0 <= best <= k && Running(edges, best) == peak
      invariant best > 0 ==> edges[best - 1].delta > 0
    {
      current := current + edges[k].delta;
      if current > peak {
        best := k + 1;
        peak := current;
      }
    }
    forall t ensures Net(intervals, t) <= peak {
      var k := UpToIsPrefix(edges, t);
      SumIsNet(intervals, t);
      SumOfPermutation(edges, EdgesOf(intervals), t);
    }
    PeakIsReached(intervals, edges, best, peak);
    if Proper(intervals) { PeakCounts(intervals, peak); }
  }

  /** Of intervals that run forwards, those begun less those ended are those that hold the instant. */
  lemma {:induction false} NetIsCount(intervals: seq<Interval>, t: real)
    requires Proper(intervals)
    ensures Net(intervals, t) == Count(intervals, t)
  {
    if intervals != [] {
      var rest := intervals[1..];
      assert Proper(rest) by { assert forall k :: 0 <= k < |rest| ==> rest[k] == intervals[k + 1]; }
      NetIsCount(rest, t);
      assert intervals[0].start <= intervals[0].end;
    }
  }

  lemma PeakCounts(intervals: seq<Interval>, peak: int)
    requires Proper(intervals) && IsPeak(intervals, peak)
    ensures (forall t :: Count(intervals, t) <= peak) && exists t :: Count(intervals, t) == peak
  {
    forall t ensures Count(intervals, t) == Net(intervals, t) { NetIsCount(intervals, t); }
    var t :| Net(intervals, t) == peak;
    assert Count(intervals, t) == peak;
  }

  lemma SortIsSorted(edges: seq<Edge>)
    ensures Sorted(Sort(edges)) && multiset(Sort(edges)) == multiset(edges)
    ensures forall e :: e in Sort(edges) ==> e in edges
  {
    assert IsOrder(Before);
    SortSorts(edges, Before);
    SortKeeps(edges, Before);
    assert forall e :: e in Sort(edges) ==> e in multiset(edges);
  }

  lemma {:induction false} SumOfPermutation(a: seq<Edge>, b: seq<Edge>, t: real)
    requires multiset(a) == multiset(b)
    ensures SumUpTo(a, t) == SumUpTo(b, t)
    decreases |a|
  {
    if a == [] {
      assert |multiset(b)| == |b| == 0;
    } else {
      var i := TakeOut(a, b);
      var before, after := b[..i], b[i + 1..];
      SumOfPermutation(a[1..], before + after, t);
      SumOfJoin(before, after, t);
      SumOfJoin(before, [b[i]] + after, t);
      assert ([b[i]] + after)[1..] == after;
      assert b == before + ([b[i]] + after);
    }
  }

  lemma {:induction false} SumOfJoin(a: seq<Edge>, b: seq<Edge>, t: real)
    ensures SumUpTo(a + b, t) == SumUpTo(a, t) + SumUpTo(b, t)
  {
    if a == [] {
      assert a + b == b;
    } else {
      SumOfJoin(a[1..], b, t);
      assert (a + b)[1..] == a[1..] + b;
    }
  }

  /** The edges up to an instant sum to the intervals begun less those ended. */
  lemma {:induction false} SumIsNet(intervals: seq<Interval>, t: real)
    ensures SumUpTo(EdgesOf(intervals), t) == Net(intervals, t)
  {
    SumOfJoin(Starts(intervals), Ends(intervals), t);
    if intervals != [] {
      var rest := intervals[1..];
      SumIsNet(rest, t);
      SumOfJoin(Starts(rest), Ends(rest), t);
      assert Starts(intervals)[1..] == Starts(rest) && Ends(intervals)[1..] == Ends(rest);
    }
  }

  /** In sorted edges, those up to an instant are the first `k`. */
  lemma {:induction false} UpToIsPrefix(edges: seq<Edge>, t: real) returns (k: nat)
    requires Sorted(edges)
    ensures k <= |edges| && SumUpTo(edges, t) == Running(edges, k)
    ensures forall j :: 0 <= j < |edges| ==> (edges[j].at <= t <==> j < k)
  {
    k := 0;
    while k < |edges| && edges[k].at <= t
      invariant k <= |edges| && forall j :: 0 <= j < k ==> edges[j].at <= t
    {
      k := k + 1;
    }
    forall j | k <= j < |edges| ensures edges[j].at > t {
      if j > k { assert Before(edges[k], edges[j]); }
    }
    AllUpTo(edges, t, k);
    NoneUpTo(edges[k..], t);
    SumOfJoin(edges[..k], edges[k..], t);
    assert edges[..k] + edges[k..] == edges;
  }

  lemma {:induction false} AllUpTo(edges: seq<Edge>, t: real, k: nat)
    requires k <= |edges| && forall j :: 0 <= j < k ==> edges[j].at <= t
    ensures SumUpTo(edges[..k], t) == Running(edges, k)
  {
    if k > 0 {
      AllUpTo(edges, t, k - 1);
      SumOfJoin(edges[..k - 1], [edges[k - 1]], t);
      assert edges[..k - 1] + [edges[k - 1]] == edges[..k];
    }
  }

  lemma {:induction false} NoneUpTo(edges: seq<Edge>, t: real)
    requires forall j :: 0 <= j < |edges| ==> edges[j].at > t
    ensures SumUpTo(edges, t) == 0
  {
    if edges != [] {
      NoneUpTo(edges[1..], t);
    }
  }

  /** The highest running number is that of an instant: the moment of the start that reached it, or,
      when no start did, any moment before the first. */
  lemma PeakIsReached(intervals: seq<Interval>, edges: seq<Edge>, best: nat, peak: int)
    requires edges == Sort(EdgesOf(intervals)) && best <= |edges| && Running(edges, best) == peak
    requires forall j :: 0 <= j <= |edges| ==> Running(edges, j) <= peak
    requires best > 0 ==> edges[best - 1].delta > 0
    ensures exists t :: Net(intervals, t) == peak
  {
    SortIsSorted(EdgesOf(intervals));
    var t := if best > 0 then edges[best - 1].at else if edges == [] then 0.0 else edges[0].at - 1.0;
    var k := UpToIsPrefix(edges, t);
    SumOfPermutation(edges, EdgesOf(intervals), t);
    SumIsNet(intervals, t);
    if best > 0 {
      OnlyStartsLeft(edges, best, k);
    }
    assert Net(intervals, t) == peak;
  }

  lemma {:induction false} OnlyStartsLeft(edges: seq<Edge>, best: nat, k: nat)
    requires Sorted(edges) && 0 < best <= k <= |edges| && edges[best - 1].delta > 0
    requires forall j :: best <= j < k ==> edges[j].at <= edges[best - 1].at
    ensures Running(edges, k) >= Running(edges, best)
    decreases k
  {
    if k > best {
      OnlyStartsLeft(edges, best, k - 1);
      assert Before(edges[best - 1], edges[k - 1]);
    }
  }

  // ---- order does not matter -----------------------------------------------

  lemma {:induction false} NetOfPermutation(a: seq<Interval>, b: seq<Interval>, t: real)
    requires multiset(a) == multiset(b)
    ensures Net(a, t) == Net(b, t)
    decreases |a|
  {
    if a == [] {
      assert |multiset(b)| == |b| == 0;
    } else {
      var i := TakeOut(a, b);
      NetOfPermutation(a[1..], b[..i] + b[i + 1..], t);
      NetWithout(b, i, t);
    }
  }

  lemma {:induction false} NetWithout(s: seq<Interval>, i: nat, t: real)
    requires i < |s|
    ensures Net(s, t) == Net(s[..i] + s[i + 1..], t) + Begun(s[i], t)
  {
    if i > 0 {
      NetWithout(s[1..], i - 1, t);
      assert (s[..i] + s[i + 1..])[1..] == s[1..][..i - 1] + s[1..][i..];
    } else {
      assert s[..i] + s[i + 1..] == s[1..];
    }
  }

  /** The peak depends on which intervals there are, not on their order. */
  lemma PeakOfPermutation(a: seq<Interval>, b: seq<Interval>, peak: int)
    requires multiset(a) == multiset(b) && IsPeak(a, peak)
    ensures IsPeak(b, peak)
  {
    forall t ensures Net(b, t) == Net(a, t) { NetOfPermutation(a, b, t); }
    var t :| Net(a, t) == peak;
    assert Net(b, t) == peak;
  }

  // ---- at most one at a time -----------------------------------------------

  predicate Apart(a: Interval, b: Interval) {
    a.start >= a.end || b.start >= b.end || a.end <= b.start || b.end <= a.start
  }

  ghost predicate Disjoint(intervals: seq<Interval>) {
    forall i, j :: 0 <= i < j < |intervals| ==> Apart(intervals[i], intervals[j])
  }

  /** The peak is at most one exactly when no two intervals, empty ones aside, overlap: one finishing
      where the next starts is not an overlap. */
  lemma OneAtATime(intervals: seq<Interval>, peak: int)
    requires Proper(intervals) && IsPeak(intervals, peak)
    ensures peak <= 1 <==> Disjoint(intervals)
  {
    PeakCounts(intervals, peak);
    if Disjoint(intervals) {
      var t :| Count(intervals, t) == peak;
      DisjointCount(intervals, t);
    } else {
      var i, j :| 0 <= i < j < |intervals| && !Apart(intervals[i], intervals[j]);
      var t := if intervals[i].start >= intervals[j].start then intervals[i].start else intervals[j].start;
      BothHold(intervals, i, j, t);
    }
  }

  lemma {:induction false} BothHold(intervals: seq<Interval>, i: nat, j: nat, t: real)
    requires i < j < |intervals| && Holds(intervals[i], t) && Holds(intervals[j], t)
    ensures Count(intervals, t) >= 2
  {
    if i > 0 {
      BothHold(intervals[1..], i - 1, j - 1, t);
    } else {
      OneHolds(intervals[1..], j - 1, t);
    }
  }

  lemma {:induction false} OneHolds(intervals: seq<Interval>, i: nat, t: real)
    requires i < |intervals| && Holds(intervals[i], t)
    ensures Count(intervals, t) >= 1
  {
    if i > 0 { OneHolds(intervals[1..], i - 1, t); }
  }

  lemma {:induction false} DisjointCount(intervals: seq<Interval>, t: real)
    requires Disjoint(intervals)
    ensures Count(intervals, t) <= 1
  {
    if intervals != [] {
      var rest := intervals[1..];
      assert Disjoint(rest) by { assert forall k :: 0 <= k < |rest| ==> rest[k] == intervals[k + 1]; }
      DisjointCount(rest, t);
      if Holds(intervals[0], t) {
        forall k | 0 <= k < |rest| ensures !Holds(rest[k], t) { assert Apart(intervals[0], intervals[k + 1]); }
        NoneHolds(rest, t);
      }
    }
  }

  lemma {:induction false} NoneHolds(intervals: seq<Interval>, t: real)
    requires forall k :: 0 <= k < |intervals| ==> !Holds(intervals[k], t)
    ensures Count(intervals, t) == 0
  {
    if intervals != [] { NoneHolds(intervals[1..], t); }
  }

  // ---- the mean never exceeds the peak -------------------------------------

  function BusyTime(intervals: seq<Interval>): real {
    if intervals == [] then 0.0 else intervals[0].end - intervals[0].start + BusyTime(intervals[1..])
  }

  lemma {:induction false} BusyTimeNotNegative(intervals: seq<Interval>)
    requires forall k :: 0 <= k < |intervals| ==> intervals[k].start <= intervals[k].end
    ensures BusyTime(intervals) >= 0.0
  {
    if intervals != [] {
      BusyTimeNotNegative(intervals[1..]);
      assert intervals[0].start <= intervals[0].end;
    }
  }

  /** The sum of the edges, and of the edges weighed by their times, in any order. */
  function Balance(edges: seq<Edge>): int {
    if edges == [] then 0 else edges[0].delta + Balance(edges[1..])
  }

  function Weight(e: Edge): real {
    e.delta as real * e.at
  }

  function Moment(edges: seq<Edge>): real {
    if edges == [] then 0.0 else Weight(edges[0]) + Moment(edges[1..])
  }

  lemma {:induction false} MomentOfJoin(a: seq<Edge>, b: seq<Edge>)
    ensures Moment(a + b) == Moment(a) + Moment(b) && Balance(a + b) == Balance(a) + Balance(b)
  {
    hide Weight;
    if a == [] {
      assert a + b == b;
    } else {
      MomentOfJoin(a[1..], b);
      assert (a + b)[1..] == a[1..] + b;
    }
  }

  lemma {:induction false} MomentOfPermutation(a: seq<Edge>, b: seq<Edge>)
    requires multiset(a) == multiset(b)
    ensures Moment(a) == Moment(b) && Balance(a) == Balance(b)
    decreases |a|
  {
    hide Weight;
    if a == [] {
      assert |multiset(b)| == |b| == 0;
    } else {
      var i := TakeOut(a, b);
      var before, after := b[..i], b[i + 1..];
      MomentOfPermutation(a[1..], before + after);
      MomentOfJoin(before, after);
      MomentOfJoin(before, [b[i]] + after);
      assert ([b[i]] + after)[1..] == after;
      assert b == before + ([b[i]] + after);
    }
  }

  lemma {:induction false} MomentIsBusyTime(intervals: seq<Interval>)
    ensures Moment(EdgesOf(intervals)) == -BusyTime(intervals) && Balance(EdgesOf(intervals)) == 0
  {
    MomentOfJoin(Starts(intervals), Ends(intervals));
    if intervals != [] {
      var rest := intervals[1..];
      MomentIsBusyTime(rest);
      MomentOfJoin(Starts(rest), Ends(rest));
      assert Starts(intervals)[1..] == Starts(rest) && Ends(intervals)[1..] == Ends(rest);
    }
  }

  /** The area under the running number up to the `k`-th edge: at most the peak times the time gone by. */
  lemma {:induction false} AreaUnderPeak(edges: seq<Edge>, k: nat, peak: int)
    requires Sorted(edges) && 1 <= k <= |edges|
    requires forall j :: 0 <= j <= |edges| ==> Running(edges, j) <= peak
    ensures var at := edges[k - 1].at;
            Running(edges, k) as real * at - Moment(edges[..k]) <= peak as real * (at - edges[0].at)
  {
    hide Weight;
    var last := edges[k - 1];
    MomentOfJoin(edges[..k - 1], [last]);
    assert edges[..k - 1] + [last] == edges[..k];
    assert Moment([last]) == Weight(last);
    if k == 1 {
      assert Running(edges, 1) == last.delta;
      Start(last, peak);
    } else {
      AreaUnderPeak(edges, k - 1, peak);
      assert Before(edges[k - 2], edges[k - 1]);
      Slab(Running(edges, k - 1), last, edges[k - 2].at, edges[0].at, Moment(edges[..k - 1]), peak);
    }
  }

  lemma {:induction false} Start(e: Edge, peak: int)
    ensures e.delta as real * e.at - Weight(e) <= peak as real * (e.at - e.at)
  {}

  /** From one edge to the next the area grows by the number running times the time between them. */
  lemma {:induction false} Slab(running: int, e: Edge, was: real, first: real, moment: real, peak: int)
    requires running <= peak && was <= e.at
    requires running as real * was - moment <= peak as real * (was - first)
    ensures (running + e.delta) as real * e.at - (moment + Weight(e)) <= peak as real * (e.at - first)
  {
    var r, d, p, at := running as real, e.delta as real, peak as real, e.at;
    assert (running + e.delta) as real == r + d;
    Product(p - r, at - was);
    assert (p - r) * (at - was) == p * (at - first) - p * (was - first) - (r * at - r * was);
    assert (r + d) * at == r * at + d * at;
  }

  lemma {:induction false} BalanceIsRunning(edges: seq<Edge>, k: nat)
    requires k <= |edges|
    ensures Balance(edges[..k]) == Running(edges, k)
  {
    if k > 0 {
      BalanceIsRunning(edges, k - 1);
      MomentOfJoin(edges[..k - 1], [edges[k - 1]]);
      assert edges[..k - 1] + [edges[k - 1]] == edges[..k];
    }
  }

  /** No running number passes the peak: after a start it is that of an instant, after an end it is lower
      than before. */
  lemma {:induction false} RunningWithinPeak(intervals: seq<Interval>, edges: seq<Edge>, j: nat, peak: int)
    requires edges == Sort(EdgesOf(intervals)) && IsPeak(intervals, peak) && j <= |edges|
    requires forall e :: e in edges ==> e.delta == 1 || e.delta == -1
    ensures Running(edges, j) <= peak
    decreases j
  {
    SortIsSorted(EdgesOf(intervals));
    if j > 0 && edges[j - 1].delta < 0 {
      RunningWithinPeak(intervals, edges, j - 1, peak);
    } else {
      var t := if j > 0 then edges[j - 1].at else if edges == [] then 0.0 else edges[0].at - 1.0;
      var k := UpToIsPrefix(edges, t);
      SumOfPermutation(edges, EdgesOf(intervals), t);
      SumIsNet(intervals, t);
      assert Net(intervals, t) <= peak;
      if j > 0 { OnlyStartsLeft(edges, j, k); }
    }
  }

  lemma {:induction false} EdgesWithin(intervals: seq<Interval>, first: real, last: real)
    requires forall k :: 0 <= k < |intervals| ==> first <= intervals[k].start <= intervals[k].end <= last
    ensures forall e :: e in EdgesOf(intervals) ==> first <= e.at <= last && (e.delta == 1 || e.delta == -1)
  {
    if intervals != [] {
      EdgesWithin(intervals[1..], first, last);
      assert forall e :: e in EdgesOf(intervals) ==>
        e.at == intervals[0].start || e.at == intervals[0].end || e in EdgesOf(intervals[1..]);
    }
  }

  /** The time between sorted edges that balance: at most the peak times the window they lie in. */
  lemma {:induction false} AreaWithinPeak(edges: seq<Edge>, peak: int, first: real, last: real)
    requires Sorted(edges) && edges != [] && peak >= 0
    requires forall j :: 0 <= j <= |edges| ==> Running(edges, j) <= peak
    requires Balance(edges) == 0 && first <= edges[0].at && edges[|edges| - 1].at <= last
    ensures -Moment(edges) <= peak as real * (last - first)
  {
    hide Sorted;
    var n := |edges|;
    assert edges[..n] == edges;
    AreaUnderPeak(edges, n, peak);
    BalanceIsRunning(edges, n);
    var swept, window := edges[n - 1].at - edges[0].at, last - first;
    assert -Moment(edges) <= peak as real * swept;
    Product(peak as real, window - swept);
    assert peak as real * (window - swept) == peak as real * window - peak as real * swept;
  }

  /** The time all intervals take together is at most the peak times the window they lie in. */
  lemma {:induction false} BusyTimeWithinPeak(intervals: seq<Interval>, peak: int, first: real, last: real)
    requires IsPeak(intervals, peak) && first <= last
    requires forall k :: 0 <= k < |intervals| ==> first <= intervals[k].start <= intervals[k].end <= last
    ensures peak >= 0 && BusyTime(intervals) <= peak as real * (last - first)
  {
    hide IsPeak, Net, Sort, EdgesOf, BusyTime, Sorted, Balance;
    var edges := Sort(EdgesOf(intervals));
    SortIsSorted(EdgesOf(intervals));
    MomentOfPermutation(edges, EdgesOf(intervals));
    MomentIsBusyTime(intervals);
    EdgesWithin(intervals, first, last);
    forall j | 0 <= j <= |edges| ensures Running(edges, j) <= peak { RunningWithinPeak(intervals, edges, j, peak); }
    assert Running(edges, 0) == 0;
    if edges == [] {
      Product(peak as real, last - first);
    } else {
      assert edges[0] in edges && edges[|edges| - 1] in edges;
      AreaWithinPeak(edges, peak, first, last);
    }
  }
}
