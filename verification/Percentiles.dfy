/** Interpolated percentiles, as `benchmark_m1.py` and `workspace_drill.py` each compute them. */
module Percentiles {
  import opened Reals
  import opened Sequences
  import opened Sorting

  predicate NoGreater(a: real, b: real) {
    a <= b
  }

  function Sort(s: seq<real>): seq<real> {
    SortBy(s, NoGreater)
  }

  ghost predicate Sorted(s: seq<real>) {
    forall i, j :: 0 <= i < j < |s| ==> s[i] <= s[j]
  }

  /** The value a fraction of the way between two neighbours of the ordered values. */
  function Blend(x: real, y: real, weight: real): real {
    x * (1.0 - weight) + y * weight
  }

  predicate InRange(p: real) {
    0.0 <= p <= 100.0
  }

  function Rank(p: real, n: nat): real {
    (p / 100.0) * (n as real - 1.0)
  }

  lemma RankWithin(p: real, n: nat)
    requires InRange(p) && n > 0
    ensures 0.0 <= Rank(p, n) <= n as real - 1.0
    ensures 0 <= Rank(p, n).Floor < n
  {
    var share, span := p / 100.0, n as real - 1.0;
    assert 0.0 <= share <= 1.0 && span >= 0.0;
    Product(share, span);
    Product(1.0 - share, span);
    assert (1.0 - share) * span == span - share * span;
  }

  /** `percentile` of `benchmark_m1.py`. */
  function Percentile(values: seq<real>, p: real): real
    requires InRange(p)
  {
    var ordered := Sort(values);
    SortKeepsLength(values);
    if ordered == [] then 0.0
    else if |ordered| == 1 then ordered[0]
    else
      RankWithin(p, |ordered|);
      AtRank(ordered, Rank(p, |ordered|))
  }

  function AtRank(ordered: seq<real>, rank: real): real
    requires 0 <= rank.Floor < |ordered|
  {
    var low := rank.Floor;
    var high := if low + 1 < |ordered| - 1 then low + 1 else |ordered| - 1;
    Blend(ordered[low], ordered[high], rank - low as real)
  }

  /** Cut points of an ordered sample into a hundred equal parts, both ends included
      (`statistics.quantiles` with `n=100, method="inclusive"`). */
  function Quantiles(ordered: seq<real>): (cuts: seq<real>)
    requires |ordered| >= 2
    ensures |cuts| == 99
  {
    seq(99, i requires 0 <= i < 99 => Quantile(ordered, i + 1))
  }

  lemma CellWithin(i: nat, m: nat)
    requires i < 100 && m > 0
    ensures 0 <= i * m / 100 < m
  {
    var whole := i * m;
    assert 0 <= whole <= 99 * m;
  }

  function Quantile(ordered: seq<real>, i: nat): real
    requires |ordered| >= 2 && i < 100
  {
    CellWithin(i, |ordered| - 1);
    var j, delta := i * (|ordered| - 1) / 100, i * (|ordered| - 1) % 100;
    (ordered[j] * (100 - delta) as real + ordered[j + 1] * delta as real) / 100.0
  }

  /** `int` of a number drops its fraction, towards zero. */
  function Truncate(x: real): int {
    if x >= 0.0 then x.Floor else -(-x).Floor
  }

  function CutIndex(wanted: real): (k: nat)
    ensures k < 99
  {
    var k := Truncate(wanted) - 1;
    if k < 0 then 0 else if k > 98 then 98 else k
  }

  /** `_percentile` of `workspace_drill.py`. */
  function DrillPercentile(values: seq<real>, wanted: real): real {
    SortKeepsLength(values);
    if values == [] then 0.0
    else if |values| == 1 then values[0]
    else Quantiles(Sort(values))[CutIndex(wanted)]
  }

  // ---- sorting -------------------------------------------------------------

  lemma SortIsSorted(s: seq<real>)
    ensures Sorted(Sort(s))
  {
    assert IsOrder(NoGreater);
    SortSorts(s, NoGreater);
  }

  lemma SortKeepsLength(s: seq<real>)
    ensures |Sort(s)| == |s|
    ensures forall v :: v in Sort(s) <==> v in s
  {
    SortKeeps(s, NoGreater);
    forall v ensures v in Sort(s) <==> v in s {
      assert v in multiset(Sort(s)) <==> v in multiset(s);
    }
  }

  /** How many of the values are at most `x`. */
  function AtMost(s: seq<real>, x: real): nat {
    if s == [] then 0 else (if s[0] <= x then 1 else 0) + AtMost(s[1..], x)
  }

  lemma {:induction false} AtMostOfPermutation(a: seq<real>, b: seq<real>, x: real)
    requires multiset(a) == multiset(b)
    ensures AtMost(a, x) == AtMost(b, x)
    decreases |a|
  {
    if a == [] {
      assert |multiset(b)| == |b| == 0;
    } else {
      var i := TakeOut(a, b);
      AtMostOfPermutation(a[1..], b[..i] + b[i + 1..], x);
      AtMostWithout(b, i, x);
    }
  }

  lemma {:induction false} AtMostWithout(s: seq<real>, i: nat, x: real)
    requires i < |s|
    ensures AtMost(s, x) == AtMost(s[..i] + s[i + 1..], x) + if s[i] <= x then 1 else 0
  {
    if i > 0 {
      AtMostWithout(s[1..], i - 1, x);
      assert (s[..i] + s[i + 1..])[1..] == s[1..][..i - 1] + s[1..][i..];
    } else {
      assert s[..i] + s[i + 1..] == s[1..];
    }
  }

  /** In ordered values, the one at `i` is at most `x` exactly when more than `i` values are. */
  lemma {:induction false} OrderStatistic(s: seq<real>, i: nat, x: real)
    requires Sorted(s) && i < |s|
    ensures s[i] <= x <==> AtMost(s, x) > i
  {
    if s[0] > x {
      AllAbove(s, x);
      assert i > 0 ==> s[0] <= s[i];
    } else if i > 0 {
      assert Sorted(s[1..]) by { assert forall k :: 0 <= k < |s| - 1 ==> s[1..][k] == s[k + 1]; }
      OrderStatistic(s[1..], i - 1, x);
    }
  }

  lemma {:induction false} AllAbove(s: seq<real>, x: real)
    requires Sorted(s) && (s != [] ==> s[0] > x)
    ensures AtMost(s, x) == 0
  {
    if |s| > 1 {
      assert s[0] <= s[1];
      assert Sorted(s[1..]) by { assert forall k :: 0 <= k < |s| - 1 ==> s[1..][k] == s[k + 1]; }
      AllAbove(s[1..], x);
    }
  }

  /** `a` is no larger than `b`, element by element, once `b` is suitably rearranged. */
  ghost predicate DominatedVia(a: seq<real>, b: seq<real>, pairing: seq<real>) {
    && multiset(pairing) == multiset(b)
    && |pairing| == |a|
    && forall i :: 0 <= i < |a| ==> a[i] <= pairing[i]
  }

  ghost predicate Dominated(a: seq<real>, b: seq<real>) {
    exists pairing :: DominatedVia(a, b, pairing)
  }

  lemma {:induction false} FewerAtMost(a: seq<real>, b: seq<real>, x: real)
    requires |a| == |b| && forall i :: 0 <= i < |a| ==> a[i] <= b[i]
    ensures AtMost(a, x) >= AtMost(b, x)
  {
    if a != [] { FewerAtMost(a[1..], b[1..], x); }
  }

  /** Sorting keeps dominance: whatever the pairing, the ordered values compare place by place. */
  lemma SortedDominated(a: seq<real>, b: seq<real>)
    requires Dominated(a, b)
    ensures |Sort(a)| == |Sort(b)|
    ensures forall i :: 0 <= i < |Sort(a)| ==> Sort(a)[i] <= Sort(b)[i]
  {
    var pairing :| DominatedVia(a, b, pairing);
    var s, t := Sort(a), Sort(b);
    SortIsSorted(a);
    SortIsSorted(b);
    SortKeeps(a, NoGreater);
    SortKeeps(b, NoGreater);
    assert |multiset(b)| == |b| && |multiset(pairing)| == |pairing|;
    forall i | 0 <= i < |s| ensures s[i] <= t[i] {
      OrderStatistic(t, i, t[i]);
      AtMostOfPermutation(s, a, t[i]);
      AtMostOfPermutation(t, b, t[i]);
      AtMostOfPermutation(pairing, b, t[i]);
      FewerAtMost(a, pairing, t[i]);
      OrderStatistic(s, i, t[i]);
    }
  }

  // ---- percentiles ---------------------------------------------------------

  lemma BetweenWithin(x: real, y: real, weight: real)
    requires x <= y && 0.0 <= weight <= 1.0
    ensures x <= Blend(x, y, weight) <= y
  {
    Product(y - x, weight);
    Product(y - x, 1.0 - weight);
  }

  lemma BetweenGrows(x: real, y: real, v: real, w: real)
    requires x <= y && v <= w
    ensures Blend(x, y, v) <= Blend(x, y, w)
  {
    Product(y - x, w - v);
  }

  lemma BetweenDominated(x: real, y: real, x': real, y': real, weight: real)
    requires x <= x' && y <= y' && 0.0 <= weight <= 1.0
    ensures Blend(x, y, weight) <= Blend(x', y', weight)
  {
    Product(x' - x, 1.0 - weight);
    Product(y' - y, weight);
  }

  /** A percentile does not depend on the order of the values. */
  lemma OrderDoesNotMatter(a: seq<real>, b: seq<real>, p: real)
    requires InRange(p) && multiset(a) == multiset(b)
    ensures Percentile(a, p) == Percentile(b, p)
  {
    assert IsOrder(NoGreater);
    SortOfPermutation(a, b, NoGreater);
  }

  /** A percentile lies within every bound that holds for all the values. */
  lemma WithinRange(values: seq<real>, p: real, lowest: real, highest: real)
    requires InRange(p) && values != []
    requires forall v :: v in values ==> lowest <= v <= highest
    ensures lowest <= Percentile(values, p) <= highest
  {
    hide Sort, Rank;
    var ordered := Sort(values);
    SortKeepsLength(values);
    SortIsSorted(values);
    assert forall i :: 0 <= i < |ordered| ==> ordered[i] in ordered;
    if |ordered| > 1 {
      RankWithin(p, |ordered|);
      AtRankWithin(ordered, Rank(p, |ordered|));
    }
  }

  lemma AtRankWithin(ordered: seq<real>, rank: real)
    requires Sorted(ordered) && 0 <= rank.Floor < |ordered|
    ensures ordered[rank.Floor] <= AtRank(ordered, rank) <= ordered[|ordered| - 1]
    ensures rank.Floor + 1 < |ordered| ==> AtRank(ordered, rank) <= ordered[rank.Floor + 1]
  {
    hide Blend;
    var low := rank.Floor;
    var high := if low + 1 < |ordered| - 1 then low + 1 else |ordered| - 1;
    var x, y, weight := ordered[low], ordered[high], rank - low as real;
    assert x <= y <= ordered[|ordered| - 1];
    BetweenWithin(x, y, weight);
    assert AtRank(ordered, rank) == Blend(x, y, weight);
  }

  /** The bounds are reached: 0 and 100 give the smallest value and the largest. */
  lemma Extremes(values: seq<real>)
    requires values != []
    ensures Percentile(values, 0.0) in values && Percentile(values, 100.0) in values
    ensures forall v :: v in values ==> Percentile(values, 0.0) <= v <= Percentile(values, 100.0)
  {
    hide Sort;
    var ordered := Sort(values);
    SortKeepsLength(values);
    SortIsSorted(values);
    var n := |ordered|;
    assert n > 1 ==> Rank(0.0, n) == 0.0 && Rank(100.0, n) == (n - 1) as real;
    assert Percentile(values, 0.0) == ordered[0] && Percentile(values, 100.0) == ordered[n - 1];
    assert ordered[0] in ordered && ordered[n - 1] in ordered;
  }

  lemma AtRankGrows(ordered: seq<real>, r: real, q: real)
    requires Sorted(ordered) && r <= q && 0 <= r.Floor && q <= |ordered| as real - 1.0
    ensures q.Floor < |ordered| && r.Floor <= q.Floor
    ensures AtRank(ordered, r) <= AtRank(ordered, q)
  {
    hide Blend;
    var low, low' := r.Floor, q.Floor;
    var high := if low + 1 < |ordered| - 1 then low + 1 else |ordered| - 1;
    if low == low' {
      BetweenGrows(ordered[low], ordered[high], r - low as real, q - low as real);
    } else {
      AtRankWithin(ordered, r);
      AtRankWithin(ordered, q);
      assert ordered[low + 1] <= ordered[low'];
    }
  }

  /** A higher percentile is no smaller, also across the cells it is interpolated in. */
  lemma {:induction false} GrowsWithP(values: seq<real>, p: real, q: real)
    requires InRange(p) && InRange(q) && p <= q
    ensures Percentile(values, p) <= Percentile(values, q)
  {
    SortKeepsLength(values);
    SortIsSorted(values);
    var n := |values|;
    if n > 1 {
      RankWithin(p, n);
      RankWithin(q, n);
      RankGrows(p, q, n);
      AtRankGrows(Sort(values), Rank(p, n), Rank(q, n));
    }
  }

  lemma RankGrows(p: real, q: real, n: nat)
    requires p <= q && n > 0
    ensures Rank(p, n) <= Rank(q, n)
  {
    var more, span := q / 100.0 - p / 100.0, n as real - 1.0;
    Product(more, span);
    assert more * span == Rank(q, n) - Rank(p, n);
  }

  /** Values no larger under any pairing have no larger percentiles. */
  lemma GrowsWithValues(a: seq<real>, b: seq<real>, p: real)
    requires InRange(p) && Dominated(a, b)
    ensures Percentile(a, p) <= Percentile(b, p)
  {
    hide Sort, Rank, Dominated;
    SortedDominated(a, b);
    SortKeepsLength(a);
    if |a| > 1 {
      RankWithin(p, |a|);
      AtRankDominated(Sort(a), Sort(b), Rank(p, |a|));
    }
  }

  lemma AtRankDominated(s: seq<real>, t: seq<real>, rank: real)
    requires |s| == |t| && forall i :: 0 <= i < |s| ==> s[i] <= t[i]
    requires 0 <= rank.Floor < |s|
    ensures AtRank(s, rank) <= AtRank(t, rank)
  {
    hide Blend;
    var low, weight := rank.Floor, rank - rank.Floor as real;
    var high := if low + 1 < |s| - 1 then low + 1 else |s| - 1;
    var x, y, x', y' := s[low], s[high], t[low], t[high];
    BetweenDominated(x, y, x', y', weight);
    assert AtRank(s, rank) == Blend(x, y, weight);
    assert AtRank(t, rank) == Blend(x', y', weight);
  }

  lemma QuantileIsAtRank(ordered: seq<real>, i: nat)
    requires |ordered| >= 2 && 1 <= i < 100
    ensures 0 <= Rank(i as real, |ordered|).Floor < |ordered|
    ensures AtRank(ordered, Rank(i as real, |ordered|)) == Quantile(ordered, i)
  {
    hide Blend;
    var m := |ordered| - 1;
    var j, delta := i * m / 100, i * m % 100;
    var rank := Rank(i as real, |ordered|);
    RankWithin(i as real, |ordered|);
    CellOf(i, m);
    assert rank == j as real + delta as real / 100.0;
    assert rank.Floor == j;
    var x, y, w := ordered[j], ordered[j + 1], delta as real / 100.0;
    assert 1.0 - w == (100 - delta) as real / 100.0;
    Hundredths(x, y, delta);
  }

  lemma CellOf(i: nat, m: nat)
    requires i < 100 && m > 0
    ensures (i as real / 100.0) * m as real == (i * m / 100) as real + (i * m % 100) as real / 100.0
  {
    var whole := i * m;
    assert whole == 100 * (whole / 100) + whole % 100;
    assert whole as real == i as real * m as real;
    assert (i as real / 100.0) * m as real == whole as real / 100.0;
  }

  lemma Hundredths(x: real, y: real, delta: nat)
    requires delta < 100
    ensures Blend(x, y, delta as real / 100.0) == (x * (100 - delta) as real + y * delta as real) / 100.0
  {
    var d := delta as real;
    assert (100 - delta) as real == 100.0 - d;
    assert x * (1.0 - d / 100.0) == (x * (100.0 - d)) / 100.0;
    assert y * (d / 100.0) == (y * d) / 100.0;
  }

  /** The two scripts agree on every percentile the drill can be asked for: it answers with the
      nearest whole one from 1 to 99, fractions dropped. */
  lemma ScriptsAgree(values: seq<real>, wanted: real)
    ensures DrillPercentile(values, wanted) == Percentile(values, (CutIndex(wanted) + 1) as real)
  {
    SortKeepsLength(values);
    if |values| == 1 {
      assert Sort(values)[0] in Sort(values);
    } else if |values| > 1 {
      QuantileIsAtRank(Sort(values), CutIndex(wanted) + 1);
    }
  }

  lemma ScriptsAgreeOnWholePercentiles(values: seq<real>, p: nat)
    requires 1 <= p <= 99
    ensures DrillPercentile(values, p as real) == Percentile(values, p as real)
  {
    ScriptsAgree(values, p as real);
  }
}
