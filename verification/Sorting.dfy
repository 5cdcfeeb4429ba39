/** Sorting by a given order. */
module Sorting {
  import opened Sequences

  /** A total order, up to elements that come before each other. */
  ghost predicate IsOrder<T(!new)>(before: (T, T) -> bool) {
    && (forall a, b :: before(a, b) || before(b, a))
    && (forall a, b, c :: before(a, b) && before(b, c) ==> before(a, c))
  }

  function Insert<T>(x: T, s: seq<T>, before: (T, T) -> bool): seq<T> {
    if s == [] || before(x, s[0]) then [x] + s else [s[0]] + Insert(x, s[1..], before)
  }

  function SortBy<T>(s: seq<T>, before: (T, T) -> bool): (r: seq<T>) {
    if s == [] then [] else Insert(s[0], SortBy(s[1..], before), before)
  }

  ghost predicate SortedBy<T>(s: seq<T>, before: (T, T) -> bool) {
    forall i, j :: 0 <= i < j < |s| ==> before(s[i], s[j])
  }

  lemma {:induction false} InsertKeeps<T>(x: T, s: seq<T>, before: (T, T) -> bool)
    ensures multiset(Insert(x, s, before)) == multiset(s) + multiset{x}
  {
    if s != [] && !before(x, s[0]) {
      InsertKeeps(x, s[1..], before);
      RemovedFirst(s);
    }
  }

  /** Sorting rearranges. */
  lemma {:induction false} SortKeeps<T>(s: seq<T>, before: (T, T) -> bool)
    ensures multiset(SortBy(s, before)) == multiset(s)
    ensures |SortBy(s, before)| == |s|
  {
    if s != [] {
      SortKeeps(s[1..], before);
      InsertKeeps(s[0], SortBy(s[1..], before), before);
      RemovedFirst(s);
    }
    assert |multiset(SortBy(s, before))| == |multiset(s)|;
  }

  lemma {:induction false} InsertSorts<T(!new)>(x: T, s: seq<T>, before: (T, T) -> bool)
    requires IsOrder(before) && SortedBy(s, before)
    ensures SortedBy(Insert(x, s, before), before)
  {
    if s != [] {
      if before(x, s[0]) {
        assert forall i :: 1 <= i < |s| ==> before(s[0], s[i]);
      } else {
        var rest := Insert(x, s[1..], before);
        InsertSorts(x, s[1..], before);
        InsertKeeps(x, s[1..], before);
        forall i | 0 <= i < |rest| ensures before(s[0], rest[i]) {
          assert rest[i] in multiset(rest);
          assert rest[i] == x || rest[i] in s[1..];
        }
      }
    }
  }

  lemma {:induction false} SortSorts<T(!new)>(s: seq<T>, before: (T, T) -> bool)
    requires IsOrder(before)
    ensures SortedBy(SortBy(s, before), before)
  {
    if s != [] {
      SortSorts(s[1..], before);
      InsertSorts(s[0], SortBy(s[1..], before), before);
    }
  }

  /** Elements that come before each other only when equal. */
  ghost predicate ToldApart<T>(s: seq<T>, before: (T, T) -> bool) {
    forall x, y :: x in s && y in s && before(x, y) && before(y, x) ==> x == y
  }

  lemma SameFirst<T>(s: seq<T>, t: seq<T>, i: nat, j: nat, before: (T, T) -> bool)
    requires SortedBy(s, before) && SortedBy(t, before) && ToldApart(s, before)
    requires i < |s| && j < |t| && s[i] == t[0] && t[j] == s[0]
    ensures s[0] == t[0]
  {
    assert s[0] in s && s[i] in s;
  }

  /** There is only one way to sort elements that are told apart. */
  lemma {:induction false} SortedOnce<T(!new)>(s: seq<T>, t: seq<T>, before: (T, T) -> bool)
    requires SortedBy(s, before) && SortedBy(t, before) && multiset(s) == multiset(t) && ToldApart(s, before)
    ensures s == t
    decreases |s|
  {
    hide SortedBy, ToldApart;
    if s == [] {
      assert |multiset(t)| == |t| == 0;
    } else {
      var j := FirstIsIn(s, t);
      var i := FirstIsIn(t, s);
      SameFirst(s, t, i, j, before);
      Tails(s, t);
      RestSorted(s, before);
      RestSorted(t, before);
      RestToldApart(s, before);
      SortedOnce(s[1..], t[1..], before);
      assert s == [s[0]] + s[1..] && t == [t[0]] + t[1..];
    }
  }

  lemma RestSorted<T>(s: seq<T>, before: (T, T) -> bool)
    requires SortedBy(s, before) && s != []
    ensures SortedBy(s[1..], before)
  {}

  lemma RestToldApart<T>(s: seq<T>, before: (T, T) -> bool)
    requires ToldApart(s, before) && s != []
    ensures ToldApart(s[1..], before)
  {}

  /** Sorting depends on which elements there are, not on their order. */
  lemma SortOfPermutation<T(!new)>(a: seq<T>, b: seq<T>, before: (T, T) -> bool)
    requires IsOrder(before) && multiset(a) == multiset(b) && ToldApart(a, before)
    ensures SortBy(a, before) == SortBy(b, before)
  {
    SortSorts(a, before);
    SortSorts(b, before);
    SortKeeps(a, before);
    SortKeeps(b, before);
    assert forall x :: x in SortBy(a, before) ==> x in multiset(a);
    SortedOnce(SortBy(a, before), SortBy(b, before), before);
  }
}
