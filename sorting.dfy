/** An insertion sort on sequences under a total preorder. It stands for the
    orderings the source asks of its store (ORDER BY clauses) and of
    JavaScript's Array.prototype.sort. The lemmas prove the result sorted and
    a permutation of the input; how ties are ordered is not stated. SQL leaves
    that order unspecified, so whichever order this sort gives ties is one an
    ORDER BY may return. */
module Sorting {

  ghost predicate TotalPreorder<T(!new)>(le: (T, T) -> bool) {
    (forall a, b :: le(a, b) || le(b, a)) &&
    (forall a, b, c :: le(a, b) && le(b, c) ==> le(a, c))
  }

  predicate SortedBy<T>(s: seq<T>, le: (T, T) -> bool) {
    forall i, j :: 0 <= i < j < |s| ==> le(s[i], s[j])
  }

  /** Insert x after every element not above it. */
  function Insert<T>(x: T, s: seq<T>, le: (T, T) -> bool): (r: seq<T>)
    ensures |r| == |s| + 1
    decreases |s|
  {
    if |s| == 0 then [x]
    else if le(s[0], x) then [s[0]] + Insert(x, s[1..], le)
    else [x] + s
  }

  function SortBy<T>(s: seq<T>, le: (T, T) -> bool): (r: seq<T>)
    ensures |r| == |s|
    decreases |s|
  {
    if |s| == 0 then [] else Insert(s[|s| - 1], SortBy(s[..|s| - 1], le), le)
  }

  lemma {:induction false} InsertMultiset<T>(x: T, s: seq<T>, le: (T, T) -> bool)
    ensures multiset(Insert(x, s, le)) == multiset(s) + multiset{x}
    decreases |s|
  {
    if |s| > 0 {
      assert s == [s[0]] + s[1..];
      if le(s[0], x) {
        InsertMultiset(x, s[1..], le);
      }
    }
  }

  lemma {:induction false} InsertSorted<T(!new)>(x: T, s: seq<T>, le: (T, T) -> bool)
    requires TotalPreorder(le)
    requires SortedBy(s, le)
    ensures SortedBy(Insert(x, s, le), le)
    decreases |s|
  {
    if |s| > 0 && le(s[0], x) {
      var rest := Insert(x, s[1..], le);
      InsertSorted(x, s[1..], le);
      InsertMultiset(x, s[1..], le);
      var r := [s[0]] + rest;
      forall j | 0 < j < |r|
        ensures le(s[0], r[j])
      {
        assert r[j] in multiset(rest);
        assert r[j] in multiset(s[1..]) + multiset{x};
        if r[j] != x {
          assert r[j] in s[1..];
        }
      }
    }
  }

  /** The sort returns an ordered permutation of its input. */
  lemma {:induction false} SortByCorrect<T(!new)>(s: seq<T>, le: (T, T) -> bool)
    requires TotalPreorder(le)
    ensures SortedBy(SortBy(s, le), le)
    ensures multiset(SortBy(s, le)) == multiset(s)
    decreases |s|
  {
    if |s| > 0 {
      SortByCorrect(s[..|s| - 1], le);
      InsertSorted(s[|s| - 1], SortBy(s[..|s| - 1], le), le);
      InsertMultiset(s[|s| - 1], SortBy(s[..|s| - 1], le), le);
      assert s == s[..|s| - 1] + [s[|s| - 1]];
    }
  }

  /** An already ordered input comes back unchanged. */
  lemma {:induction false} SortBySortedIdentity<T(!new)>(s: seq<T>, le: (T, T) -> bool)
    requires SortedBy(s, le)
    ensures SortBy(s, le) == s
    decreases |s|
  {
    if |s| > 0 {
      var p := s[..|s| - 1];
      SortBySortedIdentity(p, le);
      InsertAtEnd(s[|s| - 1], p, le);
      assert p + [s[|s| - 1]] == s;
    }
  }

  lemma {:induction false} InsertAtEnd<T>(x: T, s: seq<T>, le: (T, T) -> bool)
    requires forall i :: 0 <= i < |s| ==> le(s[i], x)
    ensures Insert(x, s, le) == s + [x]
    decreases |s|
  {
    if |s| > 0 {
      InsertAtEnd(x, s[1..], le);
      assert s == [s[0]] + s[1..];
    }
  }
}
