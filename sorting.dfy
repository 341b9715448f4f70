// Stable sorting by a numeric rank: the order that ECMAScript's
// `Array.prototype.sort` (stable since ES2019) produces for a comparator
// that compares ranks.
module Sorting {
  /** A sort key compared lexicographically: `major` first, then `minor`. */
  datatype Rank = Rank(major: int, minor: int)

  predicate RankLe(a: Rank, b: Rank)
  {
    a.major < b.major || (a.major == b.major && a.minor <= b.minor)
  }

  /** Every element's rank is at most the rank of every later element. */
  predicate SortedBy<T>(xs: seq<T>, key: T -> Rank)
  {
    forall i, j :: 0 <= i < j < |xs| ==> RankLe(key(xs[i]), key(xs[j]))
  }

  /** Puts `x` after every element of `s` whose rank is not greater than its own. */
  function Insert<T>(x: T, s: seq<T>, key: T -> Rank): seq<T>
    decreases |s|
  {
    if s == [] then [x]
    else if !RankLe(key(s[0]), key(x)) then [x] + s
    else [s[0]] + Insert(x, s[1..], key)
  }

  /** Stable insertion sort: elements of equal rank keep their input order. */
  function SortBy<T>(xs: seq<T>, key: T -> Rank): seq<T>
    decreases |xs|
  {
    if xs == [] then [] else Insert(xs[|xs| - 1], SortBy(xs[..|xs| - 1], key), key)
  }

  /** The elements of `xs` whose rank is exactly `k`, in order. */
  function WithRank<T>(xs: seq<T>, key: T -> Rank, k: Rank): seq<T>
    decreases |xs|
  {
    if xs == [] then []
    else (if key(xs[0]) == k then [xs[0]] else []) + WithRank(xs[1..], key, k)
  }

  lemma {:induction false} InsertPermutes<T>(x: T, s: seq<T>, key: T -> Rank)
    ensures multiset(Insert(x, s, key)) == multiset(s) + multiset{x}
    decreases |s|
  {
    if s != [] && RankLe(key(s[0]), key(x)) {
      InsertPermutes(x, s[1..], key);
      assert s == [s[0]] + s[1..];
    }
  }

  lemma {:induction false} InsertSorted<T>(x: T, s: seq<T>, key: T -> Rank)
    requires SortedBy(s, key)
    ensures SortedBy(Insert(x, s, key), key)
    decreases |s|
  {
    if s != [] && RankLe(key(s[0]), key(x)) {
      var t := s[1..];
      InsertSorted(x, t, key);
      InsertPermutes(x, t, key);
      var u := Insert(x, t, key);
      forall j | 0 <= j < |u| ensures RankLe(key(s[0]), key(u[j])) {
        assert u[j] in multiset(u);
        if u[j] != x {
          assert u[j] in multiset(t);
          var m :| 0 <= m < |t| && t[m] == u[j];
          assert t[m] == s[m + 1];
        }
      }
    }
  }

  lemma {:induction false} SortPermutes<T>(xs: seq<T>, key: T -> Rank)
    ensures multiset(SortBy(xs, key)) == multiset(xs)
    decreases |xs|
  {
    if xs != [] {
      var n := |xs| - 1;
      SortPermutes(xs[..n], key);
      InsertPermutes(xs[n], SortBy(xs[..n], key), key);
      assert xs == xs[..n] + [xs[n]];
    }
  }

  lemma {:induction false} SortSorted<T>(xs: seq<T>, key: T -> Rank)
    ensures SortedBy(SortBy(xs, key), key)
    decreases |xs|
  {
    if xs != [] {
      var n := |xs| - 1;
      SortSorted(xs[..n], key);
      InsertSorted(xs[n], SortBy(xs[..n], key), key);
    }
  }

  lemma {:induction false} InsertAfterAll<T>(x: T, s: seq<T>, key: T -> Rank)
    requires forall i :: 0 <= i < |s| ==> RankLe(key(s[i]), key(x))
    ensures Insert(x, s, key) == s + [x]
    decreases |s|
  {
    if s != [] {
      InsertAfterAll(x, s[1..], key);
      assert s == [s[0]] + s[1..];
    }
  }

  /** Sorting input that is already in rank order changes nothing. */
  lemma {:induction false} SortOfSorted<T>(xs: seq<T>, key: T -> Rank)
    requires SortedBy(xs, key)
    ensures SortBy(xs, key) == xs
    decreases |xs|
  {
    if xs != [] {
      var n := |xs| - 1;
      assert SortedBy(xs[..n], key);
      SortOfSorted(xs[..n], key);
      InsertAfterAll(xs[n], xs[..n], key);
      assert xs == xs[..n] + [xs[n]];
    }
  }

  lemma {:induction false} WithRankConcat<T>(a: seq<T>, b: seq<T>, key: T -> Rank, k: Rank)
    ensures WithRank(a + b, key, k) == WithRank(a, key, k) + WithRank(b, key, k)
    decreases |a|
  {
    if a == [] {
      assert a + b == b;
    } else {
      WithRankConcat(a[1..], b, key, k);
      assert (a + b)[0] == a[0];
      assert (a + b)[1..] == a[1..] + b;
    }
  }

  lemma {:induction false} WithRankInsert<T>(x: T, s: seq<T>, key: T -> Rank, k: Rank)
    requires SortedBy(s, key)
    ensures WithRank(Insert(x, s, key), key, k) == WithRank(s, key, k) + WithRank([x], key, k)
    decreases |s|
  {
    if s == [] {
    } else if !RankLe(key(s[0]), key(x)) {
      WithRankConcat([x], s, key, k);
      if key(x) == k {
        WithRankNone(s, key, k);
      }
    } else {
      assert SortedBy(s[1..], key);
      WithRankInsert(x, s[1..], key, k);
      WithRankConcat([s[0]], Insert(x, s[1..], key), key, k);
    }
  }

  /** No element of a sorted `s` whose first rank exceeds `k` has rank `k`. */
  lemma {:induction false} WithRankNone<T>(s: seq<T>, key: T -> Rank, k: Rank)
    requires SortedBy(s, key)
    requires s != [] && !RankLe(key(s[0]), k)
    ensures WithRank(s, key, k) == []
    decreases |s|
  {
    if |s| > 1 {
      assert RankLe(key(s[0]), key(s[1]));
      assert SortedBy(s[1..], key);
      WithRankNone(s[1..], key, k);
    }
  }

  /** Stability: for every rank, the elements of that rank appear in the sorted output in their input order. */
  lemma {:induction false} SortStable<T>(xs: seq<T>, key: T -> Rank, k: Rank)
    ensures WithRank(SortBy(xs, key), key, k) == WithRank(xs, key, k)
    decreases |xs|
  {
    if xs != [] {
      var n := |xs| - 1;
      SortStable(xs[..n], key, k);
      SortSorted(xs[..n], key);
      WithRankInsert(xs[n], SortBy(xs[..n], key), key, k);
      assert xs == xs[..n] + [xs[n]];
      WithRankConcat(xs[..n], [xs[n]], key, k);
    }
  }
}
