/**
 * ORDER BY ... DESC over a snapshot of rows. A row's sort key is a `Rank`
 * (a major and a minor integer compared lexicographically), which covers
 * `ORDER BY a DESC` and `ORDER BY a DESC, b DESC`.
 */
module Ordering {

  datatype Rank = Rank(major: int, minor: int)

  /** `a` may come before `b` in a descending order. */
  predicate RankGe(a: Rank, b: Rank) {
    a.major > b.major || (a.major == b.major && a.minor >= b.minor)
  }

  predicate SortedDesc<T>(s: seq<T>, rank: T -> Rank) {
    forall i, j :: 0 <= i < j < |s| ==> RankGe(rank(s[i]), rank(s[j]))
  }

  /** Inserts `x` before the first element it ranks at least as high as. */
  function Insert<T>(x: T, s: seq<T>, rank: T -> Rank): (r: seq<T>)
    ensures multiset(r) == multiset(s) + multiset{x}
    ensures |r| == |s| + 1
  {
    if s == [] then [x]
    else if RankGe(rank(x), rank(s[0])) then [x] + s
    else
      assert s == [s[0]] + s[1..];
      [s[0]] + Insert(x, s[1..], rank)
  }

  /** Insertion sort into non-increasing rank. */
  function SortDesc<T>(s: seq<T>, rank: T -> Rank): (r: seq<T>)
    ensures multiset(r) == multiset(s)
    ensures |r| == |s|
  {
    if s == [] then []
    else
      assert s == [s[0]] + s[1..];
      Insert(s[0], SortDesc(s[1..], rank), rank)
  }

  lemma {:induction false} InsertSorted<T>(x: T, s: seq<T>, rank: T -> Rank)
    requires SortedDesc(s, rank)
    ensures SortedDesc(Insert(x, s, rank), rank)
  {
    if s != [] && !RankGe(rank(x), rank(s[0])) {
      var tail := s[1..];
      assert SortedDesc(tail, rank);
      InsertSorted(x, tail, rank);
      var r := Insert(x, s, rank);
      var t := Insert(x, tail, rank);
      assert r == [s[0]] + t;
      forall j | 0 < j < |r|
        ensures RankGe(rank(s[0]), rank(r[j]))
      {
        var y := r[j];
        assert y in multiset(t);
        assert y in multiset(tail) + multiset{x};
        if y in tail {
          var k :| 0 <= k < |tail| && tail[k] == y;
          assert s[k + 1] == y;
        }
      }
    }
  }

  /** The result of SortDesc is in non-increasing rank order. */
  lemma {:induction false} SortDescSorted<T>(s: seq<T>, rank: T -> Rank)
    ensures SortedDesc(SortDesc(s, rank), rank)
  {
    if s != [] {
      SortDescSorted(s[1..], rank);
      InsertSorted(s[0], SortDesc(s[1..], rank), rank);
    }
  }

  /**
   * Cutting a sorted sequence after its first `n` elements keeps it sorted,
   * and everything cut off ranks no higher than anything kept.
   */
  lemma PrefixOfSorted<T>(s: seq<T>, n: nat, rank: T -> Rank)
    requires SortedDesc(s, rank) && n <= |s|
    ensures SortedDesc(s[..n], rank)
    ensures forall t | t in multiset(s) - multiset(s[..n]) ::
              forall k | 0 <= k < n :: RankGe(rank(s[k]), rank(t))
  {
    assert s == s[..n] + s[n..];
    assert multiset(s) == multiset(s[..n]) + multiset(s[n..]);
    forall t | t in multiset(s) - multiset(s[..n])
      ensures forall k | 0 <= k < n :: RankGe(rank(s[k]), rank(t))
    {
      assert t in multiset(s[n..]);
      var m :| 0 <= m < |s[n..]| && s[n..][m] == t;
      assert s[n + m] == t;
    }
  }

  /** The first `n` elements of any sorted permutation of `s`. */
  lemma TopOfPermutation<T>(sorted: seq<T>, s: seq<T>, n: nat, rank: T -> Rank)
    requires SortedDesc(sorted, rank) && multiset(sorted) == multiset(s) && n <= |sorted|
    ensures multiset(sorted[..n]) <= multiset(s)
    ensures SortedDesc(sorted[..n], rank)
    ensures forall t | t in multiset(s) - multiset(sorted[..n]) ::
              forall k | 0 <= k < n :: RankGe(rank(sorted[..n][k]), rank(t))
  {
    PrefixOfSorted(sorted, n, rank);
    assert sorted == sorted[..n] + sorted[n..];
    assert multiset(sorted) == multiset(sorted[..n]) + multiset(sorted[n..]);
  }

  /**
   * The first `n` elements of the sorted sequence: drawn from `s`, sorted,
   * and ranked at least as high as every element left out.
   */
  lemma TopOfSort<T>(s: seq<T>, n: nat, rank: T -> Rank)
    requires n <= |s|
    ensures var r := SortDesc(s, rank)[..n];
      && multiset(r) <= multiset(s)
      && SortedDesc(r, rank)
      && (forall t | t in multiset(s) - multiset(r) :: forall k | 0 <= k < n :: RankGe(rank(r[k]), rank(t)))
  {
    SortDescSorted(s, rank);
    TopOfPermutation(SortDesc(s, rank), s, n, rank);
  }
}
