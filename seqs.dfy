/** Generic sequence operations: filtering, LIMIT, and array_unique. */
module Seqs {

  /** The elements of `s` satisfying `p`, in their original order. */
  function Filter<T>(s: seq<T>, p: T -> bool): (r: seq<T>)
    ensures |r| <= |s|
  {
    if s == [] then [] else (if p(s[0]) then [s[0]] else []) + Filter(s[1..], p)
  }

  /**
   * The query builder's `limit(n)`: a non-negative `n` keeps the first `n`
   * rows, a negative one is ignored by the builder and keeps every row.
   */
  function Take<T>(s: seq<T>, n: int): (r: seq<T>)
    ensures n >= 0 ==> |r| == if n < |s| then n else |s|
    ensures n < 0 ==> r == s
    ensures r <= s
  {
    if n < 0 || n >= |s| then s else s[..n]
  }

  /** `f` applied to each element of `xs`, in order. */
  function MapSeq<T, U>(xs: seq<T>, f: T -> U): (ys: seq<U>)
    ensures |ys| == |xs|
  {
    if xs == [] then [] else MapSeq(xs[..|xs| - 1], f) + [f(xs[|xs| - 1])]
  }

  lemma {:induction false} MapSeqAt<T, U>(xs: seq<T>, f: T -> U, i: nat)
    requires i < |xs|
    ensures MapSeq(xs, f)[i] == f(xs[i])
  {
    if i < |xs| - 1 {
      MapSeqAt(xs[..|xs| - 1], f, i);
    }
  }

  lemma MapSeqSnoc<T, U>(xs: seq<T>, i: nat, f: T -> U)
    requires i < |xs|
    ensures MapSeq(xs[..i + 1], f) == MapSeq(xs[..i], f) + [f(xs[i])]
  {
    assert xs[..i + 1][..i] == xs[..i];
  }

  /** The concatenation of `f(x)` for each `x` of `xs`, in order. */
  function ConcatMap<T, U>(xs: seq<T>, f: T -> seq<U>): seq<U> {
    if xs == [] then [] else ConcatMap(xs[..|xs| - 1], f) + f(xs[|xs| - 1])
  }

  lemma {:induction false} ConcatMapAppend<T, U>(a: seq<T>, b: seq<T>, f: T -> seq<U>)
    ensures ConcatMap(a + b, f) == ConcatMap(a, f) + ConcatMap(b, f)
  {
    if b == [] {
      assert a + b == a;
    } else {
      var init := b[..|b| - 1];
      ConcatMapAppend(a, init, f);
      assert (a + b)[..|a + b| - 1] == a + init;
      assert (a + b)[|a + b| - 1] == b[|b| - 1];
    }
  }

  lemma ConcatMapSnoc<T, U>(xs: seq<T>, i: nat, f: T -> seq<U>)
    requires i < |xs|
    ensures ConcatMap(xs[..i + 1], f) == ConcatMap(xs[..i], f) + f(xs[i])
  {
    assert xs[..i + 1][..i] == xs[..i];
  }

  lemma AppendAssoc<T>(a: seq<T>, b: seq<T>, c: seq<T>)
    ensures a + (b + c) == (a + b) + c
  {
  }

  /** One more element of a prefix. */
  lemma PrefixSnoc<T>(s: seq<T>, i: nat)
    requires i < |s|
    ensures s[..i + 1] == s[..i] + [s[i]]
    ensures s[..i + 1][..i] == s[..i] && s[..i + 1][i] == s[i]
  {
  }

  ghost predicate Distinct<T>(s: seq<T>) {
    forall i, j :: 0 <= i < j < |s| ==> s[i] != s[j]
  }

  /** The position of the first occurrence of `x` in `s`. */
  function FirstIndex<T(==)>(s: seq<T>, x: T): (i: nat)
    requires x in s
    ensures i < |s| && s[i] == x
    ensures forall k :: 0 <= k < i ==> s[k] != x
  {
    if s[0] == x then 0
    else
      var i := FirstIndex(s[1..], x);
      assert s[..i + 1] == [s[0]] + s[1..][..i];
      i + 1
  }

  /** Appending an element does not move the first occurrence of an earlier value. */
  lemma FirstIndexSnoc<T>(s: seq<T>, y: T, x: T)
    requires x in s
    ensures FirstIndex(s + [y], x) == FirstIndex(s, x)
  {
    var i := FirstIndex(s, x);
    assert (s + [y])[i] == x;
  }

  /**
   * PHP's array_unique on a list: every value once, in the order of its
   * first occurrence (`DedupOrder`).
   */
  function Dedup<T(==)>(s: seq<T>): (r: seq<T>)
    ensures Distinct(r)
    ensures forall i :: 0 <= i < |r| ==> r[i] in s
    ensures forall i :: 0 <= i < |s| ==> s[i] in r
    ensures |r| <= |s|
  {
    if s == [] then []
    else
      var init := s[..|s| - 1];
      var d := Dedup(init);
      var last := s[|s| - 1];
      assert s == init + [last];
      if last in d then d else d + [last]
  }

  /** Dedup lists the values in the order in which they first occur. */
  lemma {:induction false} DedupOrder<T>(s: seq<T>)
    ensures forall i, j :: 0 <= i < j < |Dedup(s)| ==> FirstIndex(s, Dedup(s)[i]) < FirstIndex(s, Dedup(s)[j])
  {
    if s != [] {
      var init := s[..|s| - 1];
      var last := s[|s| - 1];
      assert s == init + [last];
      DedupOrder(init);
      DedupOrderSnoc(init, last, Dedup(init));
    }
  }

  /** The order of first occurrences survives one more element. */
  lemma {:induction false} DedupOrderSnoc<T>(init: seq<T>, last: T, d: seq<T>)
    requires forall i :: 0 <= i < |d| ==> d[i] in init
    requires forall i :: 0 <= i < |init| ==> init[i] in d
    requires forall i, j :: 0 <= i < j < |d| ==> FirstIndex(init, d[i]) < FirstIndex(init, d[j])
    ensures forall i, j :: 0 <= i < j < |d| ==> FirstIndex(init + [last], d[i]) < FirstIndex(init + [last], d[j])
    ensures last !in d ==>
              forall i, j :: 0 <= i < j < |d| + 1 ==> FirstIndex(init + [last], (d + [last])[i]) < FirstIndex(init + [last], (d + [last])[j])
  {
    var s := init + [last];
    forall i | 0 <= i < |d| ensures FirstIndex(s, d[i]) == FirstIndex(init, d[i]) {
      FirstIndexSnoc(init, last, d[i]);
    }
    if last !in d {
      assert last !in init;
      assert FirstIndex(s, last) == |init|;
    }
  }

  /** array_unique leaves a list without repeated values unchanged. */
  lemma {:induction false} DedupOfDistinct<T>(s: seq<T>)
    requires Distinct(s)
    ensures Dedup(s) == s
  {
    if s != [] {
      var init := s[..|s| - 1];
      assert Distinct(init);
      DedupOfDistinct(init);
      var last := s[|s| - 1];
      forall k | 0 <= k < |init|
        ensures init[k] != last
      {
        assert init[k] == s[k];
      }
      assert s == init + [last];
      assert Dedup(s) == Dedup(init) + [last];
    }
  }

  /** One `where` condition: the elements `x` of `s` with `holds(x, c)`, in order. */
  function FilterBy<T, C>(s: seq<T>, holds: (T, C) -> bool, c: C): (r: seq<T>)
    ensures |r| <= |s|
  {
    if s == [] then []
    else (if holds(s[0], c) then [s[0]] else []) + FilterBy(s[1..], holds, c)
  }

  /** An element is kept by one condition exactly when it occurs in `s` and meets the condition. */
  lemma {:induction false} FilterByMembers<T, C>(s: seq<T>, holds: (T, C) -> bool, c: C, x: T)
    ensures x in FilterBy(s, holds, c) <==> x in s && holds(x, c)
  {
    if s != [] {
      FilterByMembers(s[1..], holds, c, x);
      assert s == [s[0]] + s[1..];
    }
  }

  /** The elements of `s` satisfying `holds` for every condition of `conds`, applied one after another. */
  function FilterAll<T, C>(s: seq<T>, conds: seq<C>, holds: (T, C) -> bool): (r: seq<T>)
    ensures |r| <= |s|
  {
    if conds == [] then s
    else FilterBy(FilterAll(s, conds[..|conds| - 1], holds), holds, conds[|conds| - 1])
  }

  /** An element is kept by Filter exactly when it occurs in `s` and satisfies `p`. */
  lemma {:induction false} FilterMembers<T>(s: seq<T>, p: T -> bool, x: T)
    ensures x in Filter(s, p) <==> x in s && p(x)
  {
    if s != [] {
      FilterMembers(s[1..], p, x);
      assert s == [s[0]] + s[1..];
    }
  }

  /** Chained filters combine with AND: an element is kept exactly when it meets every condition. */
  lemma {:induction false} FilterAllMembers<T, C>(s: seq<T>, conds: seq<C>, holds: (T, C) -> bool, x: T)
    ensures x in FilterAll(s, conds, holds) <==> x in s && forall k :: 0 <= k < |conds| ==> holds(x, conds[k])
  {
    if conds != [] {
      var init := conds[..|conds| - 1];
      var last := conds[|conds| - 1];
      FilterAllMembers(s, init, holds, x);
      FilterByMembers(FilterAll(s, init, holds), holds, last, x);
      assert forall k :: 0 <= k < |conds| ==> conds[k] == if k < |init| then init[k] else last;
    }
  }
}
