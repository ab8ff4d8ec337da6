/** Tag::popular: the registry ordered by usage_count descending, limited. */
module TagQueries {
  import opened Schema
  import opened Seqs
  import opened Ordering

  const DefaultPopularLimit: int := 20

  function UsageRank(t: Tag): Rank {
    Rank(t.usage, 0)
  }

  /**
   * popular(limit): ORDER BY usage_count DESC LIMIT limit; a negative limit
   * is ignored by the query builder. The limit defaults to 20.
   */
  function Popular(tags: seq<Tag>, limit: int := DefaultPopularLimit): (r: seq<Tag>)
    ensures limit >= 0 ==> |r| == if limit < |tags| then limit else |tags|
    ensures limit < 0 ==> |r| == |tags|
  {
    Take(SortDesc(tags, UsageRank), limit)
  }

  /** popular(limit) draws its tags from the registry, in non-increasing usage_count order. */
  lemma PopularOrder(tags: seq<Tag>, limit: int)
    ensures var r := Popular(tags, limit);
      && multiset(r) <= multiset(tags)
      && (forall i, j :: 0 <= i < j < |r| ==> r[i].usage >= r[j].usage)
  {
    var n := if 0 <= limit < |tags| then limit else |tags|;
    TopOfSort(tags, n, UsageRank);
    var r := Popular(tags, limit);
    assert r == SortDesc(tags, UsageRank)[..n];
    assert SortedDesc(r, UsageRank);
    forall i, j | 0 <= i < j < |r| ensures r[i].usage >= r[j].usage {
      assert RankGe(UsageRank(r[i]), UsageRank(r[j]));
    }
  }

  /** No tag left out of popular(limit) is more used than any tag it keeps. */
  lemma PopularKeepsMostUsed(tags: seq<Tag>, limit: int, t: Tag, k: nat)
    requires t in multiset(tags) - multiset(Popular(tags, limit))
    requires k < |Popular(tags, limit)|
    ensures Popular(tags, limit)[k].usage >= t.usage
  {
    var n := if 0 <= limit < |tags| then limit else |tags|;
    TopOfSort(tags, n, UsageRank);
    var r := Popular(tags, limit);
    assert r == SortDesc(tags, UsageRank)[..n];
    assert RankGe(UsageRank(r[k]), UsageRank(t));
  }
}
