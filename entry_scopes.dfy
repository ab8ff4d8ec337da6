/**
 * The Entry model's accessors and query scopes, as predicates and
 * orderings over rows loaded with their details. `now` is a parameter.
 */
module EntryScopes {
  import opened Wrappers
  import opened Strings
  import opened Schema
  import opened Seqs
  import opened Ordering

  /** getMetadataValue: the stored value for `key`, or `default` when the entry has no such row. */
  function GetMetadataValue(meta: map<string, Meta>, key: string, default: string): string {
    if key in meta then meta[key].value else default
  }

  /** The priority accessor: metadata 'priority', default 'medium'. */
  function Priority(r: Row): string {
    GetMetadataValue(r.meta, "priority", "medium")
  }

  /** The status accessor: metadata 'status', default 'open'. */
  function Status(r: Row): string {
    GetMetadataValue(r.meta, "status", "open")
  }

  /** The is_todo accessor: some attached tag is named exactly 'todo'. */
  predicate IsTodo(r: Row) {
    "todo" in r.tagNames
  }

  /** scopeSearch: the content, or the name of some attached tag, contains the term. */
  predicate SearchScope(r: Row, term: string) {
    Like(r.entry.content, term) || exists n | n in r.tagNames :: Like(n, term)
  }

  /** scopeByRepo: repo LIKE %repo% (a null repo never matches). */
  predicate ByRepo(r: Row, repo: string) {
    r.entry.prov.repo.Some? && Like(r.entry.prov.repo.value, repo)
  }

  /** scopeByCollection: exact collection id. */
  predicate ByCollection(r: Row, collectionId: int) {
    r.entry.collectionId.Some? && r.entry.collectionId.value == collectionId
  }

  /** scopeByBranch: exact branch. */
  predicate ByBranch(r: Row, branch: string) {
    r.entry.prov.branch == Some(branch)
  }

  /** scopeByAuthor: author LIKE %author%. */
  predicate ByAuthor(r: Row, author: string) {
    r.entry.prov.author.Some? && Like(r.entry.prov.author.value, author)
  }

  /** scopeByProjectType: exact project type. */
  predicate ByProjectType(r: Row, projectType: string) {
    r.entry.prov.projectType == Some(projectType)
  }

  /** scopeWithTags: for EVERY listed tag, some attached tag name contains it. */
  predicate WithTags(r: Row, wanted: seq<string>) {
    forall k | 0 <= k < |wanted| :: exists n | n in r.tagNames :: Like(n, wanted[k])
  }

  /** scopeTodoOnly: the rows for which the is_todo accessor holds. */
  predicate TodoOnly(r: Row) {
    IsTodo(r)
  }

  /** scopeByPriority: a metadata row with key 'priority' and exactly this value. */
  predicate ByPriority(r: Row, priority: string) {
    "priority" in r.meta && r.meta["priority"].value == priority
  }

  /** scopeByStatus: a metadata row with key 'status' and exactly this value. */
  predicate ByStatus(r: Row, status: string) {
    "status" in r.meta && r.meta["status"].value == status
  }

  /** scopeRecent: created within the last `days` days before `now` (seconds). */
  predicate Recent(r: Row, days: int, now: int) {
    r.entry.createdAt >= now - days * SecondsPerDay
  }

  /** PHP truthiness of an optional string: present, and neither "" nor "0". */
  predicate Truthy(s: Option<string>) {
    s.Some? && !PhpEmpty(s.value)
  }

  /** The sort key of scopeOrderByRelevance: same repo first, then newest first. */
  function RelevanceRank(currentRepo: Option<string>): Row -> Rank {
    (x: Row) =>
      Rank(if Truthy(currentRepo) && x.entry.prov.repo == currentRepo then 1 else 0, x.entry.createdAt)
  }

  /**
   * scopeOrderByRelevance: with a (truthy) current repo, rows of that repo
   * first and then by created_at descending; otherwise by created_at
   * descending only.
   */
  function OrderByRelevance(rows: seq<Row>, currentRepo: Option<string>): seq<Row> {
    SortDesc(rows, RelevanceRank(currentRepo))
  }

  /** scopeSimilarTo falls back to created_at descending. */
  function SimilarTo(rows: seq<Row>): seq<Row> {
    SortDesc(rows, (x: Row) => Rank(x.entry.createdAt, 0))
  }

  /** Number of `e`'s tags that row `x` shares (tags_count of the relatedTo scope). */
  function SharedTagCount(x: Row, e: Row): nat {
    |x.tagNames * e.tagNames|
  }

  predicate SharesTagWith(x: Row, e: Row) {
    x.entry.id != e.entry.id && x.tagNames * e.tagNames != {}
  }

  /**
   * scopeRelatedTo: nothing when `e` has no tags; otherwise the other rows
   * sharing a tag with `e`, most shared tags first.
   */
  function RelatedTo(rows: seq<Row>, e: Row): seq<Row> {
    if e.tagNames == {} then []
    else SortDesc(Filter(rows, (x: Row) => SharesTagWith(x, e)), (x: Row) => Rank(SharedTagCount(x, e), 0))
  }

  /** Reading a key after upserting it yields the new value; other keys are unaffected. */
  lemma GetAfterSet(meta: map<string, Meta>, key: string, value: string, declaredType: string,
                    other: string, default: string)
    ensures GetMetadataValue(meta[key := Meta(value, declaredType)], key, default) == value
    ensures other != key ==>
      GetMetadataValue(meta[key := Meta(value, declaredType)], other, default) == GetMetadataValue(meta, other, default)
  {
  }

  /** The priority scope and the priority accessor agree; an entry without a row reads 'medium'. */
  lemma PriorityScopeAgreesWithAccessor(r: Row, p: string)
    ensures ByPriority(r, p) <==> "priority" in r.meta && Priority(r) == p
    ensures "priority" !in r.meta ==> Priority(r) == "medium"
    ensures ByStatus(r, p) <==> "status" in r.meta && Status(r) == p
    ensures "status" !in r.meta ==> Status(r) == "open"
  {
  }

  /**
   * todoOnly is stricter than withTags(['todo']): the exact-name test
   * implies the substring test, and a tag such as 'todos' shows the
   * converse fails.
   */
  lemma TodoOnlyVersusWithTags(r: Row)
    ensures TodoOnly(r) ==> WithTags(r, ["todo"])
    ensures IsTodo(r) <==> TodoOnly(r)
  {
    if TodoOnly(r) {
      assert OccursAt(Lower("todo"), Lower("todo"), 0);
      assert Like("todo", "todo");
    }
  }

  lemma TodosTagIsNotTodo(e: Entry)
    ensures var r := Row(e, {"todos"}, map[]);
            WithTags(r, ["todo"]) && !TodoOnly(r)
  {
    var r := Row(e, {"todos"}, map[]);
    assert Lower("todos") == "todos";
    assert Lower("todo") == "todo";
    assert OccursAt("todos", "todo", 0);
    assert Like("todos", "todo");
  }

  /**
   * orderByRelevance returns the same rows; with a truthy repo every row of
   * that repo precedes every other row, and within each group created_at
   * does not increase; without one, created_at does not increase overall.
   */
  lemma OrderByRelevanceOrder(rows: seq<Row>, currentRepo: Option<string>)
    ensures var o := OrderByRelevance(rows, currentRepo);
      && multiset(o) == multiset(rows)
      && (Truthy(currentRepo) ==>
            forall i, j :: 0 <= i < j < |o| && o[j].entry.prov.repo == currentRepo ==>
              o[i].entry.prov.repo == currentRepo)
      && (forall i, j :: 0 <= i < j < |o| && (o[i].entry.prov.repo == currentRepo <==> o[j].entry.prov.repo == currentRepo) ==>
              o[i].entry.createdAt >= o[j].entry.createdAt)
      && (!Truthy(currentRepo) ==>
            forall i, j :: 0 <= i < j < |o| ==> o[i].entry.createdAt >= o[j].entry.createdAt)
  {
    var rank := RelevanceRank(currentRepo);
    SortDescSorted(rows, rank);
    var o := OrderByRelevance(rows, currentRepo);
    forall i, j | 0 <= i < j < |o|
      ensures RankGe(rank(o[i]), rank(o[j]))
    {
    }
  }

  /** similarTo ignores the vector: the same rows, newest first. */
  lemma SimilarToOrder(rows: seq<Row>)
    ensures var o := SimilarTo(rows);
      && multiset(o) == multiset(rows)
      && forall i, j :: 0 <= i < j < |o| ==> o[i].entry.createdAt >= o[j].entry.createdAt
  {
    var rank := (x: Row) => Rank(x.entry.createdAt, 0);
    SortDescSorted(rows, rank);
    var o := SimilarTo(rows);
    forall i, j | 0 <= i < j < |o|
      ensures o[i].entry.createdAt >= o[j].entry.createdAt
    {
      assert RankGe(rank(o[i]), rank(o[j]));
    }
  }

  /**
   * relatedTo: empty when `e` has no tags; otherwise exactly the rows other
   * than `e` sharing at least one tag with it (each as often as in the
   * input), ordered by shared-tag count, non-increasing.
   */
  lemma RelatedToSpec(rows: seq<Row>, e: Row)
    ensures e.tagNames == {} ==> RelatedTo(rows, e) == []
    ensures var r := RelatedTo(rows, e);
      && (e.tagNames != {} ==> multiset(r) == multiset(Filter(rows, (x: Row) => SharesTagWith(x, e))))
      && (forall x | x in r :: x in rows && x.entry.id != e.entry.id && x.tagNames * e.tagNames != {})
      && (forall x | x in rows && SharesTagWith(x, e) :: x in r)
      && (forall i, j :: 0 <= i < j < |r| ==> SharedTagCount(r[i], e) >= SharedTagCount(r[j], e))
  {
    if e.tagNames != {} {
      var f := Filter(rows, (x: Row) => SharesTagWith(x, e));
      var rank := (x: Row) => Rank(SharedTagCount(x, e), 0);
      SortDescSorted(f, rank);
      var r := RelatedTo(rows, e);
      assert r == SortDesc(f, rank);
      forall x | x in r ensures x in rows && SharesTagWith(x, e) {
        assert x in multiset(r);
        FilterMembers(rows, (x: Row) => SharesTagWith(x, e), x);
      }
      forall x | x in rows && SharesTagWith(x, e) ensures x in r {
        FilterMembers(rows, (x: Row) => SharesTagWith(x, e), x);
        assert x in multiset(f);
      }
      forall i, j | 0 <= i < j < |r| ensures SharedTagCount(r[i], e) >= SharedTagCount(r[j], e) {
        assert RankGe(rank(r[i]), rank(r[j]));
      }
    }
  }
}
