/**
 * KnowledgeService::searchEntries and applyFilters over the rows of the
 * store (each entry with its tag names and metadata), in id order.
 * `now` and the current repository of the working copy are parameters.
 */
module KnowledgeSearch {
  import opened Wrappers
  import opened Strings
  import opened Schema
  import opened Seqs
  import opened Ordering
  import opened EntryScopes

  /** searchEntries' limit when the filters give none. */
  const DefaultSearchLimit: int := 10

  /** The 'tags' filter: a list of names, or one string of comma-separated names. */
  datatype TagsFilter = TagList(names: seq<string>) | TagString(joined: string)

  /** The filters array; an absent key is None. */
  datatype Filters = Filters(
    repo: Option<string>,
    collection: Option<int>,
    branch: Option<string>,
    author: Option<string>,
    projectType: Option<string>,
    tags: Option<TagsFilter>,
    todo: bool,
    priority: Option<string>,
    status: Option<string>,
    recent: Option<int>,
    context: bool,
    limit: Option<int>)

  /** PHP truthiness of an optional integer and of an optional list. */
  predicate IntSet(x: Option<int>) {
    x.Some? && x.value != 0
  }

  /** PHP truthiness of the 'tags' filter: a non-empty list, or a string empty() rejects. */
  predicate TagsSet(x: Option<TagsFilter>) {
    x.Some? && match x.value
               case TagList(names) => |names| > 0
               case TagString(joined) => !PhpEmpty(joined)
  }

  /** The names withTags receives: the list as given, or the string exploded at ','. */
  function WantedTags(t: TagsFilter): seq<string> {
    match t
    case TagList(names) => names
    case TagString(joined) => Explode(joined, ',')
  }

  /** A scope applyFilters can add to the query. */
  datatype Scope =
    | RepoLike(repo: string)
    | InCollection(collectionId: int)
    | OnBranch(branch: string)
    | AuthorLike(author: string)
    | OfProjectType(projectType: string)
    | TaggedWith(wanted: seq<string>)
    | TodoTagged
    | WithPriority(priority: string)
    | WithStatus(status: string)
    | CreatedWithin(days: int)

  /** The Entry scope a Scope stands for. */
  predicate Holds(r: Row, s: Scope, now: int) {
    match s
    case RepoLike(v) => ByRepo(r, v)
    case InCollection(c) => ByCollection(r, c)
    case OnBranch(v) => ByBranch(r, v)
    case AuthorLike(v) => ByAuthor(r, v)
    case OfProjectType(v) => ByProjectType(r, v)
    case TaggedWith(ts) => WithTags(r, ts)
    case TodoTagged => TodoOnly(r)
    case WithPriority(v) => ByPriority(r, v)
    case WithStatus(v) => ByStatus(r, v)
    case CreatedWithin(d) => Recent(r, d, now)
  }

  /** applyFilters' chain of ifs: one scope per filter that PHP's empty() accepts, in the source's order. */
  function ActiveScopes(f: Filters): seq<Scope> {
    (if Truthy(f.repo) then [RepoLike(f.repo.value)] else [])
    + (if IntSet(f.collection) then [InCollection(f.collection.value)] else [])
    + (if Truthy(f.branch) then [OnBranch(f.branch.value)] else [])
    + (if Truthy(f.author) then [AuthorLike(f.author.value)] else [])
    + (if Truthy(f.projectType) then [OfProjectType(f.projectType.value)] else [])
    + (if TagsSet(f.tags) then [TaggedWith(WantedTags(f.tags.value))] else [])
    + (if f.todo then [TodoTagged] else [])
    + (if Truthy(f.priority) then [WithPriority(f.priority.value)] else [])
    + (if Truthy(f.status) then [WithStatus(f.status.value)] else [])
    + (if IntSet(f.recent) then [CreatedWithin(f.recent.value)] else [])
  }

  /**
   * applyFilters: the filter scopes, then, with 'context' and a current
   * repository, the ordering by relevance to it.
   */
  function ApplyFilters(rows: seq<Row>, f: Filters, currentRepo: Option<string>, now: int): (r: seq<Row>)
    ensures |r| <= |rows|
  {
    var c := FilterAll(rows, ActiveScopes(f), (x, s) => Holds(x, s, now));
    if f.context && Truthy(currentRepo) then OrderByRelevance(c, currentRepo) else c
  }

  /**
   * searchEntries: with a query PHP does not consider empty, the text
   * search scope (semantic search is never enabled); then the filters;
   * then the limit (10 by default).
   */
  function SearchEntries(rows: seq<Row>, query: string, f: Filters, currentRepo: Option<string>, now: int): seq<Row> {
    Take(ApplyFilters(TextSearch(rows, query), f, currentRepo, now), f.limit.GetOr(DefaultSearchLimit))
  }

  /** The text search step: the search scope for a query PHP does not consider empty, else every row. */
  function TextSearch(rows: seq<Row>, query: string): seq<Row> {
    if PhpEmpty(query) then rows else Filter(rows, x => SearchScope(x, query))
  }

  /** A row passes every scope applyFilters adds for `f`: the scopes combine with AND. */
  predicate MatchesFilters(r: Row, f: Filters, now: int) {
    forall s | s in ActiveScopes(f) :: Holds(r, s, now)
  }

  /** Ordering by relevance or not, applyFilters keeps exactly the rows passing every filter. */
  lemma ApplyFiltersMembers(rows: seq<Row>, f: Filters, currentRepo: Option<string>, now: int, x: Row)
    ensures x in ApplyFilters(rows, f, currentRepo, now) <==> x in rows && MatchesFilters(x, f, now)
  {
    var scopes := ActiveScopes(f);
    var c := FilterAll(rows, scopes, (x, s) => Holds(x, s, now));
    FilterAllMembers(rows, scopes, (x, s) => Holds(x, s, now), x);
    if f.context && Truthy(currentRepo) {
      OrderByRelevanceOrder(c, currentRepo);
      assert x in OrderByRelevance(c, currentRepo) <==> x in multiset(c);
    }
  }

  /** searchEntries returns at most `limit` rows (10 by default) and never more than there are. */
  lemma SearchBound(rows: seq<Row>, query: string, f: Filters, currentRepo: Option<string>, now: int)
    ensures var r := SearchEntries(rows, query, f, currentRepo, now);
      && |r| <= |rows|
      && (f.limit.GetOr(DefaultSearchLimit) >= 0 ==> |r| <= f.limit.GetOr(DefaultSearchLimit))
      && (f.limit.None? ==> |r| <= 10)
  {
  }

  /**
   * Every row searchEntries returns is a stored row that passes every
   * filter that is set, and, for a non-empty query, matches the text
   * search scope (content or a tag name contains the query).
   */
  lemma SearchSound(rows: seq<Row>, query: string, f: Filters, currentRepo: Option<string>, now: int, x: Row)
    requires x in SearchEntries(rows, query, f, currentRepo, now)
    ensures x in rows
    ensures MatchesFilters(x, f, now)
    ensures !PhpEmpty(query) ==> SearchScope(x, query)
  {
    var base := TextSearch(rows, query);
    ApplyFiltersMembers(base, f, currentRepo, now, x);
    if !PhpEmpty(query) {
      FilterMembers(rows, y => SearchScope(y, query), x);
    }
  }

  /**
   * When the limit does not cut (negative, or at least the number of rows),
   * every stored row passing the filters and the text search is returned.
   */
  lemma SearchComplete(rows: seq<Row>, query: string, f: Filters, currentRepo: Option<string>, now: int, x: Row)
    requires f.limit.GetOr(DefaultSearchLimit) < 0 || f.limit.GetOr(DefaultSearchLimit) >= |rows|
    requires x in rows && MatchesFilters(x, f, now)
    requires !PhpEmpty(query) ==> SearchScope(x, query)
    ensures x in SearchEntries(rows, query, f, currentRepo, now)
  {
    var base := TextSearch(rows, query);
    if !PhpEmpty(query) {
      FilterMembers(rows, y => SearchScope(y, query), x);
    }
    ApplyFiltersMembers(base, f, currentRepo, now, x);
  }

  /**
   * With the 'context' filter and a current repository the results come
   * ordered by relevance (that repository first, then newest first).
   */
  lemma SearchOrderedByRelevance(rows: seq<Row>, query: string, f: Filters, currentRepo: Option<string>, now: int)
    requires f.context && Truthy(currentRepo)
    ensures SortedDesc(SearchEntries(rows, query, f, currentRepo, now), RelevanceRank(currentRepo))
  {
    var base := TextSearch(rows, query);
    var c := FilterAll(base, ActiveScopes(f), (y, s) => Holds(y, s, now));
    var lim := f.limit.GetOr(DefaultSearchLimit);
    var o := OrderByRelevance(c, currentRepo);
    SortDescSorted(c, RelevanceRank(currentRepo));
    if 0 <= lim < |o| {
      PrefixOfSorted(o, lim, RelevanceRank(currentRepo));
    }
  }

  /**
   * Without the 'context' filter, or without a current repository, no
   * ordering is applied: the result does not depend on the repository and
   * the rows come back in stored order.
   */
  lemma SearchUnorderedWithoutContext(rows: seq<Row>, query: string, f: Filters, currentRepo: Option<string>, now: int)
    requires !(f.context && Truthy(currentRepo))
    ensures SearchEntries(rows, query, f, currentRepo, now) == SearchEntries(rows, query, f, None, now)
    ensures SearchEntries(rows, query, f, currentRepo, now)
              <= FilterAll(TextSearch(rows, query), ActiveScopes(f), (y, s) => Holds(y, s, now))
  {
  }

  /** byBranch and byProjectType compare exactly; byRepo and byAuthor look for a substring. */
  lemma FilterMatchKinds(x: Row, f: Filters, now: int)
    requires MatchesFilters(x, f, now)
    ensures Truthy(f.branch) ==> x.entry.prov.branch == f.branch
    ensures Truthy(f.projectType) ==> x.entry.prov.projectType == f.projectType
    ensures Truthy(f.repo) ==> x.entry.prov.repo.Some? && Like(x.entry.prov.repo.value, f.repo.value)
    ensures Truthy(f.author) ==> x.entry.prov.author.Some? && Like(x.entry.prov.author.value, f.author.value)
  {
    var a := ActiveScopes(f);
    if Truthy(f.branch) { assert OnBranch(f.branch.value) in a; }
    if Truthy(f.projectType) { assert OfProjectType(f.projectType.value) in a; }
    if Truthy(f.repo) { assert RepoLike(f.repo.value) in a; }
    if Truthy(f.author) { assert AuthorLike(f.author.value) in a; }
  }

  /**
   * A 'tags' string acts as the list of its comma-separated pieces (kept
   * untrimmed, empty pieces included), except "0", which PHP's empty()
   * rejects, so that it filters nothing.
   */
  lemma TagStringAsList(rows: seq<Row>, f: Filters, joined: string, currentRepo: Option<string>, now: int)
    requires f.tags == Some(TagString(joined))
    ensures !PhpEmpty(joined) ==>
              ApplyFilters(rows, f, currentRepo, now)
              == ApplyFilters(rows, f.(tags := Some(TagList(Explode(joined, ',')))), currentRepo, now)
    ensures PhpEmpty(joined) ==>
              ApplyFilters(rows, f, currentRepo, now) == ApplyFilters(rows, f.(tags := None), currentRepo, now)
  {
    if !PhpEmpty(joined) {
      SameScopes(f, f.(tags := Some(TagList(Explode(joined, ',')))));
    } else {
      SameScopes(f, f.(tags := None));
    }
  }

  /** Two filters that differ at most in their 'tags' key and add the same tag scope add the same scopes. */
  lemma SameScopes(f: Filters, g: Filters)
    requires f.(tags := None) == g.(tags := None)
    requires TagsSet(f.tags) == TagsSet(g.tags)
    requires TagsSet(f.tags) ==> WantedTags(f.tags.value) == WantedTags(g.tags.value)
    ensures ActiveScopes(f) == ActiveScopes(g)
  {
  }

  /** With a 'tags' filter PHP accepts, every wanted name is contained in some tag name of the row. */
  lemma FilterMatchTags(x: Row, f: Filters, now: int)
    requires MatchesFilters(x, f, now)
    ensures TagsSet(f.tags) ==> forall w | w in WantedTags(f.tags.value) :: exists n | n in x.tagNames :: Like(n, w)
    ensures f.tags.Some? && f.tags.value.TagString? && !PhpEmpty(f.tags.value.joined) ==>
              forall w | w in Explode(f.tags.value.joined, ',') :: exists n | n in x.tagNames :: Like(n, w)
  {
    if TagsSet(f.tags) {
      var wanted := WantedTags(f.tags.value);
      assert TaggedWith(wanted) in ActiveScopes(f);
      forall w | w in wanted ensures exists n | n in x.tagNames :: Like(n, w) {
        var k :| 0 <= k < |wanted| && wanted[k] == w;
      }
    }
  }

  /** byCollection is exact, todo needs a tag named exactly 'todo', recent compares created_at with now. */
  lemma FilterMatchMetadata(x: Row, f: Filters, now: int)
    requires MatchesFilters(x, f, now)
    ensures IntSet(f.collection) ==> x.entry.collectionId == Some(f.collection.value)
    ensures f.todo ==> "todo" in x.tagNames
    ensures IntSet(f.recent) ==> x.entry.createdAt >= now - f.recent.value * SecondsPerDay
    ensures Truthy(f.priority) ==> "priority" in x.meta && x.meta["priority"].value == f.priority.value
    ensures Truthy(f.status) ==> "status" in x.meta && x.meta["status"].value == f.status.value
  {
    var a := ActiveScopes(f);
    if IntSet(f.collection) { assert InCollection(f.collection.value) in a; }
    if f.todo { assert TodoTagged in a; }
    if IntSet(f.recent) { assert CreatedWithin(f.recent.value) in a; }
    if Truthy(f.priority) { assert WithPriority(f.priority.value) in a; }
    if Truthy(f.status) { assert WithStatus(f.status.value) in a; }
  }
}
