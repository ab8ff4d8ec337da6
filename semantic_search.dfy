/**
 * The semantic-search collaborator as shipped: no vector search, no
 * embeddings, and keyword-based tag suggestion.
 */
module SemanticSearch {
  import opened Wrappers
  import opened Strings
  import opened Seqs

  /** isEnabled: semantic search is never available, so queries use the text scope. */
  function IsEnabled(): bool {
    false
  }

  /** generateEmbedding: always null; entries are stored without an embedding. */
  function GenerateEmbedding(content: string): Option<seq<real>> {
    None
  }

  /** The suggestion table, in order: tag name and the keywords that suggest it. */
  const KeywordTable: seq<(string, seq<string>)> := [
    ("bug", ["bug", "issue", "error"]),
    ("feature", ["feature", "enhancement", "add"]),
    ("performance", ["slow", "fast", "optimize", "performance"]),
    ("security", ["security", "auth", "token", "password"]),
    ("database", ["database", "sql", "query", "table"]),
    ("api", ["api", "endpoint", "rest", "graphql"])
  ]

  const SuggestibleTags: set<string> := {"bug", "feature", "performance", "security", "database", "api"}

  /** Some keyword of `words` occurs in `lower`. */
  predicate MentionsAny(lower: string, words: seq<string>) {
    exists w | w in words :: Contains(lower, w)
  }

  /** The tags of `table` (in table order) that have a keyword occurring in `lower`. */
  function Suggested(table: seq<(string, seq<string>)>, lower: string): seq<string> {
    if table == [] then []
    else
      var last := table[|table| - 1];
      Suggested(table[..|table| - 1], lower) + (if MentionsAny(lower, last.1) then [last.0] else [])
  }

  /** What suggestTags returns for `content`. */
  function Suggestions(content: string): seq<string> {
    Dedup(Suggested(KeywordTable, Lower(content)))
  }

  /**
   * suggestTags: lower-case the content, walk the table in order and add a
   * tag at its first keyword that occurs; then array_unique.
   */
  method SuggestTags(content: string) returns (suggestions: seq<string>)
    ensures suggestions == Suggestions(content)
  {
    var lower := Lower(content);
    var found: seq<string> := [];
    for i := 0 to |KeywordTable|
      invariant found == Suggested(KeywordTable[..i], lower)
    {
      var tag := KeywordTable[i].0;
      var words := KeywordTable[i].1;
      ghost var before := found;
      assert KeywordTable[..i + 1][..i] == KeywordTable[..i];
      for j := 0 to |words|
        invariant found == before
        invariant !MentionsAny(lower, words[..j])
      {
        if Contains(lower, words[j]) {
          found := found + [tag];
          break;
        }
        assert words[..j + 1] == words[..j] + [words[j]];
      }
      assert words[..|words|] == words;
    }
    assert KeywordTable[..|KeywordTable|] == KeywordTable;
    suggestions := Dedup(found);
  }

  /** Suggested draws its names from the table, in table order, without repeats. */
  lemma {:induction false} SuggestedFromTable(table: seq<(string, seq<string>)>, lower: string)
    requires forall i, j :: 0 <= i < j < |table| ==> table[i].0 != table[j].0
    ensures Distinct(Suggested(table, lower))
    ensures forall t :: t in Suggested(table, lower) <==>
              exists k :: 0 <= k < |table| && table[k].0 == t && MentionsAny(lower, table[k].1)
  {
    if table != [] {
      var init := table[..|table| - 1];
      var last := table[|table| - 1];
      SuggestedFromTable(init, lower);
      var s := Suggested(table, lower);
      var si := Suggested(init, lower);
      forall t | t in si ensures t != last.0 {
        var k :| 0 <= k < |init| && init[k].0 == t && MentionsAny(lower, init[k].1);
        assert table[k] == init[k];
      }
      assert s == si + (if MentionsAny(lower, last.1) then [last.0] else []);
      forall i, j | 0 <= i < j < |s| ensures s[i] != s[j] {
        if j < |si| {
          assert s[i] == si[i] && s[j] == si[j];
        } else {
          assert s[j] == last.0;
          assert s[i] == si[i] && si[i] in si;
        }
      }
      forall t ensures t in s <==> exists k :: 0 <= k < |table| && table[k].0 == t && MentionsAny(lower, table[k].1) {
        if t in s {
          if t in si {
            var k :| 0 <= k < |init| && init[k].0 == t && MentionsAny(lower, init[k].1);
            assert table[k] == init[k];
          } else {
            assert table[|table| - 1].0 == t;
          }
        }
        if exists k :: 0 <= k < |table| && table[k].0 == t && MentionsAny(lower, table[k].1) {
          var k :| 0 <= k < |table| && table[k].0 == t && MentionsAny(lower, table[k].1);
          if k < |table| - 1 {
            assert init[k] == table[k];
          }
        }
      }
    }
  }

  /**
   * A tag is suggested exactly when the lower-cased content contains one of
   * its keywords; every suggestion is one of the six table tags, none is
   * repeated, and they follow the table's order.
   */
  lemma SuggestionsSpec(content: string)
    ensures Suggestions(content) == Suggested(KeywordTable, Lower(content))
    ensures Distinct(Suggestions(content))
    ensures forall t :: t in Suggestions(content) <==>
              exists k :: 0 <= k < |KeywordTable| && KeywordTable[k].0 == t
                          && MentionsAny(Lower(content), KeywordTable[k].1)
    ensures forall t | t in Suggestions(content) :: t in SuggestibleTags
  {
    var lower := Lower(content);
    var table := KeywordTable;
    TableNamesDistinct();
    SuggestedFromTable(table, lower);
    DedupOfDistinct(Suggested(table, lower));
    forall t | t in Suggestions(content) ensures t in SuggestibleTags {
      var k :| 0 <= k < |table| && table[k].0 == t && MentionsAny(lower, table[k].1);
      TableNamesSuggestible(k);
    }
  }

  lemma TableNamesDistinct()
    ensures forall i, j :: 0 <= i < j < |KeywordTable| ==> KeywordTable[i].0 != KeywordTable[j].0
  {
  }

  lemma TableNamesSuggestible(k: int)
    requires 0 <= k < |KeywordTable|
    ensures KeywordTable[k].0 in SuggestibleTags
  {
  }

  /** One keyword occurrence is enough for its tag to be suggested. */
  lemma KeywordSuggests(content: string, k: int, w: string, at: int)
    requires 0 <= k < |KeywordTable| && w in KeywordTable[k].1
    requires OccursAt(Lower(content), w, at)
    ensures KeywordTable[k].0 in Suggestions(content)
  {
    SuggestionsSpec(content);
    assert Contains(Lower(content), w);
  }

  /** Keywords match inside words: "debug" suggests bug. */
  lemma DebugSuggestsBug()
    ensures "bug" in Suggestions("debug")
  {
    var lower := Lower("debug");
    assert lower[2..5] == "bug";
    KeywordSuggests("debug", 0, "bug", 2);
  }

  /** Keywords match inside words: "address" suggests feature. */
  lemma AddressSuggestsFeature()
    ensures "feature" in Suggestions("address")
  {
    var lower := Lower("address");
    assert lower[0..3] == "add";
    KeywordSuggests("address", 1, "add", 0);
  }

  /** Matching ignores case: "Slow SQL" suggests performance and database. */
  lemma MatchingIgnoresCase()
    ensures "performance" in Suggestions("Slow SQL")
    ensures "database" in Suggestions("Slow SQL")
  {
    var lower := Lower("Slow SQL");
    assert lower[0..4] == "slow";
    assert lower[5..8] == "sql";
    KeywordSuggests("Slow SQL", 2, "slow", 0);
    KeywordSuggests("Slow SQL", 4, "sql", 5);
  }
}
