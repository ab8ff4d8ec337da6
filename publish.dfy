/**
 * PublishService: the `slug` helper, the format dispatch of `publish` with
 * the result it reports, and the markdown export (one file per collection
 * group). Template text of the HTML, JSON and API exports and the file
 * writes themselves are outside the model; the markdown export returns the
 * files it would write as (path, content) pairs.
 */
module Publish {
  import opened Wrappers
  import opened Strings
  import opened Seqs
  import opened Schema
  import TagQueries

  /** The characters `[A-Za-z0-9-]` that slug's regular expression leaves alone. */
  predicate IsSlugChar(c: char) {
    'A' <= c <= 'Z' || 'a' <= c <= 'z' || '0' <= c <= '9' || c == '-'
  }

  predicate IsAlnum(c: char) {
    'A' <= c <= 'Z' || 'a' <= c <= 'z' || '0' <= c <= '9'
  }

  predicate IsLowerSlugChar(c: char) {
    'a' <= c <= 'z' || '0' <= c <= '9' || c == '-'
  }

  /** Drops the rest of a run of characters the expression replaces. */
  function SkipRun(s: string): (r: string)
    ensures |r| <= |s|
  {
    if s != [] && !IsSlugChar(s[0]) then SkipRun(s[1..]) else s
  }

  /** `preg_replace('/[^A-Za-z0-9-]+/', '-', s)`: each maximal run of other characters becomes one '-'. */
  function ReplaceRuns(s: string): string
    decreases |s|
  {
    if s == [] then []
    else if IsSlugChar(s[0]) then [s[0]] + ReplaceRuns(s[1..])
    else "-" + ReplaceRuns(SkipRun(s[1..]))
  }

  /** `ltrim(s, '-')`. */
  function TrimDashesLeft(s: string): string {
    if s != [] && s[0] == '-' then TrimDashesLeft(s[1..]) else s
  }

  /** `rtrim(s, '-')`. */
  function TrimDashesRight(s: string): string {
    if s != [] && s[|s| - 1] == '-' then TrimDashesRight(s[..|s| - 1]) else s
  }

  /** `trim(s, '-')`. */
  function TrimDashes(s: string): string {
    TrimDashesRight(TrimDashesLeft(s))
  }

  /** slug(): the replacement above, then '-' trimmed from both ends, then lower-cased. */
  function Slug(text: string): string {
    Lower(TrimDashes(ReplaceRuns(text)))
  }

  /** A slug: lower-case ASCII letters, digits and '-', with no '-' at either end. */
  predicate IsSlug(s: string) {
    && (forall i :: 0 <= i < |s| ==> IsLowerSlugChar(s[i]))
    && (s == [] || (s[0] != '-' && s[|s| - 1] != '-'))
  }

  /** The letters and digits of `s`, in order. */
  function Alnums(s: string): string {
    if s == [] then [] else (if IsAlnum(s[0]) then [s[0]] else []) + Alnums(s[1..])
  }

  lemma {:induction false} ReplaceRunsChars(s: string)
    ensures forall i :: 0 <= i < |ReplaceRuns(s)| ==> IsSlugChar(ReplaceRuns(s)[i])
    decreases |s|
  {
    if s != [] {
      if IsSlugChar(s[0]) {
        ReplaceRunsChars(s[1..]);
      } else {
        ReplaceRunsChars(SkipRun(s[1..]));
      }
    }
  }

  lemma {:induction false} TrimDashesLeftSlice(s: string)
    ensures var t := TrimDashesLeft(s);
      && |t| <= |s| && t == s[|s| - |t|..]
      && (t == [] || t[0] != '-')
      && (forall i :: 0 <= i < |s| - |t| ==> s[i] == '-')
  {
    if s != [] && s[0] == '-' {
      var rest := s[1..];
      var t := TrimDashesLeft(rest);
      TrimDashesLeftSlice(rest);
      assert rest[|rest| - |t|..] == s[|s| - |t|..];
      forall i | 0 < i < |s| - |t| ensures s[i] == '-' {
        assert s[i] == rest[i - 1];
      }
    }
  }

  lemma {:induction false} TrimDashesRightSlice(s: string)
    ensures var t := TrimDashesRight(s);
      && |t| <= |s| && t == s[..|t|]
      && (t == [] || t[|t| - 1] != '-')
      && (forall i :: |t| <= i < |s| ==> s[i] == '-')
  {
    if s != [] && s[|s| - 1] == '-' {
      var rest := s[..|s| - 1];
      var t := TrimDashesRight(rest);
      TrimDashesRightSlice(rest);
      assert rest[..|t|] == s[..|t|];
      forall i | |t| <= i < |rest| ensures s[i] == '-' {
        assert s[i] == rest[i];
      }
    }
  }

  /**
   * slug() yields only lower-case letters, digits and '-', and never starts
   * or ends with '-'.
   */
  lemma SlugIsSlug(text: string)
    ensures IsSlug(Slug(text))
  {
    var x := ReplaceRuns(text);
    ReplaceRunsChars(text);
    var l := TrimDashesLeft(x);
    TrimDashesLeftSlice(x);
    var y := TrimDashesRight(l);
    TrimDashesRightSlice(l);
    assert y == x[|x| - |l|..][..|y|];
    forall i | 0 <= i < |y| ensures IsSlugChar(y[i]) {
      assert y[i] == x[|x| - |l| + i];
    }
    if y != [] {
      assert y[0] == l[0];
    }
  }

  lemma {:induction false} ReplaceRunsOfSlugChars(s: string)
    requires forall i :: 0 <= i < |s| ==> IsSlugChar(s[i])
    ensures ReplaceRuns(s) == s
  {
    if s != [] {
      ReplaceRunsOfSlugChars(s[1..]);
      assert s == [s[0]] + s[1..];
    }
  }

  /** A string that already is a slug is its own slug. */
  lemma SlugOfSlug(s: string)
    requires IsSlug(s)
    ensures Slug(s) == s
  {
    ReplaceRunsOfSlugChars(s);
    assert TrimDashesLeft(s) == s;
    assert TrimDashesRight(s) == s;
    assert Lower(s) == s;
  }

  /** slug() is idempotent. */
  lemma SlugIdempotent(text: string)
    ensures Slug(Slug(text)) == Slug(text)
  {
    SlugIsSlug(text);
    SlugOfSlug(Slug(text));
  }

  lemma {:induction false} SkipRunOver(r: string, b: string)
    requires forall i :: 0 <= i < |r| ==> !IsSlugChar(r[i])
    requires b == [] || IsSlugChar(b[0])
    ensures SkipRun(r + b) == b
  {
    if r != [] {
      SkipRunOver(r[1..], b);
      assert (r + b)[1..] == r[1..] + b;
    }
  }

  /**
   * The replacement step, character by character: a kept character is
   * copied, and a whole maximal run of other characters becomes a single '-'.
   */
  lemma ReplaceRunsSteps(c: char, r: string, b: string)
    requires forall i :: 0 <= i < |r| ==> !IsSlugChar(r[i])
    requires b == [] || IsSlugChar(b[0])
    ensures IsSlugChar(c) ==> ReplaceRuns([c] + b) == [c] + ReplaceRuns(b)
    ensures r != [] ==> ReplaceRuns(r + b) == "-" + ReplaceRuns(b)
  {
    assert ([c] + b)[1..] == b;
    if r != [] {
      SkipRunOver(r[1..], b);
      assert (r + b)[1..] == r[1..] + b;
    }
  }

  lemma {:induction false} AlnumsConcat(a: string, b: string)
    ensures Alnums(a + b) == Alnums(a) + Alnums(b)
  {
    if a == [] {
      assert a + b == b;
    } else {
      AlnumsConcat(a[1..], b);
      var head := if IsAlnum(a[0]) then [a[0]] else [];
      assert (a + b)[0] == a[0];
      assert (a + b)[1..] == a[1..] + b;
      assert Alnums(a + b) == head + Alnums(a[1..] + b);
      AppendAssoc(head, Alnums(a[1..]), Alnums(b));
    }
  }

  lemma {:induction false} AlnumsSkipRun(s: string)
    ensures Alnums(SkipRun(s)) == Alnums(s)
  {
    if s != [] && !IsSlugChar(s[0]) {
      AlnumsSkipRun(s[1..]);
    }
  }

  lemma {:induction false} AlnumsReplaceRuns(s: string)
    ensures Alnums(ReplaceRuns(s)) == Alnums(s)
    decreases |s|
  {
    if s != [] {
      if IsSlugChar(s[0]) {
        AlnumsReplaceRuns(s[1..]);
        AlnumsConcat([s[0]], ReplaceRuns(s[1..]));
      } else {
        AlnumsReplaceRuns(SkipRun(s[1..]));
        AlnumsSkipRun(s[1..]);
        AlnumsConcat("-", ReplaceRuns(SkipRun(s[1..])));
      }
    }
  }

  lemma {:induction false} AlnumsTrimLeft(s: string)
    ensures Alnums(TrimDashesLeft(s)) == Alnums(s)
  {
    if s != [] && s[0] == '-' {
      AlnumsTrimLeft(s[1..]);
    }
  }

  lemma {:induction false} AlnumsTrimRight(s: string)
    ensures Alnums(TrimDashesRight(s)) == Alnums(s)
  {
    if s != [] && s[|s| - 1] == '-' {
      var init := s[..|s| - 1];
      AlnumsTrimRight(init);
      assert s == init + "-";
      AlnumsConcat(init, "-");
    }
  }

  lemma {:induction false} AlnumsLower(s: string)
    ensures Alnums(Lower(s)) == Lower(Alnums(s))
  {
    if s != [] {
      AlnumsLower(s[1..]);
      var head := if IsAlnum(s[0]) then [s[0]] else [];
      assert Lower(head + Alnums(s[1..])) == Lower(head) + Lower(Alnums(s[1..]));
    }
  }

  /**
   * slug() keeps the letters and digits of its input, lower-cased and in
   * their order, and nothing else but '-'.
   */
  lemma SlugKeepsAlnums(text: string)
    ensures Alnums(Slug(text)) == Lower(Alnums(text))
  {
    var x := ReplaceRuns(text);
    AlnumsReplaceRuns(text);
    AlnumsTrimLeft(x);
    AlnumsTrimRight(TrimDashesLeft(x));
    AlnumsLower(TrimDashes(x));
  }

  /** An entry as the markdown export reads it, loaded with its details. */
  datatype PublishedEntry = PublishedEntry(
    id: nat,
    content: string,
    tagNames: seq<string>,
    collectionName: Option<string>,
    /** created_at formatted as Y-m-d. */
    createdDate: string)

  /** groupBy('collection.name'): an entry without a collection falls in the group keyed "". */
  function GroupKey(e: PublishedEntry): string {
    e.collectionName.GetOr("")
  }

  predicate InGroup(e: PublishedEntry, group: string) {
    GroupKey(e) == group
  }

  /** The group keys in order of first appearance. */
  function GroupKeys(es: seq<PublishedEntry>): seq<string> {
    Dedup(seq(|es|, i requires 0 <= i < |es| => GroupKey(es[i])))
  }

  /** The entries of one group, in their original order. */
  function GroupMembers(es: seq<PublishedEntry>, group: string): seq<PublishedEntry> {
    FilterBy(es, InGroup, group)
  }

  /**
   * Grouping partitions the entries: the keys are distinct, every entry
   * lies in the group of its own key, and in no other.
   */
  lemma GroupsPartition(es: seq<PublishedEntry>, e: PublishedEntry, group: string)
    ensures Distinct(GroupKeys(es))
    ensures e in es ==> GroupKey(e) in GroupKeys(es)
    ensures e in GroupMembers(es, group) <==> e in es && GroupKey(e) == group
  {
    var keys := seq(|es|, i requires 0 <= i < |es| => GroupKey(es[i]));
    if e in es {
      var i :| 0 <= i < |es| && es[i] == e;
      assert keys[i] == GroupKey(e);
    }
    FilterByMembers(es, InGroup, group, e);
  }

  /** `$group ?: 'Knowledge Base'`: PHP treats "" and "0" as false. */
  function MarkdownTitle(group: string): string {
    if PhpEmpty(group) then "Knowledge Base" else group
  }

  /** `$group ? slug($group) : 'uncategorized'`. */
  function MarkdownFileName(group: string): string {
    if PhpEmpty(group) then "uncategorized" else Slug(group)
  }

  function MarkdownPath(output: string, group: string): string {
    output + "/" + MarkdownFileName(group) + ".md"
  }

  function PathIn(output: string): string -> string {
    group => MarkdownPath(output, group)
  }

  /** The paths of the files written for `groups`, in order. */
  function MarkdownPaths(output: string, groups: seq<string>): seq<string> {
    MapSeq(groups, PathIn(output))
  }

  function MarkdownHeading(title: string): string {
    "# " + MarkdownTitle(title) + "\n\n"
  }

  /** implode($sep, $parts). */
  function Join(sep: string, parts: seq<string>): string {
    if parts == [] then ""
    else if |parts| == 1 then parts[0]
    else parts[0] + sep + Join(sep, parts[1..])
  }

  /** The pieces of the block generateMarkdownContent appends for one entry. */
  function SectionParts(e: PublishedEntry): seq<string> {
    ["## Entry #", NatToString(e.id), "\n\n", e.content, "\n\n",
     "**Tags:** ", Join(", ", e.tagNames), "\n",
     "**Created:** ", e.createdDate, "\n\n",
     "---\n\n"]
  }

  /** implode('', parts). */
  function Concat(parts: seq<string>): string {
    if parts == [] then "" else parts[0] + Concat(parts[1..])
  }

  /** The block generateMarkdownContent appends for one entry. */
  function Section(e: PublishedEntry): string {
    Concat(SectionParts(e))
  }

  function Sections(es: seq<PublishedEntry>): string {
    ConcatMap(es, Section)
  }

  /** The file generateMarkdownContent builds: the heading, then one section per entry in order. */
  function MarkdownContent(es: seq<PublishedEntry>, title: string): string {
    MarkdownHeading(title) + Sections(es)
  }

  /**
   * Every markdown file opens with "# " and its title ("Knowledge Base"
   * for the group of entries without a collection).
   */
  lemma MarkdownHeadingFirst(es: seq<PublishedEntry>, title: string)
    ensures MarkdownContent(es, title)[..|MarkdownHeading(title)|] == MarkdownHeading(title)
    ensures MarkdownContent(es, title)[..2] == "# "
    ensures PhpEmpty(title) ==> MarkdownHeading(title) == "# Knowledge Base\n\n"
  {
    var h := MarkdownHeading(title);
    assert h[..2] == "# ";
  }

  /** Each entry's section follows the sections of the entries before it and precedes the rest. */
  lemma MarkdownSectionsInOrder(es: seq<PublishedEntry>, title: string, k: nat)
    requires k < |es|
    ensures MarkdownContent(es, title) ==
              MarkdownHeading(title) + Sections(es[..k]) + Section(es[k]) + Sections(es[k + 1..])
  {
    assert es == es[..k + 1] + es[k + 1..];
    ConcatMapAppend(es[..k + 1], es[k + 1..], Section);
    ConcatMapSnoc(es, k, Section);
  }

  /** generateMarkdownContent: the heading, then each entry's block appended in turn. */
  method GenerateMarkdownContent(es: seq<PublishedEntry>, title: string) returns (content: string)
    ensures content == MarkdownContent(es, title)
  {
    content := MarkdownHeading(title);
    for i := 0 to |es|
      invariant content == MarkdownHeading(title) + Sections(es[..i])
    {
      ConcatMapSnoc(es, i, Section);
      AppendAssoc(MarkdownHeading(title), Sections(es[..i]), Section(es[i]));
      content := content + Section(es[i]);
    }
    assert es[..|es|] == es;
  }

  /** The options publish reads: output directory, format, theme and the optional 'api' flag. */
  datatype PublishOptions = PublishOptions(output: string, format: string, theme: string, api: Option<bool>)

  datatype PublishResult = PublishResult(
    entriesCount: nat,
    collectionsCount: nat,
    tagsCount: nat,
    files: seq<string>,
    apiEnabled: bool,
    seoOptimized: bool)

  /** The result publish starts from, before dispatching on the format. */
  function InitialResult(o: PublishOptions): PublishResult {
    PublishResult(0, 0, 0, [], o.api.GetOr(false), o.format == "html")
  }

  /** The number of tags the HTML site lists: Tag::popular(50). */
  const SiteTagLimit: int := 50

  function HtmlFiles(output: string): seq<string> {
    [output + "/index.html", output + "/search.html", output + "/entries/",
     output + "/collections/", output + "/tags/", output + "/assets/"]
  }

  /** The file written for one group: its path, and the group's entries under the group's heading. */
  function MarkdownFile(output: string, entries: seq<PublishedEntry>, group: string): (string, string) {
    (MarkdownPath(output, group), MarkdownContent(GroupMembers(entries, group), group))
  }

  function FileIn(output: string, entries: seq<PublishedEntry>): string -> (string, string) {
    group => MarkdownFile(output, entries, group)
  }

  /** The files written for `groups`, in order. */
  function MarkdownFiles(output: string, entries: seq<PublishedEntry>, groups: seq<string>): seq<(string, string)> {
    MapSeq(groups, FileIn(output, entries))
  }

  /**
   * The i-th file of the markdown export is `<output>/<file name>.md` for
   * the i-th group, holding exactly that group's entries.
   */
  lemma MarkdownFilesAt(output: string, entries: seq<PublishedEntry>, groups: seq<string>, i: nat)
    requires i < |groups|
    ensures |MarkdownFiles(output, entries, groups)| == |MarkdownPaths(output, groups)| == |groups|
    ensures MarkdownPaths(output, groups)[i] == output + "/" + MarkdownFileName(groups[i]) + ".md"
    ensures MarkdownFiles(output, entries, groups)[i]
              == (MarkdownPaths(output, groups)[i], MarkdownContent(GroupMembers(entries, groups[i]), groups[i]))
  {
    MapSeqAt(groups, PathIn(output), i);
    MapSeqAt(groups, FileIn(output, entries), i);
  }

  /** One iteration of publishMarkdown: the file name, the content and the path of one group's file. */
  method WriteGroupFile(output: string, entries: seq<PublishedEntry>, group: string)
    returns (path: string, content: string)
    ensures (path, content) == MarkdownFile(output, entries, group)
    ensures path == PathIn(output)(group)
  {
    var fileName := if PhpEmpty(group) then "uncategorized" else Slug(group);
    content := GenerateMarkdownContent(GroupMembers(entries, group), group);
    path := output + "/" + fileName + ".md";
  }

  /** The loop of publishMarkdown: one file per group, in order, with its path listed. */
  method WriteGroupFiles(output: string, entries: seq<PublishedEntry>, groups: seq<string>)
    returns (paths: seq<string>, written: seq<(string, string)>)
    ensures paths == MarkdownPaths(output, groups)
    ensures written == MarkdownFiles(output, entries, groups)
  {
    paths, written := [], [];
    for i := 0 to |groups|
      invariant paths == MapSeq(groups[..i], PathIn(output))
      invariant written == MapSeq(groups[..i], FileIn(output, entries))
    {
      var path, content := WriteGroupFile(output, entries, groups[i]);
      MapSeqSnoc(groups, i, PathIn(output));
      MapSeqSnoc(groups, i, FileIn(output, entries));
      paths, written := paths + [path], written + [(path, content)];
    }
    assert groups[..|groups|] == groups;
  }

  /**
   * publishMarkdown: for each collection group, in order of first
   * appearance, the file `<output>/<name>.md` holding that group's entries
   * is listed (and returned with its content); entries_count becomes the
   * number of entries. Every group, whatever its name, gets its file.
   */
  method PublishMarkdown(output: string, entries: seq<PublishedEntry>, result: PublishResult)
    returns (r: PublishResult, written: seq<(string, string)>)
    ensures r == result.(files := result.files + MarkdownPaths(output, GroupKeys(entries)), entriesCount := |entries|)
    ensures written == MarkdownFiles(output, entries, GroupKeys(entries))
  {
    var paths;
    paths, written := WriteGroupFiles(output, entries, GroupKeys(entries));
    r := result.(files := result.files + paths, entriesCount := |entries|);
  }

  /**
   * publish: 'html', 'markdown', 'json' and 'api' are dispatched to their
   * exports and any other format is refused. seo_optimized is set exactly
   * for 'html'; api_enabled starts from the 'api' option (false when
   * absent) and the 'api' export turns it on. `entries` are the entries
   * loaded with their details, `collectionCount` the number of collections
   * and `tags` the tag registry.
   */
  method Publish(o: PublishOptions, entries: seq<PublishedEntry>, collectionCount: nat, tags: seq<Tag>)
    returns (r: Result<PublishResult, string>)
    ensures r.Failure? <==> o.format !in {"html", "markdown", "json", "api"}
    ensures r.Failure? ==> r.error == "Unsupported format: " + o.format
    ensures r.Success? ==> (r.value.seoOptimized <==> o.format == "html")
    ensures r.Success? ==> (r.value.apiEnabled <==> o.format == "api" || o.api == Some(true))
    ensures o.format == "html" ==>
              r == Success(PublishResult(|entries|, collectionCount, if |tags| < SiteTagLimit then |tags| else SiteTagLimit,
                                         HtmlFiles(o.output), o.api == Some(true), true))
    ensures o.format == "markdown" ==>
              r == Success(PublishResult(|entries|, 0, 0, MarkdownPaths(o.output, GroupKeys(entries)), o.api == Some(true), false))
    ensures o.format == "json" ==>
              r == Success(PublishResult(|entries|, 0, 0, [o.output + "/knowledge-base.json"], o.api == Some(true), false))
    ensures o.format == "api" ==>
              r == Success(PublishResult(0, 0, 0, [o.output + "/api/", o.output + "/openapi.yaml"], true, false))
  {
    var result := InitialResult(o);
    if o.format == "html" {
      if o.api.GetOr(false) {
        result := result.(apiEnabled := true);
      }
      var popular := TagQueries.Popular(tags, SiteTagLimit);
      result := result.(entriesCount := |entries|, collectionsCount := collectionCount, tagsCount := |popular|,
                        files := HtmlFiles(o.output));
      r := Success(result);
    } else if o.format == "markdown" {
      var written;
      result, written := PublishMarkdown(o.output, entries, result);
      assert [] + MarkdownPaths(o.output, GroupKeys(entries)) == MarkdownPaths(o.output, GroupKeys(entries));
      r := Success(result);
    } else if o.format == "json" {
      r := Success(result.(entriesCount := |entries|, files := [o.output + "/knowledge-base.json"]));
    } else if o.format == "api" {
      r := Success(result.(apiEnabled := true, files := [o.output + "/api/", o.output + "/openapi.yaml"]));
    } else {
      r := Failure("Unsupported format: " + o.format);
    }
  }

  /**
   * The file name and heading publishMarkdown computes for one group, as
   * written: the group arrives as an array key, so a collection name that
   * is a canonical decimal integer arrives as an int, and under
   * strict_types slug() or generateMarkdownContent() rejects it with a
   * TypeError.
   */
  function MarkdownGroupAsWritten(group: string): (r: Result<(string, string), string>)
    ensures r.Success? <==> !IsIntegerKey(group)
    ensures r.Success? ==> r.value == (MarkdownFileName(group), MarkdownHeading(group))
  {
    if IsIntegerKey(group) then Failure("TypeError") else Success((MarkdownFileName(group), MarkdownHeading(group)))
  }

  /**
   * A collection named "2024": the code as written throws, while the
   * export modelled by PublishMarkdown writes "<output>/2024.md" headed
   * "# 2024".
   */
  lemma YearNamedCollectionFails()
    ensures MarkdownGroupAsWritten("2024").Failure?
    ensures MarkdownFileName("2024") == "2024"
    ensures MarkdownHeading("2024") == "# 2024\n\n"
  {
    assert IsIntegerKey("2024");
    assert IsSlug("2024");
    SlugOfSlug("2024");
  }

  /** The number of leading groups the markdown loop gets through as written: those before the first integer-like key. */
  function GroupsBeforeIntegerKey(groups: seq<string>): (n: nat)
    ensures n <= |groups|
    ensures forall i :: 0 <= i < n ==> !IsIntegerKey(groups[i])
    ensures n < |groups| ==> IsIntegerKey(groups[n])
  {
    if groups == [] || IsIntegerKey(groups[0]) then 0 else 1 + GroupsBeforeIntegerKey(groups[1..])
  }

  /** Some group key is integer-like exactly when the scan stops before the end. */
  lemma {:induction false} IntegerKeyBefore(groups: seq<string>)
    ensures (exists g :: g in groups && IsIntegerKey(g)) <==> GroupsBeforeIntegerKey(groups) < |groups|
  {
    var n := GroupsBeforeIntegerKey(groups);
    if n < |groups| {
      assert groups[n] in groups;
    } else {
      forall g | g in groups ensures !IsIntegerKey(g) {
        var j :| 0 <= j < |groups| && groups[j] == g;
      }
    }
  }

  /** The loop of publishMarkdown as written: group files are written up to the first integer-like key. */
  method WriteGroupFilesAsWritten(output: string, entries: seq<PublishedEntry>, groups: seq<string>)
    returns (paths: seq<string>, written: seq<(string, string)>, stop: nat)
    ensures stop == GroupsBeforeIntegerKey(groups)
    ensures paths == MarkdownPaths(output, groups[..stop])
    ensures written == MarkdownFiles(output, entries, groups[..stop])
  {
    ghost var n := GroupsBeforeIntegerKey(groups);
    paths, written := [], [];
    stop := 0;
    while stop < |groups| && !IsIntegerKey(groups[stop])
      invariant stop <= n
      invariant paths == MapSeq(groups[..stop], PathIn(output))
      invariant written == MapSeq(groups[..stop], FileIn(output, entries))
    {
      assert stop < n;
      var path, content := WriteGroupFile(output, entries, groups[stop]);
      MapSeqSnoc(groups, stop, PathIn(output));
      MapSeqSnoc(groups, stop, FileIn(output, entries));
      paths, written := paths + [path], written + [(path, content)];
      stop := stop + 1;
    }
  }

  /**
   * publishMarkdown as written: the groups are handled in order of first
   * appearance, and the first group whose key is integer-like throws a
   * TypeError out of publish. The files of the groups before it have
   * already been written; no result is returned.
   */
  method PublishMarkdownAsWritten(output: string, entries: seq<PublishedEntry>, result: PublishResult)
    returns (r: Result<PublishResult, string>, written: seq<(string, string)>)
    ensures r.Failure? <==> exists g :: g in GroupKeys(entries) && IsIntegerKey(g)
    ensures r.Failure? ==> r.error == "TypeError"
    ensures written == MarkdownFiles(output, entries, GroupKeys(entries)[..GroupsBeforeIntegerKey(GroupKeys(entries))])
    ensures r.Success? ==>
              r.value == result.(files := result.files + MarkdownPaths(output, GroupKeys(entries)), entriesCount := |entries|)
  {
    var groups := GroupKeys(entries);
    IntegerKeyBefore(groups);
    var paths, stop;
    paths, written, stop := WriteGroupFilesAsWritten(output, entries, groups);
    if stop < |groups| {
      r := Failure(MarkdownGroupAsWritten(groups[stop]).error);
    } else {
      assert groups[..|groups|] == groups;
      r := Success(result.(files := result.files + paths, entriesCount := |entries|));
    }
  }

  /**
   * Two groups, "notes" and then "2024": as written, the file of "notes" is
   * written and the export then fails, where PublishMarkdown writes both.
   */
  lemma YearGroupAfterNotes(output: string, a: PublishedEntry, b: PublishedEntry)
    requires a.collectionName == Some("notes") && b.collectionName == Some("2024")
    ensures GroupKeys([a, b]) == ["notes", "2024"]
    ensures GroupsBeforeIntegerKey(GroupKeys([a, b])) == 1
  {
    assert !IsIntegerKey("notes") by { assert "notes"[0] == 'n'; }
    assert IsIntegerKey("2024");
    var keys := seq(2, i requires 0 <= i < 2 => GroupKey([a, b][i]));
    assert keys == ["notes", "2024"];
    DedupOfDistinct(keys);
  }
}
