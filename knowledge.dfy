/**
 * KnowledgeService: adding, importing and deleting entries with tag usage
 * bookkeeping, and the filtered search over the store's rows.
 * The git context of the working copy and the clock are parameters.
 */
module Knowledge {
  import opened Wrappers
  import opened Strings
  import opened Schema
  import opened Seqs
  import opened Store
  import opened SemanticSearch
  import opened EntryScopes

  function SetOf(s: seq<string>): set<string> {
    set x | x in s
  }

  /**
   * The tag names attachTagsToEntry acts on, in list order: each name
   * trimmed, and the ones PHP's empty() rejects ("" and "0") dropped.
   * Repeats are kept.
   */
  function Kept(names: seq<string>): seq<string> {
    if names == [] then []
    else
      var n := Trim(names[|names| - 1]);
      Kept(names[..|names| - 1]) + (if PhpEmpty(n) then [] else [n])
  }

  /** The names of the list that survive trimming and the empty() test. */
  function TrimmedNames(names: seq<string>): set<string> {
    set k | 0 <= k < |names| && !PhpEmpty(Trim(names[k])) :: Trim(names[k])
  }

  /** A name is kept exactly when it is the trim of some listed name and is neither "" nor "0". */
  lemma {:induction false} KeptMembers(names: seq<string>)
    ensures SetOf(Kept(names)) == TrimmedNames(names)
  {
    if names != [] {
      var init := names[..|names| - 1];
      var t := Trim(names[|names| - 1]);
      var tail := if PhpEmpty(t) then [] else [t];
      KeptMembers(init);
      assert Kept(names) == Kept(init) + tail;
      assert SetOf(Kept(names)) == SetOf(Kept(init)) + SetOf(tail);
      forall x ensures x in TrimmedNames(names) <==> x in TrimmedNames(init) + SetOf(tail) {
        if x in TrimmedNames(names) {
          var k :| 0 <= k < |names| && !PhpEmpty(Trim(names[k])) && Trim(names[k]) == x;
          if k < |init| {
            assert init[k] == names[k];
          }
        }
        if x in TrimmedNames(init) {
          var k :| 0 <= k < |init| && !PhpEmpty(Trim(init[k])) && Trim(init[k]) == x;
          assert names[k] == init[k];
        }
      }
    }
  }

  /** Each kept name occurs as often as listed names trim to it: repeats are not merged. */
  lemma {:induction false} KeptCounts(names: seq<string>, n: string)
    ensures multiset(Kept(names))[n] == if PhpEmpty(n) then 0 else CountTrimmed(names, n)
  {
    if names != [] {
      KeptCounts(names[..|names| - 1], n);
    }
  }

  /** How many names of the list trim to `n`. */
  function CountTrimmed(names: seq<string>, n: string): nat {
    if names == [] then 0
    else CountTrimmed(names[..|names| - 1], n) + (if Trim(names[|names| - 1]) == n then 1 else 0)
  }

  /** Names already trimmed and non-empty are all kept, in order. */
  lemma {:induction false} KeptOfClean(names: seq<string>)
    requires forall k :: 0 <= k < |names| ==> Trim(names[k]) == names[k] && !PhpEmpty(names[k])
    ensures Kept(names) == names
  {
    if names != [] {
      var init := names[..|names| - 1];
      KeptOfClean(init);
      assert names == init + [names[|names| - 1]];
    }
  }

  /** The suggested tag names pass through the trim-and-skip step unchanged. */
  lemma KeptOfSuggestions(content: string)
    ensures Kept(Suggestions(content)) == Suggestions(content)
  {
    var s := Suggestions(content);
    SuggestionsSpec(content);
    forall k | 0 <= k < |s| ensures Trim(s[k]) == s[k] && !PhpEmpty(s[k]) {
      assert s[k] in SuggestibleTags;
      TrimOfTrimmed(s[k]);
    }
    KeptOfClean(s);
  }

  /** Trimming, and skipping "" and "0": [" bug", "", "0", "bug"] keeps "bug" twice. */
  lemma KeptExample()
    ensures Kept([" bug", "", "0", "bug"]) == ["bug", "bug"]
  {
    var names := [" bug", "", "0", "bug"];
    assert TrimLeft(" bug") == "bug" by {
      assert " bug"[1..] == "bug";
    }
    assert Trim(" bug") == "bug";
    assert Trim("bug") == "bug";
    assert Trim("0") == "0";
    assert Trim("") == "";
    assert names[..1][..0] == [];
    assert Kept(names[..1]) == ["bug"];
    assert names[..2][..1] == names[..1];
    assert Kept(names[..2]) == ["bug"];
    assert names[..3][..2] == names[..2];
    assert Kept(names[..3]) == ["bug"];
    assert names[..3] == names[..|names| - 1];
  }

  /**
   * Attaching ids of possibly new tags to an entry: the entry's tag names
   * become its old names plus the names of the attached tags.
   */
  lemma {:induction false} LinkedNamesAfterAttach(ts0: seq<Tag>, ts1: seq<Tag>, links: set<(nat, nat)>, entryId: nat,
                               tagIds: seq<nat>, names: seq<string>)
    requires TagsWellFormed(ts0) && TagsWellFormed(ts1) && TagsExtend(ts0, ts1)
    requires forall p | p in links :: 1 <= p.1 <= |ts0|
    requires IdsName(ts1, tagIds, names)
    ensures NamesLinked(ts1, links + LinksFor(entryId, tagIds), entryId) == NamesLinked(ts0, links, entryId) + SetOf(names)
  {
    LinkedNamesAfterAttachSub(ts0, ts1, links, entryId, tagIds, names);
    LinkedNamesAfterAttachSup(ts0, ts1, links, entryId, tagIds, names);
  }

  lemma {:induction false} LinkedNamesAfterAttachSub(ts0: seq<Tag>, ts1: seq<Tag>, links: set<(nat, nat)>, entryId: nat,
                                  tagIds: seq<nat>, names: seq<string>)
    requires TagsWellFormed(ts0) && TagsWellFormed(ts1) && TagsExtend(ts0, ts1)
    requires forall p | p in links :: 1 <= p.1 <= |ts0|
    requires IdsName(ts1, tagIds, names)
    ensures NamesLinked(ts1, links + LinksFor(entryId, tagIds), entryId) <= NamesLinked(ts0, links, entryId) + SetOf(names)
  {
    forall x | x in NamesLinked(ts1, links + LinksFor(entryId, tagIds), entryId)
      ensures x in NamesLinked(ts0, links, entryId) + SetOf(names)
    {
      var i :| 0 <= i < |ts1| && (entryId, ts1[i].id) in links + LinksFor(entryId, tagIds) && ts1[i].name == x;
      assert ts1[i].id == i + 1;
      if (entryId, ts1[i].id) in links {
        assert i < |ts0|;
        assert ts0[i].id == ts1[i].id && ts0[i].name == x;
        assert x in NamesLinked(ts0, links, entryId);
      } else {
        var k :| 0 <= k < |tagIds| && tagIds[k] == ts1[i].id;
        assert names[k] == x && names[k] in names;
        assert x in SetOf(names);
      }
    }
  }

  lemma {:induction false} LinkedNamesAfterAttachSup(ts0: seq<Tag>, ts1: seq<Tag>, links: set<(nat, nat)>, entryId: nat,
                                  tagIds: seq<nat>, names: seq<string>)
    requires TagsWellFormed(ts0) && TagsWellFormed(ts1) && TagsExtend(ts0, ts1)
    requires IdsName(ts1, tagIds, names)
    ensures NamesLinked(ts0, links, entryId) + SetOf(names) <= NamesLinked(ts1, links + LinksFor(entryId, tagIds), entryId)
  {
    forall x | x in NamesLinked(ts0, links, entryId) + SetOf(names)
      ensures x in NamesLinked(ts1, links + LinksFor(entryId, tagIds), entryId)
    {
      if x in SetOf(names) {
        var k :| 0 <= k < |names| && names[k] == x;
        var i := tagIds[k] - 1;
        assert (entryId, ts1[i].id) in LinksFor(entryId, tagIds);
      } else {
        var i :| 0 <= i < |ts0| && (entryId, ts0[i].id) in links && ts0[i].name == x;
        assert ts1[i].id == ts0[i].id;
      }
    }
  }

  /** An id that no link mentions has no tag names. */
  lemma NoLinksNoNames(ts: seq<Tag>, links: set<(nat, nat)>, entryId: nat)
    requires forall p | p in links :: p.0 != entryId
    ensures NamesLinked(ts, links, entryId) == {}
  {
  }

  /**
   * One step of attachTagsToEntry: find or create the tag called `name`,
   * and with `increment` raise its usage_count by one. Only the tag
   * registry changes.
   */
  method TouchTag(st: KnowledgeStore, name: string, increment: bool) returns (tagId: nat)
    requires st.Valid()
    modifies st
    ensures st.Valid()
    ensures 1 <= tagId <= |st.tags| && st.tags[tagId - 1].name == name
    ensures TagsExtend(old(st.tags), st.tags)
    ensures TagNames(st.tags) == TagNames(old(st.tags)) + {name}
    ensures forall n :: UsageOf(st.tags, n) == UsageOf(old(st.tags), n) + (if increment && n == name then 1 else 0)
    ensures st.AllButTags() == old(st.AllButTags())
  {
    var tag := st.FindOrCreateTag(name);
    tagId := tag.id;
    if increment {
      st.IncrementUsage(tag.id);
    }
  }

  /** The ids of `ids` name, position by position, the tags called `names`. */
  ghost predicate IdsName(ts: seq<Tag>, ids: seq<nat>, names: seq<string>) {
    |ids| == |names| && forall k :: 0 <= k < |ids| ==> 1 <= ids[k] <= |ts| && ts[ids[k] - 1].name == names[k]
  }

  /** Extending the registry keeps the old ids naming the same tags. */
  lemma IdsNameStep(ts0: seq<Tag>, ts1: seq<Tag>, ids: seq<nat>, names: seq<string>, id: nat, name: string)
    requires IdsName(ts0, ids, names) && TagsExtend(ts0, ts1)
    requires 1 <= id <= |ts1| && ts1[id - 1].name == name
    ensures IdsName(ts1, ids + [id], names + [name])
  {
  }

  /** Usage counts after one more counted occurrence of `name`. */
  lemma UsageStep(ts0: seq<Tag>, ts1: seq<Tag>, ts2: seq<Tag>, kept: seq<string>, name: string, increment: bool)
    requires forall n :: UsageOf(ts1, n) == UsageOf(ts0, n) + (if increment then multiset(kept)[n] else 0)
    requires forall n :: UsageOf(ts2, n) == UsageOf(ts1, n) + (if increment && n == name then 1 else 0)
    ensures forall n :: UsageOf(ts2, n) == UsageOf(ts0, n) + (if increment then multiset(kept + [name])[n] else 0)
  {
  }

  /**
   * The loop of attachTagsToEntry: each kept name in turn is found or
   * created (and counted with `increment`); the ids collected line up with
   * the kept names.
   */
  method TouchTags(st: KnowledgeStore, names: seq<string>, increment: bool) returns (tagIds: seq<nat>)
    requires st.Valid()
    modifies st
    ensures st.Valid()
    ensures IdsName(st.tags, tagIds, Kept(names))
    ensures TagsExtend(old(st.tags), st.tags)
    ensures TagNames(st.tags) == TagNames(old(st.tags)) + SetOf(Kept(names))
    ensures forall n :: UsageOf(st.tags, n) == UsageOf(old(st.tags), n) + (if increment then multiset(Kept(names))[n] else 0)
    ensures st.AllButTags() == old(st.AllButTags())
  {
    tagIds := [];
    ghost var kept: seq<string> := [];
    for i := 0 to |names|
      invariant st.Valid()
      invariant kept == Kept(names[..i])
      invariant IdsName(st.tags, tagIds, kept)
      invariant TagsExtend(old(st.tags), st.tags)
      invariant TagNames(st.tags) == TagNames(old(st.tags)) + SetOf(kept)
      invariant forall n :: UsageOf(st.tags, n) == UsageOf(old(st.tags), n) + (if increment then multiset(kept)[n] else 0)
      invariant st.AllButTags() == old(st.AllButTags())
    {
      assert names[..i + 1][..i] == names[..i];
      var name := Trim(names[i]);
      if !PhpEmpty(name) {
        ghost var before := st.tags;
        var tagId := TouchTag(st, name, increment);
        IdsNameStep(before, st.tags, tagIds, kept, tagId, name);
        UsageStep(old(st.tags), before, st.tags, kept, name, increment);
        assert SetOf(kept + [name]) == SetOf(kept) + {name};
        tagIds := tagIds + [tagId];
        kept := kept + [name];
      }
    }
    assert names[..|names|] == names;
  }

  /**
   * attachTagsToEntry: every kept name is found or created; with
   * `increment`, each kept occurrence raises that tag's usage_count by one
   * (a repeated name twice); the entry is linked to each kept tag, and its
   * existing links stay (syncWithoutDetaching). Other entries' links, and
   * all other rows, are unchanged.
   */
  method AttachTagsToEntry(st: KnowledgeStore, entryId: nat, names: seq<string>, increment: bool)
    requires st.Valid() && entryId in EntryIds(st.entries)
    modifies st
    ensures st.Valid()
    ensures TagsExtend(old(st.tags), st.tags)
    ensures TagNames(st.tags) == TagNames(old(st.tags)) + SetOf(Kept(names))
    ensures forall n :: UsageOf(st.tags, n) == UsageOf(old(st.tags), n) + (if increment then multiset(Kept(names))[n] else 0)
    ensures st.TagNamesOf(entryId) == old(st.TagNamesOf(entryId)) + SetOf(Kept(names))
    ensures forall p: (nat, nat) | p.0 != entryId :: p in st.links <==> p in old(st.links)
    ensures st.entries == old(st.entries) && st.metadata == old(st.metadata)
    ensures st.relationships == old(st.relationships) && st.collections == old(st.collections)
    ensures st.nextEntryId == old(st.nextEntryId) && st.nextRelationshipId == old(st.nextRelationshipId)
    ensures st.nextCollectionId == old(st.nextCollectionId)
  {
    var tagIds := TouchTags(st, names, increment);
    ghost var tagsNow := st.tags;
    st.SyncWithoutDetaching(entryId, tagIds);
    LinkedNamesAfterAttach(old(st.tags), tagsNow, old(st.links), entryId, tagIds, Kept(names));
  }

  lemma TagsExtendTrans(ts0: seq<Tag>, ts1: seq<Tag>, ts2: seq<Tag>)
    requires TagsExtend(ts0, ts1) && TagsExtend(ts1, ts2)
    ensures TagsExtend(ts0, ts2)
  {
  }

  /**
   * The metadata loop of addEntry: each pair becomes a 'string' row of the
   * new entry (the keys of a PHP array are distinct, so the order of the
   * upserts does not matter). Nothing else changes.
   */
  method StoreMetadata(st: KnowledgeStore, id: nat, meta: map<string, string>)
    requires st.Valid() && id in EntryIds(st.entries) && id !in st.metadata
    modifies st
    ensures st.Valid()
    ensures st.MetaOf(id) == map k | k in meta :: Meta(meta[k], "string")
    ensures forall e | e != id :: st.MetaOf(e) == old(st.MetaOf(e))
    ensures st.entries == old(st.entries) && st.tags == old(st.tags) && st.links == old(st.links)
    ensures st.relationships == old(st.relationships) && st.collections == old(st.collections)
    ensures st.nextEntryId == old(st.nextEntryId) && st.nextRelationshipId == old(st.nextRelationshipId)
    ensures st.nextCollectionId == old(st.nextCollectionId)
  {
    var remaining := meta.Keys;
    while remaining != {}
      invariant st.Valid() && id in EntryIds(st.entries)
      invariant remaining <= meta.Keys
      invariant st.MetaOf(id) == map k | k in meta.Keys - remaining :: Meta(meta[k], "string")
      invariant forall e | e != id :: st.MetaOf(e) == old(st.MetaOf(e))
      invariant st.entries == old(st.entries) && st.tags == old(st.tags) && st.links == old(st.links)
      invariant st.relationships == old(st.relationships) && st.collections == old(st.collections)
      invariant st.nextEntryId == old(st.nextEntryId) && st.nextRelationshipId == old(st.nextRelationshipId)
      invariant st.nextCollectionId == old(st.nextCollectionId)
      decreases remaining
    {
      var k :| k in remaining;
      st.SetMetadataValue(id, k, meta[k], "string");
      remaining := remaining - {k};
    }
  }

  /**
   * The two tag steps of addEntry: the explicit tags with usage counting
   * (when the list is not empty), then the suggested tags, already clean,
   * without it (when there are any).
   */
  method AttachEntryTags(st: KnowledgeStore, id: nat, tags: seq<string>, autoTags: seq<string>)
    requires st.Valid() && id in EntryIds(st.entries)
    requires Kept(autoTags) == autoTags
    modifies st
    ensures st.Valid()
    ensures st.TagNamesOf(id) == old(st.TagNamesOf(id)) + SetOf(Kept(tags)) + SetOf(autoTags)
    ensures TagNames(st.tags) == TagNames(old(st.tags)) + SetOf(Kept(tags)) + SetOf(autoTags)
    ensures forall n :: UsageOf(st.tags, n) == UsageOf(old(st.tags), n) + multiset(Kept(tags))[n]
    ensures TagsExtend(old(st.tags), st.tags)
    ensures forall p: (nat, nat) | p.0 != id :: p in st.links <==> p in old(st.links)
    ensures st.entries == old(st.entries) && st.metadata == old(st.metadata)
    ensures st.relationships == old(st.relationships) && st.collections == old(st.collections)
    ensures st.nextEntryId == old(st.nextEntryId) && st.nextRelationshipId == old(st.nextRelationshipId)
    ensures st.nextCollectionId == old(st.nextCollectionId)
  {
    if |tags| > 0 {
      AttachTagsToEntry(st, id, tags, true);
    } else {
      assert Kept(tags) == [] && SetOf(Kept(tags)) == {};
    }
    ghost var explicit := st.tags;
    ghost var namesAfterExplicit := st.TagNamesOf(id);
    assert namesAfterExplicit == old(st.TagNamesOf(id)) + SetOf(Kept(tags));
    assert forall n :: UsageOf(explicit, n) == UsageOf(old(st.tags), n) + multiset(Kept(tags))[n];
    if |autoTags| > 0 {
      AttachTagsToEntry(st, id, autoTags, false);
      assert forall n :: UsageOf(st.tags, n) == UsageOf(explicit, n);
    } else {
      assert SetOf(autoTags) == {};
    }
    assert st.TagNamesOf(id) == namesAfterExplicit + SetOf(autoTags);
    assert TagNames(st.tags) == TagNames(explicit) + SetOf(autoTags);
    TagsExtendTrans(old(st.tags), explicit, st.tags);
  }

  /**
   * addEntry: a new entry with the given collection and the working copy's
   * provenance; the explicit tags are attached with usage counting, then
   * the suggested tags without it; each metadata pair is stored as a
   * 'string' row. No check is made on the content.
   */
  method AddEntry(st: KnowledgeStore, content: string, tags: seq<string>, meta: map<string, string>,
                  collectionId: Option<nat>, prov: Provenance, now: int)
    returns (id: nat)
    requires st.Valid()
    modifies st
    ensures st.Valid()
    ensures id == old(st.nextEntryId) && id !in EntryIds(old(st.entries))
    ensures st.entries == old(st.entries) + [Entry(id, content, prov, collectionId, now)]
    ensures st.nextEntryId == old(st.nextEntryId) + 1
    ensures st.nextRelationshipId == old(st.nextRelationshipId) && st.nextCollectionId == old(st.nextCollectionId)
    ensures st.TagNamesOf(id) == SetOf(Kept(tags)) + SetOf(Suggestions(content))
    ensures TagNames(st.tags) == TagNames(old(st.tags)) + SetOf(Kept(tags)) + SetOf(Suggestions(content))
    ensures forall n :: UsageOf(st.tags, n) == UsageOf(old(st.tags), n) + multiset(Kept(tags))[n]
    ensures TagsExtend(old(st.tags), st.tags)
    ensures st.MetaOf(id) == StringRows(meta)
    ensures forall p: (nat, nat) | p.0 != id :: p in st.links <==> p in old(st.links)
    ensures forall e: nat | e != id :: st.TagNamesOf(e) == old(st.TagNamesOf(e))
    ensures forall e | e != id :: st.MetaOf(e) == old(st.MetaOf(e))
    ensures st.relationships == old(st.relationships) && st.collections == old(st.collections)
  {
    id := st.CreateEntry(content, prov, collectionId, now);
    assert forall p | p in st.links :: p.0 != id;
    assert st.TagNamesOf(id) == {};
    assert id !in st.metadata;
    var autoTags := SuggestTags(content);
    KeptOfSuggestions(content);
    AttachEntryTags(st, id, tags, autoTags);
    StoreMetadata(st, id, meta);
    forall e: nat | e != id ensures st.TagNamesOf(e) == old(st.TagNamesOf(e)) {
      NamesLinkedFrame(old(st.tags), st.tags, old(st.links), st.links, e);
    }
  }

  /** Some metadata key is one PHP turns into an int array key. */
  predicate HasIntegerKey(meta: map<string, string>) {
    exists k | k in meta :: IsIntegerKey(k)
  }

  /**
   * addEntry as written: the metadata loop hands each array key to
   * setMetadataValue's string parameter, so under strict_types a key such as
   * "42", which PHP stores as the int 42, raises a TypeError; the
   * transaction rolls back and nothing is stored. Any other call behaves as
   * AddEntry.
   */
  method AddEntryAsWritten(st: KnowledgeStore, content: string, tags: seq<string>, meta: map<string, string>,
                           collectionId: Option<nat>, prov: Provenance, now: int)
    returns (r: Result<nat, string>)
    requires st.Valid()
    modifies st
    ensures st.Valid()
    ensures r.Failure? <==> HasIntegerKey(meta)
    ensures r.Failure? ==> r.error == "TypeError" && unchanged(st)
    ensures r.Success? ==>
              && r.value == old(st.nextEntryId)
              && st.entries == old(st.entries) + [Entry(r.value, content, prov, collectionId, now)]
              && st.nextEntryId == old(st.nextEntryId) + 1
              && st.nextRelationshipId == old(st.nextRelationshipId) && st.nextCollectionId == old(st.nextCollectionId)
              && st.TagNamesOf(r.value) == SetOf(Kept(tags)) + SetOf(Suggestions(content))
              && TagNames(st.tags) == TagNames(old(st.tags)) + SetOf(Kept(tags)) + SetOf(Suggestions(content))
              && (forall n :: UsageOf(st.tags, n) == UsageOf(old(st.tags), n) + multiset(Kept(tags))[n])
              && TagsExtend(old(st.tags), st.tags)
              && st.MetaOf(r.value) == StringRows(meta)
              && (forall p: (nat, nat) | p.0 != r.value :: p in st.links <==> p in old(st.links))
              && (forall e: nat | e != r.value :: st.TagNamesOf(e) == old(st.TagNamesOf(e)))
              && (forall e | e != r.value :: st.MetaOf(e) == old(st.MetaOf(e)))
              && st.relationships == old(st.relationships) && st.collections == old(st.collections)
  {
    if HasIntegerKey(meta) {
      return Failure("TypeError");
    }
    var id := AddEntry(st, content, tags, meta, collectionId, prov, now);
    r := Success(id);
  }

  /** The explicit list ["bug"] is kept as it is, and "Fix login bug" suggests bug. */
  lemma FixLoginBugTags(content: string, tags: seq<string>)
    requires content == "Fix login bug" && tags == ["bug"]
    ensures Kept(tags) == ["bug"]
    ensures "bug" in Suggestions(content)
  {
    TrimOfTrimmed("bug");
    KeptOfClean(tags);
    assert Lower(content)[10..13] == "bug";
    KeywordSuggests(content, 0, "bug", 10);
  }

  /**
   * "Fix login bug" added with the tag "bug" to an empty store: the explicit
   * tag counts once, and the same tag suggested from the content neither
   * counts again nor adds a second link.
   */
  method FixLoginBugExample() returns (usage: int, names: set<string>)
    ensures usage == 1
    ensures "bug" in names
  {
    var st := new KnowledgeStore();
    var content, tags := "Fix login bug", ["bug"];
    FixLoginBugTags(content, tags);
    var id := AddEntry(st, content, tags, map[], None, Provenance(None, None, None, None, None), 0);
    usage := UsageOf(st.tags, "bug");
    names := st.TagNamesOf(id);
  }

  /** One record of an import file; a record without 'content' fails. */
  datatype ImportRecord = ImportRecord(content: Option<string>, tags: seq<string>, metadata: map<string, string>)

  datatype ImportResult = ImportResult(imported: nat, skipped: nat, errors: seq<string>)

  /** The message a record without 'content' produces. */
  const MissingContentError: string := "Failed to import entry: Undefined array key \"content\""

  /** The records of the list that carry content, in order. */
  function Importable(records: seq<ImportRecord>): (r: seq<ImportRecord>)
    ensures |r| <= |records|
    ensures forall k | 0 <= k < |r| :: r[k].content.Some? && r[k] in records
  {
    if records == [] then []
    else
      var init := Importable(records[..|records| - 1]);
      var last := records[|records| - 1];
      if last.content.Some? then init + [last] else init
  }

  /** The metadata rows addEntry stores for a map of pairs: each value under its key, typed 'string'. */
  function StringRows(meta: map<string, string>): map<string, Meta> {
    map k | k in meta :: Meta(meta[k], "string")
  }

  /**
   * After `es0`, the entries `es1` hold one new entry per record of `rs`, in
   * order and with consecutive ids from `start`, each with the record's
   * content, the explicit and suggested tag names and the metadata rows
   * addEntry gives it.
   */
  ghost predicate ImportedAs(es0: seq<Entry>, es1: seq<Entry>, ts: seq<Tag>, links: set<(nat, nat)>,
                             metadata: map<nat, map<string, Meta>>, start: nat, rs: seq<ImportRecord>,
                             prov: Provenance, now: int)
  {
    && |es1| == |es0| + |rs| && es1[..|es0|] == es0
    && forall k | 0 <= k < |rs| ::
         && rs[k].content.Some?
         && es1[|es0| + k] == Entry(start + k, rs[k].content.value, prov, None, now)
         && NamesLinked(ts, links, start + k) == SetOf(Kept(rs[k].tags)) + SetOf(Suggestions(rs[k].content.value))
         && MetaIn(metadata, start + k) == StringRows(rs[k].metadata)
  }

  /** One more record added after the earlier ones, whose rows it leaves alone. */
  lemma {:induction false} ImportedStep(es0: seq<Entry>, es1: seq<Entry>, ts1: seq<Tag>, links1: set<(nat, nat)>,
                                        md1: map<nat, map<string, Meta>>, es2: seq<Entry>, ts2: seq<Tag>,
                                        links2: set<(nat, nat)>, md2: map<nat, map<string, Meta>>,
                                        start: nat, rs: seq<ImportRecord>, r: ImportRecord, prov: Provenance, now: int)
    requires ImportedAs(es0, es1, ts1, links1, md1, start, rs, prov, now)
    requires r.content.Some?
    requires es2 == es1 + [Entry(start + |rs|, r.content.value, prov, None, now)]
    requires NamesLinked(ts2, links2, start + |rs|) == SetOf(Kept(r.tags)) + SetOf(Suggestions(r.content.value))
    requires MetaIn(md2, start + |rs|) == StringRows(r.metadata)
    requires forall e: nat | e != start + |rs| :: NamesLinked(ts2, links2, e) == NamesLinked(ts1, links1, e)
    requires forall e: nat | e != start + |rs| :: MetaIn(md2, e) == MetaIn(md1, e)
    ensures ImportedAs(es0, es2, ts2, links2, md2, start, rs + [r], prov, now)
  {
    var rs' := rs + [r];
    forall k | 0 <= k < |rs'|
      ensures && rs'[k].content.Some?
              && es2[|es0| + k] == Entry(start + k, rs'[k].content.value, prov, None, now)
              && NamesLinked(ts2, links2, start + k) == SetOf(Kept(rs'[k].tags)) + SetOf(Suggestions(rs'[k].content.value))
              && MetaIn(md2, start + k) == StringRows(rs'[k].metadata)
    {
      if k < |rs| {
        assert rs'[k] == rs[k];
        assert es2[|es0| + k] == es1[|es0| + k];
      }
    }
    assert es2[..|es0|] == es1[..|es0|];
  }

  /** The tag names addEntry gives a record with content: its kept explicit tags and its suggestions. */
  function RecordTagNames(r: ImportRecord): set<string> {
    if r.content.Some? then SetOf(Kept(r.tags)) + SetOf(Suggestions(r.content.value)) else {}
  }

  /** The usage a record with content adds to the tag `n`: once per kept explicit occurrence, none for suggestions. */
  function RecordUsage(r: ImportRecord, n: string): nat {
    if r.content.Some? then multiset(Kept(r.tags))[n] else 0
  }

  /** The tag names an import of `records` adds to the registry. */
  function ImportedTagNames(records: seq<ImportRecord>): set<string> {
    if records == [] then {}
    else ImportedTagNames(records[..|records| - 1]) + RecordTagNames(records[|records| - 1])
  }

  /** The usage an import of `records` adds to the tag `n`. */
  function ImportedUsage(records: seq<ImportRecord>, n: string): nat {
    if records == [] then 0
    else ImportedUsage(records[..|records| - 1], n) + RecordUsage(records[|records| - 1], n)
  }

  /**
   * A name enters the registry through import exactly when some record with
   * content keeps it as an explicit tag or has it suggested.
   */
  lemma {:induction false} ImportedTagNamesSpec(records: seq<ImportRecord>, n: string)
    ensures n in ImportedTagNames(records) <==> exists k | 0 <= k < |records| :: n in RecordTagNames(records[k])
  {
    if records != [] {
      var init, last := records[..|records| - 1], records[|records| - 1];
      ImportedTagNamesSpec(init, n);
      if n in ImportedTagNames(records) {
        if n in ImportedTagNames(init) {
          var k :| 0 <= k < |init| && n in RecordTagNames(init[k]);
          assert records[k] == init[k];
        } else {
          assert n in RecordTagNames(records[|records| - 1]);
        }
      } else {
        forall k | 0 <= k < |records| ensures n !in RecordTagNames(records[k]) {
          if k < |init| {
            assert records[k] == init[k];
          }
        }
      }
    }
  }

  /** A tag's usage grows through import exactly when some record with content keeps it as an explicit tag. */
  lemma {:induction false} ImportedUsageSpec(records: seq<ImportRecord>, n: string)
    ensures ImportedUsage(records, n) > 0 <==>
              exists k | 0 <= k < |records| :: records[k].content.Some? && n in Kept(records[k].tags)
  {
    if records != [] {
      var init, last := records[..|records| - 1], records[|records| - 1];
      ImportedUsageSpec(init, n);
      assert RecordUsage(last, n) > 0 <==> last.content.Some? && n in Kept(last.tags);
      if ImportedUsage(records, n) > 0 {
        if ImportedUsage(init, n) > 0 {
          var k :| 0 <= k < |init| && init[k].content.Some? && n in Kept(init[k].tags);
          assert records[k] == init[k];
        } else {
          assert records[|records| - 1] == last;
        }
      } else {
        forall k | 0 <= k < |records| ensures !(records[k].content.Some? && n in Kept(records[k].tags)) {
          if k < |init| {
            assert records[k] == init[k];
          }
        }
      }
    }
  }

  /** After importing `records`, the registry `ts1` extends `ts0` by their tag names and usage. */
  ghost predicate TagsImported(ts0: seq<Tag>, ts1: seq<Tag>, records: seq<ImportRecord>) {
    && TagsExtend(ts0, ts1)
    && TagNames(ts1) == TagNames(ts0) + ImportedTagNames(records)
    && forall n :: UsageOf(ts1, n) == UsageOf(ts0, n) + ImportedUsage(records, n)
  }

  /** One more record's tag effect extends TagsImported by that record. */
  lemma {:induction false} TagsImportedStep(ts0: seq<Tag>, ts1: seq<Tag>, ts2: seq<Tag>, records: seq<ImportRecord>, i: nat)
    requires i < |records| && TagsImported(ts0, ts1, records[..i])
    requires TagsExtend(ts1, ts2)
    requires TagNames(ts2) == TagNames(ts1) + RecordTagNames(records[i])
    requires forall n :: UsageOf(ts2, n) == UsageOf(ts1, n) + RecordUsage(records[i], n)
    ensures TagsImported(ts0, ts2, records[..i + 1])
  {
    assert records[..i + 1][..i] == records[..i];
    assert records[..i + 1][i] == records[i];
    TagsExtendTrans(ts0, ts1, ts2);
  }

  /** One record with content added by import, after the records `rs` already added. */
  method ImportOne(st: KnowledgeStore, ghost es0: seq<Entry>, ghost start: nat, ghost rs: seq<ImportRecord>,
                   r: ImportRecord, prov: Provenance, now: int)
    requires st.Valid() && r.content.Some?
    requires st.nextEntryId == start + |rs|
    requires ImportedAs(es0, st.entries, st.tags, st.links, st.metadata, start, rs, prov, now)
    modifies st
    ensures st.Valid()
    ensures st.nextEntryId == old(st.nextEntryId) + 1
    ensures ImportedAs(es0, st.entries, st.tags, st.links, st.metadata, start, rs + [r], prov, now)
    ensures forall e: nat | e < start :: st.TagNamesOf(e) == old(st.TagNamesOf(e)) && st.MetaOf(e) == old(st.MetaOf(e))
    ensures st.relationships == old(st.relationships) && st.collections == old(st.collections)
    ensures st.nextRelationshipId == old(st.nextRelationshipId) && st.nextCollectionId == old(st.nextCollectionId)
    ensures TagsExtend(old(st.tags), st.tags)
    ensures TagNames(st.tags) == TagNames(old(st.tags)) + RecordTagNames(r)
    ensures forall n :: UsageOf(st.tags, n) == UsageOf(old(st.tags), n) + RecordUsage(r, n)
  {
    var id := AddEntry(st, r.content.value, r.tags, r.metadata, None, prov, now);
    forall e: nat | e != id
      ensures NamesLinked(st.tags, st.links, e) == NamesLinked(old(st.tags), old(st.links), e)
      ensures MetaIn(st.metadata, e) == MetaIn(old(st.metadata), e)
    {
      assert st.TagNamesOf(e) == old(st.TagNamesOf(e));
      assert st.MetaOf(e) == old(st.MetaOf(e));
    }
    ImportedStep(es0, old(st.entries), old(st.tags), old(st.links), old(st.metadata),
                 st.entries, st.tags, st.links, st.metadata, start, rs, r, prov, now);
  }

  /**
   * The tables after import has handled the first `i` records, from the
   * tables `es0`, `ts0`, `links0`, `md0` it started with: the imported
   * records' entries, tag names and metadata (ImportedAs), the registry
   * grown by their tags (TagsImported), and the earlier entries' tag names
   * and metadata as they were.
   */
  ghost predicate ImportedUpTo(es0: seq<Entry>, ts0: seq<Tag>, links0: set<(nat, nat)>, md0: map<nat, map<string, Meta>>,
                               start: nat, records: seq<ImportRecord>, i: nat, prov: Provenance, now: int,
                               es: seq<Entry>, ts: seq<Tag>, links: set<(nat, nat)>, md: map<nat, map<string, Meta>>, next: nat)
    requires i <= |records|
  {
    && next == start + |Importable(records[..i])|
    && ImportedAs(es0, es, ts, links, md, start, Importable(records[..i]), prov, now)
    && TagsImported(ts0, ts, records[..i])
    && forall e: nat | e < start :: NamesLinked(ts, links, e) == NamesLinked(ts0, links0, e) && MetaIn(md, e) == MetaIn(md0, e)
  }

  /** One iteration of import's loop: record `i` is added when it has content, and otherwise nothing changes. */
  method ImportAt(st: KnowledgeStore, ghost es0: seq<Entry>, ghost ts0: seq<Tag>, ghost links0: set<(nat, nat)>,
                  ghost md0: map<nat, map<string, Meta>>, ghost start: nat,
                  records: seq<ImportRecord>, i: nat, prov: Provenance, now: int)
    returns (added: bool)
    requires st.Valid() && i < |records|
    requires ImportedUpTo(es0, ts0, links0, md0, start, records, i, prov, now, st.entries, st.tags, st.links, st.metadata, st.nextEntryId)
    modifies st
    ensures st.Valid()
    ensures added <==> records[i].content.Some?
    ensures |Importable(records[..i + 1])| == |Importable(records[..i])| + if added then 1 else 0
    ensures ImportedUpTo(es0, ts0, links0, md0, start, records, i + 1, prov, now, st.entries, st.tags, st.links, st.metadata, st.nextEntryId)
    ensures st.relationships == old(st.relationships) && st.collections == old(st.collections)
    ensures st.nextRelationshipId == old(st.nextRelationshipId) && st.nextCollectionId == old(st.nextCollectionId)
  {
    assert records[..i + 1][..i] == records[..i];
    var r := records[i];
    assert records[..i + 1][i] == r;
    if r.content.Some? {
      ImportOne(st, es0, start, Importable(records[..i]), r, prov, now);
      assert Importable(records[..i + 1]) == Importable(records[..i]) + [r];
      forall e: nat | e < start
        ensures NamesLinked(st.tags, st.links, e) == NamesLinked(ts0, links0, e) && MetaIn(st.metadata, e) == MetaIn(md0, e)
      {
        assert st.TagNamesOf(e) == old(st.TagNamesOf(e)) && st.MetaOf(e) == old(st.MetaOf(e));
      }
      added := true;
    } else {
      assert Importable(records[..i + 1]) == Importable(records[..i]);
      added := false;
    }
    TagsImportedStep(ts0, old(st.tags), st.tags, records, i);
  }

  /**
   * import: each record is added in turn; a record without content is
   * counted as skipped with one error message, and the rest carry on. The
   * imported records become new entries, in order, with no collection.
   */
  method Import(st: KnowledgeStore, records: seq<ImportRecord>, prov: Provenance, now: int)
    returns (result: ImportResult)
    requires st.Valid()
    modifies st
    ensures st.Valid()
    ensures result.imported + result.skipped == |records|
    ensures result.imported == |Importable(records)|
    ensures |result.errors| == result.skipped
    ensures forall k | 0 <= k < |result.errors| :: result.errors[k] == MissingContentError
    ensures st.nextEntryId == old(st.nextEntryId) + result.imported
    ensures ImportedAs(old(st.entries), st.entries, st.tags, st.links, st.metadata, old(st.nextEntryId),
                       Importable(records), prov, now)
    ensures forall e: nat | e < old(st.nextEntryId) :: st.TagNamesOf(e) == old(st.TagNamesOf(e)) && st.MetaOf(e) == old(st.MetaOf(e))
    ensures st.relationships == old(st.relationships) && st.collections == old(st.collections)
    ensures st.nextRelationshipId == old(st.nextRelationshipId) && st.nextCollectionId == old(st.nextCollectionId)
    ensures TagsExtend(old(st.tags), st.tags)
    ensures TagNames(st.tags) == TagNames(old(st.tags)) + ImportedTagNames(records)
    ensures forall n :: UsageOf(st.tags, n) == UsageOf(old(st.tags), n) + ImportedUsage(records, n)
  {
    result := ImportResult(0, 0, []);
    ghost var start := st.nextEntryId;
    assert st.entries[..|st.entries|] == st.entries;
    assert records[..0] == [];
    for i := 0 to |records|
      invariant st.Valid()
      invariant result.imported + result.skipped == i
      invariant result.imported == |Importable(records[..i])|
      invariant |result.errors| == result.skipped
      invariant forall k | 0 <= k < |result.errors| :: result.errors[k] == MissingContentError
      invariant ImportedUpTo(old(st.entries), old(st.tags), old(st.links), old(st.metadata), start, records, i, prov, now,
                             st.entries, st.tags, st.links, st.metadata, st.nextEntryId)
      invariant st.relationships == old(st.relationships) && st.collections == old(st.collections)
      invariant st.nextRelationshipId == old(st.nextRelationshipId) && st.nextCollectionId == old(st.nextCollectionId)
    {
      var added := ImportAt(st, old(st.entries), old(st.tags), old(st.links), old(st.metadata), start, records, i, prov, now);
      if added {
        result := result.(imported := result.imported + 1);
      } else {
        result := result.(skipped := result.skipped + 1, errors := result.errors + [MissingContentError]);
      }
    }
    assert records[..|records|] == records;
  }

  /** Some record that carries content also carries a metadata key PHP turns into an int. */
  predicate ImportThrows(records: seq<ImportRecord>) {
    exists k | 0 <= k < |records| :: records[k].content.Some? && HasIntegerKey(records[k].metadata)
  }

  /**
   * import as written: the TypeError addEntry raises for an int metadata
   * key is an Error, not an Exception, so the per-record catch lets it
   * through; the surrounding transaction rolls back every record imported
   * so far and import throws instead of returning its counts. Any other
   * list behaves as Import.
   */
  method ImportAsWritten(st: KnowledgeStore, records: seq<ImportRecord>, prov: Provenance, now: int)
    returns (r: Result<ImportResult, string>)
    requires st.Valid()
    modifies st
    ensures st.Valid()
    ensures r.Failure? <==> ImportThrows(records)
    ensures r.Failure? ==> r.error == "TypeError" && unchanged(st)
    ensures r.Success? ==>
              && r.value.imported == |Importable(records)|
              && r.value.imported + r.value.skipped == |records|
              && |r.value.errors| == r.value.skipped
              && (forall k | 0 <= k < |r.value.errors| :: r.value.errors[k] == MissingContentError)
              && st.nextEntryId == old(st.nextEntryId) + r.value.imported
              && ImportedAs(old(st.entries), st.entries, st.tags, st.links, st.metadata, old(st.nextEntryId),
                            Importable(records), prov, now)
              && (forall e: nat | e < old(st.nextEntryId) ::
                    st.TagNamesOf(e) == old(st.TagNamesOf(e)) && st.MetaOf(e) == old(st.MetaOf(e)))
              && st.relationships == old(st.relationships) && st.collections == old(st.collections)
              && st.nextRelationshipId == old(st.nextRelationshipId) && st.nextCollectionId == old(st.nextCollectionId)
              && TagsExtend(old(st.tags), st.tags)
              && TagNames(st.tags) == TagNames(old(st.tags)) + ImportedTagNames(records)
              && (forall n :: UsageOf(st.tags, n) == UsageOf(old(st.tags), n) + ImportedUsage(records, n))
  {
    if ImportThrows(records) {
      return Failure("TypeError");
    }
    var result := Import(st, records, prov, now);
    r := Success(result);
  }

  /**
   * One record whose metadata key is "42": the code as written throws and
   * imports nothing, while Import adds it as one entry.
   */
  lemma IntegerMetadataKeyAbortsImport()
    ensures ImportThrows([ImportRecord(Some("x"), [], map["42" := "v"])])
    ensures |Importable([ImportRecord(Some("x"), [], map["42" := "v"])])| == 1
  {
    var records := [ImportRecord(Some("x"), [], map["42" := "v"])];
    assert IsIntegerKey("42");
    assert records[0].content.Some? && "42" in records[0].metadata;
    assert records[..0] == [];
  }

  /**
   * deleteEntry: false and no change for an unknown id; otherwise every
   * attached tag's usage_count drops by one (not below zero), every
   * relationship from or to the entry goes, the entry goes with its
   * metadata and pivot rows, and nothing else changes.
   */
  method DeleteEntry(st: KnowledgeStore, id: nat) returns (deleted: bool)
    requires st.Valid()
    modifies st
    ensures st.Valid()
    ensures deleted <==> id in EntryIds(old(st.entries))
    ensures !deleted ==>
              && st.entries == old(st.entries) && st.tags == old(st.tags) && st.links == old(st.links)
              && st.metadata == old(st.metadata) && st.relationships == old(st.relationships)
    ensures deleted ==>
              && st.entries == EntriesWithout(old(st.entries), id)
              && EntryIds(st.entries) == EntryIds(old(st.entries)) - {id}
              && st.metadata == old(st.metadata) - {id}
              && st.links == LinksWithout(old(st.links), id)
              && |st.tags| == |old(st.tags)|
              && (forall i | 0 <= i < |st.tags| ::
                    st.tags[i] == if (id, i + 1) in old(st.links)
                                  then old(st.tags)[i].(usage := FlooredDecrement(old(st.tags)[i].usage))
                                  else old(st.tags)[i])
              && st.relationships == RelationshipsNotTo(RelationshipsNotFrom(old(st.relationships), id), id)
              && (forall r :: r in st.relationships <==> r in old(st.relationships) && r.from != id && r.to != id)
    ensures forall i | 0 <= i < |st.tags| :: old(st.tags)[i].usage >= 0 ==> st.tags[i].usage >= 0
    ensures st.collections == old(st.collections)
    ensures st.nextEntryId == old(st.nextEntryId) && st.nextRelationshipId == old(st.nextRelationshipId)
    ensures st.nextCollectionId == old(st.nextCollectionId)
  {
    if FindEntry(st.entries, id).None? {
      return false;
    }
    var remaining := st.LinkedTagIds(id);
    while remaining != {}
      invariant st.Valid()
      invariant remaining <= st.LinkedTagIds(id)
      invariant |st.tags| == |old(st.tags)|
      invariant forall i | 0 <= i < |st.tags| ::
                  st.tags[i] == if (id, i + 1) in old(st.links) && i + 1 !in remaining
                                then old(st.tags)[i].(usage := FlooredDecrement(old(st.tags)[i].usage))
                                else old(st.tags)[i]
      invariant st.entries == old(st.entries) && st.links == old(st.links) && st.metadata == old(st.metadata)
      invariant st.relationships == old(st.relationships) && st.collections == old(st.collections)
      invariant st.nextEntryId == old(st.nextEntryId) && st.nextRelationshipId == old(st.nextRelationshipId)
      invariant st.nextCollectionId == old(st.nextCollectionId)
      decreases remaining
    {
      var t :| t in remaining;
      st.DecrementUsage(t);
      remaining := remaining - {t};
    }
    st.DeleteRelationshipsFrom(id);
    st.DeleteRelationshipsTo(id);
    st.DeleteEntryRow(id);
    deleted := true;
  }
}
