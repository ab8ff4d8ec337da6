/**
 * The migration service: replaying the legacy knowledge tables (or a
 * backup of them) into the store. The legacy rows are an immutable
 * snapshot read before the replay starts. A failure raised while one
 * record is replayed is an input: the record says at which step the
 * database throws and with what message.
 */
module Migration {
  import opened Wrappers
  import opened Strings
  import opened Schema
  import opened Seqs
  import opened Store
  import opened Knowledge

  /**
   * Where replaying a record throws, if at all: creating the entry, reading
   * its pivot rows, or writing its metadata row number `after` (the rows
   * before it have been written; a position past the last row never fires).
   */
  datatype Fault =
    | NoFault
    | FailsOnCreate(message: string)
    | FailsOnTags(message: string)
    | FailsOnMetadata(after: nat, message: string)

  /** A row of the legacy knowledge_entries table (or an entry of a backup). */
  datatype LegacyEntry = LegacyEntry(id: int, content: string, prov: Provenance, fault: Fault)

  /** A legacy knowledge_metadata row; `declaredType` may be null. */
  datatype LegacyMeta = LegacyMeta(key: string, value: string, declaredType: Option<string>)

  /** A legacy knowledge_tags row. */
  datatype LegacyTag = LegacyTag(name: string, usage: int)

  /**
   * What the per-record queries return: the joined tag names and the
   * metadata rows, keyed by the legacy entry id.
   */
  datatype LegacySource = LegacySource(
    tagNames: map<int, seq<string>>,
    metadata: map<int, seq<LegacyMeta>>)

  /** The legacy database: which tables exist, and their rows. */
  datatype LegacyTables = LegacyTables(
    tables: set<string>,
    entries: seq<LegacyEntry>,
    tags: seq<LegacyTag>,
    source: LegacySource)

  /** The counters, error list, status and message a migration reports. */
  datatype MigrationResult = MigrationResult(
    entriesMigrated: nat,
    tagsMigrated: nat,
    collectionsCreated: nat,
    errors: seq<string>,
    status: string,
    message: Option<string>)

  const NoDataMessage := "No legacy knowledge data found to migrate."
  const InvalidBackupMessage := "Invalid backup file format"
  const LandingColor := "#64748B"
  const LandingIcon := "📦"

  /** coreTablesExist: the entries, tags and entry-tag tables are all present. */
  predicate CoreTablesExist(tables: set<string>) {
    "knowledge_entries" in tables && "knowledge_tags" in tables && "knowledge_entry_tags" in tables
  }

  function TagNamesFor(src: LegacySource, id: int): seq<string> {
    if id in src.tagNames then src.tagNames[id] else []
  }

  function MetaRowsFor(src: LegacySource, id: int): seq<LegacyMeta> {
    if id in src.metadata then src.metadata[id] else []
  }

  /** A record whose fault never fires is migrated. */
  predicate Succeeds(f: Fault, metaCount: nat) {
    f.NoFault? || (f.FailsOnMetadata? && f.after >= metaCount)
  }

  /** The replay got as far as syncing the record's tags. */
  predicate Tagged(f: Fault) {
    !f.FailsOnCreate? && !f.FailsOnTags?
  }

  /** The metadata rows written before the replay stopped. */
  function WrittenMeta(f: Fault, rows: seq<LegacyMeta>): seq<LegacyMeta> {
    if f.FailsOnMetadata? && f.after < |rows| then rows[..f.after]
    else if Tagged(f) then rows
    else []
  }

  /** The metadata of the replayed entry: one upsert per row in order, the type defaulting to 'string'. */
  function ReplayMeta(rows: seq<LegacyMeta>): map<string, Meta> {
    if rows == [] then map[]
    else
      var last := rows[|rows| - 1];
      ReplayMeta(rows[..|rows| - 1])[last.key := Meta(last.value, last.declaredType.GetOr("string"))]
  }

  /**
   * A key has a replayed row exactly when some legacy row has that key, and
   * the row holds the value and type of the last legacy row with that key.
   */
  lemma {:induction false} ReplayMetaSpec(rows: seq<LegacyMeta>, key: string)
    ensures key in ReplayMeta(rows) <==> exists k :: 0 <= k < |rows| && rows[k].key == key
    ensures forall k | 0 <= k < |rows| && rows[k].key == key && (forall j | k < j < |rows| :: rows[j].key != key) ::
              key in ReplayMeta(rows) && ReplayMeta(rows)[key] == Meta(rows[k].value, rows[k].declaredType.GetOr("string"))
  {
    if rows != [] {
      var init := rows[..|rows| - 1];
      ReplayMetaSpec(init, key);
      assert forall k :: 0 <= k < |init| ==> init[k] == rows[k];
    }
  }

  /** The error line of a failed record: "Entry <id>: <message>". */
  function ErrorLine(r: LegacyEntry): string
    requires !r.fault.NoFault?
  {
    "Entry " + IntToString(r.id) + ": " + r.fault.message
  }

  /** Number of records replayed without a fault firing. */
  function Migrated(src: LegacySource, rs: seq<LegacyEntry>): nat {
    if rs == [] then 0
    else
      var last := rs[|rs| - 1];
      Migrated(src, rs[..|rs| - 1]) + if Succeeds(last.fault, |MetaRowsFor(src, last.id)|) then 1 else 0
  }

  /** The error lines of the failed records, in record order. */
  function ReplayErrors(src: LegacySource, rs: seq<LegacyEntry>): seq<string> {
    if rs == [] then []
    else
      var last := rs[|rs| - 1];
      ReplayErrors(src, rs[..|rs| - 1])
        + if Succeeds(last.fault, |MetaRowsFor(src, last.id)|) then [] else [ErrorLine(last)]
  }

  /**
   * The records whose entry row was created (also those that failed later
   * on), in record order: exactly those whose fault is not on creation.
   */
  function Created(rs: seq<LegacyEntry>): (r: seq<LegacyEntry>)
    ensures |r| <= |rs|
    ensures forall x :: x in r <==> x in rs && !x.fault.FailsOnCreate?
  {
    if rs == [] then []
    else
      var last := rs[|rs| - 1];
      var init := Created(rs[..|rs| - 1]);
      assert forall x :: x in rs <==> x in rs[..|rs| - 1] || x == last;
      init + if last.fault.FailsOnCreate? then [] else [last]
  }

  /** The tag names of every record whose tags were synced. */
  function ReplayedTagNames(src: LegacySource, rs: seq<LegacyEntry>): set<string> {
    if rs == [] then {}
    else
      var last := rs[|rs| - 1];
      ReplayedTagNames(src, rs[..|rs| - 1]) + if Tagged(last.fault) then SetOf(TagNamesFor(src, last.id)) else {}
  }

  /** Every record is either counted as migrated or reported, never both. */
  lemma {:induction false} ReplayTally(src: LegacySource, rs: seq<LegacyEntry>)
    ensures Migrated(src, rs) + |ReplayErrors(src, rs)| == |rs|
    ensures Migrated(src, rs) <= |Created(rs)|
  {
    if rs != [] {
      ReplayTally(src, rs[..|rs| - 1]);
    }
  }

  /** Each reported line names a record of the batch whose replay threw. */
  lemma {:induction false} ReplayErrorsFromFailures(src: LegacySource, rs: seq<LegacyEntry>)
    ensures forall e | e in ReplayErrors(src, rs) ::
              exists r | r in rs && !Succeeds(r.fault, |MetaRowsFor(src, r.id)|) :: e == ErrorLine(r)
  {
    if rs != [] {
      var init := rs[..|rs| - 1];
      ReplayErrorsFromFailures(src, init);
      forall r | r in init ensures r in rs { }
    }
  }

  /** One more name found or created: the registry's names grow by it. */
  lemma TagNamesStep(ts0: seq<Tag>, ts1: seq<Tag>, ts2: seq<Tag>, done: seq<string>, x: string)
    requires TagNames(ts1) == TagNames(ts0) + SetOf(done)
    requires TagNames(ts2) == TagNames(ts1) + {x}
    ensures TagNames(ts2) == TagNames(ts0) + SetOf(done + [x])
  {
    assert SetOf(done + [x]) == SetOf(done) + {x};
  }

  /**
   * The tag loop of the migration's attachTagsToEntry: each name, as given
   * (no trimming), is found or created; nothing is counted.
   */
  method FindOrCreateTags(st: KnowledgeStore, names: seq<string>) returns (tagIds: seq<nat>)
    requires st.Valid()
    modifies st
    ensures st.Valid()
    ensures IdsName(st.tags, tagIds, names)
    ensures TagsExtend(old(st.tags), st.tags)
    ensures TagNames(st.tags) == TagNames(old(st.tags)) + SetOf(names)
    ensures forall n :: UsageOf(st.tags, n) == UsageOf(old(st.tags), n)
    ensures st.AllButTags() == old(st.AllButTags())
  {
    tagIds := [];
    ghost var done: seq<string> := [];
    for i := 0 to |names|
      invariant st.Valid()
      invariant done == names[..i]
      invariant IdsName(st.tags, tagIds, done)
      invariant TagsExtend(old(st.tags), st.tags)
      invariant TagNames(st.tags) == TagNames(old(st.tags)) + SetOf(done)
      invariant forall n :: UsageOf(st.tags, n) == UsageOf(old(st.tags), n)
      invariant st.AllButTags() == old(st.AllButTags())
    {
      ghost var before := st.tags;
      var tag := st.FindOrCreateTag(names[i]);
      IdsNameStep(before, st.tags, tagIds, done, tag.id, names[i]);
      TagNamesStep(old(st.tags), before, st.tags, done, names[i]);
      PrefixSnoc(names, i);
      tagIds := tagIds + [tag.id];
      done := done + [names[i]];
    }
    assert names[..|names|] == names;
  }

  /**
   * The migration's attachTagsToEntry for a freshly created entry: the
   * entry ends up linked to exactly the given names (sync), and no usage
   * count changes.
   */
  method ReplayTags(st: KnowledgeStore, id: nat, names: seq<string>)
    requires st.Valid() && id in EntryIds(st.entries)
    requires forall t: nat :: (id, t) !in st.links
    modifies st
    ensures st.Valid()
    ensures st.TagNamesOf(id) == SetOf(names)
    ensures TagsExtend(old(st.tags), st.tags)
    ensures TagNames(st.tags) == TagNames(old(st.tags)) + SetOf(names)
    ensures forall n :: UsageOf(st.tags, n) == UsageOf(old(st.tags), n)
    ensures forall p: (nat, nat) | p.0 != id :: p in st.links <==> p in old(st.links)
    ensures forall e: nat | e != id :: st.TagNamesOf(e) == old(st.TagNamesOf(e))
    ensures st.entries == old(st.entries) && st.metadata == old(st.metadata)
    ensures st.relationships == old(st.relationships) && st.collections == old(st.collections)
    ensures st.nextEntryId == old(st.nextEntryId) && st.nextRelationshipId == old(st.nextRelationshipId)
    ensures st.nextCollectionId == old(st.nextCollectionId)
  {
    var tagIds := FindOrCreateTags(st, names);
    ghost var tagsNow := st.tags;
    st.Sync(id, tagIds);
    assert LinksWithout(old(st.links), id) == old(st.links);
    LinkedNamesAfterAttach(old(st.tags), tagsNow, old(st.links), id, tagIds, names);
    NoLinksNoNames(old(st.tags), old(st.links), id);
    forall e: nat | e != id ensures st.TagNamesOf(e) == old(st.TagNamesOf(e)) {
      NamesLinkedFrame(old(st.tags), st.tags, old(st.links), st.links, e);
    }
  }

  /**
   * The metadata loop of migrateEntry: each row in turn is upserted on the
   * new entry, its type defaulting to 'string', until the row at which the
   * fault fires (if any); the rows written before it stay.
   */
  method ReplayMetadata(st: KnowledgeStore, id: nat, rows: seq<LegacyMeta>, fault: Fault) returns (err: Option<string>)
    requires st.Valid() && id in EntryIds(st.entries) && id !in st.metadata
    requires Tagged(fault)
    modifies st
    ensures st.Valid()
    ensures err.None? <==> Succeeds(fault, |rows|)
    ensures err.Some? ==> err.value == fault.message
    ensures st.MetaOf(id) == ReplayMeta(WrittenMeta(fault, rows))
    ensures forall e: nat | e != id :: st.MetaOf(e) == old(st.MetaOf(e))
    ensures st.entries == old(st.entries) && st.tags == old(st.tags) && st.links == old(st.links)
    ensures st.relationships == old(st.relationships) && st.collections == old(st.collections)
    ensures st.nextEntryId == old(st.nextEntryId) && st.nextRelationshipId == old(st.nextRelationshipId)
    ensures st.nextCollectionId == old(st.nextCollectionId)
  {
    var k := 0;
    while k < |rows|
      invariant 0 <= k <= |rows|
      invariant st.Valid() && id in EntryIds(st.entries)
      invariant st.MetaOf(id) == ReplayMeta(rows[..k])
      invariant !(fault.FailsOnMetadata? && fault.after < k)
      invariant forall e: nat | e != id :: st.MetaOf(e) == old(st.MetaOf(e))
      invariant st.entries == old(st.entries) && st.tags == old(st.tags) && st.links == old(st.links)
      invariant st.relationships == old(st.relationships) && st.collections == old(st.collections)
      invariant st.nextEntryId == old(st.nextEntryId) && st.nextRelationshipId == old(st.nextRelationshipId)
      invariant st.nextCollectionId == old(st.nextCollectionId)
    {
      if fault.FailsOnMetadata? && fault.after == k {
        return Some(fault.message);
      }
      var row := rows[k];
      st.SetMetadataValue(id, row.key, row.value, row.declaredType.GetOr("string"));
      assert rows[..k + 1][..k] == rows[..k];
      k := k + 1;
    }
    assert rows[..|rows|] == rows;
    return None;
  }

  /**
   * migrateEntry after the entry row exists: sync its legacy tag names when
   * there are any, then replay its metadata rows.
   */
  method FillEntry(st: KnowledgeStore, id: nat, rec: LegacyEntry, src: LegacySource) returns (err: Option<string>)
    requires st.Valid() && id in EntryIds(st.entries) && id !in st.metadata
    requires forall t: nat :: (id, t) !in st.links
    requires !rec.fault.FailsOnCreate?
    modifies st
    ensures st.Valid()
    ensures err.None? <==> Succeeds(rec.fault, |MetaRowsFor(src, rec.id)|)
    ensures err.Some? ==> err.value == rec.fault.message
    ensures st.TagNamesOf(id) == if Tagged(rec.fault) then SetOf(TagNamesFor(src, rec.id)) else {}
    ensures st.MetaOf(id) == ReplayMeta(WrittenMeta(rec.fault, MetaRowsFor(src, rec.id)))
    ensures TagsExtend(old(st.tags), st.tags)
    ensures TagNames(st.tags) == TagNames(old(st.tags)) + if Tagged(rec.fault) then SetOf(TagNamesFor(src, rec.id)) else {}
    ensures forall n :: UsageOf(st.tags, n) == UsageOf(old(st.tags), n)
    ensures forall e: nat | e != id :: st.TagNamesOf(e) == old(st.TagNamesOf(e)) && st.MetaOf(e) == old(st.MetaOf(e))
    ensures st.entries == old(st.entries) && st.relationships == old(st.relationships) && st.collections == old(st.collections)
    ensures st.nextEntryId == old(st.nextEntryId) && st.nextCollectionId == old(st.nextCollectionId)
  {
    NoLinksNoNames(st.tags, st.links, id);
    if rec.fault.FailsOnTags? {
      return Some(rec.fault.message);
    }
    var names := TagNamesFor(src, rec.id);
    if |names| > 0 {
      ReplayTags(st, id, names);
    }
    err := ReplayMetadata(st, id, MetaRowsFor(src, rec.id), rec.fault);
  }

  /**
   * migrateEntry: create the entry in the landing collection (stamped
   * `now`: the legacy timestamps are not fillable), sync its legacy tag
   * names when there are any, then replay its metadata rows. There is no
   * inner transaction: a fault stops the replay and what was written before
   * it stays. No usage count changes, and no other entry is touched.
   */
  method MigrateEntry(st: KnowledgeStore, rec: LegacyEntry, src: LegacySource, collectionId: nat, now: int)
    returns (err: Option<string>)
    requires st.Valid()
    modifies st
    ensures st.Valid()
    ensures err.None? <==> Succeeds(rec.fault, |MetaRowsFor(src, rec.id)|)
    ensures err.Some? ==> err.value == rec.fault.message
    ensures rec.fault.FailsOnCreate? ==>
              st.entries == old(st.entries) && st.tags == old(st.tags) && st.links == old(st.links)
              && st.metadata == old(st.metadata) && st.nextEntryId == old(st.nextEntryId)
    ensures !rec.fault.FailsOnCreate? ==>
              st.entries == old(st.entries) + [Entry(old(st.nextEntryId), rec.content, rec.prov, Some(collectionId), now)]
              && st.nextEntryId == old(st.nextEntryId) + 1
    ensures st.TagNamesOf(old(st.nextEntryId)) == if Tagged(rec.fault) then SetOf(TagNamesFor(src, rec.id)) else {}
    ensures st.MetaOf(old(st.nextEntryId)) == ReplayMeta(WrittenMeta(rec.fault, MetaRowsFor(src, rec.id)))
    ensures TagsExtend(old(st.tags), st.tags)
    ensures TagNames(st.tags) == TagNames(old(st.tags)) + if Tagged(rec.fault) then SetOf(TagNamesFor(src, rec.id)) else {}
    ensures forall n :: UsageOf(st.tags, n) == UsageOf(old(st.tags), n)
    ensures forall e: nat | e != old(st.nextEntryId) ::
              st.TagNamesOf(e) == old(st.TagNamesOf(e)) && st.MetaOf(e) == old(st.MetaOf(e))
    ensures st.relationships == old(st.relationships) && st.collections == old(st.collections)
    ensures st.nextCollectionId == old(st.nextCollectionId)
  {
    var next := st.nextEntryId;
    assert forall p | p in st.links :: p.0 != next;
    assert next !in st.metadata;
    if rec.fault.FailsOnCreate? {
      NoLinksNoNames(st.tags, st.links, next);
      return Some(rec.fault.message);
    }
    var id := st.CreateEntry(rec.content, rec.prov, Some(collectionId), now);
    err := FillEntry(st, id, rec, src);
  }

  /** Two rounds of growth of the registry's names add up. */
  lemma TagNamesGrow(ts0: seq<Tag>, ts1: seq<Tag>, ts2: seq<Tag>, a: set<string>, b: set<string>)
    requires TagNames(ts1) == TagNames(ts0) + a && TagNames(ts2) == TagNames(ts1) + b
    ensures TagNames(ts2) == TagNames(ts0) + (a + b)
  {
  }

  /**
   * The replay of `created` landed: `es1` is `es0` followed by one entry
   * per created record, with ids from `start` on, in the landing
   * collection and stamped `now`; each such entry is linked to its
   * record's legacy tag names when the tag step was reached, and holds the
   * metadata rows written before the replay stopped.
   */
  ghost predicate Landed(es0: seq<Entry>, es1: seq<Entry>, ts: seq<Tag>, links: set<(nat, nat)>,
                         metadata: map<nat, map<string, Meta>>, start: nat, src: LegacySource,
                         created: seq<LegacyEntry>, collectionId: nat, now: int) {
    && |es1| == |es0| + |created| && es1[..|es0|] == es0
    && forall k | 0 <= k < |created| ::
         var r := created[k];
         && es1[|es0| + k] == Entry(start + k, r.content, r.prov, Some(collectionId), now)
         && NamesLinked(ts, links, start + k) == (if Tagged(r.fault) then SetOf(TagNamesFor(src, r.id)) else {})
         && MetaIn(metadata, start + k) == ReplayMeta(WrittenMeta(r.fault, MetaRowsFor(src, r.id)))
  }

  /** One more created record lands as the next entry. */
  lemma {:induction false} LandedStep(es0: seq<Entry>, es1: seq<Entry>, ts1: seq<Tag>, links1: set<(nat, nat)>,
                                      md1: map<nat, map<string, Meta>>, es2: seq<Entry>, ts2: seq<Tag>,
                                      links2: set<(nat, nat)>, md2: map<nat, map<string, Meta>>, start: nat,
                                      src: LegacySource, created: seq<LegacyEntry>, r: LegacyEntry,
                                      collectionId: nat, now: int)
    requires Landed(es0, es1, ts1, links1, md1, start, src, created, collectionId, now)
    requires es2 == es1 + [Entry(start + |created|, r.content, r.prov, Some(collectionId), now)]
    requires NamesLinked(ts2, links2, start + |created|) == if Tagged(r.fault) then SetOf(TagNamesFor(src, r.id)) else {}
    requires MetaIn(md2, start + |created|) == ReplayMeta(WrittenMeta(r.fault, MetaRowsFor(src, r.id)))
    requires forall e: nat | e != start + |created| :: NamesLinked(ts2, links2, e) == NamesLinked(ts1, links1, e)
    requires forall e: nat | e != start + |created| :: MetaIn(md2, e) == MetaIn(md1, e)
    ensures Landed(es0, es2, ts2, links2, md2, start, src, created + [r], collectionId, now)
  {
    var created' := created + [r];
    forall k | 0 <= k < |created'|
      ensures var x := created'[k];
        && es2[|es0| + k] == Entry(start + k, x.content, x.prov, Some(collectionId), now)
        && NamesLinked(ts2, links2, start + k) == (if Tagged(x.fault) then SetOf(TagNamesFor(src, x.id)) else {})
        && MetaIn(md2, start + k) == ReplayMeta(WrittenMeta(x.fault, MetaRowsFor(src, x.id)))
    {
      if k < |created| {
        assert created'[k] == created[k];
        assert es2[|es0| + k] == es1[|es0| + k];
      }
    }
    assert es2[..|es0|] == es1[..|es0|];
  }

  /** Landed speaks only of the names and metadata of the landed entries. */
  lemma {:induction false} LandedFrame(es0: seq<Entry>, es1: seq<Entry>, ts1: seq<Tag>, links1: set<(nat, nat)>,
                                       md1: map<nat, map<string, Meta>>, ts2: seq<Tag>, links2: set<(nat, nat)>,
                                       md2: map<nat, map<string, Meta>>, start: nat, src: LegacySource,
                                       created: seq<LegacyEntry>, collectionId: nat, now: int)
    requires Landed(es0, es1, ts1, links1, md1, start, src, created, collectionId, now)
    requires forall e: nat :: NamesLinked(ts2, links2, e) == NamesLinked(ts1, links1, e)
    requires md2 == md1
    ensures Landed(es0, es1, ts2, links2, md2, start, src, created, collectionId, now)
  {
  }

  /** The tallies over one more record. */
  lemma ReplayStep(src: LegacySource, rs: seq<LegacyEntry>, i: nat)
    requires i < |rs|
    ensures var r := rs[i];
      && Migrated(src, rs[..i + 1]) == Migrated(src, rs[..i]) + (if Succeeds(r.fault, |MetaRowsFor(src, r.id)|) then 1 else 0)
      && ReplayErrors(src, rs[..i + 1]) ==
           ReplayErrors(src, rs[..i]) + (if Succeeds(r.fault, |MetaRowsFor(src, r.id)|) then [] else [ErrorLine(r)])
      && Created(rs[..i + 1]) == Created(rs[..i]) + (if r.fault.FailsOnCreate? then [] else [r])
      && ReplayedTagNames(src, rs[..i + 1]) ==
           ReplayedTagNames(src, rs[..i]) + (if Tagged(r.fault) then SetOf(TagNamesFor(src, r.id)) else {})
  {
    assert rs[..i + 1][..i] == rs[..i];
  }

  /**
   * One iteration of the entry loop: the record is replayed, and when its
   * entry row was created it lands as the next entry.
   */
  method ReplayOne(st: KnowledgeStore, ghost es0: seq<Entry>, ghost start: nat, ghost created: seq<LegacyEntry>,
                   rec: LegacyEntry, src: LegacySource, collectionId: nat, now: int)
    returns (err: Option<string>)
    requires st.Valid() && st.nextEntryId == start + |created|
    requires Landed(es0, st.entries, st.tags, st.links, st.metadata, start, src, created, collectionId, now)
    modifies st
    ensures st.Valid()
    ensures err.None? <==> Succeeds(rec.fault, |MetaRowsFor(src, rec.id)|)
    ensures err.Some? ==> err.value == rec.fault.message
    ensures var created' := created + if rec.fault.FailsOnCreate? then [] else [rec];
      && st.nextEntryId == start + |created'|
      && Landed(es0, st.entries, st.tags, st.links, st.metadata, start, src, created', collectionId, now)
    ensures TagsExtend(old(st.tags), st.tags)
    ensures TagNames(st.tags) == TagNames(old(st.tags)) + if Tagged(rec.fault) then SetOf(TagNamesFor(src, rec.id)) else {}
    ensures forall n :: UsageOf(st.tags, n) == UsageOf(old(st.tags), n)
    ensures forall e: nat | e < start :: st.TagNamesOf(e) == old(st.TagNamesOf(e)) && st.MetaOf(e) == old(st.MetaOf(e))
    ensures st.relationships == old(st.relationships) && st.collections == old(st.collections)
    ensures st.nextCollectionId == old(st.nextCollectionId)
  {
    err := MigrateEntry(st, rec, src, collectionId, now);
    if rec.fault.FailsOnCreate? {
      assert created + [] == created;
    } else {
      var id := start + |created|;
      forall e: nat | e != id
        ensures NamesLinked(st.tags, st.links, e) == NamesLinked(old(st.tags), old(st.links), e)
        ensures MetaIn(st.metadata, e) == MetaIn(old(st.metadata), e)
      {
        assert st.TagNamesOf(e) == old(st.TagNamesOf(e));
        assert st.MetaOf(e) == old(st.MetaOf(e));
      }
      LandedStep(es0, old(st.entries), old(st.tags), old(st.links), old(st.metadata),
                 st.entries, st.tags, st.links, st.metadata, start, src, created, rec, collectionId, now);
    }
  }

  /**
   * The entry loop shared by migrateFromCore and importFromBackup: every
   * record is replayed into the landing collection; a record whose replay
   * throws is reported as "Entry <id>: <message>" and the loop goes on.
   * The created records land as new entries, in record order.
   */
  method ReplayAll(st: KnowledgeStore, src: LegacySource, rs: seq<LegacyEntry>, collectionId: nat, now: int)
    returns (migrated: nat, errors: seq<string>)
    requires st.Valid()
    modifies st
    ensures st.Valid()
    ensures migrated == Migrated(src, rs) && errors == ReplayErrors(src, rs)
    ensures st.nextEntryId == old(st.nextEntryId) + |Created(rs)|
    ensures Landed(old(st.entries), st.entries, st.tags, st.links, st.metadata, old(st.nextEntryId), src,
                   Created(rs), collectionId, now)
    ensures TagsExtend(old(st.tags), st.tags)
    ensures TagNames(st.tags) == TagNames(old(st.tags)) + ReplayedTagNames(src, rs)
    ensures forall n :: UsageOf(st.tags, n) == UsageOf(old(st.tags), n)
    ensures forall e | e in EntryIds(old(st.entries)) ::
              st.TagNamesOf(e) == old(st.TagNamesOf(e)) && st.MetaOf(e) == old(st.MetaOf(e))
    ensures st.relationships == old(st.relationships) && st.collections == old(st.collections)
    ensures st.nextCollectionId == old(st.nextCollectionId)
  {
    ghost var start := st.nextEntryId;
    assert forall e | e in EntryIds(st.entries) :: e < start;
    assert st.entries[..|st.entries|] == st.entries;
    migrated, errors := 0, [];
    for i := 0 to |rs|
      invariant st.Valid() && st.nextEntryId == start + |Created(rs[..i])|
      invariant migrated == Migrated(src, rs[..i]) && errors == ReplayErrors(src, rs[..i])
      invariant Landed(old(st.entries), st.entries, st.tags, st.links, st.metadata, start, src,
                       Created(rs[..i]), collectionId, now)
      invariant TagsExtend(old(st.tags), st.tags)
      invariant TagNames(st.tags) == TagNames(old(st.tags)) + ReplayedTagNames(src, rs[..i])
      invariant forall n :: UsageOf(st.tags, n) == UsageOf(old(st.tags), n)
      invariant forall e: nat | e < start :: st.TagNamesOf(e) == old(st.TagNamesOf(e)) && st.MetaOf(e) == old(st.MetaOf(e))
      invariant st.relationships == old(st.relationships) && st.collections == old(st.collections)
      invariant st.nextCollectionId == old(st.nextCollectionId)
    {
      var rec := rs[i];
      ReplayStep(src, rs, i);
      ghost var tagsBefore := st.tags;
      var err := ReplayOne(st, old(st.entries), start, Created(rs[..i]), rec, src, collectionId, now);
      TagsExtendTrans(old(st.tags), tagsBefore, st.tags);
      TagNamesGrow(old(st.tags), tagsBefore, st.tags, ReplayedTagNames(src, rs[..i]),
                   if Tagged(rec.fault) then SetOf(TagNamesFor(src, rec.id)) else {});
      if err.Some? {
        errors := errors + ["Entry " + IntToString(rec.id) + ": " + err.value];
      } else {
        migrated := migrated + 1;
      }
    }
    assert rs[..|rs|] == rs;
  }

  /** The count of the last pair naming `n`, or `default` when no pair does. */
  function LastCount(counts: seq<(string, int)>, n: string, default: int): int {
    if counts == [] then default
    else if counts[|counts| - 1].0 == n then counts[|counts| - 1].1
    else LastCount(counts[..|counts| - 1], n, default)
  }

  /** The number of pairs whose name has a tag in the registry. */
  function Matched(counts: seq<(string, int)>, names: set<string>): nat {
    if counts == [] then 0
    else Matched(counts[..|counts| - 1], names) + if counts[|counts| - 1].0 in names then 1 else 0
  }

  /** Matched counts each pair naming a registered tag once, and no other pair. */
  lemma {:induction false} MatchedBounds(counts: seq<(string, int)>, names: set<string>)
    ensures Matched(counts, names) <= |counts|
    ensures Matched(counts, names) == |counts| <==> forall k | 0 <= k < |counts| :: counts[k].0 in names
    ensures Matched(counts, names) == 0 <==> forall k | 0 <= k < |counts| :: counts[k].0 !in names
  {
    if counts != [] {
      var init := counts[..|counts| - 1];
      MatchedBounds(init, names);
      assert forall k :: 0 <= k < |init| ==> init[k] == counts[k];
    }
  }

  /** With no pair naming `n`, its count stays the default. */
  lemma {:induction false} LastCountAbsent(counts: seq<(string, int)>, n: string, default: int)
    requires forall k | 0 <= k < |counts| :: counts[k].0 != n
    ensures LastCount(counts, n, default) == default
  {
    if counts != [] {
      LastCountAbsent(counts[..|counts| - 1], n, default);
    }
  }

  /** A later duplicate wins: the count applied to a name is that of its last pair. */
  lemma {:induction false} LastCountWins(counts: seq<(string, int)>, n: string, default: int, k: nat)
    requires k < |counts| && counts[k].0 == n
    requires forall j | k < j < |counts| :: counts[j].0 != n
    ensures LastCount(counts, n, default) == counts[k].1
  {
    if k < |counts| - 1 {
      var init := counts[..|counts| - 1];
      assert init[k] == counts[k];
      LastCountWins(init, n, default, k);
    }
  }

  /** One more pair: only the usage of its name (when it has a tag) changes, to the pair's count. */
  lemma OverwriteStep(ts0: seq<Tag>, ts1: seq<Tag>, ts2: seq<Tag>, done: seq<(string, int)>, c: (string, int))
    requires forall n :: UsageOf(ts1, n) ==
               if n in TagNames(ts0) then LastCount(done, n, UsageOf(ts0, n)) else UsageOf(ts0, n)
    requires c.0 in TagNames(ts0) ==> forall n :: UsageOf(ts2, n) == if n == c.0 then c.1 else UsageOf(ts1, n)
    requires c.0 !in TagNames(ts0) ==> ts2 == ts1
    ensures forall n :: UsageOf(ts2, n) ==
              if n in TagNames(ts0) then LastCount(done + [c], n, UsageOf(ts0, n)) else UsageOf(ts0, n)
  {
    assert (done + [c])[..|done|] == done;
  }

  /** The (name, usage_count) pairs of the legacy tags table. */
  function UsagePairs(tags: seq<LegacyTag>): (r: seq<(string, int)>)
    ensures |r| == |tags| && forall k :: 0 <= k < |tags| ==> r[k] == (tags[k].name, tags[k].usage)
  {
    seq(|tags|, k requires 0 <= k < |tags| => (tags[k].name, tags[k].usage))
  }

  /**
   * The usage-count loop: for each pair whose name has a tag, that tag's
   * usage_count is overwritten with the pair's count and the pair is
   * counted; a pair without a tag is skipped. No tag is created.
   */
  method OverwriteUsage(st: KnowledgeStore, counts: seq<(string, int)>) returns (updated: nat)
    requires st.Valid()
    modifies st
    ensures st.Valid()
    ensures updated == Matched(counts, TagNames(old(st.tags)))
    ensures |st.tags| == |old(st.tags)| && TagsExtend(old(st.tags), st.tags) && TagNames(st.tags) == TagNames(old(st.tags))
    ensures forall n :: UsageOf(st.tags, n) ==
              if n in TagNames(old(st.tags)) then LastCount(counts, n, UsageOf(old(st.tags), n)) else UsageOf(old(st.tags), n)
    ensures forall e: nat :: st.TagNamesOf(e) == old(st.TagNamesOf(e))
    ensures st.AllButTags() == old(st.AllButTags())
  {
    updated := 0;
    for i := 0 to |counts|
      invariant st.Valid()
      invariant updated == Matched(counts[..i], TagNames(old(st.tags)))
      invariant |st.tags| == |old(st.tags)| && TagsExtend(old(st.tags), st.tags) && TagNames(st.tags) == TagNames(old(st.tags))
      invariant forall n :: UsageOf(st.tags, n) ==
                  if n in TagNames(old(st.tags)) then LastCount(counts[..i], n, UsageOf(old(st.tags), n)) else UsageOf(old(st.tags), n)
      invariant st.AllButTags() == old(st.AllButTags())
    {
      var c := counts[i];
      PrefixSnoc(counts, i);
      assert counts[..i + 1][..i] == counts[..i];
      ghost var before := st.tags;
      var found := FindTag(st.tags, c.0);
      if found.Some? {
        UsageAfterSet(before, found.value, c.1);
        st.UpdateUsage(found.value + 1, c.1);
        updated := updated + 1;
      }
      OverwriteStep(old(st.tags), before, st.tags, counts[..i], c);
    }
    assert counts[..|counts|] == counts;
    forall e: nat ensures st.TagNamesOf(e) == old(st.TagNamesOf(e)) {
      NamesLinkedFrame(old(st.tags), st.tags, st.links, st.links, e);
    }
  }

  /** Replaying (no usage change) and then overwriting compose. */
  lemma UsageAfterReconcile(ts0: seq<Tag>, ts1: seq<Tag>, ts2: seq<Tag>, counts: seq<(string, int)>)
    requires forall n :: UsageOf(ts1, n) == UsageOf(ts0, n)
    requires TagNames(ts2) == TagNames(ts1)
    requires forall n :: UsageOf(ts2, n) ==
               if n in TagNames(ts1) then LastCount(counts, n, UsageOf(ts1, n)) else UsageOf(ts1, n)
    ensures forall n :: UsageOf(ts2, n) ==
              if n in TagNames(ts2) then LastCount(counts, n, UsageOf(ts0, n)) else UsageOf(ts0, n)
  {
  }

  /**
   * migrateFromCore. Without the three core tables: status 'no_data', the
   * no-data message, all counts 0, no errors, and nothing written.
   * Otherwise: one landing collection 'Migrated from Core'; every legacy
   * entry replayed (migrated or reported, never both); then each legacy
   * tag's usage_count copied onto the tag of that name when there is one,
   * the last duplicate winning, and tags_migrated counting those tags;
   * status 'success'.
   */
  method MigrateFromCore(st: KnowledgeStore, legacy: LegacyTables, now: int) returns (result: MigrationResult)
    requires st.Valid()
    modifies st
    ensures st.Valid()
    ensures !CoreTablesExist(legacy.tables) ==>
              && result == MigrationResult(0, 0, 0, [], "no_data", Some(NoDataMessage))
              && st.entries == old(st.entries) && st.tags == old(st.tags) && st.links == old(st.links)
              && st.metadata == old(st.metadata) && st.collections == old(st.collections)
              && st.nextEntryId == old(st.nextEntryId) && st.nextCollectionId == old(st.nextCollectionId)
              && st.nextRelationshipId == old(st.nextRelationshipId)
    ensures CoreTablesExist(legacy.tables) ==>
              && result.status == "success" && result.message.None? && result.collectionsCreated == 1
              && st.collections == old(st.collections) + [CollectionRow(old(st.nextCollectionId), "Migrated from Core",
                   "Knowledge entries migrated from Conduit core system", LandingColor, LandingIcon)]
              && result.entriesMigrated == Migrated(legacy.source, legacy.entries)
              && result.errors == ReplayErrors(legacy.source, legacy.entries)
              && st.nextEntryId == old(st.nextEntryId) + |Created(legacy.entries)|
              && Landed(old(st.entries), st.entries, st.tags, st.links, st.metadata, old(st.nextEntryId),
                        legacy.source, Created(legacy.entries), old(st.nextCollectionId), now)
              && TagNames(st.tags) == TagNames(old(st.tags)) + ReplayedTagNames(legacy.source, legacy.entries)
              && result.tagsMigrated == Matched(UsagePairs(legacy.tags), TagNames(st.tags))
              && (forall n :: UsageOf(st.tags, n) ==
                    if n in TagNames(st.tags) then LastCount(UsagePairs(legacy.tags), n, UsageOf(old(st.tags), n))
                    else UsageOf(old(st.tags), n))
              && (forall e | e in EntryIds(old(st.entries)) ::
                    st.TagNamesOf(e) == old(st.TagNamesOf(e)) && st.MetaOf(e) == old(st.MetaOf(e)))
    ensures st.relationships == old(st.relationships)
  {
    if !CoreTablesExist(legacy.tables) {
      return MigrationResult(0, 0, 0, [], "no_data", Some(NoDataMessage));
    }
    var collectionId := st.CreateCollection("Migrated from Core",
      "Knowledge entries migrated from Conduit core system", LandingColor, LandingIcon);
    var migrated, errors := ReplayAll(st, legacy.source, legacy.entries, collectionId, now);
    ghost var replayed := st.tags;
    label Replayed:
    var updated := OverwriteUsage(st, UsagePairs(legacy.tags));
    UsageAfterReconcile(old(st.tags), replayed, st.tags, UsagePairs(legacy.tags));
    forall e: nat ensures NamesLinked(st.tags, st.links, e) == NamesLinked(replayed, st.links, e) {
      assert st.TagNamesOf(e) == old@Replayed(st.TagNamesOf(e));
    }
    LandedFrame(old(st.entries), st.entries, replayed, st.links, st.metadata, st.tags, st.links, st.metadata,
                old(st.nextEntryId), legacy.source, Created(legacy.entries), collectionId, now);
    result := MigrationResult(migrated, updated, 1, errors, "success", None);
  }

  /** A backup tag; its usage_count may be missing. */
  datatype BackupTag = BackupTag(id: int, name: string, usage: Option<int>)

  /** A knowledge_metadata row of a backup, with the entry it belongs to. */
  datatype BackupMeta = BackupMeta(entryId: int, key: string, value: string, declaredType: Option<string>)

  /**
   * The decoded backup file, as backupCoreData writes it: the legacy
   * entries, tags, (entry id, tag id) pivot rows and metadata rows. Any key
   * may be missing.
   */
  datatype BackupData = BackupData(
    entries: Option<seq<LegacyEntry>>,
    tags: Option<seq<BackupTag>>,
    entryTags: Option<seq<(int, int)>>,
    metadata: Option<seq<BackupMeta>>)

  /** The names of the backup tags with id `tagId`, in table order. */
  function TagsWithId(tags: seq<BackupTag>, tagId: int): seq<string> {
    if tags == [] then []
    else
      var last := tags[|tags| - 1];
      TagsWithId(tags[..|tags| - 1], tagId) + if last.id == tagId then [last.name] else []
  }

  /** The backup's pivot rows of entry `id` joined with its tags: the tag names of the entry. */
  function BackupTagNames(pairs: seq<(int, int)>, tags: seq<BackupTag>, id: int): seq<string> {
    if pairs == [] then []
    else
      var last := pairs[|pairs| - 1];
      BackupTagNames(pairs[..|pairs| - 1], tags, id) + if last.0 == id then TagsWithId(tags, last.1) else []
  }

  /** The backup's metadata rows of entry `id`, in table order. */
  function BackupMetaRows(rows: seq<BackupMeta>, id: int): seq<LegacyMeta> {
    if rows == [] then []
    else
      var last := rows[|rows| - 1];
      BackupMetaRows(rows[..|rows| - 1], id)
        + if last.entryId == id then [LegacyMeta(last.key, last.value, last.declaredType)] else []
  }

  /**
   * What the per-record tag and metadata queries would return if they read
   * the backup's own pivot and metadata rows instead of the live tables.
   */
  function BackupSource(data: BackupData): LegacySource {
    var pairs, tags, rows := data.entryTags.GetOr([]), data.tags.GetOr([]), data.metadata.GetOr([]);
    LegacySource(
      map e | e in (set p | p in pairs :: p.0) :: BackupTagNames(pairs, tags, e),
      map e | e in (set r | r in rows :: r.entryId) :: BackupMetaRows(rows, e))
  }

  lemma {:induction false} TagsWithIdSpec(tags: seq<BackupTag>, tagId: int)
    ensures forall x :: x in TagsWithId(tags, tagId) <==> exists t | t in tags :: t.id == tagId && t.name == x
  {
    if tags != [] {
      var init := tags[..|tags| - 1];
      TagsWithIdSpec(init, tagId);
      assert forall t :: t in tags <==> t in init || t == tags[|tags| - 1];
    }
  }

  lemma {:induction false} BackupTagNamesSpec(pairs: seq<(int, int)>, tags: seq<BackupTag>, id: int)
    ensures forall x :: x in BackupTagNames(pairs, tags, id) <==>
              exists p, t | p in pairs && t in tags :: p.0 == id && t.id == p.1 && t.name == x
  {
    if pairs != [] {
      var init := pairs[..|pairs| - 1];
      var last := pairs[|pairs| - 1];
      BackupTagNamesSpec(init, tags, id);
      TagsWithIdSpec(tags, last.1);
      assert forall p :: p in pairs <==> p in init || p == last;
    }
  }

  lemma {:induction false} BackupMetaRowsSpec(rows: seq<BackupMeta>, id: int)
    ensures forall m :: m in BackupMetaRows(rows, id) <==>
              exists r | r in rows :: r.entryId == id && m == LegacyMeta(r.key, r.value, r.declaredType)
  {
    if rows != [] {
      var init := rows[..|rows| - 1];
      BackupMetaRowsSpec(init, id);
      assert forall r :: r in rows <==> r in init || r == rows[|rows| - 1];
    }
  }

  /**
   * Read from the backup, an entry's tag names are the names of the tags
   * its pivot rows point to, and its metadata rows are the rows stored
   * for it.
   */
  lemma {:induction false} BackupSourceSpec(data: BackupData, id: int)
    ensures forall x :: x in TagNamesFor(BackupSource(data), id) <==>
              exists p, t | p in data.entryTags.GetOr([]) && t in data.tags.GetOr([]) :: p.0 == id && t.id == p.1 && t.name == x
    ensures forall m :: m in MetaRowsFor(BackupSource(data), id) <==>
              exists r | r in data.metadata.GetOr([]) :: r.entryId == id && m == LegacyMeta(r.key, r.value, r.declaredType)
  {
    var pairs, tags, rows := data.entryTags.GetOr([]), data.tags.GetOr([]), data.metadata.GetOr([]);
    BackupTagNamesSpec(pairs, tags, id);
    BackupMetaRowsSpec(rows, id);
  }

  /** The (name, usage_count) pairs of the backup's tags, a missing count read as 0. */
  function BackupUsagePairs(tags: seq<BackupTag>): (r: seq<(string, int)>)
    ensures |r| == |tags| && forall k :: 0 <= k < |tags| ==> r[k] == (tags[k].name, tags[k].usage.GetOr(0))
  {
    seq(|tags|, k requires 0 <= k < |tags| => (tags[k].name, tags[k].usage.GetOr(0)))
  }

  /**
   * importFromBackup. `fileExists` and `decoded` stand for the file system
   * and the JSON decoder (None: undecodable, or a value PHP treats as
   * false); `src` is what the per-record tag and metadata queries return.
   * A missing file, an undecodable file or one without 'entries' gives
   * status 'error' with one message, all counts 0, and nothing written.
   * Otherwise the backup's entries are replayed into the landing collection
   * 'Imported from Backup', and, when the backup has tags, their counts are
   * copied as in migrateFromCore.
   */
  method ImportFromBackup(st: KnowledgeStore, path: string, fileExists: bool, decoded: Option<BackupData>,
                          src: LegacySource, now: int)
    returns (result: MigrationResult)
    requires st.Valid()
    modifies st
    ensures st.Valid()
    ensures !fileExists ==> result == MigrationResult(0, 0, 0, ["Backup file not found: " + path], "error", None)
    ensures fileExists && (decoded.None? || decoded.value.entries.None?) ==>
              result == MigrationResult(0, 0, 0, [InvalidBackupMessage], "error", None)
    ensures result.status == "error" ==>
              st.entries == old(st.entries) && st.tags == old(st.tags) && st.links == old(st.links)
              && st.metadata == old(st.metadata) && st.collections == old(st.collections)
              && st.nextEntryId == old(st.nextEntryId) && st.nextCollectionId == old(st.nextCollectionId)
              && st.nextRelationshipId == old(st.nextRelationshipId)
    ensures fileExists && decoded.Some? && decoded.value.entries.Some? ==>
              var rs := decoded.value.entries.value;
              var counts := if decoded.value.tags.Some? then BackupUsagePairs(decoded.value.tags.value) else [];
              && result.status == "success" && result.collectionsCreated == 1
              && st.collections == old(st.collections) + [CollectionRow(old(st.nextCollectionId), "Imported from Backup",
                   "Knowledge entries imported from backup file", LandingColor, LandingIcon)]
              && result.entriesMigrated == Migrated(src, rs) && result.errors == ReplayErrors(src, rs)
              && st.nextEntryId == old(st.nextEntryId) + |Created(rs)|
              && Landed(old(st.entries), st.entries, st.tags, st.links, st.metadata, old(st.nextEntryId),
                        src, Created(rs), old(st.nextCollectionId), now)
              && TagNames(st.tags) == TagNames(old(st.tags)) + ReplayedTagNames(src, rs)
              && result.tagsMigrated == Matched(counts, TagNames(st.tags))
              && (forall n :: UsageOf(st.tags, n) ==
                    if n in TagNames(st.tags) then LastCount(counts, n, UsageOf(old(st.tags), n)) else UsageOf(old(st.tags), n))
              && (forall e | e in EntryIds(old(st.entries)) ::
                    st.TagNamesOf(e) == old(st.TagNamesOf(e)) && st.MetaOf(e) == old(st.MetaOf(e)))
    ensures st.relationships == old(st.relationships)
  {
    if !fileExists {
      return MigrationResult(0, 0, 0, ["Backup file not found: " + path], "error", None);
    }
    if decoded.None? || decoded.value.entries.None? {
      return MigrationResult(0, 0, 0, [InvalidBackupMessage], "error", None);
    }
    var data := decoded.value;
    var collectionId := st.CreateCollection("Imported from Backup",
      "Knowledge entries imported from backup file", LandingColor, LandingIcon);
    var migrated, errors := ReplayAll(st, src, data.entries.value, collectionId, now);
    var counts := if data.tags.Some? then BackupUsagePairs(data.tags.value) else [];
    ghost var replayed := st.tags;
    label Replayed:
    var updated := OverwriteUsage(st, counts);
    UsageAfterReconcile(old(st.tags), replayed, st.tags, counts);
    forall e: nat ensures NamesLinked(st.tags, st.links, e) == NamesLinked(replayed, st.links, e) {
      assert st.TagNamesOf(e) == old@Replayed(st.TagNamesOf(e));
    }
    LandedFrame(old(st.entries), st.entries, replayed, st.links, st.metadata, st.tags, st.links, st.metadata,
                old(st.nextEntryId), src, Created(data.entries.value), collectionId, now);
    result := MigrationResult(migrated, updated, 1, errors, "success", None);
  }

  /**
   * importFromBackup as its backup format intends: the backup's entries
   * replayed with the tag names and metadata rows the backup itself holds
   * (`BackupSource`), not those of the live legacy tables. Everything else
   * is as in ImportFromBackup.
   */
  method ImportFromBackupIntended(st: KnowledgeStore, path: string, fileExists: bool, decoded: Option<BackupData>, now: int)
    returns (result: MigrationResult)
    requires st.Valid()
    modifies st
    ensures st.Valid()
    ensures !fileExists ==> result == MigrationResult(0, 0, 0, ["Backup file not found: " + path], "error", None)
    ensures fileExists && (decoded.None? || decoded.value.entries.None?) ==>
              result == MigrationResult(0, 0, 0, [InvalidBackupMessage], "error", None)
    ensures result.status == "error" ==>
              st.entries == old(st.entries) && st.tags == old(st.tags) && st.links == old(st.links)
              && st.metadata == old(st.metadata) && st.collections == old(st.collections)
              && st.nextEntryId == old(st.nextEntryId) && st.nextCollectionId == old(st.nextCollectionId)
              && st.nextRelationshipId == old(st.nextRelationshipId)
    ensures fileExists && decoded.Some? && decoded.value.entries.Some? ==>
              var rs := decoded.value.entries.value;
              var src := BackupSource(decoded.value);
              var counts := if decoded.value.tags.Some? then BackupUsagePairs(decoded.value.tags.value) else [];
              && result.status == "success" && result.collectionsCreated == 1
              && st.collections == old(st.collections) + [CollectionRow(old(st.nextCollectionId), "Imported from Backup",
                   "Knowledge entries imported from backup file", LandingColor, LandingIcon)]
              && result.entriesMigrated == Migrated(src, rs) && result.errors == ReplayErrors(src, rs)
              && st.nextEntryId == old(st.nextEntryId) + |Created(rs)|
              && Landed(old(st.entries), st.entries, st.tags, st.links, st.metadata, old(st.nextEntryId),
                        src, Created(rs), old(st.nextCollectionId), now)
              && TagNames(st.tags) == TagNames(old(st.tags)) + ReplayedTagNames(src, rs)
              && result.tagsMigrated == Matched(counts, TagNames(st.tags))
              && (forall n :: UsageOf(st.tags, n) ==
                    if n in TagNames(st.tags) then LastCount(counts, n, UsageOf(old(st.tags), n)) else UsageOf(old(st.tags), n))
              && (forall e | e in EntryIds(old(st.entries)) ::
                    st.TagNamesOf(e) == old(st.TagNamesOf(e)) && st.MetaOf(e) == old(st.MetaOf(e)))
    ensures st.relationships == old(st.relationships)
  {
    var src := if decoded.Some? then BackupSource(decoded.value) else LegacySource(map[], map[]);
    result := ImportFromBackup(st, path, fileExists, decoded, src, now);
  }

  /**
   * Restoring into a database whose legacy tables hold no rows for the
   * backup's entries: the live lookup importFromBackup does finds no tag
   * names for entry 1, although the backup's own pivot row links it to
   * "bug".
   */
  lemma BackupLinksIgnored()
    ensures var data := BackupData(Some([LegacyEntry(1, "Fix login", Provenance(None, None, None, None, None), NoFault)]),
                                   Some([BackupTag(7, "bug", Some(1))]), Some([(1, 7)]), Some([]));
      && Created(data.entries.value) == data.entries.value
      && TagNamesFor(LegacySource(map[], map[]), 1) == []
      && TagNamesFor(BackupSource(data), 1) == ["bug"]
  {
    var data := BackupData(Some([LegacyEntry(1, "Fix login", Provenance(None, None, None, None, None), NoFault)]),
                           Some([BackupTag(7, "bug", Some(1))]), Some([(1, 7)]), Some([]));
    var tags := data.tags.value;
    assert TagsWithId(tags, 7) == TagsWithId([], 7) + ["bug"];
    assert BackupTagNames([(1, 7)], tags, 1) == BackupTagNames([], tags, 1) + TagsWithId(tags, 7);
    assert 1 in (set p | p in [(1, 7)] :: p.0);
  }

  /** The legacy tables removeCoreSystem drops, in the order it drops them. */
  const CoreTableOrder: seq<string> :=
    ["knowledge_relationships", "knowledge_metadata", "knowledge_entry_tags", "knowledge_entries", "knowledge_tags"]

  /** The tables of `order` present in `existing`, in the order of `order`. */
  function DroppedFrom(order: seq<string>, existing: set<string>): seq<string> {
    if order == [] then []
    else
      var last := order[|order| - 1];
      DroppedFrom(order[..|order| - 1], existing) + if last in existing then [last] else []
  }

  /**
   * removeCoreSystem over the set of existing tables: each table of the
   * fixed list that exists is dropped and recorded, in list order; the
   * returned set is what remains.
   */
  method RemoveCoreSystem(existing: set<string>) returns (remaining: set<string>, removed: seq<string>)
    ensures removed == DroppedFrom(CoreTableOrder, existing)
    ensures remaining == existing - SetOf(CoreTableOrder)
  {
    var order := CoreTableOrder;
    remaining, removed := existing, [];
    for i := 0 to |order|
      invariant removed == DroppedFrom(order[..i], existing)
      invariant remaining == existing - SetOf(order[..i])
    {
      var table := order[i];
      assert order[..i + 1][..i] == order[..i];
      assert SetOf(order[..i + 1]) == SetOf(order[..i]) + {table};
      if table in remaining {
        remaining := remaining - {table};
        removed := removed + [table];
      }
    }
    assert order[..|order|] == order;
  }

  /**
   * What a removal over `order` reports: exactly the tables of `order` that
   * exist, each once when `order` has no repeats, in the order of `order`;
   * a second removal drops nothing.
   */
  lemma {:induction false} DroppedFromSpec(order: seq<string>, existing: set<string>)
    ensures forall t :: t in DroppedFrom(order, existing) <==> t in existing && t in order
    ensures Distinct(order) ==> Distinct(DroppedFrom(order, existing))
    ensures DroppedFrom(order, existing - SetOf(order)) == []
  {
    if order != [] {
      var init := order[..|order| - 1];
      var last := order[|order| - 1];
      DroppedFromSpec(init, existing);
      assert order == init + [last];
      assert Distinct(order) ==> Distinct(init) && last !in init;
      assert SetOf(init) <= SetOf(order);
      DroppedFromShrink(init, existing - SetOf(order), existing - SetOf(init));
      DroppedFromSpec(init, existing - SetOf(init));
    }
  }

  /** Removing tables from the existing set removes nothing that DroppedFrom would report more. */
  lemma {:induction false} DroppedFromShrink(order: seq<string>, smaller: set<string>, larger: set<string>)
    requires smaller <= larger && DroppedFrom(order, larger) == []
    ensures DroppedFrom(order, smaller) == []
  {
    if order != [] {
      DroppedFromShrink(order[..|order| - 1], smaller, larger);
    }
  }

  /** removeCoreSystem drops the five legacy tables that exist, in the fixed order, and only once. */
  lemma RemoveCoreSystemSpec(existing: set<string>)
    ensures forall t :: t in DroppedFrom(CoreTableOrder, existing) <==> t in existing && t in CoreTableOrder
    ensures Distinct(DroppedFrom(CoreTableOrder, existing))
    ensures DroppedFrom(CoreTableOrder, existing - SetOf(CoreTableOrder)) == []
  {
    DroppedFromSpec(CoreTableOrder, existing);
  }
}
