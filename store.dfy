/**
 * The persistent store behind the Eloquent models, as one object. Each ORM
 * call the services make is a method here: Entry::create, Tag::
 * findOrCreateByName, increment/decrement of usage_count, update of
 * usage_count, sync and syncWithoutDetaching on the entry-tag pivot,
 * updateOrCreate on an entry's metadata, Collection::create,
 * Relationship::create / createBidirectional, and the deletes.
 */
module Store {
  import opened Wrappers
  import opened Schema
  import opened Seqs

  /** Entry ids are strictly ascending (insertion order) and below the next id. */
  ghost predicate EntryIdsAscending(es: seq<Entry>, next: nat) {
    && (forall i, j :: 0 <= i < j < |es| ==> es[i].id < es[j].id)
    && (forall i :: 0 <= i < |es| ==> es[i].id < next)
  }

  function EntryIds(es: seq<Entry>): set<nat> {
    set e | e in es :: e.id
  }

  /**
   * Entry ids ascend below the next id, and every pivot row and metadata
   * row belongs to an existing entry (pivot rows also to an existing tag).
   */
  ghost predicate EntryRowsValid(es: seq<Entry>, next: nat, links: set<(nat, nat)>,
                                 metadata: map<nat, map<string, Meta>>, tagCount: nat) {
    && EntryIdsAscending(es, next)
    && (forall p | p in links :: p.0 in EntryIds(es) && 1 <= p.1 <= tagCount)
    && metadata.Keys <= EntryIds(es)
  }

  /** Tag ids are positions plus one, and names are unique. */
  ghost predicate TagsWellFormed(ts: seq<Tag>) {
    && (forall i :: 0 <= i < |ts| ==> ts[i].id == i + 1)
    && (forall i, j :: 0 <= i < j < |ts| ==> ts[i].name != ts[j].name)
  }

  function TagNames(ts: seq<Tag>): set<string> {
    set t | t in ts :: t.name
  }

  /** `Tag::where('name', $name)->first()`: the position of the tag with exactly that name. */
  function FindTagFrom(ts: seq<Tag>, name: string, i: nat): (r: Option<nat>)
    requires i <= |ts|
    ensures r.Some? ==> i <= r.value < |ts| && ts[r.value].name == name
    ensures r.None? ==> forall k :: i <= k < |ts| ==> ts[k].name != name
    decreases |ts| - i
  {
    if i == |ts| then None
    else if ts[i].name == name then Some(i)
    else FindTagFrom(ts, name, i + 1)
  }

  function FindTag(ts: seq<Tag>, name: string): (r: Option<nat>)
    ensures r.Some? ==> r.value < |ts| && ts[r.value].name == name
    ensures r.None? <==> name !in TagNames(ts)
  {
    var r := FindTagFrom(ts, name, 0);
    assert r.Some? ==> ts[r.value] in ts;
    r
  }

  /** The usage_count of the tag called `name`, 0 when there is none. */
  function UsageOf(ts: seq<Tag>, name: string): int {
    match FindTag(ts, name)
    case Some(i) => ts[i].usage
    case None => 0
  }

  /** `Entry::find($id)`: the position of the entry with that id. */
  function FindEntryFrom(es: seq<Entry>, id: nat, i: nat): (r: Option<nat>)
    requires i <= |es|
    ensures r.Some? ==> i <= r.value < |es| && es[r.value].id == id
    ensures r.None? ==> forall k :: i <= k < |es| ==> es[k].id != id
    decreases |es| - i
  {
    if i == |es| then None
    else if es[i].id == id then Some(i)
    else FindEntryFrom(es, id, i + 1)
  }

  function FindEntry(es: seq<Entry>, id: nat): (r: Option<nat>)
    ensures r.Some? ==> r.value < |es| && es[r.value].id == id
    ensures r.None? <==> id !in EntryIds(es)
  {
    var r := FindEntryFrom(es, id, 0);
    assert r.Some? ==> es[r.value] in es;
    r
  }

  /** The pivot rows of every entry other than `entryId`. */
  function LinksWithout(links: set<(nat, nat)>, entryId: nat): set<(nat, nat)> {
    set p | p in links && p.0 != entryId
  }

  /** The pivot rows `(entryId, t)` for every tag id in `tagIds`. */
  function LinksFor(entryId: nat, tagIds: seq<nat>): set<(nat, nat)> {
    set t | t in tagIds :: (entryId, t)
  }

  /** The names of the tags of `ts` that `links` attach to `entryId`. */
  function NamesLinked(ts: seq<Tag>, links: set<(nat, nat)>, entryId: nat): set<string> {
    set i | 0 <= i < |ts| && (entryId, ts[i].id) in links :: ts[i].name
  }

  /** `ts1` grew from `ts0`: every earlier tag keeps its position and name. */
  ghost predicate TagsExtend(ts0: seq<Tag>, ts1: seq<Tag>) {
    |ts0| <= |ts1| && forall i :: 0 <= i < |ts0| ==> ts1[i].name == ts0[i].name
  }

  /** Extending the registry leaves the tag names of entries whose links did not change as they were. */
  lemma {:induction false} NamesLinkedFrame(ts0: seq<Tag>, ts1: seq<Tag>, links0: set<(nat, nat)>, links1: set<(nat, nat)>, e: nat)
    requires TagsWellFormed(ts0) && TagsWellFormed(ts1) && TagsExtend(ts0, ts1)
    requires forall p | p in links0 :: 1 <= p.1 <= |ts0|
    requires forall t: nat :: (e, t) in links1 <==> (e, t) in links0
    ensures NamesLinked(ts1, links1, e) == NamesLinked(ts0, links0, e)
  {
    forall x | x in NamesLinked(ts1, links1, e) ensures x in NamesLinked(ts0, links0, e) {
      var i :| 0 <= i < |ts1| && (e, ts1[i].id) in links1 && ts1[i].name == x;
      assert (e, ts1[i].id) in links0;
      assert i < |ts0|;
      assert ts0[i].id == ts1[i].id;
    }
    forall x | x in NamesLinked(ts0, links0, e) ensures x in NamesLinked(ts1, links1, e) {
      var i :| 0 <= i < |ts0| && (e, ts0[i].id) in links0 && ts0[i].name == x;
      assert ts0[i].id == ts1[i].id;
    }
  }

  /** The metadata rows of one entry, keyed by their key; none for an entry without rows. */
  function MetaIn(metadata: map<nat, map<string, Meta>>, entryId: nat): map<string, Meta> {
    if entryId in metadata then metadata[entryId] else map[]
  }


  class KnowledgeStore {
    var entries: seq<Entry>
    var tags: seq<Tag>
    /** The entry-tag pivot table: pairs (entry id, tag id). */
    var links: set<(nat, nat)>
    /** Metadata rows per entry id, keyed by metadata key. */
    var metadata: map<nat, map<string, Meta>>
    var relationships: seq<Relationship>
    var collections: seq<CollectionRow>
    var nextEntryId: nat
    var nextRelationshipId: nat
    var nextCollectionId: nat

    /** Referential integrity of the store, and fresh ids for new rows. */
    ghost predicate Valid()
      reads this
    {
      && EntryRowsValid(entries, nextEntryId, links, metadata, |tags|)
      && TagsWellFormed(tags)
      && (forall r | r in relationships :: r.id < nextRelationshipId)
      && (forall c | c in collections :: c.id < nextCollectionId)
    }

    constructor ()
      ensures Valid()
      ensures entries == [] && tags == [] && links == {} && metadata == map[]
      ensures relationships == [] && collections == []
    {
      entries, tags, links, metadata := [], [], {}, map[];
      relationships, collections := [], [];
      nextEntryId, nextRelationshipId, nextCollectionId := 1, 1, 1;
    }

    /** Every table and counter except the tag registry. */
    ghost function AllButTags(): (seq<Entry>, set<(nat, nat)>, map<nat, map<string, Meta>>,
                                  seq<Relationship>, seq<CollectionRow>, nat, nat, nat)
      reads this
    {
      (entries, links, metadata, relationships, collections, nextEntryId, nextRelationshipId, nextCollectionId)
    }

    /** The metadata rows of one entry (none when it has no row). */
    function MetaOf(entryId: nat): map<string, Meta>
      reads this
    {
      MetaIn(metadata, entryId)
    }

    /** The names of the tags linked to an entry (the `tag_names` accessor, as a set). */
    function TagNamesOf(entryId: nat): set<string>
      reads this
    {
      NamesLinked(tags, links, entryId)
    }

    /** The ids of the tags linked to an entry (`$entry->tags`). */
    function LinkedTagIds(entryId: nat): set<nat>
      reads this
    {
      set p | p in links && p.0 == entryId :: p.1
    }

    function RowOf(e: Entry): Row
      reads this
    {
      Row(e, TagNamesOf(e.id), MetaOf(e.id))
    }

    function RowsOf(es: seq<Entry>): (rows: seq<Row>)
      reads this
      ensures |rows| == |es|
      ensures forall i :: 0 <= i < |es| ==> rows[i] == RowOf(es[i])
    {
      if es == [] then [] else [RowOf(es[0])] + RowsOf(es[1..])
    }

    /** Every entry with its details, in id order: what the query scopes run over. */
    function Snapshot(): seq<Row>
      reads this
    {
      RowsOf(entries)
    }

    /** Entry::create: a new row with the next id; nothing else changes. */
    method CreateEntry(content: string, prov: Provenance, collectionId: Option<nat>, now: int)
      returns (id: nat)
      requires Valid()
      modifies this
      ensures Valid()
      ensures id == old(nextEntryId) && id !in EntryIds(old(entries)) && nextEntryId == id + 1
      ensures entries == old(entries) + [Entry(id, content, prov, collectionId, now)]
      ensures tags == old(tags) && links == old(links) && metadata == old(metadata)
      ensures relationships == old(relationships) && collections == old(collections)
      ensures nextRelationshipId == old(nextRelationshipId) && nextCollectionId == old(nextCollectionId)
    {
      id := nextEntryId;
      entries := entries + [Entry(id, content, prov, collectionId, now)];
      nextEntryId := nextEntryId + 1;
      assert EntryIds(entries) == EntryIds(old(entries)) + {id};
    }

    /**
     * Tag::findOrCreateByName: the existing tag with exactly this name, or a
     * new tag with usage_count 0 appended to the registry.
     */
    method FindOrCreateTag(name: string) returns (t: Tag)
      requires Valid()
      modifies this
      ensures Valid()
      ensures t.name == name && 1 <= t.id <= |tags| && tags[t.id - 1] == t
      ensures FindTag(old(tags), name).Some? ==> tags == old(tags) && t == old(tags)[FindTag(old(tags), name).value]
      ensures FindTag(old(tags), name).None? ==>
                t == Tag(|old(tags)| + 1, name, 0) && tags == old(tags) + [t]
      ensures TagsExtend(old(tags), tags) && TagNames(tags) == TagNames(old(tags)) + {name}
      ensures forall n :: UsageOf(tags, n) == UsageOf(old(tags), n)
      ensures AllButTags() == old(AllButTags())
    {
      match FindTag(tags, name)
      case Some(i) =>
        assert tags[i] in tags;
        t := tags[i];
      case None =>
        UsageAfterAppend(tags, name);
        t := Tag(|tags| + 1, name, 0);
        tags := tags + [t];
    }

    /** Tag::incrementUsage: usage_count of one tag goes up by exactly 1. */
    method IncrementUsage(tagId: nat)
      requires Valid() && 1 <= tagId <= |tags|
      modifies this
      ensures Valid()
      ensures tags == old(tags)[tagId - 1 := old(tags)[tagId - 1].(usage := old(tags)[tagId - 1].usage + 1)]
      ensures TagNames(tags) == TagNames(old(tags))
      ensures forall n :: UsageOf(tags, n) == UsageOf(old(tags), n) + if n == old(tags)[tagId - 1].name then 1 else 0
      ensures AllButTags() == old(AllButTags())
    {
      var t := tags[tagId - 1];
      FindTagAt(tags, tagId - 1);
      UsageAfterSet(tags, tagId - 1, t.usage + 1);
      tags := tags[tagId - 1 := t.(usage := t.usage + 1)];
    }

    /** Tag::decrementUsage: usage_count goes down by 1 only when it is positive. */
    method DecrementUsage(tagId: nat)
      requires Valid() && 1 <= tagId <= |tags|
      modifies this
      ensures Valid()
      ensures tags == old(tags)[tagId - 1 := old(tags)[tagId - 1].(usage := FlooredDecrement(old(tags)[tagId - 1].usage))]
      ensures AllButTags() == old(AllButTags())
    {
      var t := tags[tagId - 1];
      if t.usage > 0 {
        tags := tags[tagId - 1 := t.(usage := t.usage - 1)];
      }
    }

    /** `$tag->update(['usage_count' => $count])`. */
    method UpdateUsage(tagId: nat, count: int)
      requires Valid() && 1 <= tagId <= |tags|
      modifies this
      ensures Valid()
      ensures tags == old(tags)[tagId - 1 := old(tags)[tagId - 1].(usage := count)]
      ensures AllButTags() == old(AllButTags())
    {
      var t := tags[tagId - 1];
      tags := tags[tagId - 1 := t.(usage := count)];
    }

    /** `$entry->tags()->syncWithoutDetaching($tagIds)`: adds the missing pivot rows only. */
    method SyncWithoutDetaching(entryId: nat, tagIds: seq<nat>)
      requires Valid() && entryId in EntryIds(entries)
      requires forall k :: 0 <= k < |tagIds| ==> 1 <= tagIds[k] <= |tags|
      modifies this
      ensures Valid()
      ensures links == old(links) + LinksFor(entryId, tagIds)
      ensures entries == old(entries) && tags == old(tags) && metadata == old(metadata)
      ensures relationships == old(relationships) && collections == old(collections)
      ensures nextEntryId == old(nextEntryId) && nextRelationshipId == old(nextRelationshipId)
      ensures nextCollectionId == old(nextCollectionId)
    {
      links := links + LinksFor(entryId, tagIds);
    }

    /** `$entry->tags()->sync($tagIds)`: the entry's pivot rows become exactly these. */
    method Sync(entryId: nat, tagIds: seq<nat>)
      requires Valid() && entryId in EntryIds(entries)
      requires forall k :: 0 <= k < |tagIds| ==> 1 <= tagIds[k] <= |tags|
      modifies this
      ensures Valid()
      ensures links == LinksWithout(old(links), entryId) + LinksFor(entryId, tagIds)
      ensures entries == old(entries) && tags == old(tags) && metadata == old(metadata)
      ensures relationships == old(relationships) && collections == old(collections)
      ensures nextEntryId == old(nextEntryId) && nextRelationshipId == old(nextRelationshipId)
      ensures nextCollectionId == old(nextCollectionId)
    {
      links := LinksWithout(links, entryId) + LinksFor(entryId, tagIds);
    }

    /**
     * Entry::setMetadataValue: `updateOrCreate(['key' => $key], ...)` on the
     * entry's metadata rows, so the entry keeps exactly one row per key.
     */
    method SetMetadataValue(entryId: nat, key: string, value: string, declaredType: string)
      requires Valid() && entryId in EntryIds(entries)
      modifies this
      ensures Valid()
      ensures metadata == old(metadata)[entryId := old(MetaOf(entryId))[key := Meta(value, declaredType)]]
      ensures entries == old(entries) && tags == old(tags) && links == old(links)
      ensures relationships == old(relationships) && collections == old(collections)
      ensures nextEntryId == old(nextEntryId) && nextRelationshipId == old(nextRelationshipId)
      ensures nextCollectionId == old(nextCollectionId)
    {
      metadata := metadata[entryId := MetaOf(entryId)[key := Meta(value, declaredType)]];
    }

    /** Collection::create. */
    method CreateCollection(name: string, description: string, color: string, icon: string)
      returns (id: nat)
      requires Valid()
      modifies this
      ensures Valid()
      ensures id == old(nextCollectionId)
      ensures forall c | c in old(collections) :: c.id != id
      ensures collections == old(collections) + [CollectionRow(id, name, description, color, icon)]
      ensures entries == old(entries) && tags == old(tags) && links == old(links) && metadata == old(metadata)
      ensures relationships == old(relationships)
      ensures nextEntryId == old(nextEntryId) && nextRelationshipId == old(nextRelationshipId)
    {
      id := nextCollectionId;
      collections := collections + [CollectionRow(id, name, description, color, icon)];
      nextCollectionId := nextCollectionId + 1;
    }

    /** Relationship::create: one directed row; the type is stored unchecked. */
    method CreateRelationship(from: nat, to: nat, kind: string, strength: real, rowMetadata: map<string, string>)
      returns (r: Relationship)
      requires Valid()
      modifies this
      ensures Valid()
      ensures r == Relationship(old(nextRelationshipId), from, to, kind, strength, rowMetadata)
      ensures forall x | x in old(relationships) :: x.id != r.id
      ensures relationships == old(relationships) + [r]
      ensures nextRelationshipId == old(nextRelationshipId) + 1
      ensures entries == old(entries) && tags == old(tags) && links == old(links) && metadata == old(metadata)
      ensures collections == old(collections)
      ensures nextEntryId == old(nextEntryId) && nextCollectionId == old(nextCollectionId)
    {
      r := Relationship(nextRelationshipId, from, to, kind, strength, rowMetadata);
      relationships := relationships + [r];
      nextRelationshipId := nextRelationshipId + 1;
    }

    /**
     * Relationship::createBidirectional: exactly two new rows, from -> to and
     * to -> from, with the same type, strength and metadata, returned as
     * [forward, reverse]. Repeated calls add further rows. The strength
     * defaults to DefaultStrength and the metadata to the empty map.
     */
    method CreateBidirectional(from: nat, to: nat, kind: string, strength: real := DefaultStrength,
                               rowMetadata: map<string, string> := map[])
      returns (forward: Relationship, reverse: Relationship)
      requires Valid()
      modifies this
      ensures Valid()
      ensures relationships == old(relationships) + [forward, reverse]
      ensures forward.from == from && forward.to == to && reverse.from == to && reverse.to == from
      ensures forward.kind == kind == reverse.kind
      ensures forward.strength == strength == reverse.strength
      ensures forward.metadata == rowMetadata == reverse.metadata
      ensures forward.id != reverse.id
      ensures forall x | x in old(relationships) :: x.id != forward.id && x.id != reverse.id
      ensures entries == old(entries) && tags == old(tags) && links == old(links) && metadata == old(metadata)
      ensures collections == old(collections)
      ensures nextEntryId == old(nextEntryId) && nextCollectionId == old(nextCollectionId)
    {
      forward := CreateRelationship(from, to, kind, strength, rowMetadata);
      reverse := CreateRelationship(to, from, kind, strength, rowMetadata);
    }

    /** `$entry->fromRelationships()->delete()`. */
    method DeleteRelationshipsFrom(entryId: nat)
      requires Valid()
      modifies this
      ensures Valid()
      ensures relationships == RelationshipsNotFrom(old(relationships), entryId)
      ensures entries == old(entries) && tags == old(tags) && links == old(links) && metadata == old(metadata)
      ensures collections == old(collections)
      ensures nextEntryId == old(nextEntryId) && nextRelationshipId == old(nextRelationshipId)
      ensures nextCollectionId == old(nextCollectionId)
    {
      relationships := RelationshipsNotFrom(relationships, entryId);
    }

    /** `$entry->toRelationships()->delete()`. */
    method DeleteRelationshipsTo(entryId: nat)
      requires Valid()
      modifies this
      ensures Valid()
      ensures relationships == RelationshipsNotTo(old(relationships), entryId)
      ensures entries == old(entries) && tags == old(tags) && links == old(links) && metadata == old(metadata)
      ensures collections == old(collections)
      ensures nextEntryId == old(nextEntryId) && nextRelationshipId == old(nextRelationshipId)
      ensures nextCollectionId == old(nextCollectionId)
    {
      relationships := RelationshipsNotTo(relationships, entryId);
    }

    /**
     * `$entry->delete()` with the cascades the schema declares made explicit:
     * the entry row, its metadata rows and its pivot rows go.
     */
    method DeleteEntryRow(entryId: nat)
      requires Valid()
      modifies this
      ensures Valid()
      ensures entries == EntriesWithout(old(entries), entryId)
      ensures EntryIds(entries) == EntryIds(old(entries)) - {entryId}
      ensures metadata == old(metadata) - {entryId}
      ensures links == LinksWithout(old(links), entryId)
      ensures tags == old(tags) && relationships == old(relationships) && collections == old(collections)
      ensures nextEntryId == old(nextEntryId) && nextRelationshipId == old(nextRelationshipId)
      ensures nextCollectionId == old(nextCollectionId)
    {
      DeleteKeepsIntegrity(entries, nextEntryId, links, metadata, |tags|, entryId);
      entries := EntriesWithout(entries, entryId);
      metadata := metadata - {entryId};
      links := LinksWithout(links, entryId);
      assert EntryRowsValid(entries, nextEntryId, links, metadata, |tags|);
    }
  }

  /**
   * createBidirectional called with only the two ids and the type: both rows
   * get strength 1.0 and empty metadata.
   */
  method CreateBidirectionalWithDefaults(st: KnowledgeStore, from: nat, to: nat, kind: string)
    returns (forward: Relationship, reverse: Relationship)
    requires st.Valid()
    modifies st
    ensures st.Valid()
    ensures st.relationships == old(st.relationships) + [forward, reverse]
    ensures forward.from == from && forward.to == to && reverse.from == to && reverse.to == from
    ensures forward.kind == kind == reverse.kind
    ensures forward.strength == 1.0 == reverse.strength
    ensures forward.metadata == map[] == reverse.metadata
  {
    forward, reverse := st.CreateBidirectional(from, to, kind);
  }

  /**
   * Removing an entry with its metadata and pivot rows keeps the ids
   * ascending and leaves no row referring to the removed entry.
   */
  lemma DeleteKeepsIntegrity(es: seq<Entry>, next: nat, links: set<(nat, nat)>, metadata: map<nat, map<string, Meta>>,
                             tagCount: nat, id: nat)
    requires EntryRowsValid(es, next, links, metadata, tagCount)
    ensures EntryRowsValid(EntriesWithout(es, id), next, LinksWithout(links, id), metadata - {id}, tagCount)
    ensures EntryIds(EntriesWithout(es, id)) == EntryIds(es) - {id}
  {
    WithoutKeepsAscending(es, id, next);
    WithoutIds(es, id);
  }

  function FlooredDecrement(n: int): int {
    if n > 0 then n - 1 else n
  }

  /** The entries whose id is not `id`, in order. */
  function EntriesWithout(es: seq<Entry>, id: nat): seq<Entry> {
    if es == [] then []
    else (if es[0].id == id then [] else [es[0]]) + EntriesWithout(es[1..], id)
  }

  /** An entry survives the removal exactly when it was there and has another id. */
  lemma {:induction false} EntriesWithoutMembers(es: seq<Entry>, id: nat)
    ensures forall e :: e in EntriesWithout(es, id) <==> e in es && e.id != id
  {
    if es != [] {
      EntriesWithoutMembers(es[1..], id);
      assert es == [es[0]] + es[1..];
    }
  }

  /** The relationship rows that do not start at `id`. */
  function RelationshipsNotFrom(rs: seq<Relationship>, id: nat): (r: seq<Relationship>)
    ensures forall x :: x in r <==> x in rs && x.from != id
  {
    if rs == [] then []
    else
      assert rs == [rs[0]] + rs[1..];
      (if rs[0].from == id then [] else [rs[0]]) + RelationshipsNotFrom(rs[1..], id)
  }

  /** The relationship rows that do not end at `id`. */
  function RelationshipsNotTo(rs: seq<Relationship>, id: nat): (r: seq<Relationship>)
    ensures forall x :: x in r <==> x in rs && x.to != id
  {
    if rs == [] then []
    else
      assert rs == [rs[0]] + rs[1..];
      (if rs[0].to == id then [] else [rs[0]]) + RelationshipsNotTo(rs[1..], id)
  }

  /** Removing one id keeps the ids ascending. */
  lemma {:induction false} WithoutKeepsAscending(es: seq<Entry>, id: nat, next: nat)
    requires EntryIdsAscending(es, next)
    ensures EntryIdsAscending(EntriesWithout(es, id), next)
  {
    if es != [] {
      var tail := es[1..];
      assert EntryIdsAscending(tail, next);
      WithoutKeepsAscending(tail, id, next);
      EntriesWithoutMembers(tail, id);
      var ft := EntriesWithout(tail, id);
      forall k | 0 <= k < |ft| ensures es[0].id < ft[k].id {
        assert ft[k] in tail;
      }
      assert es == [es[0]] + tail;
      assert EntriesWithout(es, id) == (if es[0].id == id then [] else [es[0]]) + ft;
    }
  }

  /** Removing the entries with one id removes exactly that id. */
  lemma WithoutIds(es: seq<Entry>, id: nat)
    ensures EntryIds(EntriesWithout(es, id)) == EntryIds(es) - {id}
  {
    var r := EntriesWithout(es, id);
    EntriesWithoutMembers(es, id);
    forall x | x in EntryIds(es) - {id} ensures x in EntryIds(r) {
      var e :| e in es && e.id == x;
      assert e in r;
    }
    forall x | x in EntryIds(r) ensures x in EntryIds(es) - {id} {
      var e :| e in r && e.id == x;
      assert e in es;
    }
  }

  /** With unique names, looking a tag's own name up finds that tag. */
  lemma FindTagAt(ts: seq<Tag>, i: nat)
    requires TagsWellFormed(ts) && i < |ts|
    ensures FindTag(ts, ts[i].name) == Some(i)
    ensures UsageOf(ts, ts[i].name) == ts[i].usage
  {
    assert ts[i] in ts;
    var r := FindTag(ts, ts[i].name);
    assert r.Some? && ts[r.value].name == ts[i].name;
  }

  /**
   * Creating a tag (usage 0) for a new name keeps the registry well formed,
   * adds the name, and changes no name's usage count: the new name read 0
   * before and reads 0 after.
   */
  lemma UsageAfterAppend(ts: seq<Tag>, name: string)
    requires TagsWellFormed(ts) && name !in TagNames(ts)
    ensures TagsWellFormed(ts + [Tag(|ts| + 1, name, 0)])
    ensures TagNames(ts + [Tag(|ts| + 1, name, 0)]) == TagNames(ts) + {name}
    ensures forall n :: UsageOf(ts + [Tag(|ts| + 1, name, 0)], n) == UsageOf(ts, n)
  {
    var ts1 := ts + [Tag(|ts| + 1, name, 0)];
    forall i | 0 <= i < |ts| ensures ts1[i].name != name {
      assert ts[i] in ts;
    }
    assert TagsWellFormed(ts1);
    forall n ensures n in TagNames(ts1) <==> n in TagNames(ts) + {name} {
      if n in TagNames(ts1) {
        var t :| t in ts1 && t.name == n;
      }
      if n in TagNames(ts) {
        var t :| t in ts && t.name == n;
        assert t in ts1;
      }
      assert ts1[|ts|] in ts1;
    }
    forall n ensures UsageOf(ts1, n) == UsageOf(ts, n) {
      if n == name {
        FindTagAt(ts1, |ts|);
      } else if n in TagNames(ts) {
        var i := FindTag(ts, n).value;
        FindTagAt(ts, i);
        assert ts1[i] == ts[i];
        FindTagAt(ts1, i);
      } else {
        assert n !in TagNames(ts1);
      }
    }
  }

  /** Setting one tag's usage count changes the usage read for that name only. */
  lemma UsageAfterSet(ts: seq<Tag>, i: nat, u: int)
    requires TagsWellFormed(ts) && i < |ts|
    ensures TagsWellFormed(ts[i := ts[i].(usage := u)])
    ensures TagNames(ts[i := ts[i].(usage := u)]) == TagNames(ts)
    ensures forall n :: UsageOf(ts[i := ts[i].(usage := u)], n) == if n == ts[i].name then u else UsageOf(ts, n)
  {
    var ts1 := ts[i := ts[i].(usage := u)];
    forall n ensures n in TagNames(ts1) <==> n in TagNames(ts) {
      if n in TagNames(ts1) {
        var t :| t in ts1 && t.name == n;
        var k :| 0 <= k < |ts1| && ts1[k] == t;
        assert ts[k] in ts;
      }
      if n in TagNames(ts) {
        var t :| t in ts && t.name == n;
        var k :| 0 <= k < |ts| && ts[k] == t;
        assert ts1[k] in ts1;
      }
    }
    forall n ensures UsageOf(ts1, n) == if n == ts[i].name then u else UsageOf(ts, n) {
      FindTagAt(ts1, i);
      if n != ts[i].name && n in TagNames(ts) {
        var k := FindTag(ts, n).value;
        FindTagAt(ts, k);
        FindTagAt(ts1, k);
      }
    }
  }
}
