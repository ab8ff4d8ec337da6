/** The Collection model's count accessors over the entries table. */
module CollectionCounts {
  import opened Wrappers
  import opened Schema

  predicate InCollection(e: Entry, collectionId: nat) {
    e.collectionId == Some(collectionId)
  }

  /** The window of the recent_entries_count accessor: recent(7). */
  const RecentDays: int := 7

  predicate IsRecent(e: Entry, now: int) {
    e.createdAt >= now - RecentDays * SecondsPerDay
  }

  /** entry_count: entries whose collection_id is this collection's id. */
  function EntryCount(entries: seq<Entry>, collectionId: nat): (n: nat)
    ensures n <= |entries|
  {
    if entries == [] then 0
    else (if InCollection(entries[0], collectionId) then 1 else 0) + EntryCount(entries[1..], collectionId)
  }

  /** recent_entries_count: those entries also created within the last seven days. */
  function RecentEntriesCount(entries: seq<Entry>, collectionId: nat, now: int): (n: nat)
    ensures n <= |entries|
  {
    if entries == [] then 0
    else
      (if InCollection(entries[0], collectionId) && IsRecent(entries[0], now) then 1 else 0)
        + RecentEntriesCount(entries[1..], collectionId, now)
  }

  /** The recent count never exceeds the total count. */
  lemma {:induction false} RecentAtMostTotal(entries: seq<Entry>, collectionId: nat, now: int)
    ensures RecentEntriesCount(entries, collectionId, now) <= EntryCount(entries, collectionId)
  {
    if entries != [] {
      RecentAtMostTotal(entries[1..], collectionId, now);
    }
  }

  /**
   * An entry has one collection_id, so two distinct collections count
   * disjoint sets of entries: together they never count more than there are.
   */
  lemma {:induction false} DistinctCollectionsDisjoint(entries: seq<Entry>, a: nat, b: nat)
    requires a != b
    ensures EntryCount(entries, a) + EntryCount(entries, b) <= |entries|
  {
    if entries != [] {
      DistinctCollectionsDisjoint(entries[1..], a, b);
    }
  }

  /** The ids of the entries carrying that collection id. */
  function CollectionEntryIds(entries: seq<Entry>, collectionId: nat): set<nat> {
    set e | e in entries && InCollection(e, collectionId) :: e.id
  }

  lemma CollectionEntryIdsCons(entries: seq<Entry>, collectionId: nat)
    requires entries != []
    ensures CollectionEntryIds(entries, collectionId) ==
              (if InCollection(entries[0], collectionId) then {entries[0].id} else {})
                + CollectionEntryIds(entries[1..], collectionId)
  {
    assert entries == [entries[0]] + entries[1..];
    assert forall e :: e in entries <==> e == entries[0] || e in entries[1..];
  }

  /** With unique ids, the first entry's id does not occur in the rest. */
  lemma FirstIdNotInTail(entries: seq<Entry>, collectionId: nat)
    requires entries != []
    requires forall i, j :: 0 <= i < j < |entries| ==> entries[i].id != entries[j].id
    ensures entries[0].id !in CollectionEntryIds(entries[1..], collectionId)
  {
    var tail := entries[1..];
    forall e | e in tail ensures e.id != entries[0].id {
      var k :| 0 <= k < |tail| && tail[k] == e;
      assert entries[k + 1] == e;
    }
  }

  /** entry_count is exactly the number of entries carrying that collection id. */
  lemma {:induction false} EntryCountIsSize(entries: seq<Entry>, collectionId: nat)
    requires forall i, j :: 0 <= i < j < |entries| ==> entries[i].id != entries[j].id
    ensures EntryCount(entries, collectionId) == |CollectionEntryIds(entries, collectionId)|
  {
    if entries != [] {
      var tail := entries[1..];
      assert forall i, j :: 0 <= i < j < |tail| ==> tail[i].id != tail[j].id by {
        forall i, j | 0 <= i < j < |tail| ensures tail[i].id != tail[j].id {
          assert tail[i] == entries[i + 1] && tail[j] == entries[j + 1];
        }
      }
      EntryCountIsSize(tail, collectionId);
      CollectionEntryIdsCons(entries, collectionId);
      FirstIdNotInTail(entries, collectionId);
    }
  }
}
