# conduit-knowledge: a verified model of the knowledge store

conduit-knowledge keeps a developer knowledge base. It stores entries that
carry provenance (repository, branch, author, project type), tags with a
maintained usage count, typed metadata rows, directed relationships and
collections. This project models the core of the package in Dafny:

- **The store** (`store.dfy`, module `Store`). One class,
  `KnowledgeStore`, holds every table the ORM reads and writes:
  - the entries, in id order;
  - the tag registry, where a tag's id is its position plus one and names
    are unique;
  - the entry–tag pivot, as a set of (entry id, tag id) pairs;
  - each entry's metadata rows, keyed by metadata key;
  - the relationship rows;
  - the collections.

  Each ORM call the services make is a method with a `modifies` frame:
  `Entry::create`, `Tag::findOrCreateByName`, `increment`/`decrement` of
  usage_count, `update`, `sync`, `syncWithoutDetaching`, `updateOrCreate`
  on metadata, `Collection::create`, `Relationship::create` /
  `createBidirectional`, and the deletes. Every method preserves `Valid()`,
  the store's referential integrity.
- **KnowledgeService** (`knowledge.dfy`): `addEntry`, `attachTagsToEntry`,
  `import` and `deleteEntry`, with the usage-count bookkeeping they do.
- **The query engine.** `searchEntries` and `applyFilters` live in
  `knowledge_search.dfy`. They are built from the `Entry` accessors and
  scopes in `entry_scopes.dfy`, which are predicates and orderings over rows
  loaded "with details". `now` and the working copy's current repository
  are parameters.
- **MigrationService** (`migration.dfy`): `migrateFromCore`,
  `coreTablesExist`, `migrateEntry`, the migration's own
  `attachTagsToEntry`, `importFromBackup` and `removeCoreSystem`.
- **The models' helpers:**
  - `Tag::popular` (`tag_queries.dfy`);
  - `Relationship::TYPES` and `type_display` (`relationship_types.dfy`);
  - `Metadata::typed_value` (`metadata_values.dfy`);
  - the `Collection` counts (`collection_counts.dfy`).
- **SemanticSearchService** (`semantic_search.dfy`):
  - `suggestTags` is a method over the keyword table;
  - `isEnabled` is the constant false;
  - `generateEmbedding` is the constant null.
- **PublishService** (`publish.dfy`):
  - the `slug` helper;
  - `publish`'s format dispatch and the result flags it reports;
  - the markdown export, which returns the (path, content) pairs it would
    write.

Generic pieces live in `seqs.dfy` (filtering, `limit`, `array_unique`,
map/concat), `ordering.dfy` (ORDER BY ... DESC as a sort with its
properties), `strings.dfy` (strtolower, str_contains, LIKE, empty(), trim(),
explode(), integer rendering), `schema.dfy` (the row types) and `wrappers.dfy`
(Option/Result).

Behaviour a reader might not expect; the model follows the code:

- `addEntry` does not reject empty content.
- Explicit tag names are trimmed and "" / "0" are skipped, but repeats are
  not merged. A name listed twice raises its usage_count twice (it is
  linked once).
- The migration's tag replay never increments usage_count. Only the final
  overwrite from the legacy tag table sets the counts, and it may set a
  negative count if the source has one.
- Migrated entries get `created_at = now`. The legacy timestamps are passed
  to `Entry::create` but are not fillable.
- `searchEntries` orders its results only when the `context` filter is set
  and a current repository is known. Otherwise the query has no ORDER BY,
  so the database's row order decides. The model takes that order to be
  the stored (id) order; that choice is the model's, not the code's.
- A 'tags' search filter given as a string is exploded at commas. The
  pieces are not trimmed, so "bug, ui" looks for "bug" and " ui".
- importFromBackup replays the backup's entries, but reads their tag names
  and metadata from the live legacy tables, not from the backup file (see
  Findings).
- usage_count is therefore not "the number of entries linked through the
  explicit path". The model proves what the code maintains: exact deltas
  per call.

## Model

| member | source | states |
|---|---|---|
| Store.FindTag | src/Models/Tag.php:45 | the lookup finds a tag with exactly that name, and finds none exactly when no tag has it |
| Store.FindEntry | src/Services/KnowledgeService.php:198 | `Entry::find`: the position of an entry with that id; none exactly when no entry has it |
| Store.KnowledgeStore.RowsOf | src/Models/Entry.php:265-268 | withDetails: one row per entry, in order, each with its linked tag names and metadata |
| Store.KnowledgeStore.CreateEntry | src/Services/KnowledgeService.php:34-43 | Entry::create appends exactly one entry with a fresh id (the next id, unused before); no other table changes |
| Store.KnowledgeStore.FindOrCreateTag | src/Models/Tag.php:43-55 | an existing tag with that exact name is returned and nothing changes; otherwise a tag with usage 0 is appended; no usage count changes; names stay unique; only the registry changes |
| Store.KnowledgeStore.IncrementUsage | src/Models/Tag.php:60-63 | usage_count of that tag rises by exactly 1, every other name's count is unchanged, nothing else changes |
| Store.KnowledgeStore.DecrementUsage | src/Models/Tag.php:68-73 | usage_count drops by 1 only when positive (floored at zero); no other tag or table changes |
| Store.KnowledgeStore.UpdateUsage | src/Services/MigrationService.php:66 | `update(['usage_count' => n])` sets one tag's count to n and changes nothing else |
| Store.KnowledgeStore.SyncWithoutDetaching | src/Services/KnowledgeService.php:294 | adds the entry's links to the given tags and removes none |
| Store.KnowledgeStore.Sync | src/Services/MigrationService.php:140 | the entry's links become exactly the given tags; other entries' links are kept |
| Store.KnowledgeStore.SetMetadataValue | src/Models/Entry.php:124-130 | updateOrCreate by key: the entry has exactly one row for the key, with the new value and type; other keys and entries are unchanged |
| Store.KnowledgeStore.CreateCollection | src/Services/MigrationService.php:41-46 | appends exactly one collection row with a fresh id and the given fields |
| Store.KnowledgeStore.CreateRelationship | src/Models/Relationship.php:73-79 | appends exactly one directed row with a fresh id; the type is stored unchecked |
| Store.KnowledgeStore.CreateBidirectional | src/Models/Relationship.php:66-90 | appends exactly two rows, from→to then to→from, with the same type, strength and metadata and distinct fresh ids; returns them as [forward, reverse]; repeated calls add more rows; strength defaults to 1.0 and metadata to the empty map |
| Store.CreateBidirectionalWithDefaults | src/Models/Relationship.php:66-72 | a call naming only the ids and the type creates both directions with strength 1.0 and empty metadata |
| Store.KnowledgeStore.DeleteRelationshipsFrom | src/Services/KnowledgeService.php:210 | removes exactly the rows starting at the entry |
| Store.KnowledgeStore.DeleteRelationshipsTo | src/Services/KnowledgeService.php:211 | removes exactly the rows ending at the entry |
| Store.KnowledgeStore.DeleteEntryRow | src/Services/KnowledgeService.php:213-214 | the entry goes with its metadata and pivot rows (the cascades made explicit); other tables are unchanged and integrity is kept |
| Store.DeleteKeepsIntegrity | src/Services/KnowledgeService.php:213-214 | removing an entry with its metadata and pivot rows leaves no row that refers to it, and the ids stay ascending |
| Store.EntriesWithoutMembers | src/Services/KnowledgeService.php:214 | an entry survives the delete exactly when it has another id |
| Store.RelationshipsNotFrom | src/Services/KnowledgeService.php:210 | a row is kept exactly when it does not start at the entry |
| Store.RelationshipsNotTo | src/Services/KnowledgeService.php:211 | a row is kept exactly when it does not end at the entry |
| Store.WithoutIds | src/Services/KnowledgeService.php:214 | deleting removes exactly that id from the set of entry ids |
| Store.FindTagAt | src/Models/Tag.php:45 | with unique names, looking up a tag's own name finds that tag |
| Store.UsageAfterAppend | src/Models/Tag.php:47-51 | creating a tag with usage 0 for a new name adds the name and changes no name's usage count |
| Store.UsageAfterSet | src/Models/Tag.php:62 | setting one tag's count changes the count read for that name only |
| Knowledge.KeptMembers | src/Services/KnowledgeService.php:279-283 | a name reaches the attach step exactly when it is the trim of a listed name and is neither "" nor "0" |
| Knowledge.KeptCounts | src/Services/KnowledgeService.php:279-291 | each kept name occurs as often as listed names trim to it: repeats are not merged |
| Knowledge.KeptOfClean | src/Services/KnowledgeService.php:279-283 | names already trimmed and non-empty all pass, in order |
| Knowledge.KeptExample | src/Services/KnowledgeService.php:279-283 | [" bug", "", "0", "bug"] keeps "bug" twice and skips "" and "0" |
| Knowledge.KeptOfSuggestions | src/Services/KnowledgeService.php:51-53 | the suggested names pass through trim-and-skip unchanged |
| Knowledge.LinkedNamesAfterAttach | src/Services/KnowledgeService.php:294 | after syncWithoutDetaching the entry's tag names are its old names plus the attached names |
| Knowledge.TouchTag | src/Services/KnowledgeService.php:285-290 | find-or-create one tag and, when counting, raise exactly its usage by 1; only the registry changes |
| Knowledge.TouchTags | src/Services/KnowledgeService.php:277-291 | the ids collected line up with the kept names; with counting, each tag's usage rises by its number of kept occurrences, and without it no count changes |
| Knowledge.AttachTagsToEntry | src/Services/KnowledgeService.php:275-295 | every kept name is found or created; usage rises once per kept occurrence (when counting); the entry's tag names grow by the kept names; other entries' links and all other tables are unchanged |
| Knowledge.StoreMetadata | src/Services/KnowledgeService.php:57-59 | each metadata pair becomes one 'string' row of the new entry; other entries' metadata, the entries, tags, links and id counters are unchanged |
| Knowledge.AttachEntryTags | src/Services/KnowledgeService.php:45-54 | explicit tags are attached with counting, suggested tags without: usage rises only by the explicit kept occurrences |
| Knowledge.AddEntry | src/Services/KnowledgeService.php:25-63 | returns the next id, and exactly one entry with that id and the given content, collection and provenance is appended (no content check); the entry counter rises by one; its tags are the kept explicit names plus the suggestions, and the registry's names grow by exactly those; usage rises only by the explicit kept occurrences; its metadata is each pair as a 'string' row; other entries' links, tag names and metadata, and the other tables, are unchanged |
| Knowledge.AddEntryAsWritten | src/Services/KnowledgeService.php:57-59 | a metadata key PHP turns into an int (such as "42") throws a TypeError and leaves the store unchanged; any other call succeeds with every effect AddEntry states (new id and entry, counters, tag names, usage, metadata, nothing else changed) |
| Knowledge.FixLoginBugTags | src/Services/KnowledgeService.php:46-54 | ["bug"] is kept as it is, and "Fix login bug" also suggests bug |
| Knowledge.FixLoginBugExample | src/Services/KnowledgeService.php:46-54 | on an empty store, "Fix login bug" with tags ["bug"] leaves bug's usage_count at 1 and the entry tagged bug |
| Knowledge.Importable | src/Services/KnowledgeService.php:174-176 | the records import can add: only records that carry content, taken from the list, never more than it holds |
| Knowledge.Import | src/Services/KnowledgeService.php:164-190 | imported + skipped = number of records; imported = records with content; one "Undefined array key" message per skipped record; the k-th record with content becomes the entry with the k-th new id, holding its content, its kept and suggested tag names and its pairs as 'string' rows, after the old entries, which keep their tags and metadata; the registry only grows, its names grow by exactly the imported records' kept and suggested names, and each tag's usage rises by its kept occurrences in the imported records; relationships, collections and their id counters are unchanged |
| Knowledge.ImportOne | src/Services/KnowledgeService.php:172-186 | one record with content is added as addEntry would add it: the next id, the entry extending the import so far, the registry's names growing by its kept and suggested names, usage rising by its kept occurrences, earlier entries' tags and metadata kept; relationships, collections and their counters unchanged |
| Knowledge.ImportAt | src/Services/KnowledgeService.php:172-186 | one turn of import's loop: the record counts as imported exactly when it has content, and the state after it is the import of the first i+1 records (entries, tag names, usage, metadata) |
| Knowledge.ImportedTagNamesSpec | src/Services/KnowledgeService.php:45-54 | a name is among the tag names an import adds exactly when some record with content lists it (kept) or its content suggests it |
| Knowledge.ImportedUsageSpec | src/Services/KnowledgeService.php:45-49 | import raises a name's usage exactly when some record with content lists it among its kept tags |
| Knowledge.TagsImportedStep | src/Services/KnowledgeService.php:172-186 | the tag registry after i records, extended by record i's tag names and usage, is the registry after i+1 records |
| Knowledge.ImportedStep | src/Services/KnowledgeService.php:172-186 | one more record added as the next entry extends the import's result by that record, the earlier entries unaffected |
| Knowledge.ImportAsWritten | src/Services/KnowledgeService.php:172-186 | a record with content and an int-like metadata key makes import throw (a TypeError is not an Exception) with the store unchanged; any other list succeeds with every effect Import states (counts, messages, entries, tag names, usage, metadata, nothing else changed) |
| Knowledge.IntegerMetadataKeyAbortsImport | src/Services/KnowledgeService.php:57-59 | one record with metadata key "42" makes import throw as written, while Import adds it as one entry |
| Knowledge.DeleteEntry | src/Services/KnowledgeService.php:195-216 | unknown id: false and no change; otherwise true, each attached tag's usage drops by 1 floored at 0 and no other tag changes, every relationship from or to the entry goes and no other, the entry goes with its metadata and links, other entries are untouched, the relationship rows are the old ones minus those from and then those to the entry, in order; in both cases the id counters are unchanged |
| KnowledgeSearch.ApplyFilters | src/Services/KnowledgeService.php:221-270 | the filters never add rows |
| KnowledgeSearch.TagStringAsList | src/Services/KnowledgeService.php:243-245 | a 'tags' string filters exactly as the list of its comma-separated pieces; "0" filters nothing |
| KnowledgeSearch.FilterMatchTags | src/Services/KnowledgeService.php:243-245 | with a 'tags' filter set, every wanted name (every comma piece of a string) is contained in some tag name of each result |
| KnowledgeSearch.ApplyFiltersMembers | src/Services/KnowledgeService.php:221-270 | a row is kept exactly when it passes every filter that is set (AND), whether or not the result is ordered by relevance |
| KnowledgeSearch.SearchBound | src/Services/KnowledgeService.php:86-87 | at most `limit` rows (10 by default), and never more than are stored |
| KnowledgeSearch.SearchSound | src/Services/KnowledgeService.php:68-88 | every result is a stored row passing every filter that is set, and for a non-empty query it matches the text-search scope |
| KnowledgeSearch.SearchComplete | src/Services/KnowledgeService.php:68-88 | when the limit does not cut, every stored row passing the filters and the text search is returned |
| KnowledgeSearch.SearchOrderedByRelevance | src/Services/KnowledgeService.php:264-269 | with 'context' and a current repository the results are in relevance order |
| KnowledgeSearch.SearchUnorderedWithoutContext | src/Services/KnowledgeService.php:264-269 | otherwise no ordering is applied: the result does not depend on the repository and is a prefix of the filtered rows in stored order |
| KnowledgeSearch.FilterMatchKinds | src/Models/Entry.php:150-185 | byBranch and byProjectType match exactly; byRepo and byAuthor match a substring |
| KnowledgeSearch.FilterMatchMetadata | src/Services/KnowledgeService.php:227-262 | byCollection is exact; todo needs a tag named exactly 'todo'; recent compares created_at with now − days; priority and status need that exact metadata key and value |
| Seqs.FilterAllMembers | src/Services/KnowledgeService.php:221-262 | chained where-clauses combine with AND: a row survives exactly when it meets every condition |
| Seqs.Take | src/Services/KnowledgeService.php:87 | limit(n) keeps the first n rows; a negative n keeps all |
| Seqs.Dedup | src/Services/SemanticSearchService.php:82 | array_unique: no repeats, the same values, first occurrences kept |
| Seqs.DedupOrder | src/Services/SemanticSearchService.php:82 | array_unique lists the values in the order of their first occurrence |
| Seqs.DedupOfDistinct | src/Services/SemanticSearchService.php:82 | array_unique leaves a list without repeats unchanged |
| EntryScopes.GetAfterSet | src/Models/Entry.php:114-130 | after setMetadataValue(k, v) getMetadataValue(k) is v, and other keys read as before |
| EntryScopes.PriorityScopeAgreesWithAccessor | src/Models/Entry.php:82-93 | priority and status read the metadata row or default to 'medium' and 'open'; byPriority and byStatus hold exactly when that row exists with that value |
| EntryScopes.TodoOnlyVersusWithTags | src/Models/Entry.php:190-209 | is_todo and todoOnly agree, and todoOnly implies withTags(['todo']) |
| EntryScopes.TodosTagIsNotTodo | src/Models/Entry.php:190-209 | a tag 'todos' satisfies withTags(['todo']) but not todoOnly |
| EntryScopes.OrderByRelevanceOrder | src/Models/Entry.php:252-263 | same rows; with a truthy repository its rows come first and created_at does not increase within each group; without one created_at does not increase overall |
| EntryScopes.SimilarToOrder | src/Models/Entry.php:242-250 | similarTo returns the same rows, newest first |
| EntryScopes.RelatedToSpec | src/Models/Entry.php:273-289 | empty when the entry has no tags; otherwise exactly the other rows sharing a tag with it, ordered by shared-tag count, non-increasing |
| TagQueries.Popular | src/Models/Tag.php:78-83 | popular(limit) returns min(limit, number of tags) tags, and all of them when the limit is negative; the limit defaults to 20 |
| TagQueries.PopularOrder | src/Models/Tag.php:78-83 | the tags come from the registry, in non-increasing usage_count order |
| TagQueries.PopularKeepsMostUsed | src/Models/Tag.php:80-81 | no tag left out is more used than a tag kept |
| RelationshipTypes.TypeDisplay | src/Models/Relationship.php:58-61 | the label of a known type, else the raw type |
| RelationshipTypes.DisplayChangesOnlyKnownTypes | src/Models/Relationship.php:29-37 | the label differs from the raw type exactly for the seven known keys |
| MetadataValues.TypedValueOf | src/Models/Metadata.php:37-46 | any type other than integer, float, boolean and json returns the stored string unchanged; 'integer' exactly gives an int within 64 bits; 'boolean' exactly gives a bool |
| MetadataValues.Saturate | src/Models/Metadata.php:40 | the conversion to a 64-bit int: the result is always within 64 bits, and a value in range is kept |
| MetadataValues.IntCast | src/Models/Metadata.php:40 | (int) of a string is within 64 bits, and 0 when the string has no numeric prefix |
| MetadataValues.IntRoundTrip | src/Models/Metadata.php:40 | a 64-bit integer stored as its decimal string reads back as the same integer |
| MetadataValues.IntCastIgnoresSuffix | src/Models/Metadata.php:40 | the int cast reads the leading digits and stops at a character that cannot continue a number ("12abc" reads 12) |
| MetadataValues.ExponentScales | src/Models/Metadata.php:40 | an exponent scales the number ("12e3" reads 12000) |
| MetadataValues.FractionTruncates | src/Models/Metadata.php:40 | a fraction is truncated toward zero ("12.75" reads 12, "-12.75" reads -12) |
| MetadataValues.OutOfRangeSaturates | src/Models/Metadata.php:40 | a number beyond 64 bits reads as PHP_INT_MAX (PHP_INT_MIN when negative), up to where its double is infinite |
| MetadataValues.InfiniteReadsZero | src/Models/Metadata.php:40 | a number whose double is infinite reads as 0, either sign |
| MetadataValues.NoDigitsReadsZero | src/Models/Metadata.php:40 | a value that starts with no digit, space, sign, or point followed by a digit has no numeric prefix and reads as 0 |
| MetadataValues.BoolRoundTrip | src/Models/Metadata.php:42 | a boolean stored as PHP's string cast ("1" / "") reads back as the same boolean |
| CollectionCounts.EntryCount | src/Models/Collection.php:41-44 | entry_count never exceeds the number of entries |
| CollectionCounts.RecentEntriesCount | src/Models/Collection.php:49-52 | recent_entries_count never exceeds the number of entries |
| CollectionCounts.EntryCountIsSize | src/Models/Collection.php:41-44 | entry_count is exactly the number of entries whose collection_id is this id |
| CollectionCounts.RecentAtMostTotal | src/Models/Collection.php:41-52 | recent_entries_count ≤ entry_count |
| CollectionCounts.DistinctCollectionsDisjoint | src/Models/Collection.php:33-44 | two different collections together count no more entries than exist |
| SemanticSearch.SuggestTags | src/Services/SemanticSearchService.php:55-83 | the nested loop with break, then array_unique, yields exactly Suggestions(content) |
| SemanticSearch.SuggestedFromTable | src/Services/SemanticSearchService.php:73-80 | a table tag is collected exactly when one of its keywords occurs, without repeats |
| SemanticSearch.SuggestionsSpec | src/Services/SemanticSearchService.php:62-82 | a tag is suggested exactly when the lower-cased content contains one of its keywords; suggestions are distinct, in table order, and among the six tags |
| SemanticSearch.KeywordSuggests | src/Services/SemanticSearchService.php:71-80 | one keyword occurrence suffices for its tag |
| SemanticSearch.DebugSuggestsBug | src/Services/SemanticSearchService.php:63 | "debug" suggests bug (substring match) |
| SemanticSearch.AddressSuggestsFeature | src/Services/SemanticSearchService.php:64 | "address" suggests feature |
| SemanticSearch.MatchingIgnoresCase | src/Services/SemanticSearchService.php:71 | "Slow SQL" suggests performance and database |
| Strings.Lower | src/Services/SemanticSearchService.php:71 | strtolower maps each character through ASCII lower-casing, keeping the length |
| Strings.TrimSpec | src/Services/KnowledgeService.php:280 | trim() returns the slice left after dropping all leading and trailing whitespace, with none at either end |
| Strings.Explode | src/Services/KnowledgeService.php:244 | explode(',') gives at least one piece, and no piece holds a comma |
| Strings.ImplodeExplode | src/Services/KnowledgeService.php:244 | joining the pieces with ',' gives the string back |
| Strings.ExplodeImplode | src/Services/KnowledgeService.php:244 | pieces without a comma come back unchanged from exploding their join |
| Strings.TrimOfTrimmed | src/Services/KnowledgeService.php:280 | trim() leaves a string without surrounding whitespace unchanged |
| Migration.ReplayMetaSpec | src/Services/MigrationService.php:119-125 | a key has a row exactly when some legacy row has it, holding the last such row's value and its type (default 'string') |
| Migration.ReplayTally | src/Services/MigrationService.php:52-59 | every record is either counted as migrated or reported, never both |
| Migration.ReplayErrorsFromFailures | src/Services/MigrationService.php:56-57 | each error line is "Entry <id>: <message>" of a record whose replay threw |
| Migration.FindOrCreateTags | src/Services/MigrationService.php:133-138 | each name, untrimmed, is found or created; the ids line up with the names; no count changes; only the registry changes |
| Migration.ReplayTags | src/Services/MigrationService.php:131-141 | the entry's tags become exactly the given names (sync); no usage count changes; other entries keep their tags |
| Migration.ReplayMetadata | src/Services/MigrationService.php:119-125 | rows are upserted in order, type defaulting to 'string', until the fault fires; the rows written before it stay |
| Migration.FillEntry | src/Services/MigrationService.php:107-125 | after the entry exists: tags synced (when any), then metadata replayed; the error is the fault's message |
| Migration.MigrateEntry | src/Services/MigrationService.php:92-126 | the entry lands in the collection stamped now; tags and metadata are replayed; a fault stops the replay with what was written kept (no inner transaction); no usage changes; other entries are untouched |
| Migration.Created | src/Services/MigrationService.php:95-105 | the records whose entry row gets created are exactly those whose fault is not on creation |
| Migration.ReplayAll | src/Services/MigrationService.php:52-59 | entries_migrated and the error list are those of the records, one outcome each, the loop going on after a failure; the k-th created record becomes the entry with the k-th new id, holding its content and provenance in the landing collection stamped now, linked to its legacy tag names when its tag step ran, with the metadata rows written before it stopped; older entries keep their tags and metadata |
| Migration.MatchedBounds | src/Services/MigrationService.php:62-69 | tags_migrated counts each pair whose name has a tag, and no other |
| Migration.LastCountAbsent | src/Services/MigrationService.php:63-68 | a name with no pair keeps its count |
| Migration.LastCountWins | src/Services/MigrationService.php:63-66 | with duplicate names the last pair's count wins |
| Migration.OverwriteUsage | src/Services/MigrationService.php:62-69 | each pair whose name has a tag overwrites its count (last duplicate wins) and is counted; other pairs are skipped; no tag is created; links and other tables are unchanged |
| Migration.UsageAfterReconcile | src/Services/MigrationService.php:61-69 | after a replay that changes no count, the overwrite leaves each name at its last source count, or its count before the migration |
| Migration.BackupUsagePairs | src/Services/MigrationService.php:250-258 | the backup's tag pairs, a missing usage_count read as 0 |
| Migration.MigrateFromCore | src/Services/MigrationService.php:20-77 | without the three core tables: 'no_data', the message, zero counts, no errors, nothing written and the id counters unchanged; otherwise one landing collection 'Migrated from Core', every record replayed (each created record landing as a new entry with its content, tags and metadata, as in ReplayAll), counts overwritten from the legacy tags, status 'success' |
| Migration.ImportFromBackup | src/Services/MigrationService.php:206-267 | missing file, undecodable data or no 'entries': status 'error' with one message, zero counts, nothing written and the id counters unchanged; otherwise as migrateFromCore into 'Imported from Backup' (tag names and metadata read from the live legacy tables), with the tag overwrite only when 'tags' is present |
| Migration.BackupSourceSpec | src/Services/MigrationService.php:154-160 | read from the backup, an entry's tag names are the names of the backup tags its pivot rows point to, and its metadata rows are the rows stored for it |
| Migration.ImportFromBackupIntended | src/Services/MigrationService.php:206-267 | importFromBackup with each entry's tag names and metadata taken from the backup itself: the 'Imported from Backup' collection is appended with its description, color and icon; each created record lands with the backup's tags and metadata for it; when 'tags' is present each backup tag's usage is overwritten by its last listed count |
| Migration.BackupLinksIgnored | src/Services/MigrationService.php:107-112 | a backup entry linked to "bug" by its own pivot row finds no tag names in empty live tables, but "bug" when read from the backup |
| Migration.RemoveCoreSystem | src/Services/MigrationService.php:172-201 | drops each listed table that exists, in list order, recording it; the remaining tables are the rest |
| Migration.DroppedFromSpec | src/Services/MigrationService.php:189-194 | a table is reported exactly when it exists and is listed; no repeats; a second run drops nothing |
| Migration.RemoveCoreSystemSpec | src/Services/MigrationService.php:181-194 | removeCoreSystem reports exactly the existing legacy tables, once each, in the fixed order, and an immediate second call removes nothing |
| Publish.ReplaceRunsChars | src/Services/PublishService.php:940 | after the replacement only [A-Za-z0-9-] remain |
| Publish.ReplaceRunsSteps | src/Services/PublishService.php:940 | a kept character is copied, and each maximal run of other characters becomes a single '-' |
| Publish.SlugIsSlug | src/Services/PublishService.php:938-941 | slug() yields only [a-z0-9-] and neither starts nor ends with '-' |
| Publish.SlugOfSlug | src/Services/PublishService.php:940 | a string that is already a slug is its own slug |
| Publish.SlugIdempotent | src/Services/PublishService.php:938-941 | slug(slug(x)) == slug(x) |
| Publish.SlugKeepsAlnums | src/Services/PublishService.php:940 | slug() keeps the letters and digits of its input, lower-cased and in order |
| Publish.GroupsPartition | src/Services/PublishService.php:557-560 | group keys are distinct; every entry's key is a group; an entry lies in exactly the group of its key |
| Publish.MarkdownHeadingFirst | src/Services/PublishService.php:576 | the file opens with "# " and the title, "Knowledge Base" for an empty group |
| Publish.MarkdownSectionsInOrder | src/Services/PublishService.php:578-585 | each entry's block follows the blocks of the entries before it |
| Publish.GenerateMarkdownContent | src/Services/PublishService.php:574-588 | the loop's content is the heading followed by each entry's block in order |
| Publish.MarkdownFilesAt | src/Services/PublishService.php:560-564 | the i-th file is `<output>/<file name>.md` for the i-th group and holds exactly that group's entries; the file name is slug(group), or 'uncategorized' for an empty group |
| Publish.WriteGroupFile | src/Services/PublishService.php:561-564 | one group's path and content |
| Publish.WriteGroupFiles | src/Services/PublishService.php:560-565 | one file per group, in order, each path listed |
| Publish.PublishMarkdown | src/Services/PublishService.php:553-569 | the corrected export (see Findings): files gains one path per group, in order of first appearance; entries_count is the number of entries; the written files are exactly the group files |
| Publish.Publish | src/Services/PublishService.php:17-47 | an unsupported format is refused with "Unsupported format: <format>"; seo_optimized iff 'html'; api_enabled starts from the 'api' option and the 'api' export sets it; the counts and files of each export, with the corrected markdown export |
| Publish.MarkdownGroupAsWritten | src/Services/PublishService.php:557-563 | as written, a group whose name is a canonical integer fails with a TypeError; any other group gets its file name and heading |
| Publish.YearNamedCollectionFails | src/Services/PublishService.php:558-562 | a collection named "2024" fails as written; the intended file is 2024.md headed "# 2024" |
| Publish.GroupsBeforeIntegerKey | src/Services/PublishService.php:557-563 | the number of groups before the first integer-like key: all of them are not integer-like, and the one at that position is |
| Publish.IntegerKeyBefore | src/Services/PublishService.php:557-563 | some group key is integer-like exactly when that count stops before the last group |
| Publish.WriteGroupFilesAsWritten | src/Services/PublishService.php:557-563 | the as-written loop writes and lists exactly the files of the groups before the first integer-like key, in order |
| Publish.PublishMarkdownAsWritten | src/Services/PublishService.php:553-569 | as written: fails with a TypeError exactly when some group key is integer-like, after writing the files of the groups before the first such key; otherwise the same result and files as PublishMarkdown |
| Publish.YearGroupAfterNotes | src/Services/PublishService.php:557-563 | with groups "notes" then "2024", the as-written export gets through exactly one group before it fails |

## Left out

- Database I/O, transactions and the failure of a whole batch. An
  operation that fails outright leaves the store unchanged; the model
  covers only the per-record failures inside a batch.
- The outer `catch` of migrateFromCore and importFromBackup (an exception
  raised outside the per-record loop) is not modelled.
- What makes a migrated record fail is an input: each record carries a
  `Fault` naming the step that throws. The database errors themselves are
  not modelled.
- Migration.MigrateFromCore: the per-record tag and metadata queries are an
  input snapshot keyed by legacy id. The legacy tables share names with the
  store's own tables; that aliasing is not modelled.
- Migration.ImportFromBackup: which rows the live tables hold is an input
  (`src`), as for migrateFromCore. A query against a dropped table is a
  fault of the record, not a modelled SQL error.
- A record's `Fault` cannot express a throw part-way through the tag step
  (a failing findOrCreateByName after earlier names were created).
  `FailsOnTags` throws before any tag is created.
- Migration.ImportFromBackupIntended: the backup's tags are joined by id as
  written in the file. A pivot row whose tag id matches no backup tag gives
  no name.
- backupCoreData is not modelled: it only encodes and writes a file.
- File existence and JSON decoding in importFromBackup are inputs.
- The git context (GitContextService) and the clock are parameters.
- SemanticSearch.IsEnabled and SemanticSearch.GenerateEmbedding are
  constant functions without a contract. Because semantic search is never
  enabled, searchEntries' semantic branch, `search` and `findSimilar` are
  not modelled, and entries carry no embedding.
- calculateSimilarity is not modelled: it is float arithmetic over PHP's
  word tokeniser.
- Metadata 'float' and 'json' readings are left unevaluated
  (`Unmodelled`): they need floating point and a JSON decoder.
  Relationship strength is carried without arithmetic.
- Strings.Like: LIKE is modelled as an ASCII case-insensitive substring
  test. '%' and '_' inside the pattern are taken literally, and collations
  are not modelled.
- Strings.Lower: only ASCII letters are lower-cased, as PHP 8's strtolower
  does. Strings are sequences of characters, not bytes.
- Store.KnowledgeStore.TagNamesOf: the tag_names accessor is a set. The
  order in which the pivot returns names is not modelled.
- Migration.ErrorLine: the legacy id in the error line is PHP's decimal
  rendering of an integer. An id that is not an integer is not modelled.
- Strings.IsIntegerKey does not model the 64-bit range: a decimal string
  beyond PHP_INT_MAX stays a string key in PHP, but counts as an integer
  key here.
- MetadataValues.IntCast: PHP converts a string with a point or an
  exponent to the nearest double first, then truncates. The model
  truncates the exact decimal. The two differ when the double rounds across
  an integer, e.g. for values of 2^53 and above.
- Knowledge.ImportAsWritten: content or a tag name that is not a string
  also throws a TypeError (strict types) and rolls the whole import back.
  Records hold strings only, so that path is not modelled.
- Knowledge.ImportAsWritten: metadata values are taken after PHP's
  (string) cast (src/Services/KnowledgeService.php:58): 5 is stored as
  "5", true as "1", false and null as "". An array value raises a warning
  that Laravel turns into an ErrorException; the per-record catch skips
  that record with "Failed to import entry: ..." and the import goes on.
  Values that are not strings are not modelled.
- Knowledge.AddEntry: a transaction that rolls back is taken to restore the
  id counters too. A database may skip the ids used by the rolled-back
  rows.
- Publish.Publish: the HTML, JSON, OpenAPI and markdown template text is
  not checked, and file writes are left out. The markdown export returns
  its (path, content) pairs instead of writing them.
- Publish.Publish: the tag list, the entries and the collection count of
  the HTML export are inputs.
- Publish.Publish: dates are given already formatted (Y-m-d).
- Publish.Publish: the 'markdown' case is the corrected export
  (PublishMarkdown), which succeeds for every collection name. As
  written, publish throws a TypeError for an integer-like collection name;
  that path is Publish.PublishMarkdownAsWritten (see Findings).
- Publish.PublishMarkdown: the corrected export; it writes a file for an
  integer-like collection name, where the code throws.
- The Commands, ChecksMigration, ServiceProvider and the export /
  getEntry / createCollection service methods are not modelled.
- Concurrent writers are not modelled. The code assumes a single writer.

## Findings

| source | as written | input that shows it | evidently intended | confidence | as-written member | corrected member |
|---|---|---|---|---|---|---|
| src/Services/KnowledgeService.php:57-59 | `foreach ($metadata as $key => $value)` hands each key to `setMetadataValue(string $key, ...)` (src/Models/Entry.php:124). A key such as "42" is an int in a PHP array, so under `declare(strict_types=1)` the call throws a TypeError. In import (lines 172-186) a TypeError is an Error, not an Exception: the per-record catch lets it through and the whole import rolls back. | metadata `["42" => "v"]` | the pair stored as a 'string' row with key "42"; in import, the record imported like any other | medium, not executed | Knowledge.AddEntryAsWritten, Knowledge.ImportAsWritten, Knowledge.IntegerMetadataKeyAbortsImport | Knowledge.AddEntry, Knowledge.Import |
| src/Services/MigrationService.php:240-242 | importFromBackup replays each backup entry with migrateEntry. That reads the entry's tags and metadata from the live knowledge_entry_tags and knowledge_metadata tables (lines 107-125), not from the 'entry_tags' and 'metadata' the backup holds (lines 154-160). | a backup whose entry 1 is linked to "bug", restored into a database with empty legacy tables | the entry restored with the tag "bug" and the backup's metadata | medium, not executed | Migration.ImportFromBackup, Migration.BackupLinksIgnored | Migration.ImportFromBackupIntended |
| src/Services/PublishService.php:557-563 | groupBy turns a collection name such as "2024" into an int array key. Under `declare(strict_types=1)` (line 3), passing it to `slug(string)` or to `generateMarkdownContent(..., string $title)` throws a TypeError. | a collection named "2024" | the file `<output>/2024.md`, headed "# 2024" | medium, not executed | Publish.MarkdownGroupAsWritten, Publish.PublishMarkdownAsWritten, Publish.YearGroupAfterNotes | Publish.PublishMarkdown, Publish.Publish |
