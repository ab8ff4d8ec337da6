/**
 * The rows of the knowledge store: entries, tags, metadata, relationships
 * and collections, plus the eager-loaded view of an entry ("with details")
 * that the query scopes read.
 */
module Schema {
  import opened Wrappers

  /** What the git-context collaborator reports for the working copy; any field may be null. */
  datatype Provenance = Provenance(
    repo: Option<string>,
    branch: Option<string>,
    commitSha: Option<string>,
    author: Option<string>,
    projectType: Option<string>)

  /**
   * A knowledge entry. `createdAt` is a timestamp in seconds. The
   * vector_embedding column is not kept: the embedding collaborator always
   * yields null.
   */
  datatype Entry = Entry(
    id: nat,
    content: string,
    prov: Provenance,
    collectionId: Option<nat>,
    createdAt: int)

  /** A tag of the registry; `usage` is the maintained usage_count. */
  datatype Tag = Tag(id: nat, name: string, usage: int)

  /** One metadata row of an entry: the stored string and its declared type tag. */
  datatype Meta = Meta(value: string, declaredType: string)

  /**
   * A directed relationship row. `strength` is carried opaquely (no
   * arithmetic is done on it) and `metadata` is the row's free-form array.
   */
  datatype Relationship = Relationship(
    id: nat,
    from: nat,
    to: nat,
    kind: string,
    strength: real,
    metadata: map<string, string>)

  /** The strength createBidirectional gives a relationship when the caller names none. */
  const DefaultStrength: real := 1.0

  datatype CollectionRow = CollectionRow(
    id: nat,
    name: string,
    description: string,
    color: string,
    icon: string)

  /** An entry together with its tag names and metadata, as `withDetails()` loads it. */
  datatype Row = Row(entry: Entry, tagNames: set<string>, meta: map<string, Meta>)

  const SecondsPerDay: int := 86400
}
