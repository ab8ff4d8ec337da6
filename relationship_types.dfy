/** The closed vocabulary of relationship types and their display labels. */
module RelationshipTypes {

  /** Relationship::TYPES: type key to human-readable label. */
  const Types: map<string, string> := map[
    "depends_on" := "Depends On",
    "relates_to" := "Relates To",
    "conflicts_with" := "Conflicts With",
    "extends" := "Extends",
    "implements" := "Implements",
    "references" := "References",
    "similar_to" := "Similar To"]

  /**
   * The type_display accessor: the label of a known type key, otherwise the
   * stored type string itself (types are not validated on create).
   */
  function TypeDisplay(kind: string): (display: string)
    ensures kind in Types ==> display == Types[kind]
    ensures kind !in Types ==> display == kind
  {
    if kind in Types then Types[kind] else kind
  }

  /** The label differs from the raw type exactly when the type is one of the seven keys. */
  lemma DisplayChangesOnlyKnownTypes(kind: string)
    ensures TypeDisplay(kind) != kind <==> kind in Types
    ensures |Types| == 7
  {
    assert Types.Keys == {"depends_on", "relates_to", "conflicts_with", "extends",
                          "implements", "references", "similar_to"};
    if kind in Types {
      assert Types[kind] != kind;
    }
  }
}
