/**
 * The owning document: the original parse, which never changes, and the
 * change log, which only grows.
 */
module Document {
  import opened JsonTree
  import opened ChangeTracker

  class MutableJsonDocument {
    /** The parse of the original input. */
    const original: JsonNode
    /** Every change recorded so far, oldest first. */
    var changes: seq<Change>

    ghost predicate Valid()
      reads this
    {
      WellFormedLog(changes)
    }

    constructor (original: JsonNode)
      ensures this.original == original
      ensures changes == [] && Valid()
    {
      this.original := original;
      changes := [];
    }

    /** Appends one entry carrying the next index; earlier entries are kept as they are. */
    method AddChange(path: string, value: Payload, kind: ChangeKind, addedName: Option<string>) returns (index: nat)
      requires Valid() && WellTyped(value)
      modifies this
      ensures Valid()
      ensures index == |old(changes)|
      ensures changes == old(changes) + [Change(path, index, kind, value, addedName)]
    {
      index := |changes|;
      changes := changes + [Change(path, index, kind, value, addedName)];
    }
  }
}
