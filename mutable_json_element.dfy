/**
 * The element view: a cursor made of a node of the original parse, a path
 * and a high-water mark. Reads consult the change log first and fall back
 * to the node; writes append to the log and never touch the node.
 *
 * The view does not carry its document: the reading functions take the
 * document's change log, the writing methods take the document itself.
 */
module Element {
  import opened JsonTree
  import opened ChangeTracker
  import opened Document

  /** -1 pins nothing (every entry is pending); otherwise the index of the last entry the element reflects. */
  type Mark = m: int | -1 <= m witness -1

  datatype MutableJsonElement = MutableJsonElement(element: JsonNode, path: string, highWaterMark: Mark)

  /** The root view of a document: the original parse at the empty path, seeing every entry. */
  function RootElement(doc: MutableJsonDocument): (r: MutableJsonElement)
    reads doc
    ensures r.element == doc.original
    // the root has no ancestors, so no later change can ever make it stale
    ensures !Stale(doc.changes, r)
    ensures ViewOf(doc.changes, r)
    // and it consults every entry of the log
    ensures forall c :: c in doc.changes ==> Visible(c.index, r.highWaterMark)
  {
    MutableJsonElement(doc.original, "", -1)
  }

  /** A view handed out while the log had this length: its mark names an existing entry or is -1. */
  predicate ViewOf(log: seq<Change>, e: MutableJsonElement)
  {
    e.highWaterMark < |log|
  }

  predicate Stale(log: seq<Change>, e: MutableJsonElement)
  {
    AncestorChanged(log, e.path, e.highWaterMark)
  }

  /** The value the view stands for: the latest pending entry at its path, or else its own node. */
  function Resolve(log: seq<Change>, e: MutableJsonElement): JsonNode
  {
    match TryGetChange(log, e.path, e.highWaterMark)
    case Some(c) => Serialize(c.value)
    case None => e.element
  }

  /** The latest pending entry at the view's path stores nothing (an explicit null or a removal). */
  predicate ResolvesAbsent(log: seq<Change>, e: MutableJsonElement)
  {
    var c := TryGetChange(log, e.path, e.highWaterMark);
    c.Some? && c.value.value.Absent?
  }

  // ---------------------------------------------------------------- guards

  /** Fails with the stale-view error exactly when a visible entry replaced or removed an ancestor. */
  function EnsureValid(log: seq<Change>, e: MutableJsonElement): (r: Outcome)
    ensures r.Fail? <==> exists i :: 0 <= i < |log| && Invalidates(log[i], e.path, e.highWaterMark)
    ensures r.Fail? ==> r.error == StaleView
  {
    if AncestorChanged(log, e.path, e.highWaterMark) then Fail(StaleView) else Pass
  }

  /** Object operations look at the original node's kind, never at the overlay's. */
  function EnsureObject(e: MutableJsonElement): (r: Outcome)
    ensures r.Pass? <==> e.element.JObject?
    ensures r.Fail? ==> r.error == NotAnObject(Kind(e.element))
  {
    if Kind(e.element) != Object then Fail(NotAnObject(Kind(e.element))) else Pass
  }

  function EnsureArray(e: MutableJsonElement): (r: Outcome)
    ensures r.Pass? <==> e.element.JArray?
    ensures r.Fail? ==> r.error == NotAnArray(Kind(e.element))
  {
    if Kind(e.element) != Array then Fail(NotAnArray(Kind(e.element))) else Pass
  }

  // ---------------------------------------------------------------- reads

  /** The kind of the current value; not guarded, so it answers on stale views too. */
  function ValueKind(log: seq<Change>, e: MutableJsonElement): (k: JsonValueKind)
    ensures k == Kind(Resolve(log, e))
  {
    match TryGetChange(log, e.path, e.highWaterMark)
    case Some(c) => PayloadKind(c.value)
    case None => Kind(e.element)
  }

  function TryGetProperty(log: seq<Change>, e: MutableJsonElement, name: string): (r: Result<Option<MutableJsonElement>>)
    ensures r == Err(StaleView) <==> Stale(log, e)
    ensures !Stale(log, e) && !e.element.JObject? ==> r == Err(NotAnObject(Kind(e.element)))
    // past the two guards the lookup never fails: it finds the property or reports it absent
    ensures !Stale(log, e) && e.element.JObject? ==> r.Ok?
    ensures r.Ok? ==> e.element.JObject?
    // a visible removal hides the property; otherwise a visible entry or the parse decides
    ensures r.Ok? ==> (r.value.None? <==>
      match TryGetChange(log, PushProperty(e.path, name), e.highWaterMark)
      case Some(c) => c.kind == PropertyRemoval
      case None => PropertyValue(e.element.props, name).None?)
    ensures r.Ok? && r.value.Some? ==>
      var child := r.value.value;
      && child.path == PushProperty(e.path, name)
      && e.highWaterMark <= child.highWaterMark
      && match TryGetChange(log, child.path, e.highWaterMark)
         case Some(c) => child.element == Serialize(c.value) && child.highWaterMark == c.index
         case None => Some(child.element) == PropertyValue(e.element.props, name) && child.highWaterMark == e.highWaterMark
    // the child's node already reflects every entry at its own path
    ensures WellFormedLog(log) && ViewOf(log, e) && r.Ok? && r.value.Some? ==> ViewOf(log, r.value.value)
    ensures WellFormedLog(log) && r.Ok? && r.value.Some? ==>
      TryGetChange(log, r.value.value.path, r.value.value.highWaterMark).None?
  {
    if EnsureValid(log, e).Fail? then Err(StaleView)
    else if EnsureObject(e).Fail? then Err(EnsureObject(e).error)
    else
      var path := PushProperty(e.path, name);
      match TryGetChange(log, path, e.highWaterMark)
      case Some(change) =>
        LatestEntryIsCurrent(log, path, e.highWaterMark);
        if change.kind == PropertyRemoval then Ok(None)
        else Ok(Some(MutableJsonElement(Serialize(change.value), path, change.index)))
      case None =>
        match PropertyValue(e.element.props, name)
        case None => Ok(None)
        case Some(node) => Ok(Some(MutableJsonElement(node, path, e.highWaterMark)))
  }

  /**
   * In a well-formed log, once a view is pinned at the latest pending entry
   * for its path, no entry at that path is pending for it any more.
   */
  lemma LatestEntryIsCurrent(log: seq<Change>, path: string, mark: int)
    ensures WellFormedLog(log) && TryGetChange(log, path, mark).Some? ==>
      TryGetChange(log, path, TryGetChange(log, path, mark).value.index).None? &&
      TryGetChange(log, path, mark).value.index < |log|
  {
    if WellFormedLog(log) && TryGetChange(log, path, mark).Some? {
      var i := LastMatch(log, path, mark);
      assert log[i].index == i;
      forall j | 0 <= j < |log| ensures !Matches(log[j], path, i) {
        assert log[j].index == j;
      }
    }
  }

  function GetProperty(log: seq<Change>, e: MutableJsonElement, name: string): (r: Result<MutableJsonElement>)
    ensures r == Err(PropertyNotFound(e.path, name)) <==> TryGetProperty(log, e, name) == Ok(None)
    ensures r.Ok? <==> TryGetProperty(log, e, name).Ok? && TryGetProperty(log, e, name).value.Some?
    ensures r.Ok? ==> TryGetProperty(log, e, name) == Ok(Some(r.value))
    ensures TryGetProperty(log, e, name).Err? ==> r == Err(TryGetProperty(log, e, name).error)
  {
    match TryGetProperty(log, e, name)
    case Err(err) => Err(err)
    case Ok(None) => Err(PropertyNotFound(e.path, name))
    case Ok(Some(child)) => Ok(child)
  }

  function GetArrayLength(log: seq<Change>, e: MutableJsonElement): (r: Result<int>)
    ensures r == Err(StaleView) <==> Stale(log, e)
    ensures !Stale(log, e) && !e.element.JArray? ==> r == Err(NotAnArray(Kind(e.element)))
    ensures !Stale(log, e) && e.element.JArray? ==> (r.Ok? <==> Resolve(log, e).JArray?)
    ensures r.Ok? ==> Resolve(log, e).JArray? && r.value == |Resolve(log, e).items|
  {
    if EnsureValid(log, e).Fail? then Err(StaleView)
    else if EnsureArray(e).Fail? then Err(EnsureArray(e).error)
    else
      match TryGetChange(log, e.path, e.highWaterMark)
      case Some(change) =>
        var node := Serialize(change.value);
        if node.JArray? then Ok(|node.items|) else Err(WrongKind(Array, Kind(node)))
      case None => Ok(|e.element.items|)
  }

  function GetIndexElement(log: seq<Change>, e: MutableJsonElement, index: int): (r: Result<MutableJsonElement>)
    ensures r == Err(StaleView) <==> Stale(log, e)
    ensures !Stale(log, e) && !e.element.JArray? ==> r == Err(NotAnArray(Kind(e.element)))
    ensures r.Ok? ==> e.element.JArray? && r.value.path == PushIndex(e.path, index)
    ensures r.Ok? ==> e.highWaterMark <= r.value.highWaterMark
    ensures WellFormedLog(log) && ViewOf(log, e) && r.Ok? ==> ViewOf(log, r.value)
    // a visible entry at the element's path wins, with no bounds check against the parse
    ensures !Stale(log, e) && e.element.JArray? && TryGetChange(log, PushIndex(e.path, index), e.highWaterMark).Some? ==>
      var c := TryGetChange(log, PushIndex(e.path, index), e.highWaterMark).value;
      r == Ok(MutableJsonElement(Serialize(c.value), PushIndex(e.path, index), c.index))
    // otherwise the parse's element, which must exist
    ensures !Stale(log, e) && e.element.JArray? && TryGetChange(log, PushIndex(e.path, index), e.highWaterMark).None? ==>
      (r.Ok? <==> 0 <= index < |e.element.items|) &&
      (r.Ok? ==> r.value.element == e.element.items[index] && r.value.highWaterMark == e.highWaterMark) &&
      (r.Err? ==> r.error == IndexOutOfRange(index))
    ensures WellFormedLog(log) && r.Ok? ==> TryGetChange(log, r.value.path, r.value.highWaterMark).None?
  {
    if EnsureValid(log, e).Fail? then Err(StaleView)
    else if EnsureArray(e).Fail? then Err(EnsureArray(e).error)
    else
      var path := PushIndex(e.path, index);
      match TryGetChange(log, path, e.highWaterMark)
      case Some(change) =>
        LatestEntryIsCurrent(log, path, e.highWaterMark);
        Ok(MutableJsonElement(Serialize(change.value), path, change.index))
      case None =>
        if 0 <= index < |e.element.items| then Ok(MutableJsonElement(e.element.items[index], path, e.highWaterMark))
        else Err(IndexOutOfRange(index))
  }

  /**
   * The integer getters of every width: a typed entry of the requested width
   * is returned as stored, an explicit null reads as "no value", anything
   * else is read from its serialized form, and with no pending entry the
   * node answers.
   */
  function TryGetInteger(log: seq<Change>, e: MutableJsonElement, k: IntKind): (r: Result<Option<int>>)
    ensures r == Err(StaleView) <==> Stale(log, e)
    // the typed shortcut agrees with reading the value the view stands for
    ensures WellFormedLog(log) && !Stale(log, e) ==>
      r == if ResolvesAbsent(log, e) then Ok(None) else NodeTryGetInteger(Resolve(log, e), k)
    ensures WellFormedLog(log) && r.Ok? && r.value.Some? ==> InRange(k, r.value.value)
  {
    if EnsureValid(log, e).Fail? then Err(StaleView)
    else
      match TryGetChange(log, e.path, e.highWaterMark)
      case Some(change) =>
        (match change.value
         case IntegerValue(kind, n) => if kind == k then Ok(Some(n)) else NodeTryGetInteger(Serialize(change.value), k)
         case Subtree(node) => NodeTryGetInteger(node, k)
         case Absent => Ok(None)
         case _ => NodeTryGetInteger(Serialize(change.value), k))
      case None => NodeTryGetInteger(e.element, k)
  }

  /** The strict integer getter: a format error naming the path exactly when the try-getter has no value. */
  function GetInteger(log: seq<Change>, e: MutableJsonElement, k: IntKind): (r: Result<int>)
    ensures r == Err(FormatError(e.path, k)) <==> TryGetInteger(log, e, k) == Ok(None)
    ensures r.Ok? <==> TryGetInteger(log, e, k).Ok? && TryGetInteger(log, e, k).value.Some?
    ensures r.Ok? ==> TryGetInteger(log, e, k) == Ok(Some(r.value))
    ensures TryGetInteger(log, e, k).Err? ==> r == Err(TryGetInteger(log, e, k).error)
  {
    match TryGetInteger(log, e, k)
    case Err(err) => Err(err)
    case Ok(None) => Err(FormatError(e.path, k))
    case Ok(Some(n)) => Ok(n)
  }

  /** A string, or no string for null. */
  function GetString(log: seq<Change>, e: MutableJsonElement): (r: Result<Option<string>>)
    ensures r == Err(StaleView) <==> Stale(log, e)
    ensures !Stale(log, e) ==> (r.Ok? <==> Resolve(log, e).JString? || Resolve(log, e).JNull?)
    ensures !Stale(log, e) ==> (r == Ok(None) <==> Resolve(log, e).JNull?)
    ensures r.Ok? && r.value.Some? ==> Resolve(log, e) == JString(r.value.value)
    // a typed scalar of another kind is reported against the view's path
    ensures (!Stale(log, e) && TryGetChange(log, e.path, e.highWaterMark).Some? &&
      (TryGetChange(log, e.path, e.highWaterMark).value.value.IntegerValue? ||
       TryGetChange(log, e.path, e.highWaterMark).value.value.BoolValue?)) ==> r == Err(NotAString(e.path))
  {
    if EnsureValid(log, e).Fail? then Err(StaleView)
    else
      match TryGetChange(log, e.path, e.highWaterMark)
      case Some(change) =>
        (match change.value
         case StringValue(s) => Ok(Some(s))
         case Subtree(node) => NodeGetString(node)
         case Absent => Ok(None)
         case _ =>
           match Serialize(change.value)
           case JString(s) => Ok(Some(s))
           case _ => Err(NotAString(e.path)))
      case None => NodeGetString(e.element)
  }

  function GetBoolean(log: seq<Change>, e: MutableJsonElement): (r: Result<bool>)
    ensures r == Err(StaleView) <==> Stale(log, e)
    ensures !Stale(log, e) ==> (r.Ok? <==> Resolve(log, e).JBool?)
    ensures r.Ok? ==> Resolve(log, e) == JBool(r.value)
    ensures (!Stale(log, e) && TryGetChange(log, e.path, e.highWaterMark).Some? && r.Err? &&
      !TryGetChange(log, e.path, e.highWaterMark).value.value.Subtree?) ==> r == Err(NotABool(e.path))
  {
    if EnsureValid(log, e).Fail? then Err(StaleView)
    else
      match TryGetChange(log, e.path, e.highWaterMark)
      case Some(change) =>
        (match change.value
         case BoolValue(b) => Ok(b)
         case Subtree(node) => NodeGetBoolean(node)
         case _ => Err(NotABool(e.path)))
      case None => NodeGetBoolean(e.element)
  }

  // ---------------------------------------------------------------- materialization

  /** Where the text of a view comes from. */
  datatype Rendering =
    | ChangeValue(value: Payload)        // the pending entry at the view's own path
    | MergedWithDescendants              // the node re-written with the entries below it spliced in
    | OriginalElement(node: JsonNode)    // the node as parsed

  /** The branch selection shared by the text and the parsed-element renderings of a view. */
  function Materialize(log: seq<Change>, e: MutableJsonElement): (r: Result<Rendering>)
    ensures r == Err(StaleView) <==> Stale(log, e)
    ensures !Stale(log, e) ==> r.Ok?
    // the pending entry at the view's own path wins, then a change below it, then the node
    ensures !Stale(log, e) && TryGetChange(log, e.path, e.highWaterMark).Some? ==>
      r == Ok(ChangeValue(TryGetChange(log, e.path, e.highWaterMark).value.value))
    ensures !Stale(log, e) && TryGetChange(log, e.path, e.highWaterMark).None? && DescendantChanged(log, e.path, e.highWaterMark) ==>
      r == Ok(MergedWithDescendants)
    ensures r.Ok? && r.value.ChangeValue? ==> Serialize(r.value.value) == Resolve(log, e)
    ensures r.Ok? && r.value.OriginalElement? ==>
      r.value.node == e.element == Resolve(log, e) && !DescendantChanged(log, e.path, e.highWaterMark)
    ensures r.Ok? && r.value.MergedWithDescendants? ==>
      TryGetChange(log, e.path, e.highWaterMark).None? && DescendantChanged(log, e.path, e.highWaterMark)
    ensures !Stale(log, e) && TryGetChange(log, e.path, e.highWaterMark).None? && !DescendantChanged(log, e.path, e.highWaterMark) ==>
      r == Ok(OriginalElement(e.element))
  {
    if EnsureValid(log, e).Fail? then Err(StaleView)
    else
      match TryGetChange(log, e.path, e.highWaterMark)
      case Some(change) => Ok(ChangeValue(change.value))
      case None =>
        if DescendantChanged(log, e.path, e.highWaterMark) then Ok(MergedWithDescendants)
        else Ok(OriginalElement(e.element))
  }

  // ---------------------------------------------------------------- writes

  /** A value handed to the untyped setter. */
  datatype Value =
    | VInteger(kind: IntKind, n: int)   // any of the integer widths
    | VBool(b: bool)
    | VString(s: string)
    | VNull
    | VObject(encoded: JsonNode)        // any other object, given as the sub-tree the serializer makes of it

  /** An integer value fits its width, as the static type of the argument guarantees. */
  predicate WellTypedValue(v: Value)
  {
    v.VInteger? ==> InRange(v.kind, v.n)
  }

  /** The JSON a value stands for. */
  function Encode(v: Value): JsonNode
  {
    match v
    case VInteger(_, n) => JNumber(n)
    case VBool(b) => JBool(b)
    case VString(s) => JString(s)
    case VNull => JNull
    case VObject(node) => node
  }

  /**
   * The untyped setter's dispatch: scalars are stored as typed entries, null
   * as an explicit absent value, anything else as its encoded sub-tree.
   */
  function PayloadOf(v: Value): (p: Payload)
    ensures Serialize(p) == Encode(v)
    ensures p.Absent? <==> v.VNull?
    ensures p.Subtree? <==> v.VObject?
    ensures WellTypedValue(v) ==> WellTyped(p)
  {
    match v
    case VInteger(k, n) => IntegerValue(k, n)
    case VBool(b) => BoolValue(b)
    case VString(s) => StringValue(s)
    case VNull => Absent
    case VObject(node) => Subtree(node)
  }

  /** The entry a whole-value set appends. */
  function SetEntry(log: seq<Change>, e: MutableJsonElement, v: Value): Change
  {
    Change(e.path, |log|, Modification, PayloadOf(v), None)
  }

  /** The entry a new property appends: always the serialized value, remembering the name. */
  function AdditionEntry(log: seq<Change>, e: MutableJsonElement, name: string, v: Value): Change
  {
    Change(PushProperty(e.path, name), |log|, PropertyAddition, Subtree(Encode(v)), Some(name))
  }

  function RemovalEntry(log: seq<Change>, e: MutableJsonElement, name: string): Change
  {
    Change(PushProperty(e.path, name), |log|, PropertyRemoval, Absent, None)
  }

  /** Replaces the whole value at the view's path. */
  method Set(doc: MutableJsonDocument, e: MutableJsonElement, value: Value) returns (r: Outcome)
    requires doc.Valid() && WellTypedValue(value)
    modifies doc
    ensures doc.Valid()
    ensures r.Fail? <==> Stale(old(doc.changes), e)
    ensures r.Fail? ==> r.error == StaleView && doc.changes == old(doc.changes)
    ensures r.Pass? ==> doc.changes == old(doc.changes) + [SetEntry(old(doc.changes), e, value)]
  {
    if EnsureValid(doc.changes, e).Fail? {
      return Fail(StaleView);
    }
    var _ := doc.AddChange(e.path, PayloadOf(value), Modification, None);
    return Pass;
  }

  /**
   * Sets a property: an existing one (as navigation finds it) is set through
   * its own view; a missing one is added. Returns the receiver.
   */
  method SetProperty(doc: MutableJsonDocument, e: MutableJsonElement, name: string, value: Value)
    returns (r: Result<MutableJsonElement>)
    requires doc.Valid() && WellTypedValue(value)
    modifies doc
    ensures doc.Valid()
    ensures r.Ok? ==> r.value == e
    ensures match TryGetProperty(old(doc.changes), e, name)
      case Err(err) => r == Err(err) && doc.changes == old(doc.changes)
      case Ok(Some(child)) =>
        if Stale(old(doc.changes), child) then r == Err(StaleView) && doc.changes == old(doc.changes)
        else r == Ok(e) && doc.changes == old(doc.changes) + [SetEntry(old(doc.changes), child, value)]
      case Ok(None) =>
        r == Ok(e) && doc.changes == old(doc.changes) + [AdditionEntry(old(doc.changes), e, name, value)]
  {
    var found := TryGetProperty(doc.changes, e, name);
    match found
    case Err(err) =>
      return Err(err);
    case Ok(Some(child)) =>
      var outcome := Set(doc, child, value);
      if outcome.Fail? {
        return Err(outcome.error);
      }
      return Ok(e);
    case Ok(None) =>
      var _ := doc.AddChange(PushProperty(e.path, name), Subtree(Encode(value)), PropertyAddition, Some(name));
      return Ok(e);
  }

  /** Removes a property the original parse has; nothing else is appended. */
  method RemoveProperty(doc: MutableJsonDocument, e: MutableJsonElement, name: string) returns (r: Outcome)
    requires doc.Valid()
    modifies doc
    ensures doc.Valid()
    ensures Stale(old(doc.changes), e) ==> r == Fail(StaleView)
    ensures !Stale(old(doc.changes), e) && !e.element.JObject? ==> r == Fail(NotAnObject(Kind(e.element)))
    ensures !Stale(old(doc.changes), e) && e.element.JObject? ==>
      (r.Pass? <==> PropertyValue(e.element.props, name).Some?)
    ensures r.Fail? ==> doc.changes == old(doc.changes)
    ensures r.Fail? && !Stale(old(doc.changes), e) && e.element.JObject? ==> r.error == MissingProperty(name)
    ensures r.Pass? ==> doc.changes == old(doc.changes) + [RemovalEntry(old(doc.changes), e, name)]
  {
    if EnsureValid(doc.changes, e).Fail? {
      return Fail(StaleView);
    }
    if EnsureObject(e).Fail? {
      return EnsureObject(e);
    }
    if PropertyValue(e.element.props, name).None? {
      return Fail(MissingProperty(name));
    }
    var _ := doc.AddChange(PushProperty(e.path, name), Absent, PropertyRemoval, None);
    return Pass;
  }
}
