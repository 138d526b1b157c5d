/**
 * How the element operations relate to each other across writes: what a
 * view reads after a set, a removal or an addition, which views a write
 * invalidates and which it leaves alone, and which views navigation hands out.
 */
module ElementProperties {
  import opened JsonTree
  import opened ChangeTracker
  import opened ChangeTrackerProperties
  import opened Element

  /** A view that is usable and whose node already reflects every entry at its own path. */
  predicate Current(log: seq<Change>, e: MutableJsonElement)
  {
    !Stale(log, e) && TryGetChange(log, e.path, e.highWaterMark).None?
  }

  /** Nothing but the view's own path and its ancestors matter to what it reads. */
  lemma AppendAtOwnPath(log: seq<Change>, c: Change, w: MutableJsonElement)
    requires c.path == w.path
    ensures Stale(log + [c], w) == Stale(log, w)
    ensures Visible(c.index, w.highWaterMark) ==> TryGetChange(log + [c], w.path, w.highWaterMark) == Some(c)
  {
    TryGetChangeAppend(log, c, w.path, w.highWaterMark);
    AncestorChangedAppend(log, c, w.path, w.highWaterMark);
  }

  // ---------------------------------------------------------------- read after write

  /**
   * After a whole-value set at a path, every usable view of that path whose
   * mark admits the new entry reads the value that was set; an explicit null
   * reads as "no value", so the strict getter reports a format error.
   */
  lemma ReadAfterSet(log: seq<Change>, e: MutableJsonElement, v: Value, w: MutableJsonElement, k: IntKind)
    requires WellFormedLog(log) && WellTypedValue(v)
    requires w.path == e.path && ViewOf(log, w) && !Stale(log, w)
    ensures WellFormedLog(log + [SetEntry(log, e, v)])
    ensures !Stale(log + [SetEntry(log, e, v)], w)
    ensures Resolve(log + [SetEntry(log, e, v)], w) == Encode(v)
    ensures ValueKind(log + [SetEntry(log, e, v)], w) == Kind(Encode(v))
    ensures v.VInteger? && v.kind == k ==>
      TryGetInteger(log + [SetEntry(log, e, v)], w, k) == Ok(Some(v.n)) &&
      GetInteger(log + [SetEntry(log, e, v)], w, k) == Ok(v.n)
    ensures v.VNull? ==>
      TryGetInteger(log + [SetEntry(log, e, v)], w, k) == Ok(None) &&
      GetInteger(log + [SetEntry(log, e, v)], w, k) == Err(FormatError(w.path, k)) &&
      GetString(log + [SetEntry(log, e, v)], w) == Ok(None)
    ensures !v.VNull? ==> TryGetInteger(log + [SetEntry(log, e, v)], w, k) == NodeTryGetInteger(Encode(v), k)
    ensures v.VString? ==> GetString(log + [SetEntry(log, e, v)], w) == Ok(Some(v.s))
    ensures v.VBool? ==> GetBoolean(log + [SetEntry(log, e, v)], w) == Ok(v.b)
  {
    var c := SetEntry(log, e, v);
    AppendAtOwnPath(log, c, w);
  }

  /**
   * Write isolation: a set at a path that is neither the view's nor one of
   * its ancestors leaves the view's staleness, kind, array length and typed
   * getters unchanged. (A set below the view does change its navigation and
   * its rendering; see `SetOutsideSubtreeIsInvisible`.)
   */
  lemma SetElsewhereIsInvisible(log: seq<Change>, e: MutableJsonElement, v: Value, w: MutableJsonElement, k: IntKind)
    requires e.path != w.path && !IsProperAncestor(e.path, w.path)
    ensures Stale(log + [SetEntry(log, e, v)], w) == Stale(log, w)
    ensures Resolve(log + [SetEntry(log, e, v)], w) == Resolve(log, w)
    ensures ValueKind(log + [SetEntry(log, e, v)], w) == ValueKind(log, w)
    ensures GetArrayLength(log + [SetEntry(log, e, v)], w) == GetArrayLength(log, w)
    ensures TryGetInteger(log + [SetEntry(log, e, v)], w, k) == TryGetInteger(log, w, k)
    ensures GetString(log + [SetEntry(log, e, v)], w) == GetString(log, w)
    ensures GetBoolean(log + [SetEntry(log, e, v)], w) == GetBoolean(log, w)
  {
    var c := SetEntry(log, e, v);
    TryGetChangeAppend(log, c, w.path, w.highWaterMark);
    AncestorChangedAppend(log, c, w.path, w.highWaterMark);
  }

  /**
   * A set that is neither at the view's path, nor above it, nor below it
   * also leaves the view's navigation and rendering unchanged.
   */
  lemma SetOutsideSubtreeIsInvisible(log: seq<Change>, e: MutableJsonElement, v: Value, w: MutableJsonElement,
                                     name: string, index: int)
    requires e.path != w.path && !IsProperAncestor(e.path, w.path) && !IsProperAncestor(w.path, e.path)
    ensures TryGetProperty(log + [SetEntry(log, e, v)], w, name) == TryGetProperty(log, w, name)
    ensures GetProperty(log + [SetEntry(log, e, v)], w, name) == GetProperty(log, w, name)
    ensures GetIndexElement(log + [SetEntry(log, e, v)], w, index) == GetIndexElement(log, w, index)
    ensures Materialize(log + [SetEntry(log, e, v)], w) == Materialize(log, w)
  {
    var c := SetEntry(log, e, v);
    AncestorChangedAppend(log, c, w.path, w.highWaterMark);
    TryGetChangeAppend(log, c, w.path, w.highWaterMark);
    ChildPathIsBelow(w.path, name);
    ChildPathIsBelow(w.path, IntToDecimal(index));
    TryGetChangeAppend(log, c, PushProperty(w.path, name), w.highWaterMark);
    TryGetChangeAppend(log, c, PushIndex(w.path, index), w.highWaterMark);
    DescendantChangedAppend(log, c, w.path, w.highWaterMark);
  }

  /** A composed path is its parent's path or lies below it. */
  lemma ChildPathIsBelow(path: string, name: string)
    ensures PushProperty(path, name) == path || IsProperAncestor(path, PushProperty(path, name))
  {
    if |path| > 0 {
      assert PushProperty(path, name)[..|path|] == path;
    }
  }

  // ---------------------------------------------------------------- invalidation

  /**
   * A whole-value set on an ancestor makes every earlier view below it stale:
   * each guarded operation on it now fails with the stale-view error.
   */
  lemma SetInvalidatesDescendants(log: seq<Change>, e: MutableJsonElement, v: Value, w: MutableJsonElement,
                                  name: string, index: int, k: IntKind)
    requires IsProperAncestor(e.path, w.path) && ViewOf(log, w)
    ensures Stale(log + [SetEntry(log, e, v)], w)
    ensures TryGetProperty(log + [SetEntry(log, e, v)], w, name) == Err(StaleView)
    ensures GetProperty(log + [SetEntry(log, e, v)], w, name) == Err(StaleView)
    ensures GetArrayLength(log + [SetEntry(log, e, v)], w) == Err(StaleView)
    ensures GetIndexElement(log + [SetEntry(log, e, v)], w, index) == Err(StaleView)
    ensures TryGetInteger(log + [SetEntry(log, e, v)], w, k) == Err(StaleView)
    ensures GetInteger(log + [SetEntry(log, e, v)], w, k) == Err(StaleView)
    ensures GetString(log + [SetEntry(log, e, v)], w) == Err(StaleView)
    ensures GetBoolean(log + [SetEntry(log, e, v)], w) == Err(StaleView)
    ensures Materialize(log + [SetEntry(log, e, v)], w) == Err(StaleView)
  {
    AncestorChangedAppend(log, SetEntry(log, e, v), w.path, w.highWaterMark);
  }

  /**
   * Re-navigating after setting a property through the view navigation gave
   * out finds the new value, in a usable view pinned at the new entry.
   */
  lemma RenavigateAfterSet(log: seq<Change>, p: MutableJsonElement, name: string, child: MutableJsonElement, v: Value)
    requires WellFormedLog(log) && WellTypedValue(v) && ViewOf(log, p)
    requires TryGetProperty(log, p, name) == Ok(Some(child))
    ensures var log' := log + [SetEntry(log, child, v)];
      && TryGetProperty(log', p, name) == Ok(Some(MutableJsonElement(Encode(v), child.path, |log|)))
      && Resolve(log', MutableJsonElement(Encode(v), child.path, |log|)) == Encode(v)
  {
    var c := SetEntry(log, child, v);
    var log' := log + [c];
    AncestorChangedAppend(log, c, p.path, p.highWaterMark);
    TryGetChangeAppend(log, c, child.path, p.highWaterMark);
    TryGetChangeAppend(log, c, child.path, |log|);
  }

  // ---------------------------------------------------------------- removal and addition

  /** After a removal, looking the property up finds nothing, and the strict lookup fails. */
  lemma RemovalHidesProperty(log: seq<Change>, e: MutableJsonElement, name: string)
    requires ViewOf(log, e) && !Stale(log, e) && e.element.JObject?
    ensures TryGetProperty(log + [RemovalEntry(log, e, name)], e, name) == Ok(None)
    ensures GetProperty(log + [RemovalEntry(log, e, name)], e, name) == Err(PropertyNotFound(e.path, name))
  {
    var c := RemovalEntry(log, e, name);
    assert !IsProperAncestor(c.path, e.path);
    AncestorChangedAppend(log, c, e.path, e.highWaterMark);
    TryGetChangeAppend(log, c, c.path, e.highWaterMark);
  }

  /** After an addition, looking the property up finds the added value, pinned at the new entry. */
  lemma AdditionIsFound(log: seq<Change>, e: MutableJsonElement, name: string, v: Value)
    requires WellFormedLog(log) && ViewOf(log, e) && !Stale(log, e) && e.element.JObject?
    ensures var log' := log + [AdditionEntry(log, e, name, v)];
      && TryGetProperty(log', e, name) == Ok(Some(MutableJsonElement(Encode(v), PushProperty(e.path, name), |log|)))
      && Resolve(log', MutableJsonElement(Encode(v), PushProperty(e.path, name), |log|)) == Encode(v)
  {
    var c := AdditionEntry(log, e, name, v);
    assert !IsProperAncestor(c.path, e.path);
    AncestorChangedAppend(log, c, e.path, e.highWaterMark);
    TryGetChangeAppend(log, c, c.path, e.highWaterMark);
    TryGetChangeAppend(log, c, c.path, |log|);
  }

  // ---------------------------------------------------------------- navigation

  /** The root view of a document with no changes is current. */
  lemma RootIsCurrent(original: JsonNode)
    ensures Current([], MutableJsonElement(original, "", -1))
    ensures Materialize([], MutableJsonElement(original, "", -1)) == Ok(OriginalElement(original))
  {
  }

  /**
   * Navigation preserves currency: a property of a current view is itself
   * usable and current, for every name without the delimiter (see
   * `DelimiterInNameYieldsStaleChild` for one with it).
   */
  lemma PropertyOfCurrentViewIsCurrent(log: seq<Change>, e: MutableJsonElement, name: string)
    requires WellFormedLog(log) && Current(log, e) && Delimiter !in name
    ensures TryGetProperty(log, e, name).Ok? && TryGetProperty(log, e, name).value.Some? ==>
      Current(log, TryGetProperty(log, e, name).value.value)
  {
    var r := TryGetProperty(log, e, name);
    if r.Ok? && r.value.Some? {
      ChildIsUsable(log, e, name, r.value.value);
    }
  }

  /** The same for array elements. */
  lemma ElementOfCurrentViewIsCurrent(log: seq<Change>, e: MutableJsonElement, index: int)
    requires WellFormedLog(log) && Current(log, e)
    ensures GetIndexElement(log, e, index).Ok? ==> Current(log, GetIndexElement(log, e, index).value)
  {
    var r := GetIndexElement(log, e, index);
    if r.Ok? {
      ChildIsUsable(log, e, IntToDecimal(index), r.value);
    }
  }

  /**
   * A child of a current view, pinned no lower than its parent, is usable.
   * The empty name under the root gives the root's own path, which has no
   * ancestor at all.
   */
  lemma ChildIsUsable(log: seq<Change>, e: MutableJsonElement, name: string, child: MutableJsonElement)
    requires Current(log, e) && Delimiter !in name
    requires child.path == PushProperty(e.path, name) && e.highWaterMark <= child.highWaterMark
    ensures !Stale(log, child)
  {
    if |e.path| == 0 && |name| == 0 {
      assert child.path == "";
      return;
    }
    forall i | 0 <= i < |log| ensures !Invalidates(log[i], child.path, child.highWaterMark) {
      if Invalidates(log[i], child.path, child.highWaterMark) {
        PushPropertyAncestors(log[i].path, e.path, name);
        if log[i].path == e.path {
          assert Matches(log[i], e.path, e.highWaterMark);
        } else {
          assert Invalidates(log[i], e.path, e.highWaterMark);
        }
      }
    }
  }

  /**
   * Navigation reads the original node's properties even when the view's own
   * value has since been replaced: the child it hands out is then stale.
   */
  lemma ChildOfReplacedViewIsStale(log: seq<Change>, e: MutableJsonElement, name: string)
    requires !Stale(log, e) && e.element.JObject? && (|e.path| == 0 ==> |name| > 0)
    requires TryGetChange(log, e.path, e.highWaterMark).Some?
    requires TryGetChange(log, e.path, e.highWaterMark).value.kind == Modification
    requires TryGetChange(log, PushProperty(e.path, name), e.highWaterMark).None?
    requires PropertyValue(e.element.props, name).Some?
    ensures TryGetProperty(log, e, name).Ok? && TryGetProperty(log, e, name).value.Some?
    ensures Stale(log, TryGetProperty(log, e, name).value.value)
  {
    var c := TryGetChange(log, e.path, e.highWaterMark).value;
    var child := TryGetProperty(log, e, name).value.value;
    if |e.path| > 0 {
      assert child.path[..|e.path|] == e.path;
    }
    var i :| 0 <= i < |log| && log[i] == c;
    assert Invalidates(log[i], child.path, child.highWaterMark);
  }

  /**
   * Array length and indexing agree on a current view: every index below
   * the length reaches an element.
   */
  lemma IndexWithinLength(log: seq<Change>, e: MutableJsonElement, index: int)
    requires Current(log, e) && e.element.JArray?
    ensures GetArrayLength(log, e) == Ok(|e.element.items|)
    ensures 0 <= index < |e.element.items| ==> GetIndexElement(log, e, index).Ok?
  {
  }

  /**
   * The path scheme gives a property with the empty name directly under the
   * root the root's own (empty) path. In any document whose root has no
   * entry of its own yet, navigating to that property yields a view at the
   * root's path, and setting any value through that view replaces what the
   * root itself reads.
   */
  lemma EmptyNameUnderRootAliasesRoot(log: seq<Change>, props: seq<Property>, v: Value)
    requires TryGetChange(log, "", -1).None?
    requires PropertyValue(props, "").Some?
    ensures var root := MutableJsonElement(JObject(props), "", -1);
      var child := MutableJsonElement(PropertyValue(props, "").value, "", -1);
      && TryGetProperty(log, root, "") == Ok(Some(child))
      && Resolve(log + [SetEntry(log, child, v)], root) == Encode(v)
      && ValueKind(log + [SetEntry(log, child, v)], root) == Kind(Encode(v))
  {
    var child := MutableJsonElement(PropertyValue(props, "").value, "", -1);
    TryGetChangeAppend(log, SetEntry(log, child, v), "", -1);
  }

  /**
   * A property name that itself contains the delimiter composes to a path
   * that another property's path is an ancestor of. Replacing that other
   * property then makes the child stale, although the parent is current:
   * the root of `{"a": 1, "a<delimiter>b": 2}` after a set on "a".
   */
  lemma DelimiterInNameYieldsStaleChild()
    ensures var log := [Change("a", 0, Modification, Absent, None)];
      var root := MutableJsonElement(JObject([Property("a", JNumber(1)), Property("a" + [Delimiter] + "b", JNumber(2))]), "", -1);
      && WellFormedLog(log)
      && Current(log, root)
      && TryGetProperty(log, root, "a" + [Delimiter] + "b") ==
         Ok(Some(MutableJsonElement(JNumber(2), "a" + [Delimiter] + "b", -1)))
      && Stale(log, TryGetProperty(log, root, "a" + [Delimiter] + "b").value.value)
  {
    var log := [Change("a", 0, Modification, Absent, None)];
    var path := "a" + [Delimiter] + "b";
    assert path[..1] == "a" && path[1] == Delimiter;
    assert Invalidates(log[0], path, -1);
  }
}
