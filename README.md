# Mutable JSON overlay — a Dafny model

This project models the mutable JSON element of Azure.Core
(`sdk/core/Azure.Core/src/DynamicData/MutableJsonElement.cs`). A `MutableJsonElement` is a
read-only cursor over a parsed JSON document. It is made of four things: the owning document,
a node of the original parse, a path string and a high-water mark. Reads consult the document's
append-only change log first and fall back to the parsed node. Writes never touch the parse;
they append entries to the log. A view becomes unusable ("stale") once one of its ancestors has
been replaced or removed after the view was taken.

Files:

- `json_tree.dfy` (`JsonTree`): the immutable parse tree (null, booleans, integer numbers,
  strings, arrays, objects as ordered name/value pairs). It also holds the accessors of a parsed
  element that the overlay falls back to, the integer widths, and the error and result types.
- `change_tracker.dfy` (`ChangeTracker`): change entries (path, index, kind, payload, added
  name) and how paths are composed. It also holds specification functions for the log queries
  the element calls: `TryGetChange`, `AncestorChanged` and `DescendantChanged`.
- `change_tracker_properties.dfy` (`ChangeTrackerProperties`): path composition is injective,
  the ancestors of a child path are known, and appending an entry affects the queries in a
  known way.
- `document.dfy` (`Document`): the document as a class. It holds the original parse as a
  constant and the change log as a `seq` field; `AddChange` appends to it.
- `mutable_json_element.dfy` (`Element`): the view as a datatype. Reads are functions of
  (log, view); `Set`, `SetProperty` and `RemoveProperty` are methods that append to the
  document's log.
- `element_properties.dfy` (`ElementProperties`): how operations relate across writes. It
  covers read-after-write, removal, addition, invalidation of descendants, write isolation, and
  the fact that navigation from a current view yields current views.

## How a view sees the log

- **Entry indices.** The n-th entry appended to the log carries index n
  (`ChangeTracker.WellFormedLog`).
- **What the mark means.** A view pinned at mark `m` holds a node that already reflects every
  entry up to index `m`. The entries it still has to consult are those with an index **above**
  `m`. A mark of -1 consults every entry (`ChangeTracker.Visible`).
- **Why this reading.** The element's own code requires it:
  - A child found through an entry gets that entry's serialized value as its node and is pinned
    at the entry's index (MutableJsonElement.cs line 120).
  - Children found inside that node inherit the mark (line 131).
  - Under the other reading ("entries up to the mark are visible"), every grandchild of a
    freshly set sub-tree would see the set as an ancestor change and would be stale. A view
    pinned at an entry's index would also never see later writes to its own path.
- **The other possible reading.** That would be "index ≤ mark". The code of the lookup itself
  is not part of this model, so the model follows what lines 120 and 131 require. The rule
  lives in one predicate.
- **Invalidation.** Only Modification and PropertyRemoval entries at a proper ancestor's path
  make a view stale. A view at the replaced path itself stays usable and reads the new value
  (`ElementProperties.ReadAfterSet`).
- **Path composition.** `PushProperty(p, n)` is `n` when `p` is empty and `p + Delimiter + n`
  otherwise. This is the length the path buffer at lines 99-100 reserves. `PushIndex` writes the
  index in decimal as a property name. Composition is injective for names that do not contain
  the delimiter (`PushPropertyInjective`, `PushIndexInjective`).
- **Empty name under the root.** A property with the empty name directly under the root gets
  the root's own path. In every document whose root has no entry of its own yet, setting a
  value through that property's view changes what the root reads
  (`EmptyNameUnderRootAliasesRoot`).

## Model

| member | source | states |
|---|---|---|
| `JsonTree.Kind` | sdk/core/Azure.Core/src/DynamicData/MutableJsonElement.cs:50 | the kind of a parsed element (`ValueKind`, also read by the guards at 1182 and 1190): a boolean reports True or False, and only objects and arrays report Object and Array |
| `JsonTree.PropertyValue` | sdk/core/Azure.Core/src/DynamicData/MutableJsonElement.cs:124-131 | the parse's own lookup: absent exactly when no property has the name; otherwise the value of the property with that name that no later property redefines (the last definition wins) |
| `JsonTree.LastPropertyIndex` | sdk/core/Azure.Core/src/DynamicData/MutableJsonElement.cs:124 | the position found holds the name and no later property has it |
| `JsonTree.NodeTryGetInteger` | sdk/core/Azure.Core/src/DynamicData/MutableJsonElement.cs:263 | a parsed element read as an integer: an error exactly when it is not a number; a value only if it fits the width; a fitting number always succeeds |
| `JsonTree.NodeGetString` | sdk/core/Azure.Core/src/DynamicData/MutableJsonElement.cs:407 | a parsed string reads as itself, null as no string, any other kind is an error |
| `JsonTree.NodeGetBoolean` | sdk/core/Azure.Core/src/DynamicData/MutableJsonElement.cs:429 | succeeds exactly on booleans, with their value |
| `ChangeTracker.PushProperty` | sdk/core/Azure.Core/src/DynamicData/MutableJsonElement.cs:98-110 | the composed path has exactly the length the buffer reserves: the name, plus the parent and one delimiter when the parent is not the root |
| `ChangeTracker.NatToDecimal` | sdk/core/Azure.Core/src/DynamicData/MutableJsonElement.cs:172 | the decimal text of a natural number is non-empty and made of digits only |
| `ChangeTracker.IntToDecimal` | sdk/core/Azure.Core/src/DynamicData/MutableJsonElement.cs:172 | the index's text, a minus sign before negative ones, is non-empty and never contains the delimiter, so an index segment is a single segment |
| `ChangeTracker.PushIndex` | sdk/core/Azure.Core/src/DynamicData/MutableJsonElement.cs:172 | the element path lies below the array's path, and its last segment is the index in decimal |
| `ChangeTracker.Serialize` | sdk/core/Azure.Core/src/DynamicData/MutableJsonElement.cs:120 | the change's serialized value: a stored parsed element is handed back as it is, a typed scalar becomes the scalar of the same value, nothing stored reads as null, and only a stored sub-tree can be an object or an array |
| `ChangeTracker.PayloadKind` | sdk/core/Azure.Core/src/DynamicData/MutableJsonElement.cs:45-48 | the kind an entry reports is the kind of its serialized value |
| `ChangeTracker.LastMatch` | sdk/core/Azure.Core/src/DynamicData/MutableJsonElement.cs:112 | the position returned matches path and mark, and no later entry does |
| `ChangeTracker.TryGetChange` | sdk/core/Azure.Core/src/DynamicData/MutableJsonElement.cs:112-122 | nothing is found exactly when no entry at the path is visible at the mark; otherwise the latest visible entry at that path |
| `ChangeTracker.AncestorChanged` | sdk/core/Azure.Core/src/DynamicData/MutableJsonElement.cs:1196-1202 | true exactly when some Modification or PropertyRemoval entry at a proper ancestor's path is visible at the mark |
| `ChangeTracker.DescendantChanged` | sdk/core/Azure.Core/src/DynamicData/MutableJsonElement.cs:1125-1129 | true exactly when some entry strictly below the path is visible at the mark |
| `ChangeTrackerProperties.NatToDecimalInjective` | sdk/core/Azure.Core/src/DynamicData/MutableJsonElement.cs:172 | distinct natural numbers have distinct decimal digits |
| `ChangeTrackerProperties.IntToDecimalInjective` | sdk/core/Azure.Core/src/DynamicData/MutableJsonElement.cs:172 | distinct indices give distinct path segments |
| `ChangeTrackerProperties.PushPropertyInjective` | sdk/core/Azure.Core/src/DynamicData/MutableJsonElement.cs:98-110 | for delimiter-free names, equal composed paths come from equal parents and names |
| `ChangeTrackerProperties.LastDelimiter` | sdk/core/Azure.Core/src/DynamicData/MutableJsonElement.cs:99-100 | below a non-root parent, the delimiter after the parent is the path's last one |
| `ChangeTrackerProperties.PushIndexInjective` | sdk/core/Azure.Core/src/DynamicData/MutableJsonElement.cs:172 | equal element paths come from equal parents and indices |
| `ChangeTrackerProperties.PushPropertyAncestors` | sdk/core/Azure.Core/src/DynamicData/MutableJsonElement.cs:1198 | the proper ancestors of a child path are its parent and the parent's ancestors |
| `ChangeTrackerProperties.TryGetChangeAppend` | sdk/core/Azure.Core/src/DynamicData/MutableJsonElement.cs:112 | after an append, the lookup finds the new entry if it matches, and otherwise what it found before |
| `ChangeTrackerProperties.AncestorChangedAppend` | sdk/core/Azure.Core/src/DynamicData/MutableJsonElement.cs:1198 | after an append, a view is stale exactly when it was stale before or the new entry replaces one of its ancestors |
| `ChangeTrackerProperties.DescendantChangedAppend` | sdk/core/Azure.Core/src/DynamicData/MutableJsonElement.cs:1126 | after an append, a descendant counts as changed when it did before or the new entry lies below the path |
| `ChangeTrackerProperties.EntriesUpToMarkAreIgnored` | sdk/core/Azure.Core/src/DynamicData/MutableJsonElement.cs:120 | entries at or below a view's mark never influence its lookup, staleness or descendant check |
| `Document.MutableJsonDocument.AddChange` | sdk/core/Azure.Core/src/DynamicData/MutableJsonElement.cs:1079-1084 | appends exactly one entry, carrying the next index, and keeps every earlier entry |
| `Element.RootElement` | sdk/core/Azure.Core/src/DynamicData/MutableJsonElement.cs:30-36 | the root view holds the original parse, consults every entry of the log, and can never be stale, whatever the log holds |
| `Element.EnsureValid` | sdk/core/Azure.Core/src/DynamicData/MutableJsonElement.cs:1196-1202 | fails with the stale-view error exactly when some visible Modification or PropertyRemoval entry sits at a proper ancestor's path |
| `Element.EnsureObject` | sdk/core/Azure.Core/src/DynamicData/MutableJsonElement.cs:1180-1186 | passes exactly when the ORIGINAL node is an object; otherwise fails naming the node's kind |
| `Element.EnsureArray` | sdk/core/Azure.Core/src/DynamicData/MutableJsonElement.cs:1188-1194 | passes exactly when the ORIGINAL node is an array; otherwise fails naming the node's kind |
| `Element.ValueKind` | sdk/core/Azure.Core/src/DynamicData/MutableJsonElement.cs:41-52 | the kind of the latest visible entry at the view's path, else the kind of the parsed node; not guarded, so stale views also answer |
| `Element.TryGetProperty` | sdk/core/Azure.Core/src/DynamicData/MutableJsonElement.cs:92-141 | stale-view error exactly on stale views. Fails unless the ORIGINAL node is an object, and past those two guards never fails. A visible removal hides the property. Another visible entry yields a child holding its value, pinned at its index. Otherwise the parse decides and the child inherits the mark. The child's path is the composed path and its node reflects every entry at that path |
| `Element.LatestEntryIsCurrent` | sdk/core/Azure.Core/src/DynamicData/MutableJsonElement.cs:120 | a view pinned at the latest visible entry for its path sees no pending entry there |
| `Element.GetProperty` | sdk/core/Azure.Core/src/DynamicData/MutableJsonElement.cs:65-73 | property-not-found naming the path and the name exactly when the try-lookup finds nothing; its child when it finds one; its error otherwise |
| `Element.GetArrayLength` | sdk/core/Azure.Core/src/DynamicData/MutableJsonElement.cs:152-164 | stale-view error on stale views. Needs the original node to be an array. On success the result is the length of the array the view stands for (entry first, node second), and it fails when that value is not an array |
| `Element.GetIndexElement` | sdk/core/Azure.Core/src/DynamicData/MutableJsonElement.cs:166-179 | stale and non-array guards. A visible entry at the element path wins, pinned at its index. Otherwise the parsed element is returned with the parent's mark, and an index outside the parsed array is an error |
| `Element.TryGetInteger` | sdk/core/Azure.Core/src/DynamicData/MutableJsonElement.cs:242-264 | stale-view error exactly on stale views. An explicit null reads as no value. Otherwise the result equals reading the view's current value as a parsed element, so the typed shortcut agrees with the serialized form, and any value returned fits the width |
| `Element.GetInteger` | sdk/core/Azure.Core/src/DynamicData/MutableJsonElement.cs:272-280 | a format error naming the path and width exactly when the try-getter has no value; the value when it has one; its error otherwise |
| `Element.GetString` | sdk/core/Azure.Core/src/DynamicData/MutableJsonElement.cs:383-408 | succeeds exactly when the current value is a string or null, with that string or none; an integer or boolean entry fails with an error naming the path |
| `Element.GetBoolean` | sdk/core/Azure.Core/src/DynamicData/MutableJsonElement.cs:415-430 | succeeds exactly when the current value is a boolean, with that value; an entry that is not a boolean or a sub-tree fails with an error naming the path |
| `Element.Materialize` | sdk/core/Azure.Core/src/DynamicData/MutableJsonElement.cs:1116-1151 | rendering branch of `ToString`/`GetJsonElement`: fails exactly on stale views. An entry at the path is always rendered from its value. Otherwise a change below the path always selects the merged rewrite. With neither, the parsed node is emitted as it is |
| `Element.PayloadOf` | sdk/core/Azure.Core/src/DynamicData/MutableJsonElement.cs:1029-1085 | the untyped setter's dispatch keeps the value's JSON meaning: serializing the stored payload gives the value's encoding. Null becomes an explicit absent value, and only non-scalar objects become sub-trees |
| `Element.Set` | sdk/core/Azure.Core/src/DynamicData/MutableJsonElement.cs:849-1086 | fails with a stale-view error and appends nothing exactly on stale views; otherwise appends one Modification at the view's own path carrying the dispatched payload |
| `Element.SetProperty` | sdk/core/Azure.Core/src/DynamicData/MutableJsonElement.cs:802-823 | a property the lookup finds is set through its child view (a Modification, no addition). A missing one gets one PropertyAddition carrying the serialized value and the name. Lookup errors propagate with nothing appended. The receiver is returned |
| `Element.RemoveProperty` | sdk/core/Azure.Core/src/DynamicData/MutableJsonElement.cs:830-843 | stale and non-object guards. Fails, appending nothing, when the ORIGINAL node lacks the property. Otherwise appends exactly one PropertyRemoval with no value at the composed path |
| `ElementProperties.ReadAfterSet` | sdk/core/Azure.Core/src/DynamicData/MutableJsonElement.cs:860-865 | after a set, every usable view of that path whose mark admits the entry reads the value. A typed integer reads back as itself. A string or boolean reads back through its getter. A set to null reads as no value, and the strict getter then raises the format error |
| `ElementProperties.SetElsewhereIsInvisible` | sdk/core/Azure.Core/src/DynamicData/MutableJsonElement.cs:246 | a set at another path that is not an ancestor leaves the view's staleness, resolved value, kind, array length and typed getters unchanged (a set below the view does change its navigation and rendering) |
| `ElementProperties.SetOutsideSubtreeIsInvisible` | sdk/core/Azure.Core/src/DynamicData/MutableJsonElement.cs:1120-1129 | a set that is neither at, above nor below the view's path also leaves its property and element navigation and its rendering unchanged |
| `ElementProperties.ChildPathIsBelow` | sdk/core/Azure.Core/src/DynamicData/MutableJsonElement.cs:110 | a composed path is its parent's own path (only for the empty name under the root) or lies below it |
| `ElementProperties.SetInvalidatesDescendants` | sdk/core/Azure.Core/src/DynamicData/MutableJsonElement.cs:1196-1202 | after a set on an ancestor, every guarded read and navigation on an earlier descendant view fails with the stale-view error |
| `ElementProperties.RenavigateAfterSet` | sdk/core/Azure.Core/src/DynamicData/MutableJsonElement.cs:804-807 | for every name, after setting a found property through its child view, looking the property up again yields the new value, pinned at the new entry |
| `ElementProperties.RemovalHidesProperty` | sdk/core/Azure.Core/src/DynamicData/MutableJsonElement.cs:112-118 | after a removal, the try-lookup finds nothing and the strict lookup reports the property as missing |
| `ElementProperties.AdditionIsFound` | sdk/core/Azure.Core/src/DynamicData/MutableJsonElement.cs:819-822 | after an addition, the lookup yields the added value, pinned at the new entry |
| `ElementProperties.RootIsCurrent` | sdk/core/Azure.Core/src/DynamicData/MutableJsonElement.cs:30-36 | the root view over an unchanged document is usable, current, and renders the original parse as it is |
| `ElementProperties.PropertyOfCurrentViewIsCurrent` | sdk/core/Azure.Core/src/DynamicData/MutableJsonElement.cs:120-131 | for every name that does not contain the delimiter (the empty name under the root included), navigating to a property from a current view yields a usable, current view |
| `ElementProperties.ElementOfCurrentViewIsCurrent` | sdk/core/Azure.Core/src/DynamicData/MutableJsonElement.cs:172-178 | the same for array elements |
| `ElementProperties.ChildIsUsable` | sdk/core/Azure.Core/src/DynamicData/MutableJsonElement.cs:131 | for every name that does not contain the delimiter (the empty name under the root included), a child of a current view pinned no lower than its parent is not stale |
| `ElementProperties.ChildOfReplacedViewIsStale` | sdk/core/Azure.Core/src/DynamicData/MutableJsonElement.cs:124-131 | for every name except the empty name under the root (whose child is the root's own path), if a view's own value was replaced, navigation still reads the original node, and the child it returns is already stale |
| `ElementProperties.DelimiterInNameYieldsStaleChild` | sdk/core/Azure.Core/src/DynamicData/MutableJsonElement.cs:110-131 | why the two lemmas above exclude names containing the delimiter: on the root of `{"a": 1, "a<delimiter>b": 2}` after a set on "a", the root is current, yet the child it hands out for "a<delimiter>b" is stale |
| `ElementProperties.IndexWithinLength` | sdk/core/Azure.Core/src/DynamicData/MutableJsonElement.cs:152-179 | on a current array view, the length is the parsed length and every index below it reaches an element |
| `ElementProperties.EmptyNameUnderRootAliasesRoot` | sdk/core/Azure.Core/src/DynamicData/MutableJsonElement.cs:99-110 | for every document whose root has no entry of its own yet, every root object with an empty-named property and every value: navigating to it yields a view at the root's own path, and setting the value through that view changes what the root reads and reports |

## Left out

- The source of `MutableJsonDocument`, its `ChangeTracker` and `MutableJsonChange` is not part
  of this model. The document is modelled by `Document.MutableJsonDocument`, an entry by
  `ChangeTracker.Change`, and the tracker's lookups by specification functions with the
  contracts above. Their behaviour is inferred from how this file uses them. The delimiter
  character is fixed as U+0001.
- `Element.TryGetInteger` and `Element.GetInteger` stand for the eight integer widths (byte,
  sbyte, short, ushort, int, uint, long, ulong) through one `IntKind` parameter. Numbers are
  integers only, so the `double`/`float` getters and setters are left out (floating point).
- The `DateTime`, `DateTimeOffset`, `decimal` and `Guid` getters and setters are left out; their
  parsing belongs to System.Text.Json. The string getter's branch for non-string scalars that
  serialize to strings is therefore unreachable in the model.
- `Element.PayloadOf`: objects other than scalars reach the model already encoded (the
  `VObject` value). JSON serialization is out of scope, as is the check that a
  `MutableJsonElement` or `MutableJsonDocument` passed as a value is itself not stale. The same
  holds for the pre-.NET 6 `JsonDocument` unwrapping in `SetProperty`.
- `Element.Materialize`: only the branch selection of `ToString`/`GetJsonElement` is modelled.
  The merged rewrite (`GetRawBytes`, `WriteTo`) and the text produced are writer I/O.
- `EnumerateArray`, `EnumerateObject` and the enumerators are not part of this model, so the
  order in which additions appear on enumeration is not stated.
- `GetReaderForElement`, `DisposeRoot`, the debugger display and the JSON converter are left
  out (stream I/O and host integration). So is the stack/pool buffer handling of the path,
  which only affects performance.
- `Element.RootElement`: the document's root view is taken as the original parse at the empty
  path with mark -1. The document's own code for it is not part of this model.
- The view's `_root` link is dropped. Reads take a log and writes take a document, and pairing
  a view with the log of the document it came from is left to the caller. The model cannot
  express which document a view belongs to.
