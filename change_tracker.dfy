/**
 * The document's change log and the path scheme that keys it.
 *
 * The log is append-only; the entry appended n-th carries index n. A view
 * pinned at high-water mark m holds an element that already reflects every
 * entry up to index m, so the entries it still has to consult are those
 * with an index above m (m = -1: every entry).
 */
module ChangeTracker {
  import opened JsonTree

  // ---------------------------------------------------------------- paths

  /** The character that separates the segments of a path. */
  const Delimiter: char := '\U{1}'

  /** Path of property `name` under `path`; the root's path is empty and gets no separator. */
  function PushProperty(path: string, name: string): (r: string)
    ensures |r| == |name| + (if |path| > 0 then |path| + 1 else 0)
  {
    if |path| == 0 then name else path + [Delimiter] + name
  }

  /** Decimal digits of a natural number. */
  function NatToDecimal(n: nat): (s: string)
    ensures |s| > 0
    ensures forall c :: c in s ==> '0' <= c <= '9'
    decreases n
  {
    var d := ['0' + (n % 10) as char];
    if n < 10 then d else NatToDecimal(n / 10) + d
  }

  function IntToDecimal(i: int): (s: string)
    ensures Delimiter !in s && |s| > 0
  {
    if i < 0 then "-" + NatToDecimal(-i) else NatToDecimal(i)
  }

  /** Path of element `index` under `path`: the index written in decimal, as a property name. */
  function PushIndex(path: string, index: int): (r: string)
    ensures IsProperAncestor(path, r)
    ensures |r| == |IntToDecimal(index)| + (if |path| > 0 then |path| + 1 else 0)
    ensures r[|r| - |IntToDecimal(index)|..] == IntToDecimal(index)
  {
    var r := PushProperty(path, IntToDecimal(index));
    assert |path| > 0 ==> r[..|path|] == path;
    r
  }

  /** `a` is the path of a proper ancestor of the location at `p`. */
  predicate IsProperAncestor(a: string, p: string)
  {
    (|a| == 0 && |p| > 0) || (|a| < |p| && p[..|a|] == a && p[|a|] == Delimiter)
  }

  // ---------------------------------------------------------------- entries

  datatype ChangeKind = Modification | PropertyAddition | PropertyRemoval

  /**
   * What an entry stores: a typed scalar exactly as it was set, an already
   * encoded sub-tree, or nothing (an explicit null, or a removal).
   */
  datatype Payload =
    | IntegerValue(kind: IntKind, n: int)
    | BoolValue(b: bool)
    | StringValue(s: string)
    | Subtree(node: JsonNode)
    | Absent

  datatype Change = Change(path: string, index: nat, kind: ChangeKind, value: Payload, addedName: Option<string>)

  /** A typed integer payload fits its width, as the statically typed setter guarantees. */
  predicate WellTyped(p: Payload)
  {
    p.IntegerValue? ==> InRange(p.kind, p.n)
  }

  /** The log as the document builds it: indices are positions, payloads are well typed. */
  predicate WellFormedLog(log: seq<Change>)
  {
    forall i :: 0 <= i < |log| ==> log[i].index == i && WellTyped(log[i].value)
  }

  /** The payload as a parsed element (the change's serialized value). */
  function Serialize(p: Payload): (n: JsonNode)
    // a stored parsed element is handed back as it is
    ensures p.Subtree? ==> n == p.node
    // a typed scalar becomes the scalar element of the same value
    ensures p.IntegerValue? ==> n.JNumber? && n.n == p.n
    ensures p.BoolValue? ==> n.JBool? && n.b == p.b
    ensures p.StringValue? ==> n.JString? && n.s == p.s
    // nothing stored reads as null, and only a sub-tree can be an object or an array
    ensures p.Absent? ==> n.JNull?
    ensures n.JObject? || n.JArray? ==> p.Subtree?
  {
    match p
    case IntegerValue(_, n) => JNumber(n)
    case BoolValue(b) => JBool(b)
    case StringValue(s) => JString(s)
    case Subtree(node) => node
    case Absent => JNull
  }

  /** The kind an entry reports for its payload, computed from the payload's own type. */
  function PayloadKind(p: Payload): (k: JsonValueKind)
    ensures k == Kind(Serialize(p))
  {
    match p
    case IntegerValue(_, _) => Number
    case BoolValue(b) => if b then True else False
    case StringValue(_) => String
    case Subtree(node) => Kind(node)
    case Absent => Null
  }

  // ---------------------------------------------------------------- lookups

  /** An entry with index `index` is not yet reflected in a view pinned at `mark`. */
  predicate Visible(index: nat, mark: int)
  {
    mark < index
  }

  predicate Matches(c: Change, path: string, mark: int)
  {
    c.path == path && Visible(c.index, mark)
  }

  /** Position of the latest entry at `path` visible at `mark`, or -1. */
  function LastMatch(log: seq<Change>, path: string, mark: int): (i: int)
    ensures -1 <= i < |log|
    ensures 0 <= i ==> Matches(log[i], path, mark)
    ensures forall j :: i < j < |log| ==> !Matches(log[j], path, mark)
    decreases |log|
  {
    if log == [] then -1
    else if Matches(log[|log| - 1], path, mark) then |log| - 1
    else LastMatch(log[..|log| - 1], path, mark)
  }

  /** The authoritative entry for `path` at `mark`: the latest visible one. */
  function TryGetChange(log: seq<Change>, path: string, mark: int): (r: Option<Change>)
    ensures r.None? <==> forall j :: 0 <= j < |log| ==> !Matches(log[j], path, mark)
    ensures r.Some? ==> r.value in log && r.value.path == path && Visible(r.value.index, mark)
    ensures r.Some? ==> exists i :: 0 <= i < |log| && log[i] == r.value && forall j :: i < j < |log| ==> !Matches(log[j], path, mark)
  {
    var i := LastMatch(log, path, mark);
    if i < 0 then None else Some(log[i])
  }

  /** An entry that replaces the whole value at its path (and so every location below it). */
  predicate Invalidates(c: Change, path: string, mark: int)
  {
    c.kind != PropertyAddition && IsProperAncestor(c.path, path) && Visible(c.index, mark)
  }

  /** Some proper ancestor of `path` was replaced or removed after `mark`. */
  function AncestorChanged(log: seq<Change>, path: string, mark: int): (r: bool)
    ensures r <==> exists i :: 0 <= i < |log| && Invalidates(log[i], path, mark)
    decreases |log|
  {
    if log == [] then false
    else Invalidates(log[|log| - 1], path, mark) || AncestorChanged(log[..|log| - 1], path, mark)
  }

  predicate TouchesDescendant(c: Change, path: string, mark: int)
  {
    IsProperAncestor(path, c.path) && Visible(c.index, mark)
  }

  /** Some location strictly below `path` has an entry after `mark`. */
  function DescendantChanged(log: seq<Change>, path: string, mark: int): (r: bool)
    ensures r <==> exists i :: 0 <= i < |log| && TouchesDescendant(log[i], path, mark)
    decreases |log|
  {
    if log == [] then false
    else TouchesDescendant(log[|log| - 1], path, mark) || DescendantChanged(log[..|log| - 1], path, mark)
  }
}
