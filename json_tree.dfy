/**
 * The immutable parse tree that every element view points into, and the
 * accessors of a parsed JSON element that the mutable overlay falls back to.
 * Numbers are integers only.
 */
module JsonTree {

  datatype Option<+T> = None | Some(value: T)

  /** The kinds a parsed element reports (`true` and `false` are separate kinds). */
  datatype JsonValueKind = Object | Array | String | Number | True | False | Null

  datatype JsonNode =
    | JNull
    | JBool(b: bool)
    | JNumber(n: int)
    | JString(s: string)
    | JArray(items: seq<JsonNode>)
    | JObject(props: seq<Property>)

  datatype Property = Property(name: string, value: JsonNode)

  function Kind(node: JsonNode): (k: JsonValueKind)
    ensures k == True || k == False <==> node.JBool?
    ensures k == Object <==> node.JObject?
    ensures k == Array <==> node.JArray?
  {
    match node
    case JNull => Null
    case JBool(b) => if b then True else False
    case JNumber(_) => Number
    case JString(_) => String
    case JArray(_) => Array
    case JObject(_) => Object
  }

  /** The failures a parsed element or the overlay can report. */
  datatype Error =
    | StaleView                                        // an ancestor was replaced after this view was taken
    | NotAnObject(actual: JsonValueKind)               // object operation on a non-object
    | NotAnArray(actual: JsonValueKind)                // array operation on a non-array
    | WrongKind(expected: JsonValueKind, actual: JsonValueKind)  // parsed element accessed as the wrong kind
    | IndexOutOfRange(index: int)
    | PropertyNotFound(path: string, name: string)
    | MissingProperty(name: string)                    // removal of a property the parse does not have
    | NotAString(path: string)
    | NotABool(path: string)
    | FormatError(path: string, kind: IntKind)         // value cannot be represented in the requested width

  datatype Result<+T> = Ok(value: T) | Err(error: Error)

  datatype Outcome = Pass | Fail(error: Error)

  /** The integer widths of the typed getters and setters. */
  datatype IntKind = Byte | SByte | Int16 | UInt16 | Int32 | UInt32 | Int64 | UInt64

  function MinValue(k: IntKind): int
  {
    match k
    case Byte => 0
    case SByte => -0x80
    case Int16 => -0x8000
    case UInt16 => 0
    case Int32 => -0x8000_0000
    case UInt32 => 0
    case Int64 => -0x8000_0000_0000_0000
    case UInt64 => 0
  }

  function MaxValue(k: IntKind): int
  {
    match k
    case Byte => 0xFF
    case SByte => 0x7F
    case Int16 => 0x7FFF
    case UInt16 => 0xFFFF
    case Int32 => 0x7FFF_FFFF
    case UInt32 => 0xFFFF_FFFF
    case Int64 => 0x7FFF_FFFF_FFFF_FFFF
    case UInt64 => 0xFFFF_FFFF_FFFF_FFFF
  }

  predicate InRange(k: IntKind, n: int)
  {
    MinValue(k) <= n <= MaxValue(k)
  }

  /**
   * Position of the LAST property called `name` (a parsed object that repeats
   * a name answers with its last definition), or -1.
   */
  function LastPropertyIndex(props: seq<Property>, name: string): (i: int)
    ensures -1 <= i < |props|
    ensures 0 <= i ==> props[i].name == name
    ensures forall j :: i < j < |props| ==> props[j].name != name
    decreases |props|
  {
    if props == [] then -1
    else if props[|props| - 1].name == name then |props| - 1
    else LastPropertyIndex(props[..|props| - 1], name)
  }

  /** Looks a property up in a parsed object. */
  function PropertyValue(props: seq<Property>, name: string): (r: Option<JsonNode>)
    ensures r.None? <==> forall j :: 0 <= j < |props| ==> props[j].name != name
    // a name defined more than once answers with its last definition
    ensures r.Some? ==> exists j :: 0 <= j < |props| && props[j] == Property(name, r.value) &&
                                    (forall k :: j < k < |props| ==> props[k].name != name)
  {
    var i := LastPropertyIndex(props, name);
    if i < 0 then None else Some(props[i].value)
  }

  /**
   * A parsed element read as an integer of width `k`: not a number is an
   * error, a number outside the width reports "no value".
   */
  function NodeTryGetInteger(node: JsonNode, k: IntKind): (r: Result<Option<int>>)
    ensures r.Err? <==> !node.JNumber?
    ensures r.Err? ==> r.error == WrongKind(Number, Kind(node))
    ensures r.Ok? && r.value.Some? ==> InRange(k, r.value.value) && node == JNumber(r.value.value)
    ensures node.JNumber? && InRange(k, node.n) ==> r == Ok(Some(node.n))
  {
    match node
    case JNumber(n) => if InRange(k, n) then Ok(Some(n)) else Ok(None)
    case _ => Err(WrongKind(Number, Kind(node)))
  }

  /** A parsed element read as a string: `null` reads as no string. */
  function NodeGetString(node: JsonNode): (r: Result<Option<string>>)
    ensures r.Ok? <==> node.JString? || node.JNull?
    ensures r == Ok(None) <==> node.JNull?
    ensures forall s :: r == Ok(Some(s)) <==> node == JString(s)
  {
    match node
    case JString(s) => Ok(Some(s))
    case JNull => Ok(None)
    case _ => Err(WrongKind(String, Kind(node)))
  }

  /** A parsed element read as a boolean. */
  function NodeGetBoolean(node: JsonNode): (r: Result<bool>)
    ensures r.Ok? <==> node.JBool?
    ensures r.Ok? ==> node == JBool(r.value)
  {
    match node
    case JBool(b) => Ok(b)
    case _ => Err(WrongKind(True, Kind(node)))
  }
}
