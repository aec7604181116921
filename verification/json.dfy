/**
 * The JSON values that `json.loads` can return, as far as the audit pipeline
 * inspects them.  Numbers are integers: floating point is not modelled.
 */
module Json {

  datatype Json =
    | JNull
    | JBool(b: bool)
    | JNum(n: int)
    | JStr(s: string)
    | JArr(items: seq<Json>)
    | JObj(fields: map<string, Json>)

  /** Python truthiness of a decoded JSON value (`bool(x)`). */
  predicate Truthy(j: Json)
  {
    match j
    case JNull => false
    case JBool(b) => b
    case JNum(n) => n != 0
    case JStr(s) => |s| > 0
    case JArr(items) => |items| > 0
    case JObj(fields) => |fields| > 0
  }

  /** True iff Python can hash the decoded value: lists and dicts cannot be dictionary keys. */
  predicate Hashable(j: Json)
  {
    !j.JArr? && !j.JObj?
  }

  /** True iff `j` is a JSON array whose every element is a string (pydantic's `List[str]`). */
  predicate IsStringList(j: Json)
  {
    j.JArr? && forall k :: 0 <= k < |j.items| ==> j.items[k].JStr?
  }

  /** The strings of a string list, in order. */
  function Strings(j: Json): (r: seq<string>)
    requires IsStringList(j)
    ensures |r| == |j.items|
    ensures forall k :: 0 <= k < |r| ==> j.items[k] == JStr(r[k])
  {
    seq(|j.items|, k requires 0 <= k < |j.items| => j.items[k].s)
  }

  /** The JSON list that encodes a sequence of strings. */
  function StringList(xs: seq<string>): (r: Json)
    ensures IsStringList(r)
    ensures Strings(r) == xs
  {
    JArr(seq(|xs|, k requires 0 <= k < |xs| => JStr(xs[k])))
  }
}
