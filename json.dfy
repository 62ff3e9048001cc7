/** JSON-like values as the pipeline handles them: the parsed replies of the
    reasoning service, element dictionaries and free-form metadata. Python's
    `None` and JSON `null` are the same value, `JNull`. Numbers are `real`;
    Python's distinction between `int` and `float` is not kept. */
module Json {
  import opened Wrappers

  datatype Json =
    | JNull
    | JBool(b: bool)
    | JNum(n: real)
    | JStr(s: string)
    | JList(items: seq<Json>)
    | JObj(fields: map<string, Json>)

  /** Python's truth value of a JSON value. */
  predicate Truthy(j: Json) {
    match j
    case JNull => false
    case JBool(b) => b
    case JNum(n) => n != 0.0
    case JStr(s) => s != ""
    case JList(xs) => xs != []
    case JObj(m) => m != map[]
  }

  /** The number Python arithmetic and comparisons see in `j`: a `bool` counts
      as 0 or 1; any other non-number makes them raise `TypeError` (`None`). */
  function AsNumber(j: Json): (r: Option<real>)
    ensures r.Some? <==> j.JNum? || j.JBool?
  {
    match j
    case JNum(n) => Some(n)
    case JBool(b) => Some(if b then 1.0 else 0.0)
    case _ => None
  }

  /** Python's `a == b` on two values at the top level: numbers and booleans
      compare by value (`True == 1`), everything else structurally. */
  predicate PyEquals(a: Json, b: Json) {
    if AsNumber(a).Some? && AsNumber(b).Some? then AsNumber(a).value == AsNumber(b).value
    else a == b
  }

  /** `d.get(key)`: `None` when the key is absent. */
  function Get(m: map<string, Json>, key: string): Json {
    if key in m then m[key] else JNull
  }

  predicate OccursAt(needle: string, s: string, i: nat) {
    i + |needle| <= |s| && s[i..i + |needle|] == needle
  }

  predicate IsSubstring(needle: string, s: string) {
    exists i | 0 <= i <= |s| :: OccursAt(needle, s, i)
  }

  /** Python's `key in j` for a string key: a dictionary tests its keys, a list
      its items and a string its substrings; on any other value `in` raises
      `TypeError` (`None`). */
  function ContainsKey(j: Json, key: string): Option<bool> {
    match j
    case JObj(m) => Some(key in m)
    case JList(xs) => Some(JStr(key) in xs)
    case JStr(s) => Some(IsSubstring(key, s))
    case _ => None
  }
}
