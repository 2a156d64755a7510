/** Records: the closed JSON tree the modelled code walks. Objects keep their
    entries in insertion order, as Python dicts do; numbers are integers. */
module Json {
  import opened Wrappers
  import opened Dicts
  import opened Strings

  datatype Json =
    | JNull
    | JBool(b: bool)
    | JNum(n: int)
    | JStr(s: string)
    | JArr(items: seq<Json>)
    | JObj(fields: Entries<Json>)

  /** Python truthiness: `None`, `False`, `0`, and empty strings, lists and
      dicts are false. */
  predicate Truthy(j: Json)
  {
    match j
    case JNull => false
    case JBool(b) => b
    case JNum(n) => n != 0
    case JStr(s) => |s| > 0
    case JArr(items) => |items| > 0
    case JObj(fields) => |fields| > 0
  }

  /** Python's `record.get(key)` on a dict: `None` when the key is absent. */
  function GetField(fields: Entries<Json>, key: string): (r: Json)
    ensures !HasKey(fields, key) ==> r == JNull
  {
    match Get(fields, key)
    case Some(v) => v
    case None => JNull
  }

  /** A string-keyed dict turned into a JSON object of strings. */
  function StringsToJson(d: Entries<string>): (r: Entries<Json>)
    ensures |r| == |d|
    ensures forall i :: 0 <= i < |d| ==> r[i] == Entry(d[i].key, JStr(d[i].value))
  {
    if |d| == 0 then [] else [Entry(d[0].key, JStr(d[0].value))] + StringsToJson(d[1..])
  }

  /** Python's `str(v)`: a string as is, `None`, `True`, `False` and integers
      spelled as Python spells them; lists and dicts are rendered by `repr`,
      a parameter. */
  function Str(j: Json, repr: Json -> string): (r: string)
    ensures j.JStr? ==> r == j.s
    ensures j.JNum? ==> r == IntToString(j.n)
  {
    match j
    case JNull => "None"
    case JBool(b) => if b then "True" else "False"
    case JNum(n) => IntToString(n)
    case JStr(s) => s
    case _ => repr(j)
  }
}
