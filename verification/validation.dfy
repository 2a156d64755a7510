/** Input validation (`validate_record`, `_depth`, `validate_batch`): the
    checks that turn away records too big or too deeply nested to process. */
module Validation {
  import opened Wrappers
  import opened Dicts
  import opened Json
  import opened Strings

  /** The limits the checks use. */
  const MaxStringLength: nat := 1_000_000
  const MaxDepth: nat := 20
  const MaxKeys: nat := 10_000
  const DefaultMaxRecords: nat := 1_000_000

  /** How deeply containers nest: 0 for a scalar or an empty container, one
      more than the deepest child otherwise. */
  function Height(j: Json): (h: nat)
    decreases j, 1
  {
    match j
    case JArr(items) => if |items| == 0 then 0 else 1 + HeightItems(items, 0)
    case JObj(fields) => if |fields| == 0 then 0 else 1 + HeightFields(fields, 0)
    case _ => 0
  }

  /** The greatest height of `items[i..]`. */
  function HeightItems(items: seq<Json>, i: nat): (h: nat)
    requires i < |items|
    ensures forall k :: i <= k < |items| ==> Height(items[k]) <= h
    decreases items, 0, |items| - i
  {
    var d := Height(items[i]);
    if i == |items| - 1 then d
    else
      var rest := HeightItems(items, i + 1);
      if d >= rest then d else rest
  }

  /** The greatest height of the values of `fields[i..]`. */
  function HeightFields(fields: Entries<Json>, i: nat): (h: nat)
    requires i < |fields|
    ensures forall k :: i <= k < |fields| ==> Height(fields[k].value) <= h
    decreases fields, 0, |fields| - i
  {
    var d := Height(fields[i].value);
    if i == |fields| - 1 then d
    else
      var rest := HeightFields(fields, i + 1);
      if d >= rest then d else rest
  }

  /** `_depth(obj, current, max_depth)`: the nesting depth counted from
      `current`, where the descent stops once past `maxDepth`. Lists and
      dicts are descended into; everything else is a leaf. */
  function Depth(j: Json, current: int, maxDepth: int): (r: int)
    ensures r >= current
    decreases j, 1
  {
    if current > maxDepth then current
    else
      match j
      case JArr(items) => if |items| == 0 then current else DepthItems(items, 0, current + 1, maxDepth)
      case JObj(fields) => if |fields| == 0 then current else DepthFields(fields, 0, current + 1, maxDepth)
      case _ => current
  }

  /** `max(_depth(item, current, max_depth) for item in items[i..])`. */
  function DepthItems(items: seq<Json>, i: nat, current: int, maxDepth: int): (r: int)
    requires i < |items|
    ensures r >= current
    decreases items, 0, |items| - i
  {
    var d := Depth(items[i], current, maxDepth);
    if i == |items| - 1 then d
    else
      var rest := DepthItems(items, i + 1, current, maxDepth);
      if d >= rest then d else rest
  }

  /** `max(_depth(v, current, max_depth) for v in fields.values()[i..])`. */
  function DepthFields(fields: Entries<Json>, i: nat, current: int, maxDepth: int): (r: int)
    requires i < |fields|
    ensures r >= current
    decreases fields, 0, |fields| - i
  {
    var d := Depth(fields[i].value, current, maxDepth);
    if i == |fields| - 1 then d
    else
      var rest := DepthFields(fields, i + 1, current, maxDepth);
      if d >= rest then d else rest
  }

  function Min(a: int, b: int): int
  {
    if a <= b then a else b
  }

  /** `_depth` computes the true height, capped: starting at `current` no
      deeper than the cap, the result is `current + Height(j)` or, when that
      passes the cap, one past it. */
  lemma {:induction false} DepthCapped(j: Json, current: int, maxDepth: int)
    ensures Depth(j, current, maxDepth) == if current > maxDepth then current else Min(current + Height(j), maxDepth + 1)
    decreases j, 1
  {
    if current <= maxDepth {
      match j
      case JArr(items) =>
        if |items| > 0 {
          DepthItemsCapped(items, 0, current + 1, maxDepth);
        }
      case JObj(fields) =>
        if |fields| > 0 {
          DepthFieldsCapped(fields, 0, current + 1, maxDepth);
        }
      case _ =>
    }
  }

  lemma {:induction false} DepthItemsCapped(items: seq<Json>, i: nat, current: int, maxDepth: int)
    requires i < |items| && current <= maxDepth + 1
    ensures DepthItems(items, i, current, maxDepth) == if current > maxDepth then current else Min(current + HeightItems(items, i), maxDepth + 1)
    decreases items, 0, |items| - i
  {
    DepthCapped(items[i], current, maxDepth);
    if i < |items| - 1 {
      DepthItemsCapped(items, i + 1, current, maxDepth);
    }
  }

  lemma {:induction false} DepthFieldsCapped(fields: Entries<Json>, i: nat, current: int, maxDepth: int)
    requires i < |fields| && current <= maxDepth + 1
    ensures DepthFields(fields, i, current, maxDepth) == if current > maxDepth then current else Min(current + HeightFields(fields, i), maxDepth + 1)
    decreases fields, 0, |fields| - i
  {
    DepthCapped(fields[i].value, current, maxDepth);
    if i < |fields| - 1 {
      DepthFieldsCapped(fields, i + 1, current, maxDepth);
    }
  }

  /** Python's `type(record).__name__` for the scalar kinds. */
  function TypeName(j: Json): string
  {
    match j
    case JNull => "NoneType"
    case JBool(_) => "bool"
    case JNum(_) => "int"
    case JStr(_) => "str"
    case JArr(_) => "list"
    case JObj(_) => "dict"
  }

  /** `validate_record`: `(is_valid, error_message)`. */
  function ValidateRecord(record: Json, strict: bool): (r: (bool, Option<string>))
    ensures r.0 <==> r.1.None?
    ensures r.0 <==>
      && !record.JNull?
      && !(strict && (record.JBool? || record.JNum?))
      && !(record.JStr? && |record.s| > MaxStringLength)
      && !(record.JObj? && (Height(record) > MaxDepth || |record.fields| > MaxKeys))
    ensures record.JNull? ==> r.1 == Some("Record is None")
    ensures record.JObj? && Height(record) > MaxDepth ==>
      r.1 == Some("Record nesting too deep: " + NatToString(MaxDepth + 1) + " levels (max 20)")
  {
    DepthCapped(record, 0, MaxDepth);
    if record.JNull? then (false, Some("Record is None"))
    else if strict && (record.JBool? || record.JNum?) then
      (false, Some("Record must be dict, str, or list, got " + TypeName(record)))
    else if record.JStr? && |record.s| > MaxStringLength then
      (false, Some("Record too large: " + NatToString(|record.s|) + " bytes (max 1MB)"))
    else if record.JObj? && Depth(record, 0, MaxDepth) > MaxDepth then
      (false, Some("Record nesting too deep: " + NatToString(Depth(record, 0, MaxDepth)) + " levels (max 20)"))
    else if record.JObj? && |record.fields| > MaxKeys then
      (false, Some("Record has too many keys: " + NatToString(|record.fields|) + " (max 10,000)"))
    else (true, None)
  }

  /** `validate_batch`: only the batch's size is checked. */
  function ValidateBatch<T>(records: seq<T>, maxRecords: int): (r: (bool, Option<string>))
    ensures r.0 <==> r.1.None?
    ensures r.0 <==> |records| <= maxRecords
  {
    if |records| > maxRecords then
      (false, Some("Batch too large: " + NatToString(|records|) + " records (max " + IntToString(maxRecords) + ")"))
    else (true, None)
  }
}
