/** The connectors' shared field normalisation (`_normalize_common_fields`):
    fill in event, message, timestamp and source without overwriting what a
    payload already has, and merge metadata. The clock is a parameter. */
module Connectors {
  import opened Wrappers
  import opened Dicts
  import opened Json

  /** `d.setdefault(k, v)` as a new dict: an existing key keeps its value, a
      missing one is appended. */
  function SetDefault(d: Entries<Json>, k: string, v: Json): (r: Entries<Json>)
    ensures Get(r, k) == if Get(d, k).Some? then Get(d, k) else Some(v)
    ensures forall k' :: k' != k ==> Get(r, k') == Get(d, k')
    decreases |d|
  {
    if |d| == 0 then [Entry(k, v)]
    else if d[0].key == k then d
    else [d[0]] + SetDefault(d[1..], k, v)
  }

  /** The keys the normalisation may add or change. */
  const Managed: set<string> := {"event", "message", "timestamp", "metadata", "source"}

  /** Python truthiness of an optional string argument. */
  predicate Given(s: Option<string>)
  {
    s.Some? && |s.value| > 0
  }

  /** What `d.setdefault(k, default)` answers when `k` was absent or held
      `v`. */
  function Kept(d: Entries<Json>, k: string, default: Json): Json
  {
    if Get(d, k).Some? then Get(d, k).value else default
  }

  /** `if value: d.setdefault(k, value)`. */
  function SetIfGiven(d: Entries<Json>, k: string, value: Option<string>): (r: Entries<Json>)
    ensures Get(r, k) == if Get(d, k).Some? then Get(d, k) else if Given(value) then Some(JStr(value.value)) else None
    ensures forall k' :: k' != k ==> Get(r, k') == Get(d, k')
  {
    if Given(value) then SetDefault(d, k, JStr(value.value)) else d
  }

  /** The timestamp step: the argument if given, else the clock's reading
      when the key is missing. */
  function SetTimestamp(d: Entries<Json>, timestamp: Option<string>, now: string): (r: Entries<Json>)
    ensures Get(r, "timestamp") == Some(Kept(d, "timestamp", JStr(if Given(timestamp) then timestamp.value else now)))
    ensures forall k' :: k' != "timestamp" ==> Get(r, k') == Get(d, k')
  {
    if Given(timestamp) then SetDefault(d, "timestamp", JStr(timestamp.value))
    else if Get(d, "timestamp").None? then SetDefault(d, "timestamp", JStr(now))
    else d
  }

  /** Event, message and timestamp, before the metadata step. */
  function FillFields(payload: Entries<Json>, event: Option<string>, message: Option<string>, timestamp: Option<string>, now: string): (r: Entries<Json>)
    ensures forall k :: k != "event" && k != "message" && k != "timestamp" ==> Get(r, k) == Get(payload, k)
    ensures Get(r, "event") == if Get(payload, "event").Some? then Get(payload, "event") else if Given(event) then Some(JStr(event.value)) else None
    ensures Get(r, "message") == if Get(payload, "message").Some? then Get(payload, "message") else if Given(message) then Some(JStr(message.value)) else None
    ensures Get(r, "timestamp") == Some(Kept(payload, "timestamp", JStr(if Given(timestamp) then timestamp.value else now)))
  {
    var p1 := SetIfGiven(payload, "event", event);
    var p2 := SetIfGiven(p1, "message", message);
    SetTimestamp(p2, timestamp, now)
  }

  /** The metadata step: `payload.setdefault("metadata", {}).update(metadata)`,
      which raises when the existing value is not a dict. */
  function MergeMetadata(payload: Entries<Json>, metadata: Option<Entries<Json>>): (r: Result<Entries<Json>>)
    ensures r.Err? <==> metadata.Some? && |metadata.value| > 0 && Get(payload, "metadata").Some? && !Get(payload, "metadata").value.JObj?
    ensures r.Ok? ==> forall k :: k != "metadata" ==> Get(r.value, k) == Get(payload, k)
    ensures r.Ok? && !(metadata.Some? && |metadata.value| > 0) ==> r.value == payload
    ensures r.Ok? && metadata.Some? && |metadata.value| > 0 ==>
      Get(r.value, "metadata") == Some(JObj(Update(Kept(payload, "metadata", JObj([])).fields, metadata.value)))
  {
    if !(metadata.Some? && |metadata.value| > 0) then Ok(payload)
    else
      var p := SetDefault(payload, "metadata", JObj([]));
      var existing := Get(p, "metadata").value;
      if !existing.JObj? then Err(AttributeError("update"))
      else
        PutGet(p, "metadata", JObj(Update(existing.fields, metadata.value)), "metadata");
        forall k | k != "metadata" ensures Get(Put(p, "metadata", JObj(Update(existing.fields, metadata.value))), k) == Get(p, k) {
          PutGet(p, "metadata", JObj(Update(existing.fields, metadata.value)), k);
        }
        Ok(Put(p, "metadata", JObj(Update(existing.fields, metadata.value))))
  }

  /** `_normalize_common_fields`: fill the fields, merge the metadata, and set
      `source` to the connector's name unless present. `now` is what the
      clock would give. */
  function NormalizeCommonFields(payload: Entries<Json>, name: string, event: Option<string>, message: Option<string>,
                                 timestamp: Option<string>, metadata: Option<Entries<Json>>, now: string): (r: Result<Entries<Json>>)
  {
    var filled := FillFields(payload, event, message, timestamp, now);
    match MergeMetadata(filled, metadata)
    case Err(e) => Err(e)
    case Ok(merged) => Ok(SetDefault(merged, "source", JStr(name)))
  }

  /** The metadata step leaves key `k` alone. */
  lemma MergeOthers(d: Entries<Json>, metadata: Option<Entries<Json>>, k: string)
    requires k != "metadata"
    ensures MergeMetadata(d, metadata).Ok? ==> Get(MergeMetadata(d, metadata).value, k) == Get(d, k)
  {
  }

  /** The call raises only when metadata is given and the payload's
      `metadata` is not a dict. */
  lemma NormalizeRaises(payload: Entries<Json>, name: string, event: Option<string>, message: Option<string>,
                        timestamp: Option<string>, metadata: Option<Entries<Json>>, now: string)
    ensures NormalizeCommonFields(payload, name, event, message, timestamp, metadata, now).Err? <==>
      metadata.Some? && |metadata.value| > 0 && Get(payload, "metadata").Some? && !Get(payload, "metadata").value.JObj?
  {
    var filled := FillFields(payload, event, message, timestamp, now);
    assert Get(filled, "metadata") == Get(payload, "metadata");
  }

  /** Nothing outside the managed keys changes. */
  lemma NormalizeKeepsOthers(payload: Entries<Json>, name: string, event: Option<string>, message: Option<string>,
                             timestamp: Option<string>, metadata: Option<Entries<Json>>, now: string)
    ensures var r := NormalizeCommonFields(payload, name, event, message, timestamp, metadata, now);
      r.Ok? ==> forall k :: k !in Managed ==> Get(r.value, k) == Get(payload, k)
  {
    forall k | k !in Managed
      ensures var r := NormalizeCommonFields(payload, name, event, message, timestamp, metadata, now);
        r.Ok? ==> Get(r.value, k) == Get(payload, k)
    {
      NormalizeGet(payload, name, event, message, timestamp, metadata, now, k);
    }
  }

  /** Keys other than `metadata` and `source` are as the filling step left
      them. */
  lemma NormalizeGet(payload: Entries<Json>, name: string, event: Option<string>, message: Option<string>,
                     timestamp: Option<string>, metadata: Option<Entries<Json>>, now: string, k: string)
    requires k != "metadata" && k != "source"
    ensures var r := NormalizeCommonFields(payload, name, event, message, timestamp, metadata, now);
      r.Ok? ==> Get(r.value, k) == Get(FillFields(payload, event, message, timestamp, now), k)
  {
    MergeOthers(FillFields(payload, event, message, timestamp, now), metadata, k);
  }

  /** An existing event or message is never overwritten; a missing one
      comes from a non-empty argument. */
  lemma NormalizeEventMessage(payload: Entries<Json>, name: string, event: Option<string>, message: Option<string>,
                              timestamp: Option<string>, metadata: Option<Entries<Json>>, now: string)
    ensures var r := NormalizeCommonFields(payload, name, event, message, timestamp, metadata, now);
      && (r.Ok? ==> Get(r.value, "event") == if Get(payload, "event").Some? then Get(payload, "event") else if Given(event) then Some(JStr(event.value)) else None)
      && (r.Ok? ==> Get(r.value, "message") == if Get(payload, "message").Some? then Get(payload, "message") else if Given(message) then Some(JStr(message.value)) else None)
  {
    NormalizeGet(payload, name, event, message, timestamp, metadata, now, "event");
    NormalizeGet(payload, name, event, message, timestamp, metadata, now, "message");
  }

  /** An existing timestamp is never overwritten, and the clock is read only
      when there is neither a timestamp argument nor a timestamp key. */
  lemma NormalizeTimestamp(payload: Entries<Json>, name: string, event: Option<string>, message: Option<string>,
                           timestamp: Option<string>, metadata: Option<Entries<Json>>, now: string)
    ensures var r := NormalizeCommonFields(payload, name, event, message, timestamp, metadata, now);
      r.Ok? ==> Get(r.value, "timestamp") == Some(Kept(payload, "timestamp", JStr(if Given(timestamp) then timestamp.value else now)))
  {
    NormalizeGet(payload, name, event, message, timestamp, metadata, now, "timestamp");
  }

  /** `source` is the connector's name only when absent. */
  lemma NormalizeSource(payload: Entries<Json>, name: string, event: Option<string>, message: Option<string>,
                        timestamp: Option<string>, metadata: Option<Entries<Json>>, now: string)
    ensures var r := NormalizeCommonFields(payload, name, event, message, timestamp, metadata, now);
      r.Ok? ==> Get(r.value, "source") == Some(Kept(payload, "source", JStr(name)))
  {
    var filled := FillFields(payload, event, message, timestamp, now);
    MergeOthers(filled, metadata, "source");
  }

  /** The metadata step merges the argument into the existing dict, the
      argument's keys winning. */
  lemma MergeMetadataGet(d: Entries<Json>, metadata: Entries<Json>, k: string)
    requires |metadata| > 0 && DistinctKeys(metadata)
    requires Get(d, "metadata").None? || Get(d, "metadata").value.JObj?
    ensures var r := MergeMetadata(d, Some(metadata));
      && r.Ok?
      && Get(r.value, "metadata").Some? && Get(r.value, "metadata").value.JObj?
      && Get(Get(r.value, "metadata").value.fields, k) ==
         if HasKey(metadata, k) then Get(metadata, k) else Get(Kept(d, "metadata", JObj([])).fields, k)
  {
    UpdateGet(Kept(d, "metadata", JObj([])).fields, metadata, k);
  }

  /** The metadata argument is merged into what the payload had, the
      argument's keys winning. */
  lemma NormalizeMergesMetadata(payload: Entries<Json>, name: string, event: Option<string>, message: Option<string>,
                                timestamp: Option<string>, metadata: Entries<Json>, now: string, k: string)
    requires |metadata| > 0 && DistinctKeys(metadata)
    requires Get(payload, "metadata").None? || Get(payload, "metadata").value.JObj?
    ensures var r := NormalizeCommonFields(payload, name, event, message, timestamp, Some(metadata), now);
      && r.Ok?
      && Get(r.value, "metadata").Some? && Get(r.value, "metadata").value.JObj?
      && Get(Get(r.value, "metadata").value.fields, k) ==
         if HasKey(metadata, k) then Get(metadata, k) else Get(Kept(payload, "metadata", JObj([])).fields, k)
  {
    var filled := FillFields(payload, event, message, timestamp, now);
    assert Get(filled, "metadata") == Get(payload, "metadata");
    MergeMetadataGet(filled, metadata, k);
  }
}
