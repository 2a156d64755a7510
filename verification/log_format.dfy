/** The log-format contract: which keys of a record count as its timestamp,
    message and severity, and how single-element lists are unwrapped. */
module LogFormat {
  import opened Wrappers
  import opened Dicts
  import opened Json
  import opened Strings

  const TimestampAliases: seq<string> := ["timestamp", "time", "ts", "@timestamp", "date", "datetime", "created_at", "logged_at"]
  const MessageAliases: seq<string> := ["message", "msg", "text", "log", "body", "content", "description", "summary"]
  const SeverityAliases: seq<string> := ["severity", "level", "log_level", "priority", "loglevel"]

  /** `LogFormatConfig`: optional custom field names. */
  datatype LogFormatConfig = LogFormatConfig(timestampField: Option<string>, messageField: Option<string>, severityField: Option<string>)

  const DefaultFormat: LogFormatConfig := LogFormatConfig(None, None, None)

  /** `config or LogFormatConfig()`. */
  function OrDefault(config: Option<LogFormatConfig>): LogFormatConfig
  {
    if config.Some? then config.value else DefaultFormat
  }

  /** The elements of `s` other than `x`, in order. */
  function Without(s: seq<string>, x: string): (r: seq<string>)
    ensures forall k :: k in r <==> k in s && k != x
    ensures NoDuplicates(s) ==> NoDuplicates(r)
  {
    if |s| == 0 then []
    else if s[0] == x then Without(s[1..], x)
    else
      var rest := Without(s[1..], x);
      TailNoDuplicates(s);
      ConsNoDuplicates(s[0], rest);
      [s[0]] + rest
  }

  /** The head of a duplicate-free list does not occur in its tail. */
  lemma TailNoDuplicates(s: seq<string>)
    requires |s| > 0
    ensures NoDuplicates(s) ==> s[0] !in s[1..]
  {
    if NoDuplicates(s) {
      forall j | 0 <= j < |s| - 1 ensures s[1..][j] != s[0] {
        assert s[1..][j] == s[j + 1];
      }
    }
  }

  /** The shared body of `timestamp_keys`, `message_keys` and `severity_keys`:
      a non-empty custom field first, then the aliases it does not repeat. */
  function KeysWith(custom: Option<string>, aliases: seq<string>): (r: seq<string>)
    ensures NoDuplicates(aliases) ==> NoDuplicates(r)
    ensures custom.Some? && |custom.value| > 0 ==> |r| > 0 && r[0] == custom.value && r[1..] == Without(aliases, custom.value)
    ensures !(custom.Some? && |custom.value| > 0) ==> r == aliases
    ensures forall k :: k in r <==> k in aliases || (custom.Some? && |custom.value| > 0 && k == custom.value)
  {
    if custom.Some? && |custom.value| > 0 then
      var rest := Without(aliases, custom.value);
      ConsNoDuplicates(custom.value, rest);
      [custom.value] + rest
    else aliases
  }

  lemma AliasesDistinct()
    ensures NoDuplicates(TimestampAliases) && NoDuplicates(MessageAliases) && NoDuplicates(SeverityAliases)
  {
  }

  function TimestampKeys(config: LogFormatConfig): (r: seq<string>)
    ensures NoDuplicates(r)
    ensures forall k :: k in TimestampAliases ==> k in r
  {
    AliasesDistinct();
    KeysWith(config.timestampField, TimestampAliases)
  }

  function MessageKeys(config: LogFormatConfig): (r: seq<string>)
    ensures NoDuplicates(r)
    ensures forall k :: k in MessageAliases ==> k in r
  {
    AliasesDistinct();
    KeysWith(config.messageField, MessageAliases)
  }

  function SeverityKeys(config: LogFormatConfig): (r: seq<string>)
    ensures NoDuplicates(r)
    ensures forall k :: k in SeverityAliases ==> k in r
  {
    AliasesDistinct();
    KeysWith(config.severityField, SeverityAliases)
  }

  /** `_unwrap_value`: the element of a one-element list, else the value. */
  function Unwrap(v: Json): (r: Json)
    ensures v.JArr? && |v.items| == 1 ==> r == v.items[0]
    ensures !(v.JArr? && |v.items| == 1) ==> r == v
  {
    if v.JArr? && |v.items| == 1 then v.items[0] else v
  }

  /** What `_get_first_present` accepts for key `k`: present, not `None`,
      not `None` once unwrapped, and not a blank string once unwrapped. */
  predicate Usable(record: Entries<Json>, k: string)
  {
    && HasKey(record, k)
    && GetField(record, k) != JNull
    && Unwrap(GetField(record, k)) != JNull
    && !(Unwrap(GetField(record, k)).JStr? && IsBlank(Unwrap(GetField(record, k)).s))
  }

  /** `_get_first_present`: the first usable key, in order, and its
      unwrapped value. */
  function GetFirstPresent(record: Entries<Json>, keys: seq<string>): (r: Option<(string, Json)>)
    ensures r.None? <==> forall i :: 0 <= i < |keys| ==> !Usable(record, keys[i])
    ensures r.Some? ==> Usable(record, r.value.0) && r.value.1 == Unwrap(GetField(record, r.value.0))
    ensures r.Some? ==> exists i :: 0 <= i < |keys| && keys[i] == r.value.0 && forall j :: 0 <= j < i ==> !Usable(record, keys[j])
  {
    if |keys| == 0 then None
    else if Usable(record, keys[0]) then Some((keys[0], Unwrap(GetField(record, keys[0]))))
    else
      var r := GetFirstPresent(record, keys[1..]);
      assert forall i :: 0 < i < |keys| ==> keys[i] == keys[1..][i - 1];
      if r.Some? then
        var i :| 0 <= i < |keys[1..]| && keys[1..][i] == r.value.0 && forall j :: 0 <= j < i ==> !Usable(record, keys[1..][j]);
        assert keys[i + 1] == r.value.0;
        r
      else r
  }

  /** `normalize_record`: a dict's values unwrapped, anything else as is. */
  function NormalizeRecord(record: Json): (r: Json)
    ensures !record.JObj? ==> r == record
    ensures record.JObj? ==> r.JObj? && Keys(r.fields) == Keys(record.fields)
    ensures record.JObj? ==> forall i :: 0 <= i < |record.fields| ==> r.fields[i].value == Unwrap(record.fields[i].value)
  {
    if !record.JObj? then record else JObj(UnwrapAll(record.fields))
  }

  function UnwrapAll(fields: Entries<Json>): (r: Entries<Json>)
    ensures |r| == |fields|
    ensures forall i :: 0 <= i < |fields| ==> r[i] == Entry(fields[i].key, Unwrap(fields[i].value))
  {
    if |fields| == 0 then [] else [Entry(fields[0].key, Unwrap(fields[0].value))] + UnwrapAll(fields[1..])
  }

  /** `resolve_timestamp_key`; a missing config means the default one. */
  function ResolveTimestampKey(record: Entries<Json>, config: Option<LogFormatConfig>): (r: Option<string>)
    ensures r.Some? <==> exists i :: 0 <= i < |TimestampKeys(OrDefault(config))| && Usable(record, TimestampKeys(OrDefault(config))[i])
    ensures r.Some? ==> Usable(record, r.value)
  {
    var found := GetFirstPresent(record, TimestampKeys(OrDefault(config)));
    if found.Some? then Some(found.value.0) else None
  }

  /** `resolve_message_key`. */
  function ResolveMessageKey(record: Entries<Json>, config: Option<LogFormatConfig>): (r: Option<string>)
    ensures r.Some? <==> exists i :: 0 <= i < |MessageKeys(OrDefault(config))| && Usable(record, MessageKeys(OrDefault(config))[i])
    ensures r.Some? ==> Usable(record, r.value)
  {
    var found := GetFirstPresent(record, MessageKeys(OrDefault(config)));
    if found.Some? then Some(found.value.0) else None
  }

  const MissingTimestamp: string := "Missing required field: timestamp (or time, ts, @timestamp, date, datetime)"
  const MissingMessage: string := "Missing required field: message (or msg, text, log, body, content, event)"

  /** `has_required_log_fields`: both a timestamp and a message key resolve;
      a missing timestamp is reported first. */
  function HasRequiredLogFields(record: Entries<Json>, config: Option<LogFormatConfig>): (r: (bool, Option<string>))
    ensures r.0 <==> ResolveTimestampKey(record, config).Some? && ResolveMessageKey(record, config).Some?
    ensures r.0 <==> r.1.None?
    ensures ResolveTimestampKey(record, config).None? ==> r.1 == Some(MissingTimestamp)
    ensures ResolveTimestampKey(record, config).Some? && ResolveMessageKey(record, config).None? ==> r.1 == Some(MissingMessage)
  {
    var cfg := OrDefault(config);
    var ts := GetFirstPresent(record, TimestampKeys(cfg));
    var msg := GetFirstPresent(record, MessageKeys(cfg));
    if ts.None? || ts.value.1 == JNull then (false, Some(MissingTimestamp))
    else if msg.None? || msg.value.1 == JNull then (false, Some(MissingMessage))
    else (true, None)
  }
}
