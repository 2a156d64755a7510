/** The log parser (`LogParser`): the message a record is parsed from, and
    the de-duplicated pattern matches found in it. The regular expressions are
    parameters; the spaCy entities and keywords are not modelled. */
module Parsing {
  import opened Wrappers
  import opened Dicts
  import opened Json
  import opened Strings

  /** `findall` of each pattern on a message: `API_ENDPOINT_PATTERN`,
      `STATUS_CODE_PATTERN`, `AMOUNT_PATTERN`, `ACCOUNT_TOKEN_PATTERN` and
      `ERROR_TOKEN_PATTERN`. */
  datatype Patterns = Patterns(
    apiEndpoints: string -> seq<string>,
    statusCodes: string -> seq<string>,
    amounts: string -> seq<string>,
    accountTokens: string -> seq<string>,
    errorTokens: string -> seq<string>)

  /** `ParsedRecord` without NLP: the entity and keyword lists stay empty. */
  datatype ParsedRecord = ParsedRecord(
    message: string,
    apiEndpoints: seq<string>,
    statusCodes: seq<string>,
    monetaryValues: seq<string>,
    accountTokens: seq<string>,
    errorTokens: seq<string>)

  /** The keys `_extract_message` tries, in order. */
  const MessageFields: seq<string> := ["message", "msg", "log", "description", "detail"]

  /** The first of `keys` whose value in the record is a string. */
  function FirstStringField(fields: Entries<Json>, keys: seq<string>): (r: Option<string>)
    ensures r.Some? <==> exists i :: 0 <= i < |keys| && GetField(fields, keys[i]).JStr?
    ensures r.Some? ==> exists i :: 0 <= i < |keys| && GetField(fields, keys[i]) == JStr(r.value)
                          && forall j :: 0 <= j < i ==> !GetField(fields, keys[j]).JStr?
  {
    if |keys| == 0 then None
    else if GetField(fields, keys[0]).JStr? then Some(GetField(fields, keys[0]).s)
    else
      var r := FirstStringField(fields, keys[1..]);
      assert forall i :: 1 <= i < |keys| ==> keys[i] == keys[1..][i - 1];
      if r.Some? then
        ghost var i :| 0 <= i < |keys| - 1 && GetField(fields, keys[1..][i]) == JStr(r.value)
                       && forall j :: 0 <= j < i ==> !GetField(fields, keys[1..][j]).JStr?;
        assert GetField(fields, keys[i + 1]) == JStr(r.value);
        assert forall j :: 0 <= j < i + 1 ==> !GetField(fields, keys[j]).JStr? by {
          forall j | 0 <= j < i + 1 ensures !GetField(fields, keys[j]).JStr? {
            if j > 0 { assert keys[j] == keys[1..][j - 1]; }
          }
        }
        r
      else r
  }

  /** `_extract_message`: a string is its own message; a dict gives the first
      string among its message-like fields, and otherwise its `str`. */
  function ExtractMessage(record: Json, repr: Json -> string): (r: string)
    ensures record.JStr? ==> r == record.s
    ensures record.JObj? ==> match FirstStringField(record.fields, MessageFields)
                             case Some(m) => r == m
                             case None => r == repr(record)
    ensures !record.JStr? && !record.JObj? ==> r == Str(record, repr)
  {
    match record
    case JStr(s) => s
    case JObj(fields) =>
      (match FirstStringField(fields, MessageFields)
       case Some(m) => m
       case None => repr(record))
    case _ => Str(record, repr)
  }

  /** Every item stripped. */
  function Stripped(items: seq<string>): (r: seq<string>)
    ensures |r| == |items| && forall i :: 0 <= i < |items| ==> r[i] == Strip(items[i])
  {
    seq(|items|, i requires 0 <= i < |items| => Strip(items[i]))
  }

  /** The non-empty strings of `ns` at their first occurrence, defined by the
      last one: it is kept when it is non-empty and not kept before. */
  function Kept(ns: seq<string>): seq<string>
  {
    if |ns| == 0 then []
    else
      var kept := Kept(ns[..|ns| - 1]);
      var n := ns[|ns| - 1];
      if |n| > 0 && n !in kept then kept + [n] else kept
  }

  /** `_unique`: the stripped items, each non-empty one kept at its first
      occurrence. */
  function UniqueSpec(items: seq<string>): seq<string>
  {
    Kept(Stripped(items))
  }

  /** One more string: kept when it is non-empty and new. */
  lemma KeptStep(ns: seq<string>, i: nat)
    requires i < |ns|
    ensures Kept(ns[..i + 1]) == if |ns[i]| > 0 && ns[i] !in Kept(ns[..i]) then Kept(ns[..i]) + [ns[i]] else Kept(ns[..i])
  {
    assert ns[..i + 1][..i] == ns[..i];
  }

  /** Nothing is kept twice. */
  lemma {:induction false} KeptDistinct(ns: seq<string>)
    ensures NoDuplicates(Kept(ns))
  {
    if |ns| > 0 {
      KeptDistinct(ns[..|ns| - 1]);
    }
  }

  /** What is kept is exactly the non-empty strings. */
  lemma {:induction false} KeptMembers(ns: seq<string>, x: string)
    ensures x in Kept(ns) <==> |x| > 0 && x in ns
  {
    if |ns| > 0 {
      KeptMembers(ns[..|ns| - 1], x);
      assert ns == ns[..|ns| - 1] + [ns[|ns| - 1]];
    }
  }

  /** The kept items are distinct, and they are exactly the non-blank items,
      stripped. */
  lemma UniqueSpecContents(items: seq<string>)
    ensures NoDuplicates(UniqueSpec(items))
    ensures forall x :: x in UniqueSpec(items) <==> |x| > 0 && exists i :: 0 <= i < |items| && Strip(items[i]) == x
  {
    var ns := Stripped(items);
    KeptDistinct(ns);
    forall x ensures x in UniqueSpec(items) <==> |x| > 0 && exists i :: 0 <= i < |items| && Strip(items[i]) == x {
      KeptMembers(ns, x);
      if x in ns {
        var i :| 0 <= i < |ns| && ns[i] == x;
        assert Strip(items[i]) == x;
      }
    }
  }

  /** `_unique` as written: one pass with a set of the items seen. */
  method Unique(items: seq<string>) returns (r: seq<string>)
    ensures r == UniqueSpec(items)
    ensures NoDuplicates(r)
    ensures forall x :: x in r <==> |x| > 0 && exists i :: 0 <= i < |items| && Strip(items[i]) == x
  {
    ghost var ns := Stripped(items);
    var seen: set<string> := {};
    r := [];
    var i := 0;
    while i < |items|
      invariant 0 <= i <= |items|
      invariant r == Kept(ns[..i])
      invariant forall x :: x in seen <==> x in r
    {
      KeptStep(ns, i);
      var item := items[i];
      if |item| > 0 {
        var normalized := Strip(item);
        assert normalized == ns[i];
        if |normalized| > 0 && normalized !in seen {
          seen := seen + {normalized};
          r := r + [normalized];
        }
      } else {
        assert |ns[i]| == 0;
      }
      assert r == Kept(ns[..i + 1]);
      i := i + 1;
    }
    assert ns[..i] == ns;
    UniqueSpecContents(items);
  }

  /** `parse_record` without NLP: the message, then each pattern's matches
      de-duplicated. */
  method ParseRecord(record: Json, repr: Json -> string, patterns: Patterns) returns (r: ParsedRecord)
    ensures r.message == ExtractMessage(record, repr)
    ensures r.apiEndpoints == UniqueSpec(patterns.apiEndpoints(r.message))
    ensures r.statusCodes == UniqueSpec(patterns.statusCodes(r.message))
    ensures r.monetaryValues == UniqueSpec(patterns.amounts(r.message))
    ensures r.accountTokens == UniqueSpec(patterns.accountTokens(r.message))
    ensures r.errorTokens == UniqueSpec(patterns.errorTokens(r.message))
    ensures forall x :: x in r.accountTokens ==> |x| > 0
  {
    var message := ExtractMessage(record, repr);
    var api := Unique(patterns.apiEndpoints(message));
    var status := Unique(patterns.statusCodes(message));
    var amounts := Unique(patterns.amounts(message));
    var accounts := Unique(patterns.accountTokens(message));
    var errors := Unique(patterns.errorTokens(message));
    r := ParsedRecord(message, api, status, amounts, accounts, errors);
  }
}
