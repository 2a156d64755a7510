/** The fraud detection engine (`FraudDetectionEngine`): per-account event
    times, high-value totals and failed-login counts gathered from the
    records, and the findings drawn from them. Timestamps are integers
    (microseconds); amounts are reals. ISO parsing, `float` and `str` of
    containers are parameters. */
module Fraud {
  import opened Wrappers
  import opened Dicts
  import opened Json
  import opened Strings
  import opened Sorting
  import opened Parsing
  import Compliance

  /** `VELOCITY_WINDOW`: ten minutes, in microseconds. */
  const VelocityWindow: int := 600_000_000
  const HighValueThreshold: real := 5000.0
  const FailedLoginThreshold: int := 3

  /** The conversions the engine calls: `str` of a list or dict,
      `datetime.fromisoformat` (as microseconds) and `float`. */
  datatype Readers = Readers(repr: Json -> string, fromIso: string -> Option<int>, toFloat: string -> Option<real>)

  datatype FraudCategory = VelocityCheck | HighValueTransfers | FailedLoginVelocity

  function CategoryName(c: FraudCategory): string
  {
    match c
    case VelocityCheck => "VelocityCheck"
    case HighValueTransfers => "HighValueTransfers"
    case FailedLoginVelocity => "FailedLoginVelocity"
  }

  function Severity(c: FraudCategory): string
  {
    match c
    case VelocityCheck => "high"
    case HighValueTransfers => "medium"
    case FailedLoginVelocity => "medium"
  }

  function Description(c: FraudCategory): string
  {
    match c
    case VelocityCheck => "Account shows unusually high transaction velocity within 10 minute window."
    case HighValueTransfers => "Transactions exceeding $5000 detected."
    case FailedLoginVelocity => "Multiple failed logins detected for the same account."
  }

  function Rank(c: FraudCategory): nat
  {
    match c
    case VelocityCheck => 0
    case HighValueTransfers => 1
    case FailedLoginVelocity => 2
  }

  /** A `FraudFinding`; its name, severity and description follow from its
      category. */
  datatype FraudFinding = FraudFinding(category: FraudCategory, accounts: seq<string>, metrics: Entries<real>)

  /** `_extract_timestamp`: a string timestamp, without a trailing `Z`, read
      as an ISO date; anything else gives nothing. */
  function ExtractTimestamp(record: Entries<Json>, fromIso: string -> Option<int>): (r: Option<int>)
    ensures !GetField(record, "timestamp").JStr? ==> r.None?
    ensures GetField(record, "timestamp").JStr? ==>
      var s := GetField(record, "timestamp").s;
      r == fromIso(if |s| > 0 && s[|s| - 1] == 'Z' then s[..|s| - 1] else s)
  {
    match GetField(record, "timestamp")
    case JStr(s) => fromIso(if |s| > 0 && s[|s| - 1] == 'Z' then s[..|s| - 1] else s)
    case _ => None
  }

  /** `value.replace(",", "")`. */
  function RemoveCommas(s: string): (r: string)
    ensures forall i :: 0 <= i < |r| ==> r[i] != ','
    ensures |r| <= |s|
    ensures (forall i :: 0 <= i < |s| ==> s[i] != ',') ==> r == s
  {
    if |s| == 0 then ""
    else (if s[0] == ',' then "" else [s[0]]) + RemoveCommas(s[1..])
  }

  /** `_parse_amounts`: the monetary values that read as numbers once their
      commas are removed; the others are skipped. */
  function ParseAmounts(values: seq<string>, toFloat: string -> Option<real>): (r: seq<real>)
    ensures |r| <= |values|
    ensures (forall i :: 0 <= i < |values| ==> toFloat(RemoveCommas(values[i])).None?) ==> r == []
  {
    if |values| == 0 then []
    else
      var v := toFloat(RemoveCommas(values[0]));
      (if v.Some? then [v.value] else []) + ParseAmounts(values[1..], toFloat)
  }

  function Sum(xs: seq<real>): real
  {
    if |xs| == 0 then 0.0 else xs[0] + Sum(xs[1..])
  }

  /** The values of the hashed fields, each as `str` renders it. */
  function ValueStrings(fields: Entries<Json>, repr: Json -> string): (r: seq<string>)
    ensures |r| == |fields| && forall i :: 0 <= i < |fields| ==> r[i] == Str(fields[i].value, repr)
  {
    seq(|fields|, i requires 0 <= i < |fields| => Str(fields[i].value, repr))
  }

  /** `record.get("hashed_fields") or {}`. */
  function HashedFields(record: Entries<Json>): (r: Json)
    ensures Truthy(GetField(record, "hashed_fields")) ==> r == GetField(record, "hashed_fields")
    ensures !Truthy(GetField(record, "hashed_fields")) ==> r == JObj([])
  {
    if Truthy(GetField(record, "hashed_fields")) then GetField(record, "hashed_fields") else JObj([])
  }

  /** `_extract_accounts`: the parsed account tokens and the hashed values,
      without empty strings or repeats; hashed fields that are not a dict have
      no `values` to call. */
  function ExtractAccounts(tokens: seq<string>, hashed: Json, repr: Json -> string): (r: Result<seq<string>>)
    ensures r.Err? <==> Truthy(hashed) && !hashed.JObj?
    ensures r.Ok? ==> NoDuplicates(r.value)
    ensures r.Ok? ==> forall x :: x in r.value <==> |x| > 0 && (x in tokens || (hashed.JObj? && x in ValueStrings(hashed.fields, repr)))
  {
    if Truthy(hashed) && !hashed.JObj? then Err(AttributeError("values"))
    else
      var all := tokens + (if hashed.JObj? then ValueStrings(hashed.fields, repr) else []);
      KeptDistinct(all);
      forall x ensures x in Kept(all) <==> |x| > 0 && x in all {
        KeptMembers(all, x);
      }
      Ok(Kept(all))
  }

  /** What one record contributes: its accounts, its time, the sum of its
      amounts, whether it is a failed login, and the hashed values counted
      when it names no account. */
  datatype Observation = Observation(accounts: seq<string>, time: Option<int>, total: real, failedLogin: bool, fallback: seq<string>)

  /** A failed or denied login: the label is `login_event` and the lowered
      message says so. */
  predicate FailedLogin(record: Entries<Json>, repr: Json -> string)
  {
    var message := Lower(Compliance.MessageField(record, repr));
    Compliance.LabelIs(record, "login_event") && (Contains(message, "failed") || Contains(message, "denied"))
  }

  /** The body of the record loop up to the three dictionary updates: the
      label is read first, so an analysis that is not a dict raises before
      the hashed fields are looked at. */
  function Observe(record: Entries<Json>, parsed: ParsedRecord, readers: Readers): (r: Result<Observation>)
    ensures r.Err? <==> Compliance.Label(record).Err? || (Truthy(HashedFields(record)) && !HashedFields(record).JObj?)
    ensures r.Ok? ==> NoDuplicates(r.value.accounts)
    ensures r.Ok? ==> r.value.time == ExtractTimestamp(record, readers.fromIso)
    ensures r.Ok? ==> r.value.failedLogin == FailedLogin(record, readers.repr)
  {
    var hashed := HashedFields(record);
    match Compliance.Label(record)
    case Err(e) => Err(e)
    case Ok(_) =>
      match ExtractAccounts(parsed.accountTokens, hashed, readers.repr)
      case Err(e) => Err(e)
      case Ok(accounts) =>
        Ok(Observation(
          accounts,
          ExtractTimestamp(record, readers.fromIso),
          Sum(ParseAmounts(parsed.monetaryValues, readers.toFloat)),
          FailedLogin(record, readers.repr),
          if hashed.JObj? then ValueStrings(hashed.fields, readers.repr) else []))
  }

  function Min(a: int, b: int): int
  {
    if a <= b then a else b
  }

  /** Each record of `zip(records, parsed_records)` observed: the zip stops
      at the shorter list. */
  function Observations(records: seq<Entries<Json>>, parsed: seq<ParsedRecord>, readers: Readers): (r: seq<Result<Observation>>)
    ensures |r| == Min(|records|, |parsed|)
    ensures forall i :: 0 <= i < |r| ==> r[i] == Observe(records[i], parsed[i], readers)
  {
    var n := Min(|records|, |parsed|);
    seq(n, i requires 0 <= i < n => Observe(records[i], parsed[i], readers))
  }

  /** The loop stops at the first record that raises; otherwise it has seen
      every record. */
  function Collect(results: seq<Result<Observation>>): (r: Result<seq<Observation>>)
    ensures r.Ok? ==> |r.value| == |results| && forall i :: 0 <= i < |results| ==> results[i] == Ok(r.value[i])
  {
    if |results| == 0 then Ok([])
    else
      match results[0]
      case Err(e) => Err(e)
      case Ok(o) =>
        match Collect(results[1..])
        case Err(e) => Err(e)
        case Ok(os) =>
          assert forall i :: 1 <= i < |results| ==> results[i] == results[1..][i - 1];
          Ok([o] + os)
  }

  /** The loop raises exactly when some record raises, and then with the
      first record's exception. */
  lemma {:induction false} CollectErr(results: seq<Result<Observation>>)
    ensures Collect(results).Err? <==> exists i :: 0 <= i < |results| && results[i].Err?
    ensures Collect(results).Err? ==> exists i :: 0 <= i < |results| && results[i] == Err(Collect(results).error)
                                         && forall j :: 0 <= j < i ==> results[j].Ok?
  {
    if |results| > 0 {
      CollectErr(results[1..]);
      assert forall i :: 1 <= i < |results| ==> results[i] == results[1..][i - 1];
      if results[0].Ok? && Collect(results[1..]).Err? {
        var i :| 0 <= i < |results| - 1 && results[1..][i] == Err(Collect(results[1..]).error)
                 && forall j :: 0 <= j < i ==> results[1..][j].Ok?;
        assert results[i + 1] == results[1..][i];
        assert forall j :: 1 <= j < i + 1 ==> results[j] == results[1..][j - 1];
      }
    }
  }

  /** Each account paired with the same value. */
  function Pairs<X>(accounts: seq<string>, x: X): (r: seq<(string, X)>)
    ensures |r| == |accounts| && forall i :: 0 <= i < |accounts| ==> r[i] == (accounts[i], x)
  {
    seq(|accounts|, i requires 0 <= i < |accounts| => (accounts[i], x))
  }

  /** The `account_events` appends, in order: each account of a record with
      a time, with that time. */
  function EventPairs(obs: seq<Observation>): seq<(string, int)>
  {
    if |obs| == 0 then []
    else (if obs[0].time.Some? then Pairs(obs[0].accounts, obs[0].time.value) else []) + EventPairs(obs[1..])
  }

  /** The `high_value_accounts` updates: each account of a record whose
      amounts total more than 5000, with that total. */
  function HighValuePairs(obs: seq<Observation>): seq<(string, real)>
  {
    if |obs| == 0 then []
    else (if obs[0].total > HighValueThreshold then Pairs(obs[0].accounts, obs[0].total) else []) + HighValuePairs(obs[1..])
  }

  /** The `login_failures` increments: the accounts of each failed login, or
      its hashed values when it has no account. */
  function FailureKeys(obs: seq<Observation>): seq<string>
  {
    if |obs| == 0 then []
    else
      (if obs[0].failedLogin then (if |obs[0].accounts| > 0 then obs[0].accounts else obs[0].fallback) else [])
      + FailureKeys(obs[1..])
  }

  /** `account_events.setdefault(account, []).append(timestamp)`, in turn. */
  function AddEvents(d: Entries<seq<int>>, pairs: seq<(string, int)>): Entries<seq<int>>
    decreases |pairs|
  {
    if |pairs| == 0 then d
    else
      var a := pairs[0].0;
      AddEvents(Put(d, a, GetOr(d, a, []) + [pairs[0].1]), pairs[1..])
  }

  /** `high_value_accounts[account] = max(high_value_accounts.get(account, 0.0), total)`. */
  function AddHighValues(d: Entries<real>, pairs: seq<(string, real)>): Entries<real>
    decreases |pairs|
  {
    if |pairs| == 0 then d
    else
      var a, total := pairs[0].0, pairs[0].1;
      var before := GetOr(d, a, 0.0);
      AddHighValues(Put(d, a, if before >= total then before else total), pairs[1..])
  }

  /** `login_failures[account] = login_failures.get(account, 0) + 1`. */
  function AddFailures(d: Entries<int>, keys: seq<string>): Entries<int>
    decreases |keys|
  {
    if |keys| == 0 then d
    else
      AddFailures(Put(d, keys[0], GetOr(d, keys[0], 0) + 1), keys[1..])
  }

  /** Reference: the times recorded for `a`, in order. */
  function TimesOf(pairs: seq<(string, int)>, a: string): seq<int>
  {
    if |pairs| == 0 then [] else (if pairs[0].0 == a then [pairs[0].1] else []) + TimesOf(pairs[1..], a)
  }

  /** Reference: the largest total recorded for `a`, if any. */
  function MaxOf(pairs: seq<(string, real)>, a: string): Option<real>
  {
    if |pairs| == 0 then None
    else
      var rest := MaxOf(pairs[1..], a);
      if pairs[0].0 != a then rest
      else if rest.Some? && rest.value >= pairs[0].1 then rest
      else Some(pairs[0].1)
  }

  /** Reference: how often `a` occurs. */
  function Occurrences(keys: seq<string>, a: string): nat
  {
    if |keys| == 0 then 0 else (if keys[0] == a then 1 else 0) + Occurrences(keys[1..], a)
  }

  /** An entry's times after appending `ts`: none only when there were none
      and nothing is appended. */
  function Extended(o: Option<seq<int>>, ts: seq<int>): (r: Option<seq<int>>)
    ensures r.None? <==> o.None? && |ts| == 0
  {
    if o.None? && |ts| == 0 then None
    else Some((if o.Some? then o.value else []) + ts)
  }

  lemma ExtendedNothing(o: Option<seq<int>>)
    ensures Extended(o, []) == o
  {
    if o.Some? {
      assert o.value + [] == o.value;
    }
  }

  lemma ExtendedTwice(o: Option<seq<int>>, t: int, ts: seq<int>)
    ensures Extended(Extended(o, [t]), ts) == Extended(o, [t] + ts)
  {
    var before := if o.Some? then o.value else [];
    assert (before + [t]) + ts == before + ([t] + ts);
  }

  /** Appending in turn leaves each account with its earlier times followed
      by its recorded times, and creates an entry only for a recorded one. */
  lemma {:induction false} AddEventsGet(d: Entries<seq<int>>, pairs: seq<(string, int)>, a: string)
    ensures Get(AddEvents(d, pairs), a) == Extended(Get(d, a), TimesOf(pairs, a))
    decreases |pairs|
  {
    if |pairs| == 0 {
      ExtendedNothing(Get(d, a));
    } else {
      var k, t := pairs[0].0, pairs[0].1;
      var d' := Put(d, k, GetOr(d, k, []) + [t]);
      PutGet(d, k, GetOr(d, k, []) + [t], a);
      AddEventsGet(d', pairs[1..], a);
      if k == a {
        assert Get(d', a) == Extended(Get(d, a), [t]);
        assert TimesOf(pairs, a) == [t] + TimesOf(pairs[1..], a);
        ExtendedTwice(Get(d, a), t, TimesOf(pairs[1..], a));
      } else {
        assert TimesOf(pairs, a) == TimesOf(pairs[1..], a);
      }
    }
  }

  /** Each account ends with the largest of its recorded totals; when all
      totals are positive the 0.0 default never wins. */
  lemma {:induction false} AddHighValuesGet(d: Entries<real>, pairs: seq<(string, real)>, a: string)
    requires forall i :: 0 <= i < |pairs| ==> pairs[i].1 > 0.0
    requires Get(d, a).Some? ==> Get(d, a).value > 0.0
    ensures Get(AddHighValues(d, pairs), a) == MaxOption(Get(d, a), MaxOf(pairs, a))
    decreases |pairs|
  {
    if |pairs| > 0 {
      var k, total := pairs[0].0, pairs[0].1;
      var before := GetOr(d, k, 0.0);
      var d' := Put(d, k, if before >= total then before else total);
      PutGet(d, k, if before >= total then before else total, a);
      AddHighValuesGet(d', pairs[1..], a);
    }
  }

  /** The larger of two optional totals. */
  function MaxOption(x: Option<real>, y: Option<real>): (r: Option<real>)
    ensures r.None? <==> x.None? && y.None?
    ensures r.Some? ==> (r == x || r == y) && (x.Some? ==> x.value <= r.value) && (y.Some? ==> y.value <= r.value)
  {
    match (x, y)
    case (None, _) => y
    case (_, None) => x
    case (Some(a), Some(b)) => Some(if a >= b then a else b)
  }

  /** Each key ends with its earlier count plus its occurrences. */
  lemma {:induction false} AddFailuresGet(d: Entries<int>, keys: seq<string>, a: string)
    ensures Get(AddFailures(d, keys), a) ==
      if Get(d, a).None? && Occurrences(keys, a) == 0 then None else Some(GetOr(d, a, 0) + Occurrences(keys, a))
    decreases |keys|
  {
    if |keys| > 0 {
      var d' := Put(d, keys[0], GetOr(d, keys[0], 0) + 1);
      PutGet(d, keys[0], GetOr(d, keys[0], 0) + 1, a);
      AddFailuresGet(d', keys[1..], a);
    }
  }

  lemma {:induction false} AddEventsDistinct(d: Entries<seq<int>>, pairs: seq<(string, int)>)
    requires DistinctKeys(d)
    ensures DistinctKeys(AddEvents(d, pairs))
    decreases |pairs|
  {
    if |pairs| > 0 {
      PutDistinct(d, pairs[0].0, GetOr(d, pairs[0].0, []) + [pairs[0].1]);
      AddEventsDistinct(Put(d, pairs[0].0, GetOr(d, pairs[0].0, []) + [pairs[0].1]), pairs[1..]);
    }
  }

  lemma {:induction false} AddFailuresDistinct(d: Entries<int>, keys: seq<string>)
    requires DistinctKeys(d)
    ensures DistinctKeys(AddFailures(d, keys))
    decreases |keys|
  {
    if |keys| > 0 {
      PutDistinct(d, keys[0], GetOr(d, keys[0], 0) + 1);
      AddFailuresDistinct(Put(d, keys[0], GetOr(d, keys[0], 0) + 1), keys[1..]);
    }
  }

  function TimeKey(t: int): Key
  {
    (t, 0)
  }

  /** `sorted(events)`. */
  function SortTimes(events: seq<int>): (r: seq<int>)
    ensures multiset(r) == multiset(events)
    ensures forall i, j :: 0 <= i < j < |r| ==> r[i] <= r[j]
  {
    var r := SortBy(events, TimeKey);
    assert forall i, j :: 0 <= i < j < |r| ==> KeyLe(TimeKey(r[i]), TimeKey(r[j]));
    r
  }

  /** Four consecutive times of an ordered list fit within the window. */
  predicate Burst(ordered: seq<int>)
  {
    exists i :: 0 <= i && i + 3 < |ordered| && ordered[i + 3] - ordered[i] <= VelocityWindow
  }

  /** `_exceeds_velocity`. */
  predicate ExceedsVelocity(events: seq<int>)
  {
    Burst(SortTimes(events))
  }

  /** `_exceeds_velocity` as written: a scan of the sorted times that stops
      at the first burst. */
  method ExceedsVelocityScan(events: seq<int>) returns (r: bool)
    ensures r == ExceedsVelocity(events)
  {
    var ordered := SortTimes(events);
    var idx := 0;
    while idx < |ordered| - 3
      invariant 0 <= idx
      invariant forall i :: 0 <= i < idx && i + 3 < |ordered| ==> ordered[i + 3] - ordered[i] > VelocityWindow
    {
      if ordered[idx + 3] - ordered[idx] <= VelocityWindow {
        return true;
      }
      idx := idx + 1;
    }
    return false;
  }

  /** In an ordered list a burst is any four times within the window: the
      first of them and the third time after it are at least as close. */
  lemma BurstAnyFour(ordered: seq<int>)
    requires forall i, j :: 0 <= i < j < |ordered| ==> ordered[i] <= ordered[j]
    ensures Burst(ordered) <==> exists i, j :: 0 <= i && i + 3 <= j < |ordered| && ordered[j] - ordered[i] <= VelocityWindow
  {
    if exists i, j :: 0 <= i && i + 3 <= j < |ordered| && ordered[j] - ordered[i] <= VelocityWindow {
      var i, j :| 0 <= i && i + 3 <= j < |ordered| && ordered[j] - ordered[i] <= VelocityWindow;
      assert ordered[i + 3] <= ordered[j];
    }
  }

  /** Times in non-decreasing order. */
  predicate Ordered(s: seq<int>)
  {
    forall i, j :: 0 <= i < j < |s| ==> s[i] <= s[j]
  }

  /** The first time of an ordered list is its smallest. */
  lemma OrderedFirstLeast(s: seq<int>, x: int)
    requires Ordered(s)
    requires x in multiset(s)
    ensures s[0] <= x
  {
    var i :| 0 <= i < |s| && s[i] == x;
    if i > 0 {
      assert s[0] <= s[i];
    }
  }

  /** Dropping the first time of an ordered list leaves an ordered list of
      the other times. */
  lemma OrderedTail(s: seq<int>)
    requires Ordered(s) && |s| > 0
    ensures Ordered(s[1..])
    ensures multiset(s[1..]) == multiset(s) - multiset{s[0]}
  {
    assert s == [s[0]] + s[1..];
    forall i, j | 0 <= i < j < |s| - 1
      ensures s[1..][i] <= s[1..][j]
    {
      assert s[1..][i] == s[i + 1] && s[1..][j] == s[j + 1];
    }
  }

  /** Lists that agree on their first element and on the rest are equal. */
  lemma SameHeadTail(s: seq<int>, t: seq<int>)
    requires |s| > 0 && |t| > 0 && s[0] == t[0] && s[1..] == t[1..]
    ensures s == t
  {
    assert s == [s[0]] + s[1..];
    assert t == [t[0]] + t[1..];
  }

  /** Two ordered lists with the same elements are the same list. */
  lemma {:induction false} OrderedUnique(s: seq<int>, t: seq<int>)
    requires Ordered(s) && Ordered(t)
    requires multiset(s) == multiset(t)
    ensures s == t
    decreases |s|
  {
    assert |s| == |multiset(s)| == |t|;
    if |s| > 0 {
      assert s[0] in multiset(s) && t[0] in multiset(t);
      OrderedFirstLeast(s, t[0]);
      OrderedFirstLeast(t, s[0]);
      assert s[0] == t[0];
      OrderedTail(s);
      OrderedTail(t);
      assert multiset(s[1..]) == multiset(t[1..]);
      OrderedUnique(s[1..], t[1..]);
      SameHeadTail(s, t);
    }
  }

  /** The verdict depends only on the times, not on the order they were
      recorded in. */
  lemma ExceedsVelocityOrderFree(a: seq<int>, b: seq<int>)
    requires multiset(a) == multiset(b)
    ensures ExceedsVelocity(a) == ExceedsVelocity(b)
  {
    OrderedUnique(SortTimes(a), SortTimes(b));
  }

  /** `velocity_accounts`: the accounts whose times exceed the velocity, in
      `account_events` order. */
  function VelocityAccounts(events: Entries<seq<int>>): seq<string>
  {
    if |events| == 0 then []
    else (if ExceedsVelocity(events[0].value) then [events[0].key] else []) + VelocityAccounts(events[1..])
  }

  /** `suspect_accounts`: the keys counted at least three times, in order. */
  function Suspects(failures: Entries<int>): seq<string>
  {
    if |failures| == 0 then []
    else (if failures[0].value >= FailedLoginThreshold then [failures[0].key] else []) + Suspects(failures[1..])
  }

  lemma {:induction false} VelocityAccountsMember(events: Entries<seq<int>>, a: string)
    requires DistinctKeys(events)
    ensures a in VelocityAccounts(events) <==> Get(events, a).Some? && ExceedsVelocity(Get(events, a).value)
  {
    if |events| > 0 {
      VelocityAccountsMember(events[1..], a);
      if events[0].key == a {
        GetDistinct(events, 0);
        assert a !in VelocityAccounts(events[1..]) by {
          forall i | 0 <= i < |events| - 1 ensures events[1..][i].key != a {
            assert events[1..][i] == events[i + 1];
          }
        }
      }
    }
  }

  lemma {:induction false} SuspectsMember(failures: Entries<int>, a: string)
    requires DistinctKeys(failures)
    ensures a in Suspects(failures) <==> Get(failures, a).Some? && Get(failures, a).value >= FailedLoginThreshold
  {
    if |failures| > 0 {
      SuspectsMember(failures[1..], a);
      if failures[0].key == a {
        GetDistinct(failures, 0);
        assert a !in Suspects(failures[1..]) by {
          forall i | 0 <= i < |failures| - 1 ensures failures[1..][i].key != a {
            assert failures[1..][i] == failures[i + 1];
          }
        }
      }
    }
  }

  /** `account_events`, `high_value_accounts` and `login_failures` after the
      record loop. */
  function Events(obs: seq<Observation>): Entries<seq<int>>
  {
    AddEvents([], EventPairs(obs))
  }

  function HighValues(obs: seq<Observation>): Entries<real>
  {
    AddHighValues([], HighValuePairs(obs))
  }

  function Failures(obs: seq<Observation>): Entries<int>
  {
    AddFailures([], FailureKeys(obs))
  }

  /** `{account: float(login_failures[account]) for account in suspects}`. */
  function SuspectMetrics(failures: Entries<int>, suspects: seq<string>): (r: Entries<real>)
    ensures Keys(r) == suspects
    ensures forall i :: 0 <= i < |suspects| ==> r[i].value == GetOr(failures, suspects[i], 0) as real
  {
    seq(|suspects|, i requires 0 <= i < |suspects| => Entry(suspects[i], GetOr(failures, suspects[i], 0) as real))
  }

  /** The finding a category would give for the three account lists. */
  function Expected(c: FraudCategory, velocity: seq<string>, high: Entries<real>, suspects: seq<string>, suspectMetrics: Entries<real>): FraudFinding
  {
    match c
    case VelocityCheck => FraudFinding(VelocityCheck, velocity, [Entry("account_count", |velocity| as real)])
    case HighValueTransfers => FraudFinding(HighValueTransfers, Keys(high), high)
    case FailedLoginVelocity => FraudFinding(FailedLoginVelocity, suspects, suspectMetrics)
  }

  /** The findings from the three account lists: one per non-empty list,
      in the order velocity, high value, failed logins. */
  function Assemble(velocity: seq<string>, high: Entries<real>, suspects: seq<string>, suspectMetrics: Entries<real>): (r: seq<FraudFinding>)
    ensures |r| <= 3
    ensures forall i, j :: 0 <= i < j < |r| ==> Rank(r[i].category) < Rank(r[j].category)
    ensures forall f :: f in r ==> f == Expected(f.category, velocity, high, suspects, suspectMetrics)
    ensures Expected(VelocityCheck, velocity, high, suspects, suspectMetrics) in r <==> |velocity| > 0
    ensures Expected(HighValueTransfers, velocity, high, suspects, suspectMetrics) in r <==> |high| > 0
    ensures Expected(FailedLoginVelocity, velocity, high, suspects, suspectMetrics) in r <==> |suspects| > 0
  {
    (if |velocity| > 0 then [Expected(VelocityCheck, velocity, high, suspects, suspectMetrics)] else [])
    + (if |high| > 0 then [Expected(HighValueTransfers, velocity, high, suspects, suspectMetrics)] else [])
    + (if |suspects| > 0 then [Expected(FailedLoginVelocity, velocity, high, suspects, suspectMetrics)] else [])
  }

  /** The findings after the record loop. */
  function FindingsOf(obs: seq<Observation>): (r: seq<FraudFinding>)
    ensures |r| <= 3
    ensures forall i, j :: 0 <= i < j < |r| ==> Rank(r[i].category) < Rank(r[j].category)
  {
    var suspects := Suspects(Failures(obs));
    Assemble(VelocityAccounts(Events(obs)), HighValues(obs), suspects, SuspectMetrics(Failures(obs), suspects))
  }

  /** `FraudDetectionEngine.evaluate`. */
  function Evaluate(records: seq<Entries<Json>>, parsed: seq<ParsedRecord>, readers: Readers): (r: Result<seq<FraudFinding>>)
    ensures r.Err? <==> exists i :: 0 <= i < |records| && i < |parsed| && Observe(records[i], parsed[i], readers).Err?
    ensures r.Ok? ==> |r.value| <= 3
  {
    var results := Observations(records, parsed, readers);
    CollectErr(results);
    match Collect(results)
    case Err(e) => Err(e)
    case Ok(obs) => Ok(FindingsOf(obs))
  }

  /** The velocity finding, if reported, carries the velocity accounts. */
  lemma FindingsOfVelocity(obs: seq<Observation>, a: string)
    ensures (exists f :: f in FindingsOf(obs) && f.category == VelocityCheck && a in f.accounts)
        <==> a in VelocityAccounts(Events(obs))
  {
    var v, h, sus := VelocityAccounts(Events(obs)), HighValues(obs), Suspects(Failures(obs));
    var m := SuspectMetrics(Failures(obs), sus);
    var e := Expected(VelocityCheck, v, h, sus, m);
    if exists f :: f in FindingsOf(obs) && f.category == VelocityCheck && a in f.accounts {
      var f :| f in FindingsOf(obs) && f.category == VelocityCheck && a in f.accounts;
      assert f == e;
    }
    if a in v {
      assert e in FindingsOf(obs);
    }
  }

  /** An account is in the velocity finding exactly when it has recorded
      times and four of them fall within ten minutes. */
  lemma VelocityFinding(obs: seq<Observation>, a: string)
    ensures (exists f :: f in FindingsOf(obs) && f.category == VelocityCheck && a in f.accounts)
        <==> |TimesOf(EventPairs(obs), a)| > 0 && ExceedsVelocity(TimesOf(EventPairs(obs), a))
  {
    var events := Events(obs);
    var ts := TimesOf(EventPairs(obs), a);
    AddEventsDistinct([], EventPairs(obs));
    AddEventsGet([], EventPairs(obs), a);
    assert [] + ts == ts;
    assert Get(events, a) == if |ts| == 0 then None else Some(ts);
    VelocityAccountsMember(events, a);
    FindingsOfVelocity(obs, a);
  }

  lemma {:induction false} HighValuePairsPositive(obs: seq<Observation>)
    ensures forall i :: 0 <= i < |HighValuePairs(obs)| ==> HighValuePairs(obs)[i].1 > HighValueThreshold
  {
    if |obs| > 0 {
      HighValuePairsPositive(obs[1..]);
    }
  }

  /** The high-value finding, if reported, lists and measures the
      high-value accounts. */
  lemma FindingsOfHighValue(obs: seq<Observation>, a: string)
    ensures (exists f :: f in FindingsOf(obs) && f.category == HighValueTransfers && a in f.accounts)
        <==> HasKey(HighValues(obs), a)
    ensures forall f :: f in FindingsOf(obs) && f.category == HighValueTransfers ==> f.metrics == HighValues(obs)
  {
    var v, h, sus := VelocityAccounts(Events(obs)), HighValues(obs), Suspects(Failures(obs));
    var m := SuspectMetrics(Failures(obs), sus);
    var e := Expected(HighValueTransfers, v, h, sus, m);
    assert a in Keys(h) <==> HasKey(h, a);
    if exists f :: f in FindingsOf(obs) && f.category == HighValueTransfers && a in f.accounts {
      var f :| f in FindingsOf(obs) && f.category == HighValueTransfers && a in f.accounts;
      assert f == e;
    }
    if HasKey(h, a) {
      assert |h| > 0;
      assert e in FindingsOf(obs);
    }
  }

  /** An account is in the high-value finding exactly when one of its records
      totals more than 5000, and its metric is its largest such total. */
  lemma HighValueFinding(obs: seq<Observation>, a: string)
    ensures (exists f :: f in FindingsOf(obs) && f.category == HighValueTransfers && a in f.accounts)
        <==> MaxOf(HighValuePairs(obs), a).Some?
    ensures forall f :: f in FindingsOf(obs) && f.category == HighValueTransfers ==> Get(f.metrics, a) == MaxOf(HighValuePairs(obs), a)
  {
    HighValuePairsPositive(obs);
    AddHighValuesGet([], HighValuePairs(obs), a);
    FindingsOfHighValue(obs, a);
  }

  /** The failed-login finding, if reported, lists the suspects with their
      counts. */
  lemma FindingsOfFailedLogin(obs: seq<Observation>, a: string)
    ensures (exists f :: f in FindingsOf(obs) && f.category == FailedLoginVelocity && a in f.accounts)
        <==> a in Suspects(Failures(obs))
    ensures forall f :: f in FindingsOf(obs) && f.category == FailedLoginVelocity ==>
      f.metrics == SuspectMetrics(Failures(obs), Suspects(Failures(obs))) && f.accounts == Suspects(Failures(obs))
  {
    var v, h, sus := VelocityAccounts(Events(obs)), HighValues(obs), Suspects(Failures(obs));
    var m := SuspectMetrics(Failures(obs), sus);
    var e := Expected(FailedLoginVelocity, v, h, sus, m);
    if a in sus {
      assert e in FindingsOf(obs);
    }
  }

  /** The metric of a suspect is its count. */
  lemma SuspectMetricsGet(failures: Entries<int>, a: string)
    requires DistinctKeys(failures) && a in Suspects(failures)
    ensures Get(SuspectMetrics(failures, Suspects(failures)), a) == Some(GetOr(failures, a, 0) as real)
  {
    var suspects := Suspects(failures);
    var i :| 0 <= i < |suspects| && suspects[i] == a;
    SuspectsDistinct(failures);
    var m := SuspectMetrics(failures, suspects);
    assert DistinctKeys(m) by {
      assert forall j :: 0 <= j < |m| ==> m[j].key == suspects[j];
    }
    assert m[i].key == a;
    GetDistinct(m, i);
  }

  /** An account is in the failed-login finding exactly when it is counted at
      least three times, and its metric is that count. */
  lemma FailedLoginFinding(obs: seq<Observation>, a: string)
    ensures (exists f :: f in FindingsOf(obs) && f.category == FailedLoginVelocity && a in f.accounts)
        <==> Occurrences(FailureKeys(obs), a) >= FailedLoginThreshold
    ensures forall f :: f in FindingsOf(obs) && f.category == FailedLoginVelocity && a in f.accounts ==>
      Get(f.metrics, a) == Some(Occurrences(FailureKeys(obs), a) as real)
  {
    var failures := Failures(obs);
    AddFailuresDistinct([], FailureKeys(obs));
    AddFailuresGet([], FailureKeys(obs), a);
    SuspectsMember(failures, a);
    FindingsOfFailedLogin(obs, a);
    if a in Suspects(failures) {
      SuspectMetricsGet(failures, a);
    }
  }

  lemma {:induction false} SuspectsDistinct(failures: Entries<int>)
    requires DistinctKeys(failures)
    ensures NoDuplicates(Suspects(failures))
  {
    if |failures| > 0 {
      var rest := Suspects(failures[1..]);
      SuspectsDistinct(failures[1..]);
      SuspectsMember(failures[1..], failures[0].key);
      assert !HasKey(failures[1..], failures[0].key) by {
        forall i | 0 <= i < |failures| - 1 ensures failures[1..][i].key != failures[0].key {
          assert failures[1..][i] == failures[i + 1];
        }
      }
      ConsNoDuplicates(failures[0].key, rest);
    }
  }

  /** `", ".join(finding.accounts[:5])`. */
  function AccountList(f: FraudFinding): string
  {
    Join(", ", f.accounts[..Min(5, |f.accounts|)])
  }

  /** The scenario header up to its last visible character. */
  function FraudHeader(f: FraudFinding): string
  {
    var name := CategoryName(f.category);
    "Feature: Fraud pattern " + name + "\n"
    + "  Scenario: Detect " + name + "\n"
    + "  Given sanitized banking activity logs\n"
    + "  When the fraud detection module analyses account behaviour\n"
    + "  Then it classifies the pattern as " + Severity(f.category) + " severity"
  }

  const AccountsLine: string := "\n  And affected accounts include"

  /** The scenario for one finding. */
  function FraudScenario(f: FraudFinding): string
  {
    Compliance.Scenario(FraudHeader(f), AccountsLine, " ", AccountList(f))
  }

  /** `generate_tests`: one scenario per finding, in order. */
  function GenerateTests(findings: seq<FraudFinding>): (r: seq<string>)
    ensures |r| == |findings|
    ensures forall i :: 0 <= i < |findings| ==> r[i] == FraudScenario(findings[i])
  {
    seq(|findings|, i requires 0 <= i < |findings| => FraudScenario(findings[i]))
  }

  lemma FraudHeaderVisible(f: FraudFinding)
    ensures var h := FraudHeader(f); |h| > 0 && !IsSpace(h[0]) && !IsSpace(h[|h| - 1])
  {
  }

  /** Every scenario opens with its full header; the account line follows
      exactly when some listed account is non-empty, and otherwise the
      scenario is the header alone. */
  lemma FraudScenarioShape(f: FraudFinding)
    ensures |AccountList(f)| == 0 ==> FraudScenario(f) == FraudHeader(f)
    ensures |AccountList(f)| > 0 ==>
      var p := FraudHeader(f) + AccountsLine;
      |FraudScenario(f)| >= |p| && FraudScenario(f)[..|p|] == p
  {
    FraudHeaderVisible(f);
    Compliance.ScenarioShape(FraudHeader(f), AccountsLine, " ", AccountList(f));
  }
}
