/** The pipeline's own pure helpers (`LogMinerPipeline`): event
    classification, the journey id of a record, consecutive de-duplication of
    a journey's events, Gherkin rendering of a journey, and the assembly of
    the generated test scenarios. Chunking lives in `Batching`. */
module Pipeline {
  import opened Wrappers
  import opened Dicts
  import opened Json
  import opened Strings
  import Compliance
  import Fraud

  // ---------------------------------------------------------------------
  // Event classification (`_classify_record`)
  // ---------------------------------------------------------------------

  /** The labels classification produces when it does not take the name
      from the record itself. */
  const FixedLabels: seq<string> := ["error_event", "login_event", "transaction_event", "generic_event"]

  /** A label in canonical form: no ASCII capital and no space. */
  predicate Canonical(tag: string)
  {
    forall i :: 0 <= i < |tag| ==> tag[i] != ' ' && !('A' <= tag[i] <= 'Z')
  }

  lemma FixedLabelsCanonical()
    ensures forall tag :: tag in FixedLabels ==> |tag| > 0 && Canonical(tag) && '-' !in tag
  {
  }

  /** An explicit event name: lowered, with spaces and hyphens turned into
      underscores. */
  function NormalizeEvent(name: string): (r: string)
    ensures |r| == |name|
    ensures Canonical(r) && '-' !in r
    ensures forall i :: 0 <= i < |name| ==>
      r[i] == (if name[i] == ' ' || name[i] == '-' then '_' else LowerChar(name[i]))
  {
    ReplaceChar(ReplaceChar(Lower(name), ' ', '_'), '-', '_')
  }

  /** A transaction type: lowered, spaces turned into underscores (hyphens
      are kept), then `_event`. */
  function TransactionLabel(kind: string): (r: string)
    ensures |r| == |kind| + 6 && r[|kind|..] == "_event"
    ensures Canonical(r)
    ensures forall i :: 0 <= i < |kind| ==> r[i] == (if kind[i] == ' ' then '_' else LowerChar(kind[i]))
  {
    var low := ReplaceChar(Lower(kind), ' ', '_');
    assert Canonical("_event");
    low + "_event"
  }

  /** A non-empty string stored under `key`, if there is one. */
  function NonEmptyString(fields: Entries<Json>, key: string): (r: Option<string>)
    ensures r.Some? <==> GetField(fields, key).JStr? && |GetField(fields, key).s| > 0
    ensures r.Some? ==> r.value == GetField(fields, key).s
  {
    var v := GetField(fields, key);
    if v.JStr? && |v.s| > 0 then Some(v.s) else None
  }

  /** The label a dict's `message` string suggests, if any: error words
      first, then login words, then transaction words. */
  function MessageLabel(fields: Entries<Json>): (r: Option<string>)
    ensures r.Some? ==> r.value in FixedLabels
    ensures !GetField(fields, "message").JStr? ==> r.None?
  {
    var m := GetField(fields, "message");
    if !m.JStr? then None
    else
      var low := Lower(m.s);
      if Contains(low, "error") || Contains(low, "exception") || Contains(low, "fail") then Some("error_event")
      else if Contains(low, "login") || Contains(low, "authenticate") then Some("login_event")
      else if Contains(low, "transaction") || Contains(low, "transfer") then Some("transaction_event")
      else None
  }

  /** A dict record's label: the event name, else the transaction type, else
      one of the fixed labels from the error markers, the message and the
      transaction keys. */
  function ClassifyFields(fields: Entries<Json>): (r: string)
    ensures NonEmptyString(fields, "event").Some? ==> r == NormalizeEvent(NonEmptyString(fields, "event").value)
    ensures NonEmptyString(fields, "event").None? && NonEmptyString(fields, "transaction_type").Some? ==>
              r == TransactionLabel(NonEmptyString(fields, "transaction_type").value)
    ensures NonEmptyString(fields, "event").None? && NonEmptyString(fields, "transaction_type").None? ==>
              r in FixedLabels
  {
    match NonEmptyString(fields, "event")
    case Some(event) => NormalizeEvent(event)
    case None =>
      match NonEmptyString(fields, "transaction_type")
      case Some(kind) => TransactionLabel(kind)
      case None =>
        if HasKey(fields, "error") || GetField(fields, "level") == JStr("ERROR") || GetField(fields, "severity") == JStr("ERROR") then "error_event"
        else if MessageLabel(fields).Some? then MessageLabel(fields).value
        else if HasKey(fields, "transaction") || HasKey(fields, "transaction_id") then "transaction_event"
        else "generic_event"
  }

  /** A string record's label: error before login before transaction. */
  function ClassifyText(s: string): (r: string)
    ensures r in FixedLabels
  {
    var low := Lower(s);
    if Contains(low, "error") then "error_event"
    else if Contains(low, "login") then "login_event"
    else if Contains(low, "transaction") then "transaction_event"
    else "generic_event"
  }

  /** `_classify_record`: a non-empty `event` string wins; then a non-empty
      `transaction_type`; every other outcome is one of the fixed labels, and
      every label is non-empty and canonical. */
  function ClassifyRecord(record: Json): (r: string)
    ensures |r| > 0 && Canonical(r)
    ensures !record.JObj? ==> r in FixedLabels
    ensures !record.JObj? && !record.JStr? ==> r == "generic_event"
    ensures record.JObj? && NonEmptyString(record.fields, "event").Some? ==>
              r == NormalizeEvent(NonEmptyString(record.fields, "event").value)
    ensures record.JObj? && NonEmptyString(record.fields, "event").None? && NonEmptyString(record.fields, "transaction_type").Some? ==>
              r == TransactionLabel(NonEmptyString(record.fields, "transaction_type").value)
    ensures record.JObj? && NonEmptyString(record.fields, "event").None? && NonEmptyString(record.fields, "transaction_type").None? ==>
              r in FixedLabels
  {
    FixedLabelsCanonical();
    match record
    case JObj(fields) =>
      var r := ClassifyFields(fields);
      assert |r| > 0 by {
        if NonEmptyString(fields, "event").Some? {
        } else if NonEmptyString(fields, "transaction_type").Some? {
        }
      }
      r
    case JStr(s) => ClassifyText(s)
    case _ => "generic_event"
  }

  /** String records: error words beat login words, which beat transaction
      words, and a text with none of them is generic. */
  lemma ClassifyTextPriority(s: string)
    ensures ClassifyRecord(JStr(s)) == "error_event" <==> Contains(Lower(s), "error")
    ensures ClassifyRecord(JStr(s)) == "login_event" <==> !Contains(Lower(s), "error") && Contains(Lower(s), "login")
    ensures ClassifyRecord(JStr(s)) == "transaction_event" <==>
              !Contains(Lower(s), "error") && !Contains(Lower(s), "login") && Contains(Lower(s), "transaction")
    ensures ClassifyRecord(JStr(s)) == "generic_event" <==>
              !Contains(Lower(s), "error") && !Contains(Lower(s), "login") && !Contains(Lower(s), "transaction")
  {
  }

  /** A string record is classified by its text alone. */
  lemma StringRecordClass(s: string)
    ensures ClassifyRecord(JStr(s)) == ClassifyText(s)
  {
  }

  /** Classifying a string record ignores letter case. */
  lemma ClassifyTextIgnoresCase(s: string)
    ensures ClassifyRecord(JStr(Lower(s))) == ClassifyRecord(JStr(s))
  {
    LowerIdempotent(s);
    StringRecordClass(s);
    StringRecordClass(Lower(s));
  }

  /** A canonical label without hyphens is left alone by normalization. */
  lemma NormalizeCanonical(tag: string)
    requires Canonical(tag) && '-' !in tag
    ensures NormalizeEvent(tag) == tag
  {
    assert forall i :: 0 <= i < |tag| ==> LowerChar(tag[i]) == tag[i];
  }

  /** Normalizing an event name twice is normalizing it once. */
  lemma NormalizeIdempotent(name: string)
    ensures NormalizeEvent(NormalizeEvent(name)) == NormalizeEvent(name)
  {
    NormalizeCanonical(NormalizeEvent(name));
  }

  /** The record `{"event": label}`. */
  function EventRecord(tag: string): Json
  {
    JObj([Entry("event", JStr(tag))])
  }

  /** Feeding a label back in as an explicit event name gives the same label
      whenever the label has no hyphen. */
  lemma ReclassifyStable(record: Json)
    requires '-' !in ClassifyRecord(record)
    ensures ClassifyRecord(EventRecord(ClassifyRecord(record))) == ClassifyRecord(record)
  {
    var tag := ClassifyRecord(record);
    NormalizeCanonical(tag);
    assert NonEmptyString([Entry("event", JStr(tag))], "event") == Some(tag);
  }

  /** Only a transaction type can put a hyphen into a label, since event
      names have theirs replaced and transaction types do not. */
  lemma HyphenFromTransactionType(record: Json)
    ensures '-' in ClassifyRecord(record) ==>
      && record.JObj? && NonEmptyString(record.fields, "event").None?
      && NonEmptyString(record.fields, "transaction_type").Some?
      && '-' in NonEmptyString(record.fields, "transaction_type").value
  {
    var r := ClassifyRecord(record);
    if '-' in r {
      FixedLabelsCanonical();
      assert r !in FixedLabels;
      var f := record.fields;
      assert NonEmptyString(f, "event").None?;
      TransactionLabelHyphen(NonEmptyString(f, "transaction_type").value);
    }
  }

  /** A transaction label has a hyphen only where the transaction type has
      one. */
  lemma TransactionLabelHyphen(kind: string)
    ensures '-' in TransactionLabel(kind) ==> '-' in kind
  {
    var t := TransactionLabel(kind);
    if '-' in t {
      var i :| 0 <= i < |t| && t[i] == '-';
      assert t[|kind|..] == "_event";
      assert kind[i] == '-';
    }
  }

  /** So a hyphenated transaction type gets a label that the same name given
      as an event would not: the two spellings of one activity differ. */
  lemma HyphenatedKindRelabelled(kind: string)
    requires Canonical(kind) && '-' in kind
    ensures ClassifyRecord(JObj([Entry("transaction_type", JStr(kind))])) == kind + "_event"
    ensures ClassifyRecord(EventRecord(kind + "_event")) != kind + "_event"
  {
    var fields := [Entry("transaction_type", JStr(kind))];
    assert NonEmptyString(fields, "event").None?;
    assert NonEmptyString(fields, "transaction_type") == Some(kind);
    var t := TransactionLabel(kind);
    assert forall i :: 0 <= i < |kind| ==> LowerChar(kind[i]) == kind[i];
    assert t == kind + "_event";
    assert NonEmptyString([Entry("event", JStr(t))], "event") == Some(t);
    var i :| 0 <= i < |kind| && kind[i] == '-';
    assert NormalizeEvent(t)[i] == '_';
  }

  // ---------------------------------------------------------------------
  // Journey id (`_extract_journey_id`)
  // ---------------------------------------------------------------------

  /** The keys tried for a journey id, in order. */
  const JourneyKeys: seq<string> := ["session_id", "journey_id", "hashed_fields"]

  /** `sorted(keys)[0]`: the least key under Python's string order. */
  function MinKey(ks: seq<string>): (r: string)
    requires |ks| > 0
    ensures r in ks
    ensures forall k :: k in ks ==> StrLe(r, k)
  {
    StrLeReflexive(ks[0]);
    if |ks| == 1 then ks[0]
    else
      var m := MinKey(ks[1..]);
      StrLeTotal(ks[0], m);
      if StrLe(ks[0], m) then
        assert forall k :: k in ks[1..] ==> StrLe(ks[0], k) by {
          forall k | k in ks[1..] { StrLeTransitive(ks[0], m, k); }
        }
        ks[0]
      else m
  }

  /** The least key is the only key below all others: it is what sorting
      puts first. */
  lemma MinKeyUnique(ks: seq<string>, k: string)
    requires k in ks && forall x :: x in ks ==> StrLe(k, x)
    ensures k == MinKey(ks)
  {
    StrLeAntisymmetric(k, MinKey(ks));
  }

  /** The value of a non-empty dict's least key. */
  function LeastKeyValue(fs: Entries<Json>): Json
    requires |fs| > 0
  {
    assert Keys(fs)[0] == fs[0].key;
    GetField(fs, MinKey(Keys(fs)))
  }

  /** A journey id taken from the value of `key`, if that value gives one. */
  function IdFrom(key: string, v: Json): Option<string>
  {
    if v.JStr? then Some(v.s)
    else if key == "hashed_fields" && v.JObj? && |v.fields| > 0 && LeastKeyValue(v.fields).JStr? then Some(LeastKeyValue(v.fields).s)
    else None
  }

  /** The loop over `keys`: the first key whose value gives an id. */
  function JourneyFrom(fields: Entries<Json>, keys: seq<string>): (r: string)
    ensures (exists i :: 0 <= i < |keys| && IdFrom(keys[i], GetField(fields, keys[i])).Some?) ==>
      exists i :: 0 <= i < |keys| && IdFrom(keys[i], GetField(fields, keys[i])) == Some(r)
        && forall j :: 0 <= j < i ==> IdFrom(keys[j], GetField(fields, keys[j])).None?
    ensures (forall i :: 0 <= i < |keys| ==> IdFrom(keys[i], GetField(fields, keys[i])).None?) ==> r == ""
  {
    if |keys| == 0 then ""
    else
      match IdFrom(keys[0], GetField(fields, keys[0]))
      case Some(id) => id
      case None =>
        var r := JourneyFrom(fields, keys[1..]);
        assert forall i :: 1 <= i < |keys| ==> keys[i] == keys[1..][i - 1];
        r
  }

  /** `_extract_journey_id`: a string `session_id`, else a string
      `journey_id`, else a string `hashed_fields` or the string value of the
      least key of a non-empty `hashed_fields` dict; otherwise "". */
  function JourneyId(record: Json): (r: string)
    ensures !record.JObj? ==> r == ""
    ensures record.JObj? && GetField(record.fields, "session_id").JStr? ==> r == GetField(record.fields, "session_id").s
    ensures record.JObj? && !GetField(record.fields, "session_id").JStr? && GetField(record.fields, "journey_id").JStr? ==>
      r == GetField(record.fields, "journey_id").s
    ensures record.JObj? && !GetField(record.fields, "session_id").JStr? && !GetField(record.fields, "journey_id").JStr? ==>
      r == (match IdFrom("hashed_fields", GetField(record.fields, "hashed_fields")) case Some(id) => id case None => "")
  {
    if record.JObj? then
      var f := record.fields;
      var last := ["hashed_fields"];
      var tail := ["journey_id"] + last;
      assert JourneyKeys == ["session_id"] + tail;
      assert tail[1..] == last && last[1..] == [];
      var h := JourneyFrom(f, last);
      assert h == match IdFrom("hashed_fields", GetField(f, "hashed_fields")) case Some(id) => id case None => "";
      var j := JourneyFrom(f, tail);
      assert j == match IdFrom("journey_id", GetField(f, "journey_id")) case Some(id) => id case None => h;
      JourneyFrom(f, JourneyKeys)
    else ""
  }

  // ---------------------------------------------------------------------
  // Consecutive de-duplication (`_deduplicate_events`)
  // ---------------------------------------------------------------------

  /** No two neighbours are equal. */
  predicate NoRepeats(s: seq<string>)
  {
    forall i :: 0 <= i < |s| - 1 ==> s[i] != s[i + 1]
  }

  /** The events with every run of equal neighbours collapsed to one. */
  function Dedup(events: seq<string>): (r: seq<string>)
    ensures |r| <= |events| && (|r| == 0 <==> |events| == 0)
    ensures |events| > 0 ==> r[0] == events[0] && r[|r| - 1] == events[|events| - 1]
    ensures NoRepeats(r)
    decreases |events|
  {
    if |events| <= 1 then events
    else
      var d := Dedup(events[..|events| - 1]);
      var last := events[|events| - 1];
      if last == d[|d| - 1] then d else d + [last]
  }

  /** Reference: event `i` survives exactly when it is the first event or
      differs from the one before it. */
  function Survivors(events: seq<string>): seq<string>
    decreases |events|
  {
    if |events| == 0 then []
    else
      var n := |events|;
      Survivors(events[..n - 1]) + (if n == 1 || events[n - 1] != events[n - 2] then [events[n - 1]] else [])
  }

  lemma {:induction false} DedupIsSurvivors(events: seq<string>)
    ensures Dedup(events) == Survivors(events)
    decreases |events|
  {
    var n := |events|;
    if n >= 2 {
      var p := events[..n - 1];
      DedupIsSurvivors(p);
      assert p[|p| - 1] == events[n - 2];
    } else if n == 1 {
      assert events[..0] == [];
    }
  }

  /** `Sub` is an order-preserving subsequence of `s`. */
  predicate Subsequence(sub: seq<string>, s: seq<string>)
    decreases |s|
  {
    if |sub| == 0 then true
    else if |s| == 0 then false
    else (sub[|sub| - 1] == s[|s| - 1] && Subsequence(sub[..|sub| - 1], s[..|s| - 1])) || Subsequence(sub, s[..|s| - 1])
  }

  lemma {:induction false} DedupSubsequence(events: seq<string>)
    ensures Subsequence(Dedup(events), events)
    decreases |events|
  {
    var n := |events|;
    if n >= 2 {
      var d := Dedup(events[..n - 1]);
      DedupSubsequence(events[..n - 1]);
      if events[n - 1] != d[|d| - 1] {
        assert (d + [events[n - 1]])[..|d|] == d;
      }
    } else if n == 1 {
      assert events[..0] == [];
    }
  }

  /** De-duplication keeps exactly the events that occur. */
  lemma {:induction false} DedupMembers(events: seq<string>)
    ensures forall x :: x in Dedup(events) <==> x in events
    decreases |events|
  {
    var n := |events|;
    if n >= 2 {
      var p := events[..n - 1];
      DedupMembers(p);
      assert events == p + [events[n - 1]];
    }
  }

  /** A sequence without equal neighbours is its own de-duplication. */
  lemma {:induction false} DedupNoRepeats(events: seq<string>)
    requires NoRepeats(events)
    ensures Dedup(events) == events
    decreases |events|
  {
    var n := |events|;
    if n >= 2 {
      var p := events[..n - 1];
      assert NoRepeats(p);
      DedupNoRepeats(p);
      assert events[n - 1] != p[|p| - 1];
      assert events == p + [events[n - 1]];
    }
  }

  /** De-duplication is idempotent. */
  lemma DedupIdempotent(events: seq<string>)
    ensures Dedup(Dedup(events)) == Dedup(events)
  {
    DedupNoRepeats(Dedup(events));
  }

  /** `_deduplicate_events`: the first event, then each event that differs
      from the last one kept. */
  method DeduplicateEvents(events: seq<string>) returns (r: seq<string>)
    ensures r == Dedup(events)
  {
    if |events| == 0 {
      return [];
    }
    r := [events[0]];
    assert events[..1] == [events[0]];
    var i := 1;
    while i < |events|
      invariant 1 <= i <= |events|
      invariant r == Dedup(events[..i])
    {
      assert events[..i + 1][..i] == events[..i];
      if events[i] != r[|r| - 1] {
        r := r + [events[i]];
      }
      i := i + 1;
    }
    assert events[..i] == events;
  }

  // ---------------------------------------------------------------------
  // Gherkin rendering (`_render_gherkin`)
  // ---------------------------------------------------------------------

  /** Journey ids are cut to their first 32 characters. */
  function ShortId(id: string): (r: string)
    ensures |r| == (if |id| > 32 then 32 else |id|)
    ensures r == id[..|r|]
  {
    if |id| > 32 then id[..32] else id
  }

  const StepPrefix: string := "When the system observes "

  /** One step per event. */
  function Steps(events: seq<string>): (r: seq<string>)
    ensures |r| == |events|
    ensures forall i :: 0 <= i < |events| ==> r[i] == StepPrefix + events[i]
  {
    seq(|events|, i requires 0 <= i < |events| => StepPrefix + events[i])
  }

  /** `_render_gherkin`: "" for no events; otherwise the feature, scenario
      and given lines, the steps joined by a newline and two spaces, and the
      closing then line, each separated by a newline (the f-string's pieces,
      grouped from the right). */
  function RenderGherkin(id: string, events: seq<string>): (r: string)
    ensures r == "" <==> |events| == 0
  {
    if |events| == 0 then ""
    else
      var short := ShortId(id);
      Layout("Feature: Journey " + short, "  Scenario: Validate journey " + short, GivenLine,
             Indent + Join("\n" + Indent, Steps(events)), ThenLine)
  }

  const Indent: string := "  "
  const GivenLine: string := "  Given a sanitized transaction journey"
  const ThenLine: string := "  Then the compliance checks pass"

  /** Five pieces separated by newlines. */
  function Layout(feature: string, scenario: string, given: string, steps: string, close: string): string
  {
    feature + "\n" + (scenario + "\n" + (given + "\n" + (steps + "\n" + close)))
  }

  /** The lines of a layout whose steps piece is `stepLines` joined. */
  function LayoutLines(feature: string, scenario: string, given: string, stepLines: seq<string>, close: string): seq<string>
  {
    [feature] + ([scenario] + ([given] + (stepLines + [close])))
  }

  /** Every part prefixed by `p`. */
  function Indented(p: string, parts: seq<string>): (r: seq<string>)
    ensures |r| == |parts| && forall i :: 0 <= i < |parts| ==> r[i] == p + parts[i]
  {
    seq(|parts|, i requires 0 <= i < |parts| => p + parts[i])
  }

  /** The lines a rendered journey consists of: feature, scenario, given, one
      "When the system observes" step per event, then. */
  function GherkinLines(id: string, events: seq<string>): (r: seq<string>)
    ensures |r| == |events| + 4
    ensures r[0] == "Feature: Journey " + ShortId(id)
    ensures forall i :: 0 <= i < |events| ==> r[3 + i] == Indent + (StepPrefix + events[i])
    ensures r[|r| - 1] == ThenLine
  {
    var short := ShortId(id);
    LayoutLines("Feature: Journey " + short, "  Scenario: Validate journey " + short, GivenLine,
                Indented(Indent, Steps(events)), ThenLine)
  }

  /** Joining with "\n" plus an indent is indenting every part and joining
      with "\n". */
  lemma {:induction false} JoinIndented(p: string, parts: seq<string>)
    requires |parts| > 0
    ensures p + Join("\n" + p, parts) == Join("\n", Indented(p, parts))
    decreases |parts|
  {
    if |parts| > 1 {
      JoinIndented(p, parts[1..]);
      assert Indented(p, parts)[1..] == Indented(p, parts[1..]);
    }
  }

  lemma JoinCons(sep: string, x: string, rest: seq<string>)
    requires |rest| > 0
    ensures Join(sep, [x] + rest) == x + sep + Join(sep, rest)
  {
    assert ([x] + rest)[1..] == rest;
  }

  lemma {:induction false} JoinSnoc(sep: string, parts: seq<string>, y: string)
    requires |parts| > 0
    ensures Join(sep, parts + [y]) == Join(sep, parts) + sep + y
    decreases |parts|
  {
    if |parts| == 1 {
      JoinCons(sep, parts[0], [y]);
    } else {
      JoinSnoc(sep, parts[1..], y);
      assert parts + [y] == [parts[0]] + (parts[1..] + [y]);
      JoinCons(sep, parts[0], parts[1..] + [y]);
    }
  }

  /** A layout is its lines joined by newlines. */
  lemma LayoutJoin(feature: string, scenario: string, given: string, stepLines: seq<string>, close: string)
    requires |stepLines| > 0
    ensures Layout(feature, scenario, given, Join("\n", stepLines), close) == Join("\n", LayoutLines(feature, scenario, given, stepLines, close))
  {
    JoinSnoc("\n", stepLines, close);
    JoinCons("\n", given, stepLines + [close]);
    JoinCons("\n", scenario, [given] + (stepLines + [close]));
    JoinCons("\n", feature, [scenario] + ([given] + (stepLines + [close])));
  }

  /** The rendered journey is its lines joined by newlines. */
  lemma RenderedLines(id: string, events: seq<string>)
    requires |events| > 0
    ensures RenderGherkin(id, events) == Join("\n", GherkinLines(id, events))
  {
    var short := ShortId(id);
    JoinIndented(Indent, Steps(events));
    LayoutJoin("Feature: Journey " + short, "  Scenario: Validate journey " + short, GivenLine,
               Indented(Indent, Steps(events)), ThenLine);
  }

  /** A layout's lines hold no newline when its pieces hold none. */
  lemma LayoutLinesOneLine(feature: string, scenario: string, given: string, stepLines: seq<string>, close: string)
    requires '\n' !in feature && '\n' !in scenario && '\n' !in given && '\n' !in close
    requires forall i :: 0 <= i < |stepLines| ==> '\n' !in stepLines[i]
    ensures forall i :: 0 <= i < |LayoutLines(feature, scenario, given, stepLines, close)| ==>
              '\n' !in LayoutLines(feature, scenario, given, stepLines, close)[i]
  {
    var lines := LayoutLines(feature, scenario, given, stepLines, close);
    forall i | 0 <= i < |lines|
      ensures '\n' !in lines[i]
    {
      if 3 <= i < |lines| - 1 {
        assert lines[i] == stepLines[i - 3];
      }
    }
  }

  lemma FixedLinesOneLine()
    ensures '\n' !in GivenLine && '\n' !in ThenLine && '\n' !in Indent && '\n' !in StepPrefix
  {
  }

  /** No line of a rendered journey holds a newline when neither the id nor
      any event does. */
  lemma NoNewlineInLines(id: string, events: seq<string>)
    requires '\n' !in id
    requires forall i :: 0 <= i < |events| ==> '\n' !in events[i]
    ensures forall i :: 0 <= i < |GherkinLines(id, events)| ==> '\n' !in GherkinLines(id, events)[i]
  {
    var short := ShortId(id);
    assert '\n' !in short by {
      assert forall k :: 0 <= k < |short| ==> short[k] == id[k];
    }
    var feature := "Feature: Journey " + short;
    var scenario := "  Scenario: Validate journey " + short;
    assert '\n' !in feature && '\n' !in scenario;
    FixedLinesOneLine();
    var steps := Indented(Indent, Steps(events));
    assert forall i :: 0 <= i < |steps| ==> '\n' !in steps[i] by {
      forall i | 0 <= i < |steps| ensures '\n' !in steps[i] {
        assert steps[i] == Indent + (StepPrefix + events[i]);
      }
    }
    LayoutLinesOneLine(feature, scenario, GivenLine, steps, ThenLine);
    assert GherkinLines(id, events) == LayoutLines(feature, scenario, GivenLine, steps, ThenLine);
  }

  /** Rendering can be undone: when neither the id nor any event holds a
      newline, splitting the scenario at newlines gives back its lines, and
      so step `i` names event `i`. */
  lemma GherkinRoundTrip(id: string, events: seq<string>)
    requires |events| > 0 && '\n' !in id
    requires forall i :: 0 <= i < |events| ==> '\n' !in events[i]
    ensures Split(RenderGherkin(id, events), '\n') == GherkinLines(id, events)
  {
    RenderedLines(id, events);
    NoNewlineInLines(id, events);
    SplitJoin('\n', GherkinLines(id, events));
  }

  // ---------------------------------------------------------------------
  // Test assembly (`_generate_tests`)
  // ---------------------------------------------------------------------

  /** A journey with events counts, under its de-duplicated signature. */
  predicate Counts(j: Entry<seq<string>>)
  {
    |j.value| > 0
  }

  /** Some kept journey has signature `sig`. */
  predicate SeenSignature(kept: Entries<seq<string>>, sig: seq<string>)
  {
    exists i :: 0 <= i < |kept| && kept[i].value == sig
  }

  /** Some counting journey has signature `sig`. */
  predicate Occurs(journeys: Entries<seq<string>>, sig: seq<string>)
  {
    exists k :: 0 <= k < |journeys| && Counts(journeys[k]) && Dedup(journeys[k].value) == sig
  }

  /** Whether the last of `journeys` gets a scenario after the ones kept
      before it. */
  predicate Fresh(kept: Entries<seq<string>>, j: Entry<seq<string>>)
  {
    Counts(j) && !SeenSignature(kept, Dedup(j.value))
  }

  /** The journeys that get a scenario, as (id, signature) pairs: each
      non-empty journey whose signature no earlier journey had. */
  function Picked(journeys: Entries<seq<string>>): Entries<seq<string>>
    decreases |journeys|
  {
    if |journeys| == 0 then []
    else
      var p := Picked(journeys[..|journeys| - 1]);
      var j := journeys[|journeys| - 1];
      if Fresh(p, j) then p + [Entry(j.key, Dedup(j.value))] else p
  }

  /** One journey more. */
  lemma PickedStep(journeys: Entries<seq<string>>, i: nat)
    requires i < |journeys|
    ensures Picked(journeys[..i + 1]) ==
      if Fresh(Picked(journeys[..i]), journeys[i]) then Picked(journeys[..i]) + [Entry(journeys[i].key, Dedup(journeys[i].value))]
      else Picked(journeys[..i])
  {
    assert journeys[..i + 1][..i] == journeys[..i];
  }

  lemma SeenSnoc(kept: Entries<seq<string>>, e: Entry<seq<string>>, sig: seq<string>)
    ensures SeenSignature(kept + [e], sig) <==> SeenSignature(kept, sig) || e.value == sig
  {
    if SeenSignature(kept, sig) {
      var i :| 0 <= i < |kept| && kept[i].value == sig;
      assert (kept + [e])[i] == kept[i];
    }
    if e.value == sig {
      assert (kept + [e])[|kept|] == e;
    }
  }

  lemma OccursSnoc(journeys: Entries<seq<string>>, sig: seq<string>)
    requires |journeys| > 0
    ensures Occurs(journeys, sig) <==>
      Occurs(journeys[..|journeys| - 1], sig) || (Counts(journeys[|journeys| - 1]) && Dedup(journeys[|journeys| - 1].value) == sig)
  {
    var front := journeys[..|journeys| - 1];
    if Occurs(journeys, sig) {
      var k :| 0 <= k < |journeys| && Counts(journeys[k]) && Dedup(journeys[k].value) == sig;
      if k < |front| {
        assert front[k] == journeys[k];
      }
    }
    if Occurs(front, sig) {
      var k :| 0 <= k < |front| && Counts(front[k]) && Dedup(front[k].value) == sig;
      assert journeys[k] == front[k];
    }
  }

  /** A signature is kept exactly when some non-empty journey has it. */
  lemma {:induction false} PickedOccurs(journeys: Entries<seq<string>>)
    ensures forall sig :: SeenSignature(Picked(journeys), sig) <==> Occurs(journeys, sig)
    decreases |journeys|
  {
    if |journeys| > 0 {
      var n := |journeys|;
      var front := journeys[..n - 1];
      var j := journeys[n - 1];
      var p := Picked(front);
      PickedOccurs(front);
      forall sig
        ensures SeenSignature(Picked(journeys), sig) <==> Occurs(journeys, sig)
      {
        OccursSnoc(journeys, sig);
        if Fresh(p, j) {
          SeenSnoc(p, Entry(j.key, Dedup(j.value)), sig);
        }
      }
    }
  }

  /** One scenario per signature: kept signatures are pairwise distinct. */
  lemma {:induction false} PickedDistinct(journeys: Entries<seq<string>>)
    ensures forall i, k :: 0 <= i < k < |Picked(journeys)| ==> Picked(journeys)[i].value != Picked(journeys)[k].value
    decreases |journeys|
  {
    if |journeys| > 0 {
      var n := |journeys|;
      var front := journeys[..n - 1];
      var j := journeys[n - 1];
      var p := Picked(front);
      PickedDistinct(front);
      if Fresh(p, j) {
        var q := p + [Entry(j.key, Dedup(j.value))];
        forall i, k | 0 <= i < k < |q|
          ensures q[i].value != q[k].value
        {
          if k == |p| {
            assert q[i] == p[i];
          } else {
            assert q[i] == p[i] && q[k] == p[k];
          }
        }
      }
    }
  }

  /** Where a kept pair came from: the `k`-th journey is non-empty, has the
      pair's id and signature, and no earlier journey had that signature. */
  predicate FirstOf(journeys: Entries<seq<string>>, e: Entry<seq<string>>, k: int)
  {
    && 0 <= k < |journeys|
    && journeys[k].key == e.key
    && Counts(journeys[k])
    && Dedup(journeys[k].value) == e.value
    && !Occurs(journeys[..k], e.value)
  }

  /** The journey a kept pair comes from. */
  lemma {:induction false} PickedOrigin(journeys: Entries<seq<string>>, i: nat) returns (k: int)
    requires i < |Picked(journeys)|
    ensures FirstOf(journeys, Picked(journeys)[i], k)
    decreases |journeys|
  {
    var n := |journeys|;
    var front := journeys[..n - 1];
    var j := journeys[n - 1];
    var p := Picked(front);
    if i < |p| {
      assert Picked(journeys)[i] == p[i];
      k := PickedOrigin(front, i);
      assert front[..k] == journeys[..k];
      assert front[k] == journeys[k];
    } else {
      PickedOccurs(front);
      assert Fresh(p, j);
      k := n - 1;
    }
  }

  /** Some journey is where `e` comes from. */
  predicate HasOrigin(journeys: Entries<seq<string>>, e: Entry<seq<string>>)
  {
    exists k | 0 <= k < |journeys| :: FirstOf(journeys, e, k)
  }

  /** The first journey with a signature names its scenario. */
  lemma PickedFirst(journeys: Entries<seq<string>>)
    ensures forall i :: 0 <= i < |Picked(journeys)| ==> HasOrigin(journeys, Picked(journeys)[i])
  {
    forall i | 0 <= i < |Picked(journeys)|
      ensures HasOrigin(journeys, Picked(journeys)[i])
    {
      var k := PickedOrigin(journeys, i);
    }
  }

  /** Kept signatures are never empty. */
  lemma {:induction false} PickedNonEmpty(journeys: Entries<seq<string>>)
    ensures forall i :: 0 <= i < |Picked(journeys)| ==> |Picked(journeys)[i].value| > 0
    decreases |journeys|
  {
    if |journeys| > 0 {
      PickedNonEmpty(journeys[..|journeys| - 1]);
    }
  }

  /** The scenario of each kept journey. */
  function Renders(kept: Entries<seq<string>>): (r: seq<string>)
    ensures |r| == |kept|
    ensures forall i :: 0 <= i < |kept| ==> r[i] == RenderGherkin(kept[i].key, kept[i].value)
  {
    seq(|kept|, i requires 0 <= i < |kept| => RenderGherkin(kept[i].key, kept[i].value))
  }

  lemma RendersSnoc(kept: Entries<seq<string>>, e: Entry<seq<string>>)
    ensures Renders(kept + [e]) == Renders(kept) + [RenderGherkin(e.key, e.value)]
  {
    var a := Renders(kept + [e]);
    var b := Renders(kept) + [RenderGherkin(e.key, e.value)];
    assert forall i :: 0 <= i < |kept| ==> a[i] == b[i] by {
      forall i | 0 <= i < |kept| ensures a[i] == b[i] {
        assert (kept + [e])[i] == kept[i];
      }
    }
  }

  lemma SeenSnocAll(kept: Entries<seq<string>>, e: Entry<seq<string>>)
    ensures forall sig :: SeenSignature(kept + [e], sig) <==> SeenSignature(kept, sig) || e.value == sig
  {
    forall sig
      ensures SeenSignature(kept + [e], sig) <==> SeenSignature(kept, sig) || e.value == sig
    {
      SeenSnoc(kept, e, sig);
    }
  }

  /** The journey scenarios, in journey order; none is empty. */
  function JourneyScenarios(journeys: Entries<seq<string>>): (r: seq<string>)
    ensures |r| == |Picked(journeys)|
    ensures forall i :: 0 <= i < |r| ==> r[i] == RenderGherkin(Picked(journeys)[i].key, Picked(journeys)[i].value) && r[i] != ""
  {
    PickedNonEmpty(journeys);
    Renders(Picked(journeys))
  }

  /** `_generate_tests`: one scenario per distinct de-duplicated journey, in
      first-seen order, then the compliance scenarios, then the fraud
      scenarios. */
  method GenerateTests(journeys: Entries<seq<string>>, compliance: seq<Compliance.ComplianceFinding>, fraud: seq<Fraud.FraudFinding>)
    returns (r: seq<string>)
    ensures r == JourneyScenarios(journeys) + Compliance.GenerateTests(compliance) + Fraud.GenerateTests(fraud)
    ensures |r| == |Picked(journeys)| + |compliance| + |fraud|
  {
    var scenarios: seq<string> := [];
    var seen: set<seq<string>> := {};
    ghost var kept: Entries<seq<string>> := [];
    var i := 0;
    while i < |journeys|
      invariant 0 <= i <= |journeys|
      invariant kept == Picked(journeys[..i])
      invariant forall sig :: sig in seen <==> SeenSignature(kept, sig)
      invariant scenarios == Renders(kept)
    {
      PickedStep(journeys, i);
      var id := journeys[i].key;
      var events := journeys[i].value;
      if |events| > 0 {
        var signature := DeduplicateEvents(events);
        if signature !in seen {
          SeenSnocAll(kept, Entry(id, signature));
          RendersSnoc(kept, Entry(id, signature));
          seen := seen + {signature};
          kept := kept + [Entry(id, signature)];
          var scenario := RenderGherkin(id, signature);
          if |scenario| > 0 {
            scenarios := scenarios + [scenario];
          }
        }
      }
      i := i + 1;
    }
    assert journeys[..i] == journeys;
    r := scenarios + Compliance.GenerateTests(compliance) + Fraud.GenerateTests(fraud);
  }
}
