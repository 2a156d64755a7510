/** The banking compliance engine (`BankingComplianceEngine`): three record
    checks whose evidence becomes at most three findings, and the Gherkin
    scenarios rendered from findings. The account-number regex is a
    parameter; `str` of lists and dicts is the `repr` parameter. */
module Compliance {
  import opened Wrappers
  import opened Dicts
  import opened Json
  import opened Strings

  /** The three rules, in the order their findings are reported. */
  datatype Rule = AuditTrailCompleteness | PciAccountMasking | GdprAccessLogging

  function RuleName(rule: Rule): string
  {
    match rule
    case AuditTrailCompleteness => "AuditTrailCompleteness"
    case PciAccountMasking => "PCIAccountMasking"
    case GdprAccessLogging => "GDPRAccessLogging"
  }

  function Severity(rule: Rule): string
  {
    match rule
    case AuditTrailCompleteness => "high"
    case PciAccountMasking => "critical"
    case GdprAccessLogging => "medium"
  }

  function Description(rule: Rule): string
  {
    match rule
    case AuditTrailCompleteness => "Some transactions lack timestamp or hashed identifiers."
    case PciAccountMasking => "Detected possible card/account numbers that were not tokenized."
    case GdprAccessLogging => "Customer data access events require hashed customer identifiers."
  }

  function Rank(rule: Rule): nat
  {
    match rule
    case AuditTrailCompleteness => 0
    case PciAccountMasking => 1
    case GdprAccessLogging => 2
  }

  /** A `ComplianceFinding`; its name, severity and description follow from
      its rule. */
  datatype ComplianceFinding = ComplianceFinding(rule: Rule, evidence: seq<string>)

  /** Does `ACCOUNT_PATTERN` (12 to 18 digits between word boundaries) occur
      in the text? */
  type AccountSearch = string -> bool

  /** `record.get("analysis", {}).get("event_label")`: `None` without an
      analysis, and an `AttributeError` when the analysis is not a dict. */
  function Label(record: Entries<Json>): (r: Result<Json>)
    ensures r.Err? <==> HasKey(record, "analysis") && !GetField(record, "analysis").JObj?
    ensures r.Ok? && HasKey(record, "analysis") ==> r.value == GetField(GetField(record, "analysis").fields, "event_label")
    ensures !HasKey(record, "analysis") ==> r == Ok(JNull)
  {
    if !HasKey(record, "analysis") then Ok(JNull)
    else
      match GetField(record, "analysis")
      case JObj(analysis) => Ok(GetField(analysis, "event_label"))
      case _ => Err(AttributeError("get"))
  }

  predicate LabelIs(record: Entries<Json>, name: string)
  {
    Label(record) == Ok(JStr(name))
  }

  /** `" {value}"` for every string value of the record, in order. */
  function StringValues(fields: Entries<Json>): (r: string)
    ensures |fields| == 0 ==> r == ""
    ensures |fields| > 0 && fields[0].value.JStr? ==> r == " " + fields[0].value.s + StringValues(fields[1..])
    ensures |fields| > 0 && !fields[0].value.JStr? ==> r == StringValues(fields[1..])
  {
    if |fields| == 0 then ""
    else if fields[0].value.JStr? then " " + fields[0].value.s + StringValues(fields[1..])
    else StringValues(fields[1..])
  }

  /** `str(record.get("message", ""))`. */
  function MessageField(record: Entries<Json>, repr: Json -> string): (r: string)
    ensures !HasKey(record, "message") ==> r == ""
    ensures GetField(record, "message").JStr? ==> r == GetField(record, "message").s
  {
    if HasKey(record, "message") then Str(GetField(record, "message"), repr) else ""
  }

  /** The text the checks search: the message followed by every string
      value. */
  function MessageText(record: Entries<Json>, repr: Json -> string): string
  {
    MessageField(record, repr) + StringValues(record)
  }

  /** The audit check: a transaction event without a timestamp or without
      hashed fields, reported with its journey or session id. */
  function AuditEvidence(record: Entries<Json>, repr: Json -> string): (r: Option<string>)
    ensures r.Some? <==> LabelIs(record, "transaction_event")
                         && (!Truthy(GetField(record, "timestamp")) || !Truthy(GetField(record, "hashed_fields")))
  {
    if LabelIs(record, "transaction_event")
       && (!Truthy(GetField(record, "timestamp")) || !Truthy(GetField(record, "hashed_fields")))
    then
      var id := if Truthy(GetField(record, "journey_id")) then GetField(record, "journey_id") else GetField(record, "session_id");
      Some("Transaction record missing timestamp or hashed_fields: " + Str(id, repr))
    else None
  }

  /** The PCI check: an account-like number anywhere in the text. */
  predicate PciIssue(record: Entries<Json>, repr: Json -> string, search: AccountSearch)
  {
    search(MessageText(record, repr))
  }

  /** The GDPR check: a generic event mentioning data access without hashed
      fields. */
  predicate GdprGap(record: Entries<Json>, repr: Json -> string)
  {
    && LabelIs(record, "generic_event")
    && Contains(Lower(MessageText(record, repr)), "data access")
    && !Truthy(GetField(record, "hashed_fields"))
  }

  /** The present values, in order: a list that is appended to once per
      record that gives evidence. */
  function Somes(xs: seq<Option<string>>): (r: seq<string>)
    ensures |r| <= |xs|
  {
    if |xs| == 0 then [] else (if xs[0].Some? then [xs[0].value] else []) + Somes(xs[1..])
  }

  /** The list is empty exactly when no element is present. */
  lemma {:induction false} SomesNonEmpty(xs: seq<Option<string>>)
    ensures |Somes(xs)| > 0 <==> exists i :: 0 <= i < |xs| && xs[i].Some?
  {
    if |xs| > 0 {
      SomesNonEmpty(xs[1..]);
      if exists i :: 1 <= i < |xs| && xs[i].Some? {
        var i :| 1 <= i < |xs| && xs[i].Some?;
        assert xs[1..][i - 1] == xs[i];
      }
    }
  }

  /** Every element of the list is a present value, in order. */
  lemma {:induction false} SomesElements(xs: seq<Option<string>>, v: string)
    ensures v in Somes(xs) <==> Some(v) in xs
  {
    if |xs| > 0 {
      SomesElements(xs[1..], v);
      assert xs == [xs[0]] + xs[1..];
    }
  }

  const PciMessage: string := "Potential unmasked account number detected in sanitized payload."
  const GdprMessage: string := "Customer data access event missing hashed identifier."

  /** Per record: its audit evidence, if any. */
  function AuditColumn(records: seq<Entries<Json>>, repr: Json -> string): (r: seq<Option<string>>)
    ensures |r| == |records| && forall i :: 0 <= i < |records| ==> r[i] == AuditEvidence(records[i], repr)
  {
    seq(|records|, i requires 0 <= i < |records| => AuditEvidence(records[i], repr))
  }

  /** Per record: the PCI message when its text holds an account-like number. */
  function PciColumn(records: seq<Entries<Json>>, repr: Json -> string, search: AccountSearch): (r: seq<Option<string>>)
    ensures |r| == |records|
    ensures forall i :: 0 <= i < |records| ==> (r[i].Some? <==> PciIssue(records[i], repr, search))
    ensures forall i :: 0 <= i < |records| && r[i].Some? ==> r[i].value == PciMessage
  {
    seq(|records|, i requires 0 <= i < |records| => if PciIssue(records[i], repr, search) then Some(PciMessage) else None)
  }

  /** Per record: the GDPR message when it is a data-access gap. */
  function GdprColumn(records: seq<Entries<Json>>, repr: Json -> string): (r: seq<Option<string>>)
    ensures |r| == |records|
    ensures forall i :: 0 <= i < |records| ==> (r[i].Some? <==> GdprGap(records[i], repr))
    ensures forall i :: 0 <= i < |records| && r[i].Some? ==> r[i].value == GdprMessage
  {
    seq(|records|, i requires 0 <= i < |records| => if GdprGap(records[i], repr) then Some(GdprMessage) else None)
  }

  /** The findings built from the three evidence lists: one per non-empty
      list, in the fixed order audit, PCI, GDPR. */
  function Findings(audit: seq<string>, pci: seq<string>, gdpr: seq<string>): (r: seq<ComplianceFinding>)
    ensures |r| <= 3
    ensures forall i, j :: 0 <= i < j < |r| ==> Rank(r[i].rule) < Rank(r[j].rule)
    ensures ComplianceFinding(AuditTrailCompleteness, audit) in r <==> |audit| > 0
    ensures ComplianceFinding(PciAccountMasking, pci) in r <==> |pci| > 0
    ensures ComplianceFinding(GdprAccessLogging, gdpr) in r <==> |gdpr| > 0
    ensures forall f :: f in r ==> f == ComplianceFinding(f.rule, Evidence(f.rule, audit, pci, gdpr))
  {
    (if |audit| > 0 then [ComplianceFinding(AuditTrailCompleteness, audit)] else [])
    + (if |pci| > 0 then [ComplianceFinding(PciAccountMasking, pci)] else [])
    + (if |gdpr| > 0 then [ComplianceFinding(GdprAccessLogging, gdpr)] else [])
  }

  function Evidence(rule: Rule, audit: seq<string>, pci: seq<string>, gdpr: seq<string>): seq<string>
  {
    match rule
    case AuditTrailCompleteness => audit
    case PciAccountMasking => pci
    case GdprAccessLogging => gdpr
  }

  /** Some record's analysis is not a dict, so `evaluate` raises. */
  predicate AnyBadAnalysis(records: seq<Entries<Json>>)
  {
    exists i :: 0 <= i < |records| && Label(records[i]).Err?
  }

  /** `evaluate` on the dict records. */
  function Evaluate(records: seq<Entries<Json>>, repr: Json -> string, search: AccountSearch): (r: Result<seq<ComplianceFinding>>)
    ensures r.Err? <==> AnyBadAnalysis(records)
    ensures r.Ok? ==> |r.value| <= 3
    ensures r.Ok? ==> forall i, j :: 0 <= i < j < |r.value| ==> Rank(r.value[i].rule) < Rank(r.value[j].rule)
  {
    if AnyBadAnalysis(records) then Err(AttributeError("get"))
    else Ok(Findings(Somes(AuditColumn(records, repr)), Somes(PciColumn(records, repr, search)), Somes(GdprColumn(records, repr))))
  }

  /** A rule is reported exactly when its evidence list is non-empty. */
  lemma ReportedIff(rule: Rule, audit: seq<string>, pci: seq<string>, gdpr: seq<string>)
    ensures (exists f :: f in Findings(audit, pci, gdpr) && f.rule == rule) <==> |Evidence(rule, audit, pci, gdpr)| > 0
  {
    var fs := Findings(audit, pci, gdpr);
    if |Evidence(rule, audit, pci, gdpr)| > 0 {
      assert ComplianceFinding(rule, Evidence(rule, audit, pci, gdpr)) in fs;
    }
  }

  /** The audit rule is reported exactly when some transaction record lacks a
      timestamp or hashed fields. */
  lemma EvaluateAudit(records: seq<Entries<Json>>, repr: Json -> string, search: AccountSearch)
    requires !AnyBadAnalysis(records)
    ensures (exists f :: f in Evaluate(records, repr, search).value && f.rule == AuditTrailCompleteness)
        <==> exists i :: 0 <= i < |records| && AuditEvidence(records[i], repr).Some?
  {
    var audit, pci, gdpr := Somes(AuditColumn(records, repr)), Somes(PciColumn(records, repr, search)), Somes(GdprColumn(records, repr));
    ReportedIff(AuditTrailCompleteness, audit, pci, gdpr);
    SomesNonEmpty(AuditColumn(records, repr));
  }

  /** The PCI rule is reported exactly when some record's text holds an
      account-like number. */
  lemma EvaluatePci(records: seq<Entries<Json>>, repr: Json -> string, search: AccountSearch)
    requires !AnyBadAnalysis(records)
    ensures (exists f :: f in Evaluate(records, repr, search).value && f.rule == PciAccountMasking)
        <==> exists i :: 0 <= i < |records| && PciIssue(records[i], repr, search)
  {
    var audit, pci, gdpr := Somes(AuditColumn(records, repr)), Somes(PciColumn(records, repr, search)), Somes(GdprColumn(records, repr));
    ReportedIff(PciAccountMasking, audit, pci, gdpr);
    SomesNonEmpty(PciColumn(records, repr, search));
  }

  /** The GDPR rule is reported exactly when some generic data-access event
      lacks hashed fields. */
  lemma EvaluateGdpr(records: seq<Entries<Json>>, repr: Json -> string, search: AccountSearch)
    requires !AnyBadAnalysis(records)
    ensures (exists f :: f in Evaluate(records, repr, search).value && f.rule == GdprAccessLogging)
        <==> exists i :: 0 <= i < |records| && GdprGap(records[i], repr)
  {
    var audit, pci, gdpr := Somes(AuditColumn(records, repr)), Somes(PciColumn(records, repr, search)), Somes(GdprColumn(records, repr));
    ReportedIff(GdprAccessLogging, audit, pci, gdpr);
    SomesNonEmpty(GdprColumn(records, repr));
  }

  /** The PCI evidence is one fixed message per offending record. */
  lemma PciEvidenceMessages(records: seq<Entries<Json>>, repr: Json -> string, search: AccountSearch, v: string)
    ensures v in Somes(PciColumn(records, repr, search)) ==> v == PciMessage
  {
    SomesElements(PciColumn(records, repr, search), v);
  }

  function Min(a: int, b: int): int
  {
    if a <= b then a else b
  }

  /** `f"- {item}"` for the first five items. */
  function EvidenceItems(evidence: seq<string>): (r: seq<string>)
    ensures |r| == Min(5, |evidence|)
    ensures forall i :: 0 <= i < |r| ==> r[i] == "- " + evidence[i]
  {
    var n := Min(5, |evidence|);
    seq(n, i requires 0 <= i < n => "- " + evidence[i])
  }

  /** The scenario header up to its last visible character. */
  function ComplianceHeader(f: ComplianceFinding): string
  {
    var name := RuleName(f.rule);
    "Feature: Compliance rule "
    + (name + "\n"
       + "  Scenario: Validate " + name + " remediation\n"
       + "  Given sanitized banking logs with potential non-compliance\n"
       + "  When the compliance engine inspects the records\n"
       + "  Then it flags " + Severity(f.rule) + " severity for ")
    + name
  }

  const EvidenceLine: string := "\n  And supporting evidence includes:"

  /** The evidence lines of a finding. */
  function EvidenceText(f: ComplianceFinding): string
  {
    Join("\n    ", EvidenceItems(f.evidence))
  }

  /** A Gherkin scenario as both engines lay it out: the header, then, when
      there is detail, a closing line, a separator and the detail; the whole
      text stripped. */
  function Scenario(header: string, line: string, sep: string, detail: string): string
  {
    Strip(if |detail| > 0 then header + line + sep + detail + "\n" else header + "\n")
  }

  /** A scenario opens with its full header; the closing line follows
      exactly when there is detail, and otherwise the scenario is the header
      alone. */
  lemma ScenarioShape(header: string, line: string, sep: string, detail: string)
    requires |header| > 0 && !IsSpace(header[0]) && !IsSpace(header[|header| - 1])
    requires |line| > 0 && !IsSpace(line[|line| - 1])
    ensures |detail| == 0 ==> Scenario(header, line, sep, detail) == header
    ensures |detail| > 0 ==> |Scenario(header, line, sep, detail)| >= |header + line|
                             && Scenario(header, line, sep, detail)[..|header + line|] == header + line
  {
    if |detail| == 0 {
      StripKeepsPrefix(header, "\n");
    } else {
      var p := header + line;
      assert p + sep + detail + "\n" == p + (sep + detail + "\n");
      StripKeepsPrefix(p, sep + detail + "\n");
    }
  }

  /** The scenario for one finding. */
  function ComplianceScenario(f: ComplianceFinding): string
  {
    Scenario(ComplianceHeader(f), EvidenceLine, "\n    ", EvidenceText(f))
  }

  /** A joined list is at least as long as its first part. */
  lemma JoinHead(sep: string, parts: seq<string>)
    requires |parts| > 0
    ensures |Join(sep, parts)| >= |parts[0]|
  {
  }

  /** There are evidence lines exactly when the finding has evidence. */
  lemma EvidenceTextEmpty(f: ComplianceFinding)
    ensures |EvidenceText(f)| > 0 <==> |f.evidence| > 0
  {
    if |f.evidence| > 0 {
      JoinHead("\n    ", EvidenceItems(f.evidence));
    }
  }

  lemma HeaderVisible(f: ComplianceFinding)
    ensures var h := ComplianceHeader(f); |h| > 0 && !IsSpace(h[0]) && !IsSpace(h[|h| - 1])
  {
    var name := RuleName(f.rule);
    var lead := "Feature: Compliance rule ";
    var h := ComplianceHeader(f);
    assert !IsSpace(name[|name| - 1]);
    assert h[|h| - 1] == name[|name| - 1];
    assert h[0] == lead[0];
  }

  /** Every compliance scenario opens with its full header; the evidence line
      follows exactly when the finding has evidence, and otherwise the
      scenario is the header alone. */
  lemma ComplianceScenarioShape(f: ComplianceFinding)
    ensures |f.evidence| == 0 ==> ComplianceScenario(f) == ComplianceHeader(f)
    ensures |f.evidence| > 0 ==>
      var p := ComplianceHeader(f) + EvidenceLine;
      |ComplianceScenario(f)| >= |p| && ComplianceScenario(f)[..|p|] == p
  {
    HeaderVisible(f);
    EvidenceTextEmpty(f);
    ScenarioShape(ComplianceHeader(f), EvidenceLine, "\n    ", EvidenceText(f));
  }

  /** `generate_tests`: one scenario per finding, in order. */
  function GenerateTests(findings: seq<ComplianceFinding>): (r: seq<string>)
    ensures |r| == |findings|
    ensures forall i :: 0 <= i < |findings| ==> r[i] == ComplianceScenario(findings[i])
  {
    seq(|findings|, i requires 0 <= i < |findings| => ComplianceScenario(findings[i]))
  }
}
