/** The CI summary of an analysis artifact (`generate_summary` and
    `_summarise_clusters`): the number of records, anomalies and
    high-severity findings, and the three largest clusters. An attribute the
    artifact lacks, a record that is not a dict or a severity that is not a
    string becomes the exception Python raises. */
module Ci {
  import opened Wrappers
  import opened Dicts
  import opened Json
  import opened Strings
  import opened Sorting
  import Compliance
  import Fraud
  import Clustering

  /** The attributes `generate_summary` reads, each `None` when the artifact
      lacks it. */
  datatype Artifact = Artifact(
    sanitizedLogs: Option<seq<Json>>,
    parsedRecords: Option<seq<Json>>,
    complianceFindings: Option<seq<Json>>,
    fraudFindings: Option<seq<Json>>,
    clusterSummary: Option<Json>)

  /** One of `largest_clusters`. */
  datatype ClusterEntry = ClusterEntry(id: string, count: nat, topTerms: Json)

  /** The `top_clusters` dict. */
  datatype ClusterOverview = ClusterOverview(largest: seq<ClusterEntry>, total: nat)

  datatype CISummary = CISummary(
    totalRecords: nat,
    highSeverity: nat,
    anomalies: nat,
    compliance: seq<Json>,
    fraud: seq<Json>,
    topClusters: ClusterOverview)

  // ---------------------------------------------------------------------
  // Counting with `sum(1 for x in xs if test(x))`
  // ---------------------------------------------------------------------

  /** A test that may raise, applied to every element front to back: the
      first exception raised, or every outcome. */
  function Outcomes<T>(xs: seq<T>, test: T -> Result<bool>): (r: Result<seq<bool>>)
    ensures r.Ok? <==> forall i :: 0 <= i < |xs| ==> test(xs[i]).Ok?
    ensures r.Ok? ==> |r.value| == |xs| && forall i :: 0 <= i < |xs| ==> test(xs[i]) == Ok(r.value[i])
    ensures r.Err? ==> exists i :: 0 <= i < |xs| && test(xs[i]) == Err(r.error) && forall j :: 0 <= j < i ==> test(xs[j]).Ok?
    decreases |xs|
  {
    if |xs| == 0 then Ok([])
    else
      match test(xs[0])
      case Err(e) => Err(e)
      case Ok(b) =>
        var rest := Outcomes(xs[1..], test);
        assert forall i :: 1 <= i < |xs| ==> xs[1..][i - 1] == xs[i];
        match rest
        case Err(e) =>
          assert exists i :: 1 <= i < |xs| && test(xs[i]) == Err(e) && forall j :: 0 <= j < i ==> test(xs[j]).Ok? by {
            var i :| 0 <= i < |xs| - 1 && test(xs[1..][i]) == Err(e) && forall j :: 0 <= j < i ==> test(xs[1..][j]).Ok?;
            assert test(xs[i + 1]) == Err(e);
            assert forall j :: 1 <= j < i + 1 ==> test(xs[j]).Ok? by {
              forall j | 1 <= j < i + 1 ensures test(xs[j]).Ok? {
                assert xs[j] == xs[1..][j - 1];
              }
            }
          }
          Err(e)
        case Ok(bs) => Ok([b] + bs)
  }

  /** The number of true flags. */
  function Count(flags: seq<bool>): (r: nat)
    ensures r <= |flags|
    ensures r == 0 <==> forall i :: 0 <= i < |flags| ==> !flags[i]
    ensures r == |flags| <==> forall i :: 0 <= i < |flags| ==> flags[i]
  {
    if |flags| == 0 then 0
    else
      assert forall i :: 1 <= i < |flags| ==> flags[1..][i - 1] == flags[i];
      (if flags[0] then 1 else 0) + Count(flags[1..])
  }

  /** Counting two runs of flags one after the other adds their counts. */
  lemma {:induction false} CountAppend(a: seq<bool>, b: seq<bool>)
    ensures Count(a + b) == Count(a) + Count(b)
  {
    if |a| > 0 {
      assert (a + b)[0] == a[0];
      assert (a + b)[1..] == a[1..] + b;
      CountAppend(a[1..], b);
    } else {
      assert a + b == b;
    }
  }

  /** `record.get("is_anomaly")` is truthy; only dicts have `get`. */
  function AnomalyTest(record: Json): (r: Result<bool>)
    ensures r.Ok? <==> record.JObj?
    ensures r.Err? ==> r.error == AttributeError("get")
  {
    match record
    case JObj(fields) => Ok(Truthy(GetField(fields, "is_anomaly")))
    case _ => Err(AttributeError("get"))
  }

  /** The severities that count as high once lower-cased. */
  predicate IsHigh(severity: string)
  {
    Lower(severity) == "critical" || Lower(severity) == "high"
  }

  /** `finding.get("severity", "").lower() in {"critical", "high"}`: a
      finding must be a dict and its severity, when present, a string. */
  function HighTest(finding: Json): (r: Result<bool>)
    ensures !finding.JObj? ==> r == Err(AttributeError("get"))
    ensures r == Ok(true) ==> && finding.JObj? && Get(finding.fields, "severity").Some?
                              && Get(finding.fields, "severity").value.JStr?
                              && IsHigh(Get(finding.fields, "severity").value.s)
  {
    match finding
    case JObj(fields) =>
      (match Get(fields, "severity")
       case None => Ok(IsHigh(""))
       case Some(v) => if v.JStr? then Ok(IsHigh(v.s)) else Err(AttributeError("lower")))
    case _ => Err(AttributeError("get"))
  }

  /** Severity is matched without regard to case. */
  lemma IsHighIgnoresCase(s: string)
    ensures IsHigh(Lower(s)) == IsHigh(s)
  {
    LowerIdempotent(s);
  }

  // ---------------------------------------------------------------------
  // `_summarise_clusters`
  // ---------------------------------------------------------------------

  /** `len(v)`, for the values that have a length. */
  function Size(j: Json): Option<nat>
  {
    match j
    case JStr(s) => Some(|s|)
    case JArr(items) => Some(|items|)
    case JObj(fields) => Some(|fields|)
    case _ => None
  }

  predicate AllSized(fields: Entries<Json>)
  {
    forall i :: 0 <= i < |fields| ==> Size(fields[i].value).Some?
  }

  /** `(cluster_id, len(indices))` for every item of the clusters dict. */
  function Sizes(fields: Entries<Json>): (r: seq<(string, nat)>)
    requires AllSized(fields)
    ensures |r| == |fields|
    ensures forall i :: 0 <= i < |fields| ==> r[i] == (fields[i].key, Size(fields[i].value).value)
  {
    seq(|fields|, i requires 0 <= i < |fields| => (fields[i].key, Size(fields[i].value).value))
  }

  /** The sort key of `sorted(items, key=len, reverse=True)`. A stable sort
      on the negated size keeps equal sizes in dict order, as Python's
      reversed sort does. */
  function BySizeDescending(p: (string, nat)): Key
  {
    (0 - p.1, 0)
  }

  /** The first three items sorted by size, largest first. */
  function Largest(sizes: seq<(string, nat)>): (r: seq<(string, nat)>)
    ensures |r| == if |sizes| < 3 then |sizes| else 3
  {
    var sorted := SortBy(sizes, BySizeDescending);
    assert |sorted| == |multiset(sorted)| == |sizes|;
    if |sorted| <= 3 then sorted else sorted[..3]
  }

  /** Every listed item is an item of the dict. */
  lemma LargestAreClusters(sizes: seq<(string, nat)>)
    ensures forall j :: 0 <= j < |Largest(sizes)| ==> Largest(sizes)[j] in sizes
  {
    var sorted := SortBy(sizes, BySizeDescending);
    forall j | 0 <= j < |Largest(sizes)| ensures Largest(sizes)[j] in sizes {
      assert Largest(sizes)[j] == sorted[j];
      assert sorted[j] in multiset(sorted);
    }
  }

  /** Listed items come largest first. */
  lemma LargestDescending(sizes: seq<(string, nat)>)
    ensures forall j, k :: 0 <= j < k < |Largest(sizes)| ==> Largest(sizes)[j].1 >= Largest(sizes)[k].1
  {
    var sorted := SortBy(sizes, BySizeDescending);
    forall j, k | 0 <= j < k < |Largest(sizes)| ensures Largest(sizes)[j].1 >= Largest(sizes)[k].1 {
      assert KeyLe(BySizeDescending(sorted[j]), BySizeDescending(sorted[k]));
    }
  }

  /** An item larger than a listed one is listed too: no unlisted cluster
      outgrows a listed one. With three items or fewer every item is
      listed. */
  lemma LargestMaximal(sizes: seq<(string, nat)>, p: (string, nat), j: nat)
    requires p in sizes && j < |Largest(sizes)|
    ensures p.1 > Largest(sizes)[j].1 || |sizes| <= 3 ==> p in Largest(sizes)
  {
    var sorted := SortBy(sizes, BySizeDescending);
    assert p in multiset(sorted);
    var i :| 0 <= i < |sorted| && sorted[i] == p;
    if i >= |Largest(sizes)| {
      assert KeyLe(BySizeDescending(sorted[j]), BySizeDescending(sorted[i]));
      assert sorted[j] == Largest(sizes)[j];
    } else {
      assert Largest(sizes)[i] == p;
    }
  }

  /** `_summarise_clusters` once `clusters` and `top_terms` are looked up:
      `clusters.items()` needs a dict, `len` a sized value, and
      `top_terms.get` a dict as soon as one cluster is listed. */
  function SummariseFrom(clusters: Json, topTerms: Json): (r: Result<ClusterOverview>)
    ensures !clusters.JObj? ==> r == Err(AttributeError("items"))
    ensures r.Err? <==> !clusters.JObj? || !AllSized(clusters.fields) || (|clusters.fields| > 0 && !topTerms.JObj?)
    ensures r.Ok? ==> r.value.total == |clusters.fields| && |r.value.largest| == |Largest(Sizes(clusters.fields))|
    ensures r.Ok? ==> forall k :: 0 <= k < |r.value.largest| ==>
              (r.value.largest[k].id, r.value.largest[k].count) == Largest(Sizes(clusters.fields))[k] &&
              topTerms.JObj? && r.value.largest[k].topTerms == GetOr(topTerms.fields, r.value.largest[k].id, JArr([]))
  {
    match clusters
    case JObj(fields) =>
      if !AllSized(fields) then Err(TypeError("object has no len()"))
      else
        var top := Largest(Sizes(fields));
        if |top| > 0 && !topTerms.JObj? then Err(AttributeError("get"))
        else
          Ok(ClusterOverview(
               seq(|top|, k requires 0 <= k < |top| => ClusterEntry(top[k].0, top[k].1, GetOr(topTerms.fields, top[k].0, JArr([])))),
               |fields|))
    case _ => Err(AttributeError("items"))
  }

  /** `_summarise_clusters` as written: line 69 falls back to no clusters
      when the summary is not a mapping, but line 70 calls `get` on it all
      the same, so such a summary raises. */
  function SummariseClustersAsWritten(summary: Json): (r: Result<ClusterOverview>)
    ensures !summary.JObj? ==> r == Err(AttributeError("get"))
    ensures summary.JObj? ==> r == SummariseFrom(GetOr(summary.fields, "clusters", JObj([])), GetOr(summary.fields, "top_terms", JObj([])))
  {
    var clusters := if summary.JObj? then GetOr(summary.fields, "clusters", JObj([])) else JObj([]);
    if !summary.JObj? then Err(AttributeError("get"))
    else SummariseFrom(clusters, GetOr(summary.fields, "top_terms", JObj([])))
  }

  /** `_summarise_clusters` with the fallback of line 69 applied to
      `top_terms` as well: a summary that is not a mapping has no clusters. */
  function SummariseClusters(summary: Json): (r: Result<ClusterOverview>)
    ensures !summary.JObj? ==> r == Ok(ClusterOverview([], 0))
    ensures summary.JObj? ==> r == SummariseClustersAsWritten(summary)
  {
    match summary
    case JObj(fields) => SummariseFrom(GetOr(fields, "clusters", JObj([])), GetOr(fields, "top_terms", JObj([])))
    case _ => SummariseFrom(JObj([]), JObj([]))
  }

  /** The guard of line 69 never takes effect as written: every summary that
      is not a mapping raises, where the corrected version reports no
      clusters. */
  lemma NonMappingSummary(summary: Json)
    requires !summary.JObj?
    ensures SummariseClustersAsWritten(summary).Err? && SummariseClusters(summary).Ok?
    ensures SummariseClusters(summary).value.total == 0 && SummariseClusters(summary).value.largest == []
  {
  }

  // ---------------------------------------------------------------------
  // `generate_summary`
  // ---------------------------------------------------------------------

  /** `getattr(artifact, name, [])`. */
  function OrEmpty(xs: Option<seq<Json>>): seq<Json>
  {
    match xs
    case Some(v) => v
    case None => []
  }

  predicate AllObjects(records: seq<Json>)
  {
    forall i :: 0 <= i < |records| ==> records[i].JObj?
  }

  /** Every finding is a dict whose severity, if any, is a string. */
  predicate SeveritiesReadable(findings: seq<Json>)
  {
    forall i :: 0 <= i < |findings| ==> HighTest(findings[i]).Ok?
  }

  /** `generate_summary`: anomalies are counted first, then high-severity
      compliance and fraud findings, then the clusters are summarised and
      the sanitized logs counted; the first exception wins. */
  function GenerateSummary(a: Artifact): (r: Result<CISummary>)
    ensures r.Ok? <==> (AllObjects(OrEmpty(a.parsedRecords))
                        && SeveritiesReadable(OrEmpty(a.complianceFindings))
                        && SeveritiesReadable(OrEmpty(a.fraudFindings))
                        && a.clusterSummary.Some? && SummariseClustersAsWritten(a.clusterSummary.value).Ok?
                        && a.sanitizedLogs.Some?)
    ensures !AllObjects(OrEmpty(a.parsedRecords)) ==> r == Err(AttributeError("get"))
    ensures r.Ok? ==> r.value.totalRecords == |a.sanitizedLogs.value|
                      && r.value.compliance == OrEmpty(a.complianceFindings)
                      && r.value.fraud == OrEmpty(a.fraudFindings)
                      && r.value.topClusters == SummariseClustersAsWritten(a.clusterSummary.value).value
    ensures r.Ok? ==> r.value.anomalies == Count(Outcomes(OrEmpty(a.parsedRecords), AnomalyTest).value)
                      && r.value.highSeverity == Count(Outcomes(OrEmpty(a.complianceFindings), HighTest).value)
                                               + Count(Outcomes(OrEmpty(a.fraudFindings), HighTest).value)
    ensures r.Ok? ==> r.value.anomalies <= |OrEmpty(a.parsedRecords)|
                      && r.value.highSeverity <= |OrEmpty(a.complianceFindings)| + |OrEmpty(a.fraudFindings)|
    ensures r.Ok? ==> (r.value.anomalies == 0 <==> forall i :: 0 <= i < |OrEmpty(a.parsedRecords)| ==>
                                                    !Truthy(GetField(OrEmpty(a.parsedRecords)[i].fields, "is_anomaly")))
  {
    var compliance := OrEmpty(a.complianceFindings);
    var fraud := OrEmpty(a.fraudFindings);
    var parsed := OrEmpty(a.parsedRecords);
    match Outcomes(parsed, AnomalyTest)
    case Err(e) => Err(e)
    case Ok(anomalous) =>
      match Outcomes(compliance, HighTest)
      case Err(e) => Err(e)
      case Ok(highCompliance) =>
        match Outcomes(fraud, HighTest)
        case Err(e) => Err(e)
        case Ok(highFraud) =>
          match a.clusterSummary
          case None => Err(AttributeError("cluster_summary"))
          case Some(summary) =>
            match SummariseClustersAsWritten(summary)
            case Err(e) => Err(e)
            case Ok(top) =>
              match a.sanitizedLogs
              case None => Err(AttributeError("sanitized_logs"))
              case Some(logs) =>
                Ok(CISummary(|logs|, Count(highCompliance) + Count(highFraud), Count(anomalous), compliance, fraud, top))
  }

  /** The failure of line 70 reaches `generate_summary`: an artifact whose other
      parts are readable but whose cluster summary is not a mapping (such as
      `None`) raises AttributeError, where the corrected summariser would
      report no clusters. */
  lemma SummaryOfNonMapping(a: Artifact)
    requires AllObjects(OrEmpty(a.parsedRecords))
    requires SeveritiesReadable(OrEmpty(a.complianceFindings)) && SeveritiesReadable(OrEmpty(a.fraudFindings))
    requires a.clusterSummary.Some? && !a.clusterSummary.value.JObj?
    ensures GenerateSummary(a) == Err(AttributeError("get"))
    ensures SummariseClusters(a.clusterSummary.value) == Ok(ClusterOverview([], 0))
  {
  }

  // ---------------------------------------------------------------------
  // The summary of what the pipeline produces
  // ---------------------------------------------------------------------

  /** `ComplianceFinding.as_dict`. */
  function ComplianceJson(f: Compliance.ComplianceFinding): Json
  {
    JObj([Entry("rule", JStr(Compliance.RuleName(f.rule))),
          Entry("severity", JStr(Compliance.Severity(f.rule))),
          Entry("description", JStr(Compliance.Description(f.rule))),
          Entry("evidence", JArr(seq(|f.evidence|, i requires 0 <= i < |f.evidence| => JStr(f.evidence[i]))))])
  }

  /** `FraudFinding.as_dict`; the float metrics are rendered by a parameter. */
  function FraudJson(f: Fraud.FraudFinding, metrics: Entries<real> -> Json): Json
  {
    JObj([Entry("category", JStr(Fraud.CategoryName(f.category))),
          Entry("severity", JStr(Fraud.Severity(f.category))),
          Entry("description", JStr(Fraud.Description(f.category))),
          Entry("accounts", JArr(seq(|f.accounts|, i requires 0 <= i < |f.accounts| => JStr(f.accounts[i])))),
          Entry("metrics", metrics(f.metrics))])
  }

  /** The artifact's `compliance_findings`. */
  function ComplianceDicts(fs: seq<Compliance.ComplianceFinding>): (r: seq<Json>)
    ensures |r| == |fs| && forall i :: 0 <= i < |fs| ==> r[i] == ComplianceJson(fs[i])
  {
    seq(|fs|, i requires 0 <= i < |fs| => ComplianceJson(fs[i]))
  }

  /** The artifact's `fraud_findings`. */
  function FraudDicts(fs: seq<Fraud.FraudFinding>, metrics: Entries<real> -> Json): (r: seq<Json>)
    ensures |r| == |fs| && forall i :: 0 <= i < |fs| ==> r[i] == FraudJson(fs[i], metrics)
  {
    seq(|fs|, i requires 0 <= i < |fs| => FraudJson(fs[i], metrics))
  }

  /** The artifact's `parsed_records`: dicts, every one. */
  function ParsedDicts(parsed: seq<Entries<Json>>): (r: seq<Json>)
    ensures |r| == |parsed| && forall i :: 0 <= i < |parsed| ==> r[i] == JObj(parsed[i])
  {
    seq(|parsed|, i requires 0 <= i < |parsed| => JObj(parsed[i]))
  }

  /** For each compliance finding: is its rule other than GDPR? */
  function HighRules(fs: seq<Compliance.ComplianceFinding>): (r: seq<bool>)
    ensures |r| == |fs| && forall i :: 0 <= i < |fs| ==> r[i] == (fs[i].rule != Compliance.GdprAccessLogging)
  {
    seq(|fs|, i requires 0 <= i < |fs| => fs[i].rule != Compliance.GdprAccessLogging)
  }

  /** For each fraud finding: is it a velocity finding? */
  function VelocityFlags(fs: seq<Fraud.FraudFinding>): (r: seq<bool>)
    ensures |r| == |fs| && forall i :: 0 <= i < |fs| ==> r[i] == (fs[i].category == Fraud.VelocityCheck)
  {
    seq(|fs|, i requires 0 <= i < |fs| => fs[i].category == Fraud.VelocityCheck)
  }

  /** A string without upper-case letters lower-cases to itself. */
  lemma LowerUnchanged(s: string)
    requires forall i :: 0 <= i < |s| ==> !('A' <= s[i] <= 'Z')
    ensures Lower(s) == s
  {
  }

  lemma HighSeverityNames()
    ensures IsHigh("high") && IsHigh("critical") && !IsHigh("medium")
  {
    assert "high"[0] == 'h' && "high"[1] == 'i' && "high"[2] == 'g' && "high"[3] == 'h';
    LowerUnchanged("high");
    assert "critical"[0] == 'c' && "critical"[1] == 'r' && "critical"[2] == 'i' && "critical"[3] == 't';
    assert "critical"[4] == 'i' && "critical"[5] == 'c' && "critical"[6] == 'a' && "critical"[7] == 'l';
    LowerUnchanged("critical");
  }

  /** A dict whose second entry is the severity and whose first is not. */
  lemma SeveritySecond(fields: Entries<Json>, severity: string)
    requires |fields| >= 2 && fields[0].key != "severity" && fields[1] == Entry("severity", JStr(severity))
    ensures HighTest(JObj(fields)) == Ok(IsHigh(severity))
  {
    assert Get(fields, "severity") == Get(fields[1..], "severity");
  }

  /** Only the GDPR rule has a severity below high. */
  lemma RuleHigh(rule: Compliance.Rule)
    ensures IsHigh(Compliance.Severity(rule)) == (rule != Compliance.GdprAccessLogging)
  {
    HighSeverityNames();
  }

  lemma ComplianceHigh(f: Compliance.ComplianceFinding)
    ensures HighTest(ComplianceJson(f)) == Ok(f.rule != Compliance.GdprAccessLogging)
  {
    RuleHigh(f.rule);
    var fields := ComplianceJson(f).fields;
    assert fields[0].key == "rule" && fields[1] == Entry("severity", JStr(Compliance.Severity(f.rule)));
    SeveritySecond(fields, Compliance.Severity(f.rule));
  }

  /** Only velocity findings are of high severity. */
  lemma CategoryHigh(c: Fraud.FraudCategory)
    ensures IsHigh(Fraud.Severity(c)) == (c == Fraud.VelocityCheck)
  {
    HighSeverityNames();
  }

  lemma FraudHigh(f: Fraud.FraudFinding, metrics: Entries<real> -> Json)
    ensures HighTest(FraudJson(f, metrics)) == Ok(f.category == Fraud.VelocityCheck)
  {
    CategoryHigh(f.category);
    var fields := FraudJson(f, metrics).fields;
    assert "category"[0] != "severity"[0];
    assert fields[0].key == "category" && fields[1] == Entry("severity", JStr(Fraud.Severity(f.category)));
    SeveritySecond(fields, Fraud.Severity(f.category));
  }

  /** Where a test never raises, the outcomes are its results. */
  lemma OutcomesAll<T>(xs: seq<T>, test: T -> Result<bool>, flags: seq<bool>)
    requires |flags| == |xs| && forall i :: 0 <= i < |xs| ==> test(xs[i]) == Ok(flags[i])
    ensures Outcomes(xs, test) == Ok(flags)
  {
    var r := Outcomes(xs, test);
    assert r.Ok?;
    assert forall i :: 0 <= i < |xs| ==> r.value[i] == flags[i];
    assert r.value == flags;
  }

  /** Compliance findings as the pipeline stores them are all readable, and
      the high ones are those of every rule but GDPR. */
  lemma ComplianceOutcomes(fs: seq<Compliance.ComplianceFinding>)
    ensures Outcomes(ComplianceDicts(fs), HighTest) == Ok(HighRules(fs))
  {
    var flags := HighRules(fs);
    forall i | 0 <= i < |fs| ensures HighTest(ComplianceDicts(fs)[i]) == Ok(flags[i]) {
      ComplianceHigh(fs[i]);
    }
    OutcomesAll(ComplianceDicts(fs), HighTest, flags);
  }

  /** Fraud findings as the pipeline stores them are all readable, and the
      high ones are the velocity findings. */
  lemma FraudOutcomes(fs: seq<Fraud.FraudFinding>, metrics: Entries<real> -> Json)
    ensures Outcomes(FraudDicts(fs, metrics), HighTest) == Ok(VelocityFlags(fs))
  {
    var flags := VelocityFlags(fs);
    forall i | 0 <= i < |fs| ensures HighTest(FraudDicts(fs, metrics)[i]) == Ok(flags[i]) {
      FraudHigh(fs[i], metrics);
    }
    OutcomesAll(FraudDicts(fs, metrics), HighTest, flags);
  }

  /** `d.get(k, default)` of a key whose value is not `None`. */
  lemma GetOrField(fields: Entries<Json>, key: string, default: Json)
    requires GetField(fields, key) != JNull
    ensures GetOr(fields, key, default) == GetField(fields, key)
  {
  }

  /** The summary of an `as_dict` result reads its two entries. */
  lemma SummaryOfAsDict(s: Clustering.ClusterSummary)
    ensures SummariseClustersAsWritten(Clustering.AsDict(s))
            == SummariseFrom(JObj(Clustering.BucketsJson(Clustering.Buckets(s.labels))), JObj(Clustering.TermsJson(s.topTerms)))
  {
    var fields := Clustering.AsDict(s).fields;
    GetOrField(fields, "clusters", JObj([]));
    GetOrField(fields, "top_terms", JObj([]));
  }

  /** An item of the bucket dict `as_dict` reports is a label in use, with
      as many indices as messages carry that label. */
  lemma BucketItem(labels: seq<int>, item: (string, nat))
    requires AllSized(Clustering.BucketsJson(Clustering.Buckets(labels)))
    requires item in Sizes(Clustering.BucketsJson(Clustering.Buckets(labels)))
    ensures Clustering.Labelled(Clustering.Names(labels), item.0)
    ensures item.1 == |Clustering.IndicesWith(Clustering.Names(labels), item.0)|
  {
    var names := Clustering.Names(labels);
    var b := Clustering.Buckets(labels);
    var bj := Clustering.BucketsJson(b);
    var sizes := Sizes(bj);
    var i :| 0 <= i < |sizes| && sizes[i] == item;
    assert bj[i].key == b[i].key && |bj[i].value.items| == |b[i].value|;
    assert item == (b[i].key, |b[i].value|);
    Clustering.BucketsDistinct(names);
    GetDistinct(b, i);
    Clustering.BucketsContents(names, b[i].key);
  }

  /** The cluster summary `as_dict` produces always summarises: one cluster
      per distinct label, and each listed cluster is a label in use whose
      count is the number of messages carrying it. */
  lemma ClusterOverviewOfSummary(s: Clustering.ClusterSummary)
    ensures SummariseClustersAsWritten(Clustering.AsDict(s)).Ok?
    ensures var o := SummariseClustersAsWritten(Clustering.AsDict(s)).value;
            o.total == |Clustering.Buckets(s.labels)| &&
            forall k :: 0 <= k < |o.largest| ==>
              Clustering.Labelled(Clustering.Names(s.labels), o.largest[k].id) &&
              o.largest[k].count == |Clustering.IndicesWith(Clustering.Names(s.labels), o.largest[k].id)|
  {
    SummaryOfAsDict(s);
    var clusters := Clustering.BucketsJson(Clustering.Buckets(s.labels));
    assert AllSized(clusters);
    var sizes := Sizes(clusters);
    var o := SummariseClustersAsWritten(Clustering.AsDict(s)).value;
    LargestAreClusters(sizes);
    forall k | 0 <= k < |o.largest|
      ensures Clustering.Labelled(Clustering.Names(s.labels), o.largest[k].id)
      ensures o.largest[k].count == |Clustering.IndicesWith(Clustering.Names(s.labels), o.largest[k].id)|
    {
      assert (o.largest[k].id, o.largest[k].count) == Largest(sizes)[k];
      BucketItem(s.labels, Largest(sizes)[k]);
    }
  }

  /** A single item is listed as it is. */
  lemma LargestSingle(item: (string, nat))
    ensures Largest([item]) == [item]
  {
    var sorted := SortBy([item], BySizeDescending);
    assert sorted[0] in multiset(sorted);
  }

  /** One cluster holding every one of `n` indices, without top terms. */
  lemma OneClusterOverview(key: string, n: nat)
    requires n > 0
    ensures SummariseFrom(JObj(Clustering.BucketsJson([Entry(key, seq(n, i => i))])), JObj([]))
            == Ok(ClusterOverview([ClusterEntry(key, n, JArr([]))], 1))
  {
    var clusters := Clustering.BucketsJson([Entry(key, seq(n, i => i))]);
    assert |clusters| == 1 && clusters[0].key == key && clusters[0].value.JArr? && |clusters[0].value.items| == n;
    assert AllSized(clusters);
    assert Sizes(clusters) == [(key, n)];
    LargestSingle((key, n));
    var r := SummariseFrom(JObj(clusters), JObj([]));
    assert r.Ok? && |r.value.largest| == 1;
    assert GetOr([], key, JArr([])) == JArr([]);
    assert r.value.largest[0] == ClusterEntry(key, n, JArr([]));
    assert r.value.largest == [ClusterEntry(key, n, JArr([]))];
  }

  /** With fewer messages than the clustering minimum, every message is in
      the single cluster "-1", which is the one listed. */
  lemma FewMessagesOverview(messages: seq<Option<string>>, minMessages: int)
    requires 0 < |messages| < minMessages
    ensures var s := Clustering.ClusterFewMessages(messages, minMessages).value;
            SummariseClustersAsWritten(Clustering.AsDict(s)) == Ok(ClusterOverview([ClusterEntry("-1", |messages|, JArr([]))], 1))
  {
    var s := Clustering.ClusterFewMessages(messages, minMessages).value;
    SummaryOfAsDict(s);
    Clustering.UnclusteredBuckets(s.labels);
    assert Clustering.Buckets(s.labels) == [Entry("-1", seq(|messages|, i => i))];
    assert Clustering.TermsJson(s.topTerms) == [];
    OneClusterOverview("-1", |messages|);
  }

  /** The artifact `process_logs` returns, as `generate_summary` reads it. */
  function PipelineArtifact(logs: seq<Json>, parsed: seq<Entries<Json>>,
                            compliance: seq<Compliance.ComplianceFinding>, fraud: seq<Fraud.FraudFinding>,
                            metrics: Entries<real> -> Json, s: Clustering.ClusterSummary): Artifact
  {
    Artifact(Some(logs), Some(ParsedDicts(parsed)), Some(ComplianceDicts(compliance)),
             Some(FraudDicts(fraud, metrics)), Some(Clustering.AsDict(s)))
  }

  /** An artifact whose parts are all present and readable has a summary
      built from the severity flags of its findings. */
  lemma SummaryWhenReadable(a: Artifact, complianceFlags: seq<bool>, fraudFlags: seq<bool>)
    requires a.sanitizedLogs.Some? && AllObjects(OrEmpty(a.parsedRecords))
    requires Outcomes(OrEmpty(a.complianceFindings), HighTest) == Ok(complianceFlags)
    requires Outcomes(OrEmpty(a.fraudFindings), HighTest) == Ok(fraudFlags)
    requires a.clusterSummary.Some? && SummariseClustersAsWritten(a.clusterSummary.value).Ok?
    ensures GenerateSummary(a).Ok?
    ensures GenerateSummary(a).value.totalRecords == |a.sanitizedLogs.value|
    ensures GenerateSummary(a).value.highSeverity == Count(complianceFlags) + Count(fraudFlags)
    ensures GenerateSummary(a).value.topClusters == SummariseClustersAsWritten(a.clusterSummary.value).value
  {
    assert SeveritiesReadable(OrEmpty(a.complianceFindings));
    assert SeveritiesReadable(OrEmpty(a.fraudFindings));
  }

  /** The summary of an artifact the pipeline produced: it never raises,
      counts every sanitized record, and its high-severity count is the
      number of non-GDPR compliance findings plus velocity findings. */
  lemma PipelineSummary(logs: seq<Json>, parsed: seq<Entries<Json>>,
                        compliance: seq<Compliance.ComplianceFinding>, fraud: seq<Fraud.FraudFinding>,
                        metrics: Entries<real> -> Json, s: Clustering.ClusterSummary)
    ensures GenerateSummary(PipelineArtifact(logs, parsed, compliance, fraud, metrics, s)).Ok?
    ensures var r := GenerateSummary(PipelineArtifact(logs, parsed, compliance, fraud, metrics, s)).value;
            r.totalRecords == |logs| &&
            r.highSeverity
              == Count(HighRules(compliance))
               + Count(VelocityFlags(fraud)) &&
            r.topClusters.total == |Clustering.Buckets(s.labels)|
    ensures GenerateSummary(PipelineArtifact(logs, parsed, compliance, fraud, metrics, s)).value.highSeverity
              == Count(HighRules(compliance) + VelocityFlags(fraud))
  {
    var a := PipelineArtifact(logs, parsed, compliance, fraud, metrics, s);
    ComplianceOutcomes(compliance);
    FraudOutcomes(fraud, metrics);
    ClusterOverviewOfSummary(s);
    assert AllObjects(OrEmpty(a.parsedRecords));
    SummaryWhenReadable(a, HighRules(compliance), VelocityFlags(fraud));
    CountAppend(HighRules(compliance), VelocityFlags(fraud));
  }
}
