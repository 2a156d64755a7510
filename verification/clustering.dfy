/** Cluster bookkeeping (`ClusterSummary`, `EventClusterer`): the buckets of
    message indices per cluster label that `as_dict` reports, and the branch
    of `cluster_messages` that skips clustering when there are too few
    messages. The TF-IDF and k-means fit is not modelled. */
module Clustering {
  import opened Wrappers
  import opened Dicts
  import opened Json
  import opened Strings

  /** A `ClusterSummary`: one label per message (-1 when unclustered) and
      the top terms per cluster id. */
  datatype ClusterSummary = ClusterSummary(labels: seq<int>, topTerms: Entries<seq<string>>)

  /** `buckets.setdefault(key, []).append(i)`. */
  function AddIndex(b: Entries<seq<nat>>, key: string, i: nat): Entries<seq<nat>>
  {
    Put(b, key, Grown(b, key, i))
  }

  /** The bucket `key` of `b` (empty when absent) with `i` appended. */
  function Grown(b: Entries<seq<nat>>, key: string, i: nat): (r: seq<nat>)
    ensures r == (match Get(b, key) case Some(prev) => prev case None => []) + [i]
  {
    GetOr(b, key, []) + [i]
  }

  /** `str(label)` of every label. */
  function Names(labels: seq<int>): (r: seq<string>)
    ensures |r| == |labels| && forall i :: 0 <= i < |labels| ==> r[i] == IntToString(labels[i])
  {
    seq(|labels|, i requires 0 <= i < |labels| => IntToString(labels[i]))
  }

  /** The loop of `as_dict` over the label names: index `i` goes to the
      bucket `names[i]`, buckets appearing in first-use order. */
  function BucketsOf(names: seq<string>): Entries<seq<nat>>
    decreases |names|
  {
    if |names| == 0 then []
    else AddIndex(BucketsOf(names[..|names| - 1]), names[|names| - 1], |names| - 1)
  }

  /** `as_dict`'s buckets: one per distinct label. */
  function Buckets(labels: seq<int>): Entries<seq<nat>>
  {
    BucketsOf(Names(labels))
  }

  /** Some index has name `key`. */
  predicate Labelled(names: seq<string>, key: string)
  {
    exists i :: 0 <= i < |names| && names[i] == key
  }

  /** Reference: the indices named `key`, ascending. */
  function IndicesWith(names: seq<string>, key: string): (r: seq<nat>)
    ensures |r| == 0 <==> !Labelled(names, key)
    ensures forall j :: 0 <= j < |r| ==> r[j] < |names| && names[r[j]] == key
    ensures forall i :: 0 <= i < |names| && names[i] == key ==> i in r
    ensures forall j, k :: 0 <= j < k < |r| ==> r[j] < r[k]
    decreases |names|
  {
    if |names| == 0 then []
    else
      var n := |names|;
      var front := names[..n - 1];
      var r := IndicesWith(front, key);
      assert forall i :: 0 <= i < n - 1 ==> front[i] == names[i];
      if names[n - 1] == key then r + [n - 1] else r
  }

  /** Appending a name labels the new index and nothing else. */
  lemma LabelledSnoc(names: seq<string>, key: string)
    requires |names| > 0
    ensures Labelled(names, key) <==> Labelled(names[..|names| - 1], key) || names[|names| - 1] == key
  {
    var front := names[..|names| - 1];
    if Labelled(names, key) && names[|names| - 1] != key {
      var i :| 0 <= i < |names| && names[i] == key;
      assert front[i] == key;
    }
    if Labelled(front, key) {
      var i :| 0 <= i < |front| && front[i] == key;
      assert names[i] == key;
    }
  }

  /** Every bucket holds exactly the indices named after it, in ascending
      order, and there is a bucket for each name used. */
  lemma {:induction false} BucketsContents(names: seq<string>, key: string)
    ensures Get(BucketsOf(names), key) == if Labelled(names, key) then Some(IndicesWith(names, key)) else None
    decreases |names|
  {
    if |names| > 0 {
      var n := |names|;
      var front := names[..n - 1];
      var k := names[n - 1];
      var b := BucketsOf(front);
      BucketsContents(front, key);
      PutGet(b, k, Grown(b, k, n - 1), key);
      LabelledSnoc(names, key);
      if key == k {
        BucketsContents(front, k);
      }
    }
  }

  /** No bucket name repeats. */
  lemma {:induction false} BucketsDistinct(names: seq<string>)
    ensures DistinctKeys(BucketsOf(names))
    decreases |names|
  {
    if |names| > 0 {
      var n := |names|;
      BucketsDistinct(names[..n - 1]);
      var b := BucketsOf(names[..n - 1]);
      PutDistinct(b, names[n - 1], Grown(b, names[n - 1], n - 1));
    }
  }

  /** Index `i` sits in the bucket of label `l` exactly when `labels[i] == l`:
      distinct labels get distinct bucket names. */
  lemma PlacedExactly(labels: seq<int>, i: nat, l: int)
    requires i < |labels|
    ensures Get(Buckets(labels), IntToString(l)).Some? && i in Get(Buckets(labels), IntToString(l)).value
            <==> labels[i] == l
  {
    var names := Names(labels);
    BucketsContents(names, IntToString(l));
    if labels[i] == l {
      assert names[i] == IntToString(l);
    }
    if Get(Buckets(labels), IntToString(l)).Some? && i in Get(Buckets(labels), IntToString(l)).value {
      assert names[i] == IntToString(l);
      IntToStringInjective(labels[i], l);
    }
  }

  /** The number of indices held by all buckets together. */
  function Total(b: Entries<seq<nat>>): nat
  {
    if |b| == 0 then 0 else |b[0].value| + Total(b[1..])
  }

  lemma {:induction false} PutTotal(b: Entries<seq<nat>>, k: string, v: seq<nat>)
    ensures Total(Put(b, k, v)) + (match Get(b, k) case Some(prev) => |prev| case None => 0) == Total(b) + |v|
  {
    if |b| > 0 {
      if b[0].key == k {
        assert ([Entry(k, v)] + b[1..])[1..] == b[1..];
      } else {
        PutTotal(b[1..], k, v);
        assert ([b[0]] + Put(b[1..], k, v))[1..] == Put(b[1..], k, v);
      }
    }
  }

  /** Bucket sizes add up to the number of labels. */
  lemma {:induction false} BucketsTotal(names: seq<string>)
    ensures Total(BucketsOf(names)) == |names|
    decreases |names|
  {
    if |names| > 0 {
      var n := |names|;
      BucketsTotal(names[..n - 1]);
      var b := BucketsOf(names[..n - 1]);
      PutTotal(b, names[n - 1], Grown(b, names[n - 1], n - 1));
    }
  }

  /** When every index has the same name there is one bucket, holding every
      index. */
  lemma {:induction false} SingleBucket(names: seq<string>, key: string)
    requires forall i :: 0 <= i < |names| ==> names[i] == key
    ensures BucketsOf(names) == if |names| == 0 then [] else [Entry(key, seq(|names|, i => i))]
    decreases |names|
  {
    if |names| > 0 {
      var n := |names|;
      SingleBucket(names[..n - 1], key);
      var b := BucketsOf(names[..n - 1]);
      if n > 1 {
        assert Grown(b, key, n - 1) == seq(n, i => i);
        assert Put(b, key, Grown(b, key, n - 1)) == [Entry(key, seq(n, i => i))];
      } else {
        assert b == [] && Grown(b, key, 0) == [0] == seq(1, i => i);
      }
    }
  }

  /** The bucket dict as JSON: each bucket a list of index numbers. */
  function BucketsJson(b: Entries<seq<nat>>): (r: Entries<Json>)
    ensures |r| == |b|
    ensures forall i :: 0 <= i < |b| ==> r[i].key == b[i].key && r[i].value.JArr? && |r[i].value.items| == |b[i].value|
  {
    seq(|b|, i requires 0 <= i < |b| => Entry(b[i].key, JArr(seq(|b[i].value|, j requires 0 <= j < |b[i].value| => JNum(b[i].value[j])))))
  }

  /** Top terms as JSON: each a list of strings. */
  function TermsJson(t: Entries<seq<string>>): (r: Entries<Json>)
    ensures |r| == |t|
    ensures forall i :: 0 <= i < |t| ==> r[i].key == t[i].key && r[i].value.JArr?
  {
    seq(|t|, i requires 0 <= i < |t| => Entry(t[i].key, JArr(seq(|t[i].value|, j requires 0 <= j < |t[i].value| => JStr(t[i].value[j])))))
  }

  /** `as_dict`: the buckets under "clusters" and the top terms under
      "top_terms". */
  function AsDict(s: ClusterSummary): (r: Json)
    ensures r.JObj? && GetField(r.fields, "clusters") == JObj(BucketsJson(Buckets(s.labels)))
    ensures GetField(r.fields, "top_terms") == JObj(TermsJson(s.topTerms))
  {
    var fields := [Entry("clusters", JObj(BucketsJson(Buckets(s.labels)))), Entry("top_terms", JObj(TermsJson(s.topTerms)))];
    assert Get(fields, "top_terms") == Get(fields[1..], "top_terms");
    JObj(fields)
  }

  /** The branch of `cluster_messages` taken with fewer than `minMessages`
      messages: every message is labelled -1 and there are no top terms.
      With enough messages the k-means fit runs, which is not modelled
      (`None`). */
  function ClusterFewMessages(messages: seq<Option<string>>, minMessages: int): (r: Option<ClusterSummary>)
    ensures r.Some? <==> |messages| < minMessages
    ensures r.Some? ==> |r.value.labels| == |messages| && r.value.topTerms == []
    ensures r.Some? ==> forall i :: 0 <= i < |messages| ==> r.value.labels[i] == -1
  {
    var corpus := seq(|messages|, i requires 0 <= i < |messages| => if messages[i].Some? then messages[i].value else "");
    if |corpus| < minMessages then Some(ClusterSummary(seq(|corpus|, _ => -1), [])) else None
  }

  /** Unclustered messages land in one bucket "-1" holding every index. */
  lemma UnclusteredBuckets(labels: seq<int>)
    requires forall i :: 0 <= i < |labels| ==> labels[i] == -1
    ensures Buckets(labels) == if |labels| == 0 then [] else [Entry("-1", seq(|labels|, i => i))]
  {
    assert IntToString(-1) == "-1" by {
      assert NatToString(1) == "1";
    }
    SingleBucket(Names(labels), "-1");
  }
}
