/** Python dicts as ordered association lists. Insertion order matters to the
    modelled code (record traversal, where `setdefault` appends, the order a
    report lists its keys), so a dict is a sequence of entries; assignment to
    an existing key keeps its place and a new key goes to the end. */
module Dicts {
  import opened Wrappers

  /** One key/value pair of a dict. */
  datatype Entry<+V> = Entry(key: string, value: V)

  /** A dict: its entries in insertion order. */
  type Entries<V> = seq<Entry<V>>

  function Keys<V>(d: Entries<V>): (ks: seq<string>)
    ensures |ks| == |d|
    ensures forall i :: 0 <= i < |d| ==> ks[i] == d[i].key
  {
    if |d| == 0 then [] else [d[0].key] + Keys(d[1..])
  }

  /** Python's `k in d`. */
  predicate HasKey<V>(d: Entries<V>, k: string)
  {
    exists i :: 0 <= i < |d| && d[i].key == k
  }

  /** No key occurs twice, as in every real dict. */
  predicate DistinctKeys<V>(d: Entries<V>)
  {
    forall i, j :: 0 <= i < j < |d| ==> d[i].key != d[j].key
  }

  /** Python's `d.get(k)`: the value of the first entry with key `k`. */
  function Get<V>(d: Entries<V>, k: string): (r: Option<V>)
    ensures r.Some? <==> HasKey(d, k)
  {
    if |d| == 0 then None
    else if d[0].key == k then Some(d[0].value)
    else
      assert HasKey(d, k) ==> HasKey(d[1..], k) by {
        if HasKey(d, k) {
          var i :| 0 <= i < |d| && d[i].key == k;
          assert d[1..][i - 1] == d[i];
        }
      }
      Get(d[1..], k)
  }

  /** `d.get(k, default)`. */
  function GetOr<V>(d: Entries<V>, k: string, default: V): V
  {
    match Get(d, k)
    case Some(v) => v
    case None => default
  }

  /** In a dict without repeated keys, `Get` finds the one entry with the key. */
  lemma {:induction false} GetDistinct<V>(d: Entries<V>, i: nat)
    requires DistinctKeys(d) && i < |d|
    ensures Get(d, d[i].key) == Some(d[i].value)
  {
    if i > 0 {
      assert d[0].key != d[i].key;
      assert d[1..][i - 1] == d[i];
      GetDistinct(d[1..], i - 1);
    }
  }

  /** Python's `d[k] = v`: overwrite in place, or append a new entry. */
  function Put<V>(d: Entries<V>, k: string, v: V): (r: Entries<V>)
    ensures |r| == if HasKey(d, k) then |d| else |d| + 1
  {
    if |d| == 0 then [Entry(k, v)]
    else if d[0].key == k then [Entry(k, v)] + d[1..]
    else
      assert HasKey(d, k) <==> HasKey(d[1..], k) by {
        if HasKey(d, k) {
          var i :| 0 <= i < |d| && d[i].key == k;
          assert d[1..][i - 1] == d[i];
        }
        if HasKey(d[1..], k) {
          var i :| 0 <= i < |d| - 1 && d[1..][i].key == k;
          assert d[i + 1] == d[1..][i];
        }
      }
      [d[0]] + Put(d[1..], k, v)
  }

  /** After `d[k] = v`, looking up `k` gives `v` and every other key is as
      before. */
  lemma {:induction false} PutGet<V>(d: Entries<V>, k: string, v: V, k': string)
    ensures Get(Put(d, k, v), k') == if k' == k then Some(v) else Get(d, k')
  {
    if |d| > 0 && d[0].key != k {
      PutGet(d[1..], k, v, k');
      assert ([d[0]] + Put(d[1..], k, v))[1..] == Put(d[1..], k, v);
    } else if |d| > 0 {
      assert ([Entry(k, v)] + d[1..])[1..] == d[1..];
    }
  }

  /** A key other than the first one is in the dict exactly when it is in
      the rest. */
  lemma HasKeyTail<V>(d: Entries<V>, k: string)
    requires |d| > 0 && d[0].key != k
    ensures HasKey(d, k) <==> HasKey(d[1..], k)
  {
    if HasKey(d, k) {
      var i :| 0 <= i < |d| && d[i].key == k;
      assert d[1..][i - 1] == d[i];
    }
    if HasKey(d[1..], k) {
      var i :| 0 <= i < |d| - 1 && d[1..][i].key == k;
      assert d[i + 1] == d[1..][i];
    }
  }

  /** `d[k] = v` keeps the key order, appending `k` only when it is new. */
  lemma {:induction false} PutKeyOrder<V>(d: Entries<V>, k: string, v: V)
    ensures Keys(Put(d, k, v)) == if HasKey(d, k) then Keys(d) else Keys(d) + [k]
  {
    var r := Put(d, k, v);
    if |d| > 0 && d[0].key != k {
      PutKeyOrder(d[1..], k, v);
      HasKeyTail(d, k);
      assert r == [d[0]] + Put(d[1..], k, v);
      assert Keys(r) == [d[0].key] + Keys(Put(d[1..], k, v));
      assert Keys(d) == [d[0].key] + Keys(d[1..]);
    } else if |d| > 0 {
      assert Keys(r) == [k] + Keys(d[1..]);
      assert Keys(d) == [k] + Keys(d[1..]);
    }
  }

  /** `d[k] = v` keeps the key order, appending `k` only when it is new, and
      adds no key but `k`. */
  lemma PutKeys<V>(d: Entries<V>, k: string, v: V)
    ensures Keys(Put(d, k, v)) == if HasKey(d, k) then Keys(d) else Keys(d) + [k]
    ensures HasKey(Put(d, k, v), k)
    ensures forall k' :: HasKey(Put(d, k, v), k') <==> k' == k || HasKey(d, k')
  {
    PutKeyOrder(d, k, v);
    forall k' ensures HasKey(Put(d, k, v), k') <==> k' == k || HasKey(d, k') {
      PutGet(d, k, v, k');
    }
  }

  /** In a dict without repeated keys, a lookup finds the last entry or
      whatever the entries before it hold. */
  lemma GetLast<V>(d: Entries<V>, k: string)
    requires DistinctKeys(d) && |d| > 0
    ensures Get(d, k) == if k == d[|d| - 1].key then Some(d[|d| - 1].value) else Get(d[..|d| - 1], k)
  {
    var d' := d[..|d| - 1];
    assert DistinctKeys(d');
    if k == d[|d| - 1].key {
      GetDistinct(d, |d| - 1);
    } else if HasKey(d', k) {
      var i :| 0 <= i < |d'| && d'[i].key == k;
      GetDistinct(d, i);
      GetDistinct(d', i);
    } else {
      forall i | 0 <= i < |d| ensures d[i].key != k {
        if i < |d| - 1 {
          assert d'[i] == d[i];
        }
      }
    }
  }

  /** Assigning a key the dict does not have appends the entry. */
  lemma {:induction false} PutAbsent<V>(d: Entries<V>, k: string, v: V)
    requires !HasKey(d, k)
    ensures Put(d, k, v) == d + [Entry(k, v)]
  {
    if |d| > 0 {
      forall i | 0 <= i < |d| - 1 ensures d[1..][i].key != k {
        assert d[1..][i] == d[i + 1];
      }
      PutAbsent(d[1..], k, v);
      assert d == [d[0]] + d[1..];
    }
  }

  /** `d[k] = v` never creates a repeated key. */
  lemma PutDistinct<V>(d: Entries<V>, k: string, v: V)
    requires DistinctKeys(d)
    ensures DistinctKeys(Put(d, k, v))
  {
    var r := Put(d, k, v);
    PutKeys(d, k, v);
    var ks := Keys(r);
    forall i, j | 0 <= i < j < |r| ensures r[i].key != r[j].key {
      assert ks[i] == r[i].key && ks[j] == r[j].key;
      if HasKey(d, k) {
        assert Keys(d)[i] == d[i].key && Keys(d)[j] == d[j].key;
      } else {
        if j < |d| {
          assert Keys(d)[i] == d[i].key && Keys(d)[j] == d[j].key;
        } else {
          assert Keys(d)[i] == d[i].key;
        }
      }
    }
  }

  /** Python's `d.update(e)`: `Put` every entry of `e`, in order. */
  function Update<V>(d: Entries<V>, e: Entries<V>): Entries<V>
    decreases |e|
  {
    if |e| == 0 then d else Update(Put(d, e[0].key, e[0].value), e[1..])
  }

  /** After `d.update(e)` (with `e` a real dict) every key of `e` has its value
      from `e`, and every other key keeps its value from `d`. */
  lemma {:induction false} UpdateGet<V>(d: Entries<V>, e: Entries<V>, k: string)
    requires DistinctKeys(e)
    ensures Get(Update(d, e), k) == if HasKey(e, k) then Get(e, k) else Get(d, k)
    decreases |e|
  {
    if |e| > 0 {
      var d' := Put(d, e[0].key, e[0].value);
      assert DistinctKeys(e[1..]);
      UpdateGet(d', e[1..], k);
      PutGet(d, e[0].key, e[0].value, k);
      assert HasKey(e, k) <==> k == e[0].key || HasKey(e[1..], k) by {
        if HasKey(e, k) {
          var i :| 0 <= i < |e| && e[i].key == k;
          if i > 0 { assert e[1..][i - 1] == e[i]; }
        }
        if HasKey(e[1..], k) {
          var i :| 0 <= i < |e| - 1 && e[1..][i].key == k;
          assert e[i + 1] == e[1..][i];
        }
      }
      if k == e[0].key {
        forall i | 0 <= i < |e| - 1
          ensures e[1..][i].key != k
        {
          assert e[1..][i] == e[i + 1];
        }
      } else if HasKey(e[1..], k) {
        assert Get(e, k) == Get(e[1..], k);
      }
    }
  }

  /** `d.update(e)` never creates a repeated key, and its keys are those of
      `d` and `e`. */
  lemma {:induction false} UpdateKeys<V>(d: Entries<V>, e: Entries<V>)
    requires DistinctKeys(d)
    ensures DistinctKeys(Update(d, e))
    ensures forall k :: HasKey(Update(d, e), k) <==> HasKey(d, k) || HasKey(e, k)
    decreases |e|
  {
    if |e| > 0 {
      var d' := Put(d, e[0].key, e[0].value);
      PutDistinct(d, e[0].key, e[0].value);
      PutKeys(d, e[0].key, e[0].value);
      UpdateKeys(d', e[1..]);
      forall k ensures HasKey(e, k) <==> k == e[0].key || HasKey(e[1..], k) {
        if HasKey(e, k) {
          var i :| 0 <= i < |e| && e[i].key == k;
          if i > 0 { assert e[1..][i - 1] == e[i]; }
        }
        if HasKey(e[1..], k) {
          var i :| 0 <= i < |e| - 1 && e[1..][i].key == k;
          assert e[i + 1] == e[1..][i];
        }
      }
    }
  }
}
