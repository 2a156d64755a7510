/** Python's `sorted(xs, key=...)`: a stable sort. Every sort in the modelled
    code uses an integer key or a pair of them (`(start, -length)` for spans,
    the negated size for clusters sorted with `reverse=True`), so keys are
    pairs ordered lexicographically. */
module Sorting {

  type Key = (int, int)

  predicate KeyLe(a: Key, b: Key)
  {
    a.0 < b.0 || (a.0 == b.0 && a.1 <= b.1)
  }

  predicate SortedBy<T>(s: seq<T>, key: T -> Key)
  {
    forall i, j :: 0 <= i < j < |s| ==> KeyLe(key(s[i]), key(s[j]))
  }

  /** The elements of `s` whose key is `k`, in their order in `s`. Stability
      means a sort leaves each of these subsequences as it was. */
  function WithKey<T>(s: seq<T>, key: T -> Key, k: Key): seq<T>
  {
    if |s| == 0 then [] else (if key(s[0]) == k then [s[0]] else []) + WithKey(s[1..], key, k)
  }

  /** Places `x` before the first element whose key is not smaller. */
  function Insert<T>(x: T, s: seq<T>, key: T -> Key): (r: seq<T>)
    ensures multiset(r) == multiset(s) + multiset{x}
  {
    if |s| == 0 then [x]
    else if KeyLe(key(x), key(s[0])) then [x] + s
    else
      assert s == [s[0]] + s[1..];
      [s[0]] + Insert(x, s[1..], key)
  }

  lemma {:induction false} InsertSorted<T>(x: T, s: seq<T>, key: T -> Key)
    requires SortedBy(s, key)
    ensures SortedBy(Insert(x, s, key), key)
  {
    if |s| > 0 && !KeyLe(key(x), key(s[0])) {
      assert SortedBy(s[1..], key);
      InsertSorted(x, s[1..], key);
      InsertAbove(x, s[1..], key, key(s[0]));
      var t := Insert(x, s[1..], key);
      var r := [s[0]] + t;
      assert forall i, j :: 0 < i < j < |r| ==> r[i] == t[i - 1] && r[j] == t[j - 1];
    }
  }

  /** Inserting an element no smaller than `b` among elements no smaller
      than `b` gives elements no smaller than `b`. */
  lemma {:induction false} InsertAbove<T>(x: T, s: seq<T>, key: T -> Key, b: Key)
    requires KeyLe(b, key(x)) && forall i :: 0 <= i < |s| ==> KeyLe(b, key(s[i]))
    ensures forall i :: 0 <= i < |Insert(x, s, key)| ==> KeyLe(b, key(Insert(x, s, key)[i]))
  {
    if |s| > 0 && !KeyLe(key(x), key(s[0])) {
      InsertAbove(x, s[1..], key, b);
      var t := Insert(x, s[1..], key);
      assert forall i :: 0 < i < |t| + 1 ==> ([s[0]] + t)[i] == t[i - 1];
    }
  }


  lemma {:induction false} InsertWithKey<T>(x: T, s: seq<T>, key: T -> Key, k: Key)
    ensures WithKey(Insert(x, s, key), key, k) == (if key(x) == k then [x] else []) + WithKey(s, key, k)
  {
    if |s| == 0 {
    } else if KeyLe(key(x), key(s[0])) {
      assert ([x] + s)[1..] == s;
    } else {
      InsertWithKey(x, s[1..], key, k);
      assert ([s[0]] + Insert(x, s[1..], key))[1..] == Insert(x, s[1..], key);
    }
  }

  /** `sorted(xs, key=key)`: ordered by key, a permutation of `xs`, and stable. */
  function SortBy<T>(xs: seq<T>, key: T -> Key): (r: seq<T>)
    ensures SortedBy(r, key)
    ensures multiset(r) == multiset(xs)
    ensures forall k :: WithKey(r, key, k) == WithKey(xs, key, k)
  {
    if |xs| == 0 then []
    else
      var t := SortBy(xs[1..], key);
      InsertSorted(xs[0], t, key);
      assert forall k :: WithKey(Insert(xs[0], t, key), key, k) == WithKey(xs, key, k) by {
        forall k ensures WithKey(Insert(xs[0], t, key), key, k) == WithKey(xs, key, k) {
          InsertWithKey(xs[0], t, key, k);
        }
      }
      assert xs == [xs[0]] + xs[1..];
      Insert(xs[0], t, key)
  }

  /** Sorting a sequence that is already ordered by the key leaves it as it is. */
  lemma {:induction false} SortSortedUnchanged<T>(xs: seq<T>, key: T -> Key)
    requires SortedBy(xs, key)
    ensures SortBy(xs, key) == xs
  {
    if |xs| > 0 {
      assert SortedBy(xs[1..], key);
      SortSortedUnchanged(xs[1..], key);
      if |xs| > 1 {
        assert KeyLe(key(xs[0]), key(xs[1..][0]));
      }
      assert xs == [xs[0]] + xs[1..];
    }
  }

  /** The first element of `s` with key `k` heads `WithKey(s, key, k)`. */
  lemma {:induction false} WithKeyHead<T>(s: seq<T>, key: T -> Key, i: nat)
    requires i < |s|
    requires forall j :: 0 <= j < i ==> key(s[j]) != key(s[i])
    ensures |WithKey(s, key, key(s[i]))| > 0 && WithKey(s, key, key(s[i]))[0] == s[i]
  {
    if i > 0 {
      WithKeyHead(s[1..], key, i - 1);
    }
  }

  /** Every element of `WithKey(s, key, k)` is in `s` with key `k`. */
  lemma {:induction false} WithKeyMembers<T>(s: seq<T>, key: T -> Key, k: Key)
    ensures forall x :: x in WithKey(s, key, k) ==> x in s && key(x) == k
  {
    if |s| > 0 {
      WithKeyMembers(s[1..], key, k);
    }
  }

  /** The head of `WithKey(s, key, k)` is an element of `s` with that key, and
      no earlier element of `s` has that key. */
  lemma {:induction false} WithKeyHeadIndex<T>(s: seq<T>, key: T -> Key, k: Key)
    requires |WithKey(s, key, k)| > 0
    ensures exists i :: 0 <= i < |s| && s[i] == WithKey(s, key, k)[0] && key(s[i]) == k
                        && forall j :: 0 <= j < i ==> key(s[j]) != k
  {
    if key(s[0]) != k {
      WithKeyHeadIndex(s[1..], key, k);
      var i :| 0 <= i < |s| - 1 && s[1..][i] == WithKey(s[1..], key, k)[0] && key(s[1..][i]) == k
               && forall j :: 0 <= j < i ==> key(s[1..][j]) != k;
      assert s[i + 1] == s[1..][i];
      forall j | 0 <= j < i + 1
        ensures key(s[j]) != k
      {
        if j > 0 {
          assert s[j] == s[1..][j - 1];
        }
      }
    }
  }
}
