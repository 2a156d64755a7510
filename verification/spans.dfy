/** Span resolution (`_collect_spans`): the detector's matches, emitted
    pattern by pattern in pattern-list order, are stably sorted by
    `(start, -length)` and kept greedily so that no two overlap. */
module Spans {
  import opened Sorting

  /** One detector match: the pattern's label and the half-open character
      range `[start, end)` it covers. */
  datatype Match = Match(kind: string, start: int, end: int)

  /** A regex match of a non-empty pattern inside a text of length `n`. */
  predicate Proper(m: Match, n: int)
  {
    0 <= m.start < m.end <= n
  }

  predicate AllProper(ms: seq<Match>, n: int)
  {
    forall i :: 0 <= i < |ms| ==> Proper(ms[i], n)
  }

  /** The sort key of `_collect_spans`: earlier start first, then longer first. */
  function SpanKey(m: Match): Key
  {
    (m.start, -(m.end - m.start))
  }

  /** Each span ends at or before the start of every later one. */
  predicate Disjoint(r: seq<Match>)
  {
    forall i, j :: 0 <= i < j < |r| ==> r[i].end <= r[j].start
  }

  /** The greedy test: keep `m` when nothing is kept yet or it starts at or
      after the end of the last kept span. */
  predicate Accepts(kept: seq<Match>, m: Match)
  {
    |kept| == 0 || m.start >= kept[|kept| - 1].end
  }

  /** The greedy loop over the sorted matches, from position `i` on. */
  function Scan(s: seq<Match>, i: nat, kept: seq<Match>): seq<Match>
    requires i <= |s|
    decreases |s| - i
  {
    if i == |s| then kept
    else if Accepts(kept, s[i]) then Scan(s, i + 1, kept + [s[i]])
    else Scan(s, i + 1, kept)
  }

  /** `_collect_spans`. */
  function CollectSpans(ms: seq<Match>): seq<Match>
  {
    Scan(SortBy(ms, SpanKey), 0, [])
  }

  /** No element of `s` before position `j` starts where `s[j]` does or later. */
  predicate FirstAtStart(s: seq<Match>, j: int)
    requires 0 <= j < |s|
  {
    forall k :: 0 <= k < j ==> s[k].start < s[j].start
  }

  /** `kept[t]` is an element of `s[..i]` that is the first of `s` with its start. */
  predicate Chosen(s: seq<Match>, i: int, kept: seq<Match>, t: int)
    requires 0 <= t < |kept| && i <= |s|
  {
    exists j :: 0 <= j < i && s[j] == kept[t] && FirstAtStart(s, j)
  }

  /** `s[k]` starts inside some kept span. */
  predicate Covered(kept: seq<Match>, m: Match)
  {
    exists a :: a in kept && a.start <= m.start < a.end
  }

  /** What the greedy loop keeps true after looking at `s[..i]`. */
  predicate ScanInv(s: seq<Match>, i: int, kept: seq<Match>)
    requires 0 <= i <= |s|
  {
    && Disjoint(kept)
    && (i > 0 ==> |kept| > 0)
    && (forall t :: 0 <= t < |kept| ==> Chosen(s, i, kept, t))
    && (|kept| > 0 ==> forall k :: 0 <= k < i ==> s[k].start < kept[|kept| - 1].end)
    && (forall k :: 0 <= k < i ==> Covered(kept, s[k]))
  }

  /** One step of the greedy loop keeps its invariant. */
  lemma ScanStep(s: seq<Match>, i: nat, kept: seq<Match>, n: int)
    requires i < |s| && AllProper(s, n) && SortedBy(s, SpanKey)
    requires ScanInv(s, i, kept)
    ensures Accepts(kept, s[i]) ==> ScanInv(s, i + 1, kept + [s[i]])
    ensures !Accepts(kept, s[i]) ==> ScanInv(s, i + 1, kept)
  {
    if Accepts(kept, s[i]) {
      ScanAccept(s, i, kept, n);
    } else {
      ScanReject(s, i, kept, n);
    }
  }

  /** Keeping a match that starts at or after the last kept end. */
  lemma {:induction false} ScanAccept(s: seq<Match>, i: nat, kept: seq<Match>, n: int)
    requires i < |s| && AllProper(s, n) && SortedBy(s, SpanKey)
    requires ScanInv(s, i, kept) && Accepts(kept, s[i])
    ensures ScanInv(s, i + 1, kept + [s[i]])
  {
    var k2 := kept + [s[i]];
    AcceptDisjoint(s, i, kept, n);
    assert FirstAtStart(s, i);
    var i1 := i + 1;
    forall t | 0 <= t < |k2|
      ensures Chosen(s, i1, k2, t)
    {
      if t < |kept| {
        assert Chosen(s, i, kept, t);
        assert k2[t] == kept[t];
      } else {
        assert s[i] == k2[t];
      }
    }
    forall k | 0 <= k < i + 1
      ensures Covered(k2, s[k])
    {
      if k < i {
        assert Covered(kept, s[k]);
        var a :| a in kept && a.start <= s[k].start < a.end;
        assert a in k2;
      } else {
        assert s[i] in k2;
      }
    }
  }

  /** A kept span stays clear of every earlier kept span. */
  lemma AcceptDisjoint(s: seq<Match>, i: nat, kept: seq<Match>, n: int)
    requires i < |s| && AllProper(s, n)
    requires ScanInv(s, i, kept) && Accepts(kept, s[i])
    ensures Disjoint(kept + [s[i]])
  {
    forall t | 0 <= t < |kept|
      ensures kept[t].end <= s[i].start
    {
      assert Chosen(s, i, kept, t);
      var j :| 0 <= j < i && s[j] == kept[t] && FirstAtStart(s, j);
      assert Proper(s[j], n);
      if t < |kept| - 1 {
        assert kept[t].end <= kept[|kept| - 1].start;
        assert Chosen(s, i, kept, |kept| - 1);
        var j' :| 0 <= j' < i && s[j'] == kept[|kept| - 1] && FirstAtStart(s, j');
        assert Proper(s[j'], n);
      }
    }
  }

  /** Dropping a match that starts before the last kept end. */
  lemma {:induction false} ScanReject(s: seq<Match>, i: nat, kept: seq<Match>, n: int)
    requires i < |s| && AllProper(s, n) && SortedBy(s, SpanKey)
    requires ScanInv(s, i, kept) && !Accepts(kept, s[i])
    ensures ScanInv(s, i + 1, kept)
  {
    var last := kept[|kept| - 1];
    assert Chosen(s, i, kept, |kept| - 1);
    var j :| 0 <= j < i && s[j] == last && FirstAtStart(s, j);
    assert KeyLe(SpanKey(s[j]), SpanKey(s[i]));
    assert last in kept;
    assert Covered(kept, s[i]);
    var i1 := i + 1;
    forall t | 0 <= t < |kept|
      ensures Chosen(s, i1, kept, t)
    {
      assert Chosen(s, i, kept, t);
    }
    forall k | 0 <= k < i1
      ensures Covered(kept, s[k]) && s[k].start < last.end
    {
    }
  }

  /** A list that starts with `kept + [x]` starts with `kept`. */
  lemma PrefixOfLonger(r: seq<Match>, kept: seq<Match>, x: Match)
    requires |kept| + 1 <= |r| && r[..|kept| + 1] == kept + [x]
    ensures r[..|kept|] == kept
  {
    assert r[..|kept|] == r[..|kept| + 1][..|kept|];
  }

  /** The greedy loop's invariant holds when it stops, and what was kept
      before stays kept. */
  lemma {:induction false} ScanSound(s: seq<Match>, i: nat, kept: seq<Match>, n: int)
    requires i <= |s| && AllProper(s, n) && SortedBy(s, SpanKey)
    requires ScanInv(s, i, kept)
    ensures ScanInv(s, |s|, Scan(s, i, kept))
    ensures |kept| <= |Scan(s, i, kept)| && Scan(s, i, kept)[..|kept|] == kept
    decreases |s| - i
  {
    if i < |s| {
      ScanStep(s, i, kept, n);
      if Accepts(kept, s[i]) {
        ScanSound(s, i + 1, kept + [s[i]], n);
        PrefixOfLonger(Scan(s, i + 1, kept + [s[i]]), kept, s[i]);
      } else {
        ScanSound(s, i + 1, kept, n);
      }
    }
  }

  lemma CollectSpansInv(ms: seq<Match>, n: int)
    requires AllProper(ms, n)
    ensures AllProper(SortBy(ms, SpanKey), n)
    ensures ScanInv(SortBy(ms, SpanKey), |ms|, CollectSpans(ms))
  {
    var s := SortBy(ms, SpanKey);
    assert |s| == |multiset(s)| == |multiset(ms)| == |ms|;
    forall i | 0 <= i < |s|
      ensures Proper(s[i], n)
    {
      assert s[i] in multiset(ms);
    }
    ScanSound(s, 0, [], n);
  }

  /** Every kept span is a detector match, and the kept spans are in order
      of start and pairwise non-overlapping. */
  lemma CollectSpansDisjoint(ms: seq<Match>, n: int)
    requires AllProper(ms, n)
    ensures Disjoint(CollectSpans(ms))
    ensures forall a :: a in CollectSpans(ms) ==> a in ms
    ensures AllProper(CollectSpans(ms), n)
    ensures forall i, j :: 0 <= i < j < |CollectSpans(ms)| ==> CollectSpans(ms)[i].start < CollectSpans(ms)[j].start
  {
    var s := SortBy(ms, SpanKey);
    var r := CollectSpans(ms);
    CollectSpansInv(ms, n);
    forall t | 0 <= t < |r|
      ensures r[t] in ms && Proper(r[t], n)
    {
      assert Chosen(s, |s|, r, t);
      var j :| 0 <= j < |s| && s[j] == r[t] && FirstAtStart(s, j);
      assert s[j] in multiset(s);
    }
    forall i, j | 0 <= i < j < |r|
      ensures r[i].start < r[j].start
    {
      assert Proper(r[i], n);
    }
  }

  /** A match is dropped only because it starts inside a kept span; in
      particular every match with no kept span over its start is kept. */
  lemma CollectSpansCovers(ms: seq<Match>, n: int, m: Match)
    requires AllProper(ms, n) && m in ms
    ensures exists a :: a in CollectSpans(ms) && a.start <= m.start < a.end
  {
    var s := SortBy(ms, SpanKey);
    CollectSpansInv(ms, n);
    assert m in multiset(s);
    var k :| 0 <= k < |s| && s[k] == m;
    assert Covered(CollectSpans(ms), s[k]);
  }

  /** A kept span is the first of the sorted matches with its start. */
  lemma KeptIsFirst(ms: seq<Match>, n: int, a: Match) returns (j: int)
    requires AllProper(ms, n) && a in CollectSpans(ms)
    ensures 0 <= j < |SortBy(ms, SpanKey)| && SortBy(ms, SpanKey)[j] == a
    ensures FirstAtStart(SortBy(ms, SpanKey), j)
  {
    var s := SortBy(ms, SpanKey);
    var r := CollectSpans(ms);
    CollectSpansInv(ms, n);
    var t :| 0 <= t < |r| && r[t] == a;
    assert Chosen(s, |s|, r, t);
    j :| 0 <= j < |s| && s[j] == r[t] && FirstAtStart(s, j);
  }

  /** Among matches with the same start the longest is kept. */
  lemma CollectSpansLongest(ms: seq<Match>, n: int, a: Match, m: Match)
    requires AllProper(ms, n) && a in CollectSpans(ms) && m in ms && m.start == a.start
    ensures m.end <= a.end
  {
    var s := SortBy(ms, SpanKey);
    var j := KeptIsFirst(ms, n, a);
    assert m in multiset(s);
    var k :| 0 <= k < |s| && s[k] == m;
    if j < k {
      assert KeyLe(SpanKey(s[j]), SpanKey(s[k]));
    }
  }

  /** On an exact tie of range the match the detector emitted first, that
      is the one from the earlier pattern, is the one kept. */
  lemma CollectSpansEarliest(ms: seq<Match>, n: int, a: Match)
    requires AllProper(ms, n) && a in CollectSpans(ms)
    ensures |WithKey(ms, SpanKey, SpanKey(a))| > 0 && WithKey(ms, SpanKey, SpanKey(a))[0] == a
  {
    var s := SortBy(ms, SpanKey);
    var j := KeptIsFirst(ms, n, a);
    forall k | 0 <= k < j
      ensures SpanKey(s[k]) != SpanKey(s[j])
    {
      assert s[k].start < s[j].start;
    }
    WithKeyHead(s, SpanKey, j);
  }

  /** Three matches at one start, longest first, are already in order. */
  lemma SameStartSorted(a: Match, b: Match, c: Match)
    requires a.start == b.start == c.start && a.end == b.end && c.end < a.end
    ensures SortBy([a, b, c], SpanKey) == [a, b, c]
  {
    var ms := [a, b, c];
    assert KeyLe(SpanKey(ms[0]), SpanKey(ms[1])) && KeyLe(SpanKey(ms[1]), SpanKey(ms[2]));
    assert SortedBy(ms, SpanKey);
    SortSortedUnchanged(ms, SpanKey);
  }

  /** Of three matches at one start, the two longest of equal length listed
      first, only the first is kept. */
  lemma SameStartFirstKept(a: Match, b: Match, c: Match)
    requires a.start == b.start == c.start && a.end == b.end && c.start < c.end < a.end
    ensures CollectSpans([a, b, c]) == [a]
  {
    var ms := [a, b, c];
    SameStartSorted(a, b, c);
    assert Scan(ms, 3, [a]) == [a];
    assert !Accepts([a], c);
    assert Scan(ms, 2, [a]) == Scan(ms, 3, [a]);
    assert !Accepts([a], b);
    assert Scan(ms, 1, [a]) == Scan(ms, 2, [a]);
    assert [] + [ms[0]] == [a];
    assert Scan(ms, 0, []) == Scan(ms, 1, [a]);
  }

  /** A bare 16-digit number: the default ACCOUNT and CREDIT_CARD patterns both
      match all of it and PHONE matches its first fifteen digits. ACCOUNT is
      listed first, so the number is labelled ACCOUNT. */
  lemma SixteenDigitsIsAccount()
    ensures CollectSpans([Match("ACCOUNT", 0, 16), Match("CREDIT_CARD", 0, 16), Match("PHONE", 0, 15)])
            == [Match("ACCOUNT", 0, 16)]
  {
    SameStartFirstKept(Match("ACCOUNT", 0, 16), Match("CREDIT_CARD", 0, 16), Match("PHONE", 0, 15));
  }
}
