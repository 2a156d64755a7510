/** Splitting a stream into lists of at most a given size: the pipeline's
    `_chunk_iterable` and the connectors' `batched`, which run the same
    loop. */
module Batching {

  /** The effective chunk size: a size below 1 still yields after every
      item, since `len(chunk) >= size` already holds with one item. */
  function Width(size: int): (n: nat)
    ensures n >= 1
    ensures size >= 1 ==> n == size
  {
    if size < 1 then 1 else size
  }

  /** Reference: full chunks of `n` from the front, then the rest if any. */
  function Chunked<T>(items: seq<T>, n: nat): seq<seq<T>>
    requires n >= 1
    decreases |items|
  {
    if |items| == 0 then []
    else if |items| <= n then [items]
    else [items[..n]] + Chunked(items[n..], n)
  }

  function Flatten<T>(chunks: seq<seq<T>>): seq<T>
  {
    if |chunks| == 0 then [] else chunks[0] + Flatten(chunks[1..])
  }

  /** Chunking loses nothing and reorders nothing; every chunk is non-empty
      and at most `n` long, and every chunk but the last is exactly `n`. */
  lemma {:induction false} ChunkedSpec<T>(items: seq<T>, n: nat)
    requires n >= 1
    ensures Flatten(Chunked(items, n)) == items
    ensures forall k :: 0 <= k < |Chunked(items, n)| ==> 0 < |Chunked(items, n)[k]| <= n
    ensures forall k :: 0 <= k < |Chunked(items, n)| - 1 ==> |Chunked(items, n)[k]| == n
    decreases |items|
  {
    if |items| > n {
      ChunkedSpec(items[n..], n);
      var rest := Chunked(items[n..], n);
      assert Chunked(items, n) == [items[..n]] + rest;
      assert forall k :: 1 <= k < |rest| + 1 ==> Chunked(items, n)[k] == rest[k - 1];
      assert ([items[..n]] + rest)[1..] == rest;
      assert items[..n] + items[n..] == items;
    } else if |items| > 0 {
      assert [items][1..] == [];
    }
  }

  /** One full chunk taken from position `s` on. */
  lemma ChunkedStep<T>(items: seq<T>, s: nat, n: nat)
    requires n >= 1 && s + n <= |items|
    ensures Chunked(items[s..], n) == [items[s..s + n]] + Chunked(items[s + n..], n)
  {
    var rest := items[s..];
    assert rest[..n] == items[s..s + n];
    assert rest[n..] == items[s + n..];
    if |rest| == n {
      assert items[s + n..] == [];
      assert Chunked(items[s + n..], n) == [];
      assert [items[s..s + n]] + [] == [items[s..s + n]];
      assert rest == items[s..s + n];
    } else {
      assert Chunked(rest, n) == [rest[..n]] + Chunked(rest[n..], n);
    }
  }

  /** The shared loop: append each item, emit the chunk once it holds
      `size` items, and emit the leftover at the end. */
  method Chunks<T>(items: seq<T>, size: int) returns (chunks: seq<seq<T>>)
    ensures chunks == Chunked(items, Width(size))
    ensures Flatten(chunks) == items
    ensures forall k :: 0 <= k < |chunks| ==> 0 < |chunks[k]| <= Width(size)
    ensures forall k :: 0 <= k < |chunks| - 1 ==> |chunks[k]| == Width(size)
  {
    var n := Width(size);
    chunks := ChunkLoop(items, n);
    ChunkedSpec(items, n);
  }

  method ChunkLoop<T>(items: seq<T>, n: nat) returns (chunks: seq<seq<T>>)
    requires n >= 1
    ensures chunks == Chunked(items, n)
  {
    chunks := [];
    var chunk: seq<T> := [];
    ghost var start := 0;
    var i := 0;
    while i < |items|
      invariant 0 <= start <= i <= |items|
      invariant i - start < n
      invariant chunk == items[start..i]
      invariant Chunked(items, n) == chunks + Chunked(items[start..], n)
    {
      assert items[start..i] + [items[i]] == items[start..i + 1];
      chunk := chunk + [items[i]];
      i := i + 1;
      if |chunk| >= n {
        ChunkedStep(items, start, n);
        assert chunks + Chunked(items[start..], n) == (chunks + [chunk]) + Chunked(items[i..], n);
        chunks := chunks + [chunk];
        chunk := [];
        start := i;
      }
    }
    assert items[start..] == chunk;
    if |chunk| > 0 {
      assert Chunked(chunk, n) == [chunk];
      chunks := chunks + [chunk];
    } else {
      assert Chunked(chunk, n) == [];
      assert chunks + [] == chunks;
    }
  }
}
