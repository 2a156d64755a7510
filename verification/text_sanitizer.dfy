/** `SanitizationLayer._sanitize_text`: resolve the spans of one string, copy
    the gaps between them verbatim and put a token in place of each span,
    recording the span's label and keyed hash under that token. */
module TextSanitizer {
  import opened Wrappers
  import opened Dicts
  import opened Sorting
  import opened Spans
  import opened TokenStores

  /** What the sanitization layer gets from outside: the hashing secret, the
      configured hash function (applied to the secret followed by the value),
      the token store's encoder and the pattern detector
      (`PatternDetector.find_matches`). */
  datatype Env = Env(secret: string, digest: string -> string, encoder: Encoder, detect: string -> seq<Match>)

  /** The secret used when the environment variable is unset or empty. */
  const DefaultSecret: string := "logminer-default-secret"

  /** `_resolve_secret`, given the environment variable's value. */
  function ResolveSecret(fromEnvironment: Option<string>): (secret: string)
    ensures |secret| > 0
    ensures fromEnvironment.Some? && fromEnvironment.value != "" ==> secret == fromEnvironment.value
    ensures fromEnvironment.None? || fromEnvironment.value == "" ==> secret == DefaultSecret
  {
    if fromEnvironment.Some? && fromEnvironment.value != "" then fromEnvironment.value else DefaultSecret
  }

  /** `_hash_value`: the digest of the secret followed by the value. */
  function HashValue(env: Env, value: string): string
  {
    env.digest(env.secret + value)
  }

  /** Regex matches always lie inside the searched text and, for the
      configured patterns, are never empty. */
  ghost predicate ValidDetector(detect: string -> seq<Match>)
  {
    forall t :: AllProper(detect(t), |t|)
  }

  /** The characters a span covers. */
  function Slice(text: string, m: Match): string
    requires Proper(m, |text|)
  {
    text[m.start..m.end]
  }

  /** Spans that can be substituted left to right from `cursor`: inside the
      text, in order, not overlapping, none before the cursor. */
  predicate Fits(spans: seq<Match>, cursor: int, n: int)
  {
    && 0 <= cursor <= n
    && AllProper(spans, n)
    && Disjoint(spans)
    && (|spans| > 0 ==> cursor <= spans[0].start)
  }

  /** The result of `_sanitize_text`, with the token store as it is afterwards. */
  datatype TextResult = TextResult(text: string, redactions: Entries<string>, hashed: Entries<string>, store: TokenStore)

  /** The state of the substitution loop: the fragments joined so far, the
      cursor, both maps and the token store. */
  datatype Acc = Acc(out: string, cursor: int, redactions: Entries<string>, hashed: Entries<string>, store: TokenStore)

  /** The substitution loop of `_sanitize_text`. */
  function Rebuild(env: Env, text: string, spans: seq<Match>, acc: Acc): (r: Acc)
    requires Fits(spans, acc.cursor, |text|)
    ensures acc.cursor <= r.cursor <= |text|
    decreases |spans|
  {
    if |spans| == 0 then acc
    else
      var m := spans[0];
      var original := Slice(text, m);
      var got := GetToken(env.encoder, acc.store, original);
      var token := got.0;
      Rebuild(env, text, spans[1..], Acc(acc.out + text[acc.cursor..m.start] + token, m.end,
                                         Put(acc.redactions, token, m.kind),
                                         Put(acc.hashed, token, HashValue(env, original)),
                                         got.1))
  }

  /** The sort key of the substitution loop: the start alone. */
  function StartKey(m: Match): Key
  {
    (m.start, 0)
  }

  /** `_sanitize_text`: with no spans the text comes back as it is with empty
      maps and an untouched store. */
  function SanitizeText(env: Env, store: TokenStore, text: string): (r: TextResult)
    requires ValidDetector(env.detect)
    ensures CollectSpans(env.detect(text)) == [] ==> r == TextResult(text, [], [], store)
  {
    var spans := CollectSpans(env.detect(text));
    if |spans| == 0 then TextResult(text, [], [], store)
    else
      CollectSpansDisjoint(env.detect(text), |text|);
      assert SortedBy(spans, StartKey);
      SortSortedUnchanged(spans, StartKey);
      var ordered := SortBy(spans, StartKey);
      var acc := Rebuild(env, text, ordered, Acc("", 0, [], [], store));
      TextResult(acc.out + text[acc.cursor..], acc.redactions, acc.hashed, acc.store)
  }

  // ---------------------------------------------------------------------
  // Reference definitions: the text as gaps and pieces, the originals, the
  // tokens a store holds for them, and `get_token` applied in order.

  /** The gaps of `text` between the spans, in order, with `pieces[i]` in
      place of span `i`. */
  function Splice(text: string, spans: seq<Match>, pieces: seq<string>, cursor: int): string
    requires Fits(spans, cursor, |text|) && |pieces| == |spans|
    decreases |spans|
  {
    if |spans| == 0 then text[cursor..]
    else text[cursor..spans[0].start] + pieces[0] + Splice(text, spans[1..], pieces[1..], spans[0].end)
  }

  /** The text each span covers. */
  function Originals(text: string, spans: seq<Match>): (r: seq<string>)
    requires AllProper(spans, |text|)
    ensures |r| == |spans|
    ensures forall i :: 0 <= i < |spans| ==> r[i] == Slice(text, spans[i])
  {
    if |spans| == 0 then [] else [Slice(text, spans[0])] + Originals(text, spans[1..])
  }

  /** The token a value/token map holds for each span's text. */
  function TokensIn(m: map<string, string>, text: string, spans: seq<Match>): (r: seq<string>)
    requires AllProper(spans, |text|)
    ensures |r| == |spans|
    ensures forall i :: 0 <= i < |spans| && Slice(text, spans[i]) in m ==> r[i] == m[Slice(text, spans[i])]
  {
    if |spans| == 0 then []
    else
      var o := Slice(text, spans[0]);
      [if o in m then m[o] else ""] + TokensIn(m, text, spans[1..])
  }

  /** `get_token` called on each value in turn. */
  function TokenAll(enc: Encoder, s: TokenStore, values: seq<string>): (r: TokenStore)
    ensures r.config == s.config
    ensures forall v :: v in s.mapping ==> v in r.mapping && r.mapping[v] == s.mapping[v]
    ensures forall i :: 0 <= i < |values| ==> values[i] in r.mapping
    decreases |values|
  {
    if |values| == 0 then s else TokenAll(enc, GetToken(enc, s, values[0]).1, values[1..])
  }

  /** No later position holds the same token. */
  predicate LastWith(toks: seq<string>, i: int)
    requires 0 <= i < |toks|
  {
    forall j :: i < j < |toks| ==> toks[j] != toks[i]
  }

  /** Putting each span's own text back in its place gives the text again. */
  lemma {:induction false} SpliceOriginals(text: string, spans: seq<Match>, cursor: int)
    requires Fits(spans, cursor, |text|)
    ensures Splice(text, spans, Originals(text, spans), cursor) == text[cursor..]
    decreases |spans|
  {
    if |spans| > 0 {
      var m := spans[0];
      SpliceOriginals(text, spans[1..], m.end);
      assert Originals(text, spans)[1..] == Originals(text, spans[1..]);
      assert text[cursor..] == text[cursor..m.start] + text[m.start..m.end] + text[m.end..];
    }
  }

  /** The loop's store is `get_token` applied to the covered texts in order. */
  lemma {:induction false} RebuildStore(env: Env, text: string, spans: seq<Match>, acc: Acc)
    requires Fits(spans, acc.cursor, |text|)
    ensures Rebuild(env, text, spans, acc).store == TokenAll(env.encoder, acc.store, Originals(text, spans))
    decreases |spans|
  {
    if |spans| > 0 {
      var acc' := RebuildStep(env, text, spans, acc);
      RebuildStore(env, text, spans[1..], acc');
      assert Originals(text, spans)[1..] == Originals(text, spans[1..]);
    }
  }

  /** One turn of the splice loop: the piece before the span and the span's
      token are appended, the cursor moves to the span's end, both maps get
      the token and the store is the one `get_token` leaves. */
  lemma RebuildStep(env: Env, text: string, spans: seq<Match>, acc: Acc) returns (acc': Acc)
    requires Fits(spans, acc.cursor, |text|) && |spans| > 0
    ensures var m := spans[0];
            var got := GetToken(env.encoder, acc.store, Slice(text, m));
            && Fits(spans[1..], acc'.cursor, |text|)
            && Rebuild(env, text, spans, acc) == Rebuild(env, text, spans[1..], acc')
            && acc'.out == acc.out + text[acc.cursor..m.start] + got.0 && acc'.cursor == m.end
            && acc'.redactions == Put(acc.redactions, got.0, m.kind)
            && acc'.hashed == Put(acc.hashed, got.0, HashValue(env, Slice(text, m)))
            && acc'.store == got.1
  {
    var m := spans[0];
    var got := GetToken(env.encoder, acc.store, Slice(text, m));
    acc' := Acc(acc.out + text[acc.cursor..m.start] + got.0, m.end,
                Put(acc.redactions, got.0, m.kind),
                Put(acc.hashed, got.0, HashValue(env, Slice(text, m))), got.1);
  }

  /** The loop's output is the gaps copied in order with each span replaced
      by the token the final store holds for its text. */
  lemma {:induction false} RebuildText(env: Env, text: string, spans: seq<Match>, acc: Acc)
    requires Fits(spans, acc.cursor, |text|)
    ensures var r := Rebuild(env, text, spans, acc);
            r.out + text[r.cursor..] == acc.out + Splice(text, spans, TokensIn(r.store.mapping, text, spans), acc.cursor)
    decreases |spans|
  {
    var r := Rebuild(env, text, spans, acc);
    if |spans| > 0 {
      var m := spans[0];
      var got := GetToken(env.encoder, acc.store, Slice(text, m));
      var acc' := RebuildStep(env, text, spans, acc);
      RebuildText(env, text, spans[1..], acc');
      RebuildStore(env, text, spans[1..], acc');
      var toks := TokensIn(r.store.mapping, text, spans);
      assert toks[1..] == TokensIn(r.store.mapping, text, spans[1..]);
      assert toks[0] == got.0;
      var gap := text[acc.cursor..m.start];
      var tail := Splice(text, spans[1..], toks[1..], m.end);
      assert Splice(text, spans, toks, acc.cursor) == gap + toks[0] + tail;
      assert r.out + text[r.cursor..] == (acc.out + gap + got.0) + tail;
      Regroup(acc.out, gap, got.0, tail);
    }
  }
  lemma Regroup(a: string, b: string, c: string, d: string)
    ensures (a + b + c) + d == a + (b + c + d)
  {
  }


  /** The maps the loop writes: every key is a token of some span (or was
      there before), and a span's token maps to that span's label and hash
      unless a later span has the same token. */
  lemma RebuildMaps(env: Env, text: string, spans: seq<Match>, acc: Acc)
    requires Fits(spans, acc.cursor, |text|)
    requires DistinctKeys(acc.redactions) && DistinctKeys(acc.hashed)
    ensures var r := Rebuild(env, text, spans, acc);
            var toks := TokensIn(r.store.mapping, text, spans);
            && DistinctKeys(r.redactions) && DistinctKeys(r.hashed)
            && (forall k :: HasKey(r.redactions, k) <==> HasKey(acc.redactions, k) || k in toks)
            && (forall k :: HasKey(r.hashed, k) <==> HasKey(acc.hashed, k) || k in toks)
            && (forall i :: 0 <= i < |spans| && LastWith(toks, i) ==>
                  Get(r.redactions, toks[i]) == Some(spans[i].kind)
                  && Get(r.hashed, toks[i]) == Some(HashValue(env, Slice(text, spans[i]))))
  {
    RebuildDistinct(env, text, spans, acc);
    RebuildKeys(env, text, spans, acc);
    RebuildValues(env, text, spans, acc);
  }

  /** The token the final store gives the first span is the one the first
      turn of the loop appended. */
  lemma RebuildTokens(env: Env, text: string, spans: seq<Match>, acc: Acc)
    requires Fits(spans, acc.cursor, |text|) && |spans| > 0
    ensures var r := Rebuild(env, text, spans, acc);
            var got := GetToken(env.encoder, acc.store, Slice(text, spans[0]));
            TokensIn(r.store.mapping, text, spans) == [got.0] + TokensIn(r.store.mapping, text, spans[1..])
  {
    var r := Rebuild(env, text, spans, acc);
    var got := GetToken(env.encoder, acc.store, Slice(text, spans[0]));
    var acc' := RebuildStep(env, text, spans, acc);
    RebuildStore(env, text, spans[1..], acc');
    var toks := TokensIn(r.store.mapping, text, spans);
    var rest := TokensIn(r.store.mapping, text, spans[1..]);
    assert toks == [got.0] + rest;
  }

  /** Neither map gets a repeated key. */
  lemma {:induction false} RebuildDistinct(env: Env, text: string, spans: seq<Match>, acc: Acc)
    requires Fits(spans, acc.cursor, |text|)
    requires DistinctKeys(acc.redactions) && DistinctKeys(acc.hashed)
    ensures DistinctKeys(Rebuild(env, text, spans, acc).redactions) && DistinctKeys(Rebuild(env, text, spans, acc).hashed)
    decreases |spans|
  {
    if |spans| > 0 {
      var m := spans[0];
      var got := GetToken(env.encoder, acc.store, Slice(text, m));
      var acc' := RebuildStep(env, text, spans, acc);
      PutDistinct(acc.redactions, got.0, m.kind);
      PutDistinct(acc.hashed, got.0, HashValue(env, Slice(text, m)));
      RebuildDistinct(env, text, spans[1..], acc');
    }
  }

  /** Both maps gain exactly the spans' tokens as keys. */
  lemma {:induction false} RebuildKeys(env: Env, text: string, spans: seq<Match>, acc: Acc)
    requires Fits(spans, acc.cursor, |text|)
    ensures var r := Rebuild(env, text, spans, acc);
            var toks := TokensIn(r.store.mapping, text, spans);
            && (forall k :: HasKey(r.redactions, k) <==> HasKey(acc.redactions, k) || k in toks)
            && (forall k :: HasKey(r.hashed, k) <==> HasKey(acc.hashed, k) || k in toks)
    decreases |spans|
  {
    if |spans| > 0 {
      var m := spans[0];
      var got := GetToken(env.encoder, acc.store, Slice(text, m));
      var acc' := RebuildStep(env, text, spans, acc);
      PutKeys(acc.redactions, got.0, m.kind);
      PutKeys(acc.hashed, got.0, HashValue(env, Slice(text, m)));
      RebuildKeys(env, text, spans[1..], acc');
      RebuildTokens(env, text, spans, acc);
    }
  }

  /** A span's token maps to its label and hash unless a later span has
      the same token. */
  lemma RebuildValues(env: Env, text: string, spans: seq<Match>, acc: Acc)
    requires Fits(spans, acc.cursor, |text|)
    ensures var r := Rebuild(env, text, spans, acc);
            var toks := TokensIn(r.store.mapping, text, spans);
            forall i :: 0 <= i < |spans| && LastWith(toks, i) ==>
              Get(r.redactions, toks[i]) == Some(spans[i].kind)
              && Get(r.hashed, toks[i]) == Some(HashValue(env, Slice(text, spans[i])))
  {
    var r := Rebuild(env, text, spans, acc);
    var toks := TokensIn(r.store.mapping, text, spans);
    forall i | 0 <= i < |spans| && LastWith(toks, i)
      ensures Get(r.redactions, toks[i]) == Some(spans[i].kind)
      ensures Get(r.hashed, toks[i]) == Some(HashValue(env, Slice(text, spans[i])))
    {
      RebuildValueAt(env, text, spans, acc, i);
    }
  }

  /** The first span's token, when no later span shares it, keeps the
      values the first turn wrote. */
  lemma RebuildValueFirst(env: Env, text: string, spans: seq<Match>, acc: Acc)
    requires Fits(spans, acc.cursor, |text|) && |spans| > 0
    requires LastWith(TokensIn(Rebuild(env, text, spans, acc).store.mapping, text, spans), 0)
    ensures var r := Rebuild(env, text, spans, acc);
            var tok := TokensIn(r.store.mapping, text, spans)[0];
            Get(r.redactions, tok) == Some(spans[0].kind) && Get(r.hashed, tok) == Some(HashValue(env, Slice(text, spans[0])))
  {
    var r := Rebuild(env, text, spans, acc);
    var m := spans[0];
    var got := GetToken(env.encoder, acc.store, Slice(text, m));
    var acc' := RebuildStep(env, text, spans, acc);
    RebuildTokens(env, text, spans, acc);
    var toks := TokensIn(r.store.mapping, text, spans);
    var rest := TokensIn(r.store.mapping, text, spans[1..]);
    assert got.0 !in rest by {
      forall j | 0 <= j < |rest| ensures rest[j] != got.0 {
        assert toks[j + 1] == rest[j];
      }
    }
    RebuildUntouched(env, text, spans[1..], acc', got.0);
    PutGet(acc.redactions, got.0, m.kind, got.0);
    PutGet(acc.hashed, got.0, HashValue(env, Slice(text, m)), got.0);
  }

  lemma LastWithTail(toks: seq<string>, i: nat)
    requires 0 < i < |toks| && LastWith(toks, i)
    ensures LastWith(toks[1..], i - 1)
  {
    forall j | i - 1 < j < |toks| - 1 ensures toks[1..][j] != toks[1..][i - 1] {
      assert toks[1..][j] == toks[j + 1];
    }
  }

  /** The value of the `i`-th span's token, by induction on `i`. */
  lemma {:induction false} RebuildValueAt(env: Env, text: string, spans: seq<Match>, acc: Acc, i: nat)
    requires Fits(spans, acc.cursor, |text|) && i < |spans|
    requires LastWith(TokensIn(Rebuild(env, text, spans, acc).store.mapping, text, spans), i)
    ensures var r := Rebuild(env, text, spans, acc);
            var tok := TokensIn(r.store.mapping, text, spans)[i];
            Get(r.redactions, tok) == Some(spans[i].kind) && Get(r.hashed, tok) == Some(HashValue(env, Slice(text, spans[i])))
    decreases i
  {
    if i == 0 {
      RebuildValueFirst(env, text, spans, acc);
    } else {
      var r := Rebuild(env, text, spans, acc);
      var acc' := RebuildStep(env, text, spans, acc);
      RebuildTokens(env, text, spans, acc);
      var toks := TokensIn(r.store.mapping, text, spans);
      var rest := TokensIn(r.store.mapping, text, spans[1..]);
      LastWithTail(toks, i);
      assert toks[1..] == rest;
      RebuildValueAt(env, text, spans[1..], acc', i - 1);
      assert spans[1..][i - 1] == spans[i] && rest[i - 1] == toks[i];
    }
  }

  /** A key that is no span's token keeps its value through the loop. */
  lemma {:induction false} RebuildUntouched(env: Env, text: string, spans: seq<Match>, acc: Acc, k: string)
    requires Fits(spans, acc.cursor, |text|)
    requires k !in TokensIn(Rebuild(env, text, spans, acc).store.mapping, text, spans)
    ensures Get(Rebuild(env, text, spans, acc).redactions, k) == Get(acc.redactions, k)
    ensures Get(Rebuild(env, text, spans, acc).hashed, k) == Get(acc.hashed, k)
    decreases |spans|
  {
    var r := Rebuild(env, text, spans, acc);
    if |spans| > 0 {
      var m := spans[0];
      var got := GetToken(env.encoder, acc.store, Slice(text, m));
      var acc' := Acc(acc.out + text[acc.cursor..m.start] + got.0, m.end,
                      Put(acc.redactions, got.0, m.kind),
                      Put(acc.hashed, got.0, HashValue(env, Slice(text, m))), got.1);
      RebuildStore(env, text, spans[1..], acc');
      var toks := TokensIn(r.store.mapping, text, spans);
      var rest := TokensIn(r.store.mapping, text, spans[1..]);
      assert toks == [got.0] + rest;
      RebuildUntouched(env, text, spans[1..], acc', k);
      PutGet(acc.redactions, got.0, m.kind, k);
      PutGet(acc.hashed, got.0, HashValue(env, Slice(text, m)), k);
    }
  }

  /** The spans `_sanitize_text` substitutes, with the facts the loop needs. */
  lemma SpansFit(env: Env, text: string)
    requires ValidDetector(env.detect)
    ensures Fits(CollectSpans(env.detect(text)), 0, |text|)
    ensures SortBy(CollectSpans(env.detect(text)), StartKey) == CollectSpans(env.detect(text))
  {
    CollectSpansDisjoint(env.detect(text), |text|);
    var spans := CollectSpans(env.detect(text));
    assert SortedBy(spans, StartKey);
    SortSortedUnchanged(spans, StartKey);
  }

  /** The sanitized text is the original's gaps, copied verbatim and in
      order, interleaved with the token of each kept span's text; the store
      afterwards is `get_token` applied to those texts in order, so it holds
      every one of them. */
  lemma SanitizeTextSpliced(env: Env, store: TokenStore, text: string)
    requires ValidDetector(env.detect)
    ensures var spans := CollectSpans(env.detect(text));
            var r := SanitizeText(env, store, text);
            && Fits(spans, 0, |text|)
            && r.store == TokenAll(env.encoder, store, Originals(text, spans))
            && r.text == Splice(text, spans, TokensIn(r.store.mapping, text, spans), 0)
  {
    SpansFit(env, text);
    var spans := CollectSpans(env.detect(text));
    if |spans| > 0 {
      RebuildStore(env, text, spans, Acc("", 0, [], [], store));
      RebuildText(env, text, spans, Acc("", 0, [], [], store));
    }
  }

  /** Putting the covered texts back where the tokens are gives the input:
      the substitution loses nothing but the span contents. */
  lemma SanitizeTextRestores(env: Env, store: TokenStore, text: string)
    requires ValidDetector(env.detect)
    ensures var spans := CollectSpans(env.detect(text));
            Fits(spans, 0, |text|) && Splice(text, spans, Originals(text, spans), 0) == text
  {
    SpansFit(env, text);
    SpliceOriginals(text, CollectSpans(env.detect(text)), 0);
  }

  /** The keys of both maps of `_sanitize_text` are exactly the substituted
      tokens, none twice. */
  lemma SanitizeTextMapKeys(env: Env, store: TokenStore, text: string)
    requires ValidDetector(env.detect)
    ensures var spans := CollectSpans(env.detect(text));
            var r := SanitizeText(env, store, text);
            && AllProper(spans, |text|)
            && DistinctKeys(r.redactions) && DistinctKeys(r.hashed)
            && (forall k :: HasKey(r.redactions, k) <==> k in TokensIn(r.store.mapping, text, spans))
            && (forall k :: HasKey(r.hashed, k) <==> k in TokensIn(r.store.mapping, text, spans))
  {
    SpansFit(env, text);
    var spans := CollectSpans(env.detect(text));
    if |spans| > 0 {
      var acc0 := Acc("", 0, [], [], store);
      RebuildMaps(env, text, spans, acc0);
      var a := Rebuild(env, text, spans, acc0);
      assert SanitizeText(env, store, text) == TextResult(a.out + text[a.cursor..], a.redactions, a.hashed, a.store);
    }
  }

  /** Each substituted token maps to the label and the keyed hash of the
      last span it replaced. */
  lemma SanitizeTextMapValues(env: Env, store: TokenStore, text: string, i: int)
    requires ValidDetector(env.detect)
    requires 0 <= i < |CollectSpans(env.detect(text))|
    ensures var spans := CollectSpans(env.detect(text));
            var r := SanitizeText(env, store, text);
            && AllProper(spans, |text|)
            && var toks := TokensIn(r.store.mapping, text, spans);
               LastWith(toks, i) ==>
                 Get(r.redactions, toks[i]) == Some(spans[i].kind)
                 && Get(r.hashed, toks[i]) == Some(HashValue(env, Slice(text, spans[i])))
  {
    SpansFit(env, text);
    var spans := CollectSpans(env.detect(text));
    var acc0 := Acc("", 0, [], [], store);
    RebuildMaps(env, text, spans, acc0);
    var a := Rebuild(env, text, spans, acc0);
    assert SanitizeText(env, store, text) == TextResult(a.out + text[a.cursor..], a.redactions, a.hashed, a.store);
  }
}
