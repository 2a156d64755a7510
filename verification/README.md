# LogMiner-QA core in Dafny

LogMiner-QA reads banking application logs and does four things with them:

- removes personal data from them;
- classifies their events and groups them into customer journeys;
- checks them against simple compliance and fraud rules;
- writes Gherkin test scenarios and a CI summary from what it found.

This project models the deterministic core of that system as pure Dafny functions over a closed JSON datatype, and proves properties of the model. The core has two parts.

The sanitisation and privacy engine:

- span resolution;
- text rebuild;
- record traversal;
- the referential token store;
- the differential-privacy aggregator.

The small helpers around it:

- validation;
- log-format key resolution;
- chunking;
- classification;
- journey ids;
- de-duplication;
- Gherkin rendering;
- compliance and fraud rules;
- the parser's message extraction and uniqueness;
- connector field normalisation;
- the CI summary;
- cluster bucketing.

One module per source file:

| module | file | what it holds |
|---|---|---|
| `Wrappers` | wrappers.dfy | `Option`, `Result` and the Python exceptions the code can raise |
| `Strings` | strings.dfy | `strip`, ASCII `lower`, `in`, `replace`, `split`, `join`, code-point string order, `str` of integers |
| `Dicts` | dicts.dfy | Python dicts as insertion-ordered entry lists: `get`, assignment, `update` |
| `Sorting` | sorting.dfy | Python's stable `sorted` on integer-pair keys |
| `Json` | json.dfy | records as a closed JSON tree, truthiness, `str` |
| `Spans` | spans.dfy | `_collect_spans` |
| `TokenStores` | token_store.dfy | `TokenStore`: load, `_make_token`, `get_token`, `flush`, persistence |
| `TextSanitizer` | text_sanitizer.dfy | `_sanitize_text`, `_hash_value`, the secret |
| `RecordSanitizer` | records.dfy | `_iter_strings`, `_qualify_keys`, `_apply_path`, `sanitize_record` |
| `Privacy` | privacy.dfy | `DifferentialPrivacyAggregator` |
| `Validation` | validation.dfy | `validate_record`, `_depth`, `validate_batch` |
| `LogFormat` | log_format.dfy | `LogFormatConfig`, `_unwrap_value`, `_get_first_present`, `normalize_record`, key resolution |
| `Batching` | batching.dfy | `_chunk_iterable` and `batched` |
| `Parsing` | parsing.dfy | `LogParser._extract_message`, `_unique` |
| `Connectors` | connectors.dfy | `LogConnector._normalize_common_fields` |
| `Pipeline` | pipeline.dfy | classification, journey ids, de-duplication, Gherkin rendering, `_generate_tests` |
| `Compliance` | compliance.dfy | `BankingComplianceEngine` |
| `Fraud` | fraud.dfy | `FraudDetectionEngine` |
| `Clustering` | clustering.dfy | `ClusterSummary.as_dict` and the below-minimum branch of `cluster_messages` |
| `Ci` | ci.dfy | `generate_summary`, `_summarise_clusters` |

What the code calls but cannot be seen or computed exactly becomes a parameter of the model:

- the regular expressions become an oracle returning `(label, start, end)` matches, pattern by pattern;
- the blake2b and keyed hashes are parameters;
- the secret read from the environment is a parameter;
- the Laplace draws are a parameter;
- the clock is a parameter;
- `datetime.fromisoformat` and `float` are parameters;
- `str` of lists and dicts is a parameter.

An exception the code raises is a `Result` error carrying the exception's kind, so error paths are modelled rather than excluded by preconditions.

Where the system's specification and the code disagree, the model follows the code:

- The specification expects a bare 16-digit number to be labelled CREDIT_CARD. In the code the ACCOUNT pattern comes first, both matches have the same start and length, and the sort is stable, so ACCOUNT wins. `Spans.SixteenDigitsIsAccount` states the code's outcome.
- The specification calls malformed persisted state a fatal construction error. The code raises on undecodable JSON, but ignores a file holding JSON that is not an object and starts with an empty map (`TokenStores.Open`).
- The specification requires re-sanitising output to be a no-op. The model makes no such claim:
  - the PHONE pattern has no word boundary;
  - tokens contain 24 upper-case hex digits;
  - so a token can itself hold a match.
- The specification calls tokens 12 hex characters. The default encoder gives a 12-byte digest, which is 24 hex characters, and `TokenStores.DefaultTokenShape` states that.
- The specification says event names are normalised. Only explicit event names have hyphens replaced: a `transaction_type` keeps its hyphens. `Pipeline.HyphenatedKindRelabelled` shows that the two spellings of one activity get different labels.
- `has_required_log_fields` names the message aliases in its error text. That text lists `event`, which is not a message alias, and omits `description` and `summary`, which are. The model keeps the text as written.

## Model

| member | source | states |
|---|---|---|
| Spans.ScanAccept | src/logminer_qa/sanitizer.py:160-161 | keeping a match that starts at or after the last kept end keeps the kept spans disjoint, each the first sorted match with its start, and every examined match under a kept span |
| Spans.ScanReject | src/logminer_qa/sanitizer.py:160 | a match refused because it starts before the last kept end already starts inside a kept span |
| Spans.ScanSound | src/logminer_qa/sanitizer.py:158-162 | the greedy loop ends with its invariant holding over all sorted matches, and never drops a span it already kept |
| Spans.CollectSpans | src/logminer_qa/sanitizer.py:155-162 | `_collect_spans`: sort by start, longest first, then keep greedily; `CollectSpansDisjoint`, `CollectSpansCovers`, `CollectSpansLongest` and `CollectSpansEarliest` state what is kept |
| Spans.CollectSpansDisjoint | src/logminer_qa/sanitizer.py:155-162 | every kept span is a detector match inside the text; kept spans have strictly increasing starts and each ends at or before the next one starts |
| Spans.CollectSpansCovers | src/logminer_qa/sanitizer.py:159-161 | every detector match starts inside some kept span, so a match is discarded only when a kept span covers its start |
| Spans.KeptIsFirst | src/logminer_qa/sanitizer.py:159-161 | a kept span is the first match, in sorted order, with its start |
| Spans.CollectSpansLongest | src/logminer_qa/sanitizer.py:159 | no match with the same start as a kept span is longer than it |
| Spans.CollectSpansEarliest | src/logminer_qa/sanitizer.py:159 | on an exact tie of start and length the kept span is the first such match in detector order, so the earlier pattern wins (the sort is stable) |
| Spans.SameStartFirstKept | src/logminer_qa/sanitizer.py:159-161 | of two equal-length matches and a shorter one at the same start, only the first listed is kept |
| Spans.SixteenDigitsIsAccount | src/logminer_qa/sanitizer.py:20-27 | a bare 16-digit number, matched whole by ACCOUNT and CREDIT_CARD and in its first 15 digits by PHONE, is labelled ACCOUNT |
| Spans.ScanStep | src/logminer_qa/sanitizer.py:159-162 | one accept-or-discard step of the greedy loop keeps the loop invariant |
| Spans.AcceptDisjoint | src/logminer_qa/sanitizer.py:160-162 | a span accepted because it starts at or after the last kept end overlaps no kept span |
| Spans.CollectSpansInv | src/logminer_qa/sanitizer.py:155-163 | after the loop the invariant holds over every sorted match |
| TextSanitizer.HashValue | src/logminer_qa/sanitizer.py:164-169 | `_hash_value`: the configured digest of the secret followed by the value; the hash algorithm is a parameter, so nothing more is stated about its output |
| TextSanitizer.ResolveSecret | src/logminer_qa/sanitizer.py:171-181 | the secret is the environment variable's value when it is set and non-empty, otherwise "logminer-default-secret"; it is never empty |
| TextSanitizer.SanitizeText | src/logminer_qa/sanitizer.py:133-138 | with no kept spans the text comes back unchanged with empty redaction and hash maps and the token store untouched |
| TextSanitizer.TokenAll | src/logminer_qa/token_store.py:47-58 | calling `get_token` on a list of values keeps every existing mapping and leaves every value mapped |
| TextSanitizer.SpliceOriginals | src/logminer_qa/sanitizer.py:140-152 | splicing each span's own text back into its place rebuilds the text from the cursor on |
| TextSanitizer.RebuildStore | src/logminer_qa/sanitizer.py:142-150 | the substitution loop's store is `get_token` applied to the covered texts in span order |
| TextSanitizer.RebuildStep | src/logminer_qa/sanitizer.py:143-150 | one turn appends the gap and the span's token, moves the cursor to the span's end, writes the token's label and hash, and keeps the store `get_token` leaves |
| TextSanitizer.RebuildText | src/logminer_qa/sanitizer.py:140-152 | the loop output plus the tail is the gaps copied in order with each span replaced by the token the final store holds for its text |
| TextSanitizer.RebuildMaps | src/logminer_qa/sanitizer.py:142-150 | neither map repeats a key; the keys added are exactly the spans' tokens; a span's token maps to its label and keyed hash unless a later span has the same token |
| TextSanitizer.RebuildUntouched | src/logminer_qa/sanitizer.py:148-149 | a key that is no span's token keeps its value in both maps |
| TextSanitizer.SpansFit | src/logminer_qa/sanitizer.py:136-142 | the kept spans lie inside the text, in order and without overlap, so re-sorting them by start alone changes nothing |
| TextSanitizer.SanitizeTextSpliced | src/logminer_qa/sanitizer.py:133-153 | the sanitized text is the gaps copied verbatim and in order, interleaved with `get_token(text[start:end])` of each kept span; the store afterwards is `get_token` applied to those texts in order |
| TextSanitizer.SanitizeTextRestores | src/logminer_qa/sanitizer.py:140-152 | putting the covered texts back where the tokens stand gives the input text |
| TextSanitizer.SanitizeTextMapKeys | src/logminer_qa/sanitizer.py:148-149 | the keys of the redaction map and of the hash map are exactly the substituted tokens, none twice |
| TextSanitizer.SanitizeTextMapValues | src/logminer_qa/sanitizer.py:164-169 | each substituted token maps to the span's label and to the digest of secret followed by the original text, unless a later span has the same token |
| TextSanitizer.Rebuild | src/logminer_qa/sanitizer.py:140-150 | the substitution loop only moves the cursor forward and never past the end of the text |
| TextSanitizer.Originals | src/logminer_qa/sanitizer.py:144 | each span covers `text[start:end]` |
| TextSanitizer.RebuildDistinct | src/logminer_qa/sanitizer.py:148-149 | neither the redaction map nor the hash map gets a repeated key |
| TextSanitizer.RebuildKeys | src/logminer_qa/sanitizer.py:148-149 | both maps gain exactly the spans' tokens as keys |
| TextSanitizer.RebuildValues | src/logminer_qa/sanitizer.py:148-149 | a span's token maps to that span's label and to the keyed hash of its text, unless a later span has the same token |
| TextSanitizer.RebuildValueAt | src/logminer_qa/sanitizer.py:142-150 | the `i`-th span's token ends with its own label and hash when no later span shares the token |
| RecordSanitizer.TextOf | src/logminer_qa/sanitizer.py:133-153 | the text function the record layer calls is `_sanitize_text` with the configured secret, digest and detector |
| RecordSanitizer.PathStrings | src/logminer_qa/sanitizer.py:39-47 | a path is rendered as the source's list of strings, `str(key)` for a dict step and `str(idx)` for a list step |
| RecordSanitizer.LeavesAt | src/logminer_qa/sanitizer.py:30-47 | every leaf `_iter_strings` yields is the string found by following its path from the root |
| RecordSanitizer.LeavesDistinct | src/logminer_qa/sanitizer.py:38-47 | no two leaves of a well-formed value share a path, and inside a container every path starts with a step into it |
| RecordSanitizer.QualifyKeysSpec | src/logminer_qa/sanitizer.py:127-131 | on a non-empty path the result maps `p1.….pn.k` (the joined path itself when `k` is empty) to the value of `k`, has no other keys and no repeated key |
| RecordSanitizer.QualifyKeys | src/logminer_qa/sanitizer.py:128-129 | with an empty path the map is returned as it is |
| RecordSanitizer.QualifyKeyInjective | src/logminer_qa/sanitizer.py:131 | distinct keys get distinct qualified keys under one prefix |
| RecordSanitizer.SetAtByKind | src/logminer_qa/sanitizer.py:112-125 | writing at the path of a string, with dict keys read as keys, succeeds, keeps the tree's shape and leaves the new string at that path |
| RecordSanitizer.SetAtOthers | src/logminer_qa/sanitizer.py:112-125 | that write leaves every other string leaf as it was |
| RecordSanitizer.WriteLeaf | src/logminer_qa/sanitizer.py:95-96 | a leaf is written back only when its sanitized text differs; afterwards the leaf holds the sanitized text and nothing else changed |
| RecordSanitizer.SanitizeAll | src/logminer_qa/sanitizer.py:93-94 | the flat reference: one sanitized string per leaf string, threading one token store |
| RecordSanitizer.WalkByKind | src/logminer_qa/sanitizer.py:93-98 | on string leaves at distinct paths the leaf loop never fails, keeps the tree's shape, writes the i-th sanitized string at the i-th leaf, touches no other string, and ends with the flat reference's store |
| RecordSanitizer.SanitizeRecordByKind | src/logminer_qa/sanitizer.py:90-98 | for any well-formed non-string record, with dict keys read as keys, only string leaves reached through dict and list nesting change, each to its sanitized text |
| RecordSanitizer.SetAtModes | src/logminer_qa/sanitizer.py:112-125 | when no dict key on the path is one `int()` accepts (decimal digits of any script, an optional sign, surrounding whitespace, single underscores between digits), the source's write and the by-kind write agree |
| RecordSanitizer.LooksIntFortyTwo | src/logminer_qa/sanitizer.py:116 | `int()` accepts "42" written in ASCII digits and in Arabic-Indic digits |
| RecordSanitizer.ApplyPath | src/logminer_qa/sanitizer.py:112-125 | `_apply_path`; an empty path fails on `path[-1]`; `SetAtByKind` and `SetAtOthers` state that a by-kind write at a string's path succeeds, keeps the shape and changes only that string, and `ApplyPathNumericKey` states the as-written failures on a numeric-looking dict key |
| RecordSanitizer.IterStrings | src/logminer_qa/sanitizer.py:30-45 | the string leaves in document order; `LeavesAt` states that each is the string found at its path, and `LeavesDistinct` that no two share a path and that inside a container every path is non-empty |
| RecordSanitizer.QualifyKey | src/logminer_qa/sanitizer.py:131 | the dotted key `prefix.key`, or the prefix itself for an empty key; `QualifyKeyInjective` states that two keys under one prefix stay apart |
| RecordSanitizer.SanitizeRecordModes | src/logminer_qa/sanitizer.py:75-110 | when no dict key on the way to a string is one `int()` accepts, the source and the by-kind reading give the same result and the same store |
| RecordSanitizer.ApplyPathNumericKey | src/logminer_qa/sanitizer.py:114-125 | as written, a write whose first step is a numeric-looking dict key fails: RuntimeError when it is the last step, KeyError otherwise |
| RecordSanitizer.FirstWriteFails | src/logminer_qa/sanitizer.py:93-96 | the leaf loop stops at the first failing write with that error, keeping the tokens minted so far |
| RecordSanitizer.WalkErrorRaised | src/logminer_qa/sanitizer.py:93-98 | an error in the leaf loop is raised by `sanitize_record` |
| RecordSanitizer.OnlyLeafFails | src/logminer_qa/sanitizer.py:93-96 | a record whose only leaf is rewritten and whose write fails raises that write's error |
| RecordSanitizer.NumericKeyBreaksAsWritten | src/logminer_qa/sanitizer.py:120-125 | `{"42": s}` with `s` changed by sanitizing raises RuntimeError as written |
| RecordSanitizer.NumericKeyBreaksNested | src/logminer_qa/sanitizer.py:114-119 | `{"42": {k: s}}` with `s` changed by sanitizing raises KeyError as written, for the int key 42; the model's KeyError carries the key's text |
| RecordSanitizer.NumericKeyByKind | src/logminer_qa/sanitizer.py:112-125 | the same two records are sanitized without error when dict keys are read as keys |
| RecordSanitizer.SingleKeyByKind | src/logminer_qa/sanitizer.py:90-110 | a well-formed one-key dict record, the key being neither `redactions` nor `hashed_fields`, is sanitized without error when keys are read as keys |
| RecordSanitizer.MergeIntoSpec | src/logminer_qa/sanitizer.py:102-103 | `setdefault(key, {}).update(m)` succeeds exactly when the key is absent or holds a dict; the dict under the key then holds `m`'s entries over its old ones and every other key is untouched |
| RecordSanitizer.WalkInvariants | src/logminer_qa/sanitizer.py:93-98 | the leaf loop keeps a dict root a dict and both merged maps free of repeated keys |
| RecordSanitizer.SanitizeRecordMerges | src/logminer_qa/sanitizer.py:100-110 | for a dict record the call fails with AttributeError exactly when `redactions` or `hashed_fields` already holds a non-dict; otherwise both maps are merged into what was there and no other key changes; what the merged maps hold is stated by `SanitizeRecordMapEntry` and `SanitizeRecordMapKeys` |
| RecordSanitizer.SanitizeRecord | src/logminer_qa/sanitizer.py:75-110 | `sanitize_record`; its contract is stated by the lemmas `StringRecordWrapped`, `SanitizeRecordByKind`, `SanitizeRecordModes`, `SanitizeRecordMerges`, `SanitizeRecordMapEntry`, `SanitizeRecordMapKeys`, `NumericKeyBreaksAsWritten` and `NumericKeyBreaksNested` |
| RecordSanitizer.TextOfDictMaps | src/logminer_qa/sanitizer.py:133-153 | both maps `_sanitize_text` returns are real dicts: no key repeats |
| RecordSanitizer.SanitizeEachAll | src/logminer_qa/sanitizer.py:93-98 | the per-string calls with the store handed on give, call by call, the sanitized strings of the flat reference, and the last call leaves the store it ends with |
| RecordSanitizer.WalkMaps | src/logminer_qa/sanitizer.py:93-98 | the leaf loop's two maps read, at every key, what the last leaf whose path-qualified map holds that key gives it, and otherwise what they held before |
| RecordSanitizer.SanitizeRecordMapsRead | src/logminer_qa/sanitizer.py:89-110 | for a record that is not a string and is sanitized without error, the result's maps read at every key what the last leaf whose path-qualified map holds it gives, and nothing otherwise |
| RecordSanitizer.SanitizeRecordMapEntry | src/logminer_qa/sanitizer.py:93-110 | each token of the i-th string's redactions is found in the result's redaction map under `path.token` with its label, and in the hash map with its hash, unless a later string's map holds the same dotted key |
| RecordSanitizer.SanitizeRecordMapKeys | src/logminer_qa/sanitizer.py:93-110 | every key of the result's two maps is some string's dotted path joined to a token of that string's map |
| RecordSanitizer.StringRecordWrapped | src/logminer_qa/sanitizer.py:79-88 | a string record becomes `{message, redactions, hashed_fields}` with the sanitized text and its two maps, which are also the result's maps |
| TokenStores.Open | src/logminer_qa/token_store.py:34-41 | with a path, a file holding a JSON object becomes the initial map, any other JSON value leaves the map empty, text that is not JSON raises; without a path the map starts empty; nothing is pending |
| TokenStores.MakeToken | src/logminer_qa/token_store.py:43-45 | a token is the prefix, then the encoder's digest of the value, then the suffix |
| TokenStores.DefaultTokenShape | src/logminer_qa/token_store.py:18-20 | with the default affixes and a 24-character upper-case hex digest a token has 32 characters and the shape `\[TOKEN_[A-Z0-9]+\]` the parser extracts |
| TokenStores.Persist | src/logminer_qa/token_store.py:67-71 | with a path the file afterwards holds the whole map; without one nothing changes |
| TokenStores.GetToken | src/logminer_qa/token_store.py:47-58 | the value ends up mapped to the returned token; a known value changes nothing; a new value gets prefix, digest and suffix, and no other entry changes |
| TokenStores.Flush | src/logminer_qa/token_store.py:60-65 | with something pending the map is written and the counter reset; otherwise nothing changes |
| TokenStores.GetTokenIdempotent | src/logminer_qa/token_store.py:49-52 | a second `get_token` of the same value returns the same token and leaves the store as it was |
| TokenStores.GetTokenAddsOne | src/logminer_qa/token_store.py:50-53 | a first-seen value adds exactly one entry and every existing entry keeps its token |
| TokenStores.GetTokenKeepsBatchBound | src/logminer_qa/token_store.py:53-57 | with a batch size of at least one the pending count stays in `0 .. batch size - 1` |
| TokenStores.OpenDurable | src/logminer_qa/token_store.py:34-41 | a store opened with a path agrees with its file and has nothing pending |
| TokenStores.GetTokenDurable | src/logminer_qa/token_store.py:53-57 | every write copies the whole map, so the map holds the file's entries and outgrows it by exactly the pending count |
| TokenStores.FlushDurable | src/logminer_qa/token_store.py:60-65 | after `flush` nothing is pending and the file holds the whole map |
| TokenStores.ReopenAfterFlush | src/logminer_qa/token_store.py:34-41 | a store reopened from the file a flush left behind holds the same map and gives every value the same token |
| Parsing.FirstStringField | src/logminer_qa/parsing.py:98-101 | the result is the value of the first key, in order, whose value is a string, and there is none exactly when no key holds a string |
| Parsing.ExtractMessage | src/logminer_qa/parsing.py:94-103 | a string record is its own message; a dict gives the first string among `message`, `msg`, `log`, `description`, `detail`, and otherwise `str(record)`; any other value gives `str(record)` |
| Parsing.KeptDistinct | src/logminer_qa/parsing.py:113-115 | nothing is kept twice |
| Parsing.KeptMembers | src/logminer_qa/parsing.py:110-115 | a string is kept exactly when it is non-empty and occurs |
| Parsing.UniqueSpecContents | src/logminer_qa/parsing.py:106-116 | the output has no duplicates and holds exactly the non-blank inputs, stripped |
| Parsing.Unique | src/logminer_qa/parsing.py:106-116 | the one-pass loop with a seen set returns the stripped non-empty items at their first occurrence, in order, none twice |
| Parsing.ParseRecord | src/logminer_qa/parsing.py:74-81 | the message is `_extract_message` of the record and each pattern's matches are de-duplicated by `_unique`, so no account token is empty |
| Privacy.Scale | src/logminer_qa/privacy.py:33-35 | the scale is 1 over `max(epsilon, 1e-3)`, so `0 < scale <= 1000`, exactly 1000 at or below the floor |
| Privacy.RoundHalfEven | src/logminer_qa/privacy.py:39 | `round` gives an integer within one half of the argument, the even one on a tie |
| Privacy.RoundHalfEvenUnique | src/logminer_qa/privacy.py:39 | those two properties determine the rounded value |
| Privacy.Perturb | src/logminer_qa/privacy.py:39 | a noised count is `max(0, round(value + noise))`: at least zero and at least the rounded sum, and equal to one of the two; with zero noise the count clamped at zero |
| Privacy.Noised | src/logminer_qa/privacy.py:36-40 | the i-th key's count is `max(0, round(count + scale * draw_i))`: at least zero and at least the rounded noised count, and equal to one of the two |
| Privacy.AggregateCounts | src/logminer_qa/privacy.py:30-31 | with DP off the result equals the input |
| Privacy.AggregateCountsNoised | src/logminer_qa/privacy.py:33-41 | with DP on the result keeps the input's keys in order and gives the i-th key its count noised by the i-th draw at the floored scale |
| Privacy.AggregateCountsShape | src/logminer_qa/privacy.py:36-41 | the result has exactly the input's keys, and with DP on every count is the rounded noised count clamped at zero |
| Privacy.AggregateHistogram | src/logminer_qa/privacy.py:43-47 | `aggregate_histogram` is `aggregate_counts`; with DP off it returns the buckets |
| Privacy.RatioKeys | src/logminer_qa/privacy.py:54 | both keys of `{"num", "den"}` survive `aggregate_counts`, noised by the first and second draw when DP is on |
| Privacy.PrivatizeRatio | src/logminer_qa/privacy.py:49-56 | with DP on the ratio is never negative; with DP off it is numerator over denominator, with 1 for a zero denominator |
| Privacy.PrivatizeRatioNoised | src/logminer_qa/privacy.py:54-56 | with DP on the ratio is the noised numerator over the noised denominator, or over 1 where that is 0 |
| Privacy.Explain | src/logminer_qa/privacy.py:58-62 | `explain` reports the configured epsilon and delta verbatim, under the keys `epsilon` then `delta` |
| Privacy.Perturbed | src/logminer_qa/privacy.py:36-41 | the reference result keeps each entry's key and noises its count with that entry's draw |
| Privacy.RatioCounts | src/logminer_qa/privacy.py:54 | the dict `privatize_ratio` noises has exactly the keys `num` then `den` |
| Validation.Depth | src/logminer_qa/validation.py:44-56 | `_depth` never returns less than the level it starts at |
| Validation.DepthCapped | src/logminer_qa/validation.py:44-56 | `_depth(x, current, max)` is `current` once past the cap and otherwise `min(current + true height, max + 1)`, the true height counting 0 for scalars and empty containers and one more than the deepest child otherwise |
| Validation.ValidateRecord | src/logminer_qa/validation.py:12-41 | a record is valid exactly when it is not None, not a non-container under strict mode, not a string over 1,000,000 characters, and not a dict nested deeper than 20 or with more than 10,000 keys; None reports "Record is None"; a too-deep dict reports depth 21 whatever its key count |
| Validation.ValidateBatch | src/logminer_qa/validation.py:59-69 | a batch is valid exactly when it has at most `max_records` records; its records are not looked at |
| Validation.DepthItemsCapped | src/logminer_qa/validation.py:52-55 | the depth of a list's items from `current` is `current` plus their greatest height, capped one above the limit |
| Validation.DepthFieldsCapped | src/logminer_qa/validation.py:48-51 | the depth of a dict's values from `current` is `current` plus their greatest height, capped one above the limit |
| LogFormat.KeysWith | src/logminer_qa/log_format.py:53-59 | a non-empty custom field comes first, followed by the aliases in order without it; with no custom field the aliases as they are; no key repeats |
| LogFormat.TimestampKeys | src/logminer_qa/log_format.py:53-59 | the timestamp keys repeat nothing and include every built-in alias |
| LogFormat.MessageKeys | src/logminer_qa/log_format.py:61-67 | the message keys repeat nothing and include every built-in alias |
| LogFormat.SeverityKeys | src/logminer_qa/log_format.py:69-75 | the severity keys repeat nothing and include every built-in alias |
| LogFormat.Unwrap | src/logminer_qa/log_format.py:78-82 | a one-element list gives its element; anything else is returned as it is |
| LogFormat.GetFirstPresent | src/logminer_qa/log_format.py:85-100 | the result is the first key, in order, whose value is present, not None and not blank once unwrapped, with that unwrapped value; every earlier key fails the test; none when no key passes |
| LogFormat.NormalizeRecord | src/logminer_qa/log_format.py:103-108 | a non-dict comes back as it is; a dict keeps its keys in order with every value unwrapped |
| LogFormat.ResolveTimestampKey | src/logminer_qa/log_format.py:111-115 | a timestamp key resolves exactly when some timestamp key is usable, and the key returned is usable |
| LogFormat.ResolveMessageKey | src/logminer_qa/log_format.py:118-122 | a message key resolves exactly when some message key is usable, and the key returned is usable |
| LogFormat.HasRequiredLogFields | src/logminer_qa/log_format.py:125-142 | `(True, None)` exactly when both a timestamp and a message key resolve; a missing timestamp is reported before a missing message |
| Batching.Width | src/logminer_qa/pipeline.py:63 | the effective chunk size is the given size when it is at least 1, and 1 otherwise, since one item already reaches a size below 1 |
| Batching.ChunkedSpec | src/logminer_qa/pipeline.py:58-67 | the chunks concatenate to the input; every chunk is non-empty and at most the size; every chunk but the last has exactly the size |
| Batching.Chunks | src/logminer_qa/pipeline.py:58-67 | `_chunk_iterable` yields exactly the reference chunks, so the chunks concatenate to the input, none is empty or too long, and all but the last are full |
| Batching.ChunkLoop | src/logminer_qa/connectors/base.py:70-81 | the loop `batched` shares with `_chunk_iterable` yields the reference chunks for any size of at least 1 |
| Connectors.SetDefault | src/logminer_qa/connectors/base.py:54 | `setdefault` keeps an existing value, adds a missing key, and changes no other key |
| Connectors.SetIfGiven | src/logminer_qa/connectors/base.py:53-56 | a key is filled from the argument only when the argument is non-empty and the key is missing |
| Connectors.SetTimestamp | src/logminer_qa/connectors/base.py:57-60 | an existing timestamp stays; otherwise the argument when given, else the clock's reading |
| Connectors.FillFields | src/logminer_qa/connectors/base.py:53-60 | event, message and timestamp are filled as above and no other key changes |
| Connectors.MergeMetadata | src/logminer_qa/connectors/base.py:61-62 | with non-empty metadata the payload's `metadata` dict (a new empty one when missing) is updated with it; the call raises exactly when the existing value is not a dict; no other key changes |
| Connectors.MergeMetadataGet | src/logminer_qa/connectors/base.py:61-62 | after the merge a key of the argument has the argument's value and any other key keeps the existing metadata's value |
| Connectors.NormalizeCommonFields | src/logminer_qa/connectors/base.py:44-64 | `_normalize_common_fields`; `NormalizeRaises` states when it raises, `NormalizeKeepsOthers` that no other key changes, and `NormalizeEventMessage`, `NormalizeTimestamp`, `NormalizeSource` and `NormalizeMergesMetadata` what each managed key holds |
| Connectors.NormalizeRaises | src/logminer_qa/connectors/base.py:44-64 | `_normalize_common_fields` raises only when metadata is given and the payload's `metadata` is not a dict |
| Connectors.NormalizeKeepsOthers | src/logminer_qa/connectors/base.py:53-63 | no key other than event, message, timestamp, metadata and source changes |
| Connectors.NormalizeGet | src/logminer_qa/connectors/base.py:53-60 | keys other than `metadata` and `source` end as the filling steps left them |
| Connectors.NormalizeEventMessage | src/logminer_qa/connectors/base.py:53-56 | an existing event or message is never overwritten; a missing one comes from a non-empty argument |
| Connectors.NormalizeTimestamp | src/logminer_qa/connectors/base.py:57-60 | an existing timestamp is never overwritten, and the clock is used only with neither a timestamp argument nor a timestamp key |
| Connectors.NormalizeSource | src/logminer_qa/connectors/base.py:63 | `source` is set to the connector's name only when absent |
| Connectors.NormalizeMergesMetadata | src/logminer_qa/connectors/base.py:61-62 | the metadata argument is merged into what the payload had, the argument's keys winning |
| Pipeline.FixedLabelsCanonical | src/logminer_qa/pipeline.py:198-225 | the four fixed labels (`error_event`, `login_event`, `transaction_event`, `generic_event`) are non-empty, lower-case, space-free and hyphen-free |
| Pipeline.NormalizeEvent | src/logminer_qa/pipeline.py:190 | an explicit event name keeps its length, each character lowered, with spaces and hyphens both becoming underscores, so the label is canonical and hyphen-free |
| Pipeline.TransactionLabel | src/logminer_qa/pipeline.py:195 | a transaction type is lowered with spaces (but not hyphens) turned into underscores, followed by `_event` |
| Pipeline.NonEmptyString | src/logminer_qa/pipeline.py:187-188 | a field counts only when it holds a non-empty string, and then its value is that string |
| Pipeline.MessageLabel | src/logminer_qa/pipeline.py:202-210 | a message can only suggest one of the fixed labels, and a missing or non-string message suggests none |
| Pipeline.ClassifyFields | src/logminer_qa/pipeline.py:185-214 | a dict is labelled by its event name if it has one, else by its transaction type, else by one of the fixed labels |
| Pipeline.ClassifyText | src/logminer_qa/pipeline.py:216-225 | a string record is always given one of the fixed labels |
| Pipeline.ClassifyRecord | src/logminer_qa/pipeline.py:183-225 | every label is non-empty and canonical; non-dicts get a fixed label (`generic_event` unless a string); dicts follow event name, then transaction type, then the fixed labels |
| Pipeline.ClassifyTextPriority | src/logminer_qa/pipeline.py:216-225 | a string record is an error exactly when its lower-cased text has "error", a login exactly when it has "login" and no "error", a transaction when it has only "transaction", and generic otherwise |
| Pipeline.StringRecordClass | src/logminer_qa/pipeline.py:216-225 | a string record's label depends on its text alone |
| Pipeline.ClassifyTextIgnoresCase | src/logminer_qa/pipeline.py:216-225 | lower-casing a string record first does not change its label |
| Pipeline.NormalizeCanonical | src/logminer_qa/pipeline.py:190 | normalizing leaves a canonical, hyphen-free label unchanged |
| Pipeline.NormalizeIdempotent | src/logminer_qa/pipeline.py:190 | normalizing an event name twice gives the same as once |
| Pipeline.ReclassifyStable | src/logminer_qa/pipeline.py:187-190 | a hyphen-free label fed back as `{"event": label}` is classified as itself |
| Pipeline.HyphenFromTransactionType | src/logminer_qa/pipeline.py:193-195 | a label with a hyphen can only come from a dict with no event name whose transaction type has a hyphen |
| Pipeline.TransactionLabelHyphen | src/logminer_qa/pipeline.py:195 | a transaction label contains a hyphen only when the transaction type does, since the `_event` suffix has none |
| Pipeline.HyphenatedKindRelabelled | src/logminer_qa/pipeline.py:190-195 | a hyphenated transaction type keeps its hyphen in the label, while the same label given as an event name loses it, so the two spellings give different labels |
| Pipeline.MinKey | src/logminer_qa/pipeline.py:234 | `sorted(keys)[0]` is one of the keys and no key sorts before it |
| Pipeline.MinKeyUnique | src/logminer_qa/pipeline.py:234 | any key that sorts no later than every key is the one sorting picks |
| Pipeline.JourneyFrom | src/logminer_qa/pipeline.py:229-238 | the loop returns the id given by the first key that yields one, and "" when none does |
| Pipeline.JourneyId | src/logminer_qa/pipeline.py:227-238 | a string `session_id` wins, then a string `journey_id`, then `hashed_fields` as a string or as the string under its least key; non-dicts and everything else give "" |
| Pipeline.Dedup | src/logminer_qa/pipeline.py:271-279 | de-duplication never lengthens, is empty only for no events, keeps the first and last event, and leaves no two equal neighbours |
| Pipeline.DedupIsSurvivors | src/logminer_qa/pipeline.py:271-279 | the result is exactly the events that are first or differ from their predecessor |
| Pipeline.DedupSubsequence | src/logminer_qa/pipeline.py:271-279 | the result is an order-preserving subsequence of the events |
| Pipeline.DedupMembers | src/logminer_qa/pipeline.py:271-279 | the result holds exactly the events that occur |
| Pipeline.DedupNoRepeats | src/logminer_qa/pipeline.py:271-279 | events without equal neighbours come back unchanged |
| Pipeline.DedupIdempotent | src/logminer_qa/pipeline.py:271-279 | de-duplicating twice is de-duplicating once |
| Pipeline.DeduplicateEvents | src/logminer_qa/pipeline.py:271-279 | the loop comparing each event with the last one kept computes the reference de-duplication |
| Pipeline.ShortId | src/logminer_qa/pipeline.py:291 | a journey id is cut to a prefix of at most 32 characters |
| Pipeline.Steps | src/logminer_qa/pipeline.py:287 | one "When the system observes" step per event, in order |
| Pipeline.RenderGherkin | src/logminer_qa/pipeline.py:281-300 | a scenario is empty exactly when there are no events |
| Pipeline.GherkinLines | src/logminer_qa/pipeline.py:293-299 | a scenario's lines are the feature line with the short id, scenario and given lines, one indented step per event, then the closing line |
| Pipeline.RenderedLines | src/logminer_qa/pipeline.py:287-299 | the rendered template is exactly its lines joined by newlines |
| Pipeline.NoNewlineInLines | src/logminer_qa/pipeline.py:293-299 | no line of a scenario contains a newline when neither the id nor any event does |
| Pipeline.GherkinRoundTrip | src/logminer_qa/pipeline.py:281-300 | splitting a rendered scenario at newlines gives back its lines, so step `i` names event `i`, whenever id and events hold no newline |
| Pipeline.PickedStep | src/logminer_qa/pipeline.py:250-263 | each journey adds one (id, signature) pair exactly when it is non-empty and its signature is new |
| Pipeline.PickedOccurs | src/logminer_qa/pipeline.py:250-260 | a signature is kept exactly when some non-empty journey de-duplicates to it |
| Pipeline.PickedDistinct | src/logminer_qa/pipeline.py:258-260 | kept signatures are pairwise distinct: one scenario per journey pattern |
| Pipeline.PickedOrigin | src/logminer_qa/pipeline.py:250-261 | every kept pair comes from a non-empty journey with that id and signature, and no earlier journey had that signature |
| Pipeline.PickedFirst | src/logminer_qa/pipeline.py:250-261 | every kept pair names the first journey with its signature |
| Pipeline.PickedNonEmpty | src/logminer_qa/pipeline.py:251-252 | no kept signature is empty |
| Pipeline.JourneyScenarios | src/logminer_qa/pipeline.py:250-263 | one non-empty scenario per kept pair, rendered from its id and signature, in journey order |
| Pipeline.GenerateTests | src/logminer_qa/pipeline.py:240-269 | the tests are the journey scenarios, then the compliance scenarios, then the fraud scenarios, one per kept journey and per finding |
| Compliance.Label | src/logminer_qa/compliance.py:74-75 | the event label is `None` for a record without analysis, the analysis's `event_label` when the analysis is a dict, and an error exactly when the analysis is present but not a dict |
| Compliance.StringValues | src/logminer_qa/compliance.py:81-84 | every string value of the record, in field order, is appended after a space, and other values are skipped |
| Compliance.MessageField | src/logminer_qa/compliance.py:78-80 | the searched text starts from the message, "" when there is none and the string itself when it is a string |
| Compliance.AuditEvidence | src/logminer_qa/compliance.py:86-90 | a record gives audit evidence exactly when it is labelled a transaction event and its timestamp or its hashed fields are falsy |
| Compliance.Somes | src/logminer_qa/compliance.py:69-96 | an evidence list has at most one entry per record |
| Compliance.SomesNonEmpty | src/logminer_qa/compliance.py:86-96 | an evidence list is non-empty exactly when some record contributed to it |
| Compliance.SomesElements | src/logminer_qa/compliance.py:86-96 | an evidence list holds exactly the entries records contributed |
| Compliance.AuditColumn | src/logminer_qa/compliance.py:73-90 | each record contributes its audit evidence, if any |
| Compliance.PciColumn | src/logminer_qa/compliance.py:92-93 | a record contributes to the PCI list exactly when its text holds an account-like number, and always the same message |
| Compliance.GdprColumn | src/logminer_qa/compliance.py:95-96 | a record contributes to the GDPR list exactly when it is a generic event mentioning "data access" without hashed fields, and always the same message |
| Compliance.Findings | src/logminer_qa/compliance.py:98-124 | at most three findings, in the order audit, PCI, GDPR; each rule reported exactly when its list is non-empty and carrying that list as evidence |
| Compliance.Evaluate | src/logminer_qa/compliance.py:67-126 | `evaluate` fails exactly when some record's analysis is not a dict, and otherwise reports at most three findings in rule order |
| Compliance.ReportedIff | src/logminer_qa/compliance.py:98-124 | a rule is reported exactly when its evidence list is non-empty |
| Compliance.EvaluateAudit | src/logminer_qa/compliance.py:86-106 | the audit rule is reported exactly when some transaction record lacks a timestamp or hashed fields |
| Compliance.EvaluatePci | src/logminer_qa/compliance.py:92-115 | the PCI rule is reported exactly when some record's text holds an account-like number |
| Compliance.EvaluateGdpr | src/logminer_qa/compliance.py:95-124 | the GDPR rule is reported exactly when some generic data-access event lacks hashed fields |
| Compliance.PciEvidenceMessages | src/logminer_qa/compliance.py:92-93 | every PCI evidence entry is the fixed unmasked-account message |
| Compliance.EvidenceItems | src/logminer_qa/compliance.py:131 | at most the first five evidence items are listed, each prefixed by "- " |
| Compliance.ScenarioShape | src/logminer_qa/compliance.py:132-141 | a stripped scenario opens with its full header; the detail line follows exactly when there is detail, and otherwise the scenario is the header alone |
| Compliance.JoinHead | src/logminer_qa/compliance.py:131 | joining evidence lines never drops the first line |
| Compliance.EvidenceTextEmpty | src/logminer_qa/compliance.py:131-139 | the evidence text is non-empty exactly when the finding has evidence |
| Compliance.HeaderVisible | src/logminer_qa/compliance.py:132-137 | the header begins and ends with a visible character, so stripping leaves it whole |
| Compliance.ComplianceScenarioShape | src/logminer_qa/compliance.py:128-142 | a compliance scenario opens with its header and continues with the evidence line exactly when the finding has evidence |
| Compliance.GenerateTests | src/logminer_qa/compliance.py:128-142 | one scenario per finding, in finding order |
| Fraud.ExtractTimestamp | src/logminer_qa/compliance.py:50-59 | a non-string timestamp gives nothing; a string is read as an ISO date after dropping one trailing `Z` |
| Fraud.RemoveCommas | src/logminer_qa/compliance.py:240 | the result has no comma, is no longer than the input, and a comma-free value is left unchanged |
| Fraud.ParseAmounts | src/logminer_qa/compliance.py:236-243 | at most one amount per monetary value, and none when no value reads as a number once its commas are removed |
| Fraud.ValueStrings | src/logminer_qa/compliance.py:249 | each hashed value is taken as `str` renders it, in field order |
| Fraud.HashedFields | src/logminer_qa/compliance.py:161 | truthy hashed fields are used as they are, and anything falsy becomes the empty dict |
| Fraud.ExtractAccounts | src/logminer_qa/compliance.py:246-250 | the accounts are exactly the non-empty parsed tokens and hashed values, each once; truthy hashed fields that are not a dict raise |
| Fraud.Observe | src/logminer_qa/compliance.py:158-167 | one record fails exactly when its analysis is not a dict or its truthy hashed fields are not a dict; otherwise its accounts are distinct and its time and failed-login flag are read from it |
| Fraud.Observations | src/logminer_qa/compliance.py:158 | `zip` observes records and parsed records pairwise and stops at the shorter list |
| Fraud.Collect | src/logminer_qa/compliance.py:158-178 | when no record raises, the loop has observed every record, in order |
| Fraud.CollectErr | src/logminer_qa/compliance.py:158-178 | the loop raises exactly when some record raises, and then with the first such record's error |
| Fraud.Pairs | src/logminer_qa/compliance.py:169-174 | every account of a record is paired with the same time or total |
| Fraud.Extended | src/logminer_qa/compliance.py:171 | an account has no entry only when it had none and nothing is appended |
| Fraud.ExtendedNothing | src/logminer_qa/compliance.py:171 | appending no times changes nothing |
| Fraud.ExtendedTwice | src/logminer_qa/compliance.py:171 | appending one time and then more is appending them together |
| Fraud.AddEventsGet | src/logminer_qa/compliance.py:169-171 | after the appends each account holds its earlier times followed by its recorded times, and only recorded accounts gain an entry |
| Fraud.AddHighValuesGet | src/logminer_qa/compliance.py:172-174 | each account ends with the largest of its recorded totals, which never lose to the 0.0 default because they exceed 5000 |
| Fraud.MaxOption | src/logminer_qa/compliance.py:174 | the larger of two optional totals is one of them and at least both |
| Fraud.AddFailuresGet | src/logminer_qa/compliance.py:177-178 | each key ends with its earlier count plus the number of times it is counted |
| Fraud.AddEventsDistinct | src/logminer_qa/compliance.py:171 | `setdefault` never repeats an account |
| Fraud.AddFailuresDistinct | src/logminer_qa/compliance.py:178 | counting never repeats a key |
| Fraud.SortTimes | src/logminer_qa/compliance.py:254 | `sorted` gives the same times in non-decreasing order |
| Fraud.ExceedsVelocityScan | src/logminer_qa/compliance.py:252-258 | the scan answers yes exactly when, in the sorted times, some time and the third after it are at most ten minutes apart |
| Fraud.BurstAnyFour | src/logminer_qa/compliance.py:255-256 | in sorted times this is the same as any four times fitting within ten minutes |
| Fraud.OrderedFirstLeast | src/logminer_qa/compliance.py:254 | the first of sorted times is the smallest |
| Fraud.OrderedTail | src/logminer_qa/compliance.py:254 | dropping the first of sorted times leaves the other times, still sorted |
| Fraud.SameHeadTail | src/logminer_qa/compliance.py:254 | lists agreeing on their first element and on the rest are equal |
| Fraud.OrderedUnique | src/logminer_qa/compliance.py:254 | two sorted lists of the same times are the same list, so sorting is determined by the times |
| Fraud.ExceedsVelocityOrderFree | src/logminer_qa/compliance.py:252-258 | the velocity verdict depends only on which times were recorded, not on their order |
| Fraud.VelocityAccountsMember | src/logminer_qa/compliance.py:180-182 | an account is a velocity account exactly when it has recorded times that exceed the velocity |
| Fraud.Suspects | src/logminer_qa/compliance.py:205 | the suspect accounts; `SuspectsMember` and `SuspectsDistinct` state that a key is listed exactly when it is counted at least three times, and none twice |
| Fraud.SuspectsMember | src/logminer_qa/compliance.py:205 | a key is a suspect exactly when it is counted at least three times |
| Fraud.SuspectMetrics | src/logminer_qa/compliance.py:213 | the failed-login metrics list exactly the suspects, each with its count as a float |
| Fraud.Assemble | src/logminer_qa/compliance.py:183-215 | at most three findings in the order velocity, high value, failed logins; each reported exactly when its list is non-empty and built from that list |
| Fraud.FindingsOf | src/logminer_qa/compliance.py:180-217 | at most three findings, in category order |
| Fraud.Evaluate | src/logminer_qa/compliance.py:150-217 | with timestamps compared as integers, `evaluate` fails exactly when some zipped record raises, and otherwise reports at most three findings |
| Fraud.FindingsOfVelocity | src/logminer_qa/compliance.py:180-192 | the velocity finding lists exactly the velocity accounts |
| Fraud.VelocityFinding | src/logminer_qa/compliance.py:169-192 | an account is in the velocity finding exactly when it has recorded times, four of which fall within ten minutes |
| Fraud.HighValuePairsPositive | src/logminer_qa/compliance.py:172-174 | every recorded high-value total exceeds 5000 |
| Fraud.FindingsOfHighValue | src/logminer_qa/compliance.py:194-203 | the high-value finding lists exactly the high-value accounts, and its metrics are the high-value dict |
| Fraud.HighValueFinding | src/logminer_qa/compliance.py:169-203 | an account is in the high-value finding exactly when one of its records totals more than 5000, and its metric is its largest such total |
| Fraud.FindingsOfFailedLogin | src/logminer_qa/compliance.py:205-215 | the failed-login finding lists exactly the suspects, and its metrics are their counts |
| Fraud.SuspectMetricsGet | src/logminer_qa/compliance.py:213 | a suspect's metric is its count |
| Fraud.FailedLoginFinding | src/logminer_qa/compliance.py:176-215 | an account is in the failed-login finding exactly when it is counted in at least three failed or denied logins, and its metric is that count |
| Fraud.SuspectsDistinct | src/logminer_qa/compliance.py:205 | no suspect is listed twice |
| Fraud.GenerateTests | src/logminer_qa/compliance.py:219-233 | one scenario per finding, in finding order |
| Fraud.FraudHeaderVisible | src/logminer_qa/compliance.py:223-229 | the header begins and ends with a visible character, so stripping leaves it whole |
| Fraud.FraudScenarioShape | src/logminer_qa/compliance.py:219-233 | a fraud scenario opens with its header and continues with the account line exactly when the joined account list is non-empty |
| Ci.Outcomes | src/logminer_qa/ci.py:41-50 | a generator over a list either raises the first exception a test raises, with every earlier test succeeding, or yields every test's result in order |
| Ci.Count | src/logminer_qa/ci.py:41-50 | `sum(1 for …)` is at most the number of items, zero exactly when no test holds, and the full count exactly when all hold |
| Ci.CountAppend | src/logminer_qa/ci.py:42-50 | the high-severity total of two lists is the sum of their counts, which PipelineSummary uses to count the compliance and fraud flags as one list |
| Ci.IsHighIgnoresCase | src/logminer_qa/ci.py:45 | matching "critical" and "high" ignores letter case |
| Ci.Sizes | src/logminer_qa/ci.py:71 | each cluster is paired with the number of its indices, in dict order |
| Ci.Largest | src/logminer_qa/ci.py:71 | at most three clusters are listed, all of them when there are fewer |
| Ci.LargestAreClusters | src/logminer_qa/ci.py:71 | every listed cluster is one of the dict's clusters |
| Ci.LargestDescending | src/logminer_qa/ci.py:71 | listed clusters come largest first |
| Ci.LargestMaximal | src/logminer_qa/ci.py:71 | no unlisted cluster is larger than a listed one, and with at most three clusters all are listed |
| Ci.SummariseFrom | src/logminer_qa/ci.py:70-78 | the overview counts every cluster and lists the largest three with their sizes and top terms; it raises exactly when the clusters are not a dict, some cluster has no length, or a listed cluster needs non-dict top terms |
| Ci.SummariseClustersAsWritten | src/logminer_qa/ci.py:68-78 | as written, a summary that is not a mapping raises on `get`, and a mapping is summarised from its clusters and top terms |
| Ci.SummariseClusters | src/logminer_qa/ci.py:68-78 | with the mapping fallback applied throughout, a non-mapping summary reports no clusters, and a mapping is summarised as written |
| Ci.NonMappingSummary | src/logminer_qa/ci.py:69-70 | for every summary that is not a mapping the code as written raises while the intended version reports zero clusters |
| Ci.GenerateSummary | src/logminer_qa/ci.py:32-59 | the summary is produced exactly when records and findings are readable, the cluster summary is present and `_summarise_clusters` as written accepts it (a mapping whose entries read), and the sanitized logs are present; it counts the sanitized logs, the anomalies and the high or critical findings, and passes the findings through |
| Ci.AnomalyTest | src/logminer_qa/ci.py:39 | a record is read exactly when it is a dict; anything else raises AttributeError on `get` |
| Ci.HighTest | src/logminer_qa/ci.py:40-48 | a finding that is not a dict raises AttributeError on `get`; a finding counts as high only when its severity is present, a string, and critical or high once lower-cased |
| Ci.ComplianceDicts | src/logminer_qa/compliance.py:23-29 | each compliance finding is stored as its `as_dict`, in order |
| Ci.FraudDicts | src/logminer_qa/compliance.py:40-47 | each fraud finding is stored as its `as_dict`, in order |
| Ci.ParsedDicts | src/logminer_qa/pipeline.py:169 | every parsed record is stored as a dict |
| Ci.HighRules | src/logminer_qa/compliance.py:98-124 | a compliance finding is high or critical exactly when its rule is not GDPR |
| Ci.VelocityFlags | src/logminer_qa/compliance.py:183-215 | a fraud finding is high or critical exactly when it is a velocity finding |
| Ci.LowerUnchanged | src/logminer_qa/ci.py:45 | a severity without capitals is its own lower-case form |
| Ci.HighSeverityNames | src/logminer_qa/ci.py:45 | "high" and "critical" count as high severity, "medium" does not |
| Ci.SeveritySecond | src/logminer_qa/ci.py:45 | a finding dict whose severity is its second entry is read by that severity |
| Ci.RuleHigh | src/logminer_qa/compliance.py:98-124 | only the GDPR rule has a severity below high |
| Ci.ComplianceHigh | src/logminer_qa/ci.py:42-45 | a stored compliance finding never raises, and counts exactly when its rule is not GDPR |
| Ci.CategoryHigh | src/logminer_qa/compliance.py:183-215 | only velocity findings are of high severity |
| Ci.FraudHigh | src/logminer_qa/ci.py:46-49 | a stored fraud finding never raises, and counts exactly when it is a velocity finding |
| Ci.OutcomesAll | src/logminer_qa/ci.py:41-50 | where no test raises, the outcomes are the tests' results |
| Ci.ComplianceOutcomes | src/logminer_qa/ci.py:42-45 | stored compliance findings are all readable, and the high ones are all but the GDPR ones |
| Ci.FraudOutcomes | src/logminer_qa/ci.py:46-49 | stored fraud findings are all readable, and the high ones are the velocity findings |
| Ci.GetOrField | src/logminer_qa/ci.py:69-70 | `get` with a default returns a value that is present |
| Ci.SummaryOfAsDict | src/logminer_qa/ci.py:68-78 | summarising an `as_dict` result reads its buckets and top terms |
| Ci.BucketItem | src/logminer_qa/ci.py:71-77 | each cluster the summary sees is a label in use, sized by the number of messages carrying it |
| Ci.ClusterOverviewOfSummary | src/logminer_qa/ci.py:68-78 | the pipeline's cluster summary always summarises, with one cluster per distinct label, each listed cluster a label in use counted by its messages |
| Ci.LargestSingle | src/logminer_qa/ci.py:71 | a single cluster is listed as it is |
| Ci.OneClusterOverview | src/logminer_qa/ci.py:70-78 | one cluster holding all `n` indices, without top terms, is listed with count `n` and an empty term list |
| Ci.FewMessagesOverview | src/logminer_qa/clustering.py:51-59 | with fewer messages than the clustering minimum, the overview lists the single cluster "-1" holding every message |
| Ci.SummaryWhenReadable | src/logminer_qa/ci.py:32-59 | an artifact whose parts are present and readable, with a cluster summary `_summarise_clusters` accepts as written, always has a summary, which counts the sanitized logs, the high findings and the clusters |
| Ci.SummaryOfNonMapping | src/logminer_qa/ci.py:51-56 | an artifact with readable records and findings but a cluster summary that is not a mapping (such as `None`) makes `generate_summary` raise AttributeError, where the corrected summariser reports no clusters |
| Ci.PipelineSummary | src/logminer_qa/pipeline.py:159-175 | the summary of an artifact the pipeline builds never raises; it counts every sanitized record, the non-GDPR compliance findings plus the velocity findings (one count over both lists' flags, by CountAppend), and one cluster per distinct label |
| Clustering.Grown | src/logminer_qa/clustering.py:24 | `setdefault(...).append(i)` extends a bucket's indices, or starts an empty one, with `i` |
| Clustering.Names | src/logminer_qa/clustering.py:23-24 | each label is named by its decimal string |
| Clustering.IndicesWith | src/logminer_qa/clustering.py:22-24 | the indices carrying a name, ascending, complete and only those |
| Clustering.LabelledSnoc | src/logminer_qa/clustering.py:23-24 | one more label uses exactly one more name |
| Clustering.BucketsContents | src/logminer_qa/clustering.py:21-28 | every name in use has a bucket holding exactly its indices in ascending order, and no other name has one |
| Clustering.BucketsDistinct | src/logminer_qa/clustering.py:22-24 | no bucket name repeats |
| Clustering.PlacedExactly | src/logminer_qa/clustering.py:21-28 | index `i` sits in the bucket of label `l` exactly when message `i` carries label `l` |
| Clustering.PutTotal | src/logminer_qa/clustering.py:24 | replacing a bucket changes the total count by the difference in size |
| Clustering.BucketsTotal | src/logminer_qa/clustering.py:21-28 | the bucket sizes add up to the number of messages |
| Clustering.SingleBucket | src/logminer_qa/clustering.py:21-28 | when all messages carry one name there is a single bucket holding every index |
| Clustering.BucketsJson | src/logminer_qa/clustering.py:25-28 | each bucket is reported under its name as a list of as many numbers as it has indices |
| Clustering.TermsJson | src/logminer_qa/clustering.py:27 | each cluster's top terms are reported under its id as a list |
| Clustering.AsDict | src/logminer_qa/clustering.py:21-28 | `as_dict` reports the buckets under "clusters" and the top terms under "top_terms" |
| Clustering.ClusterFewMessages | src/logminer_qa/clustering.py:51-59 | with fewer messages than the minimum, every message is labelled -1 and there are no top terms |
| Clustering.UnclusteredBuckets | src/logminer_qa/clustering.py:21-28 | unclustered messages are reported as the single bucket "-1" holding every index |
| Strings.ConsNoDuplicates | src/logminer_qa/compliance.py:250 | a new head on a duplicate-free list keeps it duplicate-free, as building a set does |
| Strings.TrimStart | src/logminer_qa/compliance.py:141 | the left-stripped string is a suffix whose dropped prefix is all whitespace and which starts with a visible character |
| Strings.TrimEnd | src/logminer_qa/compliance.py:141 | the right-stripped string is a prefix whose dropped suffix is all whitespace and which ends with a visible character |
| Strings.TrimStartDrops | src/logminer_qa/compliance.py:141 | what left-stripping drops is blank |
| Strings.TrimEndDrops | src/logminer_qa/compliance.py:141 | what right-stripping drops is blank |
| Strings.StripPiece | src/logminer_qa/compliance.py:141 | a stripped string is a contiguous piece of the input between a blank prefix and a blank suffix |
| Strings.StripEmpty | src/logminer_qa/log_format.py:97 | stripping gives the empty string exactly when the input is blank |
| Strings.StripSpec | src/logminer_qa/compliance.py:141 | a stripped string is a contiguous piece of the input with no whitespace at either end, and it is empty exactly when the input is blank |
| Strings.StripKeepsPrefix | src/logminer_qa/compliance.py:132-141 | stripping text that opens with a visibly bounded part keeps that part whole, and removes a blank remainder |
| Strings.Lower | src/logminer_qa/pipeline.py:204 | lowering keeps the length and lowers each character |
| Strings.ReplaceChar | src/logminer_qa/pipeline.py:190 | replacing one character by another keeps the length and changes exactly its occurrences |
| Strings.StrLeReflexive | src/logminer_qa/pipeline.py:234 | the string order relates every string to itself |
| Strings.StrLeTotal | src/logminer_qa/pipeline.py:234 | any two strings are ordered one way or the other |
| Strings.StrLeAntisymmetric | src/logminer_qa/pipeline.py:234 | strings ordered both ways are equal |
| Strings.StrLeTransitive | src/logminer_qa/pipeline.py:234 | the string order is transitive |
| Strings.DigitChar | src/logminer_qa/clustering.py:24 | a digit is rendered as the character with that value |
| Strings.NatToString | src/logminer_qa/clustering.py:24 | `str` of a natural number is a non-empty string of digits without a leading zero |
| Strings.NatToStringRoundTrip | src/logminer_qa/sanitizer.py:46-47 | reading back the decimal rendering of a list index gives the index |
| Strings.IntToString | src/logminer_qa/clustering.py:24 | `str` of an integer starts with a minus exactly when it is negative, followed by the digits of its magnitude |
| Strings.IntToStringInjective | src/logminer_qa/clustering.py:24 | different labels get different bucket names |
| Strings.LowerIdempotent | src/logminer_qa/pipeline.py:217 | lowering twice is lowering once |
| Strings.Split | src/logminer_qa/pipeline.py:288 | splitting always gives at least one piece |
| Strings.SplitNoSep | src/logminer_qa/pipeline.py:288 | a string without the separator splits into itself alone |
| Strings.SplitAfter | src/logminer_qa/pipeline.py:288 | splitting at the first separator gives the piece before it and the split of the rest |
| Strings.SplitJoin | src/logminer_qa/pipeline.py:288 | splitting a join on a character no part contains gives the parts back |
| Dicts.Keys | src/logminer_qa/sanitizer.py:97-103 | the keys of a dict, one per entry, in insertion order |
| Dicts.Get | src/logminer_qa/pipeline.py:187 | `get` finds a value exactly when the key is present |
| Dicts.GetDistinct | src/logminer_qa/pipeline.py:187 | in a dict, `get` of an entry's key finds that entry's value |
| Dicts.Put | src/logminer_qa/clustering.py:24 | assignment grows the dict by one entry exactly when the key is new |
| Dicts.PutGet | src/logminer_qa/clustering.py:24 | after assignment the key maps to the new value and every other key is unchanged |
| Dicts.HasKeyTail | src/logminer_qa/pipeline.py:187 | a key other than the first is present exactly when it is in the rest |
| Dicts.PutKeyOrder | src/logminer_qa/sanitizer.py:97-103 | assignment keeps the key order, appending a new key at the end |
| Dicts.PutKeys | src/logminer_qa/sanitizer.py:97-103 | assignment keeps the key order, appends only a new key, and adds no key but the assigned one |
| Dicts.GetLast | src/logminer_qa/clustering.py:24 | in a dict a lookup finds the last entry or whatever the entries before it hold |
| Dicts.PutAbsent | src/logminer_qa/clustering.py:24 | assigning a new key appends its entry |
| Dicts.PutDistinct | src/logminer_qa/clustering.py:24 | assignment never repeats a key |
| Dicts.UpdateGet | src/logminer_qa/sanitizer.py:97-98 | after `update` every key of the argument has its value, and every other key keeps its old value |
| Dicts.UpdateKeys | src/logminer_qa/sanitizer.py:97-98 | `update` never repeats a key, and its keys are those of both dicts |
| Sorting.Insert | src/logminer_qa/sanitizer.py:159 | inserting adds exactly the element |
| Sorting.InsertSorted | src/logminer_qa/sanitizer.py:159 | inserting into an ordered list keeps it ordered |
| Sorting.InsertAbove | src/logminer_qa/sanitizer.py:159 | inserting an element above a bound among elements above it keeps all above it |
| Sorting.InsertWithKey | src/logminer_qa/sanitizer.py:159 | inserting adds the element only to the run of its own key, at its front |
| Sorting.SortBy | src/logminer_qa/sanitizer.py:159 | `sorted` gives an ordered permutation of its input that keeps equal-key elements in their original order |
| Sorting.SortSortedUnchanged | src/logminer_qa/sanitizer.py:159 | sorting an ordered list leaves it unchanged |
| Sorting.WithKeyHead | src/logminer_qa/sanitizer.py:159 | the first element with a key heads that key's run |
| Sorting.WithKeyMembers | src/logminer_qa/sanitizer.py:159 | every element of a key's run is an input element with that key |
| Sorting.WithKeyHeadIndex | src/logminer_qa/sanitizer.py:159 | a key's run starts with the first input element carrying that key |
| Json.GetField | src/logminer_qa/pipeline.py:187 | `record.get(key)` is `None` for a missing key |
| Json.StringsToJson | src/logminer_qa/sanitizer.py:102-103 | a dict of strings becomes a JSON object with the same keys and string values, in order |
| Json.Str | src/logminer_qa/compliance.py:80 | `str` leaves a string as it is and spells an integer in decimal |

## Left out

- File I/O is not modelled. This covers `sanitize_json_lines`, `write_summary` and the token store's file reads and writes. A store file is modelled by what it holds: missing, unparsable, a JSON object, or other JSON.
- The entry points and ingestion are not modelled: the CLI, the server and `aggregate_logs`. The ELK, Datadog and local connectors are not modelled either; they are network and file I/O.
- `process_logs` is not modelled. It glues the ML stages together. `Ci.PipelineArtifact` models only the artifact it returns, as `generate_summary` reads it.
- The machine-learning stages are not modelled: journey analysis (Keras), embeddings (sentence-transformers), anomaly scoring (IsolationForest), and the TF-IDF and k-means fit of `cluster_messages`. They are numeric library code.
- The regular expressions are left out. The sanitizer's patterns, `ACCOUNT_PATTERN` and the parser's patterns are oracles, because Dafny has no regex engine. The oracle's matches must satisfy `0 <= start < end <= |text|`; none of the default patterns matches the empty string.
- blake2b, the keyed hash of `_hash_value` and the token encoder are parameters. Hash functions are not modelled.
- Reading the secret from the environment is modelled by passing the variable's value, or its absence, as a parameter.
- The `threading.Lock` of `TokenStore` is not modelled. Each store operation is one atomic step, and calls are sequential.
- Laplace sampling (`laplace_noise`) is not modelled; the draws are an input. Note that the sampler as written takes `log(0)` when `random()` returns 0.
- Floating point inside the differential-privacy arithmetic and the fraud engine's parsed amounts and metrics is modelled as reals. Rounding half to even is modelled; float overflow and precision are not.
- Numbers inside records are integers only (`Json.JNum` holds an `int`), so no record field can hold a float. This leaves out the `anomaly_score` that `process_logs` writes into every parsed record and analysis payload (pipeline.py:141-147), float fields of input logs such as amounts, and the float `metrics` of a fraud finding, which `Ci.FraudDicts` renders only through its `metrics` parameter. It also leaves out how Python spells a float: `str` of a float (`Json.Str`, the searched text of compliance.py:80, `Parsing.ExtractMessage` of a float record) and the type name "float" that strict `validate_record` reports (validation.py:23-25).
- Timestamps are integers (microseconds), produced by the `fromIso` parameter in place of `datetime.fromisoformat`.
- `_extract_accounts` is modelled as a pure function. In the source it extends `parsed["account_tokens"]` in place, which aliases the parsed record; that side effect is not modelled.
- Fraud.ExtractAccounts: the listing order of the de-duplicated accounts is left open, because the source builds them from a Python set, whose iteration order is not defined. Only membership and distinctness are stated.
- Fraud.ParseAmounts: states only that at most one amount comes from each value and none from values that do not parse. The amounts are used only through their sum.
- Ci.Largest: does not state the order of equal-sized clusters. The stable sort keeps them in dict order; `Sorting.SortBy` states that stability in general.
- Clustering.ClusterFewMessages: returns `None` for the branch that runs the k-means fit, which is not modelled.
- Strings.Lower: lowers ASCII letters only. Python's `str.lower` also lowers other scripts, and Unicode case folding is not modelled.
- Lengths are counted in code points, as Python's `len` does on `str`. The byte length of the UTF-8 encoding is not modelled.
- Fraud.Evaluate: timestamps are compared as integers, so the model never raises while ordering an account's events. In the source a timestamp ending in "Z" loses the "Z" and parses to a naive datetime, one with an offset such as "+00:00" parses to an aware one, and when one account has both, `sorted` at compliance.py:254 raises TypeError.
- TokenStores.Open: a store file's JSON object is modelled with string values only. In the source a `null` value reads as missing, so `get_token` mints a new token for it, and any other non-string value is handed back as the token itself.
- Parsing.ParseRecord: the spaCy entities and keywords (parsing.py:82-91) are not modelled. They come from the language model, which is outside the core, and the model's parsed record has no such fields.
- Decimal digits follow Unicode 15.0, the version of Python 3.12 and 3.13. A later Python also reads the digits of later Unicode versions as digits.
- Compliance.Evaluate and Fraud.Evaluate take dict records. The pipeline passes only dicts, so a non-dict record in these engines is not modelled.
- Tuples are not modelled. JSON has none, so `_unwrap_value`'s one-element tuple case is the one-element list case.
- The unused `anomaly_scores` list of `generate_summary` is not modelled; it has no effect on the result.
- `SanitizerConfig.referential_store_path`, `token_prefix` and `token_suffix` are not modelled, because the code never passes them to the store. `SanitizationLayer` builds a default store with no path.

## Findings

| source | as written | input that shows it | evidently intended | confidence | as-written member | corrected member |
|---|---|---|---|---|---|---|
| src/logminer_qa/sanitizer.py:114-125 | `_apply_path` reads every path segment that parses as an integer as a list index, including a dict key such as `"42"` | `{"42": "call 5551234567"}`: the final write inserts the int key `42` while the leaves are still being iterated, so the next step raises RuntimeError. With `{"42": {"m": "call 5551234567"}}`, `target["42"]` is looked up as `target[42]` and raises KeyError | a segment is a list index only when the container being entered is a list | not executed | RecordSanitizer.NumericKeyBreaksAsWritten | RecordSanitizer.SanitizeRecordByKind |
| src/logminer_qa/ci.py:69-70 | `_summarise_clusters` falls back to no clusters when the summary is not a mapping (line 69), but line 70 calls `get` on it all the same | any non-mapping summary, such as `None`, raises AttributeError; `generate_summary` of an artifact with `cluster_summary=None` raises it too (`Ci.SummaryOfNonMapping`) | a summary that is not a mapping reports zero clusters | not executed | Ci.SummariseClustersAsWritten | Ci.SummariseClusters |
