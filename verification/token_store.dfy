/** The referential token store: a value-to-token map that hands every
    distinct sensitive value one stable token, counts tokens minted since the
    last write, and writes the whole map to its file once a batch is full or
    on `flush`. The file is modelled by what it holds; the blake2b encoder is
    a parameter. Each operation is one atomic step (the lock is not modelled). */
module TokenStores {
  import opened Wrappers

  /** The constructor arguments: the store file (if any), the token affixes
      and the number of new tokens that triggers a write. */
  datatype StoreConfig = StoreConfig(path: Option<string>, prefix: string, suffix: string, batchSize: int)

  /** `TokenStore()` as the sanitization layer builds it: no file, so nothing
      is ever written. */
  const DefaultConfig: StoreConfig := StoreConfig(None, "[TOKEN_", "]", 100)

  /** What the store file holds: nothing, text that is not JSON, a JSON object
      of value/token pairs, or some other JSON value. */
  datatype StoreFile = Missing | Unparsable | JsonObject(entries: map<string, string>) | OtherJson

  /** The store's state: `_mapping`, `_dirty_count` and the file's content. */
  datatype TokenStore = TokenStore(config: StoreConfig, mapping: map<string, string>, dirty: int, file: StoreFile)

  /** The digest function (`blake2b(..., digest_size=12).hexdigest().upper()`
      by default). */
  type Encoder = string -> string

  /** The value/token pairs a file holds. */
  function Snapshot(f: StoreFile): map<string, string>
  {
    if f.JsonObject? then f.entries else map[]
  }

  /** `__post_init__`: with a path, a file holding a JSON object becomes the
      initial map, any other JSON value is ignored, and text that is not JSON
      raises. */
  function Open(config: StoreConfig, file: StoreFile): (r: Result<TokenStore>)
    ensures r.Err? <==> config.path.Some? && file.Unparsable?
    ensures r.Ok? ==> r.value.config == config && r.value.dirty == 0 && r.value.file == file
    ensures r.Ok? && config.path.Some? && file.JsonObject? ==> r.value.mapping == file.entries
    ensures r.Ok? && (config.path.None? || !file.JsonObject?) ==> r.value.mapping == map[]
  {
    if config.path.None? then Ok(TokenStore(config, map[], 0, file))
    else
      match file
      case Missing => Ok(TokenStore(config, map[], 0, file))
      case Unparsable => Err(DecodeError)
      case JsonObject(m) => Ok(TokenStore(config, m, 0, file))
      case OtherJson => Ok(TokenStore(config, map[], 0, file))
  }

  /** `_make_token`: prefix, digest, suffix. */
  function MakeToken(config: StoreConfig, enc: Encoder, value: string): (t: string)
    ensures |t| == |config.prefix| + |enc(value)| + |config.suffix|
    ensures t[..|config.prefix|] == config.prefix && t[|t| - |config.suffix|..] == config.suffix
    ensures t[|config.prefix|..|t| - |config.suffix|] == enc(value)
  {
    config.prefix + enc(value) + config.suffix
  }

  /** What `_default_encoder` returns: a 12-byte blake2b digest in hex, upper
      case, so 24 characters from `0-9A-F`. */
  predicate DefaultDigest(d: string)
  {
    |d| == 24 && forall i :: 0 <= i < |d| ==> '0' <= d[i] <= '9' || 'A' <= d[i] <= 'F'
  }

  /** A text the parser's account-token pattern `\[TOKEN_[A-Z0-9]+\]`
      matches in full. */
  predicate TokenShaped(t: string)
  {
    && |t| >= 9 && t[..7] == "[TOKEN_" && t[|t| - 1] == ']'
    && forall i :: 7 <= i < |t| - 1 ==> 'A' <= t[i] <= 'Z' || '0' <= t[i] <= '9'
  }

  /** A default token is `[TOKEN_`, the 24 digest characters and `]`, which
      is the shape the parser looks for. */
  lemma DefaultTokenShape(enc: Encoder, value: string)
    requires DefaultDigest(enc(value))
    ensures |MakeToken(DefaultConfig, enc, value)| == 32
    ensures TokenShaped(MakeToken(DefaultConfig, enc, value))
  {
    var t := MakeToken(DefaultConfig, enc, value);
    var d := enc(value);
    forall i | 7 <= i < |t| - 1
      ensures 'A' <= t[i] <= 'Z' || '0' <= t[i] <= '9'
    {
      assert t[i] == d[i - 7];
    }
  }

  /** `_persist`: the whole map replaces the file's content; without a path
      nothing happens. */
  function Persist(s: TokenStore): (r: TokenStore)
    ensures r.config == s.config && r.mapping == s.mapping && r.dirty == s.dirty
    ensures s.config.path.Some? ==> Snapshot(r.file) == s.mapping
    ensures s.config.path.None? ==> r.file == s.file
  {
    if s.config.path.None? then s else s.(file := JsonObject(s.mapping))
  }

  /** `get_token`: the recorded token of a known value, or a fresh token that
      is recorded, counted, and written out when the batch is full. */
  function GetToken(enc: Encoder, s: TokenStore, value: string): (r: (string, TokenStore))
    ensures value in r.1.mapping && r.1.mapping[value] == r.0
    ensures r.1.mapping.Keys == s.mapping.Keys + {value}
    ensures forall v :: v in s.mapping ==> r.1.mapping[v] == s.mapping[v]
    ensures value in s.mapping ==> r.1 == s
    ensures value !in s.mapping ==> r.0 == MakeToken(s.config, enc, value)
    ensures r.1.config == s.config
  {
    if value in s.mapping then (s.mapping[value], s)
    else
      var token := MakeToken(s.config, enc, value);
      var s1 := s.(mapping := s.mapping[value := token], dirty := s.dirty + 1);
      if s1.dirty >= s.config.batchSize then (token, Persist(s1).(dirty := 0)) else (token, s1)
  }

  /** `flush`: write and reset the counter when something is pending. */
  function Flush(s: TokenStore): (r: TokenStore)
    ensures r.config == s.config && r.mapping == s.mapping && r.dirty == (if s.dirty > 0 then 0 else s.dirty)
    ensures s.dirty > 0 && s.config.path.Some? ==> r.file == JsonObject(s.mapping)
    ensures s.dirty <= 0 ==> r == s
  {
    if s.dirty > 0 then Persist(s).(dirty := 0) else s
  }

  /** What the store keeps true between operations when it has a file: the
      file holds part of the map, and exactly `dirty` entries are not yet in
      it. */
  ghost predicate Durable(s: TokenStore)
  {
    && s.config.path.Some?
    && !s.file.Unparsable?
    && s.dirty >= 0
    && (forall v :: v in Snapshot(s.file) ==> v in s.mapping && s.mapping[v] == Snapshot(s.file)[v])
    && |s.mapping| == |Snapshot(s.file)| + s.dirty
  }

  /** A second `get_token` of the same value returns the same token and
      changes nothing. */
  lemma GetTokenIdempotent(enc: Encoder, s: TokenStore, value: string)
    ensures GetToken(enc, GetToken(enc, s, value).1, value) == GetToken(enc, s, value)
  {
  }

  /** A first-seen value adds exactly one entry and leaves every existing
      entry as it was. */
  lemma GetTokenAddsOne(enc: Encoder, s: TokenStore, value: string)
    requires value !in s.mapping
    ensures |GetToken(enc, s, value).1.mapping| == |s.mapping| + 1
    ensures GetToken(enc, s, value).1.mapping == s.mapping[value := MakeToken(s.config, enc, value)]
  {
  }

  /** With a batch size of at least one, the pending count stays below it. */
  lemma GetTokenKeepsBatchBound(enc: Encoder, s: TokenStore, value: string)
    requires 1 <= s.config.batchSize && 0 <= s.dirty < s.config.batchSize
    ensures 0 <= GetToken(enc, s, value).1.dirty < s.config.batchSize
  {
  }

  /** A store opened with a path starts durable. */
  lemma OpenDurable(config: StoreConfig, file: StoreFile)
    requires config.path.Some? && Open(config, file).Ok?
    ensures Durable(Open(config, file).value)
  {
  }

  /** `get_token` keeps the store durable: every write copies the whole map,
      so the map outgrows the file by exactly the pending count. */
  lemma {:induction false} GetTokenDurable(enc: Encoder, s: TokenStore, value: string)
    requires Durable(s)
    ensures Durable(GetToken(enc, s, value).1)
  {
    if value !in s.mapping {
      var token := MakeToken(s.config, enc, value);
      var m := s.mapping[value := token];
      assert value !in Snapshot(s.file);
      assert |m| == |s.mapping| + 1;
      var s1 := s.(mapping := m, dirty := s.dirty + 1);
      assert Durable(s1);
    }
  }

  /** `flush` keeps the store durable and leaves nothing pending: afterwards
      the file holds the whole map. */
  lemma {:induction false} FlushDurable(s: TokenStore)
    requires Durable(s)
    ensures Durable(Flush(s))
    ensures Flush(s).dirty == 0 && Snapshot(Flush(s).file) == s.mapping
  {
    if s.dirty == 0 {
      assert Snapshot(s.file).Keys <= s.mapping.Keys;
      assert |Snapshot(s.file).Keys| == |s.mapping.Keys|;
      SubsetOfSameSize(Snapshot(s.file).Keys, s.mapping.Keys);
    }
  }

  lemma SubsetOfSameSize<T>(a: set<T>, b: set<T>)
    requires a <= b && |a| == |b|
    ensures a == b
  {
    assert b == a + (b - a);
    assert |b| == |a| + |b - a|;
    assert b - a == {};
  }

  /** Tokens survive a restart: a store reopened from the file a flush left
      behind holds the same map and hands out the same token for every value. */
  lemma ReopenAfterFlush(enc: Encoder, s: TokenStore, value: string)
    requires Durable(s)
    ensures Open(s.config, Flush(s).file).Ok?
    ensures Open(s.config, Flush(s).file).value.mapping == s.mapping
    ensures GetToken(enc, Open(s.config, Flush(s).file).value, value).0 == GetToken(enc, s, value).0
  {
    FlushDurable(s);
  }
}
