/** Record sanitization (`sanitize_record` and its helpers `_iter_strings`,
    `_qualify_keys` and `_apply_path`): every string leaf of a JSON record is
    sanitized in document order, changed leaves are written back at their
    path, and the per-leaf maps are merged under dotted-path keys. */
module RecordSanitizer {
  import opened Wrappers
  import opened Strings
  import opened Dicts
  import opened Json
  import opened TokenStores
  import opened TextSanitizer

  /** A per-string sanitizer: the store and a string in, the sanitized
      text, its two maps and the store afterwards out. The record layer is
      stated for any such function. */
  type TextFn = (TokenStore, string) -> TextResult

  /** `_sanitize_text` with the configured secret, digest and detector. */
  function TextOf(env: Env): (f: TextFn)
    requires ValidDetector(env.detect)
    ensures forall st, v :: f(st, v) == SanitizeText(env, st, v)
  {
    (st, v) => SanitizeText(env, st, v)
  }

  /** One step of a path: a dict key, or a list position. The source keeps
      both as strings (`str(key)`, `str(idx)`); `Render` gives that string. */
  datatype Seg = Key(name: string) | Index(pos: nat)

  function Render(seg: Seg): string
  {
    match seg
    case Key(k) => k
    case Index(i) => NatToString(i)
  }

  /** The path as the source's list of strings. */
  function PathStrings(path: seq<Seg>): (r: seq<string>)
    ensures |r| == |path|
    ensures forall i :: 0 <= i < |path| ==> r[i] == Render(path[i])
  {
    if |path| == 0 then [] else [Render(path[0])] + PathStrings(path[1..])
  }

  /** A string leaf and the path leading to it. */
  datatype Leaf = Leaf(path: seq<Seg>, value: string)

  function Under(seg: Seg, ls: seq<Leaf>): (r: seq<Leaf>)
    ensures |r| == |ls|
    ensures forall i :: 0 <= i < |ls| ==> r[i] == Leaf([seg] + ls[i].path, ls[i].value)
  {
    if |ls| == 0 then [] else [Leaf([seg] + ls[0].path, ls[0].value)] + Under(seg, ls[1..])
  }

  /** `_iter_strings`: the string leaves in document order. */
  function IterStrings(j: Json): seq<Leaf>
    decreases j, 1
  {
    match j
    case JStr(s) => [Leaf([], s)]
    case JArr(items) => IterItems(items, 0)
    case JObj(fields) => IterFields(fields, 0)
    case _ => []
  }

  function IterItems(items: seq<Json>, i: nat): seq<Leaf>
    requires i <= |items|
    decreases items, 0, |items| - i
  {
    if i == |items| then [] else Under(Index(i), IterStrings(items[i])) + IterItems(items, i + 1)
  }

  function IterFields(fields: Entries<Json>, i: nat): seq<Leaf>
    requires i <= |fields|
    decreases fields, 0, |fields| - i
  {
    if i == |fields| then [] else Under(Key(fields[i].key), IterStrings(fields[i].value)) + IterFields(fields, i + 1)
  }

  /** What every value produced by `json.loads` satisfies: no dict repeats a
      key. */
  predicate WellFormed(j: Json)
    decreases j
  {
    match j
    case JArr(items) => forall i :: 0 <= i < |items| ==> WellFormed(items[i])
    case JObj(fields) => DistinctKeys(fields) && forall i :: 0 <= i < |fields| ==> WellFormed(fields[i].value)
    case _ => true
  }

  /** The value found by following a path, if the path leads anywhere. */
  function At(j: Json, path: seq<Seg>): Option<Json>
    decreases |path|
  {
    if |path| == 0 then Some(j)
    else
      match j
      case JObj(fields) =>
        if !path[0].Key? then None
        else (match Get(fields, path[0].name)
              case None => None
              case Some(c) => At(c, path[1..]))
      case JArr(items) =>
        if !path[0].Index? || path[0].pos >= |items| then None else At(items[path[0].pos], path[1..])
      case _ => None
  }

  /** `At(j, path)` is a string. */
  predicate IsLeafAt(j: Json, path: seq<Seg>)
  {
    At(j, path).Some? && At(j, path).value.JStr?
  }

  /** Same tree, except that strings may differ. */
  predicate SameShape(a: Json, b: Json)
    decreases a
  {
    match a
    case JStr(_) => b.JStr?
    case JArr(xs) => b.JArr? && |xs| == |b.items| && forall i :: 0 <= i < |xs| ==> SameShape(xs[i], b.items[i])
    case JObj(fs) =>
      && b.JObj? && |fs| == |b.fields|
      && forall i :: 0 <= i < |fs| ==> fs[i].key == b.fields[i].key && SameShape(fs[i].value, b.fields[i].value)
    case _ => b == a
  }

  // ---------------------------------------------------------------------
  // `_apply_path`

  /** How `_apply_path` reads a path segment. `AsWritten` is the source: a
      segment that `int()` accepts is used as a list index, even when it is
      a dict key. `ByKind` uses dict keys as keys and list positions as
      indices. */
  datatype Mode = AsWritten | ByKind

  /** `n` is one of the ten code points from `zero` on. */
  predicate Ten(n: int, zero: int)
  {
    zero <= n < zero + 10
  }

  /** A decimal digit in any script, what `int()` reads as a digit: the
      68 blocks of ten of Unicode 15.0's general category Nd, each given by
      its zero (ASCII, Arabic-Indic, Devanagari, ..., fullwidth,
      mathematical and segmented digits). */
  predicate IsDecimal(c: char)
  {
    var n := c as int;
    || Ten(n, 0x0030) || Ten(n, 0x0660) || Ten(n, 0x06F0) || Ten(n, 0x07C0)
    || Ten(n, 0x0966) || Ten(n, 0x09E6) || Ten(n, 0x0A66) || Ten(n, 0x0AE6)
    || Ten(n, 0x0B66) || Ten(n, 0x0BE6) || Ten(n, 0x0C66) || Ten(n, 0x0CE6)
    || Ten(n, 0x0D66) || Ten(n, 0x0DE6) || Ten(n, 0x0E50) || Ten(n, 0x0ED0)
    || Ten(n, 0x0F20) || Ten(n, 0x1040) || Ten(n, 0x1090) || Ten(n, 0x17E0)
    || Ten(n, 0x1810) || Ten(n, 0x1946) || Ten(n, 0x19D0) || Ten(n, 0x1A80)
    || Ten(n, 0x1A90) || Ten(n, 0x1B50) || Ten(n, 0x1BB0) || Ten(n, 0x1C40)
    || Ten(n, 0x1C50) || Ten(n, 0xA620) || Ten(n, 0xA8D0) || Ten(n, 0xA900)
    || Ten(n, 0xA9D0) || Ten(n, 0xA9F0) || Ten(n, 0xAA50) || Ten(n, 0xABF0)
    || Ten(n, 0xFF10) || Ten(n, 0x104A0) || Ten(n, 0x10D30) || Ten(n, 0x11066)
    || Ten(n, 0x110F0) || Ten(n, 0x11136) || Ten(n, 0x111D0) || Ten(n, 0x112F0)
    || Ten(n, 0x11450) || Ten(n, 0x114D0) || Ten(n, 0x11650) || Ten(n, 0x116C0)
    || Ten(n, 0x11730) || Ten(n, 0x118E0) || Ten(n, 0x11950) || Ten(n, 0x11C50)
    || Ten(n, 0x11D50) || Ten(n, 0x11DA0) || Ten(n, 0x11F50) || Ten(n, 0x16A60)
    || Ten(n, 0x16AC0) || Ten(n, 0x16B50) || Ten(n, 0x1D7CE) || Ten(n, 0x1D7D8)
    || Ten(n, 0x1D7E2) || Ten(n, 0x1D7EC) || Ten(n, 0x1D7F6) || Ten(n, 0x1E140)
    || Ten(n, 0x1E2F0) || Ten(n, 0x1E4F0) || Ten(n, 0x1E950) || Ten(n, 0x1FBF0)
  }

  /** The whitespace `int()` skips around a number: what `str.isspace`
      calls whitespace, except the separators U+001C to U+001F. */
  predicate IntSpace(c: char)
  {
    IsSpace(c) && !('\U{1c}' <= c <= '\U{1f}')
  }

  /** `s` without that whitespace at either end. */
  function IntStrip(s: string): (r: string)
    ensures |r| <= |s|
    ensures |r| > 0 ==> !IntSpace(r[0]) && !IntSpace(r[|r| - 1])
    decreases |s|
  {
    if |s| > 0 && IntSpace(s[0]) then IntStrip(s[1..])
    else if |s| > 0 && IntSpace(s[|s| - 1]) then IntStrip(s[..|s| - 1])
    else s
  }

  /** Python's `int(s)` succeeds: optional surrounding whitespace, an
      optional sign, then decimal digits of any script with single
      underscores between digits. */
  predicate LooksInt(s: string)
  {
    var t := IntStrip(s);
    var u := if |t| > 0 && (t[0] == '+' || t[0] == '-') then t[1..] else t;
    DigitRun(u)
  }

  predicate DigitRun(u: string)
  {
    && |u| > 0 && IsDecimal(u[0]) && IsDecimal(u[|u| - 1])
    && forall i :: 0 <= i < |u| ==> (IsDecimal(u[i]) || (u[i] == '_' && 0 < i < |u| - 1 && u[i - 1] != '_' && u[i + 1] != '_'))
  }

  /** The message of the error a dict raises when its items iterator finds
      that the dict has grown. */
  const SizeChanged: string := "dictionary changed size during iteration"

  /** Writes `v` at `path` (non-empty). As written, a numeric-looking dict key
      before the last step is looked up as an integer, which no dict of the
      record has (KeyError); as the last step it adds an integer key to the
      dict whose items are being iterated, and the iteration then fails
      (RuntimeError). Steps that do not fit the value they are applied to
      only arise for paths the traversal does not produce. */
  function SetAt(mode: Mode, j: Json, path: seq<Seg>, v: string): Result<Json>
    requires |path| > 0
    decreases |path|
  {
    var seg := path[0];
    match j
    case JObj(fields) =>
      if !seg.Key? then Err(KeyError(Render(seg)))
      else if mode == AsWritten && LooksInt(seg.name) then
        (if |path| == 1 then Err(RuntimeError(SizeChanged)) else Err(KeyError(seg.name)))
      else if |path| == 1 then Ok(JObj(Put(fields, seg.name, JStr(v))))
      else
        (match Get(fields, seg.name)
         case None => Err(KeyError(seg.name))
         case Some(c) =>
           (match SetAt(mode, c, path[1..], v)
            case Err(e) => Err(e)
            case Ok(c') => Ok(JObj(Put(fields, seg.name, c')))))
    case JArr(items) =>
      if !seg.Index? then Err(TypeError("list indices must be integers or slices, not str"))
      else if seg.pos >= |items| then Err(IndexError(seg.pos))
      else if |path| == 1 then Ok(JArr(items[seg.pos := JStr(v)]))
      else
        (match SetAt(mode, items[seg.pos], path[1..], v)
         case Err(e) => Err(e)
         case Ok(c') => Ok(JArr(items[seg.pos := c'])))
    case _ => Err(TypeError("object does not support item assignment"))
  }

  /** `_apply_path`: an empty path fails on `path[-1]`. */
  function ApplyPath(mode: Mode, root: Json, path: seq<Seg>, v: string): Result<Json>
  {
    if |path| == 0 then Err(IndexError(-1)) else SetAt(mode, root, path, v)
  }

  // ---------------------------------------------------------------------
  // `_qualify_keys`

  /** The dotted key of `k` under `prefix`; an empty key stands for the
      prefix itself. */
  function QualifyKey(prefix: string, k: string): string
  {
    if k == "" then prefix else prefix + "." + k
  }

  /** `_qualify_keys`: the dict comprehension inserts the qualified entries
      one after another into a new dict (written here from the last
      insertion back). With an empty path the map itself is returned. */
  function QualifyKeys(path: seq<string>, m: Entries<string>): (r: Entries<string>)
    ensures |path| == 0 ==> r == m
    decreases |m|
  {
    if |path| == 0 then m
    else if |m| == 0 then []
    else Put(QualifyKeys(path, m[..|m| - 1]), QualifyKey(Join(".", path), m[|m| - 1].key), m[|m| - 1].value)
  }

  lemma QualifyKeyInjective(prefix: string, a: string, b: string)
    requires QualifyKey(prefix, a) == QualifyKey(prefix, b)
    ensures a == b
  {
    if a != "" && b != "" {
      var n := |prefix| + 1;
      assert a == QualifyKey(prefix, a)[n..];
      assert b == QualifyKey(prefix, b)[n..];
    }
  }

  /** `_qualify_keys` on a non-empty path: a dict whose keys are the dotted
      forms of the original keys, each with its original value, and no
      other keys. */
  lemma {:induction false} QualifyKeysSpec(path: seq<string>, m: Entries<string>)
    requires DistinctKeys(m) && |path| > 0
    ensures DistinctKeys(QualifyKeys(path, m))
    ensures forall k :: Get(QualifyKeys(path, m), QualifyKey(Join(".", path), k)) == Get(m, k)
    ensures forall x :: HasKey(QualifyKeys(path, m), x) ==> exists k :: HasKey(m, k) && x == QualifyKey(Join(".", path), k)
    decreases |m|
  {
    if |m| > 0 {
      var prefix := Join(".", path);
      var m' := m[..|m| - 1];
      var e := m[|m| - 1];
      assert DistinctKeys(m');
      QualifyKeysSpec(path, m');
      var q' := QualifyKeys(path, m');
      var qe := QualifyKey(prefix, e.key);
      assert QualifyKeys(path, m) == Put(q', qe, e.value);
      PutDistinct(q', qe, e.value);
      PutKeys(q', qe, e.value);
      forall k
        ensures Get(QualifyKeys(path, m), QualifyKey(prefix, k)) == Get(m, k)
      {
        PutGet(q', qe, e.value, QualifyKey(prefix, k));
        if QualifyKey(prefix, k) == qe {
          QualifyKeyInjective(prefix, k, e.key);
        }
        GetLast(m, k);
      }
      forall x | HasKey(QualifyKeys(path, m), x)
        ensures exists k :: HasKey(m, k) && x == QualifyKey(prefix, k)
      {
        if x == qe {
          assert HasKey(m, e.key);
        } else {
          var k :| HasKey(m', k) && x == QualifyKey(prefix, k);
          var i :| 0 <= i < |m'| && m'[i].key == k;
          assert m[i].key == k;
        }
      }
    }
  }

  // ---------------------------------------------------------------------
  // `sanitize_record`

  /** What the leaf loop has built: the record with the changed leaves
      written back, and the merged redaction and hash maps. */
  datatype Walk = Walk(tree: Json, redactions: Entries<string>, hashed: Entries<string>)

  /** The leaf loop of `sanitize_record`. An exception ends the loop; the
      tokens minted up to that point stay in the store. */
  function SanitizeLeaves(san: TextFn, mode: Mode, leaves: seq<Leaf>, w: Walk, store: TokenStore): (TokenStore, Result<Walk>)
    decreases |leaves|
  {
    if |leaves| == 0 then (store, Ok(w))
    else
      var leaf := leaves[0];
      var tr := san(store, leaf.value);
      var applied := if tr.text != leaf.value then ApplyPath(mode, w.tree, leaf.path, tr.text) else Ok(w.tree);
      match applied
      case Err(e) => (tr.store, Err(e))
      case Ok(tree) =>
        var ps := PathStrings(leaf.path);
        SanitizeLeaves(san, mode, leaves[1..],
                       Walk(tree, Update(w.redactions, QualifyKeys(ps, tr.redactions)),
                            Update(w.hashed, QualifyKeys(ps, tr.hashed))),
                       tr.store)
  }

  /** `cloned.setdefault(key, {}).update(m)`: a missing key gets a new dict
      at the end; an existing dict is updated in place; anything else has
      no `update`. */
  function MergeInto(fields: Entries<Json>, key: string, m: Entries<string>): Result<Entries<Json>>
  {
    var current := Get(fields, key);
    if current.None? then Ok(Put(fields, key, JObj(Update([], StringsToJson(m)))))
    else if current.value.JObj? then Ok(Put(fields, key, JObj(Update(current.value.fields, StringsToJson(m)))))
    else Err(AttributeError("update"))
  }

  /** `SanitizationResult`. */
  datatype SanitizationResult = SanitizationResult(sanitized: Json, redactionMap: Entries<string>, hashedFields: Entries<string>)

  /** `sanitize_record`, returning the token store as it is afterwards (also
      when an exception is raised). */
  function SanitizeRecord(san: TextFn, mode: Mode, store: TokenStore, record: Json): (TokenStore, Result<SanitizationResult>)
  {
    match record
    case JStr(s) =>
      var tr := san(store, s);
      var payload := JObj([Entry("message", JStr(tr.text)),
                           Entry("redactions", JObj(StringsToJson(tr.redactions))),
                           Entry("hashed_fields", JObj(StringsToJson(tr.hashed)))]);
      (tr.store, Ok(SanitizationResult(payload, tr.redactions, tr.hashed)))
    case _ =>
      var walked := SanitizeLeaves(san, mode, IterStrings(record), Walk(record, [], []), store);
      var st := walked.0;
      match walked.1
      case Err(e) => (st, Err(e))
      case Ok(w) =>
        if !w.tree.JObj? then (st, Ok(SanitizationResult(w.tree, w.redactions, w.hashed)))
        else
          match MergeInto(w.tree.fields, "redactions", w.redactions)
          case Err(e) => (st, Err(e))
          case Ok(f1) =>
            match MergeInto(f1, "hashed_fields", w.hashed)
            case Err(e) => (st, Err(e))
            case Ok(f2) => (st, Ok(SanitizationResult(JObj(f2), w.redactions, w.hashed)))
  }

  // ---------------------------------------------------------------------
  // The traversal: where the leaves are

  /** Every leaf `_iter_strings` yields is the string found at its path. */
  lemma {:induction false} LeavesAt(j: Json)
    requires WellFormed(j)
    ensures forall l :: l in IterStrings(j) ==> At(j, l.path) == Some(JStr(l.value))
    decreases j, 1
  {
    match j
    case JArr(items) => ItemsAt(items, 0);
    case JObj(fields) => FieldsAt(fields, 0);
    case _ =>
  }

  lemma {:induction false} ItemsAt(items: seq<Json>, i: nat)
    requires i <= |items| && forall k :: 0 <= k < |items| ==> WellFormed(items[k])
    ensures forall l :: l in IterItems(items, i) ==> At(JArr(items), l.path) == Some(JStr(l.value))
    decreases items, 0, |items| - i
  {
    if i < |items| {
      LeavesAt(items[i]);
      ItemsAt(items, i + 1);
      var sub := IterStrings(items[i]);
      var here := Under(Index(i), sub);
      forall l | l in here
        ensures At(JArr(items), l.path) == Some(JStr(l.value))
      {
        var t :| 0 <= t < |here| && here[t] == l;
        assert sub[t] in sub;
        assert l.path[1..] == sub[t].path;
      }
    }
  }

  lemma {:induction false} FieldsAt(fields: Entries<Json>, i: nat)
    requires i <= |fields| && DistinctKeys(fields) && forall k :: 0 <= k < |fields| ==> WellFormed(fields[k].value)
    ensures forall l :: l in IterFields(fields, i) ==> At(JObj(fields), l.path) == Some(JStr(l.value))
    decreases fields, 0, |fields| - i
  {
    if i < |fields| {
      LeavesAt(fields[i].value);
      FieldsAt(fields, i + 1);
      GetDistinct(fields, i);
      var sub := IterStrings(fields[i].value);
      var here := Under(Key(fields[i].key), sub);
      forall l | l in here
        ensures At(JObj(fields), l.path) == Some(JStr(l.value))
      {
        var t :| 0 <= t < |here| && here[t] == l;
        assert sub[t] in sub;
        assert l.path[1..] == sub[t].path;
      }
    }
  }

  /** No two leaves share a path. */
  predicate DistinctPaths(ls: seq<Leaf>)
  {
    forall a, b :: 0 <= a < b < |ls| ==> ls[a].path != ls[b].path
  }

  lemma UnderDistinct(seg: Seg, ls: seq<Leaf>)
    requires DistinctPaths(ls)
    ensures DistinctPaths(Under(seg, ls))
  {
    var u := Under(seg, ls);
    forall a, b | 0 <= a < b < |u|
      ensures u[a].path != u[b].path
    {
      assert u[a].path[1..] == ls[a].path;
      assert u[b].path[1..] == ls[b].path;
    }
  }

  lemma ConcatDistinct(xs: seq<Leaf>, ys: seq<Leaf>)
    requires DistinctPaths(xs) && DistinctPaths(ys)
    requires forall a, b :: 0 <= a < |xs| && 0 <= b < |ys| ==> xs[a].path != ys[b].path
    ensures DistinctPaths(xs + ys)
  {
    var zs := xs + ys;
    forall a, b | 0 <= a < b < |zs|
      ensures zs[a].path != zs[b].path
    {
      if b < |xs| {
      } else if a < |xs| {
        assert zs[b] == ys[b - |xs|];
      } else {
        assert zs[a] == ys[a - |xs|] && zs[b] == ys[b - |xs|];
      }
    }
  }

  /** Leaves of a well-formed value have distinct paths, and inside a
      container every path starts with a step into it. */
  lemma {:induction false} LeavesDistinct(j: Json)
    requires WellFormed(j)
    ensures DistinctPaths(IterStrings(j))
    ensures !j.JStr? ==> forall l :: l in IterStrings(j) ==> |l.path| > 0
    decreases j, 1
  {
    match j
    case JArr(items) => ItemsDistinct(items, 0);
    case JObj(fields) => FieldsDistinct(fields, 0);
    case _ =>
  }

  lemma {:induction false} ItemsDistinct(items: seq<Json>, i: nat)
    requires i <= |items| && forall k :: 0 <= k < |items| ==> WellFormed(items[k])
    ensures DistinctPaths(IterItems(items, i))
    ensures forall l :: l in IterItems(items, i) ==> |l.path| > 0 && l.path[0].Index? && i <= l.path[0].pos
    decreases items, 0, |items| - i
  {
    if i < |items| {
      LeavesDistinct(items[i]);
      ItemsDistinct(items, i + 1);
      var here := Under(Index(i), IterStrings(items[i]));
      var rest := IterItems(items, i + 1);
      UnderDistinct(Index(i), IterStrings(items[i]));
      forall a, b | 0 <= a < |here| && 0 <= b < |rest|
        ensures here[a].path != rest[b].path
      {
        assert rest[b] in rest;
      }
      ConcatDistinct(here, rest);
      forall l | l in here + rest
        ensures |l.path| > 0 && l.path[0].Index? && i <= l.path[0].pos
      {
        if l in here {
          var t :| 0 <= t < |here| && here[t] == l;
        }
      }
    }
  }

  lemma {:induction false} FieldsDistinct(fields: Entries<Json>, i: nat)
    requires i <= |fields| && DistinctKeys(fields) && forall k :: 0 <= k < |fields| ==> WellFormed(fields[k].value)
    ensures DistinctPaths(IterFields(fields, i))
    ensures forall l :: l in IterFields(fields, i) ==>
              |l.path| > 0 && l.path[0].Key? && exists k :: i <= k < |fields| && fields[k].key == l.path[0].name
    decreases fields, 0, |fields| - i
  {
    if i < |fields| {
      LeavesDistinct(fields[i].value);
      FieldsDistinct(fields, i + 1);
      var here := Under(Key(fields[i].key), IterStrings(fields[i].value));
      var rest := IterFields(fields, i + 1);
      UnderDistinct(Key(fields[i].key), IterStrings(fields[i].value));
      forall a, b | 0 <= a < |here| && 0 <= b < |rest|
        ensures here[a].path != rest[b].path
      {
        assert rest[b] in rest;
        var k :| i + 1 <= k < |fields| && fields[k].key == rest[b].path[0].name;
        assert fields[i].key != fields[k].key;
      }
      ConcatDistinct(here, rest);
      forall l | l in here + rest
        ensures |l.path| > 0 && l.path[0].Key? && exists k :: i <= k < |fields| && fields[k].key == l.path[0].name
      {
        if l in here {
          var t :| 0 <= t < |here| && here[t] == l;
          assert fields[i].key == l.path[0].name;
        } else {
          var k :| i + 1 <= k < |fields| && fields[k].key == l.path[0].name;
        }
      }
    }
  }

  // ---------------------------------------------------------------------
  // Shapes

  lemma {:induction false} SameShapeRefl(j: Json)
    ensures SameShape(j, j)
    decreases j
  {
    match j
    case JArr(xs) =>
      forall i | 0 <= i < |xs| ensures SameShape(xs[i], xs[i]) {
        SameShapeRefl(xs[i]);
      }
    case JObj(fs) =>
      forall i | 0 <= i < |fs| ensures SameShape(fs[i].value, fs[i].value) {
        SameShapeRefl(fs[i].value);
      }
    case _ =>
  }

  lemma {:induction false} SameShapeTrans(a: Json, b: Json, c: Json)
    requires SameShape(a, b) && SameShape(b, c)
    ensures SameShape(a, c)
    decreases a
  {
    match a
    case JArr(xs) =>
      forall i | 0 <= i < |xs| ensures SameShape(xs[i], c.items[i]) {
        SameShapeTrans(xs[i], b.items[i], c.items[i]);
      }
    case JObj(fs) =>
      forall i | 0 <= i < |fs| ensures fs[i].key == c.fields[i].key && SameShape(fs[i].value, c.fields[i].value) {
        SameShapeTrans(fs[i].value, b.fields[i].value, c.fields[i].value);
      }
    case _ =>
  }

  /** Entries with the same keys in the same places and values of the same
      shape answer every lookup alike. */
  lemma {:induction false} GetSameShape(fs: Entries<Json>, gs: Entries<Json>, k: string)
    requires |fs| == |gs|
    requires forall i :: 0 <= i < |fs| ==> fs[i].key == gs[i].key && SameShape(fs[i].value, gs[i].value)
    ensures Get(fs, k).Some? <==> Get(gs, k).Some?
    ensures Get(fs, k).Some? ==> SameShape(Get(fs, k).value, Get(gs, k).value)
  {
    if |fs| > 0 && fs[0].key != k {
      GetSameShape(fs[1..], gs[1..], k);
    }
  }

  /** A string at a path stays a string at that path in a tree of the same
      shape. */
  lemma {:induction false} SameShapeLeaf(a: Json, b: Json, q: seq<Seg>)
    requires SameShape(a, b) && IsLeafAt(a, q)
    ensures IsLeafAt(b, q)
    decreases |q|
  {
    if |q| > 0 {
      if a.JObj? {
        GetSameShape(a.fields, b.fields, q[0].name);
        SameShapeLeaf(Get(a.fields, q[0].name).value, Get(b.fields, q[0].name).value, q[1..]);
      } else if a.JArr? {
        SameShapeLeaf(a.items[q[0].pos], b.items[q[0].pos], q[1..]);
      }
    }
  }

  /** Replacing an entry's value by one of the same shape keeps the shape. */
  lemma {:induction false} PutSameShape(fields: Entries<Json>, k: string, c: Json, c': Json)
    requires Get(fields, k) == Some(c) && SameShape(c, c')
    ensures SameShape(JObj(fields), JObj(Put(fields, k, c')))
  {
    var r := Put(fields, k, c');
    if fields[0].key == k {
      forall i | 1 <= i < |fields| ensures SameShape(fields[i].value, r[i].value) {
        SameShapeRefl(fields[i].value);
      }
    } else {
      PutSameShape(fields[1..], k, c, c');
      SameShapeRefl(fields[0].value);
      forall i | 1 <= i < |fields|
        ensures fields[i].key == r[i].key && SameShape(fields[i].value, r[i].value)
      {
        assert fields[i] == fields[1..][i - 1];
        assert r[i] == Put(fields[1..], k, c')[i - 1];
      }
    }
  }

  /** Writing at the path of a string (dict keys read as keys) succeeds,
      keeps the shape, and leaves the new string at that path. */
  lemma {:induction false} SetAtByKind(j: Json, path: seq<Seg>, v: string)
    requires |path| > 0 && IsLeafAt(j, path)
    ensures SetAt(ByKind, j, path, v).Ok?
    ensures SameShape(j, SetAt(ByKind, j, path, v).value)
    ensures At(SetAt(ByKind, j, path, v).value, path) == Some(JStr(v))
    decreases |path|
  {
    var seg := path[0];
    if j.JObj? {
      var c := Get(j.fields, seg.name).value;
      if |path| > 1 {
        SetAtByKind(c, path[1..], v);
      }
      var c' := if |path| == 1 then JStr(v) else SetAt(ByKind, c, path[1..], v).value;
      PutSameShape(j.fields, seg.name, c, c');
      PutGet(j.fields, seg.name, c', seg.name);
    } else if j.JArr? {
      var items := j.items;
      var c := items[seg.pos];
      assert At(j, path) == At(c, path[1..]);
      if |path| > 1 {
        SetAtByKind(c, path[1..], v);
      }
      var c' := if |path| == 1 then JStr(v) else SetAt(ByKind, c, path[1..], v).value;
      var r := items[seg.pos := c'];
      assert SameShape(c, c');
      forall i | 0 <= i < |items| ensures SameShape(items[i], r[i]) {
        if i != seg.pos { SameShapeRefl(items[i]); }
      }
    }
  }

  /** Writing at one leaf's path leaves every other leaf as it was. */
  lemma {:induction false} SetAtOthers(j: Json, path: seq<Seg>, v: string, q: seq<Seg>)
    requires |path| > 0 && IsLeafAt(j, path) && IsLeafAt(j, q) && q != path
    ensures SetAt(ByKind, j, path, v).Ok?
    ensures At(SetAt(ByKind, j, path, v).value, q) == At(j, q)
    decreases |path|
  {
    SetAtByKind(j, path, v);
    var r := SetAt(ByKind, j, path, v).value;
    var seg := path[0];
    assert q == [q[0]] + q[1..] && path == [seg] + path[1..];
    if j.JObj? {
      var c := Get(j.fields, seg.name).value;
      if |path| > 1 { SetAtByKind(c, path[1..], v); }
      var c' := if |path| == 1 then JStr(v) else SetAt(ByKind, c, path[1..], v).value;
      assert r == JObj(Put(j.fields, seg.name, c'));
      PutGet(j.fields, seg.name, c', q[0].name);
      if q[0].name == seg.name && |path| > 1 && |q| > 1 {
        SetAtOthers(c, path[1..], v, q[1..]);
      }
    } else if j.JArr? {
      var c := j.items[seg.pos];
      if |path| > 1 { SetAtByKind(c, path[1..], v); }
      var c' := if |path| == 1 then JStr(v) else SetAt(ByKind, c, path[1..], v).value;
      assert r == JArr(j.items[seg.pos := c']);
      if q[0].pos == seg.pos && |path| > 1 && |q| > 1 {
        SetAtOthers(c, path[1..], v, q[1..]);
      }
    }
  }

  // ---------------------------------------------------------------------
  // The leaf loop against a flat reference

  /** The leaf paths, in order. */
  function Paths(leaves: seq<Leaf>): (r: seq<seq<Seg>>)
    ensures |r| == |leaves|
    ensures forall i :: 0 <= i < |leaves| ==> r[i] == leaves[i].path
  {
    if |leaves| == 0 then [] else [leaves[0].path] + Paths(leaves[1..])
  }

  /** The leaf strings, in order. */
  function Values(leaves: seq<Leaf>): (r: seq<string>)
    ensures |r| == |leaves|
    ensures forall i :: 0 <= i < |leaves| ==> r[i] == leaves[i].value
  {
    if |leaves| == 0 then [] else [leaves[0].value] + Values(leaves[1..])
  }

  /** Reference: `_sanitize_text` applied to each string in turn with one
      store; the sanitized strings and the store afterwards. */
  function SanitizeAll(san: TextFn, store: TokenStore, values: seq<string>): (r: (seq<string>, TokenStore))
    ensures |r.0| == |values|
    decreases |values|
  {
    if |values| == 0 then ([], store)
    else
      var tr := san(store, values[0]);
      var rest := SanitizeAll(san, tr.store, values[1..]);
      ([tr.text] + rest.0, rest.1)
  }

  /** With dict keys read as keys, the leaf loop never fails on leaves that
      are strings at distinct paths; it keeps the tree's shape, leaves the
      i-th sanitized string at the i-th leaf's path, touches no other string,
      and ends with the store of the flat reference. */
  lemma {:induction false} WalkByKind(san: TextFn, leaves: seq<Leaf>, w: Walk, store: TokenStore)
    requires DistinctPaths(leaves)
    requires forall k :: 0 <= k < |leaves| ==> |leaves[k].path| > 0 && At(w.tree, leaves[k].path) == Some(JStr(leaves[k].value))
    ensures var walked := SanitizeLeaves(san, ByKind, leaves, w, store);
            var all := SanitizeAll(san, store, Values(leaves));
            && walked.1.Ok?
            && walked.0 == all.1
            && Wrote(w.tree, walked.1.value.tree, Paths(leaves), all.0)
    decreases |leaves|
  {
    if |leaves| == 0 {
      SameShapeRefl(w.tree);
    } else {
      var leaf := leaves[0];
      var tr := san(store, leaf.value);
      var w' := StepByKind(san, leaves, w, store);
      var tree := w'.tree;
      var rest := leaves[1..];
      forall k | 0 <= k < |rest|
        ensures |rest[k].path| > 0 && At(tree, rest[k].path) == Some(JStr(rest[k].value))
      {
        assert rest[k] == leaves[k + 1];
        assert IsLeafAt(w.tree, rest[k].path);
      }
      assert DistinctPaths(rest);
      WalkByKind(san, rest, w', tr.store);
      var all := SanitizeAll(san, store, Values(leaves));
      assert Values(leaves)[1..] == Values(rest);
      assert all.0 == [tr.text] + SanitizeAll(san, tr.store, Values(rest)).0;
      assert Paths(leaves) == [leaf.path] + Paths(rest);
      forall k' | 0 <= k' < |rest| ensures rest[k'].path != leaf.path {
        assert rest[k'] == leaves[k' + 1];
      }
      var t2 := SanitizeLeaves(san, ByKind, rest, w', tr.store).1.value.tree;
      var texts := SanitizeAll(san, tr.store, Values(rest)).0;
      WroteCons(w.tree, tree, t2, leaf.path, tr.text, Paths(rest), texts, Paths(leaves), all.0);
    }
  }

  /** `t'` is `t` with `texts[k]` written at `paths[k]` and nothing else
      changed. */
  ghost predicate Wrote(t: Json, t': Json, paths: seq<seq<Seg>>, texts: seq<string>)
  {
    && |paths| == |texts|
    && SameShape(t, t')
    && (forall k :: 0 <= k < |paths| ==> At(t', paths[k]) == Some(JStr(texts[k])))
    && (forall q :: IsLeafAt(t, q) && q !in paths ==> At(t', q) == At(t, q))
  }

  lemma WroteCons(t0: Json, t1: Json, t2: Json, p: seq<Seg>, v: string, paths: seq<seq<Seg>>, texts: seq<string>,
                  allPaths: seq<seq<Seg>>, allTexts: seq<string>)
    requires SameShape(t0, t1) && At(t1, p) == Some(JStr(v))
    requires forall q :: IsLeafAt(t0, q) && q != p ==> At(t1, q) == At(t0, q)
    requires Wrote(t1, t2, paths, texts) && p !in paths
    requires allPaths == [p] + paths && allTexts == [v] + texts
    ensures Wrote(t0, t2, allPaths, allTexts)
  {
    SameShapeTrans(t0, t1, t2);
    assert IsLeafAt(t1, p);
    forall q | IsLeafAt(t0, q) && q !in allPaths
      ensures At(t2, q) == At(t0, q)
    {
      assert IsLeafAt(t1, q);
    }
  }


  /** The first step of the leaf loop with dict keys read as keys, on a leaf
      that is a string at its path: the loop goes on from the walk state
      returned, whose tree is the one `WriteLeaf` describes. */
  lemma StepByKind(san: TextFn, leaves: seq<Leaf>, w: Walk, store: TokenStore) returns (w': Walk)
    requires |leaves| > 0 && |leaves[0].path| > 0 && At(w.tree, leaves[0].path) == Some(JStr(leaves[0].value))
    ensures var tr := san(store, leaves[0].value);
            && SanitizeLeaves(san, ByKind, leaves, w, store) == SanitizeLeaves(san, ByKind, leaves[1..], w', tr.store)
            && SameShape(w.tree, w'.tree) && At(w'.tree, leaves[0].path) == Some(JStr(tr.text))
            && forall q :: IsLeafAt(w.tree, q) && q != leaves[0].path ==> At(w'.tree, q) == At(w.tree, q)
  {
    var leaf := leaves[0];
    var tr := san(store, leaf.value);
    var tree := WriteLeaf(w.tree, leaf.path, leaf.value, tr.text);
    var ps := PathStrings(leaf.path);
    w' := Walk(tree, Update(w.redactions, QualifyKeys(ps, tr.redactions)), Update(w.hashed, QualifyKeys(ps, tr.hashed)));
  }

  /** One step of the leaf loop with dict keys read as keys: the string at
      `path` becomes `v` when it changed, nothing else does, and the
      tree keeps its shape. */
  lemma WriteLeaf(t: Json, path: seq<Seg>, was: string, v: string) returns (t': Json)
    requires |path| > 0 && At(t, path) == Some(JStr(was))
    ensures (if v != was then ApplyPath(ByKind, t, path, v) else Ok(t)) == Ok(t')
    ensures SameShape(t, t') && At(t', path) == Some(JStr(v))
    ensures forall q :: IsLeafAt(t, q) && q != path ==> At(t', q) == At(t, q)
  {
    if v != was {
      SetAtByKind(t, path, v);
      t' := SetAt(ByKind, t, path, v).value;
      forall q | IsLeafAt(t, q) && q != path
        ensures At(t', q) == At(t, q)
      {
        SetAtOthers(t, path, v, q);
      }
    } else {
      SameShapeRefl(t);
      t' := t;
    }
  }


  /** With dict keys read as keys, sanitizing a well-formed record that is not
      a string walks all its leaves: the record keeps its shape (only
      strings change), the i-th leaf holds the i-th string of the flat
      reference, and the store ends as in the flat reference. */
  lemma SanitizeRecordByKind(san: TextFn, store: TokenStore, record: Json)
    requires WellFormed(record) && !record.JStr?
    ensures var leaves := IterStrings(record);
            var walked := SanitizeLeaves(san, ByKind, leaves, Walk(record, [], []), store);
            var all := SanitizeAll(san, store, Values(leaves));
            && walked.1.Ok?
            && walked.0 == all.1
            && Wrote(record, walked.1.value.tree, Paths(leaves), all.0)
  {
    LeavesAt(record);
    LeavesDistinct(record);
    var leaves := IterStrings(record);
    forall k | 0 <= k < |leaves|
      ensures |leaves[k].path| > 0 && At(record, leaves[k].path) == Some(JStr(leaves[k].value))
    {
      assert leaves[k] in leaves;
    }
    WalkByKind(san, leaves, Walk(record, [], []), store);
  }

  // ---------------------------------------------------------------------
  // As written against by kind

  /** No dict key on the path is one `int()` accepts. */
  predicate NumericKeyFree(path: seq<Seg>)
  {
    forall i :: 0 <= i < |path| && path[i].Key? ==> !LooksInt(path[i].name)
  }

  lemma {:induction false} SetAtModes(j: Json, path: seq<Seg>, v: string)
    requires |path| > 0 && NumericKeyFree(path)
    ensures SetAt(AsWritten, j, path, v) == SetAt(ByKind, j, path, v)
    decreases |path|
  {
    if |path| > 1 {
      assert NumericKeyFree(path[1..]) by {
        forall i | 0 <= i < |path| - 1 && path[1..][i].Key? ensures !LooksInt(path[1..][i].name) {
          assert path[1..][i] == path[i + 1];
        }
      }
      match j
      case JObj(fields) =>
        if path[0].Key? && Get(fields, path[0].name).Some? {
          SetAtModes(Get(fields, path[0].name).value, path[1..], v);
        }
      case JArr(items) =>
        if path[0].Index? && path[0].pos < |items| {
          SetAtModes(items[path[0].pos], path[1..], v);
        }
      case _ =>
    }
  }

  lemma {:induction false} SanitizeLeavesModes(san: TextFn, leaves: seq<Leaf>, w: Walk, store: TokenStore)
    requires forall k :: 0 <= k < |leaves| ==> NumericKeyFree(leaves[k].path)
    ensures SanitizeLeaves(san, AsWritten, leaves, w, store) == SanitizeLeaves(san, ByKind, leaves, w, store)
    decreases |leaves|
  {
    if |leaves| > 0 {
      var leaf := leaves[0];
      var tr := san(store, leaf.value);
      assert NumericKeyFree(leaf.path);
      if tr.text != leaf.value && |leaf.path| > 0 {
        SetAtModes(w.tree, leaf.path, tr.text);
      }
      var applied := if tr.text != leaf.value then ApplyPath(ByKind, w.tree, leaf.path, tr.text) else Ok(w.tree);
      if applied.Ok? {
        var ps := PathStrings(leaf.path);
        forall k | 0 <= k < |leaves| - 1 ensures NumericKeyFree(leaves[1..][k].path) {
          assert leaves[1..][k] == leaves[k + 1];
        }
        SanitizeLeavesModes(san, leaves[1..],
                            Walk(applied.value, Update(w.redactions, QualifyKeys(ps, tr.redactions)),
                                 Update(w.hashed, QualifyKeys(ps, tr.hashed))),
                            tr.store);
      }
    }
  }

  /** When no dict key on the way to a string looks like an integer, the
      source and the by-kind reading give the same result and the same
      store. */
  lemma SanitizeRecordModes(san: TextFn, store: TokenStore, record: Json)
    requires forall l :: l in IterStrings(record) ==> NumericKeyFree(l.path)
    ensures SanitizeRecord(san, AsWritten, store, record) == SanitizeRecord(san, ByKind, store, record)
  {
    if !record.JStr? {
      var leaves := IterStrings(record);
      forall k | 0 <= k < |leaves| ensures NumericKeyFree(leaves[k].path) {
        assert leaves[k] in leaves;
      }
      SanitizeLeavesModes(san, leaves, Walk(record, [], []), store);
    }
  }

  /** `int()` reads "42", in ASCII and in Arabic-Indic digits alike. */
  lemma LooksIntFortyTwo()
    ensures LooksInt("42")
    ensures LooksInt("\U{664}\U{662}")
  {
    var s := "42";
    assert s[0] == '4' && s[1] == '2';
    assert IntStrip(s) == s;
    assert IsDecimal(s[0]) && IsDecimal(s[1]);
    assert DigitRun(s);
    var a := "\U{664}\U{662}";
    assert IntStrip(a) == a;
    assert IsDecimal(a[0]) && IsDecimal(a[1]);
    assert DigitRun(a);
  }

  /** The only string of `{k: v}` is `v`, at path `k`. */
  lemma OneKeyLeaves(k: string, v: string)
    ensures IterStrings(JObj([Entry(k, JStr(v))])) == [Leaf([Key(k)], v)]
  {
    var f := [Entry(k, JStr(v))];
    assert IterStrings(JStr(v)) == [Leaf([], v)];
    assert IterFields(f, 1) == [];
    assert [Key(k)] + [] == [Key(k)];
    assert Under(Key(k), [Leaf([], v)]) == [Leaf([Key(k)], v)];
    assert IterFields(f, 0) == [Leaf([Key(k)], v)] + [];
  }

  /** The record `{k1: {k2: v}}`. */
  function Nested(k1: string, k2: string, v: string): Json
  {
    JObj([Entry(k1, JObj([Entry(k2, JStr(v))]))])
  }

  /** The only string of `{k1: {k2: v}}` is `v`, at path `k1`, `k2`. */
  lemma NestedKeyLeaves(k1: string, k2: string, v: string)
    ensures IterStrings(Nested(k1, k2, v)) == [Leaf([Key(k1), Key(k2)], v)]
  {
    OneKeyLeaves(k2, v);
    var f1 := [Entry(k1, JObj([Entry(k2, JStr(v))]))];
    assert IterFields(f1, 1) == [];
    assert [Key(k1)] + [Key(k2)] == [Key(k1), Key(k2)];
    assert Under(Key(k1), [Leaf([Key(k2)], v)]) == [Leaf([Key(k1), Key(k2)], v)];
    assert IterFields(f1, 0) == [Leaf([Key(k1), Key(k2)], v)] + [];
  }

  /** As written, a write whose first step is a numeric-looking dict key
      fails: RuntimeError when it is the last step, KeyError otherwise. */
  lemma ApplyPathNumericKey(fields: Entries<Json>, path: seq<Seg>, v: string)
    requires |path| > 0 && path[0].Key? && LooksInt(path[0].name)
    ensures ApplyPath(AsWritten, JObj(fields), path, v)
            == if |path| == 1 then Err(RuntimeError(SizeChanged)) else Err(KeyError(path[0].name))
  {
  }

  /** The leaf loop stops at the first leaf whose write fails, with that
      write's error and the store as that leaf's sanitizing left it. */
  lemma FirstWriteFails(san: TextFn, mode: Mode, leaves: seq<Leaf>, w: Walk, store: TokenStore)
    requires |leaves| > 0 && san(store, leaves[0].value).text != leaves[0].value
    requires ApplyPath(mode, w.tree, leaves[0].path, san(store, leaves[0].value).text).Err?
    ensures SanitizeLeaves(san, mode, leaves, w, store)
            == (san(store, leaves[0].value).store, Err(ApplyPath(mode, w.tree, leaves[0].path, san(store, leaves[0].value).text).error))
  {
  }

  /** A failing leaf loop makes `sanitize_record` raise the same error. */
  lemma WalkErrorRaised(san: TextFn, mode: Mode, store: TokenStore, record: Json, e: Error)
    requires !record.JStr? && SanitizeLeaves(san, mode, IterStrings(record), Walk(record, [], []), store).1 == Err(e)
    ensures SanitizeRecord(san, mode, store, record).1 == Err(e)
  {
  }

  /** A record whose only string leaf is rewritten and whose write fails
      raises that write's error. */
  lemma OnlyLeafFails(san: TextFn, store: TokenStore, record: Json, path: seq<Seg>, v: string, e: Error)
    requires !record.JStr? && IterStrings(record) == [Leaf(path, v)] && san(store, v).text != v
    requires ApplyPath(AsWritten, record, path, san(store, v).text) == Err(e)
    ensures SanitizeRecord(san, AsWritten, store, record).1 == Err(e)
  {
    FirstWriteFails(san, AsWritten, [Leaf(path, v)], Walk(record, [], []), store);
    WalkErrorRaised(san, AsWritten, store, record, e);
  }

  /** A numeric-looking key holding a string the sanitizer changes: as
      written the call raises RuntimeError, since an int key is added to the
      dict being iterated. */
  lemma {:induction false} NumericKeyBreaksAsWritten(san: TextFn, store: TokenStore, key: string, v: string)
    requires LooksInt(key) && san(store, v).text != v
    ensures SanitizeRecord(san, AsWritten, store, JObj([Entry(key, JStr(v))])).1 == Err(RuntimeError(SizeChanged))
  {
    var record := JObj([Entry(key, JStr(v))]);
    OneKeyLeaves(key, v);
    ApplyPathNumericKey(record.fields, [Key(key)], san(store, v).text);
    OnlyLeafFails(san, store, record, [Key(key)], v, RuntimeError(SizeChanged));
  }

  /** The same key with the string one level further down: as written the
      call raises KeyError, since the int key is looked up in the dict. */
  lemma {:induction false} NumericKeyBreaksNested(san: TextFn, store: TokenStore, key: string, inner: string, v: string)
    requires LooksInt(key) && san(store, v).text != v
    ensures SanitizeRecord(san, AsWritten, store, Nested(key, inner, v)).1 == Err(KeyError(key))
  {
    var record := Nested(key, inner, v);
    NestedKeyLeaves(key, inner, v);
    ApplyPathNumericKey(record.fields, [Key(key), Key(inner)], san(store, v).text);
    OnlyLeafFails(san, store, record, [Key(key), Key(inner)], v, KeyError(key));
  }

  /** The same two records are sanitized without error when dict keys are
      read as keys. */
  lemma NumericKeyByKind(san: TextFn, store: TokenStore, v: string)
    ensures SanitizeRecord(san, ByKind, store, JObj([Entry("42", JStr(v))])).1.Ok?
    ensures SanitizeRecord(san, ByKind, store, JObj([Entry("42", JObj([Entry("email", JStr(v))]))])).1.Ok?
  {
    SingleKeyByKind(san, store, "42", JStr(v));
    SingleKeyByKind(san, store, "42", JObj([Entry("email", JStr(v))]));
  }

  /** A one-key dict record whose key is neither `redactions` nor
      `hashed_fields` is sanitized without error when keys are read as keys. */
  lemma SingleKeyByKind(san: TextFn, store: TokenStore, key: string, value: Json)
    requires WellFormed(JObj([Entry(key, value)])) && key != "redactions" && key != "hashed_fields"
    ensures SanitizeRecord(san, ByKind, store, JObj([Entry(key, value)])).1.Ok?
  {
    var record := JObj([Entry(key, value)]);
    SanitizeRecordByKind(san, store, record);
    var w := SanitizeLeaves(san, ByKind, IterStrings(record), Walk(record, [], []), store).1.value;
    assert SameShape(record, w.tree);
    assert |w.tree.fields| == 1 && w.tree.fields[0].key == key;
    SanitizeRecordMerges(san, ByKind, store, record);
  }


  // ---------------------------------------------------------------------
  // Merging into `redactions` and `hashed_fields`

  lemma {:induction false} StringsToJsonGet(m: Entries<string>, k: string)
    ensures Get(StringsToJson(m), k) == if HasKey(m, k) then Some(JStr(Get(m, k).value)) else None
    ensures DistinctKeys(m) ==> DistinctKeys(StringsToJson(m))
  {
    if |m| > 0 {
      StringsToJsonGet(m[1..], k);
      assert StringsToJson(m)[1..] == StringsToJson(m[1..]);
    }
  }

  /** `setdefault(key, {})` found, or put, a dict. */
  predicate Mergeable(fields: Entries<Json>, key: string)
  {
    Get(fields, key).None? || Get(fields, key).value.JObj?
  }

  /** `after` is the dict `before` (or a new one) updated with `m`. */
  ghost predicate MergedFrom(after: Option<Json>, before: Option<Json>, m: Entries<string>)
  {
    && after.Some? && after.value.JObj?
    && forall k :: Get(after.value.fields, k) ==
         if HasKey(m, k) then Some(JStr(Get(m, k).value))
         else if before.None? || !before.value.JObj? then None
         else Get(before.value.fields, k)
  }

  /** `setdefault(key, {}).update(m)` succeeds exactly when the key is
      absent or holds a dict; then the dict under the key holds `m`'s
      entries over the ones it had, and every other key is untouched. */
  lemma MergeIntoSpec(fields: Entries<Json>, key: string, m: Entries<string>)
    requires DistinctKeys(m)
    ensures MergeInto(fields, key, m).Ok? <==> Mergeable(fields, key)
    ensures MergeInto(fields, key, m).Ok? ==>
              && (forall k :: k != key ==> Get(MergeInto(fields, key, m).value, k) == Get(fields, k))
              && MergedFrom(Get(MergeInto(fields, key, m).value, key), Get(fields, key), m)
  {
    if Mergeable(fields, key) {
      var base: Entries<Json> := if Get(fields, key).None? then [] else Get(fields, key).value.fields;
      var e := StringsToJson(m);
      var inner := Update(base, e);
      StringsToJsonGet(m, "");
      var f := Put(fields, key, JObj(inner));
      assert MergeInto(fields, key, m) == Ok(f);
      forall k
        ensures k != key ==> Get(f, k) == Get(fields, k)
        ensures Get(inner, k) == if HasKey(m, k) then Some(JStr(Get(m, k).value))
                                 else if Get(fields, key).None? then None
                                 else Get(Get(fields, key).value.fields, k)
      {
        PutGet(fields, key, JObj(inner), k);
        UpdateGet(base, e, k);
        StringsToJsonGet(m, k);
      }
      PutGet(fields, key, JObj(inner), key);
    }
  }

  /** The leaf loop keeps the root a dict and the maps free of repeated
      keys. */
  lemma {:induction false} WalkInvariants(san: TextFn, mode: Mode, leaves: seq<Leaf>, w: Walk, store: TokenStore)
    requires DistinctKeys(w.redactions) && DistinctKeys(w.hashed)
    ensures var walked := SanitizeLeaves(san, mode, leaves, w, store);
            walked.1.Ok? ==>
              && DistinctKeys(walked.1.value.redactions) && DistinctKeys(walked.1.value.hashed)
              && (w.tree.JObj? ==> walked.1.value.tree.JObj?)
    decreases |leaves|
  {
    if |leaves| > 0 {
      var ok, w' := LeafStep(san, mode, leaves, w, store);
      if ok {
        WalkInvariants(san, mode, leaves[1..], w', san(store, leaves[0].value).store);
      }
    }
  }

  /** One step of the leaf loop: either the write fails and the loop stops
      with an error, or it goes on from a walk state whose maps still repeat
      no key and whose root is still a dict if it was one. */
  lemma LeafStep(san: TextFn, mode: Mode, leaves: seq<Leaf>, w: Walk, store: TokenStore) returns (ok: bool, w': Walk)
    requires |leaves| > 0 && DistinctKeys(w.redactions) && DistinctKeys(w.hashed)
    ensures !ok ==> SanitizeLeaves(san, mode, leaves, w, store).1.Err?
    ensures ok ==> && SanitizeLeaves(san, mode, leaves, w, store) == SanitizeLeaves(san, mode, leaves[1..], w', san(store, leaves[0].value).store)
                   && DistinctKeys(w'.redactions) && DistinctKeys(w'.hashed)
                   && (w.tree.JObj? ==> w'.tree.JObj?)
  {
    var leaf := leaves[0];
    var tr := san(store, leaf.value);
    var applied := if tr.text != leaf.value then ApplyPath(mode, w.tree, leaf.path, tr.text) else Ok(w.tree);
    ok := applied.Ok?;
    w' := w;
    if ok {
      var ps := PathStrings(leaf.path);
      UpdateKeys(w.redactions, QualifyKeys(ps, tr.redactions));
      UpdateKeys(w.hashed, QualifyKeys(ps, tr.hashed));
      w' := Walk(applied.value, Update(w.redactions, QualifyKeys(ps, tr.redactions)), Update(w.hashed, QualifyKeys(ps, tr.hashed)));
    }
  }


  /** For a dict record whose leaf loop succeeds: the call fails (with
      AttributeError) exactly when `redactions` or `hashed_fields` already
      holds something other than a dict; otherwise both maps are merged into
      what was there, not put in its place, and no other key changes. */
  lemma SanitizeRecordMerges(san: TextFn, mode: Mode, store: TokenStore, record: Json)
    requires record.JObj?
    requires SanitizeLeaves(san, mode, IterStrings(record), Walk(record, [], []), store).1.Ok?
    ensures var w := SanitizeLeaves(san, mode, IterStrings(record), Walk(record, [], []), store).1.value;
            var r := SanitizeRecord(san, mode, store, record).1;
            && w.tree.JObj?
            && (r.Ok? <==> Mergeable(w.tree.fields, "redactions") && Mergeable(w.tree.fields, "hashed_fields"))
            && (r.Ok? ==>
                  && r.value.redactionMap == w.redactions && r.value.hashedFields == w.hashed
                  && r.value.sanitized.JObj?
                  && (forall k :: k != "redactions" && k != "hashed_fields" ==>
                        Get(r.value.sanitized.fields, k) == Get(w.tree.fields, k))
                  && MergedFrom(Get(r.value.sanitized.fields, "redactions"), Get(w.tree.fields, "redactions"), w.redactions)
                  && MergedFrom(Get(r.value.sanitized.fields, "hashed_fields"), Get(w.tree.fields, "hashed_fields"), w.hashed))
  {
    var leaves := IterStrings(record);
    WalkInvariants(san, mode, leaves, Walk(record, [], []), store);
    var w := SanitizeLeaves(san, mode, leaves, Walk(record, [], []), store).1.value;
    MergeIntoSpec(w.tree.fields, "redactions", w.redactions);
    if Mergeable(w.tree.fields, "redactions") {
      var f1 := MergeInto(w.tree.fields, "redactions", w.redactions).value;
      MergeIntoSpec(f1, "hashed_fields", w.hashed);
      assert Get(f1, "hashed_fields") == Get(w.tree.fields, "hashed_fields");
      if Mergeable(f1, "hashed_fields") {
        var f2 := MergeInto(f1, "hashed_fields", w.hashed).value;
        assert Get(f2, "redactions") == Get(f1, "redactions");
      }
    }
  }

  /** A string record becomes `{message, redactions, hashed_fields}` holding
      the sanitized text and its two maps, which are also the result's maps. */
  lemma StringRecordWrapped(san: TextFn, mode: Mode, store: TokenStore, s: string)
    ensures var tr := san(store, s);
            var out := SanitizeRecord(san, mode, store, JStr(s));
            && out.0 == tr.store && out.1.Ok?
            && out.1.value.redactionMap == tr.redactions && out.1.value.hashedFields == tr.hashed
            && out.1.value.sanitized.JObj?
            && Keys(out.1.value.sanitized.fields) == ["message", "redactions", "hashed_fields"]
            && Get(out.1.value.sanitized.fields, "message") == Some(JStr(tr.text))
            && MergedFrom(Get(out.1.value.sanitized.fields, "redactions"), None, tr.redactions)
            && MergedFrom(Get(out.1.value.sanitized.fields, "hashed_fields"), None, tr.hashed)
  {
    var tr := san(store, s);
    var fields := SanitizeRecord(san, mode, store, JStr(s)).1.value.sanitized.fields;
    assert fields == [Entry("message", JStr(tr.text)),
                      Entry("redactions", JObj(StringsToJson(tr.redactions))),
                      Entry("hashed_fields", JObj(StringsToJson(tr.hashed)))];
    assert Keys(fields) == ["message", "redactions", "hashed_fields"];
    assert Get(fields, "redactions") == Some(JObj(StringsToJson(tr.redactions)));
    assert fields[1..][1..] == fields[2..];
    assert Get(fields[2..], "hashed_fields") == Some(JObj(StringsToJson(tr.hashed)));
    assert Get(fields, "hashed_fields") == Some(JObj(StringsToJson(tr.hashed)));
    forall k
      ensures Get(StringsToJson(tr.hashed), k) == if HasKey(tr.hashed, k) then Some(JStr(Get(tr.hashed, k).value)) else None
    {
      StringsToJsonGet(tr.hashed, k);
    }
    forall k
      ensures Get(StringsToJson(tr.redactions), k) == if HasKey(tr.redactions, k) then Some(JStr(Get(tr.redactions, k).value)) else None
    {
      StringsToJsonGet(tr.redactions, k);
    }
  }

  // ---------------------------------------------------------------------
  // What the merged maps hold

  /** Every call of the per-string sanitizer returns real dicts: neither
      map repeats a key. */
  ghost predicate DictMaps(san: TextFn)
  {
    forall st, v :: DistinctKeys(san(st, v).redactions) && DistinctKeys(san(st, v).hashed)
  }

  /** `_sanitize_text` returns real dicts. */
  lemma TextOfDictMaps(env: Env)
    requires ValidDetector(env.detect)
    ensures DictMaps(TextOf(env))
  {
    forall st, v
      ensures DistinctKeys(TextOf(env)(st, v).redactions) && DistinctKeys(TextOf(env)(st, v).hashed)
    {
      SanitizeTextMapKeys(env, st, v);
    }
  }

  /** Reference: `_sanitize_text` applied to each string in turn, the store
      one call leaves handed to the next; every call's full result. */
  function SanitizeEach(san: TextFn, store: TokenStore, values: seq<string>): (r: seq<TextResult>)
    ensures |r| == |values|
    decreases |values|
  {
    if |values| == 0 then []
    else
      var tr := san(store, values[0]);
      [tr] + SanitizeEach(san, tr.store, values[1..])
  }

  /** The two references agree: the i-th call's text is the i-th sanitized
      string, and the last call's store is the store at the end. */
  lemma {:induction false} SanitizeEachAll(san: TextFn, store: TokenStore, values: seq<string>)
    ensures var each := SanitizeEach(san, store, values);
            var all := SanitizeAll(san, store, values);
            && (forall i :: 0 <= i < |values| ==> each[i].text == all.0[i])
            && all.1 == if |values| == 0 then store else each[|values| - 1].store
    decreases |values|
  {
    if |values| > 0 {
      var tr := san(store, values[0]);
      SanitizeEachAll(san, tr.store, values[1..]);
    }
  }

  /** The redaction map of a call, or its hash map. */
  function MapOf(tr: TextResult, hashes: bool): Entries<string>
  {
    if hashes then tr.hashed else tr.redactions
  }

  /** Each leaf's map under its dotted path, as `_qualify_keys` gives it. */
  function LeafMaps(leaves: seq<Leaf>, results: seq<TextResult>, hashes: bool): (r: seq<Entries<string>>)
    requires |results| == |leaves|
    ensures |r| == |leaves|
  {
    seq(|leaves|, i requires 0 <= i < |leaves| => QualifyKeys(PathStrings(leaves[i].path), MapOf(results[i], hashes)))
  }

  /** Reference for a run of `update` calls: what `x` reads once `base` has
      been updated with each of `parts` in turn. The last part holding `x`
      decides; if none does, `base` does. */
  function ReadAfter(base: Entries<string>, parts: seq<Entries<string>>, x: string): Option<string>
    decreases |parts|
  {
    if |parts| == 0 then Get(base, x)
    else if HasKey(parts[|parts| - 1], x) then Get(parts[|parts| - 1], x)
    else ReadAfter(base, parts[..|parts| - 1], x)
  }

  /** Updating with `p` and then with `parts` reads like updating with `p`
      and `parts` in turn. */
  lemma {:induction false} ReadAfterCons(base: Entries<string>, p: Entries<string>, parts: seq<Entries<string>>, x: string)
    requires DistinctKeys(p)
    ensures ReadAfter(Update(base, p), parts, x) == ReadAfter(base, [p] + parts, x)
    decreases |parts|
  {
    if |parts| == 0 {
      UpdateGet(base, p, x);
      assert [p][..0] == [];
    } else {
      var n := |parts|;
      assert ([p] + parts)[..n] == [p] + parts[..n - 1];
      ReadAfterCons(base, p, parts[..n - 1], x);
    }
  }

  /** A part holding `x` that no later part holds decides what `x` reads. */
  lemma {:induction false} ReadAfterLast(base: Entries<string>, parts: seq<Entries<string>>, i: nat, x: string)
    requires i < |parts| && HasKey(parts[i], x)
    requires forall j :: i < j < |parts| ==> !HasKey(parts[j], x)
    ensures ReadAfter(base, parts, x) == Get(parts[i], x)
    decreases |parts|
  {
    var n := |parts|;
    if i < n - 1 {
      assert !HasKey(parts[n - 1], x);
      ReadAfterLast(base, parts[..n - 1], i, x);
    }
  }

  /** `x` reads something only when the base or one of the parts holds it. */
  lemma {:induction false} ReadAfterSome(base: Entries<string>, parts: seq<Entries<string>>, x: string)
    requires ReadAfter(base, parts, x).Some?
    ensures HasKey(base, x) || exists i :: 0 <= i < |parts| && HasKey(parts[i], x)
    decreases |parts|
  {
    var n := |parts|;
    if n > 0 && !HasKey(parts[n - 1], x) {
      ReadAfterSome(base, parts[..n - 1], x);
      if !HasKey(base, x) {
        var i :| 0 <= i < n - 1 && HasKey(parts[..n - 1][i], x);
        assert HasKey(parts[i], x);
      }
    }
  }

  /** `_qualify_keys` keeps a dict a dict. */
  lemma QualifiedDistinct(path: seq<string>, m: Entries<string>)
    requires DistinctKeys(m)
    ensures DistinctKeys(QualifyKeys(path, m))
  {
    if |path| > 0 {
      QualifyKeysSpec(path, m);
    }
  }

  /** The first call of the per-leaf reference. */
  lemma EachCons(san: TextFn, store: TokenStore, leaves: seq<Leaf>)
    requires |leaves| > 0
    ensures var tr := san(store, leaves[0].value);
            SanitizeEach(san, store, Values(leaves)) == [tr] + SanitizeEach(san, tr.store, Values(leaves[1..]))
  {
    assert Values(leaves)[1..] == Values(leaves[1..]);
  }

  /** The first leaf's map comes first. */
  lemma LeafMapsCons(leaves: seq<Leaf>, results: seq<TextResult>, hashes: bool)
    requires |results| == |leaves| > 0
    ensures LeafMaps(leaves, results, hashes)
            == [QualifyKeys(PathStrings(leaves[0].path), MapOf(results[0], hashes))] + LeafMaps(leaves[1..], results[1..], hashes)
  {
    var l := LeafMaps(leaves, results, hashes);
    var r := [QualifyKeys(PathStrings(leaves[0].path), MapOf(results[0], hashes))] + LeafMaps(leaves[1..], results[1..], hashes);
    forall k | 0 <= k < |l| ensures l[k] == r[k] {
      if k > 0 {
        assert r[k] == LeafMaps(leaves[1..], results[1..], hashes)[k - 1];
      }
    }
  }

  /** One step of the leaf loop when the whole loop succeeds: it goes on
      from a walk state whose maps are the old ones updated with the first
      leaf's maps under its dotted path. */
  lemma MapsStep(san: TextFn, mode: Mode, leaves: seq<Leaf>, w: Walk, store: TokenStore) returns (w': Walk)
    requires |leaves| > 0 && SanitizeLeaves(san, mode, leaves, w, store).1.Ok?
    ensures var tr := san(store, leaves[0].value);
            var ps := PathStrings(leaves[0].path);
            && SanitizeLeaves(san, mode, leaves, w, store) == SanitizeLeaves(san, mode, leaves[1..], w', tr.store)
            && w'.redactions == Update(w.redactions, QualifyKeys(ps, tr.redactions))
            && w'.hashed == Update(w.hashed, QualifyKeys(ps, tr.hashed))
  {
    var leaf := leaves[0];
    var tr := san(store, leaf.value);
    var applied := if tr.text != leaf.value then ApplyPath(mode, w.tree, leaf.path, tr.text) else Ok(w.tree);
    var ps := PathStrings(leaf.path);
    w' := Walk(applied.value, Update(w.redactions, QualifyKeys(ps, tr.redactions)), Update(w.hashed, QualifyKeys(ps, tr.hashed)));
  }

  /** Both maps the leaf loop builds read, at every key, what the leaves'
      maps under their dotted paths give it, the later leaf winning, or
      else what they held before the loop. */
  lemma {:induction false} WalkMaps(san: TextFn, mode: Mode, leaves: seq<Leaf>, w: Walk, store: TokenStore, x: string)
    requires DictMaps(san)
    requires SanitizeLeaves(san, mode, leaves, w, store).1.Ok?
    ensures var done := SanitizeLeaves(san, mode, leaves, w, store).1.value;
            var each := SanitizeEach(san, store, Values(leaves));
            && Get(done.redactions, x) == ReadAfter(w.redactions, LeafMaps(leaves, each, false), x)
            && Get(done.hashed, x) == ReadAfter(w.hashed, LeafMaps(leaves, each, true), x)
    decreases |leaves|
  {
    if |leaves| > 0 {
      var tr := san(store, leaves[0].value);
      var ps := PathStrings(leaves[0].path);
      var w' := MapsStep(san, mode, leaves, w, store);
      WalkMaps(san, mode, leaves[1..], w', tr.store, x);
      QualifiedDistinct(ps, tr.redactions);
      QualifiedDistinct(ps, tr.hashed);
      var rest := SanitizeEach(san, tr.store, Values(leaves[1..]));
      EachCons(san, store, leaves);
      LeafMapsCons(leaves, [tr] + rest, false);
      LeafMapsCons(leaves, [tr] + rest, true);
      assert ([tr] + rest)[1..] == rest;
      ReadAfterCons(w.redactions, QualifyKeys(ps, tr.redactions), LeafMaps(leaves[1..], rest, false), x);
      ReadAfterCons(w.hashed, QualifyKeys(ps, tr.hashed), LeafMaps(leaves[1..], rest, true), x);
    }
  }

  /** A record that is not a string and is sanitized without error: the
      result's two maps are the ones the leaf loop built. */
  lemma RecordMapsFromWalk(san: TextFn, mode: Mode, store: TokenStore, record: Json)
    requires !record.JStr? && SanitizeRecord(san, mode, store, record).1.Ok?
    ensures var walked := SanitizeLeaves(san, mode, IterStrings(record), Walk(record, [], []), store).1;
            var r := SanitizeRecord(san, mode, store, record).1.value;
            && walked.Ok?
            && r.redactionMap == walked.value.redactions && r.hashedFields == walked.value.hashed
  {
  }

  /** The result's maps read, at every key, what the leaves' maps under their
      dotted paths give it, the later leaf winning, and nothing otherwise. */
  lemma SanitizeRecordMapsRead(san: TextFn, mode: Mode, store: TokenStore, record: Json, x: string)
    requires DictMaps(san) && !record.JStr? && SanitizeRecord(san, mode, store, record).1.Ok?
    ensures var leaves := IterStrings(record);
            var each := SanitizeEach(san, store, Values(leaves));
            var r := SanitizeRecord(san, mode, store, record).1.value;
            && Get(r.redactionMap, x) == ReadAfter([], LeafMaps(leaves, each, false), x)
            && Get(r.hashedFields, x) == ReadAfter([], LeafMaps(leaves, each, true), x)
  {
    RecordMapsFromWalk(san, mode, store, record);
    WalkMaps(san, mode, IterStrings(record), Walk(record, [], []), store, x);
  }

  /** Every call of the per-leaf reference returns real dicts. */
  lemma {:induction false} EachDistinct(san: TextFn, store: TokenStore, values: seq<string>)
    requires DictMaps(san)
    ensures forall i :: 0 <= i < |values| ==>
              DistinctKeys(SanitizeEach(san, store, values)[i].redactions) && DistinctKeys(SanitizeEach(san, store, values)[i].hashed)
    decreases |values|
  {
    if |values| > 0 {
      EachDistinct(san, san(store, values[0]).store, values[1..]);
    }
  }

  /** A token of leaf `i`'s map, with its dotted key in no later leaf's map,
      reads what leaf `i`'s map gives it. */
  lemma LeafMapsLast(leaves: seq<Leaf>, results: seq<TextResult>, hashes: bool, i: nat, t: string)
    requires |results| == |leaves| && i < |leaves| && |leaves[i].path| > 0
    requires DistinctKeys(MapOf(results[i], hashes)) && HasKey(MapOf(results[i], hashes), t)
    requires forall j :: i < j < |leaves| ==>
               !HasKey(LeafMaps(leaves, results, hashes)[j], QualifyKey(Join(".", PathStrings(leaves[i].path)), t))
    ensures ReadAfter([], LeafMaps(leaves, results, hashes), QualifyKey(Join(".", PathStrings(leaves[i].path)), t))
            == Get(MapOf(results[i], hashes), t)
  {
    var key := QualifyKey(Join(".", PathStrings(leaves[i].path)), t);
    QualifyKeysSpec(PathStrings(leaves[i].path), MapOf(results[i], hashes));
    ReadAfterLast([], LeafMaps(leaves, results, hashes), i, key);
  }

  /** A key that reads something is some leaf's dotted path joined to a
      token of that leaf's map. */
  lemma LeafMapsSome(leaves: seq<Leaf>, results: seq<TextResult>, hashes: bool, x: string)
    requires |results| == |leaves|
    requires forall k :: 0 <= k < |leaves| ==> |leaves[k].path| > 0 && DistinctKeys(MapOf(results[k], hashes))
    requires ReadAfter([], LeafMaps(leaves, results, hashes), x).Some?
    ensures exists i, t :: 0 <= i < |leaves| && HasKey(MapOf(results[i], hashes), t)
                           && x == QualifyKey(Join(".", PathStrings(leaves[i].path)), t)
  {
    ReadAfterSome([], LeafMaps(leaves, results, hashes), x);
    var i :| 0 <= i < |leaves| && HasKey(LeafMaps(leaves, results, hashes)[i], x);
    QualifyKeysSpec(PathStrings(leaves[i].path), MapOf(results[i], hashes));
  }

  /** The leaves of a well-formed record that is not a string all have
      non-empty paths. */
  lemma LeafPathsNonEmpty(record: Json)
    requires WellFormed(record) && !record.JStr?
    ensures forall k :: 0 <= k < |IterStrings(record)| ==> |IterStrings(record)[k].path| > 0
  {
    LeavesDistinct(record);
    forall k | 0 <= k < |IterStrings(record)| ensures |IterStrings(record)[k].path| > 0 {
      assert IterStrings(record)[k] in IterStrings(record);
    }
  }

  /** For a record sanitized without error: each token in the i-th string's
      redaction map is found in the result's redaction map under the
      string's dotted path joined to the token, with its label, and in the
      hash map with its hash, unless a later string's map holds the same
      dotted key. */
  lemma SanitizeRecordMapEntry(san: TextFn, mode: Mode, store: TokenStore, record: Json, i: nat, t: string)
    requires DictMaps(san) && WellFormed(record) && !record.JStr? && SanitizeRecord(san, mode, store, record).1.Ok?
    requires i < |IterStrings(record)|
    ensures var leaves := IterStrings(record);
            var each := SanitizeEach(san, store, Values(leaves));
            var r := SanitizeRecord(san, mode, store, record).1.value;
            var key := QualifyKey(Join(".", PathStrings(leaves[i].path)), t);
            && ((HasKey(each[i].redactions, t) && forall j :: i < j < |leaves| ==> !HasKey(LeafMaps(leaves, each, false)[j], key))
                ==> Get(r.redactionMap, key) == Get(each[i].redactions, t))
            && ((HasKey(each[i].hashed, t) && forall j :: i < j < |leaves| ==> !HasKey(LeafMaps(leaves, each, true)[j], key))
                ==> Get(r.hashedFields, key) == Get(each[i].hashed, t))
  {
    var leaves := IterStrings(record);
    var each := SanitizeEach(san, store, Values(leaves));
    var key := QualifyKey(Join(".", PathStrings(leaves[i].path)), t);
    LeafPathsNonEmpty(record);
    EachDistinct(san, store, Values(leaves));
    SanitizeRecordMapsRead(san, mode, store, record, key);
    if HasKey(each[i].redactions, t) && forall j :: i < j < |leaves| ==> !HasKey(LeafMaps(leaves, each, false)[j], key) {
      LeafMapsLast(leaves, each, false, i, t);
    }
    if HasKey(each[i].hashed, t) && forall j :: i < j < |leaves| ==> !HasKey(LeafMaps(leaves, each, true)[j], key) {
      LeafMapsLast(leaves, each, true, i, t);
    }
  }

  /** For a record sanitized without error, every key of the result's maps
      is some string's dotted path joined to a token of that string's map. */
  lemma SanitizeRecordMapKeys(san: TextFn, mode: Mode, store: TokenStore, record: Json, x: string)
    requires DictMaps(san) && WellFormed(record) && !record.JStr? && SanitizeRecord(san, mode, store, record).1.Ok?
    ensures var leaves := IterStrings(record);
            var each := SanitizeEach(san, store, Values(leaves));
            var r := SanitizeRecord(san, mode, store, record).1.value;
            && (HasKey(r.redactionMap, x) ==> exists i, t :: 0 <= i < |leaves| && HasKey(each[i].redactions, t)
                                                 && x == QualifyKey(Join(".", PathStrings(leaves[i].path)), t))
            && (HasKey(r.hashedFields, x) ==> exists i, t :: 0 <= i < |leaves| && HasKey(each[i].hashed, t)
                                                 && x == QualifyKey(Join(".", PathStrings(leaves[i].path)), t))
  {
    var leaves := IterStrings(record);
    var each := SanitizeEach(san, store, Values(leaves));
    var r := SanitizeRecord(san, mode, store, record).1.value;
    LeafPathsNonEmpty(record);
    EachDistinct(san, store, Values(leaves));
    SanitizeRecordMapsRead(san, mode, store, record, x);
    if HasKey(r.redactionMap, x) {
      LeafMapsSome(leaves, each, false, x);
    }
    if HasKey(r.hashedFields, x) {
      LeafMapsSome(leaves, each, true, x);
    }
  }
}
