/**
 Redaction of logged values. Which keys are sensitive is any predicate on keys: nothing here
 depends on the particular patterns.
*/
module Redaction {
  import opened Base

  datatype Json =
    | Null
    | Undefined
    | Boolean(b: bool)
    | Number(n: real)
    | Text(s: string)
    | Array(items: seq<Json>)
    | Object(fields: map<string, Json>)

  type KeyTest = string -> bool

  const REDACTED := Text("[REDACTED]")
  const MAX_DEPTH := 4

  /** Assigning this property of a plain object sets its prototype and creates no own property. */
  const PROTO := "__proto__"

  predicate Absent(v: Json) {
    v.Null? || v.Undefined?
  }

  function Redact(v: Json, depth: nat, sensitive: KeyTest): Json {
    if Absent(v) then v
    else if depth > MAX_DEPTH then REDACTED
    else
      match v
      case Array(items) => Array(seq(|items|, i requires 0 <= i < |items| => Redact(items[i], depth + 1, sensitive)))
      case Object(fields) =>
        Object(map k | k in fields && k != PROTO ::
          if sensitive(k) then REDACTED else Redact(fields[k], depth + 1, sensitive))
      case _ => v
  }

  /** The recursion as the code runs it: arrays through a map over the items, objects key by key. */
  method RedactSensitiveObject(value: Json, depth: nat, sensitive: KeyTest) returns (r: Json)
    ensures r == Redact(value, depth, sensitive)
    decreases value, 1
  {
    if Absent(value) {
      return value;
    }
    if depth > MAX_DEPTH {
      return REDACTED;
    }
    if value.Array? {
      r := RedactItems(value, depth, sensitive);
      return;
    }
    if !value.Object? {
      return value;
    }
    r := RedactEntries(value, depth, sensitive);
  }

  method RedactItems(value: Json, depth: nat, sensitive: KeyTest) returns (r: Json)
    requires value.Array? && depth <= MAX_DEPTH
    ensures r == Redact(value, depth, sensitive)
    decreases value, 0
  {
    var copies := [];
    for i := 0 to |value.items|
      invariant |copies| == i
      invariant forall j :: 0 <= j < i ==> copies[j] == Redact(value.items[j], depth + 1, sensitive)
    {
      var copy := RedactSensitiveObject(value.items[i], depth + 1, sensitive);
      copies := copies + [copy];
    }
    assert copies == Redact(value, depth, sensitive).items;
    return Array(copies);
  }

  /** What the copy holds under a key. */
  function Sanitized(fields: map<string, Json>, key: string, depth: nat, sensitive: KeyTest): Json
    requires key in fields
  {
    if sensitive(key) then REDACTED else Redact(fields[key], depth + 1, sensitive)
  }

  method RedactEntries(value: Json, depth: nat, sensitive: KeyTest) returns (r: Json)
    requires value.Object? && depth <= MAX_DEPTH
    ensures r == Redact(value, depth, sensitive)
    decreases value, 0
  {
    var sanitized: map<string, Json> := map[];
    var rest := value.fields.Keys;
    while rest != {}
      invariant rest <= value.fields.Keys
      invariant sanitized.Keys == value.fields.Keys - rest - {PROTO}
      invariant forall k :: k in sanitized ==> sanitized[k] == Sanitized(value.fields, k, depth, sensitive)
      decreases |rest|
    {
      var key :| key in rest;
      rest := rest - {key};
      var item := REDACTED;
      if !sensitive(key) {
        item := RedactSensitiveObject(value.fields[key], depth + 1, sensitive);
      }
      if key != PROTO {
        sanitized := sanitized[key := item];
      }
    }
    EntriesCopied(value.fields, sanitized, depth, sensitive);
    return Object(sanitized);
  }

  lemma EntriesCopied(fields: map<string, Json>, sanitized: map<string, Json>, depth: nat, sensitive: KeyTest)
    requires depth <= MAX_DEPTH && sanitized.Keys == fields.Keys - {PROTO}
    requires forall k :: k in sanitized ==> sanitized[k] == Sanitized(fields, k, depth, sensitive)
    ensures Object(sanitized) == Redact(Object(fields), depth, sensitive)
  {
    assert sanitized == Redact(Object(fields), depth, sensitive).fields;
  }

  // ---------------------------------------------------------------- absorption

  function Max(a: nat, b: nat): nat {
    if a < b then b else a
  }

  ghost predicate Absorbs(v: Json, d: nat, e: nat, sensitive: KeyTest) {
    Redact(Redact(v, d, sensitive), e, sensitive) == Redact(v, Max(d, e), sensitive)
  }

  lemma ItemsAbsorb(items: seq<Json>, d: nat, e: nat, sensitive: KeyTest)
    requires d <= MAX_DEPTH && e <= MAX_DEPTH
    requires forall i :: 0 <= i < |items| ==> Absorbs(items[i], d + 1, e + 1, sensitive)
    ensures Absorbs(Array(items), d, e, sensitive)
  {
    assert Redact(Redact(Array(items), d, sensitive), e, sensitive).items
        == Redact(Array(items), Max(d, e), sensitive).items;
  }

  lemma FieldsAbsorb(fields: map<string, Json>, d: nat, e: nat, sensitive: KeyTest)
    requires d <= MAX_DEPTH && e <= MAX_DEPTH
    requires forall k :: k in fields ==> Absorbs(fields[k], d + 1, e + 1, sensitive)
    ensures Absorbs(Object(fields), d, e, sensitive)
  {
    var once := Redact(Object(fields), d, sensitive).fields;
    var twice := Redact(Object(once), e, sensitive).fields;
    RedactedFields(fields, d, sensitive);
    RedactedFields(once, e, sensitive);
    forall k | k in twice
      ensures twice[k] == Sanitized(fields, k, Max(d, e), sensitive)
    {
      FieldTwice(fields, once, k, d, e, sensitive);
    }
    EntriesCopied(fields, twice, Max(d, e), sensitive);
  }

  lemma FieldTwice(fields: map<string, Json>, once: map<string, Json>, k: string, d: nat, e: nat, sensitive: KeyTest)
    requires d <= MAX_DEPTH && e <= MAX_DEPTH && k in fields && k in once
    requires Absorbs(fields[k], d + 1, e + 1, sensitive) && once[k] == Sanitized(fields, k, d, sensitive)
    ensures Sanitized(once, k, e, sensitive) == Sanitized(fields, k, Max(d, e), sensitive)
  {
    assert Max(d + 1, e + 1) == Max(d, e) + 1;
  }

  lemma RedactedFields(fields: map<string, Json>, depth: nat, sensitive: KeyTest)
    requires depth <= MAX_DEPTH
    ensures var redacted := Redact(Object(fields), depth, sensitive);
      && redacted.Object? && redacted.fields.Keys == fields.Keys - {PROTO}
      && forall k :: k in redacted.fields ==> redacted.fields[k] == Sanitized(fields, k, depth, sensitive)
  {
  }

  lemma ShallowAbsorbs(v: Json, d: nat, e: nat, sensitive: KeyTest)
    requires Leaf(v) || d > MAX_DEPTH || e > MAX_DEPTH
    ensures Absorbs(v, d, e, sensitive)
  {
    assert Absent(Redact(v, d, sensitive)) <==> Absent(v);
  }

  /** Redacting at one depth and then at another is redacting once at the deeper of the two. */
  lemma {:induction false} RedactAbsorbs(v: Json, d: nat, e: nat, sensitive: KeyTest)
    ensures Absorbs(v, d, e, sensitive)
    decreases v
  {
    if Leaf(v) || d > MAX_DEPTH || e > MAX_DEPTH {
      ShallowAbsorbs(v, d, e, sensitive);
    } else if v.Array? {
      forall i | 0 <= i < |v.items|
        ensures Absorbs(v.items[i], d + 1, e + 1, sensitive)
      {
        RedactAbsorbs(v.items[i], d + 1, e + 1, sensitive);
      }
      ItemsAbsorb(v.items, d, e, sensitive);
    } else {
      forall k | k in v.fields
        ensures Absorbs(v.fields[k], d + 1, e + 1, sensitive)
      {
        RedactAbsorbs(v.fields[k], d + 1, e + 1, sensitive);
      }
      FieldsAbsorb(v.fields, d, e, sensitive);
    }
  }

  /** Redaction is idempotent, and the order of two redactions does not matter. */
  lemma RedactIdempotentAndCommuting(v: Json, d: nat, e: nat, sensitive: KeyTest)
    ensures Redact(Redact(v, d, sensitive), d, sensitive) == Redact(v, d, sensitive)
    ensures Redact(Redact(v, d, sensitive), e, sensitive) == Redact(Redact(v, e, sensitive), d, sensitive)
  {
    RedactAbsorbs(v, d, d, sensitive);
    RedactAbsorbs(v, d, e, sensitive);
    RedactAbsorbs(v, e, d, sensitive);
  }

  /** A log record in which the values of these keys are redacted, each from its own top. */
  function WrittenRecord(record: map<string, Json>, keys: set<string>, sensitive: KeyTest): map<string, Json> {
    map k | k in record :: if k in keys then Redact(record[k], 0, sensitive) else record[k]
  }

  /**
   The headers and the query of a request are redacted when the log record is written, and once more
   inside the record's requestData when it is read: together that is one redaction of the raw record.
  */
  lemma WriteThenReadIsOneRedaction(record: map<string, Json>, keys: set<string>, sensitive: KeyTest)
    ensures Redact(Object(WrittenRecord(record, keys, sensitive)), 0, sensitive) == Redact(Object(record), 0, sensitive)
  {
    var written := WrittenRecord(record, keys, sensitive);
    var read := Redact(Object(written), 0, sensitive).fields;
    RedactedFields(written, 0, sensitive);
    forall k | k in read
      ensures read[k] == Sanitized(record, k, 0, sensitive)
    {
      RedactAbsorbs(record[k], 0, 1, sensitive);
    }
    EntriesCopied(record, read, 0, sensitive);
  }

  // --------------------------------------------------- what is left, path by path

  datatype Step = Index(i: nat) | Key(k: string)

  /** The value at the end of a path, if the path exists. */
  function At(v: Json, path: seq<Step>): Option<Json> {
    if path == [] then Some(v)
    else
      match path[0]
      case Index(i) => if v.Array? && i < |v.items| then At(v.items[i], path[1..]) else None
      case Key(k) => if v.Object? && k in v.fields then At(v.fields[k], path[1..]) else None
  }

  /** No key on the path is sensitive or the prototype property. */
  predicate Clean(path: seq<Step>, sensitive: KeyTest) {
    forall i :: 0 <= i < |path| && path[i].Key? ==> !sensitive(path[i].k) && path[i].k != PROTO
  }

  predicate Leaf(v: Json) {
    !v.Array? && !v.Object?
  }

  lemma AtItem(v: Json, depth: nat, sensitive: KeyTest, path: seq<Step>, i: nat)
    requires v.Array? && depth <= MAX_DEPTH && path != [] && path[0] == Index(i)
    ensures At(Redact(v, depth, sensitive), path) ==
      if i < |v.items| then At(Redact(v.items[i], depth + 1, sensitive), path[1..]) else None
  {
  }

  lemma AtField(v: Json, depth: nat, sensitive: KeyTest, path: seq<Step>, k: string)
    requires v.Object? && depth <= MAX_DEPTH && path != [] && path[0] == Key(k)
    ensures At(Redact(v, depth, sensitive), path) ==
      if k !in v.fields || k == PROTO then None
      else if sensitive(k) then At(REDACTED, path[1..])
      else At(Redact(v.fields[k], depth + 1, sensitive), path[1..])
  {
  }

  /** Where a leaf can still be seen: a clean path that is not too deep for it. */
  predicate Reachable(leaf: Json, depth: nat, sensitive: KeyTest, path: seq<Step>) {
    && Clean(path, sensitive)
    && (path == [] || depth + |path| - 1 <= 4)
    && (Absent(leaf) || depth + |path| <= 4)
  }

  lemma VisibleLeaf(v: Json, depth: nat, sensitive: KeyTest, leaf: Json)
    requires Leaf(leaf) && leaf != REDACTED
    ensures At(Redact(v, depth, sensitive), []) == Some(leaf) <==>
            At(v, []) == Some(leaf) && Reachable(leaf, depth, sensitive, [])
  {
  }

  /** There is nothing below the marker or below any other leaf. */
  lemma NothingBelow(v: Json, depth: nat, sensitive: KeyTest, path: seq<Step>)
    requires path != [] && (depth > MAX_DEPTH || Leaf(v))
    ensures At(Redact(v, depth, sensitive), path) == None
  {
  }

  /**
   A leaf other than the marker is found in the result exactly at the paths where it was before,
   that are free of sensitive keys and, unless the leaf is null or undefined, not too deep.
  */
  lemma {:induction false} VisibleExactly(v: Json, depth: nat, sensitive: KeyTest, path: seq<Step>, leaf: Json)
    requires Leaf(leaf) && leaf != REDACTED
    ensures At(Redact(v, depth, sensitive), path) == Some(leaf) <==>
            At(v, path) == Some(leaf) && Reachable(leaf, depth, sensitive, path)
    decreases |path|, 1
  {
    if path == [] {
      VisibleLeaf(v, depth, sensitive, leaf);
    } else if depth > MAX_DEPTH || Leaf(v) {
      NothingBelow(v, depth, sensitive, path);
    } else {
      VisibleBelow(v, depth, sensitive, path, leaf);
    }
  }

  lemma {:induction false} VisibleBelow(v: Json, depth: nat, sensitive: KeyTest, path: seq<Step>, leaf: Json)
    requires Leaf(leaf) && leaf != REDACTED && path != [] && depth <= MAX_DEPTH && !Leaf(v)
    ensures VisibleAsBefore(v, depth, sensitive, path, leaf)
    decreases |path|, 0
  {
    var rest := path[1..];
    match path[0]
    case Index(i) =>
      if v.Array? && i < |v.items| { VisibleExactly(v.items[i], depth + 1, sensitive, rest, leaf); }
      VisibleUnderItem(v, depth, sensitive, path, leaf, i);
    case Key(k) =>
      if v.Object? && k in v.fields { VisibleExactly(v.fields[k], depth + 1, sensitive, rest, leaf); }
      VisibleUnderField(v, depth, sensitive, path, leaf, k);
  }

  ghost predicate VisibleAsBefore(v: Json, depth: nat, sensitive: KeyTest, path: seq<Step>, leaf: Json) {
    At(Redact(v, depth, sensitive), path) == Some(leaf) <==>
      At(v, path) == Some(leaf) && Reachable(leaf, depth, sensitive, path)
  }

  lemma VisibleUnderItem(v: Json, depth: nat, sensitive: KeyTest, path: seq<Step>, leaf: Json, i: nat)
    requires path != [] && path[0] == Index(i) && depth <= MAX_DEPTH && !Leaf(v)
    requires v.Array? && i < |v.items| ==> VisibleAsBefore(v.items[i], depth + 1, sensitive, path[1..], leaf)
    ensures VisibleAsBefore(v, depth, sensitive, path, leaf)
  {
    ReachableBelow(leaf, depth, sensitive, path);
    if v.Array? { AtItem(v, depth, sensitive, path, i); }
  }

  lemma VisibleUnderField(v: Json, depth: nat, sensitive: KeyTest, path: seq<Step>, leaf: Json, k: string)
    requires path != [] && path[0] == Key(k) && depth <= MAX_DEPTH && !Leaf(v)
    requires v.Object? && k in v.fields ==> VisibleAsBefore(v.fields[k], depth + 1, sensitive, path[1..], leaf)
    requires leaf != REDACTED
    ensures VisibleAsBefore(v, depth, sensitive, path, leaf)
  {
    ReachableBelow(leaf, depth, sensitive, path);
    if v.Object? { AtField(v, depth, sensitive, path, k); }
  }

  lemma ReachableBelow(leaf: Json, depth: nat, sensitive: KeyTest, path: seq<Step>)
    requires path != [] && depth <= MAX_DEPTH
    ensures Reachable(leaf, depth, sensitive, path) <==>
      (path[0].Key? ==> !sensitive(path[0].k) && path[0].k != PROTO)
      && Reachable(leaf, depth + 1, sensitive, path[1..])
  {
    CleanHead(path, sensitive);
  }

  /** The path survives: no prototype property on it, no sensitive key before its end, not too long. */
  predicate Kept(depth: nat, sensitive: KeyTest, path: seq<Step>) {
    && (forall i :: 0 <= i < |path| && path[i].Key? ==>
          path[i].k != "__proto__" && (i < |path| - 1 ==> !sensitive(path[i].k)))
    && (path == [] || depth + |path| - 1 <= 4)
  }

  lemma KeptBelow(depth: nat, sensitive: KeyTest, path: seq<Step>)
    requires path != [] && depth <= MAX_DEPTH
    ensures Kept(depth, sensitive, path) <==>
      (path[0].Key? ==> path[0].k != PROTO && (|path| > 1 ==> !sensitive(path[0].k)))
      && Kept(depth + 1, sensitive, path[1..])
  {
    assert forall i :: 0 < i < |path| ==> path[i] == path[1..][i - 1];
  }

  ghost predicate KeptAsBefore(v: Json, depth: nat, sensitive: KeyTest, path: seq<Step>) {
    At(Redact(v, depth, sensitive), path).Some? <==> At(v, path).Some? && Kept(depth, sensitive, path)
  }

  lemma KeptUnderItem(v: Json, depth: nat, sensitive: KeyTest, path: seq<Step>, i: nat)
    requires path != [] && path[0] == Index(i) && depth <= MAX_DEPTH && !Leaf(v)
    requires v.Array? && i < |v.items| ==> KeptAsBefore(v.items[i], depth + 1, sensitive, path[1..])
    ensures KeptAsBefore(v, depth, sensitive, path)
  {
    KeptBelow(depth, sensitive, path);
    if v.Array? { AtItem(v, depth, sensitive, path, i); }
  }

  lemma KeptUnderField(v: Json, depth: nat, sensitive: KeyTest, path: seq<Step>, k: string)
    requires path != [] && path[0] == Key(k) && depth <= MAX_DEPTH && !Leaf(v)
    requires v.Object? && k in v.fields ==> KeptAsBefore(v.fields[k], depth + 1, sensitive, path[1..])
    ensures KeptAsBefore(v, depth, sensitive, path)
  {
    KeptBelow(depth, sensitive, path);
    if v.Object? { AtField(v, depth, sensitive, path, k); }
  }

  lemma KeptAtTop(v: Json, depth: nat, sensitive: KeyTest, path: seq<Step>)
    requires path == [] || depth > MAX_DEPTH || Leaf(v)
    ensures KeptAsBefore(v, depth, sensitive, path)
  {
    if path != [] { NothingBelow(v, depth, sensitive, path); }
  }

  /** A path leads somewhere in the result exactly when it did before and survives the redaction. */
  lemma {:induction false} PathsKeptExactly(v: Json, depth: nat, sensitive: KeyTest, path: seq<Step>)
    ensures KeptAsBefore(v, depth, sensitive, path)
    decreases |path|
  {
    if path == [] || depth > MAX_DEPTH || Leaf(v) {
      KeptAtTop(v, depth, sensitive, path);
    } else {
      match path[0]
      case Index(i) =>
        if v.Array? && i < |v.items| { PathsKeptExactly(v.items[i], depth + 1, sensitive, path[1..]); }
        KeptUnderItem(v, depth, sensitive, path, i);
      case Key(k) =>
        if v.Object? && k in v.fields { PathsKeptExactly(v.fields[k], depth + 1, sensitive, path[1..]); }
        KeptUnderField(v, depth, sensitive, path, k);
    }
  }

  ghost predicate MarkedOrAbsent(found: Option<Json>, before: Option<Json>) {
    found.None? || found == Some(Text("[REDACTED]")) || (Absent(found.value) && before == found)
  }

  lemma MarkedAtTop(v: Json, depth: nat, sensitive: KeyTest, path: seq<Step>)
    requires depth + |path| > 4 && (path == [] || depth > MAX_DEPTH || Leaf(v))
    ensures MarkedOrAbsent(At(Redact(v, depth, sensitive), path), At(v, path))
  {
    if path != [] { NothingBelow(v, depth, sensitive, path); }
  }

  /** Below the depth limit only the marker is left, and nulls and undefineds that were there before. */
  lemma {:induction false} DeepValuesAreMarked(v: Json, depth: nat, sensitive: KeyTest, path: seq<Step>)
    requires depth + |path| > 4
    ensures MarkedOrAbsent(At(Redact(v, depth, sensitive), path), At(v, path))
    decreases |path|
  {
    if path == [] || depth > MAX_DEPTH || Leaf(v) {
      MarkedAtTop(v, depth, sensitive, path);
    } else {
      match path[0]
      case Index(i) =>
        if v.Array? {
          AtItem(v, depth, sensitive, path, i);
          if i < |v.items| { DeepValuesAreMarked(v.items[i], depth + 1, sensitive, path[1..]); }
        }
      case Key(k) =>
        if v.Object? {
          AtField(v, depth, sensitive, path, k);
          if k in v.fields { DeepValuesAreMarked(v.fields[k], depth + 1, sensitive, path[1..]); }
        }
    }
  }

  lemma CleanHead(path: seq<Step>, sensitive: KeyTest)
    requires path != []
    ensures Clean(path, sensitive) <==>
      (path[0].Key? ==> !sensitive(path[0].k) && path[0].k != PROTO) && Clean(path[1..], sensitive)
  {
    assert forall i :: 0 < i < |path| ==> path[i] == path[1..][i - 1];
  }

  /** Wherever the result has a sensitive key, its value is the marker. */
  lemma {:induction false} SensitiveKeysAreMarked(v: Json, depth: nat, sensitive: KeyTest, path: seq<Step>, key: string)
    requires sensitive(key)
    ensures var found := At(Redact(v, depth, sensitive), path + [Key(key)]);
      found.Some? ==> found.value == Text("[REDACTED]")
    decreases |path|
  {
    var full := path + [Key(key)];
    if path == [] {
      assert full[1..] == [];
    } else {
      assert full[0] == path[0] && full[1..] == path[1..] + [Key(key)];
      var r := Redact(v, depth, sensitive);
      match path[0]
      case Index(i) =>
        if r.Array? && i < |r.items| { SensitiveKeysAreMarked(v.items[i], depth + 1, sensitive, path[1..], key); }
      case Key(k) =>
        if r.Object? && k in r.fields {
          if sensitive(k) {
            assert At(r, full) == At(REDACTED, full[1..]);
          } else {
            SensitiveKeysAreMarked(v.fields[k], depth + 1, sensitive, path[1..], key);
          }
        }
    }
  }
}
