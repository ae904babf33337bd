/** The audit trail's redaction and field diff (backend/internal/auditlog/auditlog.go). */
module AuditDiff {
  import opened Wrappers

  /** A decoded JSON value. */
  datatype Json =
    | Null
    | Bool(b: bool)
    | Num(n: real)
    | Str(s: string)
    | Arr(items: seq<Json>)
    | Obj(fields: map<string, Json>)

  datatype Change = Change(before: Json, after: Json)

  const REDACTED := Str("[REDACTED]")

  const SYSTEM_COLUMNS := {"id", "created_at", "updated_at", "deleted_at"}

  const SENSITIVE_WORDS := [
    "password", "passwd", "token", "secret", "apikey", "api_key", "authorization", "cookie",
    "credential", "private_key", "client_secret", "credit_card", "cc_number", "ssn", "pan"]

  function Lower(c: char): char {
    if 'A' <= c <= 'Z' then 'a' + (c - 'A') else c
  }

  /** Lower case, with hyphens as underscores. */
  function NormalizeKey(key: string): (r: string)
    ensures |r| == |key|
  {
    seq(|key|, i requires 0 <= i < |key| => if key[i] == '-' then '_' else Lower(key[i]))
  }

  predicate Contains(s: string, word: string) {
    exists i, j :: 0 <= i <= j <= |s| && s[i..j] == word
  }

  predicate IsSensitive(key: string) {
    exists w :: w in SENSITIVE_WORDS && Contains(NormalizeKey(key), w)
  }

  /** The characters are the same up to case, a hyphen counting as an underscore. */
  predicate Alike(c: char, d: char) {
    || c == d || (c == '-' && d == '_')
    || ('A' <= c <= 'Z' && d as int == c as int + 32)
  }

  /** From position `i` on the key spells the word, up to case and hyphens. */
  predicate SpellsAt(key: string, word: string, i: nat) {
    i + |word| <= |key| && forall j :: 0 <= j < |word| ==> Alike(key[i + j], word[j])
  }

  /** A word as it stands in the list: no capitals, no hyphens. */
  predicate Plain(word: string) {
    forall j :: 0 <= j < |word| ==> word[j] != '-' && !('A' <= word[j] <= 'Z')
  }

  lemma SpelledIsContained(key: string, word: string, i: nat)
    requires Plain(word) && i + |word| <= |key|
    ensures NormalizeKey(key)[i..i + |word|] == word <==> SpellsAt(key, word, i)
  {
    var part := NormalizeKey(key)[i..i + |word|];
    forall j | 0 <= j < |word| ensures part[j] == word[j] <==> Alike(key[i + j], word[j]) {
    }
    assert part == word <==> forall j :: 0 <= j < |word| ==> part[j] == word[j];
  }

  lemma ContainsExactly(key: string, word: string)
    requires Plain(word)
    ensures Contains(NormalizeKey(key), word) <==> exists i :: SpellsAt(key, word, i)
  {
    var n := NormalizeKey(key);
    if Contains(n, word) {
      var i, j :| 0 <= i <= j <= |n| && n[i..j] == word;
      SpelledIsContained(key, word, i);
    }
    forall i: nat | SpellsAt(key, word, i) ensures Contains(n, word) {
      SpelledIsContained(key, word, i);
    }
  }

  lemma WordIsPlain(k: nat)
    requires k < |SENSITIVE_WORDS|
    ensures Plain(SENSITIVE_WORDS[k])
  {
  }

  /** Which keys are sensitive: exactly those in which a word of the list stands somewhere, however it is capitalised
      and whether it is written with hyphens or underscores. */
  lemma SensitiveExactly(key: string)
    ensures IsSensitive(key) <==> exists w :: w in SENSITIVE_WORDS && exists i :: SpellsAt(key, w, i)
  {
    forall w | w in SENSITIVE_WORDS ensures Plain(w) {
      var k :| 0 <= k < |SENSITIVE_WORDS| && SENSITIVE_WORDS[k] == w;
      WordIsPlain(k);
    }
    EachWord(key, SENSITIVE_WORDS);
  }

  lemma EachWord(key: string, words: seq<string>)
    requires forall w :: w in words ==> Plain(w)
    ensures forall w :: w in words ==> (Contains(NormalizeKey(key), w) <==> exists i :: SpellsAt(key, w, i))
  {
    forall w | w in words ensures Contains(NormalizeKey(key), w) <==> exists i :: SpellsAt(key, w, i) {
      ContainsExactly(key, w);
    }
  }

  /** One of the words is spare: a key that contains "client_secret" contains "secret". The other fourteen decide. */
  lemma ClientSecretIsSpare(key: string)
    ensures IsSensitive(key) <==>
            exists w :: Contains(NormalizeKey(key), w) && w in [
              "password", "passwd", "token", "secret", "apikey", "api_key", "authorization", "cookie", "credential",
              "private_key", "credit_card", "cc_number", "ssn", "pan"]
  {
    var s, long := NormalizeKey(key), "client_secret";
    if Contains(s, long) {
      var i, j :| 0 <= i <= j <= |s| && s[i..j] == long;
      assert long[7..] == "secret";
      assert s[i + 7..j] == s[i..j][7..];
      assert Contains(s, "secret");
    }
  }

  function Redact(v: Json): Json {
    match v
    case Obj(fields) => Obj(map k | k in fields :: if IsSensitive(k) then REDACTED else Redact(fields[k]))
    case Arr(items) => Arr(seq(|items|, i requires 0 <= i < |items| => Redact(items[i])))
    case _ => v
  }

  /** The walk has replaced every entry but those in `rest`. */
  ghost predicate Walked(fields: map<string, Json>, t: map<string, Json>, rest: set<string>) {
    && rest <= fields.Keys == t.Keys
    && forall k :: k in fields ==>
         t[k] == if k in rest then fields[k] else if IsSensitive(k) then REDACTED else Redact(fields[k])
  }

  lemma WalkedOne(fields: map<string, Json>, t: map<string, Json>, rest: set<string>, k: string, val: Json)
    requires Walked(fields, t, rest) && k in rest && val == if IsSensitive(k) then REDACTED else Redact(fields[k])
    ensures Walked(fields, t[k := val], rest - {k})
  {
  }

  lemma WalkedAll(fields: map<string, Json>, t: map<string, Json>)
    requires Walked(fields, t, {})
    ensures Obj(t) == Redact(Obj(fields))
  {
    assert t == map k | k in fields :: if IsSensitive(k) then REDACTED else Redact(fields[k]);
  }

  /** The walk as the code does it: every map entry and every list item replaced in turn. */
  method RedactTree(v: Json) returns (r: Json)
    ensures r == Redact(v)
    decreases v
  {
    match v {
      case Obj(fields) =>
        var t := fields;
        var rest := fields.Keys;
        while rest != {}
          invariant Walked(fields, t, rest)
          decreases rest
        {
          var k :| k in rest;
          var val := REDACTED;
          if !IsSensitive(k) {
            val := RedactTree(fields[k]);
          }
          WalkedOne(fields, t, rest, k, val);
          t := t[k := val];
          rest := rest - {k};
        }
        WalkedAll(fields, t);
        return Obj(t);
      case Arr(items) =>
        var t := items;
        for i := 0 to |items|
          invariant |t| == |items|
          invariant forall j :: 0 <= j < i ==> t[j] == Redact(items[j])
          invariant forall j :: i <= j < |items| ==> t[j] == items[j]
        {
          var item := RedactTree(items[i]);
          t := t[i := item];
        }
        return Arr(t);
      case _ =>
        return v;
    }
  }

  // ----- What redaction hides -----

  /** No value under a sensitive key, at any depth, is anything but the marker. */
  predicate Clean(v: Json) {
    match v
    case Obj(fields) =>
      forall k :: k in fields ==> if IsSensitive(k) then fields[k] == Str("[REDACTED]") else Clean(fields[k])
    case Arr(items) => forall i :: 0 <= i < |items| ==> Clean(items[i])
    case _ => true
  }

  /** Two trees that differ at most in what stands under sensitive keys. */
  predicate SameBarSecrets(a: Json, b: Json) {
    match (a, b)
    case (Obj(f), Obj(g)) => f.Keys == g.Keys && forall k :: k in f && !IsSensitive(k) ==> SameBarSecrets(f[k], g[k])
    case (Arr(s), Arr(t)) => |s| == |t| && forall i :: 0 <= i < |s| ==> SameBarSecrets(s[i], t[i])
    case _ => a == b
  }

  /** Redaction leaves no secret, and touches nothing in a tree that has none: so doing it twice changes nothing. */
  lemma {:induction false} RedactCleans(v: Json)
    ensures Clean(Redact(v))
    ensures Clean(v) ==> Redact(v) == v
    ensures Redact(Redact(v)) == Redact(v)
    decreases v, 1
  {
    RedactIsClean(v);
    CleanStays(Redact(v));
    if Clean(v) {
      CleanStays(v);
    }
  }

  lemma {:induction false} RedactIsClean(v: Json)
    ensures Clean(Redact(v))
  {
    match v
    case Obj(fields) =>
      forall k | k in fields && !IsSensitive(k) ensures Clean(Redact(fields[k])) {
        RedactIsClean(fields[k]);
      }
    case Arr(items) =>
      forall i | 0 <= i < |items| ensures Clean(Redact(items[i])) {
        RedactIsClean(items[i]);
      }
    case _ =>
  }

  lemma {:induction false} CleanStays(v: Json)
    requires Clean(v)
    ensures Redact(v) == v
  {
    match v
    case Obj(fields) =>
      forall k | k in fields && !IsSensitive(k) ensures Redact(fields[k]) == fields[k] {
        CleanStays(fields[k]);
      }
      assert Redact(v).fields == fields;
    case Arr(items) =>
      forall i | 0 <= i < |items| ensures Redact(items[i]) == items[i] {
        CleanStays(items[i]);
      }
      assert Redact(v).items == items;
    case _ =>
  }

  /** Main result: redaction forgets exactly the sensitive values. Two trees redact to the same tree if and only if they
      agree everywhere else. */
  lemma {:induction false} RedactForgetsExactlySecrets(a: Json, b: Json)
    ensures Redact(a) == Redact(b) <==> SameBarSecrets(a, b)
  {
    match (a, b)
    case (Obj(f), Obj(g)) =>
      forall k | k in f && k in g && !IsSensitive(k)
        ensures Redact(f[k]) == Redact(g[k]) <==> SameBarSecrets(f[k], g[k])
      {
        RedactForgetsExactlySecrets(f[k], g[k]);
      }
      ObjectsCompare(f, g);
    case (Arr(s), Arr(t)) =>
      if |s| == |t| {
        forall i | 0 <= i < |s| ensures Redact(s[i]) == Redact(t[i]) <==> SameBarSecrets(s[i], t[i]) {
          RedactForgetsExactlySecrets(s[i], t[i]);
        }
      }
      ListsCompare(s, t);
    case _ =>
  }

  /** The entries of a redacted map, given which of its keys are secret. */
  predicate RedactedEntries(f: map<string, Json>, rf: map<string, Json>, secret: set<string>) {
    rf.Keys == f.Keys && forall k :: k in f ==> rf[k] == if k in secret then REDACTED else Redact(f[k])
  }

  /** The entries agree outside the secret keys. */
  ghost predicate AgreeOutside(f: map<string, Json>, g: map<string, Json>, secret: set<string>) {
    f.Keys == g.Keys && forall k :: k in f && k in g && k !in secret ==> Redact(f[k]) == Redact(g[k])
  }

  lemma EntriesCompare(f: map<string, Json>, rf: map<string, Json>, g: map<string, Json>, rg: map<string, Json>,
                       secret: set<string>)
    requires RedactedEntries(f, rf, secret) && RedactedEntries(g, rg, secret)
    ensures rf == rg <==> AgreeOutside(f, g, secret)
  {
    if rf == rg {
      forall k | k in f && k !in secret ensures Redact(f[k]) == Redact(g[k]) {
        assert rf[k] == Redact(f[k]) && rg[k] == Redact(g[k]);
      }
    }
    if AgreeOutside(f, g, secret) {
      assert forall k :: k in rf ==> rf[k] == rg[k];
    }
  }

  lemma ObjectsCompare(f: map<string, Json>, g: map<string, Json>)
    ensures Redact(Obj(f)) == Redact(Obj(g)) <==>
            f.Keys == g.Keys && forall k :: k in f && k in g && !IsSensitive(k) ==> Redact(f[k]) == Redact(g[k])
  {
    var secret := set k | k in f.Keys + g.Keys && IsSensitive(k);
    EntriesCompare(f, Redact(Obj(f)).fields, g, Redact(Obj(g)).fields, secret);
  }

  lemma ListsCompare(s: seq<Json>, t: seq<Json>)
    ensures Redact(Arr(s)) == Redact(Arr(t)) <==>
            |s| == |t| && forall i :: 0 <= i < |s| ==> Redact(s[i]) == Redact(t[i])
  {
    var rs, rt := Redact(Arr(s)).items, Redact(Arr(t)).items;
    assert |rs| == |s| && |rt| == |t|;
    assert forall i :: 0 <= i < |s| ==> rs[i] == Redact(s[i]);
    assert forall i :: 0 <= i < |t| ==> rt[i] == Redact(t[i]);
    if |s| == |t| && forall i :: 0 <= i < |s| ==> Redact(s[i]) == Redact(t[i]) {
      assert rs == rt;
    }
  }

  // ----- The diff -----

  /** A snapshot: absent (or not encodable), or a JSON value. */
  type Snapshot = Option<Json>

  /** `toMap`: anything but an object counts as the empty map. */
  function ToMap(s: Snapshot): map<string, Json> {
    if s.Some? && s.value.Obj? then Redact(s.value).fields else map[]
  }

  /** A missing field reads as null. */
  function Field(m: map<string, Json>, key: string): Json {
    if key in m then m[key] else Null
  }

  method ReadMap(s: Snapshot) returns (m: map<string, Json>)
    ensures m == ToMap(s)
  {
    if s.None? || !s.value.Obj? {
      return map[];
    }
    var r := RedactTree(s.value);
    return r.fields;
  }

  method Union(a: map<string, Json>, b: map<string, Json>) returns (keys: set<string>)
    ensures keys == a.Keys + b.Keys
  {
    keys := {};
    var rest := a.Keys;
    while rest != {}
      invariant rest <= a.Keys && keys == a.Keys - rest
      decreases rest
    {
      var k :| k in rest;
      keys, rest := keys + {k}, rest - {k};
    }
    rest := b.Keys;
    while rest != {}
      invariant rest <= b.Keys && keys == a.Keys + (b.Keys - rest)
      decreases rest
    {
      var k :| k in rest;
      keys, rest := keys + {k}, rest - {k};
    }
  }

  /** The diff lists a field exactly when it is no system column and its values, null when missing, differ. */
  ghost predicate IsDiff(changes: map<string, Change>, b: map<string, Json>, a: map<string, Json>) {
    && (forall k :: k in changes <==> k !in SYSTEM_COLUMNS && Field(b, k) != Field(a, k))
    && (forall k :: k in changes ==> changes[k] == Change(Field(b, k), Field(a, k)))
  }

  /** The columns never listed are the identity and the three timestamps. */
  lemma ListedExactly(changes: map<string, Change>, b: map<string, Json>, a: map<string, Json>, k: string)
    requires IsDiff(changes, b, a)
    ensures k in changes <==>
            && k != "id" && k != "created_at" && k != "updated_at" && k != "deleted_at" && Field(b, k) != Field(a, k)
  {
  }

  method Diff(before: Snapshot, after: Snapshot) returns (changes: map<string, Change>)
    ensures IsDiff(changes, ToMap(before), ToMap(after))
  {
    var b := ReadMap(before);
    var a := ReadMap(after);
    changes := map[];
    var rest := Union(b, a);
    while rest != {}
      invariant rest <= b.Keys + a.Keys
      invariant forall k :: k in changes <==>
                  k in b.Keys + a.Keys - rest && k !in SYSTEM_COLUMNS && Field(b, k) != Field(a, k)
      invariant forall k :: k in changes ==> changes[k] == Change(Field(b, k), Field(a, k))
      decreases rest
    {
      var key :| key in rest;
      rest := rest - {key};
      if key in SYSTEM_COLUMNS {
        continue;
      }
      if key in b && key in a && b[key] == a[key] {
        continue;
      }
      var old_ := Null;
      if key in b {
        old_ := b[key];
      }
      var new_ := Null;
      if key in a {
        new_ := a[key];
      }
      if old_ == Null && new_ == Null {
        continue;
      }
      changes := changes[key := Change(old_, new_)];
    }
  }

  // ----- The diff as a patch -----

  /** The part of a snapshot the diff speaks about: no nulls, no system columns. */
  function Core(m: map<string, Json>): map<string, Json> {
    map k | k in m && m[k] != Null && k !in SYSTEM_COLUMNS :: m[k]
  }

  /** Sets every field to the given value, null meaning removal. */
  function Patch(m: map<string, Json>, sets: map<string, Json>): map<string, Json> {
    map k | k in m.Keys + sets.Keys && (k in sets ==> sets[k] != Null) :: if k in sets then sets[k] else m[k]
  }

  function Afters(changes: map<string, Change>): map<string, Json> {
    map k | k in changes :: changes[k].after
  }

  function Befores(changes: map<string, Change>): map<string, Json> {
    map k | k in changes :: changes[k].before
  }

  /** Main result: the `after` sides turn the earlier snapshot into the later one, and the `before` sides turn it
      back. */
  lemma DiffIsPatch(before: Snapshot, after: Snapshot, changes: map<string, Change>)
    requires IsDiff(changes, ToMap(before), ToMap(after))
    ensures Patch(Core(ToMap(before)), Afters(changes)) == Core(ToMap(after))
    ensures Patch(Core(ToMap(after)), Befores(changes)) == Core(ToMap(before))
  {
    PatchForward(ToMap(before), ToMap(after), changes, Afters(changes));
    PatchForward(ToMap(after), ToMap(before), Swap(changes), Befores(changes));
  }

  function Swap(changes: map<string, Change>): map<string, Change> {
    map k | k in changes :: Change(changes[k].after, changes[k].before)
  }

  lemma PatchForward(b: map<string, Json>, a: map<string, Json>, changes: map<string, Change>, sets: map<string, Json>)
    requires IsDiff(changes, b, a) && sets == Afters(changes)
    ensures Patch(Core(b), sets) == Core(a)
  {
    var patched := Patch(Core(b), sets);
    forall k ensures k in patched <==> k in Core(a) {
      assert k in changes <==> k !in SYSTEM_COLUMNS && Field(b, k) != Field(a, k);
    }
    forall k | k in patched ensures patched[k] == Core(a)[k] {
      assert k in changes <==> k !in SYSTEM_COLUMNS && Field(b, k) != Field(a, k);
    }
  }

  /** Nothing superfluous: dropping any listed change from the patch misses the later snapshot. */
  lemma NoChangeIsSpare(before: Snapshot, after: Snapshot, changes: map<string, Change>, sets: map<string, Json>)
    requires IsDiff(changes, ToMap(before), ToMap(after))
    requires sets.Keys <= changes.Keys && forall k :: k in sets ==> sets[k] == changes[k].after
    ensures Patch(Core(ToMap(before)), sets) == Core(ToMap(after)) <==> sets.Keys == changes.Keys
  {
    if sets.Keys == changes.Keys {
      assert sets == Afters(changes);
      DiffIsPatch(before, after, changes);
    } else {
      var k :| k in changes && k !in sets;
      assert Field(ToMap(before), k) != Field(ToMap(after), k);
      var patched := Patch(Core(ToMap(before)), sets);
      assert k in patched <==> Field(ToMap(before), k) != Null;
      assert k in Core(ToMap(after)) <==> Field(ToMap(after), k) != Null;
    }
  }

  lemma DiffIsUnique(changes: map<string, Change>, changes2: map<string, Change>, b: map<string, Json>,
                     a: map<string, Json>)
    requires IsDiff(changes, b, a) && IsDiff(changes2, b, a)
    ensures changes == changes2 && (b == a ==> changes == map[])
  {
    assert forall k :: k in changes <==> k in changes2;
    if b == a {
      assert forall k :: k !in changes;
    }
  }

  /** Main result: the trail cannot tell two histories apart that differ only in secrets; in particular a change of
      nothing but secrets is not listed at all. */
  lemma DiffNeverShowsSecrets(before: Json, after: Json, before2: Json, after2: Json,
                              changes: map<string, Change>, changes2: map<string, Change>)
    requires SameBarSecrets(before, before2) && SameBarSecrets(after, after2)
    requires IsDiff(changes, ToMap(Some(before)), ToMap(Some(after)))
    requires IsDiff(changes2, ToMap(Some(before2)), ToMap(Some(after2)))
    ensures changes == changes2
    ensures SameBarSecrets(before, after) ==> changes == map[]
  {
    RedactForgetsExactlySecrets(before, before2);
    RedactForgetsExactlySecrets(after, after2);
    if SameBarSecrets(before, after) {
      RedactForgetsExactlySecrets(before, after);
    }
    DiffIsUnique(changes, changes2, ToMap(Some(before)), ToMap(Some(after)));
  }
}
