/** Versioned ciphertext and the rotation-aware key ring (backend/internal/crypto/crypto.go). */
module CryptoRing {
  import opened Wrappers

  /** The primitives the ring is built on, left abstract: AES-GCM sealing and opening (sections 7.1 and 7.2 of NIST SP
      800-38D, nonce prepended), unpadded base64 (section 4 of RFC 4648) and the SHA-256 key fingerprint in hex. */
  datatype Library = Library(seal: (string, string, string) -> string,
                             open: (string, string) -> Option<string>,
                             encode: string -> string,
                             decode: string -> Option<string>,
                             fingerprint: string -> string)

  /** What is assumed of them: opening undoes sealing, a wrong key fails, base64 decodes what it encoded, and a
      hexadecimal fingerprint holds no colon. */
  ghost predicate Sound(lib: Library) {
    && (forall key, nonce, plain :: lib.open(key, lib.seal(key, nonce, plain)) == Some(plain))
    && (forall key, other, nonce, plain :: other != key ==> lib.open(other, lib.seal(key, nonce, plain)) == None)
    && (forall s :: lib.decode(lib.encode(s)) == Some(s))
    && (forall key :: ':' !in lib.fingerprint(key))
  }

  datatype KeyEntry = KeyEntry(id: string, key: string)

  datatype KeyRing = KeyRing(current: KeyEntry, previous: seq<KeyEntry>)

  datatype Error =
    | InvalidKey                // not 32 bytes
    | MissingKeyId              // enc:k without a second colon
    | Corrupt                   // not base64
    | UnknownKey(id: string)
    | CannotOpen                // wrong key or tampered data
    | UnrecognizedPrefix

  const ENC := "enc:"
  const VERSIONED := "enc:k"
  const LEGACY := "enc:v1:"
  const KEY_SIZE := 32

  predicate HasPrefix(s: string, prefix: string) {
    |prefix| <= |s| && s[..|prefix|] == prefix
  }

  function IndexOf(s: string, c: char): (i: Option<nat>)
    ensures i.Some? ==> i.value < |s| && s[i.value] == c && c !in s[..i.value]
    ensures i.None? ==> c !in s
  {
    if s == "" then None
    else if s[0] == c then Some(0)
    else match IndexOf(s[1..], c)
      case None => None
      case Some(i) => assert s[..i + 1] == [s[0]] + s[1..][..i]; Some(i + 1)
  }

  /** Reading `id:rest` back gives `id` and `rest` when `id` has no colon. */
  lemma IndexOfColon(id: string, rest: string)
    requires ':' !in id
    ensures IndexOf(id + ":" + rest, ':') == Some(|id|)
  {
    var s := id + ":" + rest;
    assert s[|id|] == ':';
    var i := IndexOf(s, ':');
    assert i.Some?;
  }

  function Entries(ring: KeyRing): seq<KeyEntry> {
    [ring.current] + ring.previous
  }

  function FindEntry(entries: seq<KeyEntry>, id: string): (e: Option<KeyEntry>)
    ensures e.Some? ==> e.value in entries && e.value.id == id
    ensures e.None? ==> forall x :: x in entries ==> x.id != id
  {
    if entries == [] then None else if entries[0].id == id then Some(entries[0]) else FindEntry(entries[1..], id)
  }

  /** The first key that opens the value, in ring order. */
  function OpenWithAny(lib: Library, entries: seq<KeyEntry>, sealed: string): Option<string> {
    if entries == [] then None
    else if lib.open(entries[0].key, sealed).Some? then lib.open(entries[0].key, sealed)
    else OpenWithAny(lib, entries[1..], sealed)
  }

  function NewEntry(lib: Library, key: string): Result<KeyEntry, Error> {
    if |key| != KEY_SIZE then Failure(InvalidKey) else Success(KeyEntry(lib.fingerprint(key), key))
  }

  /** `setup`: every key must have 32 bytes. */
  method Setup(lib: Library, current: string, previous: seq<string>) returns (r: Result<KeyRing, Error>)
    ensures r.Success? <==> |current| == 32 && forall i :: 0 <= i < |previous| ==> |previous[i]| == 32
    ensures r.Success? ==> MadeFrom(lib, r.value) && r.value.current.key == current
                           && |r.value.previous| == |previous|
                           && forall i :: 0 <= i < |previous| ==> r.value.previous[i].key == previous[i]
    ensures r.Failure? ==> r.error == InvalidKey
  {
    var cur := NewEntry(lib, current);
    if cur.Failure? {
      return Failure(cur.error);
    }
    var ring := KeyRing(cur.value, []);
    for i := 0 to |previous|
      invariant ring.current == cur.value && |ring.previous| == i
      invariant forall j :: 0 <= j < i ==> |previous[j]| == KEY_SIZE
      invariant forall j :: 0 <= j < i ==> ring.previous[j] == KeyEntry(lib.fingerprint(previous[j]), previous[j])
    {
      var e := NewEntry(lib, previous[i]);
      if e.Failure? {
        return Failure(e.error);
      }
      ring := ring.(previous := ring.previous + [e.value]);
    }
    return Success(ring);
  }

  /** Every entry carries its key's fingerprint. */
  ghost predicate MadeFrom(lib: Library, ring: KeyRing) {
    forall e :: e in Entries(ring) ==> e.id == lib.fingerprint(e.key)
  }

  /** Different keys of the ring have different fingerprints. */
  ghost predicate DistinctIds(ring: KeyRing) {
    forall e, f :: e in Entries(ring) && f in Entries(ring) && e.id == f.id ==> e.key == f.key
  }

  ghost predicate HoldsKey(ring: KeyRing, key: string) {
    exists e :: e in Entries(ring) && e.key == key
  }

  predicate UsesCurrentKey(ring: KeyRing, value: string) {
    HasPrefix(value, VERSIONED + ring.current.id + ":")
  }

  function Encrypt(lib: Library, ring: KeyRing, plain: string, nonce: string): string {
    VERSIONED + ring.current.id + ":" + lib.encode(lib.seal(ring.current.key, nonce, plain))
  }

  /** The writer from before rotation existed: one key, no key id. */
  function LegacyEncrypt(lib: Library, key: string, plain: string, nonce: string): string {
    LEGACY + lib.encode(lib.seal(key, nonce, plain))
  }

  function Decrypt(lib: Library, ring: KeyRing, value: string): Result<string, Error> {
    if !HasPrefix(value, ENC) then Success(value)
    else if HasPrefix(value, VERSIONED) then DecryptVersioned(lib, ring, value[|VERSIONED|..])
    else if HasPrefix(value, LEGACY) then DecryptLegacy(lib, ring, value[|LEGACY|..])
    else Failure(UnrecognizedPrefix)
  }

  /** `<key id>:<payload>`: only the named key is tried. */
  function DecryptVersioned(lib: Library, ring: KeyRing, text: string): Result<string, Error> {
    var colon := IndexOf(text, ':');
    if colon.None? then Failure(MissingKeyId) else
    var raw := lib.decode(text[colon.value + 1..]);
    if raw.None? then Failure(Corrupt) else
    var e := FindEntry(Entries(ring), text[..colon.value]);
    if e.None? then Failure(UnknownKey(text[..colon.value])) else
    var out := lib.open(e.value.key, raw.value);
    if out.None? then Failure(CannotOpen) else Success(out.value)
  }

  /** `<payload>`: every key is tried in ring order. */
  function DecryptLegacy(lib: Library, ring: KeyRing, text: string): Result<string, Error> {
    var raw := lib.decode(text);
    if raw.None? then Failure(Corrupt) else
    var out := OpenWithAny(lib, Entries(ring), raw.value);
    if out.None? then Failure(CannotOpen) else Success(out.value)
  }

  // ----- Dual read -----

  /** A value without the prefix, from before encryption or never encrypted, reads as itself under every ring. */
  lemma PlaintextReadsAsItself(lib: Library, ring: KeyRing, value: string)
    requires !HasPrefix(value, "enc:")
    ensures Decrypt(lib, ring, value) == Success(value)
  {
  }

  /** The value names a key of the ring, and that key opens the rest of it. */
  ghost predicate OpensByName(lib: Library, ring: KeyRing, value: string, plain: string) {
    exists e, rest, raw ::
      && e in Entries(ring) && value == "enc:k" + e.id + ":" + rest
      && lib.decode(rest) == Some(raw) && lib.open(e.key, raw) == Some(plain)
  }

  /** The value names no key, and `k` is the first key of the ring that opens it. */
  ghost predicate OpensInTurn(lib: Library, ring: KeyRing, value: string, plain: string) {
    exists rest, raw, k ::
      && value == "enc:v1:" + rest && lib.decode(rest) == Some(raw)
      && 0 <= k < |Entries(ring)| && lib.open(Entries(ring)[k].key, raw) == Some(plain)
      && forall j :: 0 <= j < k ==> lib.open(Entries(ring)[j].key, raw) == None
  }

  lemma {:induction false} OpenWithAnyFirst(lib: Library, entries: seq<KeyEntry>, raw: string) returns (k: nat)
    ensures k <= |entries| && forall j :: 0 <= j < k ==> lib.open(entries[j].key, raw) == None
    ensures OpenWithAny(lib, entries, raw) == if k < |entries| then lib.open(entries[k].key, raw) else None
    ensures k < |entries| ==> lib.open(entries[k].key, raw).Some?
  {
    if entries == [] || lib.open(entries[0].key, raw).Some? {
      k := 0;
    } else {
      var rest := OpenWithAnyFirst(lib, entries[1..], raw);
      k := rest + 1;
      forall j | 0 <= j < k ensures lib.open(entries[j].key, raw) == None {
        if j > 0 {
          assert entries[j] == entries[1..][j - 1];
        }
      }
    }
  }

  lemma VersionedIsByName(lib: Library, ring: KeyRing, value: string, plain: string)
    requires HasPrefix(value, VERSIONED) && Decrypt(lib, ring, value) == Success(plain)
    ensures OpensByName(lib, ring, value, plain)
  {
    var text := value[|VERSIONED|..];
    assert value[..|ENC|] == ENC;
    var colon := IndexOf(text, ':');
    var id, rest := text[..colon.value], text[colon.value + 1..];
    assert text == id + ":" + rest;
    assert value == VERSIONED + id + ":" + rest;
    var e := FindEntry(Entries(ring), id).value;
    assert lib.open(e.key, lib.decode(rest).value) == Some(plain);
  }

  lemma ByNameReads(lib: Library, ring: KeyRing, value: string, plain: string, e: KeyEntry, rest: string, raw: string)
    requires Sound(lib) && MadeFrom(lib, ring) && DistinctIds(ring)
    requires e in Entries(ring) && value == VERSIONED + e.id + ":" + rest
    requires lib.decode(rest) == Some(raw) && lib.open(e.key, raw) == Some(plain)
    ensures Decrypt(lib, ring, value) == Success(plain)
  {
    VersionedShape(e.id, rest);
  }

  lemma LegacyReadsExactly(lib: Library, ring: KeyRing, value: string, plain: string)
    requires HasPrefix(value, LEGACY)
    ensures Decrypt(lib, ring, value) == Success(plain) <==> OpensInTurn(lib, ring, value, plain)
  {
    var text := value[|LEGACY|..];
    assert value == LEGACY + text;
    assert value[..|ENC|] == ENC && value[4] == 'v' && VERSIONED[4] == 'k';
    if lib.decode(text).Some? {
      var k := OpenWithAnyFirst(lib, Entries(ring), lib.decode(text).value);
    }
    forall rest | value == LEGACY + rest ensures rest == text {
      assert (LEGACY + rest)[|LEGACY|..] == rest;
    }
  }

  /** Main result: what a ring reads, exactly. A value reads as `plain` if and only if it is that very text without
      the prefix, or names a key of the ring that opens it to `plain`, or names none and the first key that opens it
      does. */
  lemma ReadsExactly(lib: Library, ring: KeyRing, value: string, plain: string)
    requires Sound(lib) && MadeFrom(lib, ring) && DistinctIds(ring)
    ensures Decrypt(lib, ring, value) == Success(plain) <==>
            || (!HasPrefix(value, "enc:") && plain == value)
            || OpensByName(lib, ring, value, plain) || OpensInTurn(lib, ring, value, plain)
  {
    forall e: KeyEntry, rest | value == VERSIONED + e.id + ":" + rest ensures HasPrefix(value, VERSIONED) {
      assert value == VERSIONED + (e.id + ":" + rest);
    }
    forall rest | value == LEGACY + rest ensures HasPrefix(value, LEGACY) {
    }
    if HasPrefix(value, VERSIONED) {
      assert value[..|ENC|] == ENC && value[4] == 'k' && LEGACY[4] == 'v';
      if Decrypt(lib, ring, value) == Success(plain) {
        VersionedIsByName(lib, ring, value, plain);
      }
      forall e, rest, raw | e in Entries(ring) && value == VERSIONED + e.id + ":" + rest
                            && lib.decode(rest) == Some(raw) && lib.open(e.key, raw) == Some(plain)
        ensures Decrypt(lib, ring, value) == Success(plain)
      {
        ByNameReads(lib, ring, value, plain, e, rest, raw);
      }
    } else if HasPrefix(value, LEGACY) {
      assert value[..|ENC|] == ENC;
      LegacyReadsExactly(lib, ring, value, plain);
    }
  }

  lemma VersionedShape(id: string, payload: string)
    requires ':' !in id
    ensures var v := VERSIONED + id + ":" + payload;
            && HasPrefix(v, ENC) && HasPrefix(v, VERSIONED) && v[|VERSIONED|..] == id + ":" + payload
            && IndexOf(v[|VERSIONED|..], ':') == Some(|id|)
            && (id + ":" + payload)[..|id|] == id && (id + ":" + payload)[|id| + 1..] == payload
  {
    var v := VERSIONED + id + ":" + payload;
    IndexOfColon(id, payload);
    assert v[|VERSIONED|..] == id + ":" + payload;
    assert v[..|VERSIONED|] == VERSIONED && v[..|ENC|] == ENC;
  }

  /** What is encrypted under one ring is read back by every ring that holds the key it was encrypted with. */
  lemma EncryptThenDecrypt(lib: Library, writer: KeyRing, reader: KeyRing, plain: string, nonce: string)
    requires Sound(lib) && MadeFrom(lib, writer) && MadeFrom(lib, reader) && DistinctIds(reader)
    requires HoldsKey(reader, writer.current.key)
    ensures Decrypt(lib, reader, Encrypt(lib, writer, plain, nonce)) == Success(plain)
  {
    var id := writer.current.id;
    assert writer.current in Entries(writer);
    var payload := lib.encode(lib.seal(writer.current.key, nonce, plain));
    VersionedShape(id, payload);
    var e :| e in Entries(reader) && e.key == writer.current.key;
    assert e.id == id;
  }

  lemma {:induction false} OpenWithAnyFindsKey(lib: Library, entries: seq<KeyEntry>, key: string, nonce: string,
                                               plain: string)
    requires Sound(lib)
    ensures OpenWithAny(lib, entries, lib.seal(key, nonce, plain)) ==
            if exists e :: e in entries && e.key == key then Some(plain) else None
  {
    if entries != [] {
      OpenWithAnyFindsKey(lib, entries[1..], key, nonce, plain);
      if entries[0].key == key {
        assert entries[0] in entries;
      } else {
        assert forall e :: e in entries[1..] <==> e in entries && (e != entries[0] || e in entries[1..]);
      }
    }
  }

  /** A legacy value is read exactly by the rings that hold its key, whatever other keys they try first. */
  lemma LegacyReadableExactly(lib: Library, ring: KeyRing, key: string, plain: string, nonce: string)
    requires Sound(lib)
    ensures Decrypt(lib, ring, LegacyEncrypt(lib, key, plain, nonce)) ==
            if HoldsKey(ring, key) then Success(plain) else Failure(CannotOpen)
  {
    var payload := lib.encode(lib.seal(key, nonce, plain));
    var v := LegacyEncrypt(lib, key, plain, nonce);
    assert v[..|LEGACY|] == LEGACY && v[..|ENC|] == ENC && v[|LEGACY|..] == payload;
    assert v[4] == 'v';
    OpenWithAnyFindsKey(lib, Entries(ring), key, nonce, plain);
  }

  /** A versioned value whose key is not in the ring is refused, by name, instead of being misread. */
  lemma RetiredKeyRefused(lib: Library, writer: KeyRing, reader: KeyRing, plain: string, nonce: string)
    requires Sound(lib) && MadeFrom(lib, writer)
    requires forall e :: e in Entries(reader) ==> e.id != writer.current.id
    ensures Decrypt(lib, reader, Encrypt(lib, writer, plain, nonce)) == Failure(UnknownKey(writer.current.id))
  {
    assert writer.current in Entries(writer);
    VersionedShape(writer.current.id, lib.encode(lib.seal(writer.current.key, nonce, plain)));
  }

  /** Why a versioned value is refused, in this order: no second colon, not base64, a key id that no entry has, and text
      that the entry of that id does not open. */
  lemma VersionedRefused(lib: Library, ring: KeyRing, id: string, body: string, e: KeyEntry)
    requires ':' !in id && DistinctIds(ring)
    ensures Decrypt(lib, ring, VERSIONED + id) == Failure(MissingKeyId)
    ensures var r := Decrypt(lib, ring, VERSIONED + id + ":" + body);
            && (lib.decode(body).None? ==> r == Failure(Corrupt))
            && (lib.decode(body).Some? && (forall x :: x in Entries(ring) ==> x.id != id) ==>
                  r == Failure(UnknownKey(id)))
    ensures e in Entries(ring) && e.id == id && lib.decode(body).Some?
            && lib.open(e.key, lib.decode(body).value).None? ==>
              Decrypt(lib, ring, VERSIONED + id + ":" + body) == Failure(CannotOpen)
  {
    assert (VERSIONED + id)[..|ENC|] == ENC && (VERSIONED + id)[|VERSIONED|..] == id;
    VersionedShape(id, body);
  }

  /** And a legacy one: not base64, or opened by no key; and any other value with the prefix is refused as such. */
  lemma LegacyRefused(lib: Library, ring: KeyRing, body: string)
    ensures lib.decode(body).None? ==> Decrypt(lib, ring, LEGACY + body) == Failure(Corrupt)
    ensures lib.decode(body).Some? && (forall e :: e in Entries(ring) ==> lib.open(e.key, lib.decode(body).value).None?)
            ==> Decrypt(lib, ring, LEGACY + body) == Failure(CannotOpen)
    ensures !HasPrefix(ENC + body, VERSIONED) && !HasPrefix(ENC + body, LEGACY) ==>
              Decrypt(lib, ring, ENC + body) == Failure(UnrecognizedPrefix)
  {
    var value := LEGACY + body;
    assert value[..|ENC|] == ENC && value[4] == 'v' && VERSIONED[4] == 'k' && value[|LEGACY|..] == body;
    assert (ENC + body)[..|ENC|] == ENC;
    if lib.decode(body).Some? {
      var k := OpenWithAnyFirst(lib, Entries(ring), lib.decode(body).value);
      assert k < |Entries(ring)| ==> Entries(ring)[k] in Entries(ring);
    }
  }

  // ----- The assumptions can be met -----

  /** Each character escaped with a leading 'x'. */
  function Escape(s: string): string {
    if s == "" then "" else ['x', s[0]] + Escape(s[1..])
  }

  function ToySeal(key: string, nonce: string, plain: string): string {
    Escape(key) + "y" + plain
  }

  function ToyOpen(key: string, sealed: string): Option<string> {
    var header := Escape(key) + "y";
    if HasPrefix(sealed, header) then Some(sealed[|header|..]) else None
  }

  lemma {:induction false} EscapeInjective(a: string, b: string, s: string, t: string)
    requires Escape(a) + "y" + s == Escape(b) + "y" + t
    ensures a == b
  {
    var l, r := Escape(a) + "y" + s, Escape(b) + "y" + t;
    assert l[0] == r[0];
    if a != "" && b != "" {
      assert l[1] == r[1];
      assert l[2..] == Escape(a[1..]) + "y" + s && r[2..] == Escape(b[1..]) + "y" + t;
      EscapeInjective(a[1..], b[1..], s, t);
      assert a == [a[0]] + a[1..] && b == [b[0]] + b[1..];
    }
  }

  /** A fingerprint without colons that tells all keys apart: two characters for every one. */
  function ToyFingerprint(key: string): string {
    if key == "" then "" else (if key[0] == ':' then "-+" else ['+', key[0]]) + ToyFingerprint(key[1..])
  }

  lemma {:induction false} ToyFingerprintColonFree(key: string)
    ensures ':' !in ToyFingerprint(key)
  {
    if key != "" {
      ToyFingerprintColonFree(key[1..]);
    }
  }

  lemma {:induction false} ToyFingerprintInjective(a: string, b: string)
    requires ToyFingerprint(a) == ToyFingerprint(b)
    ensures a == b
  {
    var f, g := ToyFingerprint(a), ToyFingerprint(b);
    assert a == "" <==> |f| == 0;
    assert b == "" <==> |g| == 0;
    if a != "" {
      assert f[2..] == ToyFingerprint(a[1..]) && g[2..] == ToyFingerprint(b[1..]);
      ToyFingerprintInjective(a[1..], b[1..]);
      assert f[0] == g[0] && f[1] == g[1];
      assert a == [a[0]] + a[1..] && b == [b[0]] + b[1..];
    }
  }

  function ToyLibrary(): Library {
    Library(ToySeal, ToyOpen, (s: string) => s, (s: string) => Some(s), ToyFingerprint)
  }

  /** A library of this kind exists. */
  lemma SoundLibraryExists()
    ensures Sound(ToyLibrary())
  {
    forall key, nonce, plain ensures ToyOpen(key, ToySeal(key, nonce, plain)) == Some(plain) {
      assert ToySeal(key, nonce, plain)[..|Escape(key) + "y"|] == Escape(key) + "y";
    }
    forall key, other, nonce, plain | other != key ensures ToyOpen(other, ToySeal(key, nonce, plain)) == None {
      var sealed := ToySeal(key, nonce, plain);
      var header := Escape(other) + "y";
      if HasPrefix(sealed, header) {
        assert sealed == header + sealed[|header|..];
        EscapeInjective(key, other, plain, sealed[|header|..]);
      }
    }
    forall key ensures ':' !in ToyFingerprint(key) {
      ToyFingerprintColonFree(key);
    }
  }

  /** And over it, any two keys make a ring as `setup` makes it, so no result here, not even about rotation, is about
      nothing. */
  lemma RotatedRingExists(current: string, previous: string) returns (ring: KeyRing)
    ensures MadeFrom(ToyLibrary(), ring) && DistinctIds(ring)
    ensures ring.current.key == current && |ring.previous| == 1 && ring.previous[0].key == previous
  {
    var cur, prev := KeyEntry(ToyFingerprint(current), current), KeyEntry(ToyFingerprint(previous), previous);
    ring := KeyRing(cur, [prev]);
    assert Entries(ring) == [cur, prev];
    if ToyFingerprint(current) == ToyFingerprint(previous) {
      ToyFingerprintInjective(current, previous);
    }
  }
}
