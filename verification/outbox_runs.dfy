/** The outbox over whole runs, through key rotations: nothing leaves the queue undelivered without its attempts used
    up. */
module OutboxRuns {
  import opened Wrappers
  import opened CryptoRing
  import opened Resilience
  import opened Outbox
  import R = Reencrypt

  // ----- Runs -----

  /** What a caller asked to be published. */
  datatype Submission = Submission(subject: string, eventType: string, payload: string, at: int)

  /** Everything that touches the outbox: queueing (with the fast publish accepted or not); one dispatched batch, whole,
      or by several dispatchers at once, each reading its batch and serving its copies one by one; a restart with a new
      current key, the old ring staying readable; the migration rewriting one row, or running through the first `reach`
      matching rows; and a restart without the previous keys. */
  datatype Step =
    | Submit(what: Submission, nonce: string, fastOk: bool)
    | Poll(fates: seq<Fate>, now: int)
    | Fetch(d: nat)
    | Serve(d: nat, fate: Fate, now: int)
    | Rotate(key: string)
    | Reencrypt(k: nat, nonce: string)
    | Migrate(nonces: nat -> string, reach: nat)
    | Retire

  /** `migrated` tells that a migration has run through since the last rotation; `held` are the rows that each
      dispatcher has read and not yet served, as it read them; `early` are the payloads of the first rows, which an
      earlier version stored unencrypted. */
  datatype World = World(st: State, submitted: seq<Submission>, ring: KeyRing, migrated: bool, held: map<nat, seq<Row>>,
                         early: seq<R.Json>)

  function Using(c: Config, ring: KeyRing): Config {
    c.(ring := ring)
  }

  /** `Setup(key, old...)`. */
  function Rotated(lib: Library, ring: KeyRing, key: string): KeyRing {
    KeyRing(KeyEntry(lib.fingerprint(key), key), Entries(ring))
  }

  /** The payload column as the migration sees it. */
  function Payloads(rows: seq<Row>): map<nat, R.Json> {
    map k: nat | k < |rows| :: rows[k].payload
  }

  function Matching(rows: seq<Row>): seq<nat> {
    R.Ascending(set k: nat | k < |rows| && R.EncryptedJson(rows[k].payload))
  }

  function Reached(rows: seq<Row>, reach: nat): seq<nat> {
    if reach < |Matching(rows)| then Matching(rows)[..reach] else Matching(rows)
  }

  ghost function MigratedRows(c: Config, rows: seq<Row>, nonce: nat -> string, reach: nat): seq<Row> {
    var now := R.Processed(Payloads(rows), R.JudgeJson(c.lib, c.ring, nonce), R.Done(Reached(rows, reach)));
    seq(|rows|, k requires 0 <= k < |rows| => rows[k].(payload := now[k]))
  }

  /** The batch a dispatcher reads. */
  function NextRows(st: State, c: Config): seq<Row> {
    PendingFromBounds(st.rows, 0);
    var batch := FirstPending(st.rows, c.batchSize);
    seq(|batch|, i requires 0 <= i < |batch| => st.rows[batch[i]])
  }

  ghost function Apply(w: World, config: Config, step: Step): World {
    var c := Using(config, w.ring);
    match step
    case Submit(s, nonce, fastOk) =>
      var id := |w.st.rows|;
      var e := Event(id, s.subject, s.eventType, s.payload, s.at);
      w.(st := w.st.(rows := w.st.rows + [NewRow(c.lib, c.ring, id, s.subject, s.eventType, s.payload, nonce, s.at)],
                     accepted := w.st.accepted + if fastOk then [e] else []),
         submitted := w.submitted + [s])
    case Poll(fates, now) => w.(st := Batch(w.st, c, fates, now))
    case Fetch(d) => w.(held := w.held[d := NextRows(w.st, c)])
    case Serve(d, fate, now) =>
      if d !in w.held || w.held[d] == [] || w.held[d][0].id >= |w.st.rows| then w
      else
        var copy := w.held[d][0];
        w.(st := ServeCopy(w.st, c, copy.id, copy, fate, now), held := w.held[d := w.held[d][1..]])
    case Rotate(key) =>
      if |key| != KEY_SIZE then w else w.(ring := Rotated(c.lib, w.ring, key), migrated := false, held := map[])
    case Reencrypt(k, nonce) =>
      if k >= |w.st.rows| then w
      else
        var row := w.st.rows[k];
        var payload := R.Outcome(R.ReencryptJson(c.lib, c.ring, row.payload, nonce), row.payload);
        w.(st := w.st.(rows := w.st.rows[k := row.(payload := payload)]))
    case Migrate(nonce, reach) =>
      w.(st := w.st.(rows := MigratedRows(c, w.st.rows, nonce, reach)),
         migrated := w.migrated || reach >= |Matching(w.st.rows)|)
    case Retire => if w.migrated then w.(ring := R.Retired(w.ring), held := map[]) else w
  }

  ghost function Run(w: World, c: Config, steps: seq<Step>): World {
    if steps == [] then w else Apply(Run(w, c, steps[..|steps| - 1]), c, steps[|steps| - 1])
  }

  /** A row of an earlier version, whose payload was not encrypted. */
  datatype Old = Old(subject: string, eventType: string, payload: R.Json, at: int)

  /** The outbox as the first version with encryption finds it. */
  function Begin(c: Config, olds: seq<Old>): World {
    var rows := seq(|olds|, k requires 0 <= k < |olds| =>
                      Row(k, olds[k].subject, olds[k].eventType, olds[k].payload, olds[k].at, None, 0, ""));
    var submitted := seq(|olds|, k requires 0 <= k < |olds| =>
                           Submission(olds[k].subject, olds[k].eventType, R.PlainText(olds[k].payload), olds[k].at));
    World(State(rows, [], FRESH, 0, []), submitted, c.ring, true, map[],
          seq(|olds|, k requires 0 <= k < |olds| => olds[k].payload))
  }

  /** A migration step is a run of `MigrateOutbox` as its contract describes it, complete if it reaches every matching
      row. */
  lemma MigrateIsARun(c: Config, rows: seq<Row>, nonce: nat -> string, reach: nat)
    ensures R.Lists(Matching(rows), Payloads(rows), R.EncryptedJson)
    ensures var judge := R.JudgeJson(c.lib, c.ring, nonce);
            R.Progress(Payloads(rows), judge, Matching(rows), Payloads(MigratedRows(c, rows, nonce, reach)),
                       Reached(rows, reach), |R.Rewritten(Payloads(rows), judge, R.Done(Reached(rows, reach)))|)
    ensures reach >= |Matching(rows)| ==> Reached(rows, reach) == Matching(rows)
  {
    R.AscendingLists(set k: nat | k < |rows| && R.EncryptedJson(rows[k].payload));
    var now := R.Processed(Payloads(rows), R.JudgeJson(c.lib, c.ring, nonce), R.Done(Reached(rows, reach)));
    assert Payloads(MigratedRows(c, rows, nonce, reach)) == now;
  }

  // ----- The invariant -----

  function FailedTurns(turns: seq<Turn>, id: nat): nat {
    if turns == [] then 0
    else FailedTurns(turns[..|turns| - 1], id) + if turns[|turns| - 1] == FailedTurn(id) then 1 else 0
  }

  /** The event is the submission: same subject, type, original payload and time. */
  predicate Carries(e: Event, s: Submission) {
    e.subject == s.subject && e.eventType == s.eventType && e.payload == s.payload && e.timestamp == s.at
  }

  ghost predicate Accepted(accepted: seq<Event>, id: nat, s: Submission) {
    exists e :: e in accepted && e.id == id && Carries(e, s)
  }

  /** The payload was sealed with the key of `e`. */
  ghost predicate SealedBy(lib: Library, e: KeyEntry, payload: R.Json, plain: string) {
    exists nonce :: payload == R.JString(Encrypt(lib, KeyRing(e, []), plain, nonce))
  }

  ghost predicate Sealed(lib: Library, ring: KeyRing, payload: R.Json, plain: string) {
    exists e :: e in Entries(ring) && SealedBy(lib, e, payload, plain)
  }

  /** The payload says `plain`: unencrypted, or sealed with a key of the ring. */
  ghost predicate Holds(lib: Library, ring: KeyRing, payload: R.Json, plain: string) {
    (R.PlainPayload(payload) && plain == R.PlainText(payload)) || Sealed(lib, ring, payload, plain)
  }

  /** A stored row is still its submission, its attempts were really made, and it left the queue for a reason. */
  ghost predicate RowOK(c: Config, st: State, k: nat, row: Row, s: Submission) {
    && row.id == k && row.subject == s.subject && row.eventType == s.eventType && row.createdAt == s.at
    && Holds(c.lib, c.ring, row.payload, s.payload)
    && row.attempts <= FailedTurns(st.turns, k)
    && (!Pending(row) ==> Accepted(st.accepted, k, s) || FailedTurns(st.turns, k) >= c.maxAttempts)
    && (row.lastError == "dead_lettered" ==> !Pending(row) && FailedTurns(st.turns, k) >= c.maxAttempts)
  }

  ghost predicate RowsOK(c: Config, st: State, submitted: seq<Submission>) {
    && |st.rows| == |submitted|
    && (forall k :: 0 <= k < |submitted| ==> RowOK(c, st, k, st.rows[k], submitted[k]))
    && (forall e :: e in st.accepted ==> e.id < |submitted| && Carries(e, submitted[e.id]))
  }

  /** A copy is a row as it once was: still its submission, readable with the ring in use, its attempts really made. */
  ghost predicate CopyOK(c: Config, turns: seq<Turn>, copy: Row, submitted: seq<Submission>) {
    && copy.id < |submitted|
    && copy.subject == submitted[copy.id].subject && copy.eventType == submitted[copy.id].eventType
    && copy.createdAt == submitted[copy.id].at
    && Holds(c.lib, c.ring, copy.payload, submitted[copy.id].payload)
    && copy.attempts <= FailedTurns(turns, copy.id)
  }

  ghost predicate HeldOK(c: Config, turns: seq<Turn>, held: map<nat, seq<Row>>, submitted: seq<Submission>) {
    forall d, i :: d in held && 0 <= i < |held[d]| ==> CopyOK(c, turns, held[d][i], submitted)
  }

  /** Different keys have different fingerprints. */
  ghost predicate CollisionFree(lib: Library, keys: set<string>) {
    forall a, b :: a in keys && b in keys && lib.fingerprint(a) == lib.fingerprint(b) ==> a == b
  }

  ghost predicate KeysWithin(ring: KeyRing, keys: set<string>) {
    forall e :: e in Entries(ring) ==> e.key in keys
  }

  /** Every encrypted payload is sealed with the current key. */
  ghost predicate AllCurrent(lib: Library, ring: KeyRing, rows: seq<Row>, submitted: seq<Submission>) {
    |rows| == |submitted|
    && forall k :: 0 <= k < |rows| && R.EncryptedJson(rows[k].payload) ==>
         SealedBy(lib, ring.current, rows[k].payload, submitted[k].payload)
  }

  /** The old payloads are as they were, and all others are encrypted. */
  ghost predicate OldKept(early: seq<R.Json>, rows: seq<Row>) {
    && |early| <= |rows|
    && (forall k :: 0 <= k < |early| ==> R.PlainPayload(early[k]) && rows[k].payload == early[k])
    && (forall k :: |early| <= k < |rows| ==> R.EncryptedJson(rows[k].payload))
  }

  ghost predicate Inv(c: Config, keys: set<string>, w: World) {
    && RowsOK(Using(c, w.ring), w.st, w.submitted)
    && HeldOK(Using(c, w.ring), w.st.turns, w.held, w.submitted)
    && R.GoodRing(c.lib, w.ring) && KeysWithin(w.ring, keys)
    && (w.migrated ==> AllCurrent(c.lib, w.ring, w.st.rows, w.submitted))
    && OldKept(w.early, w.st.rows)
  }

  // ----- Sealed payloads -----

  lemma SealedReads(lib: Library, ring: KeyRing, payload: R.Json, plain: string)
    requires R.GoodRing(lib, ring) && Sealed(lib, ring, payload, plain)
    ensures R.ReadPayload(lib, ring, payload) == Success(plain)
  {
    var e :| e in Entries(ring) && SealedBy(lib, e, payload, plain);
    var nonce :| payload == R.JString(Encrypt(lib, KeyRing(e, []), plain, nonce));
    assert Entries(KeyRing(e, [])) == [e];
    EncryptThenDecrypt(lib, KeyRing(e, []), ring, plain, nonce);
  }

  lemma HoldsReads(lib: Library, ring: KeyRing, payload: R.Json, plain: string)
    requires R.GoodRing(lib, ring) && Holds(lib, ring, payload, plain)
    ensures R.ReadPayload(lib, ring, payload) == Success(plain)
  {
    if R.PlainPayload(payload) && plain == R.PlainText(payload) {
      R.PlainPayloadReads(lib, ring, payload);
    } else {
      SealedReads(lib, ring, payload, plain);
    }
  }

  lemma SealedIsEncrypted(lib: Library, e: KeyEntry, payload: R.Json, plain: string)
    requires SealedBy(lib, e, payload, plain)
    ensures R.EncryptedJson(payload) && !R.PlainPayload(payload)
  {
    var nonce :| payload == R.JString(Encrypt(lib, KeyRing(e, []), plain, nonce));
    R.EncryptMatches(lib, KeyRing(e, []), plain, nonce);
  }

  /** An encrypted payload that holds a text is sealed. */
  lemma EncryptedIsSealed(lib: Library, ring: KeyRing, payload: R.Json, plain: string)
    requires Holds(lib, ring, payload, plain) && R.EncryptedJson(payload)
    ensures Sealed(lib, ring, payload, plain)
  {
  }

  lemma EncryptSeals(lib: Library, ring: KeyRing, plain: string, nonce: string)
    ensures SealedBy(lib, ring.current, R.JString(Encrypt(lib, ring, plain, nonce)), plain)
  {
    assert Encrypt(lib, ring, plain, nonce) == Encrypt(lib, KeyRing(ring.current, []), plain, nonce);
  }

  lemma CurrentIsSealed(lib: Library, ring: KeyRing, payload: R.Json, plain: string)
    requires SealedBy(lib, ring.current, payload, plain)
    ensures Sealed(lib, ring, payload, plain)
  {
    assert ring.current in Entries(ring);
  }

  /** A value sealed with some key of the ring looks current exactly if it was sealed with the current key. */
  lemma LooksCurrentExactly(lib: Library, ring: KeyRing, e: KeyEntry, plain: string, nonce: string)
    requires R.GoodRing(lib, ring) && e in Entries(ring)
    ensures UsesCurrentKey(ring, Encrypt(lib, KeyRing(e, []), plain, nonce)) <==> e == ring.current
  {
    assert ring.current in Entries(ring);
    var cur := ring.current;
    var v := Encrypt(lib, KeyRing(e, []), plain, nonce);
    var rest := lib.encode(lib.seal(e.key, nonce, plain));
    VersionedShape(e.id, rest);
    R.EncryptMatches(lib, KeyRing(e, []), plain, nonce);
    if UsesCurrentKey(ring, v) {
      var header := VERSIONED + cur.id + ":";
      assert v == VERSIONED + cur.id + ":" + v[|header|..];
      VersionedShape(cur.id, v[|header|..]);
      assert v[|VERSIONED|..][..|e.id|] == e.id && v[|VERSIONED|..][..|cur.id|] == cur.id;
    }
  }

  /** Rewriting leaves a readable payload sealed with the current key, and leaves one that already is alone. */
  lemma RewriteSeals(lib: Library, ring: KeyRing, payload: R.Json, plain: string, nonce: string)
    requires R.GoodRing(lib, ring) && Sealed(lib, ring, payload, plain)
    ensures SealedBy(lib, ring.current, R.Outcome(R.ReencryptJson(lib, ring, payload, nonce), payload), plain)
    ensures R.EncryptedJson(payload)
    ensures R.ReencryptJson(lib, ring, payload, nonce).Rewrite? <==> !UsesCurrentKey(ring, payload.s)
  {
    SealedReads(lib, ring, payload, plain);
    var e :| e in Entries(ring) && SealedBy(lib, e, payload, plain);
    var n :| payload == R.JString(Encrypt(lib, KeyRing(e, []), plain, n));
    R.EncryptMatches(lib, KeyRing(e, []), plain, n);
    LooksCurrentExactly(lib, ring, e, plain, n);
    EncryptSeals(lib, ring, plain, nonce);
  }

  /** Rewriting leaves every payload saying what it said: an unencrypted one untouched, an encrypted one sealed with the
      current key. */
  lemma RewriteHolds(lib: Library, ring: KeyRing, payload: R.Json, plain: string, nonce: string)
    requires R.GoodRing(lib, ring) && Holds(lib, ring, payload, plain)
    ensures var after := R.Outcome(R.ReencryptJson(lib, ring, payload, nonce), payload);
            && Holds(lib, ring, after, plain)
            && (R.EncryptedJson(after) <==> R.EncryptedJson(payload))
            && if R.EncryptedJson(payload)
               then && SealedBy(lib, ring.current, after, plain)
                    && (R.ReencryptJson(lib, ring, payload, nonce).Rewrite? <==> !UsesCurrentKey(ring, payload.s))
               else after == payload
  {
    var after := R.Outcome(R.ReencryptJson(lib, ring, payload, nonce), payload);
    if R.EncryptedJson(payload) {
      RewriteSeals(lib, ring, payload, plain, nonce);
      CurrentIsSealed(lib, ring, after, plain);
      SealedIsEncrypted(lib, ring.current, after, plain);
    } else if Sealed(lib, ring, payload, plain) {
      var e :| e in Entries(ring) && SealedBy(lib, e, payload, plain);
      SealedIsEncrypted(lib, e, payload, plain);
    }
  }

  // ----- Every step keeps it -----

  lemma FailedTurnsGrow(turns: seq<Turn>, t: Turn, id: nat)
    ensures FailedTurns(turns + [t], id) == FailedTurns(turns, id) + if t == FailedTurn(id) then 1 else 0
  {
    assert (turns + [t])[..|turns|] == turns;
  }

  /** More events and more turns never hurt a row. */
  lemma RowStaysOK(c: Config, st: State, st2: State, k: nat, row: Row, s: Submission)
    requires RowOK(c, st, k, row, s)
    requires st.accepted <= st2.accepted && FailedTurns(st2.turns, k) >= FailedTurns(st.turns, k)
    ensures RowOK(c, st2, k, row, s)
  {
    if Accepted(st.accepted, k, s) {
      var e :| e in st.accepted && e.id == k && Carries(e, s);
      assert e in st2.accepted;
    }
  }

  /** Copies stay good as turns are added and events submitted. */
  lemma HeldStaysOK(c: Config, turns: seq<Turn>, turns2: seq<Turn>, held: map<nat, seq<Row>>,
                    submitted: seq<Submission>, submitted2: seq<Submission>)
    requires HeldOK(c, turns, held, submitted) && submitted <= submitted2
    requires forall id :: FailedTurns(turns2, id) >= FailedTurns(turns, id)
    ensures HeldOK(c, turns2, held, submitted2)
  {
    forall d, i | d in held && 0 <= i < |held[d]| ensures CopyOK(c, turns2, held[d][i], submitted2) {
      assert CopyOK(c, turns, held[d][i], submitted);
    }
  }

  lemma FailedTurnsNeverDrop(turns: seq<Turn>, t: Turn)
    ensures forall id :: FailedTurns(turns + [t], id) >= FailedTurns(turns, id)
  {
    forall id ensures FailedTurns(turns + [t], id) >= FailedTurns(turns, id) {
      FailedTurnsGrow(turns, t, id);
    }
  }

  lemma {:induction false} ProcessRowsAddTurns(c: Config, st: State, batch: seq<nat>, fates: seq<Fate>, now: int)
    requires forall i :: 0 <= i < |batch| ==> batch[i] < |st.rows|
    ensures forall id ::
              FailedTurns(ProcessRows(st, c, batch, fates, now).turns, id) >= FailedTurns(st.turns, id)
    decreases |batch|
  {
    if batch != [] && fates != [] {
      var mid, later := ProcessRow(st, c, batch[0], fates[0], now), now + RowPause(c, st.rows[batch[0]], fates[0]);
      FailedTurnsNeverDrop(st.turns, Delivered(st.rows[batch[0]].id));
      FailedTurnsNeverDrop(st.turns, FailedTurn(st.rows[batch[0]].id));
      ProcessRowsFrom(c, st, mid, batch, fates, now, later);
      ProcessRowsAddTurns(c, mid, batch[1..], fates[1..], later);
    }
  }

  /** A turn that delivers row `k` keeps every row in order. */
  lemma DeliveredKeepsRows(c: Config, st: State, st2: State, submitted: seq<Submission>, k: nat, e: Event, fate: Fate,
                           later: int)
    requires RowsOK(c, st, submitted) && k < |submitted| && e.id == k && Carries(e, submitted[k])
    requires st2.rows == st.rows[k := Marked(st.rows[k], fate, later)]
    requires st2.accepted == st.accepted + [e] && st2.turns == st.turns + [Delivered(k)]
    ensures RowsOK(c, st2, submitted)
  {
    assert e in st2.accepted;
    forall j | 0 <= j < |submitted| ensures RowOK(c, st2, j, st2.rows[j], submitted[j]) {
      FailedTurnsGrow(st.turns, Delivered(k), j);
      RowStaysOK(c, st, st2, j, st.rows[j], submitted[j]);
    }
  }

  /** And so does one that fails, counted from attempts that were really made. */
  lemma FailedKeepsRows(c: Config, st: State, st2: State, submitted: seq<Submission>, k: nat, seen: nat, fate: Fate,
                        later: int)
    requires RowsOK(c, st, submitted) && k < |submitted| && seen <= FailedTurns(st.turns, k)
    requires st2.rows == st.rows[k := ChargedFrom(st.rows[k], seen, fate, c.maxAttempts, later)]
    requires st2.accepted == st.accepted && st2.turns == st.turns + [FailedTurn(k)]
    ensures RowsOK(c, st2, submitted)
  {
    forall j | 0 <= j < |submitted| ensures RowOK(c, st2, j, st2.rows[j], submitted[j]) {
      FailedTurnsGrow(st.turns, FailedTurn(k), j);
      RowStaysOK(c, st, st2, j, st.rows[j], submitted[j]);
    }
  }

  /** The event made of a good copy is the one submitted. */
  lemma CopyCarries(c: Config, turns: seq<Turn>, copy: Row, submitted: seq<Submission>)
    requires R.GoodRing(c.lib, c.ring) && CopyOK(c, turns, copy, submitted)
    ensures R.ReadPayload(c.lib, c.ring, copy.payload).Success?
    ensures EventOf(c, copy).id == copy.id && Carries(EventOf(c, copy), submitted[copy.id])
  {
    HoldsReads(c.lib, c.ring, copy.payload, submitted[copy.id].payload);
  }

  lemma ProcessRowKeepsRows(c: Config, st: State, submitted: seq<Submission>, k: nat, fate: Fate, now: int)
    requires R.GoodRing(c.lib, c.ring) && RowsOK(c, st, submitted) && k < |st.rows|
    ensures RowsOK(c, ProcessRow(st, c, k, fate, now), submitted)
  {
    var row := st.rows[k];
    assert RowOK(c, st, k, row, submitted[k]);
    assert ProcessRow(st, c, k, fate, now) == ServeCopy(st, c, k, row, fate, now);
    ServeKeepsRows(c, st, submitted, row, fate, now);
  }

  lemma {:induction false} ProcessRowsKeepRows(c: Config, st: State, submitted: seq<Submission>, batch: seq<nat>,
                                               fates: seq<Fate>, now: int)
    requires R.GoodRing(c.lib, c.ring) && RowsOK(c, st, submitted)
    requires forall i :: 0 <= i < |batch| ==> batch[i] < |st.rows|
    ensures RowsOK(c, ProcessRows(st, c, batch, fates, now), submitted)
    decreases |batch|
  {
    if batch != [] && fates != [] {
      var mid, later := ProcessRow(st, c, batch[0], fates[0], now), now + RowPause(c, st.rows[batch[0]], fates[0]);
      ProcessRowKeepsRows(c, st, submitted, batch[0], fates[0], now);
      ProcessRowsFrom(c, st, mid, batch, fates, now, later);
      ProcessRowsKeepRows(c, mid, submitted, batch[1..], fates[1..], later);
    }
  }

  lemma {:induction false} ProcessRowsKeepPayloads(c: Config, st: State, batch: seq<nat>, fates: seq<Fate>, now: int)
    requires forall i :: 0 <= i < |batch| ==> batch[i] < |st.rows|
    ensures SamePayloads(ProcessRows(st, c, batch, fates, now).rows, st.rows)
    decreases |batch|
  {
    if batch != [] && fates != [] {
      var mid := ProcessRow(st, c, batch[0], fates[0], now);
      assert SamePayloads(mid.rows, st.rows);
      ProcessRowsKeepPayloads(c, mid, batch[1..], fates[1..], now + RowPause(c, st.rows[batch[0]], fates[0]));
    }
  }

  lemma PollKeepsInv(c: Config, keys: set<string>, w: World, fates: seq<Fate>, now: int)
    requires Inv(c, keys, w)
    ensures Inv(c, keys, Apply(w, c, Poll(fates, now)))
  {
    PendingFromBounds(w.st.rows, 0);
    var using := Using(c, w.ring);
    var batch := FirstPending(w.st.rows, using.batchSize);
    ProcessRowsKeepRows(using, w.st, w.submitted, batch, fates, now);
    ProcessRowsKeepPayloads(using, w.st, batch, fates, now);
    ProcessRowsAddTurns(using, w.st, batch, fates, now);
    HeldStaysOK(using, w.st.turns, Batch(w.st, using, fates, now).turns, w.held, w.submitted, w.submitted);
  }

  lemma FetchKeepsInv(c: Config, keys: set<string>, w: World, d: nat)
    requires Inv(c, keys, w)
    ensures Inv(c, keys, Apply(w, c, Fetch(d)))
  {
    var using := Using(c, w.ring);
    PendingFromBounds(w.st.rows, 0);
    var batch, read := FirstPending(w.st.rows, using.batchSize), NextRows(w.st, using);
    forall i | 0 <= i < |read| ensures CopyOK(using, w.st.turns, read[i], w.submitted) {
      assert RowOK(using, w.st, batch[i], w.st.rows[batch[i]], w.submitted[batch[i]]);
    }
  }

  /** Serving a copy, however old, keeps every row: its failures are counted from what the copy says, which was true. */
  lemma ServeKeepsRows(c: Config, st: State, submitted: seq<Submission>, copy: Row, fate: Fate, now: int)
    requires R.GoodRing(c.lib, c.ring) && RowsOK(c, st, submitted) && CopyOK(c, st.turns, copy, submitted)
    ensures RowsOK(c, ServeCopy(st, c, copy.id, copy, fate, now), submitted)
  {
    var st2, later := ServeCopy(st, c, copy.id, copy, fate, now), now + RowPause(c, copy, fate);
    CopyCarries(c, st.turns, copy, submitted);
    if Delivers(c, copy, fate) {
      DeliveredKeepsRows(c, st, st2, submitted, copy.id, EventOf(c, copy), fate, later);
    } else {
      FailedKeepsRows(c, st, st2, submitted, copy.id, copy.attempts, fate, later);
    }
  }

  lemma PopKeepsHeld(c: Config, turns: seq<Turn>, held: map<nat, seq<Row>>, d: nat, submitted: seq<Submission>)
    requires HeldOK(c, turns, held, submitted) && d in held && held[d] != []
    ensures HeldOK(c, turns, held[d := held[d][1..]], submitted)
  {
    var popped := held[d := held[d][1..]];
    forall x, i | x in popped && 0 <= i < |popped[x]| ensures CopyOK(c, turns, popped[x][i], submitted) {
      if x == d {
        assert popped[d][i] == held[d][i + 1];
      }
    }
  }

  lemma HeldGrows(c: Config, turns: seq<Turn>, t: Turn, held: map<nat, seq<Row>>, submitted: seq<Submission>)
    requires HeldOK(c, turns, held, submitted)
    ensures HeldOK(c, turns + [t], held, submitted)
  {
    FailedTurnsNeverDrop(turns, t);
    HeldStaysOK(c, turns, turns + [t], held, submitted, submitted);
  }

  lemma ServeKeepsPayloads(st: State, c: Config, k: nat, copy: Row, fate: Fate, now: int)
    requires k < |st.rows|
    ensures SamePayloads(ServeCopy(st, c, k, copy, fate, now).rows, st.rows)
    ensures ServeCopy(st, c, k, copy, fate, now).turns
         == st.turns + [if Delivers(c, copy, fate) then Delivered(copy.id) else FailedTurn(copy.id)]
  {
  }

  /** After a copy is served the copies still held are good, and no payload has changed. */
  lemma ServeKeepsHeld(c: Config, st: State, held: map<nat, seq<Row>>, d: nat, fate: Fate, now: int,
                       submitted: seq<Submission>)
    requires HeldOK(c, st.turns, held, submitted) && d in held && held[d] != [] && held[d][0].id < |st.rows|
    ensures var st2 := ServeCopy(st, c, held[d][0].id, held[d][0], fate, now);
            HeldOK(c, st2.turns, held[d := held[d][1..]], submitted) && SamePayloads(st2.rows, st.rows)
  {
    var copy := held[d][0];
    var turn := if Delivers(c, copy, fate) then Delivered(copy.id) else FailedTurn(copy.id);
    ServeKeepsPayloads(st, c, copy.id, copy, fate, now);
    PopKeepsHeld(c, st.turns, held, d, submitted);
    HeldGrows(c, st.turns, turn, held[d := held[d][1..]], submitted);
  }

  lemma ServeKeepsInv(c: Config, keys: set<string>, w: World, d: nat, fate: Fate, now: int)
    requires Inv(c, keys, w)
    ensures Inv(c, keys, Apply(w, c, Serve(d, fate, now)))
  {
    if d in w.held && w.held[d] != [] {
      var copy, using := w.held[d][0], Using(c, w.ring);
      assert CopyOK(using, w.st.turns, copy, w.submitted);
      ServeKeepsRows(using, w.st, w.submitted, copy, fate, now);
      ServeKeepsHeld(using, w.st, w.held, d, fate, now, w.submitted);
    }
  }

  lemma SubmitKeepsInv(c: Config, keys: set<string>, w: World, step: Step)
    requires Inv(c, keys, w) && step.Submit?
    ensures Inv(c, keys, Apply(w, c, step))
  {
    var w2, using := Apply(w, c, step), Using(c, w.ring);
    var id := |w.st.rows|;
    EncryptSeals(c.lib, w.ring, step.what.payload, step.nonce);
    CurrentIsSealed(c.lib, w.ring, w2.st.rows[id].payload, step.what.payload);
    SealedIsEncrypted(c.lib, w.ring.current, w2.st.rows[id].payload, step.what.payload);
    forall j | 0 <= j < |w2.submitted| ensures RowOK(using, w2.st, j, w2.st.rows[j], w2.submitted[j]) {
      if j < id {
        RowStaysOK(using, w.st, w2.st, j, w.st.rows[j], w.submitted[j]);
      }
    }
    HeldStaysOK(using, w.st.turns, w2.st.turns, w.held, w.submitted, w2.submitted);
  }

  lemma RotateKeepsInv(c: Config, keys: set<string>, w: World, key: string)
    requires Inv(c, keys, w) && key in keys && CollisionFree(c.lib, keys)
    ensures Inv(c, keys, Apply(w, c, Rotate(key)))
  {
    var ring := Rotated(c.lib, w.ring, key);
    assert forall e :: e in Entries(ring) ==> e == ring.current || e in Entries(w.ring);
    assert forall e :: e in Entries(w.ring) ==> e in Entries(ring);
    forall k | 0 <= k < |w.submitted| ensures RowOK(Using(c, ring), w.st, k, w.st.rows[k], w.submitted[k]) {
      assert RowOK(Using(c, w.ring), w.st, k, w.st.rows[k], w.submitted[k]);
      if Sealed(c.lib, w.ring, w.st.rows[k].payload, w.submitted[k].payload) {
        var e :| e in Entries(w.ring) && SealedBy(c.lib, e, w.st.rows[k].payload, w.submitted[k].payload);
        assert e in Entries(ring);
      }
    }
  }

  /** Rows that differ only in payloads, each still its plaintext under the ring. */
  lemma ResealedRowsOK(c: Config, st: State, rows: seq<Row>, submitted: seq<Submission>)
    requires RowsOK(c, st, submitted) && |rows| == |st.rows|
    requires forall k :: 0 <= k < |rows| ==> rows[k] == st.rows[k].(payload := rows[k].payload)
    requires forall k :: 0 <= k < |rows| ==> Holds(c.lib, c.ring, rows[k].payload, submitted[k].payload)
    ensures RowsOK(c, st.(rows := rows), submitted)
  {
    forall k | 0 <= k < |rows| ensures RowOK(c, st.(rows := rows), k, rows[k], submitted[k]) {
      assert RowOK(c, st, k, st.rows[k], submitted[k]);
    }
  }

  lemma ReencryptKeepsInv(c: Config, keys: set<string>, w: World, k: nat, nonce: string)
    requires Inv(c, keys, w)
    ensures Inv(c, keys, Apply(w, c, Reencrypt(k, nonce)))
  {
    if k < |w.st.rows| {
      var w2, using := Apply(w, c, Reencrypt(k, nonce)), Using(c, w.ring);
      assert RowOK(using, w.st, k, w.st.rows[k], w.submitted[k]);
      RewriteHolds(c.lib, w.ring, w.st.rows[k].payload, w.submitted[k].payload, nonce);
      forall j | 0 <= j < |w.st.rows| ensures Holds(c.lib, w.ring, w2.st.rows[j].payload, w.submitted[j].payload) {
        assert RowOK(using, w.st, j, w.st.rows[j], w.submitted[j]);
      }
      ResealedRowsOK(using, w.st, w2.st.rows, w.submitted);
    }
  }

  /** What a migration makes of one row: reached rows are sealed with the current key, the others are as they were. */
  lemma MigratedRow(c: Config, st: State, submitted: seq<Submission>, nonce: nat -> string, reach: nat, k: nat)
    requires R.GoodRing(c.lib, c.ring) && RowsOK(c, st, submitted) && k < |st.rows|
    ensures var after := MigratedRows(c, st.rows, nonce, reach)[k].payload;
            && (k in Matching(st.rows) <==> R.EncryptedJson(st.rows[k].payload))
            && (R.EncryptedJson(after) <==> R.EncryptedJson(st.rows[k].payload))
            && (if k in Reached(st.rows, reach) then SealedBy(c.lib, c.ring.current, after, submitted[k].payload)
                else after == st.rows[k].payload)
            && Holds(c.lib, c.ring, after, submitted[k].payload)
            && (k in Reached(st.rows, reach) && !UsesCurrentKey(c.ring, st.rows[k].payload.s) ==>
                  after != st.rows[k].payload)
  {
    assert RowOK(c, st, k, st.rows[k], submitted[k]);
    RewriteHolds(c.lib, c.ring, st.rows[k].payload, submitted[k].payload, nonce(k));
    R.AscendingLists(set i: nat | i < |st.rows| && R.EncryptedJson(st.rows[i].payload));
    var after := MigratedRows(c, st.rows, nonce, reach)[k].payload;
    if k in Reached(st.rows, reach) {
      assert k in Matching(st.rows);
      if !UsesCurrentKey(c.ring, st.rows[k].payload.s) {
        R.RewriteIsCurrent(c.lib, c.ring, st.rows[k].payload.s, nonce(k));
      }
    }
  }

  /** So a migration that reaches every row leaves them all sealed with the current key. */
  lemma MigratedCurrent(c: Config, st: State, submitted: seq<Submission>, nonce: nat -> string, reach: nat)
    requires R.GoodRing(c.lib, c.ring) && RowsOK(c, st, submitted) && reach >= |Matching(st.rows)|
    ensures AllCurrent(c.lib, c.ring, MigratedRows(c, st.rows, nonce, reach), submitted)
  {
    var rows := MigratedRows(c, st.rows, nonce, reach);
    forall k | 0 <= k < |st.rows|
      ensures R.EncryptedJson(rows[k].payload) ==>
                SealedBy(c.lib, c.ring.current, rows[k].payload, submitted[k].payload)
    {
      MigratedRow(c, st, submitted, nonce, reach, k);
    }
  }

  lemma MigrateKeepsInv(c: Config, keys: set<string>, w: World, nonce: nat -> string, reach: nat)
    requires Inv(c, keys, w)
    ensures Inv(c, keys, Apply(w, c, Migrate(nonce, reach)))
  {
    var w2, using := Apply(w, c, Migrate(nonce, reach)), Using(c, w.ring);
    forall k | 0 <= k < |w.st.rows|
      ensures Holds(c.lib, w.ring, w2.st.rows[k].payload, w.submitted[k].payload)
      ensures R.EncryptedJson(w2.st.rows[k].payload) <==> R.EncryptedJson(w.st.rows[k].payload)
      ensures !R.EncryptedJson(w.st.rows[k].payload) ==> w2.st.rows[k].payload == w.st.rows[k].payload
      ensures w2.migrated && R.EncryptedJson(w2.st.rows[k].payload) ==>
                SealedBy(c.lib, w.ring.current, w2.st.rows[k].payload, w.submitted[k].payload)
    {
      MigratedRow(using, w.st, w.submitted, nonce, reach, k);
    }
    ResealedRowsOK(using, w.st, w2.st.rows, w.submitted);
  }

  lemma RetireKeepsInv(c: Config, keys: set<string>, w: World)
    requires Inv(c, keys, w)
    ensures Inv(c, keys, Apply(w, c, Retire))
  {
    if w.migrated {
      var ring := R.Retired(w.ring);
      assert w.ring.current in Entries(w.ring) && Entries(ring) == [w.ring.current];
      forall k | 0 <= k < |w.st.rows| ensures RowOK(Using(c, ring), w.st, k, w.st.rows[k], w.submitted[k]) {
        assert RowOK(Using(c, w.ring), w.st, k, w.st.rows[k], w.submitted[k]);
        if R.EncryptedJson(w.st.rows[k].payload) {
          CurrentIsSealed(c.lib, ring, w.st.rows[k].payload, w.submitted[k].payload);
        } else if Sealed(c.lib, w.ring, w.st.rows[k].payload, w.submitted[k].payload) {
          var e :| e in Entries(w.ring) && SealedBy(c.lib, e, w.st.rows[k].payload, w.submitted[k].payload);
          SealedIsEncrypted(c.lib, e, w.st.rows[k].payload, w.submitted[k].payload);
        }
      }
    }
  }

  /** Sound primitives and a ring made by `setup`, as `newRow` and `deliver` assume, and old rows that were not
      encrypted. */
  ghost predicate Ready(c: Config, olds: seq<Old>) {
    R.GoodRing(c.lib, c.ring) && forall k :: 0 <= k < |olds| ==> R.PlainPayload(olds[k].payload)
  }

  /** Every key in play: the initial ring's and those rotated to. */
  function KeysOf(c: Config, steps: seq<Step>): set<string> {
    (set e | e in Entries(c.ring) :: e.key) + (set i | 0 <= i < |steps| && steps[i].Rotate? :: steps[i].key)
  }

  lemma BeginInv(c: Config, olds: seq<Old>, keys: set<string>)
    requires Ready(c, olds) && KeysOf(c, []) <= keys
    ensures Inv(c, keys, Begin(c, olds))
  {
    var w := Begin(c, olds);
    assert forall e :: e in Entries(c.ring) ==> e.key in KeysOf(c, []);
    forall k | 0 <= k < |olds| ensures RowOK(Using(c, w.ring), w.st, k, w.st.rows[k], w.submitted[k]) {
      assert R.PlainPayload(olds[k].payload);
    }
  }

  lemma StepKeepsInv(c: Config, keys: set<string>, w: World, step: Step)
    requires Inv(c, keys, w) && CollisionFree(c.lib, keys) && (step.Rotate? ==> step.key in keys)
    ensures Inv(c, keys, Apply(w, c, step))
  {
    match step
    case Submit(_, _, _) => SubmitKeepsInv(c, keys, w, step);
    case Poll(fates, now) => PollKeepsInv(c, keys, w, fates, now);
    case Fetch(d) => FetchKeepsInv(c, keys, w, d);
    case Serve(d, fate, now) => ServeKeepsInv(c, keys, w, d, fate, now);
    case Rotate(key) => RotateKeepsInv(c, keys, w, key);
    case Reencrypt(k, nonce) => ReencryptKeepsInv(c, keys, w, k, nonce);
    case Migrate(nonce, reach) => MigrateKeepsInv(c, keys, w, nonce, reach);
    case Retire => RetireKeepsInv(c, keys, w);
  }

  lemma {:induction false} RunKeepsInv(c: Config, olds: seq<Old>, steps: seq<Step>, keys: set<string>)
    requires Ready(c, olds) && CollisionFree(c.lib, keys) && KeysOf(c, steps) <= keys
    ensures Inv(c, keys, Run(Begin(c, olds), c, steps))
  {
    if steps == [] {
      BeginInv(c, olds, keys);
    } else {
      var prefix, step := steps[..|steps| - 1], steps[|steps| - 1];
      assert KeysOf(c, prefix) <= KeysOf(c, steps);
      assert step.Rotate? ==> step.key in KeysOf(c, steps);
      RunKeepsInv(c, olds, prefix, keys);
      StepKeepsInv(c, keys, Run(Begin(c, olds), c, prefix), step);
    }
  }

  /** What was submitted, and the old payloads, are never forgotten. */
  lemma {:induction false} RunRemembers(c: Config, w: World, steps: seq<Step>)
    ensures Run(w, c, steps).early == w.early && w.submitted <= Run(w, c, steps).submitted
  {
    if steps != [] {
      RunRemembers(c, w, steps[..|steps| - 1]);
    }
  }

  /** Main result: in every run, with the bus refusing anything, updates lost anywhere, batches cut short by crashes,
      any number of dispatchers at work at once on copies however old, and keys rotated, migrated and retired in
      between, every row submitted is still there and readable as its original payload; a row that left the queue was
      accepted by the bus under its own id with its subject, type, original payload and time, or failed at least
      `maxAttempts` delivery rounds; and the bus never took an event that is not a submission. */
  lemma NothingLeavesUndelivered(c: Config, olds: seq<Old>, steps: seq<Step>)
    requires Ready(c, olds) && CollisionFree(c.lib, KeysOf(c, steps))
    ensures var w := Run(Begin(c, olds), c, steps);
            && |w.st.rows| == |w.submitted|
            && (forall k :: 0 <= k < |w.submitted| ==>
                  R.ReadPayload(c.lib, w.ring, w.st.rows[k].payload) == Success(w.submitted[k].payload))
            && (forall k :: 0 <= k < |w.submitted| && !Pending(w.st.rows[k]) ==>
                  Accepted(w.st.accepted, k, w.submitted[k]) || FailedTurns(w.st.turns, k) >= c.maxAttempts)
            && (forall k :: 0 <= k < |w.submitted| && w.st.rows[k].lastError == "dead_lettered" ==>
                  !Pending(w.st.rows[k]) && FailedTurns(w.st.turns, k) >= c.maxAttempts)
            && (forall e :: e in w.st.accepted ==> e.id < |w.submitted| && Carries(e, w.submitted[e.id]))
  {
    RunKeepsInv(c, olds, steps, KeysOf(c, steps));
    var w := Run(Begin(c, olds), c, steps);
    forall k | 0 <= k < |w.submitted|
      ensures R.ReadPayload(c.lib, w.ring, w.st.rows[k].payload) == Success(w.submitted[k].payload)
      ensures !Pending(w.st.rows[k]) ==>
                Accepted(w.st.accepted, k, w.submitted[k]) || FailedTurns(w.st.turns, k) >= c.maxAttempts
      ensures w.st.rows[k].lastError == "dead_lettered" ==>
                !Pending(w.st.rows[k]) && FailedTurns(w.st.turns, k) >= c.maxAttempts
    {
      assert RowOK(Using(c, w.ring), w.st, k, w.st.rows[k], w.submitted[k]);
      HoldsReads(c.lib, w.ring, w.st.rows[k].payload, w.submitted[k].payload);
    }
  }

  /** So the unencrypted rows of an earlier version go out as they are: through rotations, migrations and retired keys
      their payloads stay untouched, whatever the bus took under their ids is their own text, and they leave the queue
      only so or after the cap of failed rounds. */
  lemma OldRowsGoOutAsStored(c: Config, olds: seq<Old>, steps: seq<Step>, k: nat)
    requires Ready(c, olds) && CollisionFree(c.lib, KeysOf(c, steps)) && k < |olds|
    ensures var w, o := Run(Begin(c, olds), c, steps), olds[k];
            && k < |w.st.rows| && w.st.rows[k].payload == o.payload
            && (forall e :: e in w.st.accepted && e.id == k ==>
                  && e.subject == o.subject && e.eventType == o.eventType && e.timestamp == o.at
                  && e.payload == R.PlainText(o.payload))
            && (!Pending(w.st.rows[k]) ==>
                  (exists e :: e in w.st.accepted && e.id == k) || FailedTurns(w.st.turns, k) >= c.maxAttempts)
  {
    RunKeepsInv(c, olds, steps, KeysOf(c, steps));
    NothingLeavesUndelivered(c, olds, steps);
    RunRemembers(c, Begin(c, olds), steps);
    var w := Run(Begin(c, olds), c, steps);
    assert w.submitted[k] == Begin(c, olds).submitted[k];
    if Accepted(w.st.accepted, k, w.submitted[k]) {
      var e :| e in w.st.accepted && e.id == k && Carries(e, w.submitted[k]);
    }
  }

  lemma RunThen(w: World, c: Config, steps: seq<Step>, step: Step)
    ensures Run(w, c, steps + [step]) == Apply(Run(w, c, steps), c, step)
  {
    assert (steps + [step])[..|steps|] == steps;
  }

  ghost function RotateMigrateRetire(w: World, c: Config, key: string, nonces: nat -> string, reach: nat): World {
    Apply(Apply(Apply(w, c, Rotate(key)), c, Migrate(nonces, reach)), c, Retire)
  }

  lemma FreshKeyIsNotCurrent(lib: Library, ring: KeyRing, key: string, payload: R.Json, plain: string)
    requires R.GoodRing(lib, Rotated(lib, ring, key)) && !HoldsKey(ring, key) && Sealed(lib, ring, payload, plain)
    ensures payload.JString? && !UsesCurrentKey(Rotated(lib, ring, key), payload.s)
  {
    var e :| e in Entries(ring) && SealedBy(lib, e, payload, plain);
    var nonce :| payload == R.JString(Encrypt(lib, KeyRing(e, []), plain, nonce));
    assert e in Entries(Rotated(lib, ring, key));
    LooksCurrentExactly(lib, Rotated(lib, ring, key), e, plain, nonce);
  }

  /** What one row goes through. */
  lemma RotatedRow(c: Config, keys: set<string>, w: World, key: string, nonces: nat -> string, reach: nat, k: nat)
    requires Inv(c, keys, w) && key in keys && CollisionFree(c.lib, keys) && |key| == KEY_SIZE && k < |w.st.rows|
    requires !HoldsKey(w.ring, key) && reach >= |Matching(w.st.rows)|
    ensures var using := Using(c, Rotated(c.lib, w.ring, key));
            var after := MigratedRows(using, w.st.rows, nonces, reach)[k].payload;
            if k < |w.early| then after == w.st.rows[k].payload
            else && after != w.st.rows[k].payload
                 && SealedBy(c.lib, using.ring.current, after, w.submitted[k].payload)
  {
    var using := Using(c, Rotated(c.lib, w.ring, key));
    assert RowOK(Using(c, w.ring), w.st, k, w.st.rows[k], w.submitted[k]);
    RotateKeepsInv(c, keys, w, key);
    if k >= |w.early| {
      EncryptedIsSealed(c.lib, w.ring, w.st.rows[k].payload, w.submitted[k].payload);
      FreshKeyIsNotCurrent(c.lib, w.ring, key, w.st.rows[k].payload, w.submitted[k].payload);
    }
    MigratedRow(using, w.st, w.submitted, nonces, reach, k);
  }

  /** What the three steps make of the tables and the ring. */
  lemma RotateMigrateRetireIs(w: World, c: Config, key: string, nonces: nat -> string, reach: nat)
    requires |key| == KEY_SIZE && reach >= |Matching(w.st.rows)|
    ensures var ring := Rotated(c.lib, w.ring, key);
            var migrated := w.st.(rows := MigratedRows(Using(c, ring), w.st.rows, nonces, reach));
            RotateMigrateRetire(w, c, key, nonces, reach)
            == World(migrated, w.submitted, KeyRing(ring.current, []), true, map[], w.early)
  {
    var rotated := Apply(w, c, Rotate(key));
    assert Using(c, rotated.ring) == Using(c, Rotated(c.lib, w.ring, key));
    assert Apply(rotated, c, Migrate(nonces, reach)).migrated;
  }

  /** The first `n` payloads are untouched; all others are changed, and sealed with `e` as their submissions. */
  ghost predicate Resealed(lib: Library, e: KeyEntry, before: seq<Row>, after: seq<Row>, submitted: seq<Submission>,
                           n: nat)
  {
    && |after| == |before| == |submitted|
    && forall k :: 0 <= k < |before| ==>
         if k < n then after[k].payload == before[k].payload
         else after[k].payload != before[k].payload && SealedBy(lib, e, after[k].payload, submitted[k].payload)
  }

  lemma RotatedRows(c: Config, keys: set<string>, w: World, key: string, nonces: nat -> string, reach: nat)
    requires Inv(c, keys, w) && key in keys && CollisionFree(c.lib, keys) && |key| == KEY_SIZE
    requires !HoldsKey(w.ring, key) && reach >= |Matching(w.st.rows)|
    ensures var ring := Rotated(c.lib, w.ring, key);
            var after := MigratedRows(Using(c, ring), w.st.rows, nonces, reach);
            Resealed(c.lib, ring.current, w.st.rows, after, w.submitted, |w.early|)
  {
    var ring := Rotated(c.lib, w.ring, key);
    var after := MigratedRows(Using(c, ring), w.st.rows, nonces, reach);
    forall k | 0 <= k < |w.st.rows|
      ensures if k < |w.early| then after[k].payload == w.st.rows[k].payload
              else && after[k].payload != w.st.rows[k].payload
                   && SealedBy(c.lib, ring.current, after[k].payload, w.submitted[k].payload)
    {
      RotatedRow(c, keys, w, key, nonces, reach, k);
    }
  }

  /** Rotation is not idle: rotating to a key that is not in the ring, migrating through and retiring leaves the new key
      alone in the ring and every encrypted payload changed, sealed with the new key, and still its submission; the
      unencrypted ones are untouched. */
  lemma RotationReseals(c: Config, keys: set<string>, w: World, key: string, nonces: nat -> string, reach: nat)
    requires Inv(c, keys, w) && key in keys && CollisionFree(c.lib, keys) && |key| == KEY_SIZE
    requires !HoldsKey(w.ring, key) && reach >= |Matching(w.st.rows)|
    ensures var after := RotateMigrateRetire(w, c, key, nonces, reach);
            && after.ring == KeyRing(KeyEntry(c.lib.fingerprint(key), key), []) && after.submitted == w.submitted
            && Resealed(c.lib, after.ring.current, w.st.rows, after.st.rows, w.submitted, |w.early|)
  {
    RotateMigrateRetireIs(w, c, key, nonces, reach);
    RotatedRows(c, keys, w, key, nonces, reach);
  }

  /** The same in any run. */
  lemma RotateMigrateRetireRun(c: Config, olds: seq<Old>, steps: seq<Step>, key: string, nonces: nat -> string,
                               reach: nat)
    requires Ready(c, olds) && CollisionFree(c.lib, KeysOf(c, steps) + {key}) && |key| == KEY_SIZE
    requires !HoldsKey(Run(Begin(c, olds), c, steps).ring, key)
    requires reach >= |Matching(Run(Begin(c, olds), c, steps).st.rows)|
    ensures var before := Run(Begin(c, olds), c, steps);
            var after := Run(Begin(c, olds), c, steps + [Rotate(key)] + [Migrate(nonces, reach)] + [Retire]);
            && after.ring == KeyRing(KeyEntry(c.lib.fingerprint(key), key), [])
            && after.submitted == before.submitted
            && Resealed(c.lib, after.ring.current, before.st.rows, after.st.rows, before.submitted, |olds|)
  {
    var w := Begin(c, olds);
    RunKeepsInv(c, olds, steps, KeysOf(c, steps) + {key});
    RunRemembers(c, w, steps);
    RunThen(w, c, steps, Rotate(key));
    RunThen(w, c, steps + [Rotate(key)], Migrate(nonces, reach));
    RunThen(w, c, steps + [Rotate(key)] + [Migrate(nonces, reach)], Retire);
    RotationReseals(c, KeysOf(c, steps) + {key}, Run(w, c, steps), key, nonces, reach);
  }

  // ----- Several dispatchers -----

  /** Dispatcher `d` serves its copies one after another, each begun when the one before is over, with nobody
      between. */
  ghost function ServeAll(w: World, c: Config, d: nat, fates: seq<Fate>, now: int): World
    decreases |fates|
  {
    if fates == [] || d !in w.held || w.held[d] == [] then w
    else
      var pause := RowPause(Using(c, w.ring), w.held[d][0], fates[0]);
      ServeAll(Apply(w, c, Serve(d, fates[0], now)), c, d, fates[1..], now + pause)
  }

  /** Dispatcher `d` holds exactly the rows of the batch, as they are now. */
  ghost predicate HoldsBatch(w: World, d: nat, batch: seq<nat>) {
    && d in w.held && |w.held[d]| == |batch|
    && (forall i, j :: 0 <= i < j < |batch| ==> batch[i] != batch[j])
    && (forall i :: 0 <= i < |batch| ==>
          batch[i] < |w.st.rows| && w.held[d][i] == w.st.rows[batch[i]] && w.held[d][i].id == batch[i])
  }

  /** Serving an up-to-date copy is processing its row, and leaves the other copies up to date. */
  lemma ServeFresh(w: World, c: Config, d: nat, batch: seq<nat>, fate: Fate, now: int)
    requires HoldsBatch(w, d, batch) && batch != []
    ensures var w2 := Apply(w, c, Serve(d, fate, now));
            && w2.st == ProcessRow(w.st, Using(c, w.ring), batch[0], fate, now) && w2.ring == w.ring
            && HoldsBatch(w2, d, batch[1..])
  {
    var w2 := Apply(w, c, Serve(d, fate, now));
    assert w2.st == ServeCopy(w.st, Using(c, w.ring), batch[0], w.st.rows[batch[0]], fate, now);
    forall i | 0 <= i < |batch| - 1
      ensures w2.held[d][i] == w2.st.rows[batch[1..][i]] && w2.held[d][i].id == batch[1..][i] < |w2.st.rows|
    {
      assert w2.held[d][i] == w.held[d][i + 1] && batch[i + 1] != batch[0];
    }
  }

  /** One turn of an undisturbed dispatcher. */
  lemma ServeAllStep(w: World, c: Config, d: nat, batch: seq<nat>, fates: seq<Fate>, now: int)
    returns (mid: World, later: int)
    requires HoldsBatch(w, d, batch) && fates != [] && batch != []
    ensures later == now + RowPause(Using(c, w.ring), w.st.rows[batch[0]], fates[0])
    ensures ServeAll(w, c, d, fates, now) == ServeAll(mid, c, d, fates[1..], later)
    ensures mid.st == ProcessRow(w.st, Using(c, w.ring), batch[0], fates[0], now) && mid.ring == w.ring
    ensures HoldsBatch(mid, d, batch[1..])
  {
    mid, later := Apply(w, c, Serve(d, fates[0], now)), now + RowPause(Using(c, w.ring), w.st.rows[batch[0]], fates[0]);
    ServeFresh(w, c, d, batch, fates[0], now);
  }

  lemma {:induction false} ServeAllProcesses(w: World, c: Config, d: nat, batch: seq<nat>, fates: seq<Fate>, now: int)
    requires HoldsBatch(w, d, batch)
    ensures ServeAll(w, c, d, fates, now).st == ProcessRows(w.st, Using(c, w.ring), batch, fates, now)
    decreases |fates|
  {
    if fates != [] && batch != [] {
      var mid, later := ServeAllStep(w, c, d, batch, fates, now);
      ServeAllProcesses(mid, c, d, batch[1..], fates[1..], later);
      ProcessRowsFrom(Using(c, w.ring), w.st, mid.st, batch, fates, now, later);
    }
  }

  lemma {:induction false} PendingFromDistinct(rows: seq<Row>, i: nat)
    requires i <= |rows|
    ensures forall x, y :: 0 <= x < y < |PendingFrom(rows, i)| ==> PendingFrom(rows, i)[x] < PendingFrom(rows, i)[y]
    decreases |rows| - i
  {
    if i < |rows| {
      PendingFromDistinct(rows, i + 1);
      PendingFromBounds(rows, i + 1);
    }
  }

  /** A dispatcher that reads its batch and serves it with nobody between does what a poll does. */
  lemma UndisturbedIsPoll(c: Config, keys: set<string>, w: World, d: nat, fates: seq<Fate>, now: int)
    requires Inv(c, keys, w)
    ensures ServeAll(Apply(w, c, Fetch(d)), c, d, fates, now).st == Apply(w, c, Poll(fates, now)).st
  {
    var using := Using(c, w.ring);
    PendingFromBounds(w.st.rows, 0);
    PendingFromDistinct(w.st.rows, 0);
    var batch := FirstPending(w.st.rows, using.batchSize);
    forall i | 0 <= i < |batch| ensures w.st.rows[batch[i]].id == batch[i] {
      assert RowOK(using, w.st, batch[i], w.st.rows[batch[i]], w.submitted[batch[i]]);
    }
    ServeAllProcesses(Apply(w, c, Fetch(d)), c, d, batch, fates, now);
  }

  /** The run in which two dispatchers have read the same row before either serves it. */
  ghost function SharedRun(c: Config, s: Submission, nonce: string, first: Fate, second: Fate, t: int): World {
    var both := Apply(Apply(Apply(Begin(c, []), c, Submit(s, nonce, false)), c, Fetch(0)), c, Fetch(1));
    Apply(Apply(both, c, Serve(0, first, t)), c, Serve(1, second, t))
  }

  /** What several dispatchers can do is deliver an event more than once: both publish it, whether or not the first
      one's mark reached the table. */
  lemma BothDeliver(c: Config, s: Submission, nonce: string, first: Fate, second: Fate, t: int)
    requires Ready(c, []) && c.batchSize >= 1 && first.accepts(0) && second.accepts(0)
    ensures var e := Event(0, s.subject, s.eventType, s.payload, s.at);
            SharedRun(c, s, nonce, first, second, t).st.accepted == [e, e]
  {
    var w1 := Apply(Begin(c, []), c, Submit(s, nonce, false));
    var row := w1.st.rows[0];
    OnlyRowIsNext(w1.st, Using(c, c.ring), row);
    R.CurrentKeyReads(c.lib, c.ring, s.payload, nonce);
    var both := Apply(Apply(w1, c, Fetch(0)), c, Fetch(1));
    assert both.held == map[0 := [row], 1 := [row]];
    ServeOnly(both, c, 0, row, first, t);
    ServeOnly(Apply(both, c, Serve(0, first, t)), c, 1, row, second, t);
  }

  lemma ServeOnly(w: World, c: Config, d: nat, row: Row, fate: Fate, now: int)
    requires d in w.held && w.held[d] == [row] && row.id < |w.st.rows| && fate.accepts(0)
    requires R.ReadPayload(c.lib, w.ring, row.payload).Success?
    ensures var w2 := Apply(w, c, Serve(d, fate, now));
            && w2.st.accepted == w.st.accepted + [EventOf(Using(c, w.ring), row)]
            && w2.ring == w.ring && |w2.st.rows| == |w.st.rows| && w2.held == w.held[d := []]
  {
    assert Delivers(Using(c, w.ring), row, fate);
  }

  /** The fast publish does not take the event out of the queue: in any run, an event that the bus took when it was
      queued is taken again, under the same id and otherwise the same, when a dispatcher delivers its row. */
  lemma FastThenDispatched(c: Config, olds: seq<Old>, steps: seq<Step>, s: Submission, nonce: string, fate: Fate,
                           now: int)
    requires Ready(c, olds) && CollisionFree(c.lib, KeysOf(c, steps)) && fate.accepts(0)
    ensures var w := Run(Begin(c, olds), c, steps);
            var queued := Run(Begin(c, olds), c, steps + [Submit(s, nonce, true)]);
            var id := |w.st.rows|;
            var e := Event(id, s.subject, s.eventType, s.payload, s.at);
            && queued.st.accepted == w.st.accepted + [e] && |queued.st.rows| == id + 1 && Pending(queued.st.rows[id])
            && ProcessRow(queued.st, Using(c, queued.ring), id, fate, now).accepted == w.st.accepted + [e] + [e]
  {
    RunKeepsInv(c, olds, steps, KeysOf(c, steps));
    RunThen(Begin(c, olds), c, steps, Submit(s, nonce, true));
    var w := Run(Begin(c, olds), c, steps);
    R.CurrentKeyReads(c.lib, w.ring, s.payload, nonce);
    var queued := Apply(w, c, Submit(s, nonce, true));
    assert Delivers(Using(c, queued.ring), queued.st.rows[|w.st.rows|], fate);
  }

  lemma OnlyRowIsNext(st: State, c: Config, row: Row)
    requires st.rows == [row] && Pending(row) && c.batchSize >= 1
    ensures NextRows(st, c) == [row]
  {
    assert PendingFrom(st.rows, 1) == [];
  }
}
