/** The key-rotation worker (backend/internal/reencrypt/reencrypt.go): rewriting old-key rows in place. */
module Reencrypt {
  import opened Wrappers
  import opened CryptoRing

  const DEFAULT_BATCH_SIZE := 500

  /** A jsonb payload: a JSON string, or any other JSON text. */
  datatype Json = JString(s: string) | JText(text: string)

  /** What processing one stored value amounts to. */
  datatype Verdict<+V> = Keep | Skip | Rewrite(value: V)

  /** `reencryptString`. Plaintext and current values are kept, unreadable ones skipped. */
  function ReencryptString(lib: Library, ring: KeyRing, enc: string, nonce: string): Verdict<string> {
    if !HasPrefix(enc, ENC) || UsesCurrentKey(ring, enc) then Keep
    else match Decrypt(lib, ring, enc)
      case Failure(_) => Skip
      case Success(plain) => Rewrite(Encrypt(lib, ring, plain, nonce))
  }

  /** `reencryptJSONPayload`. */
  function ReencryptJson(lib: Library, ring: KeyRing, raw: Json, nonce: string): Verdict<Json> {
    if raw.JText? then Keep
    else match ReencryptString(lib, ring, raw.s, nonce)
      case Keep => Keep
      case Skip => Skip
      case Rewrite(v) => Rewrite(JString(v))
  }

  // ----- Tables and batches -----

  function Least(s: set<nat>): (m: nat)
    requires s != {}
    ensures m in s && forall x :: x in s ==> m <= x
  {
    var some :| some in s;
    LeastExists(s, some);
    var m :| m in s && forall x :: x in s ==> m <= x;
    m
  }

  lemma {:induction false} LeastExists(s: set<nat>, some: nat)
    requires some in s
    ensures exists m :: m in s && forall x :: x in s ==> m <= x
  {
    if smaller :| smaller in s && smaller < some {
      LeastExists(s, smaller);
    }
  }

  /** `ORDER BY id`. */
  function Ascending(s: set<nat>): seq<nat>
    decreases |s|
  {
    if s == {} then [] else
    var m := Least(s);
    [m] + Ascending(s - {m})
  }

  lemma RisingFrom(m: nat, rest: seq<nat>)
    requires Rising(rest) && forall x :: x in rest ==> m < x
    ensures Rising([m] + rest) && forall x :: x in [m] + rest <==> x == m || x in rest
  {
    assert forall i :: 0 <= i < |rest| ==> rest[i] in rest;
  }

  lemma {:induction false} AscendingLists(s: set<nat>)
    ensures Rising(Ascending(s)) && forall x :: x in Ascending(s) <==> x in s
    decreases |s|
  {
    if s != {} {
      var m := Least(s);
      AscendingLists(s - {m});
      RisingFrom(m, Ascending(s - {m}));
      assert forall x :: x in s <==> x == m || x in s - {m};
    }
  }

  predicate After(last: Option<nat>, id: nat) {
    last.Some? ==> last.value < id
  }

  ghost predicate Rising(a: seq<nat>) {
    forall i, j :: 0 <= i < j < |a| ==> a[i] < a[j]
  }

  /** The keyset page, `WHERE ... AND id > last ORDER BY id LIMIT n`: the first `n` of `rest`, all the rows it
      selects. */
  method NextBatch<V>(rows: map<nat, V>, matches: V -> bool, last: Option<nat>, n: nat)
    returns (ids: seq<nat>, values: seq<V>, ghost rest: seq<nat>)
    ensures Rising(rest) && forall id :: id in rest <==> id in rows && matches(rows[id]) && After(last, id)
    ensures ids == if |rest| <= n then rest else rest[..n]
    ensures |values| == |ids| && forall i :: 0 <= i < |ids| ==> ids[i] in rows && values[i] == rows[ids[i]]
  {
    var selected := set id | id in rows && matches(rows[id]) && After(last, id);
    var all := Ascending(selected);
    AscendingLists(selected);
    rest := all;
    ids := if |all| <= n then all else all[..n];
    assert forall i :: 0 <= i < |ids| ==> ids[i] in all;
    values := seq(|ids|, i requires 0 <= i < |ids| => rows[ids[i]]);
  }

  /** `WHERE id IN ids ORDER BY id`, values only; they line up with `ids` because those are rising. */
  method ValuesOf<V>(rows: map<nat, V>, ids: seq<nat>) returns (values: seq<V>)
    requires Rising(ids) && forall i :: 0 <= i < |ids| ==> ids[i] in rows
    ensures |values| == |ids| && forall i :: 0 <= i < |ids| ==> values[i] == rows[ids[i]]
  {
    var selected := set id | id in rows && id in ids;
    var listed := Ascending(selected);
    AscendingLists(selected);
    AscendingUnique(listed, ids);
    values := seq(|listed|, i requires 0 <= i < |listed| => rows[listed[i]]);
  }

  /** The table after the rows in `done` have been processed. */
  function Processed<V>(rows: map<nat, V>, judge: (nat, V) -> Verdict<V>, done: set<nat>): map<nat, V> {
    map id | id in rows :: if id in done && judge(id, rows[id]).Rewrite? then judge(id, rows[id]).value else rows[id]
  }

  function Rewritten<V>(rows: map<nat, V>, judge: (nat, V) -> Verdict<V>, done: set<nat>): set<nat> {
    set id | id in rows && id in done && judge(id, rows[id]).Rewrite?
  }

  /** A rewritten row still matches the filter that selects rows. */
  ghost predicate StillMatches<V(!new)>(matches: V -> bool, judge: (nat, V) -> Verdict<V>) {
    forall id, v :: matches(v) && judge(id, v).Rewrite? ==> matches(judge(id, v).value)
  }

  function JudgeJson(lib: Library, ring: KeyRing, nonce: nat -> string): (nat, Json) -> Verdict<Json> {
    (id: nat, v: Json) => ReencryptJson(lib, ring, v, nonce(id))
  }

  function JudgeText(lib: Library, ring: KeyRing, nonce: nat -> string): (nat, string) -> Verdict<string> {
    (id: nat, v: string) => ReencryptString(lib, ring, v, nonce(id))
  }

  /** `CAST(payload AS TEXT) LIKE '"enc:%'`. */
  predicate EncryptedJson(payload: Json) {
    payload.JString? && HasPrefix(payload.s, ENC)
  }

  /** `column LIKE 'enc:%'`. */
  predicate EncryptedText(value: string) {
    HasPrefix(value, ENC)
  }

  lemma EncryptMatches(lib: Library, ring: KeyRing, plain: string, nonce: string)
    ensures HasPrefix(Encrypt(lib, ring, plain, nonce), ENC)
    ensures UsesCurrentKey(ring, Encrypt(lib, ring, plain, nonce))
  {
    var v := Encrypt(lib, ring, plain, nonce);
    var header := VERSIONED + ring.current.id + ":";
    assert v == header + lib.encode(lib.seal(ring.current.key, nonce, plain));
    assert v[..|ENC|] == ENC && v[..|header|] == header;
  }

  lemma RewriteIsCurrent(lib: Library, ring: KeyRing, enc: string, nonce: string)
    requires ReencryptString(lib, ring, enc, nonce).Rewrite?
    ensures HasPrefix(ReencryptString(lib, ring, enc, nonce).value, ENC)
    ensures UsesCurrentKey(ring, ReencryptString(lib, ring, enc, nonce).value)
  {
    EncryptMatches(lib, ring, Decrypt(lib, ring, enc).value, nonce);
  }

  lemma JudgesStillMatch(lib: Library, ring: KeyRing, nonce: nat -> string)
    ensures StillMatches(EncryptedJson, JudgeJson(lib, ring, nonce))
    ensures StillMatches(EncryptedText, JudgeText(lib, ring, nonce))
  {
    forall id, v | EncryptedText(v) && JudgeText(lib, ring, nonce)(id, v).Rewrite?
      ensures EncryptedText(JudgeText(lib, ring, nonce)(id, v).value)
    {
      RewriteIsCurrent(lib, ring, v, nonce(id));
    }
    forall id, v | EncryptedJson(v) && JudgeJson(lib, ring, nonce)(id, v).Rewrite?
      ensures EncryptedJson(JudgeJson(lib, ring, nonce)(id, v).value)
    {
      RewriteIsCurrent(lib, ring, v.s, nonce(id));
    }
  }

  lemma RisingTail(a: seq<nat>)
    requires Rising(a) && a != []
    ensures Rising(a[1..]) && forall x :: x in a[1..] <==> x in a && x != a[0]
  {
    assert forall k :: 0 < k < |a| ==> a[k] == a[1..][k - 1] && a[k] != a[0];
  }

  lemma {:induction false} AscendingUnique(a: seq<nat>, b: seq<nat>)
    requires Rising(a) && Rising(b)
    requires forall x :: x in a <==> x in b
    ensures a == b
  {
    assert |a| > 0 ==> a[0] in b;
    assert |b| > 0 ==> b[0] in a;
    if a != [] {
      RisingTail(a);
      RisingTail(b);
      AscendingUnique(a[1..], b[1..]);
      assert a == [a[0]] + a[1..] && b == [b[0]] + b[1..];
    }
  }

  ghost function Done(visited: seq<nat>): set<nat> {
    set id | id in visited
  }

  /** Where the loop stands: after the first `n` of `all`. */
  ghost predicate StandsAt(all: seq<nat>, n: nat, last: Option<nat>) {
    n <= |all| && last == if n == 0 then None else Some(all[n - 1])
  }

  lemma RisingSplit(all: seq<nat>, n: nat, id: nat)
    requires Rising(all) && n <= |all|
    ensures id in all[..n] ==> n > 0 && id in all && id <= all[n - 1]
    ensures id in all[n..] ==> id in all && (n > 0 ==> all[n - 1] < id)
    ensures id in all ==> id in all[..n] || id in all[n..]
  {
    assert all == all[..n] + all[n..];
  }

  /** `all` lists the ids of the matching rows in order. */
  ghost predicate Lists<V>(all: seq<nat>, rows: map<nat, V>, matches: V -> bool) {
    Rising(all) && forall id :: id in all <==> id in rows && matches(rows[id])
  }

  lemma Listing<V>(rows: map<nat, V>, matches: V -> bool) returns (all: seq<nat>)
    ensures Lists(all, rows, matches)
  {
    var selected := set id | id in rows && matches(rows[id]);
    all := Ascending(selected);
    AscendingLists(selected);
  }

  lemma PendingIsRest<V(!new)>(before: map<nat, V>, now: map<nat, V>, matches: V -> bool, judge: (nat, V) -> Verdict<V>,
                               all: seq<nat>, n: nat, last: Option<nat>, id: nat)
    requires StillMatches(matches, judge) && Lists(all, before, matches) && StandsAt(all, n, last)
    requires now == Processed(before, judge, Done(all[..n]))
    ensures id in now && matches(now[id]) && After(last, id) <==> id in all[n..]
  {
    RisingSplit(all, n, id);
    if id in before {
      assert now[id] == before[id] || (id in all[..n] && judge(id, before[id]).Rewrite?);
    }
  }

  /** The rows the keyset query selects are exactly those not yet visited: rewriting rows in place makes it neither skip
      a row nor see one again. */
  lemma RestIsUnvisited<V(!new)>(before: map<nat, V>, now: map<nat, V>, matches: V -> bool,
                                 judge: (nat, V) -> Verdict<V>,
                                 all: seq<nat>, n: nat, last: Option<nat>, rest: seq<nat>)
    requires StillMatches(matches, judge) && Lists(all, before, matches) && StandsAt(all, n, last)
    requires now == Processed(before, judge, Done(all[..n]))
    requires Rising(rest) && forall id :: id in rest <==> id in now && matches(now[id]) && After(last, id)
    ensures rest == all[n..]
  {
    forall id ensures id in rest <==> id in all[n..] {
      PendingIsRest(before, now, matches, judge, all, n, last, id);
    }
    AscendingUnique(rest, all[n..]);
  }

  /** Processing one more row. */
  lemma ProcessNext<V>(before: map<nat, V>, judge: (nat, V) -> Verdict<V>, visited: seq<nat>, id: nat)
    requires id in before && id !in visited
    ensures var now := Processed(before, judge, Done(visited));
            var next := Processed(before, judge, Done(visited + [id]));
            && now[id] == before[id]
            && next == (if judge(id, before[id]).Rewrite? then now[id := judge(id, before[id]).value] else now)
            && |Rewritten(before, judge, Done(visited + [id]))|
               == |Rewritten(before, judge, Done(visited))| + if judge(id, before[id]).Rewrite? then 1 else 0
  {
    var rewritten, longer := Rewritten(before, judge, Done(visited)), Rewritten(before, judge, Done(visited + [id]));
    assert longer == if judge(id, before[id]).Rewrite? then rewritten + {id} else rewritten;
    assert id !in rewritten;
  }

  /** The loop's invariant: the first |visited| of `all` are processed, the rest of the table is as it was, and
      `migrated` counts the rewritten rows. */
  ghost predicate Progress<V>(before: map<nat, V>, judge: (nat, V) -> Verdict<V>, all: seq<nat>, now: map<nat, V>,
                              visited: seq<nat>, migrated: nat)
  {
    && visited <= all
    && now == Processed(before, judge, Done(visited))
    && migrated == |Rewritten(before, judge, Done(visited))|
  }

  lemma ProgressStarts<V>(before: map<nat, V>, judge: (nat, V) -> Verdict<V>, all: seq<nat>)
    ensures Progress(before, judge, all, before, [], 0)
  {
    assert Rewritten(before, judge, Done([])) == {};
  }

  lemma ProgressStep<V>(before: map<nat, V>, judge: (nat, V) -> Verdict<V>, all: seq<nat>, now: map<nat, V>,
                        visited: seq<nat>, migrated: nat)
    requires Progress(before, judge, all, now, visited, migrated) && |visited| < |all|
    requires Rising(all) && forall id :: id in all ==> id in before
    ensures var id := all[|visited|];
            && id in now && now[id] == before[id]
            && match judge(id, before[id])
               case Rewrite(v) => Progress(before, judge, all, now[id := v], visited + [id], migrated + 1)
               case _ => Progress(before, judge, all, now, visited + [id], migrated)
  {
    var id := all[|visited|];
    assert id in all;
    assert id !in visited;
    ProcessNext(before, judge, visited, id);
  }

  /** The rows still to come in the batch `ids` are the next ones of `all`, and the values fetched are their old
      ones. */
  ghost predicate Fetched<V>(before: map<nat, V>, all: seq<nat>, n: nat, ids: seq<nat>, values: seq<V>) {
    && n + |ids| <= |all| && |values| == |ids|
    && forall i :: 0 <= i < |ids| ==> ids[i] == all[n + i] && ids[i] in before && values[i] == before[ids[i]]
  }

  lemma FetchedNow<V>(before: map<nat, V>, judge: (nat, V) -> Verdict<V>, all: seq<nat>, now: map<nat, V>,
                      visited: seq<nat>, migrated: nat, ids: seq<nat>, values: seq<V>)
    requires Progress(before, judge, all, now, visited, migrated)
    requires Rising(all) && forall id :: id in all ==> id in before
    requires |visited| + |ids| <= |all| && ids == all[|visited|..|visited| + |ids|]
    requires |values| == |ids| && forall i :: 0 <= i < |ids| ==> ids[i] in now && values[i] == now[ids[i]]
    ensures Fetched(before, all, |visited|, ids, values)
  {
    forall i | 0 <= i < |ids| ensures ids[i] == all[|visited| + i] && ids[i] in before && values[i] == before[ids[i]] {
      assert ids[i] == all[|visited| + i];
      assert ids[i] in all && ids[i] !in visited;
    }
  }

  /** The page fetched at a given point of the run is the next stretch of `all`, with its old values. */
  lemma PageIsNext<V(!new)>(before: map<nat, V>, now: map<nat, V>, matches: V -> bool, judge: (nat, V) -> Verdict<V>,
                            all: seq<nat>, visited: seq<nat>, migrated: nat, last: Option<nat>, rest: seq<nat>, n: nat,
                            ids: seq<nat>, values: seq<V>)
    requires StillMatches(matches, judge) && Lists(all, before, matches) && StandsAt(all, |visited|, last) && n >= 1
    requires Progress(before, judge, all, now, visited, migrated)
    requires Rising(rest) && forall id :: id in rest <==> id in now && matches(now[id]) && After(last, id)
    requires ids == if |rest| <= n then rest else rest[..n]
    requires |values| == |ids| && forall i :: 0 <= i < |ids| ==> ids[i] in now && values[i] == now[ids[i]]
    ensures Fetched(before, all, |visited|, ids, values)
    ensures |ids| < n ==> |visited| + |ids| == |all|
    ensures |ids| > 0 ==> StandsAt(all, |visited| + |ids|, Some(ids[|ids| - 1]))
  {
    assert visited == all[..|visited|];
    RestIsUnvisited(before, now, matches, judge, all, |visited|, last, rest);
    FetchedNow(before, judge, all, now, visited, migrated, ids, values);
  }

  /** The query as the worker meets it in the middle of a run. */
  method NextPage<V(!new)>(rows: map<nat, V>, matches: V -> bool, last: Option<nat>, n: nat, ghost before: map<nat, V>,
                           ghost judge: (nat, V) -> Verdict<V>, ghost all: seq<nat>, ghost visited: seq<nat>,
                           ghost migrated: nat)
    returns (ids: seq<nat>, values: seq<V>)
    requires StillMatches(matches, judge) && Lists(all, before, matches) && StandsAt(all, |visited|, last) && n >= 1
    requires Progress(before, judge, all, rows, visited, migrated)
    ensures Fetched(before, all, |visited|, ids, values)
    ensures |ids| < n ==> |visited| + |ids| == |all|
    ensures |ids| > 0 ==> StandsAt(all, |visited| + |ids|, Some(ids[|ids| - 1]))
    ensures Rising(ids) && forall i :: 0 <= i < |ids| ==> ids[i] in rows && values[i] == rows[ids[i]]
  {
    ghost var rest;
    ids, values, rest := NextBatch(rows, matches, last, n);
    PageIsNext(before, rows, matches, judge, all, visited, migrated, last, rest, n, ids, values);
  }

  /** These rows, in rising order, with what they hold. */
  ghost predicate Holds<V>(rows: map<nat, V>, ids: seq<nat>, values: seq<V>) {
    && Rising(ids) && |values| == |ids|
    && forall i :: 0 <= i < |ids| ==> ids[i] in rows && values[i] == rows[ids[i]]
  }

  /** The database calls `from`, ..., `to - 1` went through, and unless the work is `done` call `to` failed. */
  ghost predicate Called(faults: nat -> bool, from: nat, to: nat, done: bool) {
    from <= to && (forall n: nat :: from <= n < to ==> !faults(n)) && (done || faults(to))
  }

  /** The tables the worker migrates: the outbox payloads and one encrypted text column. */
  class Migrator {
    var outbox: map<nat, Json>
    var column: map<nat, string>
    const batchSize: nat

    constructor (outbox: map<nat, Json>, column: map<nat, string>)
      ensures this.outbox == outbox && this.column == column && batchSize == 500
    {
      this.outbox, this.column, batchSize := outbox, column, DEFAULT_BATCH_SIZE;
    }

    /** One batch of the outbox, row by row; `done` is false when a database update failed. */
    method RewriteOutbox(lib: Library, ring: KeyRing, nonce: nat -> string, faults: nat -> bool, ids: seq<nat>,
                         payloads: seq<Json>, calls0: nat, migrated0: nat,
                         ghost before: map<nat, Json>, ghost all: seq<nat>, ghost visited0: seq<nat>)
      returns (migrated: nat, calls: nat, done: bool, ghost visited: seq<nat>)
      requires Progress(before, JudgeJson(lib, ring, nonce), all, outbox, visited0, migrated0)
      requires Fetched(before, all, |visited0|, ids, payloads) && Lists(all, before, EncryptedJson)
      modifies this`outbox
      ensures Progress(before, JudgeJson(lib, ring, nonce), all, outbox, visited, migrated)
      ensures done ==> |visited| == |visited0| + |ids|
      ensures Called(faults, calls0, calls, done)
    {
      migrated, calls, done, visited := migrated0, calls0, false, visited0;
      for i := 0 to |payloads|
        invariant |visited| == |visited0| + i
        invariant Progress(before, JudgeJson(lib, ring, nonce), all, outbox, visited, migrated)
        invariant Called(faults, calls0, calls, true)
      {
        ProgressStep(before, JudgeJson(lib, ring, nonce), all, outbox, visited, migrated);
        var verdict := ReencryptJson(lib, ring, payloads[i], nonce(ids[i]));
        if verdict.Rewrite? {
          if faults(calls) {
            return;
          }
          calls := calls + 1;
          outbox := outbox[ids[i] := verdict.value];
          migrated := migrated + 1;
        }
        visited := visited + [ids[i]];
      }
      done := true;
    }

    /** The page query of the outbox. */
    method FetchOutbox(ghost lib: Library, ghost ring: KeyRing, ghost nonce: nat -> string, last: Option<nat>,
                       ghost before: map<nat, Json>, ghost all: seq<nat>, ghost visited: seq<nat>, ghost migrated: nat)
      returns (ids: seq<nat>, values: seq<Json>)
      requires batchSize >= 1 && Lists(all, before, EncryptedJson) && StandsAt(all, |visited|, last)
      requires Progress(before, JudgeJson(lib, ring, nonce), all, outbox, visited, migrated)
      ensures Fetched(before, all, |visited|, ids, values)
      ensures |ids| < batchSize ==> |visited| + |ids| == |all|
      ensures |ids| > 0 ==> StandsAt(all, |visited| + |ids|, Some(ids[|ids| - 1]))
    {
      ghost var judge := JudgeJson(lib, ring, nonce);
      JudgesStillMatch(lib, ring, nonce);
      ids, values := NextPage(outbox, EncryptedJson, last, batchSize, before, judge, all, visited, migrated);
    }

    /** One turn of the outer loop: fetch the next page and rewrite it; `got` is the page's length. */
    method OutboxPage(lib: Library, ring: KeyRing, nonce: nat -> string, faults: nat -> bool, last0: Option<nat>,
                      calls0: nat, migrated0: nat,
                      ghost before: map<nat, Json>, ghost all: seq<nat>, ghost visited0: seq<nat>)
      returns (migrated: nat, calls: nat, last: Option<nat>, got: nat, done: bool, ghost visited: seq<nat>)
      requires batchSize >= 1 && Lists(all, before, EncryptedJson) && StandsAt(all, |visited0|, last0)
      requires Progress(before, JudgeJson(lib, ring, nonce), all, outbox, visited0, migrated0)
      modifies this`outbox
      ensures Progress(before, JudgeJson(lib, ring, nonce), all, outbox, visited, migrated)
      ensures done ==> |visited| == |visited0| + got && StandsAt(all, |visited|, last)
      ensures done && got < batchSize ==> |visited| == |all|
      ensures Called(faults, calls0, calls, done)
    {
      migrated, calls, last, got, done, visited := migrated0, calls0, last0, 0, false, visited0;
      if faults(calls0) {
        return;
      }
      calls := calls + 1;
      var ids, values := FetchOutbox(lib, ring, nonce, last, before, all, visited, migrated);
      got := |ids|;
      if got == 0 {
        done := true;
        return;
      }
      last := Some(ids[|ids| - 1]);
      migrated, calls, done, visited :=
        RewriteOutbox(lib, ring, nonce, faults, ids, values, calls, migrated, before, all, visited);
    }

    /** Each database call takes the next element of `faults`; the first failure ends the run with the rows processed so
        far in their new form. `visited` lists the rows in the order they were processed, `all` those that match. */
    method MigrateOutbox(lib: Library, ring: KeyRing, nonce: nat -> string, faults: nat -> bool)
      returns (migrated: nat, ok: bool, ghost visited: seq<nat>, ghost all: seq<nat>, ghost calls: nat)
      requires batchSize >= 1
      modifies this`outbox
      ensures Lists(all, old(outbox), EncryptedJson)
      ensures Progress(old(outbox), JudgeJson(lib, ring, nonce), all, outbox, visited, migrated)
      ensures ok ==> visited == all
      ensures Called(faults, 0, calls, ok)
      ensures (forall n: nat :: !faults(n)) ==> ok
    {
      all := Listing(outbox, EncryptedJson);
      ProgressStarts(outbox, JudgeJson(lib, ring, nonce), all);
      migrated, ok, visited := 0, false, [];
      calls := 0;
      var last: Option<nat>, made := None, 0;
      while true
        invariant Progress(old(outbox), JudgeJson(lib, ring, nonce), all, outbox, visited, migrated)
        invariant StandsAt(all, |visited|, last)
        invariant calls == made && Called(faults, 0, made, true)
        decreases |all| - |visited|
      {
        var got, done;
        migrated, made, last, got, done, visited :=
          OutboxPage(lib, ring, nonce, faults, last, made, migrated, old(outbox), all, visited);
        calls := made;
        if !done {
          return;
        }
        if got < batchSize {
          ok := true;
          return;
        }
      }
    }

    /** One batch of the column, row by row. */
    method RewriteColumn(lib: Library, ring: KeyRing, nonce: nat -> string, faults: nat -> bool, ids: seq<nat>,
                         values: seq<string>, calls0: nat, migrated0: nat,
                         ghost before: map<nat, string>, ghost all: seq<nat>, ghost visited0: seq<nat>)
      returns (migrated: nat, calls: nat, done: bool, ghost visited: seq<nat>)
      requires Progress(before, JudgeText(lib, ring, nonce), all, column, visited0, migrated0)
      requires Fetched(before, all, |visited0|, ids, values) && Lists(all, before, EncryptedText)
      modifies this`column
      ensures Progress(before, JudgeText(lib, ring, nonce), all, column, visited, migrated)
      ensures done ==> |visited| == |visited0| + |ids|
      ensures Called(faults, calls0, calls, done)
    {
      migrated, calls, done, visited := migrated0, calls0, false, visited0;
      for i := 0 to |values|
        invariant |visited| == |visited0| + i
        invariant Progress(before, JudgeText(lib, ring, nonce), all, column, visited, migrated)
        invariant Called(faults, calls0, calls, true)
      {
        ProgressStep(before, JudgeText(lib, ring, nonce), all, column, visited, migrated);
        var verdict := ReencryptString(lib, ring, values[i], nonce(ids[i]));
        if verdict.Rewrite? {
          if faults(calls) {
            return;
          }
          calls := calls + 1;
          column := column[ids[i] := verdict.value];
          migrated := migrated + 1;
        }
        visited := visited + [ids[i]];
      }
      done := true;
    }

    /** The first query of the column's page: the ids. What their rows hold is kept for the proof. */
    method FetchIds(ghost lib: Library, ghost ring: KeyRing, ghost nonce: nat -> string, last: Option<nat>,
                    ghost before: map<nat, string>, ghost all: seq<nat>, ghost visited: seq<nat>, ghost migrated: nat)
      returns (ids: seq<nat>, ghost held: seq<string>)
      requires batchSize >= 1 && Lists(all, before, EncryptedText) && StandsAt(all, |visited|, last)
      requires Progress(before, JudgeText(lib, ring, nonce), all, column, visited, migrated)
      ensures Fetched(before, all, |visited|, ids, held)
      ensures |ids| < batchSize ==> |visited| + |ids| == |all|
      ensures |ids| > 0 ==> StandsAt(all, |visited| + |ids|, Some(ids[|ids| - 1]))
      ensures Holds(column, ids, held)
    {
      ghost var judge := JudgeText(lib, ring, nonce);
      JudgesStillMatch(lib, ring, nonce);
      var selected;
      ids, selected := NextPage(column, EncryptedText, last, batchSize, before, judge, all, visited, migrated);
      held := selected;
    }

    /** The second query: the values of those rows, which come in the order of the ids. */
    method FetchValues(ids: seq<nat>, ghost held: seq<string>, ghost before: map<nat, string>, ghost all: seq<nat>,
                       ghost n: nat)
      returns (values: seq<string>)
      requires Holds(column, ids, held) && Fetched(before, all, n, ids, held)
      ensures Fetched(before, all, n, ids, values)
    {
      values := ValuesOf(column, ids);
      assert values == held;
    }

    /** Both queries of a page, the second only if there are rows; `done` is false when one failed. */
    method ReadPage(ghost lib: Library, ghost ring: KeyRing, ghost nonce: nat -> string, faults: nat -> bool,
                    last: Option<nat>, calls0: nat, ghost before: map<nat, string>, ghost all: seq<nat>,
                    ghost visited: seq<nat>, ghost migrated: nat)
      returns (ids: seq<nat>, values: seq<string>, calls: nat, done: bool)
      requires batchSize >= 1 && Lists(all, before, EncryptedText) && StandsAt(all, |visited|, last)
      requires Progress(before, JudgeText(lib, ring, nonce), all, column, visited, migrated)
      ensures done && |ids| > 0 ==> Fetched(before, all, |visited|, ids, values)
      ensures done && |ids| > 0 ==> StandsAt(all, |visited| + |ids|, Some(ids[|ids| - 1]))
      ensures done && |ids| < batchSize ==> |visited| + |ids| == |all|
      ensures Called(faults, calls0, calls, done)
    {
      ids, values, calls, done := [], [], calls0, false;
      if faults(calls) {
        return;
      }
      calls := calls + 1;
      ghost var held;
      ids, held := FetchIds(lib, ring, nonce, last, before, all, visited, migrated);
      if |ids| == 0 {
        done := true;
        return;
      }
      if faults(calls) {
        return;
      }
      calls := calls + 1;
      values := FetchValues(ids, held, before, all, |visited|);
      done := true;
    }

    /** One turn over the column: the page is read and its rows rewritten. */
    method ColumnPage(lib: Library, ring: KeyRing, nonce: nat -> string, faults: nat -> bool, last0: Option<nat>,
                      calls0: nat, migrated0: nat,
                      ghost before: map<nat, string>, ghost all: seq<nat>, ghost visited0: seq<nat>)
      returns (migrated: nat, calls: nat, last: Option<nat>, got: nat, done: bool, ghost visited: seq<nat>)
      requires batchSize >= 1 && Lists(all, before, EncryptedText) && StandsAt(all, |visited0|, last0)
      requires Progress(before, JudgeText(lib, ring, nonce), all, column, visited0, migrated0)
      modifies this`column
      ensures Progress(before, JudgeText(lib, ring, nonce), all, column, visited, migrated)
      ensures done ==> |visited| == |visited0| + got && StandsAt(all, |visited|, last)
      ensures done && got < batchSize ==> |visited| == |all|
      ensures Called(faults, calls0, calls, done)
    {
      migrated, last, got, visited := migrated0, last0, 0, visited0;
      var ids, values;
      ids, values, calls, done := ReadPage(lib, ring, nonce, faults, last, calls0, before, all, visited, migrated);
      if !done || |ids| == 0 {
        return;
      }
      got, last := |ids|, Some(ids[|ids| - 1]);
      migrated, calls, done, visited :=
        RewriteColumn(lib, ring, nonce, faults, ids, values, calls, migrated, before, all, visited);
    }

    /** The same loop over a text column, whose ids and values come from two queries paired by position. */
    method MigrateColumn(lib: Library, ring: KeyRing, nonce: nat -> string, faults: nat -> bool)
      returns (migrated: nat, ok: bool, ghost visited: seq<nat>, ghost all: seq<nat>, ghost calls: nat)
      requires batchSize >= 1
      modifies this`column
      ensures Lists(all, old(column), EncryptedText)
      ensures Progress(old(column), JudgeText(lib, ring, nonce), all, column, visited, migrated)
      ensures ok ==> visited == all
      ensures Called(faults, 0, calls, ok)
      ensures (forall n: nat :: !faults(n)) ==> ok
    {
      all := Listing(column, EncryptedText);
      ProgressStarts(column, JudgeText(lib, ring, nonce), all);
      migrated, ok, visited := 0, false, [];
      calls := 0;
      var last: Option<nat>, made := None, 0;
      while true
        invariant Progress(old(column), JudgeText(lib, ring, nonce), all, column, visited, migrated)
        invariant StandsAt(all, |visited|, last)
        invariant calls == made && Called(faults, 0, made, true)
        decreases |all| - |visited|
      {
        var got, done;
        migrated, made, last, got, done, visited :=
          ColumnPage(lib, ring, nonce, faults, last, made, migrated, old(column), all, visited);
        calls := made;
        if !done {
          return;
        }
        if got < batchSize {
          ok := true;
          return;
        }
      }
    }
  }

  // ----- What a migration preserves -----

  /** The ring that is left once the previous keys are retired. */
  function Retired(ring: KeyRing): KeyRing {
    KeyRing(ring.current, [])
  }

  function Outcome<V>(verdict: Verdict<V>, value: V): V {
    if verdict.Rewrite? then verdict.value else value
  }

  ghost predicate GoodRing(lib: Library, ring: KeyRing) {
    Sound(lib) && MadeFrom(lib, ring) && DistinctIds(ring)
  }

  lemma CurrentKeyReads(lib: Library, ring: KeyRing, plain: string, nonce: string)
    requires GoodRing(lib, ring)
    ensures Decrypt(lib, ring, Encrypt(lib, ring, plain, nonce)) == Success(plain)
    ensures Decrypt(lib, Retired(ring), Encrypt(lib, ring, plain, nonce)) == Success(plain)
  {
    assert ring.current in Entries(ring) && ring.current in Entries(Retired(ring));
    assert forall e :: e in Entries(Retired(ring)) ==> e == ring.current;
    EncryptThenDecrypt(lib, ring, ring, plain, nonce);
    EncryptThenDecrypt(lib, ring, Retired(ring), plain, nonce);
  }

  /** A value under the current key is read the same way without the previous keys. */
  lemma CurrentValueNeedsNoOther(lib: Library, ring: KeyRing, enc: string)
    requires GoodRing(lib, ring) && UsesCurrentKey(ring, enc)
    ensures Decrypt(lib, Retired(ring), enc) == Decrypt(lib, ring, enc)
  {
    var id := ring.current.id;
    assert ring.current in Entries(ring);
    var header := VERSIONED + id + ":";
    var payload := enc[|header|..];
    assert enc == VERSIONED + id + ":" + payload;
    VersionedShape(id, payload);
  }

  /** One value, one pass: what can be read stays readable as the same plaintext, now with the current key alone;
      what cannot be read stays as it was; and a second pass would not touch the result. */
  lemma ReencryptStringMeaning(lib: Library, ring: KeyRing, enc: string, nonce: string, again: string)
    requires GoodRing(lib, ring)
    ensures var after := Outcome(ReencryptString(lib, ring, enc, nonce), enc);
            && Decrypt(lib, ring, after) == Decrypt(lib, ring, enc)
            && (Decrypt(lib, ring, enc).Success? ==> Decrypt(lib, Retired(ring), after) == Decrypt(lib, ring, enc))
            && (Decrypt(lib, ring, enc).Failure? || !HasPrefix(enc, ENC) ==> after == enc)
            && !ReencryptString(lib, ring, after, again).Rewrite?
  {
    if HasPrefix(enc, ENC) {
      if UsesCurrentKey(ring, enc) {
        CurrentValueNeedsNoOther(lib, ring, enc);
      } else if Decrypt(lib, ring, enc).Success? {
        CurrentKeyReads(lib, ring, Decrypt(lib, ring, enc).value, nonce);
        RewriteIsCurrent(lib, ring, enc, nonce);
      }
    }
  }

  /** The migrated column after a complete run, in which each matching row was visited once (`all` is strictly
      rising). */
  ghost predicate Migrated<V>(before: map<nat, V>, matches: V -> bool, judge: (nat, V) -> Verdict<V>, now: map<nat, V>,
                              migrated: nat)
  {
    exists all :: Lists(all, before, matches) && Progress(before, judge, all, now, all, migrated)
  }

  /** At every moment of a run over a column, failed or not, every row reads as before under the full ring. */
  lemma ReadsNeverBreak(lib: Library, ring: KeyRing, nonce: nat -> string, before: map<nat, string>,
                        now: map<nat, string>,
                        all: seq<nat>, visited: seq<nat>, migrated: nat)
    requires GoodRing(lib, ring) && Progress(before, JudgeText(lib, ring, nonce), all, now, visited, migrated)
    ensures now.Keys == before.Keys
    ensures forall id :: id in before ==> Decrypt(lib, ring, now[id]) == Decrypt(lib, ring, before[id])
  {
    forall id | id in before ensures Decrypt(lib, ring, now[id]) == Decrypt(lib, ring, before[id]) {
      ReencryptStringMeaning(lib, ring, before[id], nonce(id), "");
    }
  }

  /** The rows a complete run rewrites. */
  function ToRewrite<V>(rows: map<nat, V>, judge: (nat, V) -> Verdict<V>): set<nat> {
    set id | id in rows && judge(id, rows[id]).Rewrite?
  }

  /** A complete run gives every row its outcome, matching or not, and counts the rewritten ones. */
  lemma MigratedPointwise<V>(before: map<nat, V>, matches: V -> bool, judge: (nat, V) -> Verdict<V>, now: map<nat, V>,
                             migrated: nat)
    requires Migrated(before, matches, judge, now, migrated)
    requires forall id :: id in before && !matches(before[id]) ==> !judge(id, before[id]).Rewrite?
    ensures now.Keys == before.Keys
    ensures forall id :: id in before ==> now[id] == Outcome(judge(id, before[id]), before[id])
    ensures migrated == |ToRewrite(before, judge)|
  {
    var all :| Lists(all, before, matches) && Progress(before, judge, all, now, all, migrated);
    assert Rewritten(before, judge, Done(all)) == ToRewrite(before, judge);
  }

  /** Main result: rotate, migrate, retire. After a complete run over an encrypted column every row readable under the
      full ring reads as the same plaintext with the current key alone, one that was never encrypted as itself, every
      other row is byte-identical, and the count is the number of rows rewritten. */
  lemma RotateMigrateRetire(lib: Library, ring: KeyRing, nonce: nat -> string, before: map<nat, string>,
                            now: map<nat, string>, migrated: nat)
    requires GoodRing(lib, ring) && Migrated(before, EncryptedText, JudgeText(lib, ring, nonce), now, migrated)
    ensures now.Keys == before.Keys && migrated == |ToRewrite(before, JudgeText(lib, ring, nonce))|
    ensures forall id :: id in before && Decrypt(lib, ring, before[id]).Success? ==>
              Decrypt(lib, Retired(ring), now[id]) == Decrypt(lib, ring, before[id])
    ensures forall id :: id in before && (Decrypt(lib, ring, before[id]).Failure? || !HasPrefix(before[id], ENC)) ==>
              now[id] == before[id]
    ensures forall id :: id in before && !HasPrefix(before[id], ENC) ==>
              Decrypt(lib, ring, before[id]) == Decrypt(lib, Retired(ring), now[id]) == Success(before[id])
  {
    MigratedPointwise(before, EncryptedText, JudgeText(lib, ring, nonce), now, migrated);
    forall id | id in before
      ensures Decrypt(lib, ring, before[id]).Success? ==>
                Decrypt(lib, Retired(ring), now[id]) == Decrypt(lib, ring, before[id])
      ensures Decrypt(lib, ring, before[id]).Failure? || !HasPrefix(before[id], ENC) ==> now[id] == before[id]
      ensures !HasPrefix(before[id], ENC) ==> Decrypt(lib, ring, before[id]) == Success(before[id])
    {
      ReencryptStringMeaning(lib, ring, before[id], nonce(id), "");
      if !HasPrefix(before[id], ENC) {
        PlaintextReadsAsItself(lib, ring, before[id]);
      }
    }
  }

  /** A second complete run over the column rewrites nothing. */
  lemma SecondRunChangesNothing(lib: Library, ring: KeyRing, nonce: nat -> string, nonce2: nat -> string,
                                before: map<nat, string>, now: map<nat, string>, migrated: nat,
                                later: map<nat, string>, migrated2: nat)
    requires GoodRing(lib, ring) && Migrated(before, EncryptedText, JudgeText(lib, ring, nonce), now, migrated)
    requires Migrated(now, EncryptedText, JudgeText(lib, ring, nonce2), later, migrated2)
    ensures later == now && migrated2 == 0
  {
    var judge2 := JudgeText(lib, ring, nonce2);
    MigratedPointwise(before, EncryptedText, JudgeText(lib, ring, nonce), now, migrated);
    forall id | id in now ensures !judge2(id, now[id]).Rewrite? {
      ReencryptStringMeaning(lib, ring, before[id], nonce(id), nonce2(id));
    }
    MigratedPointwise(now, EncryptedText, judge2, later, migrated2);
    assert ToRewrite(now, judge2) == {};
  }

  // ----- The same for outbox payloads -----

  /** What the dispatcher reads from a payload column: the JSON string's content, or the raw text, decrypted. Go decodes
      `null` into an empty string. */
  function ReadPayload(lib: Library, ring: KeyRing, raw: Json): Result<string, Error> {
    match raw
    case JString(s) => Decrypt(lib, ring, s)
    case JText(t) => Decrypt(lib, ring, if t == "null" then "" else t)
  }

  /** A payload that was never encrypted, as text or as a JSON string. */
  predicate PlainPayload(raw: Json) {
    !HasPrefix(if raw.JString? then raw.s else raw.text, ENC)
  }

  /** What it says: the string's content, or the JSON text itself, `null` read as nothing. */
  function PlainText(raw: Json): string {
    if raw.JString? then raw.s else if raw.text == "null" then "" else raw.text
  }

  lemma PlainPayloadReads(lib: Library, ring: KeyRing, raw: Json)
    requires PlainPayload(raw)
    ensures ReadPayload(lib, ring, raw) == Success(PlainText(raw))
  {
    assert !HasPrefix("", ENC);
    PlaintextReadsAsItself(lib, ring, PlainText(raw));
  }

  /** Other JSON text never starts with `enc:`. */
  ghost predicate WellFormed(raw: Json) {
    raw.JText? ==> !HasPrefix(raw.text, ENC)
  }

  /** One payload, one pass. */
  lemma ReencryptJsonMeaning(lib: Library, ring: KeyRing, raw: Json, nonce: string, again: string)
    requires GoodRing(lib, ring) && WellFormed(raw)
    ensures var after := Outcome(ReencryptJson(lib, ring, raw, nonce), raw);
            && ReadPayload(lib, ring, after) == ReadPayload(lib, ring, raw) && WellFormed(after)
            && (ReadPayload(lib, ring, raw).Success? ==>
                  ReadPayload(lib, Retired(ring), after) == ReadPayload(lib, ring, raw))
            && (ReadPayload(lib, ring, raw).Failure? || !EncryptedJson(raw) ==> after == raw)
            && !ReencryptJson(lib, ring, after, again).Rewrite?
  {
    if raw.JString? {
      ReencryptStringMeaning(lib, ring, raw.s, nonce, again);
    }
  }

  /** At every moment of a run over the outbox, failed or not, every payload reads as before under the full ring: the
      dispatcher never notices the worker. */
  lemma OutboxReadsNeverBreak(lib: Library, ring: KeyRing, nonce: nat -> string, before: map<nat, Json>,
                              now: map<nat, Json>,
                              all: seq<nat>, visited: seq<nat>, migrated: nat)
    requires GoodRing(lib, ring) && Progress(before, JudgeJson(lib, ring, nonce), all, now, visited, migrated)
    requires forall id :: id in before ==> WellFormed(before[id])
    ensures now.Keys == before.Keys
    ensures forall id :: id in before ==> ReadPayload(lib, ring, now[id]) == ReadPayload(lib, ring, before[id])
  {
    forall id | id in before ensures ReadPayload(lib, ring, now[id]) == ReadPayload(lib, ring, before[id]) {
      ReencryptJsonMeaning(lib, ring, before[id], nonce(id), "");
    }
  }

  /** A second complete run over the outbox rewrites nothing. */
  lemma OutboxSecondRunChangesNothing(lib: Library, ring: KeyRing, nonce: nat -> string, nonce2: nat -> string,
                                      before: map<nat, Json>, now: map<nat, Json>, migrated: nat,
                                      later: map<nat, Json>, migrated2: nat)
    requires GoodRing(lib, ring) && Migrated(before, EncryptedJson, JudgeJson(lib, ring, nonce), now, migrated)
    requires forall id :: id in before ==> WellFormed(before[id])
    requires Migrated(now, EncryptedJson, JudgeJson(lib, ring, nonce2), later, migrated2)
    ensures later == now && migrated2 == 0
  {
    var judge2 := JudgeJson(lib, ring, nonce2);
    MigratedPointwise(before, EncryptedJson, JudgeJson(lib, ring, nonce), now, migrated);
    forall id | id in now ensures !judge2(id, now[id]).Rewrite? {
      ReencryptJsonMeaning(lib, ring, before[id], nonce(id), nonce2(id));
    }
    MigratedPointwise(now, EncryptedJson, judge2, later, migrated2);
    assert ToRewrite(now, judge2) == {};
  }

  /** Main result for the outbox: after a complete run every payload readable under the full ring is readable as the
      same plaintext with the current key alone, one that was never encrypted as its own text, every other payload is
      byte-identical, and the count is the number of payloads rewritten. */
  lemma OutboxRotateMigrateRetire(lib: Library, ring: KeyRing, nonce: nat -> string, before: map<nat, Json>,
                                  now: map<nat, Json>, migrated: nat)
    requires GoodRing(lib, ring) && Migrated(before, EncryptedJson, JudgeJson(lib, ring, nonce), now, migrated)
    requires forall id :: id in before ==> WellFormed(before[id])
    ensures now.Keys == before.Keys && migrated == |ToRewrite(before, JudgeJson(lib, ring, nonce))|
    ensures forall id :: id in before ==> ReadPayload(lib, ring, now[id]) == ReadPayload(lib, ring, before[id])
    ensures forall id :: id in before && ReadPayload(lib, ring, before[id]).Success? ==>
              ReadPayload(lib, Retired(ring), now[id]) == ReadPayload(lib, ring, before[id])
    ensures forall id :: id in before && (ReadPayload(lib, ring, before[id]).Failure? || !EncryptedJson(before[id])) ==>
              now[id] == before[id]
    ensures forall id :: id in before && PlainPayload(before[id]) ==>
              && now[id] == before[id]
              && ReadPayload(lib, Retired(ring), now[id]) == Success(PlainText(before[id]))
  {
    MigratedPointwise(before, EncryptedJson, JudgeJson(lib, ring, nonce), now, migrated);
    forall id | id in before
      ensures ReadPayload(lib, ring, now[id]) == ReadPayload(lib, ring, before[id])
      ensures ReadPayload(lib, ring, before[id]).Success? ==>
                ReadPayload(lib, Retired(ring), now[id]) == ReadPayload(lib, ring, before[id])
      ensures ReadPayload(lib, ring, before[id]).Failure? || !EncryptedJson(before[id]) ==> now[id] == before[id]
      ensures PlainPayload(before[id]) ==> ReadPayload(lib, ring, before[id]) == Success(PlainText(before[id]))
    {
      ReencryptJsonMeaning(lib, ring, before[id], nonce(id), "");
      if PlainPayload(before[id]) {
        PlainPayloadReads(lib, ring, before[id]);
      }
    }
  }
}
