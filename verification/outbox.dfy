/** The transactional outbox and its dispatcher (backend/internal/outbox/outbox.go). */
module Outbox {
  import opened Wrappers
  import opened Clock
  import opened CryptoRing
  import opened Resilience
  import opened TokenLock
  import R = Reencrypt

  const MAX_ATTEMPTS_DEFAULT := 25
  const BATCH_SIZE := 100
  const LOCK_TTL := 30 * SECOND
  const DELIVERY_RETRY := RetryOpts(4, 100 * MILLISECOND, 1 * SECOND, 0)
  const LOCK_KEY := "outbox:dispatcher"

  datatype Row = Row(id: nat, subject: string, eventType: string, payload: R.Json, createdAt: int,
                     publishedAt: Option<int>, attempts: nat, lastError: string)

  datatype Event = Event(id: nat, subject: string, eventType: string, payload: string, timestamp: int)

  /** What the environment does to one row's delivery: which publish attempts the bus accepts, which pauses are
      cancelled, and which of the three updates reach the database. A crash is a lost update on the last row reached. */
  datatype Fate = Fate(accepts: nat -> bool, cancelled: nat -> bool, markOk: bool, countOk: bool, buryOk: bool)

  /** One turn of a row, for the record: delivered, or failed. */
  datatype Turn = Delivered(id: nat) | FailedTurn(id: nat)

  /** `rows` stand in `created_at` order; row k has id k. `accepted` is what the bus took, `turns` the model's
      record. */
  datatype State = State(rows: seq<Row>, accepted: seq<Event>, circuit: Circuit, deliveries: nat, turns: seq<Turn>)

  datatype Config = Config(lib: Library, ring: KeyRing, batchSize: nat, maxAttempts: nat, limits: Limits)

  predicate Pending(row: Row) {
    row.publishedAt.None?
  }

  // ----- Queueing -----

  /** `newRow`: the payload, already JSON text, is encrypted and stored as a JSON string. */
  function NewRow(lib: Library, writer: KeyRing, id: nat, subject: string, eventType: string, payload: string,
                  nonce: string, now: int): Row
  {
    Row(id, subject, eventType, R.JString(Encrypt(lib, writer, payload, nonce)), now, None, 0, "")
  }

  // ----- Dispatching -----

  /** `WHERE published_at IS NULL ORDER BY created_at`, positions from `i` on. */
  function PendingFrom(rows: seq<Row>, i: nat): seq<nat>
    requires i <= |rows|
    decreases |rows| - i
  {
    if i == |rows| then [] else (if Pending(rows[i]) then [i] else []) + PendingFrom(rows, i + 1)
  }

  function FirstPending(rows: seq<Row>, n: nat): seq<nat> {
    var all := PendingFrom(rows, 0);
    if |all| <= n then all else all[..n]
  }

  predicate Delivers(c: Config, row: Row, fate: Fate) {
    R.ReadPayload(c.lib, c.ring, row.payload).Success?
    && Eventually(fate.accepts, fate.cancelled, 0, DELIVERY_RETRY.maxAttempts)
  }

  /** A row whose payload was never encrypted is delivered exactly if one of the attempts is accepted before a
      cancellation, and what goes out is its own text. */
  lemma PlainRowDelivers(c: Config, row: Row, fate: Fate)
    requires R.PlainPayload(row.payload)
    ensures R.ReadPayload(c.lib, c.ring, row.payload) == Success(R.PlainText(row.payload))
    ensures EventOf(c, row) == Event(row.id, row.subject, row.eventType, R.PlainText(row.payload), row.createdAt)
    ensures Delivers(c, row, fate) <==>
            exists i: nat :: i < 4 && fate.accepts(i) && forall j: nat :: j < i ==> !fate.cancelled(j)
  {
    R.PlainPayloadReads(c.lib, c.ring, row.payload);
    EventuallyExactly(fate.accepts, fate.cancelled, 0, DELIVERY_RETRY.maxAttempts);
  }

  function EventOf(c: Config, row: Row): Event
    requires R.ReadPayload(c.lib, c.ring, row.payload).Success?
  {
    Event(row.id, row.subject, row.eventType, R.ReadPayload(c.lib, c.ring, row.payload).value, row.createdAt)
  }

  /** The stored row after a successful delivery whose mark may be lost. */
  function Marked(row: Row, fate: Fate, now: int): Row {
    if fate.markOk then row.(publishedAt := Some(now)) else row
  }

  /** The stored row after a failed delivery by a dispatcher that read it with `seen` attempts: counted from there, and
      dead-lettered from `maxAttempts` on; either write may be lost. */
  function ChargedFrom(row: Row, seen: nat, fate: Fate, maxAttempts: nat, now: int): Row {
    var counted := if fate.countOk then row.(attempts := seen + 1, lastError := "delivery failed") else row;
    if seen + 1 >= maxAttempts && fate.buryOk
    then counted.(publishedAt := Some(now), lastError := "dead_lettered") else counted
  }

  function Charged(row: Row, fate: Fate, maxAttempts: nat, now: int): Row {
    ChargedFrom(row, row.attempts, fate, maxAttempts, now)
  }

  /** How long the retries of one row pause; an unreadable row makes no attempt. */
  function RowPause(c: Config, row: Row, fate: Fate): int {
    if R.ReadPayload(c.lib, c.ring, row.payload).Failure? then 0
    else
      var n := AttemptsMade(fate.accepts, fate.cancelled, 0, DELIVERY_RETRY.maxAttempts);
      TotalPause(DELIVERY_RETRY, n - 1, NoDraw)
  }

  /** The delivery policy has no jitter, so it draws nothing. */
  function NoDraw(i: nat): nat {
    0
  }

  /** One row's turn, begun at `now` and recorded when its retries are over. */
  function ProcessRow(st: State, c: Config, k: nat, fate: Fate, now: int): State
    requires k < |st.rows|
  {
    var row := st.rows[k];
    var later := now + RowPause(c, row, fate);
    if Delivers(c, row, fate) then
      State(st.rows[k := Marked(row, fate, later)], st.accepted + [EventOf(c, row)], AfterSuccess(st.circuit),
            st.deliveries + 1, st.turns + [Delivered(row.id)])
    else
      st.(rows := st.rows[k := Charged(row, fate, c.maxAttempts, later)],
          circuit := AfterFailure(st.circuit, c.limits, later), turns := st.turns + [FailedTurn(row.id)])
  }

  /** The same for a dispatcher that works from the copy of row `k` it read earlier: it delivers the copy, and writes to
      the row as it is now. */
  function ServeCopy(st: State, c: Config, k: nat, copy: Row, fate: Fate, now: int): State
    requires k < |st.rows|
  {
    var later := now + RowPause(c, copy, fate);
    if Delivers(c, copy, fate) then
      State(st.rows[k := Marked(st.rows[k], fate, later)], st.accepted + [EventOf(c, copy)], AfterSuccess(st.circuit),
            st.deliveries + 1, st.turns + [Delivered(copy.id)])
    else
      st.(rows := st.rows[k := ChargedFrom(st.rows[k], copy.attempts, fate, c.maxAttempts, later)],
          circuit := AfterFailure(st.circuit, c.limits, later), turns := st.turns + [FailedTurn(copy.id)])
  }

  /** The rows of the batch one after another, each begun when the one before is over; a list of fates that ends early
      is a crash between two rows. */
  function ProcessRows(st: State, c: Config, batch: seq<nat>, fates: seq<Fate>, now: int): State
    requires forall i :: 0 <= i < |batch| ==> batch[i] < |st.rows|
    decreases |batch|
  {
    if batch == [] || fates == [] then st
    else ProcessRows(ProcessRow(st, c, batch[0], fates[0], now), c, batch[1..], fates[1..],
                     now + RowPause(c, st.rows[batch[0]], fates[0]))
  }

  lemma ProcessRowsFrom(c: Config, st: State, mid: State, batch: seq<nat>, fates: seq<Fate>, now: int, later: int)
    requires batch != [] && fates != [] && forall i :: 0 <= i < |batch| ==> batch[i] < |st.rows|
    requires mid == ProcessRow(st, c, batch[0], fates[0], now)
    requires later == now + RowPause(c, st.rows[batch[0]], fates[0])
    ensures forall i :: 0 <= i < |batch[1..]| ==> batch[1..][i] < |mid.rows|
    ensures ProcessRows(st, c, batch, fates, now) == ProcessRows(mid, c, batch[1..], fates[1..], later)
  {
  }

  /** When the batch is over. */
  function FinishTime(st: State, c: Config, batch: seq<nat>, fates: seq<Fate>, now: int): int
    requires forall i :: 0 <= i < |batch| ==> batch[i] < |st.rows|
    decreases |batch|
  {
    if batch == [] || fates == [] then now
    else FinishTime(ProcessRow(st, c, batch[0], fates[0], now), c, batch[1..], fates[1..],
                    now + RowPause(c, st.rows[batch[0]], fates[0]))
  }

  /** How long the whole batch pauses, row by row. */
  function BatchPause(rows: seq<Row>, c: Config, batch: seq<nat>, fates: seq<Fate>): int
    requires forall i :: 0 <= i < |batch| ==> batch[i] < |rows|
    decreases |batch|
  {
    if batch == [] || fates == [] then 0
    else RowPause(c, rows[batch[0]], fates[0]) + BatchPause(rows, c, batch[1..], fates[1..])
  }

  /** From row `i` of the batch on, begun at `now`, the batch ends in `target` at `finish`. */
  ghost predicate Ends(st: State, c: Config, batch: seq<nat>, fates: seq<Fate>, i: nat, now: int, target: State,
                       finish: int)
  {
    && i <= |batch| && i <= |fates|
    && (forall j :: 0 <= j < |batch| ==> batch[j] < |st.rows|)
    && ProcessRows(st, c, batch[i..], fates[i..], now) == target
    && FinishTime(st, c, batch[i..], fates[i..], now) == finish
  }

  lemma EndsStep(st: State, st': State, c: Config, batch: seq<nat>, fates: seq<Fate>, i: nat, now: int, later: int,
                 target: State, finish: int)
    requires Ends(st, c, batch, fates, i, now, target, finish) && i < |batch| && i < |fates|
    requires st' == ProcessRow(st, c, batch[i], fates[i], now)
    requires later == now + RowPause(c, st.rows[batch[i]], fates[i])
    ensures Ends(st', c, batch, fates, i + 1, later, target, finish)
  {
    assert batch[i..][0] == batch[i] && batch[i..][1..] == batch[i + 1..];
    assert fates[i..][0] == fates[i] && fates[i..][1..] == fates[i + 1..];
  }

  /** Processing leaves every payload as it is. */
  ghost predicate SamePayloads(a: seq<Row>, b: seq<Row>) {
    |a| == |b| && forall k :: 0 <= k < |a| ==> a[k].payload == b[k].payload
  }

  lemma {:induction false} SamePayloadsSamePause(a: seq<Row>, b: seq<Row>, c: Config, batch: seq<nat>, fates: seq<Fate>)
    requires SamePayloads(a, b) && forall i :: 0 <= i < |batch| ==> batch[i] < |a|
    ensures BatchPause(a, c, batch, fates) == BatchPause(b, c, batch, fates)
    decreases |batch|
  {
    if batch != [] && fates != [] {
      SamePayloadsSamePause(a, b, c, batch[1..], fates[1..]);
    }
  }

  lemma {:induction false} FinishIsPause(st: State, c: Config, batch: seq<nat>, fates: seq<Fate>, now: int)
    requires forall i :: 0 <= i < |batch| ==> batch[i] < |st.rows|
    ensures FinishTime(st, c, batch, fates, now) == now + BatchPause(st.rows, c, batch, fates)
    decreases |batch|
  {
    if batch != [] && fates != [] {
      var st' := ProcessRow(st, c, batch[0], fates[0], now);
      FinishIsPause(st', c, batch[1..], fates[1..], now + RowPause(c, st.rows[batch[0]], fates[0]));
      SamePayloadsSamePause(st.rows, st'.rows, c, batch[1..], fates[1..]);
    }
  }

  lemma {:induction false} PendingFromBounds(rows: seq<Row>, i: nat)
    requires i <= |rows|
    ensures forall x :: 0 <= x < |PendingFrom(rows, i)| ==> i <= PendingFrom(rows, i)[x] < |rows|
    decreases |rows| - i
  {
    if i < |rows| {
      PendingFromBounds(rows, i + 1);
    }
  }

  function Batch(st: State, c: Config, fates: seq<Fate>, now: int): State {
    PendingFromBounds(st.rows, 0);
    ProcessRows(st, c, FirstPending(st.rows, c.batchSize), fates, now)
  }

  /** How long one call of the dispatcher pauses. */
  function PollPause(st: State, c: Config, fates: seq<Fate>): int {
    PendingFromBounds(st.rows, 0);
    BatchPause(st.rows, c, FirstPending(st.rows, c.batchSize), fates)
  }

  class Dispatcher {
    const lib: Library
    const ring: KeyRing
    const batchSize: nat
    const maxAttempts: nat
    const breaker: CircuitBreaker
    const lock: MemoryLock
    var rows: seq<Row>
    var accepted: seq<Event>
    var deliveries: nat
    ghost var turns: seq<Turn>

    ghost function Settings(): Config {
      Config(lib, ring, batchSize, maxAttempts, breaker.limits)
    }

    ghost function View(): State
      reads this, breaker
    {
      State(rows, accepted, breaker.View(), deliveries, turns)
    }

    constructor (lib: Library, ring: KeyRing, lock: MemoryLock, rows: seq<Row>)
      ensures View() == State(rows, [], FRESH, 0, []) && this.lib == lib && this.ring == ring && this.lock == lock
      ensures batchSize == 100 && maxAttempts == 25 && breaker.limits == Limits(5, 30 * SECOND)
      ensures fresh(breaker)
    {
      this.lib, this.ring, this.lock, this.rows := lib, ring, lock, rows;
      batchSize, maxAttempts := BATCH_SIZE, MAX_ATTEMPTS_DEFAULT;
      breaker := new CircuitBreaker(5, 30 * SECOND);
      accepted, deliveries, turns := [], 0, [];
    }

    /** `Insert` and the best-effort publish that follows it. */
    method Enqueue(subject: string, eventType: string, payload: string, nonce: string, insertOk: bool, busOk: bool,
                   now: int)
      returns (ok: bool)
      modifies this`rows, this`accepted
      ensures ok == insertOk
      ensures !ok ==> rows == old(rows) && accepted == old(accepted)
      ensures ok ==> rows == old(rows) + [NewRow(lib, ring, |old(rows)|, subject, eventType, payload, nonce, now)]
      ensures ok ==>
                var e := Event(|old(rows)|, subject, eventType, payload, now);
                accepted == old(accepted) + if busOk then [e] else []
    {
      if !insertOk {
        return false;
      }
      var row := NewRow(lib, ring, |rows|, subject, eventType, payload, nonce, now);
      rows := rows + [row];
      if busOk {
        accepted := accepted + [Event(row.id, subject, eventType, payload, now)];
      }
      return true;
    }

    method Deliver(row: Row, fate: Fate) returns (ok: bool, waited: int)
      modifies this`accepted
      ensures ok == Delivers(Settings(), row, fate) && waited == RowPause(Settings(), row, fate)
      ensures accepted == if ok then old(accepted) + [EventOf(Settings(), row)] else old(accepted)
    {
      var plain := R.ReadPayload(lib, ring, row.payload);
      if plain.Failure? {
        return false, 0;
      }
      var event := Event(row.id, row.subject, row.eventType, plain.value, row.createdAt);
      var end, attempts;
      end, attempts, waited := Do(fate.accepts, fate.cancelled, NoDraw, DELIVERY_RETRY);
      ok := end.Ok?;
      if ok {
        accepted := accepted + [event];
      }
    }

    method MarkPublished(k: nat, fate: Fate, now: int)
      requires k < |rows|
      modifies this`rows
      ensures rows == old(rows)[k := Marked(old(rows)[k], fate, now)]
    {
      if fate.markOk {
        rows := rows[k := rows[k].(publishedAt := Some(now))];
      }
    }

    method RecordFailure(k: nat, fate: Fate, now: int)
      requires k < |rows|
      modifies this`rows
      ensures rows == old(rows)[k := Charged(old(rows)[k], fate, maxAttempts, now)]
    {
      var attempts := rows[k].attempts + 1;
      if fate.countOk {
        rows := rows[k := rows[k].(attempts := attempts, lastError := "delivery failed")];
      }
      if attempts >= maxAttempts {
        DeadLetter(k, fate, now);
      }
    }

    method DeadLetter(k: nat, fate: Fate, now: int)
      requires k < |rows|
      modifies this`rows
      ensures var buried := old(rows)[k].(publishedAt := Some(now), lastError := "dead_lettered");
              rows == if fate.buryOk then old(rows)[k := buried] else old(rows)
    {
      if fate.buryOk {
        rows := rows[k := rows[k].(publishedAt := Some(now), lastError := "dead_lettered")];
      }
    }

    /** The loop body of the dispatcher: deliver one row and record the outcome. */
    method Process(k: nat, fate: Fate, now: int) returns (later: int)
      requires k < |rows|
      modifies this, breaker
      ensures View() == ProcessRow(old(View()), Settings(), k, fate, now)
      ensures later == now + RowPause(Settings(), old(rows[k]), fate)
    {
      var row := rows[k];
      var ok, waited := Deliver(row, fate);
      later := now + waited;
      if !ok {
        breaker.Failure(later);
        turns := turns + [FailedTurn(row.id)];
        RecordFailure(k, fate, later);
        return;
      }
      breaker.Success();
      turns := turns + [Delivered(row.id)];
      MarkPublished(k, fate, later);
      deliveries := deliveries + 1;
    }

    method DispatchBatch(fates: seq<Fate>, now: int) returns (later: int)
      modifies this, breaker
      ensures View() == Batch(old(View()), Settings(), fates, now)
      ensures later == now + PollPause(old(View()), Settings(), fates)
    {
      PendingFromBounds(rows, 0);
      var pending := FirstPending(rows, batchSize);
      ghost var target := Batch(View(), Settings(), fates, now);
      ghost var finish := FinishTime(View(), Settings(), pending, fates, now);
      FinishIsPause(View(), Settings(), pending, fates, now);
      assert pending[0..] == pending && fates[0..] == fates;
      later := now;
      for i := 0 to |pending|
        invariant Ends(View(), Settings(), pending, fates, i, later, target, finish)
      {
        if i == |fates| {
          return;
        }
        ghost var before, began := View(), later;
        later := Process(pending[i], fates[i], later);
        EndsStep(before, View(), Settings(), pending, fates, i, began, later, target, finish);
      }
    }

    /** One poll: under the lock, and only when the breaker lets it. `later` is when the lock is given back. */
    method DispatchOnce(fates: seq<Fate>, token: nat, now: int) returns (later: int)
      requires lock.Valid()
      modifies this, breaker, lock
      ensures lock.Valid()
      ensures !Free(old(lock.View()), LOCK_KEY, now) ==>
                View() == old(View()) && lock.View() == old(lock.View()) && later == now
      ensures Free(old(lock.View()), LOCK_KEY, now) ==>
                lock.View() == Released(Acquired(old(lock.View()), LOCK_KEY, LOCK_TTL, token, now), LOCK_KEY, token)
      ensures Free(old(lock.View()), LOCK_KEY, now) && !Allowed(old(View()).circuit, breaker.limits, now) ==>
                View() == old(View()) && later == now
      ensures Free(old(lock.View()), LOCK_KEY, now) && Allowed(old(View()).circuit, breaker.limits, now) ==>
                var asked := old(View()).(circuit := AfterAllow(old(View()).circuit, breaker.limits, now));
                View() == Batch(asked, Settings(), fates, now) && later == now + PollPause(asked, Settings(), fates)
    {
      later := now;
      var held := lock.TryAcquire(LOCK_KEY, LOCK_TTL, token, now);
      if held.None? {
        return;
      }
      var allowed := breaker.Allow(now);
      if allowed {
        later := DispatchBatch(fates, now);
      }
      lock.Release(LOCK_KEY, held.value);
    }
  }
}
