/** One batch and many: what a batch reports, how the queue drains, and how long a batch keeps the lock. */
module OutboxBatches {
  import opened Wrappers
  import opened Clock
  import opened CryptoRing
  import opened Resilience
  import opened TokenLock
  import opened Outbox
  import R = Reencrypt

  // ----- What a batch reports -----

  function Report(turn: Turn, now: int): Call {
    if turn.Delivered? then Succeeded(now) else Failed(now)
  }

  /** The reports a batch makes to the circuit breaker, each when its row's retries are over. */
  function Reports(turns: seq<Turn>, times: seq<int>): seq<Call>
    requires |times| == |turns|
  {
    seq(|turns|, i requires 0 <= i < |turns| => Report(turns[i], times[i]))
  }

  function Deliveries(turns: seq<Turn>): nat {
    if turns == [] then 0
    else Deliveries(turns[..|turns| - 1]) + if turns[|turns| - 1].Delivered? then 1 else 0
  }

  lemma {:induction false} ReplayThen(circuit: Circuit, l: Limits, first: Call, rest: seq<Call>)
    ensures Resilience.Replay(circuit, l, [first] + rest)
         == Resilience.Replay(Resilience.After(circuit, l, first), l, rest)
  {
    if rest == [] {
      assert ([first] + rest)[..0] == [];
    } else {
      var n := |rest| - 1;
      assert ([first] + rest)[..n + 1] == [first] + rest[..n];
      ReplayThen(circuit, l, first, rest[..n]);
    }
  }

  lemma {:induction false} DeliveriesThen(first: Turn, rest: seq<Turn>)
    ensures Deliveries([first] + rest) == (if first.Delivered? then 1 else 0) + Deliveries(rest)
  {
    if rest == [] {
      assert ([first] + rest)[..0] == [];
    } else {
      var n := |rest| - 1;
      assert ([first] + rest)[..n + 1] == [first] + rest[..n];
      DeliveriesThen(first, rest[..n]);
    }
  }

  /** Times from `now` on that do not run backwards. */
  ghost predicate Clocked(times: seq<int>, now: int) {
    && (forall i :: 0 <= i < |times| ==> now <= times[i])
    && (forall i, j :: 0 <= i < j < |times| ==> times[i] <= times[j])
  }

  lemma ClockedThen(at: int, times: seq<int>, now: int)
    requires now <= at && Clocked(times, at)
    ensures Clocked([at] + times, now)
  {
  }

  /** The turns are those of the first rows of the batch, in order. */
  ghost predicate Named(rows: seq<Row>, batch: seq<nat>, added: seq<Turn>) {
    |added| <= |batch| && forall i :: 0 <= i < |added| ==> batch[i] < |rows| && added[i].id == rows[batch[i]].id
  }

  lemma NamedThen(rows: seq<Row>, mid: seq<Row>, batch: seq<nat>, first: Turn, rest: seq<Turn>)
    requires batch != [] && batch[0] < |rows| && first.id == rows[batch[0]].id && |mid| == |rows|
    requires forall k :: 0 <= k < |rows| ==> mid[k].id == rows[k].id
    requires Named(mid, batch[1..], rest)
    ensures Named(rows, batch, [first] + rest)
  {
    var added := [first] + rest;
    forall i | 0 <= i < |added| ensures batch[i] < |rows| && added[i].id == rows[batch[i]].id {
      if i > 0 {
        assert batch[i] == batch[1..][i - 1] && added[i] == rest[i - 1];
      }
    }
  }

  /** The breaker has seen exactly these outcomes, and as many events were accepted and counted as rows were
      delivered. */
  ghost predicate Counted(st: State, st': State, l: Limits, added: seq<Turn>, times: seq<int>) {
    && st'.turns == st.turns + added && |times| == |added|
    && st'.circuit == Resilience.Replay(st.circuit, l, Reports(added, times))
    && st'.deliveries == st.deliveries + Deliveries(added)
    && |st'.accepted| == |st.accepted| + Deliveries(added)
  }

  lemma CountedThen(st: State, mid: State, st': State, l: Limits, first: Turn, rest: seq<Turn>, at: int,
                    times: seq<int>)
    requires mid.turns == st.turns + [first] && mid.circuit == Resilience.After(st.circuit, l, Report(first, at))
    requires mid.deliveries == st.deliveries + if first.Delivered? then 1 else 0
    requires |mid.accepted| == |st.accepted| + if first.Delivered? then 1 else 0
    requires Counted(mid, st', l, rest, times)
    ensures Counted(st, st', l, [first] + rest, [at] + times)
  {
    assert Reports([first] + rest, [at] + times) == [Report(first, at)] + Reports(rest, times);
    ReplayThen(st.circuit, l, Report(first, at), Reports(rest, times));
    DeliveriesThen(first, rest);
    assert st.turns + [first] + rest == st.turns + ([first] + rest);
  }

  lemma TurnCounts(st: State, c: Config, k: nat, fate: Fate, now: int)
    requires k < |st.rows|
    ensures var mid := ProcessRow(st, c, k, fate, now);
            var turn := TurnOf(c, st.rows[k], fate);
            && mid.turns == st.turns + [turn] && |mid.rows| == |st.rows|
            && mid.circuit == Resilience.After(st.circuit, c.limits, Report(turn, now + RowPause(c, st.rows[k], fate)))
            && mid.deliveries == st.deliveries + (if turn.Delivered? then 1 else 0)
            && |mid.accepted| == |st.accepted| + (if turn.Delivered? then 1 else 0)
            && (forall i :: 0 <= i < |st.rows| ==> mid.rows[i].id == st.rows[i].id)
            && RowPause(c, st.rows[k], fate) >= 0
  {
    RowPauseBounds(c, st.rows[k], fate);
  }

  function TurnOf(c: Config, row: Row, fate: Fate): Turn {
    if Delivers(c, row, fate) then Delivered(row.id) else FailedTurn(row.id)
  }

  /** What one batch adds: one turn per row reached, in the batch's order, at times that do not run backwards, all
      counted. */
  ghost predicate Reported(st: State, st': State, l: Limits, batch: seq<nat>, added: seq<Turn>, times: seq<int>,
                           now: int)
  {
    Named(st.rows, batch, added) && Clocked(times, now) && Counted(st, st', l, added, times)
  }

  lemma ReportedThen(st: State, c: Config, batch: seq<nat>, fate: Fate, now: int, at: int, st': State,
                     rest: seq<Turn>, times: seq<int>)
    requires batch != [] && batch[0] < |st.rows| && at == now + RowPause(c, st.rows[batch[0]], fate)
    requires Reported(ProcessRow(st, c, batch[0], fate, now), st', c.limits, batch[1..], rest, times, at)
    ensures Reported(st, st', c.limits, batch, [TurnOf(c, st.rows[batch[0]], fate)] + rest, [at] + times, now)
  {
    var mid, first := ProcessRow(st, c, batch[0], fate, now), TurnOf(c, st.rows[batch[0]], fate);
    TurnCounts(st, c, batch[0], fate, now);
    NamedThen(st.rows, mid.rows, batch, first, rest);
    ClockedThen(at, times, now);
    CountedThen(st, mid, st', c.limits, first, rest, at, times);
  }

  /** Main result: a batch reports every turn to the breaker, one per row reached, in the batch's order and at times
      that do not run backwards, and the counter of deliveries is the number of events the bus took from it. */
  lemma {:induction false} BatchReports(st: State, c: Config, batch: seq<nat>, fates: seq<Fate>, now: int)
    returns (turns: seq<Turn>, times: seq<int>)
    requires forall i :: 0 <= i < |batch| ==> batch[i] < |st.rows|
    ensures Reported(st, ProcessRows(st, c, batch, fates, now), c.limits, batch, turns, times, now)
    ensures |turns| == if |fates| < |batch| then |fates| else |batch|
    decreases |batch|
  {
    if batch == [] || fates == [] {
      turns, times := [], [];
      assert st.turns + [] == st.turns;
    } else {
      var at := now + RowPause(c, st.rows[batch[0]], fates[0]);
      var mid := ProcessRow(st, c, batch[0], fates[0], now);
      var rest, later := BatchReports(mid, c, batch[1..], fates[1..], at);
      ReportedThen(st, c, batch, fates[0], now, at, ProcessRows(mid, c, batch[1..], fates[1..], at), rest, later);
      turns, times := [TurnOf(c, st.rows[batch[0]], fates[0])] + rest, [at] + later;
    }
  }

  // ----- Progress: the queue drains -----

  /** How many of the first `k` rows are pending. */
  function PendingBefore(rows: seq<Row>, k: nat): nat
    requires k <= |rows|
  {
    if k == 0 then 0 else PendingBefore(rows, k - 1) + if Pending(rows[k - 1]) then 1 else 0
  }

  function PendingCount(rows: seq<Row>): nat {
    PendingBefore(rows, |rows|)
  }

  lemma {:induction false} PendingFromAt(rows: seq<Row>, i: nat, k: nat)
    requires i <= k < |rows| && Pending(rows[k])
    ensures PendingBefore(rows, i) <= PendingBefore(rows, k)
    ensures PendingBefore(rows, k) - PendingBefore(rows, i) < |PendingFrom(rows, i)|
    ensures PendingFrom(rows, i)[PendingBefore(rows, k) - PendingBefore(rows, i)] == k
    decreases |rows| - i
  {
    if i < k {
      PendingFromAt(rows, i + 1, k);
    }
  }

  lemma {:induction false} PendingFromSound(rows: seq<Row>, i: nat, x: nat)
    requires i <= |rows| && x < |PendingFrom(rows, i)|
    ensures var k := PendingFrom(rows, i)[x];
            i <= k < |rows| && Pending(rows[k]) && PendingBefore(rows, k) - PendingBefore(rows, i) == x
    decreases |rows| - i
  {
    PendingFromBounds(rows, i);
    if i < |rows| {
      var head := if Pending(rows[i]) then 1 else 0;
      if x >= head {
        PendingFromSound(rows, i + 1, x - head);
      }
    }
  }

  /** Position x of the listing is the pending row with x pending rows before it. */
  lemma PendingFromRank(rows: seq<Row>, x: nat)
    requires x < |PendingFrom(rows, 0)|
    ensures var k := PendingFrom(rows, 0)[x];
            k < |rows| && Pending(rows[k]) && PendingBefore(rows, k) == x
  {
    PendingFromSound(rows, 0, x);
  }

  lemma PendingFromRises(rows: seq<Row>, x: nat, y: nat)
    requires x < y < |PendingFrom(rows, 0)|
    ensures PendingFrom(rows, 0)[x] < PendingFrom(rows, 0)[y]
  {
    var a, b := PendingFrom(rows, 0)[x], PendingFrom(rows, 0)[y];
    PendingFromRank(rows, x);
    PendingFromRank(rows, y);
    if b <= a {
      CountCoversPrefix(rows, b, a);
    }
  }

  /** A row is in the batch exactly if it is pending with fewer than `n` pending rows before it. */
  lemma InBatchExactly(rows: seq<Row>, n: nat, k: nat)
    ensures k in FirstPending(rows, n) <==> k < |rows| && Pending(rows[k]) && PendingBefore(rows, k) < n
  {
    var all, batch := PendingFrom(rows, 0), FirstPending(rows, n);
    if x :| 0 <= x < |batch| && batch[x] == k {
      assert all[x] == k;
      PendingFromRank(rows, x);
    }
    if k < |rows| && Pending(rows[k]) && PendingBefore(rows, k) < n {
      PendingFromAt(rows, 0, k);
      assert batch[PendingBefore(rows, k)] == k;
    }
  }

  /** A batch is exactly the pending rows with fewer than `n` pending rows before them, in order and without repeats. */
  lemma FirstPendingExactly(rows: seq<Row>, n: nat)
    ensures var batch := FirstPending(rows, n);
            && |batch| <= n
            && (forall x, y :: 0 <= x < y < |batch| ==> batch[x] < batch[y])
            && (forall k: nat :: k in batch <==> k < |rows| && Pending(rows[k]) && PendingBefore(rows, k) < n)
  {
    var batch := FirstPending(rows, n);
    forall x, y | 0 <= x < y < |batch| ensures batch[x] < batch[y] {
      PendingFromRises(rows, x, y);
    }
    forall k: nat ensures k in batch <==> k < |rows| && Pending(rows[k]) && PendingBefore(rows, k) < n {
      InBatchExactly(rows, n, k);
    }
  }

  /** One turn's effect on its row when every write succeeds: gone, or one attempt nearer the cap. */
  predicate Advanced(before: Row, after: Row, maxAttempts: nat) {
    !Pending(after) || (Pending(before) && after.attempts == before.attempts + 1 && after.attempts < maxAttempts)
  }

  predicate AllWritesLand(fates: seq<Fate>) {
    forall i :: 0 <= i < |fates| ==> fates[i].markOk && fates[i].countOk && fates[i].buryOk
  }

  /** What a batch does to the table: its rows leave or age, the others stay. */
  ghost predicate Effect(before: seq<Row>, after: seq<Row>, batch: seq<nat>, maxAttempts: nat) {
    |after| == |before|
    && forall k: nat :: k < |after| ==>
         if k in batch then Advanced(before[k], after[k], maxAttempts) else after[k] == before[k]
  }

  lemma EffectThen(before: seq<Row>, mid: seq<Row>, after: seq<Row>, batch: seq<nat>, maxAttempts: nat)
    requires batch != [] && batch[0] < |before| == |mid| && batch[0] !in batch[1..]
    requires mid == before[batch[0] := mid[batch[0]]] && Advanced(before[batch[0]], mid[batch[0]], maxAttempts)
    requires Effect(mid, after, batch[1..], maxAttempts)
    ensures Effect(before, after, batch, maxAttempts)
  {
    assert forall k :: k in batch <==> k == batch[0] || k in batch[1..];
  }

  /** What a row's turn leaves of it when its writes land: delivered, it leaves the queue at the end of its retries;
      failed below the cap, it stays with one attempt more; failed at the cap, it is dead-lettered then. No turn pauses
      longer than 700 ms. */
  lemma TurnLeaves(st: State, c: Config, k: nat, fate: Fate, now: int) returns (end: int)
    requires k < |st.rows| && fate.markOk && fate.countOk && fate.buryOk
    ensures now <= end <= now + 700 * MILLISECOND
    ensures var row := st.rows[k];
            ProcessRow(st, c, k, fate, now).rows == st.rows[k :=
              if Delivers(c, row, fate) then row.(publishedAt := Some(end))
              else if row.attempts + 1 < c.maxAttempts
              then row.(attempts := row.attempts + 1, lastError := "delivery failed")
              else row.(attempts := row.attempts + 1, lastError := "dead_lettered", publishedAt := Some(end))]
  {
    end := now + RowPause(c, st.rows[k], fate);
    RowPauseBounds(c, st.rows[k], fate);
  }

  lemma {:induction false} ProcessRowsEffect(st: State, c: Config, batch: seq<nat>, fates: seq<Fate>, now: int)
    requires forall x :: 0 <= x < |batch| ==> batch[x] < |st.rows| && Pending(st.rows[batch[x]])
    requires forall x, y :: 0 <= x < y < |batch| ==> batch[x] != batch[y]
    requires |fates| >= |batch| && AllWritesLand(fates)
    ensures Effect(st.rows, ProcessRows(st, c, batch, fates, now).rows, batch, c.maxAttempts)
    decreases |batch|
  {
    if batch != [] {
      var mid := ProcessRow(st, c, batch[0], fates[0], now);
      var later := now + RowPause(c, st.rows[batch[0]], fates[0]);
      assert forall x :: 0 <= x < |batch[1..]| ==> batch[1..][x] == batch[x + 1];
      ProcessRowsEffect(mid, c, batch[1..], fates[1..], later);
      assert mid.rows == st.rows[batch[0] := mid.rows[batch[0]]];
      assert Advanced(st.rows[batch[0]], mid.rows[batch[0]], c.maxAttempts);
      EffectThen(st.rows, mid.rows, ProcessRows(mid, c, batch[1..], fates[1..], later).rows, batch, c.maxAttempts);
    }
  }

  /** One batch, seen from outside. */
  ghost predicate Round(before: seq<Row>, after: seq<Row>, batchSize: nat, maxAttempts: nat) {
    && |after| == |before|
    && (forall k :: 0 <= k < |after| && Pending(after[k]) ==> Pending(before[k]))
    && (forall k :: 0 <= k < |after| && Pending(after[k]) && PendingBefore(before, k) < batchSize ==>
          Advanced(before[k], after[k], maxAttempts))
    && (forall k :: 0 <= k < |after| && Pending(after[k]) ==> after[k].attempts >= before[k].attempts)
  }

  /** A batch whose every row got its turn and whose writes all landed; the bus may have done anything. */
  predicate Complete(c: Config, poll: (seq<Fate>, int)) {
    |poll.0| >= c.batchSize && AllWritesLand(poll.0)
  }

  ghost predicate AllComplete(c: Config, polls: seq<(seq<Fate>, int)>) {
    forall i :: 0 <= i < |polls| ==> Complete(c, polls[i])
  }

  lemma CompleteParts(c: Config, first: seq<(seq<Fate>, int)>, rest: seq<(seq<Fate>, int)>)
    requires AllComplete(c, first + rest)
    ensures AllComplete(c, first) && AllComplete(c, rest)
  {
    assert forall i :: 0 <= i < |first| ==> first[i] == (first + rest)[i];
    assert forall i :: 0 <= i < |rest| ==> rest[i] == (first + rest)[|first| + i];
  }

  lemma BatchIsRound(st: State, c: Config, fates: seq<Fate>, now: int)
    requires Complete(c, (fates, now))
    ensures Round(st.rows, Batch(st, c, fates, now).rows, c.batchSize, c.maxAttempts)
  {
    var batch := FirstPending(st.rows, c.batchSize);
    FirstPendingExactly(st.rows, c.batchSize);
    assert forall x :: 0 <= x < |batch| ==> batch[x] in batch;
    ProcessRowsEffect(st, c, batch, fates, now);
  }

  function Polls(st: State, c: Config, polls: seq<(seq<Fate>, int)>): State {
    if polls == [] then st
    else
      var last := polls[|polls| - 1];
      Batch(Polls(st, c, polls[..|polls| - 1]), c, last.0, last.1)
  }

  lemma {:induction false} FewerPendingBefore(before: seq<Row>, after: seq<Row>, k: nat)
    requires k <= |before| == |after| && forall j :: 0 <= j < k && Pending(after[j]) ==> Pending(before[j])
    ensures PendingBefore(after, k) <= PendingBefore(before, k)
  {
    if k > 0 {
      FewerPendingBefore(before, after, k - 1);
    }
  }

  /** After `j` complete batches, a row that stood among the first `batchSize` has used up `j` attempts or is gone. */
  lemma {:induction false} FrontAges(st: State, c: Config, polls: seq<(seq<Fate>, int)>)
    requires AllComplete(c, polls)
    ensures var after := Polls(st, c, polls).rows;
            && |after| == |st.rows|
            && (forall k :: 0 <= k < |after| && Pending(after[k]) ==> Pending(st.rows[k]))
            && (forall k :: 0 <= k < |after| && Pending(after[k]) && PendingBefore(st.rows, k) < c.batchSize ==>
                  after[k].attempts >= |polls| && (|polls| > 0 ==> after[k].attempts < c.maxAttempts))
  {
    if polls != [] {
      var prefix, last := polls[..|polls| - 1], polls[|polls| - 1];
      FrontAges(st, c, prefix);
      var mid := Polls(st, c, prefix);
      var after := Polls(st, c, polls).rows;
      BatchIsRound(mid, c, last.0, last.1);
      forall k | 0 <= k < |after| && Pending(after[k]) && PendingBefore(st.rows, k) < c.batchSize
        ensures after[k].attempts >= |polls| && after[k].attempts < c.maxAttempts
      {
        FewerPendingBefore(st.rows, mid.rows, k);
      }
    }
  }

  /** When the first `n` pending rows are gone and nothing new is pending, `n` fewer are left. */
  lemma {:induction false} FrontGone(before: seq<Row>, after: seq<Row>, n: nat, k: nat)
    requires k <= |before| == |after|
    requires forall j :: 0 <= j < k && Pending(after[j]) ==> Pending(before[j]) && PendingBefore(before, j) >= n
    ensures PendingBefore(after, k) <= if PendingBefore(before, k) <= n then 0 else PendingBefore(before, k) - n
  {
    if k > 0 {
      FrontGone(before, after, n, k - 1);
    }
  }

  lemma {:induction false} PollsSplit(st: State, c: Config, a: seq<(seq<Fate>, int)>, b: seq<(seq<Fate>, int)>)
    ensures Polls(st, c, a + b) == Polls(Polls(st, c, a), c, b)
    decreases |b|
  {
    if b == [] {
      assert a + b == a;
    } else {
      assert (a + b)[..|a + b| - 1] == a + b[..|b| - 1];
      PollsSplit(st, c, a, b[..|b| - 1]);
    }
  }

  /** `maxAttempts` complete batches take a whole batch size off the queue. */
  lemma FrontDrains(st: State, c: Config, polls: seq<(seq<Fate>, int)>)
    requires c.maxAttempts >= 1 && |polls| == c.maxAttempts
    requires AllComplete(c, polls)
    ensures PendingCount(Polls(st, c, polls).rows)
         <= if PendingCount(st.rows) <= c.batchSize then 0 else PendingCount(st.rows) - c.batchSize
  {
    FrontAges(st, c, polls);
    FrontGone(st.rows, Polls(st, c, polls).rows, c.batchSize, |st.rows|);
  }

  /** `q * n`, as a sum. */
  function Times(q: nat, n: nat): nat {
    if q == 0 then 0 else Times(q - 1, n) + n
  }

  lemma {:induction false} TimesIsProduct(q: nat, n: nat)
    ensures Times(q, n) == q * n
  {
    if q > 0 {
      TimesIsProduct(q - 1, n);
    }
  }

  /** Main result: `maxAttempts * q` complete batches empty any outbox with at most `q * batchSize` pending rows,
      whatever the bus does, so a poisoned row never blocks the rows behind it. */
  lemma {:induction false} OutboxDrains(st: State, c: Config, polls: seq<(seq<Fate>, int)>, q: nat)
    requires c.batchSize >= 1 && c.maxAttempts >= 1
    requires PendingCount(st.rows) <= Times(q, c.batchSize) && |polls| == Times(q, c.maxAttempts)
    requires AllComplete(c, polls)
    ensures PendingCount(Polls(st, c, polls).rows) == 0
    decreases q
  {
    if q > 0 {
      var first, rest := polls[..c.maxAttempts], polls[c.maxAttempts..];
      assert polls == first + rest;
      CompleteParts(c, first, rest);
      PollsSplit(st, c, first, rest);
      FrontDrains(st, c, first);
      OutboxDrains(Polls(st, c, first), c, rest, q - 1);
    }
  }

  /** The same with the bound written out: `maxAttempts * ceil(n / batchSize)` batches for `n` pending rows. */
  lemma DrainsWithinBound(st: State, c: Config, polls: seq<(seq<Fate>, int)>)
    requires c.batchSize >= 1 && c.maxAttempts >= 1
    requires |polls| == (PendingCount(st.rows) + c.batchSize - 1) / c.batchSize * c.maxAttempts
    requires AllComplete(c, polls)
    ensures forall k :: 0 <= k < |Polls(st, c, polls).rows| ==> !Pending(Polls(st, c, polls).rows[k])
  {
    var n, b := PendingCount(st.rows), c.batchSize;
    var q := (n + b - 1) / b;
    assert n <= q * b;
    TimesIsProduct(q, b);
    TimesIsProduct(q, c.maxAttempts);
    OutboxDrains(st, c, polls, q);
    var after := Polls(st, c, polls).rows;
    forall k | 0 <= k < |after| ensures !Pending(after[k]) {
      if Pending(after[k]) {
        PendingFromAt(after, 0, k);
        CountCoversPrefix(after, k + 1, |after|);
      }
    }
  }

  lemma {:induction false} CountCoversPrefix(rows: seq<Row>, i: nat, k: nat)
    requires i <= k <= |rows|
    ensures PendingBefore(rows, i) <= PendingBefore(rows, k)
  {
    if i < k {
      CountCoversPrefix(rows, i, k - 1);
    }
  }

  // ----- The lock's lifetime -----

  /** One row's retries pause at most 700 ms, and exactly that long if the payload can be read and every attempt
      fails. */
  lemma RowPauseBounds(c: Config, row: Row, fate: Fate)
    ensures 0 <= RowPause(c, row, fate) <= 700 * MILLISECOND
    ensures R.ReadPayload(c.lib, c.ring, row.payload).Success?
            && (forall i: nat :: !fate.accepts(i) && !fate.cancelled(i)) ==>
              RowPause(c, row, fate) == 700 * MILLISECOND
  {
    var o := DELIVERY_RETRY;
    assert WaitAfter(o, 0) == 100 * MILLISECOND;
    assert WaitAfter(o, 1) == 200 * MILLISECOND;
    assert WaitAfter(o, 2) == 400 * MILLISECOND;
    assert TotalPause(o, 1, NoDraw) == 100 * MILLISECOND;
    assert TotalPause(o, 2, NoDraw) == 300 * MILLISECOND;
    assert TotalPause(o, 3, NoDraw) == 700 * MILLISECOND;
    var n := AttemptsMade(fate.accepts, fate.cancelled, 0, o.maxAttempts);
    assert n == 1 || n == 2 || n == 3 || n == 4;
  }

  /** A bus that refuses everything. */
  const REFUSED := Fate((i: nat) => false, (i: nat) => false, true, true, true)

  /** How many rows of a batch can be decrypted, so that their delivery is attempted at all. */
  function Readable(rows: seq<Row>, c: Config, batch: seq<nat>): nat
    requires forall i :: 0 <= i < |batch| ==> batch[i] < |rows|
    decreases |batch|
  {
    if batch == [] then 0
    else
      var first := if R.ReadPayload(c.lib, c.ring, rows[batch[0]].payload).Success? then 1 else 0;
      first + Readable(rows, c, batch[1..])
  }

  /** Of the batch that a poll takes in this state. */
  function ReadableNext(st: State, c: Config): nat {
    PendingFromBounds(st.rows, 0);
    Readable(st.rows, c, FirstPending(st.rows, c.batchSize))
  }

  ghost predicate AllRefused(fates: seq<Fate>, n: nat) {
    |fates| == n && forall i :: 0 <= i < n ==> fates[i] == REFUSED
  }

  /** The pauses of a batch are at most 700 ms for every readable row, */
  lemma {:induction false} BatchPauseBounds(rows: seq<Row>, c: Config, batch: seq<nat>, fates: seq<Fate>)
    requires forall i :: 0 <= i < |batch| ==> batch[i] < |rows|
    ensures 0 <= BatchPause(rows, c, batch, fates) <= Readable(rows, c, batch) * (700 * MILLISECOND)
    decreases |batch|
  {
    if batch != [] && fates != [] {
      RowPauseBounds(c, rows[batch[0]], fates[0]);
      BatchPauseBounds(rows, c, batch[1..], fates[1..]);
    }
  }

  /** and exactly that if the bus refuses everything. */
  lemma {:induction false} RefusedBatchPause(rows: seq<Row>, c: Config, batch: seq<nat>, fates: seq<Fate>)
    requires AllRefused(fates, |batch|) && forall i :: 0 <= i < |batch| ==> batch[i] < |rows|
    ensures BatchPause(rows, c, batch, fates) == Readable(rows, c, batch) * (700 * MILLISECOND)
    decreases |batch|
  {
    if batch != [] {
      RowPauseBounds(c, rows[batch[0]], fates[0]);
      RefusedBatchPause(rows, c, batch[1..], fates[1..]);
    }
  }

  /** Main result: in every state of the dispatcher, its next poll pauses no longer than its lock lives, whatever the
      bus does, if and only if at most 42 of the rows it takes can be decrypted. It takes up to 100. */
  lemma BatchFitsLockExactly(st: State, c: Config)
    ensures (forall fates :: PollPause(st, c, fates) <= 30 * SECOND) <==> ReadableNext(st, c) <= 42
  {
    PendingFromBounds(st.rows, 0);
    var batch := FirstPending(st.rows, c.batchSize);
    forall fates | ReadableNext(st, c) <= 42 ensures PollPause(st, c, fates) <= LOCK_TTL {
      BatchPauseBounds(st.rows, c, batch, fates);
    }
    var refused := seq(|batch|, (i: nat) => REFUSED);
    RefusedBatchPause(st.rows, c, batch, refused);
    assert PollPause(st, c, refused) == ReadableNext(st, c) * (700 * MILLISECOND);
  }

  /** `n` events as `Enqueue` stores them one after another. */
  function Queued(c: Config, n: nat, nonces: nat -> string): seq<Row> {
    seq(n, (k: nat) => NewRow(c.lib, c.ring, k, "compliance.updated", "compliance.updated", "{}", nonces(k), k))
  }

  lemma QueuedRow(c: Config, n: nat, nonces: nat -> string, k: nat)
    requires R.GoodRing(c.lib, c.ring) && k < n
    ensures var row := Queued(c, n, nonces)[k];
            row.id == k && Pending(row) && R.ReadPayload(c.lib, c.ring, row.payload).Success?
  {
    R.CurrentKeyReads(c.lib, c.ring, "{}", nonces(k));
  }

  lemma {:induction false} AllPendingListed(rows: seq<Row>, i: nat)
    requires i <= |rows| && forall k :: 0 <= k < |rows| ==> Pending(rows[k])
    ensures |PendingFrom(rows, i)| == |rows| - i
    ensures forall x :: 0 <= x < |rows| - i ==> PendingFrom(rows, i)[x] == i + x
    decreases |rows| - i
  {
    if i < |rows| {
      AllPendingListed(rows, i + 1);
      var rest := PendingFrom(rows, i + 1);
      assert PendingFrom(rows, i) == [i] + rest;
      forall x | 0 <= x < |rows| - i ensures PendingFrom(rows, i)[x] == i + x {
        assert x > 0 ==> rest[x - 1] == i + 1 + (x - 1);
      }
    }
  }

  lemma {:induction false} AllReadable(rows: seq<Row>, c: Config, batch: seq<nat>)
    requires forall i :: 0 <= i < |batch| ==>
               batch[i] < |rows| && R.ReadPayload(c.lib, c.ring, rows[batch[i]].payload).Success?
    ensures Readable(rows, c, batch) == |batch|
    decreases |batch|
  {
    if batch != [] {
      AllReadable(rows, c, batch[1..]);
    }
  }

  /** The failing input: once 43 events are queued, one poll of a new dispatcher takes all of them, and if the bus
      refuses it pauses 30.1 s while its lock lives 30 s. */
  lemma RefusedBatch(c: Config, nonces: nat -> string)
    requires R.GoodRing(c.lib, c.ring) && c.batchSize == BATCH_SIZE
    ensures var st := State(Queued(c, 43, nonces), [], FRESH, 0, []);
            && FirstPending(st.rows, c.batchSize) == seq(43, (k: nat) => k) && ReadableNext(st, c) == 43
            && PollPause(st, c, seq(43, (k: nat) => REFUSED)) == 30100 * MILLISECOND > LOCK_TTL
  {
    var rows := Queued(c, 43, nonces);
    var refused := seq(43, (k: nat) => REFUSED);
    forall k | 0 <= k < 43
      ensures Pending(rows[k]) && R.ReadPayload(c.lib, c.ring, rows[k].payload).Success?
    {
      QueuedRow(c, 43, nonces, k);
    }
    AllPendingListed(rows, 0);
    var batch := FirstPending(rows, c.batchSize);
    assert batch == seq(43, (k: nat) => k);
    AllReadable(rows, c, batch);
    RefusedBatchPause(rows, c, batch, refused);
  }

  /** While a poll that took the lock at `now` is still running, a second dispatcher can take the lock at some moment
      exactly if the batch pauses longer than the lock lives. */
  lemma SecondDispatcherEntersExactly(holds: Holds, token: nat, st: State, c: Config, fates: seq<Fate>, now: int)
    requires Free(holds, LOCK_KEY, now)
    ensures (exists t :: now <= t < now + PollPause(st, c, fates)
                         && Free(Acquired(holds, LOCK_KEY, LOCK_TTL, token, now), LOCK_KEY, t))
            <==> PollPause(st, c, fates) > LOCK_TTL
  {
    if PollPause(st, c, fates) > LOCK_TTL {
      assert Free(Acquired(holds, LOCK_KEY, LOCK_TTL, token, now), LOCK_KEY, now + LOCK_TTL);
    }
  }
}
