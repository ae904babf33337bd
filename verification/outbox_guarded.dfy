/** Polls behind the circuit breaker: the queue drains if they come far enough apart for the breaker to recover. */
module OutboxGuarded {
  import opened Wrappers
  import opened CryptoRing
  import opened Resilience
  import opened Outbox
  import opened OutboxBatches
  import R = Reencrypt

  /** One poll that has the lock: it is skipped while the circuit is open and cooling down. */
  function GuardedPoll(st: State, c: Config, poll: (seq<Fate>, int)): State {
    if Allowed(st.circuit, c.limits, poll.1)
    then Batch(st.(circuit := AfterAllow(st.circuit, c.limits, poll.1)), c, poll.0, poll.1)
    else st
  }

  function GuardedPolls(st: State, c: Config, polls: seq<(seq<Fate>, int)>): State {
    if polls == [] then st
    else GuardedPoll(GuardedPolls(st, c, polls[..|polls| - 1]), c, polls[|polls| - 1])
  }

  /** The polls that the breaker let through. */
  function Admitted(st: State, c: Config, polls: seq<(seq<Fate>, int)>): seq<(seq<Fate>, int)> {
    if polls == [] then []
    else
      var prefix, last := polls[..|polls| - 1], polls[|polls| - 1];
      Admitted(st, c, prefix) + if Allowed(GuardedPolls(st, c, prefix).circuit, c.limits, last.1) then [last] else []
  }

  // ----- The table does not see the breaker -----

  lemma {:induction false} SameRowsSameBatch(a: State, b: State, c: Config, batch: seq<nat>, fates: seq<Fate>, now: int)
    requires a.rows == b.rows && forall i :: 0 <= i < |batch| ==> batch[i] < |a.rows|
    ensures ProcessRows(a, c, batch, fates, now).rows == ProcessRows(b, c, batch, fates, now).rows
    decreases |batch|
  {
    if batch != [] && fates != [] {
      var later := now + RowPause(c, a.rows[batch[0]], fates[0]);
      var a1, b1 := ProcessRow(a, c, batch[0], fates[0], now), ProcessRow(b, c, batch[0], fates[0], now);
      ProcessRowsFrom(c, a, a1, batch, fates, now, later);
      ProcessRowsFrom(c, b, b1, batch, fates, now, later);
      SameRowsSameBatch(a1, b1, c, batch[1..], fates[1..], later);
    }
  }

  /** Behind the breaker the table goes through the batches that were let through, and no others. */
  lemma {:induction false} GuardedRows(st: State, c: Config, polls: seq<(seq<Fate>, int)>)
    ensures GuardedPolls(st, c, polls).rows == Polls(st, c, Admitted(st, c, polls)).rows
  {
    if polls != [] {
      var prefix, last := polls[..|polls| - 1], polls[|polls| - 1];
      GuardedRows(st, c, prefix);
      var a, b := GuardedPolls(st, c, prefix), Polls(st, c, Admitted(st, c, prefix));
      if Allowed(a.circuit, c.limits, last.1) {
        var asked := a.(circuit := AfterAllow(a.circuit, c.limits, last.1));
        PendingFromBounds(a.rows, 0);
        SameRowsSameBatch(asked, b, c, FirstPending(a.rows, c.batchSize), last.0, last.1);
        var admitted := Admitted(st, c, prefix);
        assert (admitted + [last])[..|admitted|] == admitted;
      } else {
        assert Admitted(st, c, polls) == Admitted(st, c, prefix);
      }
    }
  }

  // ----- Polls that come far enough apart are all let through -----

  /** If the circuit is open, it opened no later than `t`. */
  predicate OpenedBy(circuit: Circuit, t: int) {
    circuit.state == Open ==> circuit.openedAt <= t
  }

  lemma {:induction false} BatchOpensInTime(st: State, c: Config, batch: seq<nat>, fates: seq<Fate>, now: int)
    requires OpenedBy(st.circuit, now) && forall i :: 0 <= i < |batch| ==> batch[i] < |st.rows|
    ensures OpenedBy(ProcessRows(st, c, batch, fates, now).circuit, FinishTime(st, c, batch, fates, now))
    decreases |batch|
  {
    if batch != [] && fates != [] {
      RowPauseBounds(c, st.rows[batch[0]], fates[0]);
      var later := now + RowPause(c, st.rows[batch[0]], fates[0]);
      BatchOpensInTime(ProcessRow(st, c, batch[0], fates[0], now), c, batch[1..], fates[1..], later);
    }
  }

  /** When the pauses of the last poll are over. */
  function Over(st: State, c: Config, polls: seq<(seq<Fate>, int)>): int
    requires polls != []
  {
    var last := polls[|polls| - 1];
    last.1 + PollPause(GuardedPolls(st, c, polls[..|polls| - 1]), c, last.0)
  }

  /** Poll `i` begins at least the cooldown after the pauses of the one before it were over. */
  ghost predicate SpacedAt(st: State, c: Config, polls: seq<(seq<Fate>, int)>, i: nat) {
    && 0 < i < |polls|
    && polls[i].1 >= Over(st, c, polls[..i]) + c.limits.cooldown
  }

  ghost predicate Spaced(st: State, c: Config, polls: seq<(seq<Fate>, int)>) {
    && (polls != [] ==> OpenedBy(st.circuit, polls[0].1 - c.limits.cooldown))
    && forall i :: 0 < i < |polls| ==> SpacedAt(st, c, polls, i)
  }

  lemma SpacedPrefix(st: State, c: Config, polls: seq<(seq<Fate>, int)>, n: nat)
    requires Spaced(st, c, polls) && n <= |polls|
    ensures Spaced(st, c, polls[..n])
  {
    var first := polls[..n];
    forall i | 0 < i < n ensures SpacedAt(st, c, first, i) {
      assert SpacedAt(st, c, polls, i) && first[..i] == polls[..i];
    }
  }

  /** A poll that comes the cooldown after the circuit may have opened is let through, and opens it, if at all, before
      its pauses are over. */
  lemma PollInTime(st: State, c: Config, poll: (seq<Fate>, int))
    requires c.limits.cooldown >= 0 && OpenedBy(st.circuit, poll.1 - c.limits.cooldown)
    ensures Allowed(st.circuit, c.limits, poll.1)
    ensures OpenedBy(GuardedPoll(st, c, poll).circuit, poll.1 + PollPause(st, c, poll.0))
  {
    var asked := st.(circuit := AfterAllow(st.circuit, c.limits, poll.1));
    PendingFromBounds(st.rows, 0);
    var batch := FirstPending(st.rows, c.batchSize);
    BatchOpensInTime(asked, c, batch, poll.0, poll.1);
    FinishIsPause(asked, c, batch, poll.0, poll.1);
  }

  lemma SpacedInTime(st: State, c: Config, polls: seq<(seq<Fate>, int)>, n: nat)
    requires Spaced(st, c, polls) && n < |polls|
    requires n > 0 ==> OpenedBy(GuardedPolls(st, c, polls[..n]).circuit, Over(st, c, polls[..n]))
    ensures OpenedBy(GuardedPolls(st, c, polls[..n]).circuit, polls[n].1 - c.limits.cooldown)
  {
    if n > 0 {
      assert SpacedAt(st, c, polls, n);
    }
  }

  lemma {:induction false} SpacedAllAdmitted(st: State, c: Config, polls: seq<(seq<Fate>, int)>)
    requires Spaced(st, c, polls) && c.limits.cooldown >= 0
    ensures Admitted(st, c, polls) == polls
    ensures polls != [] ==> OpenedBy(GuardedPolls(st, c, polls).circuit, Over(st, c, polls))
  {
    if polls != [] {
      var n := |polls| - 1;
      var prefix, last := polls[..n], polls[n];
      SpacedPrefix(st, c, polls, n);
      SpacedAllAdmitted(st, c, prefix);
      SpacedInTime(st, c, polls, n);
      PollInTime(GuardedPolls(st, c, prefix), c, last);
      assert polls == prefix + [last];
    }
  }

  /** Main result: behind the breaker too, `maxAttempts * q` complete batches empty an outbox of at most `q` batch sizes
      of pending rows, whatever the bus does and however often the circuit opens, if the polls come at least the
      cooldown plus the pauses of a batch apart. */
  lemma GuardedDrains(st: State, c: Config, polls: seq<(seq<Fate>, int)>, q: nat)
    requires c.batchSize >= 1 && c.maxAttempts >= 1 && c.limits.cooldown >= 0
    requires PendingCount(st.rows) <= Times(q, c.batchSize) && |polls| == Times(q, c.maxAttempts)
    requires AllComplete(c, polls) && Spaced(st, c, polls)
    ensures PendingCount(GuardedPolls(st, c, polls).rows) == 0
  {
    SpacedAllAdmitted(st, c, polls);
    GuardedRows(st, c, polls);
    OutboxDrains(st, c, polls, q);
  }

  /** And in any timing, as soon as so many of the polls have been let through. */
  lemma AdmittedDrain(st: State, c: Config, polls: seq<(seq<Fate>, int)>, q: nat)
    requires c.batchSize >= 1 && c.maxAttempts >= 1
    requires PendingCount(st.rows) <= Times(q, c.batchSize) && |Admitted(st, c, polls)| == Times(q, c.maxAttempts)
    requires AllComplete(c, Admitted(st, c, polls))
    ensures PendingCount(GuardedPolls(st, c, polls).rows) == 0
  {
    GuardedRows(st, c, polls);
    OutboxDrains(st, c, Admitted(st, c, polls), q);
  }
}
