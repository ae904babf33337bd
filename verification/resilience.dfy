/** Retries and the circuit breaker (backend/internal/resilience/resilience.go). */
module Resilience {
  import opened Wrappers
  import opened Clock

  // ----- Retry -----

  /** Settings of `Do`; non-positive ones fall back to defaults. `jitter` is a percentage of the pause. */
  datatype RetryOpts = RetryOpts(maxAttempts: int, initialWait: int, maxWait: int, jitter: int)

  function Normalize(opts: RetryOpts): RetryOpts {
    RetryOpts(if opts.maxAttempts < 1 then 1 else opts.maxAttempts,
              if opts.initialWait <= 0 then 100 * MILLISECOND else opts.initialWait,
              if opts.maxWait <= 0 then 2 * SECOND else opts.maxWait,
              opts.jitter)
  }

  /** Settings that make sense are kept; one attempt, 100 ms and 2 s stand in for the others, each on its own. */
  lemma NormalizeKeeps(opts: RetryOpts)
    ensures var n := Normalize(opts);
            && n.maxAttempts >= 1 && n.initialWait > 0 && n.maxWait > 0 && Normalize(n) == n
            && (opts.maxAttempts >= 1 ==> n.maxAttempts == opts.maxAttempts)
            && (opts.initialWait > 0 ==> n.initialWait == opts.initialWait)
            && (opts.maxWait > 0 ==> n.maxWait == opts.maxWait)
            && n.jitter == opts.jitter
    ensures Normalize(RetryOpts(0, 0, 0, 0)) == RetryOpts(1, 100 * MILLISECOND, 2 * SECOND, 0)
  {
  }

  /** The pause after attempt `i`, counted from 0, before jitter. */
  function WaitAfter(opts: RetryOpts, i: nat): int {
    if i == 0 then opts.initialWait
    else
      var doubled := 2 * WaitAfter(opts, i - 1);
      if doubled > opts.maxWait then opts.maxWait else doubled
  }

  /** `draw` is the random number taken. */
  function Jittered(wait: int, jitter: int, draw: nat): int {
    if jitter <= 0 then wait
    else
      var delta := wait * jitter / 100;
      if delta < 0 then wait else wait - delta + draw % (2 * delta + 1)
  }

  /** The pauses after the first `n` attempts together. */
  function TotalPause(opts: RetryOpts, n: nat, draws: nat -> nat): int {
    if n == 0 then 0
    else TotalPause(opts, n - 1, draws) + Jittered(WaitAfter(opts, n - 1), opts.jitter, draws(n - 1))
  }

  function Pow2(i: nat): nat {
    if i == 0 then 1 else 2 * Pow2(i - 1)
  }

  /** The backoff doubles from the initial wait up to the ceiling. */
  lemma {:induction false} WaitIsCappedDoubling(opts: RetryOpts, i: nat)
    requires 0 < opts.initialWait <= opts.maxWait
    ensures WaitAfter(opts, i)
         == if opts.initialWait * Pow2(i) > opts.maxWait then opts.maxWait else opts.initialWait * Pow2(i)
  {
    if i > 0 {
      WaitIsCappedDoubling(opts, i - 1);
      assert opts.initialWait * Pow2(i) == 2 * (opts.initialWait * Pow2(i - 1));
    }
  }

  /** A drawn pause lies within the jitter percentage around the plain one. */
  lemma JitterWithinPercentage(wait: int, jitter: int, draw: nat)
    requires wait >= 0
    ensures var delta := if jitter <= 0 then 0 else wait * jitter / 100;
            delta >= 0 && wait - delta <= Jittered(wait, jitter, draw) <= wait + delta
  {
    if jitter > 0 {
      assert wait * jitter >= 0;
    }
  }

  /** And every pause in that range is drawn by some random number. */
  lemma JitterReachesAll(wait: int, jitter: int, pause: int) returns (draw: nat)
    requires wait >= 0
    requires var delta := if jitter <= 0 then 0 else wait * jitter / 100; wait - delta <= pause <= wait + delta
    ensures Jittered(wait, jitter, draw) == pause
  {
    if jitter > 0 {
      assert wait * jitter >= 0;
      draw := pause - (wait - wait * jitter / 100);
    } else {
      draw := 0;
    }
  }

  /** Whether one of the attempts from `i` on succeeds before a cancellation or the last attempt. */
  predicate Eventually(succeeds: nat -> bool, cancelled: nat -> bool, i: nat, max: nat)
    requires i < max
    decreases max - i
  {
    succeeds(i) || (i + 1 < max && !cancelled(i) && Eventually(succeeds, cancelled, i + 1, max))
  }

  /** The attempts end well exactly if one succeeds before which no pause was cancelled. */
  lemma {:induction false} EventuallyExactly(succeeds: nat -> bool, cancelled: nat -> bool, i: nat, max: nat)
    requires i < max
    ensures Eventually(succeeds, cancelled, i, max) <==>
            exists k: nat :: i <= k < max && succeeds(k) && forall j: nat :: i <= j < k ==> !cancelled(j)
    decreases max - i
  {
    if !succeeds(i) && i + 1 < max && !cancelled(i) {
      EventuallyExactly(succeeds, cancelled, i + 1, max);
    }
  }

  /** How many attempts have been made when the loop ends, having reached attempt `i`. */
  function AttemptsMade(succeeds: nat -> bool, cancelled: nat -> bool, i: nat, max: nat): (n: nat)
    requires i < max
    ensures i < n <= max
    ensures succeeds(n - 1) || n == max || cancelled(n - 1)
    ensures forall j :: i <= j < n - 1 ==> !succeeds(j) && !cancelled(j)
    ensures succeeds(n - 1) == Eventually(succeeds, cancelled, i, max)
    decreases max - i
  {
    if succeeds(i) || i + 1 == max || cancelled(i) then i + 1 else AttemptsMade(succeeds, cancelled, i + 1, max)
  }

  /** What `Do` returns: nil, the error of the attempt made last, or the context's error. */
  datatype Ending = Ok | LastError(attempt: nat) | Cancelled

  function EndingOf(succeeds: nat -> bool, cancelled: nat -> bool, max: nat): Ending
    requires max >= 1
  {
    var n := AttemptsMade(succeeds, cancelled, 0, max);
    if succeeds(n - 1) then Ok else if n == max then LastError(n - 1) else Cancelled
  }

  /** Calls `fn` until an attempt succeeds, the context is cancelled during a pause, or the attempts are used up. */
  method Do(succeeds: nat -> bool, cancelled: nat -> bool, draws: nat -> nat, requested: RetryOpts)
    returns (end: Ending, attempts: nat, waited: int)
    ensures attempts == AttemptsMade(succeeds, cancelled, 0, Normalize(requested).maxAttempts)
    ensures end == EndingOf(succeeds, cancelled, Normalize(requested).maxAttempts)
    ensures end.Ok? == succeeds(attempts - 1) == Eventually(succeeds, cancelled, 0, Normalize(requested).maxAttempts)
    ensures end.LastError? ==> attempts == Normalize(requested).maxAttempts && end.attempt == attempts - 1
    ensures end.Cancelled? ==> cancelled(attempts - 1)
    ensures waited == TotalPause(Normalize(requested), attempts - 1, draws)
  {
    var opts := Normalize(requested);
    attempts, waited := 0, 0;
    var lastErr := 0;
    var wait := opts.initialWait;
    var attempt := 1;
    while attempt <= opts.maxAttempts
      invariant attempts == attempt - 1 && 1 <= attempt <= opts.maxAttempts
      invariant wait == WaitAfter(opts, attempt - 1) && waited == TotalPause(opts, attempt - 1, draws)
      invariant AttemptsMade(succeeds, cancelled, 0, opts.maxAttempts)
             == AttemptsMade(succeeds, cancelled, attempt - 1, opts.maxAttempts)
      decreases opts.maxAttempts - attempt
    {
      attempts := attempt;
      if succeeds(attempt - 1) {
        return Ok, attempts, waited;
      }
      lastErr := attempt - 1;
      if attempt == opts.maxAttempts {
        break;
      }
      if cancelled(attempt - 1) {
        return Cancelled, attempts, waited;
      }
      waited := waited + Jittered(wait, opts.jitter, draws(attempt - 1));
      wait := 2 * wait;
      if wait > opts.maxWait {
        wait := opts.maxWait;
      }
      attempt := attempt + 1;
    }
    end := LastError(lastErr);
  }

  // ----- Circuit breaker -----

  datatype CircuitState = Closed | Open | HalfOpen

  datatype Circuit = Circuit(state: CircuitState, failures: nat, openedAt: int)

  datatype Limits = Limits(threshold: nat, cooldown: int)

  function MakeLimits(threshold: int, cooldown: int): (l: Limits)
    ensures l.threshold >= 1 && l.cooldown > 0
  {
    Limits(if threshold < 1 then 3 else threshold, if cooldown <= 0 then 30 * SECOND else cooldown)
  }

  /** The same for the limits of a breaker: a threshold of three and 30 s stand in. */
  lemma MakeLimitsKeeps(threshold: int, cooldown: int)
    ensures threshold >= 1 ==> MakeLimits(threshold, cooldown).threshold == threshold
    ensures cooldown > 0 ==> MakeLimits(threshold, cooldown).cooldown == cooldown
    ensures threshold < 1 ==> MakeLimits(threshold, cooldown).threshold == 3
    ensures cooldown <= 0 ==> MakeLimits(threshold, cooldown).cooldown == 30 * SECOND
  {
  }

  /** `openedAt` is meaningless until the circuit first opens. */
  const FRESH := Circuit(Closed, 0, 0)

  predicate Allowed(c: Circuit, l: Limits, now: int) {
    c.state != Open || now - c.openedAt >= l.cooldown
  }

  function AfterAllow(c: Circuit, l: Limits, now: int): Circuit {
    if c.state == Open && Allowed(c, l, now) then c.(state := HalfOpen) else c
  }

  function AfterSuccess(c: Circuit): Circuit {
    c.(state := if c.state == HalfOpen then Closed else c.state, failures := 0)
  }

  function AfterFailure(c: Circuit, l: Limits, now: int): Circuit {
    var more := c.(failures := c.failures + 1);
    if c.state == HalfOpen || (c.state == Closed && more.failures >= l.threshold)
    then more.(state := Open, openedAt := now) else more
  }

  class CircuitBreaker {
    var state: CircuitState
    var failures: nat
    var openedAt: int
    const limits: Limits

    ghost function View(): Circuit
      reads this
    {
      Circuit(state, failures, openedAt)
    }

    constructor (threshold: int, cooldown: int)
      ensures View() == FRESH && limits == MakeLimits(threshold, cooldown)
    {
      state, failures, openedAt := Closed, 0, 0;
      limits := MakeLimits(threshold, cooldown);
    }

    method Allow(now: int) returns (ok: bool)
      modifies this
      ensures ok == Allowed(old(View()), limits, now)
      ensures View() == AfterAllow(old(View()), limits, now)
    {
      if state == Closed || state == HalfOpen {
        return true;
      }
      if now - openedAt >= limits.cooldown {
        state := HalfOpen;
        return true;
      }
      return false;
    }

    method Success()
      modifies this
      ensures View() == AfterSuccess(old(View()))
    {
      if state == HalfOpen {
        state := Closed;
      }
      failures := 0;
    }

    method Failure(now: int)
      modifies this
      ensures View() == AfterFailure(old(View()), limits, now)
    {
      failures := failures + 1;
      match state
      case HalfOpen =>
        state, openedAt := Open, now;
      case Closed =>
        if failures >= limits.threshold {
          state, openedAt := Open, now;
        }
      case Open =>
    }

    /** Runs a call under the breaker, once or with a retry policy; the outcome is recorded when the call is over. */
    method Execute(succeeds: nat -> bool, cancelled: nat -> bool, draws: nat -> nat, opts: Option<RetryOpts>, now: int)
      returns (r: Guarded, later: int)
      modifies this
      ensures r == if !Allowed(old(View()), limits, now) then Refused
                   else Ran(EndingOf(succeeds, cancelled, if opts.None? then 1 else Normalize(opts.value).maxAttempts))
      ensures r.Ran? && opts.Some? ==>
                var n := AttemptsMade(succeeds, cancelled, 0, Normalize(opts.value).maxAttempts);
                later == now + TotalPause(Normalize(opts.value), n - 1, draws)
      ensures r.Refused? || opts.None? ==> later == now
      ensures View() == match r
                        case Refused => old(View())
                        case Ran(end) =>
                          if end.Ok? then AfterSuccess(AfterAllow(old(View()), limits, now))
                          else AfterFailure(AfterAllow(old(View()), limits, now), limits, later)
    {
      later := now;
      var allowed := Allow(now);
      if !allowed {
        return Refused, later;
      }
      var end := if succeeds(0) then Ok else LastError(0);
      if opts.Some? {
        var attempts, waited;
        end, attempts, waited := Do(succeeds, cancelled, draws, opts.value);
        later := now + waited;
      }
      r := Ran(end);
      if end.Ok? {
        Success();
      } else {
        Failure(later);
      }
    }
  }

  /** `ErrOpen`, or what the call returned. */
  datatype Guarded = Refused | Ran(end: Ending)

  // ----- Histories of calls -----

  datatype Call = Ask(now: int) | Succeeded(now: int) | Failed(now: int)

  function After(c: Circuit, l: Limits, call: Call): Circuit {
    match call
    case Ask(now) => AfterAllow(c, l, now)
    case Succeeded(_) => AfterSuccess(c)
    case Failed(now) => AfterFailure(c, l, now)
  }

  function Replay(c: Circuit, l: Limits, calls: seq<Call>): Circuit {
    if calls == [] then c else After(Replay(c, l, calls[..|calls| - 1]), l, calls[|calls| - 1])
  }

  /** How many failures have been reported since the last success. */
  function TrailingFailures(calls: seq<Call>): nat {
    if calls == [] then 0
    else match calls[|calls| - 1]
      case Failed(_) => TrailingFailures(calls[..|calls| - 1]) + 1
      case Succeeded(_) => 0
      case Ask(_) => TrailingFailures(calls[..|calls| - 1])
  }

  /** Main result: in every history the counter is the length of the current run of failures, and a closed circuit has
      seen fewer than `threshold` failures in a row. */
  lemma {:induction false} CounterIsTrailingFailures(l: Limits, calls: seq<Call>)
    requires l.threshold >= 1
    ensures Replay(FRESH, l, calls).failures == TrailingFailures(calls)
    ensures Replay(FRESH, l, calls).state == Closed ==> TrailingFailures(calls) < l.threshold
  {
    if calls != [] {
      CounterIsTrailingFailures(l, calls[..|calls| - 1]);
    }
  }

  /** Main result: from an opening until the cooldown is over the circuit stays open, with the same opening time,
      whatever is reported to it, and every call is refused. */
  lemma {:induction false} OpenRefusesForCooldown(c: Circuit, l: Limits, calls: seq<Call>)
    requires c.state == Open && forall i :: 0 <= i < |calls| ==> calls[i].now < c.openedAt + l.cooldown
    ensures Replay(c, l, calls).state == Open && Replay(c, l, calls).openedAt == c.openedAt
    ensures forall i :: 0 <= i < |calls| ==> !Allowed(Replay(c, l, calls[..i]), l, calls[i].now)
  {
    if calls != [] {
      var prefix := calls[..|calls| - 1];
      OpenRefusesForCooldown(c, l, prefix);
      forall i | 0 <= i < |calls| ensures !Allowed(Replay(c, l, calls[..i]), l, calls[i].now) {
        if i < |prefix| {
          assert prefix[..i] == calls[..i] && prefix[i] == calls[i];
        } else {
          assert calls[..i] == prefix;
        }
      }
    }
  }

  /** The circuit opens exactly when a failure makes `threshold` in a row while closed, or ends a half-open trial. */
  lemma OpensExactly(l: Limits, calls: seq<Call>, last: Call)
    requires l.threshold >= 1 && Replay(FRESH, l, calls).state != Open
    ensures Replay(FRESH, l, calls + [last]).state == Open <==>
            && last.Failed?
            && (Replay(FRESH, l, calls).state == HalfOpen || TrailingFailures(calls + [last]) >= l.threshold)
    ensures Replay(FRESH, l, calls + [last]).state == Open ==> Replay(FRESH, l, calls + [last]).openedAt == last.now
  {
    assert (calls + [last])[..|calls|] == calls;
    CounterIsTrailingFailures(l, calls);
  }

  // ----- The single trial -----

  lemma {:induction false} FailuresOpen(l: Limits, n: nat)
    requires n <= l.threshold
    ensures Replay(FRESH, l, seq(n, (i: nat) => Failed(0)))
         == Circuit(if n > 0 && n == l.threshold then Open else Closed, n, 0)
  {
    if n > 0 {
      FailuresOpen(l, n - 1);
      assert seq(n, (i: nat) => Failed(0))[..n - 1] == seq(n - 1, (i: nat) => Failed(0));
    }
  }

  /** The failing input: after `threshold` failures and the cooldown, two calls that ask one after the other are both
      admitted before either has reported. */
  lemma TwoTrials(l: Limits)
    requires l.threshold >= 1 && l.cooldown >= 0
    ensures var fails, ask := seq(l.threshold, (i: nat) => Failed(0)), Ask(l.cooldown);
            && Replay(FRESH, l, fails).state == Open && Allowed(Replay(FRESH, l, fails), l, ask.now)
            && Replay(FRESH, l, fails + [ask]).state == HalfOpen && Allowed(Replay(FRESH, l, fails + [ask]), l, ask.now)
  {
    var fails, ask := seq(l.threshold, (i: nat) => Failed(0)), Ask(l.cooldown);
    FailuresOpen(l, l.threshold);
    assert (fails + [ask])[..|fails|] == fails;
  }

  /** How many calls are admitted before the circuit leaves the half-open state. */
  function Trials(c: Circuit, l: Limits, calls: seq<Call>): nat
    decreases |calls|
  {
    if calls == [] || c.state != HalfOpen then 0
    else
      (if calls[0].Ask? && Allowed(c, l, calls[0].now) then 1 else 0) + Trials(After(c, l, calls[0]), l, calls[1..])
  }

  /** How many calls ask before the first report. */
  function AsksBeforeReport(calls: seq<Call>): nat {
    if calls == [] || !calls[0].Ask? then 0 else 1 + AsksBeforeReport(calls[1..])
  }

  /** A half-open circuit admits every call until the first report, which ends it. */
  lemma {:induction false} HalfOpenAdmitsAll(c: Circuit, l: Limits, calls: seq<Call>)
    requires c.state == HalfOpen
    ensures Trials(c, l, calls) == AsksBeforeReport(calls)
    decreases |calls|
  {
    if calls != [] && calls[0].Ask? {
      HalfOpenAdmitsAll(c, l, calls[1..]);
    }
  }

  /** Main result: over any history, the period that an admitted call at `t` opens for trials admits that call and every
      other that asks before the next report; so it admits one call exactly if the next thing to happen is a report. */
  lemma {:induction false} SingleTrialExactly(l: Limits, calls: seq<Call>, t: int, rest: seq<Call>)
    requires Replay(FRESH, l, calls).state == Open && Allowed(Replay(FRESH, l, calls), l, t)
    ensures var admitted := 1 + Trials(Replay(FRESH, l, calls + [Ask(t)]), l, rest);
            && admitted == AsksBeforeReport([Ask(t)] + rest)
            && (admitted == 1 <==> rest == [] || !rest[0].Ask?)
  {
    assert (calls + [Ask(t)])[..|calls|] == calls;
    HalfOpenAdmitsAll(Replay(FRESH, l, calls + [Ask(t)]), l, rest);
    assert ([Ask(t)] + rest)[1..] == rest;
  }
}
