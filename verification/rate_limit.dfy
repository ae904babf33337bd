/** The per-client rate limiter (backend/internal/server/middleware.go), a counter kept in the timed cache. */
module RateLimit {
  import opened Wrappers
  import opened Clock
  import opened TimedCache

  const DEFAULT_MAX := 60

  /** A cached text: one `Atoi` reads as a number, or any other. */
  datatype Stored = Number(n: int) | Text(s: string)

  datatype Request = Request(ip: string, now: int)

  function Limit(max: int): (m: nat)
    ensures m >= 1
  {
    if max <= 0 then DEFAULT_MAX else max
  }

  function Key(ip: string): string {
    "ratelimit:" + ip
  }

  /** What the counter would become. */
  function NextCount(found: Option<Stored>): int {
    if found.Some? && found.value.Number? then found.value.n + 1 else 1
  }

  predicate Admits(items: Items<string, Stored>, limit: nat, r: Request) {
    NextCount(Lookup(items, Key(r.ip), r.now)) <= limit
  }

  /** Only an admitted request writes the counter back, and so renews its minute. */
  function Serve(items: Items<string, Stored>, limit: nat, r: Request): Items<string, Stored> {
    var key := Key(r.ip);
    var left := Purge(items, key, r.now);
    if Admits(items, limit, r) then Put(left, key, Number(NextCount(Lookup(items, key, r.now))), MINUTE, r.now)
    else left
  }

  class Limiter {
    const cache: MemoryCache<string, Stored>
    const limit: nat

    constructor (cache: MemoryCache<string, Stored>, max: int)
      ensures this.cache == cache && limit == if max <= 0 then 60 else max
    {
      this.cache, this.limit := cache, Limit(max);
    }

    method Handle(ip: string, now: int) returns (admitted: bool)
      modifies cache
      ensures admitted == Admits(old(cache.items), limit, Request(ip, now))
      ensures cache.items == Serve(old(cache.items), limit, Request(ip, now))
    {
      var key := Key(ip);
      var count := 1;
      var v := cache.Get(key, now);
      if v.Some? && v.value.Number? {
        count := v.value.n + 1;
      }
      if count > limit {
        return false;
      }
      cache.Set(key, Number(count), MINUTE, now);
      return true;
    }
  }

  // ----- Runs of requests -----

  function After(items: Items<string, Stored>, limit: nat, reqs: seq<Request>): Items<string, Stored> {
    if reqs == [] then items else Serve(After(items, limit, reqs[..|reqs| - 1]), limit, reqs[|reqs| - 1])
  }

  /** The instants at which requests of one client were admitted. */
  function AdmittedAt(items: Items<string, Stored>, limit: nat, reqs: seq<Request>, ip: string): seq<int> {
    if reqs == [] then []
    else
      var prefix, last := reqs[..|reqs| - 1], reqs[|reqs| - 1];
      AdmittedAt(items, limit, prefix, ip)
      + if last.ip == ip && Admits(After(items, limit, prefix), limit, last) then [last.now] else []
  }

  predicate InOrder(reqs: seq<Request>) {
    forall i, j :: 0 <= i < j < |reqs| ==> reqs[i].now <= reqs[j].now
  }

  /** The length of the last burst: admitted requests each at most a minute after the one before. */
  function Burst(times: seq<int>): nat {
    if |times| < 2 then |times|
    else if times[|times| - 1] - times[|times| - 2] <= MINUTE then Burst(times[..|times| - 1]) + 1
    else 1
  }

  /** The burst a request at `now` would continue. */
  function OpenBurst(times: seq<int>, now: int): nat {
    if times == [] || now - times[|times| - 1] > MINUTE then 0 else Burst(times)
  }

  lemma BurstGrows(times: seq<int>, now: int)
    ensures Burst(times + [now]) == OpenBurst(times, now) + 1
    ensures times != [] ==> Burst(times) >= 1
  {
    assert (times + [now])[..|times|] == times;
  }

  lemma OthersLeaveItAlone(mid: Items<string, Stored>, limit: nat, r: Request, ip: string, later: int)
    requires Key(r.ip) != Key(ip) && r.now <= later
    ensures Lookup(Serve(mid, limit, r), Key(ip), later) == Lookup(mid, Key(ip), later)
  {
  }

  /** What a reader sees of a burst of the given length. */
  function Shown(burst: nat): Option<Stored> {
    if burst == 0 then None else Some(Number(burst))
  }

  lemma OwnRequestCounts(mid: Items<string, Stored>, limit: nat, r: Request, times: seq<int>, later: int)
    requires r.now <= later
    requires Lookup(mid, Key(r.ip), r.now) == Shown(OpenBurst(times, r.now))
    requires Lookup(mid, Key(r.ip), later) == Shown(OpenBurst(times, later))
    ensures var after := times + if Admits(mid, limit, r) then [r.now] else [];
            Lookup(Serve(mid, limit, r), Key(r.ip), later) == Shown(OpenBurst(after, later))
  {
    BurstGrows(times, r.now);
    PurgeInvisible(mid, Key(r.ip), r.now, Key(r.ip), later);
    if Admits(mid, limit, r) {
      assert (times + [r.now])[|times|] == r.now;
    } else {
      assert times + [] == times;
    }
  }

  /** The counter a later reader sees is the client's open burst, whoever else sent requests in between. */
  lemma {:induction false} CounterIsBurst(items: Items<string, Stored>, limit: nat, reqs: seq<Request>, ip: string,
                                          later: int)
    requires Key(ip) !in items && InOrder(reqs) && forall i :: 0 <= i < |reqs| ==> reqs[i].now <= later
    ensures Lookup(After(items, limit, reqs), Key(ip), later)
         == Shown(OpenBurst(AdmittedAt(items, limit, reqs, ip), later))
  {
    if reqs != [] {
      var prefix, last := reqs[..|reqs| - 1], reqs[|reqs| - 1];
      var mid := After(items, limit, prefix);
      var times := AdmittedAt(items, limit, prefix, ip);
      CounterIsBurst(items, limit, prefix, ip, later);
      CounterIsBurst(items, limit, prefix, ip, last.now);
      if last.ip != ip {
        assert times + [] == times;
        assert Key(last.ip)[|"ratelimit:"|..] == last.ip && Key(ip)[|"ratelimit:"|..] == ip;
        OthersLeaveItAlone(mid, limit, last, ip, later);
      } else {
        OwnRequestCounts(mid, limit, last, times, later);
      }
    }
  }

  /** The stores differ at most in that one holds text that is no number under `key`, where the other holds nothing. */
  ghost predicate AlikeBarText(a: Items<string, Stored>, b: Items<string, Stored>, key: string) {
    && (forall k :: k != key ==> (k in a <==> k in b))
    && (forall k :: k != key && k in b ==> a[k] == b[k])
    && if key in b then key in a && a[key] == b[key] else key in a ==> a[key].value.Text?
  }

  lemma ServeBarText(a: Items<string, Stored>, b: Items<string, Stored>, limit: nat, r: Request, key: string)
    requires AlikeBarText(a, b, key)
    ensures Admits(a, limit, r) <==> Admits(b, limit, r)
    ensures AlikeBarText(Serve(a, limit, r), Serve(b, limit, r), key)
  {
  }

  /** Text that is no number, left under a client's key by whoever shares the cache, counts as nothing: in every run
      exactly the same requests are admitted as without it. */
  lemma {:induction false} TextCountsAsNothing(items: Items<string, Stored>, limit: nat, reqs: seq<Request>,
                                               key: string,
                                               ip: string)
    requires key in items ==> items[key].value.Text?
    ensures AlikeBarText(After(items, limit, reqs), After(items - {key}, limit, reqs), key)
    ensures AdmittedAt(items, limit, reqs, ip) == AdmittedAt(items - {key}, limit, reqs, ip)
  {
    if reqs != [] {
      var prefix, last := reqs[..|reqs| - 1], reqs[|reqs| - 1];
      TextCountsAsNothing(items, limit, prefix, key, ip);
      ServeBarText(After(items, limit, prefix), After(items - {key}, limit, prefix), limit, last, key);
    }
  }

  /** Main result: a request is admitted exactly when the client's open burst is shorter than the limit. In particular a
      client that waited more than a minute since its last admitted request is admitted. */
  lemma AdmittedExactly(items: Items<string, Stored>, limit: nat, reqs: seq<Request>, next: Request)
    requires Key(next.ip) !in items && InOrder(reqs + [next]) && limit >= 1
    ensures var times := AdmittedAt(items, limit, reqs, next.ip);
            && (Admits(After(items, limit, reqs), limit, next) <==> OpenBurst(times, next.now) < limit)
            && (times == [] || next.now - times[|times| - 1] > MINUTE ==>
                  Admits(After(items, limit, reqs), limit, next))
  {
    var all := reqs + [next];
    assert forall i :: 0 <= i < |reqs| ==> reqs[i] == all[i];
    assert all[|reqs|] == next;
    CounterIsBurst(items, limit, reqs, next.ip, next.now);
  }

  predicate Rising(times: seq<int>) {
    forall i, j :: 0 <= i < j < |times| ==> times[i] <= times[j]
  }

  predicate BurstsWithin(times: seq<int>, limit: nat) {
    forall n :: 0 <= n <= |times| ==> Burst(times[..n]) <= limit
  }

  predicate Bounded(times: seq<int>, limit: nat, now: int) {
    BurstsWithin(times, limit) && Rising(times) && (times != [] ==> times[|times| - 1] <= now)
  }

  lemma BoundedStep(times: seq<int>, limit: nat, before: int, now: int, admitted: bool)
    requires Bounded(times, limit, before) && before <= now && (admitted ==> OpenBurst(times, now) < limit)
    ensures Bounded(times + if admitted then [now] else [], limit, now)
  {
    if admitted {
      var more := times + [now];
      BurstGrows(times, now);
      forall n | 0 <= n <= |more| ensures Burst(more[..n]) <= limit {
        if n <= |times| {
          assert more[..n] == times[..n];
        } else {
          assert more[..n] == more;
        }
      }
    } else {
      assert times + [] == times;
    }
  }

  /** `AdmittedExactly` for the last request of a run. */
  lemma LastAdmittedExactly(items: Items<string, Stored>, limit: nat, reqs: seq<Request>)
    requires reqs != [] && Key(reqs[|reqs| - 1].ip) !in items && InOrder(reqs) && limit >= 1
    ensures var prefix, last := reqs[..|reqs| - 1], reqs[|reqs| - 1];
            Admits(After(items, limit, prefix), limit, last)
            <==> OpenBurst(AdmittedAt(items, limit, prefix, last.ip), last.now) < limit
  {
    assert reqs[..|reqs| - 1] + [reqs[|reqs| - 1]] == reqs;
    AdmittedExactly(items, limit, reqs[..|reqs| - 1], reqs[|reqs| - 1]);
  }

  /** How the admitted instants of a client grow with the last request of a run. */
  lemma LastRequest(items: Items<string, Stored>, limit: nat, reqs: seq<Request>, ip: string, times: seq<int>)
    requires reqs != [] && Key(ip) !in items && InOrder(reqs) && limit >= 1
    requires times == AdmittedAt(items, limit, reqs[..|reqs| - 1], ip)
    ensures var last := reqs[|reqs| - 1];
            AdmittedAt(items, limit, reqs, ip)
            == times + if last.ip == ip && OpenBurst(times, last.now) < limit then [last.now] else []
  {
    if reqs[|reqs| - 1].ip == ip {
      LastAdmittedExactly(items, limit, reqs);
    }
  }

  lemma LastKeepsBound(items: Items<string, Stored>, limit: nat, reqs: seq<Request>, ip: string, before: int)
    requires Key(ip) !in items && InOrder(reqs) && limit >= 1 && reqs != [] && before <= reqs[|reqs| - 1].now
    requires Bounded(AdmittedAt(items, limit, reqs[..|reqs| - 1], ip), limit, before)
    ensures Bounded(AdmittedAt(items, limit, reqs, ip), limit, reqs[|reqs| - 1].now)
  {
    var times, last := AdmittedAt(items, limit, reqs[..|reqs| - 1], ip), reqs[|reqs| - 1];
    LastRequest(items, limit, reqs, ip, times);
    BoundedStep(times, limit, before, last.now, last.ip == ip && OpenBurst(times, last.now) < limit);
  }

  /** Bursts never exceed the limit, and admitted instants come in order. */
  lemma {:induction false} BurstsBounded(items: Items<string, Stored>, limit: nat, reqs: seq<Request>, ip: string)
    requires Key(ip) !in items && InOrder(reqs) && limit >= 1 && reqs != []
    ensures Bounded(AdmittedAt(items, limit, reqs, ip), limit, reqs[|reqs| - 1].now)
  {
    if |reqs| == 1 {
      assert AdmittedAt(items, limit, reqs[..0], ip) == [];
      LastKeepsBound(items, limit, reqs, ip, reqs[0].now);
    } else {
      BurstsBounded(items, limit, reqs[..|reqs| - 1], ip);
      LastKeepsBound(items, limit, reqs, ip, reqs[|reqs| - 2].now);
    }
  }

  /** Instants in one minute are one burst. */
  lemma {:induction false} WindowInsideBurst(times: seq<int>, i: nat, j: nat)
    requires i <= j < |times| && times[j] - times[i] <= MINUTE
    requires Rising(times)
    ensures Burst(times[..j + 1]) >= j - i + 1
  {
    if i < j {
      WindowInsideBurst(times, i, j - 1);
      assert times[..j + 1][..j] == times[..j];
    }
  }

  /** Main result: whatever the clients send, no window of a minute holds more than `limit` admitted requests of one
      client, although every admitted request renews the counter's time to live. */
  lemma NoWindowExceedsLimit(items: Items<string, Stored>, limit: nat, reqs: seq<Request>, ip: string, i: nat, j: nat)
    requires Key(ip) !in items && InOrder(reqs) && limit >= 1
    requires i <= j < |AdmittedAt(items, limit, reqs, ip)|
    requires AdmittedAt(items, limit, reqs, ip)[j] - AdmittedAt(items, limit, reqs, ip)[i] <= MINUTE
    ensures j - i + 1 <= limit
  {
    BurstsBounded(items, limit, reqs, ip);
    WindowInsideBurst(AdmittedAt(items, limit, reqs, ip), i, j);
  }

  predicate Unbroken(times: seq<int>) {
    forall i :: 0 < i < |times| ==> times[i] - times[i - 1] <= MINUTE
  }

  lemma {:induction false} UnbrokenBurst(times: seq<int>, n: nat)
    requires n <= |times| && Unbroken(times)
    ensures Burst(times[..n]) == n
  {
    if n > 0 {
      UnbrokenBurst(times, n - 1);
      assert times[..n][..n - 1] == times[..n - 1];
    }
  }

  /** The limit is on a burst: if no two consecutive admitted requests of a client lie more than a minute apart, there
      are at most `limit` of them in all. */
  lemma SteadyClientIsCutOff(items: Items<string, Stored>, limit: nat, reqs: seq<Request>, ip: string)
    requires Key(ip) !in items && InOrder(reqs) && limit >= 1
    requires Unbroken(AdmittedAt(items, limit, reqs, ip))
    ensures |AdmittedAt(items, limit, reqs, ip)| <= limit
  {
    var times := AdmittedAt(items, limit, reqs, ip);
    UnbrokenBurst(times, |times|);
    if reqs != [] {
      BurstsBounded(items, limit, reqs, ip);
    }
  }

  // ----- What a client that was cut off meets -----

  /** Main result: once a client's burst has used up the limit, every request it sends up to a minute after its last
      admitted one is refused, however many there are and whoever else sends in between; and since refused requests
      renew nothing, its first request after that minute is admitted. */
  lemma CutOffUntilSilence(items: Items<string, Stored>, limit: nat, reqs: seq<Request>, more: seq<Request>,
                           next: Request)
    requires Key(next.ip) !in items && InOrder(reqs + more + [next]) && limit >= 1
    requires UsedUp(AdmittedAt(items, limit, reqs, next.ip), limit)
    requires SentBy(more, Deadline(AdmittedAt(items, limit, reqs, next.ip)))
    ensures AdmittedAt(items, limit, reqs + more, next.ip) == AdmittedAt(items, limit, reqs, next.ip)
    ensures Admits(After(items, limit, reqs + more), limit, next) <==>
            next.now > Deadline(AdmittedAt(items, limit, reqs, next.ip))
  {
    var sofar := reqs + more;
    InOrderParts(sofar, [next]);
    NoneAdmittedInBurst(items, limit, reqs, more, next.ip, AdmittedAt(items, limit, reqs, next.ip));
    NextAfterBurst(items, limit, sofar, next, AdmittedAt(items, limit, reqs, next.ip));
  }

  /** A minute after the last of these instants. */
  function Deadline(times: seq<int>): int
    requires times != []
  {
    times[|times| - 1] + MINUTE
  }

  predicate SentBy(reqs: seq<Request>, deadline: int) {
    forall i :: 0 <= i < |reqs| ==> reqs[i].now <= deadline
  }

  lemma NextAfterBurst(items: Items<string, Stored>, limit: nat, reqs: seq<Request>, next: Request, times: seq<int>)
    requires Key(next.ip) !in items && InOrder(reqs + [next]) && limit >= 1 && UsedUp(times, limit)
    requires times == AdmittedAt(items, limit, reqs, next.ip)
    ensures Admits(After(items, limit, reqs), limit, next) <==> next.now > Deadline(times)
  {
    var all := reqs + [next];
    assert all[..|all| - 1] == reqs && all[|all| - 1] == next;
    LastAdmittedExactly(items, limit, all);
  }

  lemma InOrderParts(a: seq<Request>, b: seq<Request>)
    requires InOrder(a + b)
    ensures InOrder(a) && InOrder(b)
  {
    assert forall i :: 0 <= i < |a| ==> (a + b)[i] == a[i];
    assert forall i :: 0 <= i < |b| ==> (a + b)[|a| + i] == b[i];
  }

  ghost predicate UsedUp(times: seq<int>, limit: nat) {
    times != [] && Burst(times) >= limit
  }

  /** One more request within the minute of a used-up burst is not admitted. */
  lemma LastNotAdmitted(items: Items<string, Stored>, limit: nat, all: seq<Request>, ip: string, times: seq<int>)
    requires all != [] && Key(ip) !in items && InOrder(all) && limit >= 1 && UsedUp(times, limit)
    requires times == AdmittedAt(items, limit, all[..|all| - 1], ip)
    requires all[|all| - 1].now <= times[|times| - 1] + MINUTE
    ensures AdmittedAt(items, limit, all, ip) == times
  {
    LastRequest(items, limit, all, ip, times);
    assert times + [] == times;
  }

  lemma {:induction false} NoneAdmittedInBurst(items: Items<string, Stored>, limit: nat, reqs: seq<Request>,
                                               more: seq<Request>, ip: string, times: seq<int>)
    requires Key(ip) !in items && InOrder(reqs + more) && limit >= 1
    requires times == AdmittedAt(items, limit, reqs, ip) && UsedUp(times, limit)
    requires SentBy(more, Deadline(times))
    ensures AdmittedAt(items, limit, reqs + more, ip) == times
    decreases |more|
  {
    if more == [] {
      assert reqs + more == reqs;
    } else {
      var n := |more| - 1;
      var all := reqs + more;
      assert all[..|all| - 1] == reqs + more[..n] && all[|all| - 1] == more[n];
      PrefixInOrder(all);
      NoneAdmittedInBurst(items, limit, reqs, more[..n], ip, times);
      LastNotAdmitted(items, limit, all, ip, times);
    }
  }

  lemma PrefixInOrder(reqs: seq<Request>)
    requires InOrder(reqs) && reqs != []
    ensures InOrder(reqs[..|reqs| - 1])
  {
  }

  // ----- The limiter against a limit per minute -----

  /** How many instants lie within the minute up to `now`. */
  function LastMinute(times: seq<int>, now: int): nat {
    if times == [] then 0
    else LastMinute(times[..|times| - 1], now) + if now - times[|times| - 1] <= MINUTE then 1 else 0
  }

  /** In order, the last minute holds `n` instants or more exactly if the n-th last lies in it. */
  lemma {:induction false} LastMinuteExactly(times: seq<int>, now: int, n: nat)
    requires Rising(times) && 1 <= n <= |times|
    ensures LastMinute(times, now) >= n <==> now - times[|times| - n] <= MINUTE
    decreases |times|
  {
    var rest := times[..|times| - 1];
    if n == 1 {
      if now - times[|times| - 1] > MINUTE {
        NothingInLastMinute(rest, now);
      }
    } else {
      assert rest[|rest| - (n - 1)] == times[|times| - n];
      LastMinuteExactly(rest, now, n - 1);
      if now - times[|times| - 1] > MINUTE {
        NothingInLastMinute(rest, now);
      }
    }
  }

  lemma {:induction false} NothingInLastMinute(times: seq<int>, now: int)
    requires forall i :: 0 <= i < |times| ==> now - times[i] > MINUTE
    ensures LastMinute(times, now) == 0
  {
    if times != [] {
      NothingInLastMinute(times[..|times| - 1], now);
    }
  }

  lemma {:induction false} LastMinuteAtMost(times: seq<int>, now: int)
    ensures LastMinute(times, now) <= |times|
  {
    if times != [] {
      LastMinuteAtMost(times[..|times| - 1], now);
    }
  }

  /** What lies within the last minute belongs to the open burst. */
  lemma {:induction false} LastMinuteInBurst(times: seq<int>, now: int)
    requires Rising(times) && (times != [] ==> times[|times| - 1] <= now)
    ensures LastMinute(times, now) <= OpenBurst(times, now)
  {
    var n := LastMinute(times, now);
    LastMinuteAtMost(times, now);
    if n >= 1 {
      LastMinuteExactly(times, now, n);
      LastMinuteExactly(times, now, 1);
      WindowInsideBurst(times, |times| - n, |times| - 1);
      assert times[..|times|] == times;
    }
  }

  /** The decision is that of a limit per minute exactly if the burst is not used up or its last `limit` requests all
      lie within the minute. */
  predicate AlikeExactly(times: seq<int>, now: int, limit: nat, admitted: bool) {
    (admitted <==> LastMinute(times, now) < limit)
    <==> OpenBurst(times, now) < limit || (1 <= limit <= |times| && now - times[|times| - limit] <= MINUTE)
  }

  lemma DecidesAlikeExactly(times: seq<int>, now: int, limit: nat)
    requires Rising(times) && (times != [] ==> times[|times| - 1] <= now) && limit >= 1
    ensures AlikeExactly(times, now, limit, OpenBurst(times, now) < limit)
  {
    BurstAtMost(times);
    LastMinuteInBurst(times, now);
    if |times| >= limit {
      LastMinuteExactly(times, now, limit);
    }
  }

  /** Main result: the limiter decides as a limit of `limit` requests per minute would, exactly if the client's burst
      is not used up or its last `limit` requests all lie within the minute; otherwise it refuses what such a limit
      admits. */
  lemma PerMinuteExactly(items: Items<string, Stored>, limit: nat, reqs: seq<Request>, next: Request)
    requires Key(next.ip) !in items && InOrder(reqs + [next]) && limit >= 1
    ensures AlikeExactly(AdmittedAt(items, limit, reqs, next.ip), next.now, limit,
                         Admits(After(items, limit, reqs), limit, next))
    ensures Admits(After(items, limit, reqs), limit, next) ==>
              LastMinute(AdmittedAt(items, limit, reqs, next.ip), next.now) < limit
  {
    AdmittedExactly(items, limit, reqs, next);
    AdmittedInOrder(items, limit, reqs, next);
    LastMinuteInBurst(AdmittedAt(items, limit, reqs, next.ip), next.now);
    DecidesAlikeExactly(AdmittedAt(items, limit, reqs, next.ip), next.now, limit);
  }

  lemma AdmittedInOrder(items: Items<string, Stored>, limit: nat, reqs: seq<Request>, next: Request)
    requires Key(next.ip) !in items && InOrder(reqs + [next]) && limit >= 1
    ensures var times := AdmittedAt(items, limit, reqs, next.ip);
            Rising(times) && (times != [] ==> times[|times| - 1] <= next.now)
  {
    InOrderParts(reqs, [next]);
    if reqs != [] {
      BurstsBounded(items, limit, reqs, next.ip);
      assert (reqs + [next])[|reqs| - 1] == reqs[|reqs| - 1] && (reqs + [next])[|reqs|] == next;
    }
  }

  lemma {:induction false} BurstAtMost(times: seq<int>)
    ensures Burst(times) <= |times|
  {
    if |times| >= 2 {
      BurstAtMost(times[..|times| - 1]);
    }
  }

  /** The n-th instant of a client that sends every 59 seconds. */
  function Instant(n: nat): (t: int)
    ensures n > 0 ==> t == Instant(n - 1) + 59 * SECOND
  {
    n * 59_000_000_000
  }

  /** One request every 59 seconds. */
  function Spaced(ip: string, n: nat): seq<Request> {
    seq(n, (i: nat) => Request(ip, Instant(i)))
  }

  function SpacedTimes(n: nat): seq<int> {
    seq(n, (i: nat) => Instant(i))
  }

  lemma SpacedInOrder(ip: string, n: nat)
    ensures InOrder(Spaced(ip, n)) && Rising(SpacedTimes(n)) && Unbroken(SpacedTimes(n))
  {
  }

  /** The n-th request of such a client finds the burst of all before it, of which at most one lies in the last
      minute. */
  lemma SpacedIsOneBurst(n: nat)
    ensures OpenBurst(SpacedTimes(n), Instant(n)) == n
    ensures LastMinute(SpacedTimes(n), Instant(n)) <= 1
  {
    var times := SpacedTimes(n);
    SpacedInOrder("", n);
    UnbrokenBurst(times, n);
    assert times[..n] == times;
    if n >= 2 {
      assert times[n - 2] == Instant(n - 2) && Instant(n) == Instant(n - 1) + 59 * SECOND;
      LastMinuteExactly(times, Instant(n), 2);
    } else {
      LastMinuteAtMost(times, Instant(n));
    }
  }

  lemma SpacedGrows(ip: string, n: nat)
    ensures Spaced(ip, n + 1) == Spaced(ip, n) + [Request(ip, Instant(n))]
    ensures SpacedTimes(n + 1) == SpacedTimes(n) + [Instant(n)]
    ensures InOrder(Spaced(ip, n))
  {
    SpacedInOrder(ip, n);
  }

  /** Its n-th request is admitted, given what happened to those before, exactly if `n` is below the limit. */
  lemma SpacedNext(items: Items<string, Stored>, limit: nat, ip: string, n: nat)
    requires Key(ip) !in items && limit >= 1
    requires AdmittedAt(items, limit, Spaced(ip, n), ip) == SpacedTimes(n)
    ensures Admits(After(items, limit, Spaced(ip, n)), limit, Request(ip, Instant(n))) <==> n < limit
  {
    SpacedInOrder(ip, n + 1);
    var all := Spaced(ip, n + 1);
    assert all[..|all| - 1] == Spaced(ip, n) && all[|all| - 1] == Request(ip, Instant(n));
    LastAdmittedExactly(items, limit, all);
    SpacedIsOneBurst(n);
  }

  lemma {:induction false} SpacedAdmitted(items: Items<string, Stored>, limit: nat, ip: string, n: nat)
    requires Key(ip) !in items && limit >= 1 && n <= limit
    ensures AdmittedAt(items, limit, Spaced(ip, n), ip) == SpacedTimes(n)
  {
    if n > 0 {
      SpacedAdmitted(items, limit, ip, n - 1);
      SpacedNext(items, limit, ip, n - 1);
      SpacedGrows(ip, n - 1);
      assert Spaced(ip, n)[..n - 1] == Spaced(ip, n - 1);
    }
  }

  /** The failing input, for every limit of two or more: a client that sends one request every 59 seconds has its
      first `limit` requests admitted and the next refused, although never more than two fall in one minute. */
  lemma SpacedRequestsRefused(items: Items<string, Stored>, limit: nat, ip: string)
    requires Key(ip) !in items && limit >= 2
    ensures AdmittedAt(items, limit, Spaced(ip, limit), ip) == SpacedTimes(limit)
    ensures var next := Request(ip, Instant(limit));
            && !Admits(After(items, limit, Spaced(ip, limit)), limit, next)
            && LastMinute(SpacedTimes(limit), next.now) <= 1
  {
    SpacedAdmitted(items, limit, ip, limit);
    SpacedNext(items, limit, ip, limit);
    SpacedIsOneBurst(limit);
  }
}
