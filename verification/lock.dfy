/** The in-process token lock (backend/internal/lock/lock.go). */
module TokenLock {
  import opened Wrappers

  datatype Hold = Hold(token: nat, expiry: int)

  type Holds = map<string, Hold>

  /** The key can be taken: nobody holds it, or the hold has run out. */
  predicate Free(holds: Holds, key: string, now: int) {
    key !in holds || now >= holds[key].expiry
  }

  function Acquired(holds: Holds, key: string, ttl: int, token: nat, now: int): Holds {
    if Free(holds, key, now) then holds[key := Hold(token, now + ttl)] else holds
  }

  function Released(holds: Holds, key: string, token: nat): Holds {
    if key in holds && holds[key].token == token then holds - {key} else holds
  }

  class MemoryLock {
    var held: map<string, nat>
    var expiry: map<string, int>

    ghost predicate Valid()
      reads this
    {
      held.Keys == expiry.Keys
    }

    ghost function View(): Holds
      requires Valid()
      reads this
    {
      map key | key in held :: Hold(held[key], expiry[key])
    }

    constructor ()
      ensures Valid() && View() == map[]
    {
      held, expiry := map[], map[];
    }

    /** `token` is the freshly drawn random token. */
    method TryAcquire(key: string, ttl: int, token: nat, now: int) returns (r: Option<nat>)
      requires Valid()
      modifies this
      ensures Valid() && View() == Acquired(old(View()), key, ttl, token, now)
      ensures r == if Free(old(View()), key, now) then Some(token) else None
    {
      if key in held {
        if now < expiry[key] {
          return None;
        }
        held, expiry := held - {key}, expiry - {key};
      }
      held, expiry := held[key := token], expiry[key := now + ttl];
      return Some(token);
    }

    method Release(key: string, token: nat)
      requires Valid()
      modifies this
      ensures Valid() && View() == Released(old(View()), key, token)
    {
      if key in held && held[key] == token {
        held, expiry := held - {key}, expiry - {key};
      }
    }
  }

  // ----- Runs -----

  /** One call on the lock; a `WithLock` body runs from its successful Acquire to its own Release. */
  datatype Act = Acquire(key: string, ttl: int, token: nat, now: int) | Release(key: string, token: nat, now: int)

  function After(holds: Holds, act: Act): Holds {
    match act
    case Acquire(key, ttl, token, now) => Acquired(holds, key, ttl, token, now)
    case Release(key, token, _) => Released(holds, key, token)
  }

  function Replay(holds: Holds, acts: seq<Act>): Holds {
    if acts == [] then holds else After(Replay(holds, acts[..|acts| - 1]), acts[|acts| - 1])
  }

  /** The i-th act is an acquisition that succeeded. */
  ghost predicate Won(acts: seq<Act>, i: nat) {
    i < |acts| && acts[i].Acquire? && Free(Replay(map[], acts[..i]), acts[i].key, acts[i].now)
  }

  /** Random tokens never repeat, and the clock does not run backwards. */
  ghost predicate Plausible(acts: seq<Act>) {
    && (forall i, j :: 0 <= i < j < |acts| && acts[i].Acquire? && acts[j].Acquire? ==> acts[i].token != acts[j].token)
    && (forall i, j :: 0 <= i < j < |acts| ==> acts[i].now <= acts[j].now)
  }

  ghost predicate AllBy(acts: seq<Act>, now: int) {
    forall k :: 0 <= k < |acts| ==> acts[k].now <= now
  }

  /** The winner of act `i` has not given the lock back by act `j`. */
  ghost predicate Unreleased(acts: seq<Act>, i: nat, j: nat)
    requires i < |acts| && j <= |acts|
  {
    forall k :: i < k < j ==> !(acts[k].Release? && acts[k].key == acts[i].key && acts[k].token == acts[i].token)
  }

  function Deadline(act: Act): int
    requires act.Acquire?
  {
    act.now + act.ttl
  }

  /** Until its deadline, a winner that has not released is exactly who the lock says holds the key. */
  lemma {:induction false} HoldsUntilDeadline(acts: seq<Act>, i: nat, j: nat)
    requires Plausible(acts) && Won(acts, i) && i < j <= |acts| && Unreleased(acts, i, j)
    requires acts[j - 1].now < Deadline(acts[i])
    ensures acts[i].key in Replay(map[], acts[..j])
    ensures Replay(map[], acts[..j])[acts[i].key] == Hold(acts[i].token, Deadline(acts[i]))
    decreases j
  {
    assert acts[..j][..j - 1] == acts[..j - 1];
    if j - 1 > i {
      assert acts[j - 2].now <= acts[j - 1].now;
      HoldsUntilDeadline(acts, i, j - 1);
    }
  }

  /** Main result: two bodies on one key overlap only if the earlier one has outlived its TTL. If act `i` won, has not
      been released, and act `j` wins the same key, then `j` comes at or after the deadline of `i`. */
  lemma OverlapOnlyAfterDeadline(acts: seq<Act>, i: nat, j: nat)
    requires Plausible(acts) && Won(acts, i) && Won(acts, j) && i < j
    requires acts[i].key == acts[j].key && Unreleased(acts, i, j)
    ensures acts[j].now >= Deadline(acts[i])
  {
    if acts[j].now < Deadline(acts[i]) {
      assert acts[j - 1].now <= acts[j].now;
      HoldsUntilDeadline(acts, i, j);
    }
  }

  /** Main result: at any moment at most one unreleased winner of a key is still inside its TTL. */
  lemma OneUnexpiredHolder(acts: seq<Act>, i: nat, j: nat, n: nat)
    requires Plausible(acts) && Won(acts, i) && Won(acts, j) && i < n <= |acts| && j < n
    requires acts[i].key == acts[j].key && Unreleased(acts, i, n) && Unreleased(acts, j, n)
    requires acts[n - 1].now < Deadline(acts[i]) && acts[n - 1].now < Deadline(acts[j])
    ensures i == j
  {
    assert forall k :: 0 <= k < n ==> acts[k].now <= acts[n - 1].now;
    if i < j {
      OverlapOnlyAfterDeadline(acts, i, j);
    } else if j < i {
      OverlapOnlyAfterDeadline(acts, j, i);
    }
  }

  /** Main result: a holder whose lock was taken over releases nothing: after `i` outlived its TTL and `j` won the key,
      the late release of `i` leaves `j` in place. */
  lemma StaleReleaseHarmless(acts: seq<Act>, i: nat, j: nat, n: nat)
    requires Plausible(acts) && Won(acts, i) && Won(acts, j) && i < j < n <= |acts|
    requires acts[i].key == acts[j].key && Unreleased(acts, j, n) && acts[n - 1].now < Deadline(acts[j])
    ensures var holds := Replay(map[], acts[..n]);
            && acts[j].key in holds && holds[acts[j].key].token == acts[j].token
            && Released(holds, acts[i].key, acts[i].token) == holds
  {
    HoldsUntilDeadline(acts, j, n);
  }

  /** Whoever the lock says holds a key won it and has not released it since. */
  lemma {:induction false} HolderWon(acts: seq<Act>, key: string, n: nat) returns (i: nat)
    requires n <= |acts| && key in Replay(map[], acts[..n])
    ensures i < n && Won(acts, i) && acts[i].key == key && Unreleased(acts, i, n)
    ensures Replay(map[], acts[..n])[key] == Hold(acts[i].token, Deadline(acts[i]))
    decreases n
  {
    assert n > 0;
    var before, last := Replay(map[], acts[..n - 1]), acts[n - 1];
    assert acts[..n][..n - 1] == acts[..n - 1];
    if last.Acquire? && last.key == key && Free(before, key, last.now) {
      i := n - 1;
    } else {
      i := HolderWon(acts, key, n - 1);
    }
  }

  /** Main result: after any run a key is free if and only if every winner of it has given it back or is past its
      deadline; so a release frees the key at once, and a holder that crashes blocks it no longer than its
      lifetime. */
  lemma FreeExactly(acts: seq<Act>, key: string, now: int)
    requires Plausible(acts) && AllBy(acts, now)
    ensures Free(Replay(map[], acts), key, now) <==>
            forall i :: 0 <= i < |acts| && Won(acts, i) && acts[i].key == key && Unreleased(acts, i, |acts|) ==>
              now >= Deadline(acts[i])
  {
    assert acts[..|acts|] == acts;
    if key in Replay(map[], acts) {
      var holder := HolderWon(acts, key, |acts|);
    }
    forall i | 0 <= i < |acts| && Won(acts, i) && acts[i].key == key && Unreleased(acts, i, |acts|)
               && now < Deadline(acts[i])
      ensures !Free(Replay(map[], acts), key, now)
    {
      HoldsUntilDeadline(acts, i, |acts|);
    }
  }
}
