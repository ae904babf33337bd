/** The event-ID ring of the saga engine (`seenEvent`): which deliveries count as new. */
module EventDedup {
  import opened Clock

  const WINDOW := 10 * MINUTE
  const CAP := 4096

  /** `seen` maps an admitted ID to its admission time; `order` lists the same IDs, oldest first. */
  datatype Ring = Ring(seen: map<string, int>, order: seq<string>)

  const EMPTY := Ring(map[], [])

  function DropOldest(r: Ring): Ring
    requires r.order != []
  {
    Ring(r.seen - {r.order[0]}, r.order[1..])
  }

  function EvictStale(r: Ring, now: int): (r': Ring)
    decreases |r.order|
  {
    if r.order == [] || r.order[0] !in r.seen || now - r.seen[r.order[0]] <= WINDOW then r
    else EvictStale(DropOldest(r), now)
  }

  function MakeRoom(r: Ring, now: int): Ring {
    var kept := EvictStale(r, now);
    if |kept.order| >= CAP then DropOldest(kept) else kept
  }

  predicate Duplicate(r: Ring, id: string) {
    id in r.seen
  }

  /** The ring after one delivery of `id`; a duplicate leaves it untouched. */
  function Admit(r: Ring, id: string, now: int): Ring {
    if Duplicate(r, id) then r
    else
      var room := MakeRoom(r, now);
      Ring(room.seen[id := now], room.order + [id])
  }

  ghost predicate NoRepeats(s: seq<string>) {
    forall i, j :: 0 <= i < j < |s| ==> s[i] != s[j]
  }

  /** The ring's structural invariant: both views hold the same IDs, once each, and at most CAP of them. */
  ghost predicate Consistent(r: Ring) {
    && |r.order| <= CAP
    && NoRepeats(r.order)
    && (forall id :: id in r.seen <==> id in r.order)
  }

  lemma DropOldestConsistent(r: Ring)
    requires Consistent(r) && r.order != []
    ensures Consistent(DropOldest(r))
  {
    assert r.order == [r.order[0]] + r.order[1..];
    var r' := DropOldest(r);
    forall id ensures id in r'.seen <==> id in r'.order {
      if id in r'.order {
        var i :| 0 <= i < |r'.order| && r'.order[i] == id;
        assert r.order[i + 1] == id;
      }
    }
  }

  lemma {:induction false} EvictStaleConsistent(r: Ring, now: int)
    requires Consistent(r)
    ensures Consistent(EvictStale(r, now))
    decreases |r.order|
  {
    if r.order != [] && now - r.seen[r.order[0]] > WINDOW {
      DropOldestConsistent(r);
      EvictStaleConsistent(DropOldest(r), now);
    }
  }

  lemma {:induction false} EvictStaleIsSuffix(r: Ring, now: int)
    ensures EvictStale(r, now).seen.Keys <= r.seen.Keys
    ensures exists d :: 0 <= d <= |r.order| && EvictStale(r, now).order == r.order[d..]
    decreases |r.order|
  {
    if r.order == [] || r.order[0] !in r.seen || now - r.seen[r.order[0]] <= WINDOW {
      assert r.order == r.order[0..];
    } else {
      EvictStaleIsSuffix(DropOldest(r), now);
      var d :| 0 <= d <= |DropOldest(r).order| && EvictStale(r, now).order == DropOldest(r).order[d..];
      assert DropOldest(r).order[d..] == r.order[d + 1..];
    }
  }

  /** Every delivery, at any clock reading, keeps the ring consistent and records the ID. */
  lemma AdmitConsistent(r: Ring, id: string, now: int)
    requires Consistent(r)
    ensures Consistent(Admit(r, id, now))
    ensures id in Admit(r, id, now).seen
  {
    if !Duplicate(r, id) {
      EvictStaleConsistent(r, now);
      EvictStaleIsSuffix(r, now);
      var kept := EvictStale(r, now);
      if |kept.order| >= CAP {
        DropOldestConsistent(kept);
      }
      assert id !in MakeRoom(r, now).order;
    }
  }

  /** One delivery of an event ID. */
  datatype Arrival = Arrival(id: string, now: int)

  function Deliver(r: Ring, arrivals: seq<Arrival>): Ring
    decreases |arrivals|
  {
    if arrivals == [] then r else Deliver(Admit(r, arrivals[0].id, arrivals[0].now), arrivals[1..])
  }

  /** Which of the deliveries are treated as new. */
  function Fresh(r: Ring, arrivals: seq<Arrival>): (news: seq<bool>)
    ensures |news| == |arrivals|
    decreases |arrivals|
  {
    if arrivals == [] then []
    else [!Duplicate(r, arrivals[0].id)] + Fresh(Admit(r, arrivals[0].id, arrivals[0].now), arrivals[1..])
  }

  function Count(news: seq<bool>): nat {
    if news == [] then 0 else (if news[0] then 1 else 0) + Count(news[1..])
  }

  ghost predicate HeldAt(r: Ring, id: string, p: nat) {
    p < |r.order| && r.order[p] == id && id in r.seen
  }

  /** Inside its window an ID is only pushed out by the cap: evicting stale entries stops in front of it. */
  lemma {:induction false} EvictStaleKeeps(r: Ring, id: string, p: nat, now: int) returns (p': nat)
    requires Consistent(r) && HeldAt(r, id, p)
    requires now - r.seen[id] <= WINDOW
    ensures HeldAt(EvictStale(r, now), id, p')
    ensures EvictStale(r, now).seen[id] == r.seen[id]
    ensures |EvictStale(r, now).order| - p' == |r.order| - p
    decreases |r.order|
  {
    if now - r.seen[r.order[0]] <= WINDOW {
      p' := p;
    } else {
      DropOldestConsistent(r);
      p' := EvictStaleKeeps(DropOldest(r), id, p - 1, now);
    }
  }

  /** A new ID, with fewer than CAP - 1 younger IDs behind `id`, moves `id` one place from the back, no more. */
  lemma AdmitKeeps(r: Ring, id: string, p: nat, other: string, now: int) returns (p': nat)
    requires Consistent(r) && HeldAt(r, id, p)
    requires now - r.seen[id] <= WINDOW
    requires !Duplicate(r, other)
    requires |r.order| - p < CAP
    ensures HeldAt(Admit(r, other, now), id, p')
    ensures Admit(r, other, now).seen[id] == r.seen[id]
    ensures |Admit(r, other, now).order| - p' == |r.order| - p + 1
  {
    var q := EvictStaleKeeps(r, id, p, now);
    EvictStaleConsistent(r, now);
    var kept := EvictStale(r, now);
    p' := if |kept.order| >= CAP then q - 1 else q;
    assert kept.order[0] == id ==> q == 0;
  }

  /** Main result: an ID admitted at time t is dropped on every redelivery within ten minutes of t, as long as
      fewer than 4096 other IDs were admitted since, whatever the order of the deliveries and clock readings. */
  lemma {:induction false} RemembersWithinWindow(r: Ring, id: string, p: nat, arrivals: seq<Arrival>)
    requires Consistent(r) && HeldAt(r, id, p)
    requires forall i :: 0 <= i < |arrivals| ==> arrivals[i].now - r.seen[id] <= 10 * MINUTE
    requires |r.order| - p + Count(Fresh(r, arrivals)) <= 4096
    ensures Duplicate(Deliver(r, arrivals), id)
    ensures forall i :: 0 <= i < |arrivals| && arrivals[i].id == id ==> !Fresh(r, arrivals)[i]
    decreases |arrivals|
  {
    if arrivals != [] {
      var a := arrivals[0];
      var r' := Admit(r, a.id, a.now);
      AdmitConsistent(r, a.id, a.now);
      var p' := p;
      assert Fresh(r, arrivals)[1..] == Fresh(r', arrivals[1..]);
      if !Duplicate(r, a.id) {
        p' := AdmitKeeps(r, id, p, a.id, a.now);
      }
      RemembersWithinWindow(r', id, p', arrivals[1..]);
    }
  }

  /** The form the engine relies on: right after a new ID is admitted, fewer than 4096 further admissions inside
      its window cannot make the engine process that ID again. */
  lemma RedeliveryDropped(r: Ring, id: string, t: int, arrivals: seq<Arrival>)
    requires Consistent(r) && !Duplicate(r, id)
    requires forall i :: 0 <= i < |arrivals| ==> arrivals[i].now <= t + 10 * MINUTE
    requires Count(Fresh(Admit(r, id, t), arrivals)) < 4096
    ensures Duplicate(Deliver(Admit(r, id, t), arrivals), id)
    ensures forall i :: 0 <= i < |arrivals| && arrivals[i].id == id ==> !Fresh(Admit(r, id, t), arrivals)[i]
  {
    AdmitConsistent(r, id, t);
    var r' := Admit(r, id, t);
    RemembersWithinWindow(r', id, |r'.order| - 1, arrivals);
  }

  /** At least `behind` younger IDs stand behind `id`, if it is still in the ring at all. */
  ghost predicate Buried(r: Ring, id: string, behind: nat) {
    forall p: nat :: HeldAt(r, id, p) ==> |r.order| - p - 1 >= behind
  }

  lemma DropOldestBuries(r: Ring, id: string, behind: nat)
    requires r.order != [] && Buried(r, id, behind)
    ensures Buried(DropOldest(r), id, behind)
  {
    forall p: nat | HeldAt(DropOldest(r), id, p) ensures |DropOldest(r).order| - p - 1 >= behind {
      assert HeldAt(r, id, p + 1);
    }
  }

  lemma {:induction false} EvictStaleBuries(r: Ring, id: string, now: int, behind: nat)
    requires Buried(r, id, behind)
    ensures Buried(EvictStale(r, now), id, behind)
    decreases |r.order|
  {
    if r.order != [] && r.order[0] in r.seen && now - r.seen[r.order[0]] > WINDOW {
      DropOldestBuries(r, id, behind);
      EvictStaleBuries(DropOldest(r), id, now, behind);
    }
  }

  lemma AdmitBuries(r: Ring, id: string, other: string, now: int, behind: nat)
    requires Buried(r, id, behind)
    requires other != id && !Duplicate(r, other)
    ensures Buried(Admit(r, other, now), id, behind + 1)
  {
    EvictStaleBuries(r, id, now, behind);
    if |EvictStale(r, now).order| >= CAP {
      DropOldestBuries(EvictStale(r, now), id, behind);
    }
    var room, r' := MakeRoom(r, now), Admit(r, other, now);
    forall p: nat | HeldAt(r', id, p) ensures |r'.order| - p - 1 >= behind + 1 {
      assert HeldAt(room, id, p);
    }
  }

  /** The bound is tight: 4096 other admissions always push the ID out, and then it would be processed again. */
  lemma {:induction false} ForgottenAfterCap(r: Ring, id: string, arrivals: seq<Arrival>, behind: nat)
    requires Consistent(r) && Buried(r, id, behind)
    requires forall i :: 0 <= i < |arrivals| ==> arrivals[i].id != id
    requires behind + Count(Fresh(r, arrivals)) >= 4096
    ensures !Duplicate(Deliver(r, arrivals), id)
    decreases |arrivals|
  {
    if arrivals == [] {
      if id in r.seen {
        var p: nat :| p < |r.order| && r.order[p] == id;
        assert HeldAt(r, id, p);
      }
    } else {
      var a := arrivals[0];
      AdmitConsistent(r, a.id, a.now);
      var r' := Admit(r, a.id, a.now);
      assert Fresh(r, arrivals)[1..] == Fresh(r', arrivals[1..]);
      if Duplicate(r, a.id) {
        ForgottenAfterCap(r', id, arrivals[1..], behind);
      } else {
        AdmitBuries(r, id, a.id, a.now, behind);
        ForgottenAfterCap(r', id, arrivals[1..], behind + 1);
      }
    }
  }

  // ----- Stale IDs go -----

  /** The IDs stand by age, none admitted after `now`. */
  ghost predicate ByAge(r: Ring, now: int) {
    && (forall i :: 0 <= i < |r.order| ==> r.order[i] in r.seen && r.seen[r.order[i]] <= now)
    && (forall i, j :: 0 <= i < j < |r.order| && r.order[i] in r.seen && r.order[j] in r.seen ==>
          r.seen[r.order[i]] <= r.seen[r.order[j]])
  }

  /** None was admitted longer ago than the window. */
  ghost predicate Young(r: Ring, now: int) {
    forall i :: 0 <= i < |r.order| ==> r.order[i] in r.seen && now - r.seen[r.order[i]] <= WINDOW
  }

  lemma DropOldestByAge(r: Ring, now: int)
    requires Consistent(r) && ByAge(r, now) && r.order != []
    ensures ByAge(DropOldest(r), now) && (Young(r, now) ==> Young(DropOldest(r), now))
  {
    var r' := DropOldest(r);
    forall i | 0 <= i < |r'.order|
      ensures r'.order[i] == r.order[i + 1] && r'.order[i] in r'.seen && r'.seen[r'.order[i]] == r.seen[r.order[i + 1]]
    {
      assert r'.order[i] == r.order[i + 1];
    }
  }

  /** Evicting leaves the IDs by age, and none older than the window. */
  lemma {:induction false} EvictStaleByAge(r: Ring, now: int)
    requires Consistent(r) && ByAge(r, now)
    ensures ByAge(EvictStale(r, now), now) && Young(EvictStale(r, now), now)
    decreases |r.order|
  {
    if r.order != [] && now - r.seen[r.order[0]] > WINDOW {
      DropOldestConsistent(r);
      DropOldestByAge(r, now);
      EvictStaleByAge(DropOldest(r), now);
    }
  }

  lemma MakeRoomByAge(r: Ring, now: int)
    requires Consistent(r) && ByAge(r, now)
    ensures Consistent(MakeRoom(r, now)) && ByAge(MakeRoom(r, now), now) && Young(MakeRoom(r, now), now)
    ensures MakeRoom(r, now).seen.Keys <= r.seen.Keys
  {
    EvictStaleConsistent(r, now);
    EvictStaleByAge(r, now);
    EvictStaleIsSuffix(r, now);
    if |EvictStale(r, now).order| >= CAP {
      DropOldestConsistent(EvictStale(r, now));
      DropOldestByAge(EvictStale(r, now), now);
    }
  }

  lemma AppendByAge(room: Ring, id: string, now: int)
    requires Consistent(room) && ByAge(room, now) && Young(room, now) && id !in room.seen
    ensures var r' := Ring(room.seen[id := now], room.order + [id]);
            ByAge(r', now) && forall x :: x in r'.seen ==> now - r'.seen[x] <= WINDOW
  {
    assert forall i :: 0 <= i < |room.order| ==> room.order[i] in room.order && room.order[i] != id;
  }

  lemma AdmitByAge(r: Ring, id: string, now: int)
    requires Consistent(r) && ByAge(r, now)
    ensures ByAge(Admit(r, id, now), now)
    ensures !Duplicate(r, id) ==>
              forall x :: x in Admit(r, id, now).seen ==> now - Admit(r, id, now).seen[x] <= WINDOW
  {
    if !Duplicate(r, id) {
      MakeRoomByAge(r, now);
      AppendByAge(MakeRoom(r, now), id, now);
    }
  }

  predicate InOrder(arrivals: seq<Arrival>) {
    forall i, j :: 0 <= i < j < |arrivals| ==> arrivals[i].now <= arrivals[j].now
  }

  lemma {:induction false} DeliverByAge(r: Ring, start: int, arrivals: seq<Arrival>, end: int)
    requires Consistent(r) && ByAge(r, start) && InOrder(arrivals) && start <= end
    requires forall i :: 0 <= i < |arrivals| ==> start <= arrivals[i].now <= end
    ensures Consistent(Deliver(r, arrivals)) && ByAge(Deliver(r, arrivals), end)
    decreases |arrivals|
  {
    if arrivals != [] {
      var a := arrivals[0];
      AdmitConsistent(r, a.id, a.now);
      AdmitByAge(r, a.id, a.now);
      DeliverByAge(Admit(r, a.id, a.now), a.now, arrivals[1..], end);
    }
  }

  /** While the clock does not run backwards, the window is kept from the other side too: once a new ID is admitted,
      no ID admitted more than ten minutes ago is held, so each of them would be processed again. */
  lemma StaleIsForgotten(arrivals: seq<Arrival>, other: string, now: int, id: string)
    requires InOrder(arrivals) && forall i :: 0 <= i < |arrivals| ==> arrivals[i].now <= now
    requires !Duplicate(Deliver(EMPTY, arrivals), other)
    ensures var after := Admit(Deliver(EMPTY, arrivals), other, now);
            Duplicate(after, id) ==> now - after.seen[id] <= 10 * MINUTE
  {
    var start := if arrivals == [] then now else arrivals[0].now;
    DeliverByAge(EMPTY, start, arrivals, now);
    AdmitByAge(Deliver(EMPTY, arrivals), other, now);
  }
}
