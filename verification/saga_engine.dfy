/** The engine object of backend/internal/saga/saga.go, each method proved against the function of SagaModel that
    says what it does to the whole state. */
module SagaEngine {
  import opened Wrappers
  import opened Clock
  import opened TimedCache
  import opened SagaModel
  import EventDedup

  class Engine<W> {
    const defs: seq<Definition<W>>
    const timeoutAfter: int
    const cache: MemoryCache<Key, Saga>
    var world: W
    var seen: map<string, int>
    var seenOrder: seq<string>
    var recent: seq<Summary>
    var started: nat
    var completed: nat
    var failed: nat
    ghost var log: seq<Entry>

    ghost function Snapshot(): State<W>
      reads this, cache
    {
      State(world, cache.items, EventDedup.Ring(seen, seenOrder), recent, started, completed, failed, log)
    }

    constructor (world: W, cache: MemoryCache<Key, Saga>, defs: seq<Definition<W>>)
      ensures this.cache == cache && this.defs == defs && timeoutAfter == 24 * HOUR
      ensures Snapshot() == Initial(world).(store := cache.items)
    {
      this.world, this.cache, this.defs := world, cache, defs;
      timeoutAfter := DEFAULT_TIMEOUT;
      seen, seenOrder, recent := map[], [], [];
      started, completed, failed := 0, 0, 0;
      log := [];
    }

    method Stats() returns (s: nat, c: nat, f: nat)
      ensures s == Snapshot().started && c == Snapshot().completed && f == Snapshot().failed
    {
      return started, completed, failed;
    }

    method SeenEvent(id: string, now: int) returns (dup: bool)
      requires EventDedup.Consistent(EventDedup.Ring(seen, seenOrder))
      modifies this`seen, this`seenOrder
      ensures dup == EventDedup.Duplicate(old(EventDedup.Ring(seen, seenOrder)), id)
      ensures EventDedup.Ring(seen, seenOrder) == EventDedup.Admit(old(EventDedup.Ring(seen, seenOrder)), id, now)
    {
      if id in seen {
        return true;
      }
      while |seenOrder| > 0
        invariant EventDedup.Consistent(EventDedup.Ring(seen, seenOrder))
        invariant EventDedup.EvictStale(EventDedup.Ring(seen, seenOrder), now)
               == EventDedup.EvictStale(old(EventDedup.Ring(seen, seenOrder)), now)
        invariant |seenOrder| == 0 || id !in seen
        decreases |seenOrder|
      {
        var first := seenOrder[0];
        if first !in seen || now - seen[first] <= EventDedup.WINDOW {
          break;
        }
        EventDedup.DropOldestConsistent(EventDedup.Ring(seen, seenOrder));
        seen := seen - {first};
        seenOrder := seenOrder[1..];
      }
      if |seenOrder| >= EventDedup.CAP {
        seen := seen - {seenOrder[0]};
        seenOrder := seenOrder[1..];
      }
      seen := seen[id := now];
      seenOrder := seenOrder + [id];
      return false;
    }

    method RememberSummary(s: Summary)
      modifies this`recent
      ensures recent == Remember(old(recent), s)
    {
      recent := recent + [s];
      if |recent| > RECENT_LIMIT {
        recent := recent[|recent| - RECENT_LIMIT..];
      }
    }

    /** `loadKey`. */
    method LoadKey(key: Key, now: int) returns (found: Option<Saga>)
      modifies this`log, cache
      ensures found == Lookup(old(cache.items), key, now)
      ensures Snapshot() == Load(old(Snapshot()), key, now)
    {
      if key in cache.items && Lapsed(cache.items[key], now) {
        log := log + [Expired(key)];
      }
      found := cache.Get(key, now);
    }

    method FailSaga(def: Definition<W>, saga: Saga, failedIndex: nat, cause: string, now: int)
      requires failedIndex < |def.steps|
      modifies this, cache
      ensures Snapshot() == Fail(old(Snapshot()), def, saga, failedIndex, cause, now)
    {
      var s := saga;
      var i: int := failedIndex;
      while i >= 0
        invariant i < |def.steps|
        invariant s.id == saga.id
        invariant Undo(Snapshot(), def, s, i, now) == Undo(old(Snapshot()), def, saga, failedIndex, now)
        invariant Snapshot() == old(Snapshot()).(world := world, log := log)
        decreases i
      {
        var step := def.steps[i];
        if step.compensate.Some? {
          var o := step.compensate.value(world, s.payload, s.id.entity, now);
          world := o.world;
          s := s.(payload := o.payload);
          log := log + [Undone(s.id, i)];
        }
        i := i - 1;
      }
      s := s.(status := Compensated);
      s := s.(error := cause, status := Failed);
      s := s.(currentStep := failedIndex, updatedAt := now);
      Persist(s, now);
      cache.Del(s.id);
      failed := failed + 1;
      RememberSummary(Summarize(s));
      log := log + [GaveUp(s.id, failedIndex, cause, now)];
    }

    method Persist(s: Saga, now: int)
      modifies cache
      ensures cache.items == Put(old(cache.items), s.id, s, STATE_TTL, now)
    {
      cache.Set(s.id, s, STATE_TTL, now);
    }

    /** The end of the step loop's body: the advanced instance is stored and listed. */
    method RecordStep(s: Saga, i: nat, now: int)
      modifies this`recent, this`log, cache
      ensures Snapshot() == Record(old(Snapshot()), world, s, i, now)
    {
      Persist(s, now);
      RememberSummary(Summarize(s));
      log := log + [Ran(s.id, i)];
    }

    method CompleteSaga(saga: Saga, now: int)
      modifies this`completed, this`recent, this`log, cache
      ensures Snapshot() == Complete(old(Snapshot()), saga, now)
    {
      var s := saga.(status := Completed, updatedAt := now, completedAt := Some(now));
      cache.Del(s.id);
      completed := completed + 1;
      RememberSummary(Summarize(s));
      log := log + [Finished(s.id, now)];
    }

    /** The step loop and the completion that follow a loaded or claimed instance. */
    method RunSteps(def: Definition<W>, saga: Saga, ev: Event, now: int)
      modifies this, cache
      ensures Snapshot() == Proceed(old(Snapshot()), def, saga, ev, now)
    {
      var s := saga;
      var i := s.currentStep;
      ghost var end := Advance(Snapshot(), def, s, ev, now);
      while i < |def.steps|
        invariant i == s.currentStep
        invariant Advance(Snapshot(), def, s, ev, now) == end
        decreases |def.steps| - i
      {
        var step := def.steps[i];
        if !step.trigger(ev) {
          break;
        }
        var o := step.action(world, s.payload, s.id.entity, ev, now);
        world := o.world;
        if o.err.Some? {
          log := log + [Broke(s.id, i, o.err.value)];
          FailSaga(def, s.(payload := o.payload), i, o.err.value, now);
          return;
        }
        s := s.(payload := o.payload, currentStep := i + 1, status := Active, updatedAt := now, error := "");
        RecordStep(s, i, now);
        i := i + 1;
      }
      if s.currentStep >= |def.steps| {
        CompleteSaga(s, now);
      }
    }

    /** The part of `handleDefinition` from the claim on; another delivery may have run since the missed load. */
    method ClaimAndRun(def: Definition<W>, entity: nat, ev: Event, now: int)
      modifies this, cache
      ensures Snapshot() == Claim(old(Snapshot()), def, entity, ev, now)
    {
      var s := NewSaga(Key(def.sagaType, entity), now);
      ghost var replaced := if s.id in cache.items then [Expired(s.id)] else [];
      var won := cache.SetNX(s.id, s, STATE_TTL, now);
      if !won {
        var _ := LoadKey(s.id, now);
        return;
      }
      started := started + 1;
      RememberSummary(Summarize(s));
      log := log + replaced + [Started(s.id, now)];
      assert Snapshot() == Start(old(Snapshot()), s, now);
      RunSteps(def, s, ev, now);
    }

    method HandleDefinition(def: Definition<W>, ev: Event, now: int)
      modifies this, cache
      ensures Snapshot() == SagaModel.HandleDefinition(old(Snapshot()), def, ev, now)
    {
      if ev.entity.None? {
        return;
      }
      var found := LoadKey(Key(def.sagaType, ev.entity.value), now);
      if found.None? {
        if |def.steps| == 0 || !def.steps[0].trigger(ev) {
          return;
        }
        ClaimAndRun(def, ev.entity.value, ev, now);
        return;
      }
      RunSteps(def, found.value, ev, now);
    }

    method HandleEvent(ev: Event, now: int)
      requires EventDedup.Consistent(Snapshot().ring)
      modifies this, cache
      ensures Snapshot() == SagaModel.HandleEvent(old(Snapshot()), defs, ev, now)
    {
      if ev.id == "" {
        return;
      }
      var dup := SeenEvent(ev.id, now);
      if dup {
        return;
      }
      ghost var admitted := Snapshot();
      for d := 0 to |defs|
        invariant Route(Snapshot(), defs, d, ev, now) == Route(admitted, defs, 0, ev, now)
      {
        if ev.subject in defs[d].subjects {
          HandleDefinition(defs[d], ev, now);
        }
      }
    }

    method SweepOnce(now: int) returns (keys: seq<Key>)
      requires Sweepable(cache.items, defs)
      modifies this, cache
      ensures forall key :: key in old(cache.items) <==> key in keys
      ensures Snapshot() == Sweep(old(Snapshot()), defs, timeoutAfter, keys, now)
    {
      keys := cache.Keys((key: Key) => true);
      for i := 0 to |keys|
        invariant Sweepable(cache.items, defs)
        invariant Sweep(Snapshot(), defs, timeoutAfter, keys[i..], now)
               == Sweep(old(Snapshot()), defs, timeoutAfter, keys, now)
      {
        ghost var before := Snapshot();
        ReapKeepsSweepable(before, defs, timeoutAfter, keys[i], now);
        assert keys[i..][1..] == keys[i + 1..];
        var found := LoadKey(keys[i], now);
        if found.None? || found.value.status != Active {
          continue;
        }
        var s := found.value;
        if now - s.updatedAt < timeoutAfter {
          continue;
        }
        var d := Find(defs, s.id.sagaType);
        if d.None? {
          continue;
        }
        FailSaga(defs[d.value], s, s.currentStep, TIMEOUT_CAUSE, now);
      }
    }

    /** Recent summaries, newest first, at most one per saga. `idx` tells where in the ring each one stands. */
    method Search(sagaType: string, status: Option<Status>, requested: int) returns (out: seq<Summary>,
                  ghost idx: seq<nat>)
      ensures SearchResult(recent, sagaType, status, requested, out, idx)
    {
      var limit := requested;
      if limit <= 0 || limit > RECENT_LIMIT {
        limit := RECENT_LIMIT;
      }
      out, idx := [], [];
      var seenIds: set<Key> := {};
      var i := |recent| - 1;
      while i >= 0 && |out| < limit
        invariant -1 <= i < |recent| && |out| <= limit
        invariant Picks(recent, sagaType, status, out, idx)
        invariant forall k :: 0 <= k < |idx| ==> i < idx[k]
        invariant forall j :: i < j < |recent| && Matches(recent[j], sagaType, status) ==> recent[j].id in seenIds
        invariant forall id :: id in seenIds ==>
                    exists j :: i < j < |recent| && recent[j].id == id && Matches(recent[j], sagaType, status)
        invariant forall j :: i < j && LatestMatch(recent, sagaType, status, j) ==> j in idx
        decreases i
      {
        var s := recent[i];
        if s.id !in seenIds && Matches(s, sagaType, status) {
          assert LatestMatch(recent, sagaType, status, i);
          seenIds := seenIds + {s.id};
          out := out + [s];
          idx := idx + [i];
        }
        i := i - 1;
      }
    }
  }

  function SearchLimit(requested: int): int {
    if requested <= 0 || requested > RECENT_LIMIT then RECENT_LIMIT else requested
  }

  /** The type and status filters; an empty type and no status match everything. */
  predicate Matches(s: Summary, sagaType: string, status: Option<Status>) {
    (sagaType == "" || s.id.sagaType == sagaType) && (status.None? || s.status == status.value)
  }

  /** Position `i` holds the newest entry of its saga among those that pass the filters. */
  ghost predicate LatestMatch(recent: seq<Summary>, sagaType: string, status: Option<Status>, i: int) {
    && 0 <= i < |recent| && Matches(recent[i], sagaType, status)
    && forall j :: i < j < |recent| && recent[j].id == recent[i].id ==> !Matches(recent[j], sagaType, status)
  }

  ghost predicate Picks(recent: seq<Summary>, sagaType: string, status: Option<Status>, out: seq<Summary>,
                        idx: seq<nat>)
  {
    && |idx| == |out|
    && (forall k :: 0 <= k < |idx| ==> LatestMatch(recent, sagaType, status, idx[k]) && out[k] == recent[idx[k]])
    && (forall k, l :: 0 <= k < l < |idx| ==> idx[k] > idx[l])
  }

  /** What `Search` returns: newest first, the newest matching entry of every saga, as many as the limit allows. */
  ghost predicate SearchResult(recent: seq<Summary>, sagaType: string, status: Option<Status>, requested: int,
                               out: seq<Summary>, idx: seq<nat>)
  {
    && |out| <= SearchLimit(requested)
    && Picks(recent, sagaType, status, out, idx)
    && forall i :: LatestMatch(recent, sagaType, status, i) && i !in idx ==>
         |out| == SearchLimit(requested) && forall k :: 0 <= k < |idx| ==> i < idx[k]
  }

  /** The result holds each saga at most once. */
  lemma PicksDistinctSagas(recent: seq<Summary>, sagaType: string, status: Option<Status>, out: seq<Summary>,
                           idx: seq<nat>)
    requires Picks(recent, sagaType, status, out, idx)
    ensures forall k, l :: 0 <= k < l < |out| ==> out[k].id != out[l].id
  {
    forall k, l | 0 <= k < l < |out| ensures out[k].id != out[l].id {
      assert LatestMatch(recent, sagaType, status, idx[l]);
    }
  }

  ghost predicate Latest(recent: seq<Summary>, i: int) {
    0 <= i < |recent| && forall j :: i < j < |recent| ==> recent[j].id != recent[i].id
  }

  /** Without a status filter the entry shown for a saga is its newest. */
  lemma UnfilteredIsLatest(recent: seq<Summary>, sagaType: string, i: int)
    requires LatestMatch(recent, sagaType, None, i)
    ensures Latest(recent, i)
  {
    assert forall j :: i < j < |recent| && recent[j].id == recent[i].id ==> Matches(recent[j], sagaType, None);
  }

  predicate Listed(out: seq<Summary>, id: Key) {
    exists k :: 0 <= k < |out| && out[k].id == id
  }

  /** A search in plain words: at most the limit, between 1 and 100 or else 100; only entries of the type and in the
      status asked for, an empty type and no status asking for all; newest first; and every saga with such an entry,
      unless the limit is reached by newer ones. */
  lemma SearchInWords(recent: seq<Summary>, sagaType: string, status: Option<Status>, requested: int,
                      out: seq<Summary>, idx: seq<nat>)
    requires SearchResult(recent, sagaType, status, requested, out, idx)
    ensures var limit := if 1 <= requested <= 100 then requested else 100;
            && |out| <= limit
            && (forall k :: 0 <= k < |out| ==> (sagaType != "" ==> out[k].id.sagaType == sagaType)
                                               && (status.Some? ==> out[k].status == status.value))
            && (forall k, l :: 0 <= k < l < |out| ==> idx[k] > idx[l])
            && (forall i :: 0 <= i < |recent| && (sagaType == "" || recent[i].id.sagaType == sagaType)
                            && (status.None? || recent[i].status == status.value) ==>
                  |out| == limit || Listed(out, recent[i].id))
  {
    forall i | 0 <= i < |recent| && (sagaType == "" || recent[i].id.sagaType == sagaType)
               && (status.None? || recent[i].status == status.value)
      ensures |out| == SearchLimit(requested) || Listed(out, recent[i].id)
    {
      assert Matches(recent[i], sagaType, status);
      var j := NewestMatch(recent, sagaType, status, i);
      if j in idx {
        var k :| 0 <= k < |idx| && idx[k] == j;
        assert out[k].id == recent[i].id;
      }
    }
    assert SearchLimit(requested) == if 1 <= requested <= 100 then requested else 100;
  }

  /** The newest entry of the saga of entry `i` that passes the filters. */
  lemma {:induction false} NewestMatch(recent: seq<Summary>, sagaType: string, status: Option<Status>, i: nat)
    returns (j: nat)
    requires i < |recent| && Matches(recent[i], sagaType, status)
    ensures LatestMatch(recent, sagaType, status, j) && recent[j].id == recent[i].id
    decreases |recent| - i
  {
    if k :| i < k < |recent| && recent[k].id == recent[i].id && Matches(recent[k], sagaType, status) {
      j := NewestMatch(recent, sagaType, status, k);
    } else {
      j := i;
    }
  }
}
