/** Consequences for whole runs: sweeping often enough means no instance is ever lost to its TTL; a redelivered
    event changes nothing; and what every step keeps, every run keeps. */
module SagaRuns {
  import opened Clock
  import opened TimedCache
  import opened SagaModel
  import opened SagaTrace
  import EventDedup

  // ----- What a sweep relies on -----

  /** Storing an advanced instance keeps the store safe to sweep exactly when the instance still has a step to wait
      for. So a crash after the last step is stored and before the state key is removed leaves an entry that makes a
      later sweep index past the end of the steps; runs here contain no such crash. */
  lemma StoredStepSweepableExactly<W>(st: State<W>, world: W, defs: seq<Definition<W>>, d: nat, s: Saga, i: nat,
                                      now: int)
    requires DistinctTypes(defs) && d < |defs| && s.id.sagaType == defs[d].sagaType && Sweepable(st.store, defs)
    ensures Sweepable(Record(st, world, s, i, now).store, defs) <==> s.currentStep < |defs[d].steps|
  {
    FindOwn(defs, d);
    assert Record(st, world, s, i, now).store[s.id].value == s;
  }

  // ----- Timely sweeps -----

  /** At most STATE_TTL - timeout passes between the last sweep and any later step, and each sweep lists every key. */
  ghost predicate Timely<W>(st: State<W>, defs: seq<Definition<W>>, timeout: int, inputs: seq<Input>, lastSweep: int)
    requires DistinctTypes(defs) && Inv(st, defs)
    decreases |inputs|
  {
    if inputs == [] then true
    else
      InvSweepable(st, defs);
      ApplyKeepsInv(st, defs, timeout, inputs[0]);
      && lastSweep <= inputs[0].now <= lastSweep + STATE_TTL - timeout
      && (inputs[0].SweepAt? ==> forall key :: key in st.store ==> key in inputs[0].keys)
      && Timely(Apply(st, defs, timeout, inputs[0]), defs, timeout, inputs[1..],
                if inputs[0].SweepAt? then inputs[0].now else lastSweep)
  }

  /** Every stored instance was updated less than `timeout` before the last sweep, or after it. */
  ghost predicate Recent<W>(st: State<W>, timeout: int, lastSweep: int) {
    forall key :: key in st.store ==> lastSweep - st.store[key].value.updatedAt < timeout
  }

  /** Then no entry has reached its expiry instant at any time Timely allows. */
  lemma RecentNotExpired<W>(st: State<W>, defs: seq<Definition<W>>, timeout: int, lastSweep: int, now: int)
    requires StoreOK(st, defs) && Recent(st, timeout, lastSweep)
    requires now <= lastSweep + STATE_TTL - timeout
    ensures forall key :: key in st.store ==> !Lapsed(st.store[key], now) && !Reclaimable(st.store[key], now)
  {
    forall key | key in st.store ensures !Lapsed(st.store[key], now) && !Reclaimable(st.store[key], now) {
      assert StoredWell(defs, key, st.store[key]);
    }
  }

  ghost predicate NoLoss<W>(st: State<W>, st': State<W>) {
    Count(st'.log).expiries == Count(st.log).expiries
  }

  lemma {:induction false} RouteTimely<W>(st: State<W>, defs: seq<Definition<W>>, d: nat, ev: Event, now: int,
                                          timeout: int, lastSweep: int)
    requires DistinctTypes(defs) && Inv(st, defs) && d <= |defs| && timeout > 0
    requires Recent(st, timeout, lastSweep) && lastSweep <= now <= lastSweep + STATE_TTL - timeout
    ensures NoLoss(st, Route(st, defs, d, ev, now))
    ensures Recent(Route(st, defs, d, ev, now), timeout, lastSweep)
    decreases |defs| - d
  {
    if d < |defs| {
      if ev.subject in defs[d].subjects && ev.entity.Some? {
        var key := Key(defs[d].sagaType, ev.entity.value);
        FindOwn(defs, d);
        InvSettled(st, defs, d, key);
        RecentNotExpired(st, defs, timeout, lastSweep, now);
        HandleDefinitionTrace(st, defs, d, ev, now);
        var st' := HandleDefinition(st, defs[d], ev, now);
        SettledInv(st, st', defs, d, key);
        RenewedStaysRecent(st, st', key, timeout, lastSweep, now);
        RouteTimely(st', defs, d + 1, ev, now, timeout, lastSweep);
      } else {
        RouteTimely(st, defs, d + 1, ev, now, timeout, lastSweep);
      }
    }
  }

  /** What sweeping `keys` leaves: nothing new or changed, and of the listed instances only recent ones. */
  ghost predicate Swept<W>(st: State<W>, st': State<W>, timeout: int, keys: seq<Key>, now: int) {
    && NoLoss(st, st')
    && (forall key :: key in st'.store ==> key in st.store && st'.store[key] == st.store[key])
    && (forall key :: key in st'.store && key in keys ==> now - st.store[key].value.updatedAt < timeout)
  }

  lemma ReapTimely<W>(st: State<W>, defs: seq<Definition<W>>, timeout: int, key: Key, now: int)
    requires DistinctTypes(defs) && Inv(st, defs) && Sweepable(st.store, defs)
    requires forall k :: k in st.store ==> !Lapsed(st.store[k], now)
    ensures var st' := Reap(st, defs, timeout, key, now);
            && Swept(st, st', timeout, [key], now) && Inv(st', defs) && Sweepable(st'.store, defs)
            && forall k :: k in st'.store ==> !Lapsed(st'.store[k], now)
  {
    ReapKeepsInv(st, defs, timeout, key, now);
    ReapKeepsSweepable(st, defs, timeout, key, now);
  }

  lemma SweptThenSwept<W>(st: State<W>, mid: State<W>, end: State<W>, timeout: int, keys: seq<Key>, now: int)
    requires keys != [] && Swept(st, mid, timeout, [keys[0]], now) && Swept(mid, end, timeout, keys[1..], now)
    ensures Swept(st, end, timeout, keys, now)
  {
    assert keys == [keys[0]] + keys[1..];
  }

  /** A sweep reaps every listed instance that is `timeout` or more behind, so only recent ones remain. */
  lemma {:induction false} SweepTimely<W>(st: State<W>, defs: seq<Definition<W>>, timeout: int, keys: seq<Key>,
                                          now: int)
    requires DistinctTypes(defs) && Inv(st, defs) && Sweepable(st.store, defs)
    requires forall key :: key in st.store ==> !Lapsed(st.store[key], now)
    ensures Swept(st, Sweep(st, defs, timeout, keys, now), timeout, keys, now)
    decreases |keys|
  {
    if keys != [] {
      var mid := Reap(st, defs, timeout, keys[0], now);
      ReapTimely(st, defs, timeout, keys[0], now);
      SweepTimely(mid, defs, timeout, keys[1..], now);
      SweptThenSwept(st, mid, Sweep(mid, defs, timeout, keys[1..], now), timeout, keys, now);
    }
  }

  /** A step that only concerns `key` and renews it, if it keeps it, leaves every instance recent. */
  lemma RenewedStaysRecent<W>(st: State<W>, st': State<W>, key: Key, timeout: int, lastSweep: int, now: int)
    requires OnlyAbout(st, st', key) && Renewed(st, st', key, now)
    requires Recent(st, timeout, lastSweep) && lastSweep <= now && timeout > 0
    ensures Recent(st', timeout, lastSweep)
  {
  }

  lemma ApplyTimely<W>(st: State<W>, defs: seq<Definition<W>>, timeout: int, input: Input, lastSweep: int)
    requires DistinctTypes(defs) && Inv(st, defs) && Sweepable(st.store, defs) && timeout > 0
    requires Recent(st, timeout, lastSweep) && lastSweep <= input.now <= lastSweep + STATE_TTL - timeout
    requires input.SweepAt? ==> forall key :: key in st.store ==> key in input.keys
    ensures NoLoss(st, Apply(st, defs, timeout, input))
    ensures Recent(Apply(st, defs, timeout, input), timeout, if input.SweepAt? then input.now else lastSweep)
  {
    RecentNotExpired(st, defs, timeout, lastSweep, input.now);
    match input
    case Deliver(ev, now) =>
      if ev.id != "" && !EventDedup.Duplicate(st.ring, ev.id) {
        var admitted := st.(ring := EventDedup.Admit(st.ring, ev.id, now));
        RingIrrelevant(st, admitted, defs);
        RouteTimely(admitted, defs, 0, ev, now, timeout, lastSweep);
      }
    case Race(d, entity, ev, now) =>
      if d < |defs| && StartsWith(defs[d], ev) {
        FindOwn(defs, d);
        InvSettled(st, defs, d, Key(defs[d].sagaType, entity));
        ClaimTrace(st, defs, d, entity, ev, now);
        var key := Key(defs[d].sagaType, entity);
        RenewedStaysRecent(st, Claim(st, defs[d], entity, ev, now), key, timeout, lastSweep, now);
      }
    case SweepAt(keys, now) =>
      SweepTimely(st, defs, timeout, keys, now);
  }

  /** Main result: if sweeps come at most STATE_TTL - timeout apart, no instance ever expires, in any run; so every
      instance started is completed, failed (and compensated), or still stored. */
  lemma {:induction false} TimelySweepsLoseNothing<W>(st: State<W>, defs: seq<Definition<W>>, timeout: int,
                                                      inputs: seq<Input>, lastSweep: int)
    requires DistinctTypes(defs) && Inv(st, defs) && timeout > 0
    requires Recent(st, timeout, lastSweep) && Timely(st, defs, timeout, inputs, lastSweep)
    ensures NoLoss(st, Run(st, defs, timeout, inputs))
    ensures Count(st.log).expiries == 0 ==>
              var end := Run(st, defs, timeout, inputs);
              end.started == end.completed + end.failed + |end.store|
    decreases |inputs|
  {
    EveryRunAccounted(st, defs, timeout, inputs);
    if inputs != [] {
      InvSweepable(st, defs);
      ApplyKeepsInv(st, defs, timeout, inputs[0]);
      ApplyTimely(st, defs, timeout, inputs[0], lastSweep);
      TimelySweepsLoseNothing(Apply(st, defs, timeout, inputs[0]), defs, timeout, inputs[1..],
                              if inputs[0].SweepAt? then inputs[0].now else lastSweep);
    }
  }

  // ----- Redelivery -----

  /** The event IDs a run offers to the dedup ring. */
  function Arrivals(inputs: seq<Input>): seq<EventDedup.Arrival> {
    if inputs == [] then []
    else (if inputs[0].Deliver? && inputs[0].ev.id != ""
          then [EventDedup.Arrival(inputs[0].ev.id, inputs[0].now)] else []) + Arrivals(inputs[1..])
  }

  lemma ApplyRing<W>(st: State<W>, defs: seq<Definition<W>>, timeout: int, input: Input)
    requires DistinctTypes(defs) && Inv(st, defs) && Sweepable(st.store, defs)
    ensures Apply(st, defs, timeout, input).ring ==
            if input.Deliver? && input.ev.id != "" then EventDedup.Admit(st.ring, input.ev.id, input.now) else st.ring
  {
    match input
    case Deliver(ev, now) =>
      if ev.id != "" && !EventDedup.Duplicate(st.ring, ev.id) {
        var admitted := st.(ring := EventDedup.Admit(st.ring, ev.id, now));
        RingIrrelevant(st, admitted, defs);
        RouteKeepsInv(admitted, defs, 0, ev, now);
      }
    case Race(d, entity, ev, now) =>
      if d < |defs| && StartsWith(defs[d], ev) {
        FindOwn(defs, d);
        InvSettled(st, defs, d, Key(defs[d].sagaType, entity));
        ClaimTrace(st, defs, d, entity, ev, now);
      }
    case SweepAt(keys, now) =>
      SweepKeepsInv(st, defs, timeout, keys, now);
  }

  lemma {:induction false} RunRing<W>(st: State<W>, defs: seq<Definition<W>>, timeout: int, inputs: seq<Input>)
    requires DistinctTypes(defs) && Inv(st, defs)
    ensures Run(st, defs, timeout, inputs).ring == EventDedup.Deliver(st.ring, Arrivals(inputs))
    ensures EventDedup.Consistent(st.ring) ==> EventDedup.Consistent(Run(st, defs, timeout, inputs).ring)
    decreases |inputs|
  {
    if inputs != [] {
      InvSweepable(st, defs);
      ApplyKeepsInv(st, defs, timeout, inputs[0]);
      ApplyRing(st, defs, timeout, inputs[0]);
      if inputs[0].Deliver? && EventDedup.Consistent(st.ring) {
        EventDedup.AdmitConsistent(st.ring, inputs[0].ev.id, inputs[0].now);
      }
      RunRing(Apply(st, defs, timeout, inputs[0]), defs, timeout, inputs[1..]);
      if inputs[0].Deliver? && inputs[0].ev.id != "" {
        var head := EventDedup.Arrival(inputs[0].ev.id, inputs[0].now);
        assert Arrivals(inputs)[0] == head && Arrivals(inputs)[1..] == Arrivals(inputs[1..]);
      } else {
        assert Arrivals(inputs) == Arrivals(inputs[1..]);
      }
    }
  }

  /** Every input comes at the deadline or before. */
  predicate AllBy(inputs: seq<Input>, deadline: int) {
    forall i :: 0 <= i < |inputs| ==> inputs[i].now <= deadline
  }

  lemma {:induction false} ArrivalsWithin(inputs: seq<Input>, deadline: int)
    requires AllBy(inputs, deadline)
    ensures forall i :: 0 <= i < |Arrivals(inputs)| ==> Arrivals(inputs)[i].now <= deadline
  {
    if inputs != [] {
      ArrivalsWithin(inputs[1..], deadline);
    }
  }

  /** Main result: once an event has been handled, a second copy with the same ID, arriving within ten minutes and
      before 4096 further new IDs, changes nothing at all, whatever other deliveries, races and sweeps come between.
      The outbox publishes every event twice under one ID; this is why it drives the sagas once. */
  lemma {:induction false} SecondCopyDoesNothing<W>(st: State<W>, defs: seq<Definition<W>>, timeout: int, ev: Event,
                                                    t: int, between: seq<Input>, copy: Event, now: int)
    requires DistinctTypes(defs) && Inv(st, defs) && EventDedup.Consistent(st.ring)
    requires ev.id != "" && copy.id == ev.id && !EventDedup.Duplicate(st.ring, ev.id)
    requires AllBy(between, t + 10 * MINUTE)
    requires EventDedup.Count(EventDedup.Fresh(EventDedup.Admit(st.ring, ev.id, t), Arrivals(between))) < 4096
    ensures Inv(HandleEvent(st, defs, ev, t), defs)
    ensures var later := Run(HandleEvent(st, defs, ev, t), defs, timeout, between);
            HandleEvent(later, defs, copy, now) == later
  {
    InvSweepable(st, defs);
    ApplyKeepsInv(st, defs, timeout, Deliver(ev, t));
    ApplyRing(st, defs, timeout, Deliver(ev, t));
    RunRing(HandleEvent(st, defs, ev, t), defs, timeout, between);
    ArrivalsWithin(between, t + EventDedup.WINDOW);
    EventDedup.RedeliveryDropped(st.ring, ev.id, t, Arrivals(between));
  }

  // ----- Lifting facts about steps to facts about runs -----

  /** No action and no compensator of `def` leaves the set of worlds described by `p`. */
  ghost predicate Keeps<W(!new)>(p: W -> bool, def: Definition<W>) {
    && (forall i, w, payload, entity, ev, now :: 0 <= i < |def.steps| && p(w) ==>
         p(def.steps[i].action(w, payload, entity, ev, now).world))
    && (forall i, w, payload, entity, now :: 0 <= i < |def.steps| && def.steps[i].compensate.Some? && p(w) ==>
         p(def.steps[i].compensate.value(w, payload, entity, now).world))
  }

  lemma {:induction false} UndoKeeps<W(!new)>(p: W -> bool, st: State<W>, def: Definition<W>, s: Saga, i: int, now: int)
    requires i < |def.steps| && Keeps(p, def) && p(st.world)
    ensures p(Undo(st, def, s, i, now).0.world)
    decreases i
  {
    if i >= 0 {
      if def.steps[i].compensate.None? {
        UndoKeeps(p, st, def, s, i - 1, now);
      } else {
        var o := def.steps[i].compensate.value(st.world, s.payload, s.id.entity, now);
        var st1 := st.(world := o.world, log := st.log + [Undone(s.id, i)]);
        UndoKeeps(p, st1, def, s.(payload := o.payload), i - 1, now);
      }
    }
  }

  lemma {:induction false} AdvanceKeeps<W(!new)>(p: W -> bool, st: State<W>, def: Definition<W>, s: Saga, ev: Event,
                                                 now: int)
    requires Keeps(p, def) && p(st.world)
    ensures p(Advance(st, def, s, ev, now).st.world)
    decreases |def.steps| - s.currentStep
  {
    if s.currentStep < |def.steps| && def.steps[s.currentStep].trigger(ev) {
      var i := s.currentStep;
      var o := def.steps[i].action(st.world, s.payload, s.id.entity, ev, now);
      if o.err.Some? {
        var broken := st.(world := o.world, log := st.log + [Broke(s.id, i, o.err.value)]);
        UndoKeeps(p, broken, def, s.(payload := o.payload), i, now);
      } else {
        var s' := AfterStep(s, o.payload, now);
        AdvanceKeeps(p, Record(st, o.world, s', i, now), def, s', ev, now);
      }
    }
  }

  lemma ClaimKeeps<W(!new)>(p: W -> bool, st: State<W>, def: Definition<W>, entity: nat, ev: Event, now: int)
    requires Keeps(p, def) && p(st.world)
    ensures p(Claim(st, def, entity, ev, now).world)
  {
    var s := NewSaga(Key(def.sagaType, entity), now);
    AdvanceKeeps(p, Start(st, s, now), def, s, ev, now);
  }

  lemma {:induction false} RouteKeeps<W(!new)>(p: W -> bool, st: State<W>, defs: seq<Definition<W>>, d: nat,
                                               ev: Event, now: int)
    requires d <= |defs| && p(st.world) && forall i :: 0 <= i < |defs| ==> Keeps(p, defs[i])
    ensures p(Route(st, defs, d, ev, now).world)
    decreases |defs| - d
  {
    if d < |defs| {
      if ev.subject in defs[d].subjects {
        if ev.entity.Some? {
          var key := Key(defs[d].sagaType, ev.entity.value);
          var loaded := Load(st, key, now);
          var found := Lookup(st.store, key, now);
          if found.Some? {
            AdvanceKeeps(p, loaded, defs[d], found.value, ev, now);
          }
          ClaimKeeps(p, loaded, defs[d], ev.entity.value, ev, now);
        }
        RouteKeeps(p, HandleDefinition(st, defs[d], ev, now), defs, d + 1, ev, now);
      } else {
        RouteKeeps(p, st, defs, d + 1, ev, now);
      }
    }
  }

  lemma {:induction false} SweepKeeps<W(!new)>(p: W -> bool, st: State<W>, defs: seq<Definition<W>>, timeout: int,
                                               keys: seq<Key>, now: int)
    requires Sweepable(st.store, defs) && p(st.world) && forall i :: 0 <= i < |defs| ==> Keeps(p, defs[i])
    ensures p(Sweep(st, defs, timeout, keys, now).world)
    decreases |keys|
  {
    if keys != [] {
      var loaded := Load(st, keys[0], now);
      var found := Lookup(st.store, keys[0], now);
      if found.Some? && Find(defs, found.value.id.sagaType).Some? {
        var s := found.value;
        UndoKeeps(p, loaded, defs[Find(defs, s.id.sagaType).value], s, s.currentStep, now);
      }
      ReapKeepsSweepable(st, defs, timeout, keys[0], now);
      SweepKeeps(p, Reap(st, defs, timeout, keys[0], now), defs, timeout, keys[1..], now);
    }
  }

  lemma ApplyKeeps<W(!new)>(p: W -> bool, st: State<W>, defs: seq<Definition<W>>, timeout: int, input: Input)
    requires Sweepable(st.store, defs)
    requires p(st.world) && forall i :: 0 <= i < |defs| ==> Keeps(p, defs[i])
    ensures p(Apply(st, defs, timeout, input).world)
  {
    match input
    case Deliver(ev, now) =>
      var admitted := st.(ring := EventDedup.Admit(st.ring, ev.id, now));
      RouteKeeps(p, admitted, defs, 0, ev, now);
    case Race(d, entity, ev, now) =>
      if d < |defs| {
        ClaimKeeps(p, st, defs[d], entity, ev, now);
      }
    case SweepAt(keys, now) =>
      SweepKeeps(p, st, defs, timeout, keys, now);
  }

  /** A property of the tables that every registered step keeps holds after every run. */
  lemma {:induction false} RunKeeps<W(!new)>(p: W -> bool, st: State<W>, defs: seq<Definition<W>>, timeout: int,
                                             inputs: seq<Input>)
    requires DistinctTypes(defs) && Inv(st, defs)
    requires p(st.world) && forall i :: 0 <= i < |defs| ==> Keeps(p, defs[i])
    ensures p(Run(st, defs, timeout, inputs).world)
    decreases |inputs|
  {
    if inputs != [] {
      InvSweepable(st, defs);
      ApplyKeepsInv(st, defs, timeout, inputs[0]);
      ApplyKeeps(p, st, defs, timeout, inputs[0]);
      RunKeeps(p, Apply(st, defs, timeout, inputs[0]), defs, timeout, inputs[1..]);
    }
  }
}
