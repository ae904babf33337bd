/** What one event does to the instances it reaches, and what the atomic-step assumption keeps out. */
module SagaEvents {
  import opened Wrappers
  import opened Clock
  import opened TimedCache
  import opened SagaModel
  import opened SagaTrace
  import opened SagaRecent
  import EventDedup
  import SagaRuns

  // ----- Events that move nothing -----

  /** The definition ignores the event: it does not subscribe, or the event names no entity, or the instance it
      reaches is stored and waits for another event, or there is none and the event does not start one. */
  ghost predicate Idle<W>(st: State<W>, def: Definition<W>, ev: Event, now: int) {
    ev.subject in def.subjects && ev.entity.Some? ==>
      var key := Key(def.sagaType, ev.entity.value);
      if key in st.store then
        && !Lapsed(st.store[key], now) && st.store[key].value.currentStep < |def.steps|
        && !def.steps[st.store[key].value.currentStep].trigger(ev)
      else !StartsWith(def, ev)
  }

  lemma {:induction false} UndoGrowsLog<W>(st: State<W>, def: Definition<W>, s: Saga, i: int, now: int)
    requires i < |def.steps|
    ensures |Undo(st, def, s, i, now).0.log| >= |st.log|
    decreases i
  {
    if i >= 0 {
      if def.steps[i].compensate.None? {
        UndoGrowsLog(st, def, s, i - 1, now);
      } else {
        var o := def.steps[i].compensate.value(st.world, s.payload, s.id.entity, now);
        var st1 := st.(world := o.world, log := st.log + [Undone(s.id, i)]);
        UndoGrowsLog(st1, def, s.(payload := o.payload), i - 1, now);
      }
    }
  }

  lemma {:induction false} AdvanceGrowsLog<W>(st: State<W>, def: Definition<W>, s: Saga, ev: Event, now: int)
    ensures |Advance(st, def, s, ev, now).st.log| >= |st.log|
    ensures s.currentStep < |def.steps| && def.steps[s.currentStep].trigger(ev) ==>
              |Advance(st, def, s, ev, now).st.log| > |st.log|
    decreases |def.steps| - s.currentStep
  {
    if s.currentStep < |def.steps| && def.steps[s.currentStep].trigger(ev) {
      var i := s.currentStep;
      var o := def.steps[i].action(st.world, s.payload, s.id.entity, ev, now);
      if o.err.Some? {
        var broken := st.(world := o.world, log := st.log + [Broke(s.id, i, o.err.value)]);
        UndoGrowsLog(broken, def, s.(payload := o.payload), i, now);
      } else {
        var s' := AfterStep(s, o.payload, now);
        AdvanceGrowsLog(Record(st, o.world, s', i, now), def, s', ev, now);
      }
    }
  }

  /** One definition's reaction: none at all if it ignores the event, otherwise something is logged. */
  lemma HandleIdleExactly<W>(st: State<W>, def: Definition<W>, ev: Event, now: int)
    requires ev.subject in def.subjects
    ensures if Idle(st, def, ev, now) then HandleDefinition(st, def, ev, now) == st
            else |HandleDefinition(st, def, ev, now).log| > |st.log|
  {
    if ev.entity.Some? {
      var key := Key(def.sagaType, ev.entity.value);
      var found := Lookup(st.store, key, now);
      if found.Some? {
        AdvanceGrowsLog(st, def, found.value, ev, now);
      } else if StartsWith(def, ev) {
        var loaded, s := Load(st, key, now), NewSaga(key, now);
        AdvanceGrowsLog(Start(loaded, s, now), def, s, ev, now);
      }
    }
  }

  lemma {:induction false} RouteIdleExactly<W>(st: State<W>, defs: seq<Definition<W>>, d: nat, ev: Event, now: int)
    requires d <= |defs|
    ensures if forall i :: d <= i < |defs| ==> Idle(st, defs[i], ev, now) then Route(st, defs, d, ev, now) == st
            else |Route(st, defs, d, ev, now).log| > |st.log|
    decreases |defs| - d
  {
    if d < |defs| {
      if ev.subject in defs[d].subjects {
        HandleIdleExactly(st, defs[d], ev, now);
        RouteIdleExactly(HandleDefinition(st, defs[d], ev, now), defs, d + 1, ev, now);
      } else {
        RouteIdleExactly(st, defs, d + 1, ev, now);
      }
    }
  }

  /** Main result: a new event changes nothing but the ring, which now holds its ID, if and only if every definition
      ignores it. */
  lemma EventIdleExactly<W>(st: State<W>, defs: seq<Definition<W>>, ev: Event, now: int)
    requires ev.id != "" && !EventDedup.Duplicate(st.ring, ev.id) && EventDedup.Consistent(st.ring)
    ensures var admitted := st.(ring := EventDedup.Admit(st.ring, ev.id, now));
            && EventDedup.Duplicate(admitted.ring, ev.id)
            && (HandleEvent(st, defs, ev, now) == admitted <==>
                  forall i :: 0 <= i < |defs| ==> Idle(st, defs[i], ev, now))
  {
    var admitted := st.(ring := EventDedup.Admit(st.ring, ev.id, now));
    EventDedup.AdmitConsistent(st.ring, ev.id, now);
    RouteIdleExactly(admitted, defs, 0, ev, now);
    assert forall i :: 0 <= i < |defs| ==> (Idle(admitted, defs[i], ev, now) <==> Idle(st, defs[i], ev, now));
  }

  // ----- Events that move an instance -----

  /** The stored entry and the history of `key` are the same in both states. */
  ghost predicate SameAt<W>(st: State<W>, st': State<W>, key: Key) {
    && (key in st'.store <==> key in st.store)
    && (key in st.store ==> st'.store[key] == st.store[key])
    && Project(st'.log, key) == Project(st.log, key)
  }

  lemma OtherDefinition<W>(st: State<W>, defs: seq<Definition<W>>, d: nat, ev: Event, now: int, key: Key)
    requires DistinctTypes(defs) && Inv(st, defs) && d < |defs| && defs[d].sagaType != key.sagaType
    ensures Inv(HandleDefinition(st, defs[d], ev, now), defs) && SameAt(st, HandleDefinition(st, defs[d], ev, now), key)
  {
    if ev.entity.Some? {
      var own := Key(defs[d].sagaType, ev.entity.value);
      FindOwn(defs, d);
      InvSettled(st, defs, d, own);
      HandleDefinitionTrace(st, defs, d, ev, now);
      SettledInv(st, HandleDefinition(st, defs[d], ev, now), defs, d, own);
    }
  }

  lemma OwnDefinition<W>(st: State<W>, defs: seq<Definition<W>>, d: nat, ev: Event, now: int)
    requires DistinctTypes(defs) && Inv(st, defs) && d < |defs| && ev.entity.Some?
    ensures Inv(HandleDefinition(st, defs[d], ev, now), defs)
  {
    var own := Key(defs[d].sagaType, ev.entity.value);
    FindOwn(defs, d);
    InvSettled(st, defs, d, own);
    HandleDefinitionTrace(st, defs, d, ev, now);
    SettledInv(st, HandleDefinition(st, defs[d], ev, now), defs, d, own);
  }

  lemma {:induction false} RouteOthers<W>(st: State<W>, defs: seq<Definition<W>>, d: nat, ev: Event, now: int, key: Key)
    requires DistinctTypes(defs) && Inv(st, defs) && d <= |defs|
    requires forall i :: d <= i < |defs| ==> defs[i].sagaType != key.sagaType
    ensures SameAt(st, Route(st, defs, d, ev, now), key)
    decreases |defs| - d
  {
    if d < |defs| {
      if ev.subject in defs[d].subjects {
        OtherDefinition(st, defs, d, ev, now, key);
        RouteOthers(HandleDefinition(st, defs[d], ev, now), defs, d + 1, ev, now, key);
      } else {
        RouteOthers(st, defs, d + 1, ev, now, key);
      }
    }
  }

  /** Where routing leaves the instance of definition `d` that the event names. */
  ghost predicate MovedOrSame<W>(st: State<W>, st': State<W>, def: Definition<W>, key: Key, ev: Event)
    requires key in st.store && st.store[key].value.currentStep < |def.steps|
  {
    var i := st.store[key].value.currentStep;
    if ev.subject in def.subjects && def.steps[i].trigger(ev) then Moved(st', key, i) else SameAt(st, st', key)
  }

  /** The event names an instance that is stored and waits for a step. */
  ghost predicate Waiting<W>(st: State<W>, def: Definition<W>, ev: Event, now: int) {
    ev.entity.Some? && var key := Key(def.sagaType, ev.entity.value);
    key in st.store && !Lapsed(st.store[key], now) && st.store[key].value.currentStep < |def.steps|
  }

  /** What the instance's own definition does. */
  lemma OwnMoves<W>(st: State<W>, defs: seq<Definition<W>>, d: nat, ev: Event, now: int) returns (mid: State<W>)
    requires DistinctTypes(defs) && Inv(st, defs) && Truthful(st) && d < |defs| && Waiting(st, defs[d], ev, now)
    ensures Route(st, defs, d, ev, now) == Route(mid, defs, d + 1, ev, now) && Inv(mid, defs)
    ensures MovedOrSame(st, mid, defs[d], Key(defs[d].sagaType, ev.entity.value), ev)
  {
    mid := st;
    if ev.subject in defs[d].subjects {
      var key := Key(defs[d].sagaType, ev.entity.value);
      assert TruthfulAt(st, key);
      ProceedTruthful(st, defs[d], st.store[key].value, ev, now);
      OwnDefinition(st, defs, d, ev, now);
      mid := HandleDefinition(st, defs[d], ev, now);
    }
  }

  lemma MovedThenSame<W>(st: State<W>, mid: State<W>, end: State<W>, def: Definition<W>, key: Key, ev: Event)
    requires key in st.store && st.store[key].value.currentStep < |def.steps|
    requires MovedOrSame(st, mid, def, key, ev) && SameAt(mid, end, key)
    ensures MovedOrSame(st, end, def, key, ev)
  {
  }

  lemma SameThenMoved<W>(st: State<W>, mid: State<W>, end: State<W>, def: Definition<W>, key: Key, ev: Event)
    requires SameAt(st, mid, key) && key in st.store && st.store[key].value.currentStep < |def.steps|
    requires MovedOrSame(mid, end, def, key, ev)
    ensures MovedOrSame(st, end, def, key, ev)
  {
  }

  /** The state after definitions `i` up to, not including, `d`. */
  function RouteUpTo<W>(st: State<W>, defs: seq<Definition<W>>, i: nat, d: nat, ev: Event, now: int): State<W>
    requires i <= d <= |defs|
    decreases d - i
  {
    if i == d then st
    else if ev.subject !in defs[i].subjects then RouteUpTo(st, defs, i + 1, d, ev, now)
    else RouteUpTo(HandleDefinition(st, defs[i], ev, now), defs, i + 1, d, ev, now)
  }

  lemma {:induction false} RouteSplit<W>(st: State<W>, defs: seq<Definition<W>>, i: nat, d: nat, ev: Event, now: int)
    requires i <= d <= |defs|
    ensures Route(st, defs, i, ev, now) == Route(RouteUpTo(st, defs, i, d, ev, now), defs, d, ev, now)
    decreases d - i
  {
    if i < d {
      var mid := if ev.subject in defs[i].subjects then HandleDefinition(st, defs[i], ev, now) else st;
      RouteSplit(mid, defs, i + 1, d, ev, now);
    }
  }

  lemma {:induction false} UpToTruthful<W>(st: State<W>, defs: seq<Definition<W>>, i: nat, d: nat, ev: Event, now: int)
    requires i <= d <= |defs| && Truthful(st)
    ensures Truthful(RouteUpTo(st, defs, i, d, ev, now))
    decreases d - i
  {
    if i < d {
      if ev.subject in defs[i].subjects {
        HandleDefinitionTruthful(st, defs[i], ev, now);
        UpToTruthful(HandleDefinition(st, defs[i], ev, now), defs, i + 1, d, ev, now);
      } else {
        UpToTruthful(st, defs, i + 1, d, ev, now);
      }
    }
  }

  /** Up to the instance's own definition nothing happens to it. */
  lemma {:induction false} UpToOthers<W>(st: State<W>, defs: seq<Definition<W>>, i: nat, d: nat, ev: Event, now: int,
                                         key: Key)
    requires DistinctTypes(defs) && Inv(st, defs) && i <= d <= |defs|
    requires forall j :: i <= j < d ==> defs[j].sagaType != key.sagaType
    ensures Inv(RouteUpTo(st, defs, i, d, ev, now), defs) && SameAt(st, RouteUpTo(st, defs, i, d, ev, now), key)
    decreases d - i
  {
    if i < d {
      if ev.subject in defs[i].subjects {
        OtherDefinition(st, defs, i, ev, now, key);
        UpToOthers(HandleDefinition(st, defs[i], ev, now), defs, i + 1, d, ev, now, key);
      } else {
        UpToOthers(st, defs, i + 1, d, ev, now, key);
      }
    }
  }

  lemma RouteMoves<W>(st: State<W>, defs: seq<Definition<W>>, d: nat, ev: Event, now: int)
    requires DistinctTypes(defs) && Inv(st, defs) && Truthful(st) && d < |defs| && Waiting(st, defs[d], ev, now)
    ensures MovedOrSame(st, Route(st, defs, 0, ev, now), defs[d], Key(defs[d].sagaType, ev.entity.value), ev)
  {
    var key := Key(defs[d].sagaType, ev.entity.value);
    var mid := RouteUpTo(st, defs, 0, d, ev, now);
    RouteSplit(st, defs, 0, d, ev, now);
    UpToTruthful(st, defs, 0, d, ev, now);
    UpToOthers(st, defs, 0, d, ev, now, key);
    var after := OwnMoves(mid, defs, d, ev, now);
    RouteOthers(after, defs, d + 1, ev, now, key);
    MovedThenSame(mid, after, Route(after, defs, d + 1, ev, now), defs[d], key, ev);
    SameThenMoved(st, mid, Route(st, defs, 0, ev, now), defs[d], key, ev);
  }

  /** Main result: a new event that names a stored instance moves it, to a higher step or to its end as completed or
      failed, if it triggers the step the instance waits for; otherwise entry and history of the instance stay as they
      are. */
  lemma EventMovesExactly<W>(st: State<W>, defs: seq<Definition<W>>, d: nat, ev: Event, now: int)
    requires DistinctTypes(defs) && Inv(st, defs) && Truthful(st) && d < |defs| && Waiting(st, defs[d], ev, now)
    requires ev.id != "" && !EventDedup.Duplicate(st.ring, ev.id)
    ensures MovedOrSame(st, HandleEvent(st, defs, ev, now), defs[d], Key(defs[d].sagaType, ev.entity.value), ev)
  {
    var admitted := st.(ring := EventDedup.Admit(st.ring, ev.id, now));
    RingIrrelevant(st, admitted, defs);
    RingKeepsTruth(st, admitted);
    RouteMoves(admitted, defs, d, ev, now);
  }

  /** Main result: an early event is spent. It leaves everything but the ring alone, and after any run within the
      window and the cap that brings the instance to the very step the event would trigger, a second copy still
      changes nothing, while the same event under a new ID would move the instance. */
  lemma {:induction false} EarlyEventIsSpent<W>(st: State<W>, defs: seq<Definition<W>>, timeout: int, ev: Event, t: int,
                                                between: seq<Input>, d: nat, renamed: Event, now: int)
    requires DistinctTypes(defs) && Inv(st, defs) && Truthful(st) && EventDedup.Consistent(st.ring)
    requires ev.id != "" && !EventDedup.Duplicate(st.ring, ev.id)
    requires forall i :: 0 <= i < |defs| ==> Idle(st, defs[i], ev, t)
    requires SagaRuns.AllBy(between, t + 10 * MINUTE)
    requires var news := EventDedup.Fresh(EventDedup.Admit(st.ring, ev.id, t), SagaRuns.Arrivals(between));
             EventDedup.Count(news) < 4096
    requires d < |defs| && ev.entity.Some? && ev.subject in defs[d].subjects
    requires renamed == ev.(id := renamed.id) && renamed.id != ""
    ensures HandleEvent(st, defs, ev, t) == st.(ring := EventDedup.Admit(st.ring, ev.id, t))
    ensures Inv(HandleEvent(st, defs, ev, t), defs)
    ensures var later := Run(HandleEvent(st, defs, ev, t), defs, timeout, between);
            var key := Key(defs[d].sagaType, ev.entity.value);
            && HandleEvent(later, defs, ev, now) == later
            && (&& Waiting(later, defs[d], ev, now) && !EventDedup.Duplicate(later.ring, renamed.id)
                && defs[d].steps[later.store[key].value.currentStep].trigger(renamed) ==>
                  Moved(HandleEvent(later, defs, renamed, now), key, later.store[key].value.currentStep))
  {
    EventIdleExactly(st, defs, ev, t);
    SagaRuns.SecondCopyDoesNothing(st, defs, timeout, ev, t, between, ev, now);
    var admitted := HandleEvent(st, defs, ev, t);
    RingKeepsTruth(st, admitted);
    var later := Run(admitted, defs, timeout, between);
    EveryRunAccounted(admitted, defs, timeout, between);
    RunTruthful(admitted, defs, timeout, between);
    if Waiting(later, defs[d], ev, now) && !EventDedup.Duplicate(later.ring, renamed.id) {
      EventMovesExactly(later, defs, d, renamed, now);
    }
  }

  // ----- Two sweepers -----

  /** What a sweeper does at `st` with the instance it loaded when the state was `seen`: nothing locks the key in
      between. */
  ghost function ReapLate<W>(seen: State<W>, st: State<W>, defs: seq<Definition<W>>, timeout: int, key: Key,
                             now: int): State<W>
    requires Sweepable(seen.store, defs)
  {
    var found := Lookup(seen.store, key, now);
    if found.None? || found.value.status != Active || now - found.value.updatedAt < timeout then st
    else match Find(defs, found.value.id.sagaType)
      case None => st
      case Some(d) => Fail(st, defs[d], found.value, found.value.currentStep, TIMEOUT_CAUSE, now)
  }

  /** Main result: when one sweep has timed an instance out, a second sweeper compensates it and counts it once more
      if and only if it had loaded the instance before the first removed it. */
  lemma TwoSweepersExactly<W>(st: State<W>, seen: State<W>, defs: seq<Definition<W>>, timeout: int, d: nat, key: Key,
                              now: int)
    requires DistinctTypes(defs) && Inv(st, defs) && d < |defs| && key.sagaType == defs[d].sagaType
    requires key in st.store && !Lapsed(st.store[key], now) && now - st.store[key].value.updatedAt >= timeout
    requires seen == st || (Sweepable(st.store, defs) && seen == Reap(st, defs, timeout, key, now))
    ensures Sweepable(st.store, defs) && Sweepable(seen.store, defs)
    ensures var first := Reap(st, defs, timeout, key, now);
            var second := ReapLate(seen, first, defs, timeout, key, now);
            var k := st.store[key].value.currentStep;
            var gone := GaveUp(key, k, TIMEOUT_CAUSE, now);
            && k < |defs[d].steps|
            && Project(first.log, key) == Project(st.log, key) + Unwound(defs[d], key, k) + [gone]
            && first.failed == st.failed + 1
            && if key in seen.store
               then && Project(second.log, key) == Project(first.log, key) + Unwound(defs[d], key, k) + [gone]
                    && second.failed == st.failed + 2
               else second == first
  {
    var s := st.store[key].value;
    ReapTimesOut(st, defs, timeout, d, key, now);
    ReapKeepsSweepable(st, defs, timeout, key, now);
    FailLogs(st, defs[d], s, s.currentStep, TIMEOUT_CAUSE, now);
    FailLogs(Reap(st, defs, timeout, key, now), defs[d], s, s.currentStep, TIMEOUT_CAUSE, now);
  }

  lemma ReapTimesOut<W>(st: State<W>, defs: seq<Definition<W>>, timeout: int, d: nat, key: Key, now: int)
    requires DistinctTypes(defs) && Inv(st, defs) && d < |defs| && key.sagaType == defs[d].sagaType
    requires key in st.store && !Lapsed(st.store[key], now) && now - st.store[key].value.updatedAt >= timeout
    ensures Sweepable(st.store, defs) && Find(defs, key.sagaType) == Some(d)
    ensures var s := st.store[key].value;
            && s.id == key && s.status == Active && 1 <= s.currentStep < |defs[d].steps|
            && Reap(st, defs, timeout, key, now) == Fail(st, defs[d], s, s.currentStep, TIMEOUT_CAUSE, now)
  {
    InvSweepable(st, defs);
    FindOwn(defs, d);
    assert StoredWell(defs, key, st.store[key]);
    ReapCases(st, defs, timeout, d, key, now);
  }

  lemma FailLogs<W>(st: State<W>, def: Definition<W>, s: Saga, i: nat, cause: string, now: int)
    requires i < |def.steps|
    ensures var st' := Fail(st, def, s, i, cause, now);
            && Project(st'.log, s.id) == Project(st.log, s.id) + Unwound(def, s.id, i) + [GaveUp(s.id, i, cause, now)]
            && st'.failed == st.failed + 1 && st'.store == st.store - {s.id}
  {
    UndoFrame(st, def, s, i, now);
    UndoTrace(st, def, s, i, now);
    Append1(Undo(st, def, s, i, now).0.log, GaveUp(s.id, i, cause, now), s.id);
  }

  // ----- A delivery cut off -----

  /** A delivery that crashes after its last store: everything of the step loop, nothing of the completion. */
  function CutOff<W>(st: State<W>, def: Definition<W>, s: Saga, ev: Event, now: int): State<W> {
    Advance(st, def, s, ev, now).st
  }

  lemma {:induction false} CutOffStore<W>(st: State<W>, defs: seq<Definition<W>>, d: nat, s: Saga, ev: Event, now: int)
    requires DistinctTypes(defs) && d < |defs| && s.id.sagaType == defs[d].sagaType
    requires Sweepable(st.store, defs) && s.currentStep < |defs[d].steps|
    ensures var p := Advance(st, defs[d], s, ev, now);
            && (Sweepable(p.st.store, defs) <==> p.Failing? || p.saga.currentStep < |defs[d].steps|)
            && p.st.completed == st.completed
    decreases |defs[d].steps| - s.currentStep
  {
    var i := s.currentStep;
    if defs[d].steps[i].trigger(ev) {
      var o := defs[d].steps[i].action(st.world, s.payload, s.id.entity, ev, now);
      if o.err.Some? {
        var broken := st.(world := o.world, log := st.log + [Broke(s.id, i, o.err.value)]);
        UndoFrame(broken, defs[d], s.(payload := o.payload), i, now);
        FewerSweepable(st.store, defs, s.id);
      } else {
        var s' := AfterStep(s, o.payload, now);
        SagaRuns.StoredStepSweepableExactly(st, o.world, defs, d, s', i, now);
        if i + 1 < |defs[d].steps| {
          CutOffStore(Record(st, o.world, s', i, now), defs, d, s', ev, now);
        }
      }
    }
  }

  lemma FewerSweepable<W>(store: Items<Key, Saga>, defs: seq<Definition<W>>, key: Key)
    requires Sweepable(store, defs)
    ensures Sweepable(store - {key}, defs)
  {
  }

  /** Main result: a delivery cut off after its last store leaves exactly the state of the whole delivery, or an entry
      on which a later sweep indexes past the steps; the second exactly if the whole delivery would have completed the
      instance. */
  lemma CutOffExactly<W>(st: State<W>, defs: seq<Definition<W>>, d: nat, s: Saga, ev: Event, now: int)
    requires DistinctTypes(defs) && d < |defs| && s.id.sagaType == defs[d].sagaType
    requires Sweepable(st.store, defs) && s.currentStep < |defs[d].steps|
    ensures var whole := Proceed(st, defs[d], s, ev, now);
            && (Sweepable(CutOff(st, defs[d], s, ev, now).store, defs) <==> whole.completed == st.completed)
            && (Sweepable(CutOff(st, defs[d], s, ev, now).store, defs) ==> CutOff(st, defs[d], s, ev, now) == whole)
  {
    CutOffStore(st, defs, d, s, ev, now);
  }
}
