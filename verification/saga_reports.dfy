/** Where each line of an instance's history comes from, and what one delivery or one sweep lists. */
module SagaReports {
  import opened Wrappers
  import opened Clock
  import opened TimedCache
  import opened SagaModel
  import opened SagaTrace
  import opened SagaRecent
  import opened SagaEvents
  import EventDedup

  // ----- Every entry of the history is explained by an input -----

  /** Action `k`, triggered by the event, ends with this error, or with none. */
  ghost predicate Reports<W>(def: Definition<W>, k: nat, w: W, p: Payload, entity: nat, ev: Event, now: int,
                             err: Option<string>)
  {
    k < |def.steps| && def.steps[k].trigger(ev) && def.steps[k].action(w, p, entity, ev, now).err == err
  }

  /** The input brings the event that makes action `k` of the instance end so, over some tables and payload. */
  ghost predicate Ends<W(!new)>(defs: seq<Definition<W>>, input: Input, key: Key, k: nat, err: Option<string>) {
    && !input.SweepAt?
    && exists d, w, p :: 0 <= d < |defs| && defs[d].sagaType == key.sagaType
                         && Reports(defs[d], k, w, p, key.entity, input.ev, input.now, err)
  }

  /** The entry is what the input brought about, at the input's own instant. */
  ghost predicate Explains<W(!new)>(defs: seq<Definition<W>>, input: Input, e: Entry) {
    match e
    case Started(_, at) => !input.SweepAt? && at == input.now
    case Ran(key, k) => Ends(defs, input, key, k, None)
    case Broke(key, k, error) => Ends(defs, input, key, k, Some(error))
    case Finished(_, at) => !input.SweepAt? && at == input.now
    case GaveUp(key, k, error, at) =>
      && at == input.now
      && if input.SweepAt? then key in input.keys && error == TIMEOUT_CAUSE else Ends(defs, input, key, k, Some(error))
    case _ => true
  }

  /** From `st` to `st'` the history grows by entries that the input explains. */
  ghost predicate Adds<W(!new)>(st: State<W>, st': State<W>, defs: seq<Definition<W>>, input: Input) {
    st.log <= st'.log && forall i :: |st.log| <= i < |st'.log| ==> Explains(defs, input, st'.log[i])
  }

  lemma AddsMore<W(!new)>(a: State<W>, b: State<W>, c: State<W>, defs: seq<Definition<W>>, input: Input)
    requires Adds(a, b, defs, input) && Adds(b, c, defs, input)
    ensures Adds(a, c, defs, input)
  {
    forall i | |a.log| <= i < |c.log| ensures Explains(defs, input, c.log[i]) {
      assert i < |b.log| ==> c.log[i] == b.log[i];
    }
  }

  lemma {:induction false} UndoAdds<W(!new)>(st: State<W>, def: Definition<W>, s: Saga, i: int, now: int,
                                             defs: seq<Definition<W>>, input: Input)
    requires i < |def.steps|
    ensures Adds(st, Undo(st, def, s, i, now).0, defs, input)
    decreases i
  {
    if i >= 0 {
      if def.steps[i].compensate.None? {
        UndoAdds(st, def, s, i - 1, now, defs, input);
      } else {
        var o := def.steps[i].compensate.value(st.world, s.payload, s.id.entity, now);
        var st1 := st.(world := o.world, log := st.log + [Undone(s.id, i)]);
        UndoAdds(st1, def, s.(payload := o.payload), i - 1, now, defs, input);
        AddsMore(st, st1, Undo(st, def, s, i, now).0, defs, input);
      }
    }
  }

  lemma FailAdds<W(!new)>(st: State<W>, def: Definition<W>, s: Saga, i: nat, cause: string, now: int,
                          defs: seq<Definition<W>>, input: Input)
    requires i < |def.steps| && Explains(defs, input, GaveUp(s.id, i, cause, now))
    ensures Adds(st, Fail(st, def, s, i, cause, now), defs, input)
  {
    UndoAdds(st, def, s, i, now, defs, input);
    AddsMore(st, Undo(st, def, s, i, now).0, Fail(st, def, s, i, cause, now), defs, input);
  }

  lemma EndsHere<W(!new)>(defs: seq<Definition<W>>, d: nat, w: W, p: Payload, input: Input, key: Key, k: nat,
                          err: Option<string>)
    requires d < |defs| && key.sagaType == defs[d].sagaType && !input.SweepAt?
    requires Reports(defs[d], k, w, p, key.entity, input.ev, input.now, err)
    ensures Ends(defs, input, key, k, err)
  {
  }

  lemma {:induction false} AdvanceAdds<W(!new)>(st: State<W>, defs: seq<Definition<W>>, d: nat, s: Saga, input: Input)
    requires d < |defs| && s.id.sagaType == defs[d].sagaType && !input.SweepAt?
    ensures Adds(st, Advance(st, defs[d], s, input.ev, input.now).st, defs, input)
    decreases |defs[d].steps| - s.currentStep
  {
    var def, i, ev, now := defs[d], s.currentStep, input.ev, input.now;
    if i < |def.steps| && def.steps[i].trigger(ev) {
      var o := def.steps[i].action(st.world, s.payload, s.id.entity, ev, now);
      EndsHere(defs, d, st.world, s.payload, input, s.id, i, o.err);
      if o.err.Some? {
        var broken := st.(world := o.world, log := st.log + [Broke(s.id, i, o.err.value)]);
        FailAdds(broken, def, s.(payload := o.payload), i, o.err.value, now, defs, input);
        AddsMore(st, broken, Advance(st, def, s, ev, now).st, defs, input);
      } else {
        var s' := AfterStep(s, o.payload, now);
        var recorded := Record(st, o.world, s', i, now);
        AdvanceAdds(recorded, defs, d, s', input);
        AddsMore(st, recorded, Advance(st, def, s, ev, now).st, defs, input);
      }
    }
  }

  lemma ProceedAdds<W(!new)>(st: State<W>, defs: seq<Definition<W>>, d: nat, s: Saga, input: Input)
    requires d < |defs| && s.id.sagaType == defs[d].sagaType && !input.SweepAt?
    ensures Adds(st, Proceed(st, defs[d], s, input.ev, input.now), defs, input)
  {
    AdvanceAdds(st, defs, d, s, input);
    var p := Advance(st, defs[d], s, input.ev, input.now);
    AddsMore(st, p.st, Proceed(st, defs[d], s, input.ev, input.now), defs, input);
  }

  lemma ClaimAdds<W(!new)>(st: State<W>, defs: seq<Definition<W>>, d: nat, entity: nat, input: Input)
    requires d < |defs| && !input.SweepAt?
    ensures Adds(st, Claim(st, defs[d], entity, input.ev, input.now), defs, input)
  {
    var key := Key(defs[d].sagaType, entity);
    var s := NewSaga(key, input.now);
    if Vacant(st.store, key, input.now) {
      var started := Start(st, s, input.now);
      ProceedAdds(started, defs, d, s, input);
      AddsMore(st, started, Claim(st, defs[d], entity, input.ev, input.now), defs, input);
    }
  }

  lemma HandleAdds<W(!new)>(st: State<W>, defs: seq<Definition<W>>, d: nat, input: Input)
    requires Truthful(st) && d < |defs| && input.Deliver?
    ensures Adds(st, HandleDefinition(st, defs[d], input.ev, input.now), defs, input)
  {
    var ev, now := input.ev, input.now;
    if ev.entity.Some? {
      var key := Key(defs[d].sagaType, ev.entity.value);
      var loaded, found := Load(st, key, now), Lookup(st.store, key, now);
      if found.Some? {
        assert TruthfulAt(st, key);
        ProceedAdds(loaded, defs, d, found.value, input);
      } else if StartsWith(defs[d], ev) {
        ClaimAdds(loaded, defs, d, ev.entity.value, input);
      }
      AddsMore(st, loaded, HandleDefinition(st, defs[d], ev, now), defs, input);
    }
  }

  lemma {:induction false} RouteAdds<W(!new)>(st: State<W>, defs: seq<Definition<W>>, d: nat, input: Input)
    requires Truthful(st) && d <= |defs| && input.Deliver?
    ensures Adds(st, Route(st, defs, d, input.ev, input.now), defs, input)
    decreases |defs| - d
  {
    if d < |defs| {
      if input.ev.subject in defs[d].subjects {
        var mid := HandleDefinition(st, defs[d], input.ev, input.now);
        HandleAdds(st, defs, d, input);
        HandleDefinitionTruthful(st, defs[d], input.ev, input.now);
        RouteAdds(mid, defs, d + 1, input);
        AddsMore(st, mid, Route(st, defs, d, input.ev, input.now), defs, input);
      } else {
        RouteAdds(st, defs, d + 1, input);
      }
    }
  }

  lemma ReapAdds<W(!new)>(st: State<W>, defs: seq<Definition<W>>, timeout: int, key: Key, input: Input)
    requires Sweepable(st.store, defs) && Truthful(st) && input.SweepAt? && key in input.keys
    ensures Adds(st, Reap(st, defs, timeout, key, input.now), defs, input)
  {
    var loaded, found := Load(st, key, input.now), Lookup(st.store, key, input.now);
    if found.Some? {
      assert TruthfulAt(st, key);
      var d := Find(defs, found.value.id.sagaType);
      if d.Some? {
        FailAdds(loaded, defs[d.value], found.value, found.value.currentStep, TIMEOUT_CAUSE, input.now, defs, input);
      }
    }
    AddsMore(st, loaded, Reap(st, defs, timeout, key, input.now), defs, input);
  }

  lemma {:induction false} SweepAdds<W(!new)>(st: State<W>, defs: seq<Definition<W>>, timeout: int, keys: seq<Key>,
                                              input: Input)
    requires Sweepable(st.store, defs) && Truthful(st) && input.SweepAt?
    requires forall key :: key in keys ==> key in input.keys
    ensures Adds(st, Sweep(st, defs, timeout, keys, input.now), defs, input)
    decreases |keys|
  {
    if keys != [] {
      var mid := Reap(st, defs, timeout, keys[0], input.now);
      ReapAdds(st, defs, timeout, keys[0], input);
      ReapTruthful(st, defs, timeout, keys[0], input.now);
      ReapKeepsSweepable(st, defs, timeout, keys[0], input.now);
      SweepAdds(mid, defs, timeout, keys[1..], input);
      AddsMore(st, mid, Sweep(st, defs, timeout, keys, input.now), defs, input);
    }
  }

  lemma ApplyAdds<W(!new)>(st: State<W>, defs: seq<Definition<W>>, timeout: int, input: Input)
    requires Sweepable(st.store, defs) && Truthful(st)
    ensures Adds(st, Apply(st, defs, timeout, input), defs, input)
  {
    match input
    case Deliver(ev, now) =>
      if ev.id != "" && !EventDedup.Duplicate(st.ring, ev.id) {
        var admitted := st.(ring := EventDedup.Admit(st.ring, ev.id, now));
        RingKeepsTruth(st, admitted);
        RouteAdds(admitted, defs, 0, input);
      }
    case Race(d, entity, ev, now) =>
      if d < |defs| {
        ClaimAdds(st, defs, d, entity, input);
      }
    case SweepAt(keys, now) =>
      SweepAdds(st, defs, timeout, keys, input);
  }

  ghost predicate Explained<W(!new)>(defs: seq<Definition<W>>, inputs: seq<Input>, e: Entry) {
    exists n :: 0 <= n < |inputs| && Explains(defs, inputs[n], e)
  }

  lemma {:induction false} RunExplained<W(!new)>(st: State<W>, defs: seq<Definition<W>>, timeout: int,
                                                 inputs: seq<Input>)
    requires DistinctTypes(defs) && Inv(st, defs) && Truthful(st)
    ensures var end := Run(st, defs, timeout, inputs);
            && st.log <= end.log
            && forall i :: |st.log| <= i < |end.log| ==> Explained(defs, inputs, end.log[i])
    decreases |inputs|
  {
    if inputs != [] {
      InvSweepable(st, defs);
      ApplyKeepsInv(st, defs, timeout, inputs[0]);
      ApplyTruthful(st, defs, timeout, inputs[0]);
      ApplyAdds(st, defs, timeout, inputs[0]);
      var mid, end := Apply(st, defs, timeout, inputs[0]), Run(st, defs, timeout, inputs);
      RunExplained(mid, defs, timeout, inputs[1..]);
      forall i | |st.log| <= i < |end.log| ensures Explained(defs, inputs, end.log[i]) {
        if i < |mid.log| {
          assert Explains(defs, inputs[0], end.log[i]);
        } else {
          var n :| 0 <= n < |inputs[1..]| && Explains(defs, inputs[1..][n], end.log[i]);
          assert Explains(defs, inputs[n + 1], end.log[i]);
        }
      }
    }
  }

  lemma {:induction false} LastIsLogged(log: seq<Entry>, key: Key) returns (i: nat)
    requires Project(log, key) != []
    ensures i < |log| && log[i] == Project(log, key)[|Project(log, key)| - 1] && log[i].key == key
  {
    if log[|log| - 1].key == key {
      i := |log| - 1;
    } else {
      i := LastIsLogged(log[..|log| - 1], key);
    }
  }

  /** Main result: over every run, an instance whose newest listed summary is a failure was given up by an input at
      the instant shown: a sweep that listed it, with the timeout as the error shown, or an event that triggered the
      action of the step shown, with the error shown as what that action reported. */
  lemma FailedSummaryExplained<W(!new)>(world: W, defs: seq<Definition<W>>, timeout: int, inputs: seq<Input>, key: Key)
    returns (n: nat)
    requires DistinctTypes(defs)
    requires var end := RunFrom(world, defs, timeout, inputs);
             Newest(end.recent, key).Some? && Newest(end.recent, key).value.status == Failed
    ensures n < |inputs|
    ensures var shown := Newest(RunFrom(world, defs, timeout, inputs).recent, key).value;
            && shown.updatedAt == inputs[n].now
            && if inputs[n].SweepAt?
               then key in inputs[n].keys && shown.error == "saga timed out without progress"
               else Ends(defs, inputs[n], key, shown.currentStep, Some(shown.error))
  {
    InitialInv(world, defs);
    RunTruthful(Initial(world), defs, timeout, inputs);
    RunExplained(Initial(world), defs, timeout, inputs);
    var end := RunFrom(world, defs, timeout, inputs);
    assert TruthfulAt(end, key);
    var i := LastIsLogged(end.log, key);
    assert Explained(defs, inputs, end.log[i]);
    n :| 0 <= n < |inputs| && Explains(defs, inputs[n], end.log[i]);
  }

  // ----- In which order a failed instance is rolled back -----

  /** From `w1`, `p1` to `w0`, `p0`: the compensator of a step ran over them, or the step has none. */
  ghost predicate UndoneBy<W>(step: Step<W>, w1: W, p1: Payload, entity: nat, now: int, w0: W, p0: Payload) {
    match step.compensate
    case None => w0 == w1 && p0 == p1
    case Some(undo) => w0 == undo(w1, p1, entity, now).world && p0 == undo(w1, p1, entity, now).payload
  }

  /** A rollback goes from the failed step down to the first, and each compensator works on what the one above it left
      of the tables and the payload: `ws[k]` and `ps[k]` are as after step `k`'s turn. */
  lemma {:induction false} UndoInOrder<W>(st: State<W>, def: Definition<W>, s: Saga, i: int, now: int)
    returns (ws: seq<W>, ps: seq<Payload>)
    requires -1 <= i < |def.steps|
    ensures |ws| == |ps| == i + 2 && ws[i + 1] == st.world && ps[i + 1] == s.payload
    ensures ws[0] == Undo(st, def, s, i, now).0.world && ps[0] == Undo(st, def, s, i, now).1.payload
    ensures forall k :: 0 <= k <= i ==> UndoneBy(def.steps[k], ws[k + 1], ps[k + 1], s.id.entity, now, ws[k], ps[k])
    decreases i
  {
    if i < 0 {
      ws, ps := [st.world], [s.payload];
    } else if def.steps[i].compensate.None? {
      ws, ps := UndoInOrder(st, def, s, i - 1, now);
      ws, ps := ws + [st.world], ps + [s.payload];
    } else {
      var o := def.steps[i].compensate.value(st.world, s.payload, s.id.entity, now);
      var st1 := st.(world := o.world, log := st.log + [Undone(s.id, i)]);
      ws, ps := UndoInOrder(st1, def, s.(payload := o.payload), i - 1, now);
      ws, ps := ws + [st.world], ps + [s.payload];
    }
  }

  // ----- One delivery, one sweep -----

  lemma NewestListed(recent: seq<Summary>, s: Summary)
    ensures Newest(Remember(recent, s), s.id) == Some(s)
  {
    var longer := recent + [s];
    assert |longer| > RECENT_LIMIT ==>
      longer[|longer| - RECENT_LIMIT..][RECENT_LIMIT - 1] == s;
  }

  /** The instance under `key` is stored, unexpired, and `ev` triggers the step it waits for. */
  ghost predicate Triggers<W>(st: State<W>, def: Definition<W>, key: Key, ev: Event, now: int) {
    && key == Key(def.sagaType, key.entity) && ev.entity == Some(key.entity)
    && key in st.store && !Lapsed(st.store[key], now) && st.store[key].value.currentStep < |def.steps|
    && def.steps[st.store[key].value.currentStep].trigger(ev)
  }

  /** An event whose action reports an error removes the instance and lists it as failed at that step, with that
      error. */
  lemma FailureIsListed<W>(st: State<W>, def: Definition<W>, key: Key, ev: Event, now: int, error: string)
    requires Truthful(st) && Triggers(st, def, key, ev, now)
    requires var s := st.store[key].value;
             def.steps[s.currentStep].action(st.world, s.payload, key.entity, ev, now).err == Some(error)
    ensures var s, end := st.store[key].value, HandleDefinition(st, def, ev, now);
            && key !in end.store && end.failed == st.failed + 1
            && Newest(end.recent, key) == Some(Summary(key, Failed, s.currentStep, error, s.createdAt, now, None))
  {
    assert TruthfulAt(st, key);
    var s := st.store[key].value;
    var i := s.currentStep;
    var o := def.steps[i].action(st.world, s.payload, s.id.entity, ev, now);
    var broken := st.(world := o.world, log := st.log + [Broke(key, i, error)]);
    FailIsListed(broken, def, s.(payload := o.payload), i, error, now);
  }

  lemma FailIsListed<W>(st: State<W>, def: Definition<W>, s: Saga, i: nat, cause: string, now: int)
    requires i < |def.steps| && s.completedAt == None
    ensures var end := Fail(st, def, s, i, cause, now);
            && s.id !in end.store && end.failed == st.failed + 1
            && Newest(end.recent, s.id) == Some(Summary(s.id, Failed, i, cause, s.createdAt, now, None))
  {
    UndoFrame(st, def, s, i, now);
    NewestListed(st.recent, Summary(s.id, Failed, i, cause, s.createdAt, now, None));
  }

  /** A fresh instance whose first action reports an error is listed as failed at once. */
  lemma FirstFailureIsListed<W>(st: State<W>, def: Definition<W>, key: Key, ev: Event, now: int, error: string)
    requires key == Key(def.sagaType, key.entity) && ev.entity == Some(key.entity) && key !in st.store
    requires StartsWith(def, ev) && def.steps[0].action(st.world, map[], key.entity, ev, now).err == Some(error)
    ensures var end := HandleDefinition(st, def, ev, now);
            && key !in end.store && end.started == st.started + 1 && end.failed == st.failed + 1
            && Newest(end.recent, key) == Some(Summary(key, Failed, 0, error, now, now, None))
  {
    var s := NewSaga(key, now);
    var started := Start(st, s, now);
    var o := def.steps[0].action(st.world, map[], key.entity, ev, now);
    var broken := started.(world := o.world, log := started.log + [Broke(key, 0, error)]);
    FailIsListed(broken, def, s.(payload := o.payload), 0, error, now);
    UndoFrame(broken, def, s.(payload := o.payload), 0, now);
  }

  /** An action that succeeds, and no step after it that the event triggers too. */
  lemma AdvanceOne<W>(st: State<W>, def: Definition<W>, s: Saga, ev: Event, now: int)
    requires s.currentStep < |def.steps| && def.steps[s.currentStep].trigger(ev)
    requires def.steps[s.currentStep].action(st.world, s.payload, s.id.entity, ev, now).err == None
    requires s.currentStep + 1 == |def.steps| || !def.steps[s.currentStep + 1].trigger(ev)
    ensures var o := def.steps[s.currentStep].action(st.world, s.payload, s.id.entity, ev, now);
            var s' := AfterStep(s, o.payload, now);
            Advance(st, def, s, ev, now) == Paused(Record(st, o.world, s', s.currentStep, now), s')
  {
    var o := def.steps[s.currentStep].action(st.world, s.payload, s.id.entity, ev, now);
    var s' := AfterStep(s, o.payload, now);
    var recorded := Record(st, o.world, s', s.currentStep, now);
    assert Advance(recorded, def, s', ev, now) == Paused(recorded, s');
  }

  /** An event that makes the last action succeed removes the instance and lists it as completed. */
  lemma CompletionIsListed<W>(st: State<W>, def: Definition<W>, key: Key, ev: Event, now: int)
    requires Truthful(st) && Triggers(st, def, key, ev, now) && st.store[key].value.currentStep + 1 == |def.steps|
    requires var s := st.store[key].value;
             def.steps[s.currentStep].action(st.world, s.payload, key.entity, ev, now).err == None
    ensures var s, end := st.store[key].value, HandleDefinition(st, def, ev, now);
            && key !in end.store && end.completed == st.completed + 1
            && end.world == def.steps[s.currentStep].action(st.world, s.payload, key.entity, ev, now).world
            && Newest(end.recent, key)
            == Some(Summary(key, Completed, |def.steps|, "", s.createdAt, now, Some(now)))
  {
    assert TruthfulAt(st, key);
    var s := st.store[key].value;
    var o := def.steps[s.currentStep].action(st.world, s.payload, s.id.entity, ev, now);
    var s' := AfterStep(s, o.payload, now);
    var recorded := Record(st, o.world, s', s.currentStep, now);
    AdvanceOne(st, def, s, ev, now);
    NewestListed(recorded.recent, Summary(key, Completed, |def.steps|, "", s.createdAt, now, Some(now)));
  }

  /** An event that makes an action succeed before the last leaves the instance stored and listed at the next step, with
      what the action left as its payload. */
  lemma ProgressIsListed<W>(st: State<W>, def: Definition<W>, key: Key, ev: Event, now: int)
    requires Truthful(st) && Triggers(st, def, key, ev, now) && st.store[key].value.currentStep + 1 < |def.steps|
    requires !def.steps[st.store[key].value.currentStep + 1].trigger(ev)
    requires var s := st.store[key].value;
             def.steps[s.currentStep].action(st.world, s.payload, key.entity, ev, now).err == None
    ensures var s, end := st.store[key].value, HandleDefinition(st, def, ev, now);
            var o := def.steps[s.currentStep].action(st.world, s.payload, key.entity, ev, now);
            && end.world == o.world && key in end.store && end.completed == st.completed
            && end.store[key] == Item(Saga(key, Active, s.currentStep + 1, o.payload, "", s.createdAt, now, None),
                                      At(now + 7 * DAY))
            && Newest(end.recent, key) == Some(Summary(key, Active, s.currentStep + 1, "", s.createdAt, now, None))
  {
    assert TruthfulAt(st, key);
    var s := st.store[key].value;
    var o := def.steps[s.currentStep].action(st.world, s.payload, s.id.entity, ev, now);
    var s' := AfterStep(s, o.payload, now);
    AdvanceOne(st, def, s, ev, now);
    assert HandleDefinition(st, def, ev, now) == Record(st, o.world, s', s.currentStep, now);
    NewestListed(st.recent, Summary(key, Active, s.currentStep + 1, "", s.createdAt, now, None));
  }

  /** A fresh instance whose first action succeeds and whose second waits is stored and listed at step 1. */
  lemma FirstStepIsListed<W>(st: State<W>, def: Definition<W>, key: Key, ev: Event, now: int)
    requires key == Key(def.sagaType, key.entity) && ev.entity == Some(key.entity) && key !in st.store
    requires |def.steps| >= 2 && def.steps[0].trigger(ev) && !def.steps[1].trigger(ev)
    requires def.steps[0].action(st.world, map[], key.entity, ev, now).err == None
    ensures var o, end := def.steps[0].action(st.world, map[], key.entity, ev, now), HandleDefinition(st, def, ev, now);
            && end.world == o.world && end.started == st.started + 1 && end.completed == st.completed
            && end.store
            == st.store[key := Item(Saga(key, Active, 1, o.payload, "", now, now, None), At(now + 7 * DAY))]
            && Newest(end.recent, key) == Some(Summary(key, Active, 1, "", now, now, None))
  {
    var s := NewSaga(key, now);
    var started, o := Start(st, s, now), def.steps[0].action(st.world, map[], key.entity, ev, now);
    var s' := AfterStep(s, o.payload, now);
    AdvanceOne(started, def, s, ev, now);
    assert HandleDefinition(st, def, ev, now) == Record(started, o.world, s', 0, now);
    NewestListed(started.recent, Summary(key, Active, 1, "", now, now, None));
  }

  /** The whole life of a two-step instance: what the first action left is handed to the second, the tables pass through
      both, and the end is listed with the instants of its first and last event. */
  lemma TwoStepLife<W>(st: State<W>, def: Definition<W>, key: Key, first: Event, t0: int, second: Event, t1: int)
    requires Truthful(st) && key == Key(def.sagaType, key.entity) && key !in st.store && |def.steps| == 2
    requires first.entity == second.entity == Some(key.entity) && t1 <= t0 + 7 * DAY
    requires def.steps[0].trigger(first) && !def.steps[1].trigger(first) && def.steps[1].trigger(second)
    requires var o := def.steps[0].action(st.world, map[], key.entity, first, t0);
             o.err == None && def.steps[1].action(o.world, o.payload, key.entity, second, t1).err == None
    ensures var mid := HandleDefinition(st, def, first, t0);
            var end := HandleDefinition(mid, def, second, t1);
            var o := def.steps[0].action(st.world, map[], key.entity, first, t0);
            && mid.world == o.world && key in mid.store && mid.store[key].value.payload == o.payload
            && end.world == def.steps[1].action(o.world, o.payload, key.entity, second, t1).world
            && key !in end.store && end.completed == st.completed + 1
            && Newest(end.recent, key) == Some(Summary(key, Completed, 2, "", t0, t1, Some(t1)))
  {
    var mid := HandleDefinition(st, def, first, t0);
    FirstStepIsListed(st, def, key, first, t0);
    HandleDefinitionTruthful(st, def, first, t0);
    CompletionIsListed(mid, def, key, second, t1);
  }

  /** The same for three steps. */
  lemma ThreeStepLife<W>(st: State<W>, def: Definition<W>, key: Key, first: Event, t0: int, second: Event, t1: int,
                         third: Event, t2: int)
    requires Truthful(st) && key == Key(def.sagaType, key.entity) && key !in st.store && |def.steps| == 3
    requires first.entity == second.entity == third.entity == Some(key.entity)
    requires t1 <= t0 + 7 * DAY && t2 <= t1 + 7 * DAY
    requires def.steps[0].trigger(first) && !def.steps[1].trigger(first)
    requires def.steps[1].trigger(second) && !def.steps[2].trigger(second) && def.steps[2].trigger(third)
    requires var o := def.steps[0].action(st.world, map[], key.entity, first, t0);
             var o1 := def.steps[1].action(o.world, o.payload, key.entity, second, t1);
             o.err == None && o1.err == None
             && def.steps[2].action(o1.world, o1.payload, key.entity, third, t2).err == None
    ensures var one := HandleDefinition(st, def, first, t0);
            var two := HandleDefinition(one, def, second, t1);
            var end := HandleDefinition(two, def, third, t2);
            var o := def.steps[0].action(st.world, map[], key.entity, first, t0);
            var o1 := def.steps[1].action(o.world, o.payload, key.entity, second, t1);
            && key in two.store && two.store[key].value.payload == o1.payload
            && end.world == def.steps[2].action(o1.world, o1.payload, key.entity, third, t2).world
            && key !in end.store && end.completed == st.completed + 1
            && Newest(end.recent, key) == Some(Summary(key, Completed, 3, "", t0, t2, Some(t2)))
  {
    var one := HandleDefinition(st, def, first, t0);
    FirstStepIsListed(st, def, key, first, t0);
    HandleDefinitionTruthful(st, def, first, t0);
    ProgressIsListed(one, def, key, second, t1);
    HandleDefinitionTruthful(one, def, second, t1);
    CompletionIsListed(HandleDefinition(one, def, second, t1), def, key, third, t2);
  }

  // ----- What a sweep spares -----

  lemma ReapOther<W>(st: State<W>, defs: seq<Definition<W>>, timeout: int, swept: Key, now: int, key: Key)
    requires DistinctTypes(defs) && Inv(st, defs) && (swept != key || key !in st.store)
    ensures Sweepable(st.store, defs) && Inv(Reap(st, defs, timeout, swept, now), defs)
    ensures SameAt(st, Reap(st, defs, timeout, swept, now), key)
  {
    InvSweepable(st, defs);
    ReapKeepsInv(st, defs, timeout, swept, now);
    if swept in st.store {
      assert StoredWell(defs, swept, st.store[swept]);
      var d := Find(defs, swept.sagaType).value;
      InvSettled(st, defs, d, swept);
      ReapCases(st, defs, timeout, d, swept, now);
      LoadTrace(st, defs, d, swept, now);
      ReapTrace(st, defs, d, swept, now,
                Fail(st, defs[d], st.store[swept].value, st.store[swept].value.currentStep, TIMEOUT_CAUSE, now));
    }
  }

  /** Reaping a stored, unexpired instance: nothing at all before the timeout, and its end from then on. */
  lemma ReapOwn<W>(st: State<W>, defs: seq<Definition<W>>, timeout: int, key: Key, now: int)
    requires DistinctTypes(defs) && Inv(st, defs) && key in st.store && !Lapsed(st.store[key], now)
    ensures Sweepable(st.store, defs) && Inv(Reap(st, defs, timeout, key, now), defs)
    ensures var s, end := st.store[key].value, Reap(st, defs, timeout, key, now);
            if now - s.updatedAt < timeout then end == st
            else key !in end.store && LastEntry(end, key) == Some(GaveUp(key, s.currentStep, TIMEOUT_CAUSE, now))
  {
    InvSweepable(st, defs);
    ReapKeepsInv(st, defs, timeout, key, now);
    assert StoredWell(defs, key, st.store[key]);
    var d, s := Find(defs, key.sagaType).value, st.store[key].value;
    ReapCases(st, defs, timeout, d, key, now);
    FailLogs(st, defs[d], s, s.currentStep, TIMEOUT_CAUSE, now);
  }

  lemma {:induction false} SweepOthers<W>(st: State<W>, defs: seq<Definition<W>>, timeout: int, keys: seq<Key>,
                                          now: int, key: Key)
    requires DistinctTypes(defs) && Inv(st, defs) && (key !in keys || key !in st.store)
    ensures Sweepable(st.store, defs) && SameAt(st, Sweep(st, defs, timeout, keys, now), key)
    decreases |keys|
  {
    InvSweepable(st, defs);
    if keys != [] {
      ReapOther(st, defs, timeout, keys[0], now, key);
      SweepOthers(Reap(st, defs, timeout, keys[0], now), defs, timeout, keys[1..], now, key);
    }
  }

  /** Main result: in every state a run can reach, a sweep ends a stored, unexpired instance if and only if it lists
      it and the instance made no progress for the timeout; otherwise entry and history stay exactly as they are,
      whatever else it sweeps. An instance it ends is given up at its step because of the timeout. */
  lemma {:induction false} SweepSparesExactly<W>(st: State<W>, defs: seq<Definition<W>>, timeout: int, keys: seq<Key>,
                                                 now: int, key: Key)
    requires DistinctTypes(defs) && Inv(st, defs) && key in st.store && !Lapsed(st.store[key], now)
    ensures Sweepable(st.store, defs)
    ensures var s, end := st.store[key].value, Sweep(st, defs, timeout, keys, now);
            if key in keys && now - s.updatedAt >= timeout
            then key !in end.store && LastEntry(end, key) == Some(GaveUp(key, s.currentStep, TIMEOUT_CAUSE, now))
            else SameAt(st, end, key)
    decreases |keys|
  {
    InvSweepable(st, defs);
    if keys != [] {
      var mid := Reap(st, defs, timeout, keys[0], now);
      if keys[0] == key {
        ReapOwn(st, defs, timeout, key, now);
        if now - st.store[key].value.updatedAt >= timeout {
          SweepOthers(mid, defs, timeout, keys[1..], now, key);
        } else {
          SweepSparesExactly(mid, defs, timeout, keys[1..], now, key);
        }
      } else {
        ReapOther(st, defs, timeout, keys[0], now, key);
        SweepSparesExactly(mid, defs, timeout, keys[1..], now, key);
      }
    }
  }
}
