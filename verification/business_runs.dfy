/** The compliance workflow inside the engine: what each input does to a row and its instance, and how a failing or
    timed-out instance gives the row its status back. */
module BusinessRuns {
  import opened Wrappers
  import opened TimedCache
  import opened SagaModel
  import opened SagaTrace
  import opened BusinessSagas
  import EventDedup

  const CHECK := "compliance_check"

  function CheckKey(id: nat): Key {
    Key(CHECK, id)
  }

  lemma SubjectsDiffer(ev: Event)
    requires ComplianceWritten(ev)
    ensures ev.subject in ComplianceCheck().subjects && !ComplianceAlerted(ev)
    ensures forall d :: 1 <= d < 4 ==> ev.subject !in Registered()[d].subjects
  {
    var s := ev.subject;
    assert s[0] == 'c' && s[1] == 'o' && s[2] == 'm' && s[11] != 'a';
    assert "compliance.alert"[11] == 'a';
    assert AuditExecution().subjects == ["audit.scheduled", "audit.started", "audit.completed"];
    assert ViolationProcessing().subjects == ["violation.detected", "violation.resolved"];
    assert CorrectiveActionFlow().subjects == ["correctiveaction.created", "correctiveaction.completed"];
    assert "correctiveaction.created"[2] == 'r' && "correctiveaction.completed"[2] == 'r';
  }

  // ----- One delivery -----

  /** A fresh claim either fails at evaluate and is gone, compensated, or stores what evaluate left. */
  lemma ClaimCheck(st: State<World>, id: nat, ev: Event, now: int)
    requires Vacant(st.store, CheckKey(id), now) && ComplianceWritten(ev)
    ensures var s := NewSaga(CheckKey(id), now);
            var o := Evaluate(st.world, map[], id, ev, now);
            var end := Claim(st, ComplianceCheck(), id, ev, now);
            var started := Start(st, s, now);
            if o.err.Some? then
              end == Fail(started.(world := o.world, log := started.log + [Broke(CheckKey(id), 0, o.err.value)]),
                          ComplianceCheck(), s.(payload := o.payload), 0, o.err.value, now)
            else
              && end.world == o.world && CheckKey(id) in end.store
              && end.store[CheckKey(id)].value == AfterStep(s, o.payload, now)
  {
    SubjectsDiffer(ev);
    var s, def := NewSaga(CheckKey(id), now), ComplianceCheck();
    var started := Start(st, s, now);
    var o := Evaluate(st.world, map[], id, ev, now);
    assert def.steps[0].trigger(ev) && def.steps[0].action(started.world, s.payload, id, ev, now) == o;
    if o.err.None? {
      var s' := AfterStep(s, o.payload, now);
      var recorded := Record(started, o.world, s', 0, now);
      assert Advance(recorded, def, s', ev, now) == Paused(recorded, s');
      assert Advance(started, def, s, ev, now) == Paused(recorded, s');
    }
  }

  lemma {:induction false} UnsubscribedRoute(st: State<World>, d: nat, ev: Event, now: int)
    requires d <= 4 && forall i :: d <= i < 4 ==> ev.subject !in Registered()[i].subjects
    ensures Route(st, Registered(), d, ev, now) == st
    decreases 4 - d
  {
    if d < 4 {
      UnsubscribedRoute(st, d + 1, ev, now);
    }
  }

  /** A created or updated event for a row without an instance is one claim of the compliance workflow. */
  lemma WrittenEventIsClaim(st: State<World>, id: nat, ev: Event, now: int)
    requires ComplianceWritten(ev) && ev.entity == Some(id) && ev.id != "" && !EventDedup.Duplicate(st.ring, ev.id)
    requires CheckKey(id) !in st.store
    ensures HandleEvent(st, Registered(), ev, now)
         == Claim(st.(ring := EventDedup.Admit(st.ring, ev.id, now)), ComplianceCheck(), id, ev, now)
  {
    SubjectsDiffer(ev);
    var admitted := st.(ring := EventDedup.Admit(st.ring, ev.id, now));
    var handled := HandleDefinition(admitted, ComplianceCheck(), ev, now);
    assert Registered()[0] == ComplianceCheck();
    UnsubscribedRoute(handled, 1, ev, now);
    assert Route(admitted, Registered(), 0, ev, now) == Route(handled, Registered(), 1, ev, now);
    assert handled == Claim(admitted, ComplianceCheck(), id, ev, now);
  }

  /** Main result: a delivery whose evaluate step fails, at whichever of its database calls, leaves no instance, counts
      one failure, and leaves the row with the status from before the delivery exactly if evaluate had left it alone or
      the compensating write goes through (an empty status is never written back); every other row is untouched. */
  lemma FailingDeliveryRestores(st: State<World>, id: nat, ev: Event, now: int)
    requires ComplianceWritten(ev) && ev.entity == Some(id) && ev.id != "" && !EventDedup.Duplicate(st.ring, ev.id)
    requires CheckKey(id) !in st.store && id in st.world.compliances
    requires Evaluate(st.world, map[], id, ev, now).err.Some?
    ensures var end := HandleEvent(st, Registered(), ev, now);
            var left := Evaluate(st.world, map[], id, ev, now).world;
            && CheckKey(id) !in end.store && end.failed == st.failed + 1
            && id in left.compliances && Restored(st.world, id, left, end.world)
            && forall other :: other != id ==>
                 (other in end.world.compliances <==> other in st.world.compliances)
                 && (other in st.world.compliances ==> end.world.compliances[other] == st.world.compliances[other])
  {
    var admitted := st.(ring := EventDedup.Admit(st.ring, ev.id, now));
    WrittenEventIsClaim(st, id, ev, now);
    ClaimCheck(admitted, id, ev, now);
    EvaluatePayload(st.world, id, ev, now);
    var s := NewSaga(CheckKey(id), now);
    var o := Evaluate(st.world, map[], id, ev, now);
    var started := Start(admitted, s, now);
    var broken := started.(world := o.world, log := started.log + [Broke(CheckKey(id), 0, o.err.value)]);
    FailureRestoresStatus(st.world, id, ev, now, broken, s.(payload := o.payload), 0, o.err.value, now);
    UndoFrame(broken, ComplianceCheck(), s.(payload := o.payload), 0, now);
  }

  // ----- What leaves a row alone -----

  /** Row `id` is the same in both worlds. */
  ghost predicate RowKept(w: World, w': World, id: nat) {
    && (id in w'.compliances <==> id in w.compliances)
    && (id in w.compliances ==> w'.compliances[id] == w.compliances[id])
  }

  /** And no database call starts failing. */
  ghost predicate SameRow(w: World, w': World, id: nat) {
    RowKept(w, w', id) && (w.faults == [] ==> w'.faults == [])
  }

  ghost predicate SameEntry(st: State<World>, st': State<World>, id: nat) {
    && (CheckKey(id) in st'.store <==> CheckKey(id) in st.store)
    && (CheckKey(id) in st.store ==> st'.store[CheckKey(id)] == st.store[CheckKey(id)])
  }

  lemma CheckLeavesRow(i: nat, w: World, p: Payload, entity: nat, ev: Event, now: int, id: nat)
    requires i < 2 && entity != id
    ensures RowKept(w, ComplianceCheck().steps[i].action(w, p, entity, ev, now).world, id)
  {
    if i == 0 {
      assert ComplianceCheck().steps[0].action(w, p, entity, ev, now) == Evaluate(w, p, entity, ev, now);
    } else {
      assert ComplianceCheck().steps[1].action(w, p, entity, ev, now) == Alert(w, p, entity, ev, now);
    }
  }

  /** No action of a workflow touches a compliance row other than its own instance's. */
  lemma ActionLeavesRow(w: World, d: nat, i: nat, p: Payload, entity: nat, ev: Event, now: int, id: nat)
    requires d < 4 && i < |Registered()[d].steps| && (d != 0 || entity != id)
    ensures RowKept(w, Registered()[d].steps[i].action(w, p, entity, ev, now).world, id)
  {
    match d
    case 0 =>
      assert Registered()[0] == ComplianceCheck();
      CheckLeavesRow(i, w, p, entity, ev, now, id);
    case 1 =>
      assert Registered()[1] == AuditExecution();
      AuditActions(i, w, p, entity, ev, now);
    case 2 =>
      assert Registered()[2] == ViolationProcessing();
    case _ =>
      assert Registered()[3] == CorrectiveActionFlow();
      FlowActions(i, w, p, entity, ev, now);
  }

  lemma CompensatorLeavesRow(w: World, d: nat, i: nat, p: Payload, entity: nat, now: int, id: nat)
    requires d < 4 && i < |Registered()[d].steps| && Registered()[d].steps[i].compensate.Some?
    requires d != 0 || entity != id
    ensures SameRow(w, Registered()[d].steps[i].compensate.value(w, p, entity, now).world, id)
  {
    assert Registered()[0] == ComplianceCheck() && Registered()[1] == AuditExecution();
    assert Registered()[2] == ViolationProcessing() && Registered()[3] == CorrectiveActionFlow();
  }

  /** Nor does a compensator, and none makes a database fail. */
  lemma {:induction false} UndoLeavesRow(st: State<World>, d: nat, s: Saga, i: int, now: int, id: nat)
    requires d < 4 && i < |Registered()[d].steps| && (d != 0 || s.id.entity != id)
    ensures SameRow(st.world, Undo(st, Registered()[d], s, i, now).0.world, id)
    decreases i
  {
    var def := Registered()[d];
    if i >= 0 {
      if def.steps[i].compensate.None? {
        UndoLeavesRow(st, d, s, i - 1, now, id);
      } else {
        var o := def.steps[i].compensate.value(st.world, s.payload, s.id.entity, now);
        var st1 := st.(world := o.world, log := st.log + [Undone(s.id, i)]);
        CompensatorLeavesRow(st.world, d, i, s.payload, s.id.entity, now, id);
        UndoLeavesRow(st1, d, s.(payload := o.payload), i - 1, now, id);
      }
    }
  }

  lemma {:induction false} AdvanceLeavesRow(st: State<World>, d: nat, s: Saga, ev: Event, now: int, id: nat)
    requires d < 4 && (d != 0 || s.id.entity != id)
    ensures RowKept(st.world, Advance(st, Registered()[d], s, ev, now).st.world, id)
    decreases |Registered()[d].steps| - s.currentStep
  {
    var def, i := Registered()[d], s.currentStep;
    if i < |def.steps| && def.steps[i].trigger(ev) {
      var o := def.steps[i].action(st.world, s.payload, s.id.entity, ev, now);
      ActionLeavesRow(st.world, d, i, s.payload, s.id.entity, ev, now, id);
      if o.err.Some? {
        var broken := st.(world := o.world, log := st.log + [Broke(s.id, i, o.err.value)]);
        UndoLeavesRow(broken, d, s.(payload := o.payload), i, now, id);
      } else {
        var s' := AfterStep(s, o.payload, now);
        AdvanceLeavesRow(Record(st, o.world, s', i, now), d, s', ev, now, id);
      }
    }
  }

  lemma ClaimLeavesRow(st: State<World>, d: nat, entity: nat, ev: Event, now: int, id: nat)
    requires d < 4 && (d != 0 || entity != id)
    ensures RowKept(st.world, Claim(st, Registered()[d], entity, ev, now).world, id)
  {
    var s := NewSaga(Key(Registered()[d].sagaType, entity), now);
    AdvanceLeavesRow(Start(st, s, now), d, s, ev, now, id);
  }

  lemma HandleLeavesRow(st: State<World>, d: nat, ev: Event, now: int, id: nat)
    requires Inv(st, Registered()) && d < 4 && (d != 0 || ev.entity != Some(id))
    ensures RowKept(st.world, HandleDefinition(st, Registered()[d], ev, now).world, id)
  {
    if ev.entity.Some? {
      var key := Key(Registered()[d].sagaType, ev.entity.value);
      var found := Lookup(st.store, key, now);
      if found.Some? {
        assert StoredWell(Registered(), key, st.store[key]);
        AdvanceLeavesRow(Load(st, key, now), d, found.value, ev, now, id);
      } else {
        ClaimLeavesRow(Load(st, key, now), d, ev.entity.value, ev, now, id);
      }
    }
  }

  // ----- What one input does to a row and its instance -----

  /** The input, a delivery or the late half of a raced one, makes evaluate run for a fresh instance of row `id`. */
  predicate Claims(input: Input, id: nat, ev: Event, t0: int) {
    && ComplianceWritten(ev)
    && (input == Race(0, id, ev, t0) || (input == Deliver(ev, t0) && ev.entity == Some(id)))
  }

  /** From `st` to `st'` the input claimed the free key of row `id`, ran evaluate, and stored what that left. */
  ghost predicate Claimed(st: State<World>, st': State<World>, input: Input, id: nat, ev: Event, t0: int) {
    var o := Evaluate(st.world, map[], id, ev, t0);
    && Claims(input, id, ev, t0) && Vacant(st.store, CheckKey(id), t0)
    && o.err.None? && st'.world == o.world && CheckKey(id) in st'.store
    && st'.store[CheckKey(id)].value == AfterStep(NewSaga(CheckKey(id), t0), o.payload, t0)
  }

  ghost predicate ClaimedAnew(st: State<World>, st': State<World>, input: Input, id: nat) {
    exists ev, t0 :: Claimed(st, st', input, id, ev, t0)
  }

  /** The instance of row `id` stays as it is, and so does the row. */
  ghost predicate Kept(st: State<World>, st': State<World>, id: nat) {
    CheckKey(id) in st.store && SameEntry(st, st', id) && RowKept(st.world, st'.world, id)
  }

  /** If the instance of row `id` is stored after the input, then it and the row are as before or it is freshly
      claimed. */
  ghost predicate StepAt(st: State<World>, st': State<World>, input: Input, id: nat) {
    CheckKey(id) in st'.store ==> Kept(st, st', id) || ClaimedAnew(st, st', input, id)
  }

  /** At its second step a compliance instance completes on the alert and waits for it otherwise. */
  lemma AlertCompletes(st: State<World>, s: Saga, ev: Event, now: int)
    requires s.currentStep == 1 && s.id in st.store && st.store[s.id].value == s
    ensures var end := Proceed(st, ComplianceCheck(), s, ev, now);
            end == st || s.id !in end.store
  {
    var def := ComplianceCheck();
    if ComplianceAlerted(ev) {
      var o := Alert(st.world, s.payload, s.id.entity, ev, now);
      assert def.steps[1].action(st.world, s.payload, s.id.entity, ev, now) == o;
      var s' := AfterStep(s, o.payload, now);
      var recorded := Record(st, o.world, s', 1, now);
      assert Advance(recorded, def, s', ev, now) == Paused(recorded, s');
      assert Advance(st, def, s, ev, now) == Paused(recorded, s');
    } else {
      assert Advance(st, def, s, ev, now) == Paused(st, s);
    }
  }

  lemma ClaimStep(st: State<World>, input: Input, id: nat, ev: Event, now: int)
    requires Claims(input, id, ev, now)
    ensures var end := Claim(st, ComplianceCheck(), id, ev, now);
            CheckKey(id) in end.store ==> Kept(st, end, id) || Claimed(st, end, input, id, ev, now)
  {
    if Vacant(st.store, CheckKey(id), now) {
      ClaimCheck(st, id, ev, now);
      var s := NewSaga(CheckKey(id), now);
      var o := Evaluate(st.world, map[], id, ev, now);
      if o.err.Some? {
        var started := Start(st, s, now);
        UndoFrame(started.(world := o.world, log := started.log + [Broke(CheckKey(id), 0, o.err.value)]),
                  ComplianceCheck(), s.(payload := o.payload), 0, now);
      }
    }
  }

  /** The compliance definition's reaction to an event, seen at the row the event names. */
  lemma OwnStep(st: State<World>, id: nat, ev: Event, now: int)
    requires Inv(st, Registered()) && ev.entity == Some(id)
    ensures var end := HandleDefinition(st, ComplianceCheck(), ev, now);
            CheckKey(id) in end.store ==> Kept(st, end, id) || Claimed(st, end, Deliver(ev, now), id, ev, now)
  {
    var key, def := CheckKey(id), ComplianceCheck();
    var found := Lookup(st.store, key, now);
    if found.Some? {
      RegisteredDistinct();
      FindOwn(Registered(), 0);
      assert StoredWell(Registered(), key, st.store[key]);
      AlertCompletes(st, found.value, ev, now);
    } else if StartsWith(def, ev) {
      ClaimStep(Load(st, key, now), Deliver(ev, now), id, ev, now);
    }
  }

  /** The definitions other than the compliance workflow's own reaction leave the instance and the row alone. */
  lemma OtherStep(st: State<World>, d: nat, ev: Event, now: int, id: nat)
    requires Inv(st, Registered()) && d < 4 && (d != 0 || ev.entity != Some(id))
    ensures var st' := HandleDefinition(st, Registered()[d], ev, now);
            Inv(st', Registered()) && SameEntry(st, st', id) && RowKept(st.world, st'.world, id)
  {
    RegisteredDistinct();
    HandleLeavesRow(st, d, ev, now, id);
    if ev.entity.Some? {
      var own := Key(Registered()[d].sagaType, ev.entity.value);
      assert Registered()[0].sagaType == CHECK;
      FindOwn(Registered(), d);
      InvSettled(st, Registered(), d, own);
      HandleDefinitionTrace(st, Registered(), d, ev, now);
      SettledInv(st, HandleDefinition(st, Registered()[d], ev, now), Registered(), d, own);
    }
  }

  lemma OwnKeepsInv(st: State<World>, ev: Event, now: int)
    requires Inv(st, Registered()) && ev.entity.Some?
    ensures Inv(HandleDefinition(st, ComplianceCheck(), ev, now), Registered())
  {
    RegisteredDistinct();
    var own := Key(Registered()[0].sagaType, ev.entity.value);
    FindOwn(Registered(), 0);
    InvSettled(st, Registered(), 0, own);
    HandleDefinitionTrace(st, Registered(), 0, ev, now);
    SettledInv(st, HandleDefinition(st, Registered()[0], ev, now), Registered(), 0, own);
  }

  lemma {:induction false} LaterDefinitions(st: State<World>, d: nat, ev: Event, now: int, id: nat)
    requires Inv(st, Registered()) && 1 <= d <= 4
    ensures var st' := Route(st, Registered(), d, ev, now);
            SameEntry(st, st', id) && RowKept(st.world, st'.world, id)
    decreases 4 - d
  {
    if d < 4 {
      if ev.subject in Registered()[d].subjects {
        OtherStep(st, d, ev, now, id);
        LaterDefinitions(HandleDefinition(st, Registered()[d], ev, now), d + 1, ev, now, id);
      } else {
        LaterDefinitions(st, d + 1, ev, now, id);
      }
    }
  }

  lemma RouteStep(st: State<World>, id: nat, ev: Event, now: int)
    requires Inv(st, Registered())
    ensures StepAt(st, Route(st, Registered(), 0, ev, now), Deliver(ev, now), id)
  {
    var def := ComplianceCheck();
    assert Registered()[0] == def;
    if ev.subject in def.subjects {
      var mid := HandleDefinition(st, def, ev, now);
      if ev.entity == Some(id) {
        OwnStep(st, id, ev, now);
        OwnKeepsInv(st, ev, now);
        if Claimed(st, mid, Deliver(ev, now), id, ev, now) {
          SubjectsDiffer(ev);
          UnsubscribedRoute(mid, 1, ev, now);
        }
      } else {
        OtherStep(st, 0, ev, now, id);
      }
      LaterDefinitions(mid, 1, ev, now, id);
    } else {
      LaterDefinitions(st, 1, ev, now, id);
    }
  }

  lemma RaceStep(st: State<World>, d: nat, entity: nat, ev: Event, now: int, id: nat)
    requires Inv(st, Registered()) && d < 4 && StartsWith(Registered()[d], ev)
    ensures StepAt(st, Claim(st, Registered()[d], entity, ev, now), Race(d, entity, ev, now), id)
  {
    assert Registered()[0] == ComplianceCheck();
    if d == 0 && entity == id {
      ClaimStep(st, Race(0, id, ev, now), id, ev, now);
    } else {
      RegisteredDistinct();
      assert Registered()[0].sagaType == CHECK;
      FindOwn(Registered(), d);
      InvSettled(st, Registered(), d, Key(Registered()[d].sagaType, entity));
      ClaimTrace(st, Registered(), d, entity, ev, now);
      ClaimLeavesRow(st, d, entity, ev, now, id);
    }
  }

  // ----- Timing out -----

  /** The stored instance has made no progress for the timeout. */
  predicate TimedOutAt(st: State<World>, id: nat, timeout: int, now: int) {
    && CheckKey(id) in st.store && !Lapsed(st.store[CheckKey(id)], now)
    && now - st.store[CheckKey(id)].value.updatedAt >= timeout
  }

  /** The stored instance carries what evaluate left when it ran over `w0`, where the row existed. */
  ghost predicate Carries(st: State<World>, id: nat, w0: World, ev: Event, t0: int) {
    && id in w0.compliances && CheckKey(id) in st.store
    && st.store[CheckKey(id)].value.payload == Evaluate(w0, map[], id, ev, t0).payload
  }

  /** Reaping a timed-out compliance instance fails it at its second step. */
  lemma ReapFails(st: State<World>, id: nat, timeout: int, now: int)
    requires Inv(st, Registered()) && TimedOutAt(st, id, timeout, now)
    ensures Sweepable(st.store, Registered())
    ensures var s := st.store[CheckKey(id)].value;
            var failed := Fail(st, ComplianceCheck(), s, 1, TIMEOUT_CAUSE, now);
            s.id == CheckKey(id) && Reap(st, Registered(), timeout, CheckKey(id), now) == failed
  {
    RegisteredDistinct();
    InvSweepable(st, Registered());
    FindOwn(Registered(), 0);
    assert StoredWell(Registered(), CheckKey(id), st.store[CheckKey(id)]);
    ReapCases(st, Registered(), timeout, 0, CheckKey(id), now);
  }

  /** Reaping it writes back the status from before evaluate exactly if evaluate flipped it, it was not empty, the row
      still exists and the write succeeds, whatever other writers made of the row; nothing else changes. */
  lemma ReapExactly(st: State<World>, id: nat, w0: World, ev: Event, t0: int, timeout: int, now: int)
    requires Inv(st, Registered()) && TimedOutAt(st, id, timeout, now) && Carries(st, id, w0, ev, t0)
    ensures Sweepable(st.store, Registered())
    ensures var st' := Reap(st, Registered(), timeout, CheckKey(id), now);
            && CheckKey(id) !in st'.store && (st.world.faults == [] ==> st'.world.faults == [])
            && st'.world.compliances ==
               if Flips(w0, id, t0) && w0.compliances[id].status != "" && !Fault(st.world) && id in st.world.compliances
               then st.world.compliances[id := st.world.compliances[id].(status := w0.compliances[id].status)]
               else st.world.compliances
  {
    ReapFails(st, id, timeout, now);
    var s := st.store[CheckKey(id)].value;
    UndoComplianceCheck(st, s, 1, now);
    UndoFrame(st, ComplianceCheck(), s, 1, now);
    UndoEvaluateExactly(w0, id, ev, t0, st.world, now);
  }

  /** The row exists and has the status that evaluate, run over `w0`, left it with. */
  ghost predicate AsLeft(w0: World, w: World, id: nat, ev: Event, t0: int) {
    var left := Evaluate(w0, map[], id, ev, t0).world.compliances;
    id in w0.compliances && id in left && id in w.compliances && w.compliances[id].status == left[id].status
  }

  /** So if nobody else changed the status, it is restored exactly if evaluate had left it alone or the compensating
      write goes through (an empty status is never written back). */
  lemma ReapRestores(st: State<World>, id: nat, w0: World, ev: Event, t0: int, timeout: int, now: int)
    requires Inv(st, Registered()) && TimedOutAt(st, id, timeout, now) && Carries(st, id, w0, ev, t0)
    requires AsLeft(w0, st.world, id, ev, t0)
    ensures Sweepable(st.store, Registered())
    ensures var st' := Reap(st, Registered(), timeout, CheckKey(id), now);
            CheckKey(id) !in st'.store && Restored(w0, id, st.world, st'.world)
  {
    ReapExactly(st, id, w0, ev, t0, timeout, now);
    EvaluatePayload(w0, id, ev, t0);
    assert st.world.compliances[id := st.world.compliances[id]] == st.world.compliances;
  }

  lemma FailLeavesRow(st: State<World>, d: nat, s: Saga, i: nat, cause: string, now: int, id: nat)
    requires d < 4 && i < |Registered()[d].steps| && s.id.sagaType == Registered()[d].sagaType && s.id != CheckKey(id)
    ensures var st' := Fail(st, Registered()[d], s, i, cause, now);
            SameRow(st.world, st'.world, id) && SameEntry(st, st', id)
  {
    assert Registered()[0].sagaType == CHECK;
    UndoLeavesRow(st, d, s, i, now, id);
    UndoFrame(st, Registered()[d], s, i, now);
  }

  /** Reaping another key leaves the row, and this instance, alone. */
  lemma ReapLeavesRow(st: State<World>, timeout: int, key: Key, now: int, id: nat)
    requires Inv(st, Registered()) && (key != CheckKey(id) || key !in st.store)
    ensures Sweepable(st.store, Registered()) && Inv(Reap(st, Registered(), timeout, key, now), Registered())
    ensures var st' := Reap(st, Registered(), timeout, key, now);
            SameRow(st.world, st'.world, id) && SameEntry(st, st', id)
  {
    RegisteredDistinct();
    InvSweepable(st, Registered());
    ReapKeepsInv(st, Registered(), timeout, key, now);
    if key in st.store {
      assert StoredWell(Registered(), key, st.store[key]);
      var d := Find(Registered(), key.sagaType).value;
      ReapCases(st, Registered(), timeout, d, key, now);
      FailLeavesRow(st, d, st.store[key].value, st.store[key].value.currentStep, TIMEOUT_CAUSE, now, id);
    }
  }

  lemma {:induction false} SweepLeavesRow(st: State<World>, timeout: int, keys: seq<Key>, now: int, id: nat)
    requires Inv(st, Registered()) && CheckKey(id) !in st.store
    ensures Sweepable(st.store, Registered())
    ensures SameRow(st.world, Sweep(st, Registered(), timeout, keys, now).world, id)
    decreases |keys|
  {
    InvSweepable(st, Registered());
    if keys != [] {
      ReapLeavesRow(st, timeout, keys[0], now, id);
      SweepLeavesRow(Reap(st, Registered(), timeout, keys[0], now), timeout, keys[1..], now, id);
    }
  }

  lemma OwnReap(st: State<World>, timeout: int, id: nat, now: int)
    requires Inv(st, Registered()) && Sweepable(st.store, Registered()) && CheckKey(id) in st.store
    ensures var st' := Reap(st, Registered(), timeout, CheckKey(id), now);
            Inv(st', Registered()) && (CheckKey(id) in st'.store ==> st' == st)
  {
    RegisteredDistinct();
    FindOwn(Registered(), 0);
    assert StoredWell(Registered(), CheckKey(id), st.store[CheckKey(id)]);
    ReapCases(st, Registered(), timeout, 0, CheckKey(id), now);
    ReapKeepsInv(st, Registered(), timeout, CheckKey(id), now);
    UndoFrame(st, ComplianceCheck(), st.store[CheckKey(id)].value, 1, now);
  }

  lemma ReapStep(st: State<World>, timeout: int, key: Key, now: int, id: nat)
    requires Inv(st, Registered()) && Sweepable(st.store, Registered())
    ensures var st' := Reap(st, Registered(), timeout, key, now);
            Inv(st', Registered()) && (CheckKey(id) in st'.store ==> Kept(st, st', id))
  {
    if key != CheckKey(id) || key !in st.store {
      ReapLeavesRow(st, timeout, key, now, id);
    } else {
      OwnReap(st, timeout, key.entity, now);
    }
  }

  /** A sweep that leaves the instance stored has not touched it, or the row. */
  lemma {:induction false} SweepStep(st: State<World>, timeout: int, keys: seq<Key>, now: int, id: nat)
    requires Inv(st, Registered()) && Sweepable(st.store, Registered())
    ensures StepAt(st, Sweep(st, Registered(), timeout, keys, now), SweepAt(keys, now), id)
    decreases |keys|
  {
    if keys != [] {
      var mid := Reap(st, Registered(), timeout, keys[0], now);
      ReapStep(st, timeout, keys[0], now, id);
      SweepStep(mid, timeout, keys[1..], now, id);
    }
  }

  lemma DeliverStep(st: State<World>, ev: Event, now: int, id: nat)
    requires Inv(st, Registered())
    ensures StepAt(st, HandleEvent(st, Registered(), ev, now), Deliver(ev, now), id)
  {
    if ev.id != "" && !EventDedup.Duplicate(st.ring, ev.id) {
      var admitted := st.(ring := EventDedup.Admit(st.ring, ev.id, now));
      RingIrrelevant(st, admitted, Registered());
      RouteStep(admitted, id, ev, now);
      SameStep(st, admitted, Route(admitted, Registered(), 0, ev, now), Deliver(ev, now), id);
    }
  }

  lemma SameStep(st: State<World>, st1: State<World>, st': State<World>, input: Input, id: nat)
    requires SameButRing(st, st1) && StepAt(st1, st', input, id)
    ensures StepAt(st, st', input, id)
  {
    if CheckKey(id) in st'.store && !Kept(st, st', id) {
      var ev, t0 :| Claimed(st1, st', input, id, ev, t0);
      assert Claimed(st, st', input, id, ev, t0);
    }
  }

  lemma ApplyStep(st: State<World>, timeout: int, input: Input, id: nat)
    requires Inv(st, Registered()) && Sweepable(st.store, Registered())
    ensures StepAt(st, Apply(st, Registered(), timeout, input), input, id)
  {
    match input
    case Deliver(ev, now) => DeliverStep(st, ev, now, id);
    case Race(d, entity, ev, now) =>
      if d < 4 && StartsWith(Registered()[d], ev) {
        RaceStep(st, d, entity, ev, now, id);
      }
    case SweepAt(keys, now) => SweepStep(st, timeout, keys, now, id);
  }

  /** With a healthy database a sweep that lists a timed-out instance does just that to its row, whatever else it
      sweeps. */
  lemma {:induction false} SweepExactly(st: State<World>, timeout: int, keys: seq<Key>, now: int,
                                        id: nat, w0: World, ev: Event, t0: int)
    requires Inv(st, Registered()) && st.world.faults == [] && CheckKey(id) in keys
    requires TimedOutAt(st, id, timeout, now) && Carries(st, id, w0, ev, t0)
    ensures Sweepable(st.store, Registered())
    ensures WrittenBack(w0, st.world, Sweep(st, Registered(), timeout, keys, now).world, id, t0)
    decreases |keys|
  {
    InvSweepable(st, Registered());
    var mid := Reap(st, Registered(), timeout, keys[0], now);
    if keys[0] == CheckKey(id) {
      RegisteredDistinct();
      ReapExactly(st, id, w0, ev, t0, timeout, now);
      ReapKeepsInv(st, Registered(), timeout, keys[0], now);
      SweepLeavesRow(mid, timeout, keys[1..], now, id);
    } else {
      ReapLeavesRow(st, timeout, keys[0], now, id);
      SweepExactly(mid, timeout, keys[1..], now, id, w0, ev, t0);
    }
  }

  /** From `w` to `w'` row `id`, if it exists, gets back its status of `w0` exactly if evaluate flipped it and it was
      not empty, and is otherwise left alone. */
  ghost predicate WrittenBack(w0: World, w: World, w': World, id: nat, t0: int)
    requires id in w0.compliances
  {
    && (id in w'.compliances <==> id in w.compliances)
    && (id in w.compliances ==>
          w'.compliances[id] ==
          if Flips(w0, id, t0) && w0.compliances[id].status != ""
          then w.compliances[id].(status := w0.compliances[id].status) else w.compliances[id])
  }
}
