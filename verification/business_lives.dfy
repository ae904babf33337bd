/** The four workflows from their first event to their last: what each leaves in the tables. */
module BusinessLives {
  import opened Wrappers
  import opened Clock
  import opened TimedCache
  import opened SagaModel
  import opened SagaRecent
  import opened SagaReports
  import opened BusinessSagas
  import opened BusinessSteps

  /** A created or updated compliance, judged and announced: the row has the status of the rule, the alert is queued
      exactly if the status flipped or the row is new, and the alert event completes the workflow. */
  lemma ComplianceLife(st: State<World>, id: nat, written: Event, t0: int, alert: Event, t1: int)
    requires Truthful(st) && Key("compliance_check", id) !in st.store && t1 <= t0 + 7 * DAY
    requires st.world.faults == [] && id in st.world.compliances
    requires st.world.compliances[id].status != DRAFT && st.world.compliances[id].status != ARCHIVED
    requires written.subject == "compliance.created" || written.subject == "compliance.updated"
    requires alert.subject == "compliance.alert" && written.entity == alert.entity == Some(id)
    ensures var mid := HandleDefinition(st, ComplianceCheck(), written, t0);
            var end := HandleDefinition(mid, ComplianceCheck(), alert, t1);
            var judged := EvaluateCompliance(st.world.compliances[id], t0).0;
            && end.world.compliances == st.world.compliances[id := st.world.compliances[id].(status := judged)]
            && end.world.outbox == st.world.outbox
               + (if judged != st.world.compliances[id].status || written.subject == "compliance.created"
                  then [Queued("compliance.alert", id, judged)] else [])
            && Newest(end.recent, Key("compliance_check", id))
            == Some(Summary(Key("compliance_check", id), Completed, 2, "", t0, t1, Some(t1)))
  {
    var def, w := ComplianceCheck(), st.world;
    var o := Evaluate(w, map[], id, written, t0);
    WrittenIsNoAlert(written);
    assert Tick(w) == w;
    EvaluateEndsExactly(w, id, written, t0);
    EvaluatePayload(w, id, written, t0);
    EvaluateAlertsExactly(w, id, written, t0);
    assert w.compliances[id := w.compliances[id]] == w.compliances;
    assert def.steps[0].action(w, map[], id, written, t0) == o;
    assert def.steps[1].action(o.world, o.payload, id, alert, t1) == Alert(o.world, o.payload, id, alert, t1);
    TwoStepLife(st, def, Key("compliance_check", id), written, t0, alert, t1);
  }

  lemma WrittenIsNoAlert(ev: Event)
    requires ComplianceWritten(ev)
    ensures !ComplianceAlerted(ev)
  {
    assert ev.subject[11] == 'c' || ev.subject[11] == 'u';
    assert "compliance.alert"[11] == 'a';
  }

  /** A violation without a live action, detected and resolved: one action is opened and completed, and both of its
      events are queued. */
  lemma ViolationLife(st: State<World>, id: nat, detected: Event, t0: int, resolved: Event, t1: int)
    requires Truthful(st) && Key("violation_processing", id) !in st.store && t1 <= t0 + 7 * DAY
    requires st.world.faults == [] && id in st.world.violations && !Tracked(st.world.actions, id)
    requires detected.subject == "violation.detected" && resolved.subject == "violation.resolved"
    requires detected.entity == resolved.entity == Some(id)
    ensures var mid := HandleDefinition(st, ViolationProcessing(), detected, t0);
            var end := HandleDefinition(mid, ViolationProcessing(), resolved, t1);
            var next := st.world.nextId;
            && end.world.actions
               == st.world.actions + [CorrectiveAction(next, id, COMPLETED, "", None, Some(t1), true)]
            && end.world.outbox == st.world.outbox + [Queued("correctiveaction.created", next, OPEN),
                                                      Queued("correctiveaction.completed", next, OPEN)]
            && Newest(end.recent, Key("violation_processing", id))
            == Some(Summary(Key("violation_processing", id), Completed, 2, "", t0, t1, Some(t1)))
  {
    var def, w := ViolationProcessing(), st.world;
    assert detected.subject[10] == 'd' && resolved.subject[10] == 'r';
    assert Tick(w) == w;
    var o := Detect(w, map[], id, detected, t0);
    DetectExactly(w, map[], id, detected, t0);
    DetectHealthy(w, id, detected, t0);
    var k := |w.actions|;
    OnlyNewIsOpen(w.actions, o.world.actions[k], id);
    ResolveSucceedsExactly(o.world, o.payload, id, resolved, t1);
    ResolveExactly(o.world, o.payload, id, resolved, t1, k);
    assert def.steps[0].action(w, map[], id, detected, t0) == o;
    assert def.steps[1].action(o.world, o.payload, id, resolved, t1) == Resolve(o.world, o.payload, id, resolved, t1);
    TwoStepLife(st, def, Key("violation_processing", id), detected, t0, resolved, t1);
  }

  lemma DetectHealthy(w: World, id: nat, ev: Event, now: int)
    requires w.faults == [] && Tick(w) == w
    ensures Detect(w, map[], id, ev, now).world.faults == []
  {
    if id in w.violations {
      var v := w.violations[id];
      TrackHealthy(w, map[]["severity" := Text(v.severity)]["detected_at" := TimeField(v.detectedAt)], id);
    }
  }

  lemma TrackHealthy(w: World, p: Payload, id: nat)
    requires w.faults == []
    ensures Track(w, p, id).world.faults == []
  {
  }

  lemma OnlyNewIsOpen(actions: seq<CorrectiveAction>, a: CorrectiveAction, id: nat)
    requires !Tracked(actions, id) && Tracks(a, id, true)
    ensures FirstOpen(actions + [a], id, |actions|)
  {
    assert (actions + [a])[..|actions|] == actions;
    forall j | 0 <= j < |actions| ensures !Tracks(actions[j], id, true) {
      assert !Tracks(actions[j], id, false);
    }
  }

  /** An audit, scheduled, started and completed: each event reads its own instant of the row, and the last one
      completes the workflow; an audit event of another status starts nothing. */
  lemma AuditLife(st: State<World>, id: nat, scheduled: Event, t0: int, started: Event, t1: int, done: Event, t2: int)
    requires Truthful(st) && Key("audit_execution", id) !in st.store
    requires t1 <= t0 + 7 * DAY && t2 <= t1 + 7 * DAY
    requires st.world.faults == [] && id in st.world.audits
    requires scheduled.subject == "audit.scheduled"
    requires started.subject == "audit.started" && done.subject == "audit.completed"
    requires scheduled.entity == started.entity == done.entity == Some(id)
    ensures scheduled.status != "scheduled" ==> HandleDefinition(st, AuditExecution(), scheduled, t0) == st
    ensures scheduled.status == "scheduled" ==>
              var one := HandleDefinition(st, AuditExecution(), scheduled, t0);
              var two := HandleDefinition(one, AuditExecution(), started, t1);
              var end := HandleDefinition(two, AuditExecution(), done, t2);
              var key, row := Key("audit_execution", id), st.world.audits[id];
              && key in two.store
              && two.store[key].value.payload
              == map["scheduled_at" := TimeField(row.scheduledAt), "started_at" := TimeField(row.startedAt)]
              && end.world == st.world && key !in end.store && end.completed == st.completed + 1
              && Newest(end.recent, key) == Some(Summary(key, Completed, 3, "", t0, t2, Some(t2)))
  {
    var def, w, key := AuditExecution(), st.world, Key("audit_execution", id);
    assert scheduled.subject[6] == started.subject[6] == 's' && done.subject[6] == 'c';
    assert scheduled.subject[7] == 'c' && started.subject[7] == 't';
    assert Tick(w) == w;
    if scheduled.status == "scheduled" {
      var p0 := AuditReads(w, map[], id, scheduled, t0, 0);
      var p1 := AuditReads(w, p0, id, started, t1, 1);
      var p2 := AuditReads(w, p1, id, done, t2, 2);
      assert p0 == map["scheduled_at" := TimeField(w.audits[id].scheduledAt)];
      ThreeStepLife(st, def, key, scheduled, t0, started, t1, done, t2);
    }
  }

  /** Each step of an audit, without faults, reads its own instant of the row and nothing else. */
  lemma AuditReads(w: World, p: Payload, id: nat, ev: Event, now: int, i: nat) returns (p': Payload)
    requires w.faults == [] && id in w.audits && i < 3
    ensures var row := w.audits[id];
            p' == if i == 0 then p["scheduled_at" := TimeField(row.scheduledAt)]
                  else if i == 1 then p["started_at" := TimeField(row.startedAt)]
                  else p["completed_at" := TimeField(row.completedAt)]
    ensures AuditExecution().steps[i].action(w, p, id, ev, now) == Outcome(w, p', None)
  {
    assert Tick(w) == w;
    AuditStepExactly(w, p, id, ev, now, i);
    p' := AuditExecution().steps[i].action(w, p, id, ev, now).payload;
  }

  // ----- Failing on the way -----

  /** An audit workflow that waits for its start or its completion and whose row cannot be loaded when that event comes
      is listed as failed at that very step, with the reason. */
  lemma AuditFails(st: State<World>, id: nat, ev: Event, now: int, i: nat)
    requires Truthful(st) && Key("audit_execution", id) in st.store && 1 <= i < 3
    requires var item := st.store[Key("audit_execution", id)]; !Lapsed(item, now) && item.value.currentStep == i
    requires ev.entity == Some(id) && ev.subject == if i == 1 then "audit.started" else "audit.completed"
    requires Fault(st.world) || id !in st.world.audits
    ensures var key, end := Key("audit_execution", id), HandleDefinition(st, AuditExecution(), ev, now);
            && key !in end.store && end.failed == st.failed + 1
            && Newest(end.recent, key)
            == Some(Summary(key, Failed, i, "load audit", st.store[key].value.createdAt, now, None))
  {
    var key := Key("audit_execution", id);
    AuditStepExactly(st.world, st.store[key].value.payload, id, ev, now, i);
    FailureIsListed(st, AuditExecution(), key, ev, now, "load audit");
  }

  /** What a rollback of the violation workflow does to the tables: detect's compensator, once. */
  lemma UndoViolation(st: State<World>, s: Saga, t: int)
    ensures Undo(st, ViolationProcessing(), s, 1, t).0.world == UndoDetect(st.world, s.payload, s.id.entity, t).world
  {
    var def := ViolationProcessing();
    var o := UndoDetect(st.world, s.payload, s.id.entity, t);
    var st1 := st.(world := o.world, log := st.log + [Undone(s.id, 0)]);
    assert Undo(st1, def, s.(payload := o.payload), -1, t).0 == st1;
    assert Undo(st, def, s, 0, t).0 == st1;
  }

  lemma ResolvedAtIsNoAction(w: World, p: Payload, id: nat, t: int)
    ensures UndoDetect(w, p["resolved_at" := Stamp(t)], id, t).world == UndoDetect(w, p, id, t).world
  {
    assert "resolved_at"[0] == 'r' && "corrective_action_id"[0] == 'c';
  }

  /** The resolve of a stored violation workflow fails: the engine runs detect's compensator over the tables resolve
      left, and lists the failure at step 1 with the reason. */
  lemma ResolveFails(st: State<World>, id: nat, resolved: Event, now: int)
    requires Truthful(st) && Key("violation_processing", id) in st.store
    requires var item := st.store[Key("violation_processing", id)]; !Lapsed(item, now) && item.value.currentStep == 1
    requires resolved.entity == Some(id) && resolved.subject == "violation.resolved"
    requires Resolve(st.world, st.store[Key("violation_processing", id)].value.payload, id, resolved, now).err.Some?
    ensures var key, end := Key("violation_processing", id), HandleDefinition(st, ViolationProcessing(), resolved, now);
            var s := st.store[key].value;
            var o := Resolve(st.world, s.payload, id, resolved, now);
            && key !in end.store && end.failed == st.failed + 1
            && end.world == UndoDetect(o.world, s.payload, id, now).world
            && Newest(end.recent, key) == Some(Summary(key, Failed, 1, o.err.value, s.createdAt, now, None))
  {
    var def, key := ViolationProcessing(), Key("violation_processing", id);
    var s := st.store[key].value;
    assert TruthfulAt(st, key);
    var o := Resolve(st.world, s.payload, id, resolved, now);
    assert def.steps[1].action(st.world, s.payload, id, resolved, now) == o;
    FailureIsListed(st, def, key, resolved, now, o.err.value);
    ResolveErrors(st.world, s.payload, id, resolved, now);
    var broken := st.(world := o.world, log := st.log + [Broke(key, 1, o.err.value)]);
    UndoViolation(broken, s.(payload := o.payload), now);
    ResolvedAtIsNoAction(o.world, s.payload, id, now);
  }

  /** Main result: a violation is detected, others change the tables as they like, and its resolve fails at the
      database. Then the workflow is listed as failed at resolve with the reason, and of all corrective actions
      exactly the one that tracked the violation after detect is soft-deleted, if it is still live and open and the
      two calls of the rollback go through. */
  lemma ViolationRollback(st: State<World>, w: World, id: nat, detected: Event, t0: int, resolved: Event, t1: int,
                          k: nat)
    requires Truthful(st) && Key("violation_processing", id) !in st.store && t1 <= t0 + 7 * DAY
    requires detected.subject == "violation.detected" && resolved.subject == "violation.resolved"
    requires detected.entity == resolved.entity == Some(id)
    requires Detect(st.world, map[], id, detected, t0).err.None?
    requires Fault(w) || (!NoneOpen(w.actions, id) && Fault(Tick(w)))
    requires UniqueActions(w.actions) && k < |w.actions|
    ensures var key, mid := Key("violation_processing", id), HandleDefinition(st, ViolationProcessing(), detected, t0);
            var end := HandleDefinition(mid.(world := w), ViolationProcessing(), resolved, t1);
            var left := if Fault(w) then Tick(w) else Tick(Tick(w));
            var tracking := TrackingAction(Detect(st.world, map[], id, detected, t0).world.actions, id);
            var undone := && Some(w.actions[k].id) == tracking && w.actions[k].live && w.actions[k].status == "open"
                          && !Fault(left) && !Fault(Tick(left));
            && key !in end.store
            && Newest(end.recent, key)
            == Some(Summary(key, Failed, 1, if Fault(w) then "find open corrective action"
                                            else "complete corrective action", t0, t1, None))
            && |end.world.actions| == |w.actions|
            && end.world.actions[k] == w.actions[k].(live := w.actions[k].live && !undone)
  {
    var def, key := ViolationProcessing(), Key("violation_processing", id);
    assert detected.subject[10] == 'd' && resolved.subject[10] == 'r';
    var o := Detect(st.world, map[], id, detected, t0);
    assert def.steps[0].action(st.world, map[], id, detected, t0) == o;
    FirstStepIsListed(st, def, key, detected, t0);
    HandleDefinitionTruthful(st, def, detected, t0);
    var mid := HandleDefinition(st, def, detected, t0);
    var changed := mid.(world := w);
    TablesKeepTruth(mid, changed);
    FailedResolveLeaves(w, o.payload, id, resolved, t1);
    ResolveFails(changed, id, resolved, t1);
    RollbackExactly(st.world, id, detected, t0, Resolve(w, o.payload, id, resolved, t1).world, t1, k);
  }

  lemma TablesKeepTruth<W>(st: State<W>, st': State<W>)
    requires Truthful(st) && st' == st.(world := st'.world)
    ensures Truthful(st')
  {
    forall key ensures TruthfulAt(st', key) {
      assert TruthfulAt(st, key);
    }
  }

  lemma FailedResolveLeaves(w: World, p: Payload, id: nat, ev: Event, now: int)
    requires Fault(w) || (!NoneOpen(w.actions, id) && Fault(Tick(w)))
    ensures var o := Resolve(w, p, id, ev, now);
            && o.err == Some(if Fault(w) then "find open corrective action" else "complete corrective action")
            && o.world == if Fault(w) then Tick(w) else Tick(Tick(w))
    ensures Tick(w).actions == w.actions && Tick(Tick(w)).actions == w.actions
  {
    ResolveErrors(w, p, id, ev, now);
    assert Tick(w).actions == w.actions;
  }
}
