/** What each step of the four workflows records in the saga and reports when it fails, over any tables and faults. */
module BusinessSteps {
  import opened Wrappers
  import opened SagaModel
  import opened BusinessSagas

  /** A successful evaluate records why it judged as it did, the status judged, whether that is a change, and, exactly
      then, the status before; of a draft or archived row it records only that it was passed over. */
  lemma EvaluateRecords(w: World, id: nat, ev: Event, now: int)
    requires Evaluate(w, map[], id, ev, now).err.None?
    ensures id in w.compliances
    ensures var c, p := w.compliances[id], Evaluate(w, map[], id, ev, now).payload;
            var (judged, reason) := EvaluateCompliance(c, now);
            p == if c.status == "draft" || c.status == "archived"
                 then map["reason" := Text("draft or archived: no evaluation")]
                 else if judged == c.status
                 then map["reason" := Text(reason), "status" := Text(judged), "changed" := Flag(false)]
                 else map["before_status" := Text(c.status), "reason" := Text(reason), "status" := Text(judged),
                          "changed" := Flag(true)]
  {
  }

  /** The compensator of evaluate, over any payload: it writes back a recorded status that is neither empty nor the one
      evaluate judged, and reports exactly whether that write failed. */
  lemma UndoEvaluateReports(w: World, p: Payload, id: nat, now: int)
    ensures var o, before := UndoEvaluate(w, p, id, now), TextAt(p, "before_status");
            var due := before != "" && ("status" in p ==> p["status"] != Text(before));
            && o.payload == p
            && (o.err.None? <==> !due || (!Fault(w) && id in w.compliances))
            && (!due ==> o.world == w)
            && (due && o.err.None? ==> id in o.world.compliances && o.world.compliances[id].status == before)
  {
  }

  /** A step of an audit fails exactly if the row is gone or cannot be read, and then records nothing; otherwise it
      records its own instant of the row. */
  lemma AuditStepExactly(w: World, p: Payload, id: nat, ev: Event, now: int, i: nat)
    requires i < 3
    ensures var o := AuditExecution().steps[i].action(w, p, id, ev, now);
            && o.world == Tick(w)
            && if Fault(w) || id !in w.audits then o.err == Some("load audit") && o.payload == p
               else var row := w.audits[id];
                    && o.err == None
                    && o.payload == if i == 0 then p["scheduled_at" := TimeField(row.scheduledAt)]
                                    else if i == 1 then p["started_at" := TimeField(row.startedAt)]
                                    else p["completed_at" := TimeField(row.completedAt)]
    ensures forall x: int :: TimeField(Some(x)) == Stamp(x) != TimeField(None)
  {
    match i
    case 0 => assert AuditExecution().steps[0].action(w, p, id, ev, now) == ScheduleAudit(w, p, id, ev, now);
    case 1 => assert AuditExecution().steps[1].action(w, p, id, ev, now) == StartAudit(w, p, id, ev, now);
    case _ => assert AuditExecution().steps[2].action(w, p, id, ev, now) == CompleteAudit(w, p, id, ev, now);
  }

  /** What detect says when it fails, by the first thing that went wrong. */
  lemma DetectErrors(w: World, p: Payload, id: nat, ev: Event, now: int)
    ensures Detect(w, p, id, ev, now).err ==
            if Fault(w) || id !in w.violations then Some("load violation")
            else if Fault(Tick(w)) then Some("find corrective action")
            else if !Tracked(w.actions, id) && Fault(Tick(Tick(w))) then Some("create corrective action") else None
  {
    assert Tick(Tick(w)).actions == w.actions;
    assert FirstAction(w.actions, id, false).Some? <==> Tracked(w.actions, id);
  }

  /** And resolve; in every case it has recorded when it ran. */
  lemma ResolveErrors(w: World, p: Payload, id: nat, ev: Event, now: int)
    ensures var o := Resolve(w, p, id, ev, now);
            && o.payload == p["resolved_at" := Stamp(now)]
            && o.err == if Fault(w) then Some("find open corrective action")
                        else if !NoneOpen(w.actions, id) && Fault(Tick(w)) then Some("complete corrective action")
                        else None
  {
    assert Tick(w).actions == w.actions;
    assert FirstAction(w.actions, id, true).None? <==> NoneOpen(w.actions, id);
  }

  /** Assigning a corrective action fails exactly if no live one has that id or it cannot be read; otherwise owner and
      due date of the action with that id are recorded. */
  lemma AssignExactly(w: World, p: Payload, id: nat, ev: Event, now: int, k: nat)
    requires UniqueActions(w.actions) && k < |w.actions| && w.actions[k].id == id
    ensures var o := Assign(w, p, id, ev, now);
            && o.world == Tick(w)
            && if Fault(w) || !w.actions[k].live then o.err == Some("load corrective action") && o.payload == p
               else && o.err == None
                    && o.payload == p["owner_id" := Text(w.actions[k].ownerId)]
                                     ["due_date" := TimeField(w.actions[k].dueDate)]
  {
    if w.actions[k].live {
      ActionByIdUnique(w.actions, k);
    }
  }

  /** The last steps of the compliance and corrective-action workflows cannot fail, and record when they ran. */
  lemma LastSteps(w: World, p: Payload, id: nat, ev: Event, now: int)
    ensures ComplianceCheck().steps[1].action(w, p, id, ev, now) == Outcome(w, p["alerted_at" := Stamp(now)], None)
    ensures CorrectiveActionFlow().steps[1].action(w, p, id, ev, now)
            == Outcome(w, p["completed_at" := Stamp(now)], None)
  {
    assert ComplianceCheck().steps[1].action(w, p, id, ev, now) == Alert(w, p, id, ev, now);
    assert CorrectiveActionFlow().steps[1].action(w, p, id, ev, now) == Close(w, p, id, ev, now);
  }
}
