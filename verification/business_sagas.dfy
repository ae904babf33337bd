/** The four registered workflows (backend/internal/saga/sagas.go) over the tables they read and write. */
module BusinessSagas {
  import opened Wrappers
  import opened SagaModel
  import opened SagaTrace
  import SagaRuns

  // ----- Tables -----

  datatype Compliance = Compliance(status: string, dueDate: Option<int>, lastReviewedAt: Option<int>)

  datatype Audit = Audit(scheduledAt: Option<int>, startedAt: Option<int>, completedAt: Option<int>)

  datatype Violation = Violation(severity: string, detectedAt: Option<int>)

  /** `live` is false once the row is soft-deleted. */
  datatype CorrectiveAction = CorrectiveAction(id: nat, violation: nat, status: string, ownerId: string,
                                               dueDate: Option<int>, completedAt: Option<int>, live: bool)

  datatype Queued = Queued(subject: string, entity: nat, status: string)

  /** Maps hold the live rows; corrective actions stand in primary-key order. Each database call takes the next
      element of `faults` and fails when it is true. */
  datatype World = World(compliances: map<nat, Compliance>, audits: map<nat, Audit>, violations: map<nat, Violation>,
                         actions: seq<CorrectiveAction>, outbox: seq<Queued>, nextId: nat, faults: seq<bool>)

  predicate Fault(w: World) {
    w.faults != [] && w.faults[0]
  }

  function Tick(w: World): World {
    if w.faults == [] then w else w.(faults := w.faults[1..])
  }

  const DRAFT := "draft"
  const ARCHIVED := "archived"
  const COMPLIANT := "compliant"
  const NON_COMPLIANT := "non_compliant"
  const OPEN := "open"
  const COMPLETED := "completed"
  const SCHEDULED := "scheduled"

  function Bad(w: World, p: Payload, message: string): Outcome<World> {
    Outcome(w, p, Some(message))
  }

  function Good(w: World, p: Payload): Outcome<World> {
    Outcome(w, p, None)
  }

  function TimeField(t: Option<int>): Scalar {
    if t.None? then Text("") else Stamp(t.value)
  }

  // ----- ComplianceCheck -----

  function EvaluateCompliance(c: Compliance, now: int): (string, string) {
    if c.dueDate.Some? && now > c.dueDate.value then
      if c.lastReviewedAt.None? || c.lastReviewedAt.value < c.dueDate.value then
        (NON_COMPLIANT, "due date passed without a review")
      else (COMPLIANT, "reviewed after due date")
    else (COMPLIANT, "within due date")
  }

  predicate ComplianceWritten(ev: Event) {
    ev.subject == "compliance.created" || ev.subject == "compliance.updated"
  }

  predicate ComplianceAlerted(ev: Event) {
    ev.subject == "compliance.alert"
  }

  function SetStatus(w: World, id: nat, status: string): World
    requires id in w.compliances
  {
    w.(compliances := w.compliances[id := w.compliances[id].(status := status)])
  }

  /** `repo.UpdatePartial` of the status column: the next world and whether it succeeded. */
  function UpdateStatus(w: World, id: nat, status: string): (World, bool) {
    if Fault(w) || id !in w.compliances then (Tick(w), false) else (SetStatus(Tick(w), id, status), true)
  }

  function Evaluate(w: World, p: Payload, id: nat, ev: Event, now: int): Outcome<World> {
    if Fault(w) || id !in w.compliances then Bad(Tick(w), p, "load compliance")
    else
      var c := w.compliances[id];
      if c.status == DRAFT || c.status == ARCHIVED then
        Good(Tick(w), p["reason" := Text("draft or archived: no evaluation")])
      else
        var (status, reason) := EvaluateCompliance(c, now);
        if status == c.status then
          Announce(Tick(w), Verdict(p, status, reason, false), id, status, ev.subject == "compliance.created")
        else
          var p1 := p["before_status" := Text(c.status)];
          var (w1, written) := UpdateStatus(Tick(w), id, status);
          if !written then Bad(w1, p1, "update compliance status")
          else Announce(w1, Verdict(p1, status, reason, true), id, status, true)
  }

  function Verdict(p: Payload, status: string, reason: string, changed: bool): Payload {
    p["reason" := Text(reason)]["status" := Text(status)]["changed" := Flag(changed)]
  }

  /** Queues the alert event when one is due. */
  function Announce(w: World, p: Payload, id: nat, status: string, due: bool): (o: Outcome<World>)
    ensures o.payload == p && o.world.compliances == w.compliances
  {
    if !due then Good(w, p)
    else if Fault(w) then Bad(Tick(w), p, "queue compliance alert")
    else Good(Tick(w).(outbox := w.outbox + [Queued("compliance.alert", id, status)]), p)
  }

  function TextAt(p: Payload, key: string): string {
    if key in p && p[key].Text? then p[key].text else ""
  }

  function UndoEvaluate(w: World, p: Payload, id: nat, now: int): Outcome<World> {
    var before := TextAt(p, "before_status");
    if before == "" || ("status" in p && p["status"] == Text(before)) then Good(w, p)
    else
      var (w1, written) := UpdateStatus(w, id, before);
      if written then Good(w1, p) else Bad(w1, p, "update compliance")
  }

  function Alert(w: World, p: Payload, id: nat, ev: Event, now: int): Outcome<World> {
    Good(w, p["alerted_at" := Stamp(now)])
  }

  function ComplianceCheck(): Definition<World> {
    Definition("compliance_check", ["compliance.created", "compliance.updated", "compliance.alert"],
               [Step("evaluate", ComplianceWritten, Evaluate, Some(UndoEvaluate)),
                Step("alert", ComplianceAlerted, Alert, None)])
  }

  // ----- AuditExecution -----

  function ReadAudit(w: World, p: Payload, id: nat, field: string, read: Audit -> Option<int>): Outcome<World> {
    if Fault(w) || id !in w.audits then Bad(Tick(w), p, "load audit")
    else Good(Tick(w), p[field := TimeField(read(w.audits[id]))])
  }

  predicate AuditScheduled(ev: Event) {
    ev.subject == "audit.scheduled" && ev.status == SCHEDULED
  }

  function ScheduleAudit(w: World, p: Payload, id: nat, ev: Event, now: int): Outcome<World> {
    ReadAudit(w, p, id, "scheduled_at", (a: Audit) => a.scheduledAt)
  }

  function StartAudit(w: World, p: Payload, id: nat, ev: Event, now: int): Outcome<World> {
    ReadAudit(w, p, id, "started_at", (a: Audit) => a.startedAt)
  }

  function CompleteAudit(w: World, p: Payload, id: nat, ev: Event, now: int): Outcome<World> {
    ReadAudit(w, p, id, "completed_at", (a: Audit) => a.completedAt)
  }

  function On(subject: string): Event -> bool {
    (ev: Event) => ev.subject == subject
  }

  function AuditExecution(): Definition<World> {
    Definition("audit_execution", ["audit.scheduled", "audit.started", "audit.completed"],
               [Step("schedule", AuditScheduled, ScheduleAudit, None),
                Step("start", On("audit.started"), StartAudit, None),
                Step("complete", On("audit.completed"), CompleteAudit, None)])
  }

  // ----- ViolationProcessing -----

  /** Position of the first live corrective action of a violation, among the open ones only if asked. */
  function FirstAction(actions: seq<CorrectiveAction>, violation: nat, openOnly: bool): (i: Option<nat>)
    ensures i.Some? ==> i.value < |actions| && Tracks(actions[i.value], violation, openOnly)
    ensures i.None? ==> forall k :: 0 <= k < |actions| ==> !Tracks(actions[k], violation, openOnly)
    ensures i.Some? ==> forall k :: 0 <= k < i.value ==> !Tracks(actions[k], violation, openOnly)
  {
    if actions == [] then None
    else if Tracks(actions[0], violation, openOnly) then Some(0)
    else match FirstAction(actions[1..], violation, openOnly)
      case None => assert forall k :: 0 < k < |actions| ==> actions[k] == actions[1..][k - 1]; None
      case Some(i) => assert forall k :: 0 < k < |actions| ==> actions[k] == actions[1..][k - 1]; Some(i + 1)
  }

  predicate Tracks(a: CorrectiveAction, violation: nat, openOnly: bool) {
    a.live && a.violation == violation && (openOnly ==> a.status == OPEN)
  }

  /** Position of the live corrective action with this id. */
  function ActionById(actions: seq<CorrectiveAction>, id: nat): (i: Option<nat>)
    ensures i.Some? ==> i.value < |actions| && actions[i.value].live && actions[i.value].id == id
    ensures i.None? ==> forall k :: 0 <= k < |actions| ==> !(actions[k].live && actions[k].id == id)
  {
    if actions == [] then None
    else if actions[0].live && actions[0].id == id then Some(0)
    else match ActionById(actions[1..], id)
      case None => assert forall k :: 0 < k < |actions| ==> actions[k] == actions[1..][k - 1]; None
      case Some(i) => Some(i + 1)
  }

  function Detect(w: World, p: Payload, id: nat, ev: Event, now: int): (o: Outcome<World>)
    ensures o.world.compliances == w.compliances
  {
    if Fault(w) || id !in w.violations then Bad(Tick(w), p, "load violation")
    else
      var v := w.violations[id];
      Track(Tick(w), p["severity" := Text(v.severity)]["detected_at" := TimeField(v.detectedAt)], id)
  }

  /** Finds the corrective action of the violation, or opens one and queues its event. */
  function Track(w: World, p: Payload, id: nat): (o: Outcome<World>)
    ensures o.world.compliances == w.compliances
  {
    if Fault(w) then Bad(Tick(w), p, "find corrective action")
    else
      var w1 := Tick(w);
      match FirstAction(w1.actions, id, false)
      case Some(i) => Good(w1, p["corrective_action_id" := Ref(w1.actions[i].id)])
      case None =>
        if Fault(w1) then Bad(Tick(w1), p, "create corrective action")
        else
          var a := CorrectiveAction(w1.nextId, id, OPEN, "", None, None, true);
          var w2 := Tick(w1).(actions := w1.actions + [a], nextId := w1.nextId + 1);
          Good(EnqueueIgnoring(w2, Queued("correctiveaction.created", a.id, a.status)),
               p["corrective_action_id" := Ref(a.id)])
  }

  /** `_ = outbox.Enqueue(...)`: a failed insert is ignored. */
  function EnqueueIgnoring(w: World, q: Queued): World {
    if Fault(w) then Tick(w) else Tick(w).(outbox := w.outbox + [q])
  }

  function UndoDetect(w: World, p: Payload, id: nat, now: int): Outcome<World> {
    if "corrective_action_id" !in p || !p["corrective_action_id"].Ref? then Good(w, p)
    else if Fault(w) then Good(Tick(w), p)
    else
      var w1 := Tick(w);
      match ActionById(w1.actions, p["corrective_action_id"].id)
      case None => Good(w1, p)
      case Some(i) =>
        if w1.actions[i].status != OPEN then Good(w1, p)
        else if Fault(w1) then Bad(Tick(w1), p, "delete corrective action")
        else Good(Tick(w1).(actions := w1.actions[i := w1.actions[i].(live := false)]), p)
  }

  function Resolve(w: World, p: Payload, id: nat, ev: Event, now: int): (o: Outcome<World>)
    ensures o.world.compliances == w.compliances
  {
    var p1 := p["resolved_at" := Stamp(now)];
    if Fault(w) then Bad(Tick(w), p1, "find open corrective action")
    else
      var w1 := Tick(w);
      match FirstAction(w1.actions, id, true)
      case None => Good(w1, p1)
      case Some(i) =>
        if Fault(w1) then Bad(Tick(w1), p1, "complete corrective action")
        else
          var a := w1.actions[i];
          var w2 := Tick(w1).(actions := w1.actions[i := a.(status := COMPLETED, completedAt := Some(now))]);
          Good(EnqueueIgnoring(w2, Queued("correctiveaction.completed", a.id, a.status)), p1)
  }

  function ViolationProcessing(): Definition<World> {
    Definition("violation_processing", ["violation.detected", "violation.resolved"],
               [Step("detect", On("violation.detected"), Detect, Some(UndoDetect)),
                Step("resolve", On("violation.resolved"), Resolve, None)])
  }

  // ----- CorrectiveActionFlow -----

  function Assign(w: World, p: Payload, id: nat, ev: Event, now: int): Outcome<World> {
    if Fault(w) then Bad(Tick(w), p, "load corrective action")
    else match ActionById(w.actions, id)
      case None => Bad(Tick(w), p, "load corrective action")
      case Some(i) =>
        Good(Tick(w), p["owner_id" := Text(w.actions[i].ownerId)]["due_date" := TimeField(w.actions[i].dueDate)])
  }

  function Close(w: World, p: Payload, id: nat, ev: Event, now: int): Outcome<World> {
    Good(w, p["completed_at" := Stamp(now)])
  }

  function CorrectiveActionFlow(): Definition<World> {
    Definition("corrective_action_flow", ["correctiveaction.created", "correctiveaction.completed"],
               [Step("assign", On("correctiveaction.created"), Assign, None),
                Step("complete", On("correctiveaction.completed"), Close, None)])
  }

  function Registered(): seq<Definition<World>> {
    [ComplianceCheck(), AuditExecution(), ViolationProcessing(), CorrectiveActionFlow()]
  }

  // ----- What the workflows promise -----

  /** The registered types are distinct, so every result about runs applies to the four workflows. */
  lemma RegisteredDistinct()
    ensures DistinctTypes(Registered())
  {
    var d := Registered();
    assert d[0].sagaType[1] == 'o' && d[1].sagaType[1] == 'u' && d[2].sagaType[1] == 'i' && d[3].sagaType[1] == 'o';
    assert d[0].sagaType[3] == 'p' && d[3].sagaType[3] == 'r';
  }

  /** The status rule: non-compliant exactly once the due date has passed without a review at or after it; so time alone
      never restores compliance, and a review at or after the due date restores it for good. */
  lemma StatusRule(c: Compliance, now: int, later: int)
    ensures EvaluateCompliance(c, now).0 == NON_COMPLIANT <==>
            && c.dueDate.Some? && c.dueDate.value < now
            && !(c.lastReviewedAt.Some? && c.lastReviewedAt.value >= c.dueDate.value)
    ensures EvaluateCompliance(c, now).0 == NON_COMPLIANT && now <= later ==>
              EvaluateCompliance(c, later).0 == NON_COMPLIANT
    ensures c.dueDate.Some? && c.dueDate.value <= now ==>
              EvaluateCompliance(c.(lastReviewedAt := Some(now)), later).0 == COMPLIANT
    ensures EvaluateCompliance(c, now).1 ==
            if c.dueDate.None? || now <= c.dueDate.value then "within due date"
            else if EvaluateCompliance(c, now).0 == NON_COMPLIANT then "due date passed without a review"
            else "reviewed after due date"
  {
    assert NON_COMPLIANT[0] == 'n' && COMPLIANT[0] == 'c';
  }

  /** The evaluate step is going to flip the status of row `id`. */
  predicate Flips(w: World, id: nat, now: int) {
    && !Fault(w) && id in w.compliances
    && w.compliances[id].status != DRAFT && w.compliances[id].status != ARCHIVED
    && EvaluateCompliance(w.compliances[id], now).0 != w.compliances[id].status
  }

  /** What evaluate leaves for its compensator, on success and on each of its errors. */
  lemma EvaluatePayload(w: World, id: nat, ev: Event, now: int)
    ensures var p := Evaluate(w, map[], id, ev, now).payload;
            && ("before_status" in p <==> Flips(w, id, now))
            && (Flips(w, id, now) ==>
                 && p["before_status"] == Text(w.compliances[id].status)
                 && ("status" in p ==> p["status"] != p["before_status"]))
    ensures !Flips(w, id, now) ==> Evaluate(w, map[], id, ev, now).world.compliances == w.compliances
    ensures Flips(w, id, now) ==>
              Evaluate(w, map[], id, ev, now).world.compliances ==
              if Fault(Tick(w)) then w.compliances
              else w.compliances[id := w.compliances[id].(status := EvaluateCompliance(w.compliances[id], now).0)]
  {
    if Flips(w, id, now) {
      var c := w.compliances[id];
      var (status, reason) := EvaluateCompliance(c, now);
      var p1: Payload := map["before_status" := Text(c.status)];
      VerdictKeeps(p1, status, reason, true);
      assert map[]["before_status" := Text(c.status)] == p1;
    }
  }

  /** Evaluate that succeeds settles the status: judging the row again at the same time would not flip it. */
  lemma EvaluateSettles(w: World, id: nat, ev: Event, now: int, later: World)
    requires Evaluate(w, map[], id, ev, now).err.None?
    requires later.compliances == Evaluate(w, map[], id, ev, now).world.compliances
    ensures !Flips(later, id, now)
  {
    var c := w.compliances[id];
    var status := EvaluateCompliance(c, now).0;
    assert EvaluateCompliance(c.(status := status), now).0 == status;
    EvaluatePayload(w, id, ev, now);
  }

  /** How evaluate ends, exactly: it fails to load a row that is gone or cannot be read, passes over drafts and archived
      rows, and otherwise fails only if the write of a flipped status or the insert of a due alert does. */
  lemma EvaluateEndsExactly(w: World, id: nat, ev: Event, now: int)
    ensures var flips := Flips(w, id, now);
            Evaluate(w, map[], id, ev, now).err ==
            if Fault(w) || id !in w.compliances then Some("load compliance")
            else if w.compliances[id].status == "draft" || w.compliances[id].status == "archived" then None
            else if flips && Fault(Tick(w)) then Some("update compliance status")
            else if (flips || ev.subject == "compliance.created") && Fault(if flips then Tick(Tick(w)) else Tick(w))
            then Some("queue compliance alert") else None
  {
    if Flips(w, id, now) {
      assert UpdateStatus(Tick(w), id, EvaluateCompliance(w.compliances[id], now).0).0.faults == Tick(Tick(w)).faults;
    }
  }

  /** Evaluate queues one alert, carrying the new status, exactly if it succeeds and has flipped the status or the row
      has just been created; drafts and archived rows get none. */
  lemma EvaluateAlertsExactly(w: World, id: nat, ev: Event, now: int)
    requires id in w.compliances
    ensures var o := Evaluate(w, map[], id, ev, now);
            var c := w.compliances[id];
            var due := && c.status != DRAFT && c.status != ARCHIVED
                       && (Flips(w, id, now) || ev.subject == "compliance.created");
            o.world.outbox == w.outbox + if o.err.None? && due
                                         then [Queued("compliance.alert", id, EvaluateCompliance(c, now).0)] else []
  {
    var c := w.compliances[id];
    if !Fault(w) && c.status != DRAFT && c.status != ARCHIVED {
      var (status, reason) := EvaluateCompliance(c, now);
      if status == c.status {
        AnnounceQueues(Tick(w), Verdict(map[], status, reason, false), id, status, ev.subject == "compliance.created");
      } else {
        var p1: Payload := map["before_status" := Text(c.status)];
        AnnounceQueues(UpdateStatus(Tick(w), id, status).0, Verdict(p1, status, reason, true), id, status, true);
      }
    }
  }

  lemma AnnounceQueues(w: World, p: Payload, id: nat, status: string, due: bool)
    ensures var o := Announce(w, p, id, status, due);
            o.world.outbox == w.outbox + if due && o.err.None? then [Queued("compliance.alert", id, status)] else []
  {
  }

  lemma VerdictKeeps(p: Payload, status: string, reason: string, changed: bool)
    ensures "before_status" in Verdict(p, status, reason, changed) <==> "before_status" in p
    ensures "before_status" in p ==> Verdict(p, status, reason, changed)["before_status"] == p["before_status"]
    ensures "status" in Verdict(p, status, reason, changed)
    ensures Verdict(p, status, reason, changed)["status"] == Text(status)
  {
    assert "before_status"[0] == 'b' && "reason"[0] == 'r' && "status"[0] == 's' && "changed"[0] == 'c';
  }

  /** Compensating the evaluate step, exactly: whatever other writers left in `w`, the compensator puts back the
      status the saga saw before that step if the step flipped it, the row still exists, and the write succeeds (an
      empty status is never put back); otherwise the table stays as it is. */
  lemma UndoEvaluateExactly(w0: World, id: nat, ev: Event, t0: int, w: World, t: int)
    ensures UndoEvaluate(w, Evaluate(w0, map[], id, ev, t0).payload, id, t).world.compliances ==
            if Flips(w0, id, t0) && w0.compliances[id].status != "" && !Fault(w) && id in w.compliances
            then w.compliances[id := w.compliances[id].(status := w0.compliances[id].status)]
            else w.compliances
  {
    EvaluatePayload(w0, id, ev, t0);
  }

  /** When an instance that carries what evaluate left, run at `t0` over `w0`, fails at evaluate (0) or times out
      before alert (1), and nobody else changed the row's status since evaluate ran, then the status is back to what
      it was before evaluate exactly if evaluate had not changed it or the compensating write goes through (an empty
      status is never written back); every other row is untouched. */
  lemma FailureRestoresStatus(w0: World, id: nat, ev: Event, t0: int, st: State<World>, s: Saga, i: nat,
                              cause: string, t: int)
    requires i < 2 && id in w0.compliances
    requires s.id == Key("compliance_check", id) && s.payload == Evaluate(w0, map[], id, ev, t0).payload
    requires id in st.world.compliances
    requires st.world.compliances[id].status == Evaluate(w0, map[], id, ev, t0).world.compliances[id].status
    ensures Restored(w0, id, st.world, Fail(st, ComplianceCheck(), s, i, cause, t).world)
  {
    EvaluatePayload(w0, id, ev, t0);
    UndoEvaluateExactly(w0, id, ev, t0, st.world, t);
    UndoComplianceCheck(st, s, i, t);
    assert Fail(st, ComplianceCheck(), s, i, cause, t).world == UndoEvaluate(st.world, s.payload, id, t).world;
    assert st.world.compliances[id := st.world.compliances[id]] == st.world.compliances;
  }

  /** From `w` to `w'` row `id` gets back its status of `w0` exactly if it still had it, or it was not empty and the
      first write succeeds; and nothing else happens to the table. */
  ghost predicate Restored(w0: World, id: nat, w: World, w': World)
    requires id in w0.compliances && id in w.compliances
  {
    && id in w'.compliances
    && (w'.compliances[id].status == w0.compliances[id].status <==>
          w.compliances[id].status == w0.compliances[id].status || (!Fault(w) && w0.compliances[id].status != ""))
    && w'.compliances == w.compliances[id := w.compliances[id].(status := w'.compliances[id].status)]
  }

  /** Both failure points of the workflow run evaluate's compensator, once, and nothing else. */
  lemma UndoComplianceCheck(st: State<World>, s: Saga, i: nat, t: int)
    requires i < 2
    ensures Undo(st, ComplianceCheck(), s, i, t).0.world == UndoEvaluate(st.world, s.payload, s.id.entity, t).world
  {
    var def := ComplianceCheck();
    var o := UndoEvaluate(st.world, s.payload, s.id.entity, t);
    var st1 := st.(world := o.world, log := st.log + [Undone(s.id, 0)]);
    assert Undo(st1, def, s.(payload := o.payload), -1, t).0 == st1;
    assert Undo(st, def, s, 0, t).0 == st1;
  }

  // ----- Corrective actions -----

  /** No violation is tracked by two live corrective actions. */
  predicate AtMostOneAction(w: World) {
    forall i, j :: 0 <= i < j < |w.actions| && w.actions[i].live && w.actions[j].live ==>
      w.actions[i].violation != w.actions[j].violation
  }

  /** The detect step adds a corrective action only to a violation that has no live one, and then exactly one, open. */
  lemma DetectNeverDuplicates(w: World, p: Payload, id: nat, ev: Event, now: int)
    ensures var added := Detect(w, p, id, ev, now).world.actions;
            || added == w.actions
            || (&& (forall k :: 0 <= k < |w.actions| ==> !Tracks(w.actions[k], id, false))
                && added == w.actions + [CorrectiveAction(w.nextId, id, OPEN, "", None, None, true)])
  {
    var w2 := Tick(Tick(w));
    assert w2.actions == w.actions && w2.nextId == w.nextId;
    if !Fault(w) && id in w.violations && !Fault(Tick(w)) {
      match FirstAction(w2.actions, id, false)
      case Some(_) =>
      case None =>
    }
  }

  lemma StepsKeepAtMostOne()
    ensures forall d :: 0 <= d < 4 ==> SagaRuns.Keeps(AtMostOneAction, Registered()[d])
  {
    ViolationKeepsAtMostOne();
    ReadersKeepAtMostOne(ComplianceCheck());
    ReadersKeepAtMostOne(AuditExecution());
    ReadersKeepAtMostOne(CorrectiveActionFlow());
  }

  /** The three workflows whose steps never touch corrective actions. */
  ghost predicate OnlyReadsActions(def: Definition<World>) {
    def == ComplianceCheck() || def == AuditExecution() || def == CorrectiveActionFlow()
  }

  lemma AuditActions(i: nat, w: World, p: Payload, id: nat, ev: Event, now: int)
    requires i < 3
    ensures var w' := AuditExecution().steps[i].action(w, p, id, ev, now).world;
            w'.actions == w.actions && w'.compliances == w.compliances
  {
    match i
    case 0 => assert AuditExecution().steps[0].action(w, p, id, ev, now) == ScheduleAudit(w, p, id, ev, now);
    case 1 => assert AuditExecution().steps[1].action(w, p, id, ev, now) == StartAudit(w, p, id, ev, now);
    case _ => assert AuditExecution().steps[2].action(w, p, id, ev, now) == CompleteAudit(w, p, id, ev, now);
  }

  lemma FlowActions(i: nat, w: World, p: Payload, id: nat, ev: Event, now: int)
    requires i < 2
    ensures var w' := CorrectiveActionFlow().steps[i].action(w, p, id, ev, now).world;
            w'.actions == w.actions && w'.compliances == w.compliances
  {
    match i
    case 0 => assert CorrectiveActionFlow().steps[0].action(w, p, id, ev, now) == Assign(w, p, id, ev, now);
    case _ => assert CorrectiveActionFlow().steps[1].action(w, p, id, ev, now) == Close(w, p, id, ev, now);
  }

  lemma CheckActions(i: nat, w: World, p: Payload, id: nat, ev: Event, now: int)
    requires i < 2
    ensures ComplianceCheck().steps[i].action(w, p, id, ev, now).world.actions == w.actions
  {
    match i
    case 0 => assert ComplianceCheck().steps[0].action(w, p, id, ev, now) == Evaluate(w, p, id, ev, now);
    case _ => assert ComplianceCheck().steps[1].action(w, p, id, ev, now) == Alert(w, p, id, ev, now);
  }

  lemma ReaderActions(def: Definition<World>, i: nat, w: World, p: Payload, id: nat, ev: Event, now: int)
    requires OnlyReadsActions(def) && i < |def.steps|
    ensures def.steps[i].action(w, p, id, ev, now).world.actions == w.actions
  {
    if def == AuditExecution() {
      AuditActions(i, w, p, id, ev, now);
    } else if def == CorrectiveActionFlow() {
      FlowActions(i, w, p, id, ev, now);
    } else {
      CheckActions(i, w, p, id, ev, now);
    }
  }

  lemma ReaderCompensators(def: Definition<World>, i: nat, w: World, p: Payload, id: nat, now: int)
    requires OnlyReadsActions(def) && i < |def.steps| && def.steps[i].compensate.Some?
    ensures def.steps[i].compensate.value(w, p, id, now).world.actions == w.actions
  {
  }

  lemma ReadersKeepAtMostOne(def: Definition<World>)
    requires OnlyReadsActions(def)
    ensures SagaRuns.Keeps(AtMostOneAction, def)
  {
    forall i, w, p, id, ev, now | 0 <= i < |def.steps| && AtMostOneAction(w)
      ensures AtMostOneAction(def.steps[i].action(w, p, id, ev, now).world)
    {
      ReaderActions(def, i, w, p, id, ev, now);
    }
    forall i, w, p, id, now | 0 <= i < |def.steps| && def.steps[i].compensate.Some? && AtMostOneAction(w)
      ensures AtMostOneAction(def.steps[i].compensate.value(w, p, id, now).world)
    {
      ReaderCompensators(def, i, w, p, id, now);
    }
  }

  lemma DetectKeepsAtMostOne(w: World, p: Payload, id: nat, ev: Event, now: int)
    requires AtMostOneAction(w)
    ensures AtMostOneAction(Detect(w, p, id, ev, now).world)
  {
    DetectNeverDuplicates(w, p, id, ev, now);
  }

  lemma UndoDetectKeepsAtMostOne(w: World, p: Payload, id: nat, now: int)
    requires AtMostOneAction(w)
    ensures AtMostOneAction(UndoDetect(w, p, id, now).world)
  {
  }

  /** Resolve completes one live open corrective action of the violation, or changes none. */
  lemma ResolveMeaning(w: World, p: Payload, id: nat, ev: Event, now: int)
    ensures var after := Resolve(w, p, id, ev, now).world.actions;
            || after == w.actions
            || exists i :: 0 <= i < |w.actions| && Tracks(w.actions[i], id, true) &&
                 after == w.actions[i := w.actions[i].(status := COMPLETED, completedAt := Some(now))]
  {
    var w1 := Tick(w);
    assert w1.actions == w.actions;
    if !Fault(w) && !Fault(w1) {
      match FirstAction(w1.actions, id, true)
      case None =>
      case Some(i) =>
        assert Tracks(w.actions[i], id, true);
    }
  }

  /** No live open corrective action of the violation. */
  predicate NoneOpen(actions: seq<CorrectiveAction>, violation: nat) {
    forall j :: 0 <= j < |actions| ==> !Tracks(actions[j], violation, true)
  }

  /** Position `k` holds the first one. */
  predicate FirstOpen(actions: seq<CorrectiveAction>, violation: nat, k: nat) {
    k < |actions| && Tracks(actions[k], violation, true) && NoneOpen(actions[..k], violation)
  }

  /** Resolve succeeds exactly if the lookup goes through and there is no live open action of the violation or the write
      goes through. */
  lemma ResolveSucceedsExactly(w: World, p: Payload, id: nat, ev: Event, now: int)
    ensures Resolve(w, p, id, ev, now).err.None? <==> !Fault(w) && (NoneOpen(w.actions, id) || !Fault(Tick(w)))
  {
    var w1 := Tick(w);
    assert w1.actions == w.actions;
    match FirstAction(w1.actions, id, true)
    case None =>
    case Some(i) => assert !NoneOpen(w.actions, id);
  }

  /** What it leaves: on success the first live open action is completed, now, and one event for it is queued exactly if
      that insert goes through; without such an action, or on failure, actions and outbox are as they were. */
  lemma ResolveExactly(w: World, p: Payload, id: nat, ev: Event, now: int, k: nat)
    ensures var o := Resolve(w, p, id, ev, now);
            if o.err.None? && FirstOpen(w.actions, id, k)
            then && o.world.actions == w.actions[k := w.actions[k].(status := COMPLETED, completedAt := Some(now))]
                 && o.world.outbox == w.outbox + if Fault(Tick(Tick(w))) then []
                                                 else [Queued("correctiveaction.completed", w.actions[k].id, OPEN)]
            else o.err.Some? || NoneOpen(w.actions, id) ==> o.world.actions == w.actions && o.world.outbox == w.outbox
  {
    var w1 := Tick(w);
    assert w1.actions == w.actions && w1.outbox == w.outbox;
    if FirstOpen(w.actions, id, k) {
      FirstOpenFound(w.actions, id, k);
    }
  }

  lemma FirstOpenFound(actions: seq<CorrectiveAction>, violation: nat, k: nat)
    requires FirstOpen(actions, violation, k)
    ensures FirstAction(actions, violation, true) == Some(k)
  {
    var i := FirstAction(actions, violation, true);
    assert i.Some?;
    assert forall j :: 0 <= j < k ==> actions[..k][j] == actions[j];
  }

  /** The violation has a live corrective action. */
  predicate Tracked(actions: seq<CorrectiveAction>, violation: nat) {
    exists j :: 0 <= j < |actions| && Tracks(actions[j], violation, false)
  }

  /** Tracking a violation succeeds exactly if the lookup goes through and it is tracked already or the insert goes
      through; then an untracked one gets one open action, and one event for it is queued exactly if that insert goes
      through; otherwise actions and outbox stay as they are. */
  lemma TrackExactly(w: World, p: Payload, id: nat)
    ensures var o := Track(w, p, id);
            && (o.err.None? <==> !Fault(w) && (Tracked(w.actions, id) || !Fault(Tick(w))))
            && if o.err.None? && !Tracked(w.actions, id)
               then && o.world.actions == w.actions + [CorrectiveAction(w.nextId, id, OPEN, "", None, None, true)]
                    && o.world.nextId == w.nextId + 1
                    && o.world.outbox == w.outbox + if Fault(Tick(Tick(w))) then []
                                                    else [Queued("correctiveaction.created", w.nextId, OPEN)]
               else o.world.actions == w.actions && o.world.outbox == w.outbox && o.world.nextId == w.nextId
  {
    var w1 := Tick(w);
    assert w1.actions == w.actions && w1.outbox == w.outbox && w1.nextId == w.nextId;
    var found := FirstAction(w1.actions, id, false);
    assert found.Some? <==> Tracked(w.actions, id);
  }

  /** Detect succeeds exactly if also the violation can be loaded; what it leaves is that of tracking it. */
  lemma DetectExactly(w: World, p: Payload, id: nat, ev: Event, now: int)
    ensures var o := Detect(w, p, id, ev, now);
            && (o.err.None? <==> && !Fault(w) && id in w.violations && !Fault(Tick(w))
                                 && (Tracked(w.actions, id) || !Fault(Tick(Tick(w)))))
            && if o.err.None? && !Tracked(w.actions, id)
               then && o.world.actions == w.actions + [CorrectiveAction(w.nextId, id, OPEN, "", None, None, true)]
                    && o.world.nextId == w.nextId + 1
                    && o.world.outbox == w.outbox + if Fault(Tick(Tick(Tick(w)))) then []
                                                    else [Queued("correctiveaction.created", w.nextId, OPEN)]
               else o.world.actions == w.actions && o.world.outbox == w.outbox && o.world.nextId == w.nextId
  {
    if !Fault(w) && id in w.violations {
      var v := w.violations[id];
      TrackExactly(Tick(w), p["severity" := Text(v.severity)]["detected_at" := TimeField(v.detectedAt)], id);
    }
  }

  lemma ResolveKeepsAtMostOne(w: World, p: Payload, id: nat, ev: Event, now: int)
    requires AtMostOneAction(w)
    ensures AtMostOneAction(Resolve(w, p, id, ev, now).world)
  {
    ResolveMeaning(w, p, id, ev, now);
  }

  lemma ViolationKeepsAtMostOne()
    ensures SagaRuns.Keeps(AtMostOneAction, ViolationProcessing())
  {
    var def := ViolationProcessing();
    forall i, w, p, id, ev, now | 0 <= i < 2 && AtMostOneAction(w)
      ensures AtMostOneAction(def.steps[i].action(w, p, id, ev, now).world)
    {
      if i == 0 {
        DetectKeepsAtMostOne(w, p, id, ev, now);
      } else {
        ResolveKeepsAtMostOne(w, p, id, ev, now);
      }
    }
    forall i, w, p, id, now | 0 <= i < 2 && def.steps[i].compensate.Some? && AtMostOneAction(w)
      ensures AtMostOneAction(def.steps[i].compensate.value(w, p, id, now).world)
    {
      UndoDetectKeepsAtMostOne(w, p, id, now);
    }
  }

  /** Main result for ViolationProcessing: no run of the engine ever gives a violation a second live corrective
      action, whatever is delivered, raced, swept or made to fail. */
  lemma RunsNeverDuplicateActions(st: State<World>, timeout: int, inputs: seq<Input>)
    requires Inv(st, Registered()) && AtMostOneAction(st.world)
    ensures DistinctTypes(Registered()) && AtMostOneAction(Run(st, Registered(), timeout, inputs).world)
  {
    RegisteredDistinct();
    StepsKeepAtMostOne();
    SagaRuns.RunKeeps(AtMostOneAction, st, Registered(), timeout, inputs);
  }

  /** Corrective actions have unique ids. */
  ghost predicate UniqueActions(actions: seq<CorrectiveAction>) {
    forall j, k :: 0 <= j < k < |actions| ==> actions[j].id != actions[k].id
  }

  /** The id of the first live corrective action of a violation. */
  function TrackingAction(actions: seq<CorrectiveAction>, violation: nat): Option<nat> {
    match FirstAction(actions, violation, false)
    case None => None
    case Some(i) => Some(actions[i].id)
  }

  lemma FirstAppended(actions: seq<CorrectiveAction>, a: CorrectiveAction, violation: nat)
    requires FirstAction(actions, violation, false).None? && Tracks(a, violation, false)
    ensures FirstAction(actions + [a], violation, false) == Some(|actions|)
  {
    var i := FirstAction(actions + [a], violation, false);
    assert (actions + [a])[|actions|] == a;
    assert i.Some?;
    assert forall k :: 0 <= k < |actions| ==> (actions + [a])[k] == actions[k];
  }

  /** Whatever database calls fail, a detect that succeeds leaves the violation tracked and records the first live
      action that tracks it, created or found; one that fails records none and changes no action. */
  lemma DetectRecords(w: World, id: nat, ev: Event, now: int)
    ensures var o := Detect(w, map[], id, ev, now);
            if o.err.None?
            then && TrackingAction(o.world.actions, id).Some? && "corrective_action_id" in o.payload
                 && o.payload["corrective_action_id"] == Ref(TrackingAction(o.world.actions, id).value)
            else "corrective_action_id" !in o.payload && o.world.actions == w.actions
  {
    if !Fault(w) && id in w.violations && !Fault(Tick(w)) {
      var w2 := Tick(Tick(w));
      var v := w.violations[id];
      var p1: Payload := map[]["severity" := Text(v.severity)]["detected_at" := TimeField(v.detectedAt)];
      match FirstAction(w2.actions, id, false)
      case Some(i) =>
        assert Detect(w, map[], id, ev, now).payload == p1["corrective_action_id" := Ref(w2.actions[i].id)];
      case None =>
        FirstAppended(w2.actions, CorrectiveAction(w2.nextId, id, OPEN, "", None, None, true), id);
    }
  }

  lemma ActionByIdUnique(actions: seq<CorrectiveAction>, k: nat)
    requires k < |actions| && actions[k].live && UniqueActions(actions)
    ensures ActionById(actions, actions[k].id) == Some(k)
  {
    var found := ActionById(actions, actions[k].id);
    assert found.Some?;
  }

  /** Main result for the rollback, over any later tables whatever other writers did: exactly the action that tracked
      the violation after detect is soft-deleted, if it is still live and open and the two database calls go through;
      no other action, and nothing if detect failed. */
  lemma RollbackExactly(w0: World, id: nat, ev: Event, t0: int, w: World, t: int, k: nat)
    requires UniqueActions(w.actions) && k < |w.actions|
    ensures var detected := Detect(w0, map[], id, ev, t0);
            var after := UndoDetect(w, detected.payload, id, t).world.actions;
            var undone := && detected.err.None? && Some(w.actions[k].id) == TrackingAction(detected.world.actions, id)
                          && w.actions[k].live && w.actions[k].status == OPEN && !Fault(w) && !Fault(Tick(w));
            |after| == |w.actions| && after[k] == w.actions[k].(live := w.actions[k].live && !undone)
  {
    DetectRecords(w0, id, ev, t0);
    var detected := Detect(w0, map[], id, ev, t0);
    assert Tick(w).actions == w.actions;
    if w.actions[k].live {
      ActionByIdUnique(w.actions, k);
    }
  }

  /** With nobody else writing, an action that detect created and one that it found meet the same end. */
  lemma RollbackOfLiveTables(w: World, id: nat, ev: Event, t0: int, t: int)
    requires w.faults == [] && id in w.violations && UniqueActions(w.actions)
    requires forall k :: 0 <= k < |w.actions| ==> w.actions[k].id < w.nextId
    ensures var o := Detect(w, map[], id, ev, t0);
            var end := UndoDetect(o.world, o.payload, id, t).world.actions;
            match FirstAction(w.actions, id, false)
            case None => end == w.actions + [CorrectiveAction(w.nextId, id, OPEN, "", None, None, false)]
            case Some(i) =>
              end == if w.actions[i].status == OPEN then w.actions[i := w.actions[i].(live := false)] else w.actions
  {
    var o := Detect(w, map[], id, ev, t0);
    var end := UndoDetect(o.world, o.payload, id, t).world.actions;
    var i := match FirstAction(w.actions, id, false) case None => |w.actions| case Some(i) => i;
    DetectsOf(w, id, ev, t0, i);
    forall k | 0 <= k < |o.world.actions|
      ensures |end| == |o.world.actions|
      ensures end[k] == if k == i && o.world.actions[k].status == OPEN then o.world.actions[k].(live := false)
                        else o.world.actions[k]
    {
      RollbackExactly(w, id, ev, t0, o.world, t, k);
    }
    assert i < |o.world.actions|;
  }

  /** What a detect without database faults leaves, and at which position the tracking action stands. */
  lemma DetectsOf(w: World, id: nat, ev: Event, t0: int, i: nat)
    requires w.faults == [] && id in w.violations && UniqueActions(w.actions)
    requires forall k :: 0 <= k < |w.actions| ==> w.actions[k].id < w.nextId
    requires i == match FirstAction(w.actions, id, false) case None => |w.actions| case Some(j) => j
    ensures var o := Detect(w, map[], id, ev, t0);
            && o.err.None? && o.world.faults == [] && UniqueActions(o.world.actions) && i < |o.world.actions|
            && o.world.actions == w.actions + (if i < |w.actions| then []
                                               else [CorrectiveAction(w.nextId, id, OPEN, "", None, None, true)])
            && o.world.actions[i].live && TrackingAction(o.world.actions, id) == Some(o.world.actions[i].id)
  {
    assert Tick(w) == w && Tick(Tick(w)) == w;
    assert w.actions + [] == w.actions;
    if i == |w.actions| {
      FirstAppended(w.actions, CorrectiveAction(w.nextId, id, OPEN, "", None, None, true), id);
    }
  }

  /** So a corrective action that an officer opened before the violation was reported is removed by the rollback. */
  lemma RollbackRemovesForeignAction()
    ensures var officers := CorrectiveAction(0, 7, OPEN, "officer", None, None, true);
            var w := World(map[], map[], map[7 := Violation("high", None)], [officers], [], 1, []);
            var o := Detect(w, map[], 7, Event("e", "violation.detected", Some(7), ""), 0);
            UndoDetect(o.world, o.payload, 7, 0).world.actions == [officers.(live := false)]
  {
    var officers := CorrectiveAction(0, 7, OPEN, "officer", None, None, true);
    var w := World(map[], map[], map[7 := Violation("high", None)], [officers], [], 1, []);
    RollbackOfLiveTables(w, 7, Event("e", "violation.detected", Some(7), ""), 0, 0);
  }

  // ----- One event, one step -----

  /** No event triggers two consecutive steps. */
  ghost predicate OneStepPerEvent<W>(def: Definition<W>) {
    forall i, ev :: 0 <= i && i + 1 < |def.steps| ==> !(def.steps[i].trigger(ev) && def.steps[i + 1].trigger(ev))
  }

  /** Each of the four workflows moves by at most one step per event. */
  lemma WorkflowsStepOnce(d: nat, st: State<World>, s: Saga, ev: Event, now: int)
    requires d < 4
    ensures var p := Advance(st, Registered()[d], s, ev, now);
            p.Paused? ==> p.saga.currentStep <= s.currentStep + 1
  {
    var def := Registered()[d];
    assert OneStepPerEvent(def);
    if s.currentStep < |def.steps| && def.steps[s.currentStep].trigger(ev) {
      var o := def.steps[s.currentStep].action(st.world, s.payload, s.id.entity, ev, now);
      if o.err.None? {
        var s' := AfterStep(s, o.payload, now);
        assert s'.currentStep < |def.steps| ==> !def.steps[s'.currentStep].trigger(ev);
      }
    }
  }
}
