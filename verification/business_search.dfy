/** A corrective action from its creation to its completion, and what a search for active workflows shows afterwards. */
module BusinessSearch {
  import opened Wrappers
  import opened TimedCache
  import opened SagaModel
  import opened SagaTrace
  import opened BusinessSagas
  import EventDedup
  import SagaEngine

  const FLOW := "corrective_action_flow"

  /** Of the four workflows only the corrective-action flow reacts to its events. */
  lemma OnlyFlowReacts(st: State<World>, ev: Event, now: int)
    requires ev.subject in CorrectiveActionFlow().subjects
    ensures Route(st, Registered(), 0, ev, now) == HandleDefinition(st, CorrectiveActionFlow(), ev, now)
  {
    var s, defs := ev.subject, Registered();
    assert s[0] == 'c' && s[2] == 'r';
    assert defs[0].subjects == ["compliance.created", "compliance.updated", "compliance.alert"];
    assert defs[1].subjects == ["audit.scheduled", "audit.started", "audit.completed"];
    assert defs[2].subjects == ["violation.detected", "violation.resolved"];
    var end := HandleDefinition(st, defs[3], ev, now);
    assert Route(st, defs, 2, ev, now) == Route(st, defs, 3, ev, now) == Route(end, defs, 4, ev, now) == end;
    assert Route(st, defs, 1, ev, now) == Route(st, defs, 2, ev, now);
  }

  /** The instance after its assign step. */
  function Assigned(w: World, id: nat, ev: Event, now: int): Saga {
    AfterStep(NewSaga(Key(FLOW, id), now), Assign(w, map[], id, ev, now).payload, now)
  }

  lemma CreatedStarts(st: State<World>, id: nat, ev: Event, now: int)
    requires st.store == map[] && st.recent == [] && st.world.faults == [] && ActionById(st.world.actions, id).Some?
    requires ev.subject == "correctiveaction.created" && ev.entity == Some(id)
    ensures var s, end := Assigned(st.world, id, ev, now), HandleDefinition(st, CorrectiveActionFlow(), ev, now);
            && end.store == map[Key(FLOW, id) := Item(s, At(now + STATE_TTL))] && end.completed == st.completed
            && end.recent == [Summarize(NewSaga(Key(FLOW, id), now)), Summarize(s)] && end.ring == st.ring
  {
    var def, s := CorrectiveActionFlow(), NewSaga(Key(FLOW, id), now);
    var started, o := Start(st, s, now), Assign(st.world, map[], id, ev, now);
    assert ev.subject != "correctiveaction.completed" by {
      assert |ev.subject| == 24 && |"correctiveaction.completed"| == 26;
    }
    assert def.steps[0].action(started.world, s.payload, id, ev, now) == o && o.err.None?;
    var s' := AfterStep(s, o.payload, now);
    var recorded := Record(started, o.world, s', 0, now);
    assert Advance(recorded, def, s', ev, now) == Paused(recorded, s');
    assert Advance(started, def, s, ev, now) == Paused(recorded, s');
  }

  lemma CompletedFinishes(st: State<World>, s: Saga, ev: Event, now: int)
    requires s.id.sagaType == FLOW && s.currentStep == 1 && ev.entity == Some(s.id.entity)
    requires st.store.Keys == {s.id} && Lookup(st.store, s.id, now) == Some(s) && |st.recent| == 2
    requires ev.subject == "correctiveaction.completed"
    ensures var end := HandleDefinition(st, CorrectiveActionFlow(), ev, now);
            var closed := AfterStep(s, Close(st.world, s.payload, s.id.entity, ev, now).payload, now);
            var done := closed.(status := Completed, completedAt := Some(now));
            && end.store == map[] && end.completed == st.completed + 1
            && end.recent == st.recent + [Summarize(closed), Summarize(done)]
  {
    var def, o := CorrectiveActionFlow(), Close(st.world, s.payload, s.id.entity, ev, now);
    assert def.steps[1].action(st.world, s.payload, s.id.entity, ev, now) == o;
    var closed := AfterStep(s, o.payload, now);
    var recorded := Record(st, o.world, closed, 1, now);
    assert Advance(recorded, def, closed, ev, now) == Paused(recorded, closed);
    assert Advance(st, def, s, ev, now) == Paused(recorded, closed);
    assert recorded.store.Keys == {s.id};
  }

  lemma NewIdsAreNew(a: string, b: string, now: int)
    requires a != b
    ensures !EventDedup.Duplicate(EventDedup.EMPTY, a)
    ensures !EventDedup.Duplicate(EventDedup.Admit(EventDedup.EMPTY, a, now), b)
  {
  }

  lemma RunOfOne(st: State<World>, timeout: int, a: Input)
    requires Inv(st, Registered()) && DistinctTypes(Registered())
    ensures Sweepable(st.store, Registered()) && Inv(Apply(st, Registered(), timeout, a), Registered())
    ensures Run(st, Registered(), timeout, [a]) == Apply(st, Registered(), timeout, a)
  {
    InvSweepable(st, Registered());
    ApplyKeepsInv(st, Registered(), timeout, a);
    assert [a][1..] == [];
  }

  lemma RunOfTwo(st: State<World>, timeout: int, a: Input, b: Input)
    requires Inv(st, Registered()) && DistinctTypes(Registered())
    ensures Sweepable(st.store, Registered())
    ensures Sweepable(Apply(st, Registered(), timeout, a).store, Registered())
    ensures Run(st, Registered(), timeout, [a, b])
         == Apply(Apply(st, Registered(), timeout, a), Registered(), timeout, b)
  {
    RunOfOne(st, timeout, a);
    RunOfOne(Apply(st, Registered(), timeout, a), timeout, b);
    assert [a, b][1..] == [b];
  }

  /** The two events of a corrective action's life. */
  function Life(id: nat, t0: int, t1: int): seq<Input> {
    [Deliver(Event("a", "correctiveaction.created", Some(id), ""), t0),
     Deliver(Event("b", "correctiveaction.completed", Some(id), ""), t1)]
  }

  /** Three summaries of one active saga, then one of it completed. */
  ghost predicate ActiveThenDone(recent: seq<Summary>, key: Key) {
    && |recent| == 4 && (forall i :: 0 <= i < 4 ==> recent[i].id == key)
    && (forall i :: 0 <= i < 3 ==> recent[i].status == Active) && recent[3].status == Completed
  }

  /** After the first event the instance waits for its second. */
  ghost predicate Waits(st: State<World>, id: nat, s: Saga, t0: int) {
    && s.id == Key(FLOW, id) && s.currentStep == 1 && s.status == Active && st.completed == 0
    && st.store == map[Key(FLOW, id) := Item(s, At(t0 + STATE_TTL))]
    && |st.recent| == 2 && (forall i :: 0 <= i < 2 ==> st.recent[i].id == s.id && st.recent[i].status == Active)
    && st.ring == EventDedup.Admit(EventDedup.EMPTY, "a", t0)
  }

  lemma FirstEvent(world: World, id: nat, t0: int)
    requires world.faults == [] && ActionById(world.actions, id).Some?
    ensures var ev := Event("a", "correctiveaction.created", Some(id), "");
            Waits(HandleEvent(Initial(world), Registered(), ev, t0), id, Assigned(world, id, ev, t0), t0)
  {
    var ev := Event("a", "correctiveaction.created", Some(id), "");
    var admitted := Initial(world).(ring := EventDedup.Admit(EventDedup.EMPTY, "a", t0));
    NewIdsAreNew("a", "b", t0);
    OnlyFlowReacts(admitted, ev, t0);
    CreatedStarts(admitted, id, ev, t0);
  }

  lemma SecondEvent(st: State<World>, id: nat, s: Saga, t0: int, t1: int)
    requires Waits(st, id, s, t0) && t1 <= t0 + STATE_TTL
    ensures var end := HandleEvent(st, Registered(), Event("b", "correctiveaction.completed", Some(id), ""), t1);
            end.completed == 1 && end.store == map[] && ActiveThenDone(end.recent, Key(FLOW, id))
  {
    var ev := Event("b", "correctiveaction.completed", Some(id), "");
    var admitted := st.(ring := EventDedup.Admit(st.ring, "b", t1));
    assert "a"[0] == 'a' && "b"[0] == 'b';
    NewIdsAreNew("a", "b", t0);
    OnlyFlowReacts(admitted, ev, t1);
    CompletedFinishes(admitted, s, ev, t1);
  }

  /** An engine that has seen a live corrective action created and completed is done with it and lists four
      summaries. */
  lemma LifeCompletes(world: World, timeout: int, id: nat, t0: int, t1: int)
    requires world.faults == [] && ActionById(world.actions, id).Some? && t1 <= t0 + STATE_TTL
    ensures DistinctTypes(Registered())
    ensures var end := RunFrom(world, Registered(), timeout, Life(id, t0, t1));
            end.completed == 1 && end.store == map[] && ActiveThenDone(end.recent, Key(FLOW, id))
  {
    RegisteredDistinct();
    var first := Event("a", "correctiveaction.created", Some(id), "");
    InitialInv(world, Registered());
    RunOfTwo(Initial(world), timeout, Life(id, t0, t1)[0], Life(id, t0, t1)[1]);
    FirstEvent(world, id, t0);
    SecondEvent(HandleEvent(Initial(world), Registered(), first, t0), id, Assigned(world, id, first, t0), t0, t1);
  }

  lemma ActiveThenDoneSearch(recent: seq<Summary>, key: Key, out: seq<Summary>, idx: seq<nat>)
    requires ActiveThenDone(recent, key) && SagaEngine.SearchResult(recent, "", Some(Active), 0, out, idx)
    ensures out == [recent[2]] && idx == [2] && !SagaEngine.Latest(recent, 2)
  {
    assert SagaEngine.LatestMatch(recent, "", Some(Active), 2);
    assert forall k :: 0 <= k < |idx| ==> SagaEngine.LatestMatch(recent, "", Some(Active), idx[k]) && idx[k] == 2;
    assert |idx| == 0 ==> 2 !in idx;
    if |idx| > 0 {
      var first, last := idx[0], idx[|idx| - 1];
      assert first == 2 && last == 2;
    }
    assert recent[3].id == recent[2].id;
  }

  /** The failing input: once a corrective action has been created and completed, a search for active workflows lists
      it, alone and out of date. */
  lemma StaleSearchRun(world: World, timeout: int, id: nat, t0: int, t1: int, out: seq<Summary>, idx: seq<nat>)
    requires world.faults == [] && ActionById(world.actions, id).Some? && t1 <= t0 + STATE_TTL
    requires DistinctTypes(Registered())
    requires var end := RunFrom(world, Registered(), timeout, Life(id, t0, t1));
             SagaEngine.SearchResult(end.recent, "", Some(Active), 0, out, idx)
    ensures var end := RunFrom(world, Registered(), timeout, Life(id, t0, t1));
            && end.completed == 1 && end.store == map[]
            && |out| == |idx| == 1 && out[0].id == Key(FLOW, id) && out[0].status == Active
            && !SagaEngine.Latest(end.recent, idx[0])
  {
    LifeCompletes(world, timeout, id, t0, t1);
    ActiveThenDoneSearch(RunFrom(world, Registered(), timeout, Life(id, t0, t1)).recent, Key(FLOW, id), out, idx);
  }
}
