/** The list of recent summaries over runs: what it says of stored instances, and when a filtered search is out of
    date. */
module SagaRecent {
  import opened Wrappers
  import opened TimedCache
  import opened SagaModel
  import opened SagaTrace
  import SagaEngine
  import SagaRuns

  // ----- The newest entry of an instance -----

  function Newest(recent: seq<Summary>, key: Key): Option<Summary> {
    if recent == [] then None
    else
      var last := recent[|recent| - 1];
      if last.id == key then Some(last) else Newest(recent[..|recent| - 1], key)
  }

  lemma NewestAppend(recent: seq<Summary>, s: Summary, key: Key)
    ensures Newest(recent + [s], key) == if s.id == key then Some(s) else Newest(recent, key)
  {
    assert (recent + [s])[..|recent|] == recent;
  }

  /** Dropping the oldest entries forgets an instance or changes nothing. */
  lemma {:induction false} NewestSuffix(recent: seq<Summary>, d: nat, key: Key)
    requires d <= |recent|
    ensures Newest(recent[d..], key).None? || Newest(recent[d..], key) == Newest(recent, key)
  {
    if d < |recent| {
      var n := |recent| - 1;
      NewestSuffix(recent[..n], d, key);
      assert recent[d..][..n - d] == recent[..n][d..];
      assert recent[d..][n - d] == recent[n];
    }
  }

  lemma NewestRemembered(recent: seq<Summary>, s: Summary, key: Key)
    ensures var newest := Newest(Remember(recent, s), key);
            newest.None? || newest == if s.id == key then Some(s) else Newest(recent, key)
  {
    var longer := recent + [s];
    NewestAppend(recent, s, key);
    if |longer| > RECENT_LIMIT {
      NewestSuffix(longer, |longer| - RECENT_LIMIT, key);
    }
  }

  /** The newest entry stands at the one position after which the instance is not listed again. */
  lemma {:induction false} NewestPosition(recent: seq<Summary>, key: Key) returns (i: nat)
    requires Newest(recent, key).Some?
    ensures SagaEngine.Latest(recent, i) && recent[i].id == key && Newest(recent, key) == Some(recent[i])
  {
    var n := |recent| - 1;
    if recent[n].id == key {
      i := n;
    } else {
      i := NewestPosition(recent[..n], key);
    }
  }

  lemma {:induction false} ListedHasNewest(recent: seq<Summary>, i: nat)
    requires i < |recent|
    ensures Newest(recent, recent[i].id).Some?
  {
    if recent[|recent| - 1].id != recent[i].id {
      ListedHasNewest(recent[..|recent| - 1], i);
    }
  }

  // ----- What is true of an instance -----

  function LastEntry<W>(st: State<W>, key: Key): Option<Entry> {
    var own := Project(st.log, key);
    if own == [] then None else Some(own[|own| - 1])
  }

  /** The state an instance is really in: active while stored; afterwards how its last life ended, an expired one
      never having been reported as anything but active. */
  function StatusOf<W>(st: State<W>, key: Key): Status {
    if key in st.store then Active
    else match LastEntry(st, key)
      case Some(Finished(_, _)) => Completed
      case Some(GaveUp(_, _, _, _)) => Failed
      case Some(Expired(_)) => Active
      case _ => Pending
  }

  /** When the last life of a history began. */
  function Since(own: seq<Entry>): int {
    if own == [] then 0
    else match own[|own| - 1]
      case Started(_, at) => at
      case _ => Since(own[..|own| - 1])
  }

  /** How many actions have succeeded in it. */
  function StepsRun(own: seq<Entry>): nat {
    if own == [] then 0
    else match own[|own| - 1]
      case Started(_, _) => 0
      case Ran(_, _) => StepsRun(own[..|own| - 1]) + 1
      case _ => StepsRun(own[..|own| - 1])
  }

  /** The summary says, field by field, what the history says of its last life. */
  predicate Says(n: Summary, own: seq<Entry>) {
    && own != [] && n.createdAt == Since(own)
    && match own[|own| - 1]
       case Finished(_, at) =>
         && n.status == Completed && n.currentStep == StepsRun(own) && n.error == ""
         && n.updatedAt == at && n.completedAt == Some(at)
       case GaveUp(_, k, error, at) =>
         && n.status == Failed && n.currentStep == k && n.error == error
         && n.updatedAt == at && n.completedAt == None
       case _ =>
         n.status == Active && n.currentStep == StepsRun(own) && n.error == "" && n.completedAt == None
  }

  predicate Ended(own: seq<Entry>) {
    own != [] && (own[|own| - 1].Finished? || own[|own| - 1].GaveUp? || own[|own| - 1].Expired?)
  }

  /** A stored instance is in the middle of its last life; without one there is no such life. */
  ghost predicate StoredAsTold<W>(st: State<W>, key: Key) {
    var own := Project(st.log, key);
    if key in st.store then
      var s := st.store[key].value;
      && s.id == key && s.status == Active && own != [] && !Ended(own)
      && s.createdAt == Since(own) && s.currentStep == StepsRun(own) && s.error == "" && s.completedAt == None
    else own == [] || Ended(own)
  }

  /** What is listed last of an instance is what its history says, and for a stored one the time is that of its last
      step too. */
  ghost predicate TruthfulAt<W>(st: State<W>, key: Key) {
    && StoredAsTold(st, key)
    && (Newest(st.recent, key).Some? ==>
          && Says(Newest(st.recent, key).value, Project(st.log, key))
          && (key in st.store ==> Newest(st.recent, key).value.updatedAt == st.store[key].value.updatedAt))
  }

  ghost predicate Truthful<W>(st: State<W>) {
    forall key :: TruthfulAt(st, key)
  }

  lemma NewestStatus<W>(st: State<W>, key: Key)
    requires TruthfulAt(st, key) && Newest(st.recent, key).Some?
    ensures Newest(st.recent, key).value.status == StatusOf(st, key)
  {
  }

  lemma OneMore(own: seq<Entry>, e: Entry)
    ensures !e.Started? ==> Since(own + [e]) == Since(own)
    ensures !e.Started? ==> StepsRun(own + [e]) == StepsRun(own) + if e.Ran? then 1 else 0
    ensures e.Started? ==> Since(own + [e]) == e.at && StepsRun(own + [e]) == 0
  {
    assert (own + [e])[..|own|] == own;
  }

  lemma {:induction false} UnwoundSince<W>(own: seq<Entry>, def: Definition<W>, key: Key, k: int)
    requires k < |def.steps|
    ensures Since(own + Unwound(def, key, k)) == Since(own)
    decreases k
  {
    var first: seq<Entry> := if k >= 0 && def.steps[k].compensate.Some? then [Undone(key, k)] else [];
    if k < 0 {
      assert own + Unwound(def, key, k) == own;
    } else {
      assert own + Unwound(def, key, k) == own + first + Unwound(def, key, k - 1);
      UnwoundSince(own + first, def, key, k - 1);
      if first == [] {
        assert own + first == own;
      } else {
        OneMore(own, Undone(key, k));
      }
    }
  }

  /** A transition of one instance that lists its new state. */
  lemma ListedStaysTruthful<W>(st: State<W>, st': State<W>, s: Saga)
    requires Truthful(st) && OnlyAbout(st, st', s.id) && st'.recent == Remember(st.recent, Summarize(s))
    requires StoredAsTold(st', s.id) && Says(Summarize(s), Project(st'.log, s.id))
    requires s.id in st'.store ==> st'.store[s.id].value == s
    ensures Truthful(st')
  {
    forall key ensures TruthfulAt(st', key) {
      assert TruthfulAt(st, key);
      NewestRemembered(st.recent, Summarize(s), key);
    }
  }

  lemma FailTruthful<W>(st: State<W>, mid: State<W>, def: Definition<W>, s: Saga, i: nat, cause: string, now: int)
    requires i < |def.steps| && Truthful(st) && OnlyAbout(st, mid, s.id) && mid.recent == st.recent
    requires Since(Project(mid.log, s.id)) == s.createdAt && s.completedAt == None
    ensures Truthful(Fail(mid, def, s, i, cause, now))
    ensures s.id !in Fail(mid, def, s, i, cause, now).store
    ensures LastEntry(Fail(mid, def, s, i, cause, now), s.id) == Some(GaveUp(s.id, i, cause, now))
  {
    UndoFrame(mid, def, s, i, now);
    UndoTrace(mid, def, s, i, now);
    var (undone, s') := Undo(mid, def, s, i, now);
    var end := Fail(mid, def, s, i, cause, now);
    Append1OnlyAbout(undone, end, GaveUp(s.id, i, cause, now));
    OnlyAboutTransitive(st, mid, undone, s.id);
    OnlyAboutTransitive(st, undone, end, s.id);
    UnwoundSince(Project(mid.log, s.id), def, s.id, i);
    OneMore(Project(undone.log, s.id), GaveUp(s.id, i, cause, now));
    ListedStaysTruthful(st, end, s'.(status := Failed, error := cause, currentStep := i, updatedAt := now));
  }

  lemma RecordTruthful<W>(st: State<W>, world: W, s: Saga, i: nat, now: int)
    requires Truthful(st) && s.id in st.store && s.status == Active && s.currentStep == i + 1 && s.error == ""
    requires st.store[s.id].value.currentStep == i && s.completedAt == None
    requires s.createdAt == st.store[s.id].value.createdAt
    ensures Truthful(Record(st, world, s, i, now))
  {
    var st' := Record(st, world, s, i, now);
    assert TruthfulAt(st, s.id);
    Append1OnlyAbout(st, st', Ran(s.id, i));
    OneMore(Project(st.log, s.id), Ran(s.id, i));
    ListedStaysTruthful(st, st', s);
  }

  lemma CompleteTruthful<W>(st: State<W>, s: Saga, now: int)
    requires Truthful(st) && s.id in st.store && st.store[s.id].value == s
    ensures Truthful(Complete(st, s, now))
    ensures s.id !in Complete(st, s, now).store && LastEntry(Complete(st, s, now), s.id) == Some(Finished(s.id, now))
  {
    var st' := Complete(st, s, now);
    assert TruthfulAt(st, s.id);
    Append1OnlyAbout(st, st', Finished(s.id, now));
    OneMore(Project(st.log, s.id), Finished(s.id, now));
    ListedStaysTruthful(st, st', s.(status := Completed, updatedAt := now, completedAt := Some(now)));
  }

  lemma StartTruthful<W>(st: State<W>, key: Key, now: int)
    requires Truthful(st)
    ensures Truthful(Start(st, NewSaga(key, now), now))
  {
    var s := NewSaga(key, now);
    var end := Start(st, s, now);
    var gone := st;
    if key in st.store {
      gone := st.(store := st.store - {key}, log := st.log + [Expired(key)]);
      Append1OnlyAbout(st, gone, Expired(key));
    }
    assert end.log == gone.log + [Started(key, now)];
    Append1OnlyAbout(gone, end, Started(key, now));
    OnlyAboutTransitive(st, gone, end, key);
    OneMore(Project(gone.log, key), Started(key, now));
    ListedStaysTruthful(st, end, s);
  }

  lemma LoadTruthful<W>(st: State<W>, key: Key, now: int)
    requires Truthful(st)
    ensures Truthful(Load(st, key, now))
  {
    if key in st.store && Lapsed(st.store[key], now) {
      var gone := Load(st, key, now);
      Append1OnlyAbout(st, gone, Expired(key));
      OneMore(Project(st.log, key), Expired(key));
      forall k ensures TruthfulAt(gone, k) {
        assert TruthfulAt(st, k);
      }
    }
  }

  /** How the step loop leaves the instance: stored where it stopped, or gone with `GaveUp` as its last entry. */
  ghost predicate LoopEnds<W>(s: Saga, p: Progress<W>) {
    match p
    case Failing(st') =>
      s.id !in st'.store && LastEntry(st', s.id).Some? && LastEntry(st', s.id).value.GaveUp?
    case Paused(st', s') =>
      s'.id == s.id && s'.currentStep >= s.currentStep && s.id in st'.store && st'.store[s.id].value == s'
  }

  lemma {:induction false} AdvanceTruthful<W>(st: State<W>, def: Definition<W>, s: Saga, ev: Event, now: int)
    requires Truthful(st) && s.id in st.store && st.store[s.id].value == s
    ensures Truthful(Advance(st, def, s, ev, now).st) && LoopEnds(s, Advance(st, def, s, ev, now))
    ensures var p := Advance(st, def, s, ev, now);
            if s.currentStep < |def.steps| && def.steps[s.currentStep].trigger(ev)
            then p.Paused? ==> p.saga.currentStep > s.currentStep
            else p == Paused(st, s)
    decreases |def.steps| - s.currentStep
  {
    if s.currentStep < |def.steps| && def.steps[s.currentStep].trigger(ev) {
      var i := s.currentStep;
      assert TruthfulAt(st, s.id);
      var o := def.steps[i].action(st.world, s.payload, s.id.entity, ev, now);
      if o.err.Some? {
        var broken := st.(world := o.world, log := st.log + [Broke(s.id, i, o.err.value)]);
        Append1OnlyAbout(st, broken, Broke(s.id, i, o.err.value));
        OneMore(Project(st.log, s.id), Broke(s.id, i, o.err.value));
        FailTruthful(st, broken, def, s.(payload := o.payload), i, o.err.value, now);
      } else {
        var s' := AfterStep(s, o.payload, now);
        RecordTruthful(st, o.world, s', i, now);
        AdvanceTruthful(Record(st, o.world, s', i, now), def, s', ev, now);
      }
    }
  }

  /** Where a delivery leaves the instance it reached: at a higher step, or gone, completed or failed. */
  ghost predicate Moved<W>(st: State<W>, key: Key, from: nat) {
    if key in st.store then st.store[key].value.currentStep > from
    else StatusOf(st, key) == Completed || StatusOf(st, key) == Failed
  }

  lemma ProceedTruthful<W>(st: State<W>, def: Definition<W>, s: Saga, ev: Event, now: int)
    requires Truthful(st) && s.id in st.store && st.store[s.id].value == s
    ensures Truthful(Proceed(st, def, s, ev, now))
    ensures s.currentStep < |def.steps| ==>
              if def.steps[s.currentStep].trigger(ev) then Moved(Proceed(st, def, s, ev, now), s.id, s.currentStep)
              else Proceed(st, def, s, ev, now) == st
  {
    AdvanceTruthful(st, def, s, ev, now);
    var p := Advance(st, def, s, ev, now);
    if p.Paused? && p.saga.currentStep >= |def.steps| {
      CompleteTruthful(p.st, p.saga, now);
    }
  }

  lemma ClaimTruthful<W>(st: State<W>, def: Definition<W>, entity: nat, ev: Event, now: int)
    requires Truthful(st)
    ensures Truthful(Claim(st, def, entity, ev, now))
  {
    var key := Key(def.sagaType, entity);
    if Vacant(st.store, key, now) {
      var s := NewSaga(key, now);
      StartTruthful(st, key, now);
      ProceedTruthful(Start(st, s, now), def, s, ev, now);
    } else {
      LoadTruthful(st, key, now);
    }
  }

  lemma HandleDefinitionTruthful<W>(st: State<W>, def: Definition<W>, ev: Event, now: int)
    requires Truthful(st)
    ensures Truthful(HandleDefinition(st, def, ev, now))
  {
    if ev.entity.Some? {
      var key := Key(def.sagaType, ev.entity.value);
      var found := Lookup(st.store, key, now);
      LoadTruthful(st, key, now);
      if found.Some? {
        assert TruthfulAt(st, key);
        ProceedTruthful(st, def, found.value, ev, now);
      } else if StartsWith(def, ev) {
        ClaimTruthful(Load(st, key, now), def, ev.entity.value, ev, now);
      }
    }
  }

  lemma {:induction false} RouteTruthful<W>(st: State<W>, defs: seq<Definition<W>>, d: nat, ev: Event, now: int)
    requires d <= |defs| && Truthful(st)
    ensures Truthful(Route(st, defs, d, ev, now))
    decreases |defs| - d
  {
    if d < |defs| {
      if ev.subject in defs[d].subjects {
        HandleDefinitionTruthful(st, defs[d], ev, now);
        RouteTruthful(HandleDefinition(st, defs[d], ev, now), defs, d + 1, ev, now);
      } else {
        RouteTruthful(st, defs, d + 1, ev, now);
      }
    }
  }

  lemma ReapTruthful<W>(st: State<W>, defs: seq<Definition<W>>, timeout: int, key: Key, now: int)
    requires Sweepable(st.store, defs) && Truthful(st)
    ensures Truthful(Reap(st, defs, timeout, key, now))
  {
    LoadTruthful(st, key, now);
    var found := Lookup(st.store, key, now);
    if found.Some? {
      assert TruthfulAt(st, key);
      var d := Find(defs, found.value.id.sagaType);
      if d.Some? {
        FailTruthful(st, st, defs[d.value], found.value, found.value.currentStep, TIMEOUT_CAUSE, now);
      }
    }
  }

  lemma {:induction false} SweepTruthful<W>(st: State<W>, defs: seq<Definition<W>>, timeout: int, keys: seq<Key>,
                                            now: int)
    requires Sweepable(st.store, defs) && Truthful(st)
    ensures Truthful(Sweep(st, defs, timeout, keys, now))
    decreases |keys|
  {
    if keys != [] {
      ReapTruthful(st, defs, timeout, keys[0], now);
      ReapKeepsSweepable(st, defs, timeout, keys[0], now);
      SweepTruthful(Reap(st, defs, timeout, keys[0], now), defs, timeout, keys[1..], now);
    }
  }

  lemma RingKeepsTruth<W>(st: State<W>, st': State<W>)
    requires Truthful(st) && SameButRing(st, st')
    ensures Truthful(st')
  {
    forall key ensures TruthfulAt(st', key) {
      assert TruthfulAt(st, key);
    }
  }

  lemma ApplyTruthful<W>(st: State<W>, defs: seq<Definition<W>>, timeout: int, input: Input)
    requires Sweepable(st.store, defs) && Truthful(st)
    ensures Truthful(Apply(st, defs, timeout, input))
  {
    match input
    case Deliver(ev, now) =>
      var admitted := HandleEvent(st, [], ev, now);
      assert SameButRing(st, admitted);
      RingKeepsTruth(st, admitted);
      RouteTruthful(admitted, defs, 0, ev, now);
    case Race(d, entity, ev, now) =>
      if d < |defs| {
        ClaimTruthful(st, defs[d], entity, ev, now);
      }
    case SweepAt(keys, now) =>
      SweepTruthful(st, defs, timeout, keys, now);
  }

  lemma {:induction false} RunTruthful<W>(st: State<W>, defs: seq<Definition<W>>, timeout: int, inputs: seq<Input>)
    requires DistinctTypes(defs) && Inv(st, defs) && Truthful(st)
    ensures Truthful(Run(st, defs, timeout, inputs))
    decreases |inputs|
  {
    if inputs != [] {
      InvSweepable(st, defs);
      ApplyKeepsInv(st, defs, timeout, inputs[0]);
      ApplyTruthful(st, defs, timeout, inputs[0]);
      RunTruthful(Apply(st, defs, timeout, inputs[0]), defs, timeout, inputs[1..]);
    }
  }

  // ----- What the list says of an instance that is gone -----

  lemma {:induction false} NewestHasKey(recent: seq<Summary>, key: Key)
    ensures Newest(recent, key).Some? ==> Newest(recent, key).value.id == key
  {
    if recent != [] {
      NewestHasKey(recent[..|recent| - 1], key);
    }
  }

  /** A completed life has run every step. */
  lemma {:induction false} StepsOfProgress(before: seq<Entry>, key: Key, since: int, k: nat)
    ensures StepsRun(before + Progressed(key, since, k)) == k
  {
    if k == 0 {
      assert Progressed(key, since, 0) == [Started(key, since)];
      OneMore(before, Started(key, since));
    } else {
      StepsOfProgress(before, key, since, k - 1);
      ProgressedSnoc(key, since, k - 1);
      var shorter := before + Progressed(key, since, k - 1);
      assert before + Progressed(key, since, k) == shorter + [Ran(key, k - 1)];
      OneMore(shorter, Ran(key, k - 1));
    }
  }

  lemma FinishedRanAll<W>(st: State<W>, def: Definition<W>, key: Key, past: seq<Life>)
    requires key !in st.store && Tells(st, def, key, past, [])
    requires LastEntry(st, key).Some? && LastEntry(st, key).value.Finished?
    ensures StepsRun(Project(st.log, key)) == |def.steps|
  {
    var own := Project(st.log, key);
    assert own == RenderAll(def, key, past);
    var before, life := RenderAll(def, key, past[..|past| - 1]), past[|past| - 1];
    assert own == before + Render(def, key, life);
    assert own[|own| - 1] == Render(def, key, life)[|Render(def, key, life)| - 1];
    assert life.Done?;
    var ran := before + Progressed(key, life.since, |def.steps|);
    assert own == ran + [Finished(key, life.until)];
    StepsOfProgress(before, key, life.since, |def.steps|);
    OneMore(ran, Finished(key, life.until));
  }

  /** Main result: over every run, the newest listed summary of an instance that is gone says how it ended. Given up:
      the step it failed at, the error with which it failed, and when; completed: the number of steps of its workflow,
      no error, and when; and in both cases when that life began. */
  lemma LastSummaryTellsEnd<W>(world: W, defs: seq<Definition<W>>, timeout: int, inputs: seq<Input>, d: nat, key: Key)
    requires DistinctTypes(defs) && d < |defs| && key.sagaType == defs[d].sagaType
    requires var end := RunFrom(world, defs, timeout, inputs);
             Newest(end.recent, key).Some? && LastEntry(end, key).Some?
    ensures var end := RunFrom(world, defs, timeout, inputs);
            var n, since := Newest(end.recent, key).value, Since(Project(end.log, key));
            match LastEntry(end, key).value
            case GaveUp(_, k, error, at) =>
              key !in end.store && n == Summary(key, Failed, k, error, since, at, None)
            case Finished(_, at) =>
              key !in end.store && n == Summary(key, Completed, |defs[d].steps|, "", since, at, Some(at))
            case _ => n.status == Active && n.error == "" && n.createdAt == since && n.completedAt == None
  {
    InitialInv(world, defs);
    RunTruthful(Initial(world), defs, timeout, inputs);
    EveryRunAccounted(Initial(world), defs, timeout, inputs);
    var end := RunFrom(world, defs, timeout, inputs);
    NewestHasKey(end.recent, key);
    assert TruthfulAt(end, key);
    if LastEntry(end, key).value.Finished? {
      FindOwn(defs, d);
      InvSettled(end, defs, d, key);
      var past :| Tells(end, defs[d], key, past, Current(end.store, key));
      FinishedRanAll(end, defs[d], key, past);
    }
  }

  // ----- Searches -----

  /** Main result: over every run, a search without a status filter shows every stored instance it lists in exactly its
      stored state: active, at its step, without an error, with its times. */
  lemma SearchShowsStoredState<W>(world: W, defs: seq<Definition<W>>, timeout: int, inputs: seq<Input>,
                                  sagaType: string, out: seq<Summary>, idx: seq<nat>)
    requires DistinctTypes(defs)
    requires SagaEngine.Picks(RunFrom(world, defs, timeout, inputs).recent, sagaType, None, out, idx)
    ensures var end := RunFrom(world, defs, timeout, inputs);
            forall k :: 0 <= k < |out| && out[k].id in end.store ==>
              var s := end.store[out[k].id].value;
              out[k] == Summary(out[k].id, Active, s.currentStep, "", s.createdAt, s.updatedAt, None)
  {
    InitialInv(world, defs);
    RunTruthful(Initial(world), defs, timeout, inputs);
    var end := RunFrom(world, defs, timeout, inputs);
    forall k | 0 <= k < |out| && out[k].id in end.store
      ensures var s := end.store[out[k].id].value;
              out[k] == Summary(out[k].id, Active, s.currentStep, "", s.createdAt, s.updatedAt, None)
    {
      SagaEngine.UnfilteredIsLatest(end.recent, sagaType, idx[k]);
      LatestIsNewest(end.recent, idx[k]);
      assert TruthfulAt(end, out[k].id);
    }
  }

  lemma LatestIsNewest(recent: seq<Summary>, i: nat)
    requires SagaEngine.Latest(recent, i)
    ensures Newest(recent, recent[i].id) == Some(recent[i])
  {
    ListedHasNewest(recent, i);
    var j := NewestPosition(recent, recent[i].id);
    assert i == j;
  }

  lemma MatchIsLatestExactly(recent: seq<Summary>, sagaType: string, status: Status, i: nat)
    requires SagaEngine.LatestMatch(recent, sagaType, Some(status), i)
    ensures Newest(recent, recent[i].id).Some?
    ensures SagaEngine.Latest(recent, i) <==> Newest(recent, recent[i].id).value.status == status
  {
    ListedHasNewest(recent, i);
    var j := NewestPosition(recent, recent[i].id);
    assert recent[j].status == status ==> SagaEngine.Matches(recent[j], sagaType, Some(status));
    if SagaEngine.Latest(recent, i) {
      LatestIsNewest(recent, i);
    }
  }

  /** Main result: over every run, a summary that a search filtered by status lists is its saga's latest if and only
      if the saga is really in that status: for active, if it is still stored or its last life expired; for completed
      and failed, if it is not stored and its last life ended so. */
  lemma FilteredIsLatestExactly<W>(world: W, defs: seq<Definition<W>>, timeout: int, inputs: seq<Input>,
                                   sagaType: string, status: Status, out: seq<Summary>, idx: seq<nat>)
    requires DistinctTypes(defs)
    requires SagaEngine.Picks(RunFrom(world, defs, timeout, inputs).recent, sagaType, Some(status), out, idx)
    ensures var end := RunFrom(world, defs, timeout, inputs);
            forall k :: 0 <= k < |out| ==>
              (SagaEngine.Latest(end.recent, idx[k]) <==> StatusOf(end, out[k].id) == status)
  {
    InitialInv(world, defs);
    RunTruthful(Initial(world), defs, timeout, inputs);
    var end := RunFrom(world, defs, timeout, inputs);
    forall k | 0 <= k < |out| ensures SagaEngine.Latest(end.recent, idx[k]) <==> StatusOf(end, out[k].id) == status {
      MatchIsLatestExactly(end.recent, sagaType, status, idx[k]);
      assert TruthfulAt(end, out[k].id);
    }
  }

  lemma {:induction false} NoExpiryNoEntry(log: seq<Entry>, key: Key)
    requires Count(log).expiries == 0
    ensures var own := Project(log, key); own != [] ==> !own[|own| - 1].Expired?
  {
    if log != [] {
      NoExpiryNoEntry(log[..|log| - 1], key);
    }
  }

  ghost predicate InitialTimely<W>(world: W, defs: seq<Definition<W>>, timeout: int, inputs: seq<Input>, start: int)
    requires DistinctTypes(defs)
  {
    InitialInv(world, defs);
    SagaRuns.Timely(Initial(world), defs, timeout, inputs, start)
  }

  /** Under timely sweeps nothing expires, and then the condition for the active filter is simply that the saga is
      stored. */
  lemma ActiveIsLatestExactly<W>(world: W, defs: seq<Definition<W>>, timeout: int, inputs: seq<Input>, start: int,
                                 sagaType: string, out: seq<Summary>, idx: seq<nat>)
    requires DistinctTypes(defs) && timeout > 0
    requires InitialTimely(world, defs, timeout, inputs, start)
    requires SagaEngine.Picks(RunFrom(world, defs, timeout, inputs).recent, sagaType, Some(Active), out, idx)
    ensures var end := RunFrom(world, defs, timeout, inputs);
            forall k :: 0 <= k < |out| ==> (SagaEngine.Latest(end.recent, idx[k]) <==> out[k].id in end.store)
  {
    FilteredIsLatestExactly(world, defs, timeout, inputs, sagaType, Active, out, idx);
    InitialInv(world, defs);
    SagaRuns.TimelySweepsLoseNothing(Initial(world), defs, timeout, inputs, start);
    var end := RunFrom(world, defs, timeout, inputs);
    forall k | 0 <= k < |out| ensures StatusOf(end, out[k].id) == Active <==> out[k].id in end.store {
      NoExpiryNoEntry(end.log, out[k].id);
    }
  }
}
