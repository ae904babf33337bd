/** What every run of the saga engine keeps: each instance's history has one of four shapes, the counters add up,
    stored instances can always be swept safely, and timely sweeps let no instance expire. */
module SagaTrace {
  import opened Wrappers
  import opened TimedCache
  import opened SagaModel
  import EventDedup

  // ----- The reference: the histories an instance may have -----

  function Project(log: seq<Entry>, key: Key): seq<Entry> {
    if log == [] then []
    else
      var last := log[|log| - 1];
      Project(log[..|log| - 1], key) + if last.key == key then [last] else []
  }

  /** A finished life of an instance: claimed at `since`, over at `until`, stopped at step `at`. */
  datatype Life =
    | Done(since: int, until: int)
    | StepFailed(since: int, at: nat, error: string, until: int)
    | TimedOut(since: int, at: nat, until: int)
    | Lost(since: int, at: nat)

  /** Claimed, then actions 0, 1, ..., k - 1, each once. */
  function Progressed(key: Key, since: int, k: nat): seq<Entry> {
    [Started(key, since)] + seq(k, (i: nat) => Ran(key, i))
  }

  /** The registered compensators of k, k - 1, ..., 0, each once. */
  function Unwound<W>(def: Definition<W>, key: Key, k: int): seq<Entry>
    requires k < |def.steps|
    decreases k
  {
    if k < 0 then []
    else (if def.steps[k].compensate.Some? then [Undone(key, k)] else []) + Unwound(def, key, k - 1)
  }

  predicate Possible<W>(def: Definition<W>, life: Life) {
    match life
    case Done(_, _) => true
    case StepFailed(_, k, _, _) => k < |def.steps|
    case TimedOut(_, k, _) => 1 <= k < |def.steps|
    case Lost(_, k) => 1 <= k < |def.steps|
  }

  function Render<W>(def: Definition<W>, key: Key, life: Life): seq<Entry>
    requires Possible(def, life)
  {
    match life
    case Done(since, until) => Progressed(key, since, |def.steps|) + [Finished(key, until)]
    case StepFailed(since, k, error, until) =>
      Progressed(key, since, k) + [Broke(key, k, error)] + Unwound(def, key, k) + [GaveUp(key, k, error, until)]
    case TimedOut(since, k, until) =>
      Progressed(key, since, k) + Unwound(def, key, k) + [GaveUp(key, k, TIMEOUT_CAUSE, until)]
    case Lost(since, k) => Progressed(key, since, k) + [Expired(key)]
  }

  ghost predicate AllPossible<W>(def: Definition<W>, past: seq<Life>) {
    forall i :: 0 <= i < |past| ==> Possible(def, past[i])
  }

  function RenderAll<W>(def: Definition<W>, key: Key, past: seq<Life>): seq<Entry>
    requires AllPossible(def, past)
  {
    if past == [] then []
    else RenderAll(def, key, past[..|past| - 1]) + Render(def, key, past[|past| - 1])
  }

  function Current(store: Items<Key, Saga>, key: Key): seq<Entry> {
    if key in store then Progressed(key, store[key].value.createdAt, store[key].value.currentStep) else []
  }

  ghost predicate Tells<W>(st: State<W>, def: Definition<W>, key: Key, past: seq<Life>, current: seq<Entry>) {
    AllPossible(def, past) && Project(st.log, key) == RenderAll(def, key, past) + current
  }

  /** The history of a key is some finished lives followed by the live one, if its state is stored. */
  ghost predicate Accounted<W>(st: State<W>, defs: seq<Definition<W>>, key: Key) {
    match Find(defs, key.sagaType)
    case None => key !in st.store && Project(st.log, key) == []
    case Some(d) => exists past :: Tells(st, defs[d], key, past, Current(st.store, key))
  }

  /** Every stored instance is active, waiting strictly inside its steps, and expires STATE_TTL after its update. */
  ghost predicate StoredWell<W>(defs: seq<Definition<W>>, key: Key, item: Item<Saga>) {
    var s := item.value;
    && s.id == key
    && s.status == Active
    && Find(defs, key.sagaType).Some?
    && 1 <= s.currentStep < |defs[Find(defs, key.sagaType).value].steps|
    && item.expires == At(s.updatedAt + STATE_TTL)
  }

  ghost predicate StoreOK<W>(st: State<W>, defs: seq<Definition<W>>) {
    forall key :: key in st.store ==> StoredWell(defs, key, st.store[key])
  }

  datatype Tally = Tally(starts: nat, finishes: nat, giveUps: nat, expiries: nat)

  function Count(log: seq<Entry>): Tally {
    if log == [] then Tally(0, 0, 0, 0)
    else
      var t := Count(log[..|log| - 1]);
      match log[|log| - 1]
      case Started(_, _) => t.(starts := t.starts + 1)
      case Finished(_, _) => t.(finishes := t.finishes + 1)
      case GaveUp(_, _, _, _) => t.(giveUps := t.giveUps + 1)
      case Expired(_) => t.(expiries := t.expiries + 1)
      case _ => t
  }

  /** The counters are the numbers of starts, completions and failures, and every start is accounted for. */
  ghost predicate Balanced<W>(st: State<W>) {
    var t := Count(st.log);
    && st.started == t.starts && st.completed == t.finishes && st.failed == t.giveUps
    && st.started == st.completed + st.failed + |st.store| + t.expiries
  }

  ghost predicate Inv<W>(st: State<W>, defs: seq<Definition<W>>) {
    StoreOK(st, defs) && Balanced(st) && forall key :: Accounted(st, defs, key)
  }

  // ----- Runs -----

  /** One atomic step of the system: a delivery; the late half of a delivery that had missed its load before other
      deliveries ran (only the claim is atomic there); or a sweep. */
  datatype Input =
    | Deliver(ev: Event, now: int)
    | Race(d: nat, entity: nat, ev: Event, now: int)
    | SweepAt(keys: seq<Key>, now: int)

  ghost function Apply<W>(st: State<W>, defs: seq<Definition<W>>, timeout: int, input: Input): State<W>
    requires Sweepable(st.store, defs)
  {
    match input
    case Deliver(ev, now) => HandleEvent(st, defs, ev, now)
    case Race(d, entity, ev, now) =>
      if d < |defs| && StartsWith(defs[d], ev) then Claim(st, defs[d], entity, ev, now) else st
    case SweepAt(keys, now) => Sweep(st, defs, timeout, keys, now)
  }

  ghost predicate DistinctTypes<W>(defs: seq<Definition<W>>) {
    forall i, j :: 0 <= i < j < |defs| ==> defs[i].sagaType != defs[j].sagaType
  }

  ghost function Run<W>(st: State<W>, defs: seq<Definition<W>>, timeout: int, inputs: seq<Input>): State<W>
    requires DistinctTypes(defs) && Inv(st, defs)
    decreases |inputs|
  {
    if inputs == [] then st
    else
      InvSweepable(st, defs);
      ApplyKeepsInv(st, defs, timeout, inputs[0]);
      Run(Apply(st, defs, timeout, inputs[0]), defs, timeout, inputs[1..])
  }

  lemma InvSweepable<W>(st: State<W>, defs: seq<Definition<W>>)
    requires StoreOK(st, defs)
    ensures Sweepable(st.store, defs)
  {
    forall key | key in st.store
      ensures Find(defs, st.store[key].value.id.sagaType).Some? ==>
        st.store[key].value.currentStep < |defs[Find(defs, st.store[key].value.id.sagaType).value].steps|
    {
      assert StoredWell(defs, key, st.store[key]);
    }
  }

  // ----- Appending to the log -----

  lemma Append1(log: seq<Entry>, e: Entry, key: Key)
    ensures Project(log + [e], key) == Project(log, key) + if e.key == key then [e] else []
    ensures Count(log + [e]) ==
            var t := Count(log);
            match e
            case Started(_, _) => t.(starts := t.starts + 1)
            case Finished(_, _) => t.(finishes := t.finishes + 1)
            case GaveUp(_, _, _, _) => t.(giveUps := t.giveUps + 1)
            case Expired(_) => t.(expiries := t.expiries + 1)
            case _ => t
  {
    assert (log + [e])[..|log|] == log;
  }

  /** `st'` differs from `st` only in what concerns `key`. */
  ghost predicate OnlyAbout<W>(st: State<W>, st': State<W>, key: Key) {
    && (forall k :: k != key ==> Project(st'.log, k) == Project(st.log, k))
    && (forall k :: k != key ==> (k in st'.store <==> k in st.store))
    && (forall k :: k != key && k in st.store ==> st'.store[k] == st.store[k])
  }

  lemma OnlyAboutTransitive<W>(a: State<W>, b: State<W>, c: State<W>, key: Key)
    requires OnlyAbout(a, b, key) && OnlyAbout(b, c, key)
    ensures OnlyAbout(a, c, key)
  {
  }

  lemma Append1OnlyAbout<W>(st: State<W>, st': State<W>, e: Entry)
    requires st'.log == st.log + [e]
    requires forall k :: k != e.key ==> (k in st'.store <==> k in st.store)
    requires forall k :: k != e.key && k in st.store ==> st'.store[k] == st.store[k]
    ensures OnlyAbout(st, st', e.key)
    ensures Project(st'.log, e.key) == Project(st.log, e.key) + [e]
  {
    forall k ensures Project(st'.log, k) == Project(st.log, k) + if e.key == k then [e] else [] {
      Append1(st.log, e, k);
    }
  }

  lemma OtherKeysAccounted<W>(st: State<W>, st': State<W>, defs: seq<Definition<W>>, key: Key)
    requires OnlyAbout(st, st', key)
    ensures forall k :: k != key && Accounted(st, defs, k) ==> Accounted(st', defs, k)
  {
    forall k | k != key && Accounted(st, defs, k) ensures Accounted(st', defs, k) {
      match Find(defs, k.sagaType)
      case None =>
      case Some(d) =>
        var past :| Tells(st, defs[d], k, past, Current(st.store, k));
        assert Tells(st', defs[d], k, past, Current(st'.store, k));
    }
  }

  lemma RenderSnoc<W>(def: Definition<W>, key: Key, past: seq<Life>, life: Life)
    requires AllPossible(def, past) && Possible(def, life)
    ensures AllPossible(def, past + [life])
    ensures RenderAll(def, key, past + [life]) == RenderAll(def, key, past) + Render(def, key, life)
  {
    assert (past + [life])[..|past|] == past;
  }

  lemma ProgressedSnoc(key: Key, since: int, k: nat)
    ensures Progressed(key, since, k + 1) == Progressed(key, since, k) + [Ran(key, k)]
  {
  }

  // ----- One piece of the engine at a time -----

  /** From `st` to `st'` exactly these compensators ran, all of them for `key`. */
  ghost predicate Unwinds<W>(st: State<W>, st': State<W>, key: Key, entries: seq<Entry>) {
    && OnlyAbout(st, st', key) && Count(st'.log) == Count(st.log)
    && Project(st'.log, key) == Project(st.log, key) + entries
  }

  lemma UnwindsMore<W>(a: State<W>, b: State<W>, c: State<W>, key: Key, es: seq<Entry>, fs: seq<Entry>)
    requires Unwinds(a, b, key, es) && Unwinds(b, c, key, fs)
    ensures Unwinds(a, c, key, es + fs)
  {
    OnlyAboutTransitive(a, b, c, key);
  }

  /** One compensator, and what is left to undo. */
  lemma UndoOne<W>(st: State<W>, def: Definition<W>, s: Saga, i: nat, now: int) returns (st1: State<W>, s1: Saga)
    requires i < |def.steps| && def.steps[i].compensate.Some?
    ensures s1.id == s.id && Undo(st, def, s, i, now) == Undo(st1, def, s1, i - 1, now)
    ensures Unwinds(st, st1, s.id, [Undone(s.id, i)])
  {
    var o := def.steps[i].compensate.value(st.world, s.payload, s.id.entity, now);
    st1, s1 := st.(world := o.world, log := st.log + [Undone(s.id, i)]), s.(payload := o.payload);
    Append1OnlyAbout(st, st1, Undone(s.id, i));
    Append1(st.log, Undone(s.id, i), s.id);
  }

  lemma {:induction false} UndoTrace<W>(st: State<W>, def: Definition<W>, s: Saga, i: int, now: int)
    requires i < |def.steps|
    ensures Unwinds(st, Undo(st, def, s, i, now).0, s.id, Unwound(def, s.id, i))
    decreases i
  {
    if i >= 0 {
      if def.steps[i].compensate.None? {
        UndoTrace(st, def, s, i - 1, now);
      } else {
        var st1, s1 := UndoOne(st, def, s, i, now);
        UndoTrace(st1, def, s1, i - 1, now);
        UnwindsMore(st, st1, Undo(st, def, s, i, now).0, s.id, [Undone(s.id, i)], Unwound(def, s.id, i - 1));
      }
    }
  }

  lemma FailTrace<W>(st: State<W>, def: Definition<W>, s: Saga, i: nat, cause: string, now: int)
    requires i < |def.steps| && s.id in st.store && Balanced(st)
    ensures var st' := Fail(st, def, s, i, cause, now);
            && OnlyAbout(st, st', s.id) && s.id !in st'.store && Balanced(st')
            && Project(st'.log, s.id) == Project(st.log, s.id) + Unwound(def, s.id, i) + [GaveUp(s.id, i, cause, now)]
            && st'.ring == st.ring && Count(st'.log).expiries == Count(st.log).expiries
  {
    UndoFrame(st, def, s, i, now);
    UndoTrace(st, def, s, i, now);
    var st1 := Undo(st, def, s, i, now).0;
    var st2 := Fail(st, def, s, i, cause, now);
    Append1OnlyAbout(st1, st2, GaveUp(s.id, i, cause, now));
    Append1(st1.log, GaveUp(s.id, i, cause, now), s.id);
  }

  lemma RecordTrace<W>(st: State<W>, world: W, s: Saga, i: nat, now: int)
    requires s.id in st.store && Balanced(st)
    ensures var st' := Record(st, world, s, i, now);
            && OnlyAbout(st, st', s.id) && Balanced(st')
            && Project(st'.log, s.id) == Project(st.log, s.id) + [Ran(s.id, i)]
            && Count(st'.log).expiries == Count(st.log).expiries
  {
    var st' := Record(st, world, s, i, now);
    assert st'.store.Keys == st.store.Keys;
    assert |st'.store| == |st'.store.Keys|;
    Append1OnlyAbout(st, st', Ran(s.id, i));
    Append1(st.log, Ran(s.id, i), s.id);
  }

  /** A saga in the middle of the step loop: its key is stored and its history so far is past lives plus progress. */
  ghost predicate Midway<W>(st: State<W>, def: Definition<W>, s: Saga, past: seq<Life>) {
    && s.id in st.store && Balanced(st) && s.currentStep <= |def.steps|
    && Tells(st, def, s.id, past, Progressed(s.id, s.createdAt, s.currentStep))
  }

  ghost predicate Closed<W>(st: State<W>, def: Definition<W>, key: Key) {
    key !in st.store && Balanced(st) && exists past :: Tells(st, def, key, past, [])
  }

  lemma Regroup(r: seq<Entry>, p: seq<Entry>, u: seq<Entry>, e: seq<Entry>)
    ensures r + p + u + e == r + (p + u + e)
  {
  }

  /** Failing at `i` turns the progress made so far (`reached`) into the finished life `life`. */
  lemma CloseLife<W>(st: State<W>, def: Definition<W>, s: Saga, i: nat, cause: string, now: int, past: seq<Life>,
                     reached: seq<Entry>, life: Life)
    requires i < |def.steps| && s.id in st.store && Balanced(st)
    requires Tells(st, def, s.id, past, reached)
    requires Possible(def, life)
    requires Render(def, s.id, life) == reached + Unwound(def, s.id, i) + [GaveUp(s.id, i, cause, now)]
    ensures Tells(Fail(st, def, s, i, cause, now), def, s.id, past + [life], [])
  {
    FailTrace(st, def, s, i, cause, now);
    RenderSnoc(def, s.id, past, life);
    Regroup(RenderAll(def, s.id, past), reached, Unwound(def, s.id, i), [GaveUp(s.id, i, cause, now)]);
  }

  /** How far the instance had come when it was given up. */
  function Reached(s: Saga, i: nat, life: Life): seq<Entry> {
    Progressed(s.id, s.createdAt, i) + if life.StepFailed? then [Broke(s.id, i, life.error)] else []
  }

  /** The life that ends there. */
  ghost predicate EndsAs(s: Saga, i: nat, cause: string, now: int, life: Life) {
    || life == StepFailed(s.createdAt, i, cause, now)
    || (life == TimedOut(s.createdAt, i, now) && i >= 1 && cause == TIMEOUT_CAUSE)
  }

  lemma ReachedRender<W>(def: Definition<W>, s: Saga, i: nat, cause: string, now: int, life: Life)
    requires i < |def.steps| && EndsAs(s, i, cause, now, life)
    ensures Possible(def, life)
    ensures Render(def, s.id, life) == Reached(s, i, life) + Unwound(def, s.id, i) + [GaveUp(s.id, i, cause, now)]
  {
    var p := Progressed(s.id, s.createdAt, i);
    assert p + [] == p;
  }

  lemma CloseFailed<W>(st: State<W>, def: Definition<W>, s: Saga, i: nat, cause: string, now: int, past: seq<Life>,
                       life: Life)
    requires i < |def.steps| && s.id in st.store && Balanced(st)
    requires EndsAs(s, i, cause, now, life)
    requires Tells(st, def, s.id, past, Reached(s, i, life))
    ensures OnlyAbout(st, Fail(st, def, s, i, cause, now), s.id)
    ensures Closed(Fail(st, def, s, i, cause, now), def, s.id)
    ensures Fail(st, def, s, i, cause, now).ring == st.ring
    ensures Count(Fail(st, def, s, i, cause, now).log).expiries == Count(st.log).expiries
  {
    ReachedRender(def, s, i, cause, now, life);
    CloseLife(st, def, s, i, cause, now, past, Reached(s, i, life), life);
    FailTrace(st, def, s, i, cause, now);
  }

  /** What the step loop guarantees, whichever way it ends. */
  ghost predicate Advanced<W>(st: State<W>, def: Definition<W>, s: Saga, ev: Event, now: int, past: seq<Life>,
                              p: Progress<W>)
  {
    && OnlyAbout(st, p.st, s.id) && p.st.ring == st.ring && Count(p.st.log).expiries == Count(st.log).expiries
    && match p
       case Failing(st') => Closed(st', def, s.id)
       case Paused(st', s') =>
         && s'.id == s.id && Midway(st', def, s', past) && s.currentStep <= s'.currentStep
         && (s'.currentStep < |def.steps| ==> !def.steps[s'.currentStep].trigger(ev))
         && if s'.currentStep == s.currentStep then st' == st && s' == s
            else st'.store[s.id] == Item(s', At(now + STATE_TTL)) && s'.status == Active && s'.updatedAt == now
  }

  lemma {:induction false} AdvanceTrace<W>(st: State<W>, def: Definition<W>, s: Saga, ev: Event, now: int,
                                           past: seq<Life>)
    requires Midway(st, def, s, past)
    ensures Advanced(st, def, s, ev, now, past, Advance(st, def, s, ev, now))
    decreases |def.steps| - s.currentStep
  {
    if s.currentStep < |def.steps| && def.steps[s.currentStep].trigger(ev) {
      var i := s.currentStep;
      var o := def.steps[i].action(st.world, s.payload, s.id.entity, ev, now);
      if o.err.Some? {
        var st1 := st.(world := o.world, log := st.log + [Broke(s.id, i, o.err.value)]);
        Append1OnlyAbout(st, st1, Broke(s.id, i, o.err.value));
        Append1(st.log, Broke(s.id, i, o.err.value), s.id);
        assert Tells(st1, def, s.id, past, Progressed(s.id, s.createdAt, i) + [Broke(s.id, i, o.err.value)]);
        CloseFailed(st1, def, s.(payload := o.payload), i, o.err.value, now, past,
                    StepFailed(s.createdAt, i, o.err.value, now));
      } else {
        var s' := AfterStep(s, o.payload, now);
        var st1 := Record(st, o.world, s', i, now);
        RecordTrace(st, o.world, s', i, now);
        ProgressedSnoc(s.id, s.createdAt, i);
        assert Tells(st1, def, s.id, past, Progressed(s.id, s.createdAt, i + 1));
        AdvanceTrace(st1, def, s', ev, now, past);
      }
    }
  }

  lemma CompleteTrace<W>(st: State<W>, def: Definition<W>, s: Saga, now: int, past: seq<Life>)
    requires Midway(st, def, s, past) && s.currentStep == |def.steps|
    ensures OnlyAbout(st, Complete(st, s, now), s.id) && Closed(Complete(st, s, now), def, s.id)
    ensures Count(Complete(st, s, now).log).expiries == Count(st.log).expiries
  {
    var st' := Complete(st, s, now);
    Append1OnlyAbout(st, st', Finished(s.id, now));
    Append1(st.log, Finished(s.id, now), s.id);
    var life := Done(s.createdAt, now);
    RenderSnoc(def, s.id, past, life);
    assert Tells(st', def, s.id, past + [life], []);
  }

  /** The instance under `key` is either gone with a closed history or stored well with an open one. */
  ghost predicate Settled<W>(st: State<W>, defs: seq<Definition<W>>, d: nat, key: Key)
    requires d < |defs|
  {
    && Balanced(st)
    && (key in st.store ==> StoredWell(defs, key, st.store[key]))
    && exists past :: Tells(st, defs[d], key, past, Current(st.store, key))
  }

  lemma ClosedSettled<W>(st: State<W>, defs: seq<Definition<W>>, d: nat, key: Key)
    requires d < |defs| && Closed(st, defs[d], key)
    ensures Settled(st, defs, d, key)
  {
    var past :| Tells(st, defs[d], key, past, []);
    assert Tells(st, defs[d], key, past, Current(st.store, key));
  }

  lemma MidwaySettled<W>(st: State<W>, defs: seq<Definition<W>>, d: nat, s: Saga, past: seq<Life>)
    requires d < |defs| && Midway(st, defs[d], s, past)
    requires st.store[s.id].value == s && StoredWell(defs, s.id, st.store[s.id])
    ensures Settled(st, defs, d, s.id)
  {
    assert Tells(st, defs[d], s.id, past, Current(st.store, s.id));
  }

  /** The entry under `key` is gone, untouched, or was written at `now`. */
  ghost predicate Renewed<W>(st: State<W>, st': State<W>, key: Key, now: int) {
    key in st'.store ==> st'.store[key].value.updatedAt == now || (key in st.store && st'.store[key] == st.store[key])
  }

  /** The three ways a finished step loop leaves the instance. */
  lemma PausedStoredWell<W>(st: State<W>, defs: seq<Definition<W>>, d: nat, s: Saga, ev: Event, now: int,
                            past: seq<Life>, p: Progress<W>)
    requires d < |defs| && Find(defs, s.id.sagaType) == Some(d)
    requires s.id in st.store && st.store[s.id].value == s
    requires StoredWell(defs, s.id, st.store[s.id]) || (StartsWith(defs[d], ev) && s.currentStep == 0)
    requires p.Paused? && Advanced(st, defs[d], s, ev, now, past, p) && p.saga.currentStep < |defs[d].steps|
    ensures p.st.store[s.id].value == p.saga && StoredWell(defs, s.id, p.st.store[s.id])
    ensures Renewed(st, p.st, s.id, now)
  {
  }

  lemma ProceedTrace<W>(st: State<W>, defs: seq<Definition<W>>, d: nat, s: Saga, ev: Event, now: int, past: seq<Life>)
    requires d < |defs| && Find(defs, s.id.sagaType) == Some(d)
    requires Midway(st, defs[d], s, past)
    requires st.store[s.id].value == s
    requires StoredWell(defs, s.id, st.store[s.id]) || (StartsWith(defs[d], ev) && s.currentStep == 0)
    ensures OnlyAbout(st, Proceed(st, defs[d], s, ev, now), s.id)
    ensures Settled(Proceed(st, defs[d], s, ev, now), defs, d, s.id)
    ensures Proceed(st, defs[d], s, ev, now).ring == st.ring
    ensures Count(Proceed(st, defs[d], s, ev, now).log).expiries == Count(st.log).expiries
    ensures Renewed(st, Proceed(st, defs[d], s, ev, now), s.id, now)
  {
    AdvanceTrace(st, defs[d], s, ev, now, past);
    var p := Advance(st, defs[d], s, ev, now);
    ProceedFrom(st, defs, d, s, ev, now, past, p);
  }

  lemma ProceedFrom<W>(st: State<W>, defs: seq<Definition<W>>, d: nat, s: Saga, ev: Event, now: int, past: seq<Life>,
                       p: Progress<W>)
    requires d < |defs| && Find(defs, s.id.sagaType) == Some(d)
    requires s.id in st.store && st.store[s.id].value == s
    requires StoredWell(defs, s.id, st.store[s.id]) || (StartsWith(defs[d], ev) && s.currentStep == 0)
    requires Advanced(st, defs[d], s, ev, now, past, p)
    ensures OnlyAbout(st, Conclude(defs[d], p, now), s.id)
    ensures Settled(Conclude(defs[d], p, now), defs, d, s.id)
    ensures Conclude(defs[d], p, now).ring == st.ring
    ensures Count(Conclude(defs[d], p, now).log).expiries == Count(st.log).expiries
    ensures Renewed(st, Conclude(defs[d], p, now), s.id, now)
  {
    if p.Failing? {
      ClosedSettled(p.st, defs, d, s.id);
    } else if p.saga.currentStep >= |defs[d].steps| {
      CompleteTrace(p.st, defs[d], p.saga, now, past);
      OnlyAboutTransitive(st, p.st, Complete(p.st, p.saga, now), s.id);
      ClosedSettled(Complete(p.st, p.saga, now), defs, d, s.id);
    } else {
      PausedStoredWell(st, defs, d, s, ev, now, past, p);
      MidwaySettled(p.st, defs, d, p.saga, past);
    }
  }

  /** Dropping a stored entry closes its life as lost. */
  lemma LoseTrace<W>(st: State<W>, defs: seq<Definition<W>>, d: nat, key: Key) returns (lost: State<W>)
    requires d < |defs| && Find(defs, key.sagaType) == Some(d) && Settled(st, defs, d, key) && key in st.store
    ensures lost == st.(store := st.store - {key}, log := st.log + [Expired(key)])
    ensures OnlyAbout(st, lost, key) && Closed(lost, defs[d], key)
    ensures Count(lost.log).expiries == Count(st.log).expiries + 1
  {
    lost := st.(store := st.store - {key}, log := st.log + [Expired(key)]);
    Append1OnlyAbout(st, lost, Expired(key));
    Append1(st.log, Expired(key), key);
    LoseLife(st, lost, defs, d, key);
  }

  lemma LoseLife<W>(st: State<W>, lost: State<W>, defs: seq<Definition<W>>, d: nat, key: Key)
    requires d < |defs| && Find(defs, key.sagaType) == Some(d) && Settled(st, defs, d, key) && key in st.store
    requires lost.store == st.store - {key} && Project(lost.log, key) == Project(st.log, key) + [Expired(key)]
    ensures exists past :: Tells(lost, defs[d], key, past, [])
  {
    var past :| Tells(st, defs[d], key, past, Current(st.store, key));
    var life := Lost(st.store[key].value.createdAt, st.store[key].value.currentStep);
    assert Possible(defs[d], life);
    RenderSnoc(defs[d], key, past, life);
    assert Tells(lost, defs[d], key, past + [life], []);
  }

  lemma LoadTrace<W>(st: State<W>, defs: seq<Definition<W>>, d: nat, key: Key, now: int)
    requires d < |defs| && Find(defs, key.sagaType) == Some(d) && Settled(st, defs, d, key)
    ensures OnlyAbout(st, Load(st, key, now), key) && Settled(Load(st, key, now), defs, d, key)
    ensures Load(st, key, now).ring == st.ring
    ensures Renewed(st, Load(st, key, now), key, now)
    ensures key !in st.store || !Lapsed(st.store[key], now) ==> Load(st, key, now) == st
    ensures key in Load(st, key, now).store <==> Lookup(st.store, key, now).Some?
  {
    if key in st.store && Lapsed(st.store[key], now) {
      var lost := LoseTrace(st, defs, d, key);
      ClosedSettled(lost, defs, d, key);
    }
  }

  /** Starting on a key with no stored state opens a new life; the action loop takes it from there. */
  lemma StartTrace<W>(st: State<W>, defs: seq<Definition<W>>, d: nat, s: Saga, now: int) returns (past: seq<Life>)
    requires d < |defs| && Closed(st, defs[d], s.id) && s.currentStep == 0 && s.createdAt == now
    ensures Midway(Start(st, s, now), defs[d], s, past)
    ensures OnlyAbout(st, Start(st, s, now), s.id)
    ensures Count(Start(st, s, now).log).expiries == Count(st.log).expiries
  {
    past :| Tells(st, defs[d], s.id, past, []);
    var st' := Start(st, s, now);
    assert st'.log == st.log + [Started(s.id, now)];
    Append1OnlyAbout(st, st', Started(s.id, now));
    Append1(st.log, Started(s.id, now), s.id);
    assert Progressed(s.id, now, 0) == [Started(s.id, now)];
    assert Tells(st', defs[d], s.id, past, Progressed(s.id, now, 0));
  }

  /** Starting over an entry that `SetNX` found expired is the same as losing that entry first. */
  lemma StartOver<W>(st: State<W>, s: Saga, now: int)
    requires s.id in st.store
    ensures Start(st, s, now) ==
            Start(st.(store := st.store - {s.id}, log := st.log + [Expired(s.id)]), s, now)
  {
    assert st.log + [Expired(s.id)] + [Started(s.id, now)] == st.log + [Expired(s.id)] + [] + [Started(s.id, now)];
    assert Put(st.store - {s.id}, s.id, s, STATE_TTL, now) == Put(st.store, s.id, s, STATE_TTL, now);
  }

  lemma ClaimTrace<W>(st: State<W>, defs: seq<Definition<W>>, d: nat, entity: nat, ev: Event, now: int)
    requires d < |defs| && Find(defs, defs[d].sagaType) == Some(d) && StartsWith(defs[d], ev)
    requires Settled(st, defs, d, Key(defs[d].sagaType, entity))
    ensures OnlyAbout(st, Claim(st, defs[d], entity, ev, now), Key(defs[d].sagaType, entity))
    ensures Settled(Claim(st, defs[d], entity, ev, now), defs, d, Key(defs[d].sagaType, entity))
    ensures Claim(st, defs[d], entity, ev, now).ring == st.ring
    ensures Renewed(st, Claim(st, defs[d], entity, ev, now), Key(defs[d].sagaType, entity), now)
    ensures Key(defs[d].sagaType, entity) !in st.store || !Reclaimable(st.store[Key(defs[d].sagaType, entity)], now) ==>
              Count(Claim(st, defs[d], entity, ev, now).log).expiries == Count(st.log).expiries
  {
    var key := Key(defs[d].sagaType, entity);
    var s := NewSaga(key, now);
    if !Vacant(st.store, key, now) {
      LoadTrace(st, defs, d, key, now);
    } else {
      var empty := st;
      if key in st.store {
        empty := LoseTrace(st, defs, d, key);
        StartOver(st, s, now);
      } else {
        SettledClosed(st, defs, d, key);
      }
      var past := StartTrace(empty, defs, d, s, now);
      OnlyAboutTransitive(st, empty, Start(st, s, now), key);
      ProceedTrace(Start(st, s, now), defs, d, s, ev, now, past);
      OnlyAboutTransitive(st, Start(st, s, now), Claim(st, defs[d], entity, ev, now), key);
    }
  }

  lemma SettledClosed<W>(st: State<W>, defs: seq<Definition<W>>, d: nat, key: Key)
    requires d < |defs| && key !in st.store && Settled(st, defs, d, key)
    ensures Closed(st, defs[d], key)
  {
    var past :| Tells(st, defs[d], key, past, Current(st.store, key));
    assert Tells(st, defs[d], key, past, []);
  }

  lemma FindOwn<W>(defs: seq<Definition<W>>, d: nat)
    requires DistinctTypes(defs) && d < |defs|
    ensures Find(defs, defs[d].sagaType) == Some(d)
  {
  }

  lemma HandleDefinitionTrace<W>(st: State<W>, defs: seq<Definition<W>>, d: nat, ev: Event, now: int)
    requires d < |defs| && Find(defs, defs[d].sagaType) == Some(d) && ev.entity.Some?
    requires Settled(st, defs, d, Key(defs[d].sagaType, ev.entity.value))
    ensures OnlyAbout(st, HandleDefinition(st, defs[d], ev, now), Key(defs[d].sagaType, ev.entity.value))
    ensures Settled(HandleDefinition(st, defs[d], ev, now), defs, d, Key(defs[d].sagaType, ev.entity.value))
    ensures HandleDefinition(st, defs[d], ev, now).ring == st.ring
    ensures Renewed(st, HandleDefinition(st, defs[d], ev, now), Key(defs[d].sagaType, ev.entity.value), now)
    ensures Key(defs[d].sagaType, ev.entity.value) !in st.store
            || !Lapsed(st.store[Key(defs[d].sagaType, ev.entity.value)], now) ==>
              Count(HandleDefinition(st, defs[d], ev, now).log).expiries == Count(st.log).expiries
  {
    var key := Key(defs[d].sagaType, ev.entity.value);
    LoadTrace(st, defs, d, key, now);
    var loaded := Load(st, key, now);
    if key in loaded.store {
      var past :| Tells(loaded, defs[d], key, past, Current(loaded.store, key));
      ProceedTrace(loaded, defs, d, loaded.store[key].value, ev, now, past);
    } else if StartsWith(defs[d], ev) {
      ClaimTrace(loaded, defs, d, ev.entity.value, ev, now);
      OnlyAboutTransitive(st, loaded, HandleDefinition(st, defs[d], ev, now), key);
    }
  }

  // ----- The invariant over whole runs -----

  lemma InvSettled<W>(st: State<W>, defs: seq<Definition<W>>, d: nat, key: Key)
    requires Inv(st, defs) && d < |defs| && Find(defs, key.sagaType) == Some(d)
    ensures Settled(st, defs, d, key)
  {
    assert Accounted(st, defs, key);
  }

  lemma SettledInv<W>(st: State<W>, st': State<W>, defs: seq<Definition<W>>, d: nat, key: Key)
    requires Inv(st, defs) && d < |defs| && Find(defs, key.sagaType) == Some(d)
    requires OnlyAbout(st, st', key) && Settled(st', defs, d, key)
    ensures Inv(st', defs)
  {
    OtherKeysAccounted(st, st', defs, key);
    assert Accounted(st', defs, key);
    forall k | k in st'.store ensures StoredWell(defs, k, st'.store[k]) {
      assert k != key ==> k in st.store && StoredWell(defs, k, st.store[k]);
    }
  }

  /** Timing out the stored instance closes its life. */
  lemma ReapTrace<W>(st: State<W>, defs: seq<Definition<W>>, d: nat, key: Key, now: int, dead: State<W>)
    requires d < |defs| && Find(defs, key.sagaType) == Some(d) && Settled(st, defs, d, key) && key in st.store
    requires st.store[key].value.currentStep < |defs[d].steps|
    requires dead == Fail(st, defs[d], st.store[key].value, st.store[key].value.currentStep, TIMEOUT_CAUSE, now)
    ensures OnlyAbout(st, dead, key) && Settled(dead, defs, d, key) && key !in dead.store
    ensures dead.ring == st.ring && Count(dead.log).expiries == Count(st.log).expiries
  {
    var s := st.store[key].value;
    var past :| Tells(st, defs[d], key, past, Current(st.store, key));
    CloseFailed(st, defs[d], s, s.currentStep, TIMEOUT_CAUSE, now, past,
                TimedOut(s.createdAt, s.currentStep, now));
    ClosedSettled(dead, defs, d, key);
  }

  /** What a sweep does with one listed key whose definition is `d`. */
  lemma ReapCases<W>(st: State<W>, defs: seq<Definition<W>>, timeout: int, d: nat, key: Key, now: int)
    requires Sweepable(st.store, defs) && key in st.store && StoredWell(defs, key, st.store[key])
    requires Find(defs, key.sagaType) == Some(d)
    ensures Reap(st, defs, timeout, key, now) ==
            if Lapsed(st.store[key], now) || now - st.store[key].value.updatedAt < timeout then Load(st, key, now)
            else Fail(st, defs[d], st.store[key].value, st.store[key].value.currentStep, TIMEOUT_CAUSE, now)
  {
  }

  lemma ReapKeepsInv<W>(st: State<W>, defs: seq<Definition<W>>, timeout: int, key: Key, now: int)
    requires DistinctTypes(defs) && Inv(st, defs) && Sweepable(st.store, defs)
    ensures Inv(Reap(st, defs, timeout, key, now), defs)
    ensures Reap(st, defs, timeout, key, now).ring == st.ring
    ensures key in st.store && !Lapsed(st.store[key], now) ==>
              && Count(Reap(st, defs, timeout, key, now).log).expiries == Count(st.log).expiries
              && (key in Reap(st, defs, timeout, key, now).store ==> now - st.store[key].value.updatedAt < timeout)
    ensures key !in st.store ==> Reap(st, defs, timeout, key, now) == st
  {
    if key in st.store {
      assert StoredWell(defs, key, st.store[key]);
      var d := Find(defs, key.sagaType).value;
      InvSettled(st, defs, d, key);
      ReapCases(st, defs, timeout, d, key, now);
      var st' := Reap(st, defs, timeout, key, now);
      if Lapsed(st.store[key], now) || now - st.store[key].value.updatedAt < timeout {
        LoadTrace(st, defs, d, key, now);
      } else {
        ReapTrace(st, defs, d, key, now, st');
      }
      SettledInv(st, st', defs, d, key);
    }
  }

  lemma {:induction false} SweepKeepsInv<W>(st: State<W>, defs: seq<Definition<W>>, timeout: int, keys: seq<Key>,
                                            now: int)
    requires DistinctTypes(defs) && Inv(st, defs) && Sweepable(st.store, defs)
    ensures Inv(Sweep(st, defs, timeout, keys, now), defs)
    ensures Sweep(st, defs, timeout, keys, now).ring == st.ring
    decreases |keys|
  {
    if keys != [] {
      ReapKeepsInv(st, defs, timeout, keys[0], now);
      ReapKeepsSweepable(st, defs, timeout, keys[0], now);
      SweepKeepsInv(Reap(st, defs, timeout, keys[0], now), defs, timeout, keys[1..], now);
    }
  }

  lemma {:induction false} RouteKeepsInv<W>(st: State<W>, defs: seq<Definition<W>>, d: nat, ev: Event, now: int)
    requires DistinctTypes(defs) && Inv(st, defs) && d <= |defs|
    ensures Inv(Route(st, defs, d, ev, now), defs)
    ensures Route(st, defs, d, ev, now).ring == st.ring
    decreases |defs| - d
  {
    if d < |defs| {
      if ev.subject in defs[d].subjects && ev.entity.Some? {
        var key := Key(defs[d].sagaType, ev.entity.value);
        FindOwn(defs, d);
        InvSettled(st, defs, d, key);
        HandleDefinitionTrace(st, defs, d, ev, now);
        SettledInv(st, HandleDefinition(st, defs[d], ev, now), defs, d, key);
        RouteKeepsInv(HandleDefinition(st, defs[d], ev, now), defs, d + 1, ev, now);
      } else {
        RouteKeepsInv(st, defs, d + 1, ev, now);
      }
    }
  }

  ghost predicate SameButRing<W>(st: State<W>, st': State<W>) {
    st' == st.(ring := st'.ring)
  }

  lemma RingIrrelevant<W>(st: State<W>, st': State<W>, defs: seq<Definition<W>>)
    requires Inv(st, defs) && SameButRing(st, st')
    ensures Inv(st', defs)
  {
    forall key ensures Accounted(st', defs, key) {
      assert Accounted(st, defs, key);
      match Find(defs, key.sagaType)
      case None =>
      case Some(d) =>
        var past :| Tells(st, defs[d], key, past, Current(st.store, key));
        assert Tells(st', defs[d], key, past, Current(st'.store, key));
    }
  }

  lemma ApplyKeepsInv<W>(st: State<W>, defs: seq<Definition<W>>, timeout: int, input: Input)
    requires DistinctTypes(defs) && Inv(st, defs) && Sweepable(st.store, defs)
    ensures Inv(Apply(st, defs, timeout, input), defs)
  {
    match input
    case Deliver(ev, now) =>
      if ev.id != "" && !EventDedup.Duplicate(st.ring, ev.id) {
        var admitted := st.(ring := EventDedup.Admit(st.ring, ev.id, now));
        RingIrrelevant(st, admitted, defs);
        RouteKeepsInv(admitted, defs, 0, ev, now);
      }
    case Race(d, entity, ev, now) =>
      if d < |defs| && StartsWith(defs[d], ev) {
        FindOwn(defs, d);
        InvSettled(st, defs, d, Key(defs[d].sagaType, entity));
        ClaimTrace(st, defs, d, entity, ev, now);
        SettledInv(st, Claim(st, defs[d], entity, ev, now), defs, d, Key(defs[d].sagaType, entity));
      }
    case SweepAt(keys, now) =>
      SweepKeepsInv(st, defs, timeout, keys, now);
  }

  lemma InitialInv<W>(world: W, defs: seq<Definition<W>>)
    ensures Inv(Initial(world), defs)
  {
    forall key ensures Accounted(Initial(world), defs, key) {
      match Find(defs, key.sagaType)
      case None =>
      case Some(d) =>
        assert Tells(Initial(world), defs[d], key, [], Current(Initial(world).store, key));
    }
  }

  /** A run of a new engine. */
  ghost function RunFrom<W>(world: W, defs: seq<Definition<W>>, timeout: int, inputs: seq<Input>): State<W>
    requires DistinctTypes(defs)
  {
    InitialInv(world, defs);
    Run(Initial(world), defs, timeout, inputs)
  }

  /** Main result: over every run of deliveries, claim races and sweeps, whatever the steps do to the world and
      whatever the clock shows, each key's history is a sequence of complete lives (completed after all steps; failed
      at k with the compensators of k..0 run in that order; timed out at k likewise; or expired) followed by the
      actions 0..k-1 of the live instance; every stored instance is active with 1 <= currentStep < number of steps;
      and started = completed + failed + stored + expired. */
  lemma {:induction false} EveryRunAccounted<W>(st: State<W>, defs: seq<Definition<W>>, timeout: int,
                                                inputs: seq<Input>)
    requires DistinctTypes(defs) && Inv(st, defs)
    ensures Inv(Run(st, defs, timeout, inputs), defs)
    ensures Sweepable(Run(st, defs, timeout, inputs).store, defs)
    decreases |inputs|
  {
    InvSweepable(st, defs);
    if inputs != [] {
      ApplyKeepsInv(st, defs, timeout, inputs[0]);
      EveryRunAccounted(Apply(st, defs, timeout, inputs[0]), defs, timeout, inputs[1..]);
    }
  }
}
