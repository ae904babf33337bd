/** What one event and one sweep do to the saga engine's state, as functions (backend/internal/saga/saga.go).
    `W` is everything outside the engine that steps may change: tables, outbox, fault schedule. */
module SagaModel {
  import opened Wrappers
  import opened Clock
  import opened TimedCache
  import EventDedup

  const STATE_TTL := 7 * DAY
  const DEFAULT_TIMEOUT := 24 * HOUR
  const RECENT_LIMIT := 100

  datatype Status = Pending | Active | Completed | Failed | Compensated

  /** A bus event, reduced to what the engine reads: `entity` is the UUID in the payload's "id" field, if the
      payload has a well-formed one; `status` is its "status" field. */
  datatype Event = Event(id: string, subject: string, entity: Option<nat>, status: string)

  /** A payload value: a string, a boolean, a rendered instant or a rendered UUID. */
  datatype Scalar = Text(text: string) | Flag(flag: bool) | Stamp(instant: int) | Ref(id: nat)

  type Payload = map<string, Scalar>

  /** `saga:<id>`, with the name-based UUID of type and entity taken as injective. */
  datatype Key = Key(sagaType: string, entity: nat)

  datatype Saga = Saga(id: Key, status: Status, currentStep: nat, payload: Payload, error: string,
                       createdAt: int, updatedAt: int, completedAt: Option<int>)

  datatype Summary = Summary(id: Key, status: Status, currentStep: nat, error: string,
                             createdAt: int, updatedAt: int, completedAt: Option<int>)

  function Summarize(s: Saga): Summary {
    Summary(s.id, s.status, s.currentStep, s.error, s.createdAt, s.updatedAt, s.completedAt)
  }

  /** A step may change the world and the payload even when it reports an error. */
  datatype Outcome<+W> = Outcome(world: W, payload: Payload, err: Option<string>)

  datatype Step<!W> = Step(name: string,
                           trigger: Event -> bool,
                           action: (W, Payload, nat, Event, int) -> Outcome<W>,
                           compensate: Option<(W, Payload, nat, int) -> Outcome<W>>)

  datatype Definition<!W> = Definition(sagaType: string, subjects: seq<string>, steps: seq<Step<W>>)

  /** What happened to saga instances, in order. The engine keeps no such list; it is the model's witness. */
  datatype Entry =
    | Started(key: Key, at: int)   // a fresh instance won its claim
    | Ran(key: Key, step: nat)     // an action succeeded
    | Broke(key: Key, step: nat, error: string)   // an action reported an error
    | Undone(key: Key, step: nat)  // a compensator ran
    | Finished(key: Key, at: int)  // the last step is done, the state key is removed
    | GaveUp(key: Key, step: nat, error: string, at: int)  // failed or timed out, the state key is removed
    | Expired(key: Key)            // the state key outlived its TTL and was dropped

  datatype State<W> = State(world: W, store: Items<Key, Saga>, ring: EventDedup.Ring, recent: seq<Summary>,
                            started: nat, completed: nat, failed: nat, log: seq<Entry>)

  function Initial<W>(world: W): State<W> {
    State(world, map[], EventDedup.EMPTY, [], 0, 0, 0, [])
  }

  function Remember(recent: seq<Summary>, s: Summary): seq<Summary> {
    var longer := recent + [s];
    if |longer| > RECENT_LIMIT then longer[|longer| - RECENT_LIMIT..] else longer
  }

  /** `load`: a lapsed entry is dropped on the way. */
  function Load<W>(st: State<W>, key: Key, now: int): State<W> {
    if key in st.store && Lapsed(st.store[key], now) then
      st.(store := Purge(st.store, key, now), log := st.log + [Expired(key)])
    else st
  }

  /** The compensators of steps `i`, `i - 1`, ..., 0 that are registered; their errors are only logged. */
  function Undo<W>(st: State<W>, def: Definition<W>, s: Saga, i: int, now: int): (State<W>, Saga)
    requires i < |def.steps|
    decreases i
  {
    if i < 0 then (st, s)
    else if def.steps[i].compensate.None? then Undo(st, def, s, i - 1, now)
    else
      var o := def.steps[i].compensate.value(st.world, s.payload, s.id.entity, now);
      Undo(st.(world := o.world, log := st.log + [Undone(s.id, i)]), def, s.(payload := o.payload), i - 1, now)
  }

  function Fail<W>(st: State<W>, def: Definition<W>, s: Saga, i: nat, cause: string, now: int): State<W>
    requires i < |def.steps|
  {
    var (st', s') := Undo(st, def, s, i, now);
    var dead := s'.(status := Failed, error := cause, currentStep := i, updatedAt := now);
    st'.(store := st'.store - {s.id},
         failed := st'.failed + 1,
         recent := Remember(st'.recent, Summarize(dead)),
         log := st'.log + [GaveUp(s.id, i, cause, now)])
  }

  /** How the step loop ends: waiting for a later event (or past the last step), or failed. */
  datatype Progress<W> = Paused(st: State<W>, saga: Saga) | Failing(st: State<W>)

  function AfterStep(s: Saga, payload: Payload, now: int): Saga {
    s.(payload := payload, currentStep := s.currentStep + 1, status := Active, updatedAt := now, error := "")
  }

  function Record<W>(st: State<W>, world: W, s: Saga, i: nat, now: int): State<W> {
    st.(world := world,
        store := Put(st.store, s.id, s, STATE_TTL, now),
        recent := Remember(st.recent, Summarize(s)),
        log := st.log + [Ran(s.id, i)])
  }

  function Advance<W>(st: State<W>, def: Definition<W>, s: Saga, ev: Event, now: int): Progress<W>
    decreases |def.steps| - s.currentStep
  {
    if s.currentStep >= |def.steps| || !def.steps[s.currentStep].trigger(ev) then Paused(st, s)
    else
      var i := s.currentStep;
      var o := def.steps[i].action(st.world, s.payload, s.id.entity, ev, now);
      if o.err.Some? then
        var broken := st.(world := o.world, log := st.log + [Broke(s.id, i, o.err.value)]);
        Failing(Fail(broken, def, s.(payload := o.payload), i, o.err.value, now))
      else
        var s' := AfterStep(s, o.payload, now);
        Advance(Record(st, o.world, s', i, now), def, s', ev, now)
  }

  function Complete<W>(st: State<W>, s: Saga, now: int): State<W> {
    var done := s.(status := Completed, updatedAt := now, completedAt := Some(now));
    st.(store := st.store - {s.id},
        completed := st.completed + 1,
        recent := Remember(st.recent, Summarize(done)),
        log := st.log + [Finished(s.id, now)])
  }

  function Conclude<W>(def: Definition<W>, p: Progress<W>, now: int): State<W> {
    if p.Paused? && p.saga.currentStep >= |def.steps| then Complete(p.st, p.saga, now) else p.st
  }

  function Proceed<W>(st: State<W>, def: Definition<W>, s: Saga, ev: Event, now: int): State<W> {
    Conclude(def, Advance(st, def, s, ev, now), now)
  }

  function NewSaga(key: Key, now: int): Saga {
    Saga(key, Active, 0, map[], "", now, now, None)
  }

  function Start<W>(st: State<W>, s: Saga, now: int): State<W> {
    st.(store := Put(st.store, s.id, s, STATE_TTL, now),
        started := st.started + 1,
        recent := Remember(st.recent, Summarize(s)),
        log := st.log + (if s.id in st.store then [Expired(s.id)] else []) + [Started(s.id, now)])
  }

  /** The part of `handleDefinition` after a missed load: claim the key and run, or give way to the winner. */
  function Claim<W>(st: State<W>, def: Definition<W>, entity: nat, ev: Event, now: int): State<W> {
    var key := Key(def.sagaType, entity);
    if !Vacant(st.store, key, now) then Load(st, key, now)
    else Proceed(Start(st, NewSaga(key, now), now), def, NewSaga(key, now), ev, now)
  }

  predicate StartsWith<W>(def: Definition<W>, ev: Event) {
    |def.steps| > 0 && def.steps[0].trigger(ev)
  }

  function HandleDefinition<W>(st: State<W>, def: Definition<W>, ev: Event, now: int): State<W> {
    if ev.entity.None? then st
    else
      var key := Key(def.sagaType, ev.entity.value);
      var loaded := Load(st, key, now);
      var found := Lookup(st.store, key, now);
      if found.Some? then Proceed(loaded, def, found.value, ev, now)
      else if !StartsWith(def, ev) then loaded
      else Claim(loaded, def, ev.entity.value, ev, now)
  }

  /** The definitions from index `d` on, in registration order, that subscribe to the event's subject. */
  function Route<W>(st: State<W>, defs: seq<Definition<W>>, d: nat, ev: Event, now: int): State<W>
    requires d <= |defs|
    decreases |defs| - d
  {
    if d == |defs| then st
    else if ev.subject !in defs[d].subjects then Route(st, defs, d + 1, ev, now)
    else Route(HandleDefinition(st, defs[d], ev, now), defs, d + 1, ev, now)
  }

  function HandleEvent<W>(st: State<W>, defs: seq<Definition<W>>, ev: Event, now: int): State<W> {
    if ev.id == "" || EventDedup.Duplicate(st.ring, ev.id) then st
    else Route(st.(ring := EventDedup.Admit(st.ring, ev.id, now)), defs, 0, ev, now)
  }

  function Find<W>(defs: seq<Definition<W>>, sagaType: string): (d: Option<nat>)
    ensures d.Some? ==> d.value < |defs| && defs[d.value].sagaType == sagaType
    ensures d.None? ==> forall i :: 0 <= i < |defs| ==> defs[i].sagaType != sagaType
  {
    if defs == [] then None
    else if defs[0].sagaType == sagaType then Some(0)
    else match Find(defs[1..], sagaType)
      case None => assert forall i :: 0 < i < |defs| ==> defs[i] == defs[1..][i - 1]; None
      case Some(i) => Some(i + 1)
  }

  /** What `sweepOnce` needs to index `def.Steps[s.CurrentStep]` safely. */
  ghost predicate Sweepable<W>(store: Items<Key, Saga>, defs: seq<Definition<W>>) {
    forall key :: key in store && Find(defs, store[key].value.id.sagaType).Some? ==>
      store[key].value.currentStep < |defs[Find(defs, store[key].value.id.sagaType).value].steps|
  }

  const TIMEOUT_CAUSE := "saga timed out without progress"

  ghost function Reap<W>(st: State<W>, defs: seq<Definition<W>>, timeout: int, key: Key, now: int): State<W>
    requires Sweepable(st.store, defs)
  {
    var loaded := Load(st, key, now);
    var found := Lookup(st.store, key, now);
    if found.None? || found.value.status != Active || now - found.value.updatedAt < timeout then loaded
    else
      var s := found.value;
      match Find(defs, s.id.sagaType)
      case None => loaded
      case Some(d) => Fail(loaded, defs[d], s, s.currentStep, TIMEOUT_CAUSE, now)
  }

  /** Running compensators touches neither the store nor the counters. */
  lemma {:induction false} UndoFrame<W>(st: State<W>, def: Definition<W>, s: Saga, i: int, now: int)
    requires i < |def.steps|
    ensures var (st', s') := Undo(st, def, s, i, now);
            && st'.store == st.store && st'.ring == st.ring && st'.recent == st.recent
            && st'.started == st.started && st'.completed == st.completed && st'.failed == st.failed
            && s' == s.(payload := s'.payload)
    decreases i
  {
    if i >= 0 {
      if def.steps[i].compensate.None? {
        UndoFrame(st, def, s, i - 1, now);
      } else {
        var o := def.steps[i].compensate.value(st.world, s.payload, s.id.entity, now);
        UndoFrame(st.(world := o.world, log := st.log + [Undone(s.id, i)]), def, s.(payload := o.payload), i - 1, now);
      }
    }
  }

  lemma ReapKeepsSweepable<W>(st: State<W>, defs: seq<Definition<W>>, timeout: int, key: Key, now: int)
    requires Sweepable(st.store, defs)
    ensures Sweepable(Reap(st, defs, timeout, key, now).store, defs)
    ensures Reap(st, defs, timeout, key, now).store.Keys <= st.store.Keys
    ensures forall k :: k in Reap(st, defs, timeout, key, now).store ==>
              Reap(st, defs, timeout, key, now).store[k] == st.store[k]
  {
    var loaded := Load(st, key, now);
    var found := Lookup(st.store, key, now);
    if found.Some? && Find(defs, found.value.id.sagaType).Some? {
      var s := found.value;
      UndoFrame(loaded, defs[Find(defs, s.id.sagaType).value], s, s.currentStep, now);
    }
  }

  /** `sweepOnce` over the keys in the order the cache listed them. */
  ghost function Sweep<W>(st: State<W>, defs: seq<Definition<W>>, timeout: int, keys: seq<Key>, now: int): State<W>
    requires Sweepable(st.store, defs)
    decreases |keys|
  {
    if keys == [] then st
    else
      ReapKeepsSweepable(st, defs, timeout, keys[0], now);
      Sweep(Reap(st, defs, timeout, keys[0], now), defs, timeout, keys[1..], now)
  }
}
