/** Runs of the engine in which others write the tables too: where a stored compliance instance comes from, and what a
    sweep that times it out makes of its row. */
module BusinessTurns {
  import opened Wrappers
  import opened TimedCache
  import opened SagaModel
  import opened SagaTrace
  import opened BusinessSagas
  import opened BusinessRuns

  /** An input to the engine, or a commit by anyone else, after which the tables are `tables`. */
  datatype Turn = Engine(input: Input) | Write(tables: World)

  ghost predicate Turns(st: State<World>, st': State<World>, timeout: int, turn: Turn) {
    match turn
    case Engine(input) => Sweepable(st.store, Registered()) && st' == Apply(st, Registered(), timeout, input)
    case Write(tables) => st' == st.(world := tables)
  }

  ghost predicate TurnAt(states: seq<State<World>>, timeout: int, turns: seq<Turn>, m: nat) {
    m < |turns| && m + 1 < |states| && Turns(states[m], states[m + 1], timeout, turns[m])
  }

  /** The states a new engine with the four workflows passes through, from the given tables on. */
  ghost predicate Trail(states: seq<State<World>>, world: World, timeout: int, turns: seq<Turn>) {
    && |states| == |turns| + 1 && states[0] == Initial(world)
    && forall m :: 0 <= m < |turns| ==> TurnAt(states, timeout, turns, m)
  }

  lemma TurnKeepsInv(st: State<World>, st': State<World>, timeout: int, turn: Turn)
    requires Inv(st, Registered()) && Turns(st, st', timeout, turn)
    ensures Inv(st', Registered())
  {
    match turn
    case Engine(input) =>
      RegisteredDistinct();
      ApplyKeepsInv(st, Registered(), timeout, input);
    case Write(tables) =>
      TablesIrrelevant(st, tables);
  }

  /** The invariant of the engine says nothing about the tables. */
  lemma TablesIrrelevant(st: State<World>, tables: World)
    requires Inv(st, Registered())
    ensures Inv(st.(world := tables), Registered())
  {
    var st' := st.(world := tables);
    forall key ensures Accounted(st', Registered(), key) {
      assert Accounted(st, Registered(), key);
      match Find(Registered(), key.sagaType)
      case None =>
      case Some(d) =>
        var past :| Tells(st, Registered()[d], key, past, Current(st.store, key));
        assert Tells(st', Registered()[d], key, past, Current(st'.store, key));
    }
  }

  lemma {:induction false} TrailKeepsInv(states: seq<State<World>>, world: World, timeout: int, turns: seq<Turn>,
                                         m: nat)
    requires Trail(states, world, timeout, turns) && m <= |turns|
    ensures Inv(states[m], Registered())
  {
    if m == 0 {
      InitialInv(world, Registered());
    } else {
      TrailKeepsInv(states, world, timeout, turns, m - 1);
      assert TurnAt(states, timeout, turns, m - 1);
      TurnKeepsInv(states[m - 1], states[m], timeout, turns[m - 1]);
    }
  }

  lemma TrailSnoc(states: seq<State<World>>, st': State<World>, world: World, timeout: int, turns: seq<Turn>,
                  turn: Turn)
    requires Trail(states, world, timeout, turns) && Turns(states[|turns|], st', timeout, turn)
    ensures Trail(states + [st'], world, timeout, turns + [turn])
  {
    var longer, all := states + [st'], turns + [turn];
    forall m | 0 <= m < |all| ensures TurnAt(longer, timeout, all, m) {
      assert m < |turns| ==> TurnAt(states, timeout, turns, m);
    }
  }

  lemma NextState(states: seq<State<World>>, world: World, timeout: int, turns: seq<Turn>, turn: Turn)
    returns (st': State<World>)
    requires Trail(states, world, timeout, turns)
    ensures Turns(states[|turns|], st', timeout, turn)
  {
    TrailKeepsInv(states, world, timeout, turns, |turns|);
    InvSweepable(states[|turns|], Registered());
    match turn
    case Engine(input) => st' := Apply(states[|turns|], Registered(), timeout, input);
    case Write(tables) => st' := states[|turns|].(world := tables);
  }

  /** Every sequence of turns has its states, */
  lemma {:induction false} TrailExists(world: World, timeout: int, turns: seq<Turn>) returns (states: seq<State<World>>)
    ensures Trail(states, world, timeout, turns)
  {
    if turns == [] {
      states := [Initial(world)];
    } else {
      var k := |turns| - 1;
      var before := TrailExists(world, timeout, turns[..k]);
      var st' := NextState(before, world, timeout, turns[..k], turns[k]);
      TrailSnoc(before, st', world, timeout, turns[..k], turns[k]);
      assert turns == turns[..k] + [turns[k]];
      states := before + [st'];
    }
  }

  predicate EngineOnly(turns: seq<Turn>, inputs: seq<Input>) {
    |turns| == |inputs| && forall m :: 0 <= m < |inputs| ==> turns[m] == Engine(inputs[m])
  }

  /** and without other writers the last of them is the end of the engine's own run. */
  lemma {:induction false} EngineOnlyIsRun(states: seq<State<World>>, world: World, timeout: int, turns: seq<Turn>,
                                           inputs: seq<Input>, m: nat)
    requires Trail(states, world, timeout, turns) && EngineOnly(turns, inputs) && m <= |turns|
    ensures DistinctTypes(Registered()) && Inv(states[m], Registered())
    ensures Run(states[m], Registered(), timeout, inputs[m..]) == RunFrom(world, Registered(), timeout, inputs)
  {
    RegisteredDistinct();
    TrailKeepsInv(states, world, timeout, turns, m);
    if m == 0 {
      InitialInv(world, Registered());
      assert inputs[0..] == inputs;
    } else {
      EngineOnlyIsRun(states, world, timeout, turns, inputs, m - 1);
      assert TurnAt(states, timeout, turns, m - 1);
      assert inputs[m - 1..][0] == inputs[m - 1] && inputs[m - 1..][1..] == inputs[m..];
    }
  }

  // ----- Where a stored instance comes from -----

  /** The entry of row `id` is the same after every turn from `n` on. */
  ghost predicate Steady(states: seq<State<World>>, n: nat, id: nat) {
    n + 1 < |states| && forall m :: n < m < |states| ==> SameEntry(states[n + 1], states[m], id)
  }

  /** Turn `n` claimed the free key of row `id`, ran evaluate over the tables of that moment and stored what it left;
      and from then on the entry stayed as it is. */
  ghost predicate Origin(states: seq<State<World>>, turns: seq<Turn>, n: nat, ev: Event, t0: int, id: nat) {
    && n < |turns| && turns[n].Engine? && Steady(states, n, id)
    && Claimed(states[n], states[n + 1], turns[n].input, id, ev, t0)
  }

  /** The row is still there and has the same status. */
  predicate SameStatus(w: World, w': World, id: nat) {
    id in w.compliances && id in w'.compliances && w'.compliances[id].status == w.compliances[id].status
  }

  /** No other writer touched the status of row `id` after turn `n`. */
  ghost predicate Spared(states: seq<State<World>>, turns: seq<Turn>, n: nat, id: nat)
    requires |states| == |turns| + 1
  {
    forall m :: n < m < |turns| && turns[m].Write? ==> SameStatus(states[m].world, turns[m].tables, id)
  }

  lemma PrefixTrail(states: seq<State<World>>, world: World, timeout: int, turns: seq<Turn>, k: nat)
    requires Trail(states, world, timeout, turns) && k <= |turns|
    ensures Trail(states[..k + 1], world, timeout, turns[..k])
  {
    var first, some := states[..k + 1], turns[..k];
    forall m | 0 <= m < k ensures TurnAt(first, timeout, some, m) {
      assert TurnAt(states, timeout, turns, m);
    }
  }

  /** The last turn left the entry alone or claimed it. */
  lemma LastTurn(states: seq<State<World>>, world: World, timeout: int, turns: seq<Turn>, k: nat, id: nat)
    requires Trail(states, world, timeout, turns) && k < |turns| && CheckKey(id) in states[k + 1].store
    ensures SameEntry(states[k], states[k + 1], id)
            || (turns[k].Engine? && ClaimedAnew(states[k], states[k + 1], turns[k].input, id))
  {
    TrailKeepsInv(states, world, timeout, turns, k);
    assert TurnAt(states, timeout, turns, k);
    if turns[k].Engine? {
      ApplyStep(states[k], timeout, turns[k].input, id);
    }
  }

  lemma SteadyStays(states: seq<State<World>>, k: nat, n: nat, id: nat)
    requires n < k && |states| == k + 2 && Steady(states[..k + 1], n, id) && SameEntry(states[k], states[k + 1], id)
    ensures Steady(states, n, id)
  {
    assert states[..k + 1][n + 1] == states[n + 1] && states[..k + 1][k] == states[k];
    forall m | n < m < |states| ensures SameEntry(states[n + 1], states[m], id) {
      if m <= k {
        assert states[..k + 1][m] == states[m];
      }
    }
  }

  lemma {:induction false} FindOrigin(states: seq<State<World>>, world: World, timeout: int, turns: seq<Turn>, id: nat)
    returns (n: nat, ev: Event, t0: int)
    requires Trail(states, world, timeout, turns) && CheckKey(id) in states[|turns|].store
    ensures Origin(states, turns, n, ev, t0, id)
    decreases |turns|
  {
    assert turns != [] by {
      assert states[0] == Initial(world);
    }
    var k := |turns| - 1;
    var before, after := states[k], states[k + 1];
    LastTurn(states, world, timeout, turns, k, id);
    if SameEntry(before, after, id) {
      PrefixTrail(states, world, timeout, turns, k);
      n, ev, t0 := FindOrigin(states[..k + 1], world, timeout, turns[..k], id);
      SteadyStays(states, k, n, id);
    } else {
      n := k;
      ev, t0 :| Claimed(before, after, turns[k].input, id, ev, t0);
    }
  }

  /** An input that leaves the entry as it is leaves the row as it is: a fresh claim would set a later expiry. */
  lemma SameEntryKept(st: State<World>, timeout: int, input: Input, id: nat)
    requires Inv(st, Registered()) && Sweepable(st.store, Registered()) && CheckKey(id) in st.store
    requires SameEntry(st, Apply(st, Registered(), timeout, input), id)
    ensures RowKept(st.world, Apply(st, Registered(), timeout, input).world, id)
  {
    var st' := Apply(st, Registered(), timeout, input);
    ApplyStep(st, timeout, input, id);
    assert StoredWell(Registered(), CheckKey(id), st.store[CheckKey(id)]);
    assert forall ev, t0 :: !Claimed(st, st', input, id, ev, t0);
  }

  lemma RowSinceTurn(states: seq<State<World>>, world: World, timeout: int, turns: seq<Turn>, m: nat, id: nat)
    requires Trail(states, world, timeout, turns) && m < |turns| && SameEntry(states[m], states[m + 1], id)
    requires CheckKey(id) in states[m].store && id in states[m].world.compliances
    requires turns[m].Write? ==> SameStatus(states[m].world, turns[m].tables, id)
    ensures SameStatus(states[m].world, states[m + 1].world, id)
  {
    TrailKeepsInv(states, world, timeout, turns, m);
    assert TurnAt(states, timeout, turns, m);
    if turns[m].Engine? {
      SameEntryKept(states[m], timeout, turns[m].input, id);
    }
  }

  lemma {:induction false} RowSinceOrigin(states: seq<State<World>>, world: World, timeout: int, turns: seq<Turn>,
                                          n: nat, id: nat, m: nat)
    requires Trail(states, world, timeout, turns) && Steady(states, n, id) && Spared(states, turns, n, id)
    requires n < m <= |turns| && CheckKey(id) in states[n + 1].store && id in states[n + 1].world.compliances
    ensures SameStatus(states[n + 1].world, states[m].world, id)
    decreases m
  {
    if m > n + 1 {
      RowSinceOrigin(states, world, timeout, turns, n, id, m - 1);
      assert SameEntry(states[n + 1], states[m - 1], id) && SameEntry(states[n + 1], states[m], id);
      RowSinceTurn(states, world, timeout, turns, m - 1, id);
    }
  }

  lemma ClaimedRowExists(st: State<World>, st': State<World>, input: Input, id: nat, ev: Event, t0: int)
    requires Claimed(st, st', input, id, ev, t0)
    ensures AsLeft(st.world, st'.world, id, ev, t0)
  {
    EvaluatePayload(st.world, id, ev, t0);
  }

  /** Main result: every stored compliance instance was claimed by one turn of the run, holds what evaluate left when it
      ran over the tables as they stood then, and has not been touched since; and while no other writer touches the
      status of its row, the row has the status evaluate left. */
  lemma StoredInstanceHasOrigin(states: seq<State<World>>, world: World, timeout: int, turns: seq<Turn>, id: nat)
    returns (n: nat, ev: Event, t0: int)
    requires Trail(states, world, timeout, turns) && CheckKey(id) in states[|turns|].store
    ensures Origin(states, turns, n, ev, t0, id)
    ensures Spared(states, turns, n, id) ==> AsLeft(states[n].world, states[|turns|].world, id, ev, t0)
  {
    n, ev, t0 := FindOrigin(states, world, timeout, turns, id);
    ClaimedRowExists(states[n], states[n + 1], turns[n].input, id, ev, t0);
    if Spared(states, turns, n, id) {
      RowSinceOrigin(states, world, timeout, turns, n, id, |turns|);
    }
  }

  // ----- Timing out -----

  /** With the status as evaluate left it, writing back restores every status but the empty one. */
  lemma WrittenBackRestores(w0: World, w: World, w': World, id: nat, ev: Event, t0: int)
    requires AsLeft(w0, w, id, ev, t0) && Evaluate(w0, map[], id, ev, t0).err.None? && WrittenBack(w0, w, w', id, t0)
    ensures SameStatus(w0, w', id) <==> w0.compliances[id].status != ""
  {
    EvaluatePayload(w0, id, ev, t0);
    var c := w0.compliances[id];
    assert EvaluateCompliance(c, t0).0 == COMPLIANT || EvaluateCompliance(c, t0).0 == NON_COMPLIANT;
  }

  /** Main result: after any run, whatever others wrote, a sweep over a healthy database that times a compliance
      instance out writes back the status the row had just before the turn that claimed the instance, exactly if
      evaluate had flipped it and it was not empty, and otherwise leaves the row as the last writer left it. So if no
      other writer touched the status since, the row ends with the status from before that turn exactly if that was
      not empty. */
  lemma TimeoutRestoresStatus(states: seq<State<World>>, world: World, timeout: int, turns: seq<Turn>, keys: seq<Key>,
                              now: int, id: nat)
    returns (n: nat, ev: Event, t0: int)
    requires Trail(states, world, timeout, turns) && states[|turns|].world.faults == [] && CheckKey(id) in keys
    requires TimedOutAt(states[|turns|], id, timeout, now)
    ensures Origin(states, turns, n, ev, t0, id) && id in states[n].world.compliances
    ensures Sweepable(states[|turns|].store, Registered())
    ensures var w0, end := states[n].world, states[|turns|];
            var w' := Sweep(end, Registered(), timeout, keys, now).world;
            && WrittenBack(w0, end.world, w', id, t0)
            && (Spared(states, turns, n, id) ==> (SameStatus(w0, w', id) <==> w0.compliances[id].status != ""))
  {
    n, ev, t0 := StoredInstanceHasOrigin(states, world, timeout, turns, id);
    ClaimedRowExists(states[n], states[n + 1], turns[n].input, id, ev, t0);
    TrailKeepsInv(states, world, timeout, turns, |turns|);
    var w0, end := states[n].world, states[|turns|];
    assert SameEntry(states[n + 1], end, id);
    SweepExactly(end, timeout, keys, now, id, w0, ev, t0);
    if Spared(states, turns, n, id) {
      WrittenBackRestores(w0, end.world, Sweep(end, Registered(), timeout, keys, now).world, id, ev, t0);
    }
  }
}
