/** The cache-aside repository (backend/internal/repository/crud.go). */
module Repository {
  import opened Wrappers
  import opened Clock
  import opened TimedCache

  const CACHE_TTL := 15 * MINUTE

  datatype Error = NotFound | DbError

  /** A table row; soft-deleted ones stay. */
  datatype Row<V> = Row(value: V, deleted: bool)

  /** The JSON library for one entity type. Nothing is assumed of it: fields it hides are lost, and text it cannot
      read back is treated as a miss. */
  datatype Codec<!V> = Codec(marshal: V -> string, unmarshal: string -> Option<V>)

  datatype State<V> = State(rows: map<string, Row<V>>, items: Items<string, string>)

  /** One repository call; `dbOk` says whether its SQL statement succeeds. */
  datatype Op<!V> =
    | Create(id: string, value: V, dbOk: bool)
    | GetByID(id: string, now: int, dbOk: bool)
    | Update(id: string, row: Row<V>, dbOk: bool)
    | UpdatePartial(id: string, change: V -> V, dbOk: bool)
    | Delete(id: string, dbOk: bool)

  function EntityKey(slug: string, id: string): string {
    "cache:" + slug + ":" + id
  }

  predicate Live<V>(rows: map<string, Row<V>>, id: string) {
    id in rows && !rows[id].deleted
  }

  /** What JSON keeps of an entity. */
  function Projection<V>(c: Codec<V>, v: V): Option<V> {
    c.unmarshal(c.marshal(v))
  }

  /** The readable cache entry, if any. */
  function Cached<V>(s: State<V>, c: Codec<V>, slug: string, id: string, now: int): Option<V> {
    var raw := Lookup(s.items, EntityKey(slug, id), now);
    if raw.None? then None else c.unmarshal(raw.value)
  }

  function Read<V>(s: State<V>, c: Codec<V>, slug: string, id: string, now: int, dbOk: bool): Result<V, Error> {
    var hit := Cached(s, c, slug, id, now);
    if hit.Some? then Success(hit.value)
    else if !dbOk then Failure(DbError)
    else if !Live(s.rows, id) then Failure(NotFound)
    else Success(s.rows[id].value)
  }

  /** State after a call: a miss fills the cache, a successful write drops the entry, a failed one changes nothing. */
  function Step<V>(s: State<V>, c: Codec<V>, slug: string, op: Op<V>): State<V> {
    var key := EntityKey(slug, op.id);
    match op
    case Create(id, value, dbOk) =>
      if !dbOk || id in s.rows then s else State(s.rows[id := Row(value, false)], s.items - {key})
    case GetByID(id, now, dbOk) =>
      var left := Purge(s.items, key, now);
      if Cached(s, c, slug, id, now).Some? || !dbOk || !Live(s.rows, id) then s.(items := left)
      else s.(items := Put(left, key, c.marshal(s.rows[id].value), CACHE_TTL, now))
    case Update(id, row, dbOk) =>
      if !dbOk then s else State(s.rows[id := row], s.items - {key})
    case UpdatePartial(id, change, dbOk) =>
      if !dbOk || !Live(s.rows, id) then s
      else State(s.rows[id := Row(change(s.rows[id].value), false)], s.items - {key})
    case Delete(id, dbOk) =>
      if !dbOk || !Live(s.rows, id) then s else State(s.rows[id := s.rows[id].(deleted := true)], s.items - {key})
  }

  class Repo<V> {
    const cache: MemoryCache<string, string>
    const slug: string
    const codec: Codec<V>
    var rows: map<string, Row<V>>

    ghost function View(): State<V>
      reads this, cache
    {
      State(rows, cache.items)
    }

    constructor (cache: MemoryCache<string, string>, slug: string, codec: Codec<V>)
      ensures this.cache == cache && this.slug == slug && this.codec == codec && rows == map[]
    {
      this.cache, this.slug, this.codec, rows := cache, slug, codec, map[];
    }

    method Invalidate(id: string)
      modifies cache
      ensures cache.items == old(cache.items) - {EntityKey(slug, id)}
    {
      cache.Del(EntityKey(slug, id));
    }

    method Insert(id: string, value: V, dbOk: bool) returns (err: Option<Error>)
      modifies this, cache
      ensures View() == Step(old(View()), codec, slug, Create(id, value, dbOk))
      ensures err == if dbOk && id !in old(rows) then None else Some(DbError)
    {
      if !dbOk || id in rows {
        return Some(DbError);
      }
      rows := rows[id := Row(value, false)];
      Invalidate(id);
      return None;
    }

    method Fetch(id: string, now: int, dbOk: bool) returns (r: Result<V, Error>)
      modifies cache
      ensures r == Read(old(View()), codec, slug, id, now, dbOk)
      ensures View() == Step(old(View()), codec, slug, GetByID(id, now, dbOk))
    {
      var key := EntityKey(slug, id);
      var raw := cache.Get(key, now);
      if raw.Some? {
        var hit := codec.unmarshal(raw.value);
        if hit.Some? {
          return Success(hit.value);
        }
      }
      if !dbOk {
        return Failure(DbError);
      }
      if !Live(rows, id) {
        return Failure(NotFound);
      }
      cache.Set(key, codec.marshal(rows[id].value), CACHE_TTL, now);
      return Success(rows[id].value);
    }

    method Save(id: string, row: Row<V>, dbOk: bool) returns (err: Option<Error>)
      modifies this, cache
      ensures View() == Step(old(View()), codec, slug, Update(id, row, dbOk))
      ensures err == if dbOk then None else Some(DbError)
    {
      if !dbOk {
        return Some(DbError);
      }
      rows := rows[id := row];
      Invalidate(id);
      return None;
    }

    method Patch(id: string, change: V -> V, dbOk: bool) returns (err: Option<Error>)
      modifies this, cache
      ensures View() == Step(old(View()), codec, slug, UpdatePartial(id, change, dbOk))
      ensures err == if !dbOk then Some(DbError) else if !Live(old(rows), id) then Some(NotFound) else None
    {
      if !dbOk {
        return Some(DbError);
      }
      if !Live(rows, id) {
        return Some(NotFound);
      }
      rows := rows[id := Row(change(rows[id].value), false)];
      Invalidate(id);
      return None;
    }

    method Remove(id: string, dbOk: bool) returns (err: Option<Error>)
      modifies this, cache
      ensures View() == Step(old(View()), codec, slug, Delete(id, dbOk))
      ensures err == if !dbOk then Some(DbError) else if !Live(old(rows), id) then Some(NotFound) else None
    {
      if !dbOk {
        return Some(DbError);
      }
      if !Live(rows, id) {
        return Some(NotFound);
      }
      rows := rows[id := rows[id].(deleted := true)];
      Invalidate(id);
      return None;
    }
  }

  // ----- Coherence over runs -----

  /** Every entry, lapsed ones included, is the JSON text of the row as it is now, and that row is live. */
  ghost predicate Coherent<V>(s: State<V>, c: Codec<V>, slug: string) {
    forall id :: EntityKey(slug, id) in s.items ==>
      Live(s.rows, id) && s.items[EntityKey(slug, id)].value == c.marshal(s.rows[id].value)
  }

  function Run<V>(s: State<V>, c: Codec<V>, slug: string, ops: seq<Op<V>>): State<V> {
    if ops == [] then s else Step(Run(s, c, slug, ops[..|ops| - 1]), c, slug, ops[|ops| - 1])
  }

  lemma KeysDiffer(slug: string, a: string, b: string)
    requires a != b
    ensures EntityKey(slug, a) != EntityKey(slug, b)
  {
    var prefix := "cache:" + slug + ":";
    assert EntityKey(slug, a)[|prefix|..] == a && EntityKey(slug, b)[|prefix|..] == b;
  }

  lemma StepKeepsCoherence<V>(s: State<V>, c: Codec<V>, slug: string, op: Op<V>)
    requires Coherent(s, c, slug)
    ensures Coherent(Step(s, c, slug, op), c, slug)
  {
    var after := Step(s, c, slug, op);
    forall id | EntityKey(slug, id) in after.items
      ensures Live(after.rows, id) && after.items[EntityKey(slug, id)].value == c.marshal(after.rows[id].value)
    {
      if id != op.id {
        KeysDiffer(slug, id, op.id);
      }
    }
  }

  lemma {:induction false} RunCoherent<V>(s: State<V>, c: Codec<V>, slug: string, ops: seq<Op<V>>)
    requires Coherent(s, c, slug)
    ensures Coherent(Run(s, c, slug, ops), c, slug)
  {
    if ops != [] {
      RunCoherent(s, c, slug, ops[..|ops| - 1]);
      StepKeepsCoherence(Run(s, c, slug, ops[..|ops| - 1]), c, slug, ops[|ops| - 1]);
    }
  }

  /** Main result: after any run of repository calls, with any of them failing, a read yields the current live row or
      what JSON keeps of it, never an older version and never a deleted row; it reports not-found only of rows that
      are not live, and fails only when the database does. */
  lemma ReadsAgreeWithTable<V>(s: State<V>, c: Codec<V>, slug: string, ops: seq<Op<V>>, id: string, now: int,
                               dbOk: bool)
    requires Coherent(s, c, slug)
    ensures var after := Run(s, c, slug, ops);
            match Read(after, c, slug, id, now, dbOk)
            case Success(v) =>
              Live(after.rows, id) && (v == after.rows[id].value || Projection(c, after.rows[id].value) == Some(v))
            case Failure(NotFound) => !Live(after.rows, id)
            case Failure(DbError) => !dbOk
  {
    RunCoherent(s, c, slug, ops);
  }

  // ----- Reads, told from the calls alone -----

  /** What has been written under an id: nothing yet, a value, or a value that was deleted since. */
  datatype Slot<V> = Never | Holds(value: V) | Deleted(value: V)

  /** What the successful writes among the calls make of it, one after another. */
  function Written<V>(slot: Slot<V>, ops: seq<Op<V>>, id: string): Slot<V> {
    if ops == [] then slot
    else
      var before, last := Written(slot, ops[..|ops| - 1], id), ops[|ops| - 1];
      if last.id != id || !last.dbOk then before
      else match last
        case Create(_, value, _) => if before.Never? then Holds(value) else before
        case GetByID(_, _, _) => before
        case Update(_, row, _) => if row.deleted then Deleted(row.value) else Holds(row.value)
        case UpdatePartial(_, change, _) => if before.Holds? then Holds(change(before.value)) else before
        case Delete(_, _) => if before.Holds? then Deleted(before.value) else before
  }

  /** What the table starts with under an id. */
  function SlotOf<V>(rows: map<string, Row<V>>, id: string): Slot<V> {
    if id !in rows then Slot.Never else if rows[id].deleted then Deleted(rows[id].value) else Holds(rows[id].value)
  }

  lemma {:induction false} RunWrites<V>(s: State<V>, c: Codec<V>, slug: string, ops: seq<Op<V>>, id: string)
    ensures SlotOf(Run(s, c, slug, ops).rows, id) == Written(SlotOf(s.rows, id), ops, id)
  {
    if ops != [] {
      RunWrites(s, c, slug, ops[..|ops| - 1], id);
    }
  }

  /** Main result: after any run of calls, a read over a healthy database is determined by the writes of that id among
      the calls: the value last written, or what JSON keeps of it, and not-found if none was written or it was
      deleted. */
  lemma ReadsFollowWrites<V>(s: State<V>, c: Codec<V>, slug: string, ops: seq<Op<V>>, id: string, now: int)
    requires Coherent(s, c, slug)
    ensures var r := Read(Run(s, c, slug, ops), c, slug, id, now, true);
            match Written(SlotOf(s.rows, id), ops, id)
            case Holds(v) => r.Success? && (r.value == v || Projection(c, v) == Some(r.value))
            case _ => r == Failure(NotFound)
  {
    RunCoherent(s, c, slug, ops);
    RunWrites(s, c, slug, ops, id);
  }

  lemma {:induction false} WrittenSplit<V>(slot: Slot<V>, a: seq<Op<V>>, b: seq<Op<V>>, id: string)
    ensures Written(slot, a + b, id) == Written(Written(slot, a, id), b, id)
    decreases |b|
  {
    if b == [] {
      assert a + b == a;
    } else {
      assert (a + b)[..|a + b| - 1] == a + b[..|b| - 1];
      WrittenSplit(slot, a, b[..|b| - 1], id);
    }
  }

  /** The calls hold no successful full update of the id. */
  predicate NoUpdate<V>(ops: seq<Op<V>>, id: string) {
    forall i :: 0 <= i < |ops| ==> !(ops[i].Update? && ops[i].id == id && ops[i].dbOk)
  }

  lemma {:induction false} DeletedStays<V>(slot: Slot<V>, ops: seq<Op<V>>, id: string)
    requires slot.Deleted? && NoUpdate(ops, id)
    ensures Written(slot, ops, id) == slot
  {
    if ops != [] {
      DeletedStays(slot, ops[..|ops| - 1], id);
    }
  }

  lemma {:induction false} UnwrittenStays<V>(slot: Slot<V>, ops: seq<Op<V>>, id: string)
    requires !slot.Never? && forall i :: 0 <= i < |ops| ==> !Writes(ops[i], id)
    ensures Written(slot, ops, id) == slot
  {
    if ops != [] {
      UnwrittenStays(slot, ops[..|ops| - 1], id);
    }
  }

  /** So a deleted row is not found until a full update writes it again, however often it is created, patched, deleted
      or read in between. */
  lemma DeletedIsNotFound<V>(s: State<V>, c: Codec<V>, slug: string, ops: seq<Op<V>>, id: string, later: seq<Op<V>>,
                             now: int)
    requires Coherent(s, c, slug) && Written(SlotOf(s.rows, id), ops, id).Holds? && NoUpdate(later, id)
    ensures Read(Run(s, c, slug, ops + [Delete(id, true)] + later), c, slug, id, now, true) == Failure(NotFound)
  {
    var slot := SlotOf(s.rows, id);
    WrittenSplit(slot, ops + [Delete(id, true)], later, id);
    assert (ops + [Delete(id, true)])[..|ops|] == ops;
    DeletedStays(Written(slot, ops + [Delete(id, true)], id), later, id);
    ReadsFollowWrites(s, c, slug, ops + [Delete(id, true)] + later, id, now);
  }

  /** The call, once successful, leaves this value: a create of a new id, a full update, or a change of the value
      held. */
  predicate Leaves<V(==)>(slot: Slot<V>, op: Op<V>, v: V) {
    op.dbOk && match op
               case Create(_, value, _) => slot.Never? && value == v
               case Update(_, row, _) => !row.deleted && row.value == v
               case UpdatePartial(_, change, _) => slot.Holds? && change(slot.value) == v
               case _ => false
  }

  /** And what a call has written is what is read, up to what JSON keeps, until the next write of that id. */
  lemma WrittenIsRead<V>(s: State<V>, c: Codec<V>, slug: string, ops: seq<Op<V>>, op: Op<V>, v: V, later: seq<Op<V>>,
                         now: int)
    requires Coherent(s, c, slug) && Leaves(Written(SlotOf(s.rows, op.id), ops, op.id), op, v)
    requires forall i :: 0 <= i < |later| ==> !Writes(later[i], op.id)
    ensures var r := Read(Run(s, c, slug, ops + [op] + later), c, slug, op.id, now, true);
            r.Success? && (r.value == v || Projection(c, v) == Some(r.value))
  {
    var slot := SlotOf(s.rows, op.id);
    WrittenSplit(slot, ops + [op], later, op.id);
    assert (ops + [op])[..|ops|] == ops;
    UnwrittenStays(Written(slot, ops + [op], op.id), later, op.id);
    ReadsFollowWrites(s, c, slug, ops + [op] + later, op.id, now);
  }

  // ----- How long an entry serves -----

  /** A call that may change the live row `id`: an update or a delete whose statement succeeds. Reads, failed calls
      and an insert under the id of a present row do not. */
  predicate Writes<V>(op: Op<V>, id: string) {
    op.id == id && (op.Update? || op.UpdatePartial? || op.Delete?) && op.dbOk
  }

  /** Reads of `id` take place no later than the given instant. */
  predicate ReadsBy<V>(ops: seq<Op<V>>, id: string, until: int) {
    forall i :: 0 <= i < |ops| && ops[i].GetByID? && ops[i].id == id ==> ops[i].now <= until
  }

  /** A row read from the table is served from the cache for the next 15 minutes, database or no database, however
      often it is read and whatever else is called, as long as nobody successfully writes that row through the
      repository. */
  lemma ServedFromCache<V>(s: State<V>, c: Codec<V>, slug: string, id: string, now: int, ops: seq<Op<V>>, later: int)
    requires Live(s.rows, id) && Projection(c, s.rows[id].value).Some? && Cached(s, c, slug, id, now).None?
    requires forall i :: 0 <= i < |ops| ==> !Writes(ops[i], id)
    requires now <= later <= now + 15 * MINUTE && ReadsBy(ops, id, later)
    ensures var filled := Step(s, c, slug, GetByID(id, now, true));
            Read(Run(filled, c, slug, ops), c, slug, id, later, false) == Success(Projection(c, s.rows[id].value).value)
  {
    var filled := Step(s, c, slug, GetByID(id, now, true));
    EntryStays(filled, c, slug, id, ops, now + CACHE_TTL);
  }

  /** And no longer: a read that finds the entry older than that goes to the database, and fails if that does. */
  lemma LapsedIsNotServed<V>(s: State<V>, c: Codec<V>, slug: string, id: string, now: int, ops: seq<Op<V>>, later: int)
    requires Live(s.rows, id) && Projection(c, s.rows[id].value).Some? && Cached(s, c, slug, id, now).None?
    requires forall i :: 0 <= i < |ops| ==> !Writes(ops[i], id)
    requires later > now + 15 * MINUTE && ReadsBy(ops, id, now + 15 * MINUTE)
    ensures var filled := Step(s, c, slug, GetByID(id, now, true));
            Read(Run(filled, c, slug, ops), c, slug, id, later, false) == Failure(DbError)
  {
    var filled := Step(s, c, slug, GetByID(id, now, true));
    EntryStays(filled, c, slug, id, ops, now + CACHE_TTL);
  }

  lemma {:induction false} EntryStays<V>(s: State<V>, c: Codec<V>, slug: string, id: string, ops: seq<Op<V>>,
                                         expiry: int)
    requires EntityKey(slug, id) in s.items && s.items[EntityKey(slug, id)].expires == At(expiry)
    requires Live(s.rows, id) && c.unmarshal(s.items[EntityKey(slug, id)].value).Some?
    requires forall i :: 0 <= i < |ops| ==> !Writes(ops[i], id)
    requires ReadsBy(ops, id, expiry)
    ensures var after := Run(s, c, slug, ops);
            && Live(after.rows, id) && EntityKey(slug, id) in after.items
            && after.items[EntityKey(slug, id)] == s.items[EntityKey(slug, id)]
  {
    if ops != [] {
      var last := ops[|ops| - 1];
      EntryStays(s, c, slug, id, ops[..|ops| - 1], expiry);
      if last.id != id {
        KeysDiffer(slug, id, last.id);
      } else {
        assert !Writes(last, id);
      }
    }
  }

  // ----- Where the atomic read matters -----

  /** The second half of a cache miss on its own: storing a row value read earlier. */
  function Fill<V>(s: State<V>, c: Codec<V>, slug: string, id: string, seen: V, now: int): State<V> {
    s.(items := Put(s.items, EntityKey(slug, id), c.marshal(seen), CACHE_TTL, now))
  }

  /** If other calls run between the two halves of a miss, the late fill keeps the cache coherent exactly when the row
      is still live and still has the same JSON text. A write or delete in between therefore leaves a stale entry. */
  lemma LateFillCoherentExactly<V>(s: State<V>, c: Codec<V>, slug: string, id: string, seen: V, between: seq<Op<V>>,
                                   now: int)
    requires Coherent(s, c, slug)
    ensures var mid := Run(s, c, slug, between);
            Coherent(Fill(mid, c, slug, id, seen, now), c, slug)
            <==> Live(mid.rows, id) && c.marshal(mid.rows[id].value) == c.marshal(seen)
  {
    RunCoherent(s, c, slug, between);
    var mid := Run(s, c, slug, between);
    var after := Fill(mid, c, slug, id, seen, now);
    if Live(mid.rows, id) && c.marshal(mid.rows[id].value) == c.marshal(seen) {
      forall other | EntityKey(slug, other) in after.items
        ensures Live(after.rows, other)
        ensures after.items[EntityKey(slug, other)].value == c.marshal(after.rows[other].value)
      {
        if other != id {
          KeysDiffer(slug, other, id);
        }
      }
    } else {
      assert EntityKey(slug, id) in after.items;
    }
  }
}
