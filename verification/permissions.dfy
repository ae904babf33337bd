/** The permission table that mirrors the registered routes (backend/internal/permissions/permissions.go). */
module Permissions {
  import opened Wrappers

  const SERVICE := "api-gateway"

  datatype RouteInfo = RouteInfo(name: string, url: string, method_: string)

  /** `route` holds "method url" under a unique index that soft-deleted rows still occupy. */
  datatype Row = Row(name: string, route: string, path: string, method_: string, service: string, deleted: bool)

  type Table = map<nat, Row>

  function RouteKey(method_: string, url: string): string {
    method_ + " " + url
  }

  function KeyOf(r: RouteInfo): string {
    RouteKey(r.method_, r.url)
  }

  function KeysOf(routes: seq<RouteInfo>): set<string> {
    set r | r in routes :: KeyOf(r)
  }

  function Wanted(r: RouteInfo): Row {
    Row(r.name, KeyOf(r), r.url, r.method_, SERVICE, false)
  }

  function WantedRows(routes: seq<RouteInfo>): set<Row> {
    set r | r in routes :: Wanted(r)
  }

  // ----- Extracting the manifest -----

  predicate IsExcluded(path: string) {
    (|path| >= |"/swagger"| && path[..|"/swagger"|] == "/swagger") || path == "/metrics" || path == "/health"
  }

  predicate DistinctKeys(routes: seq<RouteInfo>) {
    forall i, j :: 0 <= i < j < |routes| ==> KeyOf(routes[i]) != KeyOf(routes[j])
  }

  /** The manifest of a list of registered (method, path) pairs: one entry for every key of a path that is not excluded,
      in order of first registration. */
  ghost predicate Manifest(registered: seq<(string, string)>, nameOf: string -> string, routes: seq<RouteInfo>) {
    && DistinctKeys(routes)
    && (forall r :: r in routes ==> (r.method_, r.url) in registered && r.name == nameOf(r.url))
    && (forall r :: r in routes ==> KeyOf(r) in KeptKeys(registered))
    && (forall k :: k in KeptKeys(registered) ==> k in KeysOf(routes))
    && InFirstOrder(registered, routes)
  }

  function KeyAt(registered: seq<(string, string)>, i: nat): string
    requires i < |registered|
  {
    RouteKey(registered[i].0, registered[i].1)
  }

  /** The entries stand in the order in which their keys were first registered. */
  ghost predicate InFirstOrder(registered: seq<(string, string)>, routes: seq<RouteInfo>) {
    forall a, b, i, j :: 0 <= a < b < |routes| ==>
      FirstOf(registered, i, KeyOf(routes[a])) && FirstOf(registered, j, KeyOf(routes[b])) ==> i < j
  }

  /** Position `i` is the first registration of the key. */
  ghost predicate FirstOf(registered: seq<(string, string)>, i: int, key: string) {
    0 <= i < |registered| && IsFirst(registered, i) && KeyAt(registered, i) == key
  }

  ghost predicate Registered(registered: seq<(string, string)>, n: nat, key: string)
    requires n <= |registered|
  {
    exists j :: 0 <= j < n && KeyAt(registered, j) == key
  }

  /** An entry whose key is first registered after all the others' keys goes last. */
  lemma AppendInOrder(registered: seq<(string, string)>, routes: seq<RouteInfo>, info: RouteInfo, at: nat)
    requires InFirstOrder(registered, routes) && FirstOf(registered, at, KeyOf(info))
    requires forall r :: r in routes ==> Registered(registered, at, KeyOf(r))
    ensures InFirstOrder(registered, routes + [info])
  {
    var more := routes + [info];
    forall a, b, i, j | 0 <= a < b < |more| && FirstOf(registered, i, KeyOf(more[a]))
                        && FirstOf(registered, j, KeyOf(more[b])) ensures i < j
    {
      assert more[a] == routes[a] && routes[a] in routes;
      if b == |routes| {
        var k :| 0 <= k < at && KeyAt(registered, k) == KeyOf(routes[a]);
        assert i <= k && j == at;
      }
    }
  }

  /** What the walk has collected when it has seen the first `n` pairs. */
  ghost predicate Collected(registered: seq<(string, string)>, nameOf: string -> string, routes: seq<RouteInfo>, n: nat)
    requires n <= |registered|
  {
    && DistinctKeys(routes) && InFirstOrder(registered, routes)
    && (forall r :: r in routes ==> && Registered(registered, n, KeyOf(r)) && KeyOf(r) in KeptKeys(registered)
                                    && (r.method_, r.url) in registered && r.name == nameOf(r.url))
    && (forall j :: 0 <= j < n && !IsExcluded(registered[j].1) && IsFirst(registered, j) ==>
          KeyAt(registered, j) in KeysOf(routes))
  }

  lemma CollectedSkip(registered: seq<(string, string)>, nameOf: string -> string, routes: seq<RouteInfo>, n: nat)
    requires n < |registered| && Collected(registered, nameOf, routes, n)
    requires IsExcluded(registered[n].1) || Registered(registered, n, KeyAt(registered, n))
    ensures Collected(registered, nameOf, routes, n + 1)
  {
    forall r | r in routes ensures Registered(registered, n + 1, KeyOf(r)) {
      assert Registered(registered, n, KeyOf(r));
    }
  }

  lemma CollectedMore(registered: seq<(string, string)>, nameOf: string -> string, routes: seq<RouteInfo>, n: nat)
    requires n < |registered| && Collected(registered, nameOf, routes, n)
    requires !IsExcluded(registered[n].1) && !Registered(registered, n, KeyAt(registered, n))
    ensures var info := RouteInfo(nameOf(registered[n].1), registered[n].1, registered[n].0);
            Collected(registered, nameOf, routes + [info], n + 1)
  {
    var info, key := RouteInfo(nameOf(registered[n].1), registered[n].1, registered[n].0), KeyAt(registered, n);
    var more := routes + [info];
    assert IsFirst(registered, n) && KeyOf(info) == key && key in KeptKeys(registered);
    AppendInOrder(registered, routes, info, n);
    forall r | r in more ensures Registered(registered, n + 1, KeyOf(r)) && KeyOf(r) in KeptKeys(registered) {
      if r in routes {
        assert Registered(registered, n, KeyOf(r));
      } else {
        assert KeyAt(registered, n) == KeyOf(r);
      }
    }
    forall r | r in routes ensures r in more && KeyOf(r) != key {
      assert Registered(registered, n, KeyOf(r));
    }
    assert info in more;
    forall k | k in KeysOf(routes) ensures k in KeysOf(more) {
      var r :| r in routes && KeyOf(r) == k;
      assert r in more;
    }
  }

  /** Keys whose first registration is not excluded. */
  function KeptKeys(registered: seq<(string, string)>): set<string> {
    set i | 0 <= i < |registered| && !IsExcluded(registered[i].1) && IsFirst(registered, i)
      :: KeyAt(registered, i)
  }

  predicate IsFirst(registered: seq<(string, string)>, i: nat)
    requires i < |registered|
  {
    forall j :: 0 <= j < i ==> KeyAt(registered, j) != KeyAt(registered, i)
  }

  /** A path of the infrastructure: metrics, health, or anything that begins like the API browser. */
  ghost predicate Infrastructure(path: string) {
    path == "/metrics" || path == "/health" || exists rest :: path == "/swagger" + rest
  }

  /** The manifest in plain words: it leaves out the infrastructure and nothing else. */
  lemma ManifestInWords(registered: seq<(string, string)>, nameOf: string -> string, routes: seq<RouteInfo>)
    requires Manifest(registered, nameOf, routes)
    ensures forall i :: 0 <= i < |registered| && IsFirst(registered, i) && !Infrastructure(registered[i].1) ==>
              exists r :: r in routes && r.method_ + " " + r.url == registered[i].0 + " " + registered[i].1
    ensures forall r :: r in routes ==>
              exists i :: && 0 <= i < |registered| && IsFirst(registered, i) && !Infrastructure(registered[i].1)
                          && r.method_ + " " + r.url == registered[i].0 + " " + registered[i].1
    ensures forall r :: r in routes ==> r.name == nameOf(r.url)
  {
    forall path: string ensures IsExcluded(path) <==> Infrastructure(path) {
      ExcludedIsInfrastructure(path);
    }
    forall i | 0 <= i < |registered| && IsFirst(registered, i) && !Infrastructure(registered[i].1)
      ensures exists r :: r in routes && r.method_ + " " + r.url == registered[i].0 + " " + registered[i].1
    {
      assert KeyAt(registered, i) in KeptKeys(registered);
      var r :| r in routes && KeyOf(r) == KeyAt(registered, i);
    }
    forall r | r in routes
      ensures exists i :: && 0 <= i < |registered| && IsFirst(registered, i) && !Infrastructure(registered[i].1)
                          && r.method_ + " " + r.url == registered[i].0 + " " + registered[i].1
    {
      assert KeyOf(r) in KeptKeys(registered);
      var i :| && 0 <= i < |registered| && !IsExcluded(registered[i].1) && IsFirst(registered, i)
               && KeyAt(registered, i) == KeyOf(r);
    }
  }

  lemma ExcludedIsInfrastructure(path: string)
    ensures IsExcluded(path) <==> Infrastructure(path)
  {
    var n := |"/swagger"|;
    if |path| >= n && path[..n] == "/swagger" {
      assert path == "/swagger" + path[n..];
    }
  }

  lemma SeenNext(registered: seq<(string, string)>, n: nat, seen: set<string>)
    requires n < |registered| && forall k :: k in seen <==> Registered(registered, n, k)
    ensures forall k :: k in seen + {KeyAt(registered, n)} <==> Registered(registered, n + 1, k)
  {
    forall k ensures k in seen + {KeyAt(registered, n)} <==> Registered(registered, n + 1, k) {
      if Registered(registered, n, k) {
        var j :| 0 <= j < n && KeyAt(registered, j) == k;
        assert 0 <= j < n + 1;
      }
      if k == KeyAt(registered, n) {
        assert 0 <= n < n + 1;
      }
    }
  }

  method Extract(registered: seq<(string, string)>, nameOf: string -> string) returns (routes: seq<RouteInfo>)
    ensures Manifest(registered, nameOf, routes)
  {
    routes := [];
    var seen: set<string> := {};
    for i := 0 to |registered|
      invariant forall k :: k in seen <==> Registered(registered, i, k)
      invariant Collected(registered, nameOf, routes, i)
    {
      var key := KeyAt(registered, i);
      SeenNext(registered, i, seen);
      if key in seen {
        CollectedSkip(registered, nameOf, routes, i);
        continue;
      }
      seen := seen + {key};
      if IsExcluded(registered[i].1) {
        CollectedSkip(registered, nameOf, routes, i);
        continue;
      }
      CollectedMore(registered, nameOf, routes, i);
      routes := routes + [RouteInfo(nameOf(registered[i].1), registered[i].1, registered[i].0)];
    }
  }

  // ----- Storing it -----

  ghost predicate UniqueRoutes(rows: Table) {
    forall a, b :: a in rows && b in rows && rows[a].route == rows[b].route ==> a == b
  }

  /** The table mirrors the manifest: one live, up-to-date row for every route, and no other row. */
  ghost predicate Mirrors(rows: Table, routes: seq<RouteInfo>) {
    UniqueRoutes(rows) && rows.Values == WantedRows(routes)
  }

  /** Rows that were live and whose route is wanted are still there, under their id. */
  ghost predicate KeepsIds(before: Table, after: Table, routes: seq<RouteInfo>) {
    forall id :: id in before && !before[id].deleted && before[id].route in KeysOf(routes) ==>
      id in after && after[id].route == before[id].route && !after[id].deleted
  }

  /** Where the loop stands after the routes `done`: those are in place, every other row is as it was. */
  ghost predicate Synced(before: Table, rows: Table, done: seq<RouteInfo>) {
    && WantedRows(done) <= rows.Values
    && Untouched(before, rows, KeysOf(done))
    && KeepsIds(before, rows, done)
  }

  ghost predicate Untouched(before: Table, rows: Table, keys: set<string>) {
    && (forall id :: id in rows && rows[id].route !in keys ==> id in before && rows[id] == before[id])
    && (forall id :: id in before && before[id].route !in keys ==> id in rows && rows[id] == before[id])
  }

  class PermissionTable {
    var rows: Table
    var nextId: nat
    /** How many rows the table's statements have inserted, changed or deleted. */
    ghost var writes: nat

    ghost predicate Valid()
      reads this
    {
      UniqueRoutes(rows) && forall id :: id in rows ==> id < nextId
    }

    constructor ()
      ensures Valid() && rows == map[] && writes == 0
    {
      rows, nextId, writes := map[], 0, 0;
    }

    /** `Unscoped().Where("route = ?").First`. */
    method Find(route: string) returns (found: Option<nat>)
      ensures found.Some? ==> found.value in rows && rows[found.value].route == route
      ensures found.None? ==> forall id :: id in rows ==> rows[id].route != route
    {
      var rest := rows.Keys;
      while rest != {}
        invariant rest <= rows.Keys
        invariant forall id :: id in rows && id !in rest ==> rows[id].route != route
        decreases rest
      {
        var id :| id in rest;
        if rows[id].route == route {
          return Some(id);
        }
        rest := rest - {id};
      }
      return None;
    }

    method Create(r: RouteInfo)
      requires Valid() && forall id :: id in rows ==> rows[id].route != KeyOf(r)
      modifies this
      ensures Valid() && nextId == old(nextId) + 1 && writes == old(writes) + 1
      ensures old(nextId) !in old(rows) && rows == old(rows)[old(nextId) := Wanted(r)]
    {
      rows := rows[nextId := Wanted(r)];
      nextId := nextId + 1;
      writes := writes + 1;
    }

    method HardDelete(id: nat)
      requires Valid() && id in rows
      modifies this
      ensures Valid() && nextId == old(nextId) && writes == old(writes) + 1 && rows == old(rows) - {id}
    {
      rows := rows - {id};
      writes := writes + 1;
    }

    /** Brings a live row up to date, writing only if something differs. */
    method UpdateInPlace(id: nat, r: RouteInfo)
      requires Valid() && id in rows && rows[id].route == KeyOf(r) && !rows[id].deleted
      modifies this
      ensures Valid() && rows == old(rows)[id := Wanted(r)]
      ensures old(rows)[id] == Wanted(r) ==> writes == old(writes)
    {
      var existing := rows[id];
      var needUpdate := false;
      if existing.name != r.name {
        existing, needUpdate := existing.(name := r.name), true;
      }
      if existing.path != r.url {
        existing, needUpdate := existing.(path := r.url), true;
      }
      if existing.method_ != r.method_ {
        existing, needUpdate := existing.(method_ := r.method_), true;
      }
      if existing.service != SERVICE {
        existing, needUpdate := existing.(service := SERVICE), true;
      }
      if needUpdate {
        rows := rows[id := existing];
        writes := writes + 1;
      }
    }

    /** The loop body for one route: insert, replace a soft-deleted row, update in place, or leave alone. */
    method Upsert(r: RouteInfo)
      requires Valid()
      modifies this
      ensures Valid()
      ensures Wanted(r) in rows.Values
      ensures Untouched(old(rows), rows, {KeyOf(r)})
      ensures forall id :: id in old(rows) && !old(rows)[id].deleted && old(rows)[id].route == KeyOf(r) ==>
                id in rows && rows[id] == Wanted(r)
      ensures Wanted(r) in old(rows).Values ==> rows == old(rows) && writes == old(writes)
    {
      var found := Find(KeyOf(r));
      if found.None? {
        Create(r);
        assert rows[old(nextId)] == Wanted(r);
        return;
      }
      var id := found.value;
      if rows[id].deleted {
        HardDelete(id);
        Create(r);
        assert rows[old(nextId)] == Wanted(r);
        return;
      }
      UpdateInPlace(id, r);
      assert rows[id] == Wanted(r);
    }

    /** `DELETE ... WHERE route NOT IN keys`, one statement. */
    method Prune(keys: set<string>)
      requires Valid()
      modifies this
      ensures Valid()
      ensures rows == map id | id in old(rows) && old(rows)[id].route in keys :: old(rows)[id]
      ensures writes == old(writes) + |old(rows).Keys - rows.Keys|
    {
      var kept := map id | id in rows && rows[id].route in keys :: rows[id];
      writes := writes + |rows.Keys - kept.Keys|;
      rows := kept;
    }

    /** The empty manifest: every row is listed and deleted by id. */
    method DeleteAll()
      requires Valid()
      modifies this
      ensures Valid() && rows == map[]
      ensures old(rows) == map[] ==> writes == old(writes)
    {
      var rest := rows.Keys;
      while rest != {}
        invariant Valid() && rest == rows.Keys <= old(rows).Keys
        invariant old(rows) == map[] ==> writes == old(writes)
        decreases rest
      {
        var id :| id in rest;
        HardDelete(id);
        rest := rest - {id};
      }
    }

    /** Main result, for one run: the table mirrors the manifest, rows that were live and stay keep their ids, and a
        table that already mirrors it is not written to. */
    method StorePermissions(routes: seq<RouteInfo>)
      requires Valid() && DistinctKeys(routes)
      modifies this
      ensures Valid() && Mirrors(rows, routes) && KeepsIds(old(rows), rows, routes)
      ensures Mirrors(old(rows), routes) ==> rows == old(rows) && writes == old(writes)
    {
      for i := 0 to |routes|
        invariant Valid() && Synced(old(rows), rows, routes[..i])
        invariant Mirrors(old(rows), routes) ==> rows == old(rows) && writes == old(writes)
      {
        ghost var mid := rows;
        Upsert(routes[i]);
        SyncedStep(old(rows), mid, rows, routes, i);
      }
      assert routes[..|routes|] == routes;
      ghost var mid := rows;
      if |routes| > 0 {
        Prune(KeysOf(routes));
      } else {
        DeleteAll();
      }
      PruneMirrors(old(rows), mid, rows, routes);
      if Mirrors(old(rows), routes) {
        MirrorNeedsNoPruning(mid, routes);
        assert rows == mid && rows.Keys - rows.Keys == {};
      }
    }
  }

  lemma KeysGrow(routes: seq<RouteInfo>, i: nat)
    requires i < |routes| && DistinctKeys(routes)
    ensures routes[..i + 1] == routes[..i] + [routes[i]]
    ensures KeysOf(routes[..i + 1]) == KeysOf(routes[..i]) + {KeyOf(routes[i])}
    ensures KeyOf(routes[i]) !in KeysOf(routes[..i])
  {
    assert forall r :: r in routes[..i + 1] <==> r in routes[..i] || r == routes[i];
  }

  lemma PlacedStays(mid: Table, after: Table, done: seq<RouteInfo>, key: string, r: RouteInfo)
    requires r in done && key !in KeysOf(done) && Untouched(mid, after, {key})
    requires Wanted(r) in mid.Values
    ensures Wanted(r) in after.Values
  {
    var id :| id in mid && mid[id] == Wanted(r);
    assert KeyOf(r) in KeysOf(done);
    assert id in after && after[id] == mid[id];
  }

  lemma IdsStay(before: Table, mid: Table, after: Table, done: seq<RouteInfo>, next: RouteInfo, id: nat)
    requires Synced(before, mid, done) && Untouched(mid, after, {KeyOf(next)}) && KeyOf(next) !in KeysOf(done)
    requires forall x :: x in mid && !mid[x].deleted && mid[x].route == KeyOf(next) ==>
               x in after && after[x] == Wanted(next)
    requires id in before && !before[id].deleted && before[id].route in KeysOf(done) + {KeyOf(next)}
    ensures id in after && after[id].route == before[id].route && !after[id].deleted
  {
    if before[id].route in KeysOf(done) {
      assert id in mid && mid[id].route == before[id].route && !mid[id].deleted;
    } else {
      assert id in mid && mid[id] == before[id];
    }
  }

  lemma UntouchedComposes(before: Table, mid: Table, after: Table, done: set<string>, key: string)
    requires Untouched(before, mid, done) && Untouched(mid, after, {key})
    ensures Untouched(before, after, done + {key})
  {
  }

  lemma SyncedStep(before: Table, mid: Table, after: Table, routes: seq<RouteInfo>, i: nat)
    requires i < |routes| && DistinctKeys(routes) && Synced(before, mid, routes[..i])
    requires Wanted(routes[i]) in after.Values
    requires Untouched(mid, after, {KeyOf(routes[i])})
    requires forall id :: id in mid && !mid[id].deleted && mid[id].route == KeyOf(routes[i]) ==>
               id in after && after[id] == Wanted(routes[i])
    ensures Synced(before, after, routes[..i + 1])
  {
    var done, next := routes[..i], routes[i];
    KeysGrow(routes, i);
    UntouchedComposes(before, mid, after, KeysOf(done), KeyOf(next));
    forall r | r in done ensures Wanted(r) in after.Values {
      assert Wanted(r) in WantedRows(done);
      PlacedStays(mid, after, done, KeyOf(next), r);
    }
    forall id | id in before && !before[id].deleted && before[id].route in KeysOf(done) + {KeyOf(next)}
      ensures id in after && after[id].route == before[id].route && !after[id].deleted
    {
      IdsStay(before, mid, after, done, next, id);
    }
  }

  lemma PruneMirrors(before: Table, mid: Table, after: Table, routes: seq<RouteInfo>)
    requires UniqueRoutes(mid) && Synced(before, mid, routes)
    requires after == map id | id in mid && mid[id].route in KeysOf(routes) :: mid[id]
    ensures Mirrors(after, routes) && KeepsIds(before, after, routes)
  {
    forall r | r in routes ensures Wanted(r) in after.Values {
      assert Wanted(r) in WantedRows(routes) && KeyOf(r) in KeysOf(routes);
      var id :| id in mid && mid[id] == Wanted(r);
      assert id in after && after[id] == Wanted(r);
    }
    forall row | row in after.Values ensures row in WantedRows(routes) {
      var id :| id in after && after[id] == row;
      var r :| r in routes && KeyOf(r) == mid[id].route;
      assert Wanted(r) in WantedRows(routes);
      var id2 :| id2 in mid && mid[id2] == Wanted(r);
      assert id2 == id;
    }
  }

  lemma MirrorNeedsNoPruning(rows: Table, routes: seq<RouteInfo>)
    requires Mirrors(rows, routes)
    ensures rows == map id | id in rows && rows[id].route in KeysOf(routes) :: rows[id]
  {
    forall id | id in rows ensures rows[id].route in KeysOf(routes) {
      assert rows[id] in rows.Values;
      var r :| r in routes && rows[id] == Wanted(r);
    }
  }

  /** The row, column by column, shows the route. */
  predicate Shows(row: Row, r: RouteInfo) {
    && row.name == r.name && row.route == r.method_ + " " + r.url && row.path == r.url && row.method_ == r.method_
    && row.service == "api-gateway" && !row.deleted
  }

  /** Main result: a mirrored table and its manifest are in bijection. Every route has exactly one row, live and
      current, every row is live and shows a route, and there are as many rows as routes. */
  lemma MirrorIsBijection(rows: Table, routes: seq<RouteInfo>)
    requires Mirrors(rows, routes) && DistinctKeys(routes)
    ensures forall id :: id in rows ==> exists i :: 0 <= i < |routes| && Shows(rows[id], routes[i])
    ensures forall i :: 0 <= i < |routes| ==>
              exists id :: id in rows && Shows(rows[id], routes[i]) &&
                forall other :: other in rows && rows[other].route == rows[id].route ==> other == id
    ensures |rows| == |routes|
  {
    forall id | id in rows ensures exists i :: 0 <= i < |routes| && Shows(rows[id], routes[i]) {
      assert rows[id] in rows.Values;
      var r :| r in routes && Wanted(r) == rows[id];
      assert Shows(rows[id], r);
    }
    forall i | 0 <= i < |routes|
      ensures exists id :: id in rows && Shows(rows[id], routes[i]) &&
                forall other :: other in rows && rows[other].route == rows[id].route ==> other == id
    {
      assert Wanted(routes[i]) in WantedRows(routes);
      var id :| id in rows && rows[id] == Wanted(routes[i]);
      assert Shows(rows[id], routes[i]);
    }
    CountMirrored(rows, routes);
  }

  lemma WithoutLast(rows: Table, routes: seq<RouteInfo>, id: nat)
    requires Mirrors(rows, routes) && DistinctKeys(routes) && routes != []
    requires id in rows && rows[id] == Wanted(routes[|routes| - 1])
    ensures Mirrors(rows - {id}, routes[..|routes| - 1])
  {
    var n := |routes| - 1;
    var fewer := rows - {id};
    KeysGrow(routes, n);
    assert routes[..n + 1] == routes;
    forall row | row in WantedRows(routes[..n]) ensures row in fewer.Values {
      var r :| r in routes[..n] && row == Wanted(r);
      assert KeyOf(r) in KeysOf(routes[..n]) && row in WantedRows(routes);
      var x :| x in rows && rows[x] == row;
      assert x in fewer && fewer[x] == row;
    }
    forall row | row in fewer.Values ensures row in WantedRows(routes[..n]) {
      var x :| x in fewer && fewer[x] == row;
      assert row in rows.Values;
      var r :| r in routes && row == Wanted(r);
      assert r != routes[n];
    }
  }

  lemma {:induction false} CountMirrored(rows: Table, routes: seq<RouteInfo>)
    requires Mirrors(rows, routes) && DistinctKeys(routes)
    ensures |rows| == |routes|
    decreases |routes|
  {
    if routes == [] {
      assert forall id :: id in rows ==> rows[id] in rows.Values;
      assert rows.Keys == {};
    } else {
      var last := routes[|routes| - 1];
      assert Wanted(last) in WantedRows(routes);
      var id :| id in rows && rows[id] == Wanted(last);
      WithoutLast(rows, routes, id);
      CountMirrored(rows - {id}, routes[..|routes| - 1]);
      assert rows.Keys == (rows - {id}).Keys + {id};
    }
  }
}
