/** Whole walks: following `next` from the empty cursor, over a table that stays the same or changes between pages. */
module PaginationWalk {
  import opened Wrappers
  import opened KeysetOrder
  import opened Pagination

  /** The client's loop: page after page, the i-th read off the i-th state of the table, until there is no next. */
  function Walk(tables: seq<Table>, q: Query, columns: map<string, string>, summaryBy: string): seq<Result<Page, Error>>
    decreases |tables|
  {
    if tables == [] then []
    else
      var r := ApplySpec(tables[0], q, columns, summaryBy);
      [r] + if r.Success? && r.value.next != NoCursor
            then Walk(tables[1..], q.(cursor := r.value.next), columns, summaryBy) else []
  }

  ghost predicate Finished(walk: seq<Result<Page, Error>>) {
    walk != [] && walk[|walk| - 1].Success? && walk[|walk| - 1].value.next == NoCursor
  }

  /** The request is valid: its columns and direction are allowed. */
  predicate Valid(q: Query, columns: map<string, string>, summaryBy: string) {
    var cols := DEFAULT_COLUMNS + columns;
    PlanOf(q, cols).Success? && (q.includeSummary && summaryBy != "" ==> summaryBy in cols)
  }

  function ThePlan(q: Query, columns: map<string, string>): (plan: Plan)
    requires PlanOf(q, DEFAULT_COLUMNS + columns).Success?
    ensures 1 <= plan.limit <= 100
  {
    PlanOf(q, DEFAULT_COLUMNS + columns).value
  }

  /** What a table must satisfy: unique ids, and no null in the sort column of the rows asked for. */
  ghost predicate Pageable(table: Table, plan: Plan) {
    UniqueIds(table) && forall row :: row in table && plan.accepts(row) ==> Cell(row, plan.col).V?
  }

  predicate Usable(plan: Plan, token: Token) {
    token == NoCursor || (token.Encoded? && token.cursor.sortColumn == plan.col && token.cursor.sortValue.V?)
  }

  function Position(token: Token): Option<Cursor> {
    if token.Encoded? then Some(token.cursor) else None
  }

  /** What a valid request gets at one cursor: a page and the token for the next one. */
  datatype Shown = Shown(items: Table, next: Token)

  function NextToken(plan: Plan, rest: Table): Token
    requires plan.limit >= 1
  {
    if |rest| > plan.limit then Encoded(CursorFor(plan, rest[plan.limit - 1])) else NoCursor
  }

  function Turn(table: Table, plan: Plan, token: Token): Shown
    requires plan.limit >= 1
  {
    var rest := Remaining(table, plan, Position(token));
    Shown(Take(rest, plan.limit), NextToken(plan, rest))
  }

  function Turns(tables: seq<Table>, plan: Plan, token: Token): seq<Shown>
    requires plan.limit >= 1
    decreases |tables|
  {
    if tables == [] then []
    else
      var s := Turn(tables[0], plan, token);
      [s] + if s.next != NoCursor then Turns(tables[1..], plan, s.next) else []
  }

  ghost predicate Ended(turns: seq<Shown>) {
    turns != [] && turns[|turns| - 1].next == NoCursor
  }

  lemma PageIsTurn(table: Table, plan: Plan, token: Token, summary: Option<Summary>)
    requires plan.limit >= 1
    ensures var page := PageFrom(plan, token, Take(Remaining(table, plan, Position(token)), plan.limit + 1), summary);
            page.items == Turn(table, plan, token).items && page.next == Turn(table, plan, token).next
  {
    var rest := Remaining(table, plan, Position(token));
    if |rest| > plan.limit {
      assert Take(rest, plan.limit + 1)[..plan.limit] == rest[..plan.limit];
    }
  }

  lemma ApplyTurn(table: Table, q: Query, columns: map<string, string>, summaryBy: string)
    requires Valid(q, columns, summaryBy) && Usable(ThePlan(q, columns), q.cursor)
    requires Pageable(table, ThePlan(q, columns))
    ensures var plan := ThePlan(q, columns);
            var r := ApplySpec(table, q, columns, summaryBy);
            && r.Success? && r.value.items == Turn(table, plan, q.cursor).items
            && r.value.next == Turn(table, plan, q.cursor).next && Usable(plan, r.value.next)
  {
    var plan := ThePlan(q, columns);
    var cols := DEFAULT_COLUMNS + columns;
    assert CheckCursor(plan, q.cursor) == Success(Position(q.cursor));
    var summary := SummarySpec(q, Where(table, plan.accepts), cols, summaryBy);
    PageIsTurn(table, plan, q.cursor, summary.value);
    NextUsable(table, plan, q.cursor);
  }

  /** A valid walk never fails and shows exactly these turns. */
  lemma {:induction false} WalkIsTurns(tables: seq<Table>, q: Query, columns: map<string, string>, summaryBy: string)
    requires Valid(q, columns, summaryBy) && Usable(ThePlan(q, columns), q.cursor)
    requires forall i :: 0 <= i < |tables| ==> Pageable(tables[i], ThePlan(q, columns))
    ensures var walk := Walk(tables, q, columns, summaryBy);
            var turns := Turns(tables, ThePlan(q, columns), q.cursor);
            && |walk| == |turns|
            && forall k :: 0 <= k < |walk| ==>
                 walk[k].Success? && walk[k].value.items == turns[k].items && walk[k].value.next == turns[k].next
    decreases |tables|
  {
    if tables != [] {
      ApplyTurn(tables[0], q, columns, summaryBy);
      var r := ApplySpec(tables[0], q, columns, summaryBy);
      if r.value.next != NoCursor {
        var q' := q.(cursor := r.value.next);
        assert ThePlan(q', columns) == ThePlan(q, columns);
        WalkIsTurns(tables[1..], q', columns, summaryBy);
      }
    }
  }

  // ----- A table that does not change -----

  /** Consecutive slices of `limit` rows; at least one, the last possibly shorter. */
  function Slices(rows: Table, limit: nat): seq<Table>
    requires limit >= 1
    decreases |rows|
  {
    if |rows| <= limit then [rows] else [rows[..limit]] + Slices(rows[limit..], limit)
  }

  function Flatten(pages: seq<Table>): Table {
    if pages == [] then [] else pages[0] + Flatten(pages[1..])
  }

  /** The k-th slice is rows k * limit up to (k + 1) * limit, and there are as many as it takes. */
  lemma {:induction false} SlicesMeaning(rows: Table, limit: nat, k: nat)
    requires limit >= 1 && k < |Slices(rows, limit)|
    ensures k * limit <= |rows|
    ensures Slices(rows, limit)[k] == rows[k * limit..if (k + 1) * limit <= |rows| then (k + 1) * limit else |rows|]
    ensures k == |Slices(rows, limit)| - 1 <==> |rows| <= (k + 1) * limit
    decreases k
  {
    if |rows| > limit {
      if k > 0 {
        SlicesMeaning(rows[limit..], limit, k - 1);
        assert (k - 1) * limit + limit == k * limit && (k - 1 + 1) * limit + limit == (k + 1) * limit;
      } else {
        SlicesNonEmpty(rows[limit..], limit);
      }
    }
  }

  lemma SlicesNonEmpty(rows: Table, limit: nat)
    requires limit >= 1
    ensures |Slices(rows, limit)| >= 1
  {
  }

  lemma {:induction false} FlattenSlices(rows: Table, limit: nat)
    requires limit >= 1
    ensures Flatten(Slices(rows, limit)) == rows
    decreases |rows|
  {
    if |rows| > limit {
      FlattenSlices(rows[limit..], limit);
      assert Slices(rows, limit)[1..] == Slices(rows[limit..], limit);
      assert rows == rows[..limit] + rows[limit..];
    }
  }

  /** The keyset clause is exact: past the j-th remaining row come precisely the remaining rows after it. */
  lemma RemainingIsSuffix(table: Table, plan: Plan, token: Token, j: nat)
    requires Pageable(table, plan) && Usable(plan, token) && j < |Remaining(table, plan, Position(token))|
    ensures var rest := Remaining(table, plan, Position(token));
            Remaining(table, plan, Some(CursorFor(plan, rest[j]))) == rest[j + 1..]
  {
    var rest := Remaining(table, plan, Position(token));
    var after := Remaining(table, plan, Some(CursorFor(plan, rest[j])));
    OrderBySorted(plan.col, plan.desc, Where(table, Selecting(plan, Position(token))));
    OrderBySorted(plan.col, plan.desc, Where(table, Selecting(plan, Some(CursorFor(plan, rest[j])))));
    forall x ensures x in after <==> x in rest[j + 1..] {
      if x in after {
        RemainsAfter(table, plan, token, j, x);
      }
      if x in rest[j + 1..] {
        LaterRemains(table, plan, token, j, x);
      }
    }
    SortedUnique(plan.col, plan.desc, after, rest[j + 1..]);
  }

  lemma RemainsAfter(table: Table, plan: Plan, token: Token, j: nat, x: Row)
    requires Pageable(table, plan) && Usable(plan, token) && j < |Remaining(table, plan, Position(token))|
    requires x in Remaining(table, plan, Some(CursorFor(plan, Remaining(table, plan, Position(token))[j])))
    ensures x in Remaining(table, plan, Position(token))[j + 1..]
  {
    var rest := Remaining(table, plan, Position(token));
    OrderBySorted(plan.col, plan.desc, Where(table, Selecting(plan, Position(token))));
    OrderBySorted(plan.col, plan.desc, Where(table, Selecting(plan, Some(CursorFor(plan, rest[j])))));
    assert rest[j] in rest;
    assert x in rest;
    var k :| 0 <= k < |rest| && rest[k] == x;
    assert k < j ==> Before(plan.col, plan.desc, rest[k], rest[j]);
    assert rest[j + 1..][k - j - 1] == x;
  }

  lemma LaterRemains(table: Table, plan: Plan, token: Token, j: nat, x: Row)
    requires Pageable(table, plan) && Usable(plan, token) && j < |Remaining(table, plan, Position(token))|
    requires x in Remaining(table, plan, Position(token))[j + 1..]
    ensures x in Remaining(table, plan, Some(CursorFor(plan, Remaining(table, plan, Position(token))[j])))
  {
    var rest := Remaining(table, plan, Position(token));
    OrderBySorted(plan.col, plan.desc, Where(table, Selecting(plan, Position(token))));
    OrderBySorted(plan.col, plan.desc, Where(table, Selecting(plan, Some(CursorFor(plan, rest[j])))));
    assert rest[j] in rest;
    var k :| 0 <= k < |rest[j + 1..]| && rest[j + 1..][k] == x;
    assert x == rest[j + 1 + k] && x in rest;
    assert Before(plan.col, plan.desc, rest[j], rest[j + 1 + k]);
  }

  function Items(turns: seq<Shown>): (items: seq<Table>)
    ensures |items| == |turns| && forall k :: 0 <= k < |turns| ==> items[k] == turns[k].items
  {
    if turns == [] then [] else [turns[0].items] + Items(turns[1..])
  }

  /** The step of the induction below. */
  lemma FollowNext(tables: seq<Table>, plan: Plan, token: Token, s: Shown)
    requires plan.limit >= 1 && tables != [] && s == Turn(tables[0], plan, token) && s.next != NoCursor
    ensures Items(Turns(tables, plan, token)) == [s.items] + Items(Turns(tables[1..], plan, s.next))
    ensures Ended(Turns(tables[1..], plan, s.next)) ==> Ended(Turns(tables, plan, token))
  {
    assert Turns(tables, plan, token) == [s] + Turns(tables[1..], plan, s.next);
    assert Turns(tables, plan, token)[1..] == Turns(tables[1..], plan, s.next);
  }

  /** The turns show exactly these slices and end. */
  ghost predicate ShowsSlices(turns: seq<Shown>, rest: Table, limit: nat)
    requires limit >= 1
  {
    Ended(turns) && Items(turns) == Slices(rest, limit)
  }

  lemma UnchangedStep(tables: seq<Table>, plan: Plan, token: Token, rest: Table)
    requires plan.limit >= 1 && tables != [] && |rest| > plan.limit
    requires rest == Remaining(tables[0], plan, Position(token))
    requires ShowsSlices(Turns(tables[1..], plan, Turn(tables[0], plan, token).next), rest[plan.limit..], plan.limit)
    ensures ShowsSlices(Turns(tables, plan, token), rest, plan.limit)
  {
    var s := Turn(tables[0], plan, token);
    assert s.items == rest[..plan.limit];
    FollowNext(tables, plan, token, s);
  }

  /** After a full page the rows still to come are the rest. */
  lemma NextRest(table: Table, plan: Plan, token: Token, rest: Table, next: Token)
    requires plan.limit >= 1 && Pageable(table, plan) && Usable(plan, token) && |rest| > plan.limit
    requires rest == Remaining(table, plan, Position(token)) && next == NextToken(plan, rest)
    ensures rest[plan.limit..] == Remaining(table, plan, Position(next))
  {
    assert Position(next) == Some(CursorFor(plan, rest[plan.limit - 1]));
    RemainingIsSuffix(table, plan, token, plan.limit - 1);
  }

  /** And one slice fewer. */
  lemma NextSlice(table: Table, plan: Plan, token: Token, rest: Table)
    requires plan.limit >= 1 && Pageable(table, plan) && Usable(plan, token) && |rest| > plan.limit
    requires rest == Remaining(table, plan, Position(token))
    ensures var next := Turn(table, plan, token).next;
            && next != NoCursor && Usable(plan, next)
            && rest[plan.limit..] == Remaining(table, plan, Position(next))
    ensures |Slices(rest, plan.limit)| == 1 + |Slices(rest[plan.limit..], plan.limit)|
  {
    NextUsable(table, plan, token);
    NextRest(table, plan, token, rest, NextToken(plan, rest));
  }

  lemma {:induction false} UnchangedTurns(tables: seq<Table>, table: Table, plan: Plan, token: Token, rest: Table)
    requires plan.limit >= 1 && Pageable(table, plan) && Usable(plan, token)
    requires forall i :: 0 <= i < |tables| ==> tables[i] == table
    requires rest == Remaining(table, plan, Position(token))
    requires |tables| >= |Slices(rest, plan.limit)|
    ensures ShowsSlices(Turns(tables, plan, token), rest, plan.limit)
    decreases |tables|
  {
    SlicesNonEmpty(rest, plan.limit);
    if |rest| > plan.limit {
      NextSlice(table, plan, token, rest);
      UnchangedTurns(tables[1..], table, plan, Turn(table, plan, token).next, rest[plan.limit..]);
      UnchangedStep(tables, plan, token, rest);
    } else {
      LastTurn(tables, plan, token, rest);
    }
  }

  lemma LastTurn(tables: seq<Table>, plan: Plan, token: Token, rest: Table)
    requires plan.limit >= 1 && tables != [] && |rest| <= plan.limit
    requires rest == Remaining(tables[0], plan, Position(token))
    ensures ShowsSlices(Turns(tables, plan, token), rest, plan.limit)
  {
    assert Turns(tables, plan, token) == [Shown(rest, NoCursor)];
  }

  /** The filtered rows of a table in page order. */
  function Listing(table: Table, plan: Plan): Table {
    OrderBy(plan.col, plan.desc, Where(table, plan.accepts))
  }

  /** Main result: over an unchanged table, following `next` from the empty cursor ends after as many pages as there
      are slices, page k is the k-th slice of the filtered rows in order, and together they are those rows, each
      once. */
  lemma UnchangedWalk(tables: seq<Table>, table: Table, q: Query, columns: map<string, string>, summaryBy: string)
    requires Valid(q, columns, summaryBy) && Pageable(table, ThePlan(q, columns)) && q.cursor == NoCursor
    requires forall i :: 0 <= i < |tables| ==> tables[i] == table
    requires |tables| >= |Slices(Listing(table, ThePlan(q, columns)), ThePlan(q, columns).limit)|
    ensures var plan := ThePlan(q, columns);
            var slices := Slices(Listing(table, plan), plan.limit);
            var walk := Walk(tables, q, columns, summaryBy);
            && |walk| == |slices| && Finished(walk)
            && (forall k :: 0 <= k < |walk| ==> walk[k].Success? && walk[k].value.items == slices[k])
            && Flatten(slices) == Listing(table, plan) && Sorted(plan.col, plan.desc, Listing(table, plan))
  {
    var plan := ThePlan(q, columns);
    var all := Listing(table, plan);
    WhereAgree(table, plan.accepts, Selecting(plan, None));
    assert all == Remaining(table, plan, None);
    WalkIsTurns(tables, q, columns, summaryBy);
    UnchangedTurns(tables, table, plan, NoCursor, all);
    FlattenSlices(all, plan.limit);
    OrderBySorted(plan.col, plan.desc, Where(table, plan.accepts));
  }

  // ----- A table that changes between pages -----

  function CountId(rows: Table, id: nat): nat {
    if rows == [] then 0 else (if rows[0].id == id then 1 else 0) + CountId(rows[1..], id)
  }

  /** How often a row with this id is returned. */
  function Returned(walk: seq<Result<Page, Error>>, id: nat): nat {
    if walk == [] then 0
    else (if walk[0].Success? then CountId(walk[0].value.items, id) else 0) + Returned(walk[1..], id)
  }

  /** The table holds a row with this id, this sort value, and the filters accept it. */
  ghost predicate Holds(table: Table, plan: Plan, id: nat, v: int) {
    exists row :: row in table && row.id == id && Cell(row, plan.col) == V(v) && plan.accepts(row)
  }

  /** The key has not been reached by the cursor. */
  predicate Ahead(plan: Plan, token: Token, id: nat, v: int) {
    token.Encoded? ==> KeyBefore(plan.desc, token.cursor.sortValue, token.cursor.id, V(v), id)
  }

  lemma {:induction false} CountIdAbsent(rows: Table, id: nat)
    requires forall x :: x in rows ==> x.id != id
    ensures CountId(rows, id) == 0
  {
    if rows != [] {
      CountIdAbsent(rows[1..], id);
    }
  }

  lemma {:induction false} CountIdOnce(rows: Table, row: Row)
    requires row in rows
    requires forall i, j :: 0 <= i < j < |rows| ==> rows[i].id != rows[j].id
    ensures CountId(rows, row.id) == 1
  {
    if rows[0] == row {
      CountIdAbsent(rows[1..], row.id);
    } else {
      assert row in rows[1..];
      CountIdOnce(rows[1..], row);
    }
  }

  /** A sorted listing of rows with unique ids repeats no id. */
  lemma RemainingUniqueIds(table: Table, plan: Plan, c: Option<Cursor>)
    requires UniqueIds(table)
    ensures UniqueIds(Remaining(table, plan, c)) && Sorted(plan.col, plan.desc, Remaining(table, plan, c))
  {
    var rows := Where(table, Selecting(plan, c));
    OrderBySorted(plan.col, plan.desc, rows);
    var sorted := Remaining(table, plan, c);
    forall i, j | 0 <= i < j < |sorted| ensures sorted[i].id != sorted[j].id {
      assert sorted[i] in rows && sorted[j] in rows;
      var a :| 0 <= a < |rows| && rows[a] == sorted[i];
      var b :| 0 <= b < |rows| && rows[b] == sorted[j];
      assert Before(plan.col, plan.desc, sorted[i], sorted[j]);
      assert a != b;
      assert if a < b then rows[a].id != rows[b].id else rows[b].id != rows[a].id;
    }
  }

  /** A stable row that the cursor has passed is neither on the page nor ahead of the next cursor. */
  lemma PassedStaysPassed(table: Table, plan: Plan, token: Token, id: nat, v: int)
    requires Pageable(table, plan) && Usable(plan, token) && Holds(table, plan, id, v) && plan.limit >= 1
    requires !Ahead(plan, token, id, v)
    ensures CountId(Turn(table, plan, token).items, id) == 0
    ensures Turn(table, plan, token).next != NoCursor ==> !Ahead(plan, Turn(table, plan, token).next, id, v)
  {
    var rest := Remaining(table, plan, Position(token));
    var row :| row in table && row.id == id && Cell(row, plan.col) == V(v) && plan.accepts(row);
    forall x | x in rest ensures x.id != id {
      if x.id == id {
        SameIdSameRow(table, x, row);
      }
    }
    CountIdAbsent(Take(rest, plan.limit), id);
    if |rest| > plan.limit {
      assert rest[plan.limit - 1] in rest;
    }
  }

  /** Where a stable row ahead of the cursor stands among the rows still to come. */
  lemma AheadRemains(table: Table, plan: Plan, token: Token, id: nat, v: int) returns (m: nat)
    requires Pageable(table, plan) && Usable(plan, token) && Holds(table, plan, id, v) && Ahead(plan, token, id, v)
    ensures var rest := Remaining(table, plan, Position(token));
            m < |rest| && rest[m].id == id && Cell(rest[m], plan.col) == V(v)
  {
    var rest := Remaining(table, plan, Position(token));
    OrderBySorted(plan.col, plan.desc, Where(table, Selecting(plan, Position(token))));
    var row :| row in table && row.id == id && Cell(row, plan.col) == V(v) && plan.accepts(row);
    assert row in rest;
    m :| 0 <= m < |rest| && rest[m] == row;
  }

  lemma OnPage(rest: Table, plan: Plan, m: nat, v: int)
    requires UniqueIds(rest) && Sorted(plan.col, plan.desc, rest) && m < |rest| && m < plan.limit
    requires Cell(rest[m], plan.col) == V(v)
    ensures CountId(Take(rest, plan.limit), rest[m].id) == 1
    ensures NextToken(plan, rest) != NoCursor ==> !Ahead(plan, NextToken(plan, rest), rest[m].id, v)
  {
    assert Take(rest, plan.limit)[m] == rest[m];
    CountIdOnce(Take(rest, plan.limit), rest[m]);
    if |rest| > plan.limit && m < plan.limit - 1 {
      assert Before(plan.col, plan.desc, rest[m], rest[plan.limit - 1]);
    }
  }

  lemma BeyondPage(rest: Table, plan: Plan, m: nat, v: int)
    requires UniqueIds(rest) && Sorted(plan.col, plan.desc, rest) && 1 <= plan.limit <= m < |rest|
    requires Cell(rest[m], plan.col) == V(v)
    ensures CountId(Take(rest, plan.limit), rest[m].id) == 0
    ensures NextToken(plan, rest) != NoCursor && Ahead(plan, NextToken(plan, rest), rest[m].id, v)
  {
    assert Before(plan.col, plan.desc, rest[plan.limit - 1], rest[m]);
    CountIdAbsentPrefix(rest, plan.limit, m);
  }

  /** A stable row ahead of the cursor is either on the page, and then passed by the next cursor, or still ahead. */
  lemma AheadIsShownOrStaysAhead(table: Table, plan: Plan, token: Token, id: nat, v: int)
    requires Pageable(table, plan) && Usable(plan, token) && Holds(table, plan, id, v) && plan.limit >= 1
    requires Ahead(plan, token, id, v)
    ensures var s := Turn(table, plan, token);
            if CountId(s.items, id) == 0 then s.next != NoCursor && Ahead(plan, s.next, id, v)
            else CountId(s.items, id) == 1 && (s.next != NoCursor ==> !Ahead(plan, s.next, id, v))
  {
    var rest := Remaining(table, plan, Position(token));
    RemainingUniqueIds(table, plan, Position(token));
    var m := AheadRemains(table, plan, token, id, v);
    if m < plan.limit {
      OnPage(rest, plan, m, v);
    } else {
      BeyondPage(rest, plan, m, v);
    }
  }

  lemma CountIdAbsentPrefix(rows: Table, n: nat, m: nat)
    requires UniqueIds(rows) && n <= m < |rows|
    ensures CountId(rows[..n], rows[m].id) == 0
  {
    CountIdAbsent(rows[..n], rows[m].id);
  }

  lemma SameIdSameRow(table: Table, x: Row, y: Row)
    requires UniqueIds(table) && x in table && y in table && x.id == y.id
    ensures x == y
  {
    var a :| 0 <= a < |table| && table[a] == x;
    var b :| 0 <= b < |table| && table[b] == y;
  }

  function ShownCount(turns: seq<Shown>, id: nat): nat {
    if turns == [] then 0 else CountId(turns[0].items, id) + ShownCount(turns[1..], id)
  }

  /** What a walk from a cursor shows of a stable row: once at most while it is ahead, exactly once if the walk ends;
      never again once it is passed. */
  ghost predicate ShownRightly(plan: Plan, token: Token, turns: seq<Shown>, id: nat, v: int) {
    if Ahead(plan, token, id, v) then ShownCount(turns, id) <= 1 && (Ended(turns) ==> ShownCount(turns, id) == 1)
    else ShownCount(turns, id) == 0
  }

  /** One turn: a row ahead is shown and passed, or stays ahead; a passed one stays passed. */
  ghost predicate TurnRight(plan: Plan, token: Token, s: Shown, id: nat, v: int) {
    if !Ahead(plan, token, id, v) then CountId(s.items, id) == 0 && (s.next != NoCursor ==> !Ahead(plan, s.next, id, v))
    else if CountId(s.items, id) == 0 then s.next != NoCursor && Ahead(plan, s.next, id, v)
    else CountId(s.items, id) == 1 && (s.next != NoCursor ==> !Ahead(plan, s.next, id, v))
  }

  lemma TurnIsRight(table: Table, plan: Plan, token: Token, id: nat, v: int)
    requires Pageable(table, plan) && Usable(plan, token) && Holds(table, plan, id, v) && plan.limit >= 1
    ensures TurnRight(plan, token, Turn(table, plan, token), id, v)
  {
    if Ahead(plan, token, id, v) {
      AheadIsShownOrStaysAhead(table, plan, token, id, v);
    } else {
      PassedStaysPassed(table, plan, token, id, v);
    }
  }

  lemma FirstTurn(plan: Plan, token: Token, s: Shown, rest: seq<Shown>, id: nat, v: int)
    requires TurnRight(plan, token, s, id, v)
    requires if s.next == NoCursor then rest == [] else ShownRightly(plan, s.next, rest, id, v)
    ensures ShownRightly(plan, token, [s] + rest, id, v)
  {
    assert ([s] + rest)[1..] == rest;
  }

  lemma {:induction false} ChangingTurns(tables: seq<Table>, plan: Plan, token: Token, id: nat, v: int)
    requires plan.limit >= 1 && Usable(plan, token)
    requires forall i :: 0 <= i < |tables| ==> Pageable(tables[i], plan) && Holds(tables[i], plan, id, v)
    ensures ShownRightly(plan, token, Turns(tables, plan, token), id, v)
    decreases |tables|
  {
    if tables != [] {
      var s := Turn(tables[0], plan, token);
      TurnIsRight(tables[0], plan, token, id, v);
      if s.next != NoCursor {
        NextUsable(tables[0], plan, token);
        ChangingTurns(tables[1..], plan, s.next, id, v);
      }
      FirstTurn(plan, token, s, if s.next != NoCursor then Turns(tables[1..], plan, s.next) else [], id, v);
    }
  }

  lemma NextUsable(table: Table, plan: Plan, token: Token)
    requires plan.limit >= 1 && Pageable(table, plan)
    ensures Usable(plan, Turn(table, plan, token).next)
  {
    var rest := Remaining(table, plan, Position(token));
    if |rest| > plan.limit {
      assert rest[plan.limit - 1] in rest;
    }
  }

  lemma {:induction false} ReturnedIsShown(walk: seq<Result<Page, Error>>, turns: seq<Shown>, id: nat)
    requires |walk| == |turns|
    requires forall k :: 0 <= k < |walk| ==> walk[k].Success? && walk[k].value.items == turns[k].items
    ensures Returned(walk, id) == ShownCount(turns, id)
  {
    if walk != [] {
      ReturnedIsShown(walk[1..], turns[1..], id);
    }
  }

  /** Main result: whatever is inserted, deleted or changed between the pages, a walk never fails, and a row that is
      there at every fetch with the same sort value and accepted by the filters is returned at most once, and exactly
      once if the walk finishes. */
  lemma ChangingWalk(tables: seq<Table>, q: Query, columns: map<string, string>, summaryBy: string, id: nat, v: int)
    requires Valid(q, columns, summaryBy) && q.cursor == NoCursor
    requires forall i :: 0 <= i < |tables| ==>
               Pageable(tables[i], ThePlan(q, columns)) && Holds(tables[i], ThePlan(q, columns), id, v)
    ensures var walk := Walk(tables, q, columns, summaryBy);
            && (forall k :: 0 <= k < |walk| ==> walk[k].Success?)
            && Returned(walk, id) <= 1
            && (Finished(walk) ==> Returned(walk, id) == 1)
  {
    var plan := ThePlan(q, columns);
    WalkIsTurns(tables, q, columns, summaryBy);
    ChangingTurns(tables, plan, NoCursor, id, v);
    ReturnedIsShown(Walk(tables, q, columns, summaryBy), Turns(tables, plan, NoCursor), id);
  }

  // ----- Why the sort column must not be null, and what the summary counts -----

  /** A next cursor taken from a row works on any table exactly if that row's sort value is not null. */
  lemma NextCursorWorksExactly(table: Table, row: Row, q: Query, columns: map<string, string>, summaryBy: string)
    requires Valid(q, columns, summaryBy) && q.cursor == Encoded(CursorFor(ThePlan(q, columns), row))
    ensures ApplySpec(table, q, columns, summaryBy).Success? <==> Cell(row, ThePlan(q, columns).col).V?
    ensures Cell(row, ThePlan(q, columns).col).Null? ==>
              ApplySpec(table, q, columns, summaryBy) == Failure(NullSortValue)
  {
    var plan := ThePlan(q, columns);
    assert SummarySpec(q, Where(table, plan.accepts), DEFAULT_COLUMNS + columns, summaryBy).Success?;
  }

  function CountIn(rows: Table, col: string, vs: set<Value>): nat {
    if rows == [] then 0 else (if Cell(rows[0], col) in vs then 1 else 0) + CountIn(rows[1..], col, vs)
  }

  ghost function SumOver(groups: map<Value, nat>, vs: set<Value>): nat
    requires vs <= groups.Keys
  {
    if vs == {} then 0
    else
      var v :| v in vs;
      groups[v] + SumOver(groups, vs - {v})
  }

  lemma {:induction false} CountInSplit(rows: Table, col: string, vs: set<Value>, v: Value)
    requires v in vs
    ensures CountIn(rows, col, vs) == Count(rows, col, v) + CountIn(rows, col, vs - {v})
  {
    if rows != [] {
      CountInSplit(rows[1..], col, vs, v);
    }
  }

  lemma {:induction false} CountInNone(rows: Table, col: string)
    ensures CountIn(rows, col, {}) == 0
  {
    if rows != [] {
      CountInNone(rows[1..], col);
    }
  }

  lemma {:induction false} SumIsCountIn(rows: Table, col: string, vs: set<Value>)
    requires vs <= DistinctValues(rows, col)
    ensures SumOver(Groups(rows, col), vs) == CountIn(rows, col, vs)
    decreases vs
  {
    if vs == {} {
      CountInNone(rows, col);
    } else {
      var v :| v in vs && SumOver(Groups(rows, col), vs) == Groups(rows, col)[v] + SumOver(Groups(rows, col), vs - {v});
      CountInSplit(rows, col, vs, v);
      SumIsCountIn(rows, col, vs - {v});
    }
  }

  /** The group counts of the summary add up to the rows whose summary column is not null, whatever the cursor. */
  lemma GroupsPartition(rows: Table, col: string)
    ensures SumOver(Groups(rows, col), Groups(rows, col).Keys) == CountIn(rows, col, DistinctValues(rows, col))
    ensures forall row :: row in rows ==> (Cell(row, col) in DistinctValues(rows, col) <==> Cell(row, col).V?)
  {
    assert Groups(rows, col).Keys == DistinctValues(rows, col);
    SumIsCountIn(rows, col, DistinctValues(rows, col));
  }
}
