/** What a page is, in the words of the request: which rows, in which order, how many, and what refuses it. */
module PaginationRequest {
  import opened Wrappers
  import opened KeysetOrder
  import opened Pagination
  import W = PaginationWalk

  // ----- The request, read word by word -----

  /** The column that a name in the request stands for; the caller's names come before the four that always exist. */
  function Named(columns: map<string, string>, name: string): Option<string> {
    if name in columns then Some(columns[name])
    else if name == "id" || name == "created_at" || name == "updated_at" || name == "status" then Some(name)
    else None
  }

  function SortName(q: Query): string {
    if q.sort.None? || q.sort.value.column == "" then "created_at" else q.sort.value.column
  }

  function Direction(q: Query): string {
    if q.sort.None? then "" else q.sort.value.direction
  }

  function DateName(range: DateRange): string {
    if range.field == "" then "created_at" else range.field
  }

  function RowsPerPage(q: Query): nat {
    if q.limit < 1 then 20 else if q.limit > 100 then 100 else q.limit
  }

  /** `(x, xid)` comes before `(y, yid)` going up. */
  predicate Rises(x: Value, xid: nat, y: Value, yid: nat) {
    || (x.Null? && y.V?)
    || (x.V? && y.V? && x.n < y.n)
    || (x == y && xid < yid)
  }

  /** The request puts `(x, xid)` before `(y, yid)`: going up only if it says "asc". */
  predicate First(q: Query, x: Value, xid: nat, y: Value, yid: nat) {
    if Direction(q) == "asc" then Rises(x, xid, y, yid) else Rises(y, yid, x, xid)
  }

  /** The row has the value, or one of the values, that the request asks for under this name. */
  predicate Matches(columns: map<string, string>, name: string, filter: Filter, row: Row) {
    Named(columns, name).Some?
    && var cell := Cell(row, Named(columns, name).value);
       cell != Null && match filter
                       case Equal(v) => cell == v
                       case OneOf(vs) => exists i :: 0 <= i < |vs| && vs[i] == cell
  }

  predicate InDates(columns: map<string, string>, range: DateRange, row: Row) {
    Named(columns, DateName(range)).Some?
    && var cell := Cell(row, Named(columns, DateName(range)).value);
       && (range.from.Some? ==> cell.V? && range.from.value <= cell.n)
       && (range.to.Some? ==> cell.V? && cell.n <= range.to.value)
  }

  /** The request asks for this row, on one page or another. */
  predicate Asked(q: Query, columns: map<string, string>, row: Row) {
    && (forall name :: name in q.filters ==> Matches(columns, name, q.filters[name], row))
    && (q.dateRange.Some? ==> InDates(columns, q.dateRange.value, row))
  }

  /** The cell that the request sorts by. */
  function Key(q: Query, columns: map<string, string>, row: Row): Value
    requires Named(columns, SortName(q)).Some?
  {
    Cell(row, Named(columns, SortName(q)).value)
  }

  /** The row comes after the row that the cursor was made from. */
  predicate AfterCursor(q: Query, columns: map<string, string>, row: Row)
    requires Named(columns, SortName(q)).Some?
  {
    q.cursor.Encoded? ==>
      Key(q, columns, row).V?
      && First(q, q.cursor.cursor.sortValue, q.cursor.cursor.id, Key(q, columns, row), row.id)
  }

  // ----- Which requests are refused, and how -----

  predicate SummaryKnown(q: Query, columns: map<string, string>, summaryBy: string) {
    q.includeSummary && summaryBy != "" ==> Named(columns, summaryBy).Some?
  }

  predicate DatesKnown(q: Query, columns: map<string, string>) {
    q.dateRange.Some? ==> Named(columns, DateName(q.dateRange.value)).Some?
  }

  predicate FiltersKnown(q: Query, columns: map<string, string>) {
    forall name :: name in q.filters ==> Named(columns, name).Some?
  }

  predicate DirectionKnown(q: Query) {
    Direction(q) == "asc" || Direction(q) == "desc" || Direction(q) == ""
  }

  lemma NamedIsLookup(columns: map<string, string>, name: string)
    ensures var cols := DEFAULT_COLUMNS + columns;
            && "created_at" in cols
            && (name in cols <==> Named(columns, name).Some?)
            && (name in cols ==> cols[name] == Named(columns, name).value)
  {
  }

  lemma FiltersKnownExactly(q: Query, columns: map<string, string>)
    ensures q.filters.Keys <= (DEFAULT_COLUMNS + columns).Keys <==> FiltersKnown(q, columns)
  {
    forall name | name in q.filters ensures name in DEFAULT_COLUMNS + columns <==> Named(columns, name).Some? {
      NamedIsLookup(columns, name);
    }
  }

  lemma DatesKnownExactly(q: Query, columns: map<string, string>)
    ensures "created_at" in DEFAULT_COLUMNS + columns
    ensures var range := RangeColumn(DEFAULT_COLUMNS + columns, q.dateRange);
            if DatesKnown(q, columns) then range.Success? else range == Failure(InvalidDateColumn)
  {
    NamedIsLookup(columns, "created_at");
    if q.dateRange.Some? {
      NamedIsLookup(columns, DateName(q.dateRange.value));
    }
  }

  /** Main result: a request is refused for the first of these reasons that applies, in this order, and otherwise
      served. */
  lemma RefusedExactly(table: Table, q: Query, columns: map<string, string>, summaryBy: string)
    ensures var r := ApplySpec(table, q, columns, summaryBy);
            if Named(columns, SortName(q)).None? then r == Failure(InvalidSortColumn)
            else if !DirectionKnown(q) then r == Failure(InvalidDirection)
            else if !FiltersKnown(q, columns) then r == Failure(InvalidFilterColumn)
            else if !DatesKnown(q, columns) then r == Failure(InvalidDateColumn)
            else if !SummaryKnown(q, columns, summaryBy) then r == Failure(InvalidSummaryColumn)
            else if q.cursor.Malformed? then r == Failure(InvalidCursor)
            else if q.cursor.Encoded? && q.cursor.cursor.sortColumn != ""
                    && q.cursor.cursor.sortColumn != Named(columns, SortName(q)).value
            then r == Failure(CursorColumnMismatch)
            else if q.cursor.Encoded? && q.cursor.cursor.sortValue.Null? then r == Failure(NullSortValue)
            else r.Success?
  {
    NamedIsLookup(columns, SortName(q));
    NamedIsLookup(columns, summaryBy);
    FiltersKnownExactly(q, columns);
    DatesKnownExactly(q, columns);
  }

  // ----- What a page shows -----

  /** The rows still to be shown: asked for, and after the cursor. */
  predicate Due(table: Table, q: Query, columns: map<string, string>, row: Row)
    requires Named(columns, SortName(q)).Some?
  {
    row in table && Asked(q, columns, row) && AfterCursor(q, columns, row)
  }

  /** The items of the page are due, stand in the order of the request, and are the first ones of those due. */
  ghost predicate RightItems(table: Table, q: Query, columns: map<string, string>, page: Page)
    requires Named(columns, SortName(q)).Some?
  {
    && (forall i :: 0 <= i < |page.items| ==> Due(table, q, columns, page.items[i]))
    && (forall i, j :: 0 <= i < j < |page.items| ==> Ordered(q, columns, page.items[i], page.items[j]))
    && (forall row :: Due(table, q, columns, row) && row !in page.items ==>
          page.hasMore && forall i :: 0 <= i < |page.items| ==> Ordered(q, columns, page.items[i], row))
  }

  predicate Ordered(q: Query, columns: map<string, string>, a: Row, b: Row)
    requires Named(columns, SortName(q)).Some?
  {
    First(q, Key(q, columns, a), a.id, Key(q, columns, b), b.id)
  }

  /** A full page exactly announces that more is due, and where the next page begins. */
  ghost predicate RightEnd(table: Table, q: Query, columns: map<string, string>, page: Page)
    requires Named(columns, SortName(q)).Some?
  {
    && page.limit == RowsPerPage(q) && page.cursor == q.cursor && |page.items| <= page.limit
    && (page.hasMore <==> exists row :: Due(table, q, columns, row) && row !in page.items)
    && (page.hasMore ==> |page.items| == page.limit)
    && page.next == if !page.hasMore then NoCursor
                    else
                      var last := page.items[|page.items| - 1];
                      Encoded(Cursor(Named(columns, SortName(q)).value, Key(q, columns, last), last.id))
  }

  /** The summary counts the rows asked for, on whatever page, and each value of the summary column among them. */
  ghost predicate RightSummary(table: Table, q: Query, columns: map<string, string>, summaryBy: string, page: Page) {
    && (page.summary.Some? <==> q.includeSummary)
    && (page.summary.Some? ==>
          && page.summary.value.total == |AskedRows(table, q, columns)|
          && (page.summary.value.groups.Some? <==> summaryBy != "")
          && (summaryBy != "" && Named(columns, summaryBy).Some? ==>
                RightGroups(table, q, columns, Named(columns, summaryBy).value, page.summary.value.groups.value)))
  }

  ghost function AskedRows(table: Table, q: Query, columns: map<string, string>): set<Row> {
    set row | row in table && Asked(q, columns, row)
  }

  ghost predicate RightGroups(table: Table, q: Query, columns: map<string, string>, col: string,
                              groups: map<Value, nat>)
  {
    && (forall v :: v in groups <==> v.V? && exists row :: row in AskedRows(table, q, columns) && Cell(row, col) == v)
    && (forall v :: v in groups ==> groups[v] == |set row | row in AskedRows(table, q, columns) && Cell(row, col) == v|)
  }

  // ----- The plan of a request means the same -----

  /** The plan that the code makes of a request agrees with its words. */
  ghost predicate Agrees(q: Query, columns: map<string, string>, plan: Plan) {
    && Named(columns, SortName(q)) == Some(plan.col) && plan.desc == (Direction(q) != "asc")
    && plan.limit == RowsPerPage(q)
    && forall row :: plan.accepts(row) <==> Asked(q, columns, row)
  }

  lemma WantedIsAsked(q: Query, columns: map<string, string>, row: Row)
    requires FiltersKnown(q, columns) && DatesKnown(q, columns)
    ensures var cols := DEFAULT_COLUMNS + columns;
            && "created_at" in cols && q.filters.Keys <= cols.Keys && RangeColumn(cols, q.dateRange).Success?
            && (Wanted(cols, q.filters, q.dateRange, row) <==> Asked(q, columns, row))
  {
    var cols := DEFAULT_COLUMNS + columns;
    NamedIsLookup(columns, "created_at");
    if q.dateRange.Some? {
      NamedIsLookup(columns, DateName(q.dateRange.value));
    }
    forall name | name in q.filters
      ensures name in cols && (Passes(q.filters[name], Cell(row, cols[name])) <==>
                               Matches(columns, name, q.filters[name], row))
    {
      NamedIsLookup(columns, name);
    }
  }

  lemma PlanAgrees(q: Query, columns: map<string, string>)
    requires Named(columns, SortName(q)).Some? && DirectionKnown(q)
    requires FiltersKnown(q, columns) && DatesKnown(q, columns)
    ensures var cols := DEFAULT_COLUMNS + columns;
            "created_at" in cols && PlanOf(q, cols).Success? && Agrees(q, columns, PlanOf(q, cols).value)
  {
    var cols := DEFAULT_COLUMNS + columns;
    NamedIsLookup(columns, SortName(q));
    NamedIsLookup(columns, "created_at");
    forall row ensures
      && q.filters.Keys <= cols.Keys && RangeColumn(cols, q.dateRange).Success?
      && (Wanted(cols, q.filters, q.dateRange, row) <==> Asked(q, columns, row))
    {
      WantedIsAsked(q, columns, row);
    }
  }

  lemma BeforeIsOrdered(q: Query, columns: map<string, string>, plan: Plan, a: Row, b: Row)
    requires Agrees(q, columns, plan)
    ensures Before(plan.col, plan.desc, a, b) <==> Ordered(q, columns, a, b)
  {
  }

  lemma RemainingIsDue(table: Table, q: Query, columns: map<string, string>, plan: Plan, row: Row)
    requires Agrees(q, columns, plan) && CheckCursor(plan, q.cursor).Success?
    ensures row in Remaining(table, plan, CheckCursor(plan, q.cursor).value) <==> Due(table, q, columns, row)
  {
  }

  lemma PageIsRight(table: Table, q: Query, columns: map<string, string>, plan: Plan, summary: Option<Summary>)
    requires UniqueIds(table) && Agrees(q, columns, plan) && CheckCursor(plan, q.cursor).Success?
    ensures var rest := Remaining(table, plan, CheckCursor(plan, q.cursor).value);
            var page := PageFrom(plan, q.cursor, Take(rest, plan.limit + 1), summary);
            RightItems(table, q, columns, page) && RightEnd(table, q, columns, page)
  {
    var cursor := CheckCursor(plan, q.cursor).value;
    var rest := Remaining(table, plan, cursor);
    var page := PageFrom(plan, q.cursor, Take(rest, plan.limit + 1), summary);
    OrderBySorted(plan.col, plan.desc, Where(table, Selecting(plan, cursor)));
    var n := |page.items|;
    assert page.items == rest[..n] && (page.hasMore <==> n < |rest|);
    forall row ensures row in rest <==> Due(table, q, columns, row) {
      RemainingIsDue(table, q, columns, plan, row);
    }
    forall i, j | 0 <= i < j < |rest| ensures Ordered(q, columns, rest[i], rest[j]) && rest[i] != rest[j] {
      BeforeIsOrdered(q, columns, plan, rest[i], rest[j]);
    }
    PrefixIsRight(table, q, columns, page, rest, n);
  }

  lemma PrefixIsRight(table: Table, q: Query, columns: map<string, string>, page: Page, rest: Table, n: nat)
    requires Named(columns, SortName(q)).Some? && n <= |rest| && page.items == rest[..n]
    requires page.hasMore <==> n < |rest|
    requires forall row :: row in rest <==> Due(table, q, columns, row)
    requires forall i, j :: 0 <= i < j < |rest| ==> Ordered(q, columns, rest[i], rest[j]) && rest[i] != rest[j]
    ensures RightItems(table, q, columns, page)
    ensures page.hasMore <==> exists row :: Due(table, q, columns, row) && row !in page.items
  {
    assert forall k :: 0 <= k < n ==> rest[k] in page.items by {
      assert forall k :: 0 <= k < n ==> page.items[k] == rest[k];
    }
    forall row | Due(table, q, columns, row) && row !in page.items
      ensures page.hasMore && forall i :: 0 <= i < n ==> Ordered(q, columns, page.items[i], row)
    {
      var k :| 0 <= k < |rest| && rest[k] == row;
      assert k >= n;
    }
    if page.hasMore {
      assert rest[n] in rest && rest[n] !in page.items;
    }
  }

  // ----- The summary counts the rows asked for -----

  lemma HeadIsFresh(rows: Table)
    requires UniqueIds(rows) && rows != []
    ensures UniqueIds(rows[1..]) && rows[0] !in rows[1..]
    ensures forall row :: row in rows <==> row == rows[0] || row in rows[1..]
  {
    assert forall k :: 0 <= k < |rows[1..]| ==> rows[1..][k] == rows[k + 1];
    assert rows == [rows[0]] + rows[1..];
  }

  ghost function With(rows: Table, col: string, v: Value): set<Row> {
    set row | row in rows && Cell(row, col) == v
  }

  lemma SetStep(all: set<Row>, rest: set<Row>, head: Row, more: bool)
    requires head !in rest && forall row :: row in all <==> row in rest || (more && row == head)
    ensures |all| == |rest| + if more then 1 else 0
  {
    assert all == if more then rest + {head} else rest;
  }

  lemma WithStep(rows: Table, col: string, v: Value)
    requires UniqueIds(rows) && rows != []
    ensures |With(rows, col, v)| == |With(rows[1..], col, v)| + if Cell(rows[0], col) == v then 1 else 0
  {
    HeadIsFresh(rows);
    SetStep(With(rows, col, v), With(rows[1..], col, v), rows[0], Cell(rows[0], col) == v);
  }

  lemma {:induction false} CountIsSize(rows: Table, col: string, v: Value)
    requires UniqueIds(rows)
    ensures Count(rows, col, v) == |With(rows, col, v)|
  {
    if rows != [] {
      HeadIsFresh(rows);
      CountIsSize(rows[1..], col, v);
      WithStep(rows, col, v);
    }
  }

  lemma {:induction false} LengthIsSize(rows: Table)
    requires UniqueIds(rows)
    ensures |rows| == |set row | row in rows|
  {
    if rows != [] {
      HeadIsFresh(rows);
      LengthIsSize(rows[1..]);
      assert (set row | row in rows) == (set row | row in rows[1..]) + {rows[0]};
    }
  }

  lemma TotalIsRight(table: Table, q: Query, columns: map<string, string>, plan: Plan)
    requires UniqueIds(table) && Agrees(q, columns, plan)
    ensures var rows := Where(table, plan.accepts);
            && UniqueIds(rows) && |rows| == |AskedRows(table, q, columns)|
            && forall row :: row in rows <==> row in AskedRows(table, q, columns)
  {
    var rows := Where(table, plan.accepts);
    assert (set row | row in rows) == AskedRows(table, q, columns);
    LengthIsSize(rows);
  }

  lemma SummaryIsRight(table: Table, q: Query, columns: map<string, string>, summaryBy: string, plan: Plan, page: Page)
    requires UniqueIds(table) && Agrees(q, columns, plan) && SummaryKnown(q, columns, summaryBy)
    requires SummarySpec(q, Where(table, plan.accepts), DEFAULT_COLUMNS + columns, summaryBy) == Success(page.summary)
    ensures RightSummary(table, q, columns, summaryBy, page)
  {
    TotalIsRight(table, q, columns, plan);
    NamedIsLookup(columns, summaryBy);
    if q.includeSummary && summaryBy != "" {
      GroupsAreRight(table, q, columns, Where(table, plan.accepts), Named(columns, summaryBy).value);
    }
  }

  lemma GroupsAreRight(table: Table, q: Query, columns: map<string, string>, rows: Table, col: string)
    requires UniqueIds(rows) && forall row :: row in rows <==> row in AskedRows(table, q, columns)
    ensures RightGroups(table, q, columns, col, Groups(rows, col))
  {
    var asked := AskedRows(table, q, columns);
    forall v | v in Groups(rows, col) ensures Groups(rows, col)[v] == |set row | row in asked && Cell(row, col) == v| {
      CountIsSize(rows, col, v);
      assert With(rows, col, v) == set row | row in asked && Cell(row, col) == v;
    }
    forall v: Value | v.V? && exists row :: row in asked && Cell(row, col) == v ensures v in Groups(rows, col) {
      var row :| row in asked && Cell(row, col) == v;
      assert row in rows;
    }
  }

  /** Main result: every page served shows, in the words of the request, the first rows of those asked for after the
      cursor: sorted by the named column, or the creation time, going up only for "asc" and down for "desc", for no
      direction and for no sort at all; it says exactly whether more is due and where the next page begins; and its
      summary counts the rows asked for on all pages. */
  lemma ServedInWords(table: Table, q: Query, columns: map<string, string>, summaryBy: string)
    requires UniqueIds(table) && ApplySpec(table, q, columns, summaryBy).Success?
    ensures Named(columns, SortName(q)).Some?
    ensures var page := ApplySpec(table, q, columns, summaryBy).value;
            && RightItems(table, q, columns, page) && RightEnd(table, q, columns, page)
            && RightSummary(table, q, columns, summaryBy, page)
  {
    RefusedExactly(table, q, columns, summaryBy);
    PlanAgrees(q, columns);
    var cols := DEFAULT_COLUMNS + columns;
    var plan, page := PlanOf(q, cols).value, ApplySpec(table, q, columns, summaryBy).value;
    PageIsRight(table, q, columns, plan, page.summary);
    SummaryIsRight(table, q, columns, summaryBy, plan, page);
  }

  /** Items stand in the order of the request. */
  lemma ItemsInOrder(table: Table, q: Query, columns: map<string, string>, summaryBy: string, i: nat, j: nat)
    requires UniqueIds(table) && ApplySpec(table, q, columns, summaryBy).Success?
    requires i < j < |ApplySpec(table, q, columns, summaryBy).value.items|
    ensures Named(columns, SortName(q)).Some?
    ensures var items := ApplySpec(table, q, columns, summaryBy).value.items; Ordered(q, columns, items[i], items[j])
  {
    ServedInWords(table, q, columns, summaryBy);
  }

  /** So, spelled out: "asc" returns the sort cells in non-decreasing order, */
  lemma AscendingItems(table: Table, q: Query, columns: map<string, string>, summaryBy: string, i: nat, j: nat)
    requires UniqueIds(table) && ApplySpec(table, q, columns, summaryBy).Success? && q.sort.Some?
    requires q.sort.value.direction == "asc" && i < j < |ApplySpec(table, q, columns, summaryBy).value.items|
    ensures Named(columns, SortName(q)).Some?
    ensures var items := ApplySpec(table, q, columns, summaryBy).value.items;
            var x, y := Key(q, columns, items[i]), Key(q, columns, items[j]);
            x.Null? || (y.V? && x.n <= y.n)
  {
    ItemsInOrder(table, q, columns, summaryBy, i, j);
  }

  /** and every other accepted request in non-increasing order. */
  lemma DescendingItems(table: Table, q: Query, columns: map<string, string>, summaryBy: string, i: nat, j: nat)
    requires UniqueIds(table) && ApplySpec(table, q, columns, summaryBy).Success?
    requires q.sort.None? || q.sort.value.direction == "desc" || q.sort.value.direction == ""
    requires i < j < |ApplySpec(table, q, columns, summaryBy).value.items|
    ensures Named(columns, SortName(q)).Some?
    ensures var items := ApplySpec(table, q, columns, summaryBy).value.items;
            var x, y := Key(q, columns, items[i]), Key(q, columns, items[j]);
            y.Null? || (x.V? && x.n >= y.n)
  {
    ItemsInOrder(table, q, columns, summaryBy, i, j);
  }

  /** Sorting by the id itself puts the items in strict order of their ids. */
  lemma ItemsById(table: Table, q: Query, columns: map<string, string>, summaryBy: string, i: nat, j: nat)
    requires UniqueIds(table) && ApplySpec(table, q, columns, summaryBy).Success?
    requires q.sort.Some? && q.sort.value.column == "id" && ("id" in columns ==> columns["id"] == "id")
    requires i < j < |ApplySpec(table, q, columns, summaryBy).value.items|
    ensures var items := ApplySpec(table, q, columns, summaryBy).value.items;
            if q.sort.value.direction == "asc" then items[i].id < items[j].id else items[i].id > items[j].id
  {
    ItemsInOrder(table, q, columns, summaryBy, i, j);
    var items := ApplySpec(table, q, columns, summaryBy).value.items;
    OrderedById(q, columns, items[i], items[j]);
  }

  lemma OrderedById(q: Query, columns: map<string, string>, a: Row, b: Row)
    requires q.sort.Some? && q.sort.value.column == "id" && ("id" in columns ==> columns["id"] == "id")
    requires Named(columns, SortName(q)).Some? && Ordered(q, columns, a, b)
    ensures if q.sort.value.direction == "asc" then a.id < b.id else a.id > b.id
  {
    assert Key(q, columns, a) == V(a.id) && Key(q, columns, b) == V(b.id);
  }

  /** Main result for whole walks: over a table that does not change, the pages of a walk from the empty cursor, one
      after another, list exactly the rows asked for, each once, in the order of the request. */
  lemma WalkInWords(tables: seq<Table>, table: Table, q: Query, columns: map<string, string>, summaryBy: string)
    returns (slices: seq<Table>)
    requires W.Valid(q, columns, summaryBy) && W.Pageable(table, W.ThePlan(q, columns)) && q.cursor == NoCursor
    requires forall i :: 0 <= i < |tables| ==> tables[i] == table
    requires |tables| >= |table| + 1
    ensures Named(columns, SortName(q)).Some?
    ensures var walk := W.Walk(tables, q, columns, summaryBy);
            && W.Finished(walk) && |slices| == |walk|
            && (forall k :: 0 <= k < |walk| ==> walk[k].Success? && walk[k].value.items == slices[k])
    ensures var all := W.Flatten(slices);
            && (forall row :: row in all <==> row in table && Asked(q, columns, row))
            && (forall i, j :: 0 <= i < j < |all| ==> Ordered(q, columns, all[i], all[j]))
  {
    RefusedExactly(table, q, columns, summaryBy);
    W.ApplyTurn(table, q, columns, summaryBy);
    PlanAgrees(q, columns);
    var plan := W.ThePlan(q, columns);
    var all := W.Listing(table, plan);
    slices := W.Slices(all, plan.limit);
    EnoughPages(all, plan.limit);
    W.UnchangedWalk(tables, table, q, columns, summaryBy);
    forall i, j | 0 <= i < j < |all| ensures Ordered(q, columns, all[i], all[j]) {
      BeforeIsOrdered(q, columns, plan, all[i], all[j]);
    }
  }

  lemma {:induction false} EnoughPages(rows: Table, limit: nat)
    requires limit >= 1
    ensures |W.Slices(rows, limit)| <= |rows| + 1
    decreases |rows|
  {
    if |rows| > limit {
      EnoughPages(rows[limit..], limit);
    }
  }
}
