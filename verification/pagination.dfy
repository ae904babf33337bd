/** `Apply` of backend/internal/pagination/pagination.go: one page of a filtered, sorted, cursor-paged search. */
module Pagination {
  import opened Wrappers
  import opened KeysetOrder

  datatype Cursor = Cursor(sortColumn: string, sortValue: Value, id: nat)

  /** The opaque cursor string: empty, not decodable, or the encoding of a cursor (JSON in base64, section 5 of
      RFC 4648, taken as an exact round trip). */
  datatype Token = NoCursor | Malformed | Encoded(cursor: Cursor)

  datatype Sort = Sort(column: string, direction: string)

  datatype Filter = Equal(value: Value) | OneOf(values: seq<Value>)

  datatype DateRange = DateRange(field: string, from: Option<int>, to: Option<int>)

  datatype Query = Query(cursor: Token, limit: int, sort: Option<Sort>, filters: map<string, Filter>,
                         dateRange: Option<DateRange>, includeSummary: bool)

  datatype Error =
    | InvalidSortColumn
    | InvalidDirection
    | InvalidFilterColumn
    | InvalidDateColumn
    | InvalidSummaryColumn
    | InvalidCursor
    | CursorColumnMismatch
    | NullSortValue

  datatype Summary = Summary(total: nat, groups: Option<map<Value, nat>>)

  datatype Page = Page(items: Table, limit: nat, hasMore: bool, cursor: Token, next: Token, summary: Option<Summary>)

  const DEFAULT_COLUMNS := map["id" := "id", "created_at" := "created_at", "updated_at" := "updated_at",
                               "status" := "status"]

  function ClampLimit(requested: int): nat {
    if requested < 1 then 20 else if requested > 100 then 100 else requested
  }

  // ----- The query, read off the request -----

  function SortColumn(cols: map<string, string>, sort: Option<Sort>): Result<string, Error>
    requires "created_at" in cols
  {
    if sort.None? || sort.value.column == "" then Success(cols["created_at"])
    else if sort.value.column !in cols then Failure(InvalidSortColumn)
    else Success(cols[sort.value.column])
  }

  function Descending(sort: Option<Sort>): Result<bool, Error> {
    if sort.None? || sort.value.direction == "" || sort.value.direction == "desc" then Success(true)
    else if sort.value.direction == "asc" then Success(false)
    else Failure(InvalidDirection)
  }

  /** `col = ?` and `col IN ?`; SQL comparisons with null are never true. */
  predicate Passes(filter: Filter, cell: Value) {
    cell.V? && match filter
               case Equal(v) => cell == v
               case OneOf(vs) => cell in vs
  }

  /** The row passes the filters on the columns in `done`. */
  predicate PassesSome(cols: map<string, string>, filters: map<string, Filter>, done: set<string>, row: Row)
    requires done <= cols.Keys
  {
    forall key :: key in filters && key in done ==> Passes(filters[key], Cell(row, cols[key]))
  }

  predicate PassesAll(cols: map<string, string>, filters: map<string, Filter>, row: Row)
    requires filters.Keys <= cols.Keys
  {
    PassesSome(cols, filters, filters.Keys, row)
  }

  function DateColumn(cols: map<string, string>, range: DateRange): Result<string, Error>
    requires "created_at" in cols
  {
    if range.field == "" then Success(cols["created_at"])
    else if range.field !in cols then Failure(InvalidDateColumn)
    else Success(cols[range.field])
  }

  predicate InRange(range: DateRange, cell: Value) {
    && (range.from.Some? ==> cell.V? && cell.n >= range.from.value)
    && (range.to.Some? ==> cell.V? && cell.n <= range.to.value)
  }

  function RangeColumn(cols: map<string, string>, range: Option<DateRange>): Result<string, Error>
    requires "created_at" in cols
  {
    if range.None? then Success(cols["created_at"]) else DateColumn(cols, range.value)
  }

  /** The row passes every filter and the date range. */
  predicate Wanted(cols: map<string, string>, filters: map<string, Filter>, range: Option<DateRange>, row: Row)
    requires "created_at" in cols && filters.Keys <= cols.Keys && RangeColumn(cols, range).Success?
  {
    PassesAll(cols, filters, row)
    && (range.Some? ==> InRange(range.value, Cell(row, RangeColumn(cols, range).value)))
  }

  function Wanting(cols: map<string, string>, filters: map<string, Filter>, range: Option<DateRange>): Row -> bool
    requires "created_at" in cols && filters.Keys <= cols.Keys && RangeColumn(cols, range).Success?
  {
    (row: Row) => Wanted(cols, filters, range, row)
  }

  /** A well-formed query: which rows it asks for, in which order, how many at a time. */
  datatype Plan = Plan(col: string, desc: bool, limit: nat, accepts: Row -> bool)

  function PlanOf(q: Query, cols: map<string, string>): Result<Plan, Error>
    requires "created_at" in cols
  {
    var col := SortColumn(cols, q.sort);
    if col.Failure? then Failure(col.error) else
    var desc := Descending(q.sort);
    if desc.Failure? then Failure(desc.error) else
    if !(q.filters.Keys <= cols.Keys) then Failure(InvalidFilterColumn) else
    var range := RangeColumn(cols, q.dateRange);
    if range.Failure? then Failure(range.error) else
    Success(Plan(col.value, desc.value, ClampLimit(q.limit), Wanting(cols, q.filters, q.dateRange)))
  }

  // ----- The cursor -----

  /** `(col, id) > (v, id')`, or `<` when descending; the row comparison is not true of a null cell. */
  predicate Past(plan: Plan, c: Cursor, row: Row) {
    Cell(row, plan.col).V? && KeyBefore(plan.desc, c.sortValue, c.id, Cell(row, plan.col), row.id)
  }

  function CheckCursor(plan: Plan, token: Token): Result<Option<Cursor>, Error> {
    match token
    case NoCursor => Success(None)
    case Malformed => Failure(InvalidCursor)
    case Encoded(c) =>
      if c.sortColumn != "" && c.sortColumn != plan.col then Failure(CursorColumnMismatch)
      else if c.sortValue.Null? then Failure(NullSortValue)
      else Success(Some(c))
  }

  function Selected(plan: Plan, cursor: Option<Cursor>, row: Row): bool {
    plan.accepts(row) && (cursor.Some? ==> Past(plan, cursor.value, row))
  }

  function Selecting(plan: Plan, cursor: Option<Cursor>): Row -> bool {
    (row: Row) => Selected(plan, cursor, row)
  }

  /** Every row past the cursor, in order. */
  function Remaining(table: Table, plan: Plan, cursor: Option<Cursor>): Table {
    OrderBy(plan.col, plan.desc, Where(table, Selecting(plan, cursor)))
  }

  function Take(rows: Table, n: nat): Table {
    if |rows| <= n then rows else rows[..n]
  }

  function CursorFor(plan: Plan, row: Row): Cursor {
    Cursor(plan.col, Cell(row, plan.col), row.id)
  }

  function PageFrom(plan: Plan, token: Token, fetched: Table, summary: Option<Summary>): Page {
    var hasMore := |fetched| > plan.limit;
    var items := Take(fetched, plan.limit);
    Page(items, plan.limit, hasMore, token,
         if hasMore && |items| > 0 then Encoded(CursorFor(plan, items[|items| - 1])) else NoCursor, summary)
  }

  // ----- The summary -----

  function Count(rows: Table, col: string, v: Value): nat {
    if rows == [] then 0 else (if Cell(rows[0], col) == v then 1 else 0) + Count(rows[1..], col, v)
  }

  function DistinctValues(rows: Table, col: string): set<Value> {
    set row | row in rows && Cell(row, col).V? :: Cell(row, col)
  }

  function Groups(rows: Table, col: string): map<Value, nat> {
    map v | v in DistinctValues(rows, col) :: Count(rows, col, v)
  }

  function BuildSummarySpec(rows: Table, cols: map<string, string>, summaryBy: string): Result<Summary, Error> {
    if summaryBy == "" then Success(Summary(|rows|, None))
    else if summaryBy !in cols then Failure(InvalidSummaryColumn)
    else Success(Summary(|rows|, Some(Groups(rows, cols[summaryBy]))))
  }

  // ----- Apply -----

  function SummarySpec(q: Query, rows: Table, cols: map<string, string>,
                       summaryBy: string): Result<Option<Summary>, Error>
  {
    if !q.includeSummary then Success(None)
    else match BuildSummarySpec(rows, cols, summaryBy)
      case Success(s) => Success(Some(s))
      case Failure(e) => Failure(e)
  }

  /** One page over the merged column map `cols`. */
  function SearchSpec(table: Table, q: Query, cols: map<string, string>, summaryBy: string): Result<Page, Error>
    requires "created_at" in cols
  {
    var plan := PlanOf(q, cols);
    if plan.Failure? then Failure(plan.error) else
    var summary := SummarySpec(q, Where(table, plan.value.accepts), cols, summaryBy);
    if summary.Failure? then Failure(summary.error) else
    var cursor := CheckCursor(plan.value, q.cursor);
    if cursor.Failure? then Failure(cursor.error) else
    Success(PageFrom(plan.value, q.cursor, Take(Remaining(table, plan.value, cursor.value), plan.value.limit + 1),
                     summary.value))
  }

  /** The caller's columns override the default ones. */
  function ApplySpec(table: Table, q: Query, columns: map<string, string>, summaryBy: string): Result<Page, Error> {
    SearchSpec(table, q, DEFAULT_COLUMNS + columns, summaryBy)
  }

  /** The filter loop: narrows the rows by one filter after another, in whatever order the map yields them. */
  method ApplyFilters(table: Table, filters: map<string, Filter>, cols: map<string, string>)
    returns (r: Result<Table, Error>)
    ensures filters.Keys <= cols.Keys ==> r == Success(Where(table, (row: Row) => PassesAll(cols, filters, row)))
    ensures !(filters.Keys <= cols.Keys) ==> r == Failure(InvalidFilterColumn)
  {
    var filtered := table;
    var rest := filters.Keys;
    ghost var done: set<string> := {};
    WhereAll(table, (row: Row) => PassesSome(cols, filters, {}, row));
    while rest != {}
      invariant done !! rest && done + rest == filters.Keys && done <= cols.Keys
      invariant filtered == Where(table, (row: Row) => PassesSome(cols, filters, done, row))
      decreases rest
    {
      var key :| key in rest;
      if key !in cols {
        return Failure(InvalidFilterColumn);
      }
      WhereWhere(table, (row: Row) => PassesSome(cols, filters, done, row),
                 (row: Row) => Passes(filters[key], Cell(row, cols[key])),
                 (row: Row) => PassesSome(cols, filters, done + {key}, row));
      filtered := Where(filtered, (row: Row) => Passes(filters[key], Cell(row, cols[key])));
      rest := rest - {key};
      done := done + {key};
    }
    WhereAgree(table, (row: Row) => PassesSome(cols, filters, done, row), (row: Row) => PassesAll(cols, filters, row));
    return Success(filtered);
  }

  /** The filters and the date range, one `Where` after another. */
  method Narrow(table: Table, q: Query, cols: map<string, string>) returns (r: Result<Table, Error>)
    requires "created_at" in cols
    ensures !(q.filters.Keys <= cols.Keys) ==> r == Failure(InvalidFilterColumn)
    ensures q.filters.Keys <= cols.Keys && RangeColumn(cols, q.dateRange).Failure? ==>
              r == Failure(RangeColumn(cols, q.dateRange).error)
    ensures q.filters.Keys <= cols.Keys && RangeColumn(cols, q.dateRange).Success? ==>
              r == Success(Where(table, Wanting(cols, q.filters, q.dateRange)))
  {
    r := ApplyFilters(table, q.filters, cols);
    if r.Failure? {
      return;
    }
    if q.dateRange.Some? {
      var range := q.dateRange.value;
      var rangeCol := cols["created_at"];
      if range.field != "" {
        if range.field !in cols {
          return Failure(InvalidDateColumn);
        }
        rangeCol := cols[range.field];
      }
      WhereWhere(table, (row: Row) => PassesAll(cols, q.filters, row),
                 (row: Row) => InRange(range, Cell(row, rangeCol)), Wanting(cols, q.filters, q.dateRange));
      r := Success(Where(r.value, (row: Row) => InRange(range, Cell(row, rangeCol))));
    } else {
      WhereAgree(table, (row: Row) => PassesAll(cols, q.filters, row), Wanting(cols, q.filters, q.dateRange));
    }
  }

  /** The keyset clause, when the query carries a cursor. */
  method Seek(table: Table, filtered: Table, plan: Plan, token: Token) returns (r: Result<Table, Error>)
    requires filtered == Where(table, plan.accepts)
    ensures CheckCursor(plan, token).Failure? ==> r == Failure(CheckCursor(plan, token).error)
    ensures CheckCursor(plan, token).Success? ==>
              r == Success(Where(table, Selecting(plan, CheckCursor(plan, token).value)))
  {
    if token.NoCursor? {
      WhereAgree(table, plan.accepts, Selecting(plan, None));
      return Success(filtered);
    }
    if token.Malformed? {
      return Failure(InvalidCursor);
    }
    var cur := token.cursor;
    if cur.sortColumn != "" && cur.sortColumn != plan.col {
      return Failure(CursorColumnMismatch);
    }
    if cur.sortValue.Null? {
      return Failure(NullSortValue);
    }
    WhereWhere(table, plan.accepts, (row: Row) => Past(plan, cur, row), Selecting(plan, Some(cur)));
    return Success(Where(filtered, (row: Row) => Past(plan, cur, row)));
  }

  method BuildSummary(rows: Table, cols: map<string, string>, summaryBy: string) returns (r: Result<Summary, Error>)
    ensures r == BuildSummarySpec(rows, cols, summaryBy)
  {
    if summaryBy == "" {
      return Success(Summary(|rows|, None));
    }
    if summaryBy !in cols {
      return Failure(InvalidSummaryColumn);
    }
    var col := cols[summaryBy];
    var rest := DistinctValues(rows, col);
    var grouped: map<Value, nat> := map[];
    while rest != {}
      invariant rest <= DistinctValues(rows, col)
      invariant grouped.Keys == DistinctValues(rows, col) - rest
      invariant forall v :: v in grouped ==> grouped[v] == Count(rows, col, v)
      decreases rest
    {
      var v :| v in rest;
      grouped := grouped[v := Count(rows, col, v)];
      rest := rest - {v};
    }
    assert grouped == Groups(rows, col);
    return Success(Summary(|rows|, Some(grouped)));
  }

  /** The sort column, then the direction; newest first by default. */
  method ReadSort(cols: map<string, string>, sort: Option<Sort>) returns (r: Result<(string, bool), Error>)
    requires "created_at" in cols
    ensures SortColumn(cols, sort).Failure? ==> r == Failure(SortColumn(cols, sort).error)
    ensures SortColumn(cols, sort).Success? && Descending(sort).Failure? ==> r == Failure(Descending(sort).error)
    ensures SortColumn(cols, sort).Success? && Descending(sort).Success? ==>
              r == Success((SortColumn(cols, sort).value, Descending(sort).value))
  {
    var sortCol, sortDesc := cols["created_at"], true;
    if sort.Some? && sort.value.column != "" {
      if sort.value.column !in cols {
        return Failure(InvalidSortColumn);
      }
      sortCol := cols[sort.value.column];
    }
    if sort.Some? {
      if sort.value.direction == "asc" {
        sortDesc := false;
      } else if sort.value.direction != "desc" && sort.value.direction != "" {
        return Failure(InvalidDirection);
      }
    }
    return Success((sortCol, sortDesc));
  }

  /** Fetches limit + 1 rows so that `hasMore` can be told, and keeps limit of them. */
  method Fetch(sought: Table, plan: Plan, token: Token, summary: Option<Summary>) returns (page: Page)
    ensures page == PageFrom(plan, token, Take(OrderBy(plan.col, plan.desc, sought), plan.limit + 1), summary)
  {
    var items := Take(OrderBy(plan.col, plan.desc, sought), plan.limit + 1);
    var hasMore := |items| > plan.limit;
    if hasMore {
      items := items[..plan.limit];
    }
    var next := NoCursor;
    if hasMore && |items| > 0 {
      next := Encoded(CursorFor(plan, items[|items| - 1]));
    }
    return Page(items, plan.limit, hasMore, token, next, summary);
  }

  method Apply(table: Table, q: Query, columns: map<string, string>, summaryBy: string) returns (r: Result<Page, Error>)
    ensures r == ApplySpec(table, q, columns, summaryBy)
  {
    var cols := DEFAULT_COLUMNS + columns;
    var limit := q.limit;
    if limit < 1 {
      limit := 20;
    }
    if limit > 100 {
      limit := 100;
    }
    r := Search(table, q, cols, summaryBy, limit);
  }

  method Search(table: Table, q: Query, cols: map<string, string>, summaryBy: string, limit: nat)
    returns (r: Result<Page, Error>)
    requires "created_at" in cols && limit == ClampLimit(q.limit)
    ensures r == SearchSpec(table, q, cols, summaryBy)
  {
    var order := ReadSort(cols, q.sort);
    if order.Failure? {
      return Failure(order.error);
    }
    var narrowed := Narrow(table, q, cols);
    if narrowed.Failure? {
      return Failure(narrowed.error);
    }
    var plan := Plan(order.value.0, order.value.1, limit, Wanting(cols, q.filters, q.dateRange));
    var summary := None;
    if q.includeSummary {
      var s := BuildSummary(narrowed.value, cols, summaryBy);
      if s.Failure? {
        return Failure(s.error);
      }
      summary := Some(s.value);
    }
    var sought := Seek(table, narrowed.value, plan, q.cursor);
    if sought.Failure? {
      return Failure(sought.error);
    }
    var page := Fetch(sought.value, plan, q.cursor, summary);
    return Success(page);
  }
}
