/** Rows, the order that a sorted query puts them in, and the few facts about sorting that keyset paging needs. */
module KeysetOrder {

  /** A column value; integers stand for any totally ordered type whose cursor encoding is exact. */
  datatype Value = Null | V(n: int)

  datatype Row = Row(id: nat, cells: map<string, Value>)

  type Table = seq<Row>

  function Cell(row: Row, col: string): Value {
    if col == "id" then V(row.id) else if col in row.cells then row.cells[col] else Null
  }

  ghost predicate UniqueIds(rows: Table) {
    forall i, j :: 0 <= i < j < |rows| ==> rows[i].id != rows[j].id
  }

  /** Null sorts below every value; the results that matter assume a column without nulls. */
  predicate Below(x: Value, y: Value) {
    y.V? && (x.V? ==> x.n < y.n)
  }

  /** `(x, xid) < (y, yid)`, lexicographically, or the reverse when descending. */
  predicate KeyBefore(desc: bool, x: Value, xid: nat, y: Value, yid: nat) {
    if desc then Below(y, x) || (x == y && yid < xid) else Below(x, y) || (x == y && xid < yid)
  }

  /** `a` comes before `b` under `ORDER BY col, id`. */
  predicate Before(col: string, desc: bool, a: Row, b: Row) {
    KeyBefore(desc, Cell(a, col), a.id, Cell(b, col), b.id)
  }

  /** `WHERE`. */
  function Where(rows: Table, accepts: Row -> bool): (r: Table)
    ensures forall x :: x in r <==> x in rows && accepts(x)
    ensures UniqueIds(rows) ==> UniqueIds(r)
    ensures |r| <= |rows|
  {
    if rows == [] then []
    else
      var rest := Where(rows[1..], accepts);
      assert UniqueIds(rows) ==> UniqueIds(rows[1..]);
      assert UniqueIds(rows) ==> forall x :: x in rest ==> x.id != rows[0].id;
      if accepts(rows[0]) then [rows[0]] + rest else rest
  }

  lemma {:induction false} WhereAgree(rows: Table, p: Row -> bool, q: Row -> bool)
    requires forall x :: x in rows ==> p(x) == q(x)
    ensures Where(rows, p) == Where(rows, q)
  {
    if rows != [] {
      WhereAgree(rows[1..], p, q);
    }
  }

  lemma {:induction false} WhereAll(rows: Table, p: Row -> bool)
    requires forall x :: x in rows ==> p(x)
    ensures Where(rows, p) == rows
  {
    if rows != [] {
      WhereAll(rows[1..], p);
    }
  }

  /** Chained `WHERE` clauses are one conjunction. */
  lemma {:induction false} WhereWhere(rows: Table, p: Row -> bool, q: Row -> bool, both: Row -> bool)
    requires forall x :: x in rows ==> both(x) == (p(x) && q(x))
    ensures Where(Where(rows, p), q) == Where(rows, both)
  {
    if rows != [] {
      WhereWhere(rows[1..], p, q, both);
      if p(rows[0]) {
        assert Where(rows, p) == [rows[0]] + Where(rows[1..], p);
        assert ([rows[0]] + Where(rows[1..], p))[1..] == Where(rows[1..], p);
      }
    }
  }

  ghost predicate Sorted(col: string, desc: bool, rows: Table) {
    forall i, j :: 0 <= i < j < |rows| ==> Before(col, desc, rows[i], rows[j])
  }

  function Insert(col: string, desc: bool, row: Row, rows: Table): (r: Table)
    ensures forall x :: x in r <==> x == row || x in rows
    ensures |r| == |rows| + 1
  {
    if rows == [] || Before(col, desc, row, rows[0]) then [row] + rows
    else [rows[0]] + Insert(col, desc, row, rows[1..])
  }

  /** `ORDER BY col, id`, as an insertion sort. */
  function OrderBy(col: string, desc: bool, rows: Table): (r: Table)
    ensures forall x :: x in r <==> x in rows
    ensures |r| == |rows|
  {
    if rows == [] then [] else Insert(col, desc, rows[0], OrderBy(col, desc, rows[1..]))
  }

  lemma {:induction false} InsertSorted(col: string, desc: bool, row: Row, rows: Table)
    requires Sorted(col, desc, rows)
    requires forall x :: x in rows ==> x.id != row.id
    ensures Sorted(col, desc, Insert(col, desc, row, rows))
  {
    if rows != [] && !Before(col, desc, row, rows[0]) {
      InsertSorted(col, desc, row, rows[1..]);
      var rest := Insert(col, desc, row, rows[1..]);
      forall x | x in rest ensures Before(col, desc, rows[0], x) {
        if x != row {
          var k :| 0 <= k < |rows[1..]| && rows[1..][k] == x;
          assert rows[k + 1] == x;
        }
      }
    }
  }

  /** With unique ids the order is total, so sorting yields a strictly increasing sequence. */
  lemma {:induction false} OrderBySorted(col: string, desc: bool, rows: Table)
    requires UniqueIds(rows)
    ensures Sorted(col, desc, OrderBy(col, desc, rows))
  {
    if rows != [] {
      OrderBySorted(col, desc, rows[1..]);
      InsertSorted(col, desc, rows[0], OrderBy(col, desc, rows[1..]));
    }
  }

  /** A set of rows has only one sorted listing. */
  lemma {:induction false} SortedUnique(col: string, desc: bool, a: Table, b: Table)
    requires Sorted(col, desc, a) && Sorted(col, desc, b)
    requires forall x :: x in a <==> x in b
    ensures a == b
  {
    assert |b| > 0 ==> b[0] in a;
    if a != [] {
      assert a[0] in b;
      var i :| 0 <= i < |b| && b[i] == a[0];
      var j :| 0 <= j < |a| && a[j] == b[0];
      assert i > 0 ==> Before(col, desc, b[0], b[i]);
      assert j > 0 ==> Before(col, desc, a[0], a[j]);
      TailElements(col, desc, a);
      TailElements(col, desc, b);
      SortedUnique(col, desc, a[1..], b[1..]);
      assert a == [a[0]] + a[1..] && b == [b[0]] + b[1..];
    }
  }

  lemma TailElements(col: string, desc: bool, rows: Table)
    requires Sorted(col, desc, rows) && rows != []
    ensures forall x :: x in rows[1..] <==> x in rows && x != rows[0]
  {
    assert forall k :: 0 < k < |rows| ==> rows[k] == rows[1..][k - 1] && Before(col, desc, rows[0], rows[k]);
  }
}
