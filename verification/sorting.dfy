// Sorting of rows by a strict order, as ORDER BY and Array.sort give it where no two rows are equal.

module Sorting {
  type Order<!T> = (T, T) -> bool

  function Insert<T>(less: Order<T>, x: T, rows: seq<T>): seq<T> {
    if rows == [] then [x]
    else if less(x, rows[0]) then [x] + rows
    else [rows[0]] + Insert(less, x, rows[1..])
  }

  function Sort<T>(less: Order<T>, rows: seq<T>): seq<T> {
    if rows == [] then [] else Insert(less, rows[|rows| - 1], Sort(less, rows[..|rows| - 1]))
  }

  predicate Ascending<T>(less: Order<T>, rows: seq<T>) {
    forall i, j | 0 <= i < j < |rows| :: less(rows[i], rows[j])
  }

  ghost predicate Transitive<T(!new)>(less: Order<T>) {
    forall a, b, c :: less(a, b) && less(b, c) ==> less(a, c)
  }

  /** Of two rows one comes first. */
  predicate Comparable<T>(less: Order<T>, rows: seq<T>) {
    forall i, j | 0 <= i < j < |rows| :: less(rows[i], rows[j]) || less(rows[j], rows[i])
  }

  lemma {:induction false} InsertHas<T>(less: Order<T>, x: T, rows: seq<T>, y: T)
    ensures y in Insert(less, x, rows) <==> y == x || y in rows
    ensures |Insert(less, x, rows)| == |rows| + 1
  {
    if rows == [] || less(x, rows[0]) {
    } else {
      InsertHas(less, x, rows[1..], y);
      assert y in rows <==> y == rows[0] || y in rows[1..];
    }
  }

  lemma {:induction false} InsertSorts<T(!new)>(less: Order<T>, x: T, rows: seq<T>)
    requires Transitive(less) && Ascending(less, rows) && forall y | y in rows :: less(x, y) || less(y, x)
    ensures Ascending(less, Insert(less, x, rows))
  {
    if rows == [] || less(x, rows[0]) {
    } else {
      var rest := Insert(less, x, rows[1..]);
      assert rows[0] in rows;
      InsertSorts(less, x, rows[1..]);
      forall j | 0 <= j < |rest| ensures less(rows[0], rest[j]) {
        InsertHas(less, x, rows[1..], rest[j]);
      }
    }
  }

  /** Sorting loses nothing and adds nothing. */
  lemma {:induction false} SortHas<T>(less: Order<T>, rows: seq<T>, y: T)
    ensures y in Sort(less, rows) <==> y in rows
    ensures |Sort(less, rows)| == |rows|
  {
    if rows == [] {
    } else {
      var front, last := rows[..|rows| - 1], rows[|rows| - 1];
      SortHas(less, front, y);
      InsertHas(less, last, Sort(less, front), y);
      assert rows == front + [last];
    }
  }

  lemma {:induction false} SortSorts<T(!new)>(less: Order<T>, rows: seq<T>)
    requires Transitive(less) && Comparable(less, rows)
    ensures Ascending(less, Sort(less, rows))
  {
    if rows == [] {
    } else {
      var front, last := rows[..|rows| - 1], rows[|rows| - 1];
      SortSorts(less, front);
      forall y | y in Sort(less, front) ensures less(last, y) || less(y, last) {
        SortHas(less, front, y);
        var i :| 0 <= i < |front| && front[i] == y;
        assert less(rows[i], rows[|rows| - 1]) || less(rows[|rows| - 1], rows[i]);
      }
      InsertSorts(less, last, Sort(less, front));
    }
  }
}
