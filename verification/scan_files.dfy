// The table of scanned files, rebuilt once with the project in its primary key. Rows of the older table
// that fall together under the new key replace one another in order.

module ScanFiles {
  import opened JsText

  /** A row; the project is NULL, or the older table has no such column. */
  datatype ScanFile = ScanFile(projectId: Option<int>, scanType: string, path: string, rest: string)

  /** `keyed` is whether the primary key already holds the project. */
  datatype ScanTable = ScanTable(keyed: bool, rows: seq<ScanFile>)

  predicate SameFile(a: ScanFile, b: ScanFile) {
    a.projectId == b.projectId && a.scanType == b.scanType && a.path == b.path
  }

  function Housed(f: ScanFile, fallback: int): ScanFile {
    if f.projectId.None? then f.(projectId := Some(fallback)) else f
  }

  function Without(rows: seq<ScanFile>, f: ScanFile): seq<ScanFile> {
    if rows == [] then []
    else
      var front := Without(rows[..|rows| - 1], f);
      if SameFile(rows[|rows| - 1], f) then front else front + [rows[|rows| - 1]]
  }

  /** INSERT OR REPLACE. */
  function InsertOrReplace(rows: seq<ScanFile>, f: ScanFile): seq<ScanFile> {
    Without(rows, f) + [f]
  }

  function Rebuilt(rows: seq<ScanFile>, fallback: int): seq<ScanFile> {
    if rows == [] then []
    else InsertOrReplace(Rebuilt(rows[..|rows| - 1], fallback), Housed(rows[|rows| - 1], fallback))
  }

  function Rekeyed(t: ScanTable, fallback: int): ScanTable {
    if t.keyed then t else ScanTable(true, Rebuilt(t.rows, fallback))
  }

  /** `migrateScanFilesTable`. */
  method MigrateScanFilesTable(t: ScanTable, fallback: int) returns (r: ScanTable)
    ensures r == Rekeyed(t, fallback)
  {
    if t.keyed {
      return t;
    }
    var rows := [];
    for i := 0 to |t.rows|
      invariant rows == Rebuilt(t.rows[..i], fallback)
    {
      assert t.rows[..i + 1][..i] == t.rows[..i];
      rows := InsertOrReplace(rows, Housed(t.rows[i], fallback));
    }
    assert t.rows[..|t.rows|] == t.rows;
    return ScanTable(true, rows);
  }

  /** No two rows have one project, type and path, and every row has a project. */
  ghost predicate Keyed(rows: seq<ScanFile>) {
    && (forall i, j | 0 <= i < j < |rows| ::
          rows[i].projectId != rows[j].projectId || rows[i].scanType != rows[j].scanType || rows[i].path != rows[j].path)
    && (forall f | f in rows :: f.projectId.Some?)
  }

  lemma {:induction false} WithoutHas(rows: seq<ScanFile>, f: ScanFile, x: ScanFile)
    ensures x in Without(rows, f) <==> x in rows && !SameFile(x, f)
  {
    if rows == [] {
    } else {
      WithoutHas(rows[..|rows| - 1], f, x);
      assert rows == rows[..|rows| - 1] + [rows[|rows| - 1]];
    }
  }

  lemma {:induction false} WithoutKeepsKeyed(rows: seq<ScanFile>, f: ScanFile)
    requires Keyed(rows)
    ensures Keyed(Without(rows, f))
  {
    if rows == [] {
    } else {
      var front, last := rows[..|rows| - 1], rows[|rows| - 1];
      assert forall i | 0 <= i < |front| :: front[i] == rows[i] && front[i] in rows;
      WithoutKeepsKeyed(front, f);
      forall x | x in Without(front, f) ensures !SameFile(x, last) && x.projectId.Some? {
        WithoutHas(front, f, x);
      }
      assert last in rows;
    }
  }

  lemma OneMoreKeyed(rows: seq<ScanFile>, f: ScanFile)
    requires Keyed(rows) && f.projectId.Some? && forall x | x in rows :: !SameFile(x, f)
    ensures Keyed(rows + [f])
  {
    forall i | 0 <= i < |rows| ensures !SameFile(rows[i], f) {
      assert rows[i] in rows;
    }
  }

  /** The rebuilt table meets its primary key. */
  lemma {:induction false} RebuiltIsKeyed(rows: seq<ScanFile>, fallback: int)
    ensures Keyed(Rebuilt(rows, fallback))
  {
    if rows == [] {
    } else {
      var before, f := Rebuilt(rows[..|rows| - 1], fallback), Housed(rows[|rows| - 1], fallback);
      RebuiltIsKeyed(rows[..|rows| - 1], fallback);
      WithoutKeepsKeyed(before, f);
      forall x | x in Without(before, f) ensures !SameFile(x, f) {
        WithoutHas(before, f, x);
      }
      OneMoreKeyed(Without(before, f), f);
    }
  }

  /** Row number i of the older table is the last of its file. */
  ghost predicate LastOfFile(rows: seq<ScanFile>, fallback: int, i: nat)
    requires i < |rows|
  {
    forall j | i < j < |rows| :: !SameFile(Housed(rows[j], fallback), Housed(rows[i], fallback))
  }

  /** A row is in the rebuilt table exactly if it is an older row, with its project, that is the last of its file. */
  lemma {:induction false} LastOfFileRemainsExactly(rows: seq<ScanFile>, fallback: int, x: ScanFile)
    ensures x in Rebuilt(rows, fallback)
            <==> exists i: nat | i < |rows| :: Housed(rows[i], fallback) == x && LastOfFile(rows, fallback, i)
  {
    if rows == [] {
    } else {
      var n := |rows| - 1;
      var front, f := rows[..n], Housed(rows[n], fallback);
      LastOfFileRemainsExactly(front, fallback, x);
      WithoutHas(Rebuilt(front, fallback), f, x);
      if x in Rebuilt(rows, fallback) {
        if x == f {
          assert LastOfFile(rows, fallback, n);
        } else {
          var i: nat :| i < n && Housed(front[i], fallback) == x && LastOfFile(front, fallback, i);
          LastOfMore(rows, fallback, i);
        }
      }
      if i: nat :| i < |rows| && Housed(rows[i], fallback) == x && LastOfFile(rows, fallback, i) {
        if i < n {
          LastOfMore(rows, fallback, i);
        }
      }
    }
  }

  lemma LastOfMore(rows: seq<ScanFile>, fallback: int, i: nat)
    requires i < |rows| - 1
    ensures LastOfFile(rows, fallback, i)
            <==> LastOfFile(rows[..|rows| - 1], fallback, i)
                 && !SameFile(Housed(rows[|rows| - 1], fallback), Housed(rows[i], fallback))
  {
    var front := rows[..|rows| - 1];
    assert forall j | i < j < |front| :: front[j] == rows[j];
  }
}
