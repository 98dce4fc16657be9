/** The student roster read from the spreadsheet, indexed by email address. */
module Roster {

  /** One spreadsheet row: its cells, left to right. */
  type Row = seq<string>

  /** What the roster records about one student. */
  datatype Student = Student(name: string, tzHint: string, zoom: string)

  /** The configured column positions of the four fields. */
  datatype Columns = Columns(email: nat, name: nat, tz: nat, zoom: nat)

  /** The row has a cell at each of the four configured positions. */
  predicate Complete(row: Row, cols: Columns) {
    cols.email < |row| && cols.name < |row| && cols.tz < |row| && cols.zoom < |row|
  }

  /** The record a complete row stores under its email cell. */
  function Entry(row: Row, cols: Columns): Student
    requires Complete(row, cols)
  {
    Student(row[cols.name], row[cols.tz], row[cols.zoom])
  }

  /** The index after storing the rows in order: a row too short for some column is
      skipped, and a later row overwrites an earlier one with the same email. */
  function Index(rows: seq<Row>, cols: Columns): map<string, Student> {
    if rows == [] then map[]
    else
      var prior := Index(rows[..|rows| - 1], cols);
      var row := rows[|rows| - 1];
      if Complete(row, cols) then prior[row[cols.email] := Entry(row, cols)] else prior
  }

  /** The keys are exactly the email cells of the complete rows. */
  lemma {:induction false} IndexKeys(rows: seq<Row>, cols: Columns)
    ensures forall k :: k in Index(rows, cols) <==>
      exists j :: 0 <= j < |rows| && Complete(rows[j], cols) && rows[j][cols.email] == k
  {
    if rows != [] {
      var init := rows[..|rows| - 1];
      IndexKeys(init, cols);
      assert forall j :: 0 <= j < |init| ==> init[j] == rows[j];
      forall k
        ensures k in Index(rows, cols) <==>
          exists j :: 0 <= j < |rows| && Complete(rows[j], cols) && rows[j][cols.email] == k
      {
        if k in Index(init, cols) {
          var j :| 0 <= j < |init| && Complete(init[j], cols) && init[j][cols.email] == k;
          assert Complete(rows[j], cols) && rows[j][cols.email] == k;
        }
      }
    }
  }

  /** A complete row that no later complete row shares its email with determines the
      record stored under that email: the last such row wins. */
  lemma {:induction false} IndexLastWins(rows: seq<Row>, cols: Columns, j: int)
    requires 0 <= j < |rows| && Complete(rows[j], cols)
    requires forall l :: j < l < |rows| && Complete(rows[l], cols) ==>
      rows[l][cols.email] != rows[j][cols.email]
    ensures rows[j][cols.email] in Index(rows, cols)
    ensures Index(rows, cols)[rows[j][cols.email]] == Entry(rows[j], cols)
  {
    if j < |rows| - 1 {
      var init := rows[..|rows| - 1];
      assert init[j] == rows[j];
      IndexLastWins(init, cols, j);
    }
  }

  /** A row too short for some column leaves the index as if it were absent, wherever
      it stands. */
  lemma {:induction false} IndexIgnoresIncomplete(before: seq<Row>, row: Row, after: seq<Row>, cols: Columns)
    requires !Complete(row, cols)
    ensures Index(before + [row] + after, cols) == Index(before + after, cols)
  {
    if after == [] {
      assert before + [row] + after == before + [row];
      assert (before + [row])[..|before|] == before;
      assert before + after == before;
    } else {
      var init := after[..|after| - 1];
      IndexIgnoresIncomplete(before, row, init, cols);
      var left, right := before + [row] + after, before + after;
      assert left[..|left| - 1] == before + [row] + init;
      assert right[..|right| - 1] == before + init;
      assert left[|left| - 1] == right[|right| - 1];
    }
  }

  /** The roster build loop: stores each complete row under its email cell, and reports
      and skips a row that is too short. */
  method BuildIndex(rows: seq<Row>, cols: Columns) returns (index: map<string, Student>)
    ensures index == Index(rows, cols)
  {
    index := map[];
    for i := 0 to |rows|
      invariant index == Index(rows[..i], cols)
    {
      assert rows[..i + 1][..i] == rows[..i];
      var row := rows[i];
      if Complete(row, cols) {
        index := index[row[cols.email] := Student(row[cols.name], row[cols.tz], row[cols.zoom])];
      }
    }
    assert rows[..|rows|] == rows;
  }
}
