/**
  The `sessions` table of project.py (`db_initialization`, `update_session`,
  `export_csv`): rows `(id, session_date, session_number, tag)`, created if
  absent, only ever appended to, and exported for one date as CSV rows.
  "Today" is a parameter of each call instead of a clock reading.
 */
module SessionStore {
  import opened Wrappers
  import opened PyText

  /** One row of `sessions`; `date` is the `%Y-%m-%d` text of the day it was saved. */
  datatype Session = Session(id: int, date: string, number: int, tag: string)

  /** Ids as SQLite assigns them to an append-only table: positive and increasing. */
  predicate IdsIncreasing(rows: seq<Session>) {
    && (|rows| > 0 ==> rows[0].id >= 1)
    && (forall i :: 0 < i < |rows| ==> rows[i - 1].id < rows[i].id)
  }

  /**
    The id SQLite gives an inserted row of an `INTEGER PRIMARY KEY` table:
    one more than the largest id, or 1 for an empty table.
   */
  function NextId(rows: seq<Session>): int
    requires IdsIncreasing(rows)
  {
    if rows == [] then 1 else rows[|rows| - 1].id + 1
  }

  /** The id of an inserted row is positive and above every id already in the table. */
  lemma {:induction false} NextIdFresh(rows: seq<Session>)
    requires IdsIncreasing(rows)
    ensures NextId(rows) >= 1
    ensures forall i :: 0 <= i < |rows| ==> 1 <= rows[i].id < NextId(rows)
  {
    if rows != [] {
      var init := rows[..|rows| - 1];
      assert IdsIncreasing(init);
      NextIdFresh(init);
    }
  }

  /** The row `update_session` inserts. */
  function NewRow(rows: seq<Session>, today: string, number: int, tag: string): Session
    requires IdsIncreasing(rows)
  {
    Session(NextId(rows), today, number, tag)
  }

  /** Appending the row `update_session` inserts keeps the ids fresh and increasing. */
  lemma AppendKeepsIds(rows: seq<Session>, today: string, number: int, tag: string)
    requires IdsIncreasing(rows)
    ensures IdsIncreasing(rows + [NewRow(rows, today, number, tag)])
  {
    NextIdFresh(rows);
  }

  /** `SELECT * FROM sessions WHERE session_date = ?`, in table order. */
  function RowsOn(rows: seq<Session>, day: string): seq<Session> {
    if rows == [] then []
    else (if rows[0].date == day then [rows[0]] else []) + RowsOn(rows[1..], day)
  }

  /** The query returns the rows of that date and no other. */
  lemma {:induction false} RowsOnExact(rows: seq<Session>, day: string)
    ensures forall r :: r in RowsOn(rows, day) <==> r in rows && r.date == day
  {
    if rows != [] {
      RowsOnExact(rows[1..], day);
      assert rows == [rows[0]] + rows[1..];
    }
  }

  /** Querying the rows of a concatenation is concatenating the queries. */
  lemma {:induction false} RowsOnAppend(a: seq<Session>, b: seq<Session>, day: string)
    ensures RowsOn(a + b, day) == RowsOn(a, day) + RowsOn(b, day)
  {
    if a == [] {
      assert a + b == b;
    } else {
      var ab := a + b;
      assert ab[0] == a[0] && ab[1..] == a[1..] + b;
      RowsOnAppend(a[1..], b, day);
      var head := if a[0].date == day then [a[0]] else [];
      assert RowsOn(ab, day) == head + RowsOn(a[1..] + b, day);
      assert RowsOn(a, day) == head + RowsOn(a[1..], day);
    }
  }

  /** Rows that all carry `day` are returned whole, in order. */
  lemma {:induction false} RowsOnAllOfDay(rows: seq<Session>, day: string)
    requires forall i :: 0 <= i < |rows| ==> rows[i].date == day
    ensures RowsOn(rows, day) == rows
  {
    if rows != [] {
      RowsOnAllOfDay(rows[1..], day);
    }
  }

  /** The header row `export_csv` writes. */
  const Header: seq<string> := ["ID", "Date", "Session Number", "Tag"]

  /** One CSV row: `csv.writer` writes each column with `str()`. */
  function CsvRow(r: Session): seq<string> {
    [Decimal(r.id), r.date, Decimal(r.number), r.tag]
  }

  /** Reads a CSV row back into a session, the integers with `int()`. */
  function ReadCsvRow(line: seq<string>): Option<Session> {
    if |line| != 4 then None
    else match (ParseInt(line[0]), ParseInt(line[2]))
      case (Some(id), Some(number)) => Some(Session(id, line[1], number, line[3]))
      case _ => None
  }

  /** A written row reads back as the session it came from. */
  lemma CsvRowRoundTrip(r: Session)
    ensures ReadCsvRow(CsvRow(r)) == Some(r)
  {
    ParseDecimal(r.id);
    ParseDecimal(r.number);
  }

  /** The report file name `export_csv` writes to. */
  function ReportName(day: string): string {
    "pomodoro_report_" + day + ".csv"
  }

  /** The rows of the report `export_csv` writes for `day`: the header, then one row per session of that day. */
  function Report(rows: seq<Session>, day: string): seq<seq<string>> {
    [Header] + seq(|RowsOn(rows, day)|, k requires 0 <= k < |RowsOn(rows, day)| => CsvRow(RowsOn(rows, day)[k]))
  }

  /**
    The report is the header followed by exactly the sessions dated `day`:
    every data line reads back as a stored session of that day, and every
    stored session of that day appears.
   */
  lemma ReportExact(rows: seq<Session>, day: string)
    ensures var csv := Report(rows, day);
      && |csv| >= 1 && csv[0] == Header
      && (forall k :: 1 <= k < |csv| ==>
            ReadCsvRow(csv[k]).Some? && ReadCsvRow(csv[k]).value in rows && ReadCsvRow(csv[k]).value.date == day)
      && (forall r :: r in rows && r.date == day ==> CsvRow(r) in csv[1..])
  {
    var csv := Report(rows, day);
    var sel := RowsOn(rows, day);
    RowsOnExact(rows, day);
    forall k | 1 <= k < |csv|
      ensures ReadCsvRow(csv[k]).Some? && ReadCsvRow(csv[k]).value in rows && ReadCsvRow(csv[k]).value.date == day
    {
      ReportLine(rows, day, k);
      ReadsBack(csv[k], sel[k - 1]);
    }
    forall r | r in rows && r.date == day
      ensures CsvRow(r) in csv[1..]
    {
      var k :| 0 <= k < |sel| && sel[k] == r;
      ReportLine(rows, day, k + 1);
      assert csv[1..][k] == csv[k + 1];
    }
  }

  /** Data line `k` of the report is the CSV row of the `k`-th session the date query returns. */
  lemma ReportLine(rows: seq<Session>, day: string, k: nat)
    requires 1 <= k < |Report(rows, day)|
    ensures k - 1 < |RowsOn(rows, day)| && Report(rows, day)[k] == CsvRow(RowsOn(rows, day)[k - 1])
  {
  }

  /** A line written for `r` reads back as `r`. */
  lemma ReadsBack(line: seq<string>, r: Session)
    requires line == CsvRow(r)
    ensures ReadCsvRow(line) == Some(r)
  {
    CsvRowRoundTrip(r);
  }

  /**
    The database file with its `sessions` table. `tableExists` is false for a
    database file `sqlite3.connect` has just created.
   */
  class SessionDb {
    var tableExists: bool
    var rows: seq<Session>

    ghost predicate Valid()
      reads this
    {
      (!tableExists ==> rows == []) && IdsIncreasing(rows)
    }

    /** A database file that does not hold the table yet. */
    constructor ()
      ensures Valid() && !tableExists && rows == []
    {
      tableExists := false;
      rows := [];
    }

    /** A database file left by earlier runs, holding `stored`. */
    constructor Reopen(stored: seq<Session>)
      requires IdsIncreasing(stored)
      ensures Valid() && tableExists && rows == stored
    {
      tableExists := true;
      rows := stored;
    }

    /** `db_initialization`: `CREATE TABLE IF NOT EXISTS sessions`. */
    method Initialize()
      requires Valid()
      modifies this
      ensures Valid() && tableExists
      ensures old(tableExists) ==> unchanged(this)
      ensures !old(tableExists) ==> rows == []
    {
      if !tableExists {
        tableExists := true;
        rows := [];
      }
    }

    /** `update_session`: insert one row dated `today`, committed at once. */
    method UpdateSession(today: string, number: int, tag: string)
      requires Valid() && tableExists
      modifies this
      ensures Valid() && tableExists
      ensures rows == old(rows) + [NewRow(old(rows), today, number, tag)]
    {
      AppendKeepsIds(rows, today, number, tag);
      rows := rows + [Session(NextId(rows), today, number, tag)];
    }

    /**
      `export_csv`: the report's rows are those of `queryDay`, the date the
      query reads from the clock; its file is named after `nameDay`, the
      date a second clock read gives (the same day unless midnight passes
      between the two reads).
     */
    method ExportCsv(queryDay: string, nameDay: string) returns (fileName: string, csv: seq<seq<string>>)
      requires Valid() && tableExists
      ensures fileName == ReportName(nameDay)
      ensures csv == Report(rows, queryDay)
    {
      var selected := RowsOn(rows, queryDay);
      fileName := ReportName(nameDay);
      csv := [Header] + seq(|selected|, k requires 0 <= k < |selected| => CsvRow(selected[k]));
    }
  }

  /**
    After `update_session(conn, n, tag)` on `today`, the report of `today`
    is the earlier report with that row added at the end, and the row reads
    back with a fresh id, number `n` and the tag.
   */
  lemma UpdateThenExport(rows: seq<Session>, today: string, number: int, tag: string)
    requires IdsIncreasing(rows)
    ensures Report(rows + [NewRow(rows, today, number, tag)], today)
         == Report(rows, today) + [CsvRow(NewRow(rows, today, number, tag))]
    ensures var after := rows + [NewRow(rows, today, number, tag)];
      var csv := Report(after, today);
      && |csv| == |Report(rows, today)| + 1
      && ReadCsvRow(csv[|csv| - 1]) == Some(Session(NextId(rows), today, number, tag))
  {
    var r := NewRow(rows, today, number, tag);
    var after := rows + [r];
    RowsOnAppend(rows, [r], today);
    assert RowsOn([r], today) == [r];
    var sel := RowsOn(after, today);
    assert sel == RowsOn(rows, today) + [r];
    var csv := Report(after, today);
    assert csv == Report(rows, today) + [CsvRow(r)];
    CsvRowRoundTrip(r);
  }
}
