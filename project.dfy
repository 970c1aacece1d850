/**
  project.py: reading the user's answers, the (×10) countdown, and the
  session runner that alternates work and break countdowns and saves one
  row per session. Prompts, banners, notifications and sleeps are terminal
  and audio effects and are not modelled; the input is a finite sequence
  of lines, the dates come in as parameters.
 */
module Project {
  import opened Wrappers
  import opened PyText
  import Timer
  import opened SessionStore

  // ---------------------------------------------------------------------------
  // input_validation / get_user_input
  // ---------------------------------------------------------------------------

  /** `input_validation` keeps a line when `int(line)` succeeds and is above 0. */
  predicate Accepts(line: string) {
    ParseInt(line).Some? && ParseInt(line).value > 0
  }

  /** Index of the first accepted line, if any. */
  function FirstAccepted(lines: seq<string>): (r: Option<nat>)
    ensures r.Some? ==> r.value < |lines| && Accepts(lines[r.value])
    ensures r.Some? ==> forall j {:trigger Accepts(lines[j])} :: 0 <= j < r.value ==> !Accepts(lines[j])
    ensures r.None? ==> forall j {:trigger Accepts(lines[j])} :: 0 <= j < |lines| ==> !Accepts(lines[j])
  {
    if lines == [] then None
    else if Accepts(lines[0]) then Some(0)
    else match FirstAccepted(lines[1..])
      case None => None
      case Some(k) => Some(k + 1)
  }

  /** A line that is accepted after only rejected lines is the first accepted one. */
  lemma FirstAcceptedAt(lines: seq<string>, k: nat)
    requires k < |lines| && Accepts(lines[k])
    requires forall j :: 0 <= j < k ==> !Accepts(lines[j])
    ensures FirstAccepted(lines) == Some(k)
  {
  }

  /**
    `input_validation`: read lines until one is a positive integer and return
    it; every earlier line is rejected. `read` is the number of lines consumed.
    When the lines run out first, the source would still be prompting: `None`.
   */
  method InputValidation(lines: seq<string>) returns (value: Option<int>, read: nat)
    ensures read <= |lines|
    ensures value.Some? ==> value.value > 0
    ensures value.Some? <==> FirstAccepted(lines).Some?
    ensures value.Some? ==> read == FirstAccepted(lines).value + 1 && ParseInt(lines[read - 1]) == value
    ensures value.None? ==> read == |lines|
  {
    read := 0;
    while read < |lines|
      invariant read <= |lines|
      invariant forall j :: 0 <= j < read ==> !Accepts(lines[j])
    {
      var userInput := ParseInt(lines[read]);
      read := read + 1;
      if userInput.Some? && userInput.value > 0 {
        FirstAcceptedAt(lines, read - 1);
        value := userInput;
        return;
      }
    }
    value := None;
  }

  /** `input_validation(prompt)` on `["abc", "-5", "3"]` rejects two lines and returns 3. */
  lemma RejectsThenAccepts()
    ensures FirstAccepted(["abc", "-5", "3"]) == Some(2)
    ensures ParseInt("3") == Some(3)
  {
    var lines := ["abc", "-5", "3"];
    StripFixed("abc");
    assert ParseInt("abc") == None;
    ParseDecimal(-5);
    assert Decimal(-5) == "-5";
    ParseDecimal(3);
    assert Decimal(3) == "3";
    assert lines[1..] == ["-5", "3"];
    assert lines[1..][1..] == ["3"];
  }

  /** The four answers of `get_user_input`. */
  datatype UserInput = UserInput(workMinutes: int, tag: string, breakMinutes: int, sessions: int)

  /**
    `get_user_input`: work minutes, the tag line exactly as typed,
    break minutes and number of sessions, each numeric answer read
    by `input_validation`, all from one stream of lines. `None` when the
    stream ends before the last answer (`input()` would raise `EOFError`).
   */
  method GetUserInput(lines: seq<string>) returns (answers: Option<UserInput>, read: nat)
    ensures read <= |lines|
    ensures answers.None? ==> read == |lines|
    ensures answers.None? ==>
      || FirstAccepted(lines).None?
      || var rest := lines[FirstAccepted(lines).value + 1..];
         || |rest| == 0
         || FirstAccepted(rest[1..]).None?
         || var afterTag := rest[1..];
            FirstAccepted(afterTag[FirstAccepted(afterTag).value + 1..]).None?
    ensures answers.Some? ==>
      && answers.value.workMinutes > 0
      && answers.value.breakMinutes > 0
      && answers.value.sessions > 0
    ensures answers.Some? ==>
      && FirstAccepted(lines).Some?
      && var k1 := FirstAccepted(lines).value;
      && ParseInt(lines[k1]) == Some(answers.value.workMinutes)
      && var rest := lines[k1 + 1..];
      && |rest| > 0 && answers.value.tag == rest[0]
      && var afterTag := rest[1..];
      && FirstAccepted(afterTag).Some?
      && var k2 := FirstAccepted(afterTag).value;
      && ParseInt(afterTag[k2]) == Some(answers.value.breakMinutes)
      && var afterBreak := afterTag[k2 + 1..];
      && FirstAccepted(afterBreak).Some?
      && var k3 := FirstAccepted(afterBreak).value;
      && ParseInt(afterBreak[k3]) == Some(answers.value.sessions)
      && read == (k1 + 1) + 1 + (k2 + 1) + (k3 + 1)
  {
    var work, n1 := InputValidation(lines);
    if work.None? || n1 == |lines| {
      return None, |lines|;
    }
    var rest := lines[n1..];
    var tag := rest[0];
    var afterTag := rest[1..];
    var pause, n2 := InputValidation(afterTag);
    if pause.None? {
      return None, |lines|;
    }
    var afterBreak := afterTag[n2..];
    var count, n3 := InputValidation(afterBreak);
    if count.None? {
      return None, |lines|;
    }
    answers := Some(UserInput(work.value, tag, pause.value, count.value));
    read := n1 + 1 + n2 + n3;
  }

  // ---------------------------------------------------------------------------
  // countdown
  // ---------------------------------------------------------------------------

  /** `countdown(minutes)` of project.py: ten seconds to the minute. */
  method Countdown(minutes: nat) returns (shown: seq<string>)
    ensures shown == Timer.Ticks(minutes * 10)
    ensures |shown| == minutes * 10
  {
    shown := Timer.Countdown(minutes, 10);
  }

  // ---------------------------------------------------------------------------
  // pomodoro
  // ---------------------------------------------------------------------------

  /** What one session of the loop shows and saves: work displays, the saved row, break displays. */
  datatype Round = Round(number: int, work: seq<string>, saved: Session, rest: seq<string>)

  /** How many times `for session in range(1, n + 1)` runs. */
  function RunLength(n: int): (k: nat)
    ensures k <= n || k == 0
    ensures n > 0 ==> k == n
  {
    if n > 0 then n else 0
  }

  /** The rows `count` sessions append to a table whose next id is `firstId`. */
  function RunRows(firstId: int, dates: seq<string>, count: nat, tag: string): seq<Session>
    requires count <= |dates|
  {
    seq(count, i requires 0 <= i < count => Session(firstId + i, dates[i], i + 1, tag))
  }

  /** A run of `count` sessions is the run of `count - 1` followed by session `count`. */
  lemma RunRowsSnoc(firstId: int, dates: seq<string>, count: nat, tag: string)
    requires 0 < count <= |dates|
    ensures RunRows(firstId, dates, count, tag)
         == RunRows(firstId, dates, count - 1, tag) + [Session(firstId + count - 1, dates[count - 1], count, tag)]
  {
  }

  /** Saving session after session keeps ids fresh and increasing, and the next id moves by the count. */
  lemma {:induction false} RunKeepsIds(rows: seq<Session>, dates: seq<string>, count: nat, tag: string)
    requires IdsIncreasing(rows) && count <= |dates|
    ensures IdsIncreasing(rows + RunRows(NextId(rows), dates, count, tag))
    ensures NextId(rows + RunRows(NextId(rows), dates, count, tag)) == NextId(rows) + count
  {
    if count > 0 {
      RunKeepsIds(rows, dates, count - 1, tag);
      var before := rows + RunRows(NextId(rows), dates, count - 1, tag);
      var row := Session(NextId(rows) + count - 1, dates[count - 1], count, tag);
      RunRowsSnoc(NextId(rows), dates, count, tag);
      assert rows + RunRows(NextId(rows), dates, count, tag) == before + [row];
      AppendKeepsIds(before, dates[count - 1], count, tag);
    }
  }

  /** When every session of the run is saved on `day`, the date query for `day` returns them all, after the earlier rows of that day. */
  lemma RunReported(rows: seq<Session>, dates: seq<string>, count: nat, tag: string, day: string)
    requires IdsIncreasing(rows) && count <= |dates|
    requires forall i :: 0 <= i < count ==> dates[i] == day
    ensures RowsOn(rows + RunRows(NextId(rows), dates, count, tag), day)
         == RowsOn(rows, day) + RunRows(NextId(rows), dates, count, tag)
  {
    var added := RunRows(NextId(rows), dates, count, tag);
    RowsOnAppend(rows, added, day);
    RowsOnAllOfDay(added, day);
  }

  /** The rounds of a run of `count` sessions, each showing `work` and `rest` around the row it saves. */
  function Schedule(firstId: int, dates: seq<string>, count: nat, tag: string, work: seq<string>, rest: seq<string>)
    : seq<Round>
    requires count <= |dates|
  {
    seq(count, i requires 0 <= i < count => Round(i + 1, work, Session(firstId + i, dates[i], i + 1, tag), rest))
  }

  lemma ScheduleSnoc(firstId: int, dates: seq<string>, count: nat, tag: string, work: seq<string>, rest: seq<string>)
    requires 0 < count <= |dates|
    ensures Schedule(firstId, dates, count, tag, work, rest)
         == Schedule(firstId, dates, count - 1, tag, work, rest)
            + [Round(count, work, Session(firstId + count - 1, dates[count - 1], count, tag), rest)]
  {
  }

  /** Round `i` of a schedule saved row `i` of the run appended after `rows`. */
  lemma ScheduleSaves(rows: seq<Session>, firstId: int, dates: seq<string>, count: nat, tag: string,
                      work: seq<string>, rest: seq<string>)
    requires count <= |dates|
    ensures forall i :: 0 <= i < count ==>
      Schedule(firstId, dates, count, tag, work, rest)[i].number == i + 1 &&
      Schedule(firstId, dates, count, tag, work, rest)[i].work == work &&
      Schedule(firstId, dates, count, tag, work, rest)[i].rest == rest &&
      Schedule(firstId, dates, count, tag, work, rest)[i].saved == (rows + RunRows(firstId, dates, count, tag))[|rows| + i]
  {
  }

  /**
    One pass of the `pomodoro` loop for `session`: the work countdown, then
    the session's row saved on `today`, then the break countdown.
   */
  method RunSession(db: SessionDb, session: int, workMinutes: nat, breakMinutes: nat, tag: string, today: string)
    returns (round: Round)
    requires db.Valid() && db.tableExists
    modifies db
    ensures db.Valid() && db.tableExists
    ensures db.rows == old(db.rows) + [NewRow(old(db.rows), today, session, tag)]
    ensures round == Round(session, Timer.Ticks(workMinutes * 10), NewRow(old(db.rows), today, session, tag),
                           Timer.Ticks(breakMinutes * 10))
  {
    var work := Countdown(workMinutes);
    db.UpdateSession(today, session, tag);
    var rest := Countdown(breakMinutes);
    round := Round(session, work, db.rows[|db.rows| - 1], rest);
  }

  /**
    `pomodoro`: sessions 1..n, each a work countdown, the session's row
    saved (dated `saveDates[i]`), and a break countdown of `breakMinutes`
    (every break the same length); finally the CSV export, which selects
    the rows of `exportDate` and names its file after `nameDate` (two
    separate clock reads).
   */
  method Pomodoro(db: SessionDb, workMinutes: nat, breakMinutes: nat, sessions: int, tag: string,
                  saveDates: seq<string>, exportDate: string, nameDate: string)
    returns (rounds: seq<Round>, fileName: string, csv: seq<seq<string>>)
    requires db.Valid() && db.tableExists
    requires RunLength(sessions) <= |saveDates|
    modifies db
    ensures db.Valid() && db.tableExists
    ensures db.rows == old(db.rows) + RunRows(NextId(old(db.rows)), saveDates, RunLength(sessions), tag)
    ensures |rounds| == RunLength(sessions)
    ensures forall i :: 0 <= i < |rounds| ==> rounds[i].number == i + 1 && rounds[i].saved == db.rows[|old(db.rows)| + i]
    ensures forall i :: 0 <= i < |rounds| ==>
      rounds[i].work == Timer.Ticks(workMinutes * 10) && rounds[i].rest == Timer.Ticks(breakMinutes * 10)
    ensures fileName == ReportName(nameDate) && csv == Report(db.rows, exportDate)
  {
    ghost var start := db.rows;
    ghost var first := NextId(start);
    ghost var workTicks := Timer.Ticks(workMinutes * 10);
    ghost var breakTicks := Timer.Ticks(breakMinutes * 10);
    rounds := [];
    var session := 1;
    while session <= sessions
      invariant 1 <= session <= RunLength(sessions) + 1
      invariant db.Valid() && db.tableExists
      invariant db.rows == start + RunRows(first, saveDates, session - 1, tag)
      invariant rounds == Schedule(first, saveDates, session - 1, tag, workTicks, breakTicks)
    {
      RunKeepsIds(start, saveDates, session - 1, tag);
      RunRowsSnoc(first, saveDates, session, tag);
      ScheduleSnoc(first, saveDates, session, tag, workTicks, breakTicks);
      var round := RunSession(db, session, workMinutes, breakMinutes, tag, saveDates[session - 1]);
      rounds := rounds + [round];
      session := session + 1;
    }
    ScheduleSaves(start, first, saveDates, RunLength(sessions), tag, workTicks, breakTicks);
    fileName, csv := db.ExportCsv(exportDate, nameDate);
  }
}
