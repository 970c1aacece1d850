# Pomodoro timer: a Dafny model

This project models the core of a terminal Pomodoro timer written in Python
(`project.py`, `sound.py`). The timer asks for work minutes, a tag, break
minutes and a number of sessions. It then runs a work countdown and a break
countdown per session and saves one row per session in an SQLite table
`sessions(id, session_date, session_number, tag)`. At the end it exports the
day's rows to a CSV report.

Modules, one per file:

- `wrappers.dfy` (`Wrappers`): `Option`.
- `pytext.dfy` (`PyText`): the Python conversions the program relies on.
  - `ParseInt` is `int(s)`: surrounding whitespace (the ASCII characters
    tab, line feed, vertical tab, form feed, carriage return and space, plus
    the non-ASCII Unicode spaces), an optional sign, and digits that may be
    grouped with single underscores.
  - `Decimal` is `str(n)`.
  - `ZeroPad2` is the `02d` format.
  - The lemmas prove that `int()` reads back what `str()` and `02d` write, and
    that `int()` ignores surrounding whitespace.
- `timer.dfy` (`Timer`): the countdown loop that both source files contain,
  with the seconds-per-minute multiplier as a parameter.
  - `Clock` is one `MM:SS` display.
  - `Ticks` is the sequence of displays a countdown shows.
  - `RunDown` is the imperative `while seconds:` loop, proved equal to `Ticks`;
    `Countdown` scales minutes to seconds and runs it.
- `sound.dfy` (`Sound`): `countdown` of sound.py (×60).
- `store.dfy` (`SessionStore`): the `sessions` table, modelled as a class
  `SessionDb` that holds a `seq<Session>`.
  - `Initialize` is `db_initialization` (create if absent).
  - `UpdateSession` appends one row.
  - `ExportCsv` returns the report's file name and rows.
  - The lemmas cover id freshness, the date query and reading the CSV rows
    back.
- `project.dfy` (`Project`): the rest of project.py.
  - `InputValidation` is the retry loop, over a finite sequence of input lines.
  - `GetUserInput` reads the four answers.
  - `Countdown` is the ×10 countdown.
  - `Pomodoro` is the session loop, with loop invariants over the table.

The clock is not read. Every `datetime.now()` call becomes a date parameter.
`update_session` reads the clock once per save (project.py:67). `export_csv`
reads it twice: once for the query (project.py:75) and once for the file name
(project.py:79). A run that crosses midnight therefore saves rows under more
than one date, and its report can be named after a day other than the one its
rows come from. `Pomodoro` takes one date per saved session plus the export's
query date and name date, and `ExportCsv` takes the last two.
`RunReported` shows that the date query behind the report returns every
session of the run when all of them share the query date.

The model follows the code as written:

- The tag is the raw `input()` line, kept as typed (project.py:106).
- Every break lasts `duration_of_break` (project.py:200-204).
- project.py's countdown uses 10 seconds per minute (project.py:148).
  sound.py's uses 60 (sound.py:15). Both are modelled, through one
  parameterised loop.

## Model

| member | source | states |
|---|---|---|
| `PyText.ParseInt` | project.py:127 | `int(line)`: the line stripped of surrounding whitespace, an optional sign, then digits with single underscores only between digits; anything else is `None` (the `ValueError`) |
| `PyText.Decimal` | project.py:82 | `str(n)` for an int, as `csv.writer` writes the id and number columns: a `-` for negatives, then the digits without leading zeros |
| `PyText.ParseDecimal` | project.py:127 | `int(str(n)) == n` for every integer, negative ones included |
| `PyText.ParseIntIgnoresSpaces` | project.py:127 | `int()` gives the same result whatever whitespace surrounds its argument |
| `PyText.ParseSpacedDecimal` | project.py:127 | a line holding a decimal integer with surrounding whitespace parses to that integer |
| `PyText.SeparatorIsNotSpace` | project.py:127-134 | `int()` does not strip U+001C: a line of that character followed by `5` is rejected, so `input_validation` asks again |
| `PyText.DigitsValue` | project.py:153 | the decimal digits rendered for `n` denote `n` |
| `PyText.DigitsWidth` | project.py:153 | `str(n)` is one character exactly when `n < 10`, and at most two exactly when `n < 100` |
| `PyText.ZeroPad2` | project.py:153 | a `02d` field consists of decimal digits only |
| `PyText.ZeroPad2Width` | project.py:153 | a `02d` field is at least two characters wide, and exactly two iff the value is below 100 |
| `PyText.ParseZeroPad2` | project.py:153 | a `02d` field, leading zero included, reads back as its value |
| `Timer.Clock` | project.py:152-153 | the display for `s` remaining seconds: `02d` of `s / 60`, a `:`, `02d` of `s % 60` |
| `Timer.Ticks` | project.py:151-158 | the displays a countdown from `s` renders, in order: the `i`-th is the display for `s - i` |
| `Timer.ClockWidth` | project.py:152-153 | a display is at least 5 characters with `:` before the last two, and exactly 5 (`MM:SS`) iff fewer than 6000 seconds remain |
| `Timer.ClockShowsDivmod` | project.py:152-153 | a display reads back as the minutes and seconds of `divmod(s, 60)`, and minutes * 60 + seconds is the remaining count |
| `Timer.CountsDown` | sound.py:18-25 | a countdown from `s` renders `s` displays, the `i`-th reading back as `s - i`: `s, s-1, ..., 1`, none for 0 |
| `Timer.RunDown` | project.py:151-158 | the `while seconds:` loop renders exactly the displays `Ticks(seconds)`, in order |
| `Timer.Countdown` | project.py:148-158 | the loop renders exactly the displays `Ticks(minutes * multiplier)` |
| `Sound.WholeMinutes` | sound.py:15-20 | a whole number of minutes first shows as those minutes and `00` seconds |
| `Sound.Countdown` | sound.py:3-25 | `minutes * 60` displays, those of `Ticks(minutes * 60)`, the first showing `MM:00` for `MM = minutes` |
| `Project.Countdown` | project.py:136-158 | `minutes * 10` displays, those of `Ticks(minutes * 10)` |
| `Project.FirstAccepted` | project.py:125-134 | the index found holds a line that parses to a positive integer, and every earlier line does not; none found means no line qualifies |
| `Project.InputValidation` | project.py:114-134 | returns the first line's value that is an integer > 0, after consuming exactly the rejected lines before it and that line |
| `Project.RejectsThenAccepts` | project.py:125-134 | the lines "abc", "-5", "3" are rejected, rejected, accepted with value 3 |
| `Project.Accepts` | project.py:127-129 | a line is kept when `int(line)` succeeds and the value is above 0 |
| `Project.GetUserInput` | project.py:91-110 | three positive answers, each the first accepted line after the previous answer, and the tag the raw line after the work minutes; `None` only when the lines run out before one of the four answers |
| `SessionStore.NextId` | project.py:64-67 | the id the insert gets in the `INTEGER PRIMARY KEY` column: one more than the last (largest) id, or 1 in an empty table |
| `SessionStore.NextIdFresh` | project.py:42-47 | the id given to an inserted row is positive and above every existing id |
| `SessionStore.AppendKeepsIds` | project.py:64-67 | appending the inserted row keeps ids positive and strictly increasing |
| `SessionStore.RowsOn` | project.py:73-77 | the rows whose date equals the given day, in table order |
| `SessionStore.RowsOnExact` | project.py:73-77 | the date query returns a row iff it is in the table with that date |
| `SessionStore.RowsOnAppend` | project.py:73-77 | the date query over appended rows is the query of the old rows followed by that of the new ones |
| `SessionStore.RowsOnAllOfDay` | project.py:73-77 | rows all dated `day` are returned whole and in order |
| `SessionStore.CsvRow` | project.py:82 | one CSV line: `str(id)`, the date, `str(number)`, the tag |
| `SessionStore.ReportName` | project.py:79 | the report's file name, `pomodoro_report_<day>.csv` |
| `SessionStore.Report` | project.py:79-82 | the report's lines: the header `ID, Date, Session Number, Tag`, then one line per row of the day's query, in query order |
| `SessionStore.CsvRowRoundTrip` | project.py:79-82 | a written CSV row reads back as the session it came from |
| `SessionStore.ReportExact` | project.py:71-82 | the report is the header followed by lines that each read back as a stored session of that date, and every stored session of that date appears |
| `SessionStore.UpdateThenExport` | project.py:64-82 | after saving session `n` with a tag today, today's report is the earlier report with one line added at the end, and that line reads back as the saved session |
| `SessionStore.SessionDb.constructor` | project.py:39 | a freshly created database file has no table and no rows |
| `SessionStore.SessionDb.Reopen` | project.py:39 | reopening an existing database file finds its table and its stored rows |
| `SessionStore.SessionDb.Initialize` | project.py:30-50 | the table exists afterwards; an existing table and its rows are left unchanged, so repeated calls change nothing |
| `SessionStore.SessionDb.UpdateSession` | project.py:52-68 | exactly one row is appended, dated today with the given number and tag and a fresh id; earlier rows are unchanged |
| `SessionStore.SessionDb.ExportCsv` | project.py:71-82 | the report's file is named after the date of the second clock read and holds the header plus one row per session dated the first read |
| `Project.RunKeepsIds` | project.py:185-197 | the rows of a run keep ids fresh and increasing, and the next id moves up by the number of sessions |
| `Project.RunReported` | project.py:185-208 | when all sessions are saved on the query date, the date query returns the earlier rows of that date followed by every row of the run |
| `Project.RunSession` | project.py:186-205 | one round: the ×10 work countdown, then exactly one row appended for this session number and tag, then the ×10 break countdown |
| `Project.Pomodoro` | project.py:174-209 | a run of `n` sessions appends exactly max(n, 0) rows, numbered 1..n in order, with the run's tag; each round is a ×10 work countdown, the saved row, then a break countdown of the same break length; the export of the table as it ends comes last, its rows those of the query date and its file named after the name date |

## Left out

- Terminal output is not modelled: the figlet banner, the `print` calls, the
  `\r` overwrite of the timer line and the prompts. The displays themselves
  are modelled as strings.
- `notify` and the `chime` sounds and theme are not modelled. They are an
  audio library and process-global state.
- `time.sleep` is not modelled. Countdowns are modelled as ticks, not as wall
  time.
- The SQLite connection and cursor, `commit` and `conn.close()` are not
  modelled. The table is a sequence of rows in the class `SessionDb`.
- The CSV file is not written. The model covers the report's name and its rows
  of fields, but not the file system, the overwrite of an existing report, or
  the CSV quoting of fields that contain commas or quotes.
- `datetime.now()` is not called. Dates are parameters, as described above.
- `main` (project.py:8-24) and sound.py's top-level call `countdown(1)` are
  not modelled.
- `SessionStore.NextId`: does not model SQLite's random choice of id once
  the largest id reaches 9223372036854775807.
- `SessionStore.RowsOn`: returns rows in table (insertion) order. SQLite
  returns this order for a plain table scan without `ORDER BY`, but does not
  promise it.
- `PyText.ParseInt`: does not model `int()`'s acceptance of non-ASCII
  decimal digits, nor the limit of 4300 digits that recent Python versions
  enforce.
- `Timer.RunDown`, `Timer.Countdown`, `Sound.Countdown`, `Project.Countdown`,
  `Project.Pomodoro`: take a natural number of minutes (seconds for `RunDown`). With negative minutes the source's `while seconds:`
  loop never ends. The program only passes positive values.
- `SessionStore.SessionDb.UpdateSession` and `ExportCsv` require the table to
  exist. Without it the source raises an uncaught `sqlite3.OperationalError`,
  and the program always calls `db_initialization` first.
- `Project.InputValidation` and `Project.GetUserInput` return `None` when the
  input lines run out. The source would keep prompting, and `input()` would
  raise `EOFError` at end of input.
