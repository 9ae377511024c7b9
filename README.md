# Time tracker: timer session and rollups in Dafny

A model of the logic inside the desktop time tracker `TimeTrackerApp`
(`time_tracker.py`): one running timer at a time, the `projects` and
`entries` tables, the `HH:MM:SS` rendering of seconds, the orderings of the two
listings, and the daily and weekly totals.

Modules, one per component:

- `Wrappers`: `Option`, standing for Python's `None`-or-value fields.
- `Clock`: instants as integer milliseconds since the epoch, Python's `int()`
  truncation of a time difference, local day numbers for a fixed UTC offset,
  `weekday()` and the Monday that starts the week.
- `Format`: `format_time` and an inverse parser, with the round trip proved for
  every integer, negative ones included (Python prints a negative hour as `-1`).
- `Store`: the two tables as sequences in insertion order, SQLite's rowid rule
  (largest rowid plus one, 1 for an empty table), the lookups by name and by id,
  the table invariants and their preservation by the two inserts.
- `Listing`: `ORDER BY name` and `ORDER BY start_time DESC` as a sort whose
  result is proved sorted and a permutation of its input, the join of entries
  with project names, and the facts that no entry is lost to the join, that a
  unique name is listed once, and that the newest entry is listed first.
- `Totals`: `SUM(duration) ... WHERE date(start_time) = today` and
  `... >= week_start` with the `or 0` default, and the lemmas that the sums
  react to an appended entry as expected, are zero without matches, and that
  today's total is at most the week's.
- `Tracker`: the class `TimeTrackerApp` with the fields `projects`, `entries`,
  `activeProjectId`, `startTime`; its invariant `Valid()` says the two session
  fields are set together and a running session names a stored project. The
  handlers `AddProject`, `StartTimer`, `StopTimer` change state; `UpdateTimer`
  and `ShowTotals` only read. `AlphaScenario` is a client that creates a
  project, is refused a duplicate and a second start, and stops after 125
  seconds into an entry of duration 125.

Inputs that the program gets from the outside are parameters: the dialog's
answer (`Option<string>`, `None` for cancel), the selected list item
(`Option<string>`), the note text, the clock reading `now` (milliseconds), the
UTC offset (a field set at construction) and, for the add and stop handlers,
whether the database write fails (`storeFails`).

Behaviour of the code worth knowing:

- `start_timer` looks a project up by the selected name. When no row has that
  name the code fails on `fetchone()[0]` before assigning anything; the model
  returns `Refused(UnknownProject)` with nothing changed.
- `stop_timer` with no running timer returns silently (`Ignored`).
- The weekly query (`date(start_time) >= week_start`) has no upper bound: an
  entry dated after today counts toward the week.
- The handlers test Python truthiness. Project ids are at least 1, so a stored
  id is always true; the tick tests `start_time`, and a session begun at instant
  0 shows no elapsed time (`Truthy`).
- A duration is the span truncated toward zero (`int()`), which equals the floor
  only for non-negative spans; a clock set back gives a negative duration, and
  the lemmas about totals say when they need non-negative durations.
- The `entries` table declares no foreign key; the model needs none because the
  running session always names a stored project (`Valid`).

## Model

| member | source | states |
|---|---|---|
| `Clock.TruncSeconds` | time_tracker.py:149 | the whole seconds of a span: for a span d >= 0 the result r is >= 0 with 1000r <= d < 1000r + 1000; for d < 0 it is <= 0 with 1000r - 1000 < d <= 1000r (toward zero) |
| `Clock.LocalDay` | time_tracker.py:174 | the day number d with d days <= local instant < d + 1 days |
| `Clock.Weekday` | time_tracker.py:175 | a weekday in 0..6 (Monday 0) that is the distance, modulo 7, from the Monday 1970-01-05 |
| `Clock.WeekdayNext` | time_tracker.py:175 | the next day has the next weekday, Sunday wrapping to Monday |
| `Clock.WeekStart` | time_tracker.py:175 | the week start is a Monday, and today lies 0 to 6 days after it |
| `Clock.WeekStartUnique` | time_tracker.py:175 | every Monday at most 6 days before today is the week start |
| `Format.Pad2` | time_tracker.py:171 | `{n:02}`: at least two characters, exactly two digits for 0..99, no leading zero from 10 on, and for negatives a minus followed by digits without a leading zero |
| `Format.ParsePad2` | time_tracker.py:171 | every padded field reads back as its number |
| `Format.ClockFields` | time_tracker.py:168-170 | h*3600 + m*60 + s equals the seconds, m and s in 0..59, h >= 0 for non-negative input |
| `Format.ClockFieldsUnique` | time_tracker.py:168-170 | any split with m and s in 0..59 is the one computed |
| `Format.FormatTime` | time_tracker.py:167-171 | the text ends in `:MM:SS` with two-digit minutes and seconds whose values are below 60; the hours are digits for non-negative input, padded with a zero only when they are a single digit, and a negative hour has no zero after its minus |
| `Format.FormatTimeShowsFields` | time_tracker.py:168-171 | the minutes and seconds shown are the minute and second fields of the value rendered |
| `Format.FormatTimeRoundTrip` | time_tracker.py:167-171 | parsing the rendering of any seconds value gives that value back |
| `Store.NextRowId` | time_tracker.py:56 | a new rowid exceeds every present rowid, is 1 for an empty table, and is otherwise one more than a present rowid |
| `Store.LookupId` | time_tracker.py:141-142 | finds an id exactly when some project has the name, and that project has the id found |
| `Store.NameOf` | time_tracker.py:117 | finds a name exactly when some project has the id, and that project has the name found |
| `Store.AddProjectKeepsStoreValid` | time_tracker.py:57 | inserting a new non-empty name keeps ids and names distinct and entries' project references valid; the new id is >= 1 and unused |
| `Store.AddEntryKeepsStoreValid` | time_tracker.py:150-153 | Appending the entry of a stopped timer on a stored project to valid tables leaves them valid (distinct positive ids, stored project references, duration equal to the truncated span), and the new entry's id is at least 1. |
| `Listing.SortBy` | time_tracker.py:108 | the result is a permutation of the input, ordered pair by pair when the order is total |
| `Listing.NameLeTotalAt` | time_tracker.py:108 | any two names are comparable under the BINARY collation |
| `Listing.NameLeTransitiveAt` | time_tracker.py:108 | the BINARY collation is transitive |
| `Listing.ProjectListing` | time_tracker.py:106-110 | the listing holds exactly the project names and is in ascending name order throughout |
| `Listing.NameListedOnce` | time_tracker.py:123-131 | with unique names, a stored name appears exactly once in the listing and an absent one never |
| `Listing.JoinedComplete` | time_tracker.py:115-119 | when every entry names a stored project, the join has one row per entry, row i showing entry i |
| `Listing.EntryListing` | time_tracker.py:112-121 | the listing is a permutation of the joined rows with start times non-increasing throughout |
| `Listing.NewestEntryListedFirst` | time_tracker.py:118 | an entry that started after all others is the first row listed |
| `Totals.SumWhereAppend` | time_tracker.py:176-179 | appending an entry adds its duration to a total exactly when its start date matches the filter |
| `Totals.SumWhereNoMatch` | time_tracker.py:177 | a total over entries none of which match is 0 |
| `Totals.SumWhereNonNegative` | time_tracker.py:176-179 | a total of non-negative durations is non-negative |
| `Totals.SumWhereMonotone` | time_tracker.py:176-179 | a filter admitting more entries gives a total at least as large, with non-negative durations |
| `Totals.DailyAtMostWeekly` | time_tracker.py:174-179 | with non-negative durations, 0 <= daily total <= weekly total |
| `Totals.EarlierWeekExcluded` | time_tracker.py:175-178 | an entry dated before this week's Monday changes neither the weekly nor the daily total |
| `Tracker.Elapsed` | time_tracker.py:162-163 | elapsed seconds exist exactly when the start is truthy, are the truncated span since start, and are >= 0 when now >= start |
| `Tracker.TimeTrackerApp.constructor` | time_tracker.py:34-39 | opens on existing valid tables with no session |
| `Tracker.TimeTrackerApp.AddProject` | time_tracker.py:123-131 | empty or cancelled: ignored; taken name: refused, table unchanged; failing write: refused, table unchanged; otherwise exactly one project with that name and a fresh id appended; session and entries untouched |
| `Tracker.TimeTrackerApp.StartTimer` | time_tracker.py:133-143 | running: refused; no selection: ignored; unknown name: refused; succeeds exactly otherwise, setting both fields to the named project's id and now; on any non-success the session is unchanged; tables untouched |
| `Tracker.TimeTrackerApp.StopTimer` | time_tracker.py:145-156 | not running: ignored, nothing changes; failing write: refused, session kept, tables unchanged; otherwise exactly one entry (project, start, now, truncated duration, note) appended after the old ones and both fields cleared |
| `Tracker.TimeTrackerApp.UpdateTimer` | time_tracker.py:161-165 | a label exactly when the start is truthy, and it is `FormatTime` of the elapsed whole seconds and parses back to them; changes no state |
| `Tracker.TimeTrackerApp.ShowTotals` | time_tracker.py:173-180 | the daily and weekly totals for the local day of now, daily <= weekly for non-negative durations, and the message text; changes no state |

## Left out

- The Tkinter interface (`build_ui`, widget refresh loops, message boxes, the dialog, clearing the note field and resetting the label after a stop, `root.after` scheduling): presentation only; its inputs are parameters.
- The SQLite engine: `create_tables`, connection opening, `commit`, `on_close`. The tables are sequences, the UNIQUE constraint a duplicate check, and a failing insert or commit in `add_project` or `stop_timer` one `storeFails` flag of that handler.
- `Tracker.TimeTrackerApp.AddProject`: a failure other than the UNIQUE violation escapes the handler as an exception; the model returns `Refused(StoreUnavailable)` with the table unchanged, checks the UNIQUE constraint before the failure flag, and does not model an insert that succeeds followed by a failing commit (the row left pending on the open connection).
- `Tracker.TimeTrackerApp.StopTimer`: does not model an insert that succeeds followed by a commit that fails (the row left pending in the open transaction); both count as one failure that records nothing.
- `Store.NextRowId`: does not model SQLite's random rowid choice once the largest rowid reaches 2^63 - 1, which no table of this program reaches.
- The clock: Python reads float seconds; the model uses integer milliseconds, so fractions finer than a millisecond are not modelled.
- Calendar conversion: `datetime.fromtimestamp` uses the local time zone with daylight saving; the model uses one fixed UTC offset. The timestamps' text form in the table (and its comparison as text) is modelled by the instants themselves, which order the same way under a fixed offset.
- `export_csv`: file output through the CSV writer, with a query that has no ordering, so there is no listing order to state.
- Ties in `ORDER BY start_time DESC`: SQL leaves their order open; the model's sort picks one, and its contract promises only order and permutation.
