/**
 * The timer session of `TimeTrackerApp`: the fields `active_project_id` and
 * `start_time`, the two tables, and the button and tick handlers that read and
 * update them. Dialog input, the list selection, the clock reading and a
 * failing database write arrive as parameters.
 */
module Tracker {
  import opened Wrappers
  import opened Clock
  import opened Format
  import opened Store
  import opened Listing
  import opened Totals

  /** The failures the handlers report instead of changing state. */
  datatype Error = AlreadyRunning | UnknownProject | DuplicateProject | StoreUnavailable

  /** `Ignored` is a handler's silent early return; `Refused` is a warning, an error box or an exception. */
  datatype Status = Changed | Ignored | Refused(error: Error)

  /** Python truthiness of an optional number: `None` and `0` are false. */
  predicate Truthy(o: Option<int>)
  {
    o.Some? && o.value != 0
  }

  /** `int(time.time() - self.start_time)`, computed by `update_timer` only when `start_time` is truthy. */
  function Elapsed(startTime: Option<int>, now: int): (r: Option<int>)
    ensures r.Some? <==> Truthy(startTime)
    ensures r.Some? ==> r.value == TruncSeconds(now - startTime.value)
    ensures r.Some? && now >= startTime.value ==> r.value >= 0
  {
    if Truthy(startTime) then Some(TruncSeconds(now - startTime.value)) else None
  }

  class TimeTrackerApp {
    var projects: seq<Project>
    var entries: seq<Entry>
    var activeProjectId: Option<int>
    var startTime: Option<int>
    /** The local time zone's offset from UTC, in milliseconds, used for calendar dates. */
    const utcOffset: int

    /** The session fields are set together, a running session names a stored project, and the tables are valid. */
    ghost predicate Valid()
      reads this
    {
      StoreValid(projects, entries) &&
      (activeProjectId.Some? <==> startTime.Some?) &&
      (activeProjectId.Some? ==> HasProject(projects, activeProjectId.value))
    }

    /** A timer is running. */
    predicate Running()
      reads this
    {
      activeProjectId.Some?
    }

    /** Opening the application on the tables already in the database file, with no timer running. */
    constructor (projects0: seq<Project>, entries0: seq<Entry>, utcOffset: int)
      requires StoreValid(projects0, entries0)
      ensures Valid() && !Running() && startTime == None
      ensures projects == projects0 && entries == entries0 && this.utcOffset == utcOffset
    {
      projects, entries := projects0, entries0;
      activeProjectId, startTime := None, None;
      this.utcOffset := utcOffset;
    }

    /**
     * `add_project` with the dialog's answer (`None` when it was cancelled):
     * an empty or missing name is ignored, a name already present violates the
     * UNIQUE constraint and changes nothing, and any other name adds one
     * project unless the insert or its commit fails (`storeFails`), an
     * exception the handler does not catch, which records nothing.
     */
    method AddProject(name: Option<string>, storeFails: bool) returns (st: Status)
      requires Valid()
      modifies this
      ensures Valid()
      ensures entries == old(entries) && activeProjectId == old(activeProjectId) && startTime == old(startTime)
      ensures (name.None? || name.value == "") ==> st == Ignored && projects == old(projects)
      ensures name.Some? && name.value != "" && NameTaken(old(projects), name.value) ==>
                st == Refused(DuplicateProject) && projects == old(projects)
      ensures name.Some? && name.value != "" && !NameTaken(old(projects), name.value) && storeFails ==>
                st == Refused(StoreUnavailable) && projects == old(projects)
      ensures name.Some? && name.value != "" && !NameTaken(old(projects), name.value) && !storeFails ==>
                st == Changed && projects == old(projects) + [NewProject(old(projects), name.value)]
    {
      if name.None? || name.value == "" {
        return Ignored;
      }
      if NameTaken(projects, name.value) {
        return Refused(DuplicateProject);
      }
      if storeFails {
        return Refused(StoreUnavailable);
      }
      AddProjectKeepsStoreValid(projects, entries, name.value);
      projects := projects + [NewProject(projects, name.value)];
      assert activeProjectId.Some? ==> HasProject(projects, activeProjectId.value) by {
        if activeProjectId.Some? {
          var k :| 0 <= k < |old(projects)| && old(projects)[k].id == activeProjectId.value;
          assert projects[k] == old(projects)[k];
        }
      }
      st := Changed;
    }

    /**
     * `start_timer` with the selected project name (`None` when nothing is
     * selected): refused while a timer runs, ignored without a selection,
     * refused when no project has that name (the lookup finds no row), and
     * otherwise starts a session on that project at `now`.
     */
    method StartTimer(selection: Option<string>, now: int) returns (st: Status)
      requires Valid()
      modifies this
      ensures Valid()
      ensures projects == old(projects) && entries == old(entries)
      ensures old(Running()) ==> st == Refused(AlreadyRunning)
      ensures !old(Running()) && selection.None? ==> st == Ignored
      ensures !old(Running()) && selection.Some? && !NameTaken(projects, selection.value) ==>
                st == Refused(UnknownProject)
      ensures st == Changed <==> !old(Running()) && selection.Some? && NameTaken(projects, selection.value)
      ensures st == Changed ==>
                Running() && startTime == Some(now) &&
                exists i :: 0 <= i < |projects| && projects[i] == Project(activeProjectId.value, selection.value)
      ensures st != Changed ==> activeProjectId == old(activeProjectId) && startTime == old(startTime)
    {
      assert Running() ==> Truthy(activeProjectId) by {
        if Running() {
          var k :| 0 <= k < |projects| && projects[k].id == activeProjectId.value;
        }
      }
      if Truthy(activeProjectId) {
        return Refused(AlreadyRunning);
      }
      if selection.None? {
        return Ignored;
      }
      var id := LookupId(projects, selection.value);
      if id.None? {
        return Refused(UnknownProject);
      }
      activeProjectId := id;
      startTime := Some(now);
      st := Changed;
    }

    /**
     * `stop_timer` at `now` with the note field's text: ignored when no timer
     * runs; otherwise the entry is inserted and committed before the session
     * is cleared, so a failing write (`storeFails`) leaves the session running
     * and the tables as they were.
     */
    method StopTimer(note: string, now: int, storeFails: bool) returns (st: Status)
      requires Valid()
      modifies this
      ensures Valid()
      ensures projects == old(projects)
      ensures !old(Running()) ==>
                st == Ignored && entries == old(entries) && activeProjectId == old(activeProjectId) && startTime == old(startTime)
      ensures old(Running()) && storeFails ==>
                st == Refused(StoreUnavailable) && entries == old(entries) &&
                activeProjectId == old(activeProjectId) && startTime == old(startTime)
      ensures old(Running()) && !storeFails ==>
                st == Changed && !Running() && startTime == None &&
                entries == old(entries) + [NewEntry(old(entries), old(activeProjectId).value, old(startTime).value, now, note)]
      ensures st == Changed ==>
                var e := entries[|entries| - 1];
                e.end == now && e.duration == TruncSeconds(e.end - e.start) && (e.start <= e.end ==> e.duration >= 0)
    {
      assert Running() ==> Truthy(activeProjectId) by {
        if Running() {
          var k :| 0 <= k < |projects| && projects[k].id == activeProjectId.value;
        }
      }
      if !Truthy(activeProjectId) {
        return Ignored;
      }
      if storeFails {
        return Refused(StoreUnavailable);
      }
      AddEntryKeepsStoreValid(projects, entries, activeProjectId.value, startTime.value, now, note);
      entries := entries + [NewEntry(entries, activeProjectId.value, startTime.value, now, note)];
      activeProjectId := None;
      startTime := None;
      st := Changed;
    }

    /**
     * One tick of `update_timer`: the new text of the timer label, or `None`
     * when the label is left as it is. The text reads back as the whole
     * seconds elapsed since the session started. It changes no state.
     */
    method UpdateTimer(now: int) returns (text: Option<string>)
      ensures text.Some? <==> Truthy(startTime)
      ensures text.Some? ==> text.value == FormatTime(TruncSeconds(now - startTime.value))
      ensures text.Some? ==> ParseClock(text.value) == Some(TruncSeconds(now - startTime.value))
    {
      var elapsed := Elapsed(startTime, now);
      if elapsed.Some? {
        FormatTimeRoundTrip(elapsed.value);
        text := Some(FormatTime(elapsed.value));
      } else {
        text := None;
      }
    }

    /**
     * `show_totals` at `now`: the sums for today and for the week that began
     * on the last Monday, and the message shown. Today never exceeds the week
     * while no entry has a negative duration.
     */
    method ShowTotals(now: int) returns (daily: int, weekly: int, message: string)
      ensures daily == DailyTotal(entries, LocalDay(now, utcOffset), utcOffset)
      ensures weekly == WeeklyTotal(entries, LocalDay(now, utcOffset), utcOffset)
      ensures NonNegativeDurations(entries) ==> 0 <= daily <= weekly
      ensures message == "Today: " + FormatTime(daily) + "\nThis Week: " + FormatTime(weekly)
    {
      var today := LocalDay(now, utcOffset);
      daily := SumWhere(entries, utcOffset, OnDay(today));
      weekly := SumWhere(entries, utcOffset, FromDay(WeekStart(today)));
      if NonNegativeDurations(entries) {
        DailyAtMostWeekly(entries, today, utcOffset);
      }
      message := "Today: " + FormatTime(daily) + "\nThis Week: " + FormatTime(weekly);
    }
  }

  /** A session from project creation to the entry it leaves behind, on a simulated clock. */
  method AlphaScenario(t0: int)
  {
    var app := new TimeTrackerApp([], [], 0);
    var st := app.AddProject(Some("Alpha"), false);
    assert st == Changed && app.projects == [Project(1, "Alpha")];
    st := app.AddProject(Some("Alpha"), false);
    assert st == Refused(DuplicateProject) && |app.projects| == 1;
    st := app.StartTimer(Some("Alpha"), t0);
    assert st == Changed && app.activeProjectId == Some(1);
    st := app.StartTimer(Some("Alpha"), t0 + 1000);
    assert st == Refused(AlreadyRunning) && app.startTime == Some(t0);
    st := app.StopTimer("wrote spec", t0 + 125_000, false);
    assert st == Changed && app.entries == [Entry(1, 1, t0, t0 + 125_000, 125, "wrote spec")];
    st := app.StopTimer("again", t0 + 130_000, false);
    assert st == Ignored && |app.entries| == 1;
  }
}
