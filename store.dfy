/**
 * The two SQLite tables of the tracker, `projects(id, name UNIQUE)` and
 * `entries(id, project_id, start_time, end_time, duration, note)`, as
 * in-memory sequences in insertion order.
 */
module Store {
  import opened Wrappers
  import opened Clock

  datatype Project = Project(id: int, name: string)

  /** A completed interval; `start` and `end` are instants in milliseconds. */
  datatype Entry = Entry(id: int, projectId: int, start: int, end: int, duration: int, note: string)

  function ProjectIds(ps: seq<Project>): (ids: seq<int>)
    ensures |ids| == |ps| && forall i :: 0 <= i < |ps| ==> ids[i] == ps[i].id
  {
    seq(|ps|, i requires 0 <= i < |ps| => ps[i].id)
  }

  function EntryIds(es: seq<Entry>): (ids: seq<int>)
    ensures |ids| == |es| && forall i :: 0 <= i < |es| ==> ids[i] == es[i].id
  {
    seq(|es|, i requires 0 <= i < |es| => es[i].id)
  }

  /**
   * SQLite's choice of rowid for a row inserted without one into a table whose
   * key is `INTEGER PRIMARY KEY`: one more than the largest rowid present, or 1
   * when the table is empty.
   */
  function NextRowId(ids: seq<int>): (r: int)
    ensures forall i :: 0 <= i < |ids| ==> ids[i] < r
    ensures |ids| == 0 ==> r == 1
    ensures |ids| > 0 ==> exists i :: 0 <= i < |ids| && ids[i] == r - 1
  {
    if |ids| == 0 then 1 else MaxId(ids) + 1
  }

  function MaxId(ids: seq<int>): (m: int)
    requires |ids| > 0
    ensures forall i :: 0 <= i < |ids| ==> ids[i] <= m
    ensures exists i :: 0 <= i < |ids| && ids[i] == m
  {
    if |ids| == 1 then ids[0]
    else
      var prev := MaxId(ids[..|ids| - 1]);
      if ids[|ids| - 1] > prev then ids[|ids| - 1] else prev
  }

  predicate HasProject(ps: seq<Project>, id: int)
  {
    exists i :: 0 <= i < |ps| && ps[i].id == id
  }

  predicate NameTaken(ps: seq<Project>, name: string)
  {
    exists i :: 0 <= i < |ps| && ps[i].name == name
  }

  /** `SELECT id FROM projects WHERE name=?`. */
  function LookupId(ps: seq<Project>, name: string): (r: Option<int>)
    ensures r.Some? <==> NameTaken(ps, name)
    ensures r.Some? ==> exists i :: 0 <= i < |ps| && ps[i] == Project(r.value, name)
  {
    if |ps| == 0 then None
    else if ps[0].name == name then Some(ps[0].id)
    else
      var r := LookupId(ps[1..], name);
      assert NameTaken(ps, name) ==> NameTaken(ps[1..], name) by {
        if NameTaken(ps, name) {
          var i :| 0 <= i < |ps| && ps[i].name == name;
          assert ps[1..][i - 1].name == name;
        }
      }
      assert r.Some? ==> exists i :: 0 <= i < |ps| && ps[i] == Project(r.value, name) by {
        if r.Some? {
          var i :| 0 <= i < |ps[1..]| && ps[1..][i] == Project(r.value, name);
          assert ps[i + 1] == Project(r.value, name);
        }
      }
      r
  }

  /** `SELECT name FROM projects WHERE id=?`, the lookup behind the join of the entry listing. */
  function NameOf(ps: seq<Project>, id: int): (r: Option<string>)
    ensures r.Some? <==> HasProject(ps, id)
    ensures r.Some? ==> exists i :: 0 <= i < |ps| && ps[i] == Project(id, r.value)
  {
    if |ps| == 0 then None
    else if ps[0].id == id then Some(ps[0].name)
    else
      var r := NameOf(ps[1..], id);
      assert HasProject(ps, id) ==> HasProject(ps[1..], id) by {
        if HasProject(ps, id) {
          var i :| 0 <= i < |ps| && ps[i].id == id;
          assert ps[1..][i - 1].id == id;
        }
      }
      assert r.Some? ==> exists i :: 0 <= i < |ps| && ps[i] == Project(id, r.value) by {
        if r.Some? {
          var i :| 0 <= i < |ps[1..]| && ps[1..][i] == Project(id, r.value);
          assert ps[i + 1] == Project(id, r.value);
        }
      }
      r
  }

  /** The projects table: positive distinct ids, and distinct non-empty names (the UNIQUE constraint). */
  ghost predicate ProjectsValid(ps: seq<Project>)
  {
    (forall i :: 0 <= i < |ps| ==> ps[i].id >= 1 && ps[i].name != "") &&
    (forall i, j :: 0 <= i < j < |ps| ==> ps[i].id != ps[j].id && ps[i].name != ps[j].name)
  }

  /**
   * The entries table: positive distinct ids, every entry refers to a project,
   * and its duration is its span truncated to whole seconds.
   */
  ghost predicate EntriesValid(es: seq<Entry>, ps: seq<Project>)
  {
    (forall i :: 0 <= i < |es| ==>
       es[i].id >= 1 && HasProject(ps, es[i].projectId) &&
       es[i].duration == TruncSeconds(es[i].end - es[i].start)) &&
    (forall i, j :: 0 <= i < j < |es| ==> es[i].id != es[j].id)
  }

  ghost predicate StoreValid(ps: seq<Project>, es: seq<Entry>)
  {
    ProjectsValid(ps) && EntriesValid(es, ps)
  }

  /** The row `INSERT INTO projects(name) VALUES (?)` adds. */
  function NewProject(ps: seq<Project>, name: string): Project
  {
    Project(NextRowId(ProjectIds(ps)), name)
  }

  /** The row `INSERT INTO entries(...)` adds when a timer on `projectId` started at `start` stops at `end`. */
  function NewEntry(es: seq<Entry>, projectId: int, start: int, end: int, note: string): Entry
  {
    Entry(NextRowId(EntryIds(es)), projectId, start, end, TruncSeconds(end - start), note)
  }

  /** Inserting a new non-empty name keeps both tables valid and the existing ids. */
  lemma AddProjectKeepsStoreValid(ps: seq<Project>, es: seq<Entry>, name: string)
    requires StoreValid(ps, es)
    requires name != "" && !NameTaken(ps, name)
    ensures StoreValid(ps + [NewProject(ps, name)], es)
    ensures NewProject(ps, name).id >= 1 && !HasProject(ps, NewProject(ps, name).id)
  {
    var ps' := ps + [NewProject(ps, name)];
    var ids := ProjectIds(ps);
    assert forall i :: 0 <= i < |ps| ==> ps[i].id < NewProject(ps, name).id by {
      forall i | 0 <= i < |ps| ensures ps[i].id < NewProject(ps, name).id {
        assert ids[i] == ps[i].id;
      }
    }
    forall i | 0 <= i < |es| ensures HasProject(ps', es[i].projectId) {
      var k :| 0 <= k < |ps| && ps[k].id == es[i].projectId;
      assert ps'[k].id == es[i].projectId;
    }
    if |ps| > 0 {
      assert ps[0].id >= 1;
    }
  }

  /** Appending the entry of a stopped timer keeps both tables valid. */
  lemma AddEntryKeepsStoreValid(ps: seq<Project>, es: seq<Entry>, projectId: int, start: int, end: int, note: string)
    requires StoreValid(ps, es) && HasProject(ps, projectId)
    ensures StoreValid(ps, es + [NewEntry(es, projectId, start, end, note)])
    ensures NewEntry(es, projectId, start, end, note).id >= 1
  {
    var e := NewEntry(es, projectId, start, end, note);
    var ids := EntryIds(es);
    assert forall i :: 0 <= i < |es| ==> es[i].id < e.id by {
      forall i | 0 <= i < |es| ensures es[i].id < e.id {
        assert ids[i] == es[i].id;
      }
    }
    if |es| > 0 {
      assert es[0].id >= 1;
    }
  }
}
