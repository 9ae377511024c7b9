/**
 * The two listings the window shows: project names `ORDER BY name`, and
 * entries joined with their project's name `ORDER BY start_time DESC`.
 */
module Listing {
  import opened Wrappers
  import opened Store

  ghost predicate Total<T(!new)>(le: (T, T) -> bool)
  {
    forall a, b :: le(a, b) || le(b, a)
  }

  ghost predicate Transitive<T(!new)>(le: (T, T) -> bool)
  {
    forall a, b, c :: le(a, b) && le(b, c) ==> le(a, c)
  }

  /** Each element is ordered before its successor. */
  ghost predicate SortedBy<T>(s: seq<T>, le: (T, T) -> bool)
  {
    forall i :: 0 < i < |s| ==> le(s[i - 1], s[i])
  }

  /** Insertion of `x` into `s` before the first element it is ordered before. */
  function Insert<T(!new)>(x: T, s: seq<T>, le: (T, T) -> bool): (r: seq<T>)
    ensures multiset(r) == multiset(s) + multiset{x}
    ensures |r| == |s| + 1 && (r[0] == x || (|s| > 0 && r[0] == s[0]))
    ensures Total(le) && SortedBy(s, le) ==> SortedBy(r, le)
  {
    if s == [] || le(x, s[0]) then [x] + s
    else
      assert s == [s[0]] + s[1..];
      [s[0]] + Insert(x, s[1..], le)
  }

  /** The rows of `s` in the order `le`; stands for an SQL `ORDER BY`. */
  function SortBy<T(!new)>(s: seq<T>, le: (T, T) -> bool): (r: seq<T>)
    ensures multiset(r) == multiset(s) && |r| == |s|
    ensures Total(le) ==> SortedBy(r, le)
  {
    if s == [] then []
    else
      assert s == [s[0]] + s[1..];
      Insert(s[0], SortBy(s[1..], le), le)
  }

  /** For a transitive order, a list sorted pair by pair is sorted throughout. */
  lemma {:induction false} SortedEverywhere<T(!new)>(s: seq<T>, le: (T, T) -> bool)
    requires Transitive(le) && SortedBy(s, le)
    ensures forall i, j :: 0 <= i < j < |s| ==> le(s[i], s[j])
  {
    if |s| > 1 {
      var p := s[..|s| - 1];
      assert SortedBy(p, le);
      SortedEverywhere(p, le);
      forall i, j | 0 <= i < j < |s| ensures le(s[i], s[j]) {
        if j < |s| - 1 {
          assert le(p[i], p[j]);
        } else if i < j - 1 {
          assert le(p[i], p[j - 1]);
        }
      }
    }
  }

  /** SQLite's BINARY collation: code point by code point, a proper prefix first. */
  predicate NameLe(a: string, b: string)
  {
    if a == [] then true
    else if b == [] then false
    else if a[0] != b[0] then a[0] < b[0]
    else NameLe(a[1..], b[1..])
  }

  lemma {:induction false} NameLeTotalAt(a: string, b: string)
    ensures NameLe(a, b) || NameLe(b, a)
  {
    if a != [] && b != [] && a[0] == b[0] {
      NameLeTotalAt(a[1..], b[1..]);
    }
  }

  lemma {:induction false} NameLeTransitiveAt(a: string, b: string, c: string)
    requires NameLe(a, b) && NameLe(b, c)
    ensures NameLe(a, c)
  {
    if a != [] && b != [] && c != [] && a[0] == b[0] && b[0] == c[0] {
      NameLeTransitiveAt(a[1..], b[1..], c[1..]);
    }
  }

  lemma NameOrder()
    ensures Total(NameLe) && Transitive(NameLe)
  {
    forall a, b ensures NameLe(a, b) || NameLe(b, a) {
      NameLeTotalAt(a, b);
    }
    forall a, b, c | NameLe(a, b) && NameLe(b, c) ensures NameLe(a, c) {
      NameLeTransitiveAt(a, b, c);
    }
  }

  function Names(ps: seq<Project>): (ns: seq<string>)
    ensures |ns| == |ps| && forall i :: 0 <= i < |ps| ==> ns[i] == ps[i].name
  {
    seq(|ps|, i requires 0 <= i < |ps| => ps[i].name)
  }

  /** `SELECT name FROM projects ORDER BY name`: every name once, in ascending order. */
  function ProjectListing(ps: seq<Project>): (r: seq<string>)
    ensures multiset(r) == multiset(Names(ps))
    ensures forall i, j :: 0 <= i < j < |r| ==> NameLe(r[i], r[j])
  {
    var r := SortBy(Names(ps), NameLe);
    NameOrder();
    SortedEverywhere(r, NameLe);
    r
  }

  lemma {:induction false} NamesCount(ps: seq<Project>, n: string)
    requires forall i, j :: 0 <= i < j < |ps| ==> ps[i].name != ps[j].name
    ensures multiset(Names(ps))[n] == (if NameTaken(ps, n) then 1 else 0)
  {
    if ps != [] {
      var rest := ps[1..];
      assert Names(ps) == [ps[0].name] + Names(rest);
      NamesCount(rest, n);
      if ps[0].name == n {
        assert !NameTaken(rest, n) by {
          forall i | 0 <= i < |rest| ensures rest[i].name != n {
            assert rest[i] == ps[i + 1];
          }
        }
      } else {
        assert NameTaken(ps, n) ==> NameTaken(rest, n) by {
          if NameTaken(ps, n) {
            var i :| 0 <= i < |ps| && ps[i].name == n;
            assert rest[i - 1].name == n;
          }
        }
        assert NameTaken(rest, n) ==> NameTaken(ps, n) by {
          if NameTaken(rest, n) {
            var i :| 0 <= i < |rest| && rest[i].name == n;
            assert ps[i + 1].name == n;
          }
        }
      }
    }
  }

  /** With the UNIQUE constraint on names, a stored name is listed exactly once and any other name never. */
  lemma NameListedOnce(ps: seq<Project>, n: string)
    requires forall i, j :: 0 <= i < j < |ps| ==> ps[i].name != ps[j].name
    ensures multiset(ProjectListing(ps))[n] == (if NameTaken(ps, n) then 1 else 0)
  {
    NamesCount(ps, n);
  }

  /** One line of the entry table: the project's name, start, end, duration and note. */
  datatype EntryRow = EntryRow(project: string, start: int, end: int, duration: int, note: string)

  /** `entries JOIN projects ON entries.project_id = projects.id`, before ordering. */
  function Joined(es: seq<Entry>, ps: seq<Project>): seq<EntryRow>
  {
    if es == [] then []
    else
      var e := es[0];
      var rest := Joined(es[1..], ps);
      match NameOf(ps, e.projectId)
      case Some(name) => [EntryRow(name, e.start, e.end, e.duration, e.note)] + rest
      case None => rest
  }

  /** The row an entry is shown as, when its project exists. */
  function RowOf(e: Entry, ps: seq<Project>): EntryRow
    requires HasProject(ps, e.projectId)
  {
    EntryRow(NameOf(ps, e.projectId).value, e.start, e.end, e.duration, e.note)
  }

  /** In a valid store no entry is lost to the join: row `i` shows entry `i`. */
  lemma {:induction false} JoinedComplete(es: seq<Entry>, ps: seq<Project>)
    requires forall i :: 0 <= i < |es| ==> HasProject(ps, es[i].projectId)
    ensures |Joined(es, ps)| == |es|
    ensures forall i :: 0 <= i < |es| ==> Joined(es, ps)[i] == RowOf(es[i], ps)
  {
    if es != [] {
      JoinedComplete(es[1..], ps);
      var r := Joined(es, ps);
      forall i | 0 < i < |es| ensures r[i] == RowOf(es[i], ps) {
        assert es[1..][i - 1] == es[i];
      }
    }
  }

  predicate StartsNoEarlier(a: EntryRow, b: EntryRow) { a.start >= b.start }

  /** The entry table: all joined rows, most recent start first. */
  function EntryListing(es: seq<Entry>, ps: seq<Project>): (r: seq<EntryRow>)
    ensures multiset(r) == multiset(Joined(es, ps))
    ensures forall i, j :: 0 <= i < j < |r| ==> r[i].start >= r[j].start
  {
    var r := SortBy(Joined(es, ps), StartsNoEarlier);
    assert Total(StartsNoEarlier) && Transitive(StartsNoEarlier);
    SortedEverywhere(r, StartsNoEarlier);
    assert forall i, j :: 0 <= i < j < |r| ==> StartsNoEarlier(r[i], r[j]);
    r
  }

  /** In a list ordered by descending start, a row that started strictly after all others is first. */
  lemma LatestIsHead(r: seq<EntryRow>, x: EntryRow)
    requires x in r
    requires forall i, j :: 0 <= i < j < |r| ==> r[i].start >= r[j].start
    requires forall y :: y in r && y != x ==> y.start < x.start
    ensures r[0] == x
  {
    var k :| 0 <= k < |r| && r[k] == x;
    if k > 0 {
      assert r[0].start >= r[k].start;
    }
  }

  /** Rows in the same multiset have the same members. */
  lemma SameMembers(a: seq<EntryRow>, b: seq<EntryRow>, y: EntryRow)
    requires multiset(a) == multiset(b)
    ensures y in a <==> y in b
  {
    assert y in a <==> y in multiset(a);
    assert y in b <==> y in multiset(b);
  }

  /** Joining an entry that started after all others: its row is last, and every other row started earlier. */
  lemma JoinedWithNewest(es: seq<Entry>, ps: seq<Project>, e: Entry)
    requires forall i :: 0 <= i < |es| ==> HasProject(ps, es[i].projectId)
    requires HasProject(ps, e.projectId)
    requires forall i :: 0 <= i < |es| ==> es[i].start < e.start
    ensures RowOf(e, ps) in Joined(es + [e], ps)
    ensures forall y :: y in Joined(es + [e], ps) && y != RowOf(e, ps) ==> y.start < e.start
  {
    var all := es + [e];
    assert forall i :: 0 <= i < |all| ==> HasProject(ps, all[i].projectId) by {
      forall i | 0 <= i < |all| ensures HasProject(ps, all[i].projectId) {
        if i < |es| { assert all[i] == es[i]; }
      }
    }
    JoinedComplete(all, ps);
    var rows := Joined(all, ps);
    assert rows[|es|] == RowOf(e, ps);
    forall y | y in rows && y != RowOf(e, ps) ensures y.start < e.start {
      var m :| 0 <= m < |rows| && rows[m] == y;
      assert all[m] == es[m];
    }
  }

  /** An entry that started after every other entry heads the listing. */
  lemma NewestEntryListedFirst(es: seq<Entry>, ps: seq<Project>, e: Entry)
    requires forall i :: 0 <= i < |es| ==> HasProject(ps, es[i].projectId)
    requires HasProject(ps, e.projectId)
    requires forall i :: 0 <= i < |es| ==> es[i].start < e.start
    ensures EntryListing(es + [e], ps)[0] == RowOf(e, ps)
  {
    JoinedWithNewest(es, ps, e);
    var rows := Joined(es + [e], ps);
    var r := EntryListing(es + [e], ps);
    var x := RowOf(e, ps);
    SameMembers(r, rows, x);
    forall y | y in r && y != x ensures y.start < x.start {
      SameMembers(r, rows, y);
    }
    LatestIsHead(r, x);
  }
}
