/** What becomes of each incoming project: added, replaced or skipped, by its name. */
module BundleFates {
  import opened Common
  import Decimals
  import opened Records
  import opened Bundle
  import opened BundleLaws
  import opened BundleCounts

  /** The names of the live projects. */
  function LiveNames(s: Data): set<string> {
    set p | p in s.projects && !s.projects[p].deleted :: s.projects[p].name
  }

  /** The row's name is one of these, or that of an earlier row. */
  ghost predicate NameComesUp(names: set<string>, rows: seq<ProjectRow>, i: nat) {
    i < |rows| && (rows[i].name in names || exists j :: 0 <= j < i && rows[j].name == rows[i].name)
  }

  /** How many rows have such a name. */
  function Repeats(names: set<string>, rows: seq<ProjectRow>): nat
    decreases |rows|
  {
    if rows == [] then 0
    else (if rows[0].name in names then 1 else 0) + Repeats(names + {rows[0].name}, rows[1..])
  }

  lemma ComesUpNext(names: set<string>, rows: seq<ProjectRow>, i: nat)
    requires i + 1 < |rows|
    ensures NameComesUp(names, rows, i + 1) <==> NameComesUp(names + {rows[0].name}, rows[1..], i)
  {
    forall j | 0 <= j < |rows[1..]| ensures rows[1..][j] == rows[j + 1] {}
    if rows[i + 1].name != rows[0].name && exists j :: 0 <= j < i + 1 && rows[j].name == rows[i + 1].name {
      var j :| 0 <= j < i + 1 && rows[j].name == rows[i + 1].name;
      assert rows[1..][j - 1] == rows[j];
    }
  }

  lemma CollidesByName(s: Data, name: string)
    ensures Collides(s, name) <==> name in LiveNames(s)
  {
  }

  /**
   Where the ids do not overlap, after a row its name is that of a live project, and the other live names are as
   before.
   */
  lemma NamesAfter(g: Progress, row: ProjectRow, from: Option<string>, plan: Plan, newId: Id)
    requires MergeProject(g, row, from, plan, newId).Some? && !plan.merge.KeepBoth? && !LiveProject(g.s, row.id)
    ensures LiveNames(MergeProject(g, row, from, plan, newId).value.s) == LiveNames(g.s) + {row.name}
    ensures forall p :: LiveProject(MergeProject(g, row, from, plan, newId).value.s, p) ==>
      LiveProject(g.s, p) || p == row.id
  {
    var s := MergeProject(g, row, from, plan, newId).value.s;
    CollidesByName(g.s, row.name);
    if Inserts(g.s, row, plan) {
      assert LiveProject(s, row.id) && s.projects[row.id].name == row.name;
      forall name | name in LiveNames(g.s) && name != row.name ensures name in LiveNames(s) {
        var p :| p in g.s.projects && !g.s.projects[p].deleted && g.s.projects[p].name == name;
        assert p in s.projects && s.projects[p] == g.s.projects[p];
      }
    }
  }

  /** How many of the rows are added, replaced and skipped. */
  ghost predicate CountsAre(g: Progress, h: Progress, rows: seq<ProjectRow>, plan: Plan) {
    var n := if plan.merge.KeepBoth? then 0 else Repeats(LiveNames(g.s), rows);
    && n <= |rows| && h.out.added == g.out.added + |rows| - n
    && h.out.replaced == g.out.replaced + (if plan.merge.Replace? then n else 0)
    && h.out.skipped == g.out.skipped + (if plan.merge.Skip? then n else 0)
  }

  lemma {:induction false} CountsByName(g: Progress, rows: seq<ProjectRow>, newIds: seq<Id>, from: Option<string>,
      plan: Plan)
    requires |newIds| == |rows| && MergeProjects(g, rows, newIds, from, plan).Some? && DistinctIds(rows)
    requires !plan.merge.KeepBoth? ==> forall i :: 0 <= i < |rows| ==> !LiveProject(g.s, rows[i].id)
    ensures CountsAre(g, MergeProjects(g, rows, newIds, from, plan).value, rows, plan)
    decreases |rows|
  {
    if rows != [] {
      var next := MergeProject(g, rows[0], from, plan, newIds[0]).value;
      forall i | 0 <= i < |rows[1..]| ensures rows[1..][i] == rows[i + 1] {}
      CollidesByName(g.s, rows[0].name);
      if !plan.merge.KeepBoth? { NamesAfter(g, rows[0], from, plan, newIds[0]); }
      CountsByName(next, rows[1..], newIds[1..], from, plan);
    }
  }

  /** Where each project is: under the id it had, or nowhere if it was skipped. */
  ghost predicate MapIs(g: Progress, h: Progress, rows: seq<ProjectRow>, plan: Plan) {
    && (forall k :: k in h.projects <==> k in g.projects || Identified(rows, k))
    && (forall k :: k in g.projects && !Identified(rows, k) ==> h.projects[k] == g.projects[k])
    && (forall i: nat :: i < |rows| ==>
          h.projects[rows[i].id] ==
          if plan.merge.Skip? && NameComesUp(LiveNames(g.s), rows, i) then None else Some(rows[i].id))
  }

  lemma MapNext(g: Progress, next: Progress, h: Progress, rows: seq<ProjectRow>, plan: Plan)
    requires rows != [] && DistinctIds(rows) && MapIs(next, h, rows[1..], plan)
    requires next.projects == g.projects[rows[0].id :=
      if plan.merge.Skip? && rows[0].name in LiveNames(g.s) then None else Some(rows[0].id)]
    requires plan.merge.Skip? ==> LiveNames(next.s) == LiveNames(g.s) + {rows[0].name}
    ensures MapIs(g, h, rows, plan)
  {
    RowsSplit(rows);
    forall i: nat | i < |rows|
      ensures h.projects[rows[i].id] ==
        if plan.merge.Skip? && NameComesUp(LiveNames(g.s), rows, i) then None else Some(rows[i].id)
    {
      if i > 0 {
        ComesUpNext(LiveNames(g.s), rows, i - 1);
        assert rows[1..][i - 1] == rows[i];
      } else {
        assert !Identified(rows[1..], rows[0].id) by {
          assert forall j :: 0 <= j < |rows[1..]| ==> rows[1..][j] == rows[j + 1];
        }
      }
    }
  }

  lemma {:induction false} MapByName(g: Progress, rows: seq<ProjectRow>, newIds: seq<Id>, from: Option<string>,
      plan: Plan)
    requires |newIds| == |rows| && MergeProjects(g, rows, newIds, from, plan).Some? && DistinctIds(rows)
    requires !plan.merge.KeepBoth? ==> forall i :: 0 <= i < |rows| ==> !LiveProject(g.s, rows[i].id)
    ensures MapIs(g, MergeProjects(g, rows, newIds, from, plan).value, rows, plan)
    decreases |rows|
  {
    if rows != [] {
      var next := MergeProject(g, rows[0], from, plan, newIds[0]).value;
      forall i | 0 <= i < |rows[1..]| ensures rows[1..][i] == rows[i + 1] {}
      CollidesByName(g.s, rows[0].name);
      if !plan.merge.KeepBoth? { NamesAfter(g, rows[0], from, plan, newIds[0]); }
      MapByName(next, rows[1..], newIds[1..], from, plan);
      MapNext(g, next, MergeProjects(g, rows, newIds, from, plan).value, rows, plan);
    }
  }

  /**
   What becomes of the projects, where no ids overlap. "Keep both" adds them all. The others look at the names: a row
   is replaced, or skipped, exactly if its name is that of a project that is live here or of an earlier row, and the
   rest are added. The report counts just so; and the tasks that come along are exactly those of projects that were
   not skipped.
   */
  lemma FatesExactly(d: Data, b: Contents, plan: Plan, newIds: seq<Id>)
    requires |newIds| == |b.projects| && Applied(d, b, plan, newIds).Some? && DistinctIds(b.projects)
    requires !plan.merge.KeepBoth? ==> forall row :: row in b.projects ==> !LiveProject(d, row.id)
    ensures var o := Applied(d, b, plan, newIds).value.out;
      var n := Repeats(LiveNames(d), b.projects);
      && n <= |b.projects|
      && (plan.merge.KeepBoth? ==> o.added == |b.projects| && o.replaced == 0 == o.skipped)
      && (plan.merge.Replace? ==> o.added == |b.projects| - n && o.replaced == n && o.skipped == 0)
      && (plan.merge.Skip? ==> o.added == |b.projects| - n && o.replaced == 0 && o.skipped == n)
    ensures forall t: TaskRow :: Comes(Imported(d, b, plan, newIds).projects, t) <==>
      exists i: nat :: i < |b.projects| && b.projects[i].id == t.project
        && !(plan.merge.Skip? && NameComesUp(LiveNames(d), b.projects, i))
  {
    var g := Imported(d, b, plan, newIds);
    forall i | 0 <= i < |b.projects| && !plan.merge.KeepBoth? ensures !LiveProject(d, b.projects[i].id) {
      assert b.projects[i] in b.projects;
    }
    CountsByName(Start(d), b.projects, newIds, b.sourceHome, plan);
    MapByName(Start(d), b.projects, newIds, b.sourceHome, plan);
    RepeatsAreRows(LiveNames(d), b.projects);
    LaterLoopsKeepFates(d, b, plan, newIds);
  }

  lemma {:induction false} RepeatsAreRows(names: set<string>, rows: seq<ProjectRow>)
    ensures Repeats(names, rows) <= |rows|
    decreases |rows|
  {
    if rows != [] { RepeatsAreRows(names + {rows[0].name}, rows[1..]); }
  }

  lemma LaterLoopsKeepFates(d: Data, b: Contents, plan: Plan, newIds: seq<Id>)
    requires |newIds| == |b.projects| && Applied(d, b, plan, newIds).Some?
    ensures var o, out := Applied(d, b, plan, newIds).value.out, Imported(d, b, plan, newIds).out;
      o.added == out.added && o.replaced == out.replaced && o.skipped == out.skipped
  {
    var g, from, to := Imported(d, b, plan, newIds), b.sourceHome, plan.newHome;
    var coming := Coming(g.projects, b.tasks);
    TasksCount(g, b.tasks);
    var h := MergeTasks(g, b.tasks).value;
    ResourcesCount(h, b.resources, coming, from, to);
    PinsCount(MergeResources(h, b.resources, coming, from, to).value, b.pins, coming, from, to);
  }

  // ---------------------------------------------------------------- the name a project gets

  /** The names that are tried for one that is taken. */
  function Candidate(base: string, i: nat): string {
    base + " (from the other Mac)" + (if i == 1 then "" else " " + Decimals.Decimal(i))
  }

  /** The first candidate that is free, and after 999 of them one with a new id. */
  ghost predicate FirstFree(taken: set<string>, base: string, newId: Id, name: string) {
    if exists i :: 1 <= i < 1000 && Candidate(base, i) !in taken
    then exists i ::
      1 <= i < 1000 && name == Candidate(base, i) && name !in taken && forall j :: 1 <= j < i ==>
        Candidate(base, j) in taken
    else name == base + " (from the other Mac) " + newId
  }

  lemma CandidateIs(base: string, i: nat)
    requires i >= 1
    ensures Candidate(base, i) == Suffixed(base, i)
  {
    if i >= 2 { SuffixedIs(base, i); }
  }

  lemma {:induction false} FindsFirstFree(taken: set<string>, base: string, k: nat, newId: Id)
    requires 1 <= k <= 1000 && forall j :: 1 <= j < k ==> Candidate(base, j) in taken
    ensures FirstFree(taken, base, newId, UniqueName(taken, base, k, newId))
    decreases 1000 - k
  {
    if k < 1000 {
      CandidateIs(base, k);
      if Candidate(base, k) in taken { FindsFirstFree(taken, base, k + 1, newId); }
    }
  }

  lemma FirstNameGiven(g: Progress, row: ProjectRow, newId: Id, from: Option<string>, plan: Plan)
    requires MergeProject(g, row, from, plan, newId).Some? && plan.merge == KeepBoth
    ensures var h := MergeProject(g, row, from, plan, newId).value;
      && LiveProject(h.s, row.id)
      && var name := h.s.projects[row.id].name;
         if row.name in LiveNames(g.s) then FirstFree(Names(g.s), row.name, newId, name) else name == row.name
  {
    CollidesByName(g.s, row.name);
    FindsFirstFree(Names(g.s), row.name, 1, newId);
  }

  /** Under "keep both" a project keeps its name exactly if no live project has it when its turn comes. */
  lemma {:induction false} NamesGiven(
      g: Progress, rows: seq<ProjectRow>, newIds: seq<Id>, from: Option<string>, plan: Plan, i: nat)
    requires |newIds| == |rows| && MergeProjects(g, rows, newIds, from, plan).Some? && plan.merge == KeepBoth
      && NewEach(g, rows, newIds, from, plan) && DistinctIds(rows) && i < |rows|
    ensures MergeProjects(g, rows[..i], newIds[..i], from, plan).Some?
    ensures rows[i].id in MergeProjects(g, rows, newIds, from, plan).value.s.projects
    ensures var s := MergeProjects(g, rows[..i], newIds[..i], from, plan).value.s;
      var name := MergeProjects(g, rows, newIds, from, plan).value.s.projects[rows[i].id].name;
      if rows[i].name in LiveNames(s) then FirstFree(Names(s), rows[i].name, newIds[i], name) else name == rows[i].name
    decreases |rows|
  {
    var next := MergeProject(g, rows[0], from, plan, newIds[0]).value;
    forall j | 0 <= j < |rows[1..]| ensures rows[1..][j] == rows[j + 1] {}
    if i == 0 {
      FirstNameGiven(g, rows[0], newIds[0], from, plan);
      ProjectStays(next, rows[1..], newIds[1..], from, plan, rows[0].id);
    } else {
      NamesGiven(next, rows[1..], newIds[1..], from, plan, i - 1);
      assert rows[..i][1..] == rows[1..][..i - 1] && newIds[..i][1..] == newIds[1..][..i - 1];
    }
  }
}
