/** When the projects that a merge brings remember a task of their own. */
module MergedMemory {
  import opened Common
  import opened Records
  import opened RecordsSteps
  import opened Bundle
  import opened BundleLaws
  import opened BundleArrivals
  import opened MergedRuns

  // ---------------------------------------------------------------- the tasks after a merge

  /** The task comes along, and no later one that does has its id. */
  ghost predicate Lasts(projects: map<Id, Option<Id>>, rows: seq<TaskRow>, i: nat) {
    && i < |rows| && Comes(projects, rows[i])
    && forall k :: i < k < |rows| && Comes(projects, rows[k]) ==> rows[k].id != rows[i].id
  }

  ghost predicate Undisturbed(projects: map<Id, Option<Id>>, rows: seq<TaskRow>, id: Id) {
    forall k :: 0 <= k < |rows| && Comes(projects, rows[k]) ==> rows[k].id != id
  }

  ghost predicate Brought(projects: map<Id, Option<Id>>, rows: seq<TaskRow>, id: Id, row: Task) {
    exists i: nat :: Lasts(projects, rows, i) && rows[i].id == id && row == TaskOf(rows[i], projects)
  }

  lemma UndisturbedNext(projects: map<Id, Option<Id>>, rows: seq<TaskRow>, id: Id)
    requires rows != []
    ensures Undisturbed(projects, rows, id) <==>
            (Comes(projects, rows[0]) ==> rows[0].id != id) && Undisturbed(projects, rows[1..], id)
  {
    assert rows == [rows[0]] + rows[1..];
  }

  lemma LastsNext(projects: map<Id, Option<Id>>, rows: seq<TaskRow>, i: nat)
    requires i < |rows| - 1
    ensures Lasts(projects, rows, i + 1) <==> Lasts(projects, rows[1..], i)
  {
  }

  lemma BroughtNext(projects: map<Id, Option<Id>>, rows: seq<TaskRow>, id: Id, row: Task)
    requires rows != []
    ensures Brought(projects, rows, id, row) <==>
      || (Comes(projects, rows[0]) && rows[0].id == id && row == TaskOf(rows[0], projects)
          && Undisturbed(projects, rows[1..], id))
      || Brought(projects, rows[1..], id, row)
  {
    var rest := rows[1..];
    forall k | 0 <= k < |rest| ensures rest[k] == rows[k + 1] {}
    if Brought(projects, rows, id, row) {
      var i: nat :| Lasts(projects, rows, i) && rows[i].id == id && row == TaskOf(rows[i], projects);
      if i > 0 { LastsNext(projects, rows, i - 1); }
    }
    if Brought(projects, rest, id, row) {
      var i: nat :| Lasts(projects, rest, i) && rest[i].id == id && row == TaskOf(rest[i], projects);
      LastsNext(projects, rows, i);
    }
    if Comes(projects, rows[0]) && rows[0].id == id && Undisturbed(projects, rest, id) {
      forall k | 0 < k < |rows| && Comes(projects, rows[k]) ensures rows[k].id != id {
        assert rest[k - 1] == rows[k];
      }
      assert Lasts(projects, rows, 0);
    }
  }

  /** The tasks after the loop: those of before whose ids none took, and the last of each id that comes along. */
  lemma {:induction false} MergedTask(g: Progress, rows: seq<TaskRow>, id: Id, row: Task)
    requires MergeTasks(g, rows).Some?
    ensures HasTask(MergeTasks(g, rows).value.s, id, row) <==>
      (HasTask(g.s, id, row) && Undisturbed(g.projects, rows, id)) || Brought(g.projects, rows, id, row)
    decreases |rows|
  {
    if rows != [] {
      MergedTask(MergeTask(g, rows[0]).value, rows[1..], id, row);
      UndisturbedNext(g.projects, rows, id);
      BroughtNext(g.projects, rows, id, row);
    }
  }

  // ---------------------------------------------------------------- none was there before

  lemma NoneUnder(s: Data, id: Id, row: Project)
    requires Intact(s)
    ensures forall t :: t in InsertProject(s, id, row).tasks ==> InsertProject(s, id, row).tasks[t].project != id
  {
  }

  lemma {:induction false} NoneUnderThese(g: Progress, rows: seq<ProjectRow>, newIds: seq<Id>, from: Option<string>,
      plan: Plan)
    requires |newIds| == |rows| && MergeProjects(g, rows, newIds, from, plan).Some? && plan.merge == KeepBoth
    requires Intact(g.s) && Mapped(g)
    ensures var s := MergeProjects(g, rows, newIds, from, plan).value.s;
      && (forall t :: t in s.tasks ==> t in g.s.tasks && s.tasks[t] == g.s.tasks[t])
      && (forall t :: t in s.tasks ==> !Identified(rows, s.tasks[t].project))
    decreases |rows|
  {
    if rows != [] {
      RowsSplit(rows);
      var h := MergeProject(g, rows[0], from, plan, newIds[0]).value;
      MergeProjectSound(g, rows[0], from, plan, newIds[0]);
      NoneUnderThese(h, rows[1..], newIds[1..], from, plan);
      NoneUnder(g.s, rows[0].id, h.s.projects[rows[0].id]);
    }
  }

  // ---------------------------------------------------------------- what is remembered

  /** The last task of the bundle with this id, of those whose project comes along, is under this project. */
  ghost predicate HasTaskRow(b: Contents, project: Id, id: Id) {
    exists j: nat ::
      && j < |b.tasks| && b.tasks[j].id == id && b.tasks[j].project == project
      && forall k :: j < k < |b.tasks| && Identified(b.projects, b.tasks[k].project) ==> b.tasks[k].id != id
  }

  /** Where every project maps to itself and had no task before, its tasks are those of the bundle. */
  lemma TasksOfProject(g: Progress, b: Contents, project: Id, id: Id)
    requires MergeTasks(g, b.tasks).Some? && Identified(b.projects, project)
    requires forall k :: k in g.projects <==> Identified(b.projects, k)
    requires forall k :: k in g.projects ==> g.projects[k] == Some(k)
    requires forall t :: t in g.s.tasks ==> g.s.tasks[t].project != project
    ensures InProject(MergeTasks(g, b.tasks).value.s.tasks, id, project) <==> HasTaskRow(b, project, id)
  {
    var s := MergeTasks(g, b.tasks).value.s;
    if InProject(s.tasks, id, project) {
      MergedTask(g, b.tasks, id, s.tasks[id]);
      var j: nat :| Lasts(g.projects, b.tasks, j) && b.tasks[j].id == id
        && s.tasks[id] == TaskOf(b.tasks[j], g.projects);
      assert b.tasks[j].project == project;
    }
    if HasTaskRow(b, project, id) {
      var j: nat :| j < |b.tasks| && b.tasks[j].id == id && b.tasks[j].project == project
        && forall k :: j < k < |b.tasks| && Identified(b.projects, b.tasks[k].project) ==> b.tasks[k].id != id;
      assert Lasts(g.projects, b.tasks, j);
      MergedTask(g, b.tasks, id, TaskOf(b.tasks[j], g.projects));
    }
  }

  /** The task that the project remembers, if any, comes along with it. */
  ghost predicate ComesWithItsTask(b: Contents, row: ProjectRow) {
    row.lastTask.Some? ==> HasTaskRow(b, row.id, row.lastTask.value)
  }

  lemma RowRemembers(d: Data, b: Contents, plan: Plan, newIds: seq<Id>, i: nat)
    requires Intact(d) && |newIds| == |b.projects| && plan.merge == KeepBoth && DistinctIds(b.projects)
      && i < |b.projects|
    requires NewEach(Start(d), b.projects, newIds, b.sourceHome, plan) && Applied(d, b, plan, newIds).Some?
    ensures var t, row := Applied(d, b, plan, newIds).value.s, b.projects[i];
      && LiveProject(t, row.id) && t.projects[row.id].lastTask == row.lastTask
      && ((row.lastTask.Some? ==> InProject(t.tasks, row.lastTask.value, row.id)) <==> ComesWithItsTask(b, row))
  {
    var g, coming, row := Imported(d, b, plan, newIds), ComingTasks(d, b, plan, newIds), b.projects[i];
    var h := MergeTasks(g, b.tasks).value;
    var k := MergeResources(h, b.resources, coming, b.sourceHome, plan.newHome).value;
    AppliedIsSound(d, b, plan, newIds);
    ProjectsArrive(Start(d), b.projects, newIds, b.sourceHome, plan);
    KeepBothMaps(Start(d), b.projects, newIds, b.sourceHome, plan);
    NoneUnderThese(Start(d), b.projects, newIds, b.sourceHome, plan);
    ResourcesKeepTasks(h, b.resources, coming, b.sourceHome, plan.newHome);
    PinsKeepTheRest(k, b.pins, coming, b.sourceHome, plan.newHome);
    if row.lastTask.Some? { TasksOfProject(g, b, row.id, row.lastTask.value); }
  }

  lemma LocalRemembers(d: Data, b: Contents, plan: Plan, newIds: seq<Id>, p: Id)
    requires Intact(d) && Remembered(d) && |newIds| == |b.projects| && plan.merge == KeepBoth && NoOverlap(d, b)
    requires NewEach(Start(d), b.projects, newIds, b.sourceHome, plan) && Applied(d, b, plan, newIds).Some?
    requires LiveProject(Applied(d, b, plan, newIds).value.s, p) && !Identified(b.projects, p)
    ensures var t := Applied(d, b, plan, newIds).value.s;
      t.projects[p].lastTask.Some? ==> InProject(t.tasks, t.projects[p].lastTask.value, p)
  {
    AppliedIsSound(d, b, plan, newIds);
    KeepBothKeeps(d, b, plan, newIds);
    LiveCameFrom(Start(d), b.projects, newIds, b.sourceHome, plan, p);
  }

  /**
   A merge takes over what the sender's projects remember: every live project remembers a live task of its own, as
   before, exactly if each that comes along brings the task it remembers.
   */
  lemma RememberedExactly(d: Data, b: Contents, plan: Plan, newIds: seq<Id>)
    requires Intact(d) && Remembered(d) && |newIds| == |b.projects| && plan.merge == KeepBoth && NoOverlap(d, b)
      && DistinctIds(b.projects)
    requires NewEach(Start(d), b.projects, newIds, b.sourceHome, plan) && Applied(d, b, plan, newIds).Some?
    ensures Remembered(Applied(d, b, plan, newIds).value.s) <==>
            forall row :: row in b.projects ==> ComesWithItsTask(b, row)
  {
    var t := Applied(d, b, plan, newIds).value.s;
    forall i: nat | i < |b.projects|
      ensures LiveProject(t, b.projects[i].id) && t.projects[b.projects[i].id].lastTask == b.projects[i].lastTask
      ensures (b.projects[i].lastTask.Some? ==> InProject(t.tasks, b.projects[i].lastTask.value, b.projects[i].id)) <==>
              ComesWithItsTask(b, b.projects[i])
    {
      RowRemembers(d, b, plan, newIds, i);
    }
    if forall row :: row in b.projects ==> ComesWithItsTask(b, row) {
      forall p | LiveProject(t, p) && t.projects[p].lastTask.Some?
        ensures InProject(t.tasks, t.projects[p].lastTask.value, p)
      {
        if Identified(b.projects, p) {
          var i :| 0 <= i < |b.projects| && b.projects[i].id == p;
          assert b.projects[i] in b.projects;
        } else {
          LocalRemembers(d, b, plan, newIds, p);
        }
      }
    }
    if Remembered(t) {
      forall row | row in b.projects ensures ComesWithItsTask(b, row) {
        var i: nat :| i < |b.projects| && b.projects[i] == row;
      }
    }
  }
}
