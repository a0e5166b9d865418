/** What applying a bundle keeps, and what "keep both" preserves. */
module BundleLaws {
  import opened Common
  import opened Records
  import opened RecordsSteps
  import opened Bundle

  /** What the schema's constraints and the record operations keep true of a store. */
  ghost predicate Intact(s: Data) {
    Sound(s) && NamesUnique(s) && PinsUnique(s)
  }

  // ---------------------------------------------------------------- single statements

  lemma DropProjectsSound(s: Data, ids: set<Id>)
    requires Intact(s)
    ensures Intact(DropProjects(s, ids))
  {
  }

  lemma DropTasksSound(s: Data, ids: set<Id>)
    requires Intact(s)
    ensures Intact(DropTasks(s, ids))
  {
  }

  lemma NewProjectSound(s: Data, id: Id, row: Project)
    requires Intact(s) && ProjectConflicts(s, id, row.name) == {} && !row.deleted
    ensures Intact(s.(projects := s.projects[id := row]))
  {
    assert forall p :: p in s.projects ==> p !in ProjectConflicts(s, id, row.name);
  }

  lemma ConflictsDropped(s: Data, id: Id, name: string)
    ensures ProjectConflicts(DropProjects(s, ProjectConflicts(s, id, name)), id, name) == {}
  {
  }

  lemma InsertProjectSound(s: Data, id: Id, row: Project)
    requires Intact(s) && !row.deleted
    ensures Intact(InsertProject(s, id, row))
  {
    var conflicts := ProjectConflicts(s, id, row.name);
    DropProjectsSound(s, conflicts);
    ConflictsDropped(s, id, row.name);
    NewProjectSound(DropProjects(s, conflicts), id, row);
  }

  lemma NewTaskSound(s: Data, id: Id, row: Task)
    requires Intact(s) && id !in s.tasks && LiveProject(s, row.project)
    ensures Intact(s.(tasks := s.tasks[id := row]))
  {
  }

  lemma InsertTaskSound(s: Data, id: Id, row: Task)
    requires Intact(s) && (row.project in s.projects ==> LiveProject(s, row.project))
    ensures InsertTask(s, id, row).Some? ==> Intact(InsertTask(s, id, row).value)
  {
    if row.project in s.projects {
      DropTasksSound(s, {id});
      NewTaskSound(DropTasks(s, {id}), id, row);
    }
  }

  lemma InsertResourceSound(s: Data, id: Id, row: Resource)
    requires Intact(s) && (row.task in s.tasks ==> LiveTask(s, row.task))
    ensures InsertResource(s, id, row).Some? ==> Intact(InsertResource(s, id, row).value)
  {
  }

  lemma InsertPinSound(s: Data, id: Id, row: Pin)
    requires Intact(s) && (row.task in s.tasks ==> LiveTask(s, row.task))
    ensures InsertPin(s, id, row).Some? ==> Intact(InsertPin(s, id, row).value)
  {
  }

  // ---------------------------------------------------------------- the loops

  /** Where an incoming project ended up there is a live row, if there is one at all. */
  ghost predicate MappedTo(projects: map<Id, Option<Id>>, s: Data) {
    forall k :: k in projects && projects[k].Some? && projects[k].value in s.projects ==>
      LiveProject(s, projects[k].value)
  }

  ghost predicate Mapped(g: Progress) {
    MappedTo(g.projects, g.s)
  }

  lemma DropMapped(projects: map<Id, Option<Id>>, s: Data, ids: set<Id>)
    requires MappedTo(projects, s)
    ensures MappedTo(projects, DropProjects(s, ids))
  {
  }

  lemma InsertMapped(projects: map<Id, Option<Id>>, s: Data, id: Id, row: Project)
    requires MappedTo(projects, s) && Intact(s) && !row.deleted
    ensures MappedTo(projects[id := Some(id)], InsertProject(s, id, row)) && Intact(InsertProject(s, id, row))
  {
    InsertProjectSound(s, id, row);
  }

  lemma MergeProjectSound(g: Progress, row: ProjectRow, from: Option<string>, plan: Plan, newId: Id)
    requires Intact(g.s) && Mapped(g) && MergeProject(g, row, from, plan, newId).Some?
    ensures var h := MergeProject(g, row, from, plan, newId).value; Intact(h.s) && Mapped(h)
  {
    if !Inserts(g.s, row, plan) {
    } else if !Collides(g.s, row.name) {
      InsertMapped(g.projects, g.s, row.id, ProjectOf(row, row.name, from, plan));
    } else if plan.merge == Replace {
      var s := DropProjects(g.s, Locals(g.s, row.name));
      DropProjectsSound(g.s, Locals(g.s, row.name));
      DropMapped(g.projects, g.s, Locals(g.s, row.name));
      InsertMapped(g.projects, s, row.id, ProjectOf(row, row.name, from, plan));
    } else {
      InsertMapped(g.projects, g.s, row.id, ProjectOf(row, UniqueName(Names(g.s), row.name, 1, newId), from, plan));
    }
  }

  lemma {:induction false} MergeProjectsSound(g: Progress, rows: seq<ProjectRow>, newIds: seq<Id>,
      from: Option<string>, plan: Plan)
    requires |newIds| == |rows| && Intact(g.s) && Mapped(g) && MergeProjects(g, rows, newIds, from, plan).Some?
    ensures var h := MergeProjects(g, rows, newIds, from, plan).value; Intact(h.s) && Mapped(h)
    decreases |rows|
  {
    if rows != [] {
      MergeProjectSound(g, rows[0], from, plan, newIds[0]);
      MergeProjectsSound(MergeProject(g, rows[0], from, plan, newIds[0]).value, rows[1..], newIds[1..], from, plan);
    }
  }

  /** Every task of the set has a live row. */
  ghost predicate Arrived(s: Data, ids: set<Id>) {
    forall t :: t in ids ==> LiveTask(s, t)
  }

  lemma MergeTaskSound(g: Progress, row: TaskRow, done: set<Id>)
    requires Intact(g.s) && Mapped(g) && Arrived(g.s, done) && MergeTask(g, row).Some?
    ensures var h := MergeTask(g, row).value;
      Intact(h.s) && Mapped(h) && h.projects == g.projects && h.s.projects == g.s.projects
      && Arrived(h.s, done + if Comes(g.projects, row) then {row.id} else {})
  {
    if Comes(g.projects, row) {
      InsertTaskSound(g.s, row.id, TaskOf(row, g.projects));
    }
  }

  lemma {:induction false} MergeTasksSound(g: Progress, rows: seq<TaskRow>, done: set<Id>)
    requires Intact(g.s) && Mapped(g) && Arrived(g.s, done) && MergeTasks(g, rows).Some?
    ensures var h := MergeTasks(g, rows).value;
      Intact(h.s) && h.s.projects == g.s.projects && Arrived(h.s, done + Coming(g.projects, rows))
    decreases |rows|
  {
    if rows == [] {
      assert done + {} == done;
    } else {
      MergeTaskSound(g, rows[0], done);
      var more := done + if Comes(g.projects, rows[0]) then {rows[0].id} else {};
      MergeTasksSound(MergeTask(g, rows[0]).value, rows[1..], more);
      assert done + Coming(g.projects, rows) == more + Coming(g.projects, rows[1..]);
    }
  }

  lemma {:induction false} MergeResourcesSound(g: Progress, rows: seq<ResourceRow>, coming: set<Id>,
      from: Option<string>, to: Option<string>)
    requires Intact(g.s) && Arrived(g.s, coming)
    ensures var r := MergeResources(g, rows, coming, from, to);
      r.Some? && Intact(r.value.s) && r.value.s.projects == g.s.projects && r.value.s.tasks == g.s.tasks
    decreases |rows|
  {
    if rows != [] {
      var row := rows[0];
      if row.task in coming {
        assert LiveTask(g.s, row.task);
        InsertResourceSound(g.s, row.id, ResourceOf(row, from, to));
      }
      MergeResourcesSound(MergeResource(g, row, coming, from, to).value, rows[1..], coming, from, to);
    }
  }

  lemma {:induction false} MergePinsSound(g: Progress, rows: seq<PinRow>, coming: set<Id>, from: Option<string>,
      to: Option<string>)
    requires Intact(g.s) && Arrived(g.s, coming)
    ensures var r := MergePins(g, rows, coming, from, to);
      r.Some? && Intact(r.value.s) && r.value.s.projects == g.s.projects && r.value.s.tasks == g.s.tasks
    decreases |rows|
  {
    if rows != [] {
      var row := rows[0];
      if row.task in coming {
        assert LiveTask(g.s, row.task);
        InsertPinSound(g.s, row.id, PinOf(row, from, to));
      }
      MergePinsSound(MergePin(g, row, coming, from, to).value, rows[1..], coming, from, to);
    }
  }

  /** The project loop gets through. */
  predicate Imports(s: Data, b: Contents, plan: Plan, newIds: seq<Id>)
    requires |newIds| == |b.projects|
  {
    MergeProjects(Start(s), b.projects, newIds, b.sourceHome, plan).Some?
  }

  function Imported(s: Data, b: Contents, plan: Plan, newIds: seq<Id>): Progress
    requires |newIds| == |b.projects| && Imports(s, b, plan, newIds)
  {
    MergeProjects(Start(s), b.projects, newIds, b.sourceHome, plan).value
  }

  /** The tasks that come along. */
  function ComingTasks(s: Data, b: Contents, plan: Plan, newIds: seq<Id>): set<Id>
    requires |newIds| == |b.projects| && Imports(s, b, plan, newIds)
  {
    Coming(Imported(s, b, plan, newIds).projects, b.tasks)
  }

  /** It can be read, and neither its projects nor its tasks fail: resources and pins never do. */
  ghost predicate Applies(s: Data, b: Contents, plan: Plan, newIds: seq<Id>)
    requires |newIds| == |b.projects|
  {
    Readable(b) && Imports(s, b, plan, newIds) && MergeTasks(Imported(s, b, plan, newIds), b.tasks).Some?
  }

  /**
   A bundle that is applied leaves a sound store: every row's parent is there, live ones have live parents, names
   and pins stay unique; and every task whose project came along has arrived. It fails, and then changes nothing,
   exactly when it cannot be read or some project or task fails.
   */
  lemma AppliedIsSound(s: Data, b: Contents, plan: Plan, newIds: seq<Id>)
    requires Intact(s) && |newIds| == |b.projects|
    ensures Applied(s, b, plan, newIds).Some? <==> Applies(s, b, plan, newIds)
    ensures Applied(s, b, plan, newIds).Some? ==>
              var t := Applied(s, b, plan, newIds).value.s;
              && Intact(t) && Arrived(t, ComingTasks(s, b, plan, newIds))
              && t.projects == Imported(s, b, plan, newIds).s.projects
  {
    if Imports(s, b, plan, newIds) {
      var g := Imported(s, b, plan, newIds);
      MergeProjectsSound(Start(s), b.projects, newIds, b.sourceHome, plan);
      if MergeTasks(g, b.tasks).Some? { RestApplies(g, b, plan); }
    }
  }

  /** What follows the tasks cannot fail. */
  lemma RestApplies(g: Progress, b: Contents, plan: Plan)
    requires Intact(g.s) && Mapped(g) && MergeTasks(g, b.tasks).Some?
    ensures var h, coming := MergeTasks(g, b.tasks).value, Coming(g.projects, b.tasks);
            var r := MergeResources(h, b.resources, coming, b.sourceHome, plan.newHome);
            && r.Some? && MergePins(r.value, b.pins, coming, b.sourceHome, plan.newHome).Some?
            && var t := MergePins(r.value, b.pins, coming, b.sourceHome, plan.newHome).value.s;
               Intact(t) && Arrived(t, coming) && t.projects == g.s.projects
  {
    var h, coming := MergeTasks(g, b.tasks).value, Coming(g.projects, b.tasks);
    MergeTasksSound(g, b.tasks, {});
    assert {} + coming == coming;
    MergeResourcesSound(h, b.resources, coming, b.sourceHome, plan.newHome);
    var r := MergeResources(h, b.resources, coming, b.sourceHome, plan.newHome).value;
    MergePinsSound(r, b.pins, coming, b.sourceHome, plan.newHome);
  }

  // ---------------------------------------------------------------- keep both

  /** The ids drawn for last-resort names are new: no name ends in one when it is needed. */
  ghost predicate NewEach(g: Progress, rows: seq<ProjectRow>, newIds: seq<Id>, from: Option<string>, plan: Plan)
    requires |newIds| == |rows|
    decreases |rows|
  {
    rows == [] ||
    (&& Tagged(rows[0].name, newIds[0]) !in Names(g.s)
     && match MergeProject(g, rows[0], from, plan, newIds[0])
        case None => true
        case Some(h) => NewEach(h, rows[1..], newIds[1..], from, plan))
  }

  /** Under "keep both" an insert takes away at most a row of the same id and tombstones. */
  lemma KeepBothConflicts(g: Progress, row: ProjectRow, from: Option<string>, plan: Plan, newId: Id, p: Id)
    requires MergeProject(g, row, from, plan, newId).Some?
    requires plan.merge == KeepBoth && Tagged(row.name, newId) !in Names(g.s) && LiveProject(g.s, p) && p != row.id
    ensures var h := MergeProject(g, row, from, plan, newId).value;
      LiveProject(h.s, p) && h.s.projects[p] == g.s.projects[p]
  {
    if Collides(g.s, row.name) {
      var name := UniqueName(Names(g.s), row.name, 1, newId);
      assert g.s.projects[p].name in Names(g.s);
    }
  }

  /** A live project stays as it is under "keep both" if no incoming one has its id. */
  lemma {:induction false} ProjectStays(g: Progress, rows: seq<ProjectRow>, newIds: seq<Id>, from: Option<string>,
      plan: Plan, p: Id)
    requires |newIds| == |rows| && MergeProjects(g, rows, newIds, from, plan).Some? && plan.merge == KeepBoth
      && NewEach(g, rows, newIds, from, plan)
    requires LiveProject(g.s, p) && forall i :: 0 <= i < |rows| ==> rows[i].id != p
    ensures var h := MergeProjects(g, rows, newIds, from, plan).value;
      LiveProject(h.s, p) && h.s.projects[p] == g.s.projects[p]
    decreases |rows|
  {
    if rows != [] {
      KeepBothConflicts(g, rows[0], from, plan, newIds[0], p);
      assert forall i :: 0 <= i < |rows[1..]| ==> rows[1..][i].id == rows[i + 1].id;
      ProjectStays(MergeProject(g, rows[0], from, plan, newIds[0]).value, rows[1..], newIds[1..], from, plan, p);
    }
  }

  ghost predicate DistinctIds(rows: seq<ProjectRow>) {
    forall i, j :: 0 <= i < j < |rows| ==> rows[i].id != rows[j].id
  }

  lemma ReplacedIsRenamed(g: Progress, row: ProjectRow, from: Option<string>, plan: Plan, newId: Id)
    requires MergeProject(g, row, from, plan, newId).Some?
    requires plan.merge == KeepBoth && Tagged(row.name, newId) !in Names(g.s) && LiveProject(g.s, row.id)
    ensures var h := MergeProject(g, row, from, plan, newId).value;
      LiveProject(h.s, row.id) && h.s.projects[row.id].name != g.s.projects[row.id].name
  {
    assert g.s.projects[row.id].name in Names(g.s);
  }

  /** "Keep both" keeps a live local project as it is exactly when no incoming project has its id. */
  lemma {:induction false} KeepBothProjectExact(g: Progress, rows: seq<ProjectRow>, newIds: seq<Id>,
      from: Option<string>, plan: Plan, p: Id)
    requires |newIds| == |rows| && MergeProjects(g, rows, newIds, from, plan).Some? && plan.merge == KeepBoth
      && NewEach(g, rows, newIds, from, plan) && DistinctIds(rows)
    requires LiveProject(g.s, p)
    ensures var h := MergeProjects(g, rows, newIds, from, plan).value;
      (LiveProject(h.s, p) && h.s.projects[p] == g.s.projects[p]) <==> forall i :: 0 <= i < |rows| ==> rows[i].id != p
    decreases |rows|
  {
    if rows != [] {
      var next := MergeProject(g, rows[0], from, plan, newIds[0]).value;
      assert forall i :: 0 <= i < |rows[1..]| ==> rows[1..][i] == rows[i + 1];
      assert forall i :: 0 < i < |rows| ==> rows[i] == rows[1..][i - 1];
      if rows[0].id == p {
        ReplacedIsRenamed(g, rows[0], from, plan, newIds[0]);
        ProjectStays(next, rows[1..], newIds[1..], from, plan, p);
      } else {
        KeepBothConflicts(g, rows[0], from, plan, newIds[0], p);
        KeepBothProjectExact(next, rows[1..], newIds[1..], from, plan, p);
      }
    }
  }

  /** Every live local row is there, unchanged. */
  ghost predicate LocalsKept(before: Data, s: Data) {
    && (forall p :: LiveProject(before, p) ==> p in s.projects && s.projects[p] == before.projects[p])
    && (forall t :: LiveTask(before, t) ==> t in s.tasks && s.tasks[t] == before.tasks[t])
    && (forall r :: r in before.resources && !before.resources[r].deleted ==>
      r in s.resources && s.resources[r] == before.resources[r])
    && (forall p :: p in before.pins && !before.pins[p].deleted ==> p in s.pins && s.pins[p] == before.pins[p])
  }

  lemma DropKeeps(before: Data, s: Data, ids: set<Id>)
    requires Supported(before) && LocalsKept(before, s) && forall p :: p in ids ==> !LiveProject(before, p)
    ensures LocalsKept(before, DropProjects(s, ids))
  {
  }

  lemma ConflictsAreNotLocal(before: Data, g: Progress, row: ProjectRow, name: string, p: Id)
    requires LocalsKept(before, g.s) && !LiveProject(before, row.id) && p in ProjectConflicts(g.s, row.id, name)
    requires name !in Names(g.s) || (name == row.name && !Collides(g.s, row.name))
    ensures !LiveProject(before, p)
  {
    assert p != row.id ==> g.s.projects[p].name in Names(g.s);
  }

  lemma InsertKeepsLocals(before: Data, s: Data, id: Id, row: Project)
    requires Supported(before) && LocalsKept(before, s)
    requires forall p :: p in ProjectConflicts(s, id, row.name) ==> !LiveProject(before, p)
    requires !LiveProject(before, id)
    ensures LocalsKept(before, InsertProject(s, id, row))
  {
    DropKeeps(before, s, ProjectConflicts(s, id, row.name));
  }

  /** Inserting a project whose name is free, or is not used by a live one. */
  lemma FreeNameKeepsLocals(before: Data, g: Progress, row: ProjectRow, come: Project)
    requires Supported(before) && LocalsKept(before, g.s) && !LiveProject(before, row.id)
    requires come.name !in Names(g.s) || (come.name == row.name && !Collides(g.s, row.name))
    ensures LocalsKept(before, InsertProject(g.s, row.id, come))
  {
    forall p | p in ProjectConflicts(g.s, row.id, come.name) ensures !LiveProject(before, p) {
      ConflictsAreNotLocal(before, g, row, come.name, p);
    }
    InsertKeepsLocals(before, g.s, row.id, come);
  }

  /** None of the live projects has this name. */
  ghost predicate NotNamed(before: Data, name: string) {
    forall p :: LiveProject(before, p) ==> before.projects[p].name != name
  }

  lemma ReplaceKeepsLocals(before: Data, g: Progress, row: ProjectRow, come: Project)
    requires Supported(before) && LocalsKept(before, g.s) && !LiveProject(before, row.id) && NotNamed(before, row.name)
    requires come.name == row.name
    ensures LocalsKept(before, InsertProject(DropProjects(g.s, Locals(g.s, row.name)), row.id, come))
  {
    DropKeeps(before, g.s, Locals(g.s, row.name));
    InsertKeepsLocals(before, DropProjects(g.s, Locals(g.s, row.name)), row.id, come);
  }

  lemma ProjectKeepsLocals(before: Data, g: Progress, row: ProjectRow, from: Option<string>, plan: Plan, newId: Id)
    requires MergeProject(g, row, from, plan, newId).Some?
    requires plan.merge.KeepBoth? ==> Tagged(row.name, newId) !in Names(g.s)
    requires plan.merge.Replace? ==> NotNamed(before, row.name)
    requires Supported(before) && LocalsKept(before, g.s) && !LiveProject(before, row.id)
    ensures LocalsKept(before, MergeProject(g, row, from, plan, newId).value.s)
  {
    if !Inserts(g.s, row, plan) {
    } else if !Collides(g.s, row.name) {
      FreeNameKeepsLocals(before, g, row, ProjectOf(row, row.name, from, plan));
    } else if plan.merge.Replace? {
      ReplaceKeepsLocals(before, g, row, ProjectOf(row, row.name, from, plan));
    } else {
      FreeNameKeepsLocals(before, g, row, ProjectOf(row, UniqueName(Names(g.s), row.name, 1, newId), from, plan));
    }
  }

  lemma {:induction false} ProjectsKeepLocals(before: Data, g: Progress, rows: seq<ProjectRow>, newIds: seq<Id>,
      from: Option<string>, plan: Plan)
    requires |newIds| == |rows| && MergeProjects(g, rows, newIds, from, plan).Some?
      && (plan.merge.KeepBoth? ==> NewEach(g, rows, newIds, from, plan))
    requires plan.merge.Replace? ==> forall row :: row in rows ==> NotNamed(before, row.name)
    requires Supported(before) && LocalsKept(before, g.s)
    requires forall row :: row in rows ==> !LiveProject(before, row.id)
    ensures LocalsKept(before, MergeProjects(g, rows, newIds, from, plan).value.s)
    decreases |rows|
  {
    if rows != [] {
      ProjectKeepsLocals(before, g, rows[0], from, plan, newIds[0]);
      ProjectsKeepLocals(before, MergeProject(g, rows[0], from, plan, newIds[0]).value, rows[1..], newIds[1..], from,
        plan);
    }
  }

  lemma TaskKeepsLocals(before: Data, s: Data, id: Id, row: Task)
    requires Supported(before) && LocalsKept(before, s) && !LiveTask(before, id) && InsertTask(s, id, row).Some?
    ensures LocalsKept(before, InsertTask(s, id, row).value)
  {
  }

  lemma {:induction false} TasksKeepLocals(before: Data, g: Progress, rows: seq<TaskRow>)
    requires Supported(before) && LocalsKept(before, g.s) && MergeTasks(g, rows).Some?
    requires forall t :: t in Coming(g.projects, rows) ==> !LiveTask(before, t)
    ensures LocalsKept(before, MergeTasks(g, rows).value.s)
    decreases |rows|
  {
    if rows != [] {
      var row := rows[0];
      if Comes(g.projects, row) {
        assert row.id in Coming(g.projects, rows);
        TaskKeepsLocals(before, g.s, row.id, TaskOf(row, g.projects));
      }
      TasksKeepLocals(before, MergeTask(g, row).value, rows[1..]);
    }
  }

  lemma {:induction false} ResourcesKeepLocals(before: Data, g: Progress, rows: seq<ResourceRow>, coming: set<Id>,
      from: Option<string>, to: Option<string>)
    requires LocalsKept(before, g.s) && MergeResources(g, rows, coming, from, to).Some?
    requires forall row :: row in rows && row.id in before.resources ==> before.resources[row.id].deleted
    ensures LocalsKept(before, MergeResources(g, rows, coming, from, to).value.s)
    decreases |rows|
  {
    if rows != [] {
      ResourcesKeepLocals(before, MergeResource(g, rows[0], coming, from, to).value, rows[1..], coming, from, to);
    }
  }

  lemma PinKeepsLocals(before: Data, s: Data, id: Id, row: Pin)
    requires Supported(before) && LocalsKept(before, s) && !LiveTask(before, row.task) && InsertPin(s, id, row).Some?
    requires id in before.pins ==> before.pins[id].deleted
    ensures LocalsKept(before, InsertPin(s, id, row).value)
  {
  }

  lemma {:induction false} PinsKeepLocals(before: Data, g: Progress, rows: seq<PinRow>, coming: set<Id>,
      from: Option<string>, to: Option<string>)
    requires Supported(before) && LocalsKept(before, g.s) && MergePins(g, rows, coming, from, to).Some?
    requires forall t :: t in coming ==> !LiveTask(before, t)
    requires forall row :: row in rows && row.id in before.pins ==> before.pins[row.id].deleted
    ensures LocalsKept(before, MergePins(g, rows, coming, from, to).value.s)
    decreases |rows|
  {
    if rows != [] {
      var row := rows[0];
      if row.task in coming {
        PinKeepsLocals(before, g.s, row.id, PinOf(row, from, to));
      }
      PinsKeepLocals(before, MergePin(g, row, coming, from, to).value, rows[1..], coming, from, to);
    }
  }

  /** No incoming row has the id of a live local one. */
  ghost predicate NoOverlap(s: Data, b: Contents) {
    && (forall row :: row in b.projects ==> !LiveProject(s, row.id))
    && (forall row :: row in b.tasks ==> !LiveTask(s, row.id))
    && (forall row :: row in b.resources && row.id in s.resources ==> s.resources[row.id].deleted)
    && (forall row :: row in b.pins && row.id in s.pins ==> s.pins[row.id].deleted)
  }

  lemma {:induction false} ComingAreRows(projects: map<Id, Option<Id>>, rows: seq<TaskRow>, t: Id)
    requires t in Coming(projects, rows)
    ensures exists row :: row in rows && row.id == t && Comes(projects, row)
  {
    if !(Comes(projects, rows[0]) && rows[0].id == t) {
      ComingAreRows(projects, rows[1..], t);
      var row :| row in rows[1..] && row.id == t && Comes(projects, row);
      assert row in rows;
    } else {
      assert rows[0] in rows;
    }
  }

  /** What the three later loops keep, once the first has kept it. */
  lemma MergeKeepsLocals(before: Data, s: Data, b: Contents, plan: Plan, newIds: seq<Id>)
    requires Supported(before) && LocalsKept(before, s) && |newIds| == |b.projects| && NoOverlap(before, b)
    requires plan.merge.KeepBoth? ==> NewEach(Start(s), b.projects, newIds, b.sourceHome, plan)
    requires plan.merge.Replace? ==> forall row :: row in b.projects ==> NotNamed(before, row.name)
    requires Applied(s, b, plan, newIds).Some?
    ensures LocalsKept(before, Applied(s, b, plan, newIds).value.s)
  {
    var g := Imported(s, b, plan, newIds);
    var coming := Coming(g.projects, b.tasks);
    ProjectsKeepLocals(before, Start(s), b.projects, newIds, b.sourceHome, plan);
    forall t | t in coming ensures !LiveTask(before, t) { ComingAreRows(g.projects, b.tasks, t); }
    TasksKeepLocals(before, g, b.tasks);
    var h := MergeTasks(g, b.tasks).value;
    ResourcesKeepLocals(before, h, b.resources, coming, b.sourceHome, plan.newHome);
    PinsKeepLocals(before, MergeResources(h, b.resources, coming, b.sourceHome, plan.newHome).value, b.pins, coming,
      b.sourceHome, plan.newHome);
  }

  /** "Keep both" and "skip" lose nothing: where no ids overlap, every live local row is still there, unchanged. */
  lemma KeepBothKeeps(s: Data, b: Contents, plan: Plan, newIds: seq<Id>)
    requires Intact(s) && |newIds| == |b.projects| && !plan.merge.Replace? && NoOverlap(s, b)
    requires plan.merge.KeepBoth? ==> NewEach(Start(s), b.projects, newIds, b.sourceHome, plan)
    requires Applied(s, b, plan, newIds).Some?
    ensures LocalsKept(s, Applied(s, b, plan, newIds).value.s)
  {
    MergeKeepsLocals(s, s, b, plan, newIds);
  }

  // ---------------------------------------------------------------- replace

  ghost predicate Named(rows: seq<ProjectRow>, name: string) {
    exists i :: 0 <= i < |rows| && rows[i].name == name
  }

  ghost predicate Identified(rows: seq<ProjectRow>, id: Id) {
    exists i :: 0 <= i < |rows| && rows[i].id == id
  }

  lemma RowsSplit(rows: seq<ProjectRow>)
    requires rows != []
    ensures forall name :: Named(rows, name) <==> rows[0].name == name || Named(rows[1..], name)
    ensures forall id :: Identified(rows, id) <==> rows[0].id == id || Identified(rows[1..], id)
  {
    assert forall i :: 0 <= i < |rows[1..]| ==> rows[1..][i] == rows[i + 1];
    assert forall i :: 0 < i < |rows| ==> rows[i] == rows[1..][i - 1];
  }

  lemma {:induction false} StaysGone(g: Progress, rows: seq<ProjectRow>, newIds: seq<Id>, from: Option<string>,
      plan: Plan, p: Id)
    requires |newIds| == |rows| && MergeProjects(g, rows, newIds, from, plan).Some? && p !in g.s.projects
      && !Identified(rows, p)
    ensures p !in MergeProjects(g, rows, newIds, from, plan).value.s.projects
    decreases |rows|
  {
    if rows != [] {
      RowsSplit(rows);
      StaysGone(MergeProject(g, rows[0], from, plan, newIds[0]).value, rows[1..], newIds[1..], from, plan, p);
    }
  }

  lemma NamesakeGoes(g: Progress, row: ProjectRow, from: Option<string>, plan: Plan, newId: Id, p: Id)
    requires plan.merge.Replace? && row.id != p && LiveProject(g.s, p) && g.s.projects[p].name == row.name
    requires MergeProject(g, row, from, plan, newId).Some?
    ensures p !in MergeProject(g, row, from, plan, newId).value.s.projects
  {
    assert p in Locals(g.s, row.name);
  }

  lemma OthersStay(g: Progress, row: ProjectRow, from: Option<string>, plan: Plan, newId: Id, p: Id)
    requires plan.merge.Replace? && row.id != p && LiveProject(g.s, p) && g.s.projects[p].name != row.name
    requires MergeProject(g, row, from, plan, newId).Some?
    ensures var t := MergeProject(g, row, from, plan, newId).value.s;
      LiveProject(t, p) && t.projects[p] == g.s.projects[p]
  {
  }

  /** A local project whose name comes along is gone after "replace". */
  lemma {:induction false} ReplaceDrops(g: Progress, rows: seq<ProjectRow>, newIds: seq<Id>, from: Option<string>,
      plan: Plan, p: Id)
    requires |newIds| == |rows| && MergeProjects(g, rows, newIds, from, plan).Some? && plan.merge.Replace?
      && !Identified(rows, p)
    requires LiveProject(g.s, p) && Named(rows, g.s.projects[p].name)
    ensures p !in MergeProjects(g, rows, newIds, from, plan).value.s.projects
    decreases |rows|
  {
    RowsSplit(rows);
    var next := MergeProject(g, rows[0], from, plan, newIds[0]).value;
    if rows[0].name == g.s.projects[p].name {
      NamesakeGoes(g, rows[0], from, plan, newIds[0], p);
      StaysGone(next, rows[1..], newIds[1..], from, plan, p);
    } else {
      OthersStay(g, rows[0], from, plan, newIds[0], p);
      ReplaceDrops(next, rows[1..], newIds[1..], from, plan, p);
    }
  }

  /** The live local projects whose names come along. */
  ghost function Replaced(s: Data, rows: seq<ProjectRow>): set<Id> {
    set p | p in s.projects && !s.projects[p].deleted && Named(rows, s.projects[p].name)
  }

  lemma ReplacedAreGone(s: Data, b: Contents, plan: Plan, newIds: seq<Id>, p: Id)
    requires Intact(s) && |newIds| == |b.projects| && plan.merge.Replace? && NoOverlap(s, b)
    requires Applied(s, b, plan, newIds).Some? && p in Replaced(s, b.projects)
    ensures p !in Applied(s, b, plan, newIds).value.s.projects
  {
    forall i | 0 <= i < |b.projects| ensures b.projects[i].id != p {
      assert b.projects[i] in b.projects;
    }
    ReplaceDrops(Start(s), b.projects, newIds, b.sourceHome, plan, p);
    AppliedIsSound(s, b, plan, newIds);
  }

  lemma RestIsKept(s: Data, ids: set<Id>)
    requires Intact(s)
    ensures LocalsKept(DropProjects(s, ids), s)
  {
  }

  /**
   "Replace" takes away exactly the live local projects whose names come along, with everything they own, and
   leaves every other live local row as it was, where no ids overlap.
   */
  lemma ReplaceExact(s: Data, b: Contents, plan: Plan, newIds: seq<Id>)
    requires Intact(s) && |newIds| == |b.projects| && plan.merge.Replace? && NoOverlap(s, b)
    requires Applied(s, b, plan, newIds).Some?
    ensures LocalsKept(DropProjects(s, Replaced(s, b.projects)), Applied(s, b, plan, newIds).value.s)
    ensures forall p :: p in Replaced(s, b.projects) ==> p !in Applied(s, b, plan, newIds).value.s.projects
    ensures Rooted(Applied(s, b, plan, newIds).value.s)
    ensures forall t :: t in Applied(s, b, plan, newIds).value.s.tasks ==>
      Applied(s, b, plan, newIds).value.s.tasks[t].project !in Replaced(s, b.projects)
  {
    var before := DropProjects(s, Replaced(s, b.projects));
    DropProjectsSound(s, Replaced(s, b.projects));
    RestIsKept(s, Replaced(s, b.projects));
    forall row | row in b.projects ensures NotNamed(before, row.name) {
      var i :| 0 <= i < |b.projects| && b.projects[i] == row;
      assert Named(b.projects, row.name);
    }
    MergeKeepsLocals(before, s, b, plan, newIds);
    forall p | p in Replaced(s, b.projects) ensures p !in Applied(s, b, plan, newIds).value.s.projects {
      ReplacedAreGone(s, b, plan, newIds, p);
    }
    AppliedIsSound(s, b, plan, newIds);
  }

  // ---------------------------------------------------------------- arrivals

  lemma {:induction false} UniqueNameExtends(taken: set<string>, base: string, i: nat, newId: Id)
    requires 1 <= i <= 1000
    ensures base <= UniqueName(taken, base, i, newId)
    decreases 1000 - i
  {
    if i < 1000 && Suffixed(base, i) in taken { UniqueNameExtends(taken, base, i + 1, newId); }
  }

  /** As the row has it, its path moved and its name kept or extended. */
  predicate Came(p: Project, row: ProjectRow, from: Option<string>, plan: Plan) {
    && !p.deleted && PathRewrite.Relocated(row.repoPath, p.repoPath, from, plan.newHome) && row.name <= p.name
    && p.archived == row.archived && p.sortOrder == row.sortOrder && p.activeSeconds == row.activeSeconds
    && p.lastTask == row.lastTask && p.rev == 0
  }

  /** Under "keep both" every incoming project arrives, if their ids are distinct. */
  lemma {:induction false} ProjectsArrive(g: Progress, rows: seq<ProjectRow>, newIds: seq<Id>, from: Option<string>,
      plan: Plan)
    requires |newIds| == |rows| && MergeProjects(g, rows, newIds, from, plan).Some? && plan.merge == KeepBoth
      && NewEach(g, rows, newIds, from, plan) && DistinctIds(rows)
    ensures var s := MergeProjects(g, rows, newIds, from, plan).value.s;
            forall i :: 0 <= i < |rows| ==>
              rows[i].id in s.projects && Came(s.projects[rows[i].id], rows[i], from, plan)
    decreases |rows|
  {
    if rows != [] {
      var next := MergeProject(g, rows[0], from, plan, newIds[0]).value;
      UniqueNameExtends(Names(g.s), rows[0].name, 1, newIds[0]);
      PathRewrite.RemapExactly(rows[0].repoPath, next.s.projects[rows[0].id].repoPath, from, plan.newHome);
      assert forall i :: 0 <= i < |rows[1..]| ==> rows[1..][i] == rows[i + 1];
      ProjectStays(next, rows[1..], newIds[1..], from, plan, rows[0].id);
      ProjectsArrive(next, rows[1..], newIds[1..], from, plan);
      assert forall i :: 0 < i < |rows| ==> rows[i] == rows[1..][i - 1];
    }
  }

  /** It maps the incoming projects to themselves. */
  lemma {:induction false} KeepBothMaps(g: Progress, rows: seq<ProjectRow>, newIds: seq<Id>, from: Option<string>,
      plan: Plan)
    requires |newIds| == |rows| && MergeProjects(g, rows, newIds, from, plan).Some? && plan.merge == KeepBoth
    ensures forall k :: k in MergeProjects(g, rows, newIds, from, plan).value.projects <==>
      k in g.projects || Identified(rows, k)
    ensures forall k :: Identified(rows, k) || (k in g.projects && g.projects[k] == Some(k)) ==>
      MergeProjects(g, rows, newIds, from, plan).value.projects[k] == Some(k)
    decreases |rows|
  {
    if rows != [] {
      RowsSplit(rows);
      KeepBothMaps(MergeProject(g, rows[0], from, plan, newIds[0]).value, rows[1..], newIds[1..], from, plan);
    }
  }

  lemma {:induction false} TasksSucceed(g: Progress, rows: seq<TaskRow>)
    requires forall k :: k in g.projects && g.projects[k].Some? ==> g.projects[k].value in g.s.projects
    ensures MergeTasks(g, rows).Some? <==>
      forall row :: row in rows && Comes(g.projects, row) ==> StatusAllowed(row.status)
    decreases |rows|
  {
    if rows != [] {
      assert rows == [rows[0]] + rows[1..];
      if MergeTask(g, rows[0]).Some? { TasksSucceed(MergeTask(g, rows[0]).value, rows[1..]); }
    }
  }

  /** Where every project is inserted, the loop gets through exactly if no row has a negative number. */
  lemma {:induction false} ProjectsSucceed(g: Progress, rows: seq<ProjectRow>, newIds: seq<Id>, from: Option<string>,
      plan: Plan)
    requires |newIds| == |rows| && !plan.merge.Skip?
    ensures MergeProjects(g, rows, newIds, from, plan).Some? <==> forall row :: row in rows ==> NumbersAllowed(row)
    decreases |rows|
  {
    if rows != [] {
      assert rows == [rows[0]] + rows[1..];
      if NumbersAllowed(rows[0]) {
        ProjectsSucceed(MergeProject(g, rows[0], from, plan, newIds[0]).value, rows[1..], newIds[1..], from, plan);
      }
    }
  }

  /** No row of the bundle has a negative number, and no task that comes along a status of its own. */
  ghost predicate Allowed(b: Contents) {
    && (forall row :: row in b.projects ==> NumbersAllowed(row))
    && (forall t :: t in b.tasks && Identified(b.projects, t.project) ==> t.status == "open" || t.status == "done")
  }

  /**
   With distinct project ids, "keep both" succeeds exactly when the bundle can be read, no project has a negative
   number and every task that comes along has an allowed status.
   */
  lemma KeepBothSucceeds(s: Data, b: Contents, plan: Plan, newIds: seq<Id>)
    requires Intact(s) && |newIds| == |b.projects| && plan.merge == KeepBoth && DistinctIds(b.projects)
    requires NewEach(Start(s), b.projects, newIds, b.sourceHome, plan)
    ensures Applied(s, b, plan, newIds).Some? <==> b.format == "rabta.bundle" && b.version <= 1 && Allowed(b)
    ensures Applied(s, b, plan, newIds).Some? ==>
              forall i :: 0 <= i < |b.projects| ==> LiveProject(Applied(s, b, plan, newIds).value.s, b.projects[i].id)
  {
    ProjectsSucceed(Start(s), b.projects, newIds, b.sourceHome, plan);
    AppliedIsSound(s, b, plan, newIds);
    if Imports(s, b, plan, newIds) {
      var g := Imported(s, b, plan, newIds);
      ProjectsArrive(Start(s), b.projects, newIds, b.sourceHome, plan);
      KeepBothMaps(Start(s), b.projects, newIds, b.sourceHome, plan);
      TasksSucceed(g, b.tasks);
      assert forall t: TaskRow :: Comes(g.projects, t) <==> Identified(b.projects, t.project);
    }
  }

  /** A readable bundle with one project whose position is -1, and nothing else, is refused whatever the plan. */
  lemma NegativePositionFails(s: Data, plan: Plan, newId: Id)
    requires !Collides(s, "atlas")
    ensures var row := ProjectRow("p", "atlas", "/atlas", false, None, 0, -1);
            var b := Contents(BUNDLE_FORMAT, BUNDLE_VERSION, None, [row], [], [], []);
            Readable(b) && Applied(s, b, plan, [newId]).None?
  {
    var row := ProjectRow("p", "atlas", "/atlas", false, None, 0, -1);
    assert MergeProject(Start(s), row, None, plan, newId).None?;
  }
}
