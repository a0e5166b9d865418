/** Which calls count as a change of a row in the record store: the exact revision after each. */
module RecordsRevisions {
  import opened Common
  import opened Records
  import opened RecordsFacts

  /** A reorder gives the project another position than it has. */
  ghost predicate Moves(d: Data, ids: seq<Id>, p: Id)
    requires p in d.projects
  {
    IsOrder(d, ids) && exists i :: 0 <= i < |ids| && ids[i] == p && d.projects[p].sortOrder != i
  }

  ghost predicate CountsProject(d: Data, op: Op, p: Id)
    requires p in d.projects
  {
    match op
    case OpRenameProject(_, _) => Renames(d, op, p)
    case OpArchiveProject(id) => id == p && Active(d, p)
    case OpUnarchiveProject(id, _) => id == p && LiveProject(d, p) && d.projects[p].archived
    case OpDeleteProject(id) => id == p && LiveProject(d, p)
    case OpReorder(ids) => Moves(d, ids, p)
    case OpBeginSession(task) => LiveTask(d, task) && d.tasks[task].project == p && !d.projects[p].archived
    case OpDeleteTask(id) => LiveProject(d, p) && d.projects[p].lastTask == Some(id)
    case _ => false
  }

  ghost predicate CountsTask(d: Data, op: Op, t: Id)
    requires t in d.tasks
  {
    LiveTask(d, t) &&
    match op
    case OpEditTask(id, _, _) => id == t
    case OpDeleteTask(id) => id == t
    case OpDeleteProject(id) => d.tasks[t].project == id
    case OpReplaceResources(_, task, _, _, _) => task == t
    case _ => false
  }

  ghost predicate CountsResource(d: Data, op: Op, r: Id)
    requires r in d.resources
  {
    !d.resources[r].deleted && (op == OpRemoveResource(r) || Empties(d, op, d.resources[r].task))
  }

  ghost predicate CountsPin(d: Data, op: Op, p: Id)
    requires p in d.pins
  {
    var row := d.pins[p];
    || Pins(d, op, row.task, row.kind, row.identity)
    || (!row.deleted && (op == OpRemovePin(row.task, row.kind, row.identity) || Empties(d, op, row.task)))
  }

  ghost function Next(rev: nat, counts: bool): nat {
    if counts then rev + 1 else rev
  }

  /** Each row counts the call, or keeps its revision; a row that is new starts at 0. */
  ghost predicate ProjectsCount(d: Data, op: Op, t: Data) {
    && (forall p :: p in d.projects ==>
          p in t.projects && t.projects[p].rev == Next(d.projects[p].rev, CountsProject(d, op, p)))
    && forall p :: p in t.projects && p !in d.projects ==> t.projects[p].rev == 0
  }

  ghost predicate TasksCount(d: Data, op: Op, t: Data) {
    && (forall x :: x in d.tasks ==> x in t.tasks && t.tasks[x].rev == Next(d.tasks[x].rev, CountsTask(d, op, x)))
    && forall x :: x in t.tasks && x !in d.tasks ==> t.tasks[x].rev == 0
  }

  ghost predicate ResourcesCount(d: Data, op: Op, t: Data) {
    && (forall r :: r in d.resources && r in t.resources ==>
          t.resources[r].rev == Next(d.resources[r].rev, CountsResource(d, op, r)))
    && forall r :: r in t.resources && r !in d.resources ==> t.resources[r].rev == 0
  }

  ghost predicate PinsCount(d: Data, op: Op, t: Data) {
    && (forall p :: p in d.pins ==> p in t.pins && t.pins[p].rev == Next(d.pins[p].rev, CountsPin(d, op, p)))
    && forall p :: p in t.pins && p !in d.pins ==> t.pins[p].rev == 0
  }

  lemma {:induction false} IndexExactly(ids: seq<Id>, id: Id)
    requires id in ids
    ensures IndexOf(ids, id) < |ids| && ids[IndexOf(ids, id)] == id
  {
    if ids[0] != id { IndexExactly(ids[1..], id); }
  }

  lemma ReorderCounts(d: Data, ids: seq<Id>)
    requires IsOrder(d, ids)
    ensures ProjectsCount(d, OpReorder(ids), Reordered(d, ids))
  {
    forall p | p in d.projects
      ensures Reordered(d, ids).projects[p].rev ==
              Next(d.projects[p].rev, CountsProject(d, OpReorder(ids), p))
    {
      if p in ids { IndexExactly(ids, p); }
    }
  }

  lemma RenameCounts(d: Data, id: Id, name: string)
    ensures ProjectsCount(d, OpRenameProject(id, name), RenameProject(d, id, name))
  {
  }

  lemma ProjectsCountProjects(d: Data, op: Op)
    requires Chosen(d, op) && OnProjects(op)
    ensures ProjectsCount(d, op, ApplyToProjects(d, op))
  {
    if op.OpRenameProject? {
      RenameCounts(d, op.id, op.name);
    } else if op.OpReorder? && IsOrder(d, op.ordered) {
      ReorderCounts(d, op.ordered);
    }
  }

  lemma ProjectsCountOthers(d: Data, op: Op)
    requires Chosen(d, op) && !OnProjects(op)
    ensures ProjectsCount(d, op, Apply(d, op))
  {
  }

  lemma TasksCountProjects(d: Data, op: Op)
    requires Chosen(d, op) && OnProjects(op)
    ensures TasksCount(d, op, ApplyToProjects(d, op))
  {
  }

  lemma TasksCountOthers(d: Data, op: Op)
    requires Chosen(d, op) && !OnProjects(op)
    ensures TasksCount(d, op, Apply(d, op))
  {
  }

  lemma ResourcesCountProjects(d: Data, op: Op)
    requires Chosen(d, op) && OnProjects(op)
    ensures ResourcesCount(d, op, ApplyToProjects(d, op))
  {
  }

  lemma ResourcesCountTasks(d: Data, op: Op)
    requires Chosen(d, op) && OnTasks(op)
    ensures ResourcesCount(d, op, ApplyToTasks(d, op))
  {
  }

  lemma ResourcesCountItems(d: Data, op: Op)
    requires Chosen(d, op) && !OnProjects(op) && !OnTasks(op)
    ensures ResourcesCount(d, op, ApplyToItems(d, op))
  {
  }

  lemma PinsCountProjects(d: Data, op: Op)
    requires Chosen(d, op) && OnProjects(op)
    ensures PinsCount(d, op, ApplyToProjects(d, op))
  {
  }

  lemma PinsCountTasks(d: Data, op: Op)
    requires Chosen(d, op) && OnTasks(op)
    ensures PinsCount(d, op, ApplyToTasks(d, op))
  {
  }

  lemma PinsCountItems(d: Data, op: Op)
    requires Chosen(d, op) && !OnProjects(op) && !OnTasks(op)
    ensures PinsCount(d, op, ApplyToItems(d, op))
  {
  }

  /**
   The revision of every row after every call: one more if the call changes that row, the same if it does not, and 0 if
   the call made the row. Archiving what is archived, a refused name or a task that is gone count nothing; an upserted
   pin and a resumed project count even when they end up as they were.
   */
  lemma RevisionsExactly(d: Data, op: Op)
    requires Chosen(d, op)
    ensures var t := Apply(d, op);
      ProjectsCount(d, op, t) && TasksCount(d, op, t) && ResourcesCount(d, op, t) && PinsCount(d, op, t)
  {
    if OnProjects(op) {
      ProjectsCountProjects(d, op);
      TasksCountProjects(d, op);
      ResourcesCountProjects(d, op);
      PinsCountProjects(d, op);
    } else {
      ProjectsCountOthers(d, op);
      TasksCountOthers(d, op);
      if OnTasks(op) {
        ResourcesCountTasks(d, op);
        PinsCountTasks(d, op);
      } else {
        ResourcesCountItems(d, op);
        PinsCountItems(d, op);
      }
    }
  }
}
