/**
 What each record operation keeps, operation by operation and table by table: the references between live rows,
 the revisions, and which pins, names and positions there are. Every operation is taken apart by the table it
 starts from (projects, tasks, or resources and pins), and the facts about the parts are put together in
 `RecordsLaws`, where the statements about all operations and all runs are.
 */
module RecordsSteps {
  import opened Common
  import opened Json
  import opened Records

  // ---------------------------------------------------------------- references

  /** Foreign keys: every row's parent has a row. */
  ghost predicate Rooted(d: Data) {
    && (forall t :: t in d.tasks ==> d.tasks[t].project in d.projects)
    && (forall r :: r in d.resources ==> d.resources[r].task in d.tasks)
    && (forall p :: p in d.pins ==> d.pins[p].task in d.tasks)
  }

  /** A live resource or pin has a live task, and a live task a live project. */
  ghost predicate Supported(d: Data) {
    && (forall t :: LiveTask(d, t) ==> LiveProject(d, d.tasks[t].project))
    && (forall r :: r in d.resources && !d.resources[r].deleted ==> LiveTask(d, d.resources[r].task))
    && (forall p :: p in d.pins && !d.pins[p].deleted ==> LiveTask(d, d.pins[p].task))
  }

  ghost predicate Sound(d: Data) {
    Rooted(d) && Supported(d)
  }

  /** A live project's last task is a live one of its own. */
  ghost predicate Remembered(d: Data) {
    forall p :: LiveProject(d, p) && d.projects[p].lastTask.Some? ==>
      InProject(d.tasks, d.projects[p].lastTask.value, p)
  }

  /** The two operations that look for a parent's row only: it has to be live for what they add to be supported. */
  predicate UnderLiveParent(d: Data, op: Op) {
    match op
    case OpCreateTask(_, project, _) => project in d.projects ==> LiveProject(d, project)
    case OpAddResource(_, task, _, _, _) => task in d.tasks ==> LiveTask(d, task)
    case _ => true
  }

  lemma SoundProjects(d: Data, op: Op)
    requires Sound(d) && Chosen(d, op)
    requires op.OpCreateProject? || op.OpRenameProject? || op.OpArchiveProject? || op.OpUnarchiveProject?
    ensures Sound(Apply(d, op))
  {
  }

  lemma SoundReorder(d: Data, ids: seq<Id>)
    requires Sound(d)
    ensures Sound(Reordered(d, ids))
  {
  }

  lemma SoundSession(d: Data, task: Id)
    requires Sound(d)
    ensures Sound(BeginSession(d, task))
  {
  }

  lemma SoundDeleteProject(d: Data, id: Id)
    requires Sound(d)
    ensures Sound(DeleteProject(d, id))
  {
  }

  lemma SoundDeleteTask(d: Data, id: Id)
    requires Sound(d)
    ensures Sound(DeleteTask(d, id))
  {
  }

  /** A new task with new rows of its own. */
  lemma SoundNewTask(d: Data, copy: Id, task: Task, rows: map<Id, Resource>)
    requires Sound(d) && copy !in d.tasks && LiveProject(d, task.project)
    requires forall x :: x in rows ==> x !in d.resources && rows[x].task == copy
    requires !task.deleted
    ensures Sound(d.(tasks := d.tasks[copy := task], resources := d.resources + rows))
  {
  }

  lemma SoundDuplicate(d: Data, id: Id, copy: Id, title: string, ids: map<Id, Id>)
    requires Sound(d) && copy !in d.tasks && NewIds(d, LiveResources(d, id), ids)
    ensures Sound(DuplicateTask(d, id, copy, title, ids))
  {
    if LiveTask(d, id) {
      SoundNewTask(d, copy, Task(d.tasks[id].project, title, false, false, 0),
        CopiedRows(d, LiveResources(d, id), ids, copy));
    }
  }

  lemma SoundCreateTask(d: Data, id: Id, project: Id, title: string)
    requires Sound(d) && id !in d.tasks && (project in d.projects ==> LiveProject(d, project))
    ensures Sound(CreateTask(d, id, project, title))
  {
  }

  lemma SoundEditTask(d: Data, id: Id, title: string, done: bool)
    requires Sound(d)
    ensures Sound(EditTask(d, id, title, done))
  {
  }

  lemma SoundResources(d: Data, op: Op)
    requires Sound(d) && Chosen(d, op) && UnderLiveParent(d, op) && (op.OpAddResource? || op.OpRemoveResource?)
    ensures Sound(Apply(d, op))
  {
  }

  lemma SoundRecapture(d: Data, id: Id, task: Id, kind: string, resourceType: string, payload: Payload)
    requires Sound(d) && id !in d.resources
    ensures Sound(ReplaceResources(d, id, task, kind, resourceType, payload))
  {
  }

  lemma SoundAddPin(d: Data, id: Id, task: Id, kind: string, identity: string, payload: Payload)
    requires Sound(d) && id !in d.pins
    ensures Sound(AddPin(d, id, task, kind, identity, payload))
  {
  }

  lemma SoundRemovePin(d: Data, task: Id, kind: string, identity: string)
    requires Sound(d)
    ensures Sound(RemovePin(d, task, kind, identity))
  {
  }

  lemma RememberedByProjects(d: Data, op: Op)
    requires Remembered(d) && OnProjects(op) && Chosen(d, op)
    ensures Remembered(ApplyToProjects(d, op))
  {
  }

  lemma RememberedByTasks(d: Data, op: Op)
    requires Remembered(d) && OnTasks(op) && Chosen(d, op)
    ensures Remembered(ApplyToTasks(d, op))
  {
  }

  lemma RememberedByItems(d: Data, op: Op)
    requires Remembered(d) && !OnProjects(op) && !OnTasks(op) && Chosen(d, op)
    ensures Remembered(ApplyToItems(d, op))
  {
  }

  // ---------------------------------------------------------------- revisions

  /** Every row that is in both is the same, or has changed and counted that once. */
  ghost predicate ProjectsCounted(a: map<Id, Project>, b: map<Id, Project>) {
    forall p :: p in a ==> p in b && (b[p] == a[p] || b[p].rev == a[p].rev + 1)
  }

  ghost predicate TasksCounted(a: map<Id, Task>, b: map<Id, Task>) {
    forall t :: t in a ==> t in b && (b[t] == a[t] || b[t].rev == a[t].rev + 1)
  }

  /** Of the captured rows, those that a recapture purges are gone. */
  ghost predicate ResourcesCounted(a: map<Id, Resource>, b: map<Id, Resource>) {
    forall r :: r in a && r in b ==> b[r] == a[r] || b[r].rev == a[r].rev + 1
  }

  ghost predicate PinsCounted(a: map<Id, Pin>, b: map<Id, Pin>) {
    forall p :: p in a ==> p in b && (b[p] == a[p] || b[p].rev == a[p].rev + 1)
  }

  lemma ProjectChangesByProjects(d: Data, op: Op)
    requires OnProjects(op) && Chosen(d, op)
    ensures ProjectsCounted(d.projects, ApplyToProjects(d, op).projects)
  {
  }

  lemma ProjectChangesByTasks(d: Data, op: Op)
    requires OnTasks(op) && Chosen(d, op)
    ensures ProjectsCounted(d.projects, ApplyToTasks(d, op).projects)
  {
  }

  lemma ProjectChangesByItems(d: Data, op: Op)
    requires !OnProjects(op) && !OnTasks(op) && Chosen(d, op)
    ensures ProjectsCounted(d.projects, ApplyToItems(d, op).projects)
  {
  }

  lemma ProjectChanges(d: Data, op: Op)
    requires Chosen(d, op)
    ensures ProjectsCounted(d.projects, Apply(d, op).projects)
  {
    if OnProjects(op) {
      ProjectChangesByProjects(d, op);
    } else if OnTasks(op) {
      ProjectChangesByTasks(d, op);
    } else {
      ProjectChangesByItems(d, op);
    }
  }

  lemma TaskChangesByProjects(d: Data, op: Op)
    requires OnProjects(op)
    ensures TasksCounted(d.tasks, ApplyToProjects(d, op).tasks)
  {
  }

  lemma TaskChangesByTasks(d: Data, op: Op)
    requires OnTasks(op) && Chosen(d, op)
    ensures TasksCounted(d.tasks, ApplyToTasks(d, op).tasks)
  {
  }

  lemma TaskChangesByItems(d: Data, op: Op)
    requires !OnProjects(op) && !OnTasks(op) && Chosen(d, op)
    ensures TasksCounted(d.tasks, ApplyToItems(d, op).tasks)
  {
  }

  lemma TaskChanges(d: Data, op: Op)
    requires Chosen(d, op)
    ensures TasksCounted(d.tasks, Apply(d, op).tasks)
  {
    if OnProjects(op) {
      TaskChangesByProjects(d, op);
    } else if OnTasks(op) {
      TaskChangesByTasks(d, op);
    } else {
      TaskChangesByItems(d, op);
    }
  }

  lemma ResourceChangesByProjects(d: Data, op: Op)
    requires OnProjects(op)
    ensures ResourcesCounted(d.resources, ApplyToProjects(d, op).resources)
  {
  }

  lemma ResourceChangesByTasks(d: Data, op: Op)
    requires OnTasks(op) && Chosen(d, op)
    ensures ResourcesCounted(d.resources, ApplyToTasks(d, op).resources)
  {
  }

  lemma ResourceChangesByItems(d: Data, op: Op)
    requires !OnProjects(op) && !OnTasks(op) && Chosen(d, op)
    ensures ResourcesCounted(d.resources, ApplyToItems(d, op).resources)
  {
  }

  lemma ResourceChanges(d: Data, op: Op)
    requires Chosen(d, op)
    ensures ResourcesCounted(d.resources, Apply(d, op).resources)
  {
    if OnProjects(op) {
      ResourceChangesByProjects(d, op);
    } else if OnTasks(op) {
      ResourceChangesByTasks(d, op);
    } else {
      ResourceChangesByItems(d, op);
    }
  }

  lemma PinChangesByProjects(d: Data, op: Op)
    requires OnProjects(op)
    ensures PinsCounted(d.pins, ApplyToProjects(d, op).pins)
  {
  }

  lemma PinChangesByTasks(d: Data, op: Op)
    requires OnTasks(op) && Chosen(d, op)
    ensures PinsCounted(d.pins, ApplyToTasks(d, op).pins)
  {
  }

  lemma PinChangesByItems(d: Data, op: Op)
    requires !OnProjects(op) && !OnTasks(op) && Chosen(d, op)
    ensures PinsCounted(d.pins, ApplyToItems(d, op).pins)
  {
  }

  lemma PinChanges(d: Data, op: Op)
    requires Chosen(d, op)
    ensures PinsCounted(d.pins, Apply(d, op).pins)
  {
    if OnProjects(op) {
      PinChangesByProjects(d, op);
    } else if OnTasks(op) {
      PinChangesByTasks(d, op);
    } else {
      PinChangesByItems(d, op);
    }
  }

  // ---------------------------------------------------------------- pins

  ghost predicate PinsUnique(d: Data) {
    forall p, q :: p in d.pins && q in d.pins && p != q ==>
      d.pins[p].task != d.pins[q].task || d.pins[p].kind != d.pins[q].kind || d.pins[p].identity != d.pins[q].identity
  }

  /** Every pin row is for what it was for. */
  ghost predicate SamePins(a: map<Id, Pin>, b: map<Id, Pin>) {
    && a.Keys == b.Keys
    && forall p :: p in a ==> a[p].task == b[p].task && a[p].kind == b[p].kind && a[p].identity == b[p].identity
  }

  /** But for a deletion, operations on projects leave the other tables alone. */
  lemma ProjectsLeaveTheRest(d: Data, op: Op)
    requires OnProjects(op) && !op.OpDeleteProject?
    ensures var t := ApplyToProjects(d, op); t.tasks == d.tasks && t.resources == d.resources && t.pins == d.pins
  {
  }

  lemma PinsKeptByDeletion(d: Data, id: Id)
    ensures SamePins(d.pins, DeleteProject(d, id).pins)
  {
  }

  lemma PinsKeptByProjects(d: Data, op: Op)
    requires OnProjects(op)
    ensures SamePins(d.pins, ApplyToProjects(d, op).pins)
  {
    if op.OpDeleteProject? { PinsKeptByDeletion(d, op.id); } else { ProjectsLeaveTheRest(d, op); }
  }

  lemma PinsKeptByTasks(d: Data, op: Op)
    requires OnTasks(op) && Chosen(d, op) && !op.OpAddPin?
    ensures SamePins(d.pins, ApplyToTasks(d, op).pins)
  {
  }

  lemma PinsKeptByItems(d: Data, op: Op)
    requires !OnProjects(op) && !OnTasks(op) && Chosen(d, op) && !op.OpAddPin?
    ensures SamePins(d.pins, ApplyToItems(d, op).pins)
  {
  }

  lemma PinsKept(d: Data, op: Op)
    requires Chosen(d, op) && !op.OpAddPin?
    ensures SamePins(d.pins, Apply(d, op).pins)
  {
    if OnProjects(op) {
      PinsKeptByProjects(d, op);
    } else if OnTasks(op) {
      PinsKeptByTasks(d, op);
    } else {
      PinsKeptByItems(d, op);
    }
  }

  lemma PinAdded(d: Data, id: Id, task: Id, kind: string, identity: string, payload: Payload)
    requires PinsUnique(d) && id !in d.pins
    ensures PinsUnique(AddPin(d, id, task, kind, identity, payload))
  {
  }

  // ---------------------------------------------------------------- names and order

  ghost predicate NamesUnique(d: Data) {
    forall p, q :: p in d.projects && q in d.projects && p != q ==> d.projects[p].name != d.projects[q].name
  }

  /** Every row has the name it had. */
  ghost predicate SameNames(a: map<Id, Project>, b: map<Id, Project>) {
    a.Keys == b.Keys && forall p :: p in a ==> a[p].name == b[p].name
  }

  lemma NamesKeptByProjects(d: Data, op: Op)
    requires OnProjects(op) && !op.OpCreateProject? && !op.OpRenameProject?
    ensures SameNames(d.projects, ApplyToProjects(d, op).projects)
  {
  }

  lemma NamesKeptByTasks(d: Data, op: Op)
    requires OnTasks(op) && Chosen(d, op) && !op.OpCreateProject? && !op.OpRenameProject?
    ensures SameNames(d.projects, ApplyToTasks(d, op).projects)
  {
  }

  lemma NamesKeptByItems(d: Data, op: Op)
    requires !OnProjects(op) && !OnTasks(op) && Chosen(d, op) && !op.OpCreateProject? && !op.OpRenameProject?
    ensures SameNames(d.projects, ApplyToItems(d, op).projects)
  {
  }

  lemma NamesKept(d: Data, op: Op)
    requires Chosen(d, op) && !op.OpCreateProject? && !op.OpRenameProject?
    ensures SameNames(d.projects, Apply(d, op).projects)
  {
    if OnProjects(op) {
      NamesKeptByProjects(d, op);
    } else if OnTasks(op) {
      NamesKeptByTasks(d, op);
    } else {
      NamesKeptByItems(d, op);
    }
  }

  lemma NamesCreated(d: Data, id: Id, name: string, path: string, order: nat)
    requires NamesUnique(d)
    ensures NamesUnique(CreateProject(d, id, name, path, order))
  {
  }

  lemma NamesRenamed(d: Data, id: Id, name: string)
    requires NamesUnique(d)
    ensures NamesUnique(RenameProject(d, id, name))
  {
  }

  ghost predicate PositionsDistinct(d: Data) {
    forall p, q :: Active(d, p) && Active(d, q) && p != q ==> d.projects[p].sortOrder != d.projects[q].sortOrder
  }

  /** Active projects stay where they are, and no others become active. */
  ghost predicate InPlace(a: Data, b: Data) {
    forall p :: Active(b, p) ==> Active(a, p) && b.projects[p].sortOrder == a.projects[p].sortOrder
  }

  lemma PlacedByTasks(d: Data, op: Op)
    requires OnTasks(op) && Chosen(d, op)
    ensures InPlace(d, ApplyToTasks(d, op))
  {
  }

  lemma PlacedByItems(d: Data, op: Op)
    requires !OnProjects(op) && !OnTasks(op)
    ensures InPlace(d, ApplyToItems(d, op))
  {
  }

  lemma DistinctByProjects(d: Data, op: Op)
    requires PositionsDistinct(d) && Chosen(d, op) && OnProjects(op) && !op.OpReorder?
    ensures PositionsDistinct(ApplyToProjects(d, op))
  {
  }
}
