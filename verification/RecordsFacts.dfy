/** What the record store remembers: of every row exactly what the last call that concerns it said. */
module RecordsFacts {
  import opened Common
  import opened Json
  import opened Records
  import opened RecordsLaws
  import opened RecordsSteps

  /** Something a reader can see of a row that is not deleted. */
  datatype Fact =
    | Named(project: Id, name: string)
    | Located(project: Id, path: string)
    | Archived(project: Id)
    | Resumes(project: Id, task: Id)
    | Worked(project: Id, seconds: nat)
    | Belongs(task: Id, project: Id)
    | Titled(task: Id, title: string)
    | Done(task: Id)
    | Holds(resource: Id, task: Id, kind: string, resourceType: string, payload: Payload)
    | PinnedTo(task: Id, kind: string, identity: string, payload: Payload)

  /** The row of a pin that is not deleted. */
  ghost predicate Shows(d: Data, p: Id, t: Id, kind: string, identity: string, payload: Payload) {
    p in d.pins && d.pins[p] == Pin(t, kind, identity, payload, false, d.pins[p].rev)
  }

  ghost predicate Seen(d: Data, f: Fact) {
    match f
    case Named(p, name) => LiveProject(d, p) && d.projects[p].name == name
    case Located(p, path) => LiveProject(d, p) && d.projects[p].repoPath == path
    case Archived(p) => LiveProject(d, p) && d.projects[p].archived
    case Resumes(p, t) => LiveProject(d, p) && d.projects[p].lastTask == Some(t)
    case Worked(p, seconds) => LiveProject(d, p) && d.projects[p].activeSeconds == seconds
    case Belongs(t, p) => LiveTask(d, t) && d.tasks[t].project == p
    case Titled(t, title) => LiveTask(d, t) && d.tasks[t].title == title
    case Done(t) => LiveTask(d, t) && d.tasks[t].done
    case Holds(r, t, kind, resourceType, payload) =>
      r in d.resources && d.resources[r] == Resource(t, kind, resourceType, payload, false, d.resources[r].rev)
    case PinnedTo(t, kind, identity, payload) =>
      exists p :: Shows(d, p, t, kind, identity, payload)
  }

  // ---------------------------------------------------------------- what a call says

  /** No row but this one has the name, deleted or not. */
  ghost predicate Free(d: Data, name: string, p: Id) {
    forall q :: q in d.projects && q != p ==> d.projects[q].name != name
  }

  /** The call creates the project, and is accepted. */
  ghost predicate Creates(d: Data, op: Op, p: Id) {
    op.OpCreateProject? && op.id == p && Free(d, op.name, p)
  }

  ghost predicate Renames(d: Data, op: Op, p: Id) {
    op.OpRenameProject? && op.id == p && op.name != "" && LiveProject(d, p) && Free(d, op.name, p)
  }

  /** A session on this project begins for a task. */
  ghost predicate Begins(d: Data, op: Op, p: Id) {
    op.OpBeginSession? && LiveTask(d, op.task) && d.tasks[op.task].project == p && Active(d, p)
  }

  /** The call makes a task, new or as a copy. */
  ghost predicate Makes(d: Data, op: Op, t: Id) {
    || (op.OpCreateTask? && op.id == t && op.project in d.projects)
    || (op.OpDuplicateTask? && op.copy == t && LiveTask(d, op.id))
  }

  ghost predicate Edits(d: Data, op: Op, t: Id) {
    op.OpEditTask? && op.id == t && LiveTask(d, t)
  }

  ghost predicate Recaptures(d: Data, op: Op, t: Id, kind: string) {
    op.OpReplaceResources? && op.task == t && op.kind == kind && LiveTask(d, t)
  }

  ghost predicate Pins(d: Data, op: Op, t: Id, kind: string, identity: string) {
    op.OpAddPin? && op.task == t && op.kind == kind && op.identity == identity && LiveTask(d, t)
  }

  /** The call says so. */
  ghost predicate Says(d: Data, op: Op, f: Fact) {
    match f
    case Named(p, name) => (Creates(d, op, p) || Renames(d, op, p)) && op.name == name
    case Located(p, path) => Creates(d, op, p) && op.path == path
    case Archived(p) => op == OpArchiveProject(p) && LiveProject(d, p)
    case Resumes(p, t) => Begins(d, op, p) && op.task == t
    case Worked(p, seconds) => (Creates(d, op, p) || Begins(d, op, p)) && seconds == 0
    case Belongs(t, p) =>
      Makes(d, op, t) && if op.OpCreateTask? then op.project == p else d.tasks[op.id].project == p
    case Titled(t, title) => (Makes(d, op, t) || Edits(d, op, t)) && op.title == title
    case Done(t) => Edits(d, op, t) && op.done
    case Holds(r, t, kind, resourceType, payload) =>
      || (op == OpAddResource(r, t, kind, resourceType, payload) && t in d.tasks)
      || (op == OpReplaceResources(r, t, kind, resourceType, payload) && LiveTask(d, t))
      || (op.OpDuplicateTask? && LiveTask(d, op.id) && op.copy == t && exists source ::
            Seen(d, Holds(source, op.id, kind, resourceType, payload)) && source in op.ids && op.ids[source] == r)
    case PinnedTo(t, kind, identity, payload) => Pins(d, op, t, kind, identity) && op.payload == payload
  }

  /** The call deletes the task, on its own or with its project. */
  ghost predicate DeletesTask(d: Data, op: Op, t: Id) {
    op == OpDeleteTask(t) || (op.OpDeleteProject? && t in d.tasks && d.tasks[t].project == op.id)
  }

  /** The call deletes what a live task has. */
  ghost predicate Empties(d: Data, op: Op, t: Id) {
    op == OpDeleteTask(t) || (op.OpDeleteProject? && LiveTask(d, t) && d.tasks[t].project == op.id)
  }

  /** The call ends it: it deletes the row, or says something else. */
  ghost predicate Unsays(d: Data, op: Op, f: Fact) {
    match f
    case Named(p, name) => op == OpDeleteProject(p) || (Renames(d, op, p) && op.name != name)
    case Located(p, _) => op == OpDeleteProject(p)
    case Archived(p) => op == OpDeleteProject(p) || (op.OpUnarchiveProject? && op.id == p)
    case Resumes(p, t) => op == OpDeleteProject(p) || op == OpDeleteTask(t) || (Begins(d, op, p) && op.task != t)
    case Worked(p, seconds) => op == OpDeleteProject(p) || (Begins(d, op, p) && seconds != 0)
    case Belongs(t, _) => DeletesTask(d, op, t)
    case Titled(t, title) => DeletesTask(d, op, t) || (Edits(d, op, t) && op.title != title)
    case Done(t) => DeletesTask(d, op, t) || (Edits(d, op, t) && !op.done)
    case Holds(r, t, kind, _, _) => op == OpRemoveResource(r) || Empties(d, op, t) || Recaptures(d, op, t, kind)
    case PinnedTo(t, kind, identity, payload) =>
      || op == OpRemovePin(t, kind, identity) || Empties(d, op, t)
      || (Pins(d, op, t, kind, identity) && op.payload != payload)
  }

  // ---------------------------------------------------------------- one call

  /** The call leads from what was seen to what is seen. */
  ghost predicate Told(d: Data, op: Op, t: Data, f: Fact) {
    Seen(t, f) <==> Says(d, op, f) || (Seen(d, f) && !Unsays(d, op, f))
  }

  predicate OfProjects(f: Fact) { f.Named? || f.Located? || f.Archived? || f.Resumes? || f.Worked? }

  predicate OfTasks(f: Fact) { f.Belongs? || f.Titled? || f.Done? }

  /** Which calls are about the rows of a fact. */
  predicate About(op: Op, f: Fact) {
    if OfProjects(f) then OnProjects(op) || op.OpDeleteTask?
    else if OfTasks(f) then OnTasks(op) || op.OpDeleteProject?
    else if f.Holds? then
      || op.OpDeleteProject? || op.OpDeleteTask? || op.OpDuplicateTask?
      || op.OpAddResource? || op.OpRemoveResource? || op.OpReplaceResources?
    else op.OpDeleteProject? || op.OpDeleteTask? || op.OpAddPin? || op.OpRemovePin?
  }

  lemma NothingSaid(d: Data, op: Op, f: Fact)
    requires !About(op, f)
    ensures !Says(d, op, f) && !Unsays(d, op, f)
  {
  }

  /** The rows are the same, but for the revisions of tasks. */
  ghost predicate SameRows(d: Data, t: Data, f: Fact) {
    if OfProjects(f) then t.projects == d.projects
    else if OfTasks(f) then
      && t.tasks.Keys == d.tasks.Keys
      && forall x :: x in d.tasks ==> t.tasks[x] == d.tasks[x].(rev := t.tasks[x].rev)
    else if f.Holds? then t.resources == d.resources
    else t.pins == d.pins
  }

  lemma NothingSeen(d: Data, t: Data, f: Fact)
    requires SameRows(d, t, f)
    ensures Seen(t, f) <==> Seen(d, f)
  {
    if f.PinnedTo? {
      forall p ensures Shows(t, p, f.task, f.kind, f.identity, f.payload) <==>
        Shows(d, p, f.task, f.kind, f.identity, f.payload) {}
    }
  }

  lemma OtherProjectRows(d: Data, op: Op, f: Fact)
    requires Chosen(d, op) && OnProjects(op) && !About(op, f)
    ensures SameRows(d, Apply(d, op), f)
  {
  }

  lemma OtherTaskRows(d: Data, op: Op, f: Fact)
    requires Chosen(d, op) && OnTasks(op) && !About(op, f)
    ensures SameRows(d, Apply(d, op), f)
  {
  }

  lemma OtherTables(d: Data, op: Op, f: Fact)
    requires Chosen(d, op) && !OnProjects(op) && !OnTasks(op) && (OfProjects(f) || OfTasks(f))
    ensures SameRows(d, Apply(d, op), f)
  {
  }

  lemma OtherRows(d: Data, op: Op, f: Fact)
    requires Chosen(d, op) && !OnProjects(op) && !OnTasks(op) && !About(op, f)
    ensures SameRows(d, Apply(d, op), f)
  {
    if OfProjects(f) || OfTasks(f) { OtherTables(d, op, f); }
  }

  lemma CreateTells(d: Data, f: Fact, id: Id, name: string, path: string, order: nat)
    requires id !in d.projects && OfProjects(f)
    ensures Told(d, OpCreateProject(id, name, path, order), CreateProject(d, id, name, path, order), f)
  {
  }

  lemma RenameTells(d: Data, f: Fact, id: Id, name: string)
    requires OfProjects(f)
    ensures Told(d, OpRenameProject(id, name), RenameProject(d, id, name), f)
  {
  }

  lemma ArchiveTells(d: Data, f: Fact, id: Id)
    requires OfProjects(f)
    ensures Told(d, OpArchiveProject(id), ArchiveProject(d, id), f)
  {
  }

  lemma UnarchiveTells(d: Data, f: Fact, id: Id, order: nat)
    requires OfProjects(f)
    ensures Told(d, OpUnarchiveProject(id, order), UnarchiveProject(d, id, order), f)
  {
  }

  lemma ReorderTells(d: Data, f: Fact, ids: seq<Id>)
    requires OfProjects(f)
    ensures Told(d, OpReorder(ids), Reordered(d, ids), f)
  {
  }

  lemma SessionTells(d: Data, f: Fact, task: Id)
    requires OfProjects(f)
    ensures Told(d, OpBeginSession(task), BeginSession(d, task), f)
  {
  }

  lemma DeletedProjectTells(d: Data, f: Fact, id: Id)
    requires !f.PinnedTo?
    ensures Told(d, OpDeleteProject(id), DeleteProject(d, id), f)
  {
  }

  lemma DeletedTaskForgets(d: Data, f: Fact, id: Id)
    requires OfProjects(f)
    ensures Told(d, OpDeleteTask(id), DeleteTask(d, id), f)
  {
  }

  lemma DeletedTaskTells(d: Data, f: Fact, id: Id)
    requires OfTasks(f) || f.Holds?
    ensures Told(d, OpDeleteTask(id), DeleteTask(d, id), f)
  {
  }

  lemma TaskTells(d: Data, f: Fact, id: Id, project: Id, title: string)
    requires id !in d.tasks && OfTasks(f)
    ensures Told(d, OpCreateTask(id, project, title), CreateTask(d, id, project, title), f)
  {
  }

  lemma EditTells(d: Data, f: Fact, id: Id, title: string, done: bool)
    requires OfTasks(f)
    ensures Told(d, OpEditTask(id, title, done), EditTask(d, id, title, done), f)
  {
  }

  /** All that `t` adds to the tasks of `d` is the copy. */
  lemma CopiedTaskTells(d: Data, t: Data, f: Fact, id: Id, copy: Id, title: string, ids: map<Id, Id>)
    requires copy !in d.tasks && OfTasks(f)
    requires t.tasks ==
      if LiveTask(d, id) then d.tasks[copy := Task(d.tasks[id].project, title, false, false, 0)] else d.tasks
    ensures Told(d, OpDuplicateTask(id, copy, title, ids), t, f)
  {
  }

  lemma CopyTells(d: Data, f: Fact, id: Id, copy: Id, title: string, ids: map<Id, Id>)
    requires copy !in d.tasks && NewIds(d, LiveResources(d, id), ids) && OfTasks(f)
    ensures Told(d, OpDuplicateTask(id, copy, title, ids), DuplicateTask(d, id, copy, title, ids), f)
  {
    CopiedTaskTells(d, DuplicateTask(d, id, copy, title, ids), f, id, copy, title, ids);
  }

  /** A live resource of the task, with the contents of the fact. */
  ghost predicate IsSource(d: Data, source: Id, id: Id, f: Fact)
    requires f.Holds?
  {
    Seen(d, Holds(source, id, f.kind, f.resourceType, f.payload))
  }

  lemma LiveSource(d: Data, source: Id, id: Id, f: Fact)
    requires f.Holds? && source in LiveResources(d, id)
    ensures CopyOf(d.resources[source], f.task) == Resource(f.task, f.kind, f.resourceType, f.payload, false, 0) <==>
            IsSource(d, source, id, f)
  {
  }

  lemma CopyHasSource(d: Data, f: Fact, id: Id, ids: map<Id, Id>) returns (source: Id)
    requires NewIds(d, LiveResources(d, id), ids) && f.Holds?
    requires var rows := CopiedRows(d, LiveResources(d, id), ids, f.task);
      f.resource in rows && rows[f.resource] == Resource(f.task, f.kind, f.resourceType, f.payload, false, 0)
    ensures IsSource(d, source, id, f) && source in ids && ids[source] == f.resource
  {
    source :| source in LiveResources(d, id) && f.resource == ids[source];
    LiveSource(d, source, id, f);
  }

  lemma SourceHasCopy(d: Data, f: Fact, id: Id, ids: map<Id, Id>, source: Id)
    requires NewIds(d, LiveResources(d, id), ids) && f.Holds?
    requires IsSource(d, source, id, f) && source in ids && ids[source] == f.resource
    ensures var rows := CopiedRows(d, LiveResources(d, id), ids, f.task);
      f.resource in rows && rows[f.resource] == Resource(f.task, f.kind, f.resourceType, f.payload, false, 0)
  {
    assert source in LiveResources(d, id);
    LiveSource(d, source, id, f);
  }

  lemma CopiesTell(d: Data, f: Fact, id: Id, copy: Id, title: string, ids: map<Id, Id>)
    requires NewIds(d, LiveResources(d, id), ids) && f.Holds?
    ensures Told(d, OpDuplicateTask(id, copy, title, ids), DuplicateTask(d, id, copy, title, ids), f)
  {
    var op, t := OpDuplicateTask(id, copy, title, ids), DuplicateTask(d, id, copy, title, ids);
    if LiveTask(d, id) {
      var rows := CopiedRows(d, LiveResources(d, id), ids, copy);
      assert t.resources == d.resources + rows;
      assert f.resource in rows ==> f.resource !in d.resources && rows[f.resource].task == copy;
      if f.resource in rows && Seen(t, f) {
        var source := CopyHasSource(d, f, id, ids);
      }
      if Says(d, op, f) {
        var source :| IsSource(d, source, id, f) && source in ids && ids[source] == f.resource;
        SourceHasCopy(d, f, id, ids, source);
      }
    }
  }

  lemma AddTells(d: Data, f: Fact, id: Id, task: Id, kind: string, resourceType: string, payload: Payload)
    requires id !in d.resources && f.Holds?
    ensures Told(d, OpAddResource(id, task, kind, resourceType, payload),
      AddResource(d, id, task, kind, resourceType, payload), f)
  {
  }

  lemma RemoveTells(d: Data, f: Fact, id: Id)
    requires f.Holds?
    ensures Told(d, OpRemoveResource(id), RemoveResource(d, id), f)
  {
  }

  lemma RecaptureTells(d: Data, f: Fact, id: Id, task: Id, kind: string, resourceType: string, payload: Payload)
    requires id !in d.resources && f.Holds?
    ensures Told(d, OpReplaceResources(id, task, kind, resourceType, payload),
      ReplaceResources(d, id, task, kind, resourceType, payload), f)
  {
  }

  /** Pins that go: the rows of those that stay are the same. */
  lemma PinsGo(d: Data, op: Op, t: Data, f: Fact)
    requires f.PinnedTo? && !op.OpAddPin?
    requires forall p :: Shows(t, p, f.task, f.kind, f.identity, f.payload) <==>
      Shows(d, p, f.task, f.kind, f.identity, f.payload) && !Unsays(d, op, f)
    ensures Told(d, op, t, f)
  {
  }

  lemma UnpinTells(d: Data, f: Fact, task: Id, kind: string, identity: string)
    requires f.PinnedTo?
    ensures Told(d, OpRemovePin(task, kind, identity), RemovePin(d, task, kind, identity), f)
  {
    PinsGo(d, OpRemovePin(task, kind, identity), RemovePin(d, task, kind, identity), f);
  }

  lemma DeletedProjectPins(d: Data, f: Fact, id: Id)
    requires f.PinnedTo?
    ensures Told(d, OpDeleteProject(id), DeleteProject(d, id), f)
  {
    PinsGo(d, OpDeleteProject(id), DeleteProject(d, id), f);
  }

  lemma DeletedTaskPins(d: Data, f: Fact, id: Id)
    requires f.PinnedTo?
    ensures Told(d, OpDeleteTask(id), DeleteTask(d, id), f)
  {
    PinsGo(d, OpDeleteTask(id), DeleteTask(d, id), f);
  }

  lemma PinElsewhere(d: Data, id: Id, task: Id, kind: string, identity: string, payload: Payload, p: Id, q: Pin)
    requires id !in d.pins && !q.deleted
      && (!LiveTask(d, task) || (q.task, q.kind, q.identity) != (task, kind, identity))
    ensures Shows(AddPin(d, id, task, kind, identity, payload), p, q.task, q.kind, q.identity, q.payload) <==>
            Shows(d, p, q.task, q.kind, q.identity, q.payload)
  {
  }

  lemma PinHere(d: Data, id: Id, task: Id, kind: string, identity: string, payload: Payload, other: Payload)
    requires PinsUnique(d) && id !in d.pins && LiveTask(d, task)
    ensures var t := AddPin(d, id, task, kind, identity, payload);
      (exists p :: Shows(t, p, task, kind, identity, other)) <==> other == payload
  {
    var t := AddPin(d, id, task, kind, identity, payload);
    var p := PinExact(d, id, task, kind, identity, payload);
    assert Shows(t, p, task, kind, identity, payload);
    forall q | Shows(t, q, task, kind, identity, other) ensures other == payload {
      assert IsPin(t, q, task, kind, identity);
    }
  }

  lemma PinTells(d: Data, f: Fact, id: Id, task: Id, kind: string, identity: string, payload: Payload)
    requires f.PinnedTo? && PinsUnique(d) && id !in d.pins
    ensures Told(d, OpAddPin(id, task, kind, identity, payload), AddPin(d, id, task, kind, identity, payload), f)
  {
    if LiveTask(d, task) && f.task == task && f.kind == kind && f.identity == identity {
      PinHere(d, id, task, kind, identity, payload, f.payload);
    } else {
      var row := Pin(f.task, f.kind, f.identity, f.payload, false, 0);
      forall p ensures
        Shows(AddPin(d, id, task, kind, identity, payload), p, f.task, f.kind, f.identity, f.payload) <==>
        Shows(d, p, f.task, f.kind, f.identity, f.payload)
      {
        PinElsewhere(d, id, task, kind, identity, payload, p, row);
      }
    }
  }

  lemma ProjectCallTells(d: Data, op: Op, f: Fact)
    requires Chosen(d, op) && OnProjects(op) && About(op, f)
    ensures Told(d, op, Apply(d, op), f)
  {
    match op
    case OpCreateProject(id, name, path, order) => CreateTells(d, f, id, name, path, order);
    case OpRenameProject(id, name) => RenameTells(d, f, id, name);
    case OpArchiveProject(id) => ArchiveTells(d, f, id);
    case OpUnarchiveProject(id, order) => UnarchiveTells(d, f, id, order);
    case OpReorder(ids) => ReorderTells(d, f, ids);
    case OpBeginSession(task) => SessionTells(d, f, task);
    case OpDeleteProject(id) =>
      if f.PinnedTo? { DeletedProjectPins(d, f, id); } else { DeletedProjectTells(d, f, id); }
  }

  lemma TaskCallTells(d: Data, op: Op, f: Fact)
    requires Chosen(d, op) && OnTasks(op) && About(op, f)
    ensures Told(d, op, Apply(d, op), f)
  {
    match op
    case OpCreateTask(id, project, title) => TaskTells(d, f, id, project, title);
    case OpEditTask(id, title, done) => EditTells(d, f, id, title, done);
    case OpDeleteTask(id) =>
      if f.PinnedTo? { DeletedTaskPins(d, f, id); }
      else if OfProjects(f) { DeletedTaskForgets(d, f, id); } else { DeletedTaskTells(d, f, id); }
    case OpDuplicateTask(id, copy, title, ids) =>
      if f.Holds? { CopiesTell(d, f, id, copy, title, ids); } else { CopyTells(d, f, id, copy, title, ids); }
  }

  lemma ItemCallTells(d: Data, op: Op, f: Fact)
    requires Chosen(d, op) && !OnProjects(op) && !OnTasks(op) && About(op, f) && PinsUnique(d)
    ensures Told(d, op, Apply(d, op), f)
  {
    match op
    case OpAddResource(id, task, kind, resourceType, payload) =>
      AddTells(d, f, id, task, kind, resourceType, payload);
    case OpRemoveResource(id) => RemoveTells(d, f, id);
    case OpReplaceResources(id, task, kind, resourceType, payload) =>
      RecaptureTells(d, f, id, task, kind, resourceType, payload);
    case OpAddPin(id, task, kind, identity, payload) => PinTells(d, f, id, task, kind, identity, payload);
    case OpRemovePin(task, kind, identity) => UnpinTells(d, f, task, kind, identity);
  }

  lemma EachCallTells(d: Data, op: Op, f: Fact)
    requires Chosen(d, op) && PinsUnique(d)
    ensures Told(d, op, Apply(d, op), f)
  {
    if !About(op, f) {
      NothingSaid(d, op, f);
      if OnProjects(op) { OtherProjectRows(d, op, f); }
      else if OnTasks(op) { OtherTaskRows(d, op, f); }
      else { OtherRows(d, op, f); }
      NothingSeen(d, Apply(d, op), f);
    } else if OnProjects(op) {
      ProjectCallTells(d, op, f);
    } else if OnTasks(op) {
      TaskCallTells(d, op, f);
    } else {
      ItemCallTells(d, op, f);
    }
  }

  // ---------------------------------------------------------------- every run

  /** Some call of the run has said so, and none since has unsaid it. */
  ghost predicate LastSaid(run: seq<Op>, f: Fact)
    requires IsRun(run)
    decreases |run|
  {
    run != [] && var before, op := run[..|run| - 1], run[|run| - 1];
      Says(Final(before), op, f) || (LastSaid(before, f) && !Unsays(Final(before), op, f))
  }

  /** In every run what is seen of any row is exactly what was said of it last. */
  lemma {:induction false} SeenExactly(run: seq<Op>, f: Fact)
    requires IsRun(run)
    ensures Seen(Final(run), f) <==> LastSaid(run, f)
    decreases |run|
  {
    if run != [] {
      var before, op := run[..|run| - 1], run[|run| - 1];
      SeenExactly(before, f);
      RunsKeep(before);
      EachCallTells(Final(before), op, f);
    }
  }
}
