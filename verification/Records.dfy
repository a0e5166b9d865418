/**
 The record store: projects, tasks, task resources and pins as tables keyed by id, with tombstones and
 revision counters. An operation that fails leaves the tables as they were.
 */
module Records {
  import opened Common
  import opened Json

  type Id = string

  datatype Project = Project(
    name: string, repoPath: string, archived: bool, deleted: bool, sortOrder: nat, lastTask: Option<Id>,
      activeSeconds: nat, rev: nat)

  datatype Task = Task(project: Id, title: string, done: bool, deleted: bool, rev: nat)

  datatype Resource = Resource(task: Id, kind: string, resourceType: string, payload: Payload, deleted: bool, rev: nat)

  datatype Pin = Pin(task: Id, kind: string, identity: string, payload: Payload, deleted: bool, rev: nat)

  datatype Data = Data(
    projects: map<Id, Project>, tasks: map<Id, Task>, resources: map<Id, Resource>, pins: map<Id, Pin>)

  predicate LiveProject(d: Data, id: Id) {
    id in d.projects && !d.projects[id].deleted
  }

  predicate Active(d: Data, id: Id) {
    LiveProject(d, id) && !d.projects[id].archived
  }

  predicate LiveTask(d: Data, id: Id) {
    id in d.tasks && !d.tasks[id].deleted
  }

  /** What `UNIQUE (name)` refuses: the constraint also sees tombstones. */
  predicate NameTaken(d: Data, name: string, but: Option<Id>) {
    exists p :: p in d.projects && d.projects[p].name == name && but != Some(p)
  }

  // ---------------------------------------------------------------- projects

  /** `MAX(sort_order) + 1` over some rows, and 0 over none. */
  ghost predicate IsNext(d: Data, among: set<Id>, next: nat) {
    && (forall p :: p in among && p in d.projects ==> d.projects[p].sortOrder < next)
    && (next == 0 || exists p :: p in among && p in d.projects && d.projects[p].sortOrder + 1 == next)
  }

  /** The rows with `archived_at IS NULL`, tombstones included. */
  function Unarchived(d: Data): set<Id> {
    set p | p in d.projects && !d.projects[p].archived
  }

  function CreateProject(d: Data, id: Id, name: string, path: string, order: nat): Data {
    if NameTaken(d, name, None) then d
    else d.(projects := d.projects[id := Project(name, path, false, false, order, None, 0, 0)])
  }

  /** Of the trimmed name. */
  function RenameProject(d: Data, id: Id, name: string): Data {
    if name == "" || !LiveProject(d, id) || NameTaken(d, name, Some(id)) then d
    else d.(projects := d.projects[id := d.projects[id].(name := name, rev := d.projects[id].rev + 1)])
  }

  /** Archiving again changes nothing. */
  function ArchiveProject(d: Data, id: Id): Data {
    if !LiveProject(d, id) then d
    else
      var p := d.projects[id];
      d.(projects := d.projects[id := p.(archived := true, rev := if p.archived then p.rev else p.rev + 1)])
  }

  function UnarchiveProject(d: Data, id: Id, order: nat): Data {
    if !LiveProject(d, id) || !d.projects[id].archived then d
    else
      var p := d.projects[id];
      d.(projects := d.projects[id := p.(archived := false, sortOrder := order, rev := p.rev + 1)])
  }

  function DeleteProject(d: Data, id: Id): Data {
    Data(
      map p | p in d.projects ::
        if p == id && !d.projects[p].deleted
        then d.projects[p].(deleted := true, lastTask := None, rev := d.projects[p].rev + 1) else d.projects[p],
      map t | t in d.tasks ::
        if d.tasks[t].project == id && !d.tasks[t].deleted
        then d.tasks[t].(deleted := true, rev := d.tasks[t].rev + 1) else d.tasks[t],
      map r | r in d.resources ::
        if InProject(d.tasks, d.resources[r].task, id) && !d.resources[r].deleted
        then d.resources[r].(deleted := true, rev := d.resources[r].rev + 1) else d.resources[r],
      map p | p in d.pins ::
        if InProject(d.tasks, d.pins[p].task, id) && !d.pins[p].deleted
        then d.pins[p].(deleted := true, rev := d.pins[p].rev + 1) else d.pins[p])
  }

  /** The subquery over live tasks. */
  predicate InProject(tasks: map<Id, Task>, task: Id, project: Id) {
    task in tasks && !tasks[task].deleted && tasks[task].project == project
  }

  /** The position of an id in a list. */
  function IndexOf(ids: seq<Id>, id: Id): nat
    requires id in ids
  {
    if ids[0] == id then 0 else 1 + IndexOf(ids[1..], id)
  }

  /** Every active project exactly once. */
  ghost predicate IsOrder(d: Data, ids: seq<Id>) {
    && (forall i, j :: 0 <= i < j < |ids| ==> ids[i] != ids[j])
    && (forall id :: id in ids <==> Active(d, id))
  }

  function Moved(p: Project, position: nat): Project {
    if p.sortOrder != position then p.(sortOrder := position, rev := p.rev + 1) else p
  }

  function Reordered(d: Data, ids: seq<Id>): Data {
    d.(projects := map p | p in d.projects :: if p in ids then Moved(d.projects[p], IndexOf(ids, p)) else d.projects[p])
  }

  /** `begin_project_session_for_task`. */
  function BeginSession(d: Data, task: Id): Data {
    if !LiveTask(d, task) || d.tasks[task].project !in d.projects || d.projects[d.tasks[task].project].archived then d
    else
      var id := d.tasks[task].project;
      d.(projects := d.projects[id :=
        d.projects[id].(lastTask := Some(task), activeSeconds := 0, rev := d.projects[id].rev + 1)])
  }

  // ---------------------------------------------------------------- tasks

  /** The foreign key asks for a row, not for a live one. */
  function CreateTask(d: Data, id: Id, project: Id, title: string): Data {
    if project !in d.projects then d else d.(tasks := d.tasks[id := Task(project, title, false, false, 0)])
  }

  /** `rename_task` and `set_task_status`. */
  function EditTask(d: Data, id: Id, title: string, done: bool): Data {
    if !LiveTask(d, id) then d
    else d.(tasks := d.tasks[id := d.tasks[id].(title := title, done := done, rev := d.tasks[id].rev + 1)])
  }

  function DeleteTask(d: Data, id: Id): Data {
    Data(
      map p | p in d.projects ::
        if d.projects[p].lastTask == Some(id) && !d.projects[p].deleted
        then d.projects[p].(lastTask := None, rev := d.projects[p].rev + 1) else d.projects[p],
      map t | t in d.tasks ::
        if t == id && !d.tasks[t].deleted
        then d.tasks[t].(deleted := true, rev := d.tasks[t].rev + 1) else d.tasks[t],
      map r | r in d.resources ::
        if d.resources[r].task == id && !d.resources[r].deleted
        then d.resources[r].(deleted := true, rev := d.resources[r].rev + 1) else d.resources[r],
      map p | p in d.pins ::
        if d.pins[p].task == id && !d.pins[p].deleted
        then d.pins[p].(deleted := true, rev := d.pins[p].rev + 1) else d.pins[p])
  }

  /** The rows that a copy of a task takes over. */
  function LiveResources(d: Data, task: Id): set<Id> {
    set r | r in d.resources && d.resources[r].task == task && !d.resources[r].deleted
  }

  /** A new id for each of some rows. */
  ghost predicate NewIds(d: Data, rows: set<Id>, ids: map<Id, Id>) {
    && rows <= ids.Keys
    && (forall r :: r in rows ==> ids[r] !in d.resources)
    && (forall r, s :: r in rows && s in rows && ids[r] == ids[s] ==> r == s)
  }

  function CopyOf(r: Resource, task: Id): Resource {
    Resource(task, r.kind, r.resourceType, r.payload, false, 0)
  }

  ghost function CopiedRows(d: Data, rows: set<Id>, ids: map<Id, Id>, copy: Id): (m: map<Id, Resource>)
    requires rows <= d.resources.Keys && NewIds(d, rows, ids)
    ensures forall r :: r in rows ==> ids[r] in m && m[ids[r]] == CopyOf(d.resources[r], copy)
    ensures forall x :: x in m ==> x !in d.resources && exists r :: r in rows && x == ids[r]
    ensures forall x :: x in m ==> m[x].task == copy && !m[x].deleted
  {
    map r | r in rows :: ids[r] := CopyOf(d.resources[r], copy)
  }

  ghost function DuplicateTask(d: Data, id: Id, copy: Id, title: string, ids: map<Id, Id>): Data
    requires NewIds(d, LiveResources(d, id), ids)
  {
    if !LiveTask(d, id) then d
    else
      d.(tasks := d.tasks[copy := Task(d.tasks[id].project, title, false, false, 0)],
         resources := d.resources + CopiedRows(d, LiveResources(d, id), ids, copy))
  }

  // ---------------------------------------------------------------- resources and pins

  function AddResource(d: Data, id: Id, task: Id, kind: string, resourceType: string, payload: Payload): Data {
    if task !in d.tasks then d
    else d.(resources := d.resources[id := Resource(task, kind, resourceType, payload, false, 0)])
  }

  function RemoveResource(d: Data, id: Id): Data {
    if id !in d.resources || d.resources[id].deleted then d
    else d.(resources := d.resources[id := d.resources[id].(deleted := true, rev := d.resources[id].rev + 1)])
  }

  function Captured(d: Data, task: Id, kind: string): set<Id> {
    set r | r in d.resources && d.resources[r].task == task && d.resources[r].kind == kind
  }

  /** A recapture purges every row of the kind, tombstones included, and adds one. */
  function ReplaceResources(d: Data, id: Id, task: Id, kind: string, resourceType: string, payload: Payload): Data {
    if !LiveTask(d, task) then d
    else
      d.(resources := (d.resources - Captured(d, task, kind))[id :=
        Resource(task, kind, resourceType, payload, false, 0)],
         tasks := d.tasks[task := d.tasks[task].(rev := d.tasks[task].rev + 1)])
  }

  predicate IsPin(d: Data, p: Id, task: Id, kind: string, identity: string) {
    p in d.pins && d.pins[p].task == task && d.pins[p].kind == kind && d.pins[p].identity == identity
  }

  /** The upsert: a row that is there, tombstoned or not, is refreshed and revived. */
  function AddPin(d: Data, id: Id, task: Id, kind: string, identity: string, payload: Payload): Data {
    if !LiveTask(d, task) then d
    else if !(exists p :: p in d.pins && IsPin(d, p, task, kind, identity)) then
      d.(pins := d.pins[id := Pin(task, kind, identity, payload, false, 0)])
    else
      d.(pins := map p | p in d.pins ::
        if IsPin(d, p, task, kind, identity)
        then d.pins[p].(payload := payload, deleted := false, rev := d.pins[p].rev + 1) else d.pins[p])
  }

  function RemovePin(d: Data, task: Id, kind: string, identity: string): Data {
    d.(pins := map p | p in d.pins ::
      if IsPin(d, p, task, kind, identity) && !d.pins[p].deleted
      then d.pins[p].(deleted := true, rev := d.pins[p].rev + 1) else d.pins[p])
  }

  // ---------------------------------------------------------------- operations

  /** A call, with what the store chose for it: new ids, the next position, the copy's title. */
  datatype Op =
    | OpCreateProject(id: Id, name: string, path: string, order: nat)
    | OpRenameProject(id: Id, name: string)
    | OpArchiveProject(id: Id)
    | OpUnarchiveProject(id: Id, order: nat)
    | OpDeleteProject(id: Id)
    | OpReorder(ordered: seq<Id>)
    | OpBeginSession(task: Id)
    | OpCreateTask(id: Id, project: Id, title: string)
    | OpEditTask(id: Id, title: string, done: bool)
    | OpDeleteTask(id: Id)
    | OpDuplicateTask(id: Id, copy: Id, title: string, ids: map<Id, Id>)
    | OpAddResource(id: Id, task: Id, kind: string, resourceType: string, payload: Payload)
    | OpRemoveResource(id: Id)
    | OpReplaceResources(id: Id, task: Id, kind: string, resourceType: string, payload: Payload)
    | OpAddPin(id: Id, task: Id, kind: string, identity: string, payload: Payload)
    | OpRemovePin(task: Id, kind: string, identity: string)

  /** What the store chose is right: ids are new and positions are the next ones. */
  ghost predicate Chosen(d: Data, op: Op) {
    match op
    case OpCreateProject(id, _, _, order) => id !in d.projects && IsNext(d, d.projects.Keys, order)
    case OpUnarchiveProject(_, order) => IsNext(d, Unarchived(d), order)
    case OpCreateTask(id, _, _) => id !in d.tasks
    case OpDuplicateTask(id, copy, _, ids) => copy !in d.tasks && NewIds(d, LiveResources(d, id), ids)
    case OpAddResource(id, _, _, _, _) => id !in d.resources
    case OpReplaceResources(id, _, _, _, _) => id !in d.resources
    case OpAddPin(id, _, _, _, _) => id !in d.pins
    case _ => true
  }

  predicate OnProjects(op: Op) {
    || op.OpCreateProject? || op.OpRenameProject? || op.OpArchiveProject? || op.OpUnarchiveProject?
    || op.OpDeleteProject? || op.OpReorder? || op.OpBeginSession?
  }

  predicate OnTasks(op: Op) {
    op.OpCreateTask? || op.OpEditTask? || op.OpDeleteTask? || op.OpDuplicateTask?
  }

  ghost function ApplyToProjects(d: Data, op: Op): Data
    requires OnProjects(op)
  {
    match op
    case OpCreateProject(id, name, path, order) => CreateProject(d, id, name, path, order)
    case OpRenameProject(id, name) => RenameProject(d, id, name)
    case OpArchiveProject(id) => ArchiveProject(d, id)
    case OpUnarchiveProject(id, order) => UnarchiveProject(d, id, order)
    case OpDeleteProject(id) => DeleteProject(d, id)
    case OpReorder(ids) => if IsOrder(d, ids) then Reordered(d, ids) else d
    case OpBeginSession(task) => BeginSession(d, task)
  }

  ghost function ApplyToTasks(d: Data, op: Op): Data
    requires OnTasks(op) && Chosen(d, op)
  {
    match op
    case OpCreateTask(id, project, title) => CreateTask(d, id, project, title)
    case OpEditTask(id, title, done) => EditTask(d, id, title, done)
    case OpDeleteTask(id) => DeleteTask(d, id)
    case OpDuplicateTask(id, copy, title, ids) => DuplicateTask(d, id, copy, title, ids)
  }

  function ApplyToItems(d: Data, op: Op): Data
    requires !OnProjects(op) && !OnTasks(op)
  {
    match op
    case OpAddResource(id, task, kind, resourceType, payload) => AddResource(d, id, task, kind, resourceType, payload)
    case OpRemoveResource(id) => RemoveResource(d, id)
    case OpReplaceResources(id, task, kind, resourceType, payload) =>
      ReplaceResources(d, id, task, kind, resourceType, payload)
    case OpAddPin(id, task, kind, identity, payload) => AddPin(d, id, task, kind, identity, payload)
    case OpRemovePin(task, kind, identity) => RemovePin(d, task, kind, identity)
  }

  ghost function Apply(d: Data, op: Op): Data
    requires Chosen(d, op)
  {
    if OnProjects(op) then ApplyToProjects(d, op)
    else if OnTasks(op) then ApplyToTasks(d, op)
    else ApplyToItems(d, op)
  }
}
