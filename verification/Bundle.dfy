/** Applying a reviewed bundle: one transaction over four tables. */
module Bundle {
  import opened Common
  import opened Decimals
  import opened PathRewrite
  import opened Records
  import opened Json

  // `INSERT OR REPLACE` first deletes the rows that the new one conflicts with, by primary key or by a UNIQUE
  // constraint, and `ON DELETE CASCADE` takes their children along.

  const BUNDLE_FORMAT := "rabta.bundle"
  const BUNDLE_VERSION := 1

  // ---------------------------------------------------------------- rows of a bundle

  /** The two numbers are whatever the file says. */
  datatype ProjectRow = ProjectRow(
    id: Id, name: string, repoPath: string, archived: bool, lastTask: Option<Id>, activeSeconds: int, sortOrder: int)

  datatype TaskRow = TaskRow(id: Id, project: Id, title: string, status: string)

  datatype ResourceRow = ResourceRow(id: Id, task: Id, kind: string, resourceType: string, payload: Payload)

  datatype PinRow = PinRow(id: Id, task: Id, kind: string, identity: string, payload: Payload)

  datatype Contents = Contents(
    format: string, version: nat, sourceHome: Option<string>,
    projects: seq<ProjectRow>, tasks: seq<TaskRow>, resources: seq<ResourceRow>, pins: seq<PinRow>)

  /** `check_readable`. */
  predicate Readable(b: Contents) {
    b.format == BUNDLE_FORMAT && b.version <= BUNDLE_VERSION
  }

  datatype Merge = KeepBoth | Replace | Skip

  datatype Plan = Plan(newHome: Option<string>, merge: Merge)

  datatype Outcome = Outcome(added: nat, replaced: nat, skipped: nat, capsules: nat, paths: nat)

  // ---------------------------------------------------------------- deletes and inserts

  /** Deletes projects, and with them their tasks and what hangs on those. */
  function DropProjects(s: Data, ids: set<Id>): Data {
    var tasks := set t | t in s.tasks && s.tasks[t].project in ids;
    DropTasks(s.(projects := s.projects - ids), tasks)
  }

  function DropTasks(s: Data, ids: set<Id>): Data {
    Data(
      s.projects,
      s.tasks - ids,
      s.resources - (set r | r in s.resources && s.resources[r].task in ids),
      s.pins - (set p | p in s.pins && s.pins[p].task in ids))
  }

  /** The rows that a project to be inserted conflicts with. */
  function ProjectConflicts(s: Data, id: Id, name: string): set<Id> {
    set p | p in s.projects && (p == id || s.projects[p].name == name)
  }

  function InsertProject(s: Data, id: Id, row: Project): Data {
    var t := DropProjects(s, ProjectConflicts(s, id, row.name));
    t.(projects := t.projects[id := row])
  }

  /** `CHECK (status IN ('open', 'done'))`. */
  predicate StatusAllowed(status: string) {
    status == "open" || status == "done"
  }

  /** `CHECK (active_seconds >= 0)` and `CHECK (sort_order >= 0)`. */
  predicate NumbersAllowed(row: ProjectRow) {
    row.activeSeconds >= 0 && row.sortOrder >= 0
  }

  /** The foreign key fails the statement. */
  function InsertTask(s: Data, id: Id, row: Task): Option<Data> {
    if row.project !in s.projects then None
    else
      var t := DropTasks(s, {id});
      Some(t.(tasks := t.tasks[id := row]))
  }

  function InsertResource(s: Data, id: Id, row: Resource): Option<Data> {
    if row.task !in s.tasks then None else Some(s.(resources := s.resources[id := row]))
  }

  function PinConflicts(s: Data, id: Id, row: Pin): set<Id> {
    set p | p in s.pins && (p == id
      || (s.pins[p].task == row.task && s.pins[p].kind == row.kind && s.pins[p].identity == row.identity))
  }

  function InsertPin(s: Data, id: Id, row: Pin): Option<Data> {
    if row.task !in s.tasks then None else Some(s.(pins := (s.pins - PinConflicts(s, id, row))[id := row]))
  }

  // ---------------------------------------------------------------- names

  function Names(s: Data): set<string> {
    set p | p in s.projects :: s.projects[p].name
  }

  /** `SELECT … WHERE name = ? AND deleted_at IS NULL`. */
  predicate Collides(s: Data, name: string) {
    exists p :: p in s.projects && s.projects[p].name == name && !s.projects[p].deleted
  }

  /** The live projects of a name: at most one while names are unique. */
  function Locals(s: Data, name: string): set<Id> {
    set p | p in s.projects && s.projects[p].name == name && !s.projects[p].deleted
  }

  /** The suffixed names that "keep both" tries, in order. */
  function Suffixed(base: string, i: nat): string {
    if i < 2 then base + " (from the other Mac)" else base + " (from the other Mac) " + Decimal(i)
  }

  function Tagged(base: string, newId: Id): string {
    base + " (from the other Mac) " + newId
  }

  /** The first free name from `i` on, and one with a new id as the last resort. */
  function UniqueName(taken: set<string>, base: string, i: nat, newId: Id): (name: string)
    requires 1 <= i <= 1000
    ensures Tagged(base, newId) !in taken ==> name !in taken
    decreases 1000 - i
  {
    if i == 1000 then Tagged(base, newId)
    else if Suffixed(base, i) !in taken then Suffixed(base, i)
    else UniqueName(taken, base, i + 1, newId)
  }

  lemma SuffixedIs(base: string, i: nat)
    requires i >= 2
    ensures base + " (from the other Mac)" + " " + Decimal(i) == Suffixed(base, i)
  {
  }

  lemma TaggedIs(base: string, newId: Id)
    ensures base + " (from the other Mac)" + " " + newId == Tagged(base, newId)
  {
  }

  /** `unique_name`. */
  method FindUniqueName(taken: set<string>, base: string, newId: Id) returns (name: string)
    ensures name == UniqueName(taken, base, 1, newId)
  {
    var candidate := base + " (from the other Mac)";
    if candidate !in taken { return candidate; }
    for i := 2 to 1000
      invariant UniqueName(taken, base, 1, newId) == UniqueName(taken, base, i, newId)
    {
      var next := candidate + " " + Decimal(i);
      SuffixedIs(base, i);
      if next !in taken { return next; }
    }
    name := candidate + " " + newId;
    TaggedIs(base, newId);
  }

  // ---------------------------------------------------------------- the four loops

  /** The transaction so far: the store, where each incoming project ended up, and the counts. */
  datatype Progress = Progress(s: Data, projects: map<Id, Option<Id>>, out: Outcome)

  function PathMoves(path: string, from: Option<string>, to: Option<string>): nat {
    if Moves(path, from, to) then 1 else 0
  }

  /** The row as it is inserted: live, with its path moved and its revision at 0. */
  function ProjectOf(row: ProjectRow, name: string, from: Option<string>, plan: Plan): Project
    requires NumbersAllowed(row)
  {
    var path := Remap(row.repoPath, from, plan.newHome);
    Project(name, path, row.archived, false, row.sortOrder, row.lastTask, row.activeSeconds, 0)
  }

  /** Whether the row is inserted at all. */
  predicate Inserts(s: Data, row: ProjectRow, plan: Plan) {
    Collides(s, row.name) ==> plan.merge != Skip
  }

  /** What becomes of one incoming project; `newId` is the new id that a name may need. */
  function MergeProject(g: Progress, row: ProjectRow, from: Option<string>, plan: Plan, newId: Id): Option<Progress> {
    var out := g.out.(paths := g.out.paths + PathMoves(row.repoPath, from, plan.newHome));
    if !Inserts(g.s, row, plan) then Some(Progress(g.s, g.projects[row.id := None], out.(skipped := out.skipped + 1)))
    else if !NumbersAllowed(row) then None
    else if !Collides(g.s, row.name) then
      var s := InsertProject(g.s, row.id, ProjectOf(row, row.name, from, plan));
      Some(Progress(s, g.projects[row.id := Some(row.id)], out.(added := out.added + 1)))
    else if plan.merge == Replace then
      var s := InsertProject(DropProjects(g.s, Locals(g.s, row.name)), row.id, ProjectOf(row, row.name, from, plan));
      Some(Progress(s, g.projects[row.id := Some(row.id)], out.(replaced := out.replaced + 1)))
    else
      var s := InsertProject(g.s, row.id, ProjectOf(row, UniqueName(Names(g.s), row.name, 1, newId), from, plan));
      Some(Progress(s, g.projects[row.id := Some(row.id)], out.(added := out.added + 1)))
  }

  /** The task's project came along and was not skipped. */
  predicate Comes(projects: map<Id, Option<Id>>, row: TaskRow) {
    row.project in projects && projects[row.project].Some?
  }

  function TaskOf(row: TaskRow, projects: map<Id, Option<Id>>): Task
    requires Comes(projects, row)
  {
    Task(projects[row.project].value, row.title, row.status == "done", false, 0)
  }

  function MergeTask(g: Progress, row: TaskRow): Option<Progress> {
    if !Comes(g.projects, row) then Some(g)
    else if !StatusAllowed(row.status) then None
    else match InsertTask(g.s, row.id, TaskOf(row, g.projects))
      case None => None
      case Some(s) => Some(g.(s := s, out := g.out.(capsules := g.out.capsules + 1)))
  }

  function RewritePayload(p: Payload, from: Option<string>, to: Option<string>): Payload {
    match p
    case Parsed(v) => Parsed(Rewrite(v, from, to))
    case Opaque(_) => p
  }

  function CountPayload(p: Payload, from: Option<string>, to: Option<string>): nat {
    match p
    case Parsed(v) => Count(v, from, to)
    case Opaque(_) => 0
  }

  function ResourceOf(row: ResourceRow, from: Option<string>, to: Option<string>): Resource {
    Resource(row.task, row.kind, row.resourceType, RewritePayload(row.payload, from, to), false, 0)
  }

  function PinOf(row: PinRow, from: Option<string>, to: Option<string>): Pin {
    Pin(row.task, row.kind, Remap(row.identity, from, to), RewritePayload(row.payload, from, to), false, 0)
  }

  /** Each from here on: the row if its task comes along, and nothing otherwise. */
  function MergeResource(g: Progress, row: ResourceRow, coming: set<Id>, from: Option<string>,
      to: Option<string>): Option<Progress> {
    if row.task !in coming then Some(g)
    else match InsertResource(g.s, row.id, ResourceOf(row, from, to))
      case None => None
      case Some(s) => Some(g.(s := s, out := g.out.(paths := g.out.paths + CountPayload(row.payload, from, to))))
  }

  function MergePin(g: Progress, row: PinRow, coming: set<Id>, from: Option<string>,
      to: Option<string>): Option<Progress> {
    if row.task !in coming then Some(g)
    else match InsertPin(g.s, row.id, PinOf(row, from, to))
      case None => None
      case Some(s) => Some(g.(s := s, out := g.out.(paths := g.out.paths + CountPayload(row.payload, from, to))))
  }

  function MergeProjects(g: Progress, rows: seq<ProjectRow>, newIds: seq<Id>, from: Option<string>,
      plan: Plan): Option<Progress>
    requires |newIds| == |rows|
    decreases |rows|
  {
    if rows == [] then Some(g)
    else match MergeProject(g, rows[0], from, plan, newIds[0])
      case None => None
      case Some(h) => MergeProjects(h, rows[1..], newIds[1..], from, plan)
  }

  function MergeTasks(g: Progress, rows: seq<TaskRow>): Option<Progress>
    decreases |rows|
  {
    if rows == [] then Some(g)
    else match MergeTask(g, rows[0])
      case None => None
      case Some(h) => MergeTasks(h, rows[1..])
  }

  function MergeResources(g: Progress, rows: seq<ResourceRow>, coming: set<Id>, from: Option<string>,
      to: Option<string>): Option<Progress>
    decreases |rows|
  {
    if rows == [] then Some(g)
    else match MergeResource(g, rows[0], coming, from, to)
      case None => None
      case Some(h) => MergeResources(h, rows[1..], coming, from, to)
  }

  function MergePins(g: Progress, rows: seq<PinRow>, coming: set<Id>, from: Option<string>,
      to: Option<string>): Option<Progress>
    decreases |rows|
  {
    if rows == [] then Some(g)
    else match MergePin(g, rows[0], coming, from, to)
      case None => None
      case Some(h) => MergePins(h, rows[1..], coming, from, to)
  }

  /** The ids of the incoming tasks whose project comes along. */
  function Coming(projects: map<Id, Option<Id>>, rows: seq<TaskRow>): set<Id> {
    if rows == [] then {}
    else (if Comes(projects, rows[0]) then {rows[0].id} else {}) + Coming(projects, rows[1..])
  }

  function Start(s: Data): Progress {
    Progress(s, map[], Outcome(0, 0, 0, 0, 0))
  }

  /** `apply_bundle`: nothing if the bundle cannot be read or some statement fails. */
  function Applied(s: Data, b: Contents, plan: Plan, newIds: seq<Id>): Option<Progress>
    requires |newIds| == |b.projects|
  {
    if !Readable(b) then None
    else match MergeProjects(Start(s), b.projects, newIds, b.sourceHome, plan)
      case None => None
      case Some(g) =>
        var coming := Coming(g.projects, b.tasks);
        match MergeTasks(g, b.tasks)
        case None => None
        case Some(h) =>
          match MergeResources(h, b.resources, coming, b.sourceHome, plan.newHome)
          case None => None
          case Some(i) => MergePins(i, b.pins, coming, b.sourceHome, plan.newHome)
  }

  class Db {
    var store: Data

    method Projects(b: Contents, plan: Plan, newIds: seq<Id>) returns (r: Option<Progress>)
      requires |newIds| == |b.projects|
      ensures r == MergeProjects(Start(store), b.projects, newIds, b.sourceHome, plan)
    {
      var g, from := Start(store), b.sourceHome;
      for i := 0 to |b.projects|
        invariant MergeProjects(g, b.projects[i..], newIds[i..], from, plan) ==
          MergeProjects(Start(store), b.projects, newIds, from, plan)
      {
        assert b.projects[i..][1..] == b.projects[i + 1..] && newIds[i..][1..] == newIds[i + 1..];
        var h := MergeProject(g, b.projects[i], from, plan, newIds[i]);
        if h.None? { return None; }
        g := h.value;
      }
      return Some(g);
    }

    method Tasks(start: Progress, rows: seq<TaskRow>) returns (r: Option<Progress>)
      ensures r == MergeTasks(start, rows)
    {
      var g := start;
      for i := 0 to |rows|
        invariant MergeTasks(g, rows[i..]) == MergeTasks(start, rows)
      {
        assert rows[i..][1..] == rows[i + 1..];
        var h := MergeTask(g, rows[i]);
        if h.None? { return None; }
        g := h.value;
      }
      return Some(g);
    }

    method Resources(start: Progress, rows: seq<ResourceRow>, coming: set<Id>, from: Option<string>,
        to: Option<string>) returns (r: Option<Progress>)
      ensures r == MergeResources(start, rows, coming, from, to)
    {
      var g := start;
      for i := 0 to |rows|
        invariant MergeResources(g, rows[i..], coming, from, to) == MergeResources(start, rows, coming, from, to)
      {
        assert rows[i..][1..] == rows[i + 1..];
        var h := MergeResource(g, rows[i], coming, from, to);
        if h.None? { return None; }
        g := h.value;
      }
      return Some(g);
    }

    method Pins(start: Progress, rows: seq<PinRow>, coming: set<Id>, from: Option<string>, to: Option<string>)
        returns (r: Option<Progress>)
      ensures r == MergePins(start, rows, coming, from, to)
    {
      var g := start;
      for i := 0 to |rows|
        invariant MergePins(g, rows[i..], coming, from, to) == MergePins(start, rows, coming, from, to)
      {
        assert rows[i..][1..] == rows[i + 1..];
        var h := MergePin(g, rows[i], coming, from, to);
        if h.None? { return None; }
        g := h.value;
      }
      return Some(g);
    }

    /** The transaction: committed as a whole, or not at all. */
    method ApplyBundle(b: Contents, plan: Plan, newIds: seq<Id>) returns (r: Option<Outcome>)
      requires |newIds| == |b.projects|
      modifies this
      ensures r.Some? <==> Applied(old(store), b, plan, newIds).Some?
      ensures r.Some? ==>
        && store == Applied(old(store), b, plan, newIds).value.s
        && r.value == Applied(old(store), b, plan, newIds).value.out
      ensures r.None? ==> store == old(store)
    {
      if !Readable(b) { return None; }
      var g := Projects(b, plan, newIds);
      if g.None? { return None; }
      var coming := Coming(g.value.projects, b.tasks);
      var h := Tasks(g.value, b.tasks);
      if h.None? { return None; }
      var i := Resources(h.value, b.resources, coming, b.sourceHome, plan.newHome);
      if i.None? { return None; }
      var j := Pins(i.value, b.pins, coming, b.sourceHome, plan.newHome);
      if j.None? { return None; }
      store := j.value.s;
      return Some(j.value.out);
    }
  }
}
