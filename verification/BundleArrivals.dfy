/** Every row of a bundle whose project comes along arrives. */
module BundleArrivals {
  import opened Common
  import opened Json
  import opened PathRewrite
  import opened Records
  import opened Bundle
  import opened BundleLaws

  /** No two tasks of the bundle have one id. */
  ghost predicate DistinctTasks(rows: seq<TaskRow>) {
    forall i, j :: 0 <= i < j < |rows| ==> rows[i].id != rows[j].id
  }

  ghost predicate DistinctResources(rows: seq<ResourceRow>) {
    forall i, j :: 0 <= i < j < |rows| ==> rows[i].id != rows[j].id
  }

  /** No two pins have one id, or the same identity once their paths are moved. */
  ghost predicate DistinctPins(rows: seq<PinRow>, from: Option<string>, to: Option<string>) {
    forall i, j :: 0 <= i < j < |rows| ==>
      rows[i].id != rows[j].id && !SamePin(PinOf(rows[i], from, to), PinOf(rows[j], from, to))
  }

  predicate SamePin(a: Pin, b: Pin) {
    a.task == b.task && a.kind == b.kind && a.identity == b.identity
  }

  // ---------------------------------------------------------------- the rows as they arrive

  predicate HasTask(s: Data, id: Id, row: Task) {
    id in s.tasks && s.tasks[id] == row
  }

  predicate HasResource(s: Data, id: Id, row: Resource) {
    id in s.resources && s.resources[id] == row
  }

  predicate HasPin(s: Data, id: Id, row: Pin) {
    id in s.pins && s.pins[id] == row
  }

  // ---------------------------------------------------------------- what the later statements leave alone

  lemma {:induction false} TaskStays(g: Progress, rows: seq<TaskRow>, id: Id, row: Task)
    requires HasTask(g.s, id, row) && MergeTasks(g, rows).Some?
    requires forall i :: 0 <= i < |rows| ==> rows[i].id != id
    ensures HasTask(MergeTasks(g, rows).value.s, id, row)
    decreases |rows|
  {
    if rows != [] {
      assert forall i :: 0 <= i < |rows[1..]| ==> rows[1..][i] == rows[i + 1];
      TaskStays(MergeTask(g, rows[0]).value, rows[1..], id, row);
    }
  }

  lemma {:induction false} ResourcesKeepTasks(g: Progress, rows: seq<ResourceRow>, coming: set<Id>,
      from: Option<string>, to: Option<string>)
    requires MergeResources(g, rows, coming, from, to).Some?
    ensures MergeResources(g, rows, coming, from, to).value.s.tasks == g.s.tasks
    decreases |rows|
  {
    if rows != [] {
      ResourcesKeepTasks(MergeResource(g, rows[0], coming, from, to).value, rows[1..], coming, from, to);
    }
  }

  lemma {:induction false} PinsKeepTheRest(g: Progress, rows: seq<PinRow>, coming: set<Id>, from: Option<string>,
      to: Option<string>)
    requires MergePins(g, rows, coming, from, to).Some?
    ensures var s := MergePins(g, rows, coming, from, to).value.s; s.tasks == g.s.tasks && s.resources == g.s.resources
    decreases |rows|
  {
    if rows != [] { PinsKeepTheRest(MergePin(g, rows[0], coming, from, to).value, rows[1..], coming, from, to); }
  }

  lemma {:induction false} ResourceStays(g: Progress, rows: seq<ResourceRow>, coming: set<Id>, from: Option<string>,
      to: Option<string>, id: Id, row: Resource)
    requires HasResource(g.s, id, row) && MergeResources(g, rows, coming, from, to).Some?
    requires forall i :: 0 <= i < |rows| ==> rows[i].id != id
    ensures HasResource(MergeResources(g, rows, coming, from, to).value.s, id, row)
    decreases |rows|
  {
    if rows != [] {
      assert forall i :: 0 <= i < |rows[1..]| ==> rows[1..][i] == rows[i + 1];
      ResourceStays(MergeResource(g, rows[0], coming, from, to).value, rows[1..], coming, from, to, id, row);
    }
  }

  lemma {:induction false} PinStays(g: Progress, rows: seq<PinRow>, coming: set<Id>, from: Option<string>,
      to: Option<string>, id: Id, row: Pin)
    requires HasPin(g.s, id, row) && MergePins(g, rows, coming, from, to).Some?
    requires forall i :: 0 <= i < |rows| ==> rows[i].id != id && !SamePin(row, PinOf(rows[i], from, to))
    ensures HasPin(MergePins(g, rows, coming, from, to).value.s, id, row)
    decreases |rows|
  {
    if rows != [] {
      assert forall i :: 0 <= i < |rows[1..]| ==> rows[1..][i] == rows[i + 1];
      assert !SamePin(row, PinOf(rows[0], from, to));
      PinStays(MergePin(g, rows[0], coming, from, to).value, rows[1..], coming, from, to, id, row);
    }
  }

  // ---------------------------------------------------------------- each loop delivers

  lemma {:induction false} TaskArrives(g: Progress, rows: seq<TaskRow>, i: nat)
    requires MergeTasks(g, rows).Some? && DistinctTasks(rows) && i < |rows| && Comes(g.projects, rows[i])
    ensures HasTask(MergeTasks(g, rows).value.s, rows[i].id, TaskOf(rows[i], g.projects))
    decreases |rows|
  {
    var h := MergeTask(g, rows[0]).value;
    assert forall j :: 0 <= j < |rows[1..]| ==> rows[1..][j] == rows[j + 1];
    if i == 0 {
      TaskStays(h, rows[1..], rows[0].id, TaskOf(rows[0], g.projects));
    } else {
      TaskArrives(h, rows[1..], i - 1);
    }
  }

  lemma {:induction false} ResourceArrives(g: Progress, rows: seq<ResourceRow>, coming: set<Id>, from: Option<string>,
      to: Option<string>, i: nat)
    requires MergeResources(g, rows, coming, from, to).Some? && DistinctResources(rows) && i < |rows|
      && rows[i].task in coming
    ensures HasResource(MergeResources(g, rows, coming, from, to).value.s, rows[i].id, ResourceOf(rows[i], from, to))
    decreases |rows|
  {
    var h := MergeResource(g, rows[0], coming, from, to).value;
    assert forall j :: 0 <= j < |rows[1..]| ==> rows[1..][j] == rows[j + 1];
    if i == 0 {
      ResourceStays(h, rows[1..], coming, from, to, rows[0].id, ResourceOf(rows[0], from, to));
    } else {
      ResourceArrives(h, rows[1..], coming, from, to, i - 1);
    }
  }

  lemma {:induction false} PinArrives(g: Progress, rows: seq<PinRow>, coming: set<Id>, from: Option<string>,
      to: Option<string>, i: nat)
    requires MergePins(g, rows, coming, from, to).Some? && DistinctPins(rows, from, to) && i < |rows|
      && rows[i].task in coming
    ensures HasPin(MergePins(g, rows, coming, from, to).value.s, rows[i].id, PinOf(rows[i], from, to))
    decreases |rows|
  {
    var h := MergePin(g, rows[0], coming, from, to).value;
    assert forall j :: 0 <= j < |rows[1..]| ==> rows[1..][j] == rows[j + 1];
    if i == 0 {
      PinStays(h, rows[1..], coming, from, to, rows[0].id, PinOf(rows[0], from, to));
    } else {
      PinArrives(h, rows[1..], coming, from, to, i - 1);
    }
  }

  // ---------------------------------------------------------------- what a row is here, field by field

  /** The task is there: under its project, open or done as it says, live and new. */
  ghost predicate TaskCame(t: Data, row: TaskRow) {
    && row.id in t.tasks
    && var x := t.tasks[row.id];
       x.project == row.project && x.title == row.title && (x.done <==> row.status == "done") && !x.deleted
         && x.rev == 0
  }

  /** A payload that is JSON has its absolute paths relocated and is otherwise the same; any other is as it was. */
  ghost predicate PayloadCame(p: Payload, q: Payload, from: Option<string>, to: Option<string>) {
    match p
    case Parsed(v) => q.Parsed? && PathsRelocated(v, q.value, from, to)
    case Opaque(_) => q == p
  }

  ghost predicate ResourceCame(t: Data, row: ResourceRow, from: Option<string>, to: Option<string>) {
    && row.id in t.resources
    && var x := t.resources[row.id];
       && x.task == row.task && x.kind == row.kind && x.resourceType == row.resourceType && !x.deleted && x.rev == 0
       && PayloadCame(row.payload, x.payload, from, to)
  }

  ghost predicate PinCame(t: Data, row: PinRow, from: Option<string>, to: Option<string>) {
    && row.id in t.pins
    && var x := t.pins[row.id];
       && x.task == row.task && x.kind == row.kind && !x.deleted && x.rev == 0
       && Relocated(row.identity, x.identity, from, to) && PayloadCame(row.payload, x.payload, from, to)
  }

  lemma PayloadRewritten(p: Payload, from: Option<string>, to: Option<string>)
    ensures PayloadCame(p, RewritePayload(p, from, to), from, to)
  {
    if p.Parsed? { RewriteExactly(p.value, Rewrite(p.value, from, to), from, to); }
  }

  lemma ResourceFields(t: Data, row: ResourceRow, from: Option<string>, to: Option<string>)
    requires HasResource(t, row.id, ResourceOf(row, from, to))
    ensures ResourceCame(t, row, from, to)
  {
    PayloadRewritten(row.payload, from, to);
  }

  lemma PinFields(t: Data, row: PinRow, from: Option<string>, to: Option<string>)
    requires HasPin(t, row.id, PinOf(row, from, to))
    ensures PinCame(t, row, from, to)
  {
    PayloadRewritten(row.payload, from, to);
    RemapExactly(row.identity, Remap(row.identity, from, to), from, to);
  }

  /** Every project that is inserted keeps the id it had. */
  lemma {:induction false} KeepsIds(g: Progress, rows: seq<ProjectRow>, newIds: seq<Id>, from: Option<string>,
      plan: Plan)
    requires |newIds| == |rows| && MergeProjects(g, rows, newIds, from, plan).Some?
    requires forall k :: k in g.projects && g.projects[k].Some? ==> g.projects[k].value == k
    ensures var projects := MergeProjects(g, rows, newIds, from, plan).value.projects;
      forall k :: k in projects && projects[k].Some? ==> projects[k].value == k
    decreases |rows|
  {
    if rows != [] {
      KeepsIds(MergeProject(g, rows[0], from, plan, newIds[0]).value, rows[1..], newIds[1..], from, plan);
    }
  }

  lemma {:induction false} ComingExactly(projects: map<Id, Option<Id>>, rows: seq<TaskRow>, t: Id)
    ensures t in Coming(projects, rows) <==> exists row :: row in rows && row.id == t && Comes(projects, row)
  {
    if rows != [] {
      assert rows == [rows[0]] + rows[1..];
      ComingExactly(projects, rows[1..], t);
    }
  }

  /** The task of a resource or a pin is one of those that come along. */
  ghost predicate ComesWith(projects: map<Id, Option<Id>>, rows: seq<TaskRow>, task: Id) {
    exists j :: 0 <= j < |rows| && rows[j].id == task && Comes(projects, rows[j])
  }

  lemma {:induction false} ResourcesArrive(s: Data, b: Contents, plan: Plan, newIds: seq<Id>)
    requires |newIds| == |b.projects| && Applied(s, b, plan, newIds).Some? && DistinctResources(b.resources)
    ensures var g, t := Imported(s, b, plan, newIds), Applied(s, b, plan, newIds).value.s;
            forall i :: 0 <= i < |b.resources| && ComesWith(g.projects, b.tasks, b.resources[i].task) ==>
              ResourceCame(t, b.resources[i], b.sourceHome, plan.newHome)
  {
    var g, coming, t := Imported(s, b, plan, newIds), ComingTasks(s, b, plan, newIds),
      Applied(s, b, plan, newIds).value.s;
    var h := MergeTasks(g, b.tasks).value;
    PinsKeepTheRest(
      MergeResources(h, b.resources, coming, b.sourceHome, plan.newHome).value, b.pins, coming, b.sourceHome,
        plan.newHome);
    forall i | 0 <= i < |b.resources| && ComesWith(g.projects, b.tasks, b.resources[i].task)
      ensures ResourceCame(t, b.resources[i], b.sourceHome, plan.newHome)
    {
      ComingExactly(g.projects, b.tasks, b.resources[i].task);
      ResourceArrives(h, b.resources, coming, b.sourceHome, plan.newHome, i);
      ResourceFields(t, b.resources[i], b.sourceHome, plan.newHome);
    }
  }

  lemma {:induction false} PinsArrive(s: Data, b: Contents, plan: Plan, newIds: seq<Id>)
    requires |newIds| == |b.projects| && Applied(s, b, plan, newIds).Some?
    requires DistinctPins(b.pins, b.sourceHome, plan.newHome)
    ensures var g, t := Imported(s, b, plan, newIds), Applied(s, b, plan, newIds).value.s;
            forall i :: 0 <= i < |b.pins| && ComesWith(g.projects, b.tasks, b.pins[i].task) ==>
              PinCame(t, b.pins[i], b.sourceHome, plan.newHome)
  {
    var g, coming, t := Imported(s, b, plan, newIds), ComingTasks(s, b, plan, newIds),
      Applied(s, b, plan, newIds).value.s;
    var h := MergeTasks(g, b.tasks).value;
    var k := MergeResources(h, b.resources, coming, b.sourceHome, plan.newHome).value;
    forall i | 0 <= i < |b.pins| && ComesWith(g.projects, b.tasks, b.pins[i].task)
      ensures PinCame(t, b.pins[i], b.sourceHome, plan.newHome)
    {
      ComingExactly(g.projects, b.tasks, b.pins[i].task);
      PinArrives(k, b.pins, coming, b.sourceHome, plan.newHome, i);
      PinFields(t, b.pins[i], b.sourceHome, plan.newHome);
    }
  }

  lemma {:induction false} TasksArrive(s: Data, b: Contents, plan: Plan, newIds: seq<Id>)
    requires |newIds| == |b.projects| && Applied(s, b, plan, newIds).Some? && DistinctTasks(b.tasks)
    ensures var g, t := Imported(s, b, plan, newIds), Applied(s, b, plan, newIds).value.s;
            forall i :: 0 <= i < |b.tasks| && Comes(g.projects, b.tasks[i]) ==> TaskCame(t, b.tasks[i])
  {
    var g, coming, t := Imported(s, b, plan, newIds), ComingTasks(s, b, plan, newIds),
      Applied(s, b, plan, newIds).value.s;
    var h := MergeTasks(g, b.tasks).value;
    var k := MergeResources(h, b.resources, coming, b.sourceHome, plan.newHome).value;
    ResourcesKeepTasks(h, b.resources, coming, b.sourceHome, plan.newHome);
    PinsKeepTheRest(k, b.pins, coming, b.sourceHome, plan.newHome);
    KeepsIds(Start(s), b.projects, newIds, b.sourceHome, plan);
    forall i | 0 <= i < |b.tasks| && Comes(g.projects, b.tasks[i]) ensures TaskCame(t, b.tasks[i]) {
      TaskArrives(g, b.tasks, i);
    }
  }

  /**
   Whatever the merge: each task whose project came along is there under that project, and each resource and pin of
   such a task is there with its paths moved, every field as the bundle has it.
   */
  lemma EverythingArrives(s: Data, b: Contents, plan: Plan, newIds: seq<Id>)
    requires |newIds| == |b.projects| && Applied(s, b, plan, newIds).Some?
    requires DistinctTasks(b.tasks) && DistinctResources(b.resources)
      && DistinctPins(b.pins, b.sourceHome, plan.newHome)
    ensures var g, t := Imported(s, b, plan, newIds), Applied(s, b, plan, newIds).value.s;
            && (forall i :: 0 <= i < |b.tasks| && Comes(g.projects, b.tasks[i]) ==> TaskCame(t, b.tasks[i]))
            && (forall i :: 0 <= i < |b.resources| && ComesWith(g.projects, b.tasks, b.resources[i].task) ==>
                 ResourceCame(t, b.resources[i], b.sourceHome, plan.newHome))
            && (forall i :: 0 <= i < |b.pins| && ComesWith(g.projects, b.tasks, b.pins[i].task) ==>
                 PinCame(t, b.pins[i], b.sourceHome, plan.newHome))
  {
    TasksArrive(s, b, plan, newIds);
    ResourcesArrive(s, b, plan, newIds);
    PinsArrive(s, b, plan, newIds);
  }
}
