/** When the pins of a store carry their own identities, through record operations and merges. */
module MergedPins {
  import opened Common
  import opened Records
  import opened Bundle
  import opened BundleLaws
  import opened BundleArrivals
  import opened MergedRuns
  import opened PinMoves
  import Json
  import Focus
  import FocusLaws

  predicate Own(p: Pin) {
    Agrees(p.kind, p.identity, p.payload)
  }

  /** Every live pin is stored under the identity of its payload. */
  ghost predicate AllOwn(d: Data) {
    forall p :: p in d.pins && !d.pins[p].deleted ==> Own(d.pins[p])
  }

  // ---------------------------------------------------------------- which rows a merge leaves

  /** The pin comes along, and no later one that does takes its place. */
  ghost predicate Lasts(rows: seq<PinRow>, coming: set<Id>, from: Option<string>, to: Option<string>, i: nat) {
    && i < |rows| && rows[i].task in coming
    && forall k :: i < k < |rows| && rows[k].task in coming ==>
      rows[k].id != rows[i].id && !SamePin(PinOf(rows[i], from, to), PinOf(rows[k], from, to))
  }

  /** No pin that comes along takes the place of this row. */
  ghost predicate Undisturbed(
      rows: seq<PinRow>, coming: set<Id>, from: Option<string>, to: Option<string>, id: Id, row: Pin) {
    forall k :: 0 <= k < |rows| && rows[k].task in coming ==>
      rows[k].id != id && !SamePin(row, PinOf(rows[k], from, to))
  }

  /** One of the last rows that come along is this. */
  ghost predicate Brought(
      rows: seq<PinRow>, coming: set<Id>, from: Option<string>, to: Option<string>, id: Id, row: Pin) {
    exists i: nat :: Lasts(rows, coming, from, to, i) && rows[i].id == id && row == PinOf(rows[i], from, to)
  }

  lemma InsertedPin(s: Data, id: Id, row: Pin, p: Id, x: Pin)
    requires row.task in s.tasks
    ensures HasPin(InsertPin(s, id, row).value, p, x) <==>
            if p == id then x == row else HasPin(s, p, x) && !SamePin(x, row)
  {
  }

  lemma LastsNext(rows: seq<PinRow>, coming: set<Id>, from: Option<string>, to: Option<string>, i: nat)
    requires i < |rows| - 1
    ensures Lasts(rows, coming, from, to, i + 1) <==> Lasts(rows[1..], coming, from, to, i)
  {
  }

  lemma UndisturbedNext(
      rows: seq<PinRow>, coming: set<Id>, from: Option<string>, to: Option<string>, id: Id, row: Pin)
    requires rows != []
    ensures Undisturbed(rows, coming, from, to, id, row) <==>
      && (rows[0].task in coming ==> rows[0].id != id && !SamePin(row, PinOf(rows[0], from, to)))
      && Undisturbed(rows[1..], coming, from, to, id, row)
  {
    assert rows == [rows[0]] + rows[1..];
  }

  lemma BroughtNext(rows: seq<PinRow>, coming: set<Id>, from: Option<string>, to: Option<string>, id: Id, row: Pin)
    requires rows != []
    ensures Brought(rows, coming, from, to, id, row) <==>
      || (rows[0].task in coming && rows[0].id == id && row == PinOf(rows[0], from, to)
          && Undisturbed(rows[1..], coming, from, to, id, row))
      || Brought(rows[1..], coming, from, to, id, row)
  {
    var rest := rows[1..];
    forall k | 0 <= k < |rest| ensures rest[k] == rows[k + 1] {}
    if Brought(rows, coming, from, to, id, row) {
      var i: nat :| Lasts(rows, coming, from, to, i) && rows[i].id == id && row == PinOf(rows[i], from, to);
      if i > 0 { LastsNext(rows, coming, from, to, i - 1); }
    }
    if Brought(rest, coming, from, to, id, row) {
      var i: nat :| Lasts(rest, coming, from, to, i) && rest[i].id == id && row == PinOf(rest[i], from, to);
      LastsNext(rows, coming, from, to, i);
    }
    if rows[0].task in coming && rows[0].id == id && row == PinOf(rows[0], from, to)
      && Undisturbed(rest, coming, from, to, id, row)
    {
      forall k | 0 < k < |rows| && rows[k].task in coming
        ensures rows[k].id != id && !SamePin(row, PinOf(rows[k], from, to))
      {
        assert rest[k - 1] == rows[k];
      }
      assert Lasts(rows, coming, from, to, 0);
    }
  }

  /** The pins after the loop: those of before whose place none took, and the last of each that come along. */
  lemma {:induction false} MergedPin(g: Progress, rows: seq<PinRow>, coming: set<Id>, from: Option<string>,
      to: Option<string>, id: Id, row: Pin)
    requires MergePins(g, rows, coming, from, to).Some?
    ensures HasPin(MergePins(g, rows, coming, from, to).value.s, id, row) <==>
      || (HasPin(g.s, id, row) && Undisturbed(rows, coming, from, to, id, row))
      || Brought(rows, coming, from, to, id, row)
    decreases |rows|
  {
    if rows != [] {
      var h := MergePin(g, rows[0], coming, from, to).value;
      MergedPin(h, rows[1..], coming, from, to, id, row);
      UndisturbedNext(rows, coming, from, to, id, row);
      BroughtNext(rows, coming, from, to, id, row);
      if rows[0].task in coming { InsertedPin(g.s, rows[0].id, PinOf(rows[0], from, to), id, row); }
    }
  }

  // ---------------------------------------------------------------- the other loops

  /** The second store has no pin but those of the first. */
  predicate FewerPins(s: Data, t: Data) {
    forall p :: p in t.pins ==> p in s.pins && t.pins[p] == s.pins[p]
  }

  lemma {:induction false} ProjectsTakePins(g: Progress, rows: seq<ProjectRow>, newIds: seq<Id>, from: Option<string>,
      plan: Plan)
    requires |newIds| == |rows| && MergeProjects(g, rows, newIds, from, plan).Some?
    ensures FewerPins(g.s, MergeProjects(g, rows, newIds, from, plan).value.s)
    decreases |rows|
  {
    if rows != [] {
      ProjectsTakePins(MergeProject(g, rows[0], from, plan, newIds[0]).value, rows[1..], newIds[1..], from, plan);
    }
  }

  lemma {:induction false} TasksTakePins(g: Progress, rows: seq<TaskRow>)
    requires MergeTasks(g, rows).Some?
    ensures FewerPins(g.s, MergeTasks(g, rows).value.s)
    decreases |rows|
  {
    if rows != [] { TasksTakePins(MergeTask(g, rows[0]).value, rows[1..]); }
  }

  lemma {:induction false} ResourcesTakePins(g: Progress, rows: seq<ResourceRow>, coming: set<Id>,
      from: Option<string>, to: Option<string>)
    requires MergeResources(g, rows, coming, from, to).Some?
    ensures MergeResources(g, rows, coming, from, to).value.s.pins == g.s.pins
    decreases |rows|
  {
    if rows != [] {
      ResourcesTakePins(MergeResource(g, rows[0], coming, from, to).value, rows[1..], coming, from, to);
    }
  }

  /** Each pin row that lasts is stored under the identity of what it opens here. */
  ghost predicate PinsComeOwn(d: Data, b: Contents, plan: Plan, newIds: seq<Id>)
    requires |newIds| == |b.projects| && Imports(d, b, plan, newIds)
  {
    forall i: nat :: Lasts(b.pins, ComingTasks(d, b, plan, newIds), b.sourceHome, plan.newHome, i) ==>
      Own(PinOf(b.pins[i], b.sourceHome, plan.newHome))
  }

  /** A merge keeps the pins their own identities exactly if those that come along and last have theirs once moved. */
  lemma MergeKeepsOwn(d: Data, b: Contents, plan: Plan, newIds: seq<Id>)
    requires AllOwn(d) && |newIds| == |b.projects| && Applied(d, b, plan, newIds).Some?
    ensures AllOwn(Applied(d, b, plan, newIds).value.s) <==> PinsComeOwn(d, b, plan, newIds)
  {
    var from, to, coming := b.sourceHome, plan.newHome, ComingTasks(d, b, plan, newIds);
    var g := Imported(d, b, plan, newIds);
    var h := MergeTasks(g, b.tasks).value;
    var k := MergeResources(h, b.resources, coming, from, to).value;
    var t := Applied(d, b, plan, newIds).value.s;
    ProjectsTakePins(Start(d), b.projects, newIds, from, plan);
    TasksTakePins(g, b.tasks);
    ResourcesTakePins(h, b.resources, coming, from, to);
    assert FewerPins(d, k.s);
    if PinsComeOwn(d, b, plan, newIds) {
      forall p | p in t.pins && !t.pins[p].deleted ensures Own(t.pins[p]) {
        MergedPin(k, b.pins, coming, from, to, p, t.pins[p]);
      }
    }
    if AllOwn(t) {
      forall i: nat | Lasts(b.pins, coming, from, to, i) ensures Own(PinOf(b.pins[i], from, to)) {
        MergedPin(k, b.pins, coming, from, to, b.pins[i].id, PinOf(b.pins[i], from, to));
      }
    }
  }

  /** The pins of a sender whose own are all in order stay so here exactly if each that lasts moves as one. */
  lemma OwnPinsArriveExactly(d: Data, b: Contents, plan: Plan, newIds: seq<Id>)
    requires AllOwn(d) && |newIds| == |b.projects| && Applied(d, b, plan, newIds).Some?
    requires forall row :: row in b.pins ==> Agrees(row.kind, row.identity, row.payload)
    ensures AllOwn(Applied(d, b, plan, newIds).value.s) <==>
      forall i: nat :: Lasts(b.pins, ComingTasks(d, b, plan, newIds), b.sourceHome, plan.newHome, i) ==>
        Keeps(b.pins[i], b.sourceHome, plan.newHome)
  {
    MergeKeepsOwn(d, b, plan, newIds);
    forall i | 0 <= i < |b.pins|
      ensures Own(PinOf(b.pins[i], b.sourceHome, plan.newHome)) <==> Keeps(b.pins[i], b.sourceHome, plan.newHome)
    {
      assert b.pins[i] in b.pins;
      PinKeepsExactly(b.pins[i], b.sourceHome, plan.newHome);
    }
  }

  // ---------------------------------------------------------------- runs

  /** What pins is pinned under its own identity, as `pin_task_item` does it, and so is what comes along. */
  ghost predicate Faithful(d: Data, e: Step)
    requires Can(d, e)
  {
    match e
    case Operation(op) => op.OpAddPin? && LiveTask(d, op.task) ==> Agrees(op.kind, op.identity, op.payload)
    case Merging(b, plan, newIds) => Applied(d, b, plan, newIds).Some? ==> PinsComeOwn(d, b, plan, newIds)
  }

  lemma AddPinOwn(d: Data, id: Id, task: Id, kind: string, identity: string, payload: Json.Payload)
    requires AllOwn(d) && LiveTask(d, task) && id !in d.pins
    ensures AllOwn(AddPin(d, id, task, kind, identity, payload)) <==> Agrees(kind, identity, payload)
  {
    var t := AddPin(d, id, task, kind, identity, payload);
    if p :| p in d.pins && IsPin(d, p, task, kind, identity) {
      assert t.pins[p].payload == payload && !t.pins[p].deleted;
    } else {
      assert id in t.pins;
    }
  }

  lemma OwnByProjects(d: Data, op: Op)
    requires AllOwn(d) && Chosen(d, op) && OnProjects(op)
    ensures AllOwn(ApplyToProjects(d, op))
  {
  }

  lemma OwnByTasks(d: Data, op: Op)
    requires AllOwn(d) && Chosen(d, op) && OnTasks(op)
    ensures AllOwn(ApplyToTasks(d, op))
  {
  }

  lemma StepKeepsOwn(d: Data, e: Step)
    requires AllOwn(d) && Can(d, e)
    ensures AllOwn(Do(d, e)) <==> Faithful(d, e)
  {
    match e
    case Operation(op) =>
      if OnProjects(op) {
        OwnByProjects(d, op);
      } else if OnTasks(op) {
        OwnByTasks(d, op);
      } else if op.OpAddPin? && LiveTask(d, op.task) {
        AddPinOwn(d, op.id, op.task, op.kind, op.identity, op.payload);
      }
    case Merging(b, plan, newIds) =>
      if Applied(d, b, plan, newIds).Some? { MergeKeepsOwn(d, b, plan, newIds); }
  }

  /** After every step of the run, each live pin is stored under the identity of its payload. */
  ghost predicate AlwaysOwn(steps: seq<Step>)
    requires IsRun(steps)
    decreases |steps|
  {
    AllOwn(Final(steps)) && (steps != [] ==> AlwaysOwn(steps[..|steps| - 1]))
  }

  ghost predicate AlwaysFaithful(steps: seq<Step>)
    requires IsRun(steps)
    decreases |steps|
  {
    steps == [] ||
    var before, e := steps[..|steps| - 1], steps[|steps| - 1];
    AlwaysFaithful(before) && Faithful(Final(before), e)
  }

  /** In a run that starts from nothing, all pins are their own throughout exactly if every step is faithful. */
  lemma {:induction false} AlwaysOwnExactly(steps: seq<Step>)
    requires IsRun(steps)
    ensures AlwaysOwn(steps) <==> AlwaysFaithful(steps)
    decreases |steps|
  {
    if steps != [] {
      var before, e := steps[..|steps| - 1], steps[|steps| - 1];
      AlwaysOwnExactly(before);
      if AlwaysOwn(before) { StepKeepsOwn(Final(before), e); }
    }
  }

  // ---------------------------------------------------------------- as the orchestrator reads them

  function AsRead(p: Pin): Focus.Pin {
    Focus.Pin(p.kind, p.identity, Read(p.payload))
  }

  /** `task_pins`, in whatever order. */
  ghost predicate ListsPins(d: Data, task: Id, pins: seq<Focus.Pin>) {
    forall p :: p in pins <==>
      exists r :: r in d.pins && d.pins[r].task == task && !d.pins[r].deleted && p == AsRead(d.pins[r])
  }

  /** While they are their own, what a merge of pins keeps is exactly what is captured or pinned. */
  lemma OwnPinsAreKept(d: Data, task: Id, pins: seq<Focus.Pin>, list: Focus.List, captured: Json.Value, id: string)
    requires AllOwn(d) && ListsPins(d, task, pins)
    ensures FocusLaws.Kept(list, id, captured, pins) <==>
      || FocusLaws.Holds(Focus.KindOf(list), Json.Items(captured, Focus.Field(list)), id)
      || exists p :: p in pins && Focus.Belongs(Focus.KindOf(list), p, list == Focus.Terminals) && p.identity == id
  {
    FocusLaws.MadePinsAreKept(list, captured, pins, id);
  }
}
