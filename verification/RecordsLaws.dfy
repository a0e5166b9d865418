/** What every record operation keeps. */
module RecordsLaws {
  import opened Common
  import opened Json
  import opened Records
  import opened RecordsSteps

  // ---------------------------------------------------------------- references

  /** Every operation keeps the references sound, exactly if it adds nothing under a tombstone. */
  lemma SoundExactly(d: Data, op: Op)
    requires Sound(d) && Chosen(d, op)
    ensures Sound(Apply(d, op)) <==> UnderLiveParent(d, op)
  {
    match op
    case OpDeleteProject(id) => SoundDeleteProject(d, id);
    case OpDeleteTask(id) => SoundDeleteTask(d, id);
    case OpDuplicateTask(id, copy, title, ids) => SoundDuplicate(d, id, copy, title, ids);
    case OpCreateTask(id, project, title) =>
      if UnderLiveParent(d, op) {
        SoundCreateTask(d, id, project, title);
      } else {
        assert LiveTask(CreateTask(d, id, project, title), id);
      }
    case OpAddResource(id, _, _, _, _) =>
      if UnderLiveParent(d, op) { SoundResources(d, op); } else { assert id in Apply(d, op).resources; }
    case OpEditTask(id, title, done) => SoundEditTask(d, id, title, done);
    case OpRemoveResource(_) => SoundResources(d, op);
    case OpReplaceResources(id, task, kind, resourceType, payload) =>
      SoundRecapture(d, id, task, kind, resourceType, payload);
    case OpAddPin(id, task, kind, identity, payload) => SoundAddPin(d, id, task, kind, identity, payload);
    case OpRemovePin(task, kind, identity) => SoundRemovePin(d, task, kind, identity);
    case OpReorder(ordered) => SoundReorder(d, ordered);
    case OpBeginSession(task) => SoundSession(d, task);
    case _ => SoundProjects(d, op);
  }

  /** Every operation keeps the last task of a live project a live one of its own. */
  lemma RememberedKept(d: Data, op: Op)
    requires Remembered(d) && Chosen(d, op)
    ensures Remembered(Apply(d, op))
  {
    if OnProjects(op) {
      RememberedByProjects(d, op);
    } else if OnTasks(op) {
      RememberedByTasks(d, op);
    } else {
      RememberedByItems(d, op);
    }
  }

  // ---------------------------------------------------------------- revisions

  /**
   No operation ever lowers a revision: a row keeps its contents and its revision, or changes and gets the
   next one. No project, task or pin ever disappears.
   */
  ghost predicate Counted(a: Data, b: Data) {
    && ProjectsCounted(a.projects, b.projects) && TasksCounted(a.tasks, b.tasks)
    && ResourcesCounted(a.resources, b.resources) && PinsCounted(a.pins, b.pins)
  }

  lemma ChangesAreCounted(d: Data, op: Op)
    requires Chosen(d, op)
    ensures Counted(d, Apply(d, op))
  {
    ProjectChanges(d, op);
    TaskChanges(d, op);
    ResourceChanges(d, op);
    PinChanges(d, op);
  }

  /** Only a recapture purges rows, and only those of its task and kind. */
  lemma OnlyRecapturePurges(d: Data, op: Op, r: Id)
    requires Chosen(d, op) && r in d.resources && r !in Apply(d, op).resources
    ensures op.OpReplaceResources? && r in Captured(d, op.task, op.kind)
  {
  }

  // ---------------------------------------------------------------- recaptures and pins

  /** After a recapture there is exactly one row for the task and kind, and the task counts one change. */
  lemma RecaptureExact(d: Data, id: Id, task: Id, kind: string, resourceType: string, payload: Payload)
    requires LiveTask(d, task) && id !in d.resources
    ensures var t := ReplaceResources(d, id, task, kind, resourceType, payload);
      Captured(t, task, kind) == {id} && t.resources[id].payload == payload && !t.resources[id].deleted
      && t.tasks[task] == d.tasks[task].(rev := d.tasks[task].rev + 1)
    ensures var t := ReplaceResources(d, id, task, kind, resourceType, payload);
      forall r :: r in d.resources && r !in Captured(d, task, kind) ==>
      r in t.resources && t.resources[r] == d.resources[r]
  {
  }

  /** A copied task has a copy of every live resource of its source, and nothing else has changed. */
  lemma DuplicateExact(d: Data, id: Id, copy: Id, title: string, ids: map<Id, Id>)
    requires Sound(d) && LiveTask(d, id) && copy !in d.tasks && NewIds(d, LiveResources(d, id), ids)
    ensures var t := DuplicateTask(d, id, copy, title, ids);
      forall x :: x in LiveResources(t, copy) <==> exists r :: r in LiveResources(d, id) && x == ids[r]
    ensures var t := DuplicateTask(d, id, copy, title, ids);
      forall r :: r in LiveResources(d, id) ==> t.resources[ids[r]] == CopyOf(d.resources[r], copy)
    ensures var t := DuplicateTask(d, id, copy, title, ids);
      t.projects == d.projects && t.pins == d.pins
      && (forall r :: r in d.resources ==> t.resources[r] == d.resources[r])
      && t.tasks == d.tasks[copy := Task(d.tasks[id].project, title, false, false, 0)]
  {
    var t := DuplicateTask(d, id, copy, title, ids);
    var rows := CopiedRows(d, LiveResources(d, id), ids, copy);
    forall x ensures x in LiveResources(t, copy) <==> exists r :: r in LiveResources(d, id) && x == ids[r] {
      assert x in LiveResources(t, copy) <==> x in rows;
    }
  }

  lemma PinsStayUnique(d: Data, op: Op)
    requires PinsUnique(d) && Chosen(d, op)
    ensures PinsUnique(Apply(d, op))
  {
    match op
    case OpAddPin(id, task, kind, identity, payload) => PinAdded(d, id, task, kind, identity, payload);
    case _ => PinsKept(d, op);
  }

  /** Pinning leaves one live row with the new payload, whether there was none, a live one or a tombstone. */
  lemma PinExact(d: Data, id: Id, task: Id, kind: string, identity: string, payload: Payload) returns (p: Id)
    requires PinsUnique(d) && LiveTask(d, task) && id !in d.pins
    ensures var t := AddPin(d, id, task, kind, identity, payload);
      IsPin(t, p, task, kind, identity) && !t.pins[p].deleted && t.pins[p].payload == payload
      && (p in d.pins ==> t.pins[p].rev == d.pins[p].rev + 1)
    ensures var t := AddPin(d, id, task, kind, identity, payload);
      forall q :: IsPin(t, q, task, kind, identity) ==> q == p
  {
    PinsStayUnique(d, OpAddPin(id, task, kind, identity, payload));
    if q :| q in d.pins && IsPin(d, q, task, kind, identity) {
      p := q;
    } else {
      p := id;
    }
  }

  /** Unpinning and pinning again keeps the row and revives it. */
  lemma PinAgain(d: Data, id: Id, p: Id, payload: Payload)
    requires PinsUnique(d) && p in d.pins && LiveTask(d, d.pins[p].task) && id !in d.pins
    ensures var was := d.pins[p];
      var t := AddPin(RemovePin(d, was.task, was.kind, was.identity), id, was.task, was.kind, was.identity, payload);
      t.pins.Keys == d.pins.Keys && t.pins[p] ==
      was.(payload := payload, deleted := false, rev := was.rev + (if was.deleted then 1 else 2))
  {
    var was := d.pins[p];
    var removed := RemovePin(d, was.task, was.kind, was.identity);
    assert IsPin(removed, p, was.task, was.kind, was.identity);
  }

  // ---------------------------------------------------------------- names and order

  lemma NamesStayUnique(d: Data, op: Op)
    requires NamesUnique(d) && Chosen(d, op)
    ensures NamesUnique(Apply(d, op))
  {
    match op
    case OpCreateProject(id, name, path, order) => NamesCreated(d, id, name, path, order);
    case OpRenameProject(id, name) => NamesRenamed(d, id, name);
    case _ => NamesKept(d, op);
  }

  lemma {:induction false} IndexFits(ids: seq<Id>, i: nat)
    requires i < |ids| && forall j, k :: 0 <= j < k < |ids| ==> ids[j] != ids[k]
    ensures IndexOf(ids, ids[i]) == i
  {
    if i > 0 { IndexFits(ids[1..], i - 1); }
  }

  /** Where a reorder puts every active project, and that it leaves the others alone. */
  lemma ReorderedAt(d: Data, ids: seq<Id>)
    requires IsOrder(d, ids)
    ensures forall i :: 0 <= i < |ids| ==>
      ids[i] in d.projects && Reordered(d, ids).projects[ids[i]] == Moved(d.projects[ids[i]], i)
    ensures forall p :: p in d.projects && !Active(d, p) ==> Reordered(d, ids).projects[p] == d.projects[p]
    ensures forall p :: Active(Reordered(d, ids), p) <==> Active(d, p)
  {
    forall i | 0 <= i < |ids|
      ensures ids[i] in d.projects && Reordered(d, ids).projects[ids[i]] == Moved(d.projects[ids[i]], i)
    {
      IndexFits(ids, i);
      assert Active(d, ids[i]);
    }
  }

  lemma ReorderKeepsDistinct(d: Data, ids: seq<Id>)
    requires IsOrder(d, ids)
    ensures PositionsDistinct(Reordered(d, ids))
  {
    ReorderedAt(d, ids);
  }

  /** Create, archive, unarchive, delete and reorder, and all the rest, keep the active positions distinct. */
  lemma PositionsStayDistinct(d: Data, op: Op)
    requires PositionsDistinct(d) && Chosen(d, op)
    ensures PositionsDistinct(Apply(d, op))
  {
    if op.OpReorder? {
      if IsOrder(d, op.ordered) { ReorderKeepsDistinct(d, op.ordered); }
    } else if OnProjects(op) {
      DistinctByProjects(d, op);
    } else if OnTasks(op) {
      PlacedByTasks(d, op);
    } else {
      PlacedByItems(d, op);
    }
  }

  function Position(d: Data, id: Id): nat {
    if id in d.projects then d.projects[id].sortOrder else 0
  }

  /** What `list_projects` may return: the active projects by ascending position. */
  ghost predicate Listing(d: Data, ids: seq<Id>) {
    IsOrder(d, ids) && forall i, j :: 0 <= i < j < |ids| ==> Position(d, ids[i]) <= Position(d, ids[j])
  }

  lemma FirstIsFirst(d: Data, a: seq<Id>, b: seq<Id>)
    requires PositionsDistinct(d) && a != [] && b != []
    requires forall i :: 0 <= i < |a| ==> Active(d, a[i]) && Position(d, a[0]) <= Position(d, a[i])
    requires forall i :: 0 <= i < |b| ==> Active(d, b[i]) && Position(d, b[0]) <= Position(d, b[i])
    requires a[0] in b && b[0] in a
    ensures a[0] == b[0]
  {
    assert Active(d, a[0]) && Active(d, b[0]);
  }

  /** Ascending lists of the same active projects are the same list. */
  lemma {:induction false} SameListing(d: Data, a: seq<Id>, b: seq<Id>)
    requires PositionsDistinct(d)
    requires forall id :: id in a <==> id in b
    requires forall id :: id in a ==> Active(d, id)
    requires forall i, j :: 0 <= i < j < |a| ==> a[i] != a[j] && Position(d, a[i]) <= Position(d, a[j])
    requires forall i, j :: 0 <= i < j < |b| ==> b[i] != b[j] && Position(d, b[i]) <= Position(d, b[j])
    ensures a == b
    decreases |a|
  {
    assert |b| > 0 ==> b[0] in a;
    if a == [] {
    } else {
      assert a[0] in b;
      assert b[0] in a;
      FirstIsFirst(d, a, b);
      assert a == [a[0]] + a[1..] && b == [a[0]] + b[1..];
      forall id ensures id in a[1..] <==> id in b[1..] {
        assert id in a <==> id == a[0] || id in a[1..];
        assert id in b <==> id == a[0] || id in b[1..];
        assert a[0] !in a[1..] && a[0] !in b[1..];
      }
      SameListing(d, a[1..], b[1..]);
    }
  }

  /** While positions are distinct there is one listing. */
  lemma OneListing(d: Data, a: seq<Id>, b: seq<Id>)
    requires PositionsDistinct(d) && Listing(d, a) && Listing(d, b)
    ensures a == b
  {
    SameListing(d, a, b);
  }

  lemma ReorderTwice(d: Data, ids: seq<Id>)
    requires IsOrder(d, ids)
    ensures IsOrder(Reordered(d, ids), ids) && Reordered(Reordered(d, ids), ids) == Reordered(d, ids)
  {
    var t := Reordered(d, ids);
    ReorderedAt(d, ids);
    assert IsOrder(t, ids);
    ReorderedAt(t, ids);
    forall p | p in d.projects ensures Reordered(t, ids).projects[p] == t.projects[p] {
      if Active(d, p) { var i :| 0 <= i < |ids| && ids[i] == p; }
    }
    assert Reordered(t, ids).projects == t.projects;
  }

  /**
   An accepted reorder makes the list read back exactly as requested, changes exactly the rows whose position
   differs, counts each of them once, and is a no-op when repeated.
   */
  lemma ReorderExact(d: Data, ids: seq<Id>, listed: seq<Id>)
    requires IsOrder(d, ids)
    ensures Listing(Reordered(d, ids), listed) <==> listed == ids
    ensures forall i :: 0 <= i < |ids| ==> Position(Reordered(d, ids), ids[i]) == i
    ensures forall p :: p in d.projects ==>
      (Reordered(d, ids).projects[p] != d.projects[p] <==> Position(Reordered(d, ids), p) != Position(d, p))
    ensures forall p :: p in d.projects && Reordered(d, ids).projects[p] != d.projects[p] ==>
      Reordered(d, ids).projects[p].rev == d.projects[p].rev + 1
    ensures Reordered(Reordered(d, ids), ids) == Reordered(d, ids)
  {
    var t := Reordered(d, ids);
    ReorderedAt(d, ids);
    ReorderKeepsDistinct(d, ids);
    ReorderTwice(d, ids);
    if Listing(t, listed) { OneListing(t, listed, ids); }
  }

  // ---------------------------------------------------------------- every run

  function Empty(): Data {
    Data(map[], map[], map[], map[])
  }

  ghost predicate IsRun(ops: seq<Op>)
    decreases |ops|, 0
  {
    ops == [] || (IsRun(ops[..|ops| - 1]) && Chosen(Final(ops[..|ops| - 1]), ops[|ops| - 1]))
  }

  ghost function Final(ops: seq<Op>): Data
    requires IsRun(ops)
    decreases |ops|, 1
  {
    if ops == [] then Empty() else Apply(Final(ops[..|ops| - 1]), ops[|ops| - 1])
  }

  ghost predicate Kept(d: Data) {
    PinsUnique(d) && NamesUnique(d) && PositionsDistinct(d)
  }

  lemma KeptStep(d: Data, op: Op)
    requires Kept(d) && Chosen(d, op)
    ensures Kept(Apply(d, op))
  {
    PinsStayUnique(d, op);
    NamesStayUnique(d, op);
    PositionsStayDistinct(d, op);
  }

  /** In every run there is one pin row per task, kind and identity, and names and active positions are distinct. */
  lemma {:induction false} RunsKeep(ops: seq<Op>)
    requires IsRun(ops)
    ensures Kept(Final(ops))
    decreases |ops|
  {
    if ops != [] {
      RunsKeep(ops[..|ops| - 1]);
      KeptStep(Final(ops[..|ops| - 1]), ops[|ops| - 1]);
    }
  }

  /** Every operation of the run adds only under live parents. */
  ghost predicate Careful(ops: seq<Op>)
    requires IsRun(ops)
    decreases |ops|
  {
    ops == [] || (Careful(ops[..|ops| - 1]) && UnderLiveParent(Final(ops[..|ops| - 1]), ops[|ops| - 1]))
  }

  /** In every careful run, live rows have live parents and a live project remembers a live task of its own. */
  lemma {:induction false} CarefulRunsAreSound(ops: seq<Op>)
    requires IsRun(ops) && Careful(ops)
    ensures Sound(Final(ops)) && Remembered(Final(ops))
    decreases |ops|
  {
    if ops != [] {
      CarefulRunsAreSound(ops[..|ops| - 1]);
      SoundExactly(Final(ops[..|ops| - 1]), ops[|ops| - 1]);
      RememberedKept(Final(ops[..|ops| - 1]), ops[|ops| - 1]);
    }
  }

  /** Revisions over any run: none of a project, task or pin ever goes down. */
  lemma {:induction false} RevisionsNeverFall(ops: seq<Op>, more: seq<Op>)
    requires IsRun(ops) && IsRun(ops + more)
    ensures forall p :: p in Final(ops).projects ==>
      p in Final(ops + more).projects && Final(ops + more).projects[p].rev >= Final(ops).projects[p].rev
    ensures forall t :: t in Final(ops).tasks ==>
      t in Final(ops + more).tasks && Final(ops + more).tasks[t].rev >= Final(ops).tasks[t].rev
    ensures forall p :: p in Final(ops).pins ==>
      p in Final(ops + more).pins && Final(ops + more).pins[p].rev >= Final(ops).pins[p].rev
    decreases |more|
  {
    if more == [] {
      assert ops + more == ops;
    } else {
      var front := more[..|more| - 1];
      assert (ops + more)[..|ops + more| - 1] == ops + front;
      RevisionsNeverFall(ops, front);
      ChangesAreCounted(Final(ops + front), more[|more| - 1]);
    }
  }
}
