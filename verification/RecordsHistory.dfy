/** What deleting, archiving and restoring leave: the live rows, the listing, and tombstones for good. */
module RecordsHistory {
  import opened Common
  import opened Records
  import opened RecordsLaws
  import opened RecordsSteps

  predicate LiveResource(d: Data, r: Id) {
    r in d.resources && !d.resources[r].deleted
  }

  predicate LivePin(d: Data, p: Id) {
    p in d.pins && !d.pins[p].deleted
  }

  // ---------------------------------------------------------------- deletion

  /** `t` has exactly the live tasks, resources and pins of `d` but those of some tasks, all of them unchanged. */
  ghost predicate LosesTasks(d: Data, t: Data, gone: Id -> bool) {
    && (forall x :: LiveTask(t, x) <==> LiveTask(d, x) && !gone(x))
    && (forall r :: LiveResource(t, r) <==> LiveResource(d, r) && !gone(d.resources[r].task))
    && (forall p :: LivePin(t, p) <==> LivePin(d, p) && !gone(d.pins[p].task))
    && (forall x :: LiveTask(t, x) ==> t.tasks[x] == d.tasks[x])
    && (forall r :: LiveResource(t, r) ==> t.resources[r] == d.resources[r])
    && (forall p :: LivePin(t, p) ==> t.pins[p] == d.pins[p])
  }

  function OfProject(d: Data, id: Id): Id -> bool {
    x => x in d.tasks && d.tasks[x].project == id
  }

  function Itself(id: Id): Id -> bool {
    x => x == id
  }

  /** A project takes exactly what hangs on it along, and no other live row changes. */
  lemma DeletedProjectLeaves(d: Data, id: Id)
    requires Sound(d)
    ensures LosesTasks(d, DeleteProject(d, id), OfProject(d, id))
    ensures forall p :: LiveProject(DeleteProject(d, id), p) <==> LiveProject(d, p) && p != id
    ensures forall p :: LiveProject(d, p) && p != id ==> DeleteProject(d, id).projects[p] == d.projects[p]
  {
  }

  /** A task takes its resources and pins along; projects only forget that it was their last. */
  lemma DeletedTaskLeaves(d: Data, id: Id)
    requires Sound(d)
    ensures LosesTasks(d, DeleteTask(d, id), Itself(id))
    ensures forall p :: LiveProject(DeleteTask(d, id), p) <==> LiveProject(d, p)
    ensures forall p :: LiveProject(d, p) && d.projects[p].lastTask != Some(id) ==>
      DeleteTask(d, id).projects[p] == d.projects[p]
    ensures forall p :: LiveProject(d, p) ==>
      DeleteTask(d, id).projects[p].lastTask == if d.projects[p].lastTask == Some(id) then None
      else d.projects[p].lastTask
  {
  }

  lemma NothingToDelete(d: Data, id: Id)
    requires !LiveProject(d, id) && forall x :: !InProject(d.tasks, x, id)
    ensures DeleteProject(d, id) == d
  {
    var t := DeleteProject(d, id);
    assert t.projects == d.projects;
    assert forall x :: x in d.tasks ==> d.tasks[x].deleted || d.tasks[x].project != id || InProject(d.tasks, x, id);
    assert t.tasks == d.tasks;
    assert t.resources == d.resources;
    assert t.pins == d.pins;
  }

  /** Deleting again changes no row, not even a revision. */
  lemma ProjectDeletedTwice(d: Data, id: Id)
    ensures DeleteProject(DeleteProject(d, id), id) == DeleteProject(d, id)
  {
    NothingToDelete(DeleteProject(d, id), id);
  }

  lemma TaskDeletedTwice(d: Data, id: Id)
    ensures DeleteTask(DeleteTask(d, id), id) == DeleteTask(d, id)
  {
    var t := DeleteTask(d, id);
    assert DeleteTask(t, id).projects == t.projects;
    assert DeleteTask(t, id).tasks == t.tasks;
    assert DeleteTask(t, id).resources == t.resources;
    assert DeleteTask(t, id).pins == t.pins;
  }

  // ---------------------------------------------------------------- the listing

  predicate Without(ids: seq<Id>, i: nat, rest: seq<Id>) {
    i < |ids| && rest == ids[..i] + ids[i + 1..]
  }

  lemma WithoutOne(ids: seq<Id>, i: nat, rest: seq<Id>)
    requires Without(ids, i, rest) && forall j, k :: 0 <= j < k < |ids| ==> ids[j] != ids[k]
    ensures forall id :: id in rest <==> id in ids && id != ids[i]
    ensures |rest| == |ids| - 1 && forall j :: 0 <= j < |rest| ==> rest[j] == ids[if j < i then j else j + 1]
  {
    forall id ensures id in rest <==> id in ids && id != ids[i] {
      if id in ids && id != ids[i] {
        var k :| 0 <= k < |ids| && ids[k] == id;
        assert rest[if k < i then k else k - 1] == id;
      }
      if id in rest {
        var j :| 0 <= j < |rest| && rest[j] == id;
        assert ids[if j < i then j else j + 1] == id;
      }
    }
  }

  /** A project that stops being active leaves the list, and the others keep their order. */
  lemma LeavesTheList(d: Data, t: Data, ids: seq<Id>, i: nat, rest: seq<Id>)
    requires Listing(d, ids) && Without(ids, i, rest)
    requires forall p :: Active(t, p) <==> Active(d, p) && p != ids[i]
    requires forall p :: Active(t, p) ==> Position(t, p) == Position(d, p)
    ensures Listing(t, rest)
  {
    WithoutOne(ids, i, rest);
    forall j | 0 <= j < |rest| ensures Position(t, rest[j]) == Position(d, rest[j]) {
      assert rest[j] in rest;
      assert Active(t, rest[j]);
    }
  }

  /** A project that becomes active behind all others comes last. */
  lemma JoinsTheList(d: Data, t: Data, ids: seq<Id>, id: Id)
    requires Listing(d, ids) && !Active(d, id)
    requires forall p :: Active(t, p) <==> Active(d, p) || p == id
    requires forall p :: Active(d, p) ==> Position(t, p) == Position(d, p) < Position(t, id)
    ensures Listing(t, ids + [id])
  {
    var all := ids + [id];
    forall p ensures p in all <==> Active(t, p) {
      assert p in all <==> p in ids || p == id;
    }
    forall j | 0 <= j < |ids| ensures Position(t, all[j]) == Position(d, ids[j]) < Position(t, id) {
      assert ids[j] in ids;
      assert Active(d, ids[j]);
    }
  }

  lemma ArchivedListing(d: Data, ids: seq<Id>, i: nat, rest: seq<Id>)
    requires Listing(d, ids) && Without(ids, i, rest)
    ensures Listing(ArchiveProject(d, ids[i]), rest)
  {
    assert ids[i] in ids;
    LeavesTheList(d, ArchiveProject(d, ids[i]), ids, i, rest);
  }

  lemma DeletedListing(d: Data, ids: seq<Id>, i: nat, rest: seq<Id>)
    requires Listing(d, ids) && Without(ids, i, rest)
    ensures Listing(DeleteProject(d, ids[i]), rest)
  {
    assert ids[i] in ids;
    LeavesTheList(d, DeleteProject(d, ids[i]), ids, i, rest);
  }

  lemma UnarchivedListing(d: Data, ids: seq<Id>, id: Id, order: nat)
    requires Listing(d, ids) && LiveProject(d, id) && !Active(d, id) && IsNext(d, Unarchived(d), order)
    ensures Listing(UnarchiveProject(d, id, order), ids + [id])
  {
    JoinsTheList(d, UnarchiveProject(d, id, order), ids, id);
  }

  lemma CreatedListing(d: Data, ids: seq<Id>, id: Id, name: string, path: string, order: nat)
    requires Listing(d, ids) && id !in d.projects && IsNext(d, d.projects.Keys, order) && !NameTaken(d, name, None)
    ensures Listing(CreateProject(d, id, name, path, order), ids + [id])
  {
    JoinsTheList(d, CreateProject(d, id, name, path, order), ids, id);
  }

  /**
   Archiving and restoring: the project is as before but for its place, which is now the last, and two counted
   changes; the rest of the store is untouched, and the others keep their order.
   */
  lemma ArchiveAndBack(d: Data, ids: seq<Id>, i: nat, rest: seq<Id>, order: nat)
    requires Listing(d, ids) && Without(ids, i, rest)
      && IsNext(ArchiveProject(d, ids[i]), Unarchived(ArchiveProject(d, ids[i])), order)
    ensures ids[i] in d.projects
    ensures var was := d.projects[ids[i]];
            UnarchiveProject(ArchiveProject(d, ids[i]), ids[i], order) ==
              d.(projects := d.projects[ids[i] := was.(sortOrder := order, rev := was.rev + 2)])
    ensures Listing(UnarchiveProject(ArchiveProject(d, ids[i]), ids[i], order), rest + [ids[i]])
  {
    assert ids[i] in ids;
    ArchivedListing(d, ids, i, rest);
    UnarchivedListing(ArchiveProject(d, ids[i]), rest, ids[i], order);
  }

  // ---------------------------------------------------------------- tombstones are for good

  ghost predicate Buries(d: Data, t: Data) {
    && (forall p :: p in d.projects && d.projects[p].deleted ==> p in t.projects && t.projects[p].deleted)
    && (forall x :: x in d.tasks && d.tasks[x].deleted ==> x in t.tasks && t.tasks[x].deleted)
  }

  lemma BuriedByProjects(d: Data, op: Op)
    requires OnProjects(op) && Chosen(d, op)
    ensures Buries(d, ApplyToProjects(d, op))
  {
  }

  lemma BuriedByTasks(d: Data, op: Op)
    requires OnTasks(op) && Chosen(d, op)
    ensures Buries(d, ApplyToTasks(d, op))
  {
  }

  lemma BuriedByItems(d: Data, op: Op)
    requires !OnProjects(op) && !OnTasks(op) && Chosen(d, op)
    ensures Buries(d, ApplyToItems(d, op))
  {
  }

  lemma BuriedStep(d: Data, op: Op)
    requires Chosen(d, op)
    ensures Buries(d, Apply(d, op))
  {
    if OnProjects(op) { BuriedByProjects(d, op); }
    else if OnTasks(op) { BuriedByTasks(d, op); }
    else { BuriedByItems(d, op); }
  }

  /** No run brings a deleted project or task back. */
  lemma {:induction false} TombstonesLast(ops: seq<Op>, more: seq<Op>)
    requires IsRun(ops) && IsRun(ops + more)
    ensures Buries(Final(ops), Final(ops + more))
    decreases |more|
  {
    if more == [] {
      assert ops + more == ops;
    } else {
      var front := more[..|more| - 1];
      assert (ops + more)[..|ops + more| - 1] == ops + front;
      TombstonesLast(ops, front);
      BuriedStep(Final(ops + front), more[|more| - 1]);
    }
  }

  predicate Elsewhere(d: Data, task: Id, project: Id) {
    LiveTask(d, task) && d.tasks[task].project != project
  }

  /** After a careful run, nothing live is left under what was once deleted. */
  lemma NothingBelowTombstones(ops: seq<Op>, more: seq<Op>, p: Id)
    requires IsRun(ops) && IsRun(ops + more) && Careful(ops + more)
    requires p in Final(ops).projects && Final(ops).projects[p].deleted
    ensures forall x :: LiveTask(Final(ops + more), x) ==> Elsewhere(Final(ops + more), x, p)
    ensures forall r :: LiveResource(Final(ops + more), r) ==>
      Elsewhere(Final(ops + more), Final(ops + more).resources[r].task, p)
    ensures forall q :: LivePin(Final(ops + more), q) ==>
      Elsewhere(Final(ops + more), Final(ops + more).pins[q].task, p)
  {
    TombstonesLast(ops, more);
    CarefulRunsAreSound(ops + more);
  }
}
