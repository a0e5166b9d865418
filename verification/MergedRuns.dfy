/** Runs in which record operations and merges alternate. */
module MergedRuns {
  import opened Common
  import opened Records
  import opened RecordsSteps
  import opened RecordsLaws
  import opened Bundle
  import opened BundleLaws

  datatype Step = Operation(op: Op) | Merging(b: Contents, plan: Plan, newIds: seq<Id>)

  ghost predicate Can(d: Data, e: Step) {
    match e
    case Operation(op) => Chosen(d, op)
    case Merging(b, _, newIds) => |newIds| == |b.projects|
  }

  /** A merge that fails changes nothing. */
  ghost function Do(d: Data, e: Step): Data
    requires Can(d, e)
  {
    match e
    case Operation(op) => Apply(d, op)
    case Merging(b, plan, newIds) =>
      match Applied(d, b, plan, newIds)
      case None => d
      case Some(g) => g.s
  }

  ghost predicate IsRun(steps: seq<Step>)
    decreases |steps|, 0
  {
    steps == [] || (IsRun(steps[..|steps| - 1]) && Can(Final(steps[..|steps| - 1]), steps[|steps| - 1]))
  }

  ghost function Final(steps: seq<Step>): Data
    requires IsRun(steps)
    decreases |steps|, 1
  {
    if steps == [] then Empty() else Do(Final(steps[..|steps| - 1]), steps[|steps| - 1])
  }

  // ---------------------------------------------------------------- references, names and pins

  /** No operation of the run adds under a tombstone; merges need no such care. */
  ghost predicate Careful(steps: seq<Step>)
    requires IsRun(steps)
    decreases |steps|
  {
    steps == [] ||
    var before, e := steps[..|steps| - 1], steps[|steps| - 1];
    Careful(before) && (e.Operation? ==> UnderLiveParent(Final(before), e.op))
  }

  lemma IntactStep(d: Data, e: Step)
    requires Intact(d) && Can(d, e) && (e.Operation? ==> UnderLiveParent(d, e.op))
    ensures Intact(Do(d, e))
  {
    match e
    case Operation(op) =>
      SoundExactly(d, op);
      NamesStayUnique(d, op);
      PinsStayUnique(d, op);
    case Merging(b, plan, newIds) => AppliedIsSound(d, b, plan, newIds);
  }

  /** Through merges, too, live rows keep live parents, and names and pins stay unique. */
  lemma {:induction false} MixedRunsAreIntact(steps: seq<Step>)
    requires IsRun(steps) && Careful(steps)
    ensures Intact(Final(steps))
    decreases |steps|
  {
    if steps != [] {
      MixedRunsAreIntact(steps[..|steps| - 1]);
      IntactStep(Final(steps[..|steps| - 1]), steps[|steps| - 1]);
    }
  }

  // ---------------------------------------------------------------- positions

  /** The only live projects after the loop are those of before and those of the bundle. */
  lemma {:induction false} LiveCameFrom(g: Progress, rows: seq<ProjectRow>, newIds: seq<Id>, from: Option<string>,
      plan: Plan, p: Id)
    requires |newIds| == |rows| && MergeProjects(g, rows, newIds, from, plan).Some?
    requires LiveProject(MergeProjects(g, rows, newIds, from, plan).value.s, p) && !Identified(rows, p)
    ensures LiveProject(g.s, p) && MergeProjects(g, rows, newIds, from, plan).value.s.projects[p] == g.s.projects[p]
    decreases |rows|
  {
    if rows != [] {
      RowsSplit(rows);
      LiveCameFrom(MergeProject(g, rows[0], from, plan, newIds[0]).value, rows[1..], newIds[1..], from, plan, p);
    }
  }

  /** The unarchived projects of the bundle have positions of their own. */
  ghost predicate NewPositions(d: Data, b: Contents) {
    && (forall i, j :: 0 <= i < j < |b.projects| && !b.projects[i].archived && !b.projects[j].archived ==>
          b.projects[i].sortOrder != b.projects[j].sortOrder)
    && (forall i, p :: 0 <= i < |b.projects| && !b.projects[i].archived && Active(d, p) ==>
          b.projects[i].sortOrder != d.projects[p].sortOrder)
  }

  /** What "keep both" makes of the projects when no ids overlap. */
  ghost predicate Joined(d: Data, b: Contents, t: Data) {
    && (forall p :: LiveProject(d, p) ==> p in t.projects && t.projects[p] == d.projects[p])
    && (forall i :: 0 <= i < |b.projects| ==>
          && b.projects[i].id in t.projects && !t.projects[b.projects[i].id].deleted
          && t.projects[b.projects[i].id].archived == b.projects[i].archived
          && t.projects[b.projects[i].id].sortOrder == b.projects[i].sortOrder)
    && (forall p :: LiveProject(t, p) ==> LiveProject(d, p) || Identified(b.projects, p))
    && (forall i :: 0 <= i < |b.projects| ==> !LiveProject(d, b.projects[i].id))
  }

  lemma KeepBothJoins(d: Data, b: Contents, plan: Plan, newIds: seq<Id>)
    requires Intact(d) && |newIds| == |b.projects| && plan.merge == KeepBoth && NoOverlap(d, b)
      && DistinctIds(b.projects)
    requires NewEach(Start(d), b.projects, newIds, b.sourceHome, plan) && Applied(d, b, plan, newIds).Some?
    ensures Joined(d, b, Applied(d, b, plan, newIds).value.s)
  {
    var t := Applied(d, b, plan, newIds).value.s;
    KeepBothKeeps(d, b, plan, newIds);
    AppliedIsSound(d, b, plan, newIds);
    ProjectsArrive(Start(d), b.projects, newIds, b.sourceHome, plan);
    forall p | LiveProject(t, p) && !Identified(b.projects, p) ensures LiveProject(d, p) {
      LiveCameFrom(Start(d), b.projects, newIds, b.sourceHome, plan, p);
    }
    forall i | 0 <= i < |b.projects| ensures !LiveProject(d, b.projects[i].id) {
      assert b.projects[i] in b.projects;
    }
  }

  lemma JoinedPositions(d: Data, b: Contents, t: Data)
    requires PositionsDistinct(d) && DistinctIds(b.projects) && Joined(d, b, t)
    ensures PositionsDistinct(t) <==> NewPositions(d, b)
  {
    if PositionsDistinct(t) {
      forall i, j | 0 <= i < j < |b.projects| && !b.projects[i].archived && !b.projects[j].archived
        ensures b.projects[i].sortOrder != b.projects[j].sortOrder
      {
        assert Active(t, b.projects[i].id) && Active(t, b.projects[j].id);
      }
      forall i, p | 0 <= i < |b.projects| && !b.projects[i].archived && Active(d, p)
        ensures b.projects[i].sortOrder != d.projects[p].sortOrder
      {
        assert Active(t, b.projects[i].id) && Active(t, p);
      }
    }
    if NewPositions(d, b) {
      forall p, q | Active(t, p) && Active(t, q) && p != q ensures t.projects[p].sortOrder != t.projects[q].sortOrder {
        ActiveCameFrom(d, b, t, p);
        ActiveCameFrom(d, b, t, q);
      }
    }
  }

  lemma ActiveCameFrom(d: Data, b: Contents, t: Data, p: Id)
    requires Joined(d, b, t) && Active(t, p)
    ensures Active(d, p) || exists i :: 0 <= i < |b.projects| && b.projects[i].id == p && !b.projects[i].archived
  {
  }

  /**
   A merge takes the sender's positions as they are: the active positions stay distinct exactly if the bundle's are,
   among themselves and from those in use.
   */
  lemma MergedPositionsExact(d: Data, b: Contents, plan: Plan, newIds: seq<Id>)
    requires Intact(d) && |newIds| == |b.projects| && plan.merge == KeepBoth && NoOverlap(d, b)
      && DistinctIds(b.projects)
    requires NewEach(Start(d), b.projects, newIds, b.sourceHome, plan) && Applied(d, b, plan, newIds).Some?
    requires PositionsDistinct(d)
    ensures PositionsDistinct(Applied(d, b, plan, newIds).value.s) <==> NewPositions(d, b)
  {
    KeepBothJoins(d, b, plan, newIds);
    JoinedPositions(d, b, Applied(d, b, plan, newIds).value.s);
  }

  /** Once distinct, positions stay so until the next merge. */
  lemma {:induction false} DistinctUntilMerged(steps: seq<Step>, more: seq<Step>)
    requires IsRun(steps) && IsRun(steps + more) && PositionsDistinct(Final(steps))
    requires forall e :: e in more ==> e.Operation?
    ensures PositionsDistinct(Final(steps + more))
    decreases |more|
  {
    if more == [] {
      assert steps + more == steps;
    } else {
      var front, e := more[..|more| - 1], more[|more| - 1];
      assert (steps + more)[..|steps + more| - 1] == steps + front;
      DistinctUntilMerged(steps, front);
      PositionsStayDistinct(Final(steps + front), e.op);
    }
  }

  /** An accepted reorder repairs what any merges before it have done, and until the next one it stays so. */
  lemma ReorderRepairs(steps: seq<Step>, ids: seq<Id>, more: seq<Step>)
    requires IsRun(steps) && IsOrder(Final(steps), ids) && IsRun(steps + [Operation(OpReorder(ids))] + more)
    requires forall e :: e in more ==> e.Operation?
    ensures PositionsDistinct(Final(steps + [Operation(OpReorder(ids))] + more))
  {
    var reordered := steps + [Operation(OpReorder(ids))];
    assert reordered[..|steps|] == steps;
    assert IsRun(reordered);
    ReorderKeepsDistinct(Final(steps), ids);
    DistinctUntilMerged(reordered, more);
  }
}
