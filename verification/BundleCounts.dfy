/** What the report of a merge counts, and what the review before it promised. */
module BundleCounts {
  import opened Common
  import opened Json
  import opened PathRewrite
  import opened Records
  import opened Bundle
  import opened BundleLaws

  // ---------------------------------------------------------------- the counts

  /** The projects whose path is under the source's home, if there is another home to move to. */
  function MovedProjects(rows: seq<ProjectRow>, from: Option<string>, to: Option<string>): nat {
    if rows == [] then 0
    else
      var moves := from.Some? && to.Some? && from != to && from.value != ""
        && Segments(from.value) <= Segments(rows[0].repoPath);
      (if moves then 1 else 0) + MovedProjects(rows[1..], from, to)
  }

  lemma PathCount(path: string, from: Option<string>, to: Option<string>)
    ensures PathMoves(path, from, to) == 1 <==>
      from.Some? && to.Some? && from != to && from.value != "" && Segments(from.value) <= Segments(path)
    ensures PathMoves(path, from, to) <= 1
  {
    if from.Some? { UnderExact(path, from.value); }
  }

  /** The absolute paths under the source's home in a payload, if there is another home to move to. */
  function PayloadPaths(p: Payload, from: Option<string>, to: Option<string>): nat {
    match p
    case Parsed(v) => UnderHome(Texts(v), from, to)
    case Opaque(_) => 0
  }

  lemma PayloadCount(p: Payload, from: Option<string>, to: Option<string>)
    ensures CountPayload(p, from, to) == PayloadPaths(p, from, to)
  {
    if p.Parsed? { CountsExactly(p.value, from, to); }
  }

  /** The paths that move in the resources of some tasks. */
  function ResourcePaths(rows: seq<ResourceRow>, tasks: set<Id>, from: Option<string>, to: Option<string>): nat {
    if rows == [] then 0
    else
      var here := if rows[0].task in tasks then PayloadPaths(rows[0].payload, from, to) else 0;
      here + ResourcePaths(rows[1..], tasks, from, to)
  }

  function PinPaths(rows: seq<PinRow>, tasks: set<Id>, from: Option<string>, to: Option<string>): nat {
    if rows == [] then 0
    else
      var here := if rows[0].task in tasks then PayloadPaths(rows[0].payload, from, to) else 0;
      here + PinPaths(rows[1..], tasks, from, to)
  }

  /** The tasks that come along, each as often as it has a row. */
  function CountComing(projects: map<Id, Option<Id>>, rows: seq<TaskRow>): nat {
    if rows == [] then 0 else (if Comes(projects, rows[0]) then 1 else 0) + CountComing(projects, rows[1..])
  }

  // ---------------------------------------------------------------- what each loop counts

  lemma {:induction false} ProjectsCount(g: Progress, rows: seq<ProjectRow>, newIds: seq<Id>, from: Option<string>,
      plan: Plan)
    requires |newIds| == |rows| && MergeProjects(g, rows, newIds, from, plan).Some?
    ensures var o := MergeProjects(g, rows, newIds, from, plan).value.out;
            && o.added + o.replaced + o.skipped == g.out.added + g.out.replaced + g.out.skipped + |rows|
            && o.paths == g.out.paths + MovedProjects(rows, from, plan.newHome) && o.capsules == g.out.capsules
    decreases |rows|
  {
    if rows != [] {
      PathCount(rows[0].repoPath, from, plan.newHome);
      ProjectsCount(MergeProject(g, rows[0], from, plan, newIds[0]).value, rows[1..], newIds[1..], from, plan);
    }
  }

  lemma {:induction false} TasksCount(g: Progress, rows: seq<TaskRow>)
    requires MergeTasks(g, rows).Some?
    ensures MergeTasks(g, rows).value.out == g.out.(capsules := g.out.capsules + CountComing(g.projects, rows))
    ensures MergeTasks(g, rows).value.projects == g.projects
    decreases |rows|
  {
    if rows != [] { TasksCount(MergeTask(g, rows[0]).value, rows[1..]); }
  }

  lemma {:induction false} ResourcesCount(g: Progress, rows: seq<ResourceRow>, coming: set<Id>, from: Option<string>,
      to: Option<string>)
    requires MergeResources(g, rows, coming, from, to).Some?
    ensures MergeResources(g, rows, coming, from, to).value.out ==
            g.out.(paths := g.out.paths + ResourcePaths(rows, coming, from, to))
    decreases |rows|
  {
    if rows != [] {
      PayloadCount(rows[0].payload, from, to);
      ResourcesCount(MergeResource(g, rows[0], coming, from, to).value, rows[1..], coming, from, to);
    }
  }

  lemma {:induction false} PinsCount(g: Progress, rows: seq<PinRow>, coming: set<Id>, from: Option<string>,
      to: Option<string>)
    requires MergePins(g, rows, coming, from, to).Some?
    ensures MergePins(g, rows, coming, from, to).value.out ==
      g.out.(paths := g.out.paths + PinPaths(rows, coming, from, to))
    decreases |rows|
  {
    if rows != [] {
      PayloadCount(rows[0].payload, from, to);
      PinsCount(MergePin(g, rows[0], coming, from, to).value, rows[1..], coming, from, to);
    }
  }

  /**
   All five numbers of the report: every project is counted as added, replaced or skipped; every task that comes
   along is a capsule; and the paths are those of all projects and of the resources and pins that come along.
   */
  lemma OutcomeAddsUp(s: Data, b: Contents, plan: Plan, newIds: seq<Id>)
    requires |newIds| == |b.projects| && Applied(s, b, plan, newIds).Some?
    ensures var o, from, to := Applied(s, b, plan, newIds).value.out, b.sourceHome, plan.newHome;
            var coming := ComingTasks(s, b, plan, newIds);
            && o.added + o.replaced + o.skipped == |b.projects|
            && o.capsules == CountComing(Imported(s, b, plan, newIds).projects, b.tasks)
            && o.paths == MovedProjects(b.projects, from, to) + ResourcePaths(b.resources, coming, from, to)
                        + PinPaths(b.pins, coming, from, to)
  {
    var g, from, to := Imported(s, b, plan, newIds), b.sourceHome, plan.newHome;
    var coming := Coming(g.projects, b.tasks);
    ProjectsCount(Start(s), b.projects, newIds, from, plan);
    TasksCount(g, b.tasks);
    var h := MergeTasks(g, b.tasks).value;
    ResourcesCount(h, b.resources, coming, from, to);
    PinsCount(MergeResources(h, b.resources, coming, from, to).value, b.pins, coming, from, to);
  }

  // ---------------------------------------------------------------- the review

  /** What `inspect_bundle` reports of what is counted here. */
  datatype Report = Report(capsules: nat, projects: nat, remapProjects: nat, remapPaths: nat)

  function AllPaths(rows: seq<ResourceRow>, from: Option<string>, to: Option<string>): nat {
    if rows == [] then 0 else CountPayload(rows[0].payload, from, to) + AllPaths(rows[1..], from, to)
  }

  function MovingPaths(rows: seq<ProjectRow>, from: Option<string>, to: Option<string>): nat {
    if rows == [] then 0 else PathMoves(rows[0].repoPath, from, to) + MovingPaths(rows[1..], from, to)
  }

  function Inspected(b: Contents): Option<Report> {
    if !Readable(b) then None
    else
      var probe := Some(PROBE);
      Some(Report(|b.tasks|, |b.projects|, MovingPaths(b.projects, b.sourceHome, probe),
        AllPaths(b.resources, b.sourceHome, probe)))
  }

  lemma {:induction false} MovingPathsExact(rows: seq<ProjectRow>, from: Option<string>, to: Option<string>)
    ensures MovingPaths(rows, from, to) == MovedProjects(rows, from, to)
  {
    if rows != [] {
      PathCount(rows[0].repoPath, from, to);
      MovingPathsExact(rows[1..], from, to);
    }
  }

  /** The paths in the resources of the tasks that stay behind. */
  function LeftPaths(rows: seq<ResourceRow>, tasks: set<Id>, from: Option<string>, to: Option<string>): nat {
    if rows == [] then 0
    else
      var here := if rows[0].task in tasks then 0 else PayloadPaths(rows[0].payload, from, to);
      here + LeftPaths(rows[1..], tasks, from, to)
  }

  lemma {:induction false} PathsSplit(rows: seq<ResourceRow>, tasks: set<Id>, from: Option<string>, to: Option<string>)
    ensures AllPaths(rows, from, to) == ResourcePaths(rows, tasks, from, to) + LeftPaths(rows, tasks, from, to)
  {
    if rows != [] {
      PayloadCount(rows[0].payload, from, to);
      PathsSplit(rows[1..], tasks, from, to);
    }
  }

  /** There is somewhere else to move to. */
  predicate Effective(from: Option<string>, to: Option<string>) {
    to.Some? && to != from
  }

  lemma PayloadPreview(p: Payload, from: Option<string>, to: Option<string>)
    ensures CountPayload(p, from, to) == if Effective(from, to) then CountPayload(p, from, Some(PROBE)) else 0
  {
    match p
    case Parsed(v) => if Effective(from, to) { PreviewExact(v, from, to); } else { NothingCounts(v, from, to); }
    case Opaque(_) =>
  }

  lemma {:induction false} PathsPreview(rows: seq<ResourceRow>, from: Option<string>, to: Option<string>)
    ensures AllPaths(rows, from, to) == if Effective(from, to) then AllPaths(rows, from, Some(PROBE)) else 0
  {
    if rows != [] {
      PayloadPreview(rows[0].payload, from, to);
      PathsPreview(rows[1..], from, to);
    }
  }

  lemma {:induction false} ProjectsPreview(rows: seq<ProjectRow>, from: Option<string>, to: Option<string>)
    requires from != Some(PROBE)
    ensures MovedProjects(rows, from, to) == if Effective(from, to) then MovedProjects(rows, from, Some(PROBE)) else 0
  {
    if rows != [] { ProjectsPreview(rows[1..], from, to); }
  }

  lemma {:induction false} PinsStill(rows: seq<PinRow>, tasks: set<Id>, from: Option<string>, to: Option<string>)
    requires !Effective(from, to)
    ensures PinPaths(rows, tasks, from, to) == 0
  {
    if rows != [] {
      PayloadPreview(rows[0].payload, from, to);
      PayloadCount(rows[0].payload, from, to);
      PinsStill(rows[1..], tasks, from, to);
    }
  }

  lemma {:induction false} ProjectsStill(rows: seq<ProjectRow>, from: Option<string>, to: Option<string>)
    requires !Effective(from, to)
    ensures MovedProjects(rows, from, to) == 0
  {
    if rows != [] { ProjectsStill(rows[1..], from, to); }
  }

  /** The moves of projects that the review misses because the source's home is its own probe. */
  function Unforeseen(rows: seq<ProjectRow>, from: Option<string>, to: Option<string>): nat {
    if from == Some(PROBE) then MovedProjects(rows, from, to) else 0
  }

  lemma {:induction false} ComingAll(projects: map<Id, Option<Id>>, rows: seq<TaskRow>)
    ensures CountComing(projects, rows) <= |rows|
    ensures CountComing(projects, rows) == |rows| <==> forall t :: t in rows ==> Comes(projects, t)
  {
    if rows != [] {
      assert rows == [rows[0]] + rows[1..];
      ComingAll(projects, rows[1..]);
    }
  }

  /**
   When the review's numbers are the report's. The paths: if there is somewhere else to move to, exactly if as many
   of them are in pins that come along as in resources that stay behind, and otherwise exactly if there were none to
   move. The capsules: exactly if every task comes along.
   */
  lemma ReviewExact(s: Data, b: Contents, plan: Plan, newIds: seq<Id>)
    requires |newIds| == |b.projects| && Applied(s, b, plan, newIds).Some?
    ensures var r, o, from, to := Inspected(b).value, Applied(s, b, plan, newIds).value.out, b.sourceHome, plan.newHome;
            var coming := ComingTasks(s, b, plan, newIds);
            r.remapProjects + r.remapPaths == o.paths <==>
            if Effective(from, to)
            then PinPaths(b.pins, coming, from, to) + Unforeseen(b.projects, from, to) ==
              LeftPaths(b.resources, coming, from, to)
            else r.remapProjects + r.remapPaths == 0
    ensures Inspected(b).value.capsules == Applied(s, b, plan, newIds).value.out.capsules <==>
            forall t :: t in b.tasks ==> Comes(Imported(s, b, plan, newIds).projects, t)
  {
    var from, to, coming := b.sourceHome, plan.newHome, ComingTasks(s, b, plan, newIds);
    OutcomeAddsUp(s, b, plan, newIds);
    ComingAll(Imported(s, b, plan, newIds).projects, b.tasks);
    PathsSplit(b.resources, coming, from, to);
    PathsPreview(b.resources, from, to);
    MovingPathsExact(b.projects, from, Some(PROBE));
    ProjectsStill(b.projects, from, from);
    if !Effective(from, to) {
      PinsStill(b.pins, coming, from, to);
      ProjectsStill(b.projects, from, to);
    } else if from != Some(PROBE) {
      ProjectsPreview(b.projects, from, to);
    }
  }

  /** Pins alone make the merge move more than the review promised. */
  lemma PinsAreNotForeseen(s: Data, b: Contents, plan: Plan, newIds: seq<Id>)
    requires |newIds| == |b.projects| && Applied(s, b, plan, newIds).Some?
    requires Effective(b.sourceHome, plan.newHome) && b.sourceHome != Some(PROBE) && b.resources == []
    requires PinPaths(b.pins, ComingTasks(s, b, plan, newIds), b.sourceHome, plan.newHome) > 0
    ensures Inspected(b).value.remapProjects + Inspected(b).value.remapPaths <
      Applied(s, b, plan, newIds).value.out.paths
  {
    OutcomeAddsUp(s, b, plan, newIds);
    MovingPathsExact(b.projects, b.sourceHome, Some(PROBE));
    ProjectsPreview(b.projects, b.sourceHome, plan.newHome);
  }

  /** One pin of a path that moves, on a task that comes along to an empty store. */
  function OnePin(): Contents {
    Contents(
      BUNDLE_FORMAT, BUNDLE_VERSION, Some("/a"), [ProjectRow("p", "atlas", "/x", false, None, 0, 0)],
      [TaskRow("t", "p", "", "open")], [], [PinRow("n", "t", "vscode", "/a/x", Parsed(Str("/a/x")))])
  }

  lemma NothingPromised()
    ensures Inspected(OnePin()).value.remapProjects + Inspected(OnePin()).value.remapPaths == 0
  {
    var rows := OnePin().projects;
    assert rows[1..] == [] && rows[0].repoPath == "/x";
    assert "/x"[1] != "/a"[1];
    assert !Under("/x", "/a");
    assert MovingPaths(rows, Some("/a"), Some(PROBE)) == 0;
  }

  /** The review promises no path, and the merge moves one. */
  lemma OnePinMoves() returns (r: Progress)
    ensures Applied(Data(map[], map[], map[], map[]), OnePin(), Plan(Some("/b"), KeepBoth), ["q"]) == Some(r)
    ensures r.out.paths == 1
  {
    var b, s, plan := OnePin(), Data(map[], map[], map[], map[]), Plan(Some("/b"), KeepBoth);
    var g := MergeProject(Start(s), b.projects[0], Some("/a"), plan, "q").value;
    assert MergeProjects(Start(s), b.projects, ["q"], Some("/a"), plan) == Some(g);
    var h := MergeTask(g, b.tasks[0]).value;
    assert MergeTasks(g, b.tasks) == Some(h);
    var coming := Coming(g.projects, b.tasks);
    assert "t" in coming && MergeResources(h, [], coming, Some("/a"), Some("/b")) == Some(h);
    r := MergePin(h, b.pins[0], coming, Some("/a"), Some("/b")).value;
    assert MergePins(h, b.pins, coming, Some("/a"), Some("/b")) == Some(r);
    assert "/x"[1] != "/a"[1];
    assert !Under("/x", "/a");
    assert "/a/x"[..2] == "/a";
    assert Under("/a/x", "/a");
    assert CountPayload(b.pins[0].payload, Some("/a"), Some("/b")) == 1;
  }
}
