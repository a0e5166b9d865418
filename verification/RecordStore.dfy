/** The store's methods: the statements they run, in their order, with the loops of the source. */
module RecordStore {
  import opened Common
  import opened Json
  import opened Decimals
  import opened Records

  datatype DbError = NotFound | Constraint | Validation

  // ---------------------------------------------------------------- the title of a copy

  /** The titles that `duplicate_task` tries, one after the other. */
  function Candidate(base: string, k: nat): string {
    if k == 0 then base else base + " (" + Decimal(k + 1) + ")"
  }

  lemma CandidateParts(base: string, k: nat)
    requires k > 0
    ensures |Candidate(base, k)| == |base| + |Decimal(k + 1)| + 3
    ensures Candidate(base, k)[|base| + 2..|Candidate(base, k)| - 1] == Decimal(k + 1)
  {
  }

  lemma DecimalsDiffer(a: nat, b: nat)
    requires a != b
    ensures Decimal(a) != Decimal(b)
  {
    if Decimal(a) == Decimal(b) { DecimalInjective(a, b); }
  }

  lemma CandidatesDiffer(base: string, j: nat, k: nat)
    requires j != k
    ensures Candidate(base, j) != Candidate(base, k)
  {
    if j > 0 { CandidateParts(base, j); }
    if k > 0 { CandidateParts(base, k); }
    if j > 0 && k > 0 { DecimalsDiffer(j + 1, k + 1); }
  }

  lemma NextCandidate(base: string, k: nat)
    ensures Candidate(base, k + 1) == base + " (" + Decimal(k + 2) + ")"
  {
  }

  function Tried(base: string, k: nat): set<string> {
    if k == 0 then {} else Tried(base, k - 1) + {Candidate(base, k - 1)}
  }

  lemma {:induction false} TriedExact(base: string, k: nat)
    ensures |Tried(base, k)| == k
    ensures forall t :: t in Tried(base, k) ==> exists j: nat :: j < k && t == Candidate(base, j)
  {
    if k > 0 {
      TriedExact(base, k - 1);
      if Candidate(base, k - 1) in Tried(base, k - 1) {
        var j: nat :| j < k - 1 && Candidate(base, k - 1) == Candidate(base, j);
        CandidatesDiffer(base, j, k - 1);
      }
    }
  }

  lemma SubsetSize<T>(a: set<T>, b: set<T>)
    requires a <= b
    ensures |a| <= |b|
  {
    assert b == a + (b - a);
  }

  lemma NoMoreTries(base: string, k: nat, titles: set<string>)
    requires Tried(base, k) <= titles
    ensures k <= |titles|
  {
    TriedExact(base, k);
    SubsetSize(Tried(base, k), titles);
  }

  lemma TriedHas(base: string, k: nat, j: nat)
    requires j < k
    ensures Candidate(base, j) in Tried(base, k)
  {
    if j < k - 1 { TriedHas(base, k - 1, j); }
  }

  /**
   The first candidate that no live task of the project has, after at most as many failed probes as there
   are titles.
   */
  method CopyTitle(base: string, titles: set<string>) returns (title: string, failed: nat)
    ensures title !in titles && title == Candidate(base, failed) && failed <= |titles|
    ensures forall k: nat :: k < failed ==> Candidate(base, k) in titles
  {
    title := base;
    var suffix := 2;
    failed := 0;
    while title in titles
      invariant suffix == failed + 2 && title == Candidate(base, failed)
      invariant Tried(base, failed) <= titles && failed <= |titles|
      decreases |titles| - failed
    {
      assert Tried(base, failed + 1) == Tried(base, failed) + {title};
      NoMoreTries(base, failed + 1, titles);
      NextCandidate(base, failed);
      title := base + " (" + Decimal(suffix) + ")";
      suffix := suffix + 1;
      failed := failed + 1;
    }
    forall k: nat | k < failed ensures Candidate(base, k) in titles { TriedHas(base, failed, k); }
  }

  // ---------------------------------------------------------------- the store

  class Store {
    var projects: map<Id, Project>
    var tasks: map<Id, Task>
    var resources: map<Id, Resource>
    var pins: map<Id, Pin>

    constructor ()
      ensures Tables() == Data(map[], map[], map[], map[])
    {
      projects, tasks, resources, pins := map[], map[], map[], map[];
    }

    function Tables(): Data
      reads this
    {
      Data(projects, tasks, resources, pins)
    }

    /** `COALESCE(MAX(sort_order), -1) + 1` over some rows. */
    method NextPosition(among: set<Id>) returns (next: nat)
      requires among <= projects.Keys
      ensures IsNext(Tables(), among, next)
    {
      next := 0;
      var left := among;
      while left != {}
        invariant left <= among && IsNext(Tables(), among - left, next)
      {
        var p :| p in left;
        left := left - {p};
        if projects[p].sortOrder >= next {
          next := projects[p].sortOrder + 1;
          assert p in among - left;
        }
      }
      assert among - left == among;
    }

    method CreateProject(id: Id, name: string, path: string) returns (r: Result<nat, DbError>)
      requires id !in projects
      modifies this
      ensures r.Ok? <==> !NameTaken(old(Tables()), name, None)
      ensures r.Ok? ==>
        && IsNext(old(Tables()), old(projects).Keys, r.value)
        && Tables() == Records.CreateProject(old(Tables()), id, name, path, r.value)
      ensures r.Err? ==> Tables() == old(Tables())
    {
      var order := NextPosition(projects.Keys);
      if exists p :: p in projects && projects[p].name == name { return Err(Constraint); }
      projects := projects[id := Project(name, path, false, false, order, None, 0, 0)];
      return Ok(order);
    }

    /** Of the trimmed name. */
    method RenameProject(id: Id, name: string) returns (r: Result<Project, DbError>)
      modifies this
      ensures Tables() == Records.RenameProject(old(Tables()), id, name)
      ensures r.Ok? <==> name != "" && LiveProject(old(Tables()), id) && !NameTaken(old(Tables()), name, Some(id))
      ensures r.Ok? ==> id in projects && r.value == projects[id]
    {
      if name == "" { return Err(Validation); }
      if id !in projects || projects[id].deleted { return Err(NotFound); }
      if exists p :: p in projects && projects[p].name == name && p != id { return Err(Constraint); }
      projects := projects[id := projects[id].(name := name, rev := projects[id].rev + 1)];
      return Ok(projects[id]);
    }

    method ArchiveProject(id: Id) returns (r: Result<Project, DbError>)
      modifies this
      ensures Tables() == Records.ArchiveProject(old(Tables()), id)
      ensures r == if LiveProject(old(Tables()), id) then Ok(projects[id]) else Err(NotFound)
    {
      if id !in projects || projects[id].deleted { return Err(NotFound); }
      var p := projects[id];
      projects := projects[id := p.(archived := true, rev := if p.archived then p.rev else p.rev + 1)];
      return Ok(projects[id]);
    }

    method UnarchiveProject(id: Id) returns (r: Result<Project, DbError>)
      modifies this
      ensures exists order ::
        && IsNext(old(Tables()), Unarchived(old(Tables())), order)
        && Tables() == Records.UnarchiveProject(old(Tables()), id, order)
      ensures r == if LiveProject(old(Tables()), id) then Ok(projects[id]) else Err(NotFound)
    {
      var order := NextPosition(Unarchived(Tables()));
      assert Tables() == old(Tables()) && IsNext(Tables(), Unarchived(Tables()), order);
      if id !in projects || projects[id].deleted { return Err(NotFound); }
      if !projects[id].archived { return Ok(projects[id]); }
      var p := projects[id];
      projects := projects[id := p.(archived := false, sortOrder := order, rev := p.rev + 1)];
      return Ok(projects[id]);
    }

    /** The tombstones go down before the rows they are looked up through. */
    method DeleteProject(id: Id)
      modifies this
      ensures Tables() == Records.DeleteProject(old(Tables()), id)
    {
      resources := map r | r in resources ::
        if InProject(tasks, resources[r].task, id) && !resources[r].deleted
        then resources[r].(deleted := true, rev := resources[r].rev + 1) else resources[r];
      pins := map p | p in pins ::
        if InProject(tasks, pins[p].task, id) && !pins[p].deleted
        then pins[p].(deleted := true, rev := pins[p].rev + 1) else pins[p];
      tasks := map t | t in tasks ::
        if tasks[t].project == id && !tasks[t].deleted
        then tasks[t].(deleted := true, rev := tasks[t].rev + 1) else tasks[t];
      projects := map p | p in projects ::
        if p == id && !projects[p].deleted
        then projects[p].(deleted := true, lastTask := None, rev := projects[p].rev + 1) else projects[p];
    }

    method DeleteTask(id: Id)
      modifies this
      ensures Tables() == Records.DeleteTask(old(Tables()), id)
    {
      projects := map p | p in projects ::
        if projects[p].lastTask == Some(id) && !projects[p].deleted
        then projects[p].(lastTask := None, rev := projects[p].rev + 1) else projects[p];
      resources := map r | r in resources ::
        if resources[r].task == id && !resources[r].deleted
        then resources[r].(deleted := true, rev := resources[r].rev + 1) else resources[r];
      pins := map p | p in pins ::
        if pins[p].task == id && !pins[p].deleted
        then pins[p].(deleted := true, rev := pins[p].rev + 1) else pins[p];
      tasks := map t | t in tasks ::
        if t == id && !tasks[t].deleted
        then tasks[t].(deleted := true, rev := tasks[t].rev + 1) else tasks[t];
    }

    /** The two checks of `reorder_projects`: no repetition, and the active projects exactly. */
    method CheckOrder(ordered: seq<Id>) returns (ok: bool)
      ensures ok <==> IsOrder(Tables(), ordered)
    {
      var seen: set<Id> := {};
      for i := 0 to |ordered|
        invariant seen == set id | id in ordered[..i]
        invariant forall j, k :: 0 <= j < k < i ==> ordered[j] != ordered[k]
      {
        assert ordered[..i + 1] == ordered[..i] + [ordered[i]];
        if ordered[i] in seen {
          var j :| 0 <= j < i && ordered[..i][j] == ordered[i];
          assert ordered[j] == ordered[i];
          return false;
        }
        seen := seen + {ordered[i]};
      }
      assert ordered[..|ordered|] == ordered;
      var active := set p | p in projects && !projects[p].archived && !projects[p].deleted;
      ok := seen == active;
      assert forall id :: id in seen <==> id in ordered;
      assert forall id :: id in active <==> Active(Tables(), id);
    }

    method ReorderProjects(ordered: seq<Id>) returns (r: Result<(), DbError>)
      modifies this
      ensures r.Ok? <==> IsOrder(old(Tables()), ordered)
      ensures Tables() == if r.Ok? then Reordered(old(Tables()), ordered) else old(Tables())
    {
      var ok := CheckOrder(ordered);
      if !ok { return Err(Validation); }
      for position := 0 to |ordered|
        invariant tasks == old(tasks) && resources == old(resources) && pins == old(pins)
        invariant projects == Placed(old(projects), ordered, position)
      {
        var id := ordered[position];
        assert Active(old(Tables()), id);
        PlacedNext(old(Tables()), ordered, position);
        projects := projects[id := Moved(projects[id], position)];
      }
      PlacedAll(old(Tables()), ordered);
      return Ok(());
    }

    method BeginProjectSession(task: Id) returns (r: Result<(), DbError>)
      requires task in tasks ==> tasks[task].project in projects
      modifies this`projects
      ensures Tables() == BeginSession(old(Tables()), task)
      ensures r.Ok? <==> LiveTask(old(Tables()), task) && !old(projects)[tasks[task].project].archived
    {
      if task !in tasks || tasks[task].deleted { return Err(NotFound); }
      var id := tasks[task].project;
      if projects[id].archived { return Err(NotFound); }
      projects := projects[id := projects[id].(lastTask := Some(task), activeSeconds := 0,
        rev := projects[id].rev + 1)];
      return Ok(());
    }

    method CreateTask(id: Id, project: Id, title: string) returns (r: Result<Task, DbError>)
      requires id !in tasks
      modifies this`tasks
      ensures Tables() == Records.CreateTask(old(Tables()), id, project, title)
      ensures r == if project in projects then Ok(tasks[id]) else Err(Constraint)
    {
      if project !in projects { return Err(Constraint); }
      tasks := tasks[id := Task(project, title, false, false, 0)];
      return Ok(tasks[id]);
    }

    method AddTaskResource(id: Id, task: Id, kind: string, resourceType: string, payload: Payload)
        returns (r: Result<Resource, DbError>)
      requires id !in resources
      modifies this`resources
      ensures Tables() == AddResource(old(Tables()), id, task, kind, resourceType, payload)
      ensures r == if task in tasks then Ok(resources[id]) else Err(Constraint)
    {
      if task !in tasks { return Err(Constraint); }
      resources := resources[id := Resource(task, kind, resourceType, payload, false, 0)];
      return Ok(resources[id]);
    }

    /** A recapture: purge, insert and the parent's revision in one transaction. */
    method ReplaceTaskResources(id: Id, task: Id, kind: string, resourceType: string, payload: Payload)
        returns (r: Result<Id, DbError>)
      modifies this
      ensures Tables() == ReplaceResources(old(Tables()), id, task, kind, resourceType, payload)
      ensures r == if LiveTask(old(Tables()), task) then Ok(id) else Err(NotFound)
    {
      if task !in tasks || tasks[task].deleted { return Err(NotFound); }
      resources := resources - Captured(Tables(), task, kind);
      resources := resources[id := Resource(task, kind, resourceType, payload, false, 0)];
      tasks := tasks[task := tasks[task].(rev := tasks[task].rev + 1)];
      return Ok(id);
    }

    method AddTaskPin(id: Id, task: Id, kind: string, identity: string, payload: Payload)
        returns (r: Result<(), DbError>)
      modifies this
      ensures Tables() == AddPin(old(Tables()), id, task, kind, identity, payload)
      ensures r.Ok? <==> LiveTask(old(Tables()), task)
    {
      if task !in tasks || tasks[task].deleted { return Err(NotFound); }
      if exists p :: p in pins && IsPin(Tables(), p, task, kind, identity) {
        pins := map p | p in pins ::
          if IsPin(Tables(), p, task, kind, identity)
          then pins[p].(payload := payload, deleted := false, rev := pins[p].rev + 1) else pins[p];
      } else {
        pins := pins[id := Pin(task, kind, identity, payload, false, 0)];
      }
      return Ok(());
    }

    /** True when a live pin was there. */
    method RemoveTaskPin(task: Id, kind: string, identity: string) returns (removed: bool)
      modifies this
      ensures Tables() == RemovePin(old(Tables()), task, kind, identity)
      ensures removed <==> exists p ::
        p in old(pins) && IsPin(old(Tables()), p, task, kind, identity) && !old(pins)[p].deleted
    {
      removed := exists p :: p in pins && IsPin(Tables(), p, task, kind, identity) && !pins[p].deleted;
      pins := map p | p in pins ::
        if IsPin(Tables(), p, task, kind, identity) && !pins[p].deleted
        then pins[p].(deleted := true, rev := pins[p].rev + 1) else pins[p];
    }

    /** The titles that `EXISTS (…)` looks through. */
    function LiveTitles(project: Id): set<string>
      reads this
    {
      set t | t in tasks && tasks[t].project == project && !tasks[t].deleted :: tasks[t].title
    }

    /** The loop over the live resources of the source. */
    method CopyResources(id: Id, copy: Id, ids: map<Id, Id>)
      requires NewIds(Tables(), LiveResources(Tables(), id), ids)
      modifies this`resources
      ensures resources == old(resources) + CopiedRows(old(Tables()), LiveResources(old(Tables()), id), ids, copy)
    {
      var rows := LiveResources(Tables(), id);
      var left := rows;
      ghost var d := Tables();
      while left != {}
        invariant left <= rows && resources == d.resources + CopiedRows(d, rows - left, ids, copy)
      {
        var row :| row in left;
        CopyNext(d, rows, left, ids, copy, row);
        resources := resources[ids[row] := CopyOf(resources[row], copy)];
        left := left - {row};
      }
      assert rows - left == rows;
    }

    /** A copy under the first free title, with a copy of every live resource. */
    method DuplicateTask(id: Id, copy: Id, ids: map<Id, Id>) returns (r: Result<string, DbError>)
      requires copy !in tasks && NewIds(Tables(), LiveResources(Tables(), id), ids)
      modifies this
      ensures r.Ok? <==> LiveTask(old(Tables()), id)
      ensures r.Ok? ==> Tables() == Records.DuplicateTask(old(Tables()), id, copy, r.value, ids)
      ensures r.Ok? ==> r.value !in old(LiveTitles(tasks[id].project))
      ensures r.Ok? ==> exists k: nat :: r.value == Candidate("Copy of " + old(tasks)[id].title, k)
      ensures r.Err? ==> Tables() == old(Tables())
    {
      if id !in tasks || tasks[id].deleted { return Err(NotFound); }
      var title, failed := CopyTitle("Copy of " + tasks[id].title, LiveTitles(tasks[id].project));
      CopyResources(id, copy, ids);
      tasks := tasks[copy := Task(tasks[id].project, title, false, false, 0)];
      return Ok(title);
    }
  }

  lemma CopyOneMore(d: Data, rows: set<Id>, ids: map<Id, Id>, copy: Id, row: Id)
    requires rows + {row} <= d.resources.Keys && NewIds(d, rows + {row}, ids) && row !in rows
    ensures d.resources + CopiedRows(d, rows + {row}, ids, copy) ==
      (d.resources + CopiedRows(d, rows, ids, copy))[ids[row] := CopyOf(d.resources[row], copy)]
    ensures (d.resources + CopiedRows(d, rows, ids, copy))[row] == d.resources[row]
  {
  }

  lemma CopyNext(d: Data, rows: set<Id>, left: set<Id>, ids: map<Id, Id>, copy: Id, row: Id)
    requires rows <= d.resources.Keys && NewIds(d, rows, ids) && row in left && left <= rows
    ensures d.resources + CopiedRows(d, rows - (left - {row}), ids, copy) ==
      (d.resources + CopiedRows(d, rows - left, ids, copy))[ids[row] := CopyOf(d.resources[row], copy)]
    ensures (d.resources + CopiedRows(d, rows - left, ids, copy))[row] == d.resources[row]
  {
    assert rows - (left - {row}) == rows - left + {row};
    CopyOneMore(d, rows - left, ids, copy, row);
  }

  /** The projects after the first updates of a reorder. */
  function Placed(projects: map<Id, Project>, ordered: seq<Id>, n: nat): map<Id, Project>
    requires n <= |ordered|
  {
    map p | p in projects :: if p in ordered[..n] then Moved(projects[p], IndexOf(ordered[..n], p)) else projects[p]
  }

  lemma {:induction false} IndexOfPrefix(ids: seq<Id>, n: nat, id: Id)
    requires n <= |ids| && id in ids[..n]
    ensures id in ids && IndexOf(ids, id) == IndexOf(ids[..n], id)
    decreases n
  {
    assert ids[..n][0] == ids[0];
    if ids[0] != id {
      assert ids[..n][1..] == ids[1..][..n - 1];
      IndexOfPrefix(ids[1..], n - 1, id);
    }
  }

  lemma {:induction false} IndexOfLast(ids: seq<Id>, id: Id)
    requires id !in ids
    ensures IndexOf(ids + [id], id) == |ids|
  {
    if ids != [] {
      assert (ids + [id])[1..] == ids[1..] + [id];
      IndexOfLast(ids[1..], id);
    }
  }

  lemma PlacedNext(d: Data, ordered: seq<Id>, n: nat)
    requires IsOrder(d, ordered) && n < |ordered| && ordered[n] in d.projects
    ensures ordered[n] in Placed(d.projects, ordered, n)
    ensures Placed(d.projects, ordered, n + 1) ==
      Placed(d.projects, ordered, n)[ordered[n] := Moved(Placed(d.projects, ordered, n)[ordered[n]], n)]
  {
    var front := ordered[..n];
    assert ordered[..n + 1] == front + [ordered[n]];
    IndexOfLast(front, ordered[n]);
    forall p | p in front ensures IndexOf(front + [ordered[n]], p) == IndexOf(front, p) {
      assert (front + [ordered[n]])[..n] == front;
      IndexOfPrefix(front + [ordered[n]], n, p);
    }
  }

  lemma PlacedAll(d: Data, ordered: seq<Id>)
    ensures Placed(d.projects, ordered, |ordered|) == Reordered(d, ordered).projects
  {
    assert ordered[..|ordered|] == ordered;
  }
}
