/** The concurrent protocol of the capsule orchestrator. */
module CapsuleProtocol {
  import opened Common

  // Activations, archives and deletions, heartbeats and the reconnect continuation are interleaved between the
  // points where they take locks or touch the shared fields.
  //
  // `task_resources_lock` serializes the removals of captured items, which touch nothing else here: `editing` says
  // that one is under way.
  //
  // `activation_archive_lock` admits one operation at a time, `transition_lock` orders session writes and
  // `continuation_lock` covers each continuation command's generation check and send. An activation takes
  // all three; an archive or a deletion bumps the generation without the continuation lock.

  /** What the continuation sends: the files, and then the terminals. */
  datatype Command = OpenFile(path: string) | CreateTerminal(cwd: string, name: Option<string>)

  /** The one restore that waits for an editor to reconnect. `id` only tells restores apart. */
  datatype Pending = Pending(id: nat, kind: string, generation: nat, commands: seq<Command>)

  /** Who holds a lock. */
  datatype Holder = Nobody | Operation | Heartbeat | Continuation

  /** The shared state when an operation started. */
  datatype Snapshot = Snapshot(active: Option<string>, pending: Option<Pending>, generation: nat)

  datatype ActivationPhase =
    | ReadTarget | AwaitFlush | Flush | AwaitContinuation | SavePrevious | AwaitCommit | Persist
    | Bump | EmptySlot | SetActive | ResetSession | ReleaseContinuation | ReadPins | Restore

  datatype Removal = Archive | Delete

  datatype RemovalPhase =
    | AwaitFirst | FlushFirst | Work | AwaitSecond | Change | Forget | EmptyFirst | BumpLast | ResetLast

  /** What holds the operation lock. */
  datatype Job =
    | NoJob
    | Activation(phase: ActivationPhase, task: string, generation: nat, before: Snapshot)
    | Removing(step: RemovalPhase, removal: Removal, belongs: bool, before: Snapshot)

  /** The single continuation task. */
  datatype Loop =
    | Listening
    | Settling(p: Pending)
    | Applying(p: Pending, left: seq<Command>)
    | Entered(p: Pending, left: seq<Command>)
    | Checked(p: Pending, left: seq<Command>)
    | Sending(p: Pending, left: seq<Command>)

  datatype Event =
    | Committed(generation: nat)
    | Superseded(generation: nat)
    | Taken(id: nat)
    | Started(generation: nat, command: Command)
    | Ended(generation: nat, command: Command)
    | Returned(ok: bool, bumped: bool)

  datatype State = State(
    active: Option<string>, pending: Option<Pending>, generation: nat,
    job: Job, loop: Loop, transition: Holder, continuation: Holder, editing: bool,
    nextId: nat, log: seq<Event>)

  datatype Step =
    | Activate(task: string)
    | Remove(removal: Removal, belongs: bool)
    | Advance(ok: bool)
    | Park(kind: string, commands: seq<Command>)
    | BeginHeartbeat
    | EndHeartbeat
    | BeginEdit
    | EndEdit
    | Connected(kind: string)
    | Settled
    | Enter
    | Check
    | Send
    | Reply

  function Init(): State {
    State(None, None, 0, NoJob, Listening, Nobody, Nobody, false, 0, [])
  }

  function Now(s: State): Snapshot {
    Snapshot(s.active, s.pending, s.generation)
  }

  /** Whether the holder of the operation lock can go on. */
  predicate CanAdvance(s: State) {
    match s.job
    case NoJob => false
    case Activation(phase, _, _, _) =>
      && (phase in {AwaitFlush, AwaitCommit} ==> s.transition == Nobody)
      && (phase == AwaitContinuation ==> s.continuation == Nobody)
    case Removing(step, _, _, _) =>
      step in {AwaitFirst, AwaitSecond} ==> s.transition == Nobody
  }

  predicate Can(s: State, e: Step) {
    match e
    case Activate(_) => s.job.NoJob?
    case Remove(_, belongs) => s.job.NoJob? && (belongs ==> s.active.Some?)
    case Advance(_) => CanAdvance(s)
    case Park(_, _) => s.job.Activation? && s.job.phase == Restore
    case BeginHeartbeat => s.transition == Nobody
    case EndHeartbeat => s.transition == Heartbeat
    case BeginEdit => !s.editing
    case EndEdit => s.editing
    case Connected(_) => s.loop.Listening?
    case Settled => s.loop.Settling?
    case Enter => s.loop.Applying? && (s.loop.left != [] ==> s.continuation == Nobody)
    case Check => s.loop.Entered?
    case Send => s.loop.Checked? && s.loop.left != []
    case Reply => s.loop.Sending? && s.loop.left != []
  }

  /** The operation returns and releases its lock. */
  function Return(s: State, ok: bool, before: Snapshot): State {
    s.(job := NoJob, log := s.log + [Returned(ok, s.generation != before.generation)])
  }

  function AdvanceActivation(s: State, ok: bool): State
    requires s.job.Activation?
  {
    var j := s.job;
    match j.phase
    case ReadTarget => if ok then s.(job := j.(phase := AwaitFlush)) else Return(s, false, j.before)
    case AwaitFlush => s.(job := j.(phase := Flush), transition := Operation)
    case Flush =>
      if ok then s.(job := j.(phase := AwaitContinuation), transition := Nobody)
      else Return(s.(transition := Nobody), false, j.before)
    case AwaitContinuation => s.(job := j.(phase := SavePrevious), continuation := Operation)
    case SavePrevious => s.(job := j.(phase := AwaitCommit))
    case AwaitCommit => s.(job := j.(phase := Persist), transition := Operation)
    case Persist =>
      if ok then s.(job := j.(phase := Bump))
      else Return(s.(transition := Nobody, continuation := Nobody), false, j.before)
    case Bump =>
      s.(generation := s.generation + 1, job := j.(phase := EmptySlot, generation := s.generation + 1),
         log := s.log + [Committed(s.generation + 1)])
    case EmptySlot => s.(pending := None, job := j.(phase := SetActive))
    case SetActive => s.(active := Some(j.task), job := j.(phase := ResetSession))
    case ResetSession => s.(job := j.(phase := ReleaseContinuation), transition := Nobody)
    case ReleaseContinuation => s.(job := j.(phase := ReadPins), continuation := Nobody)
    case ReadPins => if ok then s.(job := j.(phase := Restore)) else Return(s, false, j.before)
    case Restore => Return(s, true, j.before)
  }

  /** `archive_project`, `delete_task` and `delete_project`. */
  function AdvanceRemoval(s: State, ok: bool): State
    requires s.job.Removing?
  {
    var j := s.job;
    match j.step
    case AwaitFirst => s.(job := j.(step := FlushFirst), transition := Operation)
    case FlushFirst =>
      if ok then s.(job := j.(step := Work), transition := Nobody)
      else Return(s.(transition := Nobody), false, j.before)
    case Work =>
      if j.removal.Archive? then s.(job := j.(step := AwaitSecond))
      else if !ok then Return(s, false, j.before)
      else if j.belongs then s.(job := j.(step := AwaitSecond))
      else Return(s, true, j.before)
    case AwaitSecond => s.(job := j.(step := Change), transition := Operation)
    case Change =>
      if j.removal.Archive? && !ok then Return(s.(transition := Nobody), false, j.before)
      else if j.belongs then s.(job := j.(step := Forget))
      else Return(s.(transition := Nobody), true, j.before)
    case Forget => s.(active := None, job := j.(step := EmptyFirst))
    case EmptyFirst => s.(pending := None, job := j.(step := BumpLast))
    case BumpLast =>
      s.(generation := s.generation + 1, job := j.(step := ResetLast),
         log := s.log + [Superseded(s.generation + 1)])
    case ResetLast => Return(s.(transition := Nobody), true, j.before)
  }

  function TakePending(s: State, kind: string): State {
    if s.pending.Some? && s.pending.value.kind == kind then
      s.(pending := None, loop := Settling(s.pending.value), log := s.log + [Taken(s.pending.value.id)])
    else s
  }

  function Do(s: State, e: Step): State
    requires Can(s, e)
  {
    match e
    case Activate(task) => s.(job := Activation(ReadTarget, task, s.generation, Now(s)))
    case Remove(removal, belongs) => s.(job := Removing(AwaitFirst, removal, belongs, Now(s)))
    case Advance(ok) => if s.job.Activation? then AdvanceActivation(s, ok) else AdvanceRemoval(s, ok)
    case Park(kind, commands) =>
      s.(pending := Some(Pending(s.nextId, kind, s.job.generation, commands)), nextId := s.nextId + 1)
    case BeginHeartbeat => s.(transition := Heartbeat)
    case EndHeartbeat => s.(transition := Nobody)
    case BeginEdit => s.(editing := true)
    case EndEdit => s.(editing := false)
    case Connected(kind) => TakePending(s, kind)
    case Settled =>
      var p := s.loop.p;
      s.(loop := if s.generation == p.generation then Applying(p, p.commands) else Listening)
    case Enter =>
      if s.loop.left == [] then s.(loop := Listening)
      else s.(loop := Entered(s.loop.p, s.loop.left), continuation := Continuation)
    case Check =>
      if s.generation == s.loop.p.generation then s.(loop := Checked(s.loop.p, s.loop.left))
      else s.(loop := Listening, continuation := Nobody)
    case Send =>
      s.(loop := Sending(s.loop.p, s.loop.left), log := s.log + [Started(s.loop.p.generation, s.loop.left[0])])
    case Reply =>
      s.(loop := Applying(s.loop.p, s.loop.left[1..]), continuation := Nobody,
         log := s.log + [Ended(s.loop.p.generation, s.loop.left[0])])
  }

  /** A run: each step is possible in the state the earlier ones lead to. */
  ghost predicate IsRun(steps: seq<Step>)
    decreases |steps|, 0
  {
    steps == [] || (IsRun(steps[..|steps| - 1]) && Can(Final(steps[..|steps| - 1]), steps[|steps| - 1]))
  }

  ghost function Final(steps: seq<Step>): State
    requires IsRun(steps)
    decreases |steps|, 1
  {
    if steps == [] then Init() else Do(Final(steps[..|steps| - 1]), steps[|steps| - 1])
  }

  // ---------------------------------------------------------------- locks and slots

  /** The operation is between taking the transition lock and giving it back. */
  predicate JobHoldsTransition(j: Job) {
    || (j.Activation? && j.phase in {Flush, Persist, Bump, EmptySlot, SetActive, ResetSession})
    || (j.Removing? && j.step in {FlushFirst, Change, Forget, EmptyFirst, BumpLast, ResetLast})
  }

  predicate JobHoldsContinuation(j: Job) {
    j.Activation? && j.phase in {SavePrevious, AwaitCommit, Persist, Bump, EmptySlot, SetActive, ResetSession,
      ReleaseContinuation}
  }

  predicate LoopHoldsContinuation(l: Loop) {
    l.Entered? || l.Checked? || l.Sending?
  }

  /** Every lock is held by exactly the party that is inside its section. */
  predicate Locked(s: State) {
    && (s.transition == Operation <==> JobHoldsTransition(s.job))
    && s.transition != Continuation
    && (s.continuation == Operation <==> JobHoldsContinuation(s.job))
    && (s.continuation == Continuation <==> LoopHoldsContinuation(s.loop))
    && s.continuation != Heartbeat
    && (s.loop.Entered? || s.loop.Checked? || s.loop.Sending? ==> s.loop.left != [])
  }

  /** Phases before the activation's durable session write has been followed by the bump. */
  predicate BeforeCommit(phase: ActivationPhase) {
    phase in {ReadTarget, AwaitFlush, Flush, AwaitContinuation, SavePrevious, AwaitCommit, Persist, Bump}
  }

  /** Phases before a removal touches the shared state. */
  predicate BeforeForget(step: RemovalPhase) {
    step in {AwaitFirst, FlushFirst, Work, AwaitSecond, Change, Forget}
  }

  /** The slot belongs to the current generation, but for the moment between an activation's bump and its clearing. */
  predicate Slotted(s: State) {
    && (s.pending.Some? ==>
        if s.job.Activation? && s.job.phase == EmptySlot then s.pending.value.generation < s.generation
        else s.pending.value.generation == s.generation)
    && (s.job.Activation? && !BeforeCommit(s.job.phase) ==> s.job.generation == s.generation)
    && (s.job.Removing? && s.job.step in {BumpLast, ResetLast} ==> s.pending.None?)
    && (!s.loop.Listening? ==> s.loop.p.generation <= s.generation)
  }

  lemma LockedActivation(s: State, ok: bool)
    requires Locked(s) && CanAdvance(s) && s.job.Activation?
    ensures Locked(AdvanceActivation(s, ok))
  {
  }

  lemma RemovalEnters(s: State, ok: bool)
    requires Locked(s) && s.job.Removing? && s.job.step in {AwaitFirst, FlushFirst, Work, AwaitSecond}
    ensures var t := AdvanceRemoval(s, ok);
      (t.transition == Operation <==> JobHoldsTransition(t.job)) && t.transition != Continuation
  {
  }

  lemma RemovalLeaves(s: State, ok: bool)
    requires Locked(s) && s.job.Removing? && s.job.step !in {AwaitFirst, FlushFirst, Work, AwaitSecond}
    ensures var t := AdvanceRemoval(s, ok);
      (t.transition == Operation <==> JobHoldsTransition(t.job)) && t.transition != Continuation
  {
  }

  lemma RemovalContinuation(s: State, ok: bool)
    requires s.job.Removing?
    ensures var t := AdvanceRemoval(s, ok);
      t.continuation == s.continuation && t.loop == s.loop && !JobHoldsContinuation(t.job)
  {
  }

  lemma LockedRemoval(s: State, ok: bool)
    requires Locked(s) && s.job.Removing?
    ensures Locked(AdvanceRemoval(s, ok))
  {
    if s.job.step in {AwaitFirst, FlushFirst, Work, AwaitSecond} {
      RemovalEnters(s, ok);
    } else {
      RemovalLeaves(s, ok);
    }
    RemovalContinuation(s, ok);
  }

  lemma LockedStep(s: State, e: Step)
    requires Locked(s) && Can(s, e)
    ensures Locked(Do(s, e))
  {
    if e.Advance? {
      if s.job.Activation? { LockedActivation(s, e.ok); } else { LockedRemoval(s, e.ok); }
    }
  }

  lemma SlottedActivation(s: State, ok: bool)
    requires Slotted(s) && CanAdvance(s) && s.job.Activation?
    ensures Slotted(AdvanceActivation(s, ok))
  {
  }

  lemma SlottedRemoval(s: State, ok: bool)
    requires Slotted(s) && CanAdvance(s) && s.job.Removing?
    ensures Slotted(AdvanceRemoval(s, ok))
  {
  }

  lemma SlottedStep(s: State, e: Step)
    requires Slotted(s) && Can(s, e)
    ensures Slotted(Do(s, e))
  {
    if e.Advance? {
      if s.job.Activation? { SlottedActivation(s, e.ok); } else { SlottedRemoval(s, e.ok); }
    }
  }

  // ---------------------------------------------------------------- what the log says

  predicate IsBump(e: Event) {
    e.Committed? || e.Superseded?
  }

  predicate IsCommand(e: Event) {
    e.Started? || e.Ended?
  }

  /** Every bump so far is to at most `g`. */
  ghost predicate BumpsUpTo(log: seq<Event>, g: nat) {
    forall i :: 0 <= i < |log| && IsBump(log[i]) ==> log[i].generation <= g
  }

  ghost predicate CommitsUpTo(log: seq<Event>, g: nat) {
    forall i :: 0 <= i < |log| && log[i].Committed? ==> log[i].generation <= g
  }

  /** No command starts or ends for a generation older than an activation that was committed before. */
  ghost predicate Ordered(log: seq<Event>) {
    forall i, j :: 0 <= i < j < |log| && log[i].Committed? && IsCommand(log[j]) ==>
      log[i].generation <= log[j].generation
  }

  /** Whether the last command started has not ended. */
  ghost predicate InFlight(log: seq<Event>) {
    log != [] && (log[|log| - 1].Started? || (!log[|log| - 1].Ended? && InFlight(log[..|log| - 1])))
  }

  /** No command is in flight while an activation is committed. */
  ghost predicate CommitsAlone(log: seq<Event>) {
    forall i :: 0 <= i < |log| && log[i].Committed? ==> !InFlight(log[..i])
  }

  lemma InFlightMore(log: seq<Event>, e: Event)
    ensures InFlight(log + [e]) == (e.Started? || (!e.Ended? && InFlight(log)))
  {
    assert (log + [e])[..|log|] == log;
  }

  lemma CommitsAloneMore(log: seq<Event>, e: Event)
    requires CommitsAlone(log) && (e.Committed? ==> !InFlight(log))
    ensures CommitsAlone(log + [e])
  {
    var more := log + [e];
    forall i | 0 <= i < |more| && more[i].Committed? ensures !InFlight(more[..i]) {
      assert more[..i] == log[..i];
      assert log[..|log|] == log;
    }
  }

  /** The commands of the continuation never overlap or follow the commit of a newer activation. */
  ghost predicate Fenced(s: State) {
    && Ordered(s.log) && CommitsAlone(s.log) && BumpsUpTo(s.log, s.generation)
    && (InFlight(s.log) <==> s.loop.Sending?)
    && (s.loop.Checked? || s.loop.Sending? ==> CommitsUpTo(s.log, s.loop.p.generation))
  }

  lemma FencedAppend(s: State, t: State, x: Event)
    requires Fenced(s) && t.log == s.log + [x] && s.generation <= t.generation
    requires IsBump(x) ==> x.generation <= t.generation
    requires x.Committed? ==> !LoopHoldsContinuation(t.loop) && !s.loop.Sending?
    requires IsCommand(x) ==> CommitsUpTo(s.log, x.generation)
    requires t.loop.Sending? <==> (x.Started? || (!x.Ended? && s.loop.Sending?))
    requires t.loop.Checked? || t.loop.Sending? ==> (s.loop.Checked? || s.loop.Sending?) && t.loop.p == s.loop.p
    ensures Fenced(t)
  {
    InFlightMore(s.log, x);
    CommitsAloneMore(s.log, x);
  }

  /** What an operation's step may log. */
  ghost predicate JobLogs(s: State, t: State) {
    || (t.log == s.log && t.generation == s.generation)
    || (t.log == s.log + [Committed(t.generation)] && t.generation == s.generation + 1 && s.continuation == Operation)
    || (t.log == s.log + [Superseded(t.generation)] && t.generation == s.generation + 1)
    || (exists ok, bumped :: t.log == s.log + [Returned(ok, bumped)] && t.generation == s.generation)
  }

  lemma ActivationLogs(s: State, ok: bool)
    requires Locked(s) && CanAdvance(s) && s.job.Activation?
    ensures var t := AdvanceActivation(s, ok);
      JobLogs(s, t) && t.loop == s.loop && t.nextId == s.nextId && (t.pending == s.pending || t.pending.None?)
    ensures AdvanceActivation(s, ok).transition == Heartbeat ==> s.transition == Heartbeat
  {
  }

  lemma RemovalLogs(s: State, ok: bool)
    requires CanAdvance(s) && s.job.Removing?
    ensures var t := AdvanceRemoval(s, ok);
      JobLogs(s, t) && t.loop == s.loop && t.nextId == s.nextId && (t.pending == s.pending || t.pending.None?)
    ensures AdvanceRemoval(s, ok).transition == Heartbeat ==> s.transition == Heartbeat
  {
  }

  lemma FencedJob(s: State, t: State)
    requires Locked(s) && Fenced(s) && JobLogs(s, t) && t.loop == s.loop
    ensures Fenced(t)
  {
    if t.log != s.log { FencedAppend(s, t, t.log[|s.log|]); }
  }

  lemma FencedAdvance(s: State, ok: bool)
    requires Locked(s) && Fenced(s) && CanAdvance(s)
    ensures Fenced(Do(s, Advance(ok)))
  {
    if s.job.Activation? { ActivationLogs(s, ok); } else { RemovalLogs(s, ok); }
    FencedJob(s, Do(s, Advance(ok)));
  }

  lemma FencedLogging(s: State, e: Step)
    requires Locked(s) && Slotted(s) && Fenced(s) && Can(s, e) && (e.Connected? || e.Send? || e.Reply?)
    ensures Fenced(Do(s, e))
  {
    var t := Do(s, e);
    if t.log != s.log { FencedAppend(s, t, t.log[|s.log|]); }
  }

  lemma FencedQuiet(s: State, e: Step)
    requires Locked(s) && Slotted(s) && Fenced(s) && Can(s, e) && !e.Advance? && !e.Connected? && !e.Send? && !e.Reply?
    ensures Fenced(Do(s, e))
  {
  }

  lemma FencedStep(s: State, e: Step)
    requires Locked(s) && Slotted(s) && Fenced(s) && Can(s, e)
    ensures Fenced(Do(s, e))
  {
    if e.Advance? {
      FencedAdvance(s, e.ok);
    } else if e.Connected? || e.Send? || e.Reply? {
      FencedLogging(s, e);
    } else {
      FencedQuiet(s, e);
    }
  }

  // ---------------------------------------------------------------- after an archive or a deletion

  /** How many commands of generations before `g` start, */
  ghost function Starts(log: seq<Event>, g: nat): nat {
    if log == [] then 0
    else
      var last := log[|log| - 1];
      Starts(log[..|log| - 1], g) + (if last.Started? && last.generation < g then 1 else 0)
  }

  /** and how many end. */
  ghost function Ends(log: seq<Event>, g: nat): nat {
    if log == [] then 0
    else
      var last := log[|log| - 1];
      Ends(log[..|log| - 1], g) + (if last.Ended? && last.generation < g then 1 else 0)
  }

  ghost function Due(l: Loop, g: nat): nat {
    if l.Checked? && l.p.generation < g then 1 else 0
  }

  ghost function Unanswered(l: Loop, g: nat): nat {
    if (l.Checked? || l.Sending?) && l.p.generation < g then 1 else 0
  }

  /** After a bump to `g`, one older command whose check came first may still start and end, and no more. */
  ghost predicate LateAt(log: seq<Event>, l: Loop, i: nat)
    requires i < |log| && IsBump(log[i])
  {
    && Starts(log[i + 1..], log[i].generation) + Due(l, log[i].generation) <= 1
    && Ends(log[i + 1..], log[i].generation) + Unanswered(l, log[i].generation) <= 1
  }

  ghost predicate Late(log: seq<Event>, l: Loop) {
    forall i :: 0 <= i < |log| && IsBump(log[i]) ==> LateAt(log, l, i)
  }

  lemma CountMore(log: seq<Event>, x: Event, g: nat)
    ensures Starts(log + [x], g) == Starts(log, g) + (if x.Started? && x.generation < g then 1 else 0)
    ensures Ends(log + [x], g) == Ends(log, g) + (if x.Ended? && x.generation < g then 1 else 0)
  {
    assert (log + [x])[..|log|] == log;
  }

  lemma LateMore(log: seq<Event>, l: Loop, x: Event, l': Loop)
    requires Late(log, l)
    requires x.Started? ==> l.Checked? && l'.Sending? && l'.p == l.p && x.generation == l.p.generation
    requires x.Ended? ==> l.Sending? && l'.Applying? && x.generation == l.p.generation
    requires !IsCommand(x) ==> l' == l || l'.Settling?
    ensures Late(log + [x], l')
  {
    var more := log + [x];
    forall i | 0 <= i < |more| && IsBump(more[i]) ensures LateAt(more, l', i) {
      if i < |log| {
        assert LateAt(log, l, i);
        assert more[i + 1..] == log[i + 1..] + [x];
        CountMore(log[i + 1..], x, more[i].generation);
      } else {
        assert more[i + 1..] == [];
      }
    }
  }

  lemma LateQuiet(s: State, l: Loop)
    requires Late(s.log, s.loop) && BumpsUpTo(s.log, s.generation)
    requires (l.Checked? && l.p.generation == s.generation) || !(l.Checked? || l.Sending?)
    ensures Late(s.log, l)
  {
    forall i | 0 <= i < |s.log| && IsBump(s.log[i]) ensures LateAt(s.log, l, i) {
      assert LateAt(s.log, s.loop, i);
    }
  }

  lemma LateStep(s: State, e: Step)
    requires Locked(s) && Fenced(s) && Late(s.log, s.loop) && Can(s, e)
    ensures Late(Do(s, e).log, Do(s, e).loop)
  {
    var t := Do(s, e);
    if e.Advance? {
      if s.job.Activation? { ActivationLogs(s, e.ok); } else { RemovalLogs(s, e.ok); }
      if t.log != s.log { LateMore(s.log, s.loop, t.log[|s.log|], t.loop); }
    } else if t.log != s.log {
      LateMore(s.log, s.loop, t.log[|s.log|], t.loop);
    } else if t.loop != s.loop {
      LateQuiet(s, t.loop);
    }
  }

  // ---------------------------------------------------------------- each restore is consumed once

  ghost predicate TakenOnce(s: State) {
    && (forall i, j :: 0 <= i < j < |s.log| && s.log[i].Taken? && s.log[j].Taken? ==> s.log[i].id != s.log[j].id)
    && (forall i :: 0 <= i < |s.log| && s.log[i].Taken? ==> s.log[i].id < s.nextId)
    && (s.pending.Some? ==> s.pending.value.id < s.nextId)
    && (forall i :: 0 <= i < |s.log| && s.log[i].Taken? && s.pending.Some? ==> s.log[i].id != s.pending.value.id)
  }

  lemma TakenMore(s: State, t: State, x: Event)
    requires TakenOnce(s) && t.log == s.log + [x] && t.nextId == s.nextId
    requires x.Taken? ==> s.pending.Some? && x.id == s.pending.value.id && t.pending.None?
    requires !x.Taken? ==> t.pending == s.pending || t.pending.None?
    ensures TakenOnce(t)
  {
  }

  lemma TakenJob(s: State, t: State)
    requires TakenOnce(s) && JobLogs(s, t) && t.nextId == s.nextId && (t.pending == s.pending || t.pending.None?)
    ensures TakenOnce(t)
  {
    if t.log != s.log { TakenMore(s, t, t.log[|s.log|]); }
  }

  lemma TakenStep(s: State, e: Step)
    requires Locked(s) && TakenOnce(s) && Can(s, e)
    ensures TakenOnce(Do(s, e))
  {
    var t := Do(s, e);
    if e.Advance? {
      if s.job.Activation? { ActivationLogs(s, e.ok); } else { RemovalLogs(s, e.ok); }
      TakenJob(s, t);
    } else if t.log != s.log {
      TakenMore(s, t, t.log[|s.log|]);
    }
  }

  // ---------------------------------------------------------------- a failed activation changes nothing

  /** The slot is as it was, unless the continuation took what was in it. */
  predicate SlotKept(before: Option<Pending>, slot: Option<Pending>, log: seq<Event>) {
    slot == before || (slot.None? && before.Some? && Taken(before.value.id) in log)
  }

  predicate Neutral(s: State) {
    match s.job
    case NoJob => true
    case Activation(phase, task, _, before) =>
      if BeforeCommit(phase) then
        s.generation == before.generation && s.active == before.active && SlotKept(before.pending, s.pending, s.log)
      else
        && s.generation == before.generation + 1
        && (phase in {ResetSession, ReleaseContinuation, ReadPins, Restore} ==> s.active == Some(task))
    case Removing(step, _, belongs, before) =>
      if BeforeForget(step) then
        && s.generation == before.generation && s.active == before.active && SlotKept(before.pending, s.pending, s.log)
        && (step == Forget ==> belongs)
      else
        && s.generation == before.generation + (if step == ResetLast then 1 else 0)
        && belongs && s.active == None && (step == EmptyFirst || s.pending == None)
  }

  lemma NeutralActivation(s: State, ok: bool)
    requires Neutral(s) && CanAdvance(s) && s.job.Activation?
    ensures Neutral(AdvanceActivation(s, ok))
  {
  }

  lemma NeutralRemoval(s: State, ok: bool)
    requires Neutral(s) && Slotted(s) && CanAdvance(s) && s.job.Removing?
    ensures Neutral(AdvanceRemoval(s, ok))
  {
  }

  lemma NeutralStep(s: State, e: Step)
    requires Neutral(s) && Slotted(s) && Can(s, e)
    ensures Neutral(Do(s, e))
  {
    if e.Advance? {
      if s.job.Activation? { NeutralActivation(s, e.ok); } else { NeutralRemoval(s, e.ok); }
    }
  }

  // ---------------------------------------------------------------- every run

  ghost predicate Inv(s: State) {
    Locked(s) && Slotted(s) && Fenced(s) && Late(s.log, s.loop) && TakenOnce(s) && Neutral(s)
  }

  lemma InvStep(s: State, e: Step)
    requires Inv(s) && Can(s, e)
    ensures Inv(Do(s, e))
  {
    LockedStep(s, e);
    SlottedStep(s, e);
    FencedStep(s, e);
    LateStep(s, e);
    TakenStep(s, e);
    NeutralStep(s, e);
  }

  lemma {:induction false} Invariant(run: seq<Step>)
    requires IsRun(run)
    ensures Inv(Final(run))
    decreases |run|
  {
    if run != [] {
      Invariant(run[..|run| - 1]);
      InvStep(Final(run[..|run| - 1]), run[|run| - 1]);
    }
  }

  /**
   In every interleaving: no command of the continuation starts, ends or is in flight for a generation
   older than an activation that has committed, and none is in flight at the commit.
   */
  lemma ContinuationIsFenced(run: seq<Step>, i: nat, j: nat)
    requires IsRun(run) && i < j < |Final(run).log| && Final(run).log[i].Committed?
    ensures IsCommand(Final(run).log[j]) ==> Final(run).log[j].generation >= Final(run).log[i].generation
    ensures !InFlight(Final(run).log[..i])
  {
    Invariant(run);
  }

  /** After an archive or a deletion at most one older command still starts and at most one still ends. */
  lemma AtMostOneFinishes(run: seq<Step>, i: nat)
    requires IsRun(run) && i < |Final(run).log| && Final(run).log[i].Superseded?
    ensures Starts(Final(run).log[i + 1..], Final(run).log[i].generation) <= 1
    ensures Ends(Final(run).log[i + 1..], Final(run).log[i].generation) <= 1
  {
    Invariant(run);
    assert LateAt(Final(run).log, Final(run).loop, i);
  }

  /** No pending restore is taken twice. */
  lemma RestoresAreTakenOnce(run: seq<Step>, i: nat, j: nat)
    requires IsRun(run) && i < j < |Final(run).log| && Final(run).log[i].Taken? && Final(run).log[j].Taken?
    ensures Final(run).log[i].id != Final(run).log[j].id
  {
    Invariant(run);
  }

  /** The pending slot and the restore being applied are never ahead of the generation. */
  lemma PendingIsNotAhead(run: seq<Step>)
    requires IsRun(run)
    ensures Final(run).pending.Some? ==> Final(run).pending.value.generation <= Final(run).generation
    ensures !Final(run).loop.Listening? ==> Final(run).loop.p.generation <= Final(run).generation
  {
    Invariant(run);
  }

  lemma Extends(run: seq<Step>, e: Step)
    requires IsRun(run) && Can(Final(run), e)
    ensures IsRun(run + [e]) && Final(run + [e]) == Do(Final(run), e)
  {
    assert (run + [e])[..|run|] == run;
  }

  /** The shared state is as it was when the operation started (the continuation may have taken the slot). */
  predicate Untouched(before: Snapshot, t: State) {
    t.generation == before.generation && t.active == before.active && SlotKept(before.pending, t.pending, t.log)
  }

  /**
   An activation that returns an error has left generation, active task and pending slot alone, unless
   the error comes from reading the pins, which happens after the commit.
   */
  lemma FailureNeutrality(run: seq<Step>)
    requires IsRun(run) && Final(run).job.Activation? && CanAdvance(Final(run))
    requires Final(run).job.phase != Restore && Do(Final(run), Advance(false)).job.NoJob?
    ensures Untouched(Final(run).job.before, Do(Final(run), Advance(false))) <==> Final(run).job.phase != ReadPins
  {
    Invariant(run);
  }

  lemma RemovalReturns(s: State, ok: bool)
    requires Neutral(s) && s.job.Removing? && AdvanceRemoval(s, ok).job.NoJob?
    ensures Untouched(s.job.before, AdvanceRemoval(s, ok)) <==> s.job.step != ResetLast
  {
  }

  /** Likewise a removal that returns before its last section has touched nothing. */
  lemma RemovalNeutrality(run: seq<Step>, ok: bool)
    requires IsRun(run) && Final(run).job.Removing? && CanAdvance(Final(run)) && Do(Final(run), Advance(ok)).job.NoJob?
    ensures Untouched(Final(run).job.before, Do(Final(run), Advance(ok))) <==> Final(run).job.step != ResetLast
  {
    Invariant(run);
    RemovalReturns(Final(run), ok);
  }

  // ---------------------------------------------------------------- nobody waits forever

  /** Steps that carry on something begun, as opposed to new calls and events from outside. */
  predicate Carries(e: Step) {
    e.Advance? || e.EndHeartbeat? || e.EndEdit? || e.Settled? || e.Enter? || e.Check? || e.Send? || e.Reply?
  }

  predicate AtRest(s: State) {
    s.job.NoJob? && s.loop.Listening? && s.transition != Heartbeat && !s.editing
  }

  /** How much is left to do. */
  function ActivationRank(phase: ActivationPhase): nat {
    match phase
    case ReadTarget => 14 case AwaitFlush => 13 case Flush => 12 case AwaitContinuation => 11
    case SavePrevious => 10 case AwaitCommit => 9 case Persist => 8 case Bump => 7 case EmptySlot => 6
    case SetActive => 5 case ResetSession => 4 case ReleaseContinuation => 3 case ReadPins => 2 case Restore => 1
  }

  function RemovalRank(step: RemovalPhase): nat {
    match step
    case AwaitFirst => 9 case FlushFirst => 8 case Work => 7 case AwaitSecond => 6 case Change => 5
    case Forget => 4 case EmptyFirst => 3 case BumpLast => 2 case ResetLast => 1
  }

  function JobRank(j: Job): nat {
    match j
    case NoJob => 0
    case Activation(phase, _, _, _) => ActivationRank(phase)
    case Removing(step, _, _, _) => RemovalRank(step)
  }

  function LoopRank(l: Loop): nat {
    match l
    case Listening => 0
    case Settling(p) => 2 + 4 * |p.commands|
    case Applying(_, left) => 1 + 4 * |left|
    case Entered(_, left) => 4 * |left|
    case Checked(_, left) => if left == [] then 0 else 4 * |left| - 1
    case Sending(_, left) => if left == [] then 0 else 4 * |left| - 2
  }

  function Rank(s: State): nat {
    JobRank(s.job) + LoopRank(s.loop) + (if s.transition == Heartbeat then 1 else 0) + (if s.editing then 1 else 0)
  }

  /** While something is going on, some party can take its next step: the locks never form a cycle. */
  lemma SomeoneCanGoOn(s: State) returns (e: Step)
    requires Locked(s) && !AtRest(s)
    ensures Carries(e) && Can(s, e)
  {
    if s.transition == Heartbeat { return EndHeartbeat; }
    if s.editing { return EndEdit; }
    match s.loop {
      case Settling(_) => return Settled;
      case Entered(_, _) => return Check;
      case Checked(_, _) => return Send;
      case Sending(_, _) => return Reply;
      case _ => return if CanAdvance(s) then Advance(true) else Enter;
    }
  }

  lemma ActivationIsProgress(s: State, ok: bool)
    requires s.job.Activation?
    ensures JobRank(AdvanceActivation(s, ok).job) < JobRank(s.job)
  {
  }

  lemma RemovalIsProgress(s: State, ok: bool)
    requires s.job.Removing?
    ensures JobRank(AdvanceRemoval(s, ok).job) < JobRank(s.job)
  {
  }

  lemma AdvancingIsProgress(s: State, ok: bool)
    requires Locked(s) && CanAdvance(s)
    ensures Rank(Do(s, Advance(ok))) < Rank(s)
  {
    if s.job.Activation? {
      ActivationIsProgress(s, ok);
      ActivationIsNoEdit(s, ok);
      ActivationLogs(s, ok);
    } else {
      RemovalIsProgress(s, ok);
      RemovalIsNoEdit(s, ok);
      RemovalLogs(s, ok);
    }
  }

  lemma ActivationIsNoEdit(s: State, ok: bool)
    requires s.job.Activation?
    ensures AdvanceActivation(s, ok).editing == s.editing
  {
  }

  lemma RemovalIsNoEdit(s: State, ok: bool)
    requires s.job.Removing?
    ensures AdvanceRemoval(s, ok).editing == s.editing
  {
  }

  lemma LoopIsProgress(s: State, e: Step)
    requires Locked(s) && Can(s, e) && (e.Settled? || e.Enter? || e.Check? || e.Send? || e.Reply?)
    ensures Rank(Do(s, e)) < Rank(s)
  {
  }

  lemma EachStepIsProgress(s: State, e: Step)
    requires Locked(s) && Carries(e) && Can(s, e)
    ensures Rank(Do(s, e)) < Rank(s)
  {
    if e.Advance? {
      AdvancingIsProgress(s, e.ok);
    } else if !e.EndHeartbeat? && !e.EndEdit? {
      LoopIsProgress(s, e);
    }
  }

  lemma GoesOn(run: seq<Step>) returns (e: Step)
    requires IsRun(run) && !AtRest(Final(run))
    ensures Carries(e) && IsRun(run + [e]) && Rank(Final(run + [e])) < Rank(Final(run))
  {
    Invariant(run);
    e := SomeoneCanGoOn(Final(run));
    EachStepIsProgress(Final(run), e);
    Extends(run, e);
  }

  lemma LocksAreFree(run: seq<Step>)
    requires IsRun(run) && AtRest(Final(run))
    ensures Final(run).transition == Nobody && Final(run).continuation == Nobody
  {
    Invariant(run);
  }

  /**
   No deadlock: whatever is going on can be carried on until nothing is, and then every lock is free.
   Since every such step lowers `Rank`, it ends like that in any order.
   */
  lemma EverythingFinishes(run: seq<Step>) returns (whole: seq<Step>)
    requires IsRun(run)
    ensures run <= whole && forall i :: |run| <= i < |whole| ==> Carries(whole[i])
    ensures IsRun(whole) && AtRest(Final(whole))
    ensures Final(whole).transition == Nobody && Final(whole).continuation == Nobody && !Final(whole).editing
    decreases Rank(Final(run))
  {
    if AtRest(Final(run)) {
      LocksAreFree(run);
      whole := run;
    } else {
      var e := GoesOn(run);
      whole := EverythingFinishes(run + [e]);
    }
  }

  // ---------------------------------------------------------------- the sections as single changes

  // The steps of a section that holds the transition lock, taken one after the other, change what is shared as the
  // functions below say; the methods of `Session.Capsules` are proved to change it so.

  function CommittedTo(x: Snapshot, task: string): Snapshot {
    Snapshot(Some(task), None, x.generation + 1)
  }

  function Abandoned(x: Snapshot): Snapshot {
    Snapshot(None, None, x.generation + 1)
  }

  function TakenFrom(slot: Option<Pending>, kind: string): Option<Pending> {
    if slot.Some? && slot.value.kind == kind then slot else None
  }

  lemma OneAdvance(s: State, t: State, n: nat)
    requires CanAdvance(s) && Do(s, Advance(true)) == t
    ensures Advanced(s, n + 1) == Advanced(t, n)
  {
  }

  function AfterBump(s: State): State
    requires s.job.Activation?
  {
    s.(generation := s.generation + 1, job := s.job.(phase := EmptySlot, generation := s.generation + 1),
       log := s.log + [Committed(s.generation + 1)])
  }

  lemma TakesLock(s: State)
    requires s.job.Activation? && s.job.phase == AwaitCommit && s.transition == Nobody
    ensures CanAdvance(s) && Do(s, Advance(true)) == s.(transition := Operation, job := s.job.(phase := Persist))
  {
  }

  lemma Persists(s: State)
    requires s.job.Activation? && s.job.phase == Persist
    ensures CanAdvance(s) && Do(s, Advance(true)) == s.(job := s.job.(phase := Bump))
  {
  }

  lemma Bumps(s: State)
    requires s.job.Activation? && s.job.phase == Bump
    ensures CanAdvance(s) && Do(s, Advance(true)) == AfterBump(s)
  {
  }

  lemma EmptiesSlot(s: State)
    requires s.job.Activation? && s.job.phase == EmptySlot
    ensures CanAdvance(s) && Do(s, Advance(true)) == s.(pending := None, job := s.job.(phase := SetActive))
  {
  }

  lemma Switches(s: State)
    requires s.job.Activation? && s.job.phase == SetActive
    ensures CanAdvance(s) && Do(s, Advance(true)) ==
      s.(active := Some(s.job.task), job := s.job.(phase := ResetSession))
  {
  }

  lemma Releases(s: State)
    requires s.job.Activation? && s.job.phase == ResetSession
    ensures CanAdvance(s) && Do(s, Advance(true)) ==
      s.(transition := Nobody, job := s.job.(phase := ReleaseContinuation))
  {
  }

  /** From the waiting for the lock to its release, when the durable write succeeds; `Advanced` takes `n` steps. */
  lemma CommitSection(s: State)
    requires s.job.Activation? && s.job.phase == AwaitCommit && s.transition == Nobody
    ensures var t := Advanced(s, 6);
            && Now(t) == CommittedTo(Now(s), s.job.task)
            && t.job.Activation? && t.job.phase == ReleaseContinuation && t.transition == Nobody
            && t.log == s.log + [Committed(s.generation + 1)]
  {
    var a := s.(transition := Operation, job := s.job.(phase := Persist));
    var b := a.(job := s.job.(phase := Bump));
    var c := AfterBump(b);
    var d := c.(pending := None, job := c.job.(phase := SetActive));
    var e := d.(active := Some(s.job.task), job := c.job.(phase := ResetSession));
    var f := e.(transition := Nobody, job := c.job.(phase := ReleaseContinuation));
    TakesLock(s); OneAdvance(s, a, 5);
    Persists(a); OneAdvance(a, b, 4);
    Bumps(b); OneAdvance(b, c, 3);
    EmptiesSlot(c); OneAdvance(c, d, 2);
    Switches(d); OneAdvance(d, e, 1);
    Releases(e); OneAdvance(e, f, 0);
  }

  /** When it fails, the section leaves what is shared alone. */
  lemma FailedCommitSection(s: State)
    requires s.job.Activation? && s.job.phase == AwaitCommit && s.transition == Nobody
    ensures var t := AdvanceActivation(AdvanceActivation(s, true), false);
      Now(t) == Now(s) && t.job.NoJob? && t.transition == Nobody
  {
  }

  function AfterSuperseding(s: State): State
    requires s.job.Removing?
  {
    s.(generation := s.generation + 1, job := s.job.(step := ResetLast), log := s.log + [Superseded(s.generation + 1)])
  }

  lemma TakesLockAgain(s: State)
    requires s.job.Removing? && s.job.step == AwaitSecond && s.transition == Nobody
    ensures CanAdvance(s) && Do(s, Advance(true)) == s.(transition := Operation, job := s.job.(step := Change))
  {
  }

  lemma ChangesStore(s: State)
    requires s.job.Removing? && s.job.step == Change && s.job.belongs
    ensures CanAdvance(s) && Do(s, Advance(true)) == s.(job := s.job.(step := Forget))
  {
  }

  lemma Forgets(s: State)
    requires s.job.Removing? && s.job.step == Forget
    ensures CanAdvance(s) && Do(s, Advance(true)) == s.(active := None, job := s.job.(step := EmptyFirst))
  {
  }

  lemma SlotEmptied(s: State)
    requires s.job.Removing? && s.job.step == EmptyFirst
    ensures CanAdvance(s) && Do(s, Advance(true)) == s.(pending := None, job := s.job.(step := BumpLast))
  {
  }

  lemma GenerationBumped(s: State)
    requires s.job.Removing? && s.job.step == BumpLast
    ensures CanAdvance(s) && Do(s, Advance(true)) == AfterSuperseding(s)
  {
  }

  lemma MeterReset(s: State)
    requires s.job.Removing? && s.job.step == ResetLast
    ensures CanAdvance(s) && Do(s, Advance(true)) == Return(s.(transition := Nobody), true, s.job.before)
  {
  }

  /** The last section of an archive or a deletion of what is active, from the change of the store on. */
  lemma RemovalSection(s: State)
    requires s.job.Removing? && s.job.belongs && s.job.step == AwaitSecond && s.transition == Nobody
    ensures var t := Advanced(s, 6);
            && Now(t) == Abandoned(Now(s)) && t.job.NoJob? && t.transition == Nobody
            && t.log == s.log + [Superseded(s.generation + 1)] +
              [Returned(true, s.generation + 1 != s.job.before.generation)]
  {
    var a := s.(transition := Operation, job := s.job.(step := Change));
    var b := a.(job := s.job.(step := Forget));
    var c := b.(active := None, job := s.job.(step := EmptyFirst));
    var d := c.(pending := None, job := s.job.(step := BumpLast));
    var e := AfterSuperseding(d);
    var f := Return(e.(transition := Nobody), true, s.job.before);
    TakesLockAgain(s); OneAdvance(s, a, 5);
    ChangesStore(a); OneAdvance(a, b, 4);
    Forgets(b); OneAdvance(b, c, 3);
    SlotEmptied(c); OneAdvance(c, d, 2);
    GenerationBumped(d); OneAdvance(d, e, 1);
    MeterReset(e); OneAdvance(e, f, 0);
  }

  /** The continuation gets what the slot held, if it was of its kind, and the slot is empty then. */
  lemma TakeSection(s: State, kind: string)
    requires s.loop.Listening?
    ensures var t, taken := Do(s, Connected(kind)), TakenFrom(s.pending, kind);
            && t.pending == (if taken.Some? then None else s.pending)
            && t.loop == (if taken.Some? then Settling(taken.value) else Listening)
  {
  }

  // ---------------------------------------------------------------- two runs that show the limits

  /** A run and the state it leads to, to be continued step by step. */
  lemma Then(run: seq<Step>, s: State, e: Step) returns (longer: seq<Step>)
    requires IsRun(run) && Final(run) == s && Can(s, e)
    ensures IsRun(longer) && Final(longer) == Do(s, e)
  {
    Extends(run, e);
    longer := run + [e];
  }

  function Advanced(s: State, n: nat): State
    decreases n
  {
    if n == 0 || !CanAdvance(s) then s else Advanced(Do(s, Advance(true)), n - 1)
  }

  /** The operation advances `n` times, as far as it can. */
  lemma {:induction false} ThenAdvance(run: seq<Step>, s: State, n: nat) returns (longer: seq<Step>)
    requires IsRun(run) && Final(run) == s
    ensures IsRun(longer) && Final(longer) == Advanced(s, n)
    decreases n
  {
    if n == 0 || !CanAdvance(s) {
      longer := run;
    } else {
      longer := Then(run, s, Advance(true));
      longer := ThenAdvance(longer, Do(s, Advance(true)), n - 1);
    }
  }

  function Reading(task: string, log: seq<Event>): State {
    State(Some(task), None, 1, Activation(ReadPins, task, 1, Now(Init())), Listening, Nobody, Nobody, false, 0, log)
  }

  /** The first activation about to write its session. */
  function Persisting(task: string): State {
    State(None, None, 0, Activation(Persist, task, 0, Now(Init())), Listening, Operation, Operation, false, 0, [])
  }

  lemma UpToPersist(task: string)
    ensures Advanced(Do(Init(), Activate(task)), 6) == Persisting(task)
  {
  }

  lemma UpToPins(task: string)
    ensures Advanced(Persisting(task), 6) == Reading(task, [Committed(1)])
  {
  }

  lemma FirstActivation(task: string) returns (run: seq<Step>)
    ensures IsRun(run) && Final(run) == Reading(task, [Committed(1)])
  {
    run := Then([], Init(), Activate(task));
    run := ThenAdvance(run, Do(Init(), Activate(task)), 6);
    UpToPersist(task);
    run := ThenAdvance(run, Persisting(task), 6);
    UpToPins(task);
  }

  /** An activation can return an error although it has committed and the task is active. */
  lemma ErrorAfterCommit(task: string) returns (run: seq<Step>)
    ensures IsRun(run) && Final(run).log == [Committed(1), Returned(false, true)]
    ensures Final(run).job.NoJob? && Final(run).active == Some(task)
  {
    run := FirstActivation(task);
    run := Then(run, Reading(task, [Committed(1)]), Advance(false));
  }

  /** A restore of one file. */
  const RESTORE: Pending := Pending(0, "vscode", 1, [OpenFile("/a")])

  /** One command of a restore is in flight and nothing else is going on. */
  function Commanding(task: string): State {
    State(Some(task), None, 1, NoJob, Sending(RESTORE, RESTORE.commands), Nobody, Continuation, false, 1,
          [Committed(1), Returned(true, true), Taken(0), Started(1, OpenFile("/a"))])
  }

  /** A restore is parked and the activation has returned. */
  function Parked(task: string): State {
    State(Some(task), Some(RESTORE), 1, NoJob, Listening, Nobody, Nobody, false, 1,
      [Committed(1), Returned(true, true)])
  }

  lemma ParkedRun(task: string) returns (run: seq<Step>)
    ensures IsRun(run) && Final(run) == Parked(task)
  {
    run := FirstActivation(task);
    var s := Reading(task, [Committed(1)]);
    run := Then(run, s, Advance(true));
    s := Do(s, Advance(true));
    run := Then(run, s, Park("vscode", [OpenFile("/a")]));
    s := Do(s, Park("vscode", [OpenFile("/a")]));
    run := Then(run, s, Advance(true));
  }

  /** The restore has been taken and is about to send its command. */
  function Entering(task: string): State {
    Parked(task).(pending := None, loop := Applying(RESTORE, RESTORE.commands),
      log := Parked(task).log + [Taken(0)])
  }

  lemma EnteringRun(task: string) returns (run: seq<Step>)
    ensures IsRun(run) && Final(run) == Entering(task)
  {
    run := ParkedRun(task);
    run := Then(run, Parked(task), Connected("vscode"));
    run := Then(run, Do(Parked(task), Connected("vscode")), Settled);
  }

  lemma CommandingRun(task: string) returns (run: seq<Step>)
    ensures IsRun(run) && Final(run) == Commanding(task)
  {
    run := EnteringRun(task);
    var s := Entering(task);
    run := Then(run, s, Enter);
    s := Do(s, Enter);
    run := Then(run, s, Check);
    s := Do(s, Check);
    run := Then(run, s, Send);
  }

  /** The archive has returned while the command is still in flight. */
  function Archived(task: string): State {
    Commanding(task).(active := None, generation := 2,
      log := Commanding(task).log + [Superseded(2), Returned(true, true)])
  }

  /** The archive holds the transition lock for the second time. */
  function Archiving(task: string): State {
    Commanding(task).(job := Removing(Change, Archive, true, Now(Commanding(task))), transition := Operation)
  }

  lemma UpToChange(task: string)
    ensures Advanced(Do(Commanding(task), Remove(Archive, true)), 4) == Archiving(task)
  {
  }

  lemma UpToReturn(task: string)
    ensures Advanced(Archiving(task), 5) == Archived(task)
  {
  }

  /** One command does finish after an archive: the bound of `AtMostOneFinishes` is reached. */
  lemma OneFinishesLate(task: string) returns (run: seq<Step>)
    ensures IsRun(run) && Final(run).log == Archived(task).log + [Ended(1, OpenFile("/a"))]
    ensures Final(run).log[4] == Superseded(2) && Ends(Final(run).log[5..], 2) == 1
  {
    run := CommandingRun(task);
    run := Then(run, Commanding(task), Remove(Archive, true));
    run := ThenAdvance(run, Do(Commanding(task), Remove(Archive, true)), 4);
    UpToChange(task);
    run := ThenAdvance(run, Archiving(task), 5);
    UpToReturn(task);
    run := Then(run, Archived(task), Reply);
    CountLate();
  }

  lemma CountLate()
    ensures Ends([Returned(true, true), Ended(1, OpenFile("/a"))], 2) == 1
  {
    CountMore([Returned(true, true)], Ended(1, OpenFile("/a")), 2);
    CountMore([], Returned(true, true), 2);
    assert [Returned(true, true)] + [Ended(1, OpenFile("/a"))] == [Returned(true, true), Ended(1, OpenFile("/a"))];
    assert [] + [Returned(true, true)] == [Returned(true, true)];
  }
}
