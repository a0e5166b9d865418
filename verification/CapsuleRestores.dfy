/** A pending restore is carried out: all its commands, in order, unless something newer supersedes it. */
module CapsuleRestores {
  import opened Common
  import opened CapsuleProtocol

  /** The commands that start in a stretch of the log, in order. */
  ghost function StartedIn(log: seq<Event>): seq<Command> {
    if log == [] then []
    else
      var before, last := StartedIn(log[..|log| - 1]), log[|log| - 1];
      if last.Started? then before + [last.command] else before
  }

  /** The commands that end in it. */
  ghost function EndedIn(log: seq<Event>): seq<Command> {
    if log == [] then []
    else
      var before, last := EndedIn(log[..|log| - 1]), log[|log| - 1];
      if last.Ended? then before + [last.command] else before
  }

  lemma LogMore(log: seq<Event>, x: Event)
    ensures StartedIn(log + [x]) == (if x.Started? then StartedIn(log) + [x.command] else StartedIn(log))
    ensures EndedIn(log + [x]) == (if x.Ended? then EndedIn(log) + [x.command] else EndedIn(log))
  {
    assert (log + [x])[..|log|] == log;
  }

  // ---------------------------------------------------------------- where it comes from

  /** Some step of the run parked this restore, for the generation that was current then. */
  ghost predicate WasParked(run: seq<Step>, p: Pending)
    requires IsRun(run)
  {
    exists m: nat ::
      && m < |run| && run[m] == Park(p.kind, p.commands) && IsRun(run[..m])
      && Final(run[..m]).nextId == p.id && Final(run[..m]).generation == p.generation
  }

  lemma WasParkedMore(run: seq<Step>, e: Step, p: Pending)
    requires IsRun(run) && IsRun(run + [e]) && WasParked(run, p)
    ensures WasParked(run + [e], p)
  {
    var m: nat :|
      && m < |run| && run[m] == Park(p.kind, p.commands) && IsRun(run[..m])
      && Final(run[..m]).nextId == p.id && Final(run[..m]).generation == p.generation;
    assert (run + [e])[..m] == run[..m] && (run + [e])[m] == run[m];
  }

  lemma LockedRun(run: seq<Step>)
    requires IsRun(run)
    ensures Locked(Final(run))
  {
    Invariant(run);
  }

  lemma SlotComesFrom(s: State, e: Step)
    requires Locked(s) && Can(s, e) && !e.Park?
    ensures Do(s, e).pending.Some? ==> Do(s, e).pending == s.pending
    ensures !Do(s, e).loop.Listening? ==>
      Do(s, e).loop.p == (if s.loop.Listening? && s.pending.Some? then s.pending.value else s.loop.p)
  {
    if e.Advance? {
      if s.job.Activation? { ActivationLogs(s, e.ok); } else { RemovalLogs(s, e.ok); }
    }
  }

  lemma ParkedNow(run: seq<Step>, e: Step)
    requires IsRun(run) && IsRun(run + [e]) && e.Park?
    ensures WasParked(run + [e], Final(run + [e]).pending.value) && Final(run + [e]).loop == Final(run).loop
  {
    assert (run + [e])[..|run|] == run && (run + [e])[|run|] == e;
    Invariant(run);
  }

  /** What waits in the slot, and what the continuation works on, has been parked, as it is. */
  lemma {:induction false} PendingWasParked(run: seq<Step>)
    requires IsRun(run)
    ensures Final(run).pending.Some? ==> WasParked(run, Final(run).pending.value)
    ensures !Final(run).loop.Listening? ==> WasParked(run, Final(run).loop.p)
    decreases |run|
  {
    if run != [] {
      var before, e := run[..|run| - 1], run[|run| - 1];
      assert run == before + [e];
      PendingWasParked(before);
      LockedRun(before);
      if e.Park? {
        ParkedNow(before, e);
      } else {
        SlotComesFrom(Final(before), e);
      }
      if Final(before).pending.Some? { WasParkedMore(before, e, Final(before).pending.value); }
      if !Final(before).loop.Listening? { WasParkedMore(before, e, Final(before).loop.p); }
    }
  }

  /**
   A reconnecting editor is given a restore exactly if one waits that was parked for its kind; and then the slot is
   empty.
   */
  lemma TakenExactly(run: seq<Step>, kind: string)
    requires IsRun(run) && Final(run).loop.Listening?
    ensures var s, t := Final(run), Do(Final(run), Connected(kind));
      && (!t.loop.Listening? <==> s.pending.Some? && s.pending.value.kind == kind)
      && (!t.loop.Listening? ==> t.loop.p == s.pending.value && t.pending.None?)
      && (!t.loop.Listening? ==> t.log == s.log + [Taken(t.loop.p.id)])
      && (t.loop.Listening? ==> t == s)
  {
  }

  // ---------------------------------------------------------------- how it goes

  /** The restore was taken in step `i`, and the continuation has been at it since. */
  ghost predicate UnderWay(run: seq<Step>, i: nat, p: Pending)
    decreases |run|
  {
    && IsRun(run) && i < |run|
    && var before, e := run[..|run| - 1], run[|run| - 1];
       if |run| == i + 1 then Final(before).pending == Some(p) && e == Connected(p.kind)
       else UnderWay(before, i, p) && !Final(before).loop.Listening?
  }

  /** Nothing newer was seen: not after the settling, nor before any of the commands. */
  ghost predicate Unsuperseded(run: seq<Step>, i: nat, p: Pending)
    requires UnderWay(run, i, p)
    decreases |run|
  {
    |run| == i + 1 ||
    var before, e := run[..|run| - 1], run[|run| - 1];
    Unsuperseded(before, i, p) && (e.Settled? || e.Check? ==> Final(before).generation == p.generation)
  }

  /** What has been logged since, beginning with the taking. */
  ghost function Since(run: seq<Step>, i: nat, p: Pending): seq<Event>
    requires UnderWay(run, i, p)
    decreases |run|
  {
    var before := run[..|run| - 1];
    var logged := Logged(Final(before), Final(run));
    if |run| == i + 1 then logged else Since(before, i, p) + logged
  }

  ghost function Logged(s: State, t: State): seq<Event> {
    if s.log <= t.log then t.log[|s.log|..] else []
  }

  /** What has started and what has ended, for where the continuation is. */
  ghost predicate Stage(l: Loop, p: Pending, started: seq<Command>, ended: seq<Command>, current: bool) {
    match l
    case Listening => started == ended <= p.commands && (started == p.commands <==> p.commands == [] || current)
    case Settling(q) => q == p && started == ended == [] && current
    case Applying(q, left) => q == p && started == ended && started + left == p.commands && current
    case Entered(q, left) => q == p && started == ended && started + left == p.commands && left != [] && current
    case Checked(q, left) => q == p && started == ended && started + left == p.commands && left != [] && current
    case Sending(q, left) =>
      q == p && left != [] && started == ended + [left[0]] && ended + left == p.commands && current
  }

  /** The event is not about a command. */
  predicate Aside(x: Event) { !x.Started? && !x.Ended? }

  lemma LoggedNothing(s: State, t: State, sent: seq<Event>)
    requires t.log == s.log
    ensures sent + Logged(s, t) == sent
  {
  }

  lemma LoggedOne(s: State, t: State, x: Event, sent: seq<Event>)
    requires t.log == s.log + [x]
    ensures s.log <= t.log && Logged(s, t) == [x]
    ensures StartedIn(sent + Logged(s, t)) == (if x.Started? then StartedIn(sent) + [x.command] else StartedIn(sent))
    ensures EndedIn(sent + Logged(s, t)) == (if x.Ended? then EndedIn(sent) + [x.command] else EndedIn(sent))
  {
    LogMore(sent, x);
  }

  lemma OperationLogs(s: State, ok: bool)
    requires Locked(s) && Can(s, Advance(ok))
    ensures var t := Do(s, Advance(ok));
      t.loop == s.loop && (t.log == s.log || exists x :: t.log == s.log + [x] && Aside(x))
  {
    if s.job.Activation? { ActivationLogs(s, ok); } else { RemovalLogs(s, ok); }
  }

  /** A step of others leaves the stage. */
  lemma OthersStep(s: State, e: Step, p: Pending, sent: seq<Event>)
    requires Locked(s) && Can(s, e) && !e.Settled? && !e.Enter? && !e.Check? && !e.Send? && !e.Reply?
      && !s.loop.Listening?
    ensures s.log <= Do(s, e).log && Do(s, e).loop == s.loop
    ensures var more := sent + Logged(s, Do(s, e)); StartedIn(more) == StartedIn(sent) && EndedIn(more) == EndedIn(sent)
  {
    var t := Do(s, e);
    if e.Advance? { OperationLogs(s, e.ok); }
    if t.log == s.log {
      LoggedNothing(s, t, sent);
    } else {
      var x :| t.log == s.log + [x] && Aside(x);
      LoggedOne(s, t, x, sent);
    }
  }

  /** The steps of the continuation that send nothing. */
  lemma SilentStep(s: State, e: Step, p: Pending, sent: seq<Event>)
    requires Can(s, e) && (e.Settled? || e.Enter? || e.Check?)
    requires Stage(s.loop, p, StartedIn(sent), EndedIn(sent), true)
    ensures s.log == Do(s, e).log
    ensures var more := sent + Logged(s, Do(s, e));
      Stage(Do(s, e).loop, p, StartedIn(more), EndedIn(more), e.Enter? || s.generation == p.generation)
  {
    LoggedNothing(s, Do(s, e), sent);
  }

  lemma SendStep(s: State, p: Pending, sent: seq<Event>)
    requires Can(s, Send) && Stage(s.loop, p, StartedIn(sent), EndedIn(sent), true)
    ensures var t := Do(s, Send);
      s.log <= t.log && Stage(t.loop, p, StartedIn(sent + Logged(s, t)), EndedIn(sent + Logged(s, t)), true)
  {
    LoggedOne(s, Do(s, Send), Started(p.generation, s.loop.left[0]), sent);
  }

  lemma OneDone(done: seq<Command>, left: seq<Command>, commands: seq<Command>)
    requires left != [] && done + left == commands
    ensures done + [left[0]] + left[1..] == commands
  {
  }

  lemma ReplyStep(s: State, p: Pending, sent: seq<Event>)
    requires Can(s, Reply) && Stage(s.loop, p, StartedIn(sent), EndedIn(sent), true)
    ensures var t := Do(s, Reply);
      s.log <= t.log && Stage(t.loop, p, StartedIn(sent + Logged(s, t)), EndedIn(sent + Logged(s, t)), true)
  {
    var left := s.loop.left;
    LoggedOne(s, Do(s, Reply), Ended(p.generation, left[0]), sent);
    OneDone(EndedIn(sent), left, p.commands);
  }

  /** A step of others, and one of the continuation, from stage to stage. */
  lemma StageStep(s: State, e: Step, p: Pending, sent: seq<Event>)
    requires Locked(s) && Can(s, e) && !s.loop.Listening?
    requires Stage(s.loop, p, StartedIn(sent), EndedIn(sent), true)
    ensures s.log <= Do(s, e).log
    ensures var more := sent + Logged(s, Do(s, e));
      Stage(Do(s, e).loop, p, StartedIn(more), EndedIn(more), (e.Settled? || e.Check?) ==> s.generation == p.generation)
  {
    if e.Settled? || e.Enter? || e.Check? {
      SilentStep(s, e, p, sent);
    } else if e.Send? {
      SendStep(s, p, sent);
    } else if e.Reply? {
      ReplyStep(s, p, sent);
    } else {
      OthersStep(s, e, p, sent);
    }
  }

  lemma LoggedNext(log: seq<Event>, longer: seq<Event>, sent: seq<Event>)
    requires log <= longer && |sent| <= |log| && log[|log| - |sent|..] == sent
    ensures var all := sent + longer[|log|..]; |all| <= |longer| && longer[|longer| - |all|..] == all
  {
  }

  /** The log ends with what has been logged since the taking, and that is what the loop says. */
  ghost predicate Told(s: State, sent: seq<Event>, p: Pending, current: bool) {
    && |sent| <= |s.log| && s.log[|s.log| - |sent|..] == sent && sent != [] && sent[0] == Taken(p.id)
    && Stage(s.loop, p, StartedIn(sent), EndedIn(sent), current)
  }

  lemma TakingTells(s: State, p: Pending)
    requires Can(s, Connected(p.kind)) && s.pending == Some(p)
    ensures var t := Do(s, Connected(p.kind)); Told(t, Logged(s, t), p, true)
  {
    LogMore([], Taken(p.id));
    assert [] + [Taken(p.id)] == [Taken(p.id)];
    assert Logged(s, Do(s, Connected(p.kind))) == [Taken(p.id)];
  }

  lemma StepTells(s: State, e: Step, p: Pending, sent: seq<Event>)
    requires Locked(s) && Can(s, e) && !s.loop.Listening? && Told(s, sent, p, true)
    ensures var t := Do(s, e);
      Told(t, sent + Logged(s, t), p, (e.Settled? || e.Check?) ==> s.generation == p.generation)
  {
    StageStep(s, e, p, sent);
    LoggedNext(s.log, Do(s, e).log, sent);
  }

  lemma StageIsCurrent(l: Loop, p: Pending, started: seq<Command>, ended: seq<Command>, current: bool)
    requires Stage(l, p, started, ended, current) && !l.Listening?
    ensures current
  {
  }

  /** While it goes on nothing newer has been seen, and at every moment what has been sent is what the loop says. */
  lemma {:induction false} Progress(run: seq<Step>, i: nat, p: Pending)
    requires UnderWay(run, i, p)
    ensures Told(Final(run), Since(run, i, p), p, Unsuperseded(run, i, p))
    decreases |run|
  {
    var before, e := run[..|run| - 1], run[|run| - 1];
    if |run| == i + 1 {
      TakingTells(Final(before), p);
    } else {
      Progress(before, i, p);
      var sent := Since(before, i, p);
      StageIsCurrent(Final(before).loop, p, StartedIn(sent), EndedIn(sent), Unsuperseded(before, i, p));
      LockedRun(before);
      StepTells(Final(before), e, p, sent);
    }
  }

  /**
   A restore that was taken ends, when the continuation listens again, with some of its commands sent, from the first
   on, each started and ended once and in order: with all of them exactly if neither after the settling nor before any
   command a newer generation was seen (or if there were none). What the log holds since the taking says so.
   */
  lemma RestoreIsCarriedOut(run: seq<Step>, i: nat, p: Pending)
    requires UnderWay(run, i, p) && Final(run).loop.Listening?
    ensures WasParked(run, p)
    ensures var sent, log := Since(run, i, p), Final(run).log;
      |sent| <= |log| && log[|log| - |sent|..] == sent && sent != [] && sent[0] == Taken(p.id)
    ensures StartedIn(Since(run, i, p)) == EndedIn(Since(run, i, p)) <= p.commands
    ensures StartedIn(Since(run, i, p)) == p.commands <==> p.commands == [] || Unsuperseded(run, i, p)
  {
    TakenWasParked(run, i, p);
    Progress(run, i, p);
  }

  lemma {:induction false} TakenWasParked(run: seq<Step>, i: nat, p: Pending)
    requires UnderWay(run, i, p)
    ensures WasParked(run, p)
    decreases |run|
  {
    var before, e := run[..|run| - 1], run[|run| - 1];
    if |run| == i + 1 { PendingWasParked(before); } else { TakenWasParked(before, i, p); }
    assert run == before + [e];
    WasParkedMore(before, e, p);
  }
}
