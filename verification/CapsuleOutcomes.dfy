/** How each operation of the capsule orchestrator ends: what it returns and leaves, by which of its steps failed. */
module CapsuleOutcomes {
  import opened Common
  import opened CapsuleProtocol

  /** Reading the target, writing the session's time and writing the new session: up to here nothing has changed. */
  predicate BreaksOff(phase: ActivationPhase) {
    phase == ReadTarget || phase == Flush || phase == Persist
  }

  /** The activation of `task` began in step `i` from `was`, and was not over before the last step. */
  ghost predicate Activating(run: seq<Step>, i: nat, task: string, was: Snapshot)
    decreases |run|
  {
    && IsRun(run) && i < |run|
    && var before, e := run[..|run| - 1], run[|run| - 1];
       if |run| == i + 1 then e == Activate(task) && was == Now(Final(before))
       else Activating(before, i, task, was) && Final(before).job.Activation?
  }

  /** Since step `i`, the activation failed before its commit. */
  ghost predicate BrokeOff(run: seq<Step>, i: nat)
    requires IsRun(run)
    decreases |run|
  {
    && |run| > i + 1
    && var before, job := run[..|run| - 1], Final(run[..|run| - 1]).job;
       BrokeOff(before, i) || (run[|run| - 1] == Advance(false) && job.Activation? && BreaksOff(job.phase))
  }

  /** Since step `i`, reading the pins failed. */
  ghost predicate LostPins(run: seq<Step>, i: nat)
    requires IsRun(run)
    decreases |run|
  {
    && |run| > i + 1
    && var before, job := run[..|run| - 1], Final(run[..|run| - 1]).job;
       LostPins(before, i) || (run[|run| - 1] == Advance(false) && job.Activation? && job.phase == ReadPins)
  }

  /** The last step of an activation, and any other. */
  lemma ActivationAdvances(s: State, ok: bool)
    requires s.job.Activation? && Neutral(s)
    ensures var t, j := AdvanceActivation(s, ok), s.job;
      if j.phase == Restore || (!ok && (BreaksOff(j.phase) || j.phase == ReadPins)) then
        && t.job.NoJob?
        && t.log == s.log + [Returned(j.phase == Restore, !BreaksOff(j.phase))]
        && t.generation == j.before.generation + (if BreaksOff(j.phase) then 0 else 1)
        && t.active == (if BreaksOff(j.phase) then j.before.active else Some(j.task))
      else t.job.Activation? && t.job.task == j.task && t.job.before == j.before
  {
  }

  lemma OthersLeaveTheJob(s: State, e: Step)
    requires Can(s, e) && !s.job.NoJob? && !e.Advance?
    ensures Do(s, e).job == s.job
  {
  }

  lemma {:induction false} StillActivating(run: seq<Step>, i: nat, task: string, was: Snapshot)
    requires Activating(run, i, task, was) && Final(run).job.Activation?
    ensures Final(run).job.task == task && Final(run).job.before == was
    ensures !BrokeOff(run, i) && !LostPins(run, i)
    decreases |run|
  {
    if |run| > i + 1 {
      var before, e := run[..|run| - 1], run[|run| - 1];
      StillActivating(before, i, task, was);
      Invariant(before);
      if e.Advance? { ActivationAdvances(Final(before), e.ok); } else { OthersLeaveTheJob(Final(before), e); }
    }
  }

  /**
   An activation that is over has returned whether none of its four fallible steps failed. If none before the commit
   did, its task is active and the generation has moved on by one, even when it returns an error because the pins cannot
   be read; otherwise both are as they were when it began.
   */
  lemma {:induction false} ActivationExactly(run: seq<Step>, i: nat, task: string, was: Snapshot)
    requires Activating(run, i, task, was) && Final(run).job.NoJob?
    ensures var s := Final(run);
      && s.log != []
      && s.log[|s.log| - 1] == Returned(!BrokeOff(run, i) && !LostPins(run, i), !BrokeOff(run, i))
      && s.generation == was.generation + (if BrokeOff(run, i) then 0 else 1)
      && s.active == (if BrokeOff(run, i) then was.active else Some(task))
  {
    var before, e := run[..|run| - 1], run[|run| - 1];
    StillActivating(before, i, task, was);
    Invariant(before);
    if e.Advance? { ActivationAdvances(Final(before), e.ok); } else { OthersLeaveTheJob(Final(before), e); }
  }

  // ---------------------------------------------------------------- archiving and deleting

  /** Writing the session's time, and changing the rows: an archive does that last, a delete first. */
  predicate Refuses(step: RemovalPhase, removal: Removal) {
    step == FlushFirst || step == if removal.Archive? then Change else Work
  }

  /** The removal began in step `i` from `was`, and was not over before the last step. */
  ghost predicate Removes(run: seq<Step>, i: nat, removal: Removal, belongs: bool, was: Snapshot)
    decreases |run|
  {
    && IsRun(run) && i < |run|
    && var before, e := run[..|run| - 1], run[|run| - 1];
       if |run| == i + 1 then e == Remove(removal, belongs) && was == Now(Final(before))
       else Removes(before, i, removal, belongs, was) && Final(before).job.Removing?
  }

  /** Since step `i`, one of the removal's two fallible steps failed. */
  ghost predicate Refused(run: seq<Step>, i: nat)
    requires IsRun(run)
    decreases |run|
  {
    && |run| > i + 1
    && var before, job := run[..|run| - 1], Final(run[..|run| - 1]).job;
       Refused(before, i) || (run[|run| - 1] == Advance(false) && job.Removing? && Refuses(job.step, job.removal))
  }

  lemma RemovalAdvances(s: State, ok: bool)
    requires s.job.Removing? && Neutral(s) && Slotted(s) && Reaches(s.job)
    ensures var t, j := AdvanceRemoval(s, ok), s.job;
      if t.job.NoJob? then
        && t.log == s.log + [Returned(ok || !Refuses(j.step, j.removal), j.step == ResetLast)]
        && t.generation == j.before.generation + (if j.step == ResetLast then 1 else 0)
        && (if j.step == ResetLast then t.active.None? && t.pending.None? else t.active == j.before.active)
        && (j.step == ResetLast <==> j.belongs && (ok || !Refuses(j.step, j.removal)))
      else
        && t.job.Removing? && t.job.removal == j.removal && t.job.belongs == j.belongs && t.job.before == j.before
        && (ok || !Refuses(j.step, j.removal)) && Reaches(t.job)
  {
  }

  /** A delete of what the active task does not belong to ends with the change of the rows. */
  predicate Reaches(j: Job) {
    j.Removing? && j.removal.Delete? && !j.belongs ==> j.step in {AwaitFirst, FlushFirst, Work}
  }

  lemma {:induction false} StillRemoving(run: seq<Step>, i: nat, removal: Removal, belongs: bool, was: Snapshot)
    requires Removes(run, i, removal, belongs, was) && Final(run).job.Removing?
    ensures var j := Final(run).job;
      j.removal == removal && j.belongs == belongs && j.before == was && !Refused(run, i) && Reaches(j)
    decreases |run|
  {
    if |run| > i + 1 {
      var before, e := run[..|run| - 1], run[|run| - 1];
      StillRemoving(before, i, removal, belongs, was);
      Invariant(before);
      if e.Advance? { RemovalAdvances(Final(before), e.ok); } else { OthersLeaveTheJob(Final(before), e); }
    }
  }

  /**
   A removal that is over has returned whether none of its fallible steps failed. If none did and the active task
   belongs to what was removed, nothing is active, no restore waits and the generation has moved on by one; otherwise
   generation and active task are as they were when it began.
   */
  lemma {:induction false} RemovalExactly(run: seq<Step>, i: nat, removal: Removal, belongs: bool, was: Snapshot)
    requires Removes(run, i, removal, belongs, was) && Final(run).job.NoJob?
    ensures var s, forgets := Final(run), belongs && !Refused(run, i);
      && s.log != [] && s.log[|s.log| - 1] == Returned(!Refused(run, i), forgets)
      && s.generation == was.generation + (if forgets then 1 else 0)
      && (if forgets then s.active.None? && s.pending.None? else s.active == was.active)
  {
    var before, e := run[..|run| - 1], run[|run| - 1];
    StillRemoving(before, i, removal, belongs, was);
    Invariant(before);
    if e.Advance? { RemovalAdvances(Final(before), e.ok); } else { OthersLeaveTheJob(Final(before), e); }
  }
}
