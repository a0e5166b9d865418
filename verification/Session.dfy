/** The session meter of the capsule orchestrator. */
module Session {
  import opened Common
  import CapsuleProtocol

  // Focused, non-idle time with an active task is collected in nanoseconds and written to the project in whole
  // seconds, through writes that may fail. Every method here runs while `transition_lock` is held, so it is one
  // atomic section.

  const NANOS := 1_000_000_000
  const MAX_SESSION_GAP := 30 * NANOS
  const MAX_DURATION := 0x1_0000_0000_0000_0000 * NANOS - 1
  const I64_MAX := 0x7fff_ffff_ffff_ffff

  /** The orchestrator's session state and the `active_seconds` of the session's project. */
  datatype Meter = Meter(
    active: Option<string>, focused: bool, idle: bool, lastTick: nat, pending: nat, stored: nat)

  function Elapsed(m: Meter, now: nat): nat {
    if now < m.lastTick then 0 else now - m.lastTick
  }

  predicate Accrues(m: Meter) {
    m.focused && !m.idle && m.active.Some?
  }

  /** What the interval since the last tick adds. */
  function Eligible(m: Meter, now: nat): nat {
    if Accrues(m) then Min(Elapsed(m, now), MAX_SESSION_GAP) else 0
  }

  /** `checked_add(…).unwrap_or(Duration::MAX)`. */
  function Collected(m: Meter, now: nat): nat {
    if Accrues(m) then Min(m.pending + Eligible(m, now), MAX_DURATION) else m.pending
  }

  /** `add_active_seconds_for_task` in SQL. */
  function Added(stored: nat, seconds: nat): nat {
    var s := Min(seconds, I64_MAX);
    if stored >= I64_MAX - s then I64_MAX else stored + s
  }

  /** `flush_session_locked`, given whether a write would succeed. */
  function Flushed(m: Meter, now: nat, ok: bool): Meter {
    var collected := Collected(m, now);
    var seconds := collected / NANOS;
    if seconds > 0 && m.active.Some? && ok then
      m.(lastTick := now, pending := collected - seconds * NANOS, stored := Added(m.stored, seconds))
    else m.(lastTick := now, pending := collected)
  }

  /** A write is needed and fails. */
  predicate FlushFails(m: Meter, now: nat, ok: bool) {
    Collected(m, now) / NANOS > 0 && m.active.Some? && !ok
  }

  function Updated(m: Meter, now: nat, later: nat, focused: bool, idle: bool, ok: bool): Meter {
    Flushed(m, now, ok).(focused := focused, idle := idle, lastTick := later)
  }

  function Begun(m: Meter, task: string, later: nat): Meter {
    m.(active := Some(task), pending := 0, lastTick := later, stored := 0)
  }

  function Cleared(m: Meter, later: nat): Meter {
    m.(active := None, pending := 0, lastTick := later)
  }

  /** The project row that the session's writes go to. */
  class SessionStore {
    var activeSeconds: nat

    constructor ()
      ensures activeSeconds == 0
    {
      activeSeconds := 0;
    }

    method AddActiveSeconds(seconds: nat, ok: bool) returns (r: bool)
      modifies this
      ensures r == ok
      ensures activeSeconds == if ok then Added(old(activeSeconds), seconds) else old(activeSeconds)
    {
      if !ok { return false; }
      var s := if seconds <= I64_MAX then seconds else I64_MAX;
      if activeSeconds >= I64_MAX - s {
        activeSeconds := I64_MAX;
      } else {
        activeSeconds := activeSeconds + s;
      }
      return true;
    }

    method BeginSession(ok: bool) returns (r: bool)
      modifies this
      ensures r == ok && activeSeconds == if ok then 0 else old(activeSeconds)
    {
      if ok { activeSeconds := 0; }
      return ok;
    }
  }

  class Capsules {
    var activeTask: Option<string>
    var pending: Option<CapsuleProtocol.Pending>
    var generation: nat
    var focused: bool
    var idle: bool
    var lastTick: nat
    var pendingEligible: nat
    const store: SessionStore

    constructor (store: SessionStore, now: nat)
      ensures this.store == store && Shared() == CapsuleProtocol.Now(CapsuleProtocol.Init())
      ensures SessionMeter() == Meter(None, false, false, now, 0, store.activeSeconds)
    {
      activeTask, pending, generation := None, None, 0;
      focused, idle, lastTick, pendingEligible := false, false, now, 0;
      this.store := store;
    }

    ghost function SessionMeter(): Meter
      reads this, store
    {
      Meter(activeTask, focused, idle, lastTick, pendingEligible, store.activeSeconds)
    }

    /** What the protocol shares with the continuation. */
    ghost function Shared(): CapsuleProtocol.Snapshot
      reads this
    {
      CapsuleProtocol.Snapshot(activeTask, pending, generation)
    }

    method FlushSessionLocked(now: nat, ok: bool) returns (r: bool)
      modifies this`lastTick, this`pendingEligible, store
      ensures SessionMeter() == Flushed(old(SessionMeter()), now, ok)
      ensures r == !FlushFails(old(SessionMeter()), now, ok)
    {
      var elapsed := if now < lastTick then 0 else now - lastTick;
      lastTick := now;
      if focused && !idle && activeTask.Some? {
        var sum := pendingEligible + Min(elapsed, MAX_SESSION_GAP);
        pendingEligible := if sum <= MAX_DURATION then sum else MAX_DURATION;
      }
      var seconds := pendingEligible / NANOS;
      if seconds == 0 || activeTask.None? { return true; }
      var written := store.AddActiveSeconds(seconds, ok);
      if !written { return false; }
      pendingEligible := pendingEligible - seconds * NANOS;
      return true;
    }

    /** Sets the new state even when the flush fails, and then reports that. */
    method SessionUpdate(now: nat, later: nat, focused: bool, idle: bool, ok: bool) returns (r: bool)
      modifies this, store
      ensures SessionMeter() == Updated(old(SessionMeter()), now, later, focused, idle, ok)
      ensures Shared() == old(Shared()) && r == !FlushFails(old(SessionMeter()), now, ok)
    {
      r := FlushSessionLocked(now, ok);
      this.focused := focused;
      this.idle := idle;
      lastTick := later;
    }

    /** The last section of an activation: flush, begin the session durably, bump, empty the slot, switch. */
    method CommitActivation(task: string, now: nat, later: nat, flushOk: bool, beginOk: bool) returns (r: bool)
      modifies this, store
      ensures r == (!FlushFails(old(SessionMeter()), now, flushOk) && beginOk)
      ensures r ==> SessionMeter() == Begun(Flushed(old(SessionMeter()), now, flushOk), task, later)
      ensures r ==> Shared() == CapsuleProtocol.CommittedTo(old(Shared()), task)
      ensures !r ==> SessionMeter() == Flushed(old(SessionMeter()), now, flushOk) && Shared() == old(Shared())
    {
      r := FlushSessionLocked(now, flushOk);
      if !r { return; }
      r := store.BeginSession(beginOk);
      if !r { return; }
      generation := generation + 1;
      pending := None;
      activeTask := Some(task);
      pendingEligible := 0;
      lastTick := later;
    }

    /** What archive and deletion do once the active task is gone. */
    method ClearActive(later: nat)
      modifies this
      ensures SessionMeter() == Cleared(old(SessionMeter()), later)
      ensures Shared() == CapsuleProtocol.Abandoned(old(Shared()))
    {
      activeTask := None;
      pending := None;
      generation := generation + 1;
      pendingEligible := 0;
      lastTick := later;
    }

    method TakePendingFor(kind: string) returns (taken: Option<CapsuleProtocol.Pending>)
      modifies this`pending
      ensures taken == CapsuleProtocol.TakenFrom(old(pending), kind)
      ensures pending == if taken.Some? then None else old(pending)
    {
      if pending.Some? && pending.value.kind == kind {
        taken := pending;
        pending := None;
      } else {
        taken := None;
      }
    }
  }

  // ---------------------------------------------------------------- runs

  /** What happens to the meter, with the clock readings each section makes. */
  datatype Tick =
    | Heartbeat(now: nat, ok: bool)
    | Update(now: nat, later: nat, focused: bool, idle: bool, ok: bool)
    | Begin(task: string, now: nat, later: nat, flushOk: bool, beginOk: bool)
    | Clear(later: nat)

  /**
   The meter with its books: when the session began, the eligible time since, and what was given up when
   the active task was cleared.
   */
  datatype Books = Books(meter: Meter, clock: nat, began: nat, ledger: nat, dropped: nat)

  function Opened(now: nat): Books {
    Books(Meter(None, false, false, now, 0, 0), now, now, 0, 0)
  }

  /** The clock never runs backwards. */
  predicate InTime(b: Books, t: Tick) {
    match t
    case Heartbeat(now, _) => b.clock <= now
    case Update(now, later, _, _, _) => b.clock <= now <= later
    case Begin(_, now, later, _, _) => b.clock <= now <= later
    case Clear(later) => b.clock <= later
  }

  function Book(b: Books, t: Tick): Books {
    match t
    case Heartbeat(now, ok) => Books(Flushed(b.meter, now, ok), now, b.began, b.ledger + Eligible(b.meter, now),
      b.dropped)
    case Update(now, later, focused, idle, ok) =>
      Books(Updated(b.meter, now, later, focused, idle, ok), later, b.began, b.ledger + Eligible(b.meter, now),
        b.dropped)
    case Begin(task, now, later, flushOk, beginOk) =>
      if FlushFails(b.meter, now, flushOk) || !beginOk then
        Books(Flushed(b.meter, now, flushOk), later, b.began, b.ledger + Eligible(b.meter, now), b.dropped)
      else Books(Begun(Flushed(b.meter, now, flushOk), task, later), later, later, 0, 0)
    case Clear(later) => Books(Cleared(b.meter, later), later, b.began, b.ledger, b.dropped + b.meter.pending)
  }

  ghost predicate IsRun(start: nat, ticks: seq<Tick>)
    decreases |ticks|, 0
  {
    ticks == [] || (IsRun(start, ticks[..|ticks| - 1])
      && InTime(Final(start, ticks[..|ticks| - 1]), ticks[|ticks| - 1]))
  }

  ghost function Final(start: nat, ticks: seq<Tick>): Books
    requires IsRun(start, ticks)
    decreases |ticks|, 1
  {
    if ticks == [] then Opened(start) else Book(Final(start, ticks[..|ticks| - 1]), ticks[|ticks| - 1])
  }

  /** The session's seconds, the remainder and what was dropped make up the eligible time. */
  ghost predicate Balanced(b: Books) {
    && b.meter.stored * NANOS + b.meter.pending + b.dropped == b.ledger
    && b.ledger <= b.meter.lastTick - b.began && b.began <= b.meter.lastTick <= b.clock
    && (b.meter.active.None? ==> b.meter.pending == 0)
  }

  lemma SecondsOf(pending: nat)
    ensures 0 <= pending - pending / NANOS * NANOS < NANOS
  {
  }

  lemma FlushBalances(m: Meter, now: nat, ok: bool)
    requires m.lastTick <= now
    requires m.stored * NANOS + m.pending + Eligible(m, now) < I64_MAX * NANOS
    ensures var f := Flushed(m, now, ok);
      f.stored * NANOS + f.pending == m.stored * NANOS + m.pending + Eligible(m, now)
    ensures !FlushFails(m, now, ok) && m.active.Some? ==> Flushed(m, now, ok).pending < NANOS
    ensures FlushFails(m, now, ok) <==> m.active.Some? && !ok && m.pending + Eligible(m, now) >= NANOS
  {
    SecondsOf(Collected(m, now));
  }

  /** A flush keeps the books balanced. */
  lemma FlushBooked(b: Books, now: nat, ok: bool, later: nat)
    requires Balanced(b) && b.clock <= now <= later && later - b.began < I64_MAX * NANOS
    ensures Balanced(Books(Flushed(b.meter, now, ok), later, b.began, b.ledger + Eligible(b.meter, now), b.dropped))
  {
    FlushBalances(b.meter, now, ok);
  }

  /** A run in which a session begins starts its books anew. */
  predicate Begins(b: Books, t: Tick) {
    t.Begin? && t.beginOk && !FlushFails(b.meter, t.now, t.flushOk)
  }

  lemma BookBalances(b: Books, t: Tick)
    requires Begins(b, t) || Balanced(b)
    requires InTime(b, t) && Book(b, t).clock - Book(b, t).began < I64_MAX * NANOS
    ensures Balanced(Book(b, t))
  {
    match t
    case Heartbeat(now, ok) => FlushBooked(b, now, ok, now);
    case Update(now, later, _, _, ok) => FlushBooked(b, now, ok, later);
    case Begin(_, now, later, flushOk, _) => if !Begins(b, t) { FlushBooked(b, now, flushOk, later); }
    case Clear(_) =>
  }

  // ---------------------------------------------------------------- what the calls say

  /** A call as its caller sees it: when the clock was read, what was asked for, and whether a session began. */
  datatype Call =
    | Beat(now: nat)
    | Focus(now: nat, later: nat, focused: bool, idle: bool)
    | Refused(now: nat)
    | Started(later: nat)
    | Ended(later: nat)

  function CallOf(b: Books, t: Tick): Call {
    match t
    case Heartbeat(now, _) => Beat(now)
    case Update(now, later, focused, idle, _) => Focus(now, later, focused, idle)
    case Begin(_, now, later, _, _) => if Begins(b, t) then Started(later) else Refused(now)
    case Clear(later) => Ended(later)
  }

  ghost function Calls(start: nat, ticks: seq<Tick>): seq<Call>
    requires IsRun(start, ticks)
    decreases |ticks|
  {
    if ticks == [] then []
    else Calls(start, ticks[..|ticks| - 1]) + [CallOf(Final(start, ticks[..|ticks| - 1]), ticks[|ticks| - 1])]
  }

  /** The window has the focus and its user is there, as far as the last word on it goes. */
  function Attended(calls: seq<Call>): bool {
    if calls == [] then false
    else
      var c := calls[|calls| - 1];
      if c.Focus? then c.focused && !c.idle else Attended(calls[..|calls| - 1])
  }

  /** A session has begun and has not ended. */
  function InSession(calls: seq<Call>): bool {
    if calls == [] then false
    else
      var c := calls[|calls| - 1];
      c.Started? || (!c.Ended? && InSession(calls[..|calls| - 1]))
  }

  /** When the clock was last read. */
  function LastReading(start: nat, calls: seq<Call>): nat {
    if calls == [] then start
    else match calls[|calls| - 1]
      case Beat(now) => now
      case Refused(now) => now
      case Focus(_, later, _, _) => later
      case Started(later) => later
      case Ended(later) => later
  }

  /** When the last session began. */
  function SessionStart(start: nat, calls: seq<Call>): nat {
    if calls == [] then start
    else if calls[|calls| - 1].Started? then calls[|calls| - 1].later
    else SessionStart(start, calls[..|calls| - 1])
  }

  /** What the interval from the last reading to `now` counts for. */
  function Counts(start: nat, calls: seq<Call>, now: nat): nat {
    if Attended(calls) && InSession(calls) && LastReading(start, calls) <= now
    then Min(now - LastReading(start, calls), 30_000_000_000) else 0
  }

  /** The sum of min(elapsed, 30 s) over the attended intervals of the last session. */
  function EligibleTime(start: nat, calls: seq<Call>): nat {
    if calls == [] then 0
    else
      var before, c := calls[..|calls| - 1], calls[|calls| - 1];
      match c
      case Started(_) => 0
      case Ended(_) => EligibleTime(start, before)
      case Beat(now) => EligibleTime(start, before) + Counts(start, before, now)
      case Refused(now) => EligibleTime(start, before) + Counts(start, before, now)
      case Focus(now, _, _, _) => EligibleTime(start, before) + Counts(start, before, now)
  }

  /** The meter knows nothing but what the calls have said. */
  ghost predicate Follows(b: Books, start: nat, calls: seq<Call>) {
    && (b.meter.focused && !b.meter.idle <==> Attended(calls))
    && (b.meter.active.Some? <==> InSession(calls))
    && b.meter.lastTick == LastReading(start, calls) && b.began == SessionStart(start, calls)
    && b.ledger == EligibleTime(start, calls)
  }

  lemma FollowsStep(b: Books, start: nat, calls: seq<Call>, t: Tick)
    requires Follows(b, start, calls) && InTime(b, t) && b.meter.lastTick <= b.clock
    ensures Follows(Book(b, t), start, calls + [CallOf(b, t)])
    ensures Book(b, t).meter.lastTick <= Book(b, t).clock
  {
    assert (calls + [CallOf(b, t)])[..|calls|] == calls;
  }

  lemma {:induction false} MeterFollows(start: nat, ticks: seq<Tick>)
    requires IsRun(start, ticks)
    ensures Follows(Final(start, ticks), start, Calls(start, ticks))
    ensures Final(start, ticks).meter.lastTick <= Final(start, ticks).clock
    decreases |ticks|
  {
    if ticks != [] {
      var before := ticks[..|ticks| - 1];
      MeterFollows(start, before);
      FollowsStep(Final(start, before), start, Calls(start, before), ticks[|ticks| - 1]);
    }
  }

  // ---------------------------------------------------------------- conservation

  lemma {:induction false} AlwaysBalanced(start: nat, ticks: seq<Tick>)
    requires IsRun(start, ticks) && Final(start, ticks).clock - Final(start, ticks).began < I64_MAX * NANOS
    ensures Balanced(Final(start, ticks))
    decreases |ticks|
  {
    if ticks != [] {
      var b, t := Final(start, ticks[..|ticks| - 1]), ticks[|ticks| - 1];
      if !Begins(b, t) { AlwaysBalanced(start, ticks[..|ticks| - 1]); }
      BookBalances(b, t);
    }
  }

  /**
   Conservation: in every run, failed writes included, the seconds stored for the current session, the
   remainder still pending and what a cleared task gave up add up to the eligible time that the calls of the
   run amount to, which is never more than the time that has passed since the session began. (A session of
   2^63 seconds would saturate.)
   */
  lemma Conservation(start: nat, ticks: seq<Tick>)
    requires IsRun(start, ticks)
    requires Final(start, ticks).clock - SessionStart(start, Calls(start, ticks)) < I64_MAX * NANOS
    ensures var b, calls := Final(start, ticks), Calls(start, ticks);
            && b.meter.stored * 1_000_000_000 + b.meter.pending + b.dropped == EligibleTime(start, calls)
            && EligibleTime(start, calls) <= b.clock - SessionStart(start, calls)
  {
    MeterFollows(start, ticks);
    AlwaysBalanced(start, ticks);
  }

  /** Less than a second is pending after a flush that did not fail. */
  lemma RemainderIsSmall(start: nat, ticks: seq<Tick>, now: nat, ok: bool)
    requires IsRun(start, ticks) && Final(start, ticks).clock <= now
    requires now - Final(start, ticks).began < I64_MAX * NANOS
    requires !FlushFails(Final(start, ticks).meter, now, ok)
    ensures Book(Final(start, ticks), Heartbeat(now, ok)).meter.pending < NANOS
  {
    var b := Final(start, ticks);
    AlwaysBalanced(start, ticks);
    FlushBalances(b.meter, now, ok);
  }

  /** An archive flushes and clears in one section: it gives up less than a second. */
  lemma ArchiveDropsLittle(start: nat, ticks: seq<Tick>, now: nat, later: nat, ok: bool)
    requires IsRun(start, ticks) && Final(start, ticks).clock <= now <= later
    requires now - Final(start, ticks).began < I64_MAX * NANOS
    requires !FlushFails(Final(start, ticks).meter, now, ok)
    ensures Book(Book(Final(start, ticks), Heartbeat(now, ok)), Clear(later)).dropped <
      Final(start, ticks).dropped + NANOS
  {
    RemainderIsSmall(start, ticks, now, ok);
  }

  /** Unattended or between sessions, a heartbeat changes neither the total nor what is due. */
  lemma NothingAccrues(start: nat, ticks: seq<Tick>, now: nat, ok: bool)
    requires IsRun(start, ticks) && Final(start, ticks).clock <= now
      && now - Final(start, ticks).began < I64_MAX * NANOS
    requires !Attended(Calls(start, ticks)) || !InSession(Calls(start, ticks))
    ensures var b, c := Final(start, ticks), Book(Final(start, ticks), Heartbeat(now, ok));
            c.ledger == b.ledger && c.meter.stored * NANOS + c.meter.pending == b.meter.stored * NANOS + b.meter.pending
  {
    MeterFollows(start, ticks);
    AlwaysBalanced(start, ticks);
    FlushBalances(Final(start, ticks).meter, now, ok);
  }
}
