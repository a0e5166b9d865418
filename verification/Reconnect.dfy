/** The reconnect loops of the browser extension and of the SDK. */
module Reconnect {
  import opened Common

  // `Connection` and `Connector` both dial when started and when a redial timer fires, and arm a timer when a
  // dial fails or a socket closes. Sockets and timers live outside the clients; a socket is gone once its close
  // event has been handled.

  const INITIAL_BACKOFF := 1_000
  const MAX_BACKOFF := 30_000
  const MAX_PORT := 65_535

  /** What becomes of a dial: a socket, a failure the client handles, or an exception that leaves the loop. */
  datatype Attempt = Works | Fails | Throws

  datatype Socket = Open | Closing | Gone

  datatype Event = Dialed(socket: nat) | Armed(delay: nat) | Welcomed | Shut

  /** A client's fields, and the sockets and timers it has made. */
  datatype State = State(
    started: bool, ws: Option<nat>, closed: bool, backoff: nat, timer: Option<nat>,
    sockets: map<nat, Socket>, timers: map<nat, nat>, next: nat, log: seq<Event>)

  function Init(): State {
    State(false, None, false, INITIAL_BACKOFF, None, map[], map[], 0, [])
  }

  /** `scheduleRedial`. */
  function Scheduled(s: State): State {
    if s.closed then s
    else
      s.(timer := Some(s.next), timers := s.timers[s.next := s.backoff], next := s.next + 1,
         log := s.log + [Armed(s.backoff)], backoff := Min(s.backoff * 2, MAX_BACKOFF))
  }

  /** The attempt that a port read by the SDK leads to: no address has a port above 65535. */
  function AttemptOf(port: Option<int>): Attempt {
    if port.None? || port.value <= 0 then Fails else if port.value > MAX_PORT then Throws else Works
  }

  /** `dial`; an exception leaves everything as it was. */
  function Dials(s: State, a: Attempt): State {
    if s.closed || a.Throws? then s
    else if a.Fails? then Scheduled(s)
    else s.(ws := Some(s.next), sockets := s.sockets[s.next := Open], next := s.next + 1,
      log := s.log + [Dialed(s.next)])
  }

  /** `ws?.close()`. */
  function Dropped(s: State): State {
    if s.ws.Some? && s.ws.value in s.sockets && s.sockets[s.ws.value].Open?
    then s.(sockets := s.sockets[s.ws.value := Closing]) else s
  }

  /** `close`. */
  function ShutDown(s: State): State {
    var t := if s.timer.Some? then s.(timers := s.timers - {s.timer.value}, timer := None) else s;
    Dropped(t.(closed := true, log := t.log + [Shut]))
  }

  /** The SDK's answer to a fatal error: no more retries, and the socket is left to the hub. */
  function GivenUp(s: State): State {
    s.(closed := true, log := s.log + [Shut])
  }

  function Welcome(s: State): State {
    s.(backoff := INITIAL_BACKOFF, log := s.log + [Welcomed])
  }

  function Fired(s: State, id: nat, a: Attempt): State {
    Dials(s.(timers := s.timers - {id}, timer := None), a)
  }

  function SocketGone(s: State, id: nat): State {
    Scheduled(s.(sockets := s.sockets[id := Gone]))
  }

  // ---------------------------------------------------------------- the clients

  /** What both clients keep and do. */
  class World {
    var sockets: map<nat, Socket>
    var timers: map<nat, nat>
    var next: nat
    ghost var log: seq<Event>

    constructor ()
      ensures sockets == map[] && timers == map[] && next == 0 && log == []
    {
      sockets, timers, next, log := map[], map[], 0, [];
    }

    method MakeSocket() returns (id: nat)
      modifies this
      ensures id == old(next) && next == id + 1 && sockets == old(sockets)[id := Open]
      ensures timers == old(timers) && log == old(log) + [Dialed(id)]
    {
      id := next;
      sockets, next, log := sockets[id := Open], next + 1, log + [Dialed(id)];
    }

    method CloseSocket(id: nat)
      modifies this`sockets
      ensures sockets == if id in old(sockets) && old(sockets)[id].Open? then old(sockets)[id := Closing]
        else old(sockets)
    {
      if id in sockets && sockets[id].Open? { sockets := sockets[id := Closing]; }
    }

    method SetTimeout(delay: nat) returns (id: nat)
      modifies this
      ensures id == old(next) && next == id + 1 && timers == old(timers)[id := delay]
      ensures sockets == old(sockets) && log == old(log) + [Armed(delay)]
    {
      id := next;
      timers, next, log := timers[id := delay], next + 1, log + [Armed(delay)];
    }

    method ClearTimeout(id: nat)
      modifies this`timers
      ensures timers == old(timers) - {id}
    {
      timers := timers - {id};
    }
  }

  /** The browser extension's `Connection`. */
  class Connection {
    const world: World
    var started: bool
    var ws: Option<nat>
    var closed: bool
    var backoff: nat
    var redialTimer: Option<nat>

    constructor (world: World)
      requires world.sockets == map[] && world.timers == map[] && world.next == 0 && world.log == []
      ensures this.world == world && Now() == Init()
    {
      this.world := world;
      started, ws, closed, backoff, redialTimer := false, None, false, INITIAL_BACKOFF, None;
    }

    ghost function Now(): State
      reads this, world
    {
      State(started, ws, closed, backoff, redialTimer, world.sockets, world.timers, world.next, world.log)
    }

    method ScheduleRedial()
      modifies this, world
      ensures Now() == Scheduled(old(Now()))
    {
      if closed { return; }
      var id := world.SetTimeout(backoff);
      redialTimer := Some(id);
      backoff := Min(backoff * 2, MAX_BACKOFF);
    }

    /** A bad port and an exception from `makeSocket` are both caught. */
    method Dial(works: bool)
      modifies this, world
      ensures Now() == Dials(old(Now()), if works then Works else Fails)
    {
      if closed { return; }
      if !works {
        ScheduleRedial();
        return;
      }
      var id := world.MakeSocket();
      ws := Some(id);
    }

    method Start(works: bool)
      modifies this, world
      ensures Now() == Dials(old(Now()).(started := true), if works then Works else Fails)
    {
      started := true;
      Dial(works);
    }

    /** A refused pairing, a new token or a rejected one: the socket is closed and the loop redials. */
    method DropSocket()
      modifies world
      ensures Now() == Dropped(old(Now()))
    {
      if ws.Some? { world.CloseSocket(ws.value); }
    }

    method Close()
      modifies this, world
      ensures Now() == ShutDown(old(Now()))
    {
      closed := true;
      if redialTimer.Some? {
        world.ClearTimeout(redialTimer.value);
        redialTimer := None;
      }
      world.log := world.log + [Shut];
      DropSocket();
    }

    method OnWelcome()
      modifies this, world
      ensures Now() == Welcome(old(Now()))
    {
      backoff := INITIAL_BACKOFF;
      world.log := world.log + [Welcomed];
    }

    method OnTimer(id: nat, works: bool)
      modifies this, world
      ensures Now() == Fired(old(Now()), id, if works then Works else Fails)
    {
      world.ClearTimeout(id);
      redialTimer := None;
      Dial(works);
    }

    method OnClose(id: nat)
      modifies this, world
      ensures Now() == SocketGone(old(Now()), id)
    {
      world.sockets := world.sockets[id := Gone];
      ScheduleRedial();
    }
  }

  /** The SDK's `Connector`: it gives up on a fatal error instead of pairing again. */
  class Connector {
    const world: World
    var started: bool
    var ws: Option<nat>
    var closed: bool
    var backoff: nat
    var redialTimer: Option<nat>

    constructor (world: World)
      requires world.sockets == map[] && world.timers == map[] && world.next == 0 && world.log == []
      ensures this.world == world && Now() == Init()
    {
      this.world := world;
      started, ws, closed, backoff, redialTimer := false, None, false, INITIAL_BACKOFF, None;
    }

    ghost function Now(): State
      reads this, world
    {
      State(started, ws, closed, backoff, redialTimer, world.sockets, world.timers, world.next, world.log)
    }

    method ScheduleRedial()
      modifies this, world
      ensures Now() == Scheduled(old(Now()))
    {
      if closed { return; }
      var id := world.SetTimeout(backoff);
      redialTimer := Some(id);
      backoff := Min(backoff * 2, MAX_BACKOFF);
    }

    /** Reads the discovery file anew; a missing file or port is a failed dial, an impossible port throws. */
    method Dial(port: Option<int>) returns (threw: bool)
      modifies this, world
      ensures Now() == Dials(old(Now()), AttemptOf(port))
      ensures threw == (!old(closed) && AttemptOf(port).Throws?)
    {
      if closed { return false; }
      if port.None? || port.value <= 0 {
        ScheduleRedial();
        return false;
      }
      if port.value > MAX_PORT { return true; }
      threw := false;
      var id := world.MakeSocket();
      ws := Some(id);
    }

    method Start(port: Option<int>) returns (threw: bool)
      modifies this, world
      ensures Now() == Dials(old(Now()).(started := true), AttemptOf(port))
    {
      started := true;
      threw := Dial(port);
    }

    method Close()
      modifies this, world
      ensures Now() == ShutDown(old(Now()))
    {
      closed := true;
      if redialTimer.Some? {
        world.ClearTimeout(redialTimer.value);
        redialTimer := None;
      }
      world.log := world.log + [Shut];
      if ws.Some? { world.CloseSocket(ws.value); }
    }

    method OnWelcome()
      modifies this, world
      ensures Now() == Welcome(old(Now()))
    {
      backoff := INITIAL_BACKOFF;
      world.log := world.log + [Welcomed];
    }

    method OnFatalError()
      modifies this, world
      ensures Now() == GivenUp(old(Now()))
    {
      closed := true;
      world.log := world.log + [Shut];
    }

    method OnTimer(id: nat, port: Option<int>) returns (threw: bool)
      modifies this, world
      ensures Now() == Fired(old(Now()), id, AttemptOf(port))
    {
      world.ClearTimeout(id);
      redialTimer := None;
      threw := Dial(port);
    }

    method OnClose(id: nat)
      modifies this, world
      ensures Now() == SocketGone(old(Now()), id)
    {
      world.sockets := world.sockets[id := Gone];
      ScheduleRedial();
    }
  }

  // ---------------------------------------------------------------- runs

  /** `Drop` and `Fatal` are the two clients' own; a drop may come at any time after an awaited store. */
  datatype Step =
    | Start(a: Attempt)
    | Close
    | Fire(id: nat, a: Attempt)
    | SocketCloses(id: nat)
    | Greet(id: nat)
    | Drop
    | Fatal(id: nat)

  /** The socket's close event is still to come: frames may arrive. */
  predicate IsThere(s: State, id: nat) {
    id in s.sockets && !s.sockets[id].Gone?
  }

  /** `start` is called once, and a socket's close event comes once. */
  predicate Can(s: State, e: Step) {
    match e
    case Start(_) => !s.started
    case Close => true
    case Fire(id, _) => id in s.timers
    case SocketCloses(id) => IsThere(s, id)
    case Greet(id) => IsThere(s, id)
    case Drop => true
    case Fatal(id) => IsThere(s, id)
  }

  function Do(s: State, e: Step): State
    requires Can(s, e)
  {
    match e
    case Start(a) => Dials(s.(started := true), a)
    case Close => ShutDown(s)
    case Fire(id, a) => Fired(s, id, a)
    case SocketCloses(id) => SocketGone(s, id)
    case Greet(_) => Welcome(s)
    case Drop => Dropped(s)
    case Fatal(_) => GivenUp(s)
  }

  ghost predicate IsRun(steps: seq<Step>)
    decreases |steps|, 0
  {
    steps == [] || (IsRun(steps[..|steps| - 1]) && Can(Final(steps[..|steps| - 1]), steps[|steps| - 1]))
  }

  ghost function Final(steps: seq<Step>): State
    requires IsRun(steps)
    decreases |steps|, 1
  {
    if steps == [] then Init() else Do(Final(steps[..|steps| - 1]), steps[|steps| - 1])
  }

  // ---------------------------------------------------------------- one thing at a time

  /** Some socket's close event is still to come. */
  predicate Unclosed(s: State) {
    s.ws.Some? && s.ws.value in s.sockets && !s.sockets[s.ws.value].Gone?
  }

  predicate Throwing(e: Step) {
    (e.Start? || e.Fire?) && e.a.Throws?
  }

  /** A dial of the run threw. */
  ghost predicate Threw(run: seq<Step>) {
    exists i :: 0 <= i < |run| && Throwing(run[i])
  }

  /** At most one timer or socket, and exactly one while the client is started, not closed and has not thrown. */
  ghost predicate Single(s: State, threw: bool) {
    && s.timers.Keys == (if s.timer.Some? then {s.timer.value} else {})
    && (forall id :: id in s.sockets && !s.sockets[id].Gone? ==> s.ws == Some(id))
    && (forall id :: id in s.sockets ==> id < s.next)
    && (s.timer.Some? ==> s.started && !s.closed && !Unclosed(s) && !threw)
    && (!s.started ==> !Unclosed(s) && !threw)
    && (s.started && !s.closed && s.timer.None? ==> (Unclosed(s) <==> !threw))
  }

  lemma SingleStep(s: State, threw: bool, e: Step)
    requires Single(s, threw) && Can(s, e)
    ensures Single(Do(s, e), threw || Throwing(e))
  {
  }

  lemma ThrewMore(run: seq<Step>)
    requires run != []
    ensures Threw(run) <==> Threw(run[..|run| - 1]) || Throwing(run[|run| - 1])
  {
    var front := run[..|run| - 1];
    forall i | 0 <= i < |run| && Throwing(run[i]) ensures Threw(front) || Throwing(run[|run| - 1]) {
      if i < |front| { assert Throwing(front[i]); }
    }
    if Threw(front) {
      var i :| 0 <= i < |front| && Throwing(front[i]);
      assert Throwing(run[i]);
    }
  }

  lemma {:induction false} AlwaysSingle(run: seq<Step>)
    requires IsRun(run)
    ensures Single(Final(run), Threw(run))
    decreases |run|
  {
    if run != [] {
      AlwaysSingle(run[..|run| - 1]);
      SingleStep(Final(run[..|run| - 1]), Threw(run[..|run| - 1]), run[|run| - 1]);
      ThrewMore(run);
    }
  }

  /** The sockets whose close event is still to come. */
  function OpenSockets(s: State): set<nat> {
    set id | id in s.sockets && !s.sockets[id].Gone?
  }

  function Busy(s: State): nat {
    |s.timers.Keys| + |OpenSockets(s)|
  }

  /**
   In every interleaving there is at most one armed timer or unclosed socket; while the client runs there is
   exactly one unless a dial threw, and then there is none: the loop is stranded. Once closed there is no timer.
   */
  lemma OneAtATime(run: seq<Step>)
    requires IsRun(run)
    ensures Busy(Final(run)) <= 1
    ensures Final(run).started && !Final(run).closed ==> Busy(Final(run)) == if Threw(run) then 0 else 1
    ensures Final(run).closed ==> Final(run).timers == map[]
  {
    AlwaysSingle(run);
    var s := Final(run);
    if Unclosed(s) {
      assert OpenSockets(s) == {s.ws.value};
    } else {
      assert OpenSockets(s) == {};
    }
  }

  /** The browser's dial catches every exception, so its loop is never stranded. */
  lemma BrowserIsNeverStranded(run: seq<Step>)
    requires IsRun(run) && forall e :: e in run ==> !Throwing(e)
    ensures Final(run).started && !Final(run).closed ==> Busy(Final(run)) == 1
  {
    OneAtATime(run);
  }

  /** `ports[i]` is what the SDK read from the discovery file when step `i` dialed. */
  ghost predicate ReadBy(run: seq<Step>, ports: seq<Option<int>>) {
    |ports| == |run| && forall i :: 0 <= i < |run| && (run[i].Start? || run[i].Fire?) ==>
      run[i].a == AttemptOf(ports[i])
  }

  /** The SDK's loop is stranded, running with neither timer nor socket, exactly if it read a port above 65535. */
  lemma SdkStrandedExactly(run: seq<Step>, ports: seq<Option<int>>)
    requires IsRun(run) && ReadBy(run, ports) && Final(run).started && !Final(run).closed
    ensures Busy(Final(run)) == 0 <==>
            exists i :: 0 <= i < |run| && (run[i].Start? || run[i].Fire?) && ports[i].Some? && ports[i].value > 65_535
  {
    OneAtATime(run);
    if Threw(run) {
      var i :| 0 <= i < |run| && Throwing(run[i]);
      assert AttemptOf(ports[i]).Throws?;
    }
    forall i | 0 <= i < |run| && (run[i].Start? || run[i].Fire?) && ports[i].Some? && ports[i].value > MAX_PORT
      ensures Threw(run)
    {
      assert Throwing(run[i]);
    }
  }

  /** Port 65536 in the discovery file strands it at once. */
  lemma PortTooHighStrands() returns (run: seq<Step>)
    ensures IsRun(run) && ReadBy(run, [Some(65536)])
    ensures Final(run).started && !Final(run).closed && Final(run).timers == map[] && Final(run).sockets == map[]
  {
    run := [Start(AttemptOf(Some(65536)))];
    assert run[..|run| - 1] == [];
    assert IsRun(run[..|run| - 1]);
  }

  // ---------------------------------------------------------------- delays

  function Pow2(k: nat): nat {
    if k == 0 then 1 else 2 * Pow2(k - 1)
  }

  /** What the loop waits after `k` failures in a row. */
  function Delay(k: nat): nat {
    Min(1_000 * Pow2(k), 30_000)
  }

  /** The failures since the last welcome. */
  function Failures(log: seq<Event>): nat {
    if log == [] || log[|log| - 1].Welcomed? then 0
    else Failures(log[..|log| - 1]) + (if log[|log| - 1].Armed? then 1 else 0)
  }

  ghost predicate Delayed(s: State) {
    && s.backoff == Delay(Failures(s.log))
    && forall i :: 0 <= i < |s.log| && s.log[i].Armed? ==> s.log[i].delay == Delay(Failures(s.log[..i]))
  }

  lemma DelayNext(k: nat)
    ensures Min(Delay(k) * 2, MAX_BACKOFF) == Delay(k + 1)
  {
  }

  lemma DelayedAppend(log: seq<Event>, x: Event)
    requires forall i :: 0 <= i < |log| && log[i].Armed? ==> log[i].delay == Delay(Failures(log[..i]))
    requires x.Armed? ==> x.delay == Delay(Failures(log))
    ensures forall i :: 0 <= i < |log + [x]| && (log + [x])[i].Armed? ==>
      (log + [x])[i].delay == Delay(Failures((log + [x])[..i]))
    ensures Failures(log + [x]) == if x.Welcomed? then 0 else Failures(log) + (if x.Armed? then 1 else 0)
  {
    var more := log + [x];
    assert more[..|log|] == log;
    forall i | 0 <= i < |more| && more[i].Armed? ensures more[i].delay == Delay(Failures(more[..i])) {
      if i < |log| { assert more[..i] == log[..i]; }
    }
  }

  /** The one event that a step may log, and what goes with it. */
  ghost predicate LogsOne(s: State, t: State, x: Event) {
    && t.log == s.log + [x]
    && (x.Armed? ==> x.delay == s.backoff && t.backoff == Min(s.backoff * 2, MAX_BACKOFF))
    && (x.Welcomed? ==> t.backoff == INITIAL_BACKOFF)
    && (x.Dialed? || x.Shut? ==> t.backoff == s.backoff)
    && (x.Armed? || x.Dialed? ==> !s.closed)
    && t.closed == (s.closed || x.Shut?)
  }

  ghost predicate Logs(s: State, t: State) {
    || (t.log == s.log && t.backoff == s.backoff && t.closed == s.closed)
    || (|t.log| == |s.log| + 1 && LogsOne(s, t, t.log[|s.log|]))
  }

  lemma StepLogs(s: State, e: Step)
    requires Can(s, e)
    ensures Logs(s, Do(s, e))
  {
  }

  lemma DelayedArmed(s: State, t: State, x: Event)
    requires Delayed(s) && LogsOne(s, t, x) && x.Armed?
    ensures Delayed(t)
  {
    DelayNext(Failures(s.log));
    DelayedAppend(s.log, x);
  }

  lemma DelayedOther(s: State, t: State, x: Event)
    requires Delayed(s) && LogsOne(s, t, x) && !x.Armed?
    ensures Delayed(t)
  {
    assert Delay(0) == INITIAL_BACKOFF;
    DelayedAppend(s.log, x);
  }

  lemma DelayedStep(s: State, t: State)
    requires Delayed(s) && Logs(s, t)
    ensures Delayed(t)
  {
    if t.log != s.log {
      var x := t.log[|s.log|];
      if x.Armed? { DelayedArmed(s, t, x); } else { DelayedOther(s, t, x); }
    }
  }

  /** Every wait is min(1000 · 2^k, 30000) ms, k being the failures in a row since the last welcome. */
  lemma {:induction false} WaitsDouble(run: seq<Step>)
    requires IsRun(run)
    ensures Delayed(Final(run))
    decreases |run|
  {
    if run != [] {
      WaitsDouble(run[..|run| - 1]);
      StepLogs(Final(run[..|run| - 1]), run[|run| - 1]);
      DelayedStep(Final(run[..|run| - 1]), Final(run));
    }
  }

  // ---------------------------------------------------------------- closed for good

  ghost predicate Silent(s: State) {
    && (s.closed <==> Shut in s.log)
    && forall i, j :: 0 <= i < j < |s.log| && s.log[i].Shut? ==> !s.log[j].Dialed? && !s.log[j].Armed?
  }

  lemma SilentStep(s: State, t: State)
    requires Silent(s) && Logs(s, t)
    ensures Silent(t)
  {
    if t.log != s.log { SilentAppend(s, t, t.log[|s.log|]); }
  }

  lemma SilentAppend(s: State, t: State, x: Event)
    requires Silent(s) && LogsOne(s, t, x)
    ensures Silent(t)
  {
    assert Shut in t.log <==> Shut in s.log || x == Shut;
  }

  /** Once closed, or once the hub has refused the SDK for good, a client never dials or arms a timer again. */
  lemma {:induction false} NeverDialsOnceClosed(run: seq<Step>)
    requires IsRun(run)
    ensures Silent(Final(run))
    decreases |run|
  {
    if run != [] {
      NeverDialsOnceClosed(run[..|run| - 1]);
      StepLogs(Final(run[..|run| - 1]), run[|run| - 1]);
      SilentStep(Final(run[..|run| - 1]), Final(run));
    }
  }

  /** Closed is what was closed, or what the hub has refused for good. */
  ghost predicate Ended(run: seq<Step>) {
    exists e :: e in run && (e.Close? || e.Fatal?)
  }

  lemma {:induction false} ClosedExactly(run: seq<Step>)
    requires IsRun(run)
    ensures Final(run).closed <==> Ended(run)
    decreases |run|
  {
    if run != [] {
      var before, e := run[..|run| - 1], run[|run| - 1];
      assert run == before + [e];
      ClosedExactly(before);
      assert forall x :: x in run <==> x in before || x == e;
      StepLogs(Final(before), e);
    }
  }

  /** No socket is open. */
  ghost predicate AllShut(s: State) {
    forall id :: id in s.sockets ==> !s.sockets[id].Open?
  }

  lemma AllShutStep(s: State, e: Step, threw: bool)
    requires Can(s, e) && Single(s, threw)
    ensures e.Close? || (AllShut(s) && s.closed) ==> AllShut(Do(s, e)) && Do(s, e).closed
  {
  }

  /** A client that was closed has closed its socket, and opens none. */
  lemma {:induction false} CloseShutsEverything(run: seq<Step>)
    requires IsRun(run) && exists e :: e in run && e.Close?
    ensures AllShut(Final(run)) && Final(run).closed
    decreases |run|
  {
    var before, e := run[..|run| - 1], run[|run| - 1];
    assert run == before + [e];
    AlwaysSingle(before);
    if !e.Close? { CloseShutsEverything(before); }
    AllShutStep(Final(before), e, Threw(before));
  }

  /** A client can be closed at any time, also before it is started, and its socket be dropped. */
  lemma CloseAnyTime(run: seq<Step>)
    requires IsRun(run)
    ensures IsRun(run + [Drop]) && IsRun(run + [Close]) && AllShut(Final(run + [Close])) && Final(run + [Close]).closed
  {
    assert (run + [Drop])[..|run|] == run && (run + [Close])[..|run|] == run;
    assert (run + [Close])[|run|] == Close;
    CloseShutsEverything(run + [Close]);
  }

  // ---------------------------------------------------------------- what a dial leads to

  /** A new socket, and nothing else. */
  ghost predicate Opens(s: State, t: State) {
    exists id :: id !in s.sockets && t.ws == Some(id) && t.sockets == s.sockets[id := Open]
      && t.timers == map[] && t.log == s.log + [Dialed(id)]
  }

  /** A timer, and nothing else. */
  ghost predicate Waits(s: State, t: State, delay: nat) {
    t.sockets == s.sockets && t.timers.Values == {delay} && t.log == s.log + [Armed(delay)]
  }

  lemma DialStep(s: State, e: Step, threw: bool)
    requires Can(s, e) && Single(s, threw) && (e.Start? || e.Fire?) && !s.closed
    ensures e.a.Works? ==> Opens(s, Do(s, e))
    ensures e.a.Fails? ==> Waits(s, Do(s, e), s.backoff)
    ensures e.a.Throws? ==> Do(s, e).sockets == s.sockets && Do(s, e).timers == map[] && Do(s, e).log == s.log
  {
    var t := Do(s, e);
    if e.a.Fails? {
      assert t.timers == map[t.timer.value := s.backoff];
      assert t.timer.value in t.timers.Keys;
    }
  }

  /**
   The SDK reads a port and dials: a port from 1 to 65535 opens a socket; none, and one below, is a failure, and the
   next wait is armed; one above strands the loop.
   */
  lemma DialExactly(run: seq<Step>, e: Step, port: Option<int>)
    requires IsRun(run) && IsRun(run + [e]) && (e.Start? || e.Fire?) && e.a == AttemptOf(port) && !Ended(run)
    ensures var s, t := Final(run), Final(run + [e]);
      if port.Some? && 1 <= port.value <= 65_535 then Opens(s, t)
      else if port.Some? && port.value > 65_535 then t.sockets == s.sockets && t.timers == map[] && t.log == s.log
      else Waits(s, t, Delay(Failures(s.log)))
  {
    assert (run + [e])[..|run|] == run;
    AlwaysSingle(run);
    ClosedExactly(run);
    WaitsDouble(run);
    DialStep(Final(run), e, Threw(run));
  }
}
