/** Callers, connections and pairings around the hub's maps. */
module HubProtocol {
  import opened Common
  import opened Hub

  // The steps are the sections that hold the hub's lock, and what happens between them. A caller's one-shot
  // channel is its own state: a waiting caller has an empty channel, an answered one a value it has not read yet.

  datatype Outcome = Replied(ok: bool) | Unknown | Disconnected | Timeout

  datatype Caller =
    | Waiting
    | Answered(outcome: Outcome)
    | TimedOut
    | Done(outcome: Outcome)

  /** A connection's task: in its loop, holding a waiter it took from the map, out of its loop, or gone. */
  datatype Connection = Serving | Holding(request: Id, outcome: Outcome) | Leaving | Gone

  datatype Pairing = Undecided | Decided(approved: bool) | Expired | Finished(approved: bool)

  datatype Event = Resolved(id: Id)

  datatype State = State(
    t: Tables, callers: map<Id, Caller>, connections: map<Id, Connection>, pairs: map<Id, Pairing>, log: seq<Event>)

  datatype Step =
    | Register(id: Id)
    | Send(target: Id, request: Id, open: bool)
    | TakeFrame(id: Id)
    | Respond(id: Id, request: Id, ok: bool)
    | Answer(id: Id)
    | Receive(request: Id)
    | Expire(request: Id)
    | GiveUp(request: Id)
    | Leave(id: Id)
    | Cleanup(id: Id)
    | Pair(id: Id, name: string, kind: string)
    | Resolve(id: Id, approved: bool)
    | PairExpire(id: Id)
    | PairFinish(id: Id)

  function Init(): State {
    State(Tables(map[], map[], map[]), map[], map[], map[], [])
  }

  predicate Has<T(==)>(m: map<Id, T>, id: Id, v: T) {
    id in m && m[id] == v
  }

  predicate Can(s: State, e: Step) {
    match e
    case Register(id) => id !in s.connections
    case Send(_, request, _) => request !in s.callers
    case TakeFrame(id) => Has(s.connections, id, Serving) && id in s.t.connectors && s.t.connectors[id] != []
    case Respond(id, _, _) => Has(s.connections, id, Serving)
    case Answer(id) => id in s.connections && s.connections[id].Holding?
    case Receive(request) => request in s.callers && s.callers[request].Answered?
    case Expire(request) => Has(s.callers, request, Waiting)
    case GiveUp(request) => Has(s.callers, request, TimedOut)
    case Leave(id) => Has(s.connections, id, Serving)
    case Cleanup(id) => Has(s.connections, id, Leaving)
    case Pair(id, _, _) => id !in s.pairs
    case Resolve(_, _) => true
    case PairExpire(id) => Has(s.pairs, id, Undecided)
    case PairFinish(id) => id in s.pairs && (s.pairs[id].Decided? || s.pairs[id].Expired?)
  }

  /** What sending into a caller's channel does: nothing once the caller has stopped listening. */
  function Deliver(c: Caller, o: Outcome): Caller {
    if c.Waiting? then Answered(o) else c
  }

  function DeliverAll(callers: map<Id, Caller>, requests: set<Id>, o: Outcome): map<Id, Caller> {
    map r | r in callers :: if r in requests then Deliver(callers[r], o) else callers[r]
  }

  function CallerAfterSend(r: SendResult): Caller {
    match r
    case Queued => Waiting
    case UnknownConnector => Done(Unknown)
    case ChannelClosed => Done(Disconnected)
  }

  function Do(s: State, e: Step): State
    requires Can(s, e)
  {
    match e
    case Register(id) => s.(t := Registered(s.t, id), connections := s.connections[id := Serving])
    case Send(target, request, open) =>
      s.(t := Sent(s.t, target, request, open),
        callers := s.callers[request := CallerAfterSend(SendOutcome(s.t, target, open))])
    case TakeFrame(id) => s.(t := s.t.(connectors := s.t.connectors[id := s.t.connectors[id][1..]]))
    case Respond(id, request, ok) =>
      if request !in s.t.pending then s
      else s.(t := Forgotten(s.t, request), connections := s.connections[id := Holding(request, Replied(ok))])
    case Answer(id) =>
      var h := s.connections[id];
      s.(callers := DeliverAll(s.callers, {h.request}, h.outcome), connections := s.connections[id := Serving])
    case Receive(request) => s.(callers := s.callers[request := Done(s.callers[request].outcome)])
    case Expire(request) => s.(callers := s.callers[request := TimedOut])
    case GiveUp(request) => s.(t := Forgotten(s.t, request), callers := s.callers[request := Done(Timeout)])
    case Leave(id) => s.(connections := s.connections[id := Leaving])
    case Cleanup(id) =>
      s.(t := CleanedUp(s.t, id), connections := s.connections[id := Gone],
         callers := DeliverAll(s.callers, Stale(s.t.pending, id), Disconnected))
    case Pair(id, name, kind) =>
      s.(t := ParkedIn(s.t, id, name, kind),
         pairs := s.pairs[id := if AlreadyPending(s.t, name, kind) then Finished(false) else Undecided])
    case Resolve(id, approved) =>
      if id !in s.t.pairings then s
      else
        s.(t := Unparked(s.t, id), log := s.log + [Resolved(id)],
           pairs := if Has(s.pairs, id, Undecided) then s.pairs[id := Decided(approved)] else s.pairs)
    case PairExpire(id) => s.(pairs := s.pairs[id := Expired])
    case PairFinish(id) =>
      s.(t := Unparked(s.t, id), pairs := s.pairs[id := Finished(s.pairs[id].Decided? && s.pairs[id].approved)])
  }

  ghost predicate IsRun(steps: seq<Step>)
    decreases |steps|, 0
  {
    steps == [] || (IsRun(steps[..|steps| - 1]) && Can(Final(steps[..|steps| - 1]), steps[|steps| - 1]))
  }

  ghost function Final(steps: seq<Step>): State
    requires IsRun(steps)
    decreases |steps|, 1
  {
    if steps == [] then Init() else Do(Final(steps[..|steps| - 1]), steps[|steps| - 1])
  }

  // ---------------------------------------------------------------- requests

  /** A caller that still listens for, or has just given up on, an answer. */
  predicate Unsettled(c: Caller) {
    c.Waiting? || c.TimedOut?
  }

  /** Each pending request names a registered connector and has an unsettled caller; so has each held one. */
  ghost predicate Owned(s: State) {
    && (forall r :: r in s.t.pending ==> s.t.pending[r] in s.t.connectors && r in s.callers && Unsettled(s.callers[r]))
    && (forall c :: c in s.connections && s.connections[c].Holding? ==>
        s.connections[c].request !in s.t.pending && s.connections[c].request in s.callers
          && !s.callers[s.connections[c].request].Answered?)
    && (forall c, d ::
      c in s.connections && d in s.connections && c != d && s.connections[c].Holding? && s.connections[d].Holding? ==>
        s.connections[c].request != s.connections[d].request)
  }

  ghost predicate HeldBySome(s: State, r: Id) {
    exists c :: c in s.connections && s.connections[c].Holding? && s.connections[c].request == r
  }

  /** A waiting caller's channel is in the map or in the hands of a connection: an answer will find it. */
  ghost predicate Reachable(s: State) {
    forall r :: r in s.callers && s.callers[r].Waiting? ==> r in s.t.pending || HeldBySome(s, r)
  }

  /** The registry is the connections that are not gone; queued frames belong to known requests. */
  ghost predicate Registry(s: State) {
    && (forall c :: c in s.t.connectors <==> c in s.connections && !s.connections[c].Gone?)
    && (forall c, r :: c in s.t.connectors && r in s.t.connectors[c] ==> r in s.callers)
  }

  lemma OwnedRespond(s: State, id: Id, r: Id, ok: bool)
    requires Owned(s) && Can(s, Respond(id, r, ok))
    ensures Owned(Do(s, Respond(id, r, ok)))
  {
  }

  lemma OwnedCleanup(s: State, id: Id)
    requires Owned(s) && Can(s, Cleanup(id))
    ensures Owned(Do(s, Cleanup(id)))
  {
  }

  lemma OwnedSend(s: State, target: Id, r: Id, open: bool)
    requires Owned(s) && Can(s, Send(target, r, open))
    ensures Owned(Do(s, Send(target, r, open)))
  {
  }

  lemma OwnedAnswer(s: State, id: Id)
    requires Owned(s) && Can(s, Answer(id))
    ensures Owned(Do(s, Answer(id)))
  {
  }

  lemma OwnedStep(s: State, e: Step)
    requires Owned(s) && Registry(s) && Can(s, e)
    ensures Owned(Do(s, e))
  {
    match e
    case Respond(id, r, ok) => OwnedRespond(s, id, r, ok);
    case Cleanup(id) => OwnedCleanup(s, id);
    case Send(target, r, open) => OwnedSend(s, target, r, open);
    case Answer(id) => OwnedAnswer(s, id);
    case _ =>
  }

  lemma HeldAfter(s: State, e: Step, r: Id)
    requires Can(s, e) && HeldBySome(s, r) && !(e.Answer? && s.connections[e.id].request == r)
    ensures HeldBySome(Do(s, e), r)
  {
    var c :| c in s.connections && s.connections[c].Holding? && s.connections[c].request == r;
    assert c in Do(s, e).connections && Do(s, e).connections[c] == s.connections[c];
  }

  lemma TakenInHand(s: State, id: Id, r: Id, ok: bool)
    requires Can(s, Respond(id, r, ok)) && r in s.t.pending
    ensures HeldBySome(Do(s, Respond(id, r, ok)), r)
  {
    assert Do(s, Respond(id, r, ok)).connections[id] == Holding(r, Replied(ok));
  }

  lemma ReachableStep(s: State, e: Step)
    requires Reachable(s) && Can(s, e)
    ensures Reachable(Do(s, e))
  {
    var t := Do(s, e);
    forall r | r in t.callers && t.callers[r].Waiting? ensures r in t.t.pending || HeldBySome(t, r) {
      if HeldBySome(s, r) {
        HeldAfter(s, e, r);
      } else if e.Respond? && e.request == r && r in s.t.pending {
        TakenInHand(s, e.id, r, e.ok);
      }
    }
  }

  lemma RegistryStep(s: State, e: Step)
    requires Registry(s) && Can(s, e)
    ensures Registry(Do(s, e))
  {
  }

  // ---------------------------------------------------------------- pairings

  /** At most one pairing is parked per name and kind, and each parked one belongs to an open request. */
  ghost predicate ParkedOnce(s: State) {
    && (forall a, b :: a in s.t.pairings && b in s.t.pairings && a != b ==> s.t.pairings[a] != s.t.pairings[b])
    && (forall a :: a in s.t.pairings ==> a in s.pairs && (s.pairs[a].Undecided? || s.pairs[a].Expired?))
    && (forall a :: a in s.pairs && s.pairs[a].Undecided? ==> a in s.t.pairings)
  }

  /** A pairing that was resolved is parked no more, and was resolved once. */
  ghost predicate ResolvedOnce(s: State) {
    && (forall i :: 0 <= i < |s.log| ==> s.log[i].id !in s.t.pairings && s.log[i].id in s.pairs)
    && (forall i, j :: 0 <= i < j < |s.log| ==> s.log[i].id != s.log[j].id)
  }

  lemma ParkedStep(s: State, e: Step)
    requires ParkedOnce(s) && Can(s, e)
    ensures ParkedOnce(Do(s, e))
  {
  }

  lemma ResolvedStep(s: State, e: Step)
    requires ParkedOnce(s) && ResolvedOnce(s) && Can(s, e)
    ensures ResolvedOnce(Do(s, e))
  {
  }

  // ---------------------------------------------------------------- every run

  ghost predicate Inv(s: State) {
    Owned(s) && Reachable(s) && Registry(s) && ParkedOnce(s) && ResolvedOnce(s)
  }

  lemma InvStep(s: State, e: Step)
    requires Inv(s) && Can(s, e)
    ensures Inv(Do(s, e))
  {
    OwnedStep(s, e);
    ReachableStep(s, e);
    RegistryStep(s, e);
    ParkedStep(s, e);
    ResolvedStep(s, e);
  }

  /**
   In every reachable state: each pending request names a registered connector and has one caller that waits
   or has just timed out; every frame queued for a connector has its caller on record and every waiting caller
   can be reached, so no response comes before its waiter is stored; and pairings are parked once.
   */
  lemma {:induction false} Invariant(run: seq<Step>)
    requires IsRun(run)
    ensures var s := Final(run); Owned(s) && Reachable(s) && Registry(s) && ParkedOnce(s) && ResolvedOnce(s)
    decreases |run|
  {
    if run != [] {
      Invariant(run[..|run| - 1]);
      InvStep(Final(run[..|run| - 1]), run[|run| - 1]);
    }
  }

  /** What a caller has been told, or will be told once it reads its channel. */
  function Told(c: Caller): Option<Outcome> {
    match c
    case Answered(o) => Some(o)
    case Done(o) => Some(o)
    case _ => None
  }

  lemma ToldStays(s: State, e: Step, r: Id)
    requires Can(s, e) && r in s.callers && Told(s.callers[r]).Some?
    ensures r in Do(s, e).callers && Told(Do(s, e).callers[r]) == Told(s.callers[r])
  {
  }

  /** An outcome, once there, is final: every caller gets exactly one. */
  lemma {:induction false} OneOutcome(run: seq<Step>, more: seq<Step>, r: Id)
    requires IsRun(run) && IsRun(run + more) && r in Final(run).callers && Told(Final(run).callers[r]).Some?
    ensures r in Final(run + more).callers && Told(Final(run + more).callers[r]) == Told(Final(run).callers[r])
    decreases |more|
  {
    if more == [] {
      assert run + more == run;
    } else {
      var front, e := more[..|more| - 1], more[|more| - 1];
      assert (run + more)[..|run + more| - 1] == run + front;
      OneOutcome(run, front, r);
      ToldStays(Final(run + front), e, r);
    }
  }

  /** A caller that has its outcome has left no entry behind. */
  lemma DoneLeavesNothing(run: seq<Step>, r: Id)
    requires IsRun(run) && r in Final(run).callers && Told(Final(run).callers[r]).Some?
    ensures r !in Final(run).t.pending
  {
    Invariant(run);
  }

  /** A response by any connection to a request whose caller waits reaches that caller. */
  lemma ResponseArrives(s: State, id: Id, r: Id, ok: bool)
    requires Inv(s) && Has(s.connections, id, Serving) && r in s.t.pending && Has(s.callers, r, Waiting)
    ensures Has(Do(Do(s, Respond(id, r, ok)), Answer(id)).callers, r, Answered(Replied(ok)))
  {
  }

  /** A request sent to a connector that goes away is answered at once, unless its caller has given up. */
  lemma CleanupAnswers(s: State, id: Id, r: Id)
    requires Inv(s) && Has(s.connections, id, Leaving) && Has(s.t.pending, r, id)
    ensures r !in Do(s, Cleanup(id)).t.pending
    ensures Has(Do(s, Cleanup(id)).callers, r, if s.callers[r].Waiting? then Answered(Disconnected) else TimedOut)
  {
  }

  /** A waiting caller can always end: with what is in its channel, or with a timeout that takes its entry away. */
  lemma EveryCallerCanEnd(s: State, r: Id)
    requires Inv(s) && r in s.callers
    ensures s.callers[r].Answered? ==> Can(s, Receive(r))
    ensures s.callers[r].Waiting? ==> Can(s, Expire(r)) && Can(Do(s, Expire(r)), GiveUp(r))
    ensures s.callers[r].Waiting? ==>
      Has(Do(Do(s, Expire(r)), GiveUp(r)).callers, r, Done(Timeout)) && r !in Do(Do(s, Expire(r)), GiveUp(r)).t.pending
    ensures s.callers[r].TimedOut? ==> Can(s, GiveUp(r))
  {
  }

  // ---------------------------------------------------------------- everything ends

  /** The steps that carry on what was begun; timeouts are among them. */
  predicate Carries(e: Step) {
    || e.Answer? || e.Receive? || e.Expire? || e.GiveUp? || e.Cleanup? || e.PairFinish? || e.PairExpire?
  }

  function Unfinished(s: State): set<Id> { set r | r in s.callers && !s.callers[r].Done? }

  function Listening(s: State): set<Id> { set r | r in s.callers && s.callers[r].Waiting? }

  function Engaged(s: State): set<Id> {
    set c | c in s.connections && (s.connections[c].Holding? || s.connections[c].Leaving?)
  }

  function OpenPairs(s: State): set<Id> { set p | p in s.pairs && !s.pairs[p].Finished? }

  function Undecideds(s: State): set<Id> { set p | p in s.pairs && s.pairs[p].Undecided? }

  /** How much is left to do. */
  function Rank(s: State): nat {
    |Unfinished(s)| + |Listening(s)| + |Engaged(s)| + |OpenPairs(s)| + |Undecideds(s)|
  }

  predicate AtRest(s: State) {
    Unfinished(s) == {} && Engaged(s) == {} && OpenPairs(s) == {}
  }

  lemma SmallerSet(a: set<Id>, b: set<Id>)
    requires a <= b
    ensures |a| <= |b| && (a != b ==> |a| < |b|)
  {
    if a != b {
      var x :| x in b && x !in a;
      SmallerSet(a, b - {x});
    }
  }

  /** `t` has nothing begun that `s` had not, and has something less. */
  predicate LessToDo(s: State, t: State) {
    && Unfinished(t) <= Unfinished(s) && Listening(t) <= Listening(s) && Engaged(t) <= Engaged(s)
    && OpenPairs(t) <= OpenPairs(s) && Undecideds(t) <= Undecideds(s)
    && (Unfinished(t) != Unfinished(s) || Listening(t) != Listening(s) || Engaged(t) != Engaged(s)
        || OpenPairs(t) != OpenPairs(s) || Undecideds(t) != Undecideds(s))
  }

  lemma LessIsLower(s: State, t: State)
    requires LessToDo(s, t)
    ensures Rank(t) < Rank(s)
  {
    SmallerSet(Unfinished(t), Unfinished(s));
    SmallerSet(Listening(t), Listening(s));
    SmallerSet(Engaged(t), Engaged(s));
    SmallerSet(OpenPairs(t), OpenPairs(s));
    SmallerSet(Undecideds(t), Undecideds(s));
  }

  lemma CallersEnd(s: State, e: Step)
    requires Can(s, e) && (e.Receive? || e.Expire? || e.GiveUp?)
    ensures LessToDo(s, Do(s, e))
  {
    var t := Do(s, e);
    assert e.request in (if e.Expire? then Listening(s) else Unfinished(s));
    assert e.request !in (if e.Expire? then Listening(t) else Unfinished(t));
  }

  lemma ConnectionsEnd(s: State, e: Step)
    requires Can(s, e) && (e.Answer? || e.Cleanup?)
    ensures LessToDo(s, Do(s, e))
  {
    assert e.id in Engaged(s) && e.id !in Engaged(Do(s, e));
  }

  lemma PairsEnd(s: State, e: Step)
    requires Can(s, e) && (e.PairExpire? || e.PairFinish?)
    ensures LessToDo(s, Do(s, e))
  {
    var t := Do(s, e);
    assert e.id in (if e.PairExpire? then Undecideds(s) else OpenPairs(s));
    assert e.id !in (if e.PairExpire? then Undecideds(t) else OpenPairs(t));
  }

  lemma EachStepIsProgress(s: State, e: Step)
    requires Can(s, e) && Carries(e)
    ensures Rank(Do(s, e)) < Rank(s)
  {
    if e.Receive? || e.Expire? || e.GiveUp? {
      CallersEnd(s, e);
    } else if e.Answer? || e.Cleanup? {
      ConnectionsEnd(s, e);
    } else {
      PairsEnd(s, e);
    }
    LessIsLower(s, Do(s, e));
  }

  /** While something is under way, some step can carry it on. */
  lemma SomeoneCanGoOn(s: State) returns (e: Step)
    requires !AtRest(s)
    ensures Carries(e) && Can(s, e)
  {
    if Engaged(s) != {} {
      var c :| c in Engaged(s);
      return if s.connections[c].Holding? then Answer(c) else Cleanup(c);
    } else if Unfinished(s) != {} {
      var r :| r in Unfinished(s);
      return if s.callers[r].Answered? then Receive(r) else if s.callers[r].Waiting? then Expire(r) else GiveUp(r);
    } else {
      var p :| p in OpenPairs(s);
      return if s.pairs[p].Undecided? then PairExpire(p) else PairFinish(p);
    }
  }

  lemma Extends(run: seq<Step>, e: Step)
    requires IsRun(run) && Can(Final(run), e)
    ensures IsRun(run + [e]) && Final(run + [e]) == Do(Final(run), e)
  {
    assert (run + [e])[..|run|] == run;
  }

  /** At rest nothing is left in the maps: no request waits and no pairing is parked. */
  lemma RestLeavesNothing(run: seq<Step>)
    requires IsRun(run) && AtRest(Final(run))
    ensures Final(run).t.pending == map[] && Final(run).t.pairings == map[]
  {
    Invariant(run);
    var s := Final(run);
    assert forall r :: r in s.t.pending ==> r in Unfinished(s);
    assert forall p :: p in s.t.pairings ==> p in OpenPairs(s);
  }

  /**
   From every reachable state, carrying on what was begun ends with every caller told, every disconnect cleaned up
   and every pairing settled, and leaves nothing in the maps.
   */
  lemma EverythingEnds(run: seq<Step>) returns (whole: seq<Step>)
    requires IsRun(run)
    ensures run <= whole && forall i :: |run| <= i < |whole| ==> Carries(whole[i])
    ensures IsRun(whole) && AtRest(Final(whole))
    ensures Final(whole).t.pending == map[] && Final(whole).t.pairings == map[]
    decreases Rank(Final(run))
  {
    if AtRest(Final(run)) {
      RestLeavesNothing(run);
      whole := run;
    } else {
      var e := SomeoneCanGoOn(Final(run));
      EachStepIsProgress(Final(run), e);
      Extends(run, e);
      whole := EverythingEnds(run + [e]);
    }
  }

  /** And it does so in any order: no more such steps can follow one another than the rank says. */
  lemma {:induction false} NothingGoesOnForever(run: seq<Step>, more: seq<Step>)
    requires IsRun(run) && IsRun(run + more) && forall e :: e in more ==> Carries(e)
    ensures Rank(Final(run + more)) + |more| <= Rank(Final(run))
    decreases |more|
  {
    if more == [] {
      assert run + more == run;
    } else {
      var front, e := more[..|more| - 1], more[|more| - 1];
      assert (run + more)[..|run + more| - 1] == run + front;
      NothingGoesOnForever(run, front);
      EachStepIsProgress(Final(run + front), e);
    }
  }

  // ---------------------------------------------------------------- pairings

  /** No two parked pairings are for the same name and kind. */
  lemma OneParkedPerConnector(run: seq<Step>, a: Id, b: Id)
    requires IsRun(run) && a in Final(run).t.pairings && b in Final(run).t.pairings
    requires Final(run).t.pairings[a] == Final(run).t.pairings[b]
    ensures a == b
  {
    Invariant(run);
  }

  /** `resolve_pairing` returns true at most once for an id: the log of its successes has no repetition. */
  lemma ResolvesOnce(run: seq<Step>, i: nat, j: nat)
    requires IsRun(run) && i < j < |Final(run).log|
    ensures Final(run).log[i] != Final(run).log[j]
  {
    Invariant(run);
  }

  /** A peer is told that it is paired only if its pairing was resolved. */
  ghost predicate ApprovedFairly(s: State) {
    forall p :: p in s.pairs && (s.pairs[p] == Decided(true) || s.pairs[p] == Finished(true)) ==> Resolved(p) in s.log
  }

  lemma ApprovalsStep(s: State, e: Step)
    requires ApprovedFairly(s) && Can(s, e)
    ensures ApprovedFairly(Do(s, e))
  {
  }

  lemma {:induction false} ApprovalsAreResolved(run: seq<Step>)
    requires IsRun(run)
    ensures ApprovedFairly(Final(run))
    decreases |run|
  {
    if run != [] {
      ApprovalsAreResolved(run[..|run| - 1]);
      ApprovalsStep(Final(run[..|run| - 1]), run[|run| - 1]);
    }
  }
}
