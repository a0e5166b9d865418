/** What is sent gets to its connector, and what is resolved to its peer. */
module HubDelivery {
  import opened Common
  import opened Hub
  import opened HubProtocol

  /** The connection has been registered and not yet cleaned up. */
  predicate Connected(s: State, c: Id) {
    c in s.connections && !s.connections[c].Gone?
  }

  // ---------------------------------------------------------------- frames

  /** The requests that were sent to a connector while it was connected and its channel open, in order. */
  ghost function SentTo(run: seq<Step>, c: Id): seq<Id>
    requires IsRun(run)
    decreases |run|
  {
    if run == [] then []
    else
      var before, e := run[..|run| - 1], run[|run| - 1];
      if e.Send? && e.target == c && e.open && Connected(Final(before), c) then SentTo(before, c) + [e.request]
      else SentTo(before, c)
  }

  /** The requests whose frames the connector's task has taken out of its queue, in order. */
  ghost function HandedTo(run: seq<Step>, c: Id): seq<Id>
    requires IsRun(run)
    decreases |run|
  {
    if run == [] then []
    else
      var before, e := run[..|run| - 1], run[|run| - 1];
      if e == TakeFrame(c) then HandedTo(before, c) + [Final(before).t.connectors[c][0]] else HandedTo(before, c)
  }

  lemma QueueStep(s: State, e: Step, c: Id)
    requires Registry(s) && Can(s, e)
    ensures Connected(s, c) && Connected(Do(s, e), c) ==>
      Do(s, e).t.connectors[c] ==
      if e.Send? && e.target == c && e.open then s.t.connectors[c] + [e.request]
      else if e == TakeFrame(c) then s.t.connectors[c][1..]
      else s.t.connectors[c]
    ensures !Connected(s, c) && Connected(Do(s, e), c) ==> c !in s.connections && Do(s, e).t.connectors[c] == []
    ensures c in s.connections ==> c in Do(s, e).connections
    ensures c in s.connections && !Connected(s, c) ==> !Connected(Do(s, e), c)
  {
  }

  /** The frames handed over are the first of those sent, and the queue, if there is one, holds the rest. */
  ghost predicate InOrder(s: State, c: Id, handed: seq<Id>, sent: seq<Id>) {
    && handed <= sent
    && (Connected(s, c) ==> c in s.t.connectors && handed + s.t.connectors[c] == sent)
    && (c !in s.connections ==> handed == [] == sent)
  }

  lemma OrderStep(s: State, e: Step, c: Id, handed: seq<Id>, sent: seq<Id>)
    requires Can(s, e) && Registry(s) && Registry(Do(s, e)) && InOrder(s, c, handed, sent)
    ensures InOrder(Do(s, e), c,
      if e == TakeFrame(c) then handed + [s.t.connectors[c][0]] else handed,
      if e.Send? && e.target == c && e.open && Connected(s, c) then sent + [e.request] else sent)
  {
    QueueStep(s, e, c);
    if e == TakeFrame(c) {
      assert s.t.connectors[c] == [s.t.connectors[c][0]] + s.t.connectors[c][1..];
      Associate(handed, [s.t.connectors[c][0]], s.t.connectors[c][1..]);
    } else if e.Send? && e.target == c && e.open && Connected(s, c) {
      Associate(handed, s.t.connectors[c], [e.request]);
    }
  }

  /**
   Nothing is lost and nothing invented: in every run, the frames that a connector has been handed are the first of
   those sent to it, in the order of the sends; and while it is connected the rest are in its queue.
   */
  lemma {:induction false} FramesArriveInOrder(run: seq<Step>, c: Id)
    requires IsRun(run)
    ensures HandedTo(run, c) <= SentTo(run, c)
    ensures Connected(Final(run), c) ==>
      c in Final(run).t.connectors && HandedTo(run, c) + Final(run).t.connectors[c] == SentTo(run, c)
    ensures InOrder(Final(run), c, HandedTo(run, c), SentTo(run, c))
    decreases |run|
  {
    if run != [] {
      var before, e := run[..|run| - 1], run[|run| - 1];
      FramesArriveInOrder(before, c);
      Invariant(before);
      Invariant(run);
      OrderStep(Final(before), e, c, HandedTo(before, c), SentTo(before, c));
    }
  }

  lemma {:induction false} SentHaveCallers(run: seq<Step>, c: Id)
    requires IsRun(run)
    ensures forall r :: r in SentTo(run, c) ==> r in Final(run).callers
    ensures forall i, j :: 0 <= i < j < |SentTo(run, c)| ==> SentTo(run, c)[i] != SentTo(run, c)[j]
    decreases |run|
  {
    if run != [] {
      SentHaveCallers(run[..|run| - 1], c);
      CallersStay(Final(run[..|run| - 1]), run[|run| - 1]);
    }
  }

  lemma CallersStay(s: State, e: Step)
    requires Can(s, e)
    ensures s.callers.Keys <= Do(s, e).callers.Keys
    ensures e.Send? ==> e.request !in s.callers && e.request in Do(s, e).callers
  {
  }

  /** Each is sent, and so handed over, once. */
  lemma FramesArriveOnce(run: seq<Step>, c: Id)
    requires IsRun(run)
    ensures forall i, j :: 0 <= i < j < |HandedTo(run, c)| ==> HandedTo(run, c)[i] != HandedTo(run, c)[j]
  {
    FramesArriveInOrder(run, c);
    SentHaveCallers(run, c);
  }

  /**
   What the caller of a send is told, and that it is not told otherwise: it waits exactly if the connector is connected
   and its channel open, and then its request is stored for that connector.
   */
  lemma SendTells(run: seq<Step>, target: Id, r: Id, open: bool)
    requires IsRun(run) && Can(Final(run), Send(target, r, open))
    ensures var s, t := Final(run), Do(Final(run), Send(target, r, open));
      && Has(t.callers, r,
           if !Connected(s, target) then Done(Unknown) else if !open then Done(Disconnected) else Waiting)
      && (Has(t.callers, r, Waiting) <==> Has(t.t.pending, r, target))
      && (forall q :: q != r ==> (q in t.t.pending <==> q in s.t.pending))
  {
    Invariant(run);
  }

  // ---------------------------------------------------------------- what a caller is told

  /** A step that gives this caller this outcome. */
  ghost predicate Tells(s: State, e: Step, r: Id, o: Outcome)
    requires Can(s, e)
  {
    match e
    case Send(target, request, open) =>
      request == r && ((o == Unknown && !Connected(s, target)) || (o == Disconnected && Connected(s, target) && !open))
    case Answer(c) => s.connections[c] == Holding(r, o)
    case Cleanup(c) => Has(s.t.pending, r, c) && o == Disconnected
    case GiveUp(request) => request == r && o == Timeout
    case _ => false
  }

  /** By case: what the step does to this caller. */
  lemma ToldStep(s: State, e: Step, r: Id, o: Outcome)
    requires Owned(s) && Registry(s) && Can(s, e) && !e.Cleanup? && (r in s.callers ==> Told(s.callers[r]).None?)
    ensures var t := Do(s, e);
      r in t.callers && Told(t.callers[r]) == Some(o) <==>
      Tells(s, e, r, o) && (e.GiveUp? || e.Send? || Has(s.callers, r, Waiting))
  {
  }

  lemma ToldByCleanup(s: State, e: Step, r: Id, o: Outcome)
    requires Owned(s) && Registry(s) && Can(s, e) && e.Cleanup? && (r in s.callers ==> Told(s.callers[r]).None?)
    ensures var t := Do(s, e);
      r in t.callers && Told(t.callers[r]) == Some(o) <==> Tells(s, e, r, o) && Has(s.callers, r, Waiting)
  {
  }

  /** A caller that waits or has given up is told by exactly these steps, and what they say. */
  lemma ToldBy(run: seq<Step>, e: Step, r: Id, o: Outcome)
    requires IsRun(run) && Can(Final(run), e)
    requires r in Final(run).callers ==> Told(Final(run).callers[r]).None?
    ensures var s, t := Final(run), Do(Final(run), e);
      r in t.callers && Told(t.callers[r]) == Some(o) <==>
      Tells(s, e, r, o) && (e.GiveUp? || e.Send? || Has(s.callers, r, Waiting))
  {
    Invariant(run);
    if e.Cleanup? { ToldByCleanup(Final(run), e, r, o); } else { ToldStep(Final(run), e, r, o); }
  }

  /** What a connection holds for a caller is what the response said. */
  lemma HeldBy(s: State, e: Step, c: Id, r: Id, o: Outcome)
    requires Can(s, e) && (c in s.connections ==> s.connections[c] != Holding(r, o))
    ensures Has(Do(s, e).connections, c, Holding(r, o)) <==>
      e.Respond? && e.id == c && e.request == r && o == Replied(e.ok) && r in s.t.pending
  {
  }

  // ---------------------------------------------------------------- pairings

  /** A pairing is parked exactly if none with its name and kind is, and is refused otherwise. */
  lemma PairExactly(s: State, id: Id, name: string, kind: string)
    requires Can(s, Pair(id, name, kind))
    ensures var t, taken := Do(s, Pair(id, name, kind)),
        exists a :: a in s.t.pairings && s.t.pairings[a].name == name && s.t.pairings[a].kind == kind;
      && Has(t.pairs, id, if taken then Finished(false) else Undecided)
      && t.t.pairings == if taken then s.t.pairings else s.t.pairings[id := Parked(name, kind)]
  {
    forall a | a in s.t.pairings && s.t.pairings[a].name == name && s.t.pairings[a].kind == kind
      ensures s.t.pairings[a] == Parked(name, kind)
    {
    }
  }

  /** How a pairing goes on: decided as it is resolved while it waits, expired if it is not, and so it ends. */
  lemma PairGoesOn(s: State, e: Step, p: Id)
    requires ParkedOnce(s) && Can(s, e) && p in s.pairs
    ensures p in Do(s, e).pairs && Do(s, e).pairs[p] ==
      if e.Resolve? && e.id == p && s.pairs[p].Undecided? then Decided(e.approved)
      else if e == PairExpire(p) then Expired
      else if e == PairFinish(p) then Finished(s.pairs[p] == Decided(true))
      else s.pairs[p]
  {
  }
}
