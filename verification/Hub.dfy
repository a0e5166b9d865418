/**
 The hub's shared maps and the sections that change them under its one lock: connectors with the frames
 queued for them, requests that wait for a response, and parked pairings.
 */
module Hub {
  import opened Common

  type Id = string

  /** A pairing request that awaits the user. */
  datatype Parked = Parked(name: string, kind: string)

  datatype Tables = Tables(connectors: map<Id, seq<Id>>, pending: map<Id, Id>, pairings: map<Id, Parked>)

  datatype SendResult = Queued | UnknownConnector | ChannelClosed

  function SendOutcome(t: Tables, target: Id, open: bool): SendResult {
    if target !in t.connectors then UnknownConnector else if !open then ChannelClosed else Queued
  }

  /** The locked section of `send_command`: the frame is queued and its waiter stored at once. */
  function Sent(t: Tables, target: Id, request: Id, open: bool): Tables {
    if SendOutcome(t, target, open) != Queued then t
    else t.(connectors := t.connectors[target := t.connectors[target] + [request]],
      pending := t.pending[request := target])
  }

  function Registered(t: Tables, id: Id): Tables {
    t.(connectors := t.connectors[id := []])
  }

  function Forgotten(t: Tables, request: Id): Tables {
    t.(pending := t.pending - {request})
  }

  /** The requests that were sent to a connector. */
  function Stale(pending: map<Id, Id>, id: Id): set<Id> {
    set r | r in pending && pending[r] == id
  }

  function CleanedUp(t: Tables, id: Id): Tables {
    t.(connectors := t.connectors - {id}, pending := t.pending - Stale(t.pending, id))
  }

  predicate AlreadyPending(t: Tables, name: string, kind: string) {
    exists id :: id in t.pairings && t.pairings[id] == Parked(name, kind)
  }

  function ParkedIn(t: Tables, id: Id, name: string, kind: string): Tables {
    if AlreadyPending(t, name, kind) then t else t.(pairings := t.pairings[id := Parked(name, kind)])
  }

  function Unparked(t: Tables, id: Id): Tables {
    t.(pairings := t.pairings - {id})
  }

  class HubState {
    var connectors: map<Id, seq<Id>>
    var pending: map<Id, Id>
    var pairings: map<Id, Parked>

    constructor ()
      ensures Shared() == Tables(map[], map[], map[])
    {
      connectors, pending, pairings := map[], map[], map[];
    }

    function Shared(): Tables
      reads this
    {
      Tables(connectors, pending, pairings)
    }

    method Register(id: Id)
      modifies this
      ensures Shared() == Registered(old(Shared()), id)
    {
      connectors := connectors[id := []];
    }

    method SendCommand(target: Id, request: Id, open: bool) returns (r: SendResult)
      modifies this
      ensures r == SendOutcome(old(Shared()), target, open)
      ensures Shared() == Sent(old(Shared()), target, request, open)
    {
      if target !in connectors { return UnknownConnector; }
      if !open { return ChannelClosed; }
      connectors := connectors[target := connectors[target] + [request]];
      pending := pending[request := target];
      return Queued;
    }

    /** `pending.remove`, by a response of any connection or by a caller that timed out. */
    method RemovePending(request: Id) returns (found: bool)
      modifies this
      ensures found == (request in old(pending)) && Shared() == Forgotten(old(Shared()), request)
    {
      found := request in pending;
      pending := pending - {request};
    }

    /** `cleanup`: unregisters the connector and fails every request sent to it. */
    method Cleanup(id: Id) returns (failed: set<Id>)
      modifies this
      ensures Shared() == CleanedUp(old(Shared()), id) && failed == Stale(old(pending), id)
    {
      connectors := connectors - {id};
      var left := pending.Keys;
      var stale: set<Id> := {};
      while left != {}
        invariant left <= pending.Keys && stale == set r | r in pending && r !in left && pending[r] == id
      {
        var r :| r in left;
        left := left - {r};
        if pending[r] == id { stale := stale + {r}; }
      }
      assert stale == Stale(pending, id);
      failed := {};
      while stale != {}
        invariant failed + stale == Stale(old(pending), id) && pending == old(pending) - failed
        invariant connectors == old(connectors) - {id} && pairings == old(pairings)
      {
        var r :| r in stale;
        stale := stale - {r};
        pending := pending - {r};
        failed := failed + {r};
      }
    }

    /** The locked section of `handle_pairing`: check and insert at once. */
    method Park(id: Id, name: string, kind: string) returns (parked: bool)
      modifies this
      ensures parked == !AlreadyPending(old(Shared()), name, kind)
      ensures Shared() == ParkedIn(old(Shared()), id, name, kind)
    {
      var left := pairings.Keys;
      while left != {}
        invariant left <= pairings.Keys
        invariant forall i :: i in pairings && i !in left ==> pairings[i] != Parked(name, kind)
      {
        var i :| i in left;
        left := left - {i};
        if pairings[i] == Parked(name, kind) { return false; }
      }
      pairings := pairings[id := Parked(name, kind)];
      return true;
    }

    /** The removal in `resolve_pairing`, and the one after the wait in `handle_pairing`. */
    method Unpark(id: Id) returns (found: bool)
      modifies this
      ensures found == (id in old(pairings)) && Shared() == Unparked(old(Shared()), id)
    {
      found := id in pairings;
      pairings := pairings - {id};
    }
  }
}
