/** The counters of a connection's main loop. */
module HubLiveness {
  /**
   What the loop sees: a ping interval passes, a pong comes, a frame is not acceptable or is, or the
   socket closes or refuses what is sent.
   */
  datatype Input = Tick | Pong | Bad | Good | Broken

  datatype Counters = Counters(unanswered: nat, strikes: nat, open: bool)

  /** The loop's state after some inputs; it ignores what comes after it has ended. */
  function After(inputs: seq<Input>): Counters {
    if inputs == [] then Counters(0, 0, true)
    else Next(After(inputs[..|inputs| - 1]), inputs[|inputs| - 1])
  }

  function Next(c: Counters, i: Input): Counters {
    if !c.open then c
    else match i
      case Tick => if c.unanswered >= 2 then c.(open := false) else c.(unanswered := c.unanswered + 1)
      case Pong => c.(unanswered := 0)
      case Bad => c.(strikes := c.strikes + 1, open := c.strikes + 1 < 3)
      case Good => c
      case Broken => c.(open := false)
  }

  class ConnectionLoop {
    var unansweredPings: nat
    var strikes: nat
    var open: bool

    constructor ()
      ensures Counted() == After([])
    {
      unansweredPings, strikes, open := 0, 0, true;
    }

    function Counted(): Counters
      reads this
    {
      Counters(unansweredPings, strikes, open)
    }

    method Handle(i: Input)
      requires open
      modifies this
      ensures Counted() == Next(old(Counted()), i)
    {
      match i {
        case Tick =>
          if unansweredPings >= 2 { open := false; } else { unansweredPings := unansweredPings + 1; }
        case Pong => unansweredPings := 0;
        case Bad =>
          strikes := strikes + 1;
          if strikes >= 3 { open := false; }
        case Good =>
        case Broken => open := false;
      }
    }
  }

  function Strikes(inputs: seq<Input>): nat {
    if inputs == [] then 0
    else Strikes(inputs[..|inputs| - 1]) + (if inputs[|inputs| - 1].Bad? then 1 else 0)
  }

  /** The intervals that have passed since the last pong. */
  function Silence(inputs: seq<Input>): nat {
    if inputs == [] || inputs[|inputs| - 1].Pong? then 0
    else Silence(inputs[..|inputs| - 1]) + (if inputs[|inputs| - 1].Tick? then 1 else 0)
  }

  /** A sound socket, never three unacceptable frames, and never three intervals in a row without a pong. */
  ghost predicate Behaves(inputs: seq<Input>) {
    Broken !in inputs && Strikes(inputs) < 3 && forall i :: 0 <= i <= |inputs| ==> Silence(inputs[..i]) <= 2
  }

  lemma SilenceFront(inputs: seq<Input>, i: nat)
    requires i < |inputs|
    ensures Silence(inputs[..|inputs| - 1][..i]) == Silence(inputs[..i])
  {
    assert inputs[..|inputs| - 1][..i] == inputs[..i];
  }

  lemma BehavesFront(inputs: seq<Input>)
    requires inputs != [] && Behaves(inputs)
    ensures Behaves(inputs[..|inputs| - 1]) && Silence(inputs) <= 2
  {
    var front := inputs[..|inputs| - 1];
    forall i | 0 <= i <= |front| ensures Silence(front[..i]) <= 2 { SilenceFront(inputs, i); }
    assert inputs[..|inputs|] == inputs;
  }

  lemma StillSound(inputs: seq<Input>)
    requires inputs != [] && Broken !in inputs[..|inputs| - 1] && !inputs[|inputs| - 1].Broken?
    ensures Broken !in inputs
  {
    var front := inputs[..|inputs| - 1];
    forall i | 0 <= i < |inputs| ensures inputs[i] != Broken {
      if i < |front| { assert front[i] == inputs[i]; }
    }
  }

  lemma BehavesMore(inputs: seq<Input>)
    requires inputs != [] && Behaves(inputs[..|inputs| - 1]) && Strikes(inputs) < 3 && Silence(inputs) <= 2
    requires !inputs[|inputs| - 1].Broken?
    ensures Behaves(inputs)
  {
    StillSound(inputs);
    forall i | 0 <= i <= |inputs| ensures Silence(inputs[..i]) <= 2 {
      if i == |inputs| { assert inputs[..i] == inputs; } else { SilenceFront(inputs, i); }
    }
  }

  /** A connection is kept exactly as long as its peer behaves. */
  lemma {:induction false} OpenExact(inputs: seq<Input>)
    ensures After(inputs).open <==> Behaves(inputs)
    ensures After(inputs).open ==> After(inputs) == Counters(Silence(inputs), Strikes(inputs), true)
    decreases |inputs|
  {
    if inputs != [] {
      OpenExact(inputs[..|inputs| - 1]);
      if Behaves(inputs) {
        BehavesFront(inputs);
      } else if After(inputs).open {
        BehavesMore(inputs);
      }
    }
  }
}
