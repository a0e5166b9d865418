/** The agent socket's line reader: newline-delimited replies, handed out one at a time and in order. */
module LineReader {
  import opened Common

  const NEWLINE := '\n'

  // ---------------------------------------------------------------- lines of a text

  /** `indexOf("\n")`. */
  function IndexOf(text: string): (i: Option<nat>)
    ensures i.Some? ==> i.value < |text| && text[i.value] == NEWLINE && NEWLINE !in text[..i.value]
    ensures i.None? ==> NEWLINE !in text
  {
    if text == "" then None
    else if text[0] == NEWLINE then Some(0)
    else
      var i := IndexOf(text[1..]);
      if i.Some? then assert text[..i.value + 1] == [text[0]] + text[1..][..i.value]; Some(i.value + 1) else None
  }

  /** The lines that a newline has ended, */
  function Lines(text: string): seq<string>
    decreases |text|
  {
    var i := IndexOf(text);
    if i.None? then [] else [text[..i.value]] + Lines(text[i.value + 1..])
  }

  /** and what follows the last newline. */
  function Rest(text: string): string
    decreases |text|
  {
    var i := IndexOf(text);
    if i.None? then text else Rest(text[i.value + 1..])
  }

  /** Lines with their newlines. */
  function Ended(lines: seq<string>): string {
    if lines == [] then "" else lines[0] + "\n" + Ended(lines[1..])
  }

  lemma CutOne(text: string, i: nat, lines: seq<string>, rest: string)
    requires IndexOf(text) == Some(i) && Ended(lines) + rest == text[i + 1..]
    ensures Ended([text[..i]] + lines) + rest == text
  {
    assert ([text[..i]] + lines)[1..] == lines;
    Associate(text[..i] + [NEWLINE], Ended(lines), rest);
    assert text == text[..i] + [NEWLINE] + text[i + 1..];
  }

  /** The lines and the rest are exactly the text, cut at its newlines. */
  lemma {:induction false} CutExact(text: string)
    ensures Ended(Lines(text)) + Rest(text) == text
    decreases |text|
  {
    var i := IndexOf(text);
    if i.Some? {
      var rest := text[i.value + 1..];
      CutExact(rest);
      CutOne(text, i.value, Lines(rest), Rest(rest));
    } else {
      assert Ended([]) + text == text;
    }
  }

  lemma {:induction false} LinesHaveNoNewline(text: string)
    ensures '\n' !in Rest(text) && forall l :: l in Lines(text) ==> '\n' !in l
    decreases |text|
  {
    var i := IndexOf(text);
    if i.Some? { LinesHaveNoNewline(text[i.value + 1..]); }
  }

  lemma IndexAppend(a: string, b: string)
    requires IndexOf(a).Some?
    ensures IndexOf(a + b) == IndexOf(a)
  {
    if a[0] != NEWLINE {
      assert (a + b)[1..] == a[1..] + b;
      IndexAppend(a[1..], b);
    }
  }

  /** Reading on from what was left over gives the lines of the whole. */
  lemma {:induction false} LinesAppend(a: string, b: string)
    ensures Lines(a + b) == Lines(a) + Lines(Rest(a) + b) && Rest(a + b) == Rest(Rest(a) + b)
    decreases |a|
  {
    var i := IndexOf(a);
    if i.Some? {
      IndexAppend(a, b);
      var rest := a[i.value + 1..];
      assert (a + b)[..i.value] == a[..i.value] && (a + b)[i.value + 1..] == rest + b;
      LinesAppend(rest, b);
      Associate([a[..i.value]], Lines(rest), Lines(Rest(a) + b));
    }
  }

  // ---------------------------------------------------------------- the reader

  /** The reader's fields, and what its callers have got: lines in order, and refusals. */
  datatype State = State(buffer: string, queue: seq<string>, waiter: bool, closed: bool, delivered: seq<string>,
      refused: nat)

  /** A waiter takes an empty line for the closing once the socket is closed. */
  function Handed(s: State, line: string): State {
    if line == "" && s.closed then s.(waiter := false, refused := s.refused + 1)
    else s.(waiter := false, delivered := s.delivered + [line])
  }

  function TakeLine(s: State, line: string): State {
    if s.waiter then Handed(s, line) else s.(queue := s.queue + [line])
  }

  function Drained(s: State): State
    decreases |s.buffer|
  {
    var i := IndexOf(s.buffer);
    if i.None? then s
    else Drained(TakeLine(s.(buffer := s.buffer[i.value + 1..]), s.buffer[..i.value]))
  }

  function Received(s: State, chunk: string): State {
    Drained(s.(buffer := s.buffer + chunk))
  }

  function ClosedBy(s: State): State {
    var t := s.(closed := true);
    if t.waiter then Handed(t, "") else t
  }

  function Asked(s: State): State {
    if s.queue != [] then s.(queue := s.queue[1..], delivered := s.delivered + [s.queue[0]])
    else if s.closed then s.(refused := s.refused + 1)
    else s.(waiter := true)
  }

  datatype Reply = Line(line: string) | Refused | Pending

  class Reader {
    var buffer: string
    var queue: seq<string>
    var waiter: bool
    var closed: bool
    ghost var delivered: seq<string>
    ghost var refused: nat

    constructor ()
      ensures Now() == State("", [], false, false, [], 0)
    {
      buffer, queue, waiter, closed, delivered, refused := "", [], false, false, [], 0;
    }

    ghost function Now(): State
      reads this
    {
      State(buffer, queue, waiter, closed, delivered, refused)
    }

    method Hand(line: string)
      modifies this`waiter, this`delivered, this`refused
      ensures Now() == Handed(old(Now()), line)
    {
      waiter := false;
      if line == "" && closed { refused := refused + 1; } else { delivered := delivered + [line]; }
    }

    /** A line goes to the waiter, or into the queue. */
    method Take(index: nat)
      requires index < |buffer|
      modifies this
      ensures Now() == TakeLine(old(Now()).(buffer := old(buffer)[index + 1..]), old(buffer)[..index])
    {
      var line := buffer[..index];
      buffer := buffer[index + 1..];
      if waiter { Hand(line); } else { queue := queue + [line]; }
    }

    method OnData(chunk: string)
      modifies this
      ensures Now() == Received(old(Now()), chunk)
    {
      buffer := buffer + chunk;
      while IndexOf(buffer).Some?
        invariant Drained(Now()) == Received(old(Now()), chunk)
        decreases |buffer|
      {
        Take(IndexOf(buffer).value);
      }
    }

    method OnClose()
      modifies this
      ensures Now() == ClosedBy(old(Now()))
    {
      closed := true;
      if waiter { Hand(""); }
    }

    method Next() returns (r: Reply)
      modifies this
      ensures Now() == Asked(old(Now()))
      ensures r == if old(queue) != [] then Line(old(queue)[0]) else if closed then Refused else Pending
    {
      if queue != [] {
        r := Line(queue[0]);
        delivered := delivered + [queue[0]];
        queue := queue[1..];
        return;
      }
      if closed {
        refused := refused + 1;
        return Refused;
      }
      waiter := true;
      return Pending;
    }
  }

  // ---------------------------------------------------------------- runs

  datatype Event = Data(chunk: string) | Close | Next

  /** No data follows the closing, and a caller asks again only once it has been answered. */
  predicate Can(s: State, e: Event) {
    match e
    case Data(_) => !s.closed
    case Close => true
    case Next => !s.waiter
  }

  function Do(s: State, e: Event): State {
    match e
    case Data(chunk) => Received(s, chunk)
    case Close => ClosedBy(s)
    case Next => Asked(s)
  }

  ghost predicate IsRun(events: seq<Event>)
    decreases |events|
  {
    events == [] || (IsRun(events[..|events| - 1]) && Can(Final(events[..|events| - 1]), events[|events| - 1]))
  }

  function Final(events: seq<Event>): State
    decreases |events|
  {
    if events == [] then State("", [], false, false, [], 0) else Do(Final(events[..|events| - 1]), events[|events| - 1])
  }

  /** Everything that has come in. */
  function Stream(events: seq<Event>): string {
    if events == [] then ""
    else
      var e := events[|events| - 1];
      Stream(events[..|events| - 1]) + (if e.Data? then e.chunk else "")
  }

  function Calls(events: seq<Event>): nat {
    if events == [] then 0
    else Calls(events[..|events| - 1]) + (if events[|events| - 1].Next? then 1 else 0)
  }

  ghost predicate InOrder(s: State, stream: string) {
    && s.delivered + s.queue == Lines(stream) && s.buffer == Rest(stream)
    && (s.waiter ==> s.queue == [] && !s.closed)
    && (s.refused > 0 ==> s.closed && s.queue == [])
  }

  /** Handing over one line: it is delivered or queued, behind everything before it. */
  lemma TakesOne(s: State, line: string)
    requires !s.closed && (s.waiter ==> s.queue == [])
    ensures var t := TakeLine(s, line);
            && t.delivered + t.queue == s.delivered + s.queue + [line] && t.buffer == s.buffer
            && !t.closed && t.refused == s.refused && (t.waiter ==> t.queue == [])
            && |t.delivered| + (if t.waiter then 1 else 0) == |s.delivered| + (if s.waiter then 1 else 0)
  {
    if s.waiter {
      assert s.delivered + s.queue == s.delivered && s.delivered + [line] + [] == s.delivered + [line];
    } else {
      Associate(s.delivered, s.queue, [line]);
    }
  }

  lemma {:induction false} DrainedExact(s: State)
    requires !s.closed && (s.waiter ==> s.queue == [])
    ensures var t := Drained(s);
            && t.delivered + t.queue == s.delivered + s.queue + Lines(s.buffer) && t.buffer == Rest(s.buffer)
            && !t.closed && t.refused == s.refused && (t.waiter ==> t.queue == [])
            && |t.delivered| + (if t.waiter then 1 else 0) == |s.delivered| + (if s.waiter then 1 else 0)
    decreases |s.buffer|
  {
    var i := IndexOf(s.buffer);
    if i.Some? {
      var line, rest := s.buffer[..i.value], s.(buffer := s.buffer[i.value + 1..]);
      TakesOne(rest, line);
      DrainedExact(TakeLine(rest, line));
      Associate(s.delivered + s.queue, [line], Lines(rest.buffer));
    } else {
      assert s.delivered + s.queue + [] == s.delivered + s.queue;
    }
  }

  lemma ReceivedInOrder(s: State, stream: string, chunk: string)
    requires InOrder(s, stream) && !s.closed
    ensures InOrder(Received(s, chunk), stream + chunk)
  {
    DrainedExact(s.(buffer := s.buffer + chunk));
    LinesAppend(stream, chunk);
  }

  lemma AskedInOrder(s: State, stream: string)
    requires InOrder(s, stream) && !s.waiter
    ensures InOrder(Asked(s), stream)
  {
    if s.queue != [] {
      assert s.queue == [s.queue[0]] + s.queue[1..];
      Associate(s.delivered, [s.queue[0]], s.queue[1..]);
    }
  }

  /**
   For every chunking and every interleaving with calls: what has been delivered and what is queued are the
   newline-terminated lines of the stream, in order and each once; a caller waits only when nothing is queued,
   and is refused only when the socket has closed and every line has been delivered.
   */
  lemma {:induction false} LinesInOrder(events: seq<Event>)
    requires IsRun(events)
    ensures InOrder(Final(events), Stream(events))
    decreases |events|
  {
    if events != [] {
      var front, e := events[..|events| - 1], events[|events| - 1];
      LinesInOrder(front);
      match e
      case Data(chunk) => ReceivedInOrder(Final(front), Stream(front), chunk);
      case Close => assert Stream(front) + "" == Stream(front);
      case Next => AskedInOrder(Final(front), Stream(front)); assert Stream(front) + "" == Stream(front);
    }
  }

  /** Every call is answered once, by a line or a refusal, or is the one that waits. */
  lemma {:induction false} CallsAreAnswered(events: seq<Event>)
    requires IsRun(events)
    ensures var s := Final(events); Calls(events) == |s.delivered| + s.refused + (if s.waiter then 1 else 0)
    decreases |events|
  {
    if events != [] {
      var front, e := events[..|events| - 1], events[|events| - 1];
      CallsAreAnswered(front);
      LinesInOrder(front);
      var s := Final(front);
      if e.Data? { DrainedExact(s.(buffer := s.buffer + e.chunk)); }
    }
  }

  /** The reader is closed exactly by closing, which can come at any time, and then no call waits. */
  lemma {:induction false} ClosedExactly(events: seq<Event>)
    requires IsRun(events)
    ensures Final(events).closed <==> Close in events
    ensures Close in events ==> Calls(events) == |Final(events).delivered| + Final(events).refused
    ensures IsRun(events + [Close])
    decreases |events|
  {
    assert (events + [Close])[..|events|] == events;
    LinesInOrder(events);
    CallsAreAnswered(events);
    if events != [] {
      var front, e := events[..|events| - 1], events[|events| - 1];
      assert events == front + [e];
      ClosedExactly(front);
      LinesInOrder(front);
      if e.Data? { DrainedExact(Final(front).(buffer := Final(front).buffer + e.chunk)); }
    }
  }

  /** So two runs with the same stream and the same number of lines delivered have delivered the same lines. */
  lemma ChunkingDoesNotMatter(a: seq<Event>, b: seq<Event>)
    requires IsRun(a) && IsRun(b) && Stream(a) == Stream(b) && |Final(a).delivered| == |Final(b).delivered|
    ensures Final(a).delivered == Final(b).delivered && Final(a).queue == Final(b).queue
      && Final(a).buffer == Final(b).buffer
  {
    LinesInOrder(a);
    LinesInOrder(b);
    var s, t := Final(a), Final(b);
    assert s.delivered == Lines(Stream(a))[..|s.delivered|] && t.delivered == Lines(Stream(b))[..|t.delivered|];
    assert s.queue == Lines(Stream(a))[|s.delivered|..] && t.queue == Lines(Stream(b))[|t.delivered|..];
  }
}
