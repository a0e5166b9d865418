/** The editor connector: what an editor window reports, and what it closes. */
module Editor {
  import opened Common
  import Json

  /** A text tab, or a terminal. Some tabs the editor will not close; of a terminal the directory may be unknown. */
  datatype Pane =
    | FileTab(scheme: string, path: string, dirty: bool, stuck: bool)
    | Terminal(name: string, cwd: Option<string>, busy: bool)

  /** What a close command names. */
  datatype Key = PathKey(path: string) | ShellKey(name: string, cwd: string)

  /** A terminal without a directory counts as one in the directory "". Only files have a path to name. */
  function KeyOf(p: Pane): Option<Key> {
    match p
    case FileTab(scheme, path, _, _) => if scheme == "file" then Some(PathKey(path)) else None
    case Terminal(name, cwd, _) => Some(ShellKey(name, if cwd.Some? then cwd.value else ""))
  }

  /** Unsaved changes, or a command that is running. */
  predicate Works(p: Pane) {
    if p.FileTab? then p.dirty else p.busy
  }

  predicate Stuck(p: Pane) {
    p.FileTab? && p.stuck
  }

  // ---------------------------------------------------------------- the report

  /** `[...new Set(...)]`: first occurrences, in order. */
  function Firsts(s: seq<string>): seq<string> {
    if s == [] then []
    else
      var front, last := Firsts(s[..|s| - 1]), s[|s| - 1];
      if last in front then front else front + [last]
  }

  function Paths(panes: seq<Pane>): seq<string> {
    if panes == [] then []
    else (if panes[0].FileTab? && panes[0].scheme == "file" then [panes[0].path] else []) + Paths(panes[1..])
  }

  /** The paths among these that are open. */
  function Open(paths: seq<string>, files: seq<string>): seq<string> {
    if paths == [] then [] else (if paths[0] in files then [paths[0]] else []) + Open(paths[1..], files)
  }

  function Texts(s: seq<string>): seq<Json.Value> {
    if s == [] then [] else [Json.Str(s[0])] + Texts(s[1..])
  }

  function TerminalItem(p: Pane): Json.Value
    requires p.Terminal?
  {
    Json.Obj([
      Json.Member("name", Json.Str(p.name)),
      Json.Member("cwd", if p.cwd.Some? then Json.Str(p.cwd.value) else Json.Null),
      Json.Member("busy", Json.Bool(p.busy))])
  }

  function TerminalItems(panes: seq<Pane>): seq<Json.Value> {
    if panes == [] then []
    else (if panes[0].Terminal? then [TerminalItem(panes[0])] else []) + TerminalItems(panes[1..])
  }

  /** The lists of a `workspace.state` reply; the unsaved documents are known apart from the tabs. */
  function LiveState(panes: seq<Pane>, dirtyPaths: seq<string>): Json.Value {
    var files := Firsts(Paths(panes));
    Json.Obj([
      Json.Member("openFiles", Json.Arr(Texts(files))),
      Json.Member("terminals", Json.Arr(TerminalItems(panes))),
      Json.Member("dirtyFiles", Json.Arr(Texts(Open(Firsts(dirtyPaths), files))))])
  }

  // ---------------------------------------------------------------- closing

  function Matching(panes: seq<Pane>, key: Key): seq<Pane> {
    if panes == [] then []
    else (if KeyOf(panes[0]) == Some(key) then [panes[0]] else []) + Matching(panes[1..], key)
  }

  /** The panes without those under some keys; a stuck tab stays. */
  function Without(panes: seq<Pane>, keys: set<Key>): seq<Pane> {
    if panes == [] then []
    else
      var key := KeyOf(panes[0]);
      (if key.Some? && key.value in keys && !Stuck(panes[0]) then [] else [panes[0]]) + Without(panes[1..], keys)
  }

  function Reason(key: Key): string {
    if key.PathKey? then "unsaved changes" else "running something"
  }

  /** `fileClosePlan` and `terminalClosePlan`: why all the matches stay, if they do. */
  function PlanOf(matches: seq<Pane>, key: Key): Option<string> {
    if matches == [] then Some("no longer open")
    else if exists p :: p in matches && Works(p) then Some(Reason(key))
    else None
  }

  function After(panes: seq<Pane>, key: Key): seq<Pane> {
    if PlanOf(Matching(panes, key), key).Some? then panes else Without(panes, {key})
  }

  /** The reply to a close: why something was kept, or that all is closed. */
  function Reply(panes: seq<Pane>, key: Key): Option<string> {
    var plan := PlanOf(Matching(panes, key), key);
    if plan.Some? then plan
    else if exists p :: p in Matching(panes, key) && Stuck(p) then Some("the editor did not close it")
    else None
  }

  method TerminalClosePlan(terminals: seq<Pane>, key: Key) returns (reason: Option<string>)
    requires key.ShellKey?
    ensures reason == PlanOf(terminals, key)
  {
    if |terminals| == 0 { return Some("no longer open"); }
    for i := 0 to |terminals|
      invariant forall p :: p in terminals[..i] ==> !Works(p)
    {
      assert terminals[..i + 1] == terminals[..i] + [terminals[i]];
      if Works(terminals[i]) { return Some("running something"); }
    }
    assert terminals[..|terminals|] == terminals;
    reason := None;
  }

  class Window {
    var panes: seq<Pane>
    var dirtyPaths: seq<string>

    /** `editor.closeFile`. */
    method CloseFile(path: string) returns (kept: Option<string>)
      modifies this`panes
      ensures panes == After(old(panes), PathKey(path)) && kept == Reply(old(panes), PathKey(path))
    {
      var key := PathKey(path);
      var tabs := Matching(panes, key);
      if tabs == [] { return Some("no longer open"); }
      if exists p :: p in tabs && Works(p) { return Some("unsaved changes"); }
      panes := Without(panes, {key});
      if exists p :: p in tabs && Stuck(p) { return Some("the editor did not close it"); }
      kept := None;
    }

    /** `terminal.dispose`: all the terminals of that name and directory, or none. */
    method DisposeTerminal(name: string, cwd: string) returns (kept: Option<string>)
      modifies this`panes
      ensures panes == After(old(panes), ShellKey(name, cwd)) && kept == Reply(old(panes), ShellKey(name, cwd))
    {
      var key := ShellKey(name, cwd);
      var terminals := Matching(panes, key);
      kept := TerminalClosePlan(terminals, key);
      NoneStuck(panes, key);
      if kept.None? { panes := Without(panes, {key}); }
    }
  }

  // ---------------------------------------------------------------- what a close does

  lemma {:induction false} MatchingHas(panes: seq<Pane>, key: Key, p: Pane)
    ensures p in Matching(panes, key) <==> p in panes && KeyOf(p) == Some(key)
  {
    if panes != [] {
      assert panes == [panes[0]] + panes[1..];
      MatchingHas(panes[1..], key, p);
    }
  }

  lemma {:induction false} WithoutHas(panes: seq<Pane>, keys: set<Key>, p: Pane)
    ensures p in Without(panes, keys) <==>
            p in panes && !(KeyOf(p).Some? && KeyOf(p).value in keys && !Stuck(p))
  {
    if panes != [] {
      assert panes == [panes[0]] + panes[1..];
      WithoutHas(panes[1..], keys, p);
    }
  }

  lemma NoneStuck(panes: seq<Pane>, key: Key)
    requires key.ShellKey?
    ensures forall p :: p in Matching(panes, key) ==> !Stuck(p)
  {
    forall p | p in Matching(panes, key) ensures !Stuck(p) { MatchingHas(panes, key, p); }
  }

  /** Something answers to this key. */
  ghost predicate Shows(panes: seq<Pane>, key: Key) {
    exists p :: p in panes && KeyOf(p) == Some(key)
  }

  /** Something under this key would be lost. */
  ghost predicate Busy(panes: seq<Pane>, key: Key) {
    exists p :: p in panes && KeyOf(p) == Some(key) && Works(p)
  }

  lemma PlanExact(panes: seq<Pane>, key: Key)
    ensures PlanOf(Matching(panes, key), key).None? <==> Shows(panes, key) && !Busy(panes, key)
    ensures PlanOf(Matching(panes, key), key) == Some("no longer open") <==> !Shows(panes, key)
  {
    forall p ensures p in Matching(panes, key) <==> p in panes && KeyOf(p) == Some(key) { MatchingHas(panes, key, p); }
    if Matching(panes, key) != [] { assert Matching(panes, key)[0] in Matching(panes, key); }
    assert Reason(key)[0] != "no longer open"[0];
  }

  lemma {:induction false} WithoutNone(panes: seq<Pane>, keys: set<Key>)
    requires forall p :: p in panes && KeyOf(p).Some? ==> KeyOf(p).value !in keys
    ensures Without(panes, keys) == panes
  {
    if panes != [] {
      assert panes == [panes[0]] + panes[1..];
      WithoutNone(panes[1..], keys);
    }
  }

  /** A close takes all that answer to its key and can be closed, unless one of them would lose something. */
  lemma AfterExact(panes: seq<Pane>, key: Key)
    ensures After(panes, key) == Without(panes, if Busy(panes, key) then {} else {key})
  {
    PlanExact(panes, key);
    if Busy(panes, key) {
      WithoutNone(panes, {});
    } else if !Shows(panes, key) {
      WithoutNone(panes, {key});
    }
  }

  lemma AfterHas(panes: seq<Pane>, key: Key, p: Pane)
    ensures p in After(panes, key) <==> p in panes && (KeyOf(p) == Some(key) ==> Busy(panes, key) || Stuck(p))
  {
    AfterExact(panes, key);
    WithoutHas(panes, if Busy(panes, key) then {} else {key}, p);
  }

  /** The reply is true: it says closed exactly if something was there and nothing is, and gone if nothing was. */
  lemma ReplyIsTrue(panes: seq<Pane>, key: Key)
    ensures Reply(panes, key).None? <==> Shows(panes, key) && !Shows(After(panes, key), key)
    ensures Reply(panes, key) == Some("no longer open") <==> !Shows(panes, key)
  {
    PlanExact(panes, key);
    assert "the editor did not close it"[0] != "no longer open"[0];
    forall p ensures p in Matching(panes, key) <==> p in panes && KeyOf(p) == Some(key) { MatchingHas(panes, key, p); }
    forall p ensures p in After(panes, key) <==>
        p in panes && (KeyOf(p) == Some(key) ==> Busy(panes, key) || Stuck(p)) {
      AfterHas(panes, key, p);
    }
  }

  lemma RefusedExact(panes: seq<Pane>, key: Key)
    ensures Shows(panes, key) && Reply(panes, key).Some? <==>
            exists p :: p in panes && KeyOf(p) == Some(key) && (Works(p) || Stuck(p))
  {
    PlanExact(panes, key);
    forall p ensures p in Matching(panes, key) <==> p in panes && KeyOf(p) == Some(key) { MatchingHas(panes, key, p); }
  }

  /** A close leaves what has other keys as it is, and what was refused is refused again. */
  lemma OneAtATime(panes: seq<Pane>, key: Key, other: Key)
    ensures Shows(After(panes, key), other) ==> Shows(panes, other)
    ensures other != key ==> (Shows(After(panes, key), other) <==> Shows(panes, other))
    ensures Shows(panes, other) && Reply(panes, other).Some? ==>
            Shows(After(panes, key), other) && Reply(After(panes, key), other).Some?
  {
    RefusedExact(panes, other);
    RefusedExact(After(panes, key), other);
    forall p ensures p in After(panes, key) <==>
        p in panes && (KeyOf(p) == Some(key) ==> Busy(panes, key) || Stuck(p)) {
      AfterHas(panes, key, p);
    }
  }

  // ---------------------------------------------------------------- any sequence of closes

  function CloseAll(panes: seq<Pane>, keys: seq<Key>): seq<Pane>
    decreases |keys|
  {
    if keys == [] then panes else CloseAll(After(panes, keys[0]), keys[1..])
  }

  lemma {:induction false} WithoutTwice(panes: seq<Pane>, a: set<Key>, b: set<Key>)
    ensures Without(Without(panes, a), b) == Without(panes, a + b)
  {
    if panes != [] {
      WithoutTwice(panes[1..], a, b);
      var rest := Without(panes[1..], a);
      assert ([panes[0]] + rest)[1..] == rest && [] + rest == rest;
    }
  }

  /** The keys among these under which nothing would be lost. */
  ghost function Idle(panes: seq<Pane>, keys: seq<Key>): set<Key> {
    set k | k in keys && !Busy(panes, k)
  }

  lemma BusyAfter(panes: seq<Pane>, key: Key, k: Key)
    requires k != key || Busy(panes, k)
    ensures Busy(After(panes, key), k) <==> Busy(panes, k)
  {
    forall p ensures p in After(panes, key) <==>
        p in panes && (KeyOf(p) == Some(key) ==> Busy(panes, key) || Stuck(p)) {
      AfterHas(panes, key, p);
    }
  }

  /**
   Over any sequence of closes: what is left is the panes, in order, without what could be closed under the keys
   asked for, each key going altogether, and exactly those going under which nothing is unsaved or running.
   */
  lemma {:induction false} CloseAllExact(panes: seq<Pane>, keys: seq<Key>)
    ensures CloseAll(panes, keys) == Without(panes, Idle(panes, keys))
    decreases |keys|
  {
    if keys == [] {
      assert Idle(panes, keys) == {};
      WithoutNone(panes, {});
    } else {
      var key, rest := keys[0], keys[1..];
      var now := if Busy(panes, key) then {} else {key};
      assert keys == [key] + rest;
      CloseAllExact(After(panes, key), rest);
      AfterExact(panes, key);
      WithoutTwice(panes, now, Idle(After(panes, key), rest));
      forall k | k in rest ensures k in now + Idle(After(panes, key), rest) <==> !Busy(panes, k) {
        if k != key || Busy(panes, k) { BusyAfter(panes, key, k); }
      }
      assert now + Idle(After(panes, key), rest) == Idle(panes, keys);
    }
  }
}
