/** Focus mode end to end: the desktop's targets, and what the browser and the editor make of them. */
module FocusPhase {
  import opened Common
  import opened Focus
  import Json
  import Tabs
  import Editor
  import Versions

  /** What the browser and the editor show, and the editor's unsaved documents. */
  datatype Screen = Screen(tabs: seq<Tabs.Tab>, panes: seq<Editor.Pane>, dirty: seq<string>)

  /** What becomes of a command: it is answered, never carried out, or carried out without an answer. */
  datatype Fate = Answered | Lost | Unheard

  /** The fate of each command to the connector of a kind: 0 is the state query, and then one for each target. */
  type Line = (string, nat) -> Fate

  datatype Note = ItemKept(t: Target, why: string) | Skipped(what: string, why: string)

  datatype Failure = NotRead | NoState(kind: string) | Unanswered(t: Target)

  /** The receipt; it names an item by `shown`. */
  datatype Receipt = Receipt(closed: seq<Target>, kept: seq<Note>, failed: seq<Failure>)

  /**
   What there is to go by: the task's resources as kind and payload, and its pins, unless reading them failed; the
   versions of the connectors that the restore used; and the urls it opened.
   */
  datatype Activation = Activation(
    resources: Option<seq<(string, Json.Value)>>,
    pins: Option<seq<Pin>>,
    restored: map<string, Option<string>>,
    justOpened: seq<string>)

  // ---------------------------------------------------------------- one command

  /** A text among the arguments. */
  function Arg(t: Target, key: string): string {
    match Json.Text(Json.Get(t.args, key)) case None => "" case Some(text) => text
  }

  function KeyFor(t: Target): Editor.Key {
    if t.command == "editor.closeFile" then Editor.PathKey(Arg(t, "path"))
    else Editor.ShellKey(Arg(t, "name"), Cwd(t.args))
  }

  function Carried(s: Screen, t: Target): Screen {
    if t.command == "tabs.close" then s.(tabs := Tabs.AfterClose(s.tabs, Arg(t, "url")))
    else s.(panes := Editor.After(s.panes, KeyFor(t)))
  }

  function Reply(s: Screen, t: Target): Option<string> {
    if t.command == "tabs.close" then Tabs.ReplyTo(s.tabs, Arg(t, "url"))
    else Editor.Reply(s.panes, KeyFor(t))
  }

  function Noted(r: Receipt, t: Target, fate: Fate, reply: Option<string>): Receipt {
    if fate != Answered then r.(failed := r.failed + [Unanswered(t)])
    else if reply.Some? then r.(kept := r.kept + [ItemKept(t, reply.value)])
    else r.(closed := r.closed + [t])
  }

  /** This activation opened it. */
  predicate JustOpened(kind: string, t: Target, justOpened: seq<string>) {
    kind == "chrome" && t.shown in justOpened
  }

  /** The rest of the loop over the targets. */
  function SendAll(
      s: Screen, r: Receipt, kind: string, targets: seq<Target>, justOpened: seq<string>, line: Line, i: nat)
      : (Screen, Receipt)
    requires i <= |targets|
    decreases |targets| - i
  {
    if i == |targets| then (s, r)
    else
      var t, fate := targets[i], line(kind, i + 1);
      if JustOpened(kind, t, justOpened) then SendAll(s, r, kind, targets, justOpened, line, i + 1)
      else
        var next := if fate == Lost then s else Carried(s, t);
        SendAll(next, Noted(r, t, fate, Reply(s, t)), kind, targets, justOpened, line, i + 1)
  }

  // ---------------------------------------------------------------- one kind, and both

  function PayloadOf(resources: seq<(string, Json.Value)>, kind: string): Option<Json.Value> {
    if resources == [] then None
    else if resources[0].0 == kind then Some(resources[0].1)
    else PayloadOf(resources[1..], kind)
  }

  function TabItems(tabs: seq<Tabs.Captured>): seq<Json.Value> {
    if tabs == [] then []
    else
      var item := Json.Obj([Json.Member("url", Json.Str(tabs[0].url)), Json.Member("title", Json.Str(tabs[0].title))]);
      [item] + TabItems(tabs[1..])
  }

  /** The `workspace.state` reply. */
  function LiveState(s: Screen, kind: string): Json.Value {
    if kind == "chrome" then Json.Obj([Json.Member("tabs", Json.Arr(TabItems(Tabs.SnapshotOf(s.tabs, {}))))])
    else Editor.LiveState(s.panes, s.dirty)
  }

  /** A failed read of the pins counts as there being none. */
  function PinsRead(a: Activation): seq<Pin> {
    if a.pins.Some? then a.pins.value else []
  }

  function TargetsFor(s: Screen, kind: string, payload: Json.Value, a: Activation): seq<Target> {
    CloseTargets(kind, Merged(kind, payload, PinsRead(a)), LiveState(s, kind))
  }

  function KindDone(s: Screen, r: Receipt, kind: string, a: Activation, line: Line): (Screen, Receipt)
    requires a.resources.Some?
  {
    var payload := PayloadOf(a.resources.value, kind);
    if payload.None? then (s, r)
    else if kind !in a.restored then
      (s, r.(kept := r.kept + [Skipped(kind, "no connector to reconcile against")]))
    else if !Versions.Supports(a.restored[kind]) then
      (s, r.(kept := r.kept + [Skipped(kind, "connector needs updating to support focus mode")]))
    else if line(kind, 0) != Answered then (s, r.(failed := r.failed + [NoState(kind)]))
    else SendAll(s, r, kind, TargetsFor(s, kind, payload.value, a), a.justOpened, line, 0)
  }

  const EMPTY: Receipt := Receipt([], [], [])
  const NOT_OPENED: Note := Skipped("focus", "skipped \U{2014} the restore did not finish cleanly")

  function Reconciled(s: Screen, a: Activation, line: Line): (Screen, Receipt) {
    if a.resources.None? then (s, EMPTY.(failed := [NotRead]))
    else
      var (s', r) := KindDone(s, EMPTY, "chrome", a, line);
      KindDone(s', r, "vscode", a, line)
  }

  // ---------------------------------------------------------------- the loops

  class Desk {
    const browser: Tabs.Browser
    const window: Editor.Window

    constructor (browser: Tabs.Browser, window: Editor.Window)
      ensures this.browser == browser && this.window == window
    {
      this.browser, this.window := browser, window;
    }

    function Shown(): Screen
      reads this, browser, window
    {
      Screen(browser.tabs, window.panes, window.dirtyPaths)
    }

    /** The connectors' dispatch on the command. */
    method Obey(t: Target) returns (kept: Option<string>)
      modifies browser, window
      ensures Shown() == Carried(old(Shown()), t) && kept == Reply(old(Shown()), t)
    {
      if t.command == "tabs.close" {
        kept := browser.TabsClose(Arg(t, "url"));
      } else if t.command == "editor.closeFile" {
        kept := window.CloseFile(Arg(t, "path"));
      } else {
        kept := window.DisposeTerminal(Arg(t, "name"), Cwd(t.args));
      }
    }

    method SendTargets(r: Receipt, kind: string, targets: seq<Target>, justOpened: seq<string>, line: Line)
      returns (receipt: Receipt)
      modifies browser, window
      ensures (Shown(), receipt) == SendAll(old(Shown()), r, kind, targets, justOpened, line, 0)
    {
      receipt := r;
      for i := 0 to |targets|
        invariant SendAll(Shown(), receipt, kind, targets, justOpened, line, i) ==
                  SendAll(old(Shown()), r, kind, targets, justOpened, line, 0)
      {
        var t := targets[i];
        if kind == "chrome" && t.shown in justOpened { continue; }
        var fate := line(kind, i + 1);
        if fate == Lost {
          receipt := receipt.(failed := receipt.failed + [Unanswered(t)]);
          continue;
        }
        var kept := Obey(t);
        if fate == Unheard {
          receipt := receipt.(failed := receipt.failed + [Unanswered(t)]);
        } else if kept.Some? {
          receipt := receipt.(kept := receipt.kept + [ItemKept(t, kept.value)]);
        } else {
          receipt := receipt.(closed := receipt.closed + [t]);
        }
      }
    }

    /** The connector's reply to `workspace.state`. */
    method State(kind: string) returns (live: Json.Value)
      ensures live == LiveState(Shown(), kind)
    {
      if kind == "chrome" {
        var tabs := Tabs.SnapshotTabs(browser.tabs);
        return Json.Obj([Json.Member("tabs", Json.Arr(TabItems(tabs)))]);
      }
      return Editor.LiveState(window.panes, window.dirtyPaths);
    }

    method ReconcileKind(r: Receipt, kind: string, a: Activation, line: Line) returns (receipt: Receipt)
      requires a.resources.Some?
      modifies browser, window
      ensures (Shown(), receipt) == KindDone(old(Shown()), r, kind, a, line)
    {
      var payload := PayloadOf(a.resources.value, kind);
      if payload.None? { return r; }
      if kind !in a.restored {
        return r.(kept := r.kept + [Skipped(kind, "no connector to reconcile against")]);
      }
      if !Versions.Supports(a.restored[kind]) {
        return r.(kept := r.kept + [Skipped(kind, "connector needs updating to support focus mode")]);
      }
      var wanted := MergePins(kind, payload.value, PinsRead(a));
      if line(kind, 0) != Answered { return r.(failed := r.failed + [NoState(kind)]); }
      var live := State(kind);
      var targets := FindCloseTargets(kind, wanted, live);
      receipt := SendTargets(r, kind, targets, a.justOpened, line);
    }

    /** `reconcile`. */
    method Reconcile(a: Activation, line: Line) returns (receipt: Receipt)
      modifies browser, window
      ensures (Shown(), receipt) == Reconciled(old(Shown()), a, line)
    {
      if a.resources.None? { return EMPTY.(failed := [NotRead]); }
      receipt := ReconcileKind(EMPTY, "chrome", a, line);
      receipt := ReconcileKind(receipt, "vscode", a, line);
    }

    /** The end of an activation: nothing is closed unless everything was opened. */
    method FocusPhase(focusMode: bool, errors: nat, pending: nat, a: Activation, line: Line) returns (receipt: Receipt)
      modifies browser, window
      ensures focusMode && errors == 0 && pending == 0 ==> (Shown(), receipt) == Reconciled(old(Shown()), a, line)
      ensures !(focusMode && errors == 0 && pending == 0) ==>
        Shown() == old(Shown()) && receipt == if focusMode then EMPTY.(kept := [NOT_OPENED]) else EMPTY
    {
      if !focusMode { return EMPTY; }
      if errors == 0 && pending == 0 {
        receipt := Reconcile(a, line);
      } else {
        receipt := EMPTY.(kept := [NOT_OPENED]);
      }
    }
  }
}
