/** Focus mode's decisions on the desktop. */
module Focus {
  import opened Common
  import opened Json

  // What makes two captured items the same, which items a task wants once its pins are merged in, and what is
  // open without being wanted.

  /** Someone said "always open this": `identity` is computed from the payload when the pin is made. */
  datatype Pin = Pin(kind: string, identity: string, payload: Value)

  /** `identity_of`. */
  function IdentityOf(kind: string, item: Value): Option<string> {
    if kind == "chrome" then Text(Get(item, "url"))
    else if kind == "vscode" then
      if item.Str? then Some(item.s)
      else match Text(Get(item, "name"))
        case None => None
        case Some(name) => Some(TerminalIdentity(name, Cwd(item)))
    else None
  }

  function Cwd(item: Value): string {
    match Text(Get(item, "cwd"))
    case None => ""
    case Some(cwd) => cwd
  }

  function TerminalIdentity(name: string, cwd: string): string {
    name + ['\0'] + cwd
  }

  /** The identities of a list of items; items without one do not count. */
  function Ids(kind: string, items: seq<Value>): set<string> {
    if items == [] then {}
    else
      var id := IdentityOf(kind, items[0]);
      (if id.Some? then {id.value} else {}) + Ids(kind, items[1..])
  }

  // ---------------------------------------------------------------- pins

  predicate IsTerminalPin(p: Pin) {
    Get(p.payload, "name").Some?
  }

  /** Whether the pin belongs to the list of terminals, or to the main list, of this kind. */
  predicate Belongs(kind: string, p: Pin, terminals: bool) {
    p.kind == kind && (if terminals then IsTerminalPin(p) else !(kind == "vscode" && IsTerminalPin(p)))
  }

  /** The payloads of the pins that are not in the list yet. */
  function Missing(kind: string, pins: seq<Pin>, terminals: bool, seen: set<string>): seq<Value> {
    if pins == [] then []
    else if !Belongs(kind, pins[0], terminals) || pins[0].identity in seen
      then Missing(kind, pins[1..], terminals, seen)
    else [pins[0].payload] + Missing(kind, pins[1..], terminals, seen + {pins[0].identity})
  }

  function MergedItems(kind: string, items: seq<Value>, pins: seq<Pin>, terminals: bool): seq<Value> {
    items + Missing(kind, pins, terminals, Ids(kind, items))
  }

  function MainField(kind: string): string {
    if kind == "chrome" then "tabs" else "openFiles"
  }

  /** `merge_pins`. */
  function Merged(kind: string, captured: Value, pins: seq<Pin>): Value {
    if (kind != "chrome" && kind != "vscode") || !captured.Obj? then captured
    else
      var field := MainField(kind);
      var out := With(captured, field, Arr(MergedItems(kind, Items(captured, field), pins, false)));
      if kind == "vscode" then With(out, "terminals", Arr(MergedItems(kind, Items(captured, "terminals"), pins, true)))
      else out
  }

  /** Collects the identities of a list, as `filter_map(identity_of).collect()` does. */
  method CollectIds(kind: string, items: seq<Value>) returns (seen: set<string>)
    ensures seen == Ids(kind, items)
  {
    seen := {};
    for i := 0 to |items|
      invariant seen + Ids(kind, items[i..]) == Ids(kind, items)
    {
      assert items[i..][1..] == items[i + 1..];
      var id := IdentityOf(kind, items[i]);
      if id.Some? { seen := seen + {id.value}; }
    }
  }

  /** The loop over the pins: `seen.insert` decides whether one is appended. */
  method AppendPins(kind: string, captured: seq<Value>, pins: seq<Pin>, terminals: bool) returns (items: seq<Value>)
    ensures items == MergedItems(kind, captured, pins, terminals)
  {
    items := captured;
    var seen := CollectIds(kind, captured);
    for i := 0 to |pins|
      invariant items + Missing(kind, pins[i..], terminals, seen) == MergedItems(kind, captured, pins, terminals)
    {
      assert pins[i..][1..] == pins[i + 1..];
      if Belongs(kind, pins[i], terminals) && pins[i].identity !in seen {
        Associate(items, [pins[i].payload], Missing(kind, pins[i + 1..], terminals, seen + {pins[i].identity}));
        seen := seen + {pins[i].identity};
        items := items + [pins[i].payload];
      }
    }
  }

  method MergePins(kind: string, captured: Value, pins: seq<Pin>) returns (out: Value)
    ensures out == Merged(kind, captured, pins)
  {
    if kind != "chrome" && kind != "vscode" { return captured; }
    if !captured.Obj? { return captured; }
    var field := MainField(kind);
    var items := AppendPins(kind, Items(captured, field), pins, false);
    out := With(captured, field, Arr(items));
    if kind == "vscode" {
      var terms := AppendPins(kind, Items(captured, "terminals"), pins, true);
      out := With(out, "terminals", Arr(terms));
    }
  }

  // ---------------------------------------------------------------- what to close

  /** A command for the connector, with the name it is reported under. */
  datatype Target = Target(command: string, args: Value, shown: string)

  function TabTarget(id: string): Target {
    Target("tabs.close", Obj([Member("url", Str(id))]), id)
  }

  function FileTarget(id: string): Target {
    Target("editor.closeFile", Obj([Member("path", Str(id))]), id)
  }

  function TerminalTarget(item: Value): Target {
    var name := match Text(Get(item, "name")) case None => "" case Some(n) => n;
    var cwd := match Get(item, "cwd") case None => Null case Some(c) => c;
    Target("terminal.dispose", Obj([Member("name", Str(name)), Member("cwd", cwd)]), name)
  }

  predicate IsBusy(item: Value) {
    Get(item, "busy") == Some(Bool(true))
  }

  /** The paths with unsaved changes: the strings among `dirtyFiles`. */
  function Strings(items: seq<Value>): set<string> {
    if items == [] then {} else (if items[0].Str? then {items[0].s} else {}) + Strings(items[1..])
  }

  /** The three lists that focus mode looks at. */
  datatype List = Tabs | Files | Terminals

  function Field(list: List): string {
    match list case Tabs => "tabs" case Files => "openFiles" case Terminals => "terminals"
  }

  function KindOf(list: List): string {
    if list == Tabs then "chrome" else "vscode"
  }

  /** A live item that must be left open whatever the task wants. */
  predicate Spared(list: List, item: Value, dirty: set<string>) {
    match list
    case Tabs => false
    case Files => IdentityOf("vscode", item).Some? && IdentityOf("vscode", item).value in dirty
    case Terminals => IsBusy(item)
  }

  /** The item is a target: it can be identified, is not wanted and is not spared. */
  predicate Unwanted(list: List, item: Value, keep: set<string>, dirty: set<string>) {
    var id := IdentityOf(KindOf(list), item);
    id.Some? && id.value !in keep && !Spared(list, item, dirty)
  }

  function TargetOf(list: List, item: Value): Target
    requires IdentityOf(KindOf(list), item).Some?
  {
    match list
    case Tabs => TabTarget(IdentityOf("chrome", item).value)
    case Files => FileTarget(IdentityOf("vscode", item).value)
    case Terminals => TerminalTarget(item)
  }

  function Targets(list: List, items: seq<Value>, keep: set<string>, dirty: set<string>): seq<Target> {
    if items == [] then []
    else if Unwanted(list, items[0], keep, dirty) then
      [TargetOf(list, items[0])] + Targets(list, items[1..], keep, dirty)
    else Targets(list, items[1..], keep, dirty)
  }

  /** A list the capsule captured nothing for is never touched. */
  function ListTargets(list: List, wanted: Value, live: Value): seq<Target> {
    var captured := Items(wanted, Field(list));
    if captured == [] then []
    else Targets(list, Items(live, Field(list)), Ids(KindOf(list), captured), Strings(Items(live, "dirtyFiles")))
  }

  /** `close_targets`. */
  function CloseTargets(kind: string, wanted: Value, live: Value): seq<Target> {
    if kind == "chrome" then ListTargets(Tabs, wanted, live)
    else if kind == "vscode" then ListTargets(Files, wanted, live) + ListTargets(Terminals, wanted, live)
    else []
  }

  method CollectTargets(list: List, wanted: Value, live: Value, dirty: set<string>) returns (out: seq<Target>)
    requires dirty == Strings(Items(live, "dirtyFiles"))
    ensures out == ListTargets(list, wanted, live)
  {
    out := [];
    if Items(wanted, Field(list)) == [] { return; }
    var keep := CollectIds(KindOf(list), Items(wanted, Field(list)));
    var items := Items(live, Field(list));
    for i := 0 to |items|
      invariant out + Targets(list, items[i..], keep, dirty) == Targets(list, items, keep, dirty)
    {
      assert items[i..][1..] == items[i + 1..];
      var id := IdentityOf(KindOf(list), items[i]);
      if id.None? || id.value in keep || Spared(list, items[i], dirty) { continue; }
      Associate(out, [TargetOf(list, items[i])], Targets(list, items[i + 1..], keep, dirty));
      out := out + [TargetOf(list, items[i])];
    }
  }

  method FindCloseTargets(kind: string, wanted: Value, live: Value) returns (out: seq<Target>)
    ensures out == CloseTargets(kind, wanted, live)
  {
    out := [];
    if kind == "chrome" {
      out := CollectTargets(Tabs, wanted, live, Strings(Items(live, "dirtyFiles")));
    } else if kind == "vscode" {
      var dirty := Strings(Items(live, "dirtyFiles"));
      out := CollectTargets(Files, wanted, live, dirty);
      var terms := CollectTargets(Terminals, wanted, live, dirty);
      out := out + terms;
    }
  }
}
