/** Focus mode's receipt is complete: it names exactly the pages, files and terminals that were due and reported. */
module FocusAccounts {
  import opened Common
  import opened Focus
  import opened FocusPhase
  import Json
  import FocusLaws
  import FocusReports
  import FocusSafety
  import Tabs
  import Editor

  /** The receipt names the command's item: closed, kept for a reason, or failed. */
  ghost predicate Accounted(r: Receipt, t: Target) {
    t in r.closed || Unanswered(t) in r.failed || exists why :: ItemKept(t, why) in r.kept
  }

  lemma NotedAccounts(r: Receipt, t: Target, fate: Fate, reply: Option<string>, x: Target)
    ensures Accounted(Noted(r, t, fate, reply), x) <==> Accounted(r, x) || x == t
  {
    var after := Noted(r, t, fate, reply);
    if fate != Answered {
      assert after.failed[|r.failed|] == Unanswered(t);
    } else if reply.Some? {
      assert after.kept[|r.kept|] == ItemKept(t, reply.value);
      forall why ensures ItemKept(x, why) in after.kept <==>
        ItemKept(x, why) in r.kept || (x == t && why == reply.value) {}
    } else {
      assert after.closed[|r.closed|] == t;
    }
  }

  lemma {:induction false} SendingAccounts(
      s: Screen, r: Receipt, kind: string, targets: seq<Target>, justOpened: seq<string>, line: Line, i: nat, x: Target)
    requires i <= |targets|
    ensures Accounted(SendAll(s, r, kind, targets, justOpened, line, i).1, x) <==>
      Accounted(r, x) || (x in targets[i..] && !JustOpened(kind, x, justOpened))
    decreases |targets| - i
  {
    if i < |targets| {
      var t, fate := targets[i], line(kind, i + 1);
      assert targets[i..] == [t] + targets[i + 1..];
      if JustOpened(kind, t, justOpened) {
        SendingAccounts(s, r, kind, targets, justOpened, line, i + 1, x);
      } else {
        NotedAccounts(r, t, fate, Reply(s, t), x);
        SendingAccounts(if fate == Lost then s else Carried(s, t), Noted(r, t, fate, Reply(s, t)), kind, targets,
          justOpened, line, i + 1, x);
      }
    }
  }

  lemma KindAccounts(s: Screen, r: Receipt, kind: string, a: Activation, line: Line, x: Target)
    requires a.resources.Some?
    ensures Accounted(KindDone(s, r, kind, a, line).1, x) <==>
      || Accounted(r, x)
      || (&& FocusSafety.GoesOn(kind, a, line) && !JustOpened(kind, x, a.justOpened)
          && x in TargetsFor(s, kind, PayloadOf(a.resources.value, kind).value, a))
  {
    if FocusSafety.GoesOn(kind, a, line) {
      var targets := TargetsFor(s, kind, PayloadOf(a.resources.value, kind).value, a);
      SendingAccounts(s, r, kind, targets, a.justOpened, line, 0, x);
      assert targets[0..] == targets;
    } else {
      var after := KindDone(s, r, kind, a, line).1;
      forall why ensures ItemKept(x, why) in after.kept <==> ItemKept(x, why) in r.kept {}
    }
  }

  // ---------------------------------------------------------------- pages

  lemma {:induction false} ItemsExactly(tabs: seq<Tabs.Captured>, url: string)
    ensures (exists item :: item in TabItems(tabs) && IdentityOf("chrome", item) == Some(url)) <==>
      exists c :: c in tabs && c.url == url
  {
    if tabs != [] {
      var item := TabItems(tabs)[0];
      assert tabs == [tabs[0]] + tabs[1..] && TabItems(tabs) == [item] + TabItems(tabs[1..]);
      assert IdentityOf("chrome", item) == Some(tabs[0].url);
      ItemsExactly(tabs[1..], url);
    }
  }

  /** Some tab that may be captured shows the url. */
  ghost predicate OnScreen(s: Screen, url: string) {
    Tabs.IsRestorable(url) && exists t :: t in s.tabs && t.url == url && !t.incognito
  }

  /** The page is due, and the browser says that it is there. */
  ghost predicate DuePage(s: Screen, a: Activation, line: Line, url: string) {
    FocusSafety.Due(Focus.Tabs, url, a) && line("chrome", 0) == Answered && OnScreen(s, url)
  }

  lemma PageIsTarget(s: Screen, a: Activation, line: Line, payload: Json.Value, url: string)
    requires a.resources.Some? && FocusSafety.GoesOn("chrome", a, line)
    requires payload == PayloadOf(a.resources.value, "chrome").value && url !in a.justOpened
    ensures TabTarget(url) in TargetsFor(s, "chrome", payload, a) <==> DuePage(s, a, line, url)
  {
    var wanted, live := Merged("chrome", payload, PinsRead(a)), LiveState(s, "chrome");
    var items := TabItems(Tabs.SnapshotOf(s.tabs, {}));
    assert Json.Items(live, "tabs") == items;
    ItemsExactly(Tabs.SnapshotOf(s.tabs, {}), url);
    Tabs.SnapshotExact(s.tabs, {}, url);
    if Json.Items(wanted, "tabs") != [] { FocusLaws.KeptExact(Focus.Tabs, payload, PinsRead(a), url); }
    FocusLaws.ListTargetsExact(Focus.Tabs, wanted, live, TabTarget(url));
  }

  lemma PagesAreTargets(s: Screen, payload: Json.Value, a: Activation, t: Target)
    requires t in TargetsFor(s, "chrome", payload, a)
    ensures t == TabTarget(t.shown) && FocusSafety.ItemOf(t) == FocusSafety.Page(t.shown)
  {
    FocusLaws.ListTargetsExact(Focus.Tabs, Merged("chrome", payload, PinsRead(a)), LiveState(s, "chrome"), t);
  }

  // ---------------------------------------------------------------- files and terminals

  /** A file is open and has no unsaved changes; a terminal is open and runs nothing. */
  ghost predicate Idle(s: Screen, key: Editor.Key) {
    match key
    case PathKey(path) => FocusReports.IsOpen(s.panes, path) && path !in s.dirty
    case ShellKey(_, _) => exists p :: p in s.panes && p.Terminal? && !p.busy && Editor.KeyOf(p) == Some(key)
  }

  ghost predicate DuePane(s: Screen, a: Activation, line: Line, key: Editor.Key) {
    && FocusSafety.Due(FocusSafety.ListOf(key), FocusSafety.IdOf(key), a) && line("vscode", 0) == Answered
    && Idle(s, key)
  }

  lemma FileIsTarget(s: Screen, a: Activation, line: Line, payload: Json.Value, path: string)
    requires a.resources.Some? && FocusSafety.GoesOn("vscode", a, line)
    requires payload == PayloadOf(a.resources.value, "vscode").value
    ensures FileTarget(path) in ListTargets(Files, Merged("vscode", payload, PinsRead(a)), LiveState(s, "vscode")) <==>
            DuePane(s, a, line, Editor.PathKey(path))
  {
    var wanted, live := Merged("vscode", payload, PinsRead(a)), LiveState(s, "vscode");
    FocusReports.FilesReported(s.panes, s.dirty, path);
    FocusReports.EditorLists(s.panes, s.dirty);
    FocusLaws.StringsExact(Json.Items(live, "dirtyFiles"), path);
    if Json.Items(wanted, "openFiles") != [] { FocusLaws.KeptExact(Files, payload, PinsRead(a), path); }
    FocusLaws.ListTargetsExact(Files, wanted, live, FileTarget(path));
    var files := Editor.Firsts(Editor.Paths(s.panes));
    FocusReports.TextsExactly(files);
    assert IdentityOf("vscode", Json.Str(path)) == Some(path);
  }

  lemma FilesAreTargets(wanted: Json.Value, live: Json.Value, t: Target)
    requires t in ListTargets(Files, wanted, live)
    ensures t == FileTarget(t.shown) && KeyFor(t) == Editor.PathKey(t.shown)
  {
    FocusLaws.ListTargetsExact(Files, wanted, live, t);
  }

  lemma TerminalGoes(s: Screen, a: Activation, line: Line, payload: Json.Value, p: Editor.Pane)
    requires a.resources.Some? && FocusSafety.GoesOn("vscode", a, line) && p in s.panes && p.Terminal?
    requires payload == PayloadOf(a.resources.value, "vscode").value
    ensures var wanted, live, key := Merged("vscode", payload, PinsRead(a)), LiveState(s, "vscode"),
      Editor.KeyOf(p).value;
      && KeyFor(TerminalTarget(Editor.TerminalItem(p))) == key
      && (Json.Items(wanted, "terminals") != [] && Unwanted(Terminals, Editor.TerminalItem(p),
            Ids("vscode", Json.Items(wanted, "terminals")), Strings(Json.Items(live, "dirtyFiles"))) <==>
          !p.busy && FocusSafety.Due(Terminals, FocusSafety.IdOf(key), a))
  {
    var wanted := Merged("vscode", payload, PinsRead(a));
    var item, key := Editor.TerminalItem(p), Editor.KeyOf(p).value;
    FocusReports.ReportNamesThePane(p);
    FocusReports.TerminalsExactly(s.panes, p);
    FocusSafety.TerminalKey(s.panes, item);
    if Json.Items(wanted, "terminals") != [] {
      FocusLaws.KeptExact(Terminals, payload, PinsRead(a), FocusSafety.IdOf(key));
    }
    Json.FindThird(item.members, "busy");
  }

  lemma TargetIsDue(s: Screen, a: Activation, line: Line, payload: Json.Value, t: Target)
    requires a.resources.Some? && FocusSafety.GoesOn("vscode", a, line)
    requires payload == PayloadOf(a.resources.value, "vscode").value
    requires t in ListTargets(Terminals, Merged("vscode", payload, PinsRead(a)), LiveState(s, "vscode"))
    ensures DuePane(s, a, line, KeyFor(t))
  {
    var wanted, live := Merged("vscode", payload, PinsRead(a)), LiveState(s, "vscode");
    FocusSafety.LiveTerminals(s);
    FocusLaws.ListTargetsExact(Terminals, wanted, live, t);
    var keep, dirty := Ids("vscode", Json.Items(wanted, "terminals")), Strings(Json.Items(live, "dirtyFiles"));
    var item :| item in Json.Items(live, "terminals") && Unwanted(Terminals, item, keep, dirty)
      && t == TerminalTarget(item);
    FocusSafety.TerminalItemsAre(s.panes, item);
    var p :| p in s.panes && p.Terminal? && item == Editor.TerminalItem(p);
    TerminalGoes(s, a, line, payload, p);
  }

  lemma DueIsTarget(s: Screen, a: Activation, line: Line, payload: Json.Value, key: Editor.Key) returns (t: Target)
    requires a.resources.Some? && FocusSafety.GoesOn("vscode", a, line)
    requires payload == PayloadOf(a.resources.value, "vscode").value
    requires key.ShellKey? && DuePane(s, a, line, key)
    ensures t in ListTargets(Terminals, Merged("vscode", payload, PinsRead(a)), LiveState(s, "vscode"))
    ensures KeyFor(t) == key
  {
    var p :| p in s.panes && p.Terminal? && !p.busy && Editor.KeyOf(p) == Some(key);
    t := TerminalTarget(Editor.TerminalItem(p));
    FocusSafety.LiveTerminals(s);
    TerminalGoes(s, a, line, payload, p);
    FocusReports.TerminalsExactly(s.panes, p);
    FocusLaws.ListTargetsExact(Terminals, Merged("vscode", payload, PinsRead(a)), LiveState(s, "vscode"), t);
  }

  lemma TerminalIsTarget(s: Screen, a: Activation, line: Line, payload: Json.Value, key: Editor.Key)
    requires a.resources.Some? && FocusSafety.GoesOn("vscode", a, line) && key.ShellKey?
    requires payload == PayloadOf(a.resources.value, "vscode").value
    ensures var wanted, live := Merged("vscode", payload, PinsRead(a)), LiveState(s, "vscode");
      (exists t :: t in ListTargets(Terminals, wanted, live) && KeyFor(t) == key) <==> DuePane(s, a, line, key)
  {
    var wanted, live := Merged("vscode", payload, PinsRead(a)), LiveState(s, "vscode");
    if t :| t in ListTargets(Terminals, wanted, live) && KeyFor(t) == key { TargetIsDue(s, a, line, payload, t); }
    if DuePane(s, a, line, key) { var t := DueIsTarget(s, a, line, payload, key); }
  }

  lemma TerminalsAreTargets(wanted: Json.Value, live: Json.Value, t: Target)
    requires t in ListTargets(Terminals, wanted, live)
    ensures t.command == "terminal.dispose" && KeyFor(t).ShellKey?
  {
    FocusLaws.ListTargetsExact(Terminals, wanted, live, t);
    assert "terminal.dispose"[0] != "editor.closeFile"[0];
  }

  lemma PaneIsTarget(s: Screen, a: Activation, line: Line, payload: Json.Value, key: Editor.Key)
    requires a.resources.Some? && FocusSafety.GoesOn("vscode", a, line)
    requires payload == PayloadOf(a.resources.value, "vscode").value
    ensures (exists t :: t in TargetsFor(s, "vscode", payload, a) && KeyFor(t) == key) <==> DuePane(s, a, line, key)
    ensures forall t :: t in TargetsFor(s, "vscode", payload, a) ==> t.command != "tabs.close"
  {
    var wanted, live := Merged("vscode", payload, PinsRead(a)), LiveState(s, "vscode");
    var files, terminals := ListTargets(Files, wanted, live), ListTargets(Terminals, wanted, live);
    assert "vscode"[0] != "chrome"[0];
    assert TargetsFor(s, "vscode", payload, a) == files + terminals;
    forall t | t in files ensures t == FileTarget(t.shown) && KeyFor(t) == Editor.PathKey(t.shown) {
      FilesAreTargets(wanted, live, t);
    }
    forall t | t in terminals ensures t.command == "terminal.dispose" && KeyFor(t).ShellKey? {
      TerminalsAreTargets(wanted, live, t);
    }
    if key.PathKey? {
      FileIsTarget(s, a, line, payload, key.path);
      assert KeyFor(FileTarget(key.path)) == key;
    } else {
      TerminalIsTarget(s, a, line, payload, key);
    }
  }

  // ---------------------------------------------------------------- the receipt

  ghost predicate Names(r: Receipt, item: FocusSafety.Item) {
    exists t :: Accounted(r, t) && FocusSafety.ItemOf(t) == item
  }

  /** What was due, and reported when the connector was asked. */
  ghost predicate DueItem(s: Screen, a: Activation, line: Line, item: FocusSafety.Item) {
    match item
    case Page(url) => DuePage(s, a, line, url)
    case Pane(key) => DuePane(s, a, line, key)
  }

  lemma PagesNamed(s: Screen, a: Activation, line: Line, item: FocusSafety.Item)
    requires a.resources.Some?
    ensures Names(KindDone(s, EMPTY, "chrome", a, line).1, item) <==>
      item.Page? && DuePage(s, a, line, item.url)
  {
    var r := KindDone(s, EMPTY, "chrome", a, line).1;
    forall t ensures Accounted(r, t) <==>
      && FocusSafety.GoesOn("chrome", a, line) && t.shown !in a.justOpened
      && t in TargetsFor(s, "chrome", PayloadOf(a.resources.value, "chrome").value, a)
    {
      KindAccounts(s, EMPTY, "chrome", a, line, t);
    }
    if FocusSafety.GoesOn("chrome", a, line) {
      var payload := PayloadOf(a.resources.value, "chrome").value;
      forall t | t in TargetsFor(s, "chrome", payload, a)
        ensures t == TabTarget(t.shown) && FocusSafety.ItemOf(t) == FocusSafety.Page(t.shown)
      {
        PagesAreTargets(s, payload, a, t);
      }
      if item.Page? && item.url !in a.justOpened {
        PageIsTarget(s, a, line, payload, item.url);
        assert TabTarget(item.url).shown == item.url;
      }
    }
  }

  lemma PanesNamed(s: Screen, r: Receipt, a: Activation, line: Line, item: FocusSafety.Item)
    requires a.resources.Some?
    ensures Names(KindDone(s, r, "vscode", a, line).1, item) <==>
      Names(r, item) || (item.Pane? && DuePane(s, a, line, item.key))
  {
    var after := KindDone(s, r, "vscode", a, line).1;
    assert "vscode"[0] != "chrome"[0];
    forall t ensures Accounted(after, t) <==>
      || Accounted(r, t)
      || (&& FocusSafety.GoesOn("vscode", a, line)
          && t in TargetsFor(s, "vscode", PayloadOf(a.resources.value, "vscode").value, a))
    {
      KindAccounts(s, r, "vscode", a, line, t);
    }
    if FocusSafety.GoesOn("vscode", a, line) {
      var payload := PayloadOf(a.resources.value, "vscode").value;
      if item.Pane? {
        PaneIsTarget(s, a, line, payload, item.key);
      } else {
        PaneIsTarget(s, a, line, payload, Editor.PathKey(""));
      }
    }
  }

  /**
   Whatever becomes of the commands, the receipt names a page, file or terminal exactly if it was due and the connector
   said that it was there, unsaved files and busy terminals excepted. Nothing due is passed over in silence.
   */
  lemma ReceiptIsComplete(s: Screen, a: Activation, line: Line, item: FocusSafety.Item)
    ensures Names(Reconciled(s, a, line).1, item) <==> DueItem(s, a, line, item)
  {
    if a.resources.Some? {
      var (s', r) := KindDone(s, EMPTY, "chrome", a, line);
      BrowserOnly(s, a, line);
      PagesNamed(s, a, line, item);
      PanesNamed(s', r, a, line, item);
    }
  }

  /** The browser's part leaves the editor alone. */
  lemma BrowserOnly(s: Screen, a: Activation, line: Line)
    requires a.resources.Some?
    ensures var t := KindDone(s, EMPTY, "chrome", a, line).0; t.panes == s.panes && t.dirty == s.dirty
  {
    if FocusSafety.GoesOn("chrome", a, line) {
      var payload := PayloadOf(a.resources.value, "chrome").value;
      var targets := TargetsFor(s, "chrome", payload, a);
      var urls, keys := FocusSafety.Sends(s, EMPTY, "chrome", targets, a.justOpened, line, 0);
      forall t | t in targets ensures t.command == "tabs.close" { PagesAreTargets(s, payload, a, t); }
      assert keys == [];
    }
  }
}
