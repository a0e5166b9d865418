/** What focus mode may close, what it never does, and whether its receipt is true. */
module FocusSafety {
  import opened Common
  import Ascii
  import opened Focus
  import opened FocusPhase
  import Json
  import FocusLaws
  import Tabs
  import FocusRun
  import Editor
  import Versions

  // ---------------------------------------------------------------- what is sent

  /** Everything that a sequence of commands does to the screen is a sequence of closes of some of the targets. */
  lemma {:induction false} Sends(
      s: Screen, r: Receipt, kind: string, targets: seq<Target>, justOpened: seq<string>, line: Line, i: nat)
      returns (urls: seq<string>, keys: seq<Editor.Key>)
    requires i <= |targets|
    ensures SendAll(s, r, kind, targets, justOpened, line, i).0 ==
            Screen(FocusRun.CloseAll(s.tabs, urls), Editor.CloseAll(s.panes, keys), s.dirty)
    ensures forall u :: u in urls ==>
      exists t :: t in targets && t.command == "tabs.close" && Arg(t, "url") == u && !JustOpened(kind, t, justOpened)
    ensures forall k :: k in keys ==> exists t :: t in targets && t.command != "tabs.close" && KeyFor(t) == k
    ensures urls == [] || exists t :: t in targets && t.command == "tabs.close"
    ensures keys == [] || exists t :: t in targets && t.command != "tabs.close"
    decreases |targets| - i
  {
    if i == |targets| {
      urls, keys := [], [];
    } else {
      var t, fate := targets[i], line(kind, i + 1);
      assert t in targets;
      if JustOpened(kind, t, justOpened) {
        urls, keys := Sends(s, r, kind, targets, justOpened, line, i + 1);
      } else {
        var next := if fate == Lost then s else Carried(s, t);
        urls, keys := Sends(next, Noted(r, t, fate, Reply(s, t)), kind, targets, justOpened, line, i + 1);
        if fate != Lost {
          if t.command == "tabs.close" {
            urls := [Arg(t, "url")] + urls;
          } else {
            keys := [KeyFor(t)] + keys;
          }
        }
      }
    }
  }

  // ---------------------------------------------------------------- what may be closed

  function ListOf(key: Editor.Key): List {
    if key.PathKey? then Files else Terminals
  }

  function IdOf(key: Editor.Key): string {
    if key.PathKey? then key.path else TerminalIdentity(key.name, key.cwd)
  }

  /**
   What this activation may close at all: the connector's kind was captured and restored, by a version that can close
   things; the capsule with its pins keeps something in the list, but not this; and the activation has not just opened
   this url.
   */
  ghost predicate Due(list: List, id: string, a: Activation) {
    && a.resources.Some?
    && var payload := PayloadOf(a.resources.value, KindOf(list));
    && payload.Some?
    && KindOf(list) in a.restored && Versions.Supports(a.restored[KindOf(list)])
    && Json.Items(Merged(KindOf(list), payload.value, PinsRead(a)), Field(list)) != []
    && !FocusLaws.Kept(list, id, payload.value, PinsRead(a))
    && (list == Focus.Tabs ==> id !in a.justOpened)
  }

  lemma {:induction false} TerminalItemsAre(panes: seq<Editor.Pane>, item: Json.Value)
    requires item in Editor.TerminalItems(panes)
    ensures exists p :: p in panes && p.Terminal? && item == Editor.TerminalItem(p)
  {
    assert panes == [panes[0]] + panes[1..];
    if !(panes[0].Terminal? && item == Editor.TerminalItem(panes[0])) { TerminalItemsAre(panes[1..], item); }
  }

  /** The editor acts on the terminals that the desktop's identity means. */
  lemma TerminalKey(panes: seq<Editor.Pane>, item: Json.Value)
    requires item in Editor.TerminalItems(panes)
    ensures KeyFor(TerminalTarget(item)).ShellKey?
    ensures IdentityOf("vscode", item) == Some(IdOf(KeyFor(TerminalTarget(item))))
  {
    TerminalItemsAre(panes, item);
    var p :| p in panes && p.Terminal? && item == Editor.TerminalItem(p);
    Json.FindSecond(item.members, "cwd");
    Json.FindSecond(TerminalTarget(item).args.members, "cwd");
  }

  lemma TabTargetsAreDue(s: Screen, a: Activation, payload: Json.Value, t: Target)
    requires t in TargetsFor(s, "chrome", payload, a) && t.shown !in a.justOpened
    requires a.resources.Some? && PayloadOf(a.resources.value, "chrome") == Some(payload)
    requires "chrome" in a.restored && Versions.Supports(a.restored["chrome"])
    ensures t.command == "tabs.close" && Arg(t, "url") == t.shown && Due(Focus.Tabs, t.shown, a)
  {
    var item := FocusLaws.TargetIsNotKept(Focus.Tabs, payload, PinsRead(a), LiveState(s, "chrome"), t);
  }

  lemma LiveTerminals(s: Screen)
    ensures Json.Items(LiveState(s, "vscode"), "terminals") == Editor.TerminalItems(s.panes)
  {
    var live := LiveState(s, "vscode");
    assert live.members[0].key[0] == 'o' && "terminals"[0] == 't';
    Json.FindSecond(live.members, "terminals");
  }

  lemma PaneTargetsAreDue(s: Screen, a: Activation, list: List, payload: Json.Value, t: Target)
    requires list != Focus.Tabs
    requires t in ListTargets(list, Merged("vscode", payload, PinsRead(a)), LiveState(s, "vscode"))
    requires a.resources.Some? && PayloadOf(a.resources.value, "vscode") == Some(payload)
    requires "vscode" in a.restored && Versions.Supports(a.restored["vscode"])
    ensures t.command != "tabs.close" && Due(ListOf(KeyFor(t)), IdOf(KeyFor(t)), a)
  {
    var item := FocusLaws.TargetIsNotKept(list, payload, PinsRead(a), LiveState(s, "vscode"), t);
    if list == Terminals {
      LiveTerminals(s);
      TerminalKey(s.panes, item);
    }
  }

  /** The conditions under which the targets of a kind are worked out at all. */
  predicate GoesOn(kind: string, a: Activation, line: Line)
    requires a.resources.Some?
  {
    && PayloadOf(a.resources.value, kind).Some? && kind in a.restored && Versions.Supports(a.restored[kind])
    && line(kind, 0) == Answered
  }

  lemma BrowserPart(s: Screen, r: Receipt, a: Activation, line: Line) returns (urls: set<string>)
    requires a.resources.Some? && FocusRun.UniqueIds(s.tabs)
    ensures KindDone(s, r, "chrome", a, line).0 == s.(tabs := Tabs.Without(s.tabs, urls))
    ensures FocusRun.Spares(s.tabs, urls) && forall u :: u in urls ==> Due(Focus.Tabs, u, a)
  {
    if GoesOn("chrome", a, line) {
      var payload := PayloadOf(a.resources.value, "chrome").value;
      var targets := TargetsFor(s, "chrome", payload, a);
      var sent, keys := Sends(s, r, "chrome", targets, a.justOpened, line, 0);
      forall t | t in targets
        ensures t.command == "tabs.close" && Arg(t, "url") == t.shown
        ensures t.shown !in a.justOpened ==> Due(Focus.Tabs, t.shown, a)
      {
        FocusLaws.ListTargetsExact(Focus.Tabs, Merged("chrome", payload, PinsRead(a)), LiveState(s, "chrome"), t);
        if t.shown !in a.justOpened { TabTargetsAreDue(s, a, payload, t); }
      }
      urls := FocusRun.CloseAllExact(s.tabs, sent);
    } else {
      urls := {};
      FocusRun.WithoutNone(s.tabs, {});
    }
  }

  lemma EditorPart(s: Screen, r: Receipt, a: Activation, line: Line) returns (keys: set<Editor.Key>)
    requires a.resources.Some?
    ensures KindDone(s, r, "vscode", a, line).0 == s.(panes := Editor.Without(s.panes, keys))
    ensures forall k :: k in keys ==> Due(ListOf(k), IdOf(k), a) && !Editor.Busy(s.panes, k)
  {
    if GoesOn("vscode", a, line) {
      var payload := PayloadOf(a.resources.value, "vscode").value;
      var targets := TargetsFor(s, "vscode", payload, a);
      var urls, sent := Sends(s, r, "vscode", targets, a.justOpened, line, 0);
      forall t | t in targets ensures t.command != "tabs.close" && Due(ListOf(KeyFor(t)), IdOf(KeyFor(t)), a) {
        var wanted, live := Merged("vscode", payload, PinsRead(a)), LiveState(s, "vscode");
        PaneTargetsAreDue(s, a, if t in ListTargets(Files, wanted, live) then Files else Terminals, payload, t);
      }
      Editor.CloseAllExact(s.panes, sent);
      keys := Editor.Idle(s.panes, sent);
    } else {
      keys := {};
      Editor.WithoutNone(s.panes, {});
    }
  }

  /**
   Focus mode end to end, whatever becomes of its commands. What the browser shows afterwards is what it showed
   before, in order, without all the tabs on some urls, and the editor without what it could close under some keys.
   Each of them was due: nothing goes that was captured or that an added pin opens, and no page under a url that this
   activation opened (one that has moved on from there has another url). No pinned or incognito tab goes, no browser
   window is emptied, nothing unsaved is closed and no running terminal.
   */
  lemma FocusIsSafe(s: Screen, a: Activation, line: Line) returns (urls: set<string>, keys: set<Editor.Key>)
    requires FocusRun.UniqueIds(s.tabs)
    ensures Reconciled(s, a, line).0 == Screen(Tabs.Without(s.tabs, urls), Editor.Without(s.panes, keys), s.dirty)
    ensures FocusRun.Spares(s.tabs, urls) && forall u :: u in urls ==> Due(Focus.Tabs, u, a)
    ensures forall k :: k in keys ==> Due(ListOf(k), IdOf(k), a) && !Editor.Busy(s.panes, k)
  {
    if a.resources.None? {
      urls, keys := {}, {};
      FocusRun.WithoutNone(s.tabs, {});
      Editor.WithoutNone(s.panes, {});
    } else {
      urls := BrowserPart(s, EMPTY, a, line);
      var (s', r) := KindDone(s, EMPTY, "chrome", a, line);
      keys := EditorPart(s', r, a, line);
    }
  }

  /** In particular each protected tab is still there, and so is each pane that is wanted or would lose something. */
  lemma ProtectedStays(s: Screen, a: Activation, line: Line)
    requires FocusRun.UniqueIds(s.tabs)
    ensures forall t :: t in s.tabs && (!FocusRun.Ordinary(t) || !Due(Focus.Tabs, t.url, a)) ==>
      t in Reconciled(s, a, line).0.tabs
    ensures forall p :: p in s.panes && Protected(s.panes, p, a) ==> p in Reconciled(s, a, line).0.panes
  {
    var urls, keys := FocusIsSafe(s, a, line);
    forall t | t in s.tabs && (!FocusRun.Ordinary(t) || !Due(Focus.Tabs, t.url, a))
      ensures t in Reconciled(s, a, line).0.tabs
    {
      FocusRun.WithoutHas(s.tabs, urls, t);
    }
    forall p | p in s.panes && Protected(s.panes, p, a) ensures p in Reconciled(s, a, line).0.panes {
      Editor.WithoutHas(s.panes, keys, p);
    }
  }

  ghost predicate Protected(panes: seq<Editor.Pane>, p: Editor.Pane, a: Activation) {
    var key := Editor.KeyOf(p);
    key.None? || Editor.Busy(panes, key.value) || !Due(ListOf(key.value), IdOf(key.value), a)
  }

  // ---------------------------------------------------------------- the receipt

  /** What a command is about. */
  datatype Item = Page(url: string) | Pane(key: Editor.Key)

  function ItemOf(t: Target): Item {
    if t.command == "tabs.close" then Page(Arg(t, "url")) else Pane(KeyFor(t))
  }

  ghost predicate IsShown(s: Screen, item: Item) {
    match item
    case Page(url) => FocusRun.Shows(s.tabs, url)
    case Pane(key) => Editor.Shows(s.panes, key)
  }

  /** What a command about it would be answered with. */
  function Answer(s: Screen, item: Item): Option<string> {
    match item
    case Page(url) => Tabs.ReplyTo(s.tabs, url)
    case Pane(key) => Editor.Reply(s.panes, key)
  }

  function Closed(s: Screen, item: Item): Screen {
    match item
    case Page(url) => s.(tabs := Tabs.AfterClose(s.tabs, url))
    case Pane(key) => s.(panes := Editor.After(s.panes, key))
  }

  /** It is shown, and its connector will not close it. */
  ghost predicate Refused(s: Screen, item: Item) {
    IsShown(s, item) && Answer(s, item).Some?
  }

  ghost predicate Unique(s: Screen) {
    FocusRun.UniqueIds(s.tabs)
  }

  /** An answer is true of the screen the command leaves. */
  lemma AnswerIsTrue(s: Screen, item: Item)
    requires Unique(s)
    ensures Answer(s, item).None? <==> IsShown(s, item) && !IsShown(Closed(s, item), item)
    ensures Answer(s, item) == Some("no longer open") <==> !IsShown(s, item)
  {
    match item
    case Page(url) => FocusRun.ReplyIsTrue(s.tabs, url);
    case Pane(key) => Editor.ReplyIsTrue(s.panes, key);
  }

  /** One command leaves the rest as it is, and adds nothing. */
  lemma OneAtATime(s: Screen, item: Item, other: Item)
    requires Unique(s)
    ensures Unique(Closed(s, item))
    ensures IsShown(Closed(s, item), other) ==> IsShown(s, other)
    ensures other != item ==> (IsShown(Closed(s, item), other) <==> IsShown(s, other))
    ensures Refused(s, other) ==> Refused(Closed(s, item), other)
  {
    match item
    case Page(url) =>
      if other.Page? {
        FocusRun.OneAtATime(s.tabs, url, other.url);
      } else {
        FocusRun.OneAtATime(s.tabs, url, url);
      }
    case Pane(key) =>
      if other.Pane? { Editor.OneAtATime(s.panes, key, other.key); }
  }

  /** Everything on the receipt is true of the screen; what is not, may have been carried out or not. */
  ghost predicate IsTrue(r: Receipt, s: Screen) {
    && (forall t :: t in r.closed ==> !IsShown(s, ItemOf(t)))
    && (forall t, why :: ItemKept(t, why) in r.kept ==>
      if why == "no longer open" then !IsShown(s, ItemOf(t)) else Refused(s, ItemOf(t)))
  }

  ghost predicate Named(r: Receipt, item: Item) {
    exists t :: (t in r.closed || Unanswered(t) in r.failed) && ItemOf(t) == item
  }

  /** All that went from one screen to the other is on the receipt. */
  ghost predicate Accounts(s: Screen, s': Screen, r: Receipt) {
    forall item :: IsShown(s, item) && !IsShown(s', item) ==> Named(r, item)
  }

  lemma TrueAfter(s: Screen, r: Receipt, t: Target, fate: Fate)
    requires Unique(s) && IsTrue(r, s) && fate != Lost
    ensures Unique(Carried(s, t)) && IsTrue(Noted(r, t, fate, Reply(s, t)), Carried(s, t))
  {
    var item, after := ItemOf(t), Noted(r, t, fate, Reply(s, t));
    assert Carried(s, t) == Closed(s, item) && Reply(s, t) == Answer(s, item);
    AnswerIsTrue(s, item);
    OneAtATime(s, item, item);
    forall u | u in after.closed ensures !IsShown(Closed(s, item), ItemOf(u)) { OneAtATime(s, item, ItemOf(u)); }
    forall u, why | ItemKept(u, why) in after.kept
      ensures if why == "no longer open" then !IsShown(Closed(s, item), ItemOf(u))
        else Refused(Closed(s, item), ItemOf(u))
    {
      OneAtATime(s, item, ItemOf(u));
    }
  }

  lemma AccountsAfter(s: Screen, now: Screen, r: Receipt, t: Target, fate: Fate)
    requires Unique(now) && Accounts(s, now, r) && fate != Lost
    ensures Accounts(s, Carried(now, t), Noted(r, t, fate, Reply(now, t)))
  {
    var item, after := ItemOf(t), Noted(r, t, fate, Reply(now, t));
    assert Carried(now, t) == Closed(now, item) && Reply(now, t) == Answer(now, item);
    AnswerIsTrue(now, item);
    forall u | u in r.closed || Unanswered(u) in r.failed ensures u in after.closed || Unanswered(u) in after.failed {}
    forall i | IsShown(s, i) && !IsShown(Closed(now, item), i) ensures Named(after, i) {
      if IsShown(now, i) {
        OneAtATime(now, item, i);
        assert i == item && Answer(now, item).None?;
        assert t in after.closed || Unanswered(t) in after.failed;
      }
    }
  }

  lemma {:induction false} SentIsTrue(
      s: Screen, now: Screen, r: Receipt, kind: string, targets: seq<Target>, justOpened: seq<string>,
      line: Line, i: nat)
    requires i <= |targets| && Unique(now) && IsTrue(r, now) && Accounts(s, now, r)
    ensures var (s', r') := SendAll(now, r, kind, targets, justOpened, line, i);
      Unique(s') && IsTrue(r', s') && Accounts(s, s', r')
    decreases |targets| - i
  {
    if i < |targets| {
      var t, fate := targets[i], line(kind, i + 1);
      if JustOpened(kind, t, justOpened) {
        SentIsTrue(s, now, r, kind, targets, justOpened, line, i + 1);
      } else {
        var next, noted := if fate == Lost then now else Carried(now, t), Noted(r, t, fate, Reply(now, t));
        if fate != Lost {
          TrueAfter(now, r, t, fate);
          AccountsAfter(s, now, r, t, fate);
        }
        SentIsTrue(s, next, noted, kind, targets, justOpened, line, i + 1);
      }
    }
  }

  /** Notes and failures that are about no item change nothing. */
  lemma SkippedIsTrue(s: Screen, now: Screen, r: Receipt, r': Receipt)
    requires IsTrue(r, now) && Accounts(s, now, r) && r'.closed == r.closed
    requires forall t, why :: ItemKept(t, why) in r'.kept ==> ItemKept(t, why) in r.kept
    requires forall t :: Unanswered(t) in r.failed ==> Unanswered(t) in r'.failed
    ensures IsTrue(r', now) && Accounts(s, now, r')
  {
    forall item | Named(r, item) ensures Named(r', item) {}
  }

  lemma KindIsTrue(s: Screen, now: Screen, r: Receipt, kind: string, a: Activation, line: Line)
    requires a.resources.Some? && Unique(now) && IsTrue(r, now) && Accounts(s, now, r)
    ensures var (s', r') := KindDone(now, r, kind, a, line); Unique(s') && IsTrue(r', s') && Accounts(s, s', r')
  {
    if GoesOn(kind, a, line) {
      var targets := TargetsFor(now, kind, PayloadOf(a.resources.value, kind).value, a);
      SentIsTrue(s, now, r, kind, targets, a.justOpened, line, 0);
    } else {
      SkippedIsTrue(s, now, r, KindDone(now, r, kind, a, line).1);
    }
  }

  /**
   The receipt of a whole reconcile, whatever becomes of its commands, is true at its end: what it calls closed is not
   shown, what it calls no longer open is not shown, what it calls kept for another reason is shown and would be
   refused again; and whatever was shown and is not, it calls closed or reports a failed command for.
   */
  lemma ReceiptIsTrue(s: Screen, a: Activation, line: Line)
    requires Unique(s)
    ensures var (s', r) := Reconciled(s, a, line); IsTrue(r, s') && Accounts(s, s', r)
  {
    if a.resources.Some? {
      var (now, r) := KindDone(s, EMPTY, "chrome", a, line);
      KindIsTrue(s, s, EMPTY, "chrome", a, line);
      KindIsTrue(s, now, r, "vscode", a, line);
    }
  }

  // ---------------------------------------------------------------- exactly what may go

  ghost predicate AlwaysStays(url: string, a: Activation) {
    forall s: Screen, line, t ::
      Unique(s) && t in s.tabs && t.url == url ==> t in Reconciled(s, a, line).0.tabs
  }

  const NEW_TAB := "chrome://newtab"

  /** The page in a window with one that is never captured. */
  function TwoTabs(url: string): seq<Tabs.Tab> {
    [Tabs.Tab(Some(1), url, "", false, false, 0), Tabs.Tab(Some(2), NEW_TAB, "", false, false, 0)]
  }

  lemma TwoTabsReport(url: string)
    requires Tabs.IsRestorable(url)
    ensures url != NEW_TAB && Tabs.SnapshotOf(TwoTabs(url), {}) == [Tabs.Captured(url, "")]
    ensures FocusRun.UniqueIds(TwoTabs(url)) && FocusRun.MayClose(TwoTabs(url), url)
  {
    assert !Tabs.IsRestorable(NEW_TAB) by {
      assert Ascii.LowerChar(NEW_TAB[0]) == 'c';
    }
    var tabs := TwoTabs(url);
    assert tabs[1..] == [tabs[1]] && tabs[1] in tabs;
    assert [tabs[1]][1..] == [] && {} + {url} == {url};
    assert Tabs.SnapshotOf([tabs[1]], {url}) == Tabs.SnapshotOf([], {url}) == [];
    assert Tabs.SnapshotOf(tabs, {}) == [Tabs.Captured(url, "")] + Tabs.SnapshotOf(tabs[1..], {} + {url});
  }

  function PageItem(url: string): Json.Value {
    Json.Obj([Json.Member("url", Json.Str(url)), Json.Member("title", Json.Str(""))])
  }

  lemma OnlyTarget(s: Screen, url: string, a: Activation) returns (payload: Json.Value)
    requires Due(Focus.Tabs, url, a)
      && Tabs.SnapshotOf(s.tabs, {}) == [Tabs.Captured(url, "")]
    ensures PayloadOf(a.resources.value, "chrome") == Some(payload)
    ensures TargetsFor(s, "chrome", payload, a) == [TabTarget(url)]
  {
    payload := PayloadOf(a.resources.value, "chrome").value;
    FocusLaws.KeptExact(Focus.Tabs, payload, PinsRead(a), url);
    var live := LiveState(s, "chrome");
    assert TabItems([Tabs.Captured(url, "")]) == [PageItem(url)];
    assert Json.Items(live, "tabs") == [PageItem(url)];
    assert IdentityOf("chrome", PageItem(url)) == Some(url);
    var keep := Ids("chrome", Json.Items(Merged("chrome", payload, PinsRead(a)), "tabs"));
    var dirty := Strings(Json.Items(live, "dirtyFiles"));
    assert [PageItem(url)][1..] == [];
    assert Targets(Focus.Tabs, [PageItem(url)], keep, dirty) == [TabTarget(url)] + Targets(Focus.Tabs, [], keep, dirty);
  }

  lemma SendOne(s: Screen, r: Receipt, kind: string, t: Target, justOpened: seq<string>, line: Line)
    requires !JustOpened(kind, t, justOpened) && line(kind, 1) == Answered
    ensures SendAll(s, r, kind, [t], justOpened, line, 0).0 == Carried(s, t)
  {
    assert [t][0] == t;
  }

  lemma PageIsClosed(url: string)
    requires Tabs.IsRestorable(url)
    ensures TwoTabs(url)[0] !in Carried(Screen(TwoTabs(url), [], []), TabTarget(url)).tabs
  {
    TwoTabsReport(url);
    FocusRun.CloseExact(TwoTabs(url), url);
    FocusRun.WithoutHas(TwoTabs(url), {url}, TwoTabs(url)[0]);
  }

  /** The browser's part: the page goes. */
  lemma GoesInBrowser(url: string, a: Activation, line: Line)
    requires Due(Focus.Tabs, url, a) && Tabs.IsRestorable(url)
    requires forall kind, i :: line(kind, i) == Answered
    ensures TwoTabs(url)[0] !in KindDone(Screen(TwoTabs(url), [], []), EMPTY, "chrome", a, line).0.tabs
  {
    var tabs := TwoTabs(url);
    var s := Screen(tabs, [], []);
    TwoTabsReport(url);
    var payload := OnlyTarget(s, url, a);
    PageIsClosed(url);
    SendOne(s, EMPTY, "chrome", TabTarget(url), a.justOpened, line);
  }

  lemma GoesFromTwo(url: string, a: Activation, line: Line)
    requires Due(Focus.Tabs, url, a) && Tabs.IsRestorable(url)
    requires forall kind, i :: line(kind, i) == Answered
    ensures TwoTabs(url)[0] !in Reconciled(Screen(TwoTabs(url), [], []), a, line).0.tabs
  {
    GoesInBrowser(url, a, line);
    var (s', r) := KindDone(Screen(TwoTabs(url), [], []), EMPTY, "chrome", a, line);
    var keys := EditorPart(s', r, a, line);
  }

  lemma Stays(s: Screen, a: Activation, line: Line, t: Tabs.Tab)
    requires Unique(s) && t in s.tabs
    requires !(Due(Focus.Tabs, t.url, a) && Tabs.IsRestorable(t.url))
    ensures t in Reconciled(s, a, line).0.tabs
  {
    ProtectedStays(s, a, line);
  }

  lemma Goes(url: string, a: Activation) returns (s: Screen, line: Line, t: Tabs.Tab)
    requires Due(Focus.Tabs, url, a) && Tabs.IsRestorable(url)
    ensures Unique(s) && t in s.tabs && t.url == url && t !in Reconciled(s, a, line).0.tabs
  {
    s, line, t := Screen(TwoTabs(url), [], []), (kind, i) => Answered, TwoTabs(url)[0];
    GoesFromTwo(url, a, line);
    TwoTabsReport(url);
  }

  /** Exactly which pages are safe from focus mode on every screen: those not due, and those that are not http(s). */
  lemma StaysExactly(url: string, a: Activation)
    ensures AlwaysStays(url, a) <==> !(Due(Focus.Tabs, url, a) && Tabs.IsRestorable(url))
  {
    if Due(Focus.Tabs, url, a) && Tabs.IsRestorable(url) {
      var s, line, t := Goes(url, a);
    } else {
      forall s: Screen, line, t | Unique(s) && t in s.tabs && t.url == url ensures t in Reconciled(s, a, line).0.tabs {
        Stays(s, a, line, t);
      }
    }
  }

  /** What is under this key stays, or could not be closed, on every screen. */
  ghost predicate AlwaysKept(key: Editor.Key, a: Activation) {
    forall s: Screen, line, p ::
      Unique(s) && p in s.panes && Editor.KeyOf(p) == Some(key) ==> p in Reconciled(s, a, line).0.panes
  }

  /** Something under the key that nothing keeps open. */
  function IdlePane(key: Editor.Key): Editor.Pane {
    match key
    case PathKey(path) => Editor.FileTab("file", path, false, false)
    case ShellKey(name, cwd) => Editor.Terminal(name, Some(cwd), false)
  }

  function ItemFor(key: Editor.Key): Json.Value {
    if key.PathKey? then Json.Str(key.path) else Editor.TerminalItem(IdlePane(key))
  }

  function Alone(key: Editor.Key): Screen {
    Screen([], [IdlePane(key)], [])
  }

  lemma NothingUnsaved(key: Editor.Key)
    ensures Strings(Json.Items(LiveState(Alone(key), "vscode"), "dirtyFiles")) == {}
  {
    var members := LiveState(Alone(key), "vscode").members;
    assert members[2] == Json.Member("dirtyFiles", Json.Arr([]));
    Json.FindThird(members, "dirtyFiles");
  }

  lemma OnePaneReport(key: Editor.Key)
    ensures var live := LiveState(Alone(key), "vscode");
      forall list :: list != Focus.Tabs ==>
        Json.Items(live, Field(list)) == if list == ListOf(key) then [ItemFor(key)] else []
  {
    var p := IdlePane(key);
    LiveTerminals(Alone(key));
    assert [p][1..] == [];
    assert Editor.TerminalItems([p]) ==
      (if p.Terminal? then [Editor.TerminalItem(p)] else []) + Editor.TerminalItems([]);
    var paths := Editor.Paths([p]);
    assert paths == (if p.FileTab? then [p.path] else []) + Editor.Paths([]);
    if p.FileTab? {
      assert paths == [p.path] && paths[..0] == [];
      assert Editor.Firsts(paths) == [p.path];
      assert [p.path][1..] == [] && Editor.Texts([p.path]) == [Json.Str(p.path)] + Editor.Texts([]);
    }
  }

  lemma ItemIsMeant(key: Editor.Key)
    ensures IdentityOf("vscode", ItemFor(key)) == Some(IdOf(key)) && !IsBusy(ItemFor(key))
    ensures KeyFor(TargetOf(ListOf(key), ItemFor(key))) == key
    ensures TargetOf(ListOf(key), ItemFor(key)).command != "tabs.close"
  {
    if key.ShellKey? {
      var item := ItemFor(key);
      assert [IdlePane(key)][1..] == [];
      assert item in Editor.TerminalItems([IdlePane(key)]);
      TerminalKey([IdlePane(key)], item);
      Json.FindSecond(item.members, "cwd");
      Json.FindSecond(TerminalTarget(item).args.members, "cwd");
      assert item.members[0].key[0] != "busy"[0];
      Json.FindThird(item.members, "busy");
    }
  }

  lemma ListTargetsAlone(key: Editor.Key, list: List, wanted: Json.Value)
    requires list != Focus.Tabs && Json.Items(wanted, Field(ListOf(key))) != []
    requires IdOf(key) !in Ids("vscode", Json.Items(wanted, Field(ListOf(key))))
    ensures ListTargets(list, wanted, LiveState(Alone(key), "vscode")) ==
            if list == ListOf(key) then [TargetOf(list, ItemFor(key))] else []
  {
    var item := ItemFor(key);
    OnePaneReport(key);
    NothingUnsaved(key);
    ItemIsMeant(key);
    assert [item][1..] == [];
    var keep := Ids("vscode", Json.Items(wanted, Field(list)));
    assert Targets(list, [], keep, {}) == [];
    if list == ListOf(key) {
      assert Unwanted(list, item, keep, {});
      assert Targets(list, [item], keep, {}) == [TargetOf(list, item)] + Targets(list, [], keep, {});
    }
  }

  lemma BothLists(key: Editor.Key, wanted: Json.Value)
    ensures CloseTargets("vscode", wanted, LiveState(Alone(key), "vscode")) ==
            ListTargets(Files, wanted, LiveState(Alone(key), "vscode"))
            + ListTargets(Terminals, wanted, LiveState(Alone(key), "vscode"))
  {
  }

  lemma DueIsNotKept(key: Editor.Key, a: Activation) returns (payload: Json.Value)
    requires Due(ListOf(key), IdOf(key), a)
    ensures PayloadOf(a.resources.value, "vscode") == Some(payload)
    ensures var kept := Json.Items(Merged("vscode", payload, PinsRead(a)), Field(ListOf(key)));
      kept != [] && IdOf(key) !in Ids("vscode", kept)
  {
    payload := PayloadOf(a.resources.value, "vscode").value;
    FocusLaws.KeptExact(ListOf(key), payload, PinsRead(a), IdOf(key));
  }

  lemma OnlyPaneTarget(key: Editor.Key, a: Activation) returns (payload: Json.Value)
    requires Due(ListOf(key), IdOf(key), a)
    ensures PayloadOf(a.resources.value, "vscode") == Some(payload)
    ensures TargetsFor(Alone(key), "vscode", payload, a) == [TargetOf(ListOf(key), ItemFor(key))]
  {
    payload := DueIsNotKept(key, a);
    var wanted := Merged("vscode", payload, PinsRead(a));
    ListTargetsAlone(key, Files, wanted);
    ListTargetsAlone(key, Terminals, wanted);
    BothLists(key, wanted);
  }

  lemma IdleGoes(key: Editor.Key)
    ensures Editor.After([IdlePane(key)], key) == []
  {
    Editor.AfterExact([IdlePane(key)], key);
    assert [IdlePane(key)][1..] == [];
  }

  lemma EmptyBrowser(s: Screen, a: Activation, line: Line)
    requires a.resources.Some? && s.tabs == []
    ensures KindDone(s, EMPTY, "chrome", a, line).0 == s
  {
    var urls := BrowserPart(s, EMPTY, a, line);
  }

  lemma GoesAlone(key: Editor.Key, a: Activation, line: Line)
    requires Due(ListOf(key), IdOf(key), a)
    requires forall kind, i :: line(kind, i) == Answered
    ensures Reconciled(Alone(key), a, line).0.panes == []
  {
    var s := Alone(key);
    var (s', r) := KindDone(s, EMPTY, "chrome", a, line);
    EmptyBrowser(s, a, line);
    var payload := OnlyPaneTarget(key, a);
    ItemIsMeant(key);
    SendOne(s, r, "vscode", TargetOf(ListOf(key), ItemFor(key)), a.justOpened, line);
    IdleGoes(key);
  }

  lemma Closes(key: Editor.Key, a: Activation) returns (s: Screen, line: Line, p: Editor.Pane)
    requires Due(ListOf(key), IdOf(key), a)
    ensures Unique(s) && p in s.panes && Editor.KeyOf(p) == Some(key) && p !in Reconciled(s, a, line).0.panes
  {
    s, line, p := Alone(key), (kind, i) => Answered, IdlePane(key);
    GoesAlone(key, a, line);
  }

  /** Exactly which files and terminals are safe from focus mode on every screen: those not due. */
  lemma KeptExactly(key: Editor.Key, a: Activation)
    ensures AlwaysKept(key, a) <==> !Due(ListOf(key), IdOf(key), a)
  {
    if Due(ListOf(key), IdOf(key), a) {
      var s, line, p := Closes(key, a);
    } else {
      forall s: Screen, line, p | Unique(s) && p in s.panes && Editor.KeyOf(p) == Some(key)
        ensures p in Reconciled(s, a, line).0.panes
      {
        ProtectedStays(s, a, line);
      }
    }
  }

  /** The pin carries its own identity, and no other of its kind has that. */
  ghost predicate PinsItself(p: Pin, pins: seq<Pin>) {
    && IdentityOf(p.kind, p.payload) == Some(p.identity)
    && forall q :: q in pins && q.kind == p.kind && q.identity == p.identity ==> q == p
  }

  /**
   A page that is pinned under its own url always stays if the pins were read. If the read failed, a pinned page stays
   exactly as if it had never been pinned: one that is due but for its pin goes.
   */
  lemma UnreadPinsProtectNothing(a: Activation, pins: seq<Pin>, p: Pin)
    requires p in pins && p.kind == "chrome"
    ensures PinsItself(p, pins) ==> AlwaysStays(p.identity, a.(pins := Some(pins)))
    ensures AlwaysStays(p.identity, a.(pins := None)) <==>
            !(Due(Focus.Tabs, p.identity, a.(pins := Some([]))) && Tabs.IsRestorable(p.identity))
  {
    var read := a.(pins := Some(pins));
    if PinsItself(p, pins) && a.resources.Some? && PayloadOf(a.resources.value, "chrome").Some? {
      FocusLaws.OwnPinIsKept(Focus.Tabs, PayloadOf(a.resources.value, "chrome").value, pins, p);
    }
    StaysExactly(p.identity, read);
    StaysExactly(p.identity, a.(pins := None));
  }
}
