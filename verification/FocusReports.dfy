/** What the connectors report to focus mode is what is open, and the reasons they give are true. */
module FocusReports {
  import opened Ascii
  import opened Common
  import opened Focus
  import opened FocusPhase
  import Json
  import FocusRun
  import FocusSafety
  import Tabs
  import Editor
  import Versions

  // ---------------------------------------------------------------- pages

  /** The url has this scheme, in any case. */
  ghost predicate HasScheme(url: string, scheme: string) {
    && |scheme| + 3 <= |url| && SameLetters(url[..|scheme|], scheme)
    && url[|scheme|] == ':' && url[|scheme| + 1] == '/' && url[|scheme| + 2] == '/'
  }

  lemma LowerIs(c: char, d: char)
    requires LowerChar(d) == d
    ensures LowerChar(c) == d <==> SameLetter(c, d)
  {
    FoldExactly(c, d);
  }

  lemma PrefixExactly(url: string, scheme: string)
    requires forall i :: 0 <= i < |scheme| ==> LowerChar(scheme[i]) == scheme[i]
    ensures Tabs.StartsWith(url, scheme + "://") <==> HasScheme(url, scheme)
  {
    var prefix := scheme + "://";
    if |prefix| <= |url| {
      forall i | 0 <= i < |scheme|
        ensures LowerChar(url[i]) == prefix[i] <==> SameLetter(url[..|scheme|][i], scheme[i])
      {
        LowerIs(url[i], scheme[i]);
      }
      forall i | |scheme| <= i < |prefix| ensures LowerChar(url[i]) == prefix[i] <==> url[i] == prefix[i] {
        LowerIs(url[i], prefix[i]);
      }
    }
  }

  /** Captured and closed are pages of the web only. */
  lemma RestorableExactly(url: string)
    ensures Tabs.IsRestorable(url) <==> HasScheme(url, "http") || HasScheme(url, "https")
  {
    PrefixExactly(url, "http");
    PrefixExactly(url, "https");
    assert "http" + "://" == "http://" && "https" + "://" == "https://";
  }

  // ---------------------------------------------------------------- reasons

  /** What a reason says of a tab: the last says that its window shows nothing but its url. */
  ghost predicate TabHas(tabs: seq<Tabs.Tab>, t: Tabs.Tab, why: string) {
    if why == "incognito" then t.incognito
    else if why == "pinned in the browser" then t.pinned
    else if why == "not an http(s) page" then !Tabs.IsRestorable(t.url)
    else if why == "missing tab id" then t.id.None?
    else why == "the last tab in its window" && forall o :: o in tabs && o.window == t.window ==> o.url == t.url
  }

  lemma {:induction false} RefusalIsTrue(tabs: seq<Tabs.Tab>, url: string, matches: seq<Tabs.Tab>)
      returns (t: Tabs.Tab)
    requires var all := Tabs.Matching(tabs, url);
      && (forall m :: m in matches ==> m in all)
      && Tabs.FirstRefusal(matches, Tabs.WindowCounts(tabs, all)).Some?
    ensures t in tabs && t.url == url
    ensures TabHas(tabs, t, Tabs.FirstRefusal(matches, Tabs.WindowCounts(tabs, Tabs.Matching(tabs, url))).value)
    decreases |matches|
  {
    var counts := Tabs.WindowCounts(tabs, Tabs.Matching(tabs, url));
    assert matches == [matches[0]] + matches[1..];
    if Tabs.Refusal(matches[0], counts).Some? {
      t := matches[0];
      FocusRun.MatchingHas(tabs, url, t);
      if Tabs.CountOf(counts, t.window) <= 1 { FocusRun.LastTabIsKept(tabs, url, t); }
    } else {
      t := RefusalIsTrue(tabs, url, matches[1..]);
    }
  }

  /** Why the browser keeps a url is true: it is not open, or one of its tabs is what the reason says. */
  lemma TabReasonIsTrue(tabs: seq<Tabs.Tab>, url: string, why: string)
    requires Tabs.ReplyTo(tabs, url) == Some(why)
    ensures if why == "no longer open" then !FocusRun.Shows(tabs, url)
      else exists t :: t in tabs && t.url == url && TabHas(tabs, t, why)
  {
    var matches := Tabs.Matching(tabs, url);
    if matches == [] {
      forall t | t in tabs ensures t.url != url { FocusRun.MatchingHas(tabs, url, t); }
    } else if Tabs.FirstRefusal(matches, Tabs.WindowCounts(tabs, matches)).Some? {
      var t := RefusalIsTrue(tabs, url, matches);
      FocusRun.OtherReason(matches, Tabs.WindowCounts(tabs, matches));
    } else {
      var i :| 0 <= i < |matches| && Tabs.CountIn(matches, matches[i].window) >=
        Tabs.CountOf(Tabs.WindowCounts(tabs, matches), matches[i].window);
      FocusRun.MatchingHas(tabs, url, matches[i]);
      FocusRun.KeepsATab(tabs, url, matches[i]);
      FocusRun.OtherReason(matches, Tabs.WindowCounts(tabs, matches));
    }
  }

  /** What a reason says of a file or a terminal. */
  ghost predicate PaneHas(p: Editor.Pane, why: string) {
    if why == "unsaved changes" then p.FileTab? && p.dirty
    else if why == "running something" then p.Terminal? && p.busy
    else why == "the editor did not close it" && p.FileTab? && p.stuck
  }

  /** The same for the editor. */
  lemma PaneReasonIsTrue(panes: seq<Editor.Pane>, key: Editor.Key, why: string)
    requires Editor.Reply(panes, key) == Some(why)
    ensures if why == "no longer open" then !Editor.Shows(panes, key)
      else exists p :: p in panes && Editor.KeyOf(p) == Some(key) && PaneHas(p, why)
  {
    var matches := Editor.Matching(panes, key);
    forall p ensures p in matches <==> p in panes && Editor.KeyOf(p) == Some(key) {
      Editor.MatchingHas(panes, key, p);
    }
    assert "unsaved changes"[0] == 'u' && "running something"[0] == 'r' && "no longer open"[0] == 'n';
    assert "the editor did not close it"[0] == 't';
    if matches == [] {
    } else if exists p :: p in matches && Editor.Works(p) {
      var p :| p in matches && Editor.Works(p);
      assert PaneHas(p, why);
    } else {
      var p :| p in matches && Editor.Stuck(p);
      assert PaneHas(p, why);
    }
  }

  // ---------------------------------------------------------------- what the editor reports

  lemma {:induction false} FirstsExactly(s: seq<string>)
    ensures forall x :: x in Editor.Firsts(s) <==> x in s
    ensures forall i, j :: 0 <= i < j < |Editor.Firsts(s)| ==> Editor.Firsts(s)[i] != Editor.Firsts(s)[j]
  {
    if s != [] {
      FirstsExactly(s[..|s| - 1]);
      assert s == s[..|s| - 1] + [s[|s| - 1]];
    }
  }

  lemma {:induction false} PathsExactly(panes: seq<Editor.Pane>, path: string)
    ensures path in Editor.Paths(panes) <==>
      exists p :: p in panes && p.FileTab? && p.scheme == "file" && p.path == path
  {
    if panes != [] {
      assert panes == [panes[0]] + panes[1..];
      PathsExactly(panes[1..], path);
    }
  }

  lemma {:induction false} OpenExactly(paths: seq<string>, files: seq<string>, path: string)
    ensures path in Editor.Open(paths, files) <==> path in paths && path in files
  {
    if paths != [] {
      assert paths == [paths[0]] + paths[1..];
      OpenExactly(paths[1..], files, path);
    }
  }

  lemma {:induction false} TextsExactly(s: seq<string>)
    ensures |Editor.Texts(s)| == |s| && forall i :: 0 <= i < |s| ==> Editor.Texts(s)[i] == Json.Str(s[i])
  {
    if s != [] { TextsExactly(s[1..]); }
  }

  lemma TextsHave(s: seq<string>, x: string)
    ensures Json.Str(x) in Editor.Texts(s) <==> x in s
  {
    TextsExactly(s);
    if Json.Str(x) in Editor.Texts(s) {
      var i :| 0 <= i < |Editor.Texts(s)| && Editor.Texts(s)[i] == Json.Str(x);
    }
    if x in s {
      var i :| 0 <= i < |s| && s[i] == x;
      assert Editor.Texts(s)[i] == Json.Str(x);
    }
  }

  lemma EditorLists(panes: seq<Editor.Pane>, dirty: seq<string>)
    ensures var live, files := Editor.LiveState(panes, dirty), Editor.Firsts(Editor.Paths(panes));
      && Json.Items(live, "openFiles") == Editor.Texts(files)
      && Json.Items(live, "terminals") == Editor.TerminalItems(panes)
      && Json.Items(live, "dirtyFiles") == Editor.Texts(Editor.Open(Editor.Firsts(dirty), files))
  {
    var live := Editor.LiveState(panes, dirty);
    assert "openFiles"[0] == 'o' && "terminals"[0] == 't' && "dirtyFiles"[0] == 'd';
    Json.FindSecond(live.members, "terminals");
    Json.FindThird(live.members, "dirtyFiles");
  }

  ghost predicate IsOpen(panes: seq<Editor.Pane>, path: string) {
    exists p :: p in panes && p.FileTab? && p.scheme == "file" && p.path == path
  }

  /** The editor reports the files that are open, each once, and of the unsaved ones those that are open. */
  lemma FilesReported(panes: seq<Editor.Pane>, dirty: seq<string>, path: string)
    ensures var live := Editor.LiveState(panes, dirty);
      && (Json.Str(path) in Json.Items(live, "openFiles") <==> IsOpen(panes, path))
      && (Json.Str(path) in Json.Items(live, "dirtyFiles") <==> path in dirty && IsOpen(panes, path))
    ensures var open := Json.Items(Editor.LiveState(panes, dirty), "openFiles");
      forall i, j :: 0 <= i < j < |open| ==> open[i] != open[j]
  {
    var files := Editor.Firsts(Editor.Paths(panes));
    EditorLists(panes, dirty);
    FirstsExactly(Editor.Paths(panes));
    FirstsExactly(dirty);
    PathsExactly(panes, path);
    TextsHave(files, path);
    TextsExactly(files);
    OpenExactly(Editor.Firsts(dirty), files, path);
    TextsHave(Editor.Open(Editor.Firsts(dirty), files), path);
  }

  lemma SameItem(p: Editor.Pane, q: Editor.Pane)
    requires p.Terminal? && q.Terminal? && Editor.TerminalItem(p) == Editor.TerminalItem(q)
    ensures p == q
  {
    var a, b := Editor.TerminalItem(p).members, Editor.TerminalItem(q).members;
    assert a[0] == b[0] && a[1] == b[1] && a[2] == b[2];
  }

  lemma {:induction false} TerminalsExactly(panes: seq<Editor.Pane>, p: Editor.Pane)
    requires p.Terminal?
    ensures Editor.TerminalItem(p) in Editor.TerminalItems(panes) <==> p in panes
  {
    if panes != [] {
      var first, rest := panes[0], panes[1..];
      assert panes == [first] + rest;
      TerminalsExactly(rest, p);
      if first.Terminal? && Editor.TerminalItem(first) == Editor.TerminalItem(p) { SameItem(first, p); }
    }
  }

  /** The editor reports the terminals that are open, with name, directory and whether a command runs, and no others. */
  lemma TerminalsReported(panes: seq<Editor.Pane>, dirty: seq<string>, p: Editor.Pane)
    requires p.Terminal?
    ensures Editor.TerminalItem(p) in Json.Items(Editor.LiveState(panes, dirty), "terminals") <==> p in panes
    ensures forall item :: item in Json.Items(Editor.LiveState(panes, dirty), "terminals") ==>
      exists q :: q in panes && q.Terminal? && item == Editor.TerminalItem(q)
  {
    EditorLists(panes, dirty);
    TerminalsExactly(panes, p);
    forall item | item in Json.Items(Editor.LiveState(panes, dirty), "terminals")
      ensures exists q :: q in panes && q.Terminal? && item == Editor.TerminalItem(q)
    {
      FocusSafety.TerminalItemsAre(panes, item);
    }
  }

  /** Focus mode closes no tab that shows something else than a file of the disk, such as an untitled document. */
  lemma OtherTabsStay(s: Screen, a: Activation, line: Line, p: Editor.Pane)
    requires FocusRun.UniqueIds(s.tabs) && p in s.panes && p.FileTab? && p.scheme != "file"
    ensures p in Reconciled(s, a, line).0.panes
  {
    FocusSafety.ProtectedStays(s, a, line);
  }

  /** What the editor reports of a pane that has a key. */
  function ItemOfPane(p: Editor.Pane): Json.Value {
    if p.FileTab? then Json.Str(p.path) else Editor.TerminalItem(p)
  }

  /** The command that the desktop makes of a report of a pane names that pane: the connector finds it by its key. */
  lemma ReportNamesThePane(p: Editor.Pane)
    requires Editor.KeyOf(p).Some?
    ensures var list := if p.FileTab? then Files else Terminals;
      IdentityOf("vscode", ItemOfPane(p)).Some? && Editor.KeyOf(p) == Some(KeyFor(TargetOf(list, ItemOfPane(p))))
  {
    if p.Terminal? {
      var item := Editor.TerminalItem(p);
      assert "name"[0] == 'n' && "cwd"[0] == 'c' && "busy"[0] == 'b';
      Json.FindSecond(item.members, "cwd");
      Json.FindSecond(TerminalTarget(item).args.members, "cwd");
    }
  }

  // ---------------------------------------------------------------- what is not reconciled is reported

  lemma {:induction false} PayloadExactly(resources: seq<(string, Json.Value)>, kind: string)
    ensures PayloadOf(resources, kind).None? <==> forall r :: r in resources ==> r.0 != kind
    ensures PayloadOf(resources, kind).Some? ==> exists i ::
      && 0 <= i < |resources| && resources[i] == (kind, PayloadOf(resources, kind).value)
      && forall j :: 0 <= j < i ==> resources[j].0 != kind
  {
    if resources != [] {
      assert resources == [resources[0]] + resources[1..];
      PayloadExactly(resources[1..], kind);
    }
  }

  /** The receipt has a word on the kind as a whole. */
  ghost predicate Mentions(r: Receipt, kind: string) {
    (exists why :: Skipped(kind, why) in r.kept) || NoState(kind) in r.failed
  }

  lemma {:induction false} SendingKeeps(
      s: Screen, r: Receipt, kind: string, targets: seq<Target>, justOpened: seq<string>, line: Line, i: nat, x: string)
    requires i <= |targets|
    ensures Mentions(SendAll(s, r, kind, targets, justOpened, line, i).1, x) <==> Mentions(r, x)
    decreases |targets| - i
  {
    if i < |targets| {
      var t, fate := targets[i], line(kind, i + 1);
      if JustOpened(kind, t, justOpened) {
        SendingKeeps(s, r, kind, targets, justOpened, line, i + 1, x);
      } else {
        var next := if fate == Lost then s else Carried(s, t);
        var noted := Noted(r, t, fate, Reply(s, t));
        forall why ensures Skipped(x, why) in noted.kept <==> Skipped(x, why) in r.kept {}
        SendingKeeps(next, noted, kind, targets, justOpened, line, i + 1, x);
      }
    }
  }

  lemma KindMentions(s: Screen, r: Receipt, kind: string, a: Activation, line: Line, x: string)
    requires a.resources.Some?
    ensures Mentions(KindDone(s, r, kind, a, line).1, x) <==>
      Mentions(r, x) || (x == kind && PayloadOf(a.resources.value, kind).Some? && !FocusSafety.GoesOn(kind, a, line))
  {
    var after := KindDone(s, r, kind, a, line).1;
    if FocusSafety.GoesOn(kind, a, line) {
      var targets := TargetsFor(s, kind, PayloadOf(a.resources.value, kind).value, a);
      SendingKeeps(s, r, kind, targets, a.justOpened, line, 0, x);
    } else if PayloadOf(a.resources.value, kind).Some? {
      forall why | Skipped(x, why) in r.kept ensures Skipped(x, why) in after.kept {}
      if kind !in a.restored || !Versions.Supports(a.restored[kind]) {
        assert after.kept == r.kept + [after.kept[|r.kept|]];
        assert Skipped(kind, after.kept[|r.kept|].why) in after.kept;
      } else {
        assert NoState(kind) in after.failed;
      }
    }
  }

  /**
   A kind that was captured is reconciled, or the receipt says that it was not; and if the capsule could not be read,
   it says that, and nothing else happens.
   */
  lemma NothingPassedOver(s: Screen, a: Activation, line: Line, kind: string)
    requires kind == "chrome" || kind == "vscode"
    ensures a.resources.None? ==> Reconciled(s, a, line) == (s, Receipt([], [], [NotRead]))
    ensures a.resources.Some? ==>
      (Mentions(Reconciled(s, a, line).1, kind) <==>
       (exists r :: r in a.resources.value && r.0 == kind) && !FocusSafety.GoesOn(kind, a, line))
  {
    if a.resources.Some? {
      var (s', r) := KindDone(s, EMPTY, "chrome", a, line);
      KindMentions(s, EMPTY, "chrome", a, line, kind);
      KindMentions(s', r, "vscode", a, line, kind);
      PayloadExactly(a.resources.value, kind);
    }
  }
}
