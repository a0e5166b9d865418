/** The browser connector: which tabs are captured and which a `tabs.close` may close. */
module Tabs {
  import opened Ascii
  import opened Common

  /** A tab of the browser. Chrome does not always assign an id. */
  datatype Tab = Tab(id: Option<int>, url: string, title: string, pinned: bool, incognito: bool, window: int)

  predicate StartsWith(s: string, prefix: string) {
    |prefix| <= |s| && forall i :: 0 <= i < |prefix| ==> LowerChar(s[i]) == prefix[i]
  }

  /** `isRestorableUrl`: http and https only, in any case. */
  predicate IsRestorable(url: string) {
    StartsWith(url, "http://") || StartsWith(url, "https://")
  }

  // ---------------------------------------------------------------- capture

  datatype Captured = Captured(url: string, title: string)

  predicate Captures(t: Tab, seen: set<string>) {
    !t.incognito && IsRestorable(t.url) && t.url !in seen
  }

  function SnapshotOf(raw: seq<Tab>, seen: set<string>): seq<Captured> {
    if raw == [] then []
    else if !Captures(raw[0], seen) then SnapshotOf(raw[1..], seen)
    else [Captured(raw[0].url, raw[0].title)] + SnapshotOf(raw[1..], seen + {raw[0].url})
  }

  /** `snapshotTabs`. */
  method SnapshotTabs(raw: seq<Tab>) returns (tabs: seq<Captured>)
    ensures tabs == SnapshotOf(raw, {})
  {
    var seen: set<string> := {};
    tabs := [];
    for i := 0 to |raw|
      invariant tabs + SnapshotOf(raw[i..], seen) == SnapshotOf(raw, {})
    {
      assert raw[i..][1..] == raw[i + 1..];
      var t := raw[i];
      if t.incognito || !IsRestorable(t.url) || t.url in seen { continue; }
      Associate(tabs, [Captured(t.url, t.title)], SnapshotOf(raw[i + 1..], seen + {t.url}));
      seen := seen + {t.url};
      tabs := tabs + [Captured(t.url, t.title)];
    }
  }

  /** A snapshot lists a url exactly when a restorable, non-incognito tab shows it, and lists it once. */
  lemma {:induction false} SnapshotExact(raw: seq<Tab>, seen: set<string>, url: string)
    ensures (exists c :: c in SnapshotOf(raw, seen) && c.url == url) <==>
      url !in seen && exists t :: t in raw && t.url == url && !t.incognito && IsRestorable(url)
    ensures forall i, j :: 0 <= i < j < |SnapshotOf(raw, seen)| ==>
      SnapshotOf(raw, seen)[i].url != SnapshotOf(raw, seen)[j].url
    ensures forall c :: c in SnapshotOf(raw, seen) ==> c.url !in seen
  {
    if raw != [] {
      assert raw == [raw[0]] + raw[1..];
      SnapshotExact(raw[1..], if Captures(raw[0], seen) then seen + {raw[0].url} else seen, url);
    }
  }

  // ---------------------------------------------------------------- closing

  /** `closeVerdict`: why a tab must stay, if it must. */
  function CloseVerdict(t: Tab, tabsInWindow: nat): Option<string> {
    if t.incognito then Some("incognito")
    else if t.pinned then Some("pinned in the browser")
    else if !IsRestorable(t.url) then Some("not an http(s) page")
    else if tabsInWindow <= 1 then Some("the last tab in its window")
    else None
  }

  datatype Plan = Close(ids: seq<int>) | Kept(reason: string)

  function CountOf(counts: map<int, nat>, window: int): nat {
    if window in counts then counts[window] else 0
  }

  /** How many of the tabs are in a window. */
  function CountIn(tabs: seq<Tab>, window: int): nat {
    if tabs == [] then 0
    else CountIn(tabs[..|tabs| - 1], window) + (if tabs[|tabs| - 1].window == window then 1 else 0)
  }

  function Refusal(t: Tab, counts: map<int, nat>): Option<string> {
    var verdict := CloseVerdict(t, CountOf(counts, t.window));
    if verdict.Some? then verdict else if t.id.None? then Some("missing tab id") else None
  }

  /** The first refusal among the matches, if any. */
  function FirstRefusal(matches: seq<Tab>, counts: map<int, nat>): Option<string> {
    if matches == [] then None
    else
      var refusal := Refusal(matches[0], counts);
      if refusal.Some? then refusal else FirstRefusal(matches[1..], counts)
  }

  function IdsOf(tabs: seq<Tab>): seq<int> {
    if tabs == [] then []
    else IdsOf(tabs[..|tabs| - 1]) + (if tabs[|tabs| - 1].id.Some? then [tabs[|tabs| - 1].id.value] else [])
  }

  /** Closing the matches would leave some window without a tab. */
  predicate EmptiesAWindow(matches: seq<Tab>, counts: map<int, nat>) {
    exists i :: 0 <= i < |matches| && CountIn(matches, matches[i].window) >= CountOf(counts, matches[i].window)
  }

  function PlanOf(matches: seq<Tab>, counts: map<int, nat>): Plan {
    var refusal := FirstRefusal(matches, counts);
    if refusal.Some? then Kept(refusal.value)
    else if EmptiesAWindow(matches, counts) then Kept("the last tab in its window")
    else Close(IdsOf(matches))
  }

  lemma Front<T>(s: seq<T>, i: nat)
    requires i < |s|
    ensures s[..i + 1][..i] == s[..i] && s[..i + 1] == s[..i] + [s[i]]
  {
  }

  /** `closing` holds how many of `tabs` are in each window that has some, and `windows` lists these. */
  ghost predicate Counts(windows: seq<int>, closing: map<int, nat>, tabs: seq<Tab>) {
    && (forall w :: w in windows <==> w in closing)
    && (forall w :: CountIn(tabs, w) == CountOf(closing, w))
    && (forall w :: w in closing <==> exists i :: 0 <= i < |tabs| && tabs[i].window == w)
  }

  lemma CountsMore(windows: seq<int>, closing: map<int, nat>, tabs: seq<Tab>, t: Tab)
    requires Counts(windows, closing, tabs)
    ensures Counts(
      if t.window in closing then windows else windows + [t.window],
      closing[t.window := CountOf(closing, t.window) + 1],
      tabs + [t])
  {
    var all := tabs + [t];
    assert all[..|tabs|] == tabs && all[|tabs|] == t;
    var more := closing[t.window := CountOf(closing, t.window) + 1];
    forall w ensures CountIn(all, w) == CountOf(more, w) {
      assert CountIn(all, w) == CountIn(tabs, w) + (if t.window == w then 1 else 0);
    }
    forall w ensures w in more <==> exists i :: 0 <= i < |all| && all[i].window == w {
      if w in closing {
        var i :| 0 <= i < |tabs| && tabs[i].window == w;
        assert all[i].window == w;
      }
    }
  }

  /** How many matches are in each window, with the windows in the order they come up. */
  method CountPerWindow(matches: seq<Tab>) returns (windows: seq<int>, closing: map<int, nat>)
    ensures Counts(windows, closing, matches)
  {
    windows, closing := [], map[];
    for i := 0 to |matches|
      invariant Counts(windows, closing, matches[..i])
    {
      CountsMore(windows, closing, matches[..i], matches[i]);
      Front(matches, i);
      var w := matches[i].window;
      windows := if w in closing then windows else windows + [w];
      closing := closing[w := CountOf(closing, w) + 1];
    }
    assert matches[..|matches|] == matches;
  }

  /** The first loop: judge every match before anything closes. */
  method JudgeMatches(matches: seq<Tab>, counts: map<int, nat>) returns (refusal: Option<string>, ids: seq<int>)
    ensures refusal == FirstRefusal(matches, counts)
    ensures refusal.None? ==> ids == IdsOf(matches)
  {
    ids := [];
    for i := 0 to |matches|
      invariant FirstRefusal(matches, counts) == FirstRefusal(matches[i..], counts)
      invariant ids == IdsOf(matches[..i])
    {
      assert matches[i..][1..] == matches[i + 1..];
      Front(matches, i);
      var m := matches[i];
      var verdict := CloseVerdict(m, CountOf(counts, m.window));
      if verdict.Some? { return verdict, ids; }
      if m.id.None? { return Some("missing tab id"), ids; }
      ids := ids + [m.id.value];
    }
    assert matches[..|matches|] == matches;
    refusal := None;
  }

  /** The last loop: would some window be left without a tab? */
  method CheckWindows(matches: seq<Tab>, counts: map<int, nat>) returns (empties: bool)
    ensures empties == EmptiesAWindow(matches, counts)
  {
    var windows, closing := CountPerWindow(matches);
    for i := 0 to |windows|
      invariant forall j :: 0 <= j < i ==> CountIn(matches, windows[j]) < CountOf(counts, windows[j])
    {
      assert windows[i] in windows;
      if closing[windows[i]] >= CountOf(counts, windows[i]) { return true; }
    }
    forall i | 0 <= i < |matches| ensures CountIn(matches, matches[i].window) < CountOf(counts, matches[i].window) {
      assert matches[i].window in closing && matches[i].window in windows;
    }
    return false;
  }

  /** `closePlan`: either every match may be removed or none. */
  method ClosePlan(matches: seq<Tab>, counts: map<int, nat>) returns (plan: Plan)
    ensures plan == PlanOf(matches, counts)
  {
    var refusal, ids := JudgeMatches(matches, counts);
    if refusal.Some? { return Kept(refusal.value); }
    var empties := CheckWindows(matches, counts);
    return if empties then Kept("the last tab in its window") else Close(ids);
  }

  // ---------------------------------------------------------------- the browser

  /** `tabsMatchingUrlExactly`. */
  function Matching(tabs: seq<Tab>, url: string): seq<Tab> {
    if tabs == [] then []
    else Matching(tabs[..|tabs| - 1], url) + (if tabs[|tabs| - 1].url == url then [tabs[|tabs| - 1]] else [])
  }

  /** The tabs that do not show any of the urls. */
  function Without(tabs: seq<Tab>, urls: set<string>): seq<Tab> {
    if tabs == [] then []
    else Without(tabs[..|tabs| - 1], urls) + (if tabs[|tabs| - 1].url in urls then [] else [tabs[|tabs| - 1]])
  }

  /** `chrome.tabs.remove`. */
  function Removed(tabs: seq<Tab>, ids: seq<int>): seq<Tab> {
    if tabs == [] then []
    else
      var t := tabs[|tabs| - 1];
      Removed(tabs[..|tabs| - 1], ids) + (if t.id.Some? && t.id.value in ids then [] else [t])
  }

  /** The tab count of every window that shows a match. */
  function WindowCounts(tabs: seq<Tab>, matches: seq<Tab>): map<int, nat> {
    if matches == [] then map[]
    else
      var w := matches[|matches| - 1].window;
      WindowCounts(tabs, matches[..|matches| - 1])[w := CountIn(tabs, w)]
  }

  method CountWindows(tabs: seq<Tab>, matches: seq<Tab>) returns (counts: map<int, nat>)
    ensures counts == WindowCounts(tabs, matches)
  {
    counts := map[];
    for i := 0 to |matches|
      invariant counts == WindowCounts(tabs, matches[..i])
    {
      Front(matches, i);
      counts := counts[matches[i].window := CountIn(tabs, matches[i].window)];
    }
    assert matches[..|matches|] == matches;
  }

  /** The browser after a `tabs.close` for a url. */
  function AfterClose(tabs: seq<Tab>, url: string): seq<Tab> {
    var matches := Matching(tabs, url);
    if matches == [] then tabs
    else match PlanOf(matches, WindowCounts(tabs, matches))
      case Kept(_) => tabs
      case Close(ids) => Removed(tabs, ids)
  }

  /** The reply to a `tabs.close`: why the url was kept, or that all its tabs are closed. */
  function ReplyTo(tabs: seq<Tab>, url: string): Option<string> {
    var matches := Matching(tabs, url);
    if matches == [] then Some("no longer open")
    else match PlanOf(matches, WindowCounts(tabs, matches))
      case Kept(reason) => Some(reason)
      case Close(_) => None
  }

  class Browser {
    var tabs: seq<Tab>

    /** The connector's `tabs.close`. */
    method TabsClose(url: string) returns (kept: Option<string>)
      modifies this
      ensures tabs == AfterClose(old(tabs), url) && kept == ReplyTo(old(tabs), url)
    {
      var matches := Matching(tabs, url);
      if matches == [] { return Some("no longer open"); }
      var counts := CountWindows(tabs, matches);
      var plan := ClosePlan(matches, counts);
      match plan {
        case Kept(reason) => return Some(reason);
        case Close(ids) => tabs := Removed(tabs, ids);
      }
      return None;
    }
  }
}
