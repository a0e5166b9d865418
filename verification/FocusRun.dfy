/** What one `tabs.close`, and any sequence of them, does to the browser. */
module FocusRun {
  import opened Common
  import opened Tabs

  // ---------------------------------------------------------------- one close

  ghost predicate Shows(tabs: seq<Tab>, url: string) {
    exists t :: t in tabs && t.url == url
  }

  lemma {:induction false} OtherReason(matches: seq<Tab>, counts: map<int, nat>)
    ensures PlanOf(matches, counts) != Kept("no longer open") && FirstRefusal(matches, counts) != Some("no longer open")
  {
    assert forall s :: s in ["incognito", "pinned in the browser", "not an http(s) page",
      "the last tab in its window"] ==>
      s[2] != "no longer open"[2];
    assert "missing tab id"[2] != "no longer open"[2];
    if matches != [] { OtherReason(matches[1..], counts); }
  }

  ghost predicate UniqueIds(tabs: seq<Tab>) {
    forall i, j :: 0 <= i < j < |tabs| && tabs[i].id.Some? ==> tabs[i].id != tabs[j].id
  }

  /**
   When a `tabs.close` takes effect: each tab on the url is an ordinary page with an id, and its window
   also shows something else.
   */
  ghost predicate MayClose(tabs: seq<Tab>, url: string) {
    forall t :: t in tabs && t.url == url ==>
      && !t.incognito && !t.pinned && IsRestorable(url) && t.id.Some?
      && exists o :: o in tabs && o.window == t.window && o.url != url
  }

  lemma {:induction false} MatchingHas(tabs: seq<Tab>, url: string, t: Tab)
    ensures t in Matching(tabs, url) <==> t in tabs && t.url == url
  {
    if tabs != [] {
      assert tabs == tabs[..|tabs| - 1] + [tabs[|tabs| - 1]];
      MatchingHas(tabs[..|tabs| - 1], url, t);
    }
  }

  lemma {:induction false} WithoutHas(tabs: seq<Tab>, urls: set<string>, t: Tab)
    ensures t in Without(tabs, urls) <==> t in tabs && t.url !in urls
  {
    if tabs != [] {
      assert tabs == tabs[..|tabs| - 1] + [tabs[|tabs| - 1]];
      WithoutHas(tabs[..|tabs| - 1], urls, t);
    }
  }

  lemma CountSnoc(tabs: seq<Tab>, t: Tab, w: int)
    ensures CountIn(tabs + [t], w) == CountIn(tabs, w) + (if t.window == w then 1 else 0)
  {
    assert (tabs + [t])[..|tabs|] == tabs;
  }

  lemma {:induction false} CountSplit(tabs: seq<Tab>, url: string, w: int)
    ensures CountIn(tabs, w) == CountIn(Matching(tabs, url), w) + CountIn(Without(tabs, {url}), w)
  {
    if tabs != [] {
      var front, t := tabs[..|tabs| - 1], tabs[|tabs| - 1];
      CountSplit(front, url, w);
      CountSnoc(Matching(front, url), t, w);
      CountSnoc(Without(front, {url}), t, w);
      assert Matching(front, url) + [] == Matching(front, url) && Without(front, {url}) + [] == Without(front, {url});
    }
  }

  lemma {:induction false} CountPositive(tabs: seq<Tab>, w: int)
    ensures CountIn(tabs, w) > 0 <==> exists t :: t in tabs && t.window == w
  {
    if tabs != [] {
      assert tabs == tabs[..|tabs| - 1] + [tabs[|tabs| - 1]];
      CountPositive(tabs[..|tabs| - 1], w);
    }
  }

  lemma {:induction false} CountsOf(tabs: seq<Tab>, matches: seq<Tab>, m: Tab)
    requires m in matches
    ensures CountOf(WindowCounts(tabs, matches), m.window) == CountIn(tabs, m.window)
  {
    var last := matches[|matches| - 1];
    assert matches == matches[..|matches| - 1] + [last];
    if m.window != last.window { CountsOf(tabs, matches[..|matches| - 1], m); }
  }

  lemma {:induction false} RefusalExact(matches: seq<Tab>, counts: map<int, nat>)
    ensures FirstRefusal(matches, counts).None? <==> forall m :: m in matches ==> Refusal(m, counts).None?
  {
    if matches != [] {
      assert matches == [matches[0]] + matches[1..];
      RefusalExact(matches[1..], counts);
    }
  }

  lemma {:induction false} IdsHave(tabs: seq<Tab>, id: int)
    ensures id in IdsOf(tabs) <==> exists t :: t in tabs && t.id == Some(id)
  {
    if tabs != [] {
      assert tabs == tabs[..|tabs| - 1] + [tabs[|tabs| - 1]];
      IdsHave(tabs[..|tabs| - 1], id);
    }
  }

  lemma {:induction false} RemovedSame(tabs: seq<Tab>, ids: seq<int>, urls: set<string>)
    requires forall t :: t in tabs ==> (t.id.Some? && t.id.value in ids <==> t.url in urls)
    ensures Removed(tabs, ids) == Without(tabs, urls)
  {
    if tabs != [] { RemovedSame(tabs[..|tabs| - 1], ids, urls); }
  }

  lemma {:induction false} WithoutNone(tabs: seq<Tab>, urls: set<string>)
    requires forall t :: t in tabs ==> t.url !in urls
    ensures Without(tabs, urls) == tabs
  {
    if tabs != [] {
      assert tabs == tabs[..|tabs| - 1] + [tabs[|tabs| - 1]];
      WithoutNone(tabs[..|tabs| - 1], urls);
    }
  }

  lemma RemovesTheUrl(tabs: seq<Tab>, url: string)
    requires UniqueIds(tabs) && forall t :: t in tabs && t.url == url ==> t.id.Some?
    ensures Removed(tabs, IdsOf(Matching(tabs, url))) == Without(tabs, {url})
  {
    var matches := Matching(tabs, url);
    forall t | t in tabs ensures t.id.Some? && t.id.value in IdsOf(matches) <==> t.url in {url} {
      MatchingHas(tabs, url, t);
      if t.id.Some? {
        IdsHave(matches, t.id.value);
        if t.id.value in IdsOf(matches) {
          var m :| m in matches && m.id == t.id;
          MatchingHas(tabs, url, m);
        }
      }
    }
    RemovedSame(tabs, IdsOf(matches), {url});
  }

  /** The window of a match would keep a tab exactly when it shows another url. */
  lemma KeepsATab(tabs: seq<Tab>, url: string, m: Tab)
    requires m in Matching(tabs, url)
    ensures CountIn(Matching(tabs, url), m.window) >= CountOf(WindowCounts(tabs, Matching(tabs, url)), m.window) <==>
      !exists o :: o in tabs && o.window == m.window && o.url != url
  {
    var others := Without(tabs, {url});
    CountsOf(tabs, Matching(tabs, url), m);
    CountSplit(tabs, url, m.window);
    CountPositive(others, m.window);
    forall o ensures o in others <==> o in tabs && o.url != url {
      WithoutHas(tabs, {url}, o);
    }
  }

  lemma LastTabIsKept(tabs: seq<Tab>, url: string, m: Tab)
    requires m in Matching(tabs, url) && CountOf(WindowCounts(tabs, Matching(tabs, url)), m.window) <= 1
    ensures !exists o :: o in tabs && o.window == m.window && o.url != url
  {
    CountPositive(Matching(tabs, url), m.window);
    KeepsATab(tabs, url, m);
  }

  lemma PlanExact(tabs: seq<Tab>, url: string)
    ensures PlanOf(Matching(tabs, url), WindowCounts(tabs, Matching(tabs, url))).Close? <==> MayClose(tabs, url)
  {
    var matches := Matching(tabs, url);
    var counts := WindowCounts(tabs, matches);
    RefusalExact(matches, counts);
    forall t ensures t in matches <==> t in tabs && t.url == url { MatchingHas(tabs, url, t); }
    forall m | m in matches
      ensures CountIn(matches, m.window) >= CountOf(counts, m.window) <==>
        !exists o :: o in tabs && o.window == m.window && o.url != url
      ensures CountOf(counts, m.window) <= 1 ==> !exists o :: o in tabs && o.window == m.window && o.url != url
    {
      KeepsATab(tabs, url, m);
      if CountOf(counts, m.window) <= 1 { LastTabIsKept(tabs, url, m); }
    }
  }

  /** A `tabs.close` removes all the tabs on its url or none, and exactly when it may. */
  lemma CloseExact(tabs: seq<Tab>, url: string)
    requires UniqueIds(tabs)
    ensures AfterClose(tabs, url) == if MayClose(tabs, url) then Without(tabs, {url}) else tabs
  {
    var matches := Matching(tabs, url);
    PlanExact(tabs, url);
    if matches == [] {
      forall t | t in tabs ensures t.url !in {url} { MatchingHas(tabs, url, t); }
      WithoutNone(tabs, {url});
    } else if MayClose(tabs, url) {
      RemovesTheUrl(tabs, url);
    }
  }

  /** The reply is true: it says closed exactly if the url was open and is not, and gone if it was not open. */
  lemma ReplyIsTrue(tabs: seq<Tab>, url: string)
    requires UniqueIds(tabs)
    ensures ReplyTo(tabs, url).None? <==> Shows(tabs, url) && !Shows(AfterClose(tabs, url), url)
    ensures ReplyTo(tabs, url) == Some("no longer open") <==> !Shows(tabs, url)
    ensures ReplyTo(tabs, url).None? <==> Shows(tabs, url) && MayClose(tabs, url)
  {
    PlanExact(tabs, url);
    CloseExact(tabs, url);
    var matches := Matching(tabs, url);
    forall t ensures t in matches <==> t in tabs && t.url == url { MatchingHas(tabs, url, t); }
    forall t ensures t in Without(tabs, {url}) <==> t in tabs && t.url !in {url} { WithoutHas(tabs, {url}, t); }
    if matches != [] {
      assert matches[0] in matches;
      OtherReason(matches, WindowCounts(tabs, matches));
    }
  }

  // ---------------------------------------------------------------- any sequence of closes

  function CloseAll(tabs: seq<Tab>, urls: seq<string>): seq<Tab>
    decreases |urls|
  {
    if urls == [] then tabs else CloseAll(AfterClose(tabs, urls[0]), urls[1..])
  }

  lemma {:induction false} WithoutTwice(tabs: seq<Tab>, a: set<string>, b: set<string>)
    ensures Without(Without(tabs, a), b) == Without(tabs, a + b)
  {
    if tabs != [] {
      var front, t := tabs[..|tabs| - 1], tabs[|tabs| - 1];
      WithoutTwice(front, a, b);
      assert Without(front, a) + [] == Without(front, a);
      assert (Without(front, a) + [t])[..|Without(front, a)|] == Without(front, a);
    }
  }

  lemma {:induction false} WithoutUnique(tabs: seq<Tab>, urls: set<string>)
    requires UniqueIds(tabs)
    ensures UniqueIds(Without(tabs, urls))
  {
    if tabs != [] {
      var front, t := tabs[..|tabs| - 1], tabs[|tabs| - 1];
      WithoutUnique(front, urls);
      forall i | 0 <= i < |Without(front, urls)| && Without(front, urls)[i].id.Some?
        ensures Without(front, urls)[i].id != t.id
      {
        WithoutHas(front, urls, Without(front, urls)[i]);
      }
    }
  }

  lemma MayCloseAfter(tabs: seq<Tab>, url: string, other: string)
    requires other != url && MayClose(Without(tabs, {url}), other)
    ensures MayClose(tabs, other)
  {
    forall o ensures o in Without(tabs, {url}) <==> o in tabs && o.url !in {url} { WithoutHas(tabs, {url}, o); }
  }

  /** A close leaves the other urls as they are, and what was refused is refused again. */
  lemma OneAtATime(tabs: seq<Tab>, url: string, other: string)
    requires UniqueIds(tabs)
    ensures UniqueIds(AfterClose(tabs, url))
    ensures Shows(AfterClose(tabs, url), other) ==> Shows(tabs, other)
    ensures other != url ==> (Shows(AfterClose(tabs, url), other) <==> Shows(tabs, other))
    ensures Shows(tabs, other) && ReplyTo(tabs, other).Some? ==>
            Shows(AfterClose(tabs, url), other) && ReplyTo(AfterClose(tabs, url), other).Some?
  {
    CloseExact(tabs, url);
    if MayClose(tabs, url) {
      WithoutUnique(tabs, {url});
      forall o ensures o in Without(tabs, {url}) <==> o in tabs && o.url !in {url} { WithoutHas(tabs, {url}, o); }
      ReplyIsTrue(tabs, other);
      ReplyIsTrue(Without(tabs, {url}), other);
      if other != url && MayClose(Without(tabs, {url}), other) { MayCloseAfter(tabs, url, other); }
    }
  }

  /** Every window that shows one of the first tabs shows one of the second. */
  ghost predicate KeepsWindows(tabs: seq<Tab>, after: seq<Tab>) {
    forall t :: t in tabs ==> exists o :: o in after && o.window == t.window
  }

  lemma CloseKeepsWindows(tabs: seq<Tab>, url: string)
    requires MayClose(tabs, url)
    ensures KeepsWindows(tabs, Without(tabs, {url}))
  {
    forall t | t in tabs ensures exists o :: o in Without(tabs, {url}) && o.window == t.window {
      var o :| o in tabs && o.window == t.window && o.url != url;
      WithoutHas(tabs, {url}, o);
    }
  }

  /** What may be closed at all. */
  predicate Ordinary(t: Tab) {
    !t.pinned && !t.incognito && IsRestorable(t.url) && t.id.Some?
  }

  /** The result of closing some urls altogether: only ordinary tabs go, and no window goes with them. */
  ghost predicate Spares(tabs: seq<Tab>, gone: set<string>) {
    && (forall t :: t in tabs && t.url in gone ==> Ordinary(t))
    && KeepsWindows(tabs, Without(tabs, gone))
  }

  lemma SparesBoth(tabs: seq<Tab>, url: string, gone: set<string>)
    requires MayClose(tabs, url) && Spares(Without(tabs, {url}), gone)
    ensures Spares(tabs, {url} + gone)
  {
    CloseKeepsWindows(tabs, url);
    WithoutTwice(tabs, {url}, gone);
    forall t | t in tabs && t.url in {url} + gone ensures Ordinary(t) {
      WithoutHas(tabs, {url}, t);
    }
  }

  /**
   Over any sequence of closes: what is left is the tabs, in order, without those on some of the urls asked
   for. So each url goes altogether or not at all, no pinned or incognito tab goes, and no window is emptied.
   */
  lemma {:induction false} CloseAllExact(tabs: seq<Tab>, urls: seq<string>) returns (gone: set<string>)
    requires UniqueIds(tabs)
    ensures CloseAll(tabs, urls) == Without(tabs, gone) && Spares(tabs, gone)
    ensures forall u :: u in gone ==> u in urls
    decreases |urls|
  {
    if urls == [] {
      gone := {};
      WithoutNone(tabs, {});
    } else {
      CloseExact(tabs, urls[0]);
      if MayClose(tabs, urls[0]) {
        WithoutUnique(tabs, {urls[0]});
        var rest := CloseAllExact(Without(tabs, {urls[0]}), urls[1..]);
        gone := {urls[0]} + rest;
        WithoutTwice(tabs, {urls[0]}, rest);
        SparesBoth(tabs, urls[0], rest);
      } else {
        gone := CloseAllExact(tabs, urls[1..]);
      }
    }
  }
}
