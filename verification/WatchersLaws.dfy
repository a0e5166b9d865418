/** When exactly the watchers ask an application to quit. */
module WatchersLaws {
  import opened Ascii
  import opened Common
  import opened Watchers

  /** From `j`, where windows were shown, up to `i` the process was there and every eligible look found none. */
  ghost predicate Windowless(h: seq<Sight>, j: nat, i: nat) {
    j < i <= |h| && h[j].Shown? && forall k :: j < k < i ==> h[k].Empty? || h[k].Skipped?
  }

  /** `f` is the first look after `j` that found no windows. */
  ghost predicate FirstEmpty(h: seq<Sight>, j: nat, f: nat) {
    j < f < |h| && h[f].Empty? && forall k :: j < k < f ==> !h[k].Empty?
  }

  /** The grace period has passed; clock readings that run backwards count as none having passed. */
  ghost predicate Waited(since: nat, now: nat, grace: nat) {
    grace == 0 || since + grace <= now
  }

  /** Some look in the stretch before `n` already came after the grace period. */
  ghost predicate Late(h: seq<Sight>, j: nat, since: nat, n: nat)
    requires n <= |h|
  {
    exists k :: j < k < n && h[k].Empty? && Waited(since, h[k].at, h[k].grace)
  }

  ghost predicate DueSince(h: seq<Sight>, i: nat, j: nat, f: nat)
    requires i < |h| && h[i].Empty?
  {
    && Windowless(h, j, i) && FirstEmpty(h, j, f) && f <= i
    && Waited(h[f].at, h[i].at, h[i].grace) && !Late(h, j, h[f].at, i)
  }

  /**
   The rule: at `i` no windows are found, nor have any been since they were last shown at `j`; the grace
   period has passed since the first such look `f`, and this is the first look after it.
   */
  ghost predicate QuitDue(h: seq<Sight>, i: nat) {
    i < |h| && h[i].Empty? && exists j: nat, f: nat :: DueSince(h, i, j, f)
  }

  lemma SameFirst(h: seq<Sight>, j: nat, f: nat, g: nat)
    requires FirstEmpty(h, j, f) && FirstEmpty(h, j, g)
    ensures f == g
  {
  }

  lemma SameStretch(h: seq<Sight>, j: nat, i: nat, m: nat, k: nat)
    requires Windowless(h, j, i) && Windowless(h, m, k) && m < i <= k
    ensures j == m
  {
  }

  // ---------------------------------------------------------------- the track as a summary of the history

  /** Where windows were last shown, if the process has been there since. */
  function LastShown(h: seq<Sight>, n: nat): Option<nat>
    requires n <= |h|
  {
    if n == 0 then None
    else match h[n - 1]
      case Absent => None
      case Shown => Some(n - 1)
      case _ => LastShown(h, n - 1)
  }

  function FirstEmptyAfter(h: seq<Sight>, j: nat, n: nat): Option<nat>
    requires n <= |h|
  {
    if n <= j + 1 then None
    else
      var f := FirstEmptyAfter(h, j, n - 1);
      if f.Some? then f else if h[n - 1].Empty? then Some(n - 1) else None
  }

  lemma {:induction false} LastShownExact(h: seq<Sight>, n: nat)
    requires n <= |h|
    ensures forall j: nat :: LastShown(h, n) == Some(j) <==> Windowless(h, j, n)
  {
    if n > 0 { LastShownExact(h, n - 1); }
  }

  lemma {:induction false} FirstEmptyExact(h: seq<Sight>, j: nat, n: nat)
    requires n <= |h|
    ensures forall f: nat :: FirstEmptyAfter(h, j, n) == Some(f) <==> FirstEmpty(h, j, f) && f < n
    ensures FirstEmptyAfter(h, j, n).None? ==> forall k :: j < k < n ==> !h[k].Empty?
  {
    if n > j + 1 { FirstEmptyExact(h, j, n - 1); }
  }

  function Summary(h: seq<Sight>, n: nat): Track
    requires n <= |h|
  {
    Known(Follow(None, h[..n]))
  }

  /** The track says where the current stretch began, and whether the request has been made in it. */
  ghost predicate Summarizes(h: seq<Sight>, n: nat, t: Track)
    requires n <= |h|
  {
    match LastShown(h, n)
    case None => t == Fresh()
    case Some(j) =>
      var f := FirstEmptyAfter(h, j, n);
      && t.hadWindows
      && (f.None? ==> t.zeroSince.None? && !t.requested)
      && (f.Some? ==>
        && f.value < n && h[f.value].Empty? && t.zeroSince == Some(h[f.value].at)
        && (t.requested <==> Late(h, j, h[f.value].at, n)))
  }

  lemma SummaryStep(h: seq<Sight>, n: nat)
    requires n < |h|
    ensures Follow(None, h[..n + 1]) == Seen(Follow(None, h[..n]), h[n])
  {
    assert h[..n + 1] == h[..n] + [h[n]];
    FollowAppend(None, h[..n], [h[n]]);
    assert [h[n]][1..] == [];
  }

  lemma LateStep(h: seq<Sight>, j: nat, since: nat, n: nat)
    requires n < |h|
    ensures Late(h, j, since, n + 1) <==>
      Late(h, j, since, n) || (j < n && h[n].Empty? && Waited(since, h[n].at, h[n].grace))
  {
  }

  lemma {:induction false} SummaryExact(h: seq<Sight>, n: nat)
    requires n <= |h|
    ensures Summarizes(h, n, Summary(h, n))
    decreases n
  {
    if n > 0 {
      SummaryExact(h, n - 1);
      SummaryStep(h, n - 1);
      StretchStep(h, n - 1, Follow(None, h[..n - 1]));
    }
  }

  lemma NoneBefore(h: seq<Sight>, j: nat, n: nat, since: nat)
    requires n <= |h| && FirstEmptyAfter(h, j, n).None?
    ensures !Late(h, j, since, n)
  {
    FirstEmptyExact(h, j, n);
  }

  lemma {:induction false} LastShownFits(h: seq<Sight>, n: nat)
    requires n <= |h| && LastShown(h, n).Some?
    ensures LastShown(h, n).value < n
  {
    if h[n - 1].Empty? || h[n - 1].Skipped? { LastShownFits(h, n - 1); }
  }

  lemma StretchStep(h: seq<Sight>, n: nat, t: Option<Track>)
    requires n < |h| && Summarizes(h, n, Known(t))
    ensures Summarizes(h, n + 1, Known(Seen(t, h[n])))
  {
    if (h[n].Empty? || h[n].Skipped?) && LastShown(h, n).Some? {
      var j := LastShown(h, n).value;
      LastShownFits(h, n);
      var f := FirstEmptyAfter(h, j, n);
      if f.Some? {
        LateStep(h, j, h[f.value].at, n);
      } else if h[n].Empty? {
        NoneBefore(h, j, n, h[n].at);
        LateStep(h, j, h[n].at, n);
      }
    }
  }

  /** An application is asked to quit exactly by the rule. */
  lemma AsksExact(h: seq<Sight>, i: nat)
    requires i < |h|
    ensures Asks(Follow(None, h[..i]), h[i]) <==> QuitDue(h, i)
  {
    SummaryExact(h, i);
    LastShownExact(h, i);
    if h[i].Empty? {
      if LastShown(h, i).Some? {
        var j := LastShown(h, i).value;
        FirstEmptyExact(h, j, i);
        if FirstEmptyAfter(h, j, i).Some? {
          StretchHasOne(h, i, j, FirstEmptyAfter(h, j, i).value);
        } else {
          NoneBefore(h, j, i, h[i].at);
          FirstIsHere(h, i, j);
          StretchHasOne(h, i, j, i);
        }
      }
    }
  }

  lemma FirstIsHere(h: seq<Sight>, i: nat, j: nat)
    requires i < |h| && h[i].Empty? && j < i && FirstEmptyAfter(h, j, i).None?
    ensures FirstEmpty(h, j, i)
  {
    FirstEmptyExact(h, j, i);
  }

  /** The stretch and its first look are determined by `i`. */
  lemma StretchHasOne(h: seq<Sight>, i: nat, j: nat, f: nat)
    requires i < |h| && h[i].Empty? && Windowless(h, j, i) && FirstEmpty(h, j, f) && f <= i
    ensures QuitDue(h, i) <==> Waited(h[f].at, h[i].at, h[i].grace) && !Late(h, j, h[f].at, i)
  {
    if QuitDue(h, i) {
      var m: nat, g: nat :| DueSince(h, i, m, g);
      SameStretch(h, j, i, m, i);
      SameFirst(h, j, f, g);
    } else {
      assert !DueSince(h, i, j, f);
    }
  }

  /** Between two requests the application has shown windows again. */
  lemma OncePerStretch(h: seq<Sight>, i: nat, k: nat)
    requires QuitDue(h, i) && QuitDue(h, k) && i < k
    ensures exists m :: i < m < k && h[m].Shown?
  {
    var m: nat, g: nat :| DueSince(h, k, m, g);
    if m < i {
      var j: nat, f: nat :| DueSince(h, i, j, f);
      SameStretch(h, j, i, m, k);
      SameFirst(h, j, f, g);
    }
  }

  /** The applications that nothing may quit, whatever the settings: parts of the system, and the program itself. */
  ghost predicate Untouchable(bundle: string) {
    || bundle == "com.apple.finder" || bundle == "com.apple.dock" || bundle == "com.apple.systemuiserver"
    || bundle == "com.apple.loginwindow" || bundle == "com.apple.controlcenter"
    || bundle == "com.apple.notificationcenterui"
    || bundle == "com.omnibus.dev" || bundle == "com.omnibus.dev.preview" || bundle == "com.omnibus.dev.beta"
  }

  /** It may be quit: a regular application with a bundle, other than those, the excluded ones and this process. */
  ghost predicate MayQuit(app: App, settings: Settings, ownPid: nat) {
    && app.policy == "regular" && app.pid != ownPid && app.bundle != ""
    && !Untouchable(Lower(app.bundle))
    && forall i :: 0 <= i < |settings.excluded| ==> settings.excluded[i] != Lower(app.bundle)
  }

  /** What a look at an application counts as. */
  lemma SightExact(app: App, settings: Settings, now: nat, ownPid: nat)
    ensures SightOf(app, settings, now, ownPid) ==
      if !MayQuit(app, settings, ownPid) then Skipped else if app.windows == 0
        then Empty(now, settings.grace) else Shown
  {
    assert Lower(app.bundle) == "" <==> app.bundle == "";
  }

  /** Each auto-quit in a pass is of an application of the snapshot without windows that may be quit. */
  lemma {:induction false} QuitsAreEligible(tracks: Tracks, apps: seq<App>, settings: Settings, now: nat, ownPid: nat,
      a: Action)
    requires a in AutoQuits(tracks, apps, settings, now, ownPid)
    ensures !a.music && a.pid != ownPid
    ensures exists app ::
      app in apps && app.pid == a.pid && app.name == a.name && app.windows == 0 && MayQuit(app, settings, ownPid)
    decreases |apps|
  {
    var sight := SightOf(apps[0], settings, now, ownPid);
    var t := Of(tracks, apps[0].pid);
    var rest := AutoQuits(Put(tracks, apps[0].pid, Seen(t, sight)), apps[1..], settings, now, ownPid);
    if a in rest {
      QuitsAreEligible(Put(tracks, apps[0].pid, Seen(t, sight)), apps[1..], settings, now, ownPid, a);
      var app :|
        app in apps[1..] && app.pid == a.pid && app.name == a.name && app.windows == 0
          && MayQuit(app, settings, ownPid);
      assert app in apps;
    } else {
      SightExact(apps[0], settings, now, ownPid);
      assert a == Quit(apps[0].pid, apps[0].name, false);
      assert apps[0] in apps;
    }
  }

  // ---------------------------------------------------------------- counting over a run

  /** How many looks of a history are due a request. */
  ghost function DueCount(h: seq<Sight>, n: nat): nat
    requires n <= |h|
  {
    if n == 0 then 0 else DueCount(h, n - 1) + (if QuitDue(h, n - 1) then 1 else 0)
  }

  lemma {:induction false} AskedExact(h: seq<Sight>, n: nat)
    requires n <= |h|
    ensures Asked(None, h[..n]) == DueCount(h, n)
    decreases n
  {
    if n > 0 {
      AskedExact(h, n - 1);
      assert h[..n] == h[..n - 1] + [h[n - 1]];
      FollowAppend(None, h[..n - 1], [h[n - 1]]);
      AsksExact(h, n - 1);
      assert [h[n - 1]][1..] == [];
    }
  }

  /** The settings in force are those configured last. */
  lemma {:induction false} InForceExactly(run: seq<Turn>, i: nat)
    requires i < |run| && run[i].Configured? && forall k :: i < k < |run| ==> run[k].Passed?
    ensures InForce(run) == run[i].settings
  {
    if i < |run| - 1 { InForceExactly(run[..|run| - 1], i); }
  }

  /** Before the first, everything is off. */
  lemma {:induction false} OffAtFirst(passes: seq<Turn>)
    requires forall p :: p in passes ==> p.Passed?
    ensures InForce(passes) == Settings(false, 20, [], false, None)
  {
    if passes != [] {
      assert passes[|passes| - 1] in passes;
      OffAtFirst(passes[..|passes| - 1]);
    }
  }

  /**
   Over any run, whatever the settings are changed to in between, a process is asked to quit as often as its own
   history is due, by the rule `QuitDue`, and no more. Turning auto-quit off forgets what was seen.
   */
  lemma RunQuitsExactly(run: seq<Turn>, ownPid: nat, pid: nat)
    ensures var h := History(run, pid, ownPid);
      QuitsOver(run, pid, ownPid) == DueCount(h, |h|)
  {
    var h := History(run, pid, ownPid);
    RunByProcess(run, ownPid, pid);
    AskedExact(h, |h|);
    assert h[..|h|] == h;
  }

  // ---------------------------------------------------------------- Music

  predicate IsMusic(app: App) {
    Lower(app.bundle) == "com.apple.music"
  }

  lemma {:induction false} FindMusicExact(apps: seq<App>)
    ensures FindMusic(apps).None? <==> forall i :: 0 <= i < |apps| ==> !IsMusic(apps[i])
    ensures FindMusic(apps).Some? ==> exists i ::
      0 <= i < |apps| && apps[i] == FindMusic(apps).value && IsMusic(apps[i]) && forall j :: 0 <= j < i ==>
        !IsMusic(apps[j])
  {
    if apps != [] && !IsMusic(apps[0]) {
      FindMusicExact(apps[1..]);
      assert forall i :: 0 < i < |apps| ==> apps[i] == apps[1..][i - 1];
      if FindMusic(apps).Some? {
        var i :| 0 <= i < |apps[1..]| && apps[1..][i] == FindMusic(apps).value && IsMusic(apps[1..][i])
          && forall j :: 0 <= j < i ==> !IsMusic(apps[1..][j]);
        assert apps[i + 1] == FindMusic(apps).value;
        forall j | 0 <= j < i + 1 ensures !IsMusic(apps[j]) { if j > 0 { assert apps[j] == apps[1..][j - 1]; } }
      }
    }
  }

  ghost predicate Runs(apps: seq<App>) {
    exists i :: 0 <= i < |apps| && IsMusic(apps[i])
  }

  /** The last pass of the run, made while the block was on and has stayed on. */
  ghost predicate LastLook(run: seq<Turn>, i: nat) {
    && i < |run| && run[i].Passed? && InForce(run[..i]).musicBlock
    && forall k :: i < k < |run| ==> run[k].Configured? && run[k].settings.musicBlock
  }

  /** The block is on, Music was not running when it last looked, and no allowance is active. */
  ghost predicate Blocked(run: seq<Turn>, unixNow: nat) {
    && InForce(run).musicBlock && Saw(run, false)
    && (InForce(run).allowUntil.None? || InForce(run).allowUntil.value <= unixNow)
  }

  lemma {:induction false} LooksBefore(run: seq<Turn>, i: nat)
    requires run != [] && run[|run| - 1].Configured? && run[|run| - 1].settings.musicBlock && i < |run| - 1
    ensures LastLook(run, i) <==> LastLook(run[..|run| - 1], i)
  {
    var front := run[..|run| - 1];
    assert front[..i] == run[..i];
    assert forall k :: i < k < |front| ==> run[k] == front[k];
  }

  /** Some last look, and it saw Music running or not. */
  ghost predicate Saw(run: seq<Turn>, running: bool) {
    exists i: nat :: LastLook(run, i) && Runs(run[i].apps) == running
  }

  lemma SawBefore(run: seq<Turn>, running: bool)
    requires run != [] && run[|run| - 1].Configured? && run[|run| - 1].settings.musicBlock
    ensures Saw(run, running) <==> Saw(run[..|run| - 1], running)
  {
    var front, last := run[..|run| - 1], |run| - 1;
    forall i: nat | i < last ensures LastLook(run, i) <==> LastLook(front, i) { LooksBefore(run, i); }
    if Saw(run, running) {
      var i: nat :| LastLook(run, i) && Runs(run[i].apps) == running;
      assert i != last && LastLook(front, i) && front[i] == run[i];
    }
    if Saw(front, running) {
      var i: nat :| LastLook(front, i) && Runs(front[i].apps) == running;
      assert LastLook(run, i) && front[i] == run[i];
    }
  }

  lemma {:induction false} SeenExactly(run: seq<Turn>, running: bool)
    ensures MusicSeen(run) == Some(running) <==> Saw(run, running)
  {
    if run != [] {
      var front, last := run[..|run| - 1], |run| - 1;
      match run[last]
      case Configured(settings) =>
        if settings.musicBlock {
          SeenExactly(front, running);
          SawBefore(run, running);
        }
      case Passed(apps, _, _) =>
        FindMusicExact(apps);
        assert LastLook(run, last) <==> InForce(front).musicBlock;
    }
  }

  /** The actions that are about Music. */
  function MusicOf(actions: seq<Action>): seq<Action> {
    if actions == [] then []
    else (if actions[0].music then [actions[0]] else []) + MusicOf(actions[1..])
  }

  lemma {:induction false} MusicBehind(auto: seq<Action>, quits: seq<Action>)
    requires (forall a :: a in auto ==> !a.music) && |quits| <= 1 && forall a :: a in quits ==> a.music
    ensures MusicOf(auto + quits) == quits
  {
    if auto == [] {
      assert auto + quits == quits;
      if quits != [] { assert quits[0] in quits && MusicOf(quits[1..]) == [] && quits == [quits[0]]; }
    } else {
      assert auto[0] in auto && forall a :: a in auto[1..] ==> a in auto;
      assert (auto + quits)[0] == auto[0] && (auto + quits)[1..] == auto[1..] + quits;
      MusicBehind(auto[1..], quits);
    }
  }

  lemma MusicActions(tracks: Tracks, seen: Option<bool>, apps: seq<App>, settings: Settings, now: nat, unixNow: nat,
      ownPid: nat)
    ensures MusicOf(ActionsOf(tracks, seen, apps, settings, now, unixNow, ownPid)) ==
      MusicQuit(seen, apps, settings, unixNow)
  {
    var kept := Retained(tracks, apps);
    var auto := if settings.autoQuit then AutoQuits(kept, apps, settings, now, ownPid) else [];
    forall a | a in auto ensures !a.music { QuitsAreEligible(kept, apps, settings, now, ownPid, a); }
    MusicBehind(auto, MusicQuit(seen, apps, settings, unixNow));
  }

  /**
   Of the actions of a pass after a run, those about Music: it is quit, the first of it in the snapshot, exactly when
   it runs and did not at the last pass, blocked.
   */
  lemma MusicExact(run: seq<Turn>, apps: seq<App>, now: nat, unixNow: nat, ownPid: nat)
    ensures var quits := MusicOf(ActionsAfter(run, apps, now, unixNow, ownPid));
      if !Runs(apps) || !Blocked(run, unixNow) then quits == []
      else exists i ::
        && 0 <= i < |apps| && IsMusic(apps[i]) && (forall j :: 0 <= j < i ==> !IsMusic(apps[j]))
        && quits == [Quit(apps[i].pid, apps[i].name, true)]
  {
    MusicActions(TracksOver(run, ownPid), MusicSeen(run), apps, InForce(run), now, unixNow, ownPid);
    FindMusicExact(apps);
    SeenExactly(run, false);
  }
}
