/**
 The watchers' decision pass: which applications are asked to quit because their last window has been
 closed for long enough, and when Music is.
 */
module Watchers {
  import opened Ascii
  import opened Common

  const MUSIC := "com.apple.music"
  const NEVER_QUIT: set<string> := {
    "com.apple.finder", "com.apple.dock", "com.apple.systemuiserver", "com.apple.loginwindow",
    "com.apple.controlcenter", "com.apple.notificationcenterui", "com.omnibus.dev",
    "com.omnibus.dev.preview", "com.omnibus.dev.beta"}

  /** `graceSeconds` and clock readings are in one unit. */
  datatype Settings = Settings(
    autoQuit: bool, grace: nat, excluded: seq<string>, musicBlock: bool, allowUntil: Option<nat>)

  datatype App = App(pid: nat, bundle: string, name: string, windows: nat, policy: string)

  datatype Track = Track(hadWindows: bool, zeroSince: Option<nat>, requested: bool)

  datatype Action = Quit(pid: nat, name: string, music: bool)

  const DEFAULT := Settings(false, 20, [], false, None)

  /** An application that may be quit at all. */
  predicate Eligible(app: App, settings: Settings, ownPid: nat) {
    var bundle := Lower(app.bundle);
    && app.policy == "regular" && app.pid != ownPid && bundle != ""
    && bundle !in NEVER_QUIT && bundle !in settings.excluded
  }

  // ---------------------------------------------------------------- one application

  /** What one entry of a snapshot, or the lack of one, says about a process. */
  datatype Sight = Absent | Skipped | Shown | Empty(at: nat, grace: nat)

  function Fresh(): Track {
    Track(false, None, false)
  }

  function Known(t: Option<Track>): Track {
    if t.Some? then t.value else Fresh()
  }

  function SinceAt(t: Track, now: nat): nat {
    if t.zeroSince.Some? then t.zeroSince.value else now
  }

  /** `duration_since` is zero for an earlier reading. */
  predicate Overdue(since: nat, now: nat, grace: nat) {
    (if now < since then 0 else now - since) >= grace
  }

  /** The application is asked to quit. */
  predicate Asks(t: Option<Track>, s: Sight) {
    s.Empty? && Known(t).hadWindows && !Known(t).requested && Overdue(SinceAt(Known(t), s.at), s.at, s.grace)
  }

  function Seen(t: Option<Track>, s: Sight): Option<Track> {
    match s
    case Absent => None
    case Skipped => t
    case Shown => Some(Track(true, None, false))
    case Empty(at, _) =>
      var k := Known(t);
      if !k.hadWindows then Some(k)
      else Some(k.(zeroSince := Some(SinceAt(k, at)), requested := k.requested || Asks(t, s)))
  }

  function SightOf(app: App, settings: Settings, now: nat, ownPid: nat): Sight {
    if !Eligible(app, settings, ownPid) then Skipped else if app.windows > 0 then Shown else Empty(now, settings.grace)
  }

  // ---------------------------------------------------------------- one pass

  type Tracks = map<nat, Track>

  function Of(tracks: Tracks, pid: nat): Option<Track> {
    if pid in tracks then Some(tracks[pid]) else None
  }

  function Put(tracks: Tracks, pid: nat, t: Option<Track>): Tracks {
    if t.Some? then tracks[pid := t.value] else tracks - {pid}
  }

  function Retained(tracks: Tracks, apps: seq<App>): Tracks {
    map p | p in tracks && (exists i :: 0 <= i < |apps| && apps[i].pid == p) :: tracks[p]
  }

  function TracksAfter(tracks: Tracks, apps: seq<App>, settings: Settings, now: nat, ownPid: nat): Tracks
    decreases |apps|
  {
    if apps == [] then tracks
    else
      var sight := SightOf(apps[0], settings, now, ownPid);
      TracksAfter(Put(tracks, apps[0].pid, Seen(Of(tracks, apps[0].pid), sight)), apps[1..], settings,
        now, ownPid)
  }

  function AutoQuits(tracks: Tracks, apps: seq<App>, settings: Settings, now: nat, ownPid: nat): seq<Action>
    decreases |apps|
  {
    if apps == [] then []
    else
      var sight := SightOf(apps[0], settings, now, ownPid);
      var t := Of(tracks, apps[0].pid);
      (if Asks(t, sight) then [Quit(apps[0].pid, apps[0].name, false)] else [])
      + AutoQuits(Put(tracks, apps[0].pid, Seen(t, sight)), apps[1..], settings, now, ownPid)
  }

  /** The first Music in the snapshot. */
  function FindMusic(apps: seq<App>): Option<App> {
    if apps == [] then None
    else if Lower(apps[0].bundle) == MUSIC then Some(apps[0])
    else FindMusic(apps[1..])
  }

  predicate Allowed(settings: Settings, unixNow: nat) {
    settings.allowUntil.Some? && unixNow < settings.allowUntil.value
  }

  function MusicQuit(seen: Option<bool>, apps: seq<App>, settings: Settings, unixNow: nat): seq<Action> {
    var music := FindMusic(apps);
    if settings.musicBlock && seen == Some(false) && music.Some? && !Allowed(settings, unixNow)
    then [Quit(music.value.pid, music.value.name, true)] else []
  }

  function TracksNext(tracks: Tracks, apps: seq<App>, settings: Settings, now: nat, ownPid: nat): Tracks {
    if settings.autoQuit then TracksAfter(Retained(tracks, apps), apps, settings, now, ownPid) else map[]
  }

  function MusicNext(apps: seq<App>, settings: Settings): Option<bool> {
    if settings.musicBlock then Some(FindMusic(apps).Some?) else None
  }

  /** What `configure` leaves. */
  function TracksSet(tracks: Tracks, settings: Settings): Tracks {
    if settings.autoQuit then tracks else map[]
  }

  function MusicSet(seen: Option<bool>, settings: Settings): Option<bool> {
    if settings.musicBlock then seen else None
  }

  function ActionsOf(tracks: Tracks, seen: Option<bool>, apps: seq<App>, settings: Settings, now: nat, unixNow: nat,
      ownPid: nat): seq<Action> {
    (if settings.autoQuit then AutoQuits(Retained(tracks, apps), apps, settings, now, ownPid) else [])
    + MusicQuit(seen, apps, settings, unixNow)
  }

  class WatcherState {
    var settings: Settings
    var tracks: Tracks
    var musicSeen: Option<bool>

    constructor ()
      ensures settings == DEFAULT && tracks == map[] && musicSeen == None
    {
      settings, tracks, musicSeen := DEFAULT, map[], None;
    }

    /** `configure`, once the settings have been accepted. */
    method Configure(newSettings: Settings)
      modifies this
      ensures settings == newSettings
      ensures tracks == TracksSet(old(tracks), newSettings) && musicSeen == MusicSet(old(musicSeen), newSettings)
    {
      if !newSettings.autoQuit { tracks := map[]; }
      if !newSettings.musicBlock { musicSeen := None; }
      settings := newSettings;
    }

    /** One turn of the loop over the snapshot: whether the application is asked to quit. */
    method Consider(app: App, now: nat, ownPid: nat) returns (asks: bool)
      modifies this`tracks
      ensures asks == Asks(Of(old(tracks), app.pid), SightOf(app, settings, now, ownPid))
      ensures tracks == Put(old(tracks), app.pid,
        Seen(Of(old(tracks), app.pid), SightOf(app, settings, now, ownPid)))
    {
      var bundle := Lower(app.bundle);
      if app.policy != "regular" || app.pid == ownPid || bundle == "" || bundle in NEVER_QUIT
        || bundle in settings.excluded {
        return false;
      }
      var track := if app.pid in tracks then tracks[app.pid] else Track(false, None, false);
      asks := false;
      if app.windows > 0 {
        track := Track(true, None, false);
      } else if track.hadWindows {
        var since := if track.zeroSince.Some? then track.zeroSince.value else now;
        track := track.(zeroSince := Some(since));
        if !track.requested && (if now < since then 0 else now - since) >= settings.grace {
          track := track.(requested := true);
          asks := true;
        }
      }
      tracks := tracks[app.pid := track];
    }

    /** `step`. */
    method Step(apps: seq<App>, now: nat, unixNow: nat, ownPid: nat) returns (actions: seq<Action>)
      modifies this`tracks, this`musicSeen
      ensures tracks == TracksNext(old(tracks), apps, settings, now, ownPid)
      ensures musicSeen == MusicNext(apps, settings)
      ensures actions == ActionsOf(old(tracks), old(musicSeen), apps, settings, now, unixNow, ownPid)
    {
      actions := [];
      if settings.autoQuit {
        tracks := Retained(tracks, apps);
        ghost var start := tracks;
        for i := 0 to |apps|
          invariant musicSeen == old(musicSeen)
          invariant TracksAfter(tracks, apps[i..], settings, now, ownPid) ==
            TracksAfter(start, apps, settings, now, ownPid)
          invariant actions + AutoQuits(tracks, apps[i..], settings, now, ownPid) ==
            AutoQuits(start, apps, settings, now, ownPid)
        {
          assert apps[i..][1..] == apps[i + 1..];
          var asks := Consider(apps[i], now, ownPid);
          ghost var rest := AutoQuits(tracks, apps[i + 1..], settings, now, ownPid);
          Associate(actions, if asks then [Quit(apps[i].pid, apps[i].name, false)] else [], rest);
          if asks {
            actions := actions + [Quit(apps[i].pid, apps[i].name, false)];
          } else {
            assert actions + [] == actions;
          }
        }
        assert apps[|apps|..] == [] && actions + [] == actions;
      } else {
        tracks := map[];
      }
      var music := FindMusic(apps);
      var quits: seq<Action> := [];
      if settings.musicBlock {
        if musicSeen == Some(false) && music.Some? && !Allowed(settings, unixNow) {
          quits := [Quit(music.value.pid, music.value.name, true)];
        }
        musicSeen := Some(music.Some?);
      } else {
        musicSeen := None;
      }
      actions := actions + quits;
    }
  }

  // ---------------------------------------------------------------- process by process

  /** What a snapshot shows of one process. */
  function Sights(apps: seq<App>, pid: nat, settings: Settings, now: nat, ownPid: nat): seq<Sight> {
    if apps == [] then []
    else
      var rest := Sights(apps[1..], pid, settings, now, ownPid);
      if apps[0].pid == pid then [SightOf(apps[0], settings, now, ownPid)] + rest else rest
  }

  /** The same, with a process that is not there; while auto-quit is off, none is. */
  function SightsIn(apps: seq<App>, pid: nat, settings: Settings, now: nat, ownPid: nat): seq<Sight> {
    var s := Sights(apps, pid, settings, now, ownPid);
    if !settings.autoQuit || s == [] then [Absent] else s
  }

  /** The track after some sights. */
  function Follow(t: Option<Track>, sights: seq<Sight>): Option<Track>
    decreases |sights|
  {
    if sights == [] then t else Follow(Seen(t, sights[0]), sights[1..])
  }

  /** How often the process is asked to quit along some sights. */
  function Asked(t: Option<Track>, sights: seq<Sight>): nat
    decreases |sights|
  {
    if sights == [] then 0
    else (if Asks(t, sights[0]) then 1 else 0) + Asked(Seen(t, sights[0]), sights[1..])
  }

  /** How many of the actions are auto-quits of a process. */
  function QuitsOf(actions: seq<Action>, pid: nat): nat {
    if actions == [] then 0
    else (if actions[0].pid == pid && !actions[0].music then 1 else 0) + QuitsOf(actions[1..], pid)
  }

  lemma PutOf(tracks: Tracks, pid: nat, t: Option<Track>, other: nat)
    ensures Of(Put(tracks, pid, t), other) == if other == pid then t else Of(tracks, other)
  {
  }

  lemma QuitsAppend(a: Action, rest: seq<Action>, pid: nat)
    ensures QuitsOf([a] + rest, pid) == QuitsOf(rest, pid) + (if a.pid == pid && !a.music then 1 else 0)
  {
    assert ([a] + rest)[1..] == rest;
  }

  /** A pass treats every process on its own: by the sights it gives of it. */
  lemma {:induction false} PassByProcess(tracks: Tracks, apps: seq<App>, settings: Settings, now: nat, ownPid: nat,
      pid: nat)
    ensures Of(TracksAfter(tracks, apps, settings, now, ownPid), pid) ==
      Follow(Of(tracks, pid), Sights(apps, pid, settings, now, ownPid))
    ensures QuitsOf(AutoQuits(tracks, apps, settings, now, ownPid), pid) ==
      Asked(Of(tracks, pid), Sights(apps, pid, settings, now, ownPid))
    decreases |apps|
  {
    if apps != [] {
      var app := apps[0];
      var sight := SightOf(app, settings, now, ownPid);
      var t := Of(tracks, app.pid);
      var next := Put(tracks, app.pid, Seen(t, sight));
      PutOf(tracks, app.pid, Seen(t, sight), pid);
      PassByProcess(next, apps[1..], settings, now, ownPid, pid);
      var rest := AutoQuits(next, apps[1..], settings, now, ownPid);
      QuitsAppend(Quit(app.pid, app.name, false), rest, pid);
      assert [] + rest == rest;
      var later := Sights(apps[1..], pid, settings, now, ownPid);
      if app.pid == pid {
        assert ([sight] + later)[0] == sight && ([sight] + later)[1..] == later;
      } else {
        assert [] + later == later;
      }
    }
  }

  // ---------------------------------------------------------------- runs

  /** What happens to the watchers: new settings, which `configure` has accepted, or a pass over a snapshot. */
  datatype Turn = Configured(settings: Settings) | Passed(apps: seq<App>, now: nat, unixNow: nat)

  /** The settings that the last `configure` set, and everything off before the first. */
  function InForce(run: seq<Turn>): Settings {
    if run == [] then DEFAULT
    else match run[|run| - 1]
      case Configured(settings) => settings
      case Passed(_, _, _) => InForce(run[..|run| - 1])
  }

  /** Everything that a run shows of a process. */
  function History(run: seq<Turn>, pid: nat, ownPid: nat): seq<Sight> {
    if run == [] then []
    else
      var front := run[..|run| - 1];
      History(front, pid, ownPid) + match run[|run| - 1]
        case Configured(settings) => if settings.autoQuit then [] else [Absent]
        case Passed(apps, now, _) => SightsIn(apps, pid, InForce(front), now, ownPid)
  }

  function TracksOver(run: seq<Turn>, ownPid: nat): Tracks {
    if run == [] then map[]
    else
      var front := run[..|run| - 1];
      match run[|run| - 1]
      case Configured(settings) => TracksSet(TracksOver(front, ownPid), settings)
      case Passed(apps, now, _) => TracksNext(TracksOver(front, ownPid), apps, InForce(front), now, ownPid)
  }

  function MusicSeen(run: seq<Turn>): Option<bool> {
    if run == [] then None
    else
      var front := run[..|run| - 1];
      match run[|run| - 1]
      case Configured(settings) => MusicSet(MusicSeen(front), settings)
      case Passed(apps, _, _) => MusicNext(apps, InForce(front))
  }

  /** What a pass after a run does. */
  function ActionsAfter(run: seq<Turn>, apps: seq<App>, now: nat, unixNow: nat, ownPid: nat): seq<Action> {
    ActionsOf(TracksOver(run, ownPid), MusicSeen(run), apps, InForce(run), now, unixNow, ownPid)
  }

  /** How often a run asks a process to quit. */
  function QuitsOver(run: seq<Turn>, pid: nat, ownPid: nat): nat {
    if run == [] then 0
    else
      var front := run[..|run| - 1];
      QuitsOver(front, pid, ownPid) + match run[|run| - 1]
        case Configured(_) => 0
        case Passed(apps, now, unixNow) => QuitsOf(ActionsAfter(front, apps, now, unixNow, ownPid), pid)
  }

  lemma {:induction false} QuitsBehind(auto: seq<Action>, more: seq<Action>, pid: nat)
    ensures QuitsOf(auto + more, pid) == QuitsOf(auto, pid) + QuitsOf(more, pid)
  {
    if auto == [] {
      assert auto + more == more;
    } else {
      assert (auto + more)[1..] == auto[1..] + more;
      QuitsBehind(auto[1..], more, pid);
    }
  }

  /** What is asked of Music is no auto-quit. */
  lemma OnlyAutoQuitsCount(tracks: Tracks, seen: Option<bool>, apps: seq<App>, settings: Settings, now: nat,
      unixNow: nat, ownPid: nat, pid: nat)
    ensures QuitsOf(ActionsOf(tracks, seen, apps, settings, now, unixNow, ownPid), pid) ==
      if settings.autoQuit then QuitsOf(AutoQuits(Retained(tracks, apps), apps, settings, now, ownPid), pid) else 0
  {
    var auto := if settings.autoQuit then AutoQuits(Retained(tracks, apps), apps, settings, now, ownPid) else [];
    QuitsBehind(auto, MusicQuit(seen, apps, settings, unixNow), pid);
  }

  lemma {:induction false} FollowAppend(t: Option<Track>, a: seq<Sight>, b: seq<Sight>)
    ensures Follow(t, a + b) == Follow(Follow(t, a), b)
    ensures Asked(t, a + b) == Asked(t, a) + Asked(Follow(t, a), b)
    decreases |a|
  {
    if a == [] {
      assert a + b == b;
    } else {
      assert (a + b)[1..] == a[1..] + b;
      FollowAppend(Seen(t, a[0]), a[1..], b);
    }
  }

  lemma {:induction false} SightsEmpty(apps: seq<App>, pid: nat, settings: Settings, now: nat, ownPid: nat)
    ensures Sights(apps, pid, settings, now, ownPid) == [] <==> !exists i :: 0 <= i < |apps| && apps[i].pid == pid
  {
    if apps != [] {
      SightsEmpty(apps[1..], pid, settings, now, ownPid);
      assert forall i :: 0 < i < |apps| ==> apps[i] == apps[1..][i - 1];
    }
  }

  /** One pass from any tracks: a process that has gone is forgotten, any other follows its sights. */
  lemma PassOf(tracks: Tracks, apps: seq<App>, settings: Settings, now: nat, ownPid: nat, pid: nat)
    ensures Of(TracksNext(tracks, apps, settings, now, ownPid), pid) ==
      Follow(Of(tracks, pid), SightsIn(apps, pid, settings, now, ownPid))
    ensures settings.autoQuit ==>
      QuitsOf(AutoQuits(Retained(tracks, apps), apps, settings, now, ownPid), pid) ==
      Asked(Of(tracks, pid), SightsIn(apps, pid, settings, now, ownPid))
  {
    SightsEmpty(apps, pid, settings, now, ownPid);
    if settings.autoQuit { PassByProcess(Retained(tracks, apps), apps, settings, now, ownPid, pid); }
    assert [Absent][1..] == [];
  }

  lemma PassedByProcess(run: seq<Turn>, apps: seq<App>, now: nat, unixNow: nat, ownPid: nat, pid: nat)
    requires Of(TracksOver(run, ownPid), pid) == Follow(None, History(run, pid, ownPid))
    ensures Of(TracksNext(TracksOver(run, ownPid), apps, InForce(run), now, ownPid), pid) ==
      Follow(None, History(run, pid, ownPid) + SightsIn(apps, pid, InForce(run), now, ownPid))
    ensures Asked(None, History(run, pid, ownPid) + SightsIn(apps, pid, InForce(run), now, ownPid)) ==
      Asked(None, History(run, pid, ownPid)) + QuitsOf(ActionsAfter(run, apps, now, unixNow, ownPid), pid)
  {
    var tracks, settings := TracksOver(run, ownPid), InForce(run);
    OnlyAutoQuitsCount(tracks, MusicSeen(run), apps, settings, now, unixNow, ownPid, pid);
    PassOf(tracks, apps, settings, now, ownPid, pid);
    FollowAppend(None, History(run, pid, ownPid), SightsIn(apps, pid, settings, now, ownPid));
    assert [Absent][1..] == [];
  }

  /** Over a run, what happens to a process depends on its own history alone. */
  lemma {:induction false} RunByProcess(run: seq<Turn>, ownPid: nat, pid: nat)
    ensures Of(TracksOver(run, ownPid), pid) == Follow(None, History(run, pid, ownPid))
    ensures QuitsOver(run, pid, ownPid) == Asked(None, History(run, pid, ownPid))
  {
    if run != [] {
      var front := run[..|run| - 1];
      RunByProcess(front, ownPid, pid);
      match run[|run| - 1]
      case Configured(settings) =>
        var h := History(front, pid, ownPid);
        FollowAppend(None, h, [Absent]);
        assert h + [] == h && [Absent][1..] == [];
      case Passed(apps, now, unixNow) => PassedByProcess(front, apps, now, unixNow, ownPid, pid);
    }
  }
}
