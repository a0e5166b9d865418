/**
 The clipboard history under its lock, and the worker that reads the clipboard outside of it: each read is
 recorded only if the revision it started from is still the current one.
 */
module ClipboardProtocol {
  import opened Ascii
  import opened Common
  import opened Clipboard
  import opened ClipboardService

  /** The shared history; the revision is a wrapping `u64`. */
  datatype H = H(settings: Settings, entries: seq<Entry>, lastChange: int, revision: nat, workerStarted: bool,
      shutdown: bool)

  /** What reading the clipboard returned. */
  datatype Reading = Failed | Got(count: Option<int>, text: Option<string>, app: Option<string>)

  function Tidy(h: H, now: nat): H {
    h.(entries := Pruned(h.entries, now, h.settings.retentionHours * 3600))
  }

  /** `wrapping_add(1)`. */
  function Next(revision: nat): nat {
    if revision + 1 == WRAP then 0 else revision + 1
  }

  function Bumped(h: H): H {
    h.(revision := Next(h.revision))
  }

  predicate Excluded(ids: seq<string>, app: string) {
    exists i :: 0 <= i < |ids| && Lower(ids[i]) == Lower(app)
  }

  /** What `record` takes. */
  predicate Recordable(h: H, text: string, app: string) {
    && TrimStart(text) != "" && Bytes(text) <= MAX_TEXT_BYTES && app != ""
    && !Excluded(h.settings.excluded, app)
    && (h.entries != [] ==> h.entries[0].text != text)
  }

  function Recorded(h: H, text: string, app: string, now: nat, id: string): H {
    if !Recordable(h, text, app) then h
    else Tidy(h.(entries := [Entry(id, text, app, false, now)] + h.entries), now)
  }

  /**
   `configure` when it turns collection off or pauses it: it never fails to do that. `valid` is what normalizing the
   new preferences gives, if they are accepted.
   */
  function Revoked(h: H, s: Settings, valid: Option<Settings>, update: bool, now: nat): H {
    var b := Bumped(h);
    if !s.enabled then Tidy(b.(settings := b.settings.(enabled := false, paused := false), entries := []), now)
    else
      var p := if b.settings.enabled then b.(settings := b.settings.(paused := true)) else b;
      if !update then Tidy(p, now)
      else match valid
        case None => p
        case Some(n) => Tidy(p.(settings := n.(enabled := p.settings.enabled, paused := p.settings.enabled)), now)
  }

  /** The last section of `configure` when it turns collection on, with the counter it read before. */
  function Enabled(h: H, s: Settings, revision: nat, baseline: Option<int>, now: nat): H {
    if h.revision != revision || h.shutdown then h
    else if baseline.None? then Bumped(h)
    else Tidy(Bumped(h).(lastChange := baseline.value, settings := s, workerStarted := true), now)
  }

  predicate Stops(h: H) {
    h.shutdown || !h.settings.enabled
  }

  /** The worker's first section: it ends, or tidies up and reads unless paused. */
  function WorkerTop(h: H, now: nat): H {
    if Stops(h) then h.(workerStarted := false) else Tidy(h, now)
  }

  predicate Accepts(h: H, revision: nat) {
    revision == h.revision && h.settings.enabled && !h.settings.paused && !h.shutdown
  }

  function WorkerDone(h: H, revision: nat, value: Reading, now: nat, id: string): H {
    if !Accepts(h, revision) then h
    else match value
      case Failed => h.(settings := h.settings.(paused := true))
      case Got(count, text, app) =>
        var c := if count.Some? then h.(lastChange := count.value) else h;
        if text.Some? && app.Some? then Recorded(c, text.value, app.value, now, id) else c
  }

  function Cleared(h: H, baseline: Option<int>, now: nat): H {
    var c := Bumped(h.(entries := []));
    if !c.settings.enabled then c
    else if baseline.Some? then c.(lastChange := baseline.value)
    else c.(settings := c.settings.(paused := true))
  }

  function Find(entries: seq<Entry>, id: string): Option<nat> {
    if entries == [] then None
    else if entries[0].id == id then Some(0)
    else match Find(entries[1..], id)
      case None => None
      case Some(i) => Some(i + 1)
  }

  function Toggled(entries: seq<Entry>, id: string): seq<Entry> {
    if entries == [] then []
    else if entries[0].id == id then [entries[0].(pinned := !entries[0].pinned)] + entries[1..]
    else [entries[0]] + Toggled(entries[1..], id)
  }

  function Deleted(entries: seq<Entry>, id: string): seq<Entry> {
    if entries == [] then []
    else if entries[0].id == id then entries[1..]
    else [entries[0]] + Deleted(entries[1..], id)
  }

  function Pinned(h: H, id: string, now: nat): H {
    var t := Tidy(h, now);
    if Find(t.entries, id).None? then t else Tidy(t.(entries := Toggled(t.entries, id)), now)
  }

  function Removed(h: H, id: string, now: nat): H {
    var t := Tidy(h, now);
    if Find(t.entries, id).None? then t else Tidy(t.(entries := Deleted(t.entries, id)), now)
  }

  /** A copy that was written to the clipboard, or was not. */
  function Copied(h: H, id: string, written: bool, count: Option<int>, now: nat): H {
    var t := Tidy(h, now);
    if Find(t.entries, id).None? || !written then t
    else Bumped(if count.Some? then t.(lastChange := count.value) else t)
  }

  function Stopped(h: H): H {
    Bumped(h.(shutdown := true, entries := [], settings := h.settings.(enabled := false)))
  }

  function Default(): H {
    H(Settings(false, false, 1, DEFAULTS), [], -1, 0, false, false)
  }

  /**
   A text worth recording is there afterwards, as the newest unpinned one, exactly when it fits beside what is
   pinned and not too old: pins can crowd it out, older texts cannot.
   */
  lemma RecordedStays(h: H, text: string, app: string, now: nat, id: string)
    requires Recordable(h, text, app) && h.settings.retentionHours > 0
    ensures var e, kept := Entry(id, text, app, false, now), Only(Recorded(h, text, app, now, id).entries, false);
            var pinned := Only(Retained(h.entries, now, h.settings.retentionHours * 3600), true);
            if Room(pinned, e) then kept != [] && kept[0] == e else kept == []
  {
    var e, retention := Entry(id, text, app, false, now), h.settings.retentionHours * 3600;
    var before := Retained(h.entries, now, retention);
    NewestRetained(e, h.entries, now, retention);
    OneAlone(e);
    OnlyAppend([e], before, false);
    OnlyAppend([e], before, true);
    assert [] + Only(before, true) == Only(before, true);
    NewestSurvives([e] + before);
  }

  // ---------------------------------------------------------------- the history object

  class History {
    var settings: Settings
    var entries: seq<Entry>
    var lastChange: int
    var revision: nat
    var workerStarted: bool
    var shutdown: bool

    constructor ()
      ensures State() == Default()
    {
      settings, entries, lastChange := Settings(false, false, 1, DEFAULTS), [], -1;
      revision, workerStarted, shutdown := 0, false, false;
    }

    ghost function State(): H
      reads this
    {
      H(settings, entries, lastChange, revision, workerStarted, shutdown)
    }

    method PruneEntries(now: nat)
      modifies this`entries
      ensures State() == Tidy(old(State()), now)
    {
      entries := Prune(entries, now, settings.retentionHours * 3600);
    }

    method Record(text: string, app: string, now: nat, id: string)
      modifies this`entries
      ensures State() == Recorded(old(State()), text, app, now, id)
    {
      if TrimStart(text) == "" || Bytes(text) > MAX_TEXT_BYTES || app == "" { return; }
      if exists i :: 0 <= i < |settings.excluded| && Lower(settings.excluded[i]) == Lower(app) { return; }
      if entries != [] && entries[0].text == text { return; }
      entries := [Entry(id, text, app, false, now)] + entries;
      PruneEntries(now);
    }

    /** True unless changed preferences were refused. */
    method Revoke(s: Settings, update: bool, now: nat) returns (saved: bool)
      modifies this
      ensures State() == Revoked(old(State()), s, Normalized(s), update, now)
      ensures saved == (!s.enabled || !update || Normalized(s).Some?)
    {
      revision := Next(revision);
      if !s.enabled {
        settings := settings.(enabled := false, paused := false);
        entries := [];
      } else {
        if settings.enabled { settings := settings.(paused := true); }
        if update {
          var n := Normalize(s);
          if n.None? { return false; }
          settings := n.value.(enabled := settings.enabled, paused := settings.enabled);
        }
      }
      PruneEntries(now);
      return true;
    }

    /** Turns collection on; `spawn` says that a worker has to be started. */
    method FinishEnable(s: Settings, expected: nat, baseline: Option<int>, now: nat) returns (ok: bool, spawn: bool)
      modifies this
      ensures State() == Enabled(old(State()), s, expected, baseline, now)
      ensures ok == (old(revision) == expected && !old(shutdown) && baseline.Some?)
      ensures spawn == (ok && !old(workerStarted))
    {
      if revision != expected || shutdown { return false, false; }
      revision := Next(revision);
      if baseline.None? { return false, false; }
      lastChange := baseline.value;
      settings := s;
      spawn := !workerStarted;
      workerStarted := true;
      PruneEntries(now);
      ok := true;
    }

    /** Whether the worker ends, and whether it reads the clipboard now. */
    method BeginTurn(now: nat) returns (ends: bool, reading: bool)
      modifies this
      ensures State() == WorkerTop(old(State()), now)
      ensures ends == Stops(old(State())) && reading == (!ends && !old(settings).paused)
    {
      if shutdown || !settings.enabled {
        workerStarted := false;
        return true, false;
      }
      PruneEntries(now);
      return false, !settings.paused;
    }

    method EndTurn(expected: nat, value: Reading, now: nat, id: string)
      modifies this
      ensures State() == WorkerDone(old(State()), expected, value, now, id)
    {
      if expected != revision || !settings.enabled || settings.paused || shutdown { return; }
      match value {
        case Failed => settings := settings.(paused := true);
        case Got(count, text, app) =>
          if count.Some? { lastChange := count.value; }
          if text.Some? && app.Some? { Record(text.value, app.value, now, id); }
      }
    }

    method Clear(baseline: Option<int>, now: nat)
      modifies this
      ensures State() == Cleared(old(State()), baseline, now)
    {
      entries := [];
      revision := Next(revision);
      if settings.enabled {
        if baseline.Some? { lastChange := baseline.value; } else { settings := settings.(paused := true); }
      }
    }

    method Stop()
      modifies this
      ensures State() == Stopped(old(State()))
    {
      shutdown := true;
      entries := [];
      settings := settings.(enabled := false);
      revision := Next(revision);
    }
  }

  // ---------------------------------------------------------------- the protocol

  /** `since` is where in the log the worker's read began. */
  datatype Worker = Asleep | Reading(revision: nat, since: nat) | Ended

  datatype Event = Started | Revision | Accepted(since: nat)

  datatype State = State(h: H, workers: map<nat, Worker>, log: seq<Event>)

  datatype Step =
    | Revoke(s: Settings, valid: Option<Settings>, update: bool, now: nat)
    | Enable(s: Settings, revision: nat, baseline: Option<int>, now: nat, worker: nat)
    | Top(worker: nat, now: nat)
    | Done(worker: nat, value: Reading, now: nat, id: string)
    | Clear(baseline: Option<int>, now: nat)
    | Pin(id: string, now: nat)
    | Remove(id: string, now: nat)
    | Copy(id: string, written: bool, count: Option<int>, now: nat)
    | Read(now: nat)
    | Stop

  predicate Can(s: State, e: Step) {
    match e
    case Enable(settings, _, _, _, worker) => settings.enabled && !settings.paused && worker !in s.workers
    case Top(worker, _) => worker in s.workers && s.workers[worker].Asleep?
    case Done(worker, _, _, _) => worker in s.workers && s.workers[worker].Reading?
    case _ => true
  }

  /** The log entry for a section that ends with the revision changed. */
  function Marked(h: H, t: H): seq<Event> {
    if t.revision != h.revision then [Revision] else []
  }

  function Changed(s: State, t: H): State {
    s.(h := t, log := s.log + Marked(s.h, t))
  }

  function Do(s: State, e: Step): State
    requires Can(s, e)
  {
    match e
    case Revoke(settings, valid, update, now) => Changed(s, Revoked(s.h, settings, valid, update, now))
    case Enable(settings, revision, baseline, now, worker) =>
      var t := Enabled(s.h, settings, revision, baseline, now);
      Changed(s, t).(workers := if t.workerStarted && !s.h.workerStarted then s.workers[worker := Asleep]
        else s.workers)
    case Top(worker, now) =>
      if Stops(s.h) then s.(h := WorkerTop(s.h, now), workers := s.workers[worker := Ended])
      else if s.h.settings.paused then s.(h := WorkerTop(s.h, now))
      else s.(h := WorkerTop(s.h, now), workers := s.workers[worker := Reading(s.h.revision, |s.log|)],
        log := s.log + [Started])
    case Done(worker, value, now, id) =>
      var w := s.workers[worker];
      s.(h := WorkerDone(s.h, w.revision, value, now, id), workers := s.workers[worker := Asleep],
         log := if Accepts(s.h, w.revision) then s.log + [Accepted(w.since)] else s.log)
    case Clear(baseline, now) => Changed(s, Cleared(s.h, baseline, now))
    case Pin(id, now) => Changed(s, Pinned(s.h, id, now))
    case Remove(id, now) => Changed(s, Removed(s.h, id, now))
    case Copy(id, written, count, now) => Changed(s, Copied(s.h, id, written, count, now))
    case Read(now) => Changed(s, Tidy(s.h, now))
    case Stop => Changed(s, Stopped(s.h))
  }

  function Init(): State {
    State(Default(), map[], [])
  }

  ghost predicate IsRun(steps: seq<Step>)
    decreases |steps|, 0
  {
    steps == [] || (IsRun(steps[..|steps| - 1]) && Can(Final(steps[..|steps| - 1]), steps[|steps| - 1]))
  }

  ghost function Final(steps: seq<Step>): State
    requires IsRun(steps)
    decreases |steps|, 1
  {
    if steps == [] then Init() else Do(Final(steps[..|steps| - 1]), steps[|steps| - 1])
  }

  // ---------------------------------------------------------------- stale reads

  /** How often the revision has changed. */
  function Revisions(log: seq<Event>): nat {
    if log == [] then 0
    else Revisions(log[..|log| - 1]) + (if log[|log| - 1].Revision? then 1 else 0)
  }

  lemma RevisionsMore(log: seq<Event>, x: Event)
    ensures Revisions(log + [x]) == Revisions(log) + (if x.Revision? then 1 else 0)
  {
    assert (log + [x])[..|log|] == log;
  }

  /** An accepted read began earlier, and since then the revision has changed a multiple of 2^64 times. */
  ghost predicate Current(log: seq<Event>, since: nat, k: nat)
    requires k <= |log|
  {
    && since < k && log[since].Started?
    && (Revisions(log[..k]) - Revisions(log[..since])) % WRAP == 0
  }

  /** A read in progress knows the revision of the moment it began. */
  ghost predicate WorkersSynced(s: State) {
    forall w :: w in s.workers && s.workers[w].Reading? ==>
      && s.workers[w].since < |s.log| && s.log[s.workers[w].since].Started?
      && s.workers[w].revision == Revisions(s.log[..s.workers[w].since]) % WRAP
  }

  ghost predicate AcceptedCurrent(log: seq<Event>) {
    forall k :: 0 <= k < |log| && log[k].Accepted? ==> Current(log, log[k].since, k)
  }

  ghost predicate Synced(s: State) {
    s.h.revision == Revisions(s.log) % WRAP && WorkersSynced(s) && AcceptedCurrent(s.log)
  }

  lemma CurrentMore(log: seq<Event>, more: seq<Event>, since: nat, k: nat)
    requires k <= |log| && Current(log, since, k)
    ensures Current(log + more, since, k)
  {
    assert (log + more)[..k] == log[..k] && (log + more)[..since] == log[..since];
  }

  lemma NextRemainder(n: nat)
    ensures Next(n % WRAP) == (n + 1) % WRAP
  {
  }

  lemma SameRemainder(a: int, b: int)
    requires a % WRAP == b % WRAP
    ensures (a - b) % WRAP == 0
  {
  }

  lemma WorkerSynced(s: State, more: seq<Event>, w: Worker)
    requires w.Reading? && w.since <= |s.log| && s.h.revision == Revisions(s.log) % WRAP
    requires if w.since < |s.log| then s.log[w.since].Started? && w.revision == Revisions(s.log[..w.since]) % WRAP
      else more != [] && more[0].Started? && w.revision == s.h.revision
    ensures w.since < |s.log + more| && (s.log + more)[w.since].Started?
      && w.revision == Revisions((s.log + more)[..w.since]) % WRAP
  {
    assert (s.log + more)[..w.since] == s.log[..w.since];
    assert s.log[..|s.log|] == s.log;
  }

  lemma AcceptedAppend(log: seq<Event>, x: Event)
    requires AcceptedCurrent(log) && (x.Accepted? ==> Current(log, x.since, |log|))
    ensures AcceptedCurrent(log + [x])
  {
    var more := log + [x];
    forall k | 0 <= k < |more| && more[k].Accepted? ensures Current(more, more[k].since, k) {
      CurrentMore(log, [x], more[k].since, k);
    }
  }

  lemma WorkersAppend(s: State, t: State, x: Event)
    requires s.h.revision == Revisions(s.log) % WRAP && WorkersSynced(s) && t.log == s.log + [x]
    requires forall w :: w in t.workers && t.workers[w].Reading? ==>
      (w in s.workers && t.workers[w] == s.workers[w]) || (x.Started? && t.workers[w] == Reading(s.h.revision, |s.log|))
    ensures WorkersSynced(t)
  {
    forall w | w in t.workers && t.workers[w].Reading?
      ensures t.workers[w].since < |t.log| && t.log[t.workers[w].since].Started?
        && t.workers[w].revision == Revisions(t.log[..t.workers[w].since]) % WRAP
    {
      WorkerSynced(s, [x], t.workers[w]);
    }
  }

  lemma SyncedAppend(s: State, t: State, x: Event)
    requires Synced(s) && t.log == s.log + [x]
    requires t.h.revision == if x.Revision? then Next(s.h.revision) else s.h.revision
    requires forall w :: w in t.workers && t.workers[w].Reading? ==>
      (w in s.workers && t.workers[w] == s.workers[w]) || (x.Started? && t.workers[w] == Reading(s.h.revision, |s.log|))
    requires x.Accepted? ==> Current(s.log, x.since, |s.log|)
    ensures Synced(t)
  {
    RevisionsMore(s.log, x);
    NextRemainder(Revisions(s.log));
    WorkersAppend(s, t, x);
    AcceptedAppend(s.log, x);
  }

  lemma AcceptedIsCurrent(s: State, worker: nat)
    requires Synced(s) && worker in s.workers && s.workers[worker].Reading? && Accepts(s.h, s.workers[worker].revision)
    ensures Current(s.log, s.workers[worker].since, |s.log|)
  {
    var since := s.workers[worker].since;
    assert s.log[..|s.log|] == s.log;
    SameRemainder(Revisions(s.log), Revisions(s.log[..since]));
  }

  lemma SyncedChange(s: State, t: H)
    requires Synced(s) && (t.revision == s.h.revision || t.revision == Next(s.h.revision))
    ensures Synced(Changed(s, t))
  {
    if t.revision != s.h.revision {
      SyncedAppend(s, Changed(s, t), Revision);
    } else {
      assert s.log + [] == s.log;
    }
  }

  lemma SyncedTop(s: State, e: Step)
    requires Synced(s) && Can(s, e) && e.Top?
    ensures Synced(Do(s, e))
  {
    var t := Do(s, e);
    if t.log != s.log { SyncedAppend(s, t, Started); }
  }

  lemma SyncedDone(s: State, e: Step)
    requires Synced(s) && Can(s, e) && e.Done?
    ensures Synced(Do(s, e))
  {
    var t, w := Do(s, e), s.workers[e.worker];
    if Accepts(s.h, w.revision) {
      AcceptedIsCurrent(s, e.worker);
      SyncedAppend(s, t, Accepted(w.since));
    }
  }

  lemma SyncedConfigure(s: State, e: Step)
    requires Synced(s) && Can(s, e) && (e.Revoke? || e.Enable?)
    ensures Synced(Do(s, e))
  {
    match e
    case Revoke(settings, valid, update, now) => SyncedChange(s, Revoked(s.h, settings, valid, update, now));
    case Enable(settings, revision, baseline, now, _) =>
      SyncedChange(s, Enabled(s.h, settings, revision, baseline, now));
  }

  lemma SyncedAction(s: State, e: Step)
    requires Synced(s) && Can(s, e) && (e.Clear? || e.Pin? || e.Remove? || e.Copy?)
    ensures Synced(Do(s, e))
  {
    match e
    case Clear(baseline, now) => SyncedChange(s, Cleared(s.h, baseline, now));
    case Pin(id, now) => SyncedChange(s, Pinned(s.h, id, now));
    case Remove(id, now) => SyncedChange(s, Removed(s.h, id, now));
    case Copy(id, written, count, now) => SyncedChange(s, Copied(s.h, id, written, count, now));
  }

  lemma SyncedStep(s: State, e: Step)
    requires Synced(s) && Can(s, e)
    ensures Synced(Do(s, e))
  {
    if e.Revoke? || e.Enable? {
      SyncedConfigure(s, e);
    } else if e.Top? {
      SyncedTop(s, e);
    } else if e.Done? {
      SyncedDone(s, e);
    } else if e.Read? {
      SyncedChange(s, Tidy(s.h, e.now));
    } else if e.Stop? {
      SyncedChange(s, Stopped(s.h));
    } else {
      SyncedAction(s, e);
    }
  }

  // ---------------------------------------------------------------- one worker, and what stays bounded

  /** The flag says whether there is a worker, and there is at most one. */
  ghost predicate Solo(s: State) {
    && (s.h.workerStarted <==> exists w :: w in s.workers && !s.workers[w].Ended?)
    && (forall v, w :: v in s.workers && w in s.workers && !s.workers[v].Ended? && !s.workers[w].Ended? ==> v == w)
  }

  lemma SoloSame(s: State, t: State)
    requires Solo(s) && t.workers == s.workers && t.h.workerStarted == s.h.workerStarted
    ensures Solo(t)
  {
  }

  lemma SoloTurn(s: State, e: Step)
    requires Solo(s) && Can(s, e) && (e.Top? || e.Done?)
    ensures Solo(Do(s, e))
  {
    var t := Do(s, e);
    assert e.worker in t.workers && e.worker in s.workers;
  }

  lemma SoloEnable(s: State, e: Step)
    requires Solo(s) && Can(s, e) && e.Enable?
    ensures Solo(Do(s, e))
  {
    var t := Do(s, e);
    if t.h.workerStarted && !s.h.workerStarted {
      assert e.worker in t.workers;
    } else {
      SoloSame(s, t);
    }
  }

  lemma RevokedFlag(h: H, s: Settings, valid: Option<Settings>, update: bool, now: nat)
    ensures Revoked(h, s, valid, update, now).workerStarted == h.workerStarted
  {
  }

  lemma ClearedFlag(h: H, baseline: Option<int>, now: nat)
    ensures Cleared(h, baseline, now).workerStarted == Stopped(h).workerStarted == h.workerStarted
  {
  }

  lemma EntryFlag(h: H, id: string, written: bool, count: Option<int>, now: nat)
    ensures Pinned(h, id, now).workerStarted == Removed(h, id, now).workerStarted == h.workerStarted
    ensures Copied(h, id, written, count, now).workerStarted == Tidy(h, now).workerStarted == h.workerStarted
  {
  }

  /** A step that is one section on the history leaves the workers alone. */
  lemma SectionStep(s: State, e: Step) returns (t: H)
    requires Can(s, e) && !e.Top? && !e.Done? && !e.Enable?
    ensures Do(s, e) == Changed(s, t) && t.workerStarted == s.h.workerStarted
  {
    match e
    case Revoke(settings, valid, update, now) =>
      t := Revoked(s.h, settings, valid, update, now);
      RevokedFlag(s.h, settings, valid, update, now);
    case Clear(baseline, now) =>
      t := Cleared(s.h, baseline, now);
      ClearedFlag(s.h, baseline, now);
    case Pin(id, now) =>
      t := Pinned(s.h, id, now);
      EntryFlag(s.h, id, false, None, now);
    case Remove(id, now) =>
      t := Removed(s.h, id, now);
      EntryFlag(s.h, id, false, None, now);
    case Copy(id, written, count, now) =>
      t := Copied(s.h, id, written, count, now);
      EntryFlag(s.h, id, written, count, now);
    case Read(now) =>
      t := Tidy(s.h, now);
    case Stop =>
      t := Stopped(s.h);
      ClearedFlag(s.h, None, 0);
  }

  lemma SoloStep(s: State, e: Step)
    requires Solo(s) && Can(s, e)
    ensures Solo(Do(s, e))
  {
    if e.Top? || e.Done? {
      SoloTurn(s, e);
    } else if e.Enable? {
      SoloEnable(s, e);
    } else {
      var t := SectionStep(s, e);
      SoloSame(s, Changed(s, t));
    }
  }

  /** Within bounds, empty while collection is off, and off once stopped. */
  predicate Kept(h: H) {
    && Fits(h.entries)
    && (!h.settings.enabled ==> h.entries == [])
    && (h.shutdown ==> !h.settings.enabled)
  }

  lemma TidyKept(h: H, now: nat)
    requires !h.settings.enabled ==> h.entries == []
    requires h.shutdown ==> !h.settings.enabled
    ensures Kept(Tidy(h, now))
  {
    var k := StopsAtTheFirst(Retained(h.entries, now, h.settings.retentionHours * 3600));
  }

  lemma EnabledKept(h: H, s: Settings, revision: nat, baseline: Option<int>, now: nat)
    requires Kept(h) && s.enabled
    ensures Kept(Enabled(h, s, revision, baseline, now))
  {
    if h.revision == revision && !h.shutdown && baseline.Some? {
      TidyKept(Bumped(h).(lastChange := baseline.value, settings := s, workerStarted := true), now);
    }
  }

  lemma KeptTop(h: H, now: nat)
    requires Kept(h)
    ensures Kept(WorkerTop(h, now))
  {
    TidyKept(h, now);
  }

  lemma KeptAction(s: State, e: Step)
    requires Kept(s.h) && Can(s, e) && (e.Clear? || e.Copy? || e.Read? || e.Stop?)
    ensures Kept(Do(s, e).h)
  {
    match e
    case Copy(_, _, _, now) => TidyKept(s.h, now);
    case Read(now) => TidyKept(s.h, now);
    case _ => EmptyFits();
  }

  lemma RevokedKept(h: H, s: Settings, valid: Option<Settings>, update: bool, now: nat)
    requires Kept(h)
    ensures Kept(Revoked(h, s, valid, update, now))
  {
    var b := Bumped(h);
    if !s.enabled {
      TidyKept(b.(settings := b.settings.(enabled := false, paused := false), entries := []), now);
    } else {
      var p := if b.settings.enabled then b.(settings := b.settings.(paused := true)) else b;
      TidyKept(p, now);
      if valid.Some? {
        TidyKept(p.(settings := valid.value.(enabled := p.settings.enabled, paused := p.settings.enabled)), now);
      }
    }
  }

  lemma KeptEntry(h: H, entries: seq<Entry>, now: nat)
    requires Kept(h) && (h.entries == [] && !h.settings.enabled ==> entries == [])
    ensures Kept(Tidy(h.(entries := entries), now))
  {
    TidyKept(h.(entries := entries), now);
  }

  lemma KeptDone(h: H, revision: nat, value: Reading, now: nat, id: string)
    requires Kept(h)
    ensures Kept(WorkerDone(h, revision, value, now, id))
  {
    if Accepts(h, revision) && value.Got? {
      var c := if value.count.Some? then h.(lastChange := value.count.value) else h;
      if value.text.Some? && value.app.Some? {
        TidyKept(c.(entries := [Entry(id, value.text.value, value.app.value, false, now)] + c.entries), now);
      }
    }
  }

  lemma KeptItem(s: State, e: Step)
    requires Kept(s.h) && Can(s, e) && (e.Pin? || e.Remove?)
    ensures Kept(Do(s, e).h)
  {
    TidyKept(s.h, e.now);
    var t := Tidy(s.h, e.now);
    KeptEntry(t, if e.Pin? then Toggled(t.entries, e.id) else Deleted(t.entries, e.id), e.now);
  }

  lemma KeptStep(s: State, e: Step)
    requires Kept(s.h) && Can(s, e)
    ensures Kept(Do(s, e).h)
  {
    match e
    case Revoke(settings, valid, update, now) => RevokedKept(s.h, settings, valid, update, now);
    case Enable(settings, revision, baseline, now, _) => EnabledKept(s.h, settings, revision, baseline, now);
    case Top(_, now) => KeptTop(s.h, now);
    case Done(worker, value, now, id) => KeptDone(s.h, s.workers[worker].revision, value, now, id);
    case _ => if e.Pin? || e.Remove? { KeptItem(s, e); } else { KeptAction(s, e); }
  }

  // ---------------------------------------------------------------- every run

  ghost predicate Inv(s: State) {
    Synced(s) && Solo(s) && Kept(s.h)
  }

  lemma InvStart()
    ensures Inv(Init())
  {
    EmptyFits();
  }

  lemma InvStep(s: State, e: Step)
    requires Inv(s) && Can(s, e)
    ensures Inv(Do(s, e))
  {
    SyncedStep(s, e);
    SoloStep(s, e);
    KeptStep(s, e);
  }

  lemma {:induction false} Invariant(run: seq<Step>)
    requires IsRun(run)
    ensures Inv(Final(run))
    decreases |run|
  {
    if run == [] {
      InvStart();
    } else {
      Invariant(run[..|run| - 1]);
      InvStep(Final(run[..|run| - 1]), run[|run| - 1]);
    }
  }

  lemma {:induction false} RevisionsGrow(log: seq<Event>, i: nat, j: nat, k: nat)
    requires i <= j < k <= |log| && log[j].Revision?
    ensures Revisions(log[..i]) < Revisions(log[..k])
    decreases k
  {
    assert log[..k][..k - 1] == log[..k - 1];
    if j < k - 1 {
      RevisionsGrow(log, i, j, k - 1);
    } else {
      RevisionsMonotone(log, i, k - 1);
    }
  }

  lemma {:induction false} RevisionsMonotone(log: seq<Event>, i: nat, k: nat)
    requires i <= k <= |log|
    ensures Revisions(log[..i]) <= Revisions(log[..k])
    decreases k
  {
    if i < k {
      assert log[..k][..k - 1] == log[..k - 1];
      RevisionsMonotone(log, i, k - 1);
    }
  }

  lemma AllTheWayAround(log: seq<Event>, since: nat, j: nat, k: nat)
    requires k <= |log| && Current(log, since, k) && since <= j < k && log[j].Revision?
    ensures Revisions(log[..k]) - Revisions(log[..since]) >= WRAP
  {
    RevisionsGrow(log, since, j, k);
  }

  /**
   Nothing read before a pause, a clear, a disable or a stop is recorded after it: each of these changes the
   revision, and between the start of an accepted read and its acceptance the revision has not changed at all,
   short of 2^64 changes that would bring it around.
   */
  lemma NothingStale(run: seq<Step>, k: nat, j: nat)
    requires IsRun(run) && k < |Final(run).log| && Final(run).log[k].Accepted?
    requires Final(run).log[k].since <= j < k && Final(run).log[j].Revision?
    ensures Revisions(Final(run).log[..k]) - Revisions(Final(run).log[..Final(run).log[k].since]) >= WRAP
  {
    Invariant(run);
    AllTheWayAround(Final(run).log, Final(run).log[k].since, j, k);
  }

  /** Pausing, disabling, clearing and stopping change the revision. */
  lemma RevokingMarks(s: State, e: Step)
    requires Can(s, e) && (e.Revoke? || e.Clear? || e.Stop?)
    ensures Do(s, e).log == s.log + [Revision]
  {
  }

  /** At most one worker runs, both bounds hold, and nothing is kept while collection is off or stopped. */
  lemma AlwaysKept(run: seq<Step>)
    requires IsRun(run)
    ensures Solo(Final(run)) && |Final(run).h.entries| <= 100 && TotalBytes(Final(run).h.entries) <= 2_000_000
    ensures !Final(run).h.settings.enabled || Final(run).h.shutdown ==> Final(run).h.entries == []
  {
    Invariant(run);
  }

  lemma StopStays(s: State, e: Step)
    requires Can(s, e) && s.h.shutdown
    ensures Do(s, e).h.shutdown
  {
  }

  lemma {:induction false} StopLasts(run: seq<Step>, more: seq<Step>)
    requires IsRun(run) && IsRun(run + more) && Final(run).h.shutdown
    ensures Final(run + more).h.shutdown
    decreases |more|
  {
    if more == [] {
      assert run + more == run;
    } else {
      assert (run + more)[..|run + more| - 1] == run + more[..|more| - 1];
      StopLasts(run, more[..|more| - 1]);
      StopStays(Final(run + more[..|more| - 1]), more[|more| - 1]);
    }
  }

  /** Once stopped, the history stays empty for good. */
  lemma StoppedForGood(run: seq<Step>, more: seq<Step>)
    requires IsRun(run) && IsRun(run + more) && Final(run).h.shutdown
    ensures Final(run + more).h.entries == []
  {
    StopLasts(run, more);
    Invariant(run + more);
  }
}
