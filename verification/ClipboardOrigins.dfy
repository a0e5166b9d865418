/** Where the texts in the history come from, and what is never among them. */
module ClipboardOrigins {
  import opened Ascii
  import opened Common
  import opened Clipboard
  import opened ClipboardService
  import opened ClipboardSettings
  import opened ClipboardProtocol

  /**
   The text is not blank and not too long, the application it comes from is known and not excluded, whatever the case
   of the letters, and the newest entry has another text.
   */
  ghost predicate Worth(h: H, text: string, app: string) {
    && (exists i :: 0 <= i < |text| && !IsSpace(text[i])) && Bytes(text) <= 32_768 && app != ""
    && (forall i :: 0 <= i < |h.settings.excluded| ==> !SameLetters(h.settings.excluded[i], app))
    && (h.entries == [] || h.entries[0].text != text)
  }

  lemma {:induction false} TrimStartExact(s: string)
    ensures TrimStart(s) != "" <==> exists i :: 0 <= i < |s| && !IsWhite(s[i])
  {
    if s != "" && IsWhite(s[0]) {
      TrimStartExact(s[1..]);
      assert forall i :: 0 < i < |s| ==> s[i] == s[1..][i - 1];
      if i :| 0 <= i < |s| && !IsWhite(s[i]) { assert s[1..][i - 1] == s[i]; }
    }
  }

  lemma RecordableExactly(h: H, text: string, app: string)
    ensures Recordable(h, text, app) <==> Worth(h, text, app)
  {
    TrimStartExact(text);
    var ids := h.settings.excluded;
    forall i | 0 <= i < |ids| ensures Lower(ids[i]) == Lower(app) <==> SameLetters(ids[i], app) {
      FoldsExactly(ids[i], app);
    }
  }

  // ---------------------------------------------------------------- nothing is made up

  /** Each text, with its application, was there before. */
  ghost predicate From(entries: seq<Entry>, before: seq<Entry>) {
    forall e :: e in entries ==> exists f :: f in before && f.text == e.text && f.app == e.app
  }

  lemma {:induction false} EvictedFrom(entries: seq<Entry>, e: Entry)
    requires e in Evicted(entries)
    ensures e in entries
    decreases |entries|
  {
    if !Fits(entries) { EvictedFrom(Without(entries, Victim(entries)), e); }
  }

  lemma TidyFrom(h: H, now: nat)
    ensures From(Tidy(h, now).entries, h.entries)
  {
    var retention := h.settings.retentionHours * 3600;
    forall e | e in Tidy(h, now).entries ensures e in h.entries {
      EvictedFrom(Retained(h.entries, now, retention), e);
      RetainedExact(h.entries, now, retention, e);
    }
  }

  lemma FromThrough(a: seq<Entry>, b: seq<Entry>, c: seq<Entry>)
    requires From(a, b) && From(b, c)
    ensures From(a, c)
  {
    forall e | e in a ensures exists f :: f in c && f.text == e.text && f.app == e.app {
      var f :| f in b && f.text == e.text && f.app == e.app;
    }
  }

  lemma {:induction false} ToggledFrom(entries: seq<Entry>, id: string)
    ensures From(Toggled(entries, id), entries)
  {
    if entries != [] {
      ToggledFrom(entries[1..], id);
      assert entries == [entries[0]] + entries[1..];
    }
  }

  lemma {:induction false} DeletedFrom(entries: seq<Entry>, id: string)
    ensures From(Deleted(entries, id), entries)
  {
    if entries != [] {
      DeletedFrom(entries[1..], id);
      assert entries == [entries[0]] + entries[1..];
    }
  }

  lemma TidiedFrom(h: H, entries: seq<Entry>, before: seq<Entry>, now: nat)
    requires From(entries, before)
    ensures From(Tidy(h.(entries := entries), now).entries, before)
  {
    TidyFrom(h.(entries := entries), now);
    FromThrough(Tidy(h.(entries := entries), now).entries, entries, before);
  }

  lemma EntryActionFrom(h: H, id: string, now: nat)
    ensures From(Pinned(h, id, now).entries, h.entries) && From(Removed(h, id, now).entries, h.entries)
  {
    var t := Tidy(h, now);
    TidyFrom(h, now);
    ToggledFrom(t.entries, id);
    DeletedFrom(t.entries, id);
    FromThrough(Toggled(t.entries, id), t.entries, h.entries);
    FromThrough(Deleted(t.entries, id), t.entries, h.entries);
    TidiedFrom(t, Toggled(t.entries, id), h.entries, now);
    TidiedFrom(t, Deleted(t.entries, id), h.entries, now);
  }

  lemma RevokedFrom(h: H, s: Settings, valid: Option<Settings>, update: bool, now: nat)
    ensures From(Revoked(h, s, valid, update, now).entries, h.entries)
  {
    var b := Bumped(h);
    var p := if b.settings.enabled then b.(settings := b.settings.(paused := true)) else b;
    TidyFrom(b.(settings := b.settings.(enabled := false, paused := false), entries := []), now);
    TidyFrom(p, now);
    if valid.Some? {
      TidyFrom(p.(settings := valid.value.(enabled := p.settings.enabled, paused := p.settings.enabled)), now);
    }
  }

  lemma OtherStepFrom(s: State, e: Step)
    requires Can(s, e) && !e.Done?
    ensures From(Do(s, e).h.entries, s.h.entries)
  {
    match e
    case Revoke(settings, valid, update, now) => RevokedFrom(s.h, settings, valid, update, now);
    case Enable(settings, _, baseline, now, _) =>
      if baseline.Some? {
        TidyFrom(Bumped(s.h).(lastChange := baseline.value, settings := settings, workerStarted := true), now);
      }
    case Pin(id, now) => EntryActionFrom(s.h, id, now);
    case Remove(id, now) => EntryActionFrom(s.h, id, now);
    case Top(_, now) => TidyFrom(s.h, now);
    case Copy(_, _, _, now) => TidyFrom(s.h, now);
    case Read(now) => TidyFrom(s.h, now);
    case _ =>
  }

  /** The step records this text: an answer that came in time, and was worth recording. */
  ghost predicate Records(s: State, e: Step, text: string, app: string)
    requires Can(s, e)
  {
    && e.Done? && e.value.Got? && e.value.text == Some(text) && e.value.app == Some(app)
    && Accepts(s.h, s.workers[e.worker].revision) && Worth(s.h, text, app)
  }

  lemma DoneFrom(s: State, e: Step, x: Entry)
    requires Can(s, e) && e.Done? && x in Do(s, e).h.entries
    ensures (exists f :: f in s.h.entries && f.text == x.text && f.app == x.app) || Records(s, e, x.text, x.app)
  {
    if Accepts(s.h, s.workers[e.worker].revision) && e.value.Got? && e.value.text.Some? && e.value.app.Some? {
      var text, app := e.value.text.value, e.value.app.value;
      var c := if e.value.count.Some? then s.h.(lastChange := e.value.count.value) else s.h;
      RecordableExactly(c, text, app);
      if Recordable(c, text, app) {
        var more := [Entry(e.id, text, app, false, e.now)] + c.entries;
        TidyFrom(c.(entries := more), e.now);
        var f :| f in more && f.text == x.text && f.app == x.app;
      }
    }
  }

  /** Clearing, turning collection off and stopping. */
  ghost predicate Forgets(e: Step) {
    e.Clear? || e.Stop? || (e.Revoke? && !e.s.enabled)
  }

  lemma NothingLeft(s: State, e: Step)
    requires Can(s, e) && Forgets(e)
    ensures Do(s, e).h.entries == []
  {
    if e.Revoke? { TidyFrom(Bumped(s.h).(settings := s.h.settings.(enabled := false, paused := false), entries := []),
      e.now); }
  }

  /** Some step of the run has recorded this text, and none since has made the history forget. */
  ghost predicate WasRecorded(run: seq<Step>, text: string, app: string)
    requires IsRun(run)
    decreases |run|
  {
    run != [] && var before, e := run[..|run| - 1], run[|run| - 1];
      Records(Final(before), e, text, app) || (!Forgets(e) && WasRecorded(before, text, app))
  }

  /**
   Everything in the history was recorded in the run, since it was last cleared, turned off or stopped: it came in time
   and was worth it then.
   */
  lemma {:induction false} NothingMadeUp(run: seq<Step>, x: Entry)
    requires IsRun(run) && x in Final(run).h.entries
    ensures WasRecorded(run, x.text, x.app)
    decreases |run|
  {
    if run != [] {
      var before, e := run[..|run| - 1], run[|run| - 1];
      if e.Done? { DoneFrom(Final(before), e, x); } else { OtherStepFrom(Final(before), e); }
      if Forgets(e) {
        NothingLeft(Final(before), e);
      } else if !Records(Final(before), e, x.text, x.app) {
        var f :| f in Final(before).h.entries && f.text == x.text && f.app == x.app;
        NothingMadeUp(before, f);
      }
    }
  }

  // ---------------------------------------------------------------- what has expired

  /**
   The step drops what is too old: a look at the history, an action, accepted settings and the worker's every turn.
   */
  ghost predicate Tidies(s: State, e: Step) {
    || e.Read? || e.Pin? || e.Remove? || e.Copy?
    || (e.Top? && s.h.settings.enabled && !s.h.shutdown)
    || (e.Revoke? && !(e.s.enabled && e.update && e.valid.None?))
    || (e.Enable? && e.revision == s.h.revision && !s.h.shutdown && e.baseline.Some?)
  }

  lemma TidyIsFresh(h: H, now: nat, x: Entry)
    requires x in Tidy(h, now).entries
    ensures now < x.captured + h.settings.retentionHours * 3600
  {
    var retention := h.settings.retentionHours * 3600;
    EvictedFrom(Retained(h.entries, now, retention), x);
    RetainedExact(h.entries, now, retention, x);
  }

  lemma RevokedIsFresh(h: H, s: Settings, valid: Option<Settings>, update: bool, now: nat, x: Entry)
    requires x in Revoked(h, s, valid, update, now).entries
    requires !(s.enabled && update && valid.None?)
    ensures now < x.captured + Revoked(h, s, valid, update, now).settings.retentionHours * 3600
  {
    var b := Bumped(h);
    var p := if b.settings.enabled then b.(settings := b.settings.(paused := true)) else b;
    if !s.enabled {
      TidyIsFresh(b.(settings := b.settings.(enabled := false, paused := false), entries := []), now, x);
    } else if !update {
      TidyIsFresh(p, now, x);
    } else {
      TidyIsFresh(p.(settings := valid.value.(enabled := p.settings.enabled, paused := p.settings.enabled)), now, x);
    }
  }

  lemma ActionIsFresh(h: H, id: string, now: nat, x: Entry)
    requires x in Pinned(h, id, now).entries || x in Removed(h, id, now).entries
    ensures now < x.captured + h.settings.retentionHours * 3600
  {
    var t := Tidy(h, now);
    if x in t.entries { TidyIsFresh(h, now, x); }
    if x in Tidy(t.(entries := Toggled(t.entries, id)), now).entries {
      TidyIsFresh(t.(entries := Toggled(t.entries, id)), now, x);
    }
    if x in Tidy(t.(entries := Deleted(t.entries, id)), now).entries {
      TidyIsFresh(t.(entries := Deleted(t.entries, id)), now, x);
    }
  }

  /** After such a step nothing is left, pinned or not, that is older than the history is kept. */
  lemma NothingExpired(s: State, e: Step, x: Entry)
    requires Can(s, e) && Tidies(s, e) && x in Do(s, e).h.entries
    ensures e.now < x.captured + Do(s, e).h.settings.retentionHours * 3600
  {
    match e
    case Revoke(settings, valid, update, now) => RevokedIsFresh(s.h, settings, valid, update, now, x);
    case Enable(settings, _, baseline, now, _) =>
      TidyIsFresh(Bumped(s.h).(lastChange := baseline.value, settings := settings, workerStarted := true), now, x);
    case Pin(id, now) => ActionIsFresh(s.h, id, now, x);
    case Remove(id, now) => ActionIsFresh(s.h, id, now, x);
    case Top(_, now) => TidyIsFresh(s.h, now, x);
    case Copy(_, _, _, now) => TidyIsFresh(s.h, now, x);
    case Read(now) => TidyIsFresh(s.h, now, x);
  }

  // ---------------------------------------------------------------- password managers

  /** As `configure` calls: settings that are taken over have been normalized. */
  ghost predicate Normal(run: seq<Step>) {
    forall e :: e in run ==>
      && (e.Revoke? ==> e.valid == Normalized(e.s))
      && (e.Enable? ==> exists t :: Normalized(t) == Some(e.s))
  }

  ghost predicate PasswordManager(app: string) {
    || SameLetters(app, "com.1password.1password") || SameLetters(app, "com.agilebits.onepassword7")
    || SameLetters(app, "com.bitwarden.desktop") || SameLetters(app, "com.apple.keychainaccess")
    || SameLetters(app, "com.lastpass.LastPass") || SameLetters(app, "com.dashlane.Dashlane")
  }

  /** The application is among these, whatever the case of the letters. */
  ghost predicate Lists(ids: seq<string>, app: string) {
    exists j :: 0 <= j < |ids| && Lower(ids[j]) == Lower(app)
  }

  ghost predicate Guards(s: Settings) {
    forall d :: d in DEFAULTS ==> Lists(s.excluded, d)
  }

  lemma GuardedApp(h: H, text: string, app: string, d: string)
    requires Guards(h.settings) && Worth(h, text, app) && d in DEFAULTS
    ensures !SameLetters(app, d)
  {
    var j :| 0 <= j < |h.settings.excluded| && Lower(h.settings.excluded[j]) == Lower(d);
    FoldsExactly(app, d);
    FoldsExactly(h.settings.excluded[j], app);
  }

  lemma DefaultsAreThese(app: string)
    requires forall d :: d in DEFAULTS ==> !SameLetters(app, d)
    ensures !PasswordManager(app)
  {
    assert DEFAULTS[0] in DEFAULTS && DEFAULTS[1] in DEFAULTS && DEFAULTS[2] in DEFAULTS;
    assert DEFAULTS[3] in DEFAULTS && DEFAULTS[4] in DEFAULTS && DEFAULTS[5] in DEFAULTS;
  }

  lemma NothingToTrim(id: string)
    requires id != "" && !IsWhite(id[0]) && !IsWhite(id[|id| - 1])
    ensures Clean(id) == Lower(id)
  {
  }

  lemma DefaultIsClean(i: nat)
    requires i < |DEFAULTS|
    ensures Clean(DEFAULTS[i]) == Lower(DEFAULTS[i])
  {
    var d := DEFAULTS[i];
    assert d != "" && d[0] == 'c';
    assert d[|d| - 1] in {'d', '7', 'p', 's', 'e'};
    NothingToTrim(d);
  }

  lemma DefaultIsListed(s: Settings, i: nat)
    requires Normalized(s).Some? && i < |DEFAULTS|
    ensures Lists(Normalized(s).value.excluded, DEFAULTS[i])
  {
    var ids, d := Normalized(s).value.excluded, DEFAULTS[i];
    ProtectedStay(s, i);
    DefaultIsClean(i);
    LowerTwice(d);
    var j :| 0 <= j < |ids| && ids[j] == Lower(d);
  }

  lemma NormalizedGuards(s: Settings)
    requires Normalized(s).Some?
    ensures Guards(Normalized(s).value)
  {
    forall d | d in DEFAULTS ensures Lists(Normalized(s).value.excluded, d) {
      var i :| 0 <= i < |DEFAULTS| && DEFAULTS[i] == d;
      DefaultIsListed(s, i);
    }
  }

  lemma WorkerKeepsExcluded(h: H, revision: nat, value: Reading, now: nat, id: string)
    ensures WorkerDone(h, revision, value, now, id).settings.excluded == h.settings.excluded
    ensures WorkerTop(h, now).settings.excluded == h.settings.excluded
  {
  }

  lemma RevokedExcluded(h: H, s: Settings, valid: Option<Settings>, update: bool, now: nat)
    ensures var after := Revoked(h, s, valid, update, now).settings.excluded;
      after == h.settings.excluded || (valid.Some? && after == valid.value.excluded)
  {
  }

  /** Where the excluded applications come from. */
  lemma ExcludedStep(s: State, e: Step)
    requires Can(s, e)
    ensures var after := Do(s, e).h.settings.excluded;
      || after == s.h.settings.excluded
      || (e.Revoke? && e.valid.Some? && after == e.valid.value.excluded)
      || (e.Enable? && after == e.s.excluded)
  {
    match e
    case Revoke(settings, valid, update, now) => RevokedExcluded(s.h, settings, valid, update, now);
    case Top(_, now) => WorkerKeepsExcluded(s.h, 0, Failed, now, "");
    case Done(worker, value, now, id) => WorkerKeepsExcluded(s.h, s.workers[worker].revision, value, now, id);
    case _ =>
  }

  lemma GuardsSame(s: Settings, t: Settings)
    requires Guards(s) && t.excluded == s.excluded
    ensures Guards(t)
  {
  }

  lemma GuardsStep(s: State, e: Step)
    requires Can(s, e) && Guards(s.h.settings)
    requires e.Revoke? ==> e.valid == Normalized(e.s)
    requires e.Enable? ==> exists t :: Normalized(t) == Some(e.s)
    ensures Guards(Do(s, e).h.settings)
  {
    var after := Do(s, e).h.settings;
    ExcludedStep(s, e);
    if after.excluded == s.h.settings.excluded {
      GuardsSame(s.h.settings, after);
    } else if e.Revoke? {
      NormalizedGuards(e.s);
      GuardsSame(e.valid.value, after);
    } else {
      var t :| Normalized(t) == Some(e.s);
      NormalizedGuards(t);
      GuardsSame(e.s, after);
    }
  }

  lemma {:induction false} AlwaysGuarded(run: seq<Step>)
    requires IsRun(run) && Normal(run)
    ensures Guards(Final(run).h.settings)
    decreases |run|
  {
    if run == [] {
      forall d | d in DEFAULTS ensures Lists(DEFAULTS, d) {
        var i :| 0 <= i < |DEFAULTS| && DEFAULTS[i] == d;
      }
    } else {
      var before, e := run[..|run| - 1], run[|run| - 1];
      assert e in run && forall x :: x in before ==> x in run;
      AlwaysGuarded(before);
      GuardsStep(Final(before), e);
    }
  }

  lemma {:induction false} RecordedIsAllowed(run: seq<Step>, text: string, app: string)
    requires IsRun(run) && Normal(run) && WasRecorded(run, text, app)
    ensures !PasswordManager(app) && app != "" && Bytes(text) <= 32_768
    ensures exists i :: 0 <= i < |text| && !IsSpace(text[i])
    decreases |run|
  {
    var before, e := run[..|run| - 1], run[|run| - 1];
    assert forall x :: x in before ==> x in run;
    if Records(Final(before), e, text, app) {
      AlwaysGuarded(before);
      forall d | d in DEFAULTS ensures !SameLetters(app, d) { GuardedApp(Final(before).h, text, app, d); }
      DefaultsAreThese(app);
    } else {
      RecordedIsAllowed(before, text, app);
    }
  }

  /** In every run: nothing in the history is from a password manager, and no text is blank or over the limit. */
  lemma NothingProtected(run: seq<Step>, x: Entry)
    requires IsRun(run) && Normal(run) && x in Final(run).h.entries
    ensures !PasswordManager(x.app) && x.app != "" && Bytes(x.text) <= 32_768
    ensures exists i :: 0 <= i < |x.text| && !IsSpace(x.text[i])
  {
    NothingMadeUp(run, x);
    RecordedIsAllowed(run, x.text, x.app);
  }
}
