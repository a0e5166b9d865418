/** When the clipboard is read at all, and what the history is set to: as the last call that concerns it said. */
module ClipboardConsent {
  import opened Common
  import opened Clipboard
  import opened ClipboardService
  import opened ClipboardProtocol

  datatype Fact =
    | Collecting
    | Changed(count: int)
    | Keeps(hours: nat, excluded: seq<string>)
    | Stopped

  ghost predicate True(h: H, f: Fact) {
    match f
    case Collecting => h.settings.enabled && !h.settings.paused && !h.shutdown
    case Changed(count) => h.lastChange == count
    case Keeps(hours, excluded) => h.settings.retentionHours == hours && h.settings.excluded == excluded
    case Stopped => h.shutdown
  }

  /** Collection is turned on: nothing has changed since the settings were looked at, and the clipboard answers. */
  ghost predicate Grants(s: State, e: Step) {
    e.Enable? && e.revision == s.h.revision && !s.h.shutdown && e.baseline.Some?
  }

  /** A read that is still wanted comes back. */
  ghost predicate Arrives(s: State, e: Step)
    requires Can(s, e)
  {
    && e.Done? && e.worker in s.workers && True(s.h, Collecting)
    && s.workers[e.worker].revision == s.h.revision
  }

  /** Changed preferences are accepted while collection stays off or paused. */
  ghost predicate Saves(e: Step) {
    e.Revoke? && e.s.enabled && e.update && e.valid.Some?
  }

  /** An entry that has not expired is copied. */
  ghost predicate Copies(s: State, e: Step) {
    e.Copy? && e.written && exists x :: x in Tidy(s.h, e.now).entries && x.id == e.id
  }

  /** The count that the step brings, if any. */
  ghost predicate Counts(s: State, e: Step, count: int)
    requires Can(s, e)
  {
    || (Grants(s, e) && e.baseline == Some(count))
    || (e.Clear? && s.h.settings.enabled && e.baseline == Some(count))
    || (Copies(s, e) && e.count == Some(count))
    || (Arrives(s, e) && e.value.Got? && e.value.count == Some(count))
  }

  ghost predicate Says(s: State, e: Step, f: Fact)
    requires Can(s, e)
  {
    match f
    case Collecting => Grants(s, e)
    case Changed(count) => Counts(s, e, count)
    case Keeps(hours, excluded) =>
      || (Grants(s, e) && e.s.retentionHours == hours && e.s.excluded == excluded)
      || (Saves(e) && e.valid.value.retentionHours == hours && e.valid.value.excluded == excluded)
    case Stopped => e.Stop?
  }

  ghost predicate Unsays(s: State, e: Step, f: Fact)
    requires Can(s, e)
  {
    match f
    case Collecting =>
      || e.Revoke? || e.Stop? || (e.Clear? && e.baseline.None?) || (Arrives(s, e) && e.value.Failed?)
    case Changed(count) => exists other :: other != count && Counts(s, e, other)
    case Keeps(_, _) => Grants(s, e) || Saves(e)
    case Stopped => false
  }

  // ---------------------------------------------------------------- one step

  ghost predicate Told(s: State, e: Step, f: Fact)
    requires Can(s, e)
  {
    True(Do(s, e).h, f) <==> Says(s, e, f) || (True(s.h, f) && !Unsays(s, e, f))
  }

  /** The first entry with this id. */
  ghost predicate IsFirst(entries: seq<Entry>, id: string, i: nat) {
    i < |entries| && entries[i].id == id && forall j :: 0 <= j < i ==> entries[j].id != id
  }

  lemma {:induction false} FindExactly(entries: seq<Entry>, id: string)
    ensures Find(entries, id).None? <==> forall x :: x in entries ==> x.id != id
    ensures Find(entries, id).Some? ==> IsFirst(entries, id, Find(entries, id).value)
  {
    if entries != [] {
      assert entries == [entries[0]] + entries[1..];
      FindExactly(entries[1..], id);
    }
  }

  lemma RevokeTells(s: State, e: Step, f: Fact)
    requires Can(s, e) && e.Revoke?
    ensures Told(s, e, f)
  {
  }

  lemma EnableTells(s: State, e: Step, f: Fact)
    requires Can(s, e) && e.Enable?
    ensures Told(s, e, f)
  {
    if f.Changed? && Grants(s, e) { assert Counts(s, e, e.baseline.value); }
  }

  lemma TurnTells(s: State, e: Step, f: Fact)
    requires Can(s, e) && e.Top?
    ensures Told(s, e, f)
  {
  }

  lemma DoneTells(s: State, e: Step, f: Fact)
    requires Can(s, e) && e.Done?
    ensures Told(s, e, f)
  {
    if f.Changed? && Arrives(s, e) && e.value.Got? && e.value.count.Some? { assert Counts(s, e, e.value.count.value); }
  }

  lemma ClearTells(s: State, e: Step, f: Fact)
    requires Can(s, e) && e.Clear?
    ensures Told(s, e, f)
  {
    if f.Changed? && s.h.settings.enabled && e.baseline.Some? { assert Counts(s, e, e.baseline.value); }
  }

  lemma CopiedCount(h: H, id: string, written: bool, count: Option<int>, now: nat)
    ensures Copied(h, id, written, count, now).lastChange ==
      if written && count.Some? && exists x :: x in Tidy(h, now).entries && x.id == id
        then count.value else h.lastChange
    ensures Copied(h, id, written, count, now).settings == h.settings
    ensures Copied(h, id, written, count, now).shutdown == h.shutdown
  {
    FindExactly(Tidy(h, now).entries, id);
  }

  lemma CopyTells(s: State, e: Step, f: Fact)
    requires Can(s, e) && e.Copy?
    ensures Told(s, e, f)
  {
    CopiedCount(s.h, e.id, e.written, e.count, e.now);
    if f.Changed? && Copies(s, e) && e.count.Some? { assert Counts(s, e, e.count.value); }
  }

  lemma OtherTells(s: State, e: Step, f: Fact)
    requires Can(s, e) && (e.Pin? || e.Remove? || e.Read? || e.Stop?)
    ensures Told(s, e, f)
  {
  }

  lemma EachStepTells(s: State, e: Step, f: Fact)
    requires Can(s, e)
    ensures Told(s, e, f)
  {
    match e
    case Revoke(_, _, _, _) => RevokeTells(s, e, f);
    case Enable(_, _, _, _, _) => EnableTells(s, e, f);
    case Top(_, _) => TurnTells(s, e, f);
    case Done(_, _, _, _) => DoneTells(s, e, f);
    case Clear(_, _) => ClearTells(s, e, f);
    case Copy(_, _, _, _) => CopyTells(s, e, f);
    case _ => OtherTells(s, e, f);
  }

  // ---------------------------------------------------------------- every run

  /** Some step of the run, or the state it began in, has said so, and no step since has unsaid it. */
  ghost predicate LastSaid(run: seq<Step>, f: Fact)
    requires IsRun(run)
    decreases |run|
  {
    if run == [] then f == Changed(-1) || f == Keeps(1, DEFAULTS)
    else
      var before, e := run[..|run| - 1], run[|run| - 1];
      Says(Final(before), e, f) || (LastSaid(before, f) && !Unsays(Final(before), e, f))
  }

  /** In every run, collection, the last count, the preferences and the end are what was said of them last. */
  lemma {:induction false} TrueExactly(run: seq<Step>, f: Fact)
    requires IsRun(run)
    ensures True(Final(run).h, f) <==> LastSaid(run, f)
    decreases |run|
  {
    if run != [] {
      var before, e := run[..|run| - 1], run[|run| - 1];
      TrueExactly(before, f);
      EachStepTells(Final(before), e, f);
    }
  }

  lemma {:induction false} UnusedWorker(workers: map<nat, Worker>, ids: set<nat>) returns (w: nat)
    requires ids == workers.Keys
    ensures w !in workers
  {
    w := 0;
    var rest := ids;
    while rest != {}
      invariant forall v :: v in ids && v !in rest ==> v < w
    {
      var v :| v in rest;
      rest := rest - {v};
      w := if v < w then w else v + 1;
    }
  }

  /**
   Consent is open to the caller: at any time collection can be cleared, revoked or stopped, an entry acted on and the
   history read, and unless stopped it can be turned on.
   */
  lemma {:induction false} CallsAreOpen(run: seq<Step>, settings: Settings, baseline: int, now: nat) returns (on: Step)
    requires IsRun(run) && settings.enabled && !settings.paused
    ensures forall e: Step :: !e.Enable? && !e.Top? && !e.Done? ==> Can(Final(run), e)
    ensures Can(Final(run), on) && on.Enable? && on.s == settings
    ensures !LastSaid(run, Stopped) ==> True(Do(Final(run), on).h, Collecting)
  {
    var s := Final(run);
    var worker := UnusedWorker(s.workers, s.workers.Keys);
    on := Enable(settings, s.h.revision, Some(baseline), now, worker);
    TrueExactly(run, Stopped);
  }

  /** The clipboard is read, and what was read is taken, exactly while collection is on. */
  lemma ReadOnlyWhileCollecting(run: seq<Step>, e: Step)
    requires IsRun(run) && IsRun(run + [e]) && (e.Top? || e.Done?)
    ensures e.Top? ==> (Final(run + [e]).log != Final(run).log <==> LastSaid(run, Collecting))
    ensures e.Done? ==> (Final(run + [e]).log != Final(run).log <==> Arrives(Final(run), e))
    ensures e.Done? && !LastSaid(run, Collecting) ==> Final(run + [e]).h == Final(run).h
  {
    assert (run + [e])[..|run|] == run;
    TrueExactly(run, Collecting);
  }

  // ---------------------------------------------------------------- single entries

  lemma {:induction false} ToggledExactly(entries: seq<Entry>, id: string, i: nat)
    requires IsFirst(entries, id, i)
    ensures Toggled(entries, id) == entries[i := entries[i].(pinned := !entries[i].pinned)]
  {
    if i > 0 { ToggledExactly(entries[1..], id, i - 1); }
  }

  lemma {:induction false} DeletedExactly(entries: seq<Entry>, id: string, i: nat)
    requires IsFirst(entries, id, i)
    ensures Deleted(entries, id) == entries[..i] + entries[i + 1..]
  {
    if i > 0 { DeletedExactly(entries[1..], id, i - 1); }
  }

  /** Pinning turns over one entry's pin, and deleting takes one entry, if it has not expired; nothing else changes. */
  lemma ActionsExactly(h: H, id: string, now: nat, i: nat)
    ensures var t := Tidy(h, now);
      (forall x :: x in t.entries ==> x.id != id) ==> Pinned(h, id, now) == t && Removed(h, id, now) == t
    ensures var t := Tidy(h, now);
      IsFirst(t.entries, id, i) ==>
      && Pinned(h, id, now) == Tidy(t.(entries := t.entries[i := t.entries[i].(pinned := !t.entries[i].pinned)]), now)
      && Removed(h, id, now) == Tidy(t.(entries := t.entries[..i] + t.entries[i + 1..]), now)
  {
    var t := Tidy(h, now);
    FindExactly(t.entries, id);
    if IsFirst(t.entries, id, i) {
      ToggledExactly(t.entries, id, i);
      DeletedExactly(t.entries, id, i);
    }
  }

  /** A read that is still wanted is recorded, if it is worth it: it is the newest, if it fits beside what is pinned. */
  lemma ArrivalIsRecorded(s: State, e: Step, text: string, app: string)
    requires Can(s, e) && Arrives(s, e) && e.value.Got? && e.value.text == Some(text) && e.value.app == Some(app)
    requires Recordable(s.h, text, app) && s.h.settings.retentionHours > 0
    ensures var x, kept := Entry(e.id, text, app, false, e.now), Only(Do(s, e).h.entries, false);
            var pinned := Only(Retained(s.h.entries, e.now, s.h.settings.retentionHours * 3600), true);
            if Room(pinned, x) then kept != [] && kept[0] == x else kept == []
  {
    var c := if e.value.count.Some? then s.h.(lastChange := e.value.count.value) else s.h;
    RecordedStays(c, text, app, e.now, e.id);
  }
}
