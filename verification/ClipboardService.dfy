/**
 The clipboard history's settings: what of them is accepted, and what an accepted setting holds.

 The excluded applications are the user's and the protected ones together, in lower case and each once, so that
 settings which were accepted can be sent back as they are.
 */
module ClipboardService {
  import opened Ascii
  import opened Common
  import opened Clipboard

  const WRAP := 0x1_0000_0000_0000_0000

  datatype Settings = Settings(enabled: bool, paused: bool, retentionHours: nat, excluded: seq<string>)

  // ---------------------------------------------------------------- settings

  /** Unicode White_Space. */
  predicate IsWhite(c: char) {
    || '\U{9}' <= c <= '\U{D}' || c == ' ' || c == '\U{85}' || c == '\U{A0}' || c == '\U{1680}'
    || '\U{2000}' <= c <= '\U{200A}' || c == '\U{2028}' || c == '\U{2029}' || c == '\U{202F}'
    || c == '\U{205F}' || c == '\U{3000}'
  }

  function TrimStart(s: string): string {
    if s != "" && IsWhite(s[0]) then TrimStart(s[1..]) else s
  }

  function TrimEnd(s: string): string {
    if s != "" && IsWhite(s[|s| - 1]) then TrimEnd(s[..|s| - 1]) else s
  }

  function Clean(id: string): string {
    Lower(TrimEnd(TrimStart(id)))
  }

  const DEFAULTS: seq<string> := [
    "com.1password.1password", "com.agilebits.onepassword7", "com.bitwarden.desktop",
    "com.apple.keychainaccess", "com.lastpass.LastPass", "com.dashlane.Dashlane"]

  function CleanAll(ids: seq<string>): (r: seq<string>)
    ensures |r| == |ids|
  {
    if ids == [] then [] else [Clean(ids[0])] + CleanAll(ids[1..])
  }

  /** The first occurrence of each id that is not in `seen`. */
  function Dedup(ids: seq<string>, seen: set<string>): seq<string> {
    if ids == [] then []
    else if ids[0] in seen then Dedup(ids[1..], seen)
    else [ids[0]] + Dedup(ids[1..], seen + {ids[0]})
  }

  predicate IsBundleChar(c: char) {
    'a' <= c <= 'z' || 'A' <= c <= 'Z' || '0' <= c <= '9' || c == '.' || c == '-'
  }

  predicate IsBundle(s: string) {
    0 < |s| <= 255 && forall i :: 0 <= i < |s| ==> IsBundleChar(s[i])
  }

  function Customs(ids: seq<string>, protected: set<string>): nat {
    if ids == [] then 0
    else (if Lower(ids[0]) in protected then 0 else 1) + Customs(ids[1..], protected)
  }

  function Protected(): set<string> {
    set id | id in CleanAll(DEFAULTS)
  }

  /** `validate`, given the protected ids and how many ids there may be. */
  predicate ValidWith(s: Settings, protected: set<string>, most: nat) {
    && s.retentionHours in {1, 8, 24}
    && Customs(s.excluded, protected) <= MAX_CUSTOM_EXCLUSIONS && |s.excluded| <= most
    && forall i :: 0 <= i < |s.excluded| ==> IsBundle(s.excluded[i])
  }

  predicate Valid(s: Settings) {
    ValidWith(s, Protected(), MAX_CUSTOM_EXCLUSIONS + |DEFAULTS|)
  }

  function Deduplicated(s: Settings): Settings {
    s.(excluded := Dedup(CleanAll(s.excluded + DEFAULTS), {}))
  }

  /** `normalize`. */
  function Normalized(s: Settings): Option<Settings> {
    if |s.excluded| > 400 || !Valid(Deduplicated(s)) then None else Some(Deduplicated(s))
  }

  /** The filter on `seen.insert`. */
  method DedupIds(ids: seq<string>) returns (kept: seq<string>)
    ensures kept == Dedup(ids, {})
  {
    var seen: set<string> := {};
    kept := [];
    for i := 0 to |ids|
      invariant kept + Dedup(ids[i..], seen) == Dedup(ids, {})
    {
      assert ids[i..][1..] == ids[i + 1..];
      if ids[i] !in seen {
        Associate(kept, [ids[i]], Dedup(ids[i + 1..], seen + {ids[i]}));
        seen := seen + {ids[i]};
        kept := kept + [ids[i]];
      }
    }
  }

  method Normalize(s: Settings) returns (r: Option<Settings>)
    ensures r == Normalized(s)
  {
    if |s.excluded| > 400 { return None; }
    var kept := DedupIds(CleanAll(s.excluded + DEFAULTS));
    var normalized := s.(excluded := kept);
    return if Valid(normalized) then Some(normalized) else None;
  }

  // ---------------------------------------------------------------- what normalizing promises

  lemma {:induction false} CleanAllHas(ids: seq<string>, i: nat)
    requires i < |ids|
    ensures CleanAll(ids)[i] == Clean(ids[i])
  {
    if i > 0 { CleanAllHas(ids[1..], i - 1); }
  }

  lemma {:induction false} CleanAllAppend(a: seq<string>, b: seq<string>)
    ensures CleanAll(a + b) == CleanAll(a) + CleanAll(b)
  {
    if a == [] {
      assert a + b == b;
    } else {
      assert (a + b)[1..] == a[1..] + b;
      CleanAllAppend(a[1..], b);
    }
  }

  lemma {:induction false} DedupHas(ids: seq<string>, seen: set<string>, id: string)
    ensures id in Dedup(ids, seen) <==> id in ids && id !in seen
  {
    if ids != [] {
      assert ids == [ids[0]] + ids[1..];
      DedupHas(ids[1..], if ids[0] in seen then seen else seen + {ids[0]}, id);
    }
  }

  /** The password managers are excluded whatever is asked for. */
  lemma ProtectedStay(s: Settings, i: nat)
    requires Normalized(s).Some? && i < |DEFAULTS|
    ensures Clean(DEFAULTS[i]) in Normalized(s).value.excluded
  {
    CleanAllAppend(s.excluded, DEFAULTS);
    CleanAllHas(DEFAULTS, i);
    DedupHas(CleanAll(s.excluded + DEFAULTS), {}, Clean(DEFAULTS[i]));
  }

  ghost predicate NoRepeats(ids: seq<string>) {
    forall i, j :: 0 <= i < j < |ids| ==> ids[i] != ids[j]
  }

  lemma {:induction false} DedupNoRepeats(ids: seq<string>, seen: set<string>)
    ensures NoRepeats(Dedup(ids, seen))
  {
    if ids != [] {
      if ids[0] in seen {
        DedupNoRepeats(ids[1..], seen);
      } else {
        var rest := Dedup(ids[1..], seen + {ids[0]});
        DedupNoRepeats(ids[1..], seen + {ids[0]});
        DedupHas(ids[1..], seen + {ids[0]}, ids[0]);
        assert forall j :: 0 <= j < |rest| ==> rest[j] != ids[0];
      }
    }
  }

  lemma {:induction false} DedupSame(ids: seq<string>, more: seq<string>, seen: set<string>)
    requires NoRepeats(ids) && (forall id :: id in ids ==> id !in seen)
    requires forall id :: id in more ==> id in ids || id in seen
    ensures Dedup(ids + more, seen) == ids
  {
    if ids == [] {
      assert ids + more == more;
      DedupNone(more, seen);
    } else {
      assert (ids + more)[1..] == ids[1..] + more;
      assert ids == [ids[0]] + ids[1..];
      DedupSame(ids[1..], more, seen + {ids[0]});
    }
  }

  lemma {:induction false} DedupNone(ids: seq<string>, seen: set<string>)
    requires forall id :: id in ids ==> id in seen
    ensures Dedup(ids, seen) == []
  {
    if ids != [] { DedupNone(ids[1..], seen); }
  }

  lemma CleanBundle(id: string, raw: string)
    requires id == Clean(raw) && IsBundle(id)
    ensures Clean(id) == id
  {
    assert !IsWhite(id[0]) && !IsWhite(id[|id| - 1]);
    LowerTwice(TrimEnd(TrimStart(raw)));
  }

  lemma LowerTwice(s: string)
    ensures Lower(Lower(s)) == Lower(s)
  {
  }

  lemma {:induction false} CleanAllSame(ids: seq<string>)
    requires forall i :: 0 <= i < |ids| ==> Clean(ids[i]) == ids[i]
    ensures CleanAll(ids) == ids
  {
    if ids != [] { CleanAllSame(ids[1..]); }
  }

  lemma KeptAreClean(s: Settings, i: nat)
    requires Normalized(s).Some? && i < |Normalized(s).value.excluded|
    ensures Clean(Normalized(s).value.excluded[i]) == Normalized(s).value.excluded[i]
  {
    var ids := s.excluded + DEFAULTS;
    var id := Normalized(s).value.excluded[i];
    DedupHas(CleanAll(ids), {}, id);
    var j :| 0 <= j < |CleanAll(ids)| && CleanAll(ids)[j] == id;
    CleanAllHas(ids, j);
    CleanBundle(id, ids[j]);
  }

  lemma DefaultsAreKept(s: Settings, id: string)
    requires Normalized(s).Some? && id in CleanAll(DEFAULTS)
    ensures id in Normalized(s).value.excluded
  {
    var i :| 0 <= i < |CleanAll(DEFAULTS)| && CleanAll(DEFAULTS)[i] == id;
    CleanAllHas(DEFAULTS, i);
    ProtectedStay(s, i);
  }

  lemma KeptAreStable(s: Settings)
    requires Normalized(s).Some?
    ensures CleanAll(Normalized(s).value.excluded) == Normalized(s).value.excluded
      && NoRepeats(Normalized(s).value.excluded)
  {
    var t := Normalized(s).value;
    DedupNoRepeats(CleanAll(s.excluded + DEFAULTS), {});
    forall i | 0 <= i < |t.excluded| ensures Clean(t.excluded[i]) == t.excluded[i] { KeptAreClean(s, i); }
    CleanAllSame(t.excluded);
  }

  /** Settings that were saved can be sent back as they are: normalizing them again changes nothing. */
  lemma NormalizeTwice(s: Settings)
    requires Normalized(s).Some?
    ensures Normalized(Normalized(s).value) == Normalized(s)
  {
    var t := Normalized(s).value;
    KeptAreStable(s);
    CleanAllAppend(t.excluded, DEFAULTS);
    forall id | id in CleanAll(DEFAULTS) ensures id in t.excluded { DefaultsAreKept(s, id); }
    DedupSame(t.excluded, CleanAll(DEFAULTS), {});
  }
}
