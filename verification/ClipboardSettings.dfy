/** Which clipboard settings are accepted, and what becomes of the applications they exclude. */
module ClipboardSettings {
  import opened Ascii
  import opened Common
  import opened Clipboard
  import opened ClipboardService

  /** What Unicode calls White_Space, by number. */
  ghost predicate IsSpace(c: char) {
    var n := c as int;
    || 9 <= n <= 13 || n == 32 || n == 133 || n == 160 || n == 5760 || 8192 <= n <= 8202
    || n == 8232 || n == 8233 || n == 8239 || n == 8287 || n == 12288
  }

  /** `t` is `raw` without the white space around it. */
  ghost predicate Trims(raw: string, t: string) {
    exists i, j :: 0 <= i <= j <= |raw| && t == raw[i..j] && Around(raw, i, j)
  }

  /** Before `i` and from `j` on there is only white space, and what is between begins and ends with something else. */
  ghost predicate Around(raw: string, i: int, j: int)
    requires 0 <= i <= j <= |raw|
  {
    && (forall k :: 0 <= k < i || j <= k < |raw| ==> IsSpace(raw[k]))
    && (i < j ==> !IsSpace(raw[i]) && !IsSpace(raw[j - 1]))
  }

  lemma {:induction false} TrimStartAt(s: string) returns (i: nat)
    ensures i <= |s| && TrimStart(s) == s[i..] && (i < |s| ==> !IsWhite(s[i]))
    ensures forall k :: 0 <= k < i ==> IsWhite(s[k])
  {
    if s != "" && IsWhite(s[0]) {
      i := TrimStartAt(s[1..]);
      assert s[1..][i..] == s[i + 1..];
      forall k | 0 <= k < i + 1 ensures IsWhite(s[k]) { if k > 0 { assert s[k] == s[1..][k - 1]; } }
      i := i + 1;
    } else {
      i := 0;
    }
  }

  lemma {:induction false} TrimEndAt(s: string) returns (j: nat)
    ensures j <= |s| && TrimEnd(s) == s[..j] && (j > 0 ==> !IsWhite(s[j - 1]))
    ensures forall k :: j <= k < |s| ==> IsWhite(s[k])
  {
    if s != "" && IsWhite(s[|s| - 1]) {
      var front := s[..|s| - 1];
      j := TrimEndAt(front);
      assert front[..j] == s[..j];
      assert j > 0 ==> front[j - 1] == s[j - 1];
      forall k | j <= k < |s| ensures IsWhite(s[k]) { if k < |s| - 1 { assert s[k] == front[k]; } }
    } else {
      j := |s|;
      assert s[..j] == s;
    }
  }

  lemma TrimmedTrims(raw: string)
    ensures Trims(raw, TrimEnd(TrimStart(raw)))
  {
    var i := TrimStartAt(raw);
    var rest := raw[i..];
    var j := TrimEndAt(rest);
    assert rest[..j] == raw[i..i + j];
    forall k | 0 <= k < i || i + j <= k < |raw| ensures IsWhite(raw[k]) {
      if k >= i { assert raw[k] == rest[k - i]; }
    }
    if j > 0 { assert raw[i + j - 1] == rest[j - 1]; }
    assert Around(raw, i, i + j);
  }

  /** What is trimmed to one text lies within what is trimmed to the other. */
  lemma Within(raw: string, i: nat, j: nat, k: nat, l: nat)
    requires i < j <= |raw| && k <= l <= |raw| && Around(raw, i, j) && Around(raw, k, l)
    ensures k <= i && j <= l
  {
    assert !IsSpace(raw[i]) && !IsSpace(raw[j - 1]);
  }

  lemma TrimsOnce(raw: string, t: string, u: string)
    requires Trims(raw, t) && Trims(raw, u)
    ensures t == u
  {
    var i, j :| 0 <= i <= j <= |raw| && t == raw[i..j] && Around(raw, i, j);
    var k, l :| 0 <= k <= l <= |raw| && u == raw[k..l] && Around(raw, k, l);
    if i < j { Within(raw, i, j, k, l); }
    if k < l { Within(raw, k, l, i, j); }
  }

  /** An id is cleaned to its letters in lower case, without the white space around it. */
  lemma CleanExactly(raw: string, t: string)
    requires Trims(raw, t)
    ensures SameLetters(Clean(raw), t) && Lower(Clean(raw)) == Clean(raw)
  {
    TrimmedTrims(raw);
    TrimsOnce(raw, t, TrimEnd(TrimStart(raw)));
    LowerTwice(t);
    FoldsExactly(Lower(t), t);
  }

  // ---------------------------------------------------------------- first occurrences

  /** The list without repetitions: the same ids, each once, in the order in which they first appear. */
  ghost predicate Firsts(ids: seq<string>, kept: seq<string>) {
    && NoRepeats(kept) && (forall id :: id in kept <==> id in ids)
    && forall i, j :: 0 <= i < j < |kept| ==> Before(ids, kept[i], kept[j])
  }

  /** `a` appears before `b` does. */
  ghost predicate Before(ids: seq<string>, a: string, b: string) {
    exists n :: 0 <= n < |ids| && ids[n] == a && b !in ids[..n + 1]
  }

  lemma BeforeTail(ids: seq<string>, a: string, b: string)
    requires ids != [] && Before(ids[1..], a, b) && b != ids[0]
    ensures Before(ids, a, b)
  {
    var n :| 0 <= n < |ids[1..]| && ids[1..][n] == a && b !in ids[1..][..n + 1];
    assert ids[n + 1] == a && ids[..n + 2] == [ids[0]] + ids[1..][..n + 1];
  }

  lemma {:induction false} DedupInOrder(ids: seq<string>, seen: set<string>, i: nat, j: nat)
    requires i < j < |Dedup(ids, seen)|
    ensures Before(ids, Dedup(ids, seen)[i], Dedup(ids, seen)[j])
  {
    var kept := Dedup(ids, seen);
    DedupNoRepeats(ids, seen);
    if ids[0] in seen {
      DedupHas(ids[1..], seen, kept[j]);
      DedupInOrder(ids[1..], seen, i, j);
      BeforeTail(ids, kept[i], kept[j]);
    } else {
      var rest := Dedup(ids[1..], seen + {ids[0]});
      assert kept == [ids[0]] + rest;
      if i == 0 {
        assert ids[..1] == [ids[0]];
        assert ids[0] == kept[0] && kept[j] !in ids[..1];
      } else {
        assert kept[0] != kept[j];
        DedupInOrder(ids[1..], seen + {ids[0]}, i - 1, j - 1);
        BeforeTail(ids, kept[i], kept[j]);
      }
    }
  }

  lemma DedupFirsts(ids: seq<string>)
    ensures Firsts(ids, Dedup(ids, {}))
  {
    DedupNoRepeats(ids, {});
    forall id ensures id in Dedup(ids, {}) <==> id in ids { DedupHas(ids, {}, id); }
    forall i, j | 0 <= i < j < |Dedup(ids, {})| ensures Before(ids, Dedup(ids, {})[i], Dedup(ids, {})[j]) {
      DedupInOrder(ids, {}, i, j);
    }
  }

  // ---------------------------------------------------------------- what is accepted

  /** The ids that the settings add to the protected ones, cleaned. */
  ghost function Custom(s: Settings): set<string> {
    set id | id in CleanAll(s.excluded) && id !in CleanAll(DEFAULTS)
  }

  /** Letters, digits, dots and hyphens, from 1 to 255 of them. */
  ghost predicate IsId(id: string) {
    && 1 <= |id| <= 255
    && forall i :: 0 <= i < |id| ==>
      var c := id[i] as int; 48 <= c <= 57 || 65 <= c <= 90 || 97 <= c <= 122 || c == 46 || c == 45
  }

  lemma BundleExactly(id: string)
    ensures IsBundle(id) <==> IsId(id)
  {
    forall i | 0 <= i < |id|
      ensures IsBundleChar(id[i]) <==> var c := id[i] as int;
        48 <= c <= 57 || 65 <= c <= 90 || 97 <= c <= 122 || c == 46 || c == 45 {}
  }

  /** How many of the ids are not protected: as many as there are different ones, if none is repeated. */
  lemma {:induction false} CustomsCount(ids: seq<string>, protected: set<string>)
    requires NoRepeats(ids) && forall id :: id in ids ==> Lower(id) == id
    ensures Customs(ids, protected) == |set id | id in ids && id !in protected|
  {
    var these := set id | id in ids && id !in protected;
    if ids == [] {
      assert these == {};
    } else {
      var rest := set id | id in ids[1..] && id !in protected;
      assert ids == [ids[0]] + ids[1..] && ids[0] !in ids[1..];
      CustomsCount(ids[1..], protected);
      if ids[0] in protected { assert these == rest; } else { assert these == rest + {ids[0]} && ids[0] !in rest; }
    }
  }

  lemma {:induction false} SizeOf(ids: seq<string>)
    requires NoRepeats(ids)
    ensures |set id | id in ids| == |ids|
  {
    var these := set id | id in ids;
    if ids == [] {
      assert these == {};
    } else {
      var rest := set id | id in ids[1..];
      assert ids == [ids[0]] + ids[1..] && ids[0] !in ids[1..];
      SizeOf(ids[1..]);
      assert these == rest + {ids[0]};
    }
  }

  lemma {:induction false} AtMost(ids: seq<string>)
    ensures |set id | id in ids| <= |ids|
  {
    var these := set id | id in ids;
    if ids == [] {
      assert these == {};
    } else {
      var rest := set id | id in ids[1..];
      assert ids == [ids[0]] + ids[1..];
      AtMost(ids[1..]);
      assert these == rest + {ids[0]};
    }
  }

  lemma CleanedAreLower(ids: seq<string>, id: string)
    requires id in CleanAll(ids)
    ensures Lower(id) == id
  {
    var i :| 0 <= i < |CleanAll(ids)| && CleanAll(ids)[i] == id;
    CleanAllHas(ids, i);
    LowerTwice(TrimEnd(TrimStart(ids[i])));
  }

  /** The cleaned ids of the settings and the protected ones. */
  ghost function Both(s: Settings): seq<string> {
    CleanAll(s.excluded + DEFAULTS)
  }

  /** For any cleaned ids, and any others that are protected. */
  lemma CountsOthers(a: seq<string>, d: seq<string>, protected: set<string>)
    requires protected == (set id | id in d) && forall id :: id in a + d ==> Lower(id) == id
    ensures Customs(Dedup(a + d, {}), protected) == |set id | id in a && id !in d|
    ensures |Dedup(a + d, {})| <= |set id | id in a && id !in d| + |d|
  {
    var kept, others := Dedup(a + d, {}), set id | id in a && id !in d;
    DedupFirsts(a + d);
    CustomsCount(kept, protected);
    assert others == set id | id in kept && id !in protected;
    SizeOf(kept);
    assert (set id | id in kept) == others + protected;
    AtMost(d);
  }

  lemma CountsCustom(s: Settings)
    ensures Customs(Dedup(Both(s), {}), Protected()) == |Custom(s)|
    ensures |Dedup(Both(s), {})| <= |Custom(s)| + |DEFAULTS|
  {
    var a, d := CleanAll(s.excluded), CleanAll(DEFAULTS);
    CleanAllAppend(s.excluded, DEFAULTS);
    forall id | id in a + d ensures Lower(id) == id { CleanedAreLower(s.excluded + DEFAULTS, id); }
    CountsOthers(a, d, Protected());
  }

  /** When settings with these ids are valid, `custom` of the ids being the user's own. */
  lemma ValidExactly(n: Settings, ids: seq<string>, protected: set<string>, custom: nat, others: nat)
    requires Firsts(ids, n.excluded) && Customs(n.excluded, protected) == custom && |n.excluded| <= custom + others
    ensures ValidWith(n, protected, 100 + others) <==>
      && (n.retentionHours == 1 || n.retentionHours == 8 || n.retentionHours == 24)
      && (forall id :: id in ids ==> IsId(id)) && custom <= 100
  {
    var kept := n.excluded;
    forall i | 0 <= i < |kept| ensures kept[i] in ids && IsBundle(kept[i]) <==> IsId(kept[i]) {
      BundleExactly(kept[i]);
    }
  }

  lemma AcceptedOver(s: Settings, r: Option<Settings>, n: Settings, ids: seq<string>, protected: set<string>,
      custom: nat, others: nat)
    requires r == if |s.excluded| > 400 || !ValidWith(n, protected, 100 + others) then None else Some(n)
    requires n == s.(excluded := n.excluded) && Firsts(ids, n.excluded)
    requires Customs(n.excluded, protected) == custom && |n.excluded| <= custom + others
    ensures r.Some? <==>
      && |s.excluded| <= 400 && (s.retentionHours == 1 || s.retentionHours == 8 || s.retentionHours == 24)
      && (forall id :: id in ids ==> IsId(id)) && custom <= 100
    ensures r.Some? ==> Firsts(ids, r.value.excluded) && r.value == s.(excluded := r.value.excluded)
  {
    ValidExactly(n, ids, protected, custom, others);
  }

  /**
   Which settings are accepted: at most 400 ids, one of the three retentions, every cleaned id a proper one, and at most
   100 different ones besides the protected. What is excluded then are the cleaned ids and the protected ones, each
   once and in the order of their first appearance; everything else is as it was asked for.
   */
  lemma AcceptedExactly(s: Settings)
    ensures Normalized(s).Some? <==>
      && |s.excluded| <= 400 && (s.retentionHours == 1 || s.retentionHours == 8 || s.retentionHours == 24)
      && (forall id :: id in Both(s) ==> IsId(id)) && |Custom(s)| <= 100
    ensures Normalized(s).Some? ==>
      var n := Normalized(s).value; Firsts(Both(s), n.excluded) && n == s.(excluded := n.excluded)
  {
    DedupFirsts(Both(s));
    CountsCustom(s);
    AcceptedOver(s, Normalized(s), Deduplicated(s), Both(s), Protected(), |Custom(s)|, |DEFAULTS|);
  }
}
