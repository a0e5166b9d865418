/** The clipboard history's data: its bounds, its eviction and its settings. */
module Clipboard {
  import opened Common

  const MAX_ENTRIES := 100
  const MAX_TEXT_BYTES := 32_768
  const MAX_TOTAL_BYTES := 2_000_000
  const MAX_CUSTOM_EXCLUSIONS := 100

  /** `captured` is a reading of the monotonic clock, in seconds. */
  datatype Entry = Entry(id: string, text: string, app: string, pinned: bool, captured: nat)

  /** How many bytes a character takes in UTF-8. */
  function CharBytes(c: char): nat {
    if c < '\U{80}' then 1 else if c < '\U{800}' then 2 else if c < '\U{10000}' then 3 else 4
  }

  function Bytes(text: string): nat {
    if text == "" then 0 else CharBytes(text[0]) + Bytes(text[1..])
  }

  /** How many characters fit in so many bytes: 7 bits in one byte, and 5k + 1 bits in k bytes. */
  ghost function Capacity(k: nat): nat {
    match k case 0 => 0 case 1 => 0x80 case 2 => 0x800 case 3 => 0x1_0000 case _ => 0x20_0000
  }

  /** A character takes the fewest bytes that hold it, and a text as many as its characters. */
  lemma {:induction false} BytesExact(text: string, c: char)
    ensures Bytes(text + [c]) == Bytes(text) + CharBytes(c) && Bytes("") == 0
    ensures Capacity(CharBytes(c) - 1) <= c as int < Capacity(CharBytes(c)) && 1 <= CharBytes(c) <= 4
  {
    if text == "" {
      assert ([c])[1..] == "";
    } else {
      assert (text + [c])[1..] == text[1..] + [c];
      BytesExact(text[1..], c);
    }
  }

  function TotalBytes(entries: seq<Entry>): nat {
    if entries == [] then 0
    else TotalBytes(entries[..|entries| - 1]) + Bytes(entries[|entries| - 1].text)
  }

  /** Both bounds are met. */
  predicate Fits(entries: seq<Entry>) {
    |entries| <= MAX_ENTRIES && TotalBytes(entries) <= MAX_TOTAL_BYTES
  }

  // ---------------------------------------------------------------- pruning

  /** `retain`: the entries that are not too old. */
  function Retained(entries: seq<Entry>, now: nat, retention: nat): seq<Entry> {
    if entries == [] then []
    else
      var e := entries[|entries| - 1];
      Retained(entries[..|entries| - 1], now, retention) + (if now < e.captured + retention then [e] else [])
  }

  /** The oldest entry that is not pinned, or the oldest of all if every one is. */
  function Victim(entries: seq<Entry>): (i: nat)
    requires entries != []
    ensures i < |entries|
  {
    var k := LastUnpinned(entries, |entries|);
    if k.Some? then k.value else |entries| - 1
  }

  /** `rposition` among the first `n`. */
  function LastUnpinned(entries: seq<Entry>, n: nat): (k: Option<nat>)
    requires n <= |entries|
    ensures k.Some? ==> k.value < n && !entries[k.value].pinned && forall j :: k.value < j < n ==> entries[j].pinned
    ensures k.None? ==> forall j :: 0 <= j < n ==> entries[j].pinned
  {
    if n == 0 then None
    else if !entries[n - 1].pinned then Some(n - 1)
    else LastUnpinned(entries, n - 1)
  }

  function Without(entries: seq<Entry>, i: nat): (r: seq<Entry>)
    requires i < |entries|
    ensures |r| == |entries| - 1
  {
    entries[..i] + entries[i + 1..]
  }

  function Evicted(entries: seq<Entry>): seq<Entry>
    decreases |entries|
  {
    if Fits(entries) then entries
    else Evicted(Without(entries, Victim(entries)))
  }

  function Pruned(entries: seq<Entry>, now: nat, retention: nat): seq<Entry> {
    Evicted(Retained(entries, now, retention))
  }

  method TotalOf(entries: seq<Entry>) returns (sum: nat)
    ensures sum == TotalBytes(entries)
  {
    sum := 0;
    for i := 0 to |entries|
      invariant sum == TotalBytes(entries[..i])
    {
      assert entries[..i + 1][..i] == entries[..i];
      sum := sum + Bytes(entries[i].text);
    }
    assert entries[..|entries|] == entries;
  }

  /** `entries.retain`. */
  method Retain(start: seq<Entry>, now: nat, retention: nat) returns (entries: seq<Entry>)
    ensures entries == Retained(start, now, retention)
  {
    entries := [];
    for i := 0 to |start|
      invariant entries == Retained(start[..i], now, retention)
    {
      assert start[..i + 1][..i] == start[..i];
      if now < start[i].captured + retention { entries := entries + [start[i]]; }
    }
    assert start[..|start|] == start;
  }

  lemma MustEvict(entries: seq<Entry>)
    requires |entries| > MAX_ENTRIES || TotalBytes(entries) > MAX_TOTAL_BYTES
    ensures entries != [] && Evicted(entries) == Evicted(Without(entries, Victim(entries)))
  {
    EmptyFits();
  }

  /** `prune`. */
  method Prune(start: seq<Entry>, now: nat, retention: nat) returns (entries: seq<Entry>)
    ensures entries == Pruned(start, now, retention)
  {
    entries := Retain(start, now, retention);
    var total := TotalOf(entries);
    while |entries| > MAX_ENTRIES || total > MAX_TOTAL_BYTES
      invariant total == TotalBytes(entries)
      invariant Evicted(entries) == Pruned(start, now, retention)
      decreases |entries|
    {
      MustEvict(entries);
      var unpinned := LastUnpinned(entries, |entries|);
      var index := if unpinned.Some? then unpinned.value else |entries| - 1;
      entries := Without(entries, index);
      total := TotalOf(entries);
    }
  }

  lemma EmptyFits()
    ensures Fits([])
  {
  }

  // ---------------------------------------------------------------- what pruning promises

  /** `s` is what is left of `t` after taking entries out. */
  ghost predicate Within(s: seq<Entry>, t: seq<Entry>)
    decreases |t|
  {
    if t == [] then s == []
    else if s != [] && s[|s| - 1] == t[|t| - 1] && Within(s[..|s| - 1], t[..|t| - 1]) then true
    else Within(s, t[..|t| - 1])
  }

  lemma {:induction false} WithinSelf(s: seq<Entry>)
    ensures Within(s, s)
  {
    if s != [] { WithinSelf(s[..|s| - 1]); }
  }

  /** The entries with the given pin state, in order. */
  function Only(entries: seq<Entry>, pinned: bool): seq<Entry> {
    if entries == [] then []
    else
      var e := entries[|entries| - 1];
      Only(entries[..|entries| - 1], pinned) + (if e.pinned == pinned then [e] else [])
  }

  lemma {:induction false} OnlyAppend(a: seq<Entry>, b: seq<Entry>, pinned: bool)
    ensures Only(a + b, pinned) == Only(a, pinned) + Only(b, pinned)
    decreases |b|
  {
    if b == [] {
      assert a + b == a;
    } else {
      assert (a + b)[..|a + b| - 1] == a + b[..|b| - 1];
      OnlyAppend(a, b[..|b| - 1], pinned);
      var e := b[|b| - 1];
      Associate(Only(a, pinned), Only(b[..|b| - 1], pinned), if e.pinned == pinned then [e] else []);
    }
  }

  lemma {:induction false} OnlyNone(entries: seq<Entry>, pinned: bool)
    requires forall i :: 0 <= i < |entries| ==> entries[i].pinned != pinned
    ensures Only(entries, pinned) == []
  {
    if entries != [] { OnlyNone(entries[..|entries| - 1], pinned); }
  }

  lemma {:induction false} OnlyAll(entries: seq<Entry>, pinned: bool)
    requires forall i :: 0 <= i < |entries| ==> entries[i].pinned == pinned
    ensures Only(entries, pinned) == entries
  {
    if entries != [] { OnlyAll(entries[..|entries| - 1], pinned); }
  }

  lemma OneOut(entries: seq<Entry>, i: nat, pinned: bool)
    requires i < |entries|
    ensures Only(entries, pinned) ==
      Only(entries[..i], pinned) + Only([entries[i]], pinned) + Only(entries[i + 1..], pinned)
    ensures Only(Without(entries, i), pinned) == Only(entries[..i], pinned) + Only(entries[i + 1..], pinned)
  {
    assert entries == entries[..i] + [entries[i]] + entries[i + 1..];
    OnlyAppend(entries[..i] + [entries[i]], entries[i + 1..], pinned);
    OnlyAppend(entries[..i], [entries[i]], pinned);
    OnlyAppend(entries[..i], entries[i + 1..], pinned);
  }

  lemma Vanishing<T>(a: seq<T>, x: seq<T>, b: seq<T>)
    ensures b == [] ==> a + x + b == a + b + x
    ensures x == [] ==> a + x + b == a + b
  {
    if b == [] { assert a + x + b == a + x && a + b == a; }
    if x == [] { assert a + x == a; }
  }

  lemma NoneUnpinnedAfter(entries: seq<Entry>, i: nat)
    requires LastUnpinned(entries, |entries|) == Some(i)
    ensures Only(entries[i + 1..], false) == []
  {
    OnlyNone(entries[i + 1..], false);
  }

  lemma UnpinnedVictim(entries: seq<Entry>, i: nat)
    requires LastUnpinned(entries, |entries|) == Some(i)
    ensures Only(entries, false) == Only(Without(entries, i), false) + [entries[i]]
    ensures Only(Without(entries, i), true) == Only(entries, true)
  {
    OneOut(entries, i, false);
    OneOut(entries, i, true);
    OneAlone(entries[i]);
    NoneUnpinnedAfter(entries, i);
    Vanishing(Only(entries[..i], false), [entries[i]], Only(entries[i + 1..], false));
    Vanishing(Only(entries[..i], true), Only([entries[i]], true), Only(entries[i + 1..], true));
  }

  lemma PinnedVictim(entries: seq<Entry>)
    requires entries != [] && LastUnpinned(entries, |entries|).None?
    ensures Only(entries, false) == [] && Only(Without(entries, |entries| - 1), false) == []
    ensures Only(entries, true) == entries && Only(Without(entries, |entries| - 1), true) == entries[..|entries| - 1]
  {
    var r := Without(entries, |entries| - 1);
    assert r == entries[..|entries| - 1];
    OnlyNone(entries, false);
    OnlyAll(entries, true);
    OnlyNone(r, false);
    OnlyAll(r, true);
  }

  /** One eviction takes the oldest unpinned entry, and the oldest of all only when none is unpinned. */
  lemma VictimExact(entries: seq<Entry>)
    requires entries != []
    ensures var u, p := Only(entries, false), Only(entries, true); var r := Without(entries, Victim(entries));
      if u != [] then Only(r, false) == u[..|u| - 1] && Only(r, true) == p
      else Only(r, false) == [] && p != [] && Only(r, true) == p[..|p| - 1]
  {
    var k := LastUnpinned(entries, |entries|);
    if k.Some? { UnpinnedVictim(entries, k.value); } else { PinnedVictim(entries); }
  }

  lemma OneAlone(e: Entry)
    ensures Only([e], e.pinned) == [e] && Only([e], !e.pinned) == []
  {
    assert [e][..0] == [];
  }

  /** The state after `k` evictions. */
  function After(entries: seq<Entry>, k: nat): seq<Entry>
    requires k <= |entries|
    decreases k
  {
    if k == 0 then entries else After(Without(entries, Victim(entries)), k - 1)
  }

  /** Eviction stops at the first state within bounds, and there is one. */
  lemma {:induction false} StopsAtTheFirst(entries: seq<Entry>) returns (k: nat)
    ensures k <= |entries| && Evicted(entries) == After(entries, k) && Fits(Evicted(entries))
    ensures forall j: nat :: j < k ==> !Fits(After(entries, j))
    decreases |entries|
  {
    if Fits(entries) {
      k := 0;
    } else {
      EmptyFits();
      var rest := StopsAtTheFirst(Without(entries, Victim(entries)));
      k := rest + 1;
    }
  }

  /**
   What eviction keeps: of the unpinned entries the newest ones, and every pinned one as long as an unpinned
   one is left.
   */
  lemma {:induction false} EvictionOrder(entries: seq<Entry>)
    ensures Only(Evicted(entries), false) <= Only(entries, false) && Only(Evicted(entries), true) <= Only(entries, true)
    ensures Only(Evicted(entries), false) != [] ==> Only(Evicted(entries), true) == Only(entries, true)
    decreases |entries|
  {
    if !Fits(entries) {
      EmptyFits();
      VictimExact(entries);
      EvictionOrder(Without(entries, Victim(entries)));
    }
  }

  lemma {:induction false} OnlySplits(entries: seq<Entry>)
    ensures |entries| == |Only(entries, false)| + |Only(entries, true)|
    ensures TotalBytes(entries) == TotalBytes(Only(entries, false)) + TotalBytes(Only(entries, true))
    decreases |entries|
  {
    if entries != [] {
      var front, e := entries[..|entries| - 1], entries[|entries| - 1];
      OnlySplits(front);
      OneMore(Only(front, e.pinned), e);
      assert Only(front, !e.pinned) + [] == Only(front, !e.pinned);
    }
  }

  lemma OneMore(entries: seq<Entry>, e: Entry)
    ensures TotalBytes(entries + [e]) == TotalBytes(entries) + Bytes(e.text)
  {
    assert (entries + [e])[..|entries|] == entries;
  }

  lemma {:induction false} FirstWeighs(entries: seq<Entry>)
    requires entries != []
    ensures TotalBytes(entries) >= Bytes(entries[0].text)
    decreases |entries|
  {
    if |entries| > 1 { FirstWeighs(entries[..|entries| - 1]); }
  }

  /** The pinned entries leave room for one more. */
  predicate Room(pinned: seq<Entry>, e: Entry) {
    |pinned| < 100 && TotalBytes(pinned) + Bytes(e.text) <= 2_000_000
  }

  /** The newest unpinned entry survives exactly when it fits beside all pinned ones, however much is older. */
  lemma {:induction false} NewestSurvives(entries: seq<Entry>)
    requires Only(entries, false) != []
    ensures Only(Evicted(entries), false) != [] <==> Room(Only(entries, true), Only(entries, false)[0])
    ensures Only(Evicted(entries), false) != [] ==> Only(Evicted(entries), false)[0] == Only(entries, false)[0]
    decreases |entries|
  {
    var u := Only(entries, false);
    OnlySplits(entries);
    FirstWeighs(u);
    EvictionOrder(entries);
    if !Fits(entries) {
      EmptyFits();
      VictimExact(entries);
      var rest := Without(entries, Victim(entries));
      if |u| > 1 {
        NewestSurvives(rest);
      } else {
        EvictionOrder(rest);
        assert TotalBytes(u) == Bytes(u[0].text);
      }
    }
  }

  lemma {:induction false} WithinWithout(s: seq<Entry>, t: seq<Entry>, i: nat)
    requires i < |t| && Within(s, Without(t, i))
    ensures Within(s, t)
    decreases |t|
  {
    var r := Without(t, i);
    if i == |t| - 1 {
      assert r == t[..|t| - 1];
    } else {
      assert r[|r| - 1] == t[|t| - 1] && r[..|r| - 1] == Without(t[..|t| - 1], i);
      if s != [] && s[|s| - 1] == r[|r| - 1] && Within(s[..|s| - 1], r[..|r| - 1]) {
        WithinWithout(s[..|s| - 1], t[..|t| - 1], i);
      } else {
        WithinWithout(s, t[..|t| - 1], i);
      }
    }
  }

  /** Eviction keeps the order of what it keeps. */
  lemma {:induction false} EvictionKeepsOrder(entries: seq<Entry>)
    ensures Within(Evicted(entries), entries)
    decreases |entries|
  {
    if Fits(entries) {
      WithinSelf(entries);
    } else {
      EmptyFits();
      EvictionKeepsOrder(Without(entries, Victim(entries)));
      WithinWithout(Evicted(entries), entries, Victim(entries));
    }
  }

  /** After a prune nothing is older than the retention, pinned or not. */
  lemma {:induction false} RetainedExact(entries: seq<Entry>, now: nat, retention: nat, e: Entry)
    ensures e in Retained(entries, now, retention) <==> e in entries && now < e.captured + retention
  {
    if entries != [] {
      assert entries == entries[..|entries| - 1] + [entries[|entries| - 1]];
      RetainedExact(entries[..|entries| - 1], now, retention, e);
    }
  }

  lemma {:induction false} NewestRetained(e: Entry, entries: seq<Entry>, now: nat, retention: nat)
    requires now < e.captured + retention
    ensures Retained([e] + entries, now, retention) == [e] + Retained(entries, now, retention)
    decreases |entries|
  {
    if entries == [] {
      assert [e] + entries == [e] && [e][..0] == [];
    } else {
      var front, last := entries[..|entries| - 1], entries[|entries| - 1];
      assert ([e] + entries)[..|entries|] == [e] + front;
      NewestRetained(e, front, now, retention);
      Associate([e], Retained(front, now, retention), if now < last.captured + retention then [last] else []);
    }
  }
}
