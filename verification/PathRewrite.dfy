/** Moving paths from one home directory to another. */
module PathRewrite {
  import opened Common
  import opened Json

  /** `path` is the directory itself or something under it. */
  predicate Under(path: string, home: string) {
    home <= path && (|path| == |home| || path[|home|] == '/')
  }

  predicate Moves(path: string, source: Option<string>, target: Option<string>) {
    && source.Some? && target.Some? && source != target && source.value != ""
    && Under(path, source.value)
  }

  /** `remap`, whose second result is `Moves`. */
  function Remap(path: string, source: Option<string>, target: Option<string>): string {
    if Moves(path, source, target) then target.value + path[|source.value|..] else path
  }

  /** The leaf strings that are looked at: absolute paths. */
  predicate IsAbsolute(s: string) {
    s != "" && s[0] == '/'
  }

  function RewriteText(s: string, source: Option<string>, target: Option<string>): string {
    if IsAbsolute(s) then Remap(s, source, target) else s
  }

  function CountText(s: string, source: Option<string>, target: Option<string>): nat {
    if IsAbsolute(s) && Moves(s, source, target) then 1 else 0
  }

  // ---------------------------------------------------------------- the walk over a payload

  function Rewrite(v: Value, source: Option<string>, target: Option<string>): Value
    decreases v
  {
    match v
    case Str(s) => Str(RewriteText(s, source, target))
    case Arr(items) => Arr(RewriteItems(v, |items|, source, target))
    case Obj(members) => Obj(RewriteMembers(v, |members|, source, target))
    case _ => v
  }

  /** The first `n` items. */
  function RewriteItems(v: Value, n: nat, source: Option<string>, target: Option<string>): (r: seq<Value>)
    requires v.Arr? && n <= |v.items|
    ensures |r| == n
    decreases v, n
  {
    if n == 0 then [] else RewriteItems(v, n - 1, source, target) + [Rewrite(v.items[n - 1], source, target)]
  }

  function RewriteMembers(v: Value, n: nat, source: Option<string>, target: Option<string>): (r: seq<Member>)
    requires v.Obj? && n <= |v.members|
    ensures |r| == n
    decreases v, n
  {
    if n == 0 then []
    else
      var m := v.members[n - 1];
      RewriteMembers(v, n - 1, source, target) + [Member(m.key, Rewrite(m.value, source, target))]
  }

  /** How many paths a rewrite changes. */
  function Count(v: Value, source: Option<string>, target: Option<string>): nat
    decreases v
  {
    match v
    case Str(s) => CountText(s, source, target)
    case Arr(items) => CountItems(v, |items|, source, target)
    case Obj(members) => CountMembers(v, |members|, source, target)
    case _ => 0
  }

  function CountItems(v: Value, n: nat, source: Option<string>, target: Option<string>): nat
    requires v.Arr? && n <= |v.items|
    decreases v, n
  {
    if n == 0 then 0 else CountItems(v, n - 1, source, target) + Count(v.items[n - 1], source, target)
  }

  function CountMembers(v: Value, n: nat, source: Option<string>, target: Option<string>): nat
    requires v.Obj? && n <= |v.members|
    decreases v, n
  {
    if n == 0 then 0 else CountMembers(v, n - 1, source, target) + Count(v.members[n - 1].value, source, target)
  }

  /** `rewrite_paths_in_json`: the new value, and the counter after the walk. */
  method RewritePathsInJson(v: Value, source: Option<string>, target: Option<string>, count: nat)
      returns (w: Value, total: nat)
    ensures w == Rewrite(v, source, target) && total == count + Count(v, source, target)
    decreases v
  {
    w, total := v, count;
    match v {
      case Str(s) =>
        if IsAbsolute(s) {
          var next, changed := Remap(s, source, target), Moves(s, source, target);
          if changed {
            w := Str(next);
            total := total + 1;
          }
        }
      case Arr(items) =>
        var out: seq<Value> := [];
        for i := 0 to |items|
          invariant out == RewriteItems(v, i, source, target) && total == count + CountItems(v, i, source, target)
        {
          var x, t := RewritePathsInJson(items[i], source, target, total);
          out, total := out + [x], t;
        }
        w := Arr(out);
      case Obj(members) =>
        var out: seq<Member> := [];
        for i := 0 to |members|
          invariant out == RewriteMembers(v, i, source, target) && total == count + CountMembers(v, i, source, target)
        {
          var x, t := RewritePathsInJson(members[i].value, source, target, total);
          out, total := out + [Member(members[i].key, x)], t;
        }
        w := Obj(out);
      case _ =>
    }
  }

  // ---------------------------------------------------------------- segments

  /** One more character in front of some segments. */
  function Onto(c: char, s: seq<string>): (r: seq<string>)
    requires s != []
    ensures r != []
  {
    if c == '/' then [""] + s else [[c] + s[0]] + s[1..]
  }

  /** The parts of a path between its slashes. */
  function Segments(path: string): (s: seq<string>)
    ensures s != []
  {
    if path == "" then [""] else Onto(path[0], Segments(path[1..]))
  }

  lemma {:induction false} SegmentsJoin(a: string, b: string)
    ensures Segments(a + "/" + b) == Segments(a) + Segments(b)
  {
    if a == "" {
      assert (a + "/" + b)[1..] == b;
    } else {
      assert (a + "/" + b)[1..] == a[1..] + "/" + b;
      SegmentsJoin(a[1..], b);
    }
  }

  lemma UnderStep(path: string, home: string)
    requires path != "" && home != "" && path[0] == home[0] && Under(path[1..], home[1..])
    ensures Under(path, home)
  {
  }

  lemma OntoPrefix(c: char, s: seq<string>, d: char, t: seq<string>)
    requires s != [] && t != [] && Onto(c, s) <= Onto(d, t)
    ensures c == d && s <= t
  {
    assert Onto(c, s)[0] == Onto(d, t)[0];
    if c == '/' {
      assert s == Onto(c, s)[1..];
    } else {
      assert s[0] == Onto(c, s)[0][1..] && t[0] == Onto(d, t)[0][1..];
      assert s[1..] == Onto(c, s)[1..] && t[1..] == Onto(d, t)[1..];
      assert s == [s[0]] + s[1..] && t == [t[0]] + t[1..];
    }
  }

  lemma OntoEmpty(c: char, s: seq<string>)
    requires s != []
    ensures !(Onto(c, s) <= [""]) && ([""] <= Onto(c, s) ==> c == '/')
  {
    assert c != '/' ==> Onto(c, s)[0] != "";
  }

  lemma {:induction false} PrefixIsUnder(home: string, path: string)
    requires Segments(home) <= Segments(path)
    ensures Under(path, home)
  {
    if home != "" { OntoEmpty(home[0], Segments(home[1..])); }
    if path != "" { OntoEmpty(path[0], Segments(path[1..])); }
    if home != "" && path != "" {
      OntoPrefix(home[0], Segments(home[1..]), path[0], Segments(path[1..]));
      PrefixIsUnder(home[1..], path[1..]);
      UnderStep(path, home);
    }
  }

  lemma RestOf(path: string, home: string) returns (rest: string)
    requires Under(path, home) && path != home
    ensures path == home + "/" + rest && path[|home|..] == "/" + rest
  {
    rest := path[|home| + 1..];
  }

  /** The prefix test is the prefix relation on whole segments. */
  lemma UnderExact(path: string, home: string)
    ensures Under(path, home) <==> Segments(home) <= Segments(path)
  {
    if Segments(home) <= Segments(path) {
      PrefixIsUnder(home, path);
    } else if Under(path, home) && path != home {
      var rest := RestOf(path, home);
      SegmentsJoin(home, rest);
    }
  }

  /** A move replaces the leading segments and keeps the others. */
  lemma MoveSegments(path: string, source: string, target: string) returns (rest: seq<string>)
    requires Moves(path, Some(source), Some(target))
    ensures Segments(path) == Segments(source) + rest
    ensures Segments(Remap(path, Some(source), Some(target))) == Segments(target) + rest
  {
    if path == source {
      rest := [];
      assert Remap(path, Some(source), Some(target)) == target;
    } else {
      var r := RestOf(path, source);
      SegmentsJoin(source, r);
      SegmentsJoin(target, r);
      assert target + path[|source|..] == target + "/" + r;
      rest := Segments(r);
    }
  }

  // ---------------------------------------------------------------- what is moved where

  lemma {:induction false} SegmentsTell(a: string, b: string)
    requires Segments(a) == Segments(b)
    ensures a == b
  {
    if a == "" || b == "" {
      if a != "" { OntoEmpty(a[0], Segments(a[1..])); }
      if b != "" { OntoEmpty(b[0], Segments(b[1..])); }
      if a != "" { OneSlash(a); }
      if b != "" { OneSlash(b); }
    } else {
      OntoPrefix(a[0], Segments(a[1..]), b[0], Segments(b[1..]));
      OntoPrefix(b[0], Segments(b[1..]), a[0], Segments(a[1..]));
      SegmentsTell(a[1..], b[1..]);
    }
  }

  /** Only the empty path has one empty segment. */
  lemma OneSlash(path: string)
    requires path != ""
    ensures Segments(path) != [""]
  {
    OntoEmpty(path[0], Segments(path[1..]));
  }

  /**
   A path under the source's home has the target's segments followed by its remaining ones; any other is as it was.
   Nothing is moved without two different homes.
   */
  predicate Relocated(s: string, t: string, source: Option<string>, target: Option<string>) {
    if source.Some? && target.Some? && source != target && source.value != "" && Segments(source.value) <= Segments(s)
    then Segments(t) == Segments(target.value) + Segments(s)[|Segments(source.value)|..]
    else t == s
  }

  lemma RemapExactly(s: string, t: string, source: Option<string>, target: Option<string>)
    ensures t == Remap(s, source, target) <==> Relocated(s, t, source, target)
  {
    if source.Some? && target.Some? && source != target && source.value != "" {
      UnderExact(s, source.value);
      if Moves(s, source, target) {
        var rest := MoveSegments(s, source.value, target.value);
        assert Segments(s)[|Segments(source.value)|..] == rest;
        if Relocated(s, t, source, target) { SegmentsTell(t, Remap(s, source, target)); }
      }
    }
  }

  /** In a payload the absolute paths are relocated, and nothing else is changed. */
  ghost predicate PathsRelocated(v: Value, w: Value, source: Option<string>, target: Option<string>)
    decreases v
  {
    match v
    case Str(s) => w.Str? && if IsAbsolute(s) then Relocated(s, w.s, source, target) else w.s == s
    case Arr(items) =>
      w.Arr? && |w.items| == |items|
      && forall i :: 0 <= i < |items| ==> PathsRelocated(items[i], w.items[i], source, target)
    case Obj(members) =>
      w.Obj? && |w.members| == |members|
      && forall i :: 0 <= i < |members| ==>
        w.members[i].key == members[i].key && PathsRelocated(members[i].value, w.members[i].value, source, target)
    case _ => w == v
  }

  /** The rewritten payload is the one whose absolute paths are relocated and which is otherwise the same. */
  lemma {:induction false} RewriteExactly(v: Value, w: Value, source: Option<string>, target: Option<string>)
    ensures w == Rewrite(v, source, target) <==> PathsRelocated(v, w, source, target)
    decreases v
  {
    match v
    case Str(s) => if w.Str? { RemapExactly(s, w.s, source, target); }
    case Arr(items) =>
      if w.Arr? && |w.items| == |items| {
        forall i | 0 <= i < |items|
          ensures RewriteItems(v, |items|, source, target)[i] == w.items[i] <==>
                  PathsRelocated(items[i], w.items[i], source, target)
        {
          RewriteItemAt(v, |items|, source, target, i);
          RewriteExactly(items[i], w.items[i], source, target);
        }
      }
    case Obj(members) =>
      if w.Obj? && |w.members| == |members| {
        forall i | 0 <= i < |members|
          ensures RewriteMembers(v, |members|, source, target)[i] == w.members[i] <==>
                  w.members[i].key == members[i].key
                  && PathsRelocated(members[i].value, w.members[i].value, source, target)
        {
          RewriteMemberAt(v, |members|, source, target, i);
          RewriteExactly(members[i].value, w.members[i].value, source, target);
        }
      }
    case _ =>
  }

  // ---------------------------------------------------------------- there and back

  /** A moved path moves back to where it was. */
  lemma MoveBack(path: string, source: string, target: string)
    requires Moves(path, Some(source), Some(target)) && target != ""
    ensures var moved := Remap(path, Some(source), Some(target));
      Moves(moved, Some(target), Some(source)) && Remap(moved, Some(target), Some(source)) == path
  {
    var moved := Remap(path, Some(source), Some(target));
    assert moved[|target|..] == path[|source|..];
    assert source + path[|source|..] == path;
  }

  /**
   A leaf that the two ways do not bring back: one the way there moves to where the way back does not look, which is
   only ever under homes that are no absolute paths, or one that only the way back moves.
   */
  predicate Foreign(s: string, source: string, target: string) {
    && IsAbsolute(s) && source != target
    && if source != "" && Under(s, source) then !IsAbsolute(target) else target != "" && Under(s, target)
  }

  lemma MovedAway(s: string, source: string, target: string)
    requires IsAbsolute(s) && Moves(s, Some(source), Some(target)) && !IsAbsolute(target)
    ensures RewriteText(RewriteText(s, Some(source), Some(target)), Some(target), Some(source)) != s
  {
    var moved := Remap(s, Some(source), Some(target));
    if target == "" {
      assert |moved| < |s|;
    } else {
      assert moved[0] == target[0];
    }
  }

  /** A path that moves becomes another. */
  lemma MovedIsNew(s: string, source: string, target: string)
    requires Moves(s, Some(source), Some(target))
    ensures Remap(s, Some(source), Some(target)) != s
  {
    var rest := s[|source|..];
    assert s == source + rest;
    if target + rest == source + rest { SameFront(target, source, rest); }
  }

  lemma TextBack(s: string, source: string, target: string)
    ensures RewriteText(RewriteText(s, Some(source), Some(target)), Some(target), Some(source)) == s <==>
      !Foreign(s, source, target)
  {
    if IsAbsolute(s) && Moves(s, Some(source), Some(target)) {
      if IsAbsolute(target) { MoveBack(s, source, target); } else { MovedAway(s, source, target); }
    } else if Foreign(s, source, target) {
      MovedIsNew(s, target, source);
    }
  }

  /** Some string in the value, keys aside, is one. */
  ghost predicate HasForeign(v: Value, source: string, target: string)
    decreases v
  {
    match v
    case Str(s) => Foreign(s, source, target)
    case Arr(items) => exists i :: 0 <= i < |items| && HasForeign(items[i], source, target)
    case Obj(members) => exists i :: 0 <= i < |members| && HasForeign(members[i].value, source, target)
    case _ => false
  }

  lemma RewriteItemAt(v: Value, n: nat, source: Option<string>, target: Option<string>, i: nat)
    requires v.Arr? && i < n <= |v.items|
    ensures RewriteItems(v, n, source, target)[i] == Rewrite(v.items[i], source, target)
    decreases n
  {
    if i < n - 1 { RewriteItemAt(v, n - 1, source, target, i); }
  }

  lemma RewriteMemberAt(v: Value, n: nat, source: Option<string>, target: Option<string>, i: nat)
    requires v.Obj? && i < n <= |v.members|
    ensures RewriteMembers(v, n, source, target)[i] ==
      Member(v.members[i].key, Rewrite(v.members[i].value, source, target))
    decreases n
  {
    if i < n - 1 { RewriteMemberAt(v, n - 1, source, target, i); }
  }

  function ThereAndBack(v: Value, source: string, target: string): Value {
    Rewrite(Rewrite(v, Some(source), Some(target)), Some(target), Some(source))
  }

  /**
   Rewriting back restores the whole payload exactly when none of its strings is `Foreign`: for homes that are
   absolute paths, exactly when none was already under the new home without being under the old one.
   */
  lemma {:induction false} RestoreExact(v: Value, source: string, target: string)
    ensures ThereAndBack(v, source, target) == v <==> !HasForeign(v, source, target)
    decreases v
  {
    match v
    case Str(s) => TextBack(s, source, target);
    case Arr(items) => ItemsBack(v, source, target);
    case Obj(members) => MembersBack(v, source, target);
    case _ =>
  }

  lemma {:induction false} ItemsBack(v: Value, source: string, target: string)
    requires v.Arr?
    ensures ThereAndBack(v, source, target) == v <==> !HasForeign(v, source, target)
    decreases v, 0
  {
    var w := Rewrite(v, Some(source), Some(target));
    var x := ThereAndBack(v, source, target);
    forall i | 0 <= i < |v.items|
      ensures x.items[i] == ThereAndBack(v.items[i], source, target)
      ensures x.items[i] == v.items[i] <==> !HasForeign(v.items[i], source, target)
    {
      RewriteItemAt(v, |v.items|, Some(source), Some(target), i);
      RewriteItemAt(w, |v.items|, Some(target), Some(source), i);
      RestoreExact(v.items[i], source, target);
    }
    assert x == v <==> x.items == v.items;
  }

  lemma {:induction false} MembersBack(v: Value, source: string, target: string)
    requires v.Obj?
    ensures ThereAndBack(v, source, target) == v <==> !HasForeign(v, source, target)
    decreases v, 0
  {
    var w := Rewrite(v, Some(source), Some(target));
    var x := ThereAndBack(v, source, target);
    forall i | 0 <= i < |v.members|
      ensures x.members[i] == Member(v.members[i].key, ThereAndBack(v.members[i].value, source, target))
      ensures x.members[i] == v.members[i] <==> !HasForeign(v.members[i].value, source, target)
    {
      RewriteMemberAt(v, |v.members|, Some(source), Some(target), i);
      RewriteMemberAt(w, |v.members|, Some(target), Some(source), i);
      RestoreExact(v.members[i].value, source, target);
    }
    assert x == v <==> x.members == v.members;
  }

  // ---------------------------------------------------------------- what a rewrite keeps

  /** The same value but for the contents of its strings. */
  ghost predicate SameShape(v: Value, w: Value)
    decreases v
  {
    match v
    case Str(_) => w.Str?
    case Arr(items) => w.Arr? && |w.items| == |items| && forall i :: 0 <= i < |items| ==>
      SameShape(items[i], w.items[i])
    case Obj(members) =>
      w.Obj? && |w.members| == |members| && forall i :: 0 <= i < |members| ==>
        w.members[i].key == members[i].key && SameShape(members[i].value, w.members[i].value)
    case _ => w == v
  }

  /** A rewrite keeps the shape; strings outside the old home stay by the definition of `Remap`. */
  lemma {:induction false} RewriteKeepsShape(v: Value, source: Option<string>, target: Option<string>)
    ensures SameShape(v, Rewrite(v, source, target))
    decreases v
  {
    match v
    case Arr(items) =>
      forall i | 0 <= i < |items| ensures SameShape(items[i], Rewrite(v, source, target).items[i]) {
        RewriteItemAt(v, |items|, source, target, i);
        RewriteKeepsShape(items[i], source, target);
      }
    case Obj(members) =>
      forall i | 0 <= i < |members|
        ensures Rewrite(v, source, target).members[i].key == members[i].key
        ensures SameShape(members[i].value, Rewrite(v, source, target).members[i].value)
      {
        RewriteMemberAt(v, |members|, source, target, i);
        RewriteKeepsShape(members[i].value, source, target);
      }
    case _ =>
  }

  lemma TextCounts(s: string, source: Option<string>, target: Option<string>)
    ensures CountText(s, source, target) == 0 <==> RewriteText(s, source, target) == s
  {
    if IsAbsolute(s) && Moves(s, source, target) {
      var rest := s[|source.value|..];
      assert s == source.value + rest;
      if target.value + rest == s { SameFront(target.value, source.value, rest); }
    }
  }

  lemma SameFront(a: string, b: string, rest: string)
    requires a + rest == b + rest
    ensures a == b
  {
    assert a == (a + rest)[..|a|] && b == (b + rest)[..|b|];
  }

  /** All the strings of a value, keys aside. */
  function Texts(v: Value): seq<string>
    decreases v
  {
    match v
    case Str(s) => [s]
    case Arr(items) => ItemTexts(v, |items|)
    case Obj(members) => MemberTexts(v, |members|)
    case _ => []
  }

  function ItemTexts(v: Value, n: nat): seq<string>
    requires v.Arr? && n <= |v.items|
    decreases v, n
  {
    if n == 0 then [] else ItemTexts(v, n - 1) + Texts(v.items[n - 1])
  }

  function MemberTexts(v: Value, n: nat): seq<string>
    requires v.Obj? && n <= |v.members|
    decreases v, n
  {
    if n == 0 then [] else MemberTexts(v, n - 1) + Texts(v.members[n - 1].value)
  }

  /** How many of the strings are absolute paths under the source's home, if there is another to move to. */
  function UnderHome(texts: seq<string>, source: Option<string>, target: Option<string>): nat {
    if texts == [] then 0
    else
      var s := texts[|texts| - 1];
      var moves := source.Some? && target.Some? && source != target && source.value != "" && IsAbsolute(s)
        && Segments(source.value) <= Segments(s);
      UnderHome(texts[..|texts| - 1], source, target) + (if moves then 1 else 0)
  }

  lemma {:induction false} UnderHomeAppend(a: seq<string>, b: seq<string>, source: Option<string>,
      target: Option<string>)
    ensures UnderHome(a + b, source, target) == UnderHome(a, source, target) + UnderHome(b, source, target)
  {
    if b == [] {
      assert a + b == a;
    } else {
      assert (a + b)[..|a + b| - 1] == a + b[..|b| - 1];
      UnderHomeAppend(a, b[..|b| - 1], source, target);
    }
  }

  /** The counter is the number of absolute paths under the source's home. */
  lemma {:induction false} CountsExactly(v: Value, source: Option<string>, target: Option<string>)
    ensures Count(v, source, target) == UnderHome(Texts(v), source, target)
    decreases v
  {
    match v
    case Str(s) =>
      assert [s][..0] == [];
      if source.Some? { UnderExact(s, source.value); }
    case Arr(items) => ItemsCountExactly(v, |items|, source, target);
    case Obj(members) => MembersCountExactly(v, |members|, source, target);
    case _ =>
  }

  lemma {:induction false} ItemsCountExactly(v: Value, n: nat, source: Option<string>, target: Option<string>)
    requires v.Arr? && n <= |v.items|
    ensures CountItems(v, n, source, target) == UnderHome(ItemTexts(v, n), source, target)
    decreases v, n
  {
    if n > 0 {
      ItemsCountExactly(v, n - 1, source, target);
      CountsExactly(v.items[n - 1], source, target);
      UnderHomeAppend(ItemTexts(v, n - 1), Texts(v.items[n - 1]), source, target);
    }
  }

  lemma {:induction false} MembersCountExactly(v: Value, n: nat, source: Option<string>, target: Option<string>)
    requires v.Obj? && n <= |v.members|
    ensures CountMembers(v, n, source, target) == UnderHome(MemberTexts(v, n), source, target)
    decreases v, n
  {
    if n > 0 {
      MembersCountExactly(v, n - 1, source, target);
      CountsExactly(v.members[n - 1].value, source, target);
      UnderHomeAppend(MemberTexts(v, n - 1), Texts(v.members[n - 1].value), source, target);
    }
  }

  /** The counter is zero exactly when nothing changed. */
  lemma {:induction false} CountsChanges(v: Value, source: Option<string>, target: Option<string>)
    ensures Count(v, source, target) == 0 <==> Rewrite(v, source, target) == v
    decreases v
  {
    match v
    case Str(s) => TextCounts(s, source, target);
    case Arr(items) => ItemsCount(v, |items|, source, target); assert items[..|items|] == items;
    case Obj(members) => MembersCount(v, |members|, source, target); assert members[..|members|] == members;
    case _ =>
  }

  lemma {:induction false} ItemsCount(v: Value, n: nat, source: Option<string>, target: Option<string>)
    requires v.Arr? && n <= |v.items|
    ensures CountItems(v, n, source, target) == 0 <==> RewriteItems(v, n, source, target) == v.items[..n]
    decreases v, n
  {
    if n > 0 {
      ItemsCount(v, n - 1, source, target);
      CountsChanges(v.items[n - 1], source, target);
      assert v.items[..n] == v.items[..n - 1] + [v.items[n - 1]];
      SnocEqual(RewriteItems(v, n - 1, source, target), Rewrite(v.items[n - 1], source, target), v.items[..n - 1],
        v.items[n - 1]);
    }
  }

  lemma {:induction false} MembersSnoc(v: Value, n: nat, source: Option<string>, target: Option<string>)
    requires v.Obj? && n < |v.members|
    ensures RewriteMembers(v, n + 1, source, target) == v.members[..n + 1] <==>
      RewriteMembers(v, n, source, target) == v.members[..n]
      && Rewrite(v.members[n].value, source, target) == v.members[n].value
  {
    var m := v.members[n];
    var moved := Member(m.key, Rewrite(m.value, source, target));
    assert v.members[..n + 1] == v.members[..n] + [m];
    SnocEqual(RewriteMembers(v, n, source, target), moved, v.members[..n], m);
  }

  lemma {:induction false} MembersCount(v: Value, n: nat, source: Option<string>, target: Option<string>)
    requires v.Obj? && n <= |v.members|
    ensures CountMembers(v, n, source, target) == 0 <==> RewriteMembers(v, n, source, target) == v.members[..n]
    decreases v, n
  {
    if n > 0 {
      MembersCount(v, n - 1, source, target);
      CountsChanges(v.members[n - 1].value, source, target);
      MembersSnoc(v, n - 1, source, target);
    }
  }

  lemma SnocEqual<T>(a: seq<T>, x: T, b: seq<T>, y: T)
    requires |a| == |b|
    ensures a + [x] == b + [y] <==> a == b && x == y
  {
    assert (a + [x])[|a|] == x && (b + [y])[|b|] == y;
    assert (a + [x])[..|a|] == a && (b + [y])[..|b|] == b;
  }

  // ---------------------------------------------------------------- the preview's numbers

  /** The target that the preview counts against. */
  const PROBE: string := ['\0'] + "probe"

  ghost predicate CountsAlike(source: Option<string>, a: Option<string>, b: Option<string>) {
    forall s :: CountText(s, source, a) == CountText(s, source, b)
  }

  lemma {:induction false} CountAlike(v: Value, source: Option<string>, a: Option<string>, b: Option<string>)
    requires CountsAlike(source, a, b)
    ensures Count(v, source, a) == Count(v, source, b)
    decreases v
  {
    match v
    case Arr(items) => ItemsAlike(v, |items|, source, a, b);
    case Obj(members) => MembersAlike(v, |members|, source, a, b);
    case _ =>
  }

  lemma {:induction false} ItemsAlike(v: Value, n: nat, source: Option<string>, a: Option<string>, b: Option<string>)
    requires CountsAlike(source, a, b) && v.Arr? && n <= |v.items|
    ensures CountItems(v, n, source, a) == CountItems(v, n, source, b)
    decreases v, n
  {
    if n > 0 {
      ItemsAlike(v, n - 1, source, a, b);
      CountAlike(v.items[n - 1], source, a, b);
    }
  }

  lemma {:induction false} MembersAlike(v: Value, n: nat, source: Option<string>, a: Option<string>, b: Option<string>)
    requires CountsAlike(source, a, b) && v.Obj? && n <= |v.members|
    ensures CountMembers(v, n, source, a) == CountMembers(v, n, source, b)
    decreases v, n
  {
    if n > 0 {
      MembersAlike(v, n - 1, source, a, b);
      CountAlike(v.members[n - 1].value, source, a, b);
    }
  }

  lemma {:induction false} NothingCounts(v: Value, source: Option<string>, target: Option<string>)
    requires source.None? || target.None? || source == target
    ensures Count(v, source, target) == 0
  {
    CountAlike(v, source, target, source);
    NoMove(v, source);
  }

  lemma {:induction false} NoMove(v: Value, home: Option<string>)
    ensures Count(v, home, home) == 0
    decreases v
  {
    match v
    case Arr(items) => NoMoveItems(v, |items|, home);
    case Obj(members) => NoMoveMembers(v, |members|, home);
    case _ =>
  }

  lemma {:induction false} NoMoveItems(v: Value, n: nat, home: Option<string>)
    requires v.Arr? && n <= |v.items|
    ensures CountItems(v, n, home, home) == 0
    decreases v, n
  {
    if n > 0 {
      NoMoveItems(v, n - 1, home);
      NoMove(v.items[n - 1], home);
    }
  }

  lemma {:induction false} NoMoveMembers(v: Value, n: nat, home: Option<string>)
    requires v.Obj? && n <= |v.members|
    ensures CountMembers(v, n, home, home) == 0
    decreases v, n
  {
    if n > 0 {
      NoMoveMembers(v, n - 1, home);
      NoMove(v.members[n - 1].value, home);
    }
  }

  /**
   The number of paths the preview shows for a payload is the number a rewrite performs exactly when there is
   a target other than the source, or nothing to move.
   */
  lemma PreviewExact(v: Value, source: Option<string>, target: Option<string>)
    ensures Count(v, source, Some(PROBE)) == Count(v, source, target) <==>
      (target.Some? && target != source) || Count(v, source, Some(PROBE)) == 0
  {
    if source.None? {
      NothingCounts(v, source, target);
      NothingCounts(v, source, Some(PROBE));
    } else if target.None? || target == source {
      NothingCounts(v, source, target);
    } else if source == Some(PROBE) {
      assert !IsAbsolute(PROBE);
      CountAlike(v, source, Some(PROBE), target);
    } else {
      CountAlike(v, source, Some(PROBE), target);
    }
  }
}
