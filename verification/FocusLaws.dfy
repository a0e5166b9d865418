/** What focus mode's decisions promise. */
module FocusLaws {
  import opened Common
  import opened Json
  import opened Focus

  /** Some item of the list has this identity. */
  ghost predicate Holds(kind: string, items: seq<Value>, id: string) {
    exists item :: item in items && IdentityOf(kind, item) == Some(id)
  }

  lemma HoldsMore(kind: string, items: seq<Value>, id: string)
    requires items != []
    ensures Holds(kind, items, id) <==> IdentityOf(kind, items[0]) == Some(id) || Holds(kind, items[1..], id)
  {
    assert items == [items[0]] + items[1..];
  }

  lemma {:induction false} IdsExact(kind: string, items: seq<Value>, id: string)
    ensures id in Ids(kind, items) <==> Holds(kind, items, id)
  {
    if items != [] {
      HoldsMore(kind, items, id);
      IdsExact(kind, items[1..], id);
    }
  }

  lemma {:induction false} IdsAppend(kind: string, a: seq<Value>, b: seq<Value>)
    ensures Ids(kind, a + b) == Ids(kind, a) + Ids(kind, b)
  {
    if a == [] {
      assert a + b == b;
    } else {
      assert (a + b)[1..] == a[1..] + b;
      IdsAppend(kind, a[1..], b);
    }
  }

  // ---------------------------------------------------------------- identities

  lemma FirstNul(name: string, cwd: string)
    requires '\0' !in name
    ensures |TerminalIdentity(name, cwd)| == |name| + 1 + |cwd| && TerminalIdentity(name, cwd)[|name|] == '\0'
    ensures forall k :: 0 <= k < |name| ==> TerminalIdentity(name, cwd)[k] != '\0'
    ensures TerminalIdentity(name, cwd)[..|name|] == name && TerminalIdentity(name, cwd)[|name| + 1..] == cwd
  {
  }

  /** Two terminals are the same item exactly when name and directory are, as long as no NUL is in the names. */
  lemma TerminalIdentityTells(name: string, cwd: string, name': string, cwd': string)
    requires '\0' !in name && '\0' !in name'
    ensures TerminalIdentity(name, cwd) == TerminalIdentity(name', cwd') <==> name == name' && cwd == cwd'
  {
    FirstNul(name, cwd);
    FirstNul(name', cwd');
  }

  /** Another terminal with the same identity, if some field holds a NUL: the separator is read one NUL off. */
  lemma Confused(name: string, cwd: string) returns (name': string, cwd': string)
    requires '\0' in name || '\0' in cwd
    ensures TerminalIdentity(name', cwd') == TerminalIdentity(name, cwd) && (name', cwd') != (name, cwd)
  {
    if '\0' in name {
      var k :| 0 <= k < |name| && name[k] == '\0';
      name', cwd' := name[..k], name[k + 1..] + ['\0'] + cwd;
      assert name == name' + ['\0'] + name[k + 1..];
    } else {
      var k :| 0 <= k < |cwd| && cwd[k] == '\0';
      name', cwd' := name + ['\0'] + cwd[..k], cwd[k + 1..];
      assert cwd == cwd[..k] + ['\0'] + cwd';
    }
  }

  lemma Unconfused(name: string, cwd: string, name': string, cwd': string)
    requires '\0' !in name && '\0' !in cwd && TerminalIdentity(name', cwd') == TerminalIdentity(name, cwd)
    ensures name' == name && cwd' == cwd
  {
    var id := TerminalIdentity(name, cwd);
    assert id[|name'|] == '\0' && id[..|name'|] == name' && id[|name'| + 1..] == cwd';
    assert forall k :: 0 <= k < |id| && k != |name| ==> id[k] == (if k < |name| then name[k] else cwd[k - |name| - 1]);
    FirstNul(name, cwd);
  }

  /** The identity of a terminal is its own exactly when neither its name nor its directory holds a NUL. */
  lemma TerminalIdentityExact(name: string, cwd: string)
    ensures (forall n, c :: TerminalIdentity(n, c) == TerminalIdentity(name, cwd) ==> n == name && c == cwd) <==>
            '\0' !in name && '\0' !in cwd
  {
    if '\0' in name || '\0' in cwd {
      var n, c := Confused(name, cwd);
    } else {
      forall n, c | TerminalIdentity(n, c) == TerminalIdentity(name, cwd) ensures n == name && c == cwd {
        Unconfused(name, cwd, n, c);
      }
    }
  }

  /** Two terminals that a NUL confuses. */
  lemma NulConfuses()
    ensures TerminalIdentity("a", ['b', '\0', 'c']) == TerminalIdentity(['a', '\0', 'b'], "c")
  {
    assert "a" + ['\0'] + ['b', '\0', 'c'] == ['a', '\0', 'b'] + ['\0'] + "c";
  }

  // ---------------------------------------------------------------- merging pins

  // A stored pin carries an identity and a payload, and the merge looks at the identity to see what is missing, but
  // adds the payload. Nothing here takes for granted that the one is the identity of the other.

  /** The stored identity of the pin was neither captured nor that of an earlier pin for the list: it is added. */
  ghost predicate Added(kind: string, pins: seq<Pin>, terminals: bool, seen: set<string>, i: nat) {
    && i < |pins| && Belongs(kind, pins[i], terminals) && pins[i].identity !in seen
    && forall j :: 0 <= j < i && Belongs(kind, pins[j], terminals) ==> pins[j].identity != pins[i].identity
  }

  /** What is seen once the first pin has been looked at. */
  function SeenNext(kind: string, p: Pin, terminals: bool, seen: set<string>): set<string> {
    if Belongs(kind, p, terminals) then seen + {p.identity} else seen
  }

  lemma AddedNext(kind: string, pins: seq<Pin>, terminals: bool, seen: set<string>, i: nat)
    requires i < |pins| - 1
    ensures Added(kind, pins, terminals, seen, i + 1) <==>
            Added(kind, pins[1..], terminals, SeenNext(kind, pins[0], terminals, seen), i)
  {
  }

  lemma MissingNext(kind: string, pins: seq<Pin>, terminals: bool, seen: set<string>)
    requires pins != []
    ensures Missing(kind, pins, terminals, seen) ==
            (if Added(kind, pins, terminals, seen, 0) then [pins[0].payload] else [])
            + Missing(kind, pins[1..], terminals, SeenNext(kind, pins[0], terminals, seen))
  {
    if pins[0].identity in seen { assert seen + {pins[0].identity} == seen; }
  }

  /** A pin that is added opens something with this identity. */
  ghost predicate Brings(kind: string, pins: seq<Pin>, terminals: bool, seen: set<string>, id: string) {
    exists i: nat :: Added(kind, pins, terminals, seen, i) && IdentityOf(kind, pins[i].payload) == Some(id)
  }

  lemma BringsNext(kind: string, pins: seq<Pin>, terminals: bool, seen: set<string>, id: string)
    requires pins != []
    ensures Brings(kind, pins, terminals, seen, id) <==>
            || (Added(kind, pins, terminals, seen, 0) && IdentityOf(kind, pins[0].payload) == Some(id))
            || Brings(kind, pins[1..], terminals, SeenNext(kind, pins[0], terminals, seen), id)
  {
    var rest, next := pins[1..], SeenNext(kind, pins[0], terminals, seen);
    if Brings(kind, rest, terminals, next, id) {
      var i: nat :| Added(kind, rest, terminals, next, i) && IdentityOf(kind, rest[i].payload) == Some(id);
      AddedNext(kind, pins, terminals, seen, i);
      assert rest[i] == pins[i + 1];
    }
    if Brings(kind, pins, terminals, seen, id) {
      var i: nat :| Added(kind, pins, terminals, seen, i) && IdentityOf(kind, pins[i].payload) == Some(id);
      if i > 0 {
        AddedNext(kind, pins, terminals, seen, i - 1);
        assert rest[i - 1] == pins[i];
      }
    }
  }

  lemma {:induction false} MissingIds(kind: string, pins: seq<Pin>, terminals: bool, seen: set<string>, id: string)
    ensures id in Ids(kind, Missing(kind, pins, terminals, seen)) <==> Brings(kind, pins, terminals, seen, id)
  {
    if pins != [] {
      var next := SeenNext(kind, pins[0], terminals, seen);
      MissingNext(kind, pins, terminals, seen);
      BringsNext(kind, pins, terminals, seen, id);
      MissingIds(kind, pins[1..], terminals, next, id);
      IdsAppend(kind, if Added(kind, pins, terminals, seen, 0) then [pins[0].payload] else [],
        Missing(kind, pins[1..], terminals, next));
    }
  }

  /** The merged list holds the captured identities and those of what the added pins open, and no others. */
  lemma MergedIds(kind: string, items: seq<Value>, pins: seq<Pin>, terminals: bool, id: string)
    ensures id in Ids(kind, MergedItems(kind, items, pins, terminals)) <==>
            id in Ids(kind, items) || Brings(kind, pins, terminals, Ids(kind, items), id)
  {
    IdsAppend(kind, items, Missing(kind, pins, terminals, Ids(kind, items)));
    MissingIds(kind, pins, terminals, Ids(kind, items), id);
  }

  /** Where the merged payload keeps a list, and that the merge touches nothing else. */
  lemma MergedList(list: List, captured: Value, pins: seq<Pin>)
    requires captured.Obj?
    ensures Items(Merged(KindOf(list), captured, pins), Field(list)) ==
      MergedItems(KindOf(list), Items(captured, Field(list)), pins, list == Terminals)
  {
    var kind := KindOf(list);
    var field := MainField(kind);
    var main := Arr(MergedItems(kind, Items(captured, field), pins, false));
    FindPut(captured.members, field, main, Field(list));
    if kind == "vscode" {
      var out := With(captured, field, main);
      FindPut(out.members, "terminals", Arr(MergedItems(kind, Items(captured, "terminals"), pins, true)), Field(list));
    }
  }

  lemma MergeKeepsTheRest(kind: string, captured: Value, pins: seq<Pin>, key: string)
    requires key !in {"tabs", "openFiles", "terminals"}
    ensures Get(Merged(kind, captured, pins), key) == Get(captured, key)
  {
    if (kind == "chrome" || kind == "vscode") && captured.Obj? {
      var field := MainField(kind);
      var main := Arr(MergedItems(kind, Items(captured, field), pins, false));
      FindPut(captured.members, field, main, key);
      if kind == "vscode" {
        FindPut(With(captured, field, main).members, "terminals",
          Arr(MergedItems(kind, Items(captured, "terminals"), pins, true)), key);
      }
    }
  }

  lemma {:induction false} NothingMissing(kind: string, pins: seq<Pin>, terminals: bool, seen: set<string>)
    ensures Missing(kind, pins, terminals, seen) == [] <==>
            forall p :: p in pins && Belongs(kind, p, terminals) ==> p.identity in seen
  {
    if pins != [] {
      assert pins == [pins[0]] + pins[1..];
      NothingMissing(kind, pins[1..], terminals, seen);
    }
  }

  /** Merging a list a second time adds nothing, exactly if the first time kept the stored identity of every pin. */
  lemma MergeListTwice(kind: string, items: seq<Value>, pins: seq<Pin>, terminals: bool)
    ensures var once := MergedItems(kind, items, pins, terminals);
      MergedItems(kind, once, pins, terminals) == once <==>
      forall p :: p in pins && Belongs(kind, p, terminals) ==> p.identity in Ids(kind, once)
  {
    var once := MergedItems(kind, items, pins, terminals);
    NothingMissing(kind, pins, terminals, Ids(kind, once));
    assert |MergedItems(kind, once, pins, terminals)| == |once| + |Missing(kind, pins, terminals, Ids(kind, once))|;
  }

  /** No identity occurs twice. */
  ghost predicate Distinct(kind: string, items: seq<Value>) {
    forall i, j :: 0 <= i < j < |items| && IdentityOf(kind, items[i]).Some? ==>
      IdentityOf(kind, items[i]) != IdentityOf(kind, items[j])
  }

  lemma DistinctAppend(kind: string, items: seq<Value>, item: Value)
    requires Distinct(kind, items)
    ensures Distinct(kind, items + [item]) <==>
            (IdentityOf(kind, item).Some? ==> IdentityOf(kind, item).value !in Ids(kind, items))
  {
    var more := items + [item];
    if IdentityOf(kind, item).Some? {
      var id := IdentityOf(kind, item).value;
      IdsExact(kind, items, id);
      if id in Ids(kind, items) {
        var i :| 0 <= i < |items| && IdentityOf(kind, items[i]) == Some(id);
        assert more[i] == items[i] && more[|items|] == item;
      } else {
        assert forall i :: 0 <= i < |items| ==> items[i] in items;
      }
    }
  }

  lemma DistinctFront(kind: string, items: seq<Value>, more: seq<Value>)
    requires Distinct(kind, items + more)
    ensures Distinct(kind, items)
  {
    assert forall i :: 0 <= i < |items| ==> (items + more)[i] == items[i];
  }

  /** What the added pins open is new to some items, and different from pin to pin. */
  ghost predicate Apart(kind: string, items: seq<Value>, pins: seq<Pin>, terminals: bool, seen: set<string>) {
    forall i: nat :: Added(kind, pins, terminals, seen, i) && IdentityOf(kind, pins[i].payload).Some? ==>
      && IdentityOf(kind, pins[i].payload).value !in Ids(kind, items)
      && forall j: nat :: j < i && Added(kind, pins, terminals, seen, j) ==>
        IdentityOf(kind, pins[j].payload) != IdentityOf(kind, pins[i].payload)
  }

  lemma IdsSnoc(kind: string, items: seq<Value>, item: Value)
    ensures Ids(kind, items + [item]) ==
            Ids(kind, items) + (if IdentityOf(kind, item).Some? then {IdentityOf(kind, item).value} else {})
  {
    IdsAppend(kind, items, [item]);
    assert [item][1..] == [];
  }

  lemma ApartRest(kind: string, items: seq<Value>, pins: seq<Pin>, terminals: bool, seen: set<string>)
    requires pins != [] && Apart(kind, items, pins, terminals, seen)
    ensures var more := if Added(kind, pins, terminals, seen, 0) then items + [pins[0].payload] else items;
      Apart(kind, more, pins[1..], terminals, SeenNext(kind, pins[0], terminals, seen))
  {
    var rest, next := pins[1..], SeenNext(kind, pins[0], terminals, seen);
    var more := if Added(kind, pins, terminals, seen, 0) then items + [pins[0].payload] else items;
    IdsSnoc(kind, items, pins[0].payload);
    forall i: nat | Added(kind, rest, terminals, next, i) && IdentityOf(kind, rest[i].payload).Some?
      ensures IdentityOf(kind, rest[i].payload).value !in Ids(kind, more)
      ensures forall j: nat :: j < i && Added(kind, rest, terminals, next, j) ==>
        IdentityOf(kind, rest[j].payload) != IdentityOf(kind, rest[i].payload)
    {
      AddedNext(kind, pins, terminals, seen, i);
      assert rest[i] == pins[i + 1];
      forall j: nat | j < i && Added(kind, rest, terminals, next, j)
        ensures IdentityOf(kind, rest[j].payload) != IdentityOf(kind, rest[i].payload)
      {
        AddedNext(kind, pins, terminals, seen, j);
        assert rest[j] == pins[j + 1];
      }
    }
  }

  lemma ApartWhole(kind: string, items: seq<Value>, pins: seq<Pin>, terminals: bool, seen: set<string>)
    requires pins != []
    requires Added(kind, pins, terminals, seen, 0) && IdentityOf(kind, pins[0].payload).Some? ==>
      IdentityOf(kind, pins[0].payload).value !in Ids(kind, items)
    requires var more := if Added(kind, pins, terminals, seen, 0) then items + [pins[0].payload] else items;
      Apart(kind, more, pins[1..], terminals, SeenNext(kind, pins[0], terminals, seen))
    ensures Apart(kind, items, pins, terminals, seen)
  {
    var rest, next := pins[1..], SeenNext(kind, pins[0], terminals, seen);
    IdsSnoc(kind, items, pins[0].payload);
    forall i: nat | Added(kind, pins, terminals, seen, i) && IdentityOf(kind, pins[i].payload).Some?
      ensures IdentityOf(kind, pins[i].payload).value !in Ids(kind, items)
      ensures forall j: nat :: j < i && Added(kind, pins, terminals, seen, j) ==>
        IdentityOf(kind, pins[j].payload) != IdentityOf(kind, pins[i].payload)
    {
      if i > 0 {
        AddedNext(kind, pins, terminals, seen, i - 1);
        assert rest[i - 1] == pins[i];
        forall j: nat | j < i && Added(kind, pins, terminals, seen, j)
          ensures IdentityOf(kind, pins[j].payload) != IdentityOf(kind, pins[i].payload)
        {
          if j > 0 {
            AddedNext(kind, pins, terminals, seen, j - 1);
            assert rest[j - 1] == pins[j];
          }
        }
      }
    }
  }

  lemma ApartNext(kind: string, items: seq<Value>, pins: seq<Pin>, terminals: bool, seen: set<string>)
    requires pins != []
    ensures Apart(kind, items, pins, terminals, seen) <==>
      var next := SeenNext(kind, pins[0], terminals, seen);
      if Added(kind, pins, terminals, seen, 0)
      then && (IdentityOf(kind, pins[0].payload).Some? ==> IdentityOf(kind, pins[0].payload).value !in Ids(kind, items))
           && Apart(kind, items + [pins[0].payload], pins[1..], terminals, next)
      else Apart(kind, items, pins[1..], terminals, next)
  {
    var next := SeenNext(kind, pins[0], terminals, seen);
    var added := Added(kind, pins, terminals, seen, 0);
    var more := if added then items + [pins[0].payload] else items;
    if Apart(kind, items, pins, terminals, seen) {
      ApartRest(kind, items, pins, terminals, seen);
    } else if Apart(kind, more, pins[1..], terminals, next)
      && (added && IdentityOf(kind, pins[0].payload).Some? ==>
        IdentityOf(kind, pins[0].payload).value !in Ids(kind, items))
    {
      ApartWhole(kind, items, pins, terminals, seen);
    }
  }

  lemma {:induction false} MissingDistinct(
      kind: string, items: seq<Value>, pins: seq<Pin>, terminals: bool, seen: set<string>)
    requires Distinct(kind, items)
    ensures Distinct(kind, items + Missing(kind, pins, terminals, seen)) <==> Apart(kind, items, pins, terminals, seen)
    decreases |pins|
  {
    if pins == [] {
      assert items + [] == items;
    } else {
      var rest, next := pins[1..], SeenNext(kind, pins[0], terminals, seen);
      var missing := Missing(kind, rest, terminals, next);
      MissingNext(kind, pins, terminals, seen);
      ApartNext(kind, items, pins, terminals, seen);
      if Added(kind, pins, terminals, seen, 0) {
        var more := items + [pins[0].payload];
        Associate(items, [pins[0].payload], missing);
        DistinctAppend(kind, items, pins[0].payload);
        if Distinct(kind, more) {
          MissingDistinct(kind, more, rest, terminals, next);
        } else if Distinct(kind, more + missing) {
          DistinctFront(kind, more, missing);
        }
      } else {
        assert [] + missing == missing;
        MissingDistinct(kind, items, rest, terminals, next);
      }
    }
  }

  /**
   A merge keeps a list without repetitions one exactly if what the added pins open is new to the list and different
   from pin to pin.
   */
  lemma MergeKeepsDistinct(kind: string, items: seq<Value>, pins: seq<Pin>, terminals: bool)
    requires Distinct(kind, items)
    ensures Distinct(kind, MergedItems(kind, items, pins, terminals)) <==>
            Apart(kind, items, pins, terminals, Ids(kind, items))
  {
    MissingDistinct(kind, items, pins, terminals, Ids(kind, items));
  }

  /** Which pins a list takes: pages, and of the editor's pins those of terminals and those of files. */
  lemma BelongsExactly(list: List, p: Pin)
    ensures Belongs(KindOf(list), p, list == Terminals) <==>
      match list
      case Tabs => p.kind == "chrome"
      case Files => p.kind == "vscode" && Get(p.payload, "name").None?
      case Terminals => p.kind == "vscode" && Get(p.payload, "name").Some?
  {
    assert "vscode"[0] != "chrome"[0];
  }

  // ---------------------------------------------------------------- targets

  ghost predicate Targeted(list: List, items: seq<Value>, keep: set<string>, dirty: set<string>, t: Target) {
    exists item :: item in items && Unwanted(list, item, keep, dirty) && t == TargetOf(list, item)
  }

  lemma {:induction false} TargetsExact(list: List, items: seq<Value>, keep: set<string>, dirty: set<string>, t: Target)
    ensures t in Targets(list, items, keep, dirty) <==> Targeted(list, items, keep, dirty, t)
  {
    if items != [] {
      assert items == [items[0]] + items[1..];
      TargetsExact(list, items[1..], keep, dirty, t);
    }
  }

  /**
   Exactly what is closed in one list: nothing if the capsule captured nothing for it, and otherwise the
   live items that can be identified, are not wanted, and are not dirty or busy.
   */
  lemma ListTargetsExact(list: List, wanted: Value, live: Value, t: Target)
    ensures t in ListTargets(list, wanted, live) <==>
      Items(wanted, Field(list)) != [] && exists item ::
        && item in Items(live, Field(list))
        && Unwanted(list, item, Ids(KindOf(list), Items(wanted, Field(list))), Strings(Items(live, "dirtyFiles")))
        && t == TargetOf(list, item)
  {
    TargetsExact(list, Items(live, Field(list)), Ids(KindOf(list), Items(wanted, Field(list))),
      Strings(Items(live, "dirtyFiles")), t);
  }

  /** What the list is called in a payload. */
  function Called(list: List): string {
    match list case Tabs => "tabs" case Files => "openFiles" case Terminals => "terminals"
  }

  /** The directory an item names; if it names none, that is "". */
  ghost predicate InDirectory(item: Value, cwd: string) {
    if exists c :: Get(item, "cwd") == Some(Str(c)) then Get(item, "cwd") == Some(Str(cwd)) else cwd == ""
  }

  /** Page, file or terminal: what makes two items the same. */
  ghost predicate Identifies(list: List, item: Value, id: string) {
    if list == Tabs then Get(item, "url") == Some(Str(id))
    else item == Str(id) || exists name, cwd ::
      Get(item, "name") == Some(Str(name)) && InDirectory(item, cwd) && id == name + ['\0'] + cwd
  }

  lemma DirectoryExactly(item: Value, cwd: string)
    ensures InDirectory(item, cwd) <==> cwd == Cwd(item)
  {
    var c := Get(item, "cwd");
    if c.Some? && c.value.Str? { assert c == Some(Str(c.value.s)); }
  }

  lemma IdentifiesExactly(list: List, item: Value, id: string)
    ensures IdentityOf(KindOf(list), item) == Some(id) <==> Identifies(list, item, id)
  {
    if list != Tabs && Text(Get(item, "name")).Some? {
      var name, cwd := Text(Get(item, "name")).value, Cwd(item);
      DirectoryExactly(item, cwd);
      assert Get(item, "name") == Some(Str(name)) && IdentityOf(KindOf(list), item) == Some(name + ['\0'] + cwd);
      forall c | InDirectory(item, c) ensures c == cwd { DirectoryExactly(item, c); }
    }
  }

  /** The command that closes an item, with its arguments, and the name it is reported under. */
  ghost predicate Asks(list: List, item: Value, id: string, t: Target) {
    match list
    case Tabs => t == Target("tabs.close", Obj([Member("url", Str(id))]), id)
    case Files => t == Target("editor.closeFile", Obj([Member("path", Str(id))]), id)
    case Terminals => exists name, cwd ::
      && t == Target("terminal.dispose", Obj([Member("name", Str(name)), Member("cwd", cwd)]), name)
      && Get(item, "name") == (if item.Str? then None else Some(Str(name))) && (item.Str? ==> name == "")
      && cwd == match Get(item, "cwd") case None => Null case Some(c) => c
  }

  /** The item is to go: nothing the task wants is the same, it is not unsaved, and it is no busy terminal. */
  ghost predicate ToGo(list: List, item: Value, id: string, wanted: Value, live: Value) {
    && Identifies(list, item, id)
    && (forall w :: w in Items(wanted, Called(list)) ==> !Identifies(list, w, id))
    && (list == Files ==> Str(id) !in Items(live, "dirtyFiles"))
    && (list == Terminals ==> Get(item, "busy") != Some(Bool(true)))
  }

  lemma {:induction false} StringsExact(items: seq<Value>, s: string)
    ensures s in Strings(items) <==> Str(s) in items
  {
    if items != [] {
      assert items == [items[0]] + items[1..];
      StringsExact(items[1..], s);
    }
  }

  lemma AsksExactly(list: List, item: Value, id: string, t: Target)
    requires Identifies(list, item, id)
    ensures IdentityOf(KindOf(list), item).Some? && (t == TargetOf(list, item) <==> Asks(list, item, id, t))
  {
    IdentifiesExactly(list, item, id);
  }

  lemma ToGoExactly(list: List, item: Value, id: string, wanted: Value, live: Value)
    requires IdentityOf(KindOf(list), item) == Some(id)
    ensures ToGo(list, item, id, wanted, live) <==>
      Unwanted(list, item, Ids(KindOf(list), Items(wanted, Field(list))), Strings(Items(live, "dirtyFiles")))
  {
    var kept := Items(wanted, Field(list));
    IdentifiesExactly(list, item, id);
    IdsExact(KindOf(list), kept, id);
    StringsExact(Items(live, "dirtyFiles"), id);
    forall w | w in kept ensures IdentityOf(KindOf(list), w) == Some(id) <==> Identifies(list, w, id) {
      IdentifiesExactly(list, w, id);
    }
  }

  lemma TargetGoes(list: List, wanted: Value, live: Value, t: Target) returns (item: Value, id: string)
    requires t in ListTargets(list, wanted, live)
    ensures item in Items(live, Called(list)) && ToGo(list, item, id, wanted, live) && Asks(list, item, id, t)
  {
    ListTargetsExact(list, wanted, live, t);
    item :| item in Items(live, Field(list))
      && Unwanted(list, item, Ids(KindOf(list), Items(wanted, Field(list))), Strings(Items(live, "dirtyFiles")))
      && t == TargetOf(list, item);
    id := IdentityOf(KindOf(list), item).value;
    IdentifiesExactly(list, item, id);
    ToGoExactly(list, item, id, wanted, live);
    AsksExactly(list, item, id, t);
  }

  lemma GoingIsTarget(list: List, wanted: Value, live: Value, t: Target, item: Value, id: string)
    requires Items(wanted, Called(list)) != [] && item in Items(live, Called(list))
    requires ToGo(list, item, id, wanted, live) && Asks(list, item, id, t)
    ensures t in ListTargets(list, wanted, live)
  {
    IdentifiesExactly(list, item, id);
    ToGoExactly(list, item, id, wanted, live);
    AsksExactly(list, item, id, t);
    ListTargetsExact(list, wanted, live, t);
  }

  /** Exactly which commands are sent for one list, in the terms of the payloads alone. */
  lemma TargetedExactly(list: List, wanted: Value, live: Value, t: Target)
    ensures t in ListTargets(list, wanted, live) <==>
      Items(wanted, Called(list)) != [] && exists item, id ::
        item in Items(live, Called(list)) && ToGo(list, item, id, wanted, live) && Asks(list, item, id, t)
  {
    if t in ListTargets(list, wanted, live) {
      var item, id := TargetGoes(list, wanted, live, t);
    } else if Items(wanted, Called(list)) != [] {
      forall item, id | item in Items(live, Called(list)) && ToGo(list, item, id, wanted, live)
        ensures !Asks(list, item, id, t)
      {
        if Asks(list, item, id, t) { GoingIsTarget(list, wanted, live, t, item, id); }
      }
    }
  }

  /** A captured list that is empty even with the pins is never touched. */
  lemma EmptyCaptureClosesNothing(list: List, wanted: Value, live: Value)
    requires Items(wanted, Field(list)) == []
    ensures ListTargets(list, wanted, live) == []
  {
  }

  /** The merged capsule keeps this identity in a list: it was captured, or an added pin opens it. */
  ghost predicate Kept(list: List, id: string, captured: Value, pins: seq<Pin>) {
    var kind, items := KindOf(list), Items(captured, Field(list));
    Holds(kind, items, id) || Brings(kind, pins, list == Terminals, Ids(kind, items), id)
  }

  lemma KeptExact(list: List, captured: Value, pins: seq<Pin>, id: string)
    requires captured.Obj?
    ensures id in Ids(KindOf(list), Items(Merged(KindOf(list), captured, pins), Field(list))) <==>
            Kept(list, id, captured, pins)
  {
    var kind, field := KindOf(list), Field(list);
    MergedList(list, captured, pins);
    MergedIds(kind, Items(captured, field), pins, list == Terminals, id);
    IdsExact(kind, Items(captured, field), id);
  }

  /** What the merged capsule does not keep of the live list. */
  ghost predicate Superfluous(list: List, captured: Value, pins: seq<Pin>, live: Value, item: Value) {
    var keep := Ids(KindOf(list), Items(Merged(KindOf(list), captured, pins), Field(list)));
    item in Items(live, Field(list)) && Unwanted(list, item, keep, Strings(Items(live, "dirtyFiles")))
  }

  /** Whatever is targeted comes from a live item that is neither captured nor opened by an added pin. */
  lemma TargetIsNotKept(list: List, captured: Value, pins: seq<Pin>, live: Value, t: Target) returns (item: Value)
    requires t in ListTargets(list, Merged(KindOf(list), captured, pins), live)
    ensures item in Items(live, Field(list)) && IdentityOf(KindOf(list), item).Some? && t == TargetOf(list, item)
    ensures !Kept(list, IdentityOf(KindOf(list), item).value, captured, pins)
  {
    var wanted := Merged(KindOf(list), captured, pins);
    ListTargetsExact(list, wanted, live, t);
    assert captured.Obj?;
    var keep := Ids(KindOf(list), Items(wanted, Field(list)));
    item :| item in Items(live, Field(list)) && Unwanted(list, item, keep, Strings(Items(live, "dirtyFiles")))
      && t == TargetOf(list, item);
    KeptExact(list, captured, pins, IdentityOf(KindOf(list), item).value);
  }

  /** Two live items of a list that a close command cannot tell apart are one item, unless one is a bare string. */
  lemma TargetTells(list: List, a: Value, b: Value)
    requires IdentityOf(KindOf(list), a).Some? && IdentityOf(KindOf(list), b).Some?
    requires TargetOf(list, a) == TargetOf(list, b) && (list == Terminals ==> !a.Str? && !b.Str?)
    ensures IdentityOf(KindOf(list), a) == IdentityOf(KindOf(list), b)
  {
    if list == Terminals {
      assert TargetOf(list, a).args.members[0].value == Str(TargetOf(list, a).shown);
      assert TargetOf(list, a).args.members[1].value == TargetOf(list, b).args.members[1].value;
    } else {
      assert TargetOf(list, a).shown == IdentityOf(KindOf(list), a).value;
      assert TargetOf(list, b).shown == IdentityOf(KindOf(list), b).value;
    }
  }

  /** The list a pin belongs to is not empty once the pins are merged in. */
  lemma PinnedListIsLooked(list: List, captured: Value, pins: seq<Pin>, p: Pin)
    requires p in pins && Belongs(KindOf(list), p, list == Terminals) && captured.Obj?
    ensures Items(Merged(KindOf(list), captured, pins), Field(list)) != []
  {
    var kind, items := KindOf(list), Items(captured, Field(list));
    MergedList(list, captured, pins);
    NothingMissing(kind, pins, list == Terminals, Ids(kind, items));
  }

  /** A live list of one item. */
  function OnlyLive(list: List, id: string): Value {
    Obj([Member(Field(list), Arr([OnlyItem(list, id)]))])
  }

  function OnlyItem(list: List, id: string): Value {
    if list == Tabs then Obj([Member("url", Str(id))]) else Str(id)
  }

  lemma OnlyLiveShows(list: List, id: string)
    ensures Items(OnlyLive(list, id), Field(list)) == [OnlyItem(list, id)]
    ensures Items(OnlyLive(list, id), "dirtyFiles") == []
    ensures IdentityOf(KindOf(list), OnlyItem(list, id)) == Some(id)
  {
    var members := OnlyLive(list, id).members;
    assert members[0].key != "dirtyFiles" by { assert |Field(list)| < |"dirtyFiles"|; }
    assert members[1..] == [] && Find(members[1..], "dirtyFiles") == None;
    assert Find(members, "dirtyFiles") == None;
  }

  /**
   An item with the stored identity of a pin is never in the way, whatever is live, exactly if that identity is kept:
   captured, or opened by a pin that is added.
   */
  lemma PinnedIsNeverTargeted(list: List, captured: Value, pins: seq<Pin>, p: Pin)
    requires p in pins && Belongs(KindOf(list), p, list == Terminals) && captured.Obj?
    ensures (forall live, item :: IdentityOf(KindOf(list), item) == Some(p.identity) ==>
              !Superfluous(list, captured, pins, live, item)) <==>
            Kept(list, p.identity, captured, pins)
  {
    KeptExact(list, captured, pins, p.identity);
    var live, item := OnlyLive(list, p.identity), OnlyItem(list, p.identity);
    OnlyLiveShows(list, p.identity);
    if !Kept(list, p.identity, captured, pins) { assert Superfluous(list, captured, pins, live, item); }
  }

  /**
   A live item with the stored identity of a pin answers to one of the close commands, while that identity is kept,
   exactly if it is in the list of terminals and the command is meant for another item, one of the two being a bare
   string, which has no name to be closed by; and otherwise whenever nothing spares it.
   */
  lemma PinnedAnswersExactly(list: List, captured: Value, pins: seq<Pin>, live: Value, p: Pin, item: Value)
    requires p in pins && Belongs(KindOf(list), p, list == Terminals) && captured.Obj?
    requires item in Items(live, Field(list)) && IdentityOf(KindOf(list), item) == Some(p.identity)
    ensures Kept(list, p.identity, captured, pins) ==>
      (TargetOf(list, item) in ListTargets(list, Merged(KindOf(list), captured, pins), live) <==>
        list == Terminals && exists x ::
          Superfluous(list, captured, pins, live, x) && TargetOf(list, x) == TargetOf(list, item)
            && (x.Str? || item.Str?))
    ensures !Kept(list, p.identity, captured, pins) && !Spared(list, item, Strings(Items(live, "dirtyFiles"))) ==>
      TargetOf(list, item) in ListTargets(list, Merged(KindOf(list), captured, pins), live)
  {
    ListTargetsExact(list, Merged(KindOf(list), captured, pins), live, TargetOf(list, item));
    PinnedListIsLooked(list, captured, pins, p);
    KeptExact(list, captured, pins, p.identity);
    forall x | Superfluous(list, captured, pins, live, x) && TargetOf(list, x) == TargetOf(list, item)
      ensures Kept(list, p.identity, captured, pins) ==> list == Terminals && (x.Str? || item.Str?)
    {
      if !(list == Terminals && (x.Str? || item.Str?)) { TargetTells(list, x, item); }
    }
  }

  // ---------------------------------------------------------------- pins that carry their own identity

  /** As pinning makes them: the stored identity is that of the payload. */
  ghost predicate Made(kind: string, pins: seq<Pin>, terminals: bool) {
    forall p :: p in pins && Belongs(kind, p, terminals) ==> IdentityOf(kind, p.payload) == Some(p.identity)
  }

  /** An identity that a pin of the list was stored with is that of an added pin, or was captured. */
  lemma {:induction false} AddedFirst(kind: string, pins: seq<Pin>, terminals: bool, seen: set<string>, p: Pin)
    returns (i: nat)
    requires p in pins && Belongs(kind, p, terminals) && p.identity !in seen
    ensures Added(kind, pins, terminals, seen, i) && pins[i].identity == p.identity
  {
    if Belongs(kind, pins[0], terminals) && pins[0].identity == p.identity {
      i := 0;
    } else {
      assert p in pins[1..];
      var j := AddedFirst(kind, pins[1..], terminals, SeenNext(kind, pins[0], terminals, seen), p);
      AddedNext(kind, pins, terminals, seen, j);
      i := j + 1;
    }
  }

  /** A pin that carries its own identity, which no other pin of the list has, keeps it. */
  lemma OwnPinIsKept(list: List, captured: Value, pins: seq<Pin>, p: Pin)
    requires p in pins && Belongs(KindOf(list), p, list == Terminals)
    requires IdentityOf(KindOf(list), p.payload) == Some(p.identity)
    requires forall q :: q in pins && Belongs(KindOf(list), q, list == Terminals) && q.identity == p.identity ==> q == p
    ensures Kept(list, p.identity, captured, pins)
  {
    var kind, items := KindOf(list), Items(captured, Field(list));
    IdsExact(kind, items, p.identity);
    if p.identity !in Ids(kind, items) {
      var i := AddedFirst(kind, pins, list == Terminals, Ids(kind, items), p);
      assert pins[i] in pins;
    }
  }

  /**
   If the pins of a list carry their own identities, then exactly what is captured or pinned is kept, and a merge
   keeps the list without repetitions.
   */
  lemma MadePinsAreKept(list: List, captured: Value, pins: seq<Pin>, id: string)
    requires Made(KindOf(list), pins, list == Terminals)
    ensures Kept(list, id, captured, pins) <==>
            || Holds(KindOf(list), Items(captured, Field(list)), id)
            || exists p :: p in pins && Belongs(KindOf(list), p, list == Terminals) && p.identity == id
    ensures Apart(KindOf(list), Items(captured, Field(list)), pins, list == Terminals,
              Ids(KindOf(list), Items(captured, Field(list))))
  {
    var kind, items, terminals := KindOf(list), Items(captured, Field(list)), list == Terminals;
    var seen := Ids(kind, items);
    IdsExact(kind, items, id);
    forall i: nat | Added(kind, pins, terminals, seen, i) ensures pins[i] in pins {}
    forall p | p in pins && Belongs(kind, p, terminals) && p.identity == id && id !in seen
      ensures Brings(kind, pins, terminals, seen, id)
    {
      var i := AddedFirst(kind, pins, terminals, seen, p);
      assert pins[i] in pins;
    }
  }
}
