/** What a merge makes of a pin: the identity it is stored under and the payload that it opens may part. */
module PinMoves {
  import opened Common
  import opened Json
  import opened PathRewrite
  import Focus
  import FocusLaws
  import Bundle

  /** How a stored payload is read back: as null if it is no JSON. */
  function Read(p: Payload): Value {
    match p
    case Parsed(v) => v
    case Opaque(_) => Null
  }

  /** The stored identity is that of the payload, as pinning makes it. */
  predicate Agrees(kind: string, identity: string, payload: Payload) {
    Focus.IdentityOf(kind, Read(payload)) == Some(identity)
  }

  // ---------------------------------------------------------------- the payload's own fields

  function MovedValue(v: Option<Value>, from: Option<string>, to: Option<string>): Option<Value> {
    match v
    case None => None
    case Some(x) => Some(Rewrite(x, from, to))
  }

  lemma {:induction false} FindMoved(a: seq<Member>, b: seq<Member>, key: string, from: Option<string>,
      to: Option<string>)
    requires |a| == |b|
    requires forall i :: 0 <= i < |a| ==> b[i] == Member(a[i].key, Rewrite(a[i].value, from, to))
    ensures Find(b, key) == MovedValue(Find(a, key), from, to)
  {
    if a != [] && a[0].key != key { FindMoved(a[1..], b[1..], key, from, to); }
  }

  lemma GetMoved(v: Value, key: string, from: Option<string>, to: Option<string>)
    ensures Get(Rewrite(v, from, to), key) == MovedValue(Get(v, key), from, to)
  {
    if v.Obj? {
      var n := |v.members|;
      forall i | 0 <= i < n
        ensures RewriteMembers(v, n, from, to)[i] == Member(v.members[i].key, Rewrite(v.members[i].value, from, to))
      {
        RewriteMemberAt(v, n, from, to, i);
      }
      FindMoved(v.members, RewriteMembers(v, n, from, to), key, from, to);
    }
  }

  // ---------------------------------------------------------------- urls and paths

  predicate TextMoves(s: string, from: Option<string>, to: Option<string>) {
    IsAbsolute(s) && Moves(s, from, to)
  }

  /** The identity moves whatever it is; the payload's text only if it is an absolute path. */
  predicate TextKeeps(s: string, from: Option<string>, to: Option<string>) {
    Moves(s, from, to) ==> IsAbsolute(s)
  }

  lemma TextKeepsExact(s: string, from: Option<string>, to: Option<string>)
    ensures RewriteText(s, from, to) == Remap(s, from, to) <==> TextKeeps(s, from, to)
  {
    if Moves(s, from, to) { MovedIsNew(s, from.value, to.value); }
  }

  lemma TextMovesExact(s: string, from: Option<string>, to: Option<string>)
    ensures RewriteText(s, from, to) == s <==> !TextMoves(s, from, to)
  {
    if TextMoves(s, from, to) { MovedIsNew(s, from.value, to.value); }
  }

  // ---------------------------------------------------------------- terminals

  /**
   A terminal's identity is its name, a NUL and its directory, and moves as one text, while the payload's name and
   directory move each on their own. The last case can only arise for a home that holds a NUL itself.
   */
  predicate TerminalKeeps(name: string, cwd: string, from: Option<string>, to: Option<string>) {
    var id := Focus.TerminalIdentity(name, cwd);
    if from.None? || to.None? then true
    else if |from.value| <= |name| then
      !TextMoves(cwd, from, to) && (TextMoves(name, from, to) <==> Moves(name, from, to) && name != from.value)
    else if !Moves(id, from, to) then !TextMoves(cwd, from, to)
    else
      && TextMoves(cwd, from, to)
      && to.value + id[|from.value|..|from.value| + |name| + 1] == name + ['\0'] + to.value
  }

  lemma ShortHome(name: string, cwd: string, from: string, to: string)
    requires |from| <= |name|
    ensures Moves(Focus.TerminalIdentity(name, cwd), Some(from), Some(to)) <==>
            Moves(name, Some(from), Some(to)) && name != from
  {
    var id := Focus.TerminalIdentity(name, cwd);
    assert id[..|name|] == name && id[|name|] == '\0';
    if from <= id { assert from == id[..|from|] == name[..|from|]; }
    if from <= name { assert from == id[..|from|]; }
  }

  lemma SamePrefix(a: string, b: string, x: string, y: string)
    requires |a| == |b|
    ensures a + x == b + y <==> a == b && x == y
  {
    assert (a + x)[..|a|] == a && (b + y)[..|b|] == b && (a + x)[|a|..] == x && (b + y)[|b|..] == y;
  }

  function PayloadId(name: string, cwd: string, from: Option<string>, to: Option<string>): string {
    Focus.TerminalIdentity(RewriteText(name, from, to), RewriteText(cwd, from, to))
  }

  /** A name that is the home itself moves, and the identity, in which a NUL follows the home, does not. */
  lemma NameIsHome(cwd: string, from: string, to: string)
    requires TextMoves(from, Some(from), Some(to))
    ensures PayloadId(from, cwd, Some(from), Some(to)) != Focus.TerminalIdentity(from, cwd)
  {
    var dir := RewriteText(cwd, Some(from), Some(to));
    assert RewriteText(from, Some(from), Some(to)) == to;
    if to + ['\0'] + dir == from + ['\0'] + cwd {
      assert |to| == |from|;
      SamePrefix(to, from, ['\0'] + dir, ['\0'] + cwd);
      Associate(to, ['\0'], dir);
      Associate(from, ['\0'], cwd);
    }
  }

  lemma NameUnderHome(name: string, cwd: string, from: string, to: string)
    requires Moves(name, Some(from), Some(to)) && name != from
    ensures Remap(Focus.TerminalIdentity(name, cwd), Some(from), Some(to)) ==
            Focus.TerminalIdentity(Remap(name, Some(from), Some(to)), cwd)
  {
    var id := Focus.TerminalIdentity(name, cwd);
    ShortHome(name, cwd, from, to);
    assert id[|from|..] == name[|from|..] + ['\0'] + cwd;
    Associate(to, name[|from|..], ['\0'] + cwd);
    Associate(name[|from|..], ['\0'], cwd);
    Associate(to + name[|from|..], ['\0'], cwd);
  }

  lemma ShortHomeKeeps(name: string, cwd: string, from: string, to: string)
    requires |from| <= |name|
    ensures PayloadId(name, cwd, Some(from), Some(to)) ==
            Remap(Focus.TerminalIdentity(name, cwd), Some(from), Some(to)) <==>
            TerminalKeeps(name, cwd, Some(from), Some(to))
  {
    var source, target := Some(from), Some(to);
    var dir := RewriteText(cwd, source, target);
    ShortHome(name, cwd, from, to);
    TextMovesExact(cwd, source, target);
    if Moves(name, source, target) && name != from {
      NameUnderHome(name, cwd, from, to);
      if TextMoves(name, source, target) {
        var moved := Remap(name, source, target);
        SamePrefix(moved + ['\0'], moved + ['\0'], dir, cwd);
      } else {
        assert !TextMoves(cwd, source, target);
        MovedIsNew(Focus.TerminalIdentity(name, cwd), from, to);
      }
    } else if TextMoves(name, source, target) {
      NameIsHome(cwd, from, to);
    } else {
      SamePrefix(name + ['\0'], name + ['\0'], dir, cwd);
    }
  }

  lemma LongHomeKeeps(name: string, cwd: string, from: string, to: string)
    requires |from| > |name|
    ensures PayloadId(name, cwd, Some(from), Some(to)) ==
            Remap(Focus.TerminalIdentity(name, cwd), Some(from), Some(to)) <==>
            TerminalKeeps(name, cwd, Some(from), Some(to))
  {
    var id, p := Focus.TerminalIdentity(name, cwd), name + ['\0'];
    var dir := RewriteText(cwd, Some(from), Some(to));
    assert RewriteText(name, Some(from), Some(to)) == name && id == p + cwd;
    TextMovesExact(cwd, Some(from), Some(to));
    SamePrefix(p, p, dir, cwd);
    if Moves(id, Some(from), Some(to)) {
      MovedIsNew(id, from, to);
      if TextMoves(cwd, Some(from), Some(to)) { Turned(p, cwd, from, to); }
    }
  }

  /** The directory moves, and so does the identity, of which the home takes more than the name. */
  lemma Turned(p: string, cwd: string, from: string, to: string)
    requires from <= cwd && from <= p + cwd && |from| >= |p|
    ensures to + (p + cwd)[|from|..] == p + (to + cwd[|from|..]) <==> to + (p + cwd)[|from|..|from| + |p|] == p + to
  {
    var id, rest := p + cwd, cwd[|from|..];
    assert cwd == from + rest;
    var turned := id[|from|..|from| + |p|];
    assert id[|from| + |p|..] == rest && id[|from|..] == turned + rest;
    Associate(to, turned, rest);
    Associate(p, to, rest);
    SamePrefix(to + turned, p + to, rest, rest);
  }

  lemma TerminalKeepsExact(name: string, cwd: string, from: Option<string>, to: Option<string>)
    ensures PayloadId(name, cwd, from, to) == Remap(Focus.TerminalIdentity(name, cwd), from, to) <==>
            TerminalKeeps(name, cwd, from, to)
  {
    if from.Some? && to.Some? {
      if |from.value| <= |name| {
        ShortHomeKeeps(name, cwd, from.value, to.value);
      } else {
        LongHomeKeeps(name, cwd, from.value, to.value);
      }
    }
  }

  // ---------------------------------------------------------------- the row

  /** Whether the identity and the payload of a pin move alike. */
  predicate Keeps(row: Bundle.PinRow, from: Option<string>, to: Option<string>) {
    var v := Read(row.payload);
    if row.kind == "vscode" && v.Obj? && Text(Get(v, "name")).Some?
    then TerminalKeeps(Text(Get(v, "name")).value, Focus.Cwd(v), from, to)
    else TextKeeps(row.identity, from, to)
  }

  lemma PageMoved(v: Value, from: Option<string>, to: Option<string>)
    requires Focus.IdentityOf("chrome", v).Some?
    ensures Focus.IdentityOf("chrome", Rewrite(v, from, to)) ==
            Some(RewriteText(Focus.IdentityOf("chrome", v).value, from, to))
  {
    GetMoved(v, "url", from, to);
  }

  lemma ShellMoved(v: Value, from: Option<string>, to: Option<string>)
    requires v.Obj? && Text(Get(v, "name")).Some?
    ensures Focus.IdentityOf("vscode", Rewrite(v, from, to)) ==
            Some(PayloadId(Text(Get(v, "name")).value, Focus.Cwd(v), from, to))
  {
    GetMoved(v, "name", from, to);
    GetMoved(v, "cwd", from, to);
  }

  /** A pin whose stored identity is its payload's keeps it so through a merge exactly if the two move alike. */
  lemma PinKeepsExactly(row: Bundle.PinRow, from: Option<string>, to: Option<string>)
    requires Agrees(row.kind, row.identity, row.payload)
    ensures var p := Bundle.PinOf(row, from, to);
      Agrees(p.kind, p.identity, p.payload) <==> Keeps(row, from, to)
  {
    var v := Read(row.payload);
    TextKeepsExact(row.identity, from, to);
    if row.kind == "chrome" {
      PageMoved(v, from, to);
    } else if v.Obj? {
      ShellMoved(v, from, to);
      TerminalKeepsExact(Text(Get(v, "name")).value, Focus.Cwd(v), from, to);
    }
  }

  /** Under a home that is an absolute path: pages and files always, and terminals unless their directory moves. */
  lemma AbsoluteHome(row: Bundle.PinRow, from: string, to: Option<string>)
    requires Agrees(row.kind, row.identity, row.payload) && IsAbsolute(from)
    requires var v := Read(row.payload);
      row.kind == "vscode" && v.Obj? ==> !IsAbsolute(Text(Get(v, "name")).value)
    ensures var v := Read(row.payload);
      Keeps(row, Some(from), to) <==> !(row.kind == "vscode" && v.Obj? && Moves(Focus.Cwd(v), Some(from), to))
  {
  }

  // ---------------------------------------------------------------- a shell that moves

  function Shell(name: string, cwd: string): Value {
    Obj([Member("name", Str(name)), Member("cwd", Str(cwd))])
  }

  /** A pinned shell in a directory under the sender's home. */
  const ROW := Bundle.PinRow("n", "t", "vscode", "zsh" + ['\0'] + "/a/x", Parsed(Shell("zsh", "/a/x")))

  const STORED := Bundle.PinOf(ROW, Some("/a"), Some("/b"))

  /** The stored pin as the orchestrator reads it. */
  const PIN := Focus.Pin(STORED.kind, STORED.identity, Read(STORED.payload))

  lemma ShellId(name: string, cwd: string)
    ensures Focus.IdentityOf("vscode", Shell(name, cwd)) == Some(Focus.TerminalIdentity(name, cwd))
    ensures !Focus.IsBusy(Shell(name, cwd))
  {
    var members := Shell(name, cwd).members;
    FindSecond(members, "cwd");
    assert members[1..][1..] == [] && Find(members[1..][1..], "busy") == None;
    assert members[1..][0] == members[1] && Find(members[1..], "busy") == None;
  }

  lemma ShellMoves(name: string, cwd: string, from: Option<string>, to: Option<string>)
    ensures Rewrite(Shell(name, cwd), from, to) == Shell(RewriteText(name, from, to), RewriteText(cwd, from, to))
  {
    var v := Shell(name, cwd);
    var first, second := Member("name", Str(RewriteText(name, from, to))),
      Member("cwd", Str(RewriteText(cwd, from, to)));
    assert RewriteMembers(v, 0, from, to) == [];
    assert RewriteMembers(v, 1, from, to) == [] + [first];
    assert RewriteMembers(v, 2, from, to) == RewriteMembers(v, 1, from, to) + [second];
    assert |v.members| == 2;
  }

  lemma TwoShells()
    ensures Focus.TerminalIdentity("zsh", "/a/x") != Focus.TerminalIdentity("zsh", "/b/x")
  {
    assert Focus.TerminalIdentity("zsh", "/a/x")[5] == 'a' && Focus.TerminalIdentity("zsh", "/b/x")[5] == 'b';
  }

  /** Its payload opens the moved directory, and its identity is still that of the old one. */
  lemma MovedShellParts()
    ensures Agrees(ROW.kind, ROW.identity, ROW.payload)
    ensures PIN == Focus.Pin("vscode", Focus.TerminalIdentity("zsh", "/a/x"), Shell("zsh", "/b/x"))
    ensures !Agrees(STORED.kind, STORED.identity, STORED.payload)
  {
    var from, to := Some("/a"), Some("/b");
    ShellId("zsh", "/a/x");
    ShellId("zsh", "/b/x");
    ShellMoves("zsh", "/a/x", from, to);
    TwoShells();
    assert "zsh"[0] == 'z' && ROW.identity[0] == 'z';
    assert "/a" <= "/a/x" && "/a/x"[2] == '/' && "/b" + "/a/x"[2..] == "/b/x";
  }

  /** Captured where it is now, the shell is opened twice: a merge repeats it. */
  lemma ShellOpensTwice()
    ensures var here := [Shell("zsh", "/b/x")];
      && FocusLaws.Distinct("vscode", here)
      && Focus.MergedItems("vscode", here, [PIN], true) == here + here
      && !FocusLaws.Distinct("vscode", here + here)
  {
    var shell := Shell("zsh", "/b/x");
    MovedShellParts();
    ShellId("zsh", "/b/x");
    TwoShells();
    assert [shell][1..] == [] && [PIN][1..] == [];
    var seen := Focus.Ids("vscode", [shell]);
    assert seen == {Focus.TerminalIdentity("zsh", "/b/x")} + Focus.Ids("vscode", []);
    assert Get(shell, "name").Some? && Focus.Belongs("vscode", PIN, true);
    assert Focus.Missing("vscode", [PIN], true, seen) ==
      [shell] + Focus.Missing("vscode", [], true, seen + {PIN.identity});
    assert ([shell] + [shell])[0] == ([shell] + [shell])[1];
  }

  /** With nothing captured, the shell that carries the pinned identity is closed. */
  lemma PinnedShellIsTargeted()
    ensures var captured, live := Obj([]), Obj([Member("terminals", Arr([Shell("zsh", "/a/x")]))]);
      && Focus.IdentityOf("vscode", Shell("zsh", "/a/x")) == Some(PIN.identity)
      && Focus.TerminalTarget(Shell("zsh", "/a/x"))
         in Focus.ListTargets(Focus.Terminals, Focus.Merged("vscode", captured, [PIN]), live)
  {
    var captured, live := Obj([]), Obj([Member("terminals", Arr([Shell("zsh", "/a/x")]))]);
    MovedShellParts();
    ShellId("zsh", "/a/x");
    ShellId("zsh", "/b/x");
    TwoShells();
    assert Items(live, "terminals") == [Shell("zsh", "/a/x")];
    assert !FocusLaws.Kept(Focus.Terminals, PIN.identity, captured, [PIN]);
    FocusLaws.PinnedAnswersExactly(Focus.Terminals, captured, [PIN], live, PIN, Shell("zsh", "/a/x"));
  }
}
