/** JSON values as the desktop reads them: an object is a list of members, looked up by key. */
module Json {
  import opened Common

  datatype Value =
    | Null
    | Bool(b: bool)
    | Number(n: int)
    | Str(s: string)
    | Arr(items: seq<Value>)
    | Obj(members: seq<Member>)

  datatype Member = Member(key: string, value: Value)

  /** A stored payload: JSON, or text that is none. */
  datatype Payload = Parsed(value: Value) | Opaque(text: string)

  function Find(members: seq<Member>, key: string): Option<Value> {
    if members == [] then None
    else if members[0].key == key then Some(members[0].value)
    else Find(members[1..], key)
  }

  /** `value.get(key)`: nothing for a missing key or anything but an object. */
  function Get(v: Value, key: string): Option<Value> {
    if v.Obj? then Find(v.members, key) else None
  }

  function Text(v: Option<Value>): Option<string> {
    if v.Some? && v.value.Str? then Some(v.value.s) else None
  }

  /** The array under a key; a missing one and anything else count as empty. */
  function Items(v: Value, key: string): seq<Value> {
    var x := Get(v, key);
    if x.Some? && x.value.Arr? then x.value.items else []
  }

  function Put(members: seq<Member>, key: string, value: Value): seq<Member> {
    if members == [] then [Member(key, value)]
    else if members[0].key == key then [Member(key, value)] + members[1..]
    else [members[0]] + Put(members[1..], key, value)
  }

  /** `value[key] = x` on an object. */
  function With(v: Value, key: string, x: Value): Value
    requires v.Obj?
  {
    Obj(Put(v.members, key, x))
  }

  lemma FindSecond(members: seq<Member>, key: string)
    requires |members| >= 2 && members[0].key != key && members[1].key == key
    ensures Find(members, key) == Some(members[1].value)
  {
    assert members[1..][0] == members[1];
  }

  lemma FindThird(members: seq<Member>, key: string)
    requires |members| >= 3 && members[0].key != key && members[1].key != key && members[2].key == key
    ensures Find(members, key) == Some(members[2].value)
  {
    FindSecond(members[1..], key);
  }

  lemma {:induction false} FindPut(members: seq<Member>, key: string, x: Value, other: string)
    ensures Find(Put(members, key, x), other) == if other == key then Some(x) else Find(members, other)
  {
    if members != [] && members[0].key != key { FindPut(members[1..], key, x, other); }
  }
}
