/**
 The two CSV conversions around `Csv`: flat JSON objects to text, and text to objects.

 An object is the list of its keys and values; the header row of the text is the union of the keys in the order
 of their first appearance, and a row holds what the object lacks as every object inherits it: mostly the empty text.
 */
module CsvJson {
  import opened Common
  import opened JsText
  import opened Csv
  import opened CsvRoundTrip

  /** A value of a parsed JSON object: already a string (`String(v ?? "")`), or a nested value. */
  datatype Cell = Text(text: JsString) | Nested

  /** A parsed object: its own keys in `Object.keys` order, with their values. */
  type Object = seq<(JsString, Cell)>

  /** Keys of `o` appended to `keys`, repetitions dropped. */
  function AddKeys(keys: Row, o: Object): Row
    decreases |o|
  {
    if o == [] then keys else AddKeys(if o[0].0 in keys then keys else keys + [o[0].0], o[1..])
  }

  /** `[...new Set(rows.flatMap(Object.keys))]`. */
  function Columns(keys: Row, objects: seq<Object>): Row
    decreases |objects|
  {
    if objects == [] then keys else Columns(AddKeys(keys, objects[0]), objects[1..])
  }

  /** What every object inherits under some names: for `__proto__` an object, and otherwise functions, as text. */
  type Inherited = map<JsString, Cell>

  predicate Has(o: Object, k: JsString) {
    exists p :: p in o && p.0 == k
  }

  function OwnValue(o: Object, k: JsString): Cell
    requires Has(o, k)
  {
    if o[0].0 == k then o[0].1 else OwnValue(o[1..], k)
  }

  /** `r[k]`: the object's own value, or an inherited one, or undefined, which counts as the empty text. */
  function Value(o: Object, k: JsString, proto: Inherited): Cell {
    if Has(o, k) then OwnValue(o, k) else if k in proto then proto[k] else Text([])
  }

  function ColumnText(o: Object, k: JsString, proto: Inherited): JsString {
    var v := Value(o, k, proto);
    if v.Text? then v.text else []
  }

  function ObjectRow(o: Object, columns: Row, proto: Inherited): (r: Row)
    ensures |r| == |columns|
  {
    if columns == [] then [] else [ColumnText(o, columns[0], proto)] + ObjectRow(o, columns[1..], proto)
  }

  function ObjectRows(objects: seq<Object>, columns: Row, proto: Inherited): (r: Grid)
    ensures |r| == |objects|
  {
    if objects == [] then [] else [ObjectRow(objects[0], columns, proto)] + ObjectRows(objects[1..], columns, proto)
  }

  lemma {:induction false} RowAt(o: Object, columns: Row, proto: Inherited, i: nat)
    requires i < |columns|
    ensures ObjectRow(o, columns, proto)[i] == ColumnText(o, columns[i], proto)
  {
    if i > 0 { RowAt(o, columns[1..], proto, i - 1); }
  }

  lemma {:induction false} RowsAt(objects: seq<Object>, columns: Row, proto: Inherited, i: nat)
    requires i < |objects|
    ensures ObjectRows(objects, columns, proto)[i] == ObjectRow(objects[i], columns, proto)
  {
    if i > 0 { RowsAt(objects[1..], columns, proto, i - 1); }
  }

  /** The header row, then one row per object. */
  function Table(objects: seq<Object>, proto: Inherited): Grid {
    var columns := Columns([], objects);
    [columns] + ObjectRows(objects, columns, proto)
  }

  /** Some cell of the table would be an object. */
  predicate HasNested(objects: seq<Object>, proto: Inherited) {
    exists o, k :: o in objects && k in Columns([], objects) && Value(o, k, proto).Nested?
  }

  /** `jsonToCsv`, given the length of the JSON text and the objects it was parsed into. */
  function JsonToCsv(length: nat, objects: seq<Object>, proto: Inherited): Result<JsString, Error> {
    if length > TEXT_LIMIT then Err(TooLong)
    else if objects == [] then Err(NotFlatObjects)
    else if HasNested(objects, proto) then Err(NestedCell)
    else Ok(Print(Table(objects, proto)))
  }

  predicate IsBlankText(s: JsString) {
    forall c :: c in s ==> IsSpace(c)
  }

  predicate Distinct(row: Row) {
    forall i, j :: 0 <= i < j < |row| ==> row[i] != row[j]
  }

  /** `Object.fromEntries` over distinct headers. */
  function Entries(headers: Row, row: Row): (m: map<JsString, JsString>)
    requires |headers| == |row|
  {
    if headers == [] then map[] else Entries(headers[1..], row[1..])[headers[0] := row[0]]
  }

  /** `csvToJson` before `JSON.stringify`. */
  function CsvToJson(input: JsString): Result<seq<map<JsString, JsString>>, Error> {
    match Parse(input)
    case Err(e) => Err(e)
    case Ok(rows) => Objects(rows)
  }

  function Objects(rows: Grid): Result<seq<map<JsString, JsString>>, Error> {
    if rows == [] then Err(BlankHeader) else Convert(rows[0], rows[1..])
  }

  function Convert(headers: Row, rows: Grid): Result<seq<map<JsString, JsString>>, Error> {
    if headers == [] || exists h :: h in headers && IsBlankText(h) then Err(BlankHeader)
    else if !Distinct(headers) then Err(RepeatedHeader)
    else ConvertRows(headers, rows)
  }

  function ConvertRows(headers: Row, rows: Grid): Result<seq<map<JsString, JsString>>, Error> {
    if rows == [] then Ok([])
    else if |rows[0]| != |headers| then Err(WrongWidth)
    else match ConvertRows(headers, rows[1..])
      case Err(e) => Err(e)
      case Ok(rest) => Ok([Entries(headers, rows[0])] + rest)
  }

  // ---------------------------------------------------------------- from objects to text and back

  /** One object as it comes back: guarded names, guarded values, one entry per column. */
  function Returned(o: Object, columns: Row, proto: Inherited): map<JsString, JsString> {
    Entries(GuardRow(columns), GuardRow(ObjectRow(o, columns, proto)))
  }

  predicate GoodHeaders(columns: Row) {
    && columns != []
    && (forall k :: k in columns ==> !IsBlankText(k))
    && Distinct(GuardRow(columns))
  }

  lemma {:induction false} EntriesLookup(headers: Row, row: Row, i: nat)
    requires |headers| == |row| && Distinct(headers) && i < |headers|
    ensures headers[i] in Entries(headers, row) && Entries(headers, row)[headers[i]] == row[i]
    ensures forall k :: k in Entries(headers, row) ==> k in headers
  {
    if |headers| > 1 {
      assert Distinct(headers[1..]);
      EntriesLookup(headers[1..], row[1..], if i == 0 then 0 else i - 1);
    }
    if i > 0 { assert headers[1..][i - 1] == headers[i] && headers[0] != headers[i]; }
  }

  /** The object has this text under the key, and no keys but these. */
  ghost predicate CellIs(m: map<JsString, JsString>, keys: Row, key: JsString, text: JsString) {
    key in m && m[key] == text && forall k :: k in m ==> k in keys
  }

  lemma GuardedEntry(columns: Row, row: Row, i: nat)
    requires Distinct(GuardRow(columns)) && |row| == |columns| && i < |columns|
    ensures CellIs(Entries(GuardRow(columns), GuardRow(row)), GuardRow(columns), Guard(columns[i]), Guard(row[i]))
  {
    EntriesLookup(GuardRow(columns), GuardRow(row), i);
  }

  /** What one column of a returned object holds, and that it has no other keys. */
  lemma ReturnedCell(o: Object, columns: Row, i: nat, proto: Inherited)
    requires Distinct(GuardRow(columns)) && i < |columns|
    ensures CellIs(
      Returned(o, columns, proto), GuardRow(columns), Guard(columns[i]), Guard(ColumnText(o, columns[i], proto)))
  {
    RowAt(o, columns, proto, i);
    GuardedEntry(columns, ObjectRow(o, columns, proto), i);
  }

  lemma GuardKeepsBlankness(s: JsString)
    ensures IsBlankText(Guard(s)) <==> IsBlankText(s)
  {
    if IsFormula(s) {
      FormulaIsNotBlank(s);
      assert Guard(s)[0] == APOSTROPHE;
    }
  }

  lemma {:induction false} FormulaIsNotBlank(s: JsString)
    requires IsFormula(s)
    ensures !IsBlankText(s)
  {
    if IsSpace(s[0]) {
      FormulaIsNotBlank(s[1..]);
      var c :| c in s[1..] && !IsSpace(c);
      assert c in s;
    } else {
      assert s[0] in s;
    }
  }

  lemma GuardedHeaders(columns: Row)
    requires GoodHeaders(columns)
    ensures forall h :: h in GuardRow(columns) ==> !IsBlankText(h)
  {
    forall h | h in GuardRow(columns) ensures !IsBlankText(h) {
      var i :| 0 <= i < |columns| && GuardRow(columns)[i] == h;
      assert columns[i] in columns;
      GuardKeepsBlankness(columns[i]);
    }
  }

  /** The objects as they come back. */
  function AllReturned(objects: seq<Object>, columns: Row, proto: Inherited): (r: seq<map<JsString, JsString>>)
    ensures |r| == |objects| && forall i :: 0 <= i < |r| ==> r[i] == Returned(objects[i], columns, proto)
  {
    if objects == [] then [] else [Returned(objects[0], columns, proto)] + AllReturned(objects[1..], columns, proto)
  }

  lemma {:induction false} RowsConvert(objects: seq<Object>, columns: Row, proto: Inherited)
    ensures ConvertRows(GuardRow(columns), GuardGrid(ObjectRows(objects, columns, proto))) ==
            Ok(AllReturned(objects, columns, proto))
  {
    if objects != [] {
      RowsConvert(objects[1..], columns, proto);
      var rows := ObjectRows(objects, columns, proto);
      assert rows[1..] == ObjectRows(objects[1..], columns, proto);
      assert GuardGrid(rows)[1..] == GuardGrid(rows[1..]);
    }
  }

  lemma TableConverts(objects: seq<Object>, columns: Row, proto: Inherited)
    requires GoodHeaders(columns)
    ensures Objects([GuardRow(columns)] + GuardGrid(ObjectRows(objects, columns, proto))) ==
            Ok(AllReturned(objects, columns, proto))
  {
    var headers, body := GuardRow(columns), GuardGrid(ObjectRows(objects, columns, proto));
    GuardedHeaders(columns);
    RowsConvert(objects, columns, proto);
    assert ([headers] + body)[1..] == body;
  }

  lemma GuardedTable(objects: seq<Object>, proto: Inherited)
    ensures GuardGrid(Table(objects, proto))
         == [GuardRow(Columns([], objects))] + GuardGrid(ObjectRows(objects, Columns([], objects), proto))
  {
    assert Table(objects, proto)[1..] == ObjectRows(objects, Columns([], objects), proto);
  }

  // ---------------------------------------------------------------- the columns

  /** All the keys there are, in the order they come up, repetitions included. */
  function AllKeys(objects: seq<Object>): Row {
    if objects == [] then [] else AllKeys(objects[..|objects| - 1]) + KeysOf(objects[|objects| - 1])
  }

  function KeysOf(o: Object): Row {
    if o == [] then [] else [o[0].0] + KeysOf(o[1..])
  }

  lemma {:induction false} KeysOfExactly(o: Object, k: JsString)
    ensures k in KeysOf(o) <==> Has(o, k)
  {
    if o != [] {
      assert o == [o[0]] + o[1..];
      KeysOfExactly(o[1..], k);
    }
  }

  /** Where a key comes up first. */
  function FirstAt(keys: Row, k: JsString): nat
    requires k in keys
  {
    if keys[0] == k then 0 else 1 + FirstAt(keys[1..], k)
  }

  /** The columns are the keys, each once, in the order of their first appearance. */
  ghost predicate FirstsOf(columns: Row, keys: Row) {
    && (forall k :: k in columns <==> k in keys)
    && (forall i, j :: 0 <= i < j < |columns| ==>
          columns[i] in keys && columns[j] in keys && FirstAt(keys, columns[i]) < FirstAt(keys, columns[j]))
  }

  lemma {:induction false} FirstAtAppend(keys: Row, more: Row, k: JsString)
    ensures k in keys ==> k in keys + more && FirstAt(keys + more, k) == FirstAt(keys, k) < |keys|
    ensures k !in keys && k in more ==> k in keys + more && FirstAt(keys + more, k) == |keys| + FirstAt(more, k)
  {
    if keys == [] {
      assert keys + more == more;
    } else {
      assert (keys + more)[1..] == keys[1..] + more && keys == [keys[0]] + keys[1..];
      FirstAtAppend(keys[1..], more, k);
    }
  }

  lemma FirstsMore(columns: Row, keys: Row, k: JsString)
    requires FirstsOf(columns, keys)
    ensures FirstsOf(if k in columns then columns else columns + [k], keys + [k])
  {
    var next := if k in columns then columns else columns + [k];
    forall c ensures c in next <==> c in keys + [k] {}
    forall i, j | 0 <= i < j < |next|
      ensures next[i] in keys + [k] && next[j] in keys + [k]
        && FirstAt(keys + [k], next[i]) < FirstAt(keys + [k], next[j])
    {
      FirstAtAppend(keys, [k], next[i]);
      FirstAtAppend(keys, [k], next[j]);
      assert next[i] in columns;
    }
  }

  lemma {:induction false} AddKeysFirsts(columns: Row, keys: Row, o: Object)
    requires FirstsOf(columns, keys)
    ensures FirstsOf(AddKeys(columns, o), keys + KeysOf(o))
    decreases |o|
  {
    if o == [] {
      assert keys + KeysOf(o) == keys;
    } else {
      var k := o[0].0;
      FirstsMore(columns, keys, k);
      AddKeysFirsts(if k in columns then columns else columns + [k], keys + [k], o[1..]);
      Associate(keys, [k], KeysOf(o[1..]));
    }
  }

  lemma {:induction false} ColumnsFirsts(columns: Row, before: seq<Object>, objects: seq<Object>)
    requires FirstsOf(columns, AllKeys(before))
    ensures FirstsOf(Columns(columns, objects), AllKeys(before + objects))
    decreases |objects|
  {
    if objects == [] {
      assert before + objects == before;
    } else {
      var more := before + [objects[0]];
      assert more[..|more| - 1] == before && more + objects[1..] == before + objects;
      AddKeysFirsts(columns, AllKeys(before), objects[0]);
      ColumnsFirsts(AddKeys(columns, objects[0]), more, objects[1..]);
    }
  }

  lemma {:induction false} AllKeysExactly(objects: seq<Object>, k: JsString)
    ensures k in AllKeys(objects) <==> exists o :: o in objects && Has(o, k)
  {
    if objects != [] {
      var front, last := objects[..|objects| - 1], objects[|objects| - 1];
      assert objects == front + [last];
      AllKeysExactly(front, k);
      KeysOfExactly(last, k);
    }
  }

  /** The header row is every object's keys, each once, in the order of their first appearance. */
  lemma ColumnsExactly(objects: seq<Object>)
    ensures FirstsOf(Columns([], objects), AllKeys(objects))
    ensures forall k :: k in Columns([], objects) <==> exists o :: o in objects && Has(o, k)
    ensures Distinct(Columns([], objects))
  {
    ColumnsFirsts([], [], objects);
    assert [] + objects == objects;
    forall k ensures k in Columns([], objects) <==> exists o :: o in objects && Has(o, k) {
      AllKeysExactly(objects, k);
    }
  }

  // ---------------------------------------------------------------- the round trip

  /** As `JSON.parse` makes it: no key twice. */
  predicate KeysDiffer(o: Object) {
    forall i, j :: 0 <= i < j < |o| ==> o[i].0 != o[j].0
  }

  lemma {:induction false} OwnValueIs(o: Object, i: nat)
    requires KeysDiffer(o) && i < |o|
    ensures Has(o, o[i].0) && OwnValue(o, o[i].0) == o[i].1
  {
    assert o[i] in o;
    if i > 0 {
      assert forall a, b :: 0 <= a < b < |o[1..]| ==> o[1..][a].0 == o[a + 1].0 && o[1..][b].0 == o[b + 1].0;
      OwnValueIs(o[1..], i - 1);
      assert o[0].0 != o[i].0;
    }
  }

  /** The returned object has each of the object's own values, guarded, under its guarded key. */
  ghost predicate HasOwn(r: map<JsString, JsString>, o: Object) {
    forall i :: 0 <= i < |o| ==> o[i].1.Text? && Guard(o[i].0) in r && r[Guard(o[i].0)] == Guard(o[i].1.text)
  }

  lemma OwnCell(o: Object, i: nat, columns: Row, proto: Inherited)
    requires KeysDiffer(o) && i < |o| && o[i].0 in columns && o[i].1.Text? && Distinct(GuardRow(columns))
    ensures var r := Returned(o, columns, proto); Guard(o[i].0) in r && r[Guard(o[i].0)] == Guard(o[i].1.text)
  {
    OwnValueIs(o, i);
    var c :| 0 <= c < |columns| && columns[c] == o[i].0;
    ReturnedCell(o, columns, c, proto);
  }

  lemma OwnIsText(objects: seq<Object>, n: nat, i: nat, proto: Inherited)
    requires n < |objects| && KeysDiffer(objects[n]) && i < |objects[n]| && !HasNested(objects, proto)
    ensures objects[n][i].1.Text? && objects[n][i].0 in Columns([], objects)
  {
    var o := objects[n];
    OwnValueIs(o, i);
    ColumnsExactly(objects);
    assert o in objects && Value(o, o[i].0, proto) == o[i].1;
  }

  lemma OwnValuesReturn(objects: seq<Object>, n: nat, proto: Inherited)
    requires n < |objects| && KeysDiffer(objects[n]) && !HasNested(objects, proto)
    requires GoodHeaders(Columns([], objects))
    ensures HasOwn(Returned(objects[n], Columns([], objects), proto), objects[n])
  {
    forall i: nat | i < |objects[n]|
      ensures objects[n][i].1.Text? && Guard(objects[n][i].0) in Returned(objects[n], Columns([], objects), proto)
      ensures Returned(objects[n], Columns([], objects), proto)[Guard(objects[n][i].0)] == Guard(objects[n][i].1.text)
    {
      OwnIsText(objects, n, i, proto);
      OwnCell(objects[n], i, Columns([], objects), proto);
    }
  }

  /** One object read back for each, with the values of its own. */
  ghost predicate AllOwn(r: seq<map<JsString, JsString>>, objects: seq<Object>) {
    |r| == |objects| && forall n :: 0 <= n < |objects| && KeysDiffer(objects[n]) ==> HasOwn(r[n], objects[n])
  }

  lemma AllOwnReturn(objects: seq<Object>, proto: Inherited)
    requires !HasNested(objects, proto) && GoodHeaders(Columns([], objects))
    ensures AllOwn(AllReturned(objects, Columns([], objects), proto), objects)
  {
    forall n: nat | n < |objects| && KeysDiffer(objects[n])
      ensures HasOwn(AllReturned(objects, Columns([], objects), proto)[n], objects[n])
    {
      OwnValuesReturn(objects, n, proto);
    }
  }

  lemma PrintedTableReturns(objects: seq<Object>, proto: Inherited)
    requires GoodHeaders(Columns([], objects)) && Survives(GuardGrid(Table(objects, proto)))
    requires |Print(Table(objects, proto))| <= 200_000
    ensures CsvToJson(Print(Table(objects, proto))) == Ok(AllReturned(objects, Columns([], objects), proto))
  {
    PrintedGridExact(Table(objects, proto));
    GuardedTable(objects, proto);
    TableConverts(objects, Columns([], objects), proto);
  }

  /**
   Objects written as CSV and read again: as many, each with every value of its own under its key, names and values
   guarded; and under the other columns what it inherits, or nothing.
   */
  lemma ObjectsRoundTrip(length: nat, objects: seq<Object>, proto: Inherited)
    requires JsonToCsv(length, objects, proto).Ok? && |JsonToCsv(length, objects, proto).value| <= 200_000
    requires GoodHeaders(Columns([], objects)) && Survives(GuardGrid(Table(objects, proto)))
    ensures CsvToJson(JsonToCsv(length, objects, proto).value) == Ok(AllReturned(objects, Columns([], objects), proto))
    ensures AllOwn(CsvToJson(JsonToCsv(length, objects, proto).value).value, objects)
  {
    PrintedTableReturns(objects, proto);
    AllOwnReturn(objects, proto);
  }

  // ---------------------------------------------------------------- what is refused

  /** Some value is an object or a list: an object's own, or what one inherits under a key that another has. */
  ghost predicate Nests(objects: seq<Object>, proto: Inherited) {
    || (exists o: Object, i :: o in objects && 0 <= i < |o| && o[i].1.Nested?)
    || exists o, k :: o in objects && Lacks(objects, o, k) && k in proto && proto[k].Nested?
  }

  /** Another object has the key, this one does not. */
  ghost predicate Lacks(objects: seq<Object>, o: Object, k: JsString) {
    !Has(o, k) && exists p :: p in objects && Has(p, k)
  }

  lemma NestedIsFound(objects: seq<Object>, proto: Inherited)
    requires HasNested(objects, proto) && forall o :: o in objects ==> KeysDiffer(o)
    ensures Nests(objects, proto)
  {
    var o: Object, k :| o in objects && k in Columns([], objects) && Value(o, k, proto).Nested?;
    ColumnsExactly(objects);
    if Has(o, k) {
      var i :| 0 <= i < |o| && o[i].0 == k;
      OwnValueIs(o, i);
    } else {
      assert Lacks(objects, o, k);
    }
  }

  lemma NestedIsRefused(objects: seq<Object>, proto: Inherited)
    requires Nests(objects, proto) && forall o :: o in objects ==> KeysDiffer(o)
    ensures HasNested(objects, proto)
  {
    ColumnsExactly(objects);
    if o: Object, i :| o in objects && 0 <= i < |o| && o[i].1.Nested? {
      OwnValueIs(o, i);
      assert Value(o, o[i].0, proto).Nested? && o[i].0 in Columns([], objects);
    } else {
      var o: Object, k :| o in objects && Lacks(objects, o, k) && k in proto && proto[k].Nested?;
      assert Value(o, k, proto).Nested? && k in Columns([], objects);
    }
  }

  /** Why objects are not written as CSV: the text is too long, there are none, or some value is nested. */
  lemma UnwrittenExactly(length: nat, objects: seq<Object>, proto: Inherited)
    requires forall o :: o in objects ==> KeysDiffer(o)
    ensures JsonToCsv(length, objects, proto) == Err(TooLong) <==> length > 200_000
    ensures JsonToCsv(length, objects, proto) == Err(NotFlatObjects) <==> length <= 200_000 && objects == []
    ensures JsonToCsv(length, objects, proto) == Err(NestedCell) <==> length <= 200_000 && Nests(objects, proto)
  {
    if HasNested(objects, proto) { NestedIsFound(objects, proto); }
    if Nests(objects, proto) { NestedIsRefused(objects, proto); }
  }

  /** The object has the row's cells under the names of the headers, and nothing else. */
  ghost predicate IsRow(headers: Row, row: Row, o: map<JsString, JsString>) {
    && |row| == |headers| && (forall k :: k in o ==> k in headers)
    && forall j :: 0 <= j < |headers| ==> headers[j] in o && o[headers[j]] == row[j]
  }

  /** Each row as an object. */
  ghost predicate IsTable(headers: Row, rows: Grid, objects: seq<map<JsString, JsString>>) {
    |rows| == |objects| && forall i :: 0 <= i < |objects| ==> IsRow(headers, rows[i], objects[i])
  }

  lemma {:induction false} EntriesExactly(headers: Row, row: Row)
    requires |headers| == |row| && Distinct(headers)
    ensures IsRow(headers, row, Entries(headers, row))
  {
    forall j: nat | j < |headers|
      ensures headers[j] in Entries(headers, row) && Entries(headers, row)[headers[j]] == row[j]
      ensures forall k :: k in Entries(headers, row) ==> k in headers
    {
      EntriesLookup(headers, row, j);
    }
  }

  lemma NextRow(headers: Row, row: Row, rows: Grid, o: map<JsString, JsString>, rest: seq<map<JsString, JsString>>)
    requires IsRow(headers, row, o) && IsTable(headers, rows, rest)
    ensures IsTable(headers, [row] + rows, [o] + rest)
  {
  }

  lemma {:induction false} RowsExactly(headers: Row, rows: Grid)
    requires Distinct(headers)
    ensures ConvertRows(headers, rows).Ok? <==> forall row :: row in rows ==> |row| == |headers|
    ensures ConvertRows(headers, rows).Ok? ==> IsTable(headers, rows, ConvertRows(headers, rows).value)
    ensures ConvertRows(headers, rows).Err? ==> ConvertRows(headers, rows) == Err(WrongWidth)
  {
    if rows != [] {
      RowsExactly(headers, rows[1..]);
      assert rows == [rows[0]] + rows[1..];
      if |rows[0]| == |headers| && ConvertRows(headers, rows[1..]).Ok? {
        EntriesExactly(headers, rows[0]);
        var rest := ConvertRows(headers, rows[1..]).value;
        NextRow(headers, rows[0], rows[1..], Entries(headers, rows[0]), rest);
      }
    }
  }

  /** Some name consists of spaces. */
  ghost predicate HasBlank(headers: Row) {
    exists h :: h in headers && forall c :: c in h ==> IsSpace(c)
  }

  lemma BlankNames(headers: Row)
    ensures (exists h :: h in headers && IsBlankText(h)) <==> HasBlank(headers)
  {
    forall h | h in headers ensures IsBlankText(h) <==> forall c :: c in h ==> IsSpace(c) {}
  }

  lemma GridExactly(rows: Grid)
    ensures rows == [] || rows[0] == [] || HasBlank(rows[0]) ==> Objects(rows) == Err(BlankHeader)
    ensures rows != [] && rows[0] != [] && !HasBlank(rows[0]) ==>
      var repeated := exists i, j :: 0 <= i < j < |rows[0]| && rows[0][i] == rows[0][j];
      var ragged := exists row :: row in rows[1..] && |row| != |rows[0]|;
      && (repeated ==> Objects(rows) == Err(RepeatedHeader))
      && (!repeated && ragged ==> Objects(rows) == Err(WrongWidth))
      && (!repeated && !ragged ==> Objects(rows).Ok? && IsTable(rows[0], rows[1..], Objects(rows).value))
  {
    if rows != [] {
      BlankNames(rows[0]);
      if Distinct(rows[0]) { RowsExactly(rows[0], rows[1..]); }
    }
  }

  /**
   What `csvToJson` makes of a text: the reader's complaint, if it has one; a complaint about the header row, if there
   is none or it has a blank name, or a name twice; a complaint about a row that is not as wide; and otherwise the
   table as objects.
   */
  lemma ObjectsExactly(input: JsString)
    ensures Parse(input).Err? ==> CsvToJson(input) == Err(Parse(input).error)
    ensures Parse(input).Ok? ==>
      var rows, r := Parse(input).value, CsvToJson(input);
      if rows == [] || rows[0] == [] || HasBlank(rows[0]) then r == Err(BlankHeader)
      else if exists i, j :: 0 <= i < j < |rows[0]| && rows[0][i] == rows[0][j] then r == Err(RepeatedHeader)
      else if exists row :: row in rows[1..] && |row| != |rows[0]| then r == Err(WrongWidth)
      else r.Ok? && IsTable(rows[0], rows[1..], r.value)
  {
    if Parse(input).Ok? { GridExactly(Parse(input).value); }
  }

  lemma RowsStep(objects: seq<Object>, columns: Row, proto: Inherited)
    requires objects != []
    ensures GuardGrid(ObjectRows(objects, columns, proto)) ==
      [GuardRow(ObjectRow(objects[0], columns, proto))] + GuardGrid(ObjectRows(objects[1..], columns, proto))
  {
    assert ObjectRows(objects, columns, proto)[1..] == ObjectRows(objects[1..], columns, proto);
  }

  lemma {:induction false} RowsSplit(init: seq<Object>, last: Object, columns: Row, proto: Inherited)
    ensures GuardGrid(ObjectRows(init + [last], columns, proto))
         == GuardGrid(ObjectRows(init, columns, proto)) + [GuardRow(ObjectRow(last, columns, proto))]
  {
    if init == [] {
      assert init + [last] == [last];
    } else {
      RowsSplit(init[1..], last, columns, proto);
      assert (init + [last])[1..] == init[1..] + [last];
      RowsStep(init + [last], columns, proto);
      RowsStep(init, columns, proto);
    }
  }

  lemma {:induction false} RowsNonempty(objects: seq<Object>, columns: Row, proto: Inherited)
    requires columns != []
    ensures NonemptyRows(GuardGrid(ObjectRows(objects, columns, proto)))
  {
    if objects != [] {
      RowsNonempty(objects[1..], columns, proto);
      RowsStep(objects, columns, proto);
    }
  }

  lemma BlankRow(o: Object, columns: Row, proto: Inherited)
    requires |columns| == 1 && ColumnText(o, columns[0], proto) == []
    ensures GuardRow(ObjectRow(o, columns, proto)) == [[]]
  {
  }

  lemma TableEndsBlank(init: seq<Object>, last: Object, columns: Row, proto: Inherited)
    requires columns == Columns([], init + [last]) && |columns| == 1 && ColumnText(last, columns[0], proto) == []
    ensures var kept := [GuardRow(columns)] + GuardGrid(ObjectRows(init, columns, proto));
            NonemptyRows(kept) && GuardGrid(Table(init + [last], proto)) == kept + [[[]]]
  {
    GuardedTable(init + [last], proto);
    RowsSplit(init, last, columns, proto);
    RowsNonempty(init, columns, proto);
    BlankRow(last, columns, proto);
  }

  /** With a single column, a last object whose value is empty is silently lost. */
  lemma LastEmptyObjectIsLost(
      length: nat, init: seq<Object>, last: Object, columns: Row, text: JsString, proto: Inherited)
    requires columns == Columns([], init + [last]) && |columns| == 1 && GoodHeaders(columns)
    requires ColumnText(last, columns[0], proto) == []
    requires JsonToCsv(length, init + [last], proto) == Ok(text) && |text| <= 200_000 && StripBom(text) == text
    ensures CsvToJson(text) == Ok(AllReturned(init, columns, proto))
  {
    var kept := [GuardRow(columns)] + GuardGrid(ObjectRows(init, columns, proto));
    TableEndsBlank(init, last, columns, proto);
    BlankLastRowIsLost(kept);
    TableConverts(init, columns, proto);
  }

  // ---------------------------------------------------------------- what an object lacks

  /** No object lacks a column under a name that every object inherits. */
  predicate LacksNothingInherited(objects: seq<Object>, proto: Inherited) {
    forall o, k :: o in objects && k in Columns([], objects) && !Has(o, k) && k in proto ==> proto[k] == Text([])
  }

  lemma ValueAsOwn(o: Object, k: JsString, proto: Inherited)
    ensures Value(o, k, proto) == Value(o, k, map[]) <==> !Has(o, k) && k in proto ==> proto[k] == Text([])
  {
  }

  lemma {:induction false} RowAsOwn(o: Object, columns: Row, proto: Inherited)
    requires forall k :: k in columns ==> Value(o, k, proto) == Value(o, k, map[])
    ensures ObjectRow(o, columns, proto) == ObjectRow(o, columns, map[])
  {
    if columns != [] {
      assert columns == [columns[0]] + columns[1..];
      RowAsOwn(o, columns[1..], proto);
    }
  }

  lemma LackingCell(objects: seq<Object>, proto: Inherited, o: Object, k: JsString)
    requires !HasNested(objects, proto) && Table(objects, proto) == Table(objects, map[])
    requires o in objects && k in Columns([], objects) && !Has(o, k) && k in proto
    ensures proto[k] == Text([])
  {
    var columns := Columns([], objects);
    var i :| 0 <= i < |objects| && objects[i] == o;
    var j :| 0 <= j < |columns| && columns[j] == k;
    RowsAt(objects, columns, proto, i);
    RowsAt(objects, columns, map[], i);
    assert Table(objects, proto)[i + 1] == ObjectRow(o, columns, proto);
    assert Table(objects, map[])[i + 1] == ObjectRow(o, columns, map[]);
    RowAt(o, columns, proto, j);
    RowAt(o, columns, map[], j);
    assert !Value(o, k, proto).Nested?;
  }

  lemma OwnTable(objects: seq<Object>, proto: Inherited)
    requires !HasNested(objects, map[]) && LacksNothingInherited(objects, proto)
    ensures !HasNested(objects, proto) && Table(objects, proto) == Table(objects, map[])
  {
    var columns := Columns([], objects);
    forall o, k | o in objects && k in columns ensures Value(o, k, proto) == Value(o, k, map[]) {
      ValueAsOwn(o, k, proto);
    }
    var rows, own := ObjectRows(objects, columns, proto), ObjectRows(objects, columns, map[]);
    forall i | 0 <= i < |objects| ensures rows[i] == own[i] {
      RowsAt(objects, columns, proto, i);
      RowsAt(objects, columns, map[], i);
      RowAsOwn(objects[i], columns, proto);
    }
    assert rows == own;
  }

  /** The table is that of the objects' own values exactly if no object lacks a column that it inherits. */
  lemma OwnTableExactly(objects: seq<Object>, proto: Inherited)
    requires !HasNested(objects, map[])
    ensures !HasNested(objects, proto) && Table(objects, proto) == Table(objects, map[]) <==>
            LacksNothingInherited(objects, proto)
  {
    if LacksNothingInherited(objects, proto) {
      OwnTable(objects, proto);
    } else {
      var o, k :| o in objects && k in Columns([], objects) && !Has(o, k) && k in proto && proto[k] != Text([]);
      if !HasNested(objects, proto) && Table(objects, proto) == Table(objects, map[]) {
        LackingCell(objects, proto, o, k);
      }
    }
  }

  lemma TwoColumns(k: JsString, m: JsString, v: JsString, w: JsString)
    requires k != m
    ensures Columns([], [[(k, Text(v))], [(m, Text(w))]]) == [k, m]
  {
    var first, second: Object := [(k, Text(v))], [(m, Text(w))];
    assert first[1..] == [] && second[1..] == [] && [first, second][1..] == [second] && [second][1..] == [];
    assert [] + [k] == [k] && [k] + [m] == [k, m];
    assert AddKeys([], first) == AddKeys([k], []) && AddKeys([k], second) == AddKeys([k, m], []);
    assert Columns([], [first, second]) == Columns([k], [second]);
    assert Columns([k], [second]) == Columns([k, m], []);
  }

  lemma TwoCells(o: Object, k: JsString, m: JsString, proto: Inherited)
    ensures ObjectRow(o, [k, m], proto) == [ColumnText(o, k, proto), ColumnText(o, m, proto)]
  {
    assert [k, m][1..] == [m] && [m][1..] == [];
    assert ObjectRow(o, [m], proto) == [ColumnText(o, m, proto)] + ObjectRow(o, [], proto);
  }

  lemma OneValue(k: JsString, v: JsString, m: JsString, proto: Inherited)
    requires k != m
    ensures Value([(k, Text(v))], k, proto) == Text(v)
    ensures Value([(k, Text(v))], m, proto) == if m in proto then proto[m] else Text([])
  {
    var o: Object := [(k, Text(v))];
    assert o[0] in o && Has(o, k) && !Has(o, m);
  }

  /** Two objects, of which the second lacks a name that it inherits: what it inherits is printed, or is refused. */
  lemma InheritedIsPrinted(k: JsString, m: JsString, v: JsString, w: JsString, proto: Inherited)
    requires k != m && k in proto && m !in proto
    ensures var objects := [[(k, Text(v))], [(m, Text(w))]];
      JsonToCsv(0, objects, proto) ==
      if proto[k].Text? then Ok(Print([[k, m], [v, []], [proto[k].text, w]])) else Err(NestedCell)
  {
    var first, second: Object := [(k, Text(v))], [(m, Text(w))];
    var objects := [first, second];
    TwoColumns(k, m, v, w);
    TwoCells(first, k, m, proto);
    TwoCells(second, k, m, proto);
    OneValue(k, v, m, proto);
    OneValue(m, w, k, proto);
    assert objects[1..] == [second] && [second][1..] == [];
    assert ObjectRows([second], [k, m], proto) == [ObjectRow(second, [k, m], proto)] + ObjectRows([], [k, m], proto);
    assert ObjectRows(objects, [k, m], proto) ==
      [ObjectRow(first, [k, m], proto)] + ObjectRows([second], [k, m], proto);
    if proto[k].Text? {
      assert !HasNested(objects, proto);
      assert Table(objects, proto) == [[k, m], [v, []], [proto[k].text, w]];
    } else {
      assert second in objects && k in [k, m] && Value(second, k, proto).Nested?;
    }
  }
}
