/** The grammar of the texts the CSV reader accepts. */
module CsvGrammar {
  import opened Common
  import opened JsText
  import opened Csv

  // It is that of section 2 of RFC 4180, but with any of the three line ends and rows of any width.

  /** A cell as it is written. */
  datatype Cell = Plain(text: JsString) | Quoted(text: JsString)

  datatype LineEnd = EndsLf | EndsCr | EndsCrLf

  datatype Line = Line(cells: seq<Cell>, end: LineEnd)

  /** Ended lines, then the cells of a last line without an end, if there is one. */
  datatype Text = Text(lines: seq<Line>, last: seq<Cell>)

  // ---------------------------------------------------------------- spelling

  // Each function below spells its argument followed by `k`. The codes are those of the quote (34), the comma (44),
  // the line feed (10) and the carriage return (13).

  function SpellCell(c: Cell, k: JsString): JsString {
    match c
    case Plain(t) => t + k
    case Quoted(t) => [34] + Doubled(t, [34] + k)
  }

  function SpellCells(cells: seq<Cell>, k: JsString): JsString {
    if cells == [] then k
    else SpellCell(cells[0], if |cells| == 1 then k else [44] + SpellCells(cells[1..], k))
  }

  function SpellEnd(e: LineEnd): JsString {
    match e case EndsLf => [10] case EndsCr => [13] case EndsCrLf => [13, 10]
  }

  function SpellLines(lines: seq<Line>, k: JsString): JsString {
    if lines == [] then k
    else SpellCells(lines[0].cells, SpellEnd(lines[0].end) + SpellLines(lines[1..], k))
  }

  function Spell(t: Text): JsString {
    SpellLines(t.lines, SpellCells(t.last, []))
  }

  // ---------------------------------------------------------------- what is well formed, and its meaning

  predicate ProperCell(c: Cell) {
    c.Plain? ==> !NeedsQuotes(c.text)
  }

  predicate ProperCells(cells: seq<Cell>) {
    forall i :: 0 <= i < |cells| ==> ProperCell(cells[i])
  }

  /** A line feed behind a carriage return belongs to the same line end. */
  predicate Parted(e: LineEnd, k: JsString) {
    e.EndsCr? && k != [] ==> k[0] != LF
  }

  predicate ProperLines(lines: seq<Line>, k: JsString) {
    lines == [] ||
    (&& lines[0].cells != [] && ProperCells(lines[0].cells)
     && Parted(lines[0].end, SpellLines(lines[1..], k))
     && ProperLines(lines[1..], k))
  }

  predicate Proper(t: Text) {
    ProperLines(t.lines, SpellCells(t.last, [])) && ProperCells(t.last) && t.last != [Plain([])]
  }

  function Values(cells: seq<Cell>): (row: Row)
    ensures |row| == |cells| && forall i :: 0 <= i < |cells| ==> row[i] == cells[i].text
  {
    if cells == [] then [] else [cells[0].text] + Values(cells[1..])
  }

  function LineValues(lines: seq<Line>): Grid {
    if lines == [] then [] else [Values(lines[0].cells)] + LineValues(lines[1..])
  }

  function GridOf(t: Text): Grid {
    LineValues(t.lines) + if t.last == [] then [] else [Values(t.last)]
  }

  // ---------------------------------------------------------------- every spelling is read

  predicate EndsCell(k: JsString) {
    k == [] || k[0] == COMMA || k[0] == CR || k[0] == LF
  }

  /** A state between cells. */
  function Fresh(rows: Grid, row: Row): Reader {
    Reader(rows, row, [], false, false)
  }

  lemma {:induction false} PlainRun(rows: Grid, row: Row, f: JsString, c: JsString, k: JsString)
    requires !NeedsQuotes(c)
    ensures Run(Reader(rows, row, f, false, false), c + k) == Run(Reader(rows, row, f + c, false, false), k)
    decreases |c|
  {
    if c == [] {
      assert c + k == k && f + c == f;
    } else {
      assert (c + k)[1..] == c[1..] + k;
      PlainRun(rows, row, f + [c[0]], c[1..], k);
      assert f + [c[0]] + c[1..] == f + c;
    }
  }

  lemma QuotedUnit(rows: Grid, row: Row, f: JsString, c: Utf16, k: JsString)
    ensures Run(Reader(rows, row, f, true, false), (if c == QUOTE then [QUOTE, QUOTE] else [c]) + k)
         == Run(Reader(rows, row, f + [c], true, false), k)
  {
    assert ([QUOTE, QUOTE] + k)[2..] == k && ([c] + k)[1..] == k;
  }

  lemma {:induction false} QuotedRun(rows: Grid, row: Row, f: JsString, c: JsString, k: JsString)
    requires EndsCell(k)
    ensures Run(Reader(rows, row, f, true, false), Doubled(c, [QUOTE] + k))
         == Run(Reader(rows, row, f + c, false, true), k)
    decreases |c|
  {
    if c == [] {
      assert ([QUOTE] + k)[1..] == k && f + c == f;
    } else {
      QuotedUnit(rows, row, f, c[0], Doubled(c[1..], [QUOTE] + k));
      QuotedRun(rows, row, f + [c[0]], c[1..], k);
      assert f + [c[0]] + c[1..] == f + c;
    }
  }

  function AfterCell(rows: Grid, row: Row, c: Cell): Reader {
    Reader(rows, row, c.text, false, c.Quoted?)
  }

  lemma ReadsCell(rows: Grid, row: Row, c: Cell, k: JsString)
    requires ProperCell(c) && EndsCell(k)
    ensures Run(Fresh(rows, row), SpellCell(c, k)) == Run(AfterCell(rows, row, c), k)
  {
    assert [] + c.text == c.text;
    match c
    case Plain(t) => PlainRun(rows, row, [], t, k);
    case Quoted(t) =>
      assert SpellCell(c, k)[1..] == Doubled(t, [QUOTE] + k);
      QuotedRun(rows, row, [], t, k);
  }

  function AfterCells(rows: Grid, done: Row, cells: seq<Cell>): Reader
    requires cells != []
    decreases |cells|
  {
    if |cells| == 1 then AfterCell(rows, done, cells[0])
    else AfterCells(rows, done + [cells[0].text], cells[1..])
  }

  lemma PassesComma(rows: Grid, row: Row, c: Cell, k: JsString)
    ensures Run(AfterCell(rows, row, c), [COMMA] + k) == Run(Fresh(rows, row + [c.text]), k)
  {
    assert ([COMMA] + k)[1..] == k;
  }

  lemma {:induction false} ReadsCells(rows: Grid, done: Row, cells: seq<Cell>, k: JsString)
    requires cells != [] && ProperCells(cells) && EndsCell(k)
    ensures Run(Fresh(rows, done), SpellCells(cells, k)) == Run(AfterCells(rows, done, cells), k)
    decreases |cells|
  {
    if |cells| == 1 {
      ReadsCell(rows, done, cells[0], k);
    } else {
      var rest := SpellCells(cells[1..], k);
      ReadsCell(rows, done, cells[0], [COMMA] + rest);
      PassesComma(rows, done, cells[0], rest);
      ReadsCells(rows, done + [cells[0].text], cells[1..], k);
    }
  }

  /** Ending the row there appends all of it; only a last line of one empty plain cell leaves no trace. */
  lemma {:induction false} AfterCellsEnds(rows: Grid, done: Row, cells: seq<Cell>)
    requires cells != []
    ensures var r := AfterCells(rows, done, cells);
            && r.EndRow() == Fresh(rows + [done + Values(cells)], [])
            && !r.quoted && r.rows == rows
            && ((r.field != [] || r.row != [] || r.afterQuote) <==> !(done == [] && cells == [Plain([])]))
    decreases |cells|
  {
    if |cells| == 1 {
      assert Values(cells) == [cells[0].text] && cells == [cells[0]];
    } else {
      AfterCellsEnds(rows, done + [cells[0].text], cells[1..]);
      Associate(done, [cells[0].text], Values(cells[1..]));
    }
  }

  lemma PassesEnd(rows: Grid, cells: seq<Cell>, e: LineEnd, k: JsString)
    requires cells != [] && Parted(e, k)
    ensures Run(AfterCells(rows, [], cells), SpellEnd(e) + k) == Run(Fresh(rows + [Values(cells)], []), k)
  {
    AfterCellsEnds(rows, [], cells);
    assert [] + Values(cells) == Values(cells);
    assert (SpellEnd(e) + k)[|SpellEnd(e)|..] == k;
  }

  lemma ReadsLine(rows: Grid, line: Line, rest: JsString)
    requires line.cells != [] && ProperCells(line.cells) && Parted(line.end, rest)
    ensures Run(Fresh(rows, []), SpellCells(line.cells, SpellEnd(line.end) + rest)) ==
      Run(Fresh(rows + [Values(line.cells)], []), rest)
  {
    ReadsCells(rows, [], line.cells, SpellEnd(line.end) + rest);
    PassesEnd(rows, line.cells, line.end, rest);
  }

  lemma {:induction false} ReadsLines(rows: Grid, lines: seq<Line>, k: JsString)
    requires ProperLines(lines, k)
    ensures Run(Fresh(rows, []), SpellLines(lines, k)) == Run(Fresh(rows + LineValues(lines), []), k)
    decreases |lines|
  {
    if lines == [] {
      assert rows + LineValues(lines) == rows;
    } else {
      ReadsLine(rows, lines[0], SpellLines(lines[1..], k));
      ReadsLines(rows + [Values(lines[0].cells)], lines[1..], k);
      Associate(rows, [Values(lines[0].cells)], LineValues(lines[1..]));
    }
  }

  lemma ReadsLast(rows: Grid, last: seq<Cell>)
    requires last != [] && ProperCells(last) && last != [Plain([])]
    ensures Run(Fresh(rows, []), SpellCells(last, [])).Ok?
    ensures Finish(Run(Fresh(rows, []), SpellCells(last, [])).value) == Ok(rows + [Values(last)])
  {
    ReadsCells(rows, [], last, []);
    AfterCellsEnds(rows, [], last);
    assert [] + Values(last) == Values(last);
  }

  lemma ReadsText(t: Text)
    requires Proper(t)
    ensures Scan(Spell(t)) == Ok(GridOf(t))
  {
    var rows := LineValues(t.lines);
    ReadsLines([], t.lines, SpellCells(t.last, []));
    assert [] + rows == rows == rows + [];
    if t.last != [] { ReadsLast(rows, t.last); }
  }

  // ---------------------------------------------------------------- nothing else is read

  /** The reader gets through `s` and is not left inside quotes. */
  predicate Reads(r: Reader, s: JsString) {
    Run(r, s).Ok? && !Run(r, s).value.quoted
  }

  lemma {:induction false} FindsQuoted(rows: Grid, row: Row, f: JsString, s: JsString)
      returns (t: JsString, k: JsString)
    requires Reads(Reader(rows, row, f, true, false), s)
    ensures s == Doubled(t, [QUOTE] + k) && EndsCell(k)
    decreases |s|
  {
    if s == [] {
      assert false;
    } else if s[0] == QUOTE && |s| > 1 && s[1] == QUOTE {
      t, k := FindsQuoted(rows, row, f + [QUOTE], s[2..]);
      t := [QUOTE] + t;
      assert t[1..] + [] == t[1..] && s == [QUOTE, QUOTE] + s[2..];
    } else if s[0] == QUOTE {
      t, k := [], s[1..];
      assert Reads(Reader(rows, row, f, false, true), k);
    } else {
      var c := s[0];
      t, k := FindsQuoted(rows, row, f + [c], s[1..]);
      t := [c] + t;
      assert t[1..] + [] == t[1..] && s == [c] + s[1..];
    }
  }

  lemma {:induction false} FindsPlain(rows: Grid, row: Row, f: JsString, s: JsString) returns (t: JsString, k: JsString)
    requires Reads(Reader(rows, row, f, false, false), s)
    requires f == [] && s != [] ==> s[0] != QUOTE
    ensures s == t + k && !NeedsQuotes(t) && EndsCell(k)
    decreases |s|
  {
    if EndsCell(s) {
      t, k := [], s;
    } else {
      var c := s[0];
      t, k := FindsPlain(rows, row, f + [c], s[1..]);
      assert s == [c] + t + k;
      t := [c] + t;
    }
  }

  lemma FindsCell(rows: Grid, row: Row, s: JsString) returns (c: Cell, k: JsString)
    requires Reads(Fresh(rows, row), s)
    ensures s == SpellCell(c, k) && ProperCell(c) && EndsCell(k)
    ensures Reads(AfterCell(rows, row, c), k)
  {
    var t: JsString;
    if s != [] && s[0] == QUOTE {
      t, k := FindsQuoted(rows, row, [], s[1..]);
      c := Quoted(t);
      assert s == [QUOTE] + s[1..];
    } else {
      t, k := FindsPlain(rows, row, [], s);
      c := Plain(t);
    }
    ReadsCell(rows, row, c, k);
  }

  predicate EndsLine(k: JsString) {
    k == [] || k[0] == CR || k[0] == LF
  }

  lemma {:induction false} DoubledIsLonger(t: JsString, k: JsString)
    ensures |Doubled(t, k)| >= |k|
  {
    if t != [] { DoubledIsLonger(t[1..], k); }
  }

  lemma CellIsLonger(c: Cell, k: JsString)
    ensures |SpellCell(c, k)| >= |k|
  {
    if c.Quoted? { DoubledIsLonger(c.text, [QUOTE] + k); }
  }

  lemma {:induction false} FindsCells(rows: Grid, done: Row, s: JsString) returns (cells: seq<Cell>, k: JsString)
    requires Reads(Fresh(rows, done), s)
    ensures cells != [] && s == SpellCells(cells, k) && ProperCells(cells) && EndsLine(k) && |k| <= |s|
    ensures Reads(AfterCells(rows, done, cells), k)
    decreases |s|
  {
    var c, rest := FindsCell(rows, done, s);
    CellIsLonger(c, rest);
    if EndsLine(rest) {
      cells, k := [c], rest;
    } else {
      PassesComma(rows, done, c, rest[1..]);
      assert rest == [COMMA] + rest[1..];
      var more;
      more, k := FindsCells(rows, done + [c.text], rest[1..]);
      cells := [c] + more;
      assert cells[1..] == more;
    }
  }

  /** The line end at the start of `k`. */
  function EndAt(k: JsString): (e: LineEnd)
    requires k != [] && EndsLine(k)
    ensures SpellEnd(e) <= k && Parted(e, k[|SpellEnd(e)|..])
  {
    if k[0] == LF then EndsLf else if |k| > 1 && k[1] == LF then EndsCrLf else EndsCr
  }

  lemma {:induction false} FindsText(rows: Grid, s: JsString) returns (t: Text)
    requires Reads(Fresh(rows, []), s)
    ensures Proper(t) && Spell(t) == s
    decreases |s|
  {
    if s == [] { return Text([], []); }
    var cells, k := FindsCells(rows, [], s);
    if k == [] {
      t := Text([], cells);
    } else {
      var e := EndAt(k);
      var rest := k[|SpellEnd(e)|..];
      assert k == SpellEnd(e) + rest;
      PassesEnd(rows, cells, e, rest);
      var more := FindsText(rows + [Values(cells)], rest);
      t := Text([Line(cells, e)] + more.lines, more.last);
      assert t.lines[1..] == more.lines;
    }
  }

  // ---------------------------------------------------------------- the reader is exact

  ghost predicate Spells(s: JsString, g: Grid) {
    exists t :: Proper(t) && Spell(t) == s && GridOf(t) == g
  }

  /** A grid is read from a text exactly when the text spells it. */
  lemma ScanExact(s: JsString, g: Grid)
    ensures Scan(s) == Ok(g) <==> Spells(s, g)
  {
    if Scan(s).Ok? {
      var t := FindsText([], s);
      ReadsText(t);
    }
    if Spells(s, g) {
      var t :| Proper(t) && Spell(t) == s && GridOf(t) == g;
      ReadsText(t);
    }
  }

  /** All of `parseCsv`: the limit, the byte-order mark, and the grammar. */
  lemma ParseExact(input: JsString, g: Grid)
    ensures Parse(input) == Ok(g) <==> |input| <= 200_000 && Spells(StripBom(input), g)
  {
    ScanExact(StripBom(input), g);
  }
}
