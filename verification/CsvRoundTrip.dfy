/** When reading a printed grid gives the grid back, and what is lost when it does not. */
module CsvRoundTrip {
  import opened Common
  import opened JsText
  import opened Csv
  import opened CsvGrammar

  predicate NonemptyRows(g: Grid) {
    forall i :: 0 <= i < |g| ==> g[i] != []
  }

  /** The one row shape the reader does not see at the end of a text. */
  predicate IsBlank(row: Row) {
    row == [[]]
  }

  /** What reading the text of `g` gives: all of it, less a final blank row. */
  function Readable(g: Grid): Grid {
    if g != [] && IsBlank(g[|g| - 1]) then g[..|g| - 1] else g
  }

  // ---------------------------------------------------------------- the printed grid as a text of the grammar

  function CellOf(c: JsString): Cell {
    if NeedsQuotes(c) then Quoted(c) else Plain(c)
  }

  function CellsOf(row: Row): (cells: seq<Cell>)
    ensures |cells| == |row| && forall i :: 0 <= i < |row| ==> cells[i] == CellOf(row[i])
  {
    if row == [] then [] else [CellOf(row[0])] + CellsOf(row[1..])
  }

  /** The rows but the last, each ended by CRLF. */
  function LinesOf(g: Grid): seq<Line>
    requires g != []
  {
    if |g| == 1 then [] else [Line(CellsOf(g[0]), EndsCrLf)] + LinesOf(g[1..])
  }

  /** The text the printer means: its last line is there unless it is blank. */
  function TextOf(g: Grid): Text {
    if g == [] then Text([], [])
    else Text(LinesOf(g), if IsBlank(g[|g| - 1]) then [] else CellsOf(g[|g| - 1]))
  }

  lemma {:induction false} CellsSpelled(row: Row, k: JsString)
    ensures SpellCells(CellsOf(row), k) == RowText(row, k)
    decreases |row|
  {
    if row != [] {
      assert CellsOf(row)[1..] == CellsOf(row[1..]);
      CellsSpelled(row[1..], k);
    }
  }

  lemma {:induction false} CellsMean(row: Row)
    ensures Values(CellsOf(row)) == row && ProperCells(CellsOf(row))
  {
    assert |Values(CellsOf(row))| == |row| && forall i :: 0 <= i < |row| ==> Values(CellsOf(row))[i] == row[i];
  }

  lemma BlankSpelled(row: Row)
    requires row != []
    ensures RowText(row, []) == SpellCells(if IsBlank(row) then [] else CellsOf(row), [])
    ensures CellsOf(row) == [Plain([])] <==> IsBlank(row)
  {
    CellsSpelled(row, []);
  }

  lemma {:induction false} LinesSpelled(g: Grid)
    requires g != [] && NonemptyRows(g)
    ensures var k := RowText(g[|g| - 1], []);
            && SpellLines(LinesOf(g), k) == GridText(g, []) && ProperLines(LinesOf(g), k)
            && LineValues(LinesOf(g)) == g[..|g| - 1]
    decreases |g|
  {
    if |g| > 1 {
      LinesSpelled(g[1..]);
      CellsMean(g[0]);
      CellsSpelled(g[0], [CR, LF] + GridText(g[1..], []));
      assert LinesOf(g)[1..] == LinesOf(g[1..]);
      assert g[..|g| - 1] == [g[0]] + g[1..][..|g| - 2];
    }
  }

  lemma GridMeans(g: Grid)
    requires NonemptyRows(g)
    ensures GridOf(TextOf(g)) == Readable(g)
  {
    if g != [] {
      LinesSpelled(g);
      CellsMean(g[|g| - 1]);
      assert g == g[..|g| - 1] + [g[|g| - 1]];
    }
  }

  lemma GridSpelled(g: Grid)
    requires NonemptyRows(g)
    ensures Proper(TextOf(g)) && Spell(TextOf(g)) == GridText(g, [])
  {
    if g != [] {
      LinesSpelled(g);
      BlankSpelled(g[|g| - 1]);
      CellsMean(g[|g| - 1]);
    }
  }

  /** Reading what was printed gives the rows, less a final blank one. */
  lemma ScanGrid(g: Grid)
    requires NonemptyRows(g)
    ensures Scan(GridText(g, [])) == Ok(Readable(g))
  {
    GridMeans(g);
    GridSpelled(g);
    ReadsText(TextOf(g));
  }

  /** Every row the reader returns has a cell, whatever the text. */
  lemma {:induction false} RunKeepsRowsNonempty(r: Reader, s: JsString)
    requires NonemptyRows(r.rows)
    ensures Run(r, s).Ok? ==> NonemptyRows(Run(r, s).value.rows)
    decreases |s|
  {
    if s != [] {
      match Step(r, s)
      case Err(_) =>
      case Ok((r', n)) => RunKeepsRowsNonempty(r', s[n..]);
    }
  }

  lemma ScanRowsNonempty(s: JsString)
    ensures Scan(s).Ok? ==> NonemptyRows(Scan(s).value)
  {
    RunKeepsRowsNonempty(START, s);
  }

  // ---------------------------------------------------------------- the byte-order mark

  /** What follows the first cell in the text of a grid. */
  function AfterFirstCell(g: Grid): JsString
    requires g != [] && g[0] != []
  {
    var k := if |g| == 1 then [] else [CR, LF] + GridText(g[1..], []);
    if |g[0]| == 1 then k else [COMMA] + RowText(g[0][1..], k)
  }

  lemma TextStart(g: Grid)
    requires NonemptyRows(g) && GridText(g, []) != [] && GridText(g, [])[0] == BOM
    ensures g != [] && g[0][0] != [] && g[0][0][0] == BOM && !NeedsQuotes(g[0][0])
  {
    assert GridText(g, []) == CellText(g[0][0], AfterFirstCell(g));
  }

  /** The grid whose first cell has lost its first character. */
  function Beheaded(g: Grid): Grid
    requires g != [] && g[0] != [] && g[0][0] != []
  {
    [[g[0][0][1..]] + g[0][1..]] + g[1..]
  }

  lemma FirstCellFirst(g: Grid)
    requires g != [] && g[0] != []
    ensures GridText(g, []) == CellText(g[0][0], AfterFirstCell(g))
  {
  }

  lemma BeheadedCell(c: JsString, k: JsString)
    requires c != [] && !NeedsQuotes(c)
    ensures CellText(c[1..], k) == CellText(c, k)[1..]
  {
    assert !NeedsQuotes(c[1..]) by {
      assert forall x :: x in c[1..] ==> x in c;
    }
    assert (c + k)[1..] == c[1..] + k;
  }

  lemma BeheadedRest(g: Grid)
    requires NonemptyRows(g) && g != [] && g[0][0] != []
    ensures NonemptyRows(Beheaded(g)) && AfterFirstCell(Beheaded(g)) == AfterFirstCell(g)
  {
    assert Beheaded(g)[0][1..] == g[0][1..] && Beheaded(g)[1..] == g[1..];
  }

  lemma BeheadedText(g: Grid)
    requires NonemptyRows(g) && g != [] && g[0][0] != [] && !NeedsQuotes(g[0][0])
    ensures NonemptyRows(Beheaded(g)) && GridText(Beheaded(g), []) == GridText(g, [])[1..]
  {
    BeheadedRest(g);
    BeheadedCell(g[0][0], AfterFirstCell(g));
    FirstCellFirst(g);
    FirstCellFirst(Beheaded(g));
  }

  // ---------------------------------------------------------------- the round trip

  /** The grids whose printed text reads back as themselves. */
  predicate Survives(g: Grid) {
    && NonemptyRows(g)
    && (g != [] ==> !IsBlank(g[|g| - 1]))
    && (GridText(g, []) == [] || GridText(g, [])[0] != BOM)
  }

  /**
   Reading a text the printer wrote restores the grid exactly when it has no empty row, does not
   end in a blank row, does not begin with a byte-order mark and fits the limit.
   */
  lemma RoundTripExact(g: Grid)
    ensures Parse(GridText(g, [])) == Ok(g) <==> Survives(g) && |GridText(g, [])| <= 200_000
  {
    var s := GridText(g, []);
    if NonemptyRows(g) {
      ScanGrid(g);
      if s != [] && s[0] == BOM {
        TextStart(g);
        BeheadedText(g);
        ScanGrid(Beheaded(g));
        assert Beheaded(g)[0][0] == g[0][0][1..];
      }
    } else {
      ScanRowsNonempty(StripBom(s));
    }
  }

  /** `jsonToCsv`'s text, read again, is the grid of guarded cells. */
  lemma PrintedGridExact(g: Grid)
    ensures Parse(Print(g)) == Ok(GuardGrid(g)) <==> Survives(GuardGrid(g)) && |Print(g)| <= 200_000
  {
    RoundTripExact(GuardGrid(g));
  }

  /** The guard does not hide the traps: they are conditions on the grid the caller holds. */
  lemma GuardedSurvival(g: Grid)
    ensures NonemptyRows(GuardGrid(g)) <==> NonemptyRows(g)
    ensures g != [] ==> (IsBlank(GuardGrid(g)[|g| - 1]) <==> IsBlank(g[|g| - 1]))
  {
    if NonemptyRows(GuardGrid(g)) {
      forall i | 0 <= i < |g| ensures g[i] != [] { assert GuardGrid(g)[i] != []; }
    }
    if g != [] { GuardedBlank(g[|g| - 1]); }
  }

  lemma GuardedBlank(row: Row)
    ensures IsBlank(GuardRow(row)) <==> IsBlank(row)
  {
    assert IsBlank(row) <==> |row| == 1 && row[0] == [];
    assert IsBlank(GuardRow(row)) <==> |row| == 1 && Guard(row[0]) == [];
  }

  /** The first trap: a final blank row vanishes and everything before it survives. */
  lemma BlankLastRowIsLost(g: Grid)
    requires NonemptyRows(g)
    requires var s := GridText(g + [[[]]], []); |s| <= 200_000 && (s != [] ==> s[0] != BOM)
    ensures Parse(GridText(g + [[[]]], [])) == Ok(g)
  {
    ScanGrid(g + [[[]]]);
    assert (g + [[[]]])[..|g|] == g;
  }

  /** Up to `i` there is white space, and there `=`, `+`, `-` or `@`, by their codes. */
  ghost predicate FormulaAt(s: JsString, i: int) {
    && 0 <= i < |s| && (forall j :: 0 <= j < i ==> IsSpace(s[j])) && !IsSpace(s[i])
    && (s[i] == 61 || s[i] == 43 || s[i] == 45 || s[i] == 64)
  }

  /** A spreadsheet would run it. */
  ghost predicate WouldRun(s: JsString) {
    exists i :: FormulaAt(s, i)
  }

  lemma FormulaBehind(s: JsString, i: int)
    requires s != [] && IsSpace(s[0])
    ensures FormulaAt(s, i + 1) <==> FormulaAt(s[1..], i)
  {
    if 0 <= i < |s| - 1 {
      assert s[1..][i] == s[i + 1];
      if forall j :: 0 <= j < i ==> IsSpace(s[1..][j]) {
        forall j | 0 <= j < i + 1 ensures IsSpace(s[j]) { if j > 0 { assert s[j] == s[1..][j - 1]; } }
      }
      if forall j :: 0 <= j < i + 1 ==> IsSpace(s[j]) {
        forall j | 0 <= j < i ensures IsSpace(s[1..][j]) { assert s[1..][j] == s[j + 1]; }
      }
    }
  }

  lemma {:induction false} FormulaExactly(s: JsString)
    ensures IsFormula(s) <==> WouldRun(s)
  {
    if s != [] && IsSpace(s[0]) {
      FormulaExactly(s[1..]);
      if IsFormula(s) {
        var i :| FormulaAt(s[1..], i);
        FormulaBehind(s, i);
      } else if WouldRun(s) {
        var i :| FormulaAt(s, i);
        FormulaBehind(s, i - 1);
      }
    } else if IsFormula(s) {
      assert FormulaAt(s, 0);
    }
  }

  /** A guarded cell is never run; it is the cell itself unless that would be, and then has an apostrophe before it. */
  lemma GuardedCellIsNoFormula(s: JsString)
    ensures !WouldRun(Guard(s)) && Guard(s) == if WouldRun(s) then [39] + s else s
  {
    FormulaExactly(s);
    FormulaExactly(Guard(s));
  }

  /** No cell read back from a printed grid is one a spreadsheet would run. */
  lemma NoFormulaSurvives(g: Grid, i: nat, j: nat)
    requires Survives(GuardGrid(g)) && |Print(g)| <= 200_000
    requires i < |g| && j < |g[i]|
    ensures Parse(Print(g)).Ok? && i < |Parse(Print(g)).value| && j < |Parse(Print(g)).value[i]|
    ensures !WouldRun(Parse(Print(g)).value[i][j])
  {
    PrintedGridExact(g);
    GuardedCellIsNoFormula(g[i][j]);
  }

  /**
   Normal form: whatever CSV text is accepted, its rows printed and read again give the same rows,
   unless they end in a blank row or print to a text that starts with a byte-order mark or is too long.
   */
  lemma AcceptedTextNormalizes(input: JsString, g: Grid)
    requires Parse(input) == Ok(g)
    ensures Parse(GridText(g, [])) == Ok(g) <==>
            && (g != [] ==> !IsBlank(g[|g| - 1]))
            && (GridText(g, []) == [] || GridText(g, [])[0] != BOM)
            && |GridText(g, [])| <= 200_000
  {
    ScanRowsNonempty(StripBom(input));
    RoundTripExact(g);
  }
}
