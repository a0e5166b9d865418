/** CSV text: the quote-aware reader, the printer with its formula guard, and the JSON conversions. */
module Csv {
  import opened Common
  import opened JsText

  const LF: Utf16 := 10
  const CR: Utf16 := 13
  const QUOTE: Utf16 := 34
  const APOSTROPHE: Utf16 := 39
  const COMMA: Utf16 := 44
  const BOM: Utf16 := 0xFEFF

  type Row = seq<JsString>
  type Grid = seq<Row>

  datatype Error =
    | TooLong | JunkAfterQuote | UnclosedQuote
    | NotFlatObjects | NestedCell
    | BlankHeader | RepeatedHeader | WrongWidth

  // ---------------------------------------------------------------- the reader

  /** The variables of `parseCsv`. */
  datatype Reader = Reader(rows: Grid, row: Row, field: JsString, quoted: bool, afterQuote: bool) {
    function EndField(): Reader {
      Reader(rows, row + [field], [], quoted, false)
    }

    function EndRow(): Reader {
      var r := EndField();
      Reader(r.rows + [r.row], [], [], r.quoted, r.afterQuote)
    }
  }

  const START := Reader([], [], [], false, false)

  /** One turn of the reading loop on a nonempty rest: the next state and the characters taken. */
  function Step(r: Reader, s: JsString): (x: Result<(Reader, nat), Error>)
    requires s != []
    ensures x.Ok? ==> 1 <= x.value.1 <= |s|
  {
    var c := s[0];
    if r.quoted then
      if c == QUOTE && |s| > 1 && s[1] == QUOTE then Ok((r.(field := r.field + [QUOTE]), 2))
      else if c == QUOTE then Ok((r.(quoted := false, afterQuote := true), 1))
      else Ok((r.(field := r.field + [c]), 1))
    else if c == COMMA then Ok((r.EndField(), 1))
    else if c == LF || c == CR then Ok((r.EndRow(), if c == CR && |s| > 1 && s[1] == LF then 2 else 1))
    else if c == QUOTE && r.field == [] && !r.afterQuote then Ok((r.(quoted := true), 1))
    else if c == QUOTE || r.afterQuote then Err(JunkAfterQuote)
    else Ok((r.(field := r.field + [c]), 1))
  }

  function Run(r: Reader, s: JsString): Result<Reader, Error>
    decreases |s|
  {
    if s == [] then Ok(r)
    else match Step(r, s)
      case Err(e) => Err(e)
      case Ok((r', n)) => Run(r', s[n..])
  }

  function Finish(r: Reader): Result<Grid, Error> {
    if r.quoted then Err(UnclosedQuote)
    else if r.field != [] || r.row != [] || r.afterQuote then Ok(r.EndRow().rows)
    else Ok(r.rows)
  }

  /** The rows of a text, its byte-order mark already removed. */
  function Scan(s: JsString): Result<Grid, Error> {
    match Run(START, s)
    case Err(e) => Err(e)
    case Ok(r) => Finish(r)
  }

  function StripBom(s: JsString): JsString {
    if s != [] && s[0] == BOM then s[1..] else s
  }

  function Parse(input: JsString): Result<Grid, Error> {
    if |input| > TEXT_LIMIT then Err(TooLong) else Scan(StripBom(input))
  }

  lemma RestStart(s: JsString, i: nat)
    requires i < |s|
    ensures s[i..] != [] && s[i..][0] == s[i]
    ensures |s[i..]| > 1 <==> i + 1 < |s|
    ensures i + 1 < |s| ==> s[i..][1] == s[i + 1]
  {
  }

  lemma OneTurn(r: Reader, s: JsString, i: nat)
    requires i < |s|
    ensures match Step(r, s[i..])
            case Err(e) => Run(r, s[i..]) == Err(e)
            case Ok(p) => i + p.1 <= |s| && Run(r, s[i..]) == Run(p.0, s[i + p.1..])
  {
    match Step(r, s[i..])
    case Err(_) =>
    case Ok(p) => assert s[i..][p.1..] == s[i + p.1..];
  }

  /** `parseCsv`. */
  method ParseCsv(input: JsString) returns (out: Result<Grid, Error>)
    ensures out == Parse(input)
  {
    if |input| > TEXT_LIMIT { return Err(TooLong); }
    var s := StripBom(input);
    var r := START;
    var i := 0;
    while i < |s|
      invariant 0 <= i <= |s|
      invariant Run(r, s[i..]) == Run(START, s)
    {
      RestStart(s, i);
      OneTurn(r, s, i);
      var c := s[i];
      if r.quoted {
        if c == QUOTE && i + 1 < |s| && s[i + 1] == QUOTE {
          r, i := r.(field := r.field + [QUOTE]), i + 1;
        } else if c == QUOTE {
          r := r.(quoted := false, afterQuote := true);
        } else {
          r := r.(field := r.field + [c]);
        }
      } else if c == COMMA {
        r := r.EndField();
      } else if c == LF || c == CR {
        if c == CR && i + 1 < |s| && s[i + 1] == LF { i := i + 1; }
        r := r.EndRow();
      } else if c == QUOTE && r.field == [] && !r.afterQuote {
        r := r.(quoted := true);
      } else if c == QUOTE || r.afterQuote {
        return Err(JunkAfterQuote);
      } else {
        r := r.(field := r.field + [c]);
      }
      i := i + 1;
    }
    if r.quoted { return Err(UnclosedQuote); }
    if r.field != [] || r.row != [] || r.afterQuote { r := r.EndRow(); }
    return Ok(r.rows);
  }

  // ---------------------------------------------------------------- the printer

  /** `/^[\s]*[=+\-@]/`: a spreadsheet would run this cell. */
  predicate IsFormula(s: JsString) {
    s != [] && (if IsSpace(s[0]) then IsFormula(s[1..]) else s[0] in {61, 43, 45, 64})
  }

  function Guard(s: JsString): JsString {
    if IsFormula(s) then [APOSTROPHE] + s else s
  }

  predicate NeedsQuotes(s: JsString) {
    QUOTE in s || COMMA in s || CR in s || LF in s
  }

  // Each printer below writes its text followed by `k`, the text that comes after it.

  /** Every quote written twice. */
  function Doubled(s: JsString, k: JsString): JsString {
    if s == [] then k
    else if s[0] == QUOTE then [QUOTE, QUOTE] + Doubled(s[1..], k)
    else [s[0]] + Doubled(s[1..], k)
  }

  function CellText(s: JsString, k: JsString): JsString {
    if NeedsQuotes(s) then [QUOTE] + Doubled(s, [QUOTE] + k) else s + k
  }

  /** Cells joined by commas. */
  function RowText(row: Row, k: JsString): JsString {
    if row == [] then k
    else CellText(row[0], if |row| == 1 then k else [COMMA] + RowText(row[1..], k))
  }

  /** Rows joined by CRLF. */
  function GridText(g: Grid, k: JsString): JsString {
    if g == [] then k
    else RowText(g[0], if |g| == 1 then k else [CR, LF] + GridText(g[1..], k))
  }

  function GuardRow(row: Row): (r: Row)
    ensures |r| == |row| && forall i :: 0 <= i < |row| ==> r[i] == Guard(row[i])
  {
    if row == [] then [] else [Guard(row[0])] + GuardRow(row[1..])
  }

  function GuardGrid(g: Grid): (r: Grid)
    ensures |r| == |g| && forall i :: 0 <= i < |g| ==> r[i] == GuardRow(g[i])
  {
    if g == [] then [] else [GuardRow(g[0])] + GuardGrid(g[1..])
  }

  /** The text `jsonToCsv` prints for a grid. */
  function Print(g: Grid): JsString {
    GridText(GuardGrid(g), [])
  }
}
