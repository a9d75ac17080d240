/**
  CSV ingestion on the import page: the naive comma/newline splitter, the
  whole-column type inference, the coercion of raw rows into typed row
  objects, the file and name guards, and the dataset handed to the store.
 */
module CsvImport {
  import opened Common
  import opened JsString
  import opened JsNumber
  import opened DataModel
  import opened DatasetStore

  datatype ParsedCsv = ParsedCsv(headers: seq<string>, rows: seq<seq<string>>)

  /** One line split on `,`, every field trimmed. */
  function SplitFields(line: string): (r: seq<string>)
    ensures |r| == CountChar(line, ',') + 1
    ensures forall i :: 0 <= i < |r| ==> IsTrimmed(r[i])
  {
    Map(Split(line, ','), Trim)
  }

  /** A line kept as a data row: not blank once trimmed. */
  predicate IsContentLine(line: string)
  {
    Trim(line) != ""
  }

  /** `parseCSV`. */
  function ParseCsv(text: string): ParsedCsv
  {
    var lines := Split(text, '\n');
    if |lines| == 0 then ParsedCsv([], [])
    else ParsedCsv(SplitFields(lines[0]), Map(Filter(lines[1..], IsContentLine), SplitFields))
  }

  /**
    One header per comma of the first line plus one, every header and every
    cell trimmed, and at most one data row per line break.
   */
  lemma ParseCsvShape(text: string)
    ensures var p := ParseCsv(text);
      && |p.headers| == CountChar(Split(text, '\n')[0], ',') + 1
      && (forall i :: 0 <= i < |p.headers| ==> IsTrimmed(p.headers[i]))
      && |p.rows| <= CountChar(text, '\n')
      && (forall k, i :: 0 <= k < |p.rows| && 0 <= i < |p.rows[k]| ==> IsTrimmed(p.rows[k][i]))
  {
    var lines := Split(text, '\n');
    var kept := Filter(lines[1..], IsContentLine);
    var rows := Map(kept, SplitFields);
    assert forall k :: 0 <= k < |rows| ==> rows[k] == SplitFields(kept[k]);
  }

  /** The guard against zero lines can never fire: empty text is one empty header and no rows. */
  lemma EmptyText()
    ensures |Split("", '\n')| == 1
    ensures ParseCsv("") == ParsedCsv([""], [])
  {
    assert Split("", ',') == [""];
    assert Trim("") == "";
  }

  /**
    The data rows are the non-blank lines after the first, each split on `,`
    with every cell trimmed: the k-th row comes from the k-th such line, in
    file order, and every such line gives exactly one row.
   */
  lemma RowsAreContentLines(text: string)
    ensures var body := Split(text, '\n')[1..];
      exists idx :: (IsPositions(idx, body, IsContentLine) && |idx| == |ParseCsv(text).rows| &&
        forall k :: 0 <= k < |idx| ==> ParseCsv(text).rows[k] == SplitFields(body[idx[k]]))
  {
    var body := Split(text, '\n')[1..];
    assert ParseCsv(text).rows == Map(Filter(body, IsContentLine), SplitFields);
    MapFilterPositions(body, IsContentLine, SplitFields);
  }

  /** A file with no blank line after the header has one row per remaining line. */
  lemma NoBlankLines(text: string)
    requires forall j :: 1 <= j < |Split(text, '\n')| ==> !IsBlank(Split(text, '\n')[j])
    ensures |ParseCsv(text).rows| == CountChar(text, '\n')
  {
    var lines := Split(text, '\n');
    assert forall i :: 0 <= i < |lines[1..]| ==> IsContentLine(lines[1..][i]) by {
      forall i | 0 <= i < |lines[1..]| ensures IsContentLine(lines[1..][i]) {
        assert lines[1..][i] == lines[i + 1];
      }
    }
  }

  /** A field the renderer can write back: trimmed, and free of both separators. */
  predicate IsPlainField(f: string)
  {
    IsTrimmed(f) && ',' !in f && '\n' !in f
  }

  /** A table that `ParseCsv` reads back unchanged. */
  predicate IsPlainTable(headers: seq<string>, rows: seq<seq<string>>)
  {
    && |headers| >= 1
    && (forall i :: 0 <= i < |headers| ==> IsPlainField(headers[i]))
    && (forall k :: 0 <= k < |rows| ==> |rows[k]| >= 1 && !IsBlank(Join(rows[k], ',')))
    && (forall k, i :: 0 <= k < |rows| && 0 <= i < |rows[k]| ==> IsPlainField(rows[k][i]))
  }

  /** The text of one row: its fields joined by `,`. */
  function RowLines(rows: seq<seq<string>>): (r: seq<string>)
    requires forall k :: 0 <= k < |rows| ==> |rows[k]| >= 1
    ensures |r| == |rows| && forall k :: 0 <= k < |rows| ==> r[k] == Join(rows[k], ',')
  {
    seq(|rows|, k requires 0 <= k < |rows| => Join(rows[k], ','))
  }

  /** The text of a table: header line, then one line per row. */
  function Render(headers: seq<string>, rows: seq<seq<string>>): string
    requires IsPlainTable(headers, rows)
  {
    Join([Join(headers, ',')] + RowLines(rows), '\n')
  }

  lemma SplitFieldsOfJoin(fields: seq<string>)
    requires |fields| >= 1 && forall i :: 0 <= i < |fields| ==> IsPlainField(fields[i])
    ensures SplitFields(Join(fields, ',')) == fields
    ensures '\n' !in Join(fields, ',')
  {
    SplitJoin(fields, ',');
    JoinAvoids(fields, ',', '\n');
  }

  lemma RowLinesSplit(rows: seq<seq<string>>)
    requires forall k :: 0 <= k < |rows| ==> |rows[k]| >= 1
    requires forall k, i :: 0 <= k < |rows| && 0 <= i < |rows[k]| ==> IsPlainField(rows[k][i])
    ensures forall k :: 0 <= k < |rows| ==> '\n' !in RowLines(rows)[k]
    ensures Map(RowLines(rows), SplitFields) == rows
  {
    forall k | 0 <= k < |rows|
      ensures SplitFields(RowLines(rows)[k]) == rows[k] && '\n' !in RowLines(rows)[k]
    {
      SplitFieldsOfJoin(rows[k]);
    }
  }

  lemma RenderLines(headers: seq<string>, rows: seq<seq<string>>)
    requires IsPlainTable(headers, rows)
    ensures Split(Render(headers, rows), '\n') == [Join(headers, ',')] + RowLines(rows)
    ensures SplitFields(Join(headers, ',')) == headers
    ensures Map(RowLines(rows), SplitFields) == rows
  {
    var rowLines := RowLines(rows);
    var lines := [Join(headers, ',')] + rowLines;
    SplitFieldsOfJoin(headers);
    RowLinesSplit(rows);
    forall i | 0 <= i < |lines| ensures '\n' !in lines[i] {
      if i > 0 {
        assert lines[i] == rowLines[i - 1];
      }
    }
    SplitJoin(lines, '\n');
  }

  lemma RowLinesAreContent(rows: seq<seq<string>>)
    requires forall k :: 0 <= k < |rows| ==> |rows[k]| >= 1 && !IsBlank(Join(rows[k], ','))
    ensures Filter(RowLines(rows), IsContentLine) == RowLines(rows)
  {
  }

  /** Parsing the rendering of a plain table gives the table back. */
  lemma ParseRender(headers: seq<string>, rows: seq<seq<string>>)
    requires IsPlainTable(headers, rows)
    ensures ParseCsv(Render(headers, rows)) == ParsedCsv(headers, rows)
  {
    RenderLines(headers, rows);
    RowLinesAreContent(rows);
    var lines := Split(Render(headers, rows), '\n');
    assert lines[1..] == RowLines(rows);
  }

  // ---------------------------------------------------------------------
  // Column type inference

  /** `/^\d{4}-\d{2}-\d{2}$|^\d{2}\/\d{2}\/\d{4}$/`: the digit pattern only, no calendar check. */
  predicate IsDate(v: string)
  {
    |v| == 10 &&
    ((IsDigits(v[0..4]) && v[4] == '-' && IsDigits(v[5..7]) && v[7] == '-' && IsDigits(v[8..10])) ||
     (IsDigits(v[0..2]) && v[2] == '/' && IsDigits(v[3..5]) && v[5] == '/' && IsDigits(v[6..10])))
  }

  const BooleanWords: seq<string> := ["true", "false", "0", "1", "yes", "no"]

  /** Read as `true` by the coercion of a boolean cell. */
  const TrueWords: seq<string> := ["true", "1", "yes"]

  predicate IsBooleanWord(v: string)
  {
    ToLower(v) in BooleanWords
  }

  predicate IsNonEmpty(v: string)
  {
    v != ""
  }

  /** `detectColumnType`: the first of number, date, boolean that every non-empty value fits. */
  function DetectColumnType(values: seq<string>): ColumnType
  {
    var nonEmpty := Filter(values, IsNonEmpty);
    if |nonEmpty| == 0 then StringType
    else if All(nonEmpty, IsNumeric) then NumberType
    else if All(nonEmpty, IsDate) then DateType
    else if All(nonEmpty, IsBooleanWord) then BooleanType
    else StringType
  }

  /** Some value of the column is not the empty string. */
  predicate HasContent(values: seq<string>)
  {
    exists i | 0 <= i < |values| :: values[i] != ""
  }

  /** Every non-empty value of the column satisfies `p`. */
  predicate EveryContent(values: seq<string>, p: string -> bool)
  {
    forall i | 0 <= i < |values| :: values[i] != "" ==> p(values[i])
  }

  lemma NonEmptyFilter(values: seq<string>, p: string -> bool)
    ensures |Filter(values, IsNonEmpty)| > 0 <==> HasContent(values)
    ensures All(Filter(values, IsNonEmpty), p) <==> EveryContent(values, p)
  {
    var n := Filter(values, IsNonEmpty);
    if HasContent(values) {
      var i :| 0 <= i < |values| && values[i] != "";
      assert values[i] in n;
    }
    if |n| > 0 {
      assert n[0] in n;
    }
    if All(n, p) {
      forall i | 0 <= i < |values| && values[i] != "" ensures p(values[i]) {
        assert values[i] in n;
      }
    }
    if EveryContent(values, p) {
      forall j | 0 <= j < |n| ensures p(n[j]) {
        assert n[j] in n;
      }
    }
  }

  /** A non-digit other than `e`, `E` or `.` after a run of digits spoils a decimal literal. */
  lemma NotDecimalAt(s: string, k: nat)
    requires k < |s| && !IsDigit(s[k]) && !IsExponentMark(s[k]) && !IsPoint(s[k])
    requires forall j :: 0 <= j < k ==> IsDigit(s[j])
    ensures UnsignedDecimal(s) == None
  {
    var e := FirstWhere(s, IsExponentMark);
    assert k < e;
    var m := s[..e];
    var d := FirstWhere(m, IsPoint);
    assert k < d;
    assert m[..d][k] == s[k];
  }

  /** Trimmed text made of at least two digits, then such a character, is not numeric. */
  lemma NotNumericAt(s: string, k: nat)
    requires 2 <= k < |s| && !IsDigit(s[k]) && !IsExponentMark(s[k]) && !IsPoint(s[k])
    requires forall j :: 0 <= j < k ==> IsDigit(s[j])
    requires !IsWhitespace(s[|s| - 1])
    ensures !IsNumeric(s)
  {
    assert IsDigit(s[0]) && IsDigit(s[1]);
    assert IsTrimmed(s);
    NumberOfTrimmedDecimal(s);
    NotDecimalAt(s, k);
  }

  /** A date is never numeric, so date columns are not swallowed by the number check. */
  lemma DateIsNotNumeric(v: string)
    requires IsDate(v)
    ensures !IsNumeric(v)
  {
    if v[4] == '-' {
      assert v[9] == v[8..10][1];
      assert forall j :: 0 <= j < 4 ==> v[j] == v[0..4][j];
      NotNumericAt(v, 4);
    } else {
      assert v[9] == v[6..10][3];
      assert forall j :: 0 <= j < 2 ==> v[j] == v[0..2][j];
      NotNumericAt(v, 2);
    }
  }

  /** A boolean word is never a date. */
  lemma BooleanWordIsNotDate(v: string)
    requires IsBooleanWord(v)
    ensures !IsDate(v)
  {
    assert |ToLower(v)| <= 5;
  }

  /**
    What the detected type means, stated on the raw column: a column of empty
    values is a string column; it is a number column when every non-empty value
    is numeric, a date column when every one is a date, and a boolean column
    when every one is a boolean word and not all are numeric.
   */
  lemma DetectedTypeMeaning(values: seq<string>)
    ensures !HasContent(values) ==> DetectColumnType(values) == StringType
    ensures DetectColumnType(values) == NumberType <==>
      HasContent(values) && EveryContent(values, IsNumeric)
    ensures DetectColumnType(values) == DateType <==>
      HasContent(values) && EveryContent(values, IsDate)
    ensures DetectColumnType(values) == BooleanType <==>
      HasContent(values) && EveryContent(values, IsBooleanWord) && !EveryContent(values, IsNumeric)
  {
    NonEmptyFilter(values, IsNumeric);
    NonEmptyFilter(values, IsDate);
    NonEmptyFilter(values, IsBooleanWord);
    if HasContent(values) {
      var i :| 0 <= i < |values| && values[i] != "";
      if IsDate(values[i]) {
        DateIsNotNumeric(values[i]);
      }
      if IsBooleanWord(values[i]) {
        BooleanWordIsNotDate(values[i]);
      }
    }
  }

  /** A column with no non-empty value is a string column. */
  lemma AllEmptyIsString(values: seq<string>)
    requires forall i :: 0 <= i < |values| ==> values[i] == ""
    ensures DetectColumnType(values) == StringType
  {
    DetectedTypeMeaning(values);
  }

  /** `"0"` and `"1"` are numbers before they are booleans. */
  lemma ZeroOneColumnIsNumber(values: seq<string>, k: nat)
    requires forall i :: 0 <= i < |values| ==> values[i] == "0" || values[i] == "1" || values[i] == ""
    requires k < |values| && values[k] != ""
    ensures DetectColumnType(values) == NumberType
  {
    ZeroOneAreNumeric();
    assert HasContent(values);
    assert EveryContent(values, IsNumeric);
    DetectedTypeMeaning(values);
  }

  lemma ZeroOneAreNumeric()
    ensures IsNumeric("0") && IsNumeric("1")
  {
    SingleDigitIsNumeric('0');
    SingleDigitIsNumeric('1');
    assert "0" == ['0'] && "1" == ['1'];
  }

  /** One value that is not numeric, not a date and not a boolean word makes the column a string column. */
  lemma OneOddValueDemotes(values: seq<string>, k: nat)
    requires k < |values| && values[k] != ""
    requires !IsNumeric(values[k]) && !IsDate(values[k]) && !IsBooleanWord(values[k])
    ensures DetectColumnType(values) == StringType
  {
    DetectedTypeMeaning(values);
  }

  /**
    Type strictness: number is stricter than boolean, and every type is
    stricter than string. Dates and booleans are unrelated.
   */
  predicate NoLooser(a: ColumnType, b: ColumnType)
  {
    a == b || b == StringType || (a == NumberType && b == BooleanType)
  }

  lemma EveryContentPrefix(values: seq<string>, more: seq<string>, p: string -> bool)
    requires EveryContent(values + more, p)
    ensures EveryContent(values, p)
  {
    assert forall i :: 0 <= i < |values| ==> (values + more)[i] == values[i];
  }

  /** Adding values to a column that has content never makes its type stricter. */
  lemma MoreValuesLoosen(values: seq<string>, more: seq<string>, k: nat)
    requires k < |values| && values[k] != ""
    ensures NoLooser(DetectColumnType(values), DetectColumnType(values + more))
  {
    DetectedTypeMeaning(values);
    DetectedTypeMeaning(values + more);
    assert (values + more)[k] == values[k];
    if EveryContent(values + more, IsNumeric) {
      EveryContentPrefix(values, more, IsNumeric);
    }
    if EveryContent(values + more, IsDate) {
      EveryContentPrefix(values, more, IsDate);
    }
    if EveryContent(values + more, IsBooleanWord) {
      EveryContentPrefix(values, more, IsBooleanWord);
    }
  }

  // ---------------------------------------------------------------------
  // Missing cells

  /**
    A JavaScript evaluation that either gives a value or throws a
    `TypeError` (here: `toLowerCase` called on `undefined`).
   */
  datatype Attempt<T> = Ok(value: T) | Threw

  /** `row[index]`: the cell, or `undefined` past the end of a short row. */
  function Cell(row: seq<string>, i: nat): Option<string>
  {
    if i < |row| then Some(row[i]) else None
  }

  /** `rows.map(row => row[index])`: column `i`, `undefined` where a row is too short to reach it. */
  function ColumnCells(rows: seq<seq<string>>, i: nat): (r: seq<Option<string>>)
    ensures |r| == |rows| && forall k :: 0 <= k < |rows| ==> r[k] == Cell(rows[k], i)
  {
    Map(rows, (row: seq<string>) => Cell(row, i))
  }

  /** A column none of whose cells is missing. */
  function FullColumn(values: seq<string>): (r: seq<Option<string>>)
    ensures |r| == |values| && forall k :: 0 <= k < |values| ==> r[k] == Some(values[k])
  {
    if values == [] then [] else [Some(values[0])] + FullColumn(values[1..])
  }

  /** `v !== ''`: a missing cell passes the non-empty filter. */
  predicate IsContentCell(c: Option<string>)
  {
    c != Some("")
  }

  /** `!isNaN(Number(v))`: `Number(undefined)` is `NaN`. */
  predicate IsNumericCell(c: Option<string>)
  {
    c.Some? && IsNumeric(c.value)
  }

  /** `dateRegex.test(v)`: `undefined` is tested as the text `"undefined"`, which fails. */
  predicate IsDateCell(c: Option<string>)
  {
    c.Some? && IsDate(c.value)
  }

  predicate IsBooleanCell(c: Option<string>)
  {
    c.Some? && IsBooleanWord(c.value)
  }

  /** Where `every` stops in the boolean test: the first cell that is not a boolean word, or the length. */
  function FirstNonBoolean(cells: seq<Option<string>>): (k: nat)
    ensures k <= |cells|
    ensures forall j :: 0 <= j < k ==> IsBooleanCell(cells[j])
    ensures k < |cells| ==> !IsBooleanCell(cells[k])
  {
    if cells == [] || !IsBooleanCell(cells[0]) then 0 else 1 + FirstNonBoolean(cells[1..])
  }

  /**
    `detectColumnType` on the cells of a column, some of which may be
    missing. The number and date tests reject a missing cell quietly; the
    boolean test walks the cells in order and throws at a missing one
    unless an earlier cell has already failed it.
   */
  function DetectCells(cells: seq<Option<string>>): Attempt<ColumnType>
  {
    var nonEmpty := Filter(cells, IsContentCell);
    if |nonEmpty| == 0 then Ok(StringType)
    else if All(nonEmpty, IsNumericCell) then Ok(NumberType)
    else if All(nonEmpty, IsDateCell) then Ok(DateType)
    else
      var k := FirstNonBoolean(nonEmpty);
      if k == |nonEmpty| then Ok(BooleanType)
      else if nonEmpty[k].None? then Threw
      else Ok(StringType)
  }

  lemma {:induction false} FilterFullColumn(values: seq<string>)
    ensures Filter(FullColumn(values), IsContentCell) == FullColumn(Filter(values, IsNonEmpty))
  {
    if values != [] {
      var cells := FullColumn(values);
      assert cells[0] == Some(values[0]) && cells[1..] == FullColumn(values[1..]);
      FilterFullColumn(values[1..]);
      var rest := Filter(values[1..], IsNonEmpty);
      if values[0] != "" {
        assert Filter(values, IsNonEmpty) == [values[0]] + rest;
        assert ([values[0]] + rest)[1..] == rest;
      } else {
        assert Filter(values, IsNonEmpty) == rest;
      }
    }
  }

  lemma AllFullColumn(values: seq<string>, p: Option<string> -> bool, q: string -> bool)
    requires forall v :: p(Some(v)) == q(v)
    ensures All(FullColumn(values), p) <==> All(values, q)
  {
    var cells := FullColumn(values);
    assert forall i :: 0 <= i < |values| ==> p(cells[i]) == q(values[i]);
  }

  /** A column without missing cells never throws, and gets the type `DetectColumnType` gives its values. */
  lemma DetectFullColumn(values: seq<string>)
    ensures DetectCells(FullColumn(values)) == Ok(DetectColumnType(values))
  {
    FilterFullColumn(values);
    var n := Filter(values, IsNonEmpty);
    var cells := FullColumn(n);
    AllFullColumn(n, IsNumericCell, IsNumeric);
    AllFullColumn(n, IsDateCell, IsDate);
    AllFullColumn(n, IsBooleanCell, IsBooleanWord);
    var k := FirstNonBoolean(cells);
    assert k == |cells| <==> All(cells, IsBooleanCell);
    assert k < |cells| ==> cells[k].Some?;
  }

  /** A column that reaches past a short row is never typed number, date or boolean. */
  lemma MissingCellColumn(cells: seq<Option<string>>, m: nat)
    requires m < |cells| && cells[m].None?
    ensures DetectCells(cells) == Ok(StringType) || DetectCells(cells) == Threw
  {
    var nonEmpty := Filter(cells, IsContentCell);
    assert cells[m] in nonEmpty;
    var i :| 0 <= i < |nonEmpty| && nonEmpty[i] == cells[m];
    assert !IsNumericCell(nonEmpty[i]) && !IsDateCell(nonEmpty[i]);
    assert !IsBooleanCell(nonEmpty[i]);
  }

  /**
    Where the first missing cell lands among the non-empty cells, when every
    non-empty cell before it is a boolean word.
   */
  lemma MissingAmongContent(cells: seq<Option<string>>, m: nat) returns (b: nat)
    requires m < |cells| && cells[m].None?
    requires forall j :: 0 <= j < m ==> cells[j] == Some("") || IsBooleanCell(cells[j])
    ensures b < |Filter(cells, IsContentCell)| && Filter(cells, IsContentCell)[b].None?
    ensures forall j :: 0 <= j < b ==> IsBooleanCell(Filter(cells, IsContentCell)[j])
  {
    var before := Filter(cells[..m], IsContentCell);
    var after := Filter(cells[m..], IsContentCell);
    assert cells == cells[..m] + cells[m..];
    FilterAppend(cells[..m], cells[m..], IsContentCell);
    assert cells[m..][0] == cells[m];
    assert after[0] == None;
    forall j | 0 <= j < |before| ensures IsBooleanCell(before[j]) {
      assert before[j] in before;
    }
    b := |before|;
    assert Filter(cells, IsContentCell) == before + after;
  }

  /**
    The detection throws when the first cell that is neither empty nor a
    boolean word is a missing one.
   */
  lemma MissingCellThrows(cells: seq<Option<string>>, m: nat)
    requires m < |cells| && cells[m].None?
    requires forall j :: 0 <= j < m ==> cells[j] == Some("") || IsBooleanCell(cells[j])
    ensures DetectCells(cells) == Threw
  {
    var nonEmpty := Filter(cells, IsContentCell);
    var b := MissingAmongContent(cells, m);
    assert !IsNumericCell(nonEmpty[b]) && !IsDateCell(nonEmpty[b]) && !IsBooleanCell(nonEmpty[b]);
    assert FirstNonBoolean(nonEmpty) == b;
  }

  // ---------------------------------------------------------------------
  // Columns and typed rows

  /** Every row has a cell for every header. */
  predicate Rectangular(p: ParsedCsv)
  {
    forall k :: 0 <= k < |p.rows| ==> |p.rows[k]| >= |p.headers|
  }

  /** Column `i` of rows that all reach it. */
  function ColumnValues(rows: seq<seq<string>>, i: nat): (r: seq<string>)
    requires forall k :: 0 <= k < |rows| ==> i < |rows[k]|
    ensures |r| == |rows| && forall k :: 0 <= k < |rows| ==> r[k] == rows[k][i]
  {
    seq(|rows|, k requires 0 <= k < |rows| => rows[k][i])
  }

  /**
    `headers.map((name, index) => ({ name, type: detectColumnType(...) }))`:
    one column per header, named after it and typed from its cells; the
    whole map throws when the detection of some column does.
   */
  function InferColumns(p: ParsedCsv): (r: Attempt<seq<Column>>)
    ensures r.Threw? <==> exists i :: 0 <= i < |p.headers| && DetectCells(ColumnCells(p.rows, i)).Threw?
    ensures r.Ok? ==> Names(r.value) == p.headers
    ensures r.Ok? ==> forall i :: 0 <= i < |p.headers| ==> DetectCells(ColumnCells(p.rows, i)) == Ok(r.value[i].kind)
  {
    if exists i :: 0 <= i < |p.headers| && DetectCells(ColumnCells(p.rows, i)).Threw? then Threw
    else Ok(seq(|p.headers|, i requires 0 <= i < |p.headers| =>
      Column(p.headers[i], DetectCells(ColumnCells(p.rows, i)).value)))
  }

  /** When every row reaches every header, inference succeeds and types each column from its values. */
  lemma RectangularColumns(p: ParsedCsv)
    requires Rectangular(p)
    ensures InferColumns(p).Ok?
    ensures forall i :: 0 <= i < |p.headers| ==>
      InferColumns(p).value[i].kind == DetectColumnType(ColumnValues(p.rows, i))
  {
    forall i | 0 <= i < |p.headers|
      ensures DetectCells(ColumnCells(p.rows, i)) == Ok(DetectColumnType(ColumnValues(p.rows, i)))
    {
      assert ColumnCells(p.rows, i) == FullColumn(ColumnValues(p.rows, i));
      DetectFullColumn(ColumnValues(p.rows, i));
    }
  }

  /** The position of the first column called `name`, or `|cols|` when there is none. */
  function FirstNamed(cols: seq<Column>, name: string): (k: nat)
    ensures k <= |cols|
    ensures forall j :: 0 <= j < k ==> cols[j].name != name
    ensures k < |cols| ==> cols[k].name == name
  {
    if cols == [] || cols[0].name == name then 0 else 1 + FirstNamed(cols[1..], name)
  }

  /** `columns.find(col => col.name === name)?.type`. */
  function FindType(cols: seq<Column>, name: string): (t: Option<ColumnType>)
    ensures t.None? <==> forall i :: 0 <= i < |cols| ==> cols[i].name != name
    ensures forall i :: 0 <= i < |cols| && cols[i].name == name && (forall j :: 0 <= j < i ==> cols[j].name != name) ==> t == Some(cols[i].kind)
  {
    var k := FirstNamed(cols, name);
    if k < |cols| then Some(cols[k].kind) else None
  }

  /** The coercion of one cell, possibly missing, under its column's type. */
  function CoerceCell(kind: Option<ColumnType>, cell: Option<string>): Attempt<Value>
  {
    match kind
    case Some(NumberType) =>
      if cell.Some? && cell.value != "" then
        match ToNumber(cell.value)
        case Some(x) => Ok(Num(x))
        case None => Ok(NaN)
      else Ok(Null)
    case Some(BooleanType) =>
      if cell.Some? then Ok(Bool(ToLower(cell.value) in TrueWords)) else Threw
    case _ =>
      if cell.Some? then Ok(Str(cell.value)) else Ok(Undefined)
  }

  /** A boolean cell is true exactly for `true`, `1` and `yes`, false for the other boolean words. */
  lemma BooleanCellMeaning(v: string)
    requires IsBooleanWord(v)
    ensures CoerceCell(Some(BooleanType), Some(v)) == Ok(Bool(ToLower(v) in ["true", "1", "yes"]))
    ensures CoerceCell(Some(BooleanType), Some(v)) == Ok(Bool(false)) <==> ToLower(v) in ["false", "0", "no"]
  {
  }

  /** An empty number cell is `null`; a non-empty cell of a number column is its numeric value, never `NaN`. */
  lemma NumberCellMeaning(v: string)
    ensures v == "" ==> CoerceCell(Some(NumberType), Some(v)) == Ok(Null)
    ensures v != "" && IsNumeric(v) ==> CoerceCell(Some(NumberType), Some(v)) == Ok(Num(ToNumber(v).value))
  {
  }

  /** Strings and dates are kept as the trimmed text. */
  lemma TextCellMeaning(v: string)
    ensures CoerceCell(Some(StringType), Some(v)) == Ok(Str(v))
    ensures CoerceCell(Some(DateType), Some(v)) == Ok(Str(v))
  {
  }

  /**
    A missing cell throws only in a boolean column; it is `null` in a
    number column and `undefined` in the others.
   */
  lemma MissingCellMeaning(kind: Option<ColumnType>)
    ensures CoerceCell(kind, None) == Threw <==> kind == Some(BooleanType)
    ensures kind == Some(NumberType) ==> CoerceCell(kind, None) == Ok(Null)
    ensures kind != Some(NumberType) && kind != Some(BooleanType) ==> CoerceCell(kind, None) == Ok(Undefined)
  {
  }

  /** The position of the last occurrence of `x`. */
  function LastIndex(s: seq<string>, x: string): (k: nat)
    requires x in s
    ensures k < |s| && s[k] == x
    ensures forall j :: k < j < |s| ==> s[j] != x
  {
    if s[|s| - 1] == x then |s| - 1
    else
      assert x in s[..|s| - 1] by {
        var i :| 0 <= i < |s| && s[i] == x;
        assert s[..|s| - 1][i] == x;
      }
      LastIndex(s[..|s| - 1], x)
  }

  /** The cell under header `i` throws when coerced under the type of the first column with that header's name. */
  predicate CellThrows(headers: seq<string>, cols: seq<Column>, row: seq<string>, i: nat)
    requires i < |headers|
  {
    CoerceCell(FindType(cols, headers[i]), Cell(row, i)).Threw?
  }

  /**
    The row object built for one raw row, header by header as the
    `headers.forEach` loop builds it: each header sets its key to the cell
    under it, coerced under the type of the first column with that name, and
    the first cell whose coercion throws makes the whole row throw.
   */
  function RowObject(headers: seq<string>, cols: seq<Column>, row: seq<string>): Attempt<Row>
    decreases |headers|
  {
    if headers == [] then Ok(map[])
    else
      var n := |headers| - 1;
      var front := RowObject(headers[..n], cols, row);
      var cell := CoerceCell(FindType(cols, headers[n]), Cell(row, n));
      if front.Threw? || cell.Threw? then Threw
      else Ok(front.value[headers[n] := cell.value])
  }

  /** A row throws exactly when the coercion of one of its cells does. */
  lemma {:induction false} RowObjectThrows(headers: seq<string>, cols: seq<Column>, row: seq<string>)
    ensures RowObject(headers, cols, row).Threw? <==>
      exists i :: 0 <= i < |headers| && CellThrows(headers, cols, row, i)
    decreases |headers|
  {
    if headers != [] {
      var n := |headers| - 1;
      var init := headers[..n];
      RowObjectThrows(init, cols, row);
      if RowObject(init, cols, row).Threw? {
        var i :| 0 <= i < n && CellThrows(init, cols, row, i);
        assert init[i] == headers[i];
        assert CellThrows(headers, cols, row, i);
      } else if !CellThrows(headers, cols, row, n) {
        forall i | 0 <= i < |headers| ensures !CellThrows(headers, cols, row, i) {
          if i < n {
            assert init[i] == headers[i];
            assert !CellThrows(init, cols, row, i);
          }
        }
      }
    }
  }

  /**
    A row that does not throw has the headers as its keys, and the value
    under each is the cell of the LAST column with that name, coerced under
    the type of the FIRST column with that name.
   */
  lemma {:induction false} RowObjectEntries(headers: seq<string>, cols: seq<Column>, row: seq<string>)
    requires RowObject(headers, cols, row).Ok?
    ensures forall h :: h in RowObject(headers, cols, row).value <==> h in headers
    ensures forall h :: h in headers ==>
      Ok(RowObject(headers, cols, row).value[h]) == CoerceCell(FindType(cols, h), Cell(row, LastIndex(headers, h)))
    decreases |headers|
  {
    if headers != [] {
      var n := |headers| - 1;
      var init := headers[..n];
      RowObjectEntries(init, cols, row);
      var m := RowObject(headers, cols, row).value;
      forall h | h in headers
        ensures h in m && Ok(m[h]) == CoerceCell(FindType(cols, h), Cell(row, LastIndex(headers, h)))
      {
        if h != headers[n] {
          var i :| 0 <= i < |headers| && headers[i] == h;
          assert init[i] == h;
          assert LastIndex(headers, h) == LastIndex(init, h);
        }
      }
      forall h | h in m ensures h in headers {
        if h != headers[n] {
          var i :| 0 <= i < |init| && init[i] == h;
          assert headers[i] == h;
        }
      }
    }
  }

  /** The `headers.forEach` loop that fills one row object, left by the first cell that throws. */
  method CoerceRow(headers: seq<string>, cols: seq<Column>, row: seq<string>) returns (obj: Attempt<Row>)
    ensures obj == RowObject(headers, cols, row)
  {
    var acc: Row := map[];
    for i := 0 to |headers|
      invariant RowObject(headers[..i], cols, row) == Ok(acc)
    {
      var header := headers[i];
      var value := if i < |row| then Some(row[i]) else None;
      var coerced := CoerceCell(FindType(cols, header), value);
      if coerced.Threw? {
        assert CellThrows(headers, cols, row, i);
        RowObjectThrows(headers, cols, row);
        return Threw;
      }
      assert headers[..i + 1][..i] == headers[..i];
      acc := acc[header := coerced.value];
    }
    assert headers[..|headers|] == headers;
    obj := Ok(acc);
  }

  /** The row objects of all rows, in order; the whole `map` throws when one row does. */
  function RowObjects(headers: seq<string>, cols: seq<Column>, rows: seq<seq<string>>): (r: Attempt<seq<Row>>)
    ensures r.Threw? <==> exists k :: 0 <= k < |rows| && RowObject(headers, cols, rows[k]).Threw?
    ensures r.Ok? ==> |r.value| == |rows|
    ensures r.Ok? ==> forall k :: 0 <= k < |rows| ==> RowObject(headers, cols, rows[k]) == Ok(r.value[k])
  {
    if rows == [] then Ok([])
    else
      var init := rows[..|rows| - 1];
      assert forall k :: 0 <= k < |init| ==> init[k] == rows[k];
      var front := RowObjects(headers, cols, init);
      var last := RowObject(headers, cols, rows[|rows| - 1]);
      if front.Threw? || last.Threw? then Threw
      else
        var objs := front.value + [last.value];
        assert forall k :: 0 <= k < |init| ==> objs[k] == front.value[k];
        Ok(objs)
  }

  /** `rows.map(row => { ... })`. */
  method CoerceRows(headers: seq<string>, cols: seq<Column>, rows: seq<seq<string>>) returns (objs: Attempt<seq<Row>>)
    ensures objs == RowObjects(headers, cols, rows)
  {
    var acc: seq<Row> := [];
    for k := 0 to |rows|
      invariant RowObjects(headers, cols, rows[..k]) == Ok(acc)
    {
      var obj := CoerceRow(headers, cols, rows[k]);
      if obj.Threw? {
        return Threw;
      }
      assert rows[..k + 1][..k] == rows[..k];
      acc := acc + [obj.value];
    }
    assert rows[..|rows|] == rows;
    objs := Ok(acc);
  }

  /** A row that reaches every header never throws. */
  lemma FullRowObject(headers: seq<string>, cols: seq<Column>, row: seq<string>)
    requires |row| >= |headers|
    ensures RowObject(headers, cols, row).Ok?
  {
    forall i | 0 <= i < |headers| ensures !CellThrows(headers, cols, row, i) {
      assert Cell(row, i).Some?;
    }
    RowObjectThrows(headers, cols, row);
  }

  /**
    With distinct headers, and a schema naming the headers in order (as
    `InferColumns` does), column `i` of the row is coerced under column `i`'s
    own type.
   */
  lemma RowObjectDistinct(headers: seq<string>, cols: seq<Column>, row: seq<string>, i: nat)
    requires Names(cols) == headers && i < |headers| && RowObject(headers, cols, row).Ok?
    requires forall a, b :: 0 <= a < b < |headers| ==> headers[a] != headers[b]
    ensures headers[i] in RowObject(headers, cols, row).value &&
            Ok(RowObject(headers, cols, row).value[headers[i]]) == CoerceCell(Some(cols[i].kind), Cell(row, i))
  {
    RowObjectEntries(headers, cols, row);
    assert forall j :: 0 <= j < |cols| ==> cols[j].name == headers[j];
    assert LastIndex(headers, headers[i]) == i;
    assert !CellThrows(headers, cols, row, i);
    assert FindType(cols, headers[i]) == Some(cols[i].kind);
  }

  /**
    With a repeated header, the value under that name is the later column's
    cell, coerced under the earlier column's type.
   */
  lemma RowObjectDuplicate(headers: seq<string>, cols: seq<Column>, row: seq<string>, i: nat, j: nat)
    requires Names(cols) == headers && RowObject(headers, cols, row).Ok?
    requires i < j < |headers| && headers[i] == headers[j]
    requires forall a :: 0 <= a < i ==> headers[a] != headers[i]
    requires forall b :: j < b < |headers| ==> headers[b] != headers[j]
    ensures headers[i] in RowObject(headers, cols, row).value &&
            Ok(RowObject(headers, cols, row).value[headers[i]]) == CoerceCell(Some(cols[i].kind), Cell(row, j))
  {
    RowObjectEntries(headers, cols, row);
    assert forall a :: 0 <= a < |cols| ==> cols[a].name == headers[a];
    assert LastIndex(headers, headers[j]) == j;
    assert !CellThrows(headers, cols, row, j);
    assert FindType(cols, headers[j]) == Some(cols[i].kind);
  }

  // ---------------------------------------------------------------------
  // Import

  const PreviewRows: nat := 10

  /**
    The dataset `handleSubmit` hands to `addDataset` for a parsed file: the
    name as typed, the description, the count of all data rows, the inferred
    schema (each column typed from all of its cells) and the first ten typed rows; or the error that the `catch`
    around them reports.
   */
  function ImportDraft(name: string, description: string, p: ParsedCsv): (d: Attempt<DatasetDraft>)
    ensures InferColumns(p).Threw? ==> d.Threw?
    ensures InferColumns(p).Ok? ==> (d.Threw? <==> RowObjects(p.headers, InferColumns(p).value, p.rows).Threw?)
    ensures d.Ok? ==> d.value.name == name && d.value.description == Some(description)
    ensures d.Ok? ==> d.value.rowCount == |p.rows|
    ensures d.Ok? ==> Names(d.value.columns) == p.headers
    ensures d.Ok? ==> InferColumns(p).Ok? && d.value.columns == InferColumns(p).value
    ensures d.Ok? ==> forall i :: 0 <= i < |p.headers| ==>
      DetectCells(ColumnCells(p.rows, i)) == Ok(d.value.columns[i].kind)
    ensures d.Ok? ==> |d.value.previewData| == Min(PreviewRows, |p.rows|)
    ensures d.Ok? ==> forall k :: 0 <= k < |d.value.previewData| ==>
      RowObject(p.headers, d.value.columns, p.rows[k]) == Ok(d.value.previewData[k])
  {
    match InferColumns(p)
    case Threw => Threw
    case Ok(cols) =>
      match RowObjects(p.headers, cols, p.rows)
      case Threw => Threw
      case Ok(objs) => Ok(DatasetDraft(name, Some(description), |p.rows|, cols, Take(objs, PreviewRows)))
  }

  /** A file whose every row reaches every header always imports. */
  lemma RectangularImports(name: string, description: string, p: ParsedCsv)
    requires Rectangular(p)
    ensures ImportDraft(name, description, p).Ok?
  {
    RectangularColumns(p);
    var cols := InferColumns(p).value;
    forall k | 0 <= k < |p.rows| ensures RowObject(p.headers, cols, p.rows[k]).Ok? {
      FullRowObject(p.headers, cols, p.rows[k]);
    }
  }

  /**
    A row too short for a column whose earlier values are all boolean words
    (or empty) makes the whole import fail.
   */
  lemma ShortRowUnderBooleansFails(name: string, description: string, p: ParsedCsv, i: nat, k: nat)
    requires i < |p.headers| && k < |p.rows| && |p.rows[k]| <= i
    requires forall j :: 0 <= j < k ==> i < |p.rows[j]| && (p.rows[j][i] == "" || IsBooleanWord(p.rows[j][i]))
    ensures ImportDraft(name, description, p).Threw?
  {
    var cells := ColumnCells(p.rows, i);
    forall j | 0 <= j < k ensures cells[j] == Some("") || IsBooleanCell(cells[j]) {
    }
    MissingCellThrows(cells, k);
  }

  /** The `onload` handler of `handleSubmit`: type the columns, then coerce every row. */
  method BuildDraft(name: string, description: string, p: ParsedCsv) returns (d: Attempt<DatasetDraft>)
    ensures d == ImportDraft(name, description, p)
  {
    var cols := InferColumns(p);
    if cols.Threw? {
      return Threw;
    }
    var objs := CoerceRows(p.headers, cols.value, p.rows);
    if objs.Threw? {
      return Threw;
    }
    d := Ok(DatasetDraft(name, Some(description), |p.rows|, cols.value, Take(objs.value, PreviewRows)));
  }

  /**
    Build the dataset for the text read from a file and, unless building it
    threw, add it to the store under `id`; the store is untouched otherwise.
   */
  method AddImported(store: Store, name: string, description: string, content: string, id: string)
    returns (added: bool)
    requires store.Valid() && FindById(store.datasets, id).None?
    modifies store
    ensures store.Valid()
    ensures added <==> ImportDraft(name, description, ParseCsv(content)).Ok?
    ensures added ==>
      var d := WithId(ImportDraft(name, description, ParseCsv(content)).value, id);
      store.datasets == old(store.datasets) + [d] && store.currentDataset == Some(d)
    ensures !added ==> store.datasets == old(store.datasets) && store.currentDataset == old(store.currentDataset)
    ensures store.isLoading == old(store.isLoading) && store.error == old(store.error)
  {
    var draft := BuildDraft(name, description, ParseCsv(content));
    if draft.Threw? {
      return false;
    }
    store.AddDataset(draft.value, id);
    added := true;
  }

  /** The preview shown before submitting: the parse with at most ten rows. */
  function TruncatePreview(p: ParsedCsv): (q: ParsedCsv)
    ensures q.headers == p.headers
    ensures |q.rows| == Min(PreviewRows, |p.rows|) && q.rows == p.rows[..|q.rows|]
  {
    ParsedCsv(p.headers, Take(p.rows, PreviewRows))
  }

  const MaxFileSize: nat := 5 * 1024 * 1024

  /** The selected file, as far as the page inspects it before reading it: its name and its size in bytes. */
  datatype FileInfo = FileInfo(name: string, size: nat)

  datatype FileCheck = NotCsv | TooLarge | Accepted

  /** The guards of `handleFileChange`, in their order: the `.csv` suffix, then the 5 MiB limit. */
  function CheckFile(f: FileInfo): (r: FileCheck)
    ensures r == Accepted <==> EndsWith(f.name, ".csv") && f.size <= 5 * 1024 * 1024
    ensures r == NotCsv <==> !EndsWith(f.name, ".csv")
  {
    if !EndsWith(f.name, ".csv") then NotCsv
    else if f.size > MaxFileSize then TooLarge
    else Accepted
  }

  /**
    `name.replace('.csv', '')`: the name proposed for the dataset, the file
    name without its first `.csv`; a name whose only `.csv` is its extension
    loses exactly the extension.
   */
  function DefaultName(fileName: string): (r: string)
    ensures EndsWith(fileName, ".csv") ==> |r| == |fileName| - 4
    ensures !Includes(fileName, ".csv") ==> r == fileName
    ensures Includes(fileName, ".csv") ==> exists k :: (OccursAt(fileName, ".csv", k) &&
      (forall j :: 0 <= j < k ==> !OccursAt(fileName, ".csv", j)) && r == fileName[..k] + fileName[k + 4..])
  {
    assert EndsWith(fileName, ".csv") ==> OccursAt(fileName, ".csv", |fileName| - 4);
    ReplaceFirstDeletes(fileName, ".csv");
    ReplaceFirst(fileName, ".csv", "")
  }

  /** A file name whose only `.csv` is its extension proposes the name without the extension. */
  lemma DefaultNameDropsExtension(fileName: string)
    requires EndsWith(fileName, ".csv")
    requires forall j :: 0 <= j < |fileName| - 4 ==> !OccursAt(fileName, ".csv", j)
    ensures DefaultName(fileName) == fileName[..|fileName| - 4]
  {
    assert OccursAt(fileName, ".csv", |fileName| - 4);
  }

  datatype SubmitOutcome = MissingFile | MissingName | Reading

  /** The state of the import page. */
  class DataImportPage {
    var datasetName: string
    var datasetDescription: string
    var file: Option<FileInfo>
    var previewData: Option<ParsedCsv>
    var isLoading: bool

    constructor ()
      ensures datasetName == "" && datasetDescription == ""
      ensures file == None && previewData == None && !isLoading
    {
      datasetName := "";
      datasetDescription := "";
      file := None;
      previewData := None;
      isLoading := false;
    }

    /**
      `handleFileChange`: with no file nothing happens; a rejected file leaves
      the page as it was; an accepted one is selected, names the dataset and
      starts being read for the preview.
     */
    method HandleFileChange(files: seq<FileInfo>) returns (check: Option<FileCheck>)
      modifies this
      ensures files == [] ==> check == None
      ensures files != [] ==> check == Some(CheckFile(files[0]))
      ensures check != Some(Accepted) ==> datasetName == old(datasetName) && file == old(file)
      ensures check == Some(Accepted) ==> file == Some(files[0]) && datasetName == DefaultName(files[0].name)
      ensures previewData == old(previewData)
      ensures datasetDescription == old(datasetDescription) && isLoading == old(isLoading)
    {
      if files == [] {
        return None;
      }
      var selected := files[0];
      check := Some(CheckFile(selected));
      if check != Some(Accepted) {
        return;
      }
      file := Some(selected);
      datasetName := DefaultName(selected.name);
    }

    /** The `onload` handler `handleFileChange` installs, given the text read from the file; only the preview changes. */
    method PreviewLoaded(content: string)
      modifies this`previewData
      ensures previewData == Some(TruncatePreview(ParseCsv(content)))
    {
      previewData := Some(TruncatePreview(ParseCsv(content)));
    }

    method SetDatasetName(name: string)
      modifies this
      ensures datasetName == name
      ensures datasetDescription == old(datasetDescription) && file == old(file)
      ensures previewData == old(previewData) && isLoading == old(isLoading)
    {
      datasetName := name;
    }

    method SetDatasetDescription(description: string)
      modifies this
      ensures datasetDescription == description
      ensures datasetName == old(datasetName) && file == old(file)
      ensures previewData == old(previewData) && isLoading == old(isLoading)
    {
      datasetDescription := description;
    }

    /**
      `handleSubmit`: refuses without a file and preview, then without a
      non-blank name; otherwise starts reading the file and shows the
      loading state. The store is not touched until the file has been read.
     */
    method HandleSubmit() returns (outcome: SubmitOutcome)
      modifies this
      ensures outcome == MissingFile <==> old(file).None? || old(previewData).None?
      ensures outcome == MissingName <==>
        old(file).Some? && old(previewData).Some? && Trim(old(datasetName)) == ""
      ensures outcome == Reading ==> isLoading
      ensures outcome != Reading ==> isLoading == old(isLoading)
      ensures datasetName == old(datasetName) && datasetDescription == old(datasetDescription)
      ensures file == old(file) && previewData == old(previewData)
    {
      if file.None? || previewData.None? {
        return MissingFile;
      }
      if Trim(datasetName) == "" {
        return MissingName;
      }
      isLoading := true;
      outcome := Reading;
    }

    /**
      The `onload` handler `handleSubmit` installs, given the text read from
      the file and the name and description the handler captured at submit
      time: parse the text again and build the dataset; add it under the
      fresh id unless building it threw; leave the loading state either way.
      Nothing else on the page changes.
     */
    method SubmitLoaded(store: Store, id: string, name: string, description: string, content: string)
      returns (added: bool)
      requires store.Valid() && FindById(store.datasets, id).None?
      modifies this`isLoading, store
      ensures store.Valid()
      ensures added <==> ImportDraft(name, description, ParseCsv(content)).Ok?
      ensures added ==>
        var d := WithId(ImportDraft(name, description, ParseCsv(content)).value, id);
        store.datasets == old(store.datasets) + [d] && store.currentDataset == Some(d)
      ensures !added ==> store.datasets == old(store.datasets) && store.currentDataset == old(store.currentDataset)
      ensures !isLoading
    {
      isLoading := false;
      added := AddImported(store, name, description, content, id);
    }

    /** `clearSelection`: forget the file and the preview. */
    method ClearSelection()
      modifies this
      ensures file == None && previewData == None
      ensures datasetName == old(datasetName) && datasetDescription == old(datasetDescription)
      ensures isLoading == old(isLoading)
    {
      file := None;
      previewData := None;
    }
  }
}
