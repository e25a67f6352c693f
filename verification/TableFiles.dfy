/**
The table files of src/storage.c as byte sequences: a header line and a line per row. Loading a file
with the offset of each row, reading one row back at its offset, and what loading makes of a file
that was written.
*/
module TableFiles {
  import opened Wrappers
  import opened Text
  import opened Statements
  import opened Csv

  datatype FileError = MalformedLine | TooManyColumns | ColumnTooLong | CorruptedRow | BadOffset | EndOfFile

  datatype TableData = TableData(columns: seq<string>, rows: seq<seq<string>>, offsets: seq<nat>)

  // ---------- Lines ----------

  /** Where the line that starts at a position ends, its newline included. */
  function LineEnd(file: string, pos: nat): (end: nat)
    requires pos <= |file|
    ensures pos <= end <= |file| && (pos < |file| ==> pos < end)
    decreases |file| - pos
  {
    if pos == |file| then pos else if file[pos] == '\n' then pos + 1 else LineEnd(file, pos + 1)
  }

  /** The line fgets reads there. */
  function LineAt(file: string, pos: nat): string
    requires pos <= |file|
  {
    file[pos..LineEnd(file, pos)]
  }

  function Fields(line: string): Result<seq<string>, FileError> {
    match ParsedLine(line)
    case Ok(fields) => Ok(fields)
    case Err(_) => Err(MalformedLine)
  }

  predicate IsBlank(line: string) {
    line != "" && IsBreak(line[0])
  }

  // ---------- The header ----------

  /** storage_read_header: no columns from an empty file. */
  function Header(file: string): Result<seq<string>, FileError> {
    if file == "" then Ok([])
    else
      var columns :- Fields(LineAt(file, 0));
      if |columns| > MAX_COLUMNS then Err(TooManyColumns)
      else if exists i :: 0 <= i < |columns| && |columns[i]| >= MAX_IDENTIFIER_LEN then Err(ColumnTooLong)
      else Ok(columns)
  }

  method ReadHeader(file: string) returns (r: Result<seq<string>, FileError>, next: nat)
    ensures r == Header(file) && next == LineEnd(file, 0)
  {
    next := LineEnd(file, 0);
    if next == 0 {
      return Ok([]), next;
    }
    var parsed := ParseCsvLine(LineAt(file, 0));
    if parsed.Err? {
      return Err(MalformedLine), next;
    }
    if |parsed.value| > MAX_COLUMNS {
      return Err(TooManyColumns), next;
    }
    var i := 0;
    while i < |parsed.value|
      invariant i <= |parsed.value| && forall j :: 0 <= j < i ==> |parsed.value[j]| < MAX_IDENTIFIER_LEN
    {
      if |parsed.value[i]| >= MAX_IDENTIFIER_LEN {
        return Err(ColumnTooLong), next;
      }
      i := i + 1;
    }
    return Ok(parsed.value), next;
  }

  // ---------- The rows ----------

  /** A row and where its line starts. */
  datatype Placed = Placed(row: seq<string>, offset: nat)

  /** The line's row, if it is not blank. */
  function RowOf(line: string, count: nat): Result<seq<string>, FileError> {
    var fields :- Fields(line);
    if |fields| == count then Ok(fields) else Err(CorruptedRow)
  }

  function RowsFrom(file: string, pos: nat, count: nat): Result<seq<Placed>, FileError>
    requires pos <= |file|
    decreases |file| - pos
  {
    if pos == |file| then Ok([])
    else if IsBlank(LineAt(file, pos)) then RowsFrom(file, LineEnd(file, pos), count)
    else
      var row :- RowOf(LineAt(file, pos), count);
      var rest :- RowsFrom(file, LineEnd(file, pos), count);
      Ok([Placed(row, pos)] + rest)
  }

  function DataOf(columns: seq<string>, rows: seq<Placed>): TableData {
    TableData(columns, seq(|rows|, i requires 0 <= i < |rows| => rows[i].row),
              seq(|rows|, i requires 0 <= i < |rows| => rows[i].offset))
  }

  function Loaded(file: string): Result<TableData, FileError> {
    var columns :- Header(file);
    var rows :- RowsFrom(file, LineEnd(file, 0), |columns|);
    Ok(DataOf(columns, rows))
  }

  /** The rows from the first one on are those found so far, then those from pos on. */
  ghost predicate FoundTo(file: string, first: nat, pos: nat, count: nat, found: seq<Placed>) {
    first <= pos <= |file| &&
    RowsFrom(file, first, count) ==
      match RowsFrom(file, pos, count)
      case Ok(rest) => Ok(found + rest)
      case Err(e) => Err(e)
  }

  lemma FoundStart(file: string, first: nat, count: nat)
    requires first <= |file|
    ensures FoundTo(file, first, first, count, [])
  {
    var whole := RowsFrom(file, first, count);
    assert whole.Ok? ==> [] + whole.value == whole.value;
  }

  lemma {:induction false} FoundStep(file: string, first: nat, pos: nat, count: nat, found: seq<Placed>)
    requires FoundTo(file, first, pos, count, found)
    ensures
      if pos == |file| then RowsFrom(file, first, count) == Ok(found)
      else if IsBlank(LineAt(file, pos)) then FoundTo(file, first, LineEnd(file, pos), count, found)
      else
        match RowOf(LineAt(file, pos), count)
        case Err(e) => RowsFrom(file, first, count) == Err(e)
        case Ok(row) => FoundTo(file, first, LineEnd(file, pos), count, found + [Placed(row, pos)])
  {
    hide IsBlank, RowOf;
    if pos == |file| {
      assert found + [] == found;
    } else if !IsBlank(LineAt(file, pos)) && RowOf(LineAt(file, pos), count).Ok? {
      var placed := Placed(RowOf(LineAt(file, pos), count).value, pos);
      var rest := RowsFrom(file, LineEnd(file, pos), count);
      if rest.Ok? {
        assert found + ([placed] + rest.value) == found + [placed] + rest.value;
      }
    }
  }

  /** storage_load_table_from_fp, with offsets. */
  method LoadTable(file: string) returns (r: Result<TableData, FileError>)
    ensures r == Loaded(file)
  {
    var columns, pos := ReadHeader(file);
    if columns.Err? {
      return Err(columns.error);
    }
    var count := |columns.value|;
    var rows: seq<seq<string>> := [];
    var offsets: seq<nat> := [];
    ghost var first, found: seq<Placed> := pos, [];
    FoundStart(file, first, count);
    hide FoundTo, RowsFrom, LineEnd, Header;
    while pos < |file|
      invariant pos <= |file| && FoundTo(file, first, pos, count, found)
      invariant |rows| == |offsets| == |found|
      invariant forall i :: 0 <= i < |found| ==> found[i] == Placed(rows[i], offsets[i])
      decreases |file| - pos
    {
      FoundStep(file, first, pos, count, found);
      var offset, line := pos, LineAt(file, pos);
      pos := LineEnd(file, pos);
      if IsBlank(line) {
        continue;
      }
      var parsed := ParseCsvLine(line);
      if parsed.Err? {
        return Err(MalformedLine);
      }
      if |parsed.value| != count {
        return Err(CorruptedRow);
      }
      rows := rows + [parsed.value];
      offsets := offsets + [offset];
      found := found + [Placed(parsed.value, offset)];
    }
    FoundStep(file, first, pos, count, found);
    assert DataOf(columns.value, found) == TableData(columns.value, rows, offsets);
    return Ok(TableData(columns.value, rows, offsets));
  }

  // ---------- One row at its offset ----------

  /** A negative count asks for no check. */
  function RowAt(file: string, offset: int, count: int): Result<seq<string>, FileError> {
    if offset < 0 then Err(BadOffset)
    else if offset >= |file| then Err(EndOfFile)
    else if count < 0 then Fields(LineAt(file, offset))
    else RowOf(LineAt(file, offset), count)
  }

  /** storage_read_row_at_offset. */
  method ReadRowAtOffset(file: string, offset: int, count: int) returns (r: Result<seq<string>, FileError>)
    ensures r == RowAt(file, offset, count)
  {
    if offset < 0 {
      return Err(BadOffset);
    }
    if offset >= |file| {
      return Err(EndOfFile);
    }
    var parsed := ParseCsvLine(LineAt(file, offset));
    if parsed.Err? {
      return Err(MalformedLine);
    }
    if count >= 0 && |parsed.value| != count {
      return Err(CorruptedRow);
    }
    return Ok(parsed.value);
  }

  /** All rows of a load are as wide as the header. */
  lemma {:induction false} RowsEven(file: string, pos: nat, count: nat)
    requires pos <= |file| && RowsFrom(file, pos, count).Ok?
    ensures forall i :: 0 <= i < |RowsFrom(file, pos, count).value| ==>
      |RowsFrom(file, pos, count).value[i].row| == count
    decreases |file| - pos
  {
    hide LineAt, IsBlank, Fields;
    if pos < |file| {
      RowsEven(file, LineEnd(file, pos), count);
    }
  }

  /** Every offset a load reports leads back to its row; offsets grow from row to row. */
  lemma {:induction false} OffsetsLead(file: string, pos: nat, count: nat)
    requires pos <= |file| && RowsFrom(file, pos, count).Ok?
    ensures var rows := RowsFrom(file, pos, count).value;
      (forall i :: 0 <= i < |rows| ==>
        pos <= rows[i].offset < |file| && RowAt(file, rows[i].offset, count) == Ok(rows[i].row)) &&
      forall i, j :: 0 <= i < j < |rows| ==> rows[i].offset < rows[j].offset
    decreases |file| - pos
  {
    hide IsBlank, RowOf, LineAt;
    if pos < |file| {
      OffsetsLead(file, LineEnd(file, pos), count);
    }
  }

  /** What every table that loads is like. */
  lemma {:induction false} LoadedEven(file: string)
    requires Loaded(file).Ok?
    ensures var table := Loaded(file).value;
      |table.rows| == |table.offsets| && (forall i :: 0 <= i < |table.rows| ==> |table.rows[i]| == |table.columns|) &&
      (forall i :: 0 <= i < |table.rows| ==> RowAt(file, table.offsets[i], |table.columns|) == Ok(table.rows[i])) &&
      forall i, j :: 0 <= i < j < |table.offsets| ==> table.offsets[i] < table.offsets[j]
  {
    var count := |Header(file).value|;
    OffsetsLead(file, LineEnd(file, 0), count);
    RowsEven(file, LineEnd(file, 0), count);
    hide RowsFrom, RowAt, Header, LineEnd;
  }

  // ---------- Written files ----------

  function RowsText(rows: seq<seq<string>>): string {
    if rows == [] then "" else Line(rows[0]) + RowsText(rows[1..])
  }

  function TableText(columns: seq<string>, rows: seq<seq<string>>): string {
    Line(columns) + RowsText(rows)
  }

  predicate Even(rows: seq<seq<string>>, count: nat) {
    forall i :: 0 <= i < |rows| ==> |rows[i]| == count
  }

  predicate RowsClean(rows: seq<seq<string>>, count: nat) {
    forall i :: 0 <= i < |rows| ==> |rows[i]| == count && CleanRow(rows[i])
  }

  /** As many columns as a header can have, and names as long. */
  predicate ColumnsHeld(columns: seq<string>) {
    1 <= |columns| <= MAX_COLUMNS && forall i :: 0 <= i < |columns| ==> |columns[i]| < MAX_IDENTIFIER_LEN
  }

  predicate ColumnsFit(columns: seq<string>) {
    ColumnsHeld(columns) && CleanRow(columns)
  }

  lemma {:induction false} EscapedClean(value: string)
    requires Clean(value)
    ensures Clean(Escaped(value))
  {
    if value != "" {
      EscapedClean(value[1..]);
      assert !IsBreak(value[0]);
      assert forall i :: 0 <= i < |value| - 1 ==> value[1..][i] == value[i + 1];
    }
  }

  lemma {:induction false} CellClean(value: string)
    requires Clean(value)
    ensures Clean(Cell(value)) && (value != "" ==> Cell(value) != "")
  {
    if NeedsQuotes(value) {
      EscapedClean(value);
    }
  }

  lemma {:induction false} CellsClean(values: seq<string>)
    requires CleanRow(values)
    ensures Clean(Cells(values))
  {
    if values != [] {
      CellClean(values[0]);
      CellsClean(values[1..]);
    }
  }

  lemma {:induction false} LineEndIs(file: string, pos: nat, n: nat)
    requires pos + n < |file| && file[pos + n] == '\n' && forall i :: pos <= i < pos + n ==> file[i] != '\n'
    ensures LineEnd(file, pos) == pos + n + 1
    decreases n
  {
    if n > 0 {
      LineEndIs(file, pos + 1, n - 1);
    }
  }

  /** A written line, wherever it stands, is the line read there. */
  lemma {:induction false} LineFound(front: string, row: seq<string>, rest: string)
    requires CleanRow(row)
    ensures var file := front + (Line(row) + rest);
      LineEnd(file, |front|) == |front| + |Line(row)| && LineAt(file, |front|) == Line(row)
  {
    CellsClean(row);
    var file, cells := front + (Line(row) + rest), Cells(row);
    hide Cells;
    assert forall i :: 0 <= i < |cells| ==> file[|front| + i] == cells[i];
    forall i | |front| <= i < |front| + |cells| ensures file[i] != '\n' {
      assert file[i] == cells[i - |front|];
    }
    LineEndIs(file, |front|, |cells|);
    assert file[|front|..|front| + |Line(row)|] == Line(row);
  }

  predicate NotBreak(c: char) {
    !IsBreak(c)
  }

  lemma {:induction false} LineEndPast(file: string, pos: nat, n: nat)
    requires pos + n < |file| && forall i :: pos <= i < pos + n ==> file[i] != '\n'
    ensures LineEnd(file, pos) > pos + n
    decreases n
  {
    if n > 0 {
      LineEndPast(file, pos + 1, n - 1);
    }
  }

  lemma UncleanStart(row: seq<string>)
    requires row != [] && !CleanRow(row)
    ensures !IsBreak(Line(row)[0])
  {
    if NeedsQuotes(row[0]) {
      assert Line(row)[0] == '"';
    } else if row[0] == "" {
      assert |row| > 1 && Line(row)[0] == ',';
    } else {
      assert Line(row)[0] == row[0][0] && !IsSpecial(row[0][0]);
    }
  }

  lemma FirstBreak(line: string) returns (n: nat)
    requires line != "" && IsBreak(line[|line| - 1])
    ensures n < |line| && IsBreak(line[n]) && forall i :: 0 <= i < n ==> !IsBreak(line[i])
  {
    n := RunLength(line, NotBreak);
    assert n < |line| ==> !NotBreak(line[n]);
    assert n == |line| ==> NotBreak(line[|line| - 1]);
    forall i | 0 <= i < n ensures !IsBreak(line[i]) {
      assert NotBreak(line[i]);
    }
  }

  /** What is read where a line was written goes on to its first line break at least. */
  lemma {:induction false} CutAgrees(front: string, line: string, rest: string, n: nat)
    requires n < |line| && forall i :: 0 <= i < n ==> line[i] != '\n'
    ensures var file := front + (line + rest);
      |front| < |file| && n < |LineAt(file, |front|)| && LineAt(file, |front|)[..n + 1] == line[..n + 1]
  {
    var file, p := front + (line + rest), |front|;
    assert forall i :: 0 <= i < |line| ==> file[p + i] == line[i];
    forall i | p <= i < p + n ensures file[i] != '\n' {
      assert file[p + (i - p)] == line[i - p];
    }
    LineEndPast(file, p, n);
    hide LineEnd;
    assert LineAt(file, p)[..n + 1] == file[p..p + n + 1] == line[..n + 1];
  }

  /** A written line with a line break in a cell is cut short, and malformed. */
  lemma {:induction false} LineBroken(front: string, row: seq<string>, rest: string)
    requires row != [] && !CleanRow(row)
    ensures var file := front + (Line(row) + rest);
      |front| < |file| && !IsBlank(LineAt(file, |front|)) && Fields(LineAt(file, |front|)) == Err(MalformedLine)
  {
    var line := Line(row);
    assert line[|line| - 1] == '\n';
    UncleanStart(row);
    RowReads(row);
    var n := FirstBreak(line);
    CutAgrees(front, line, rest, n);
    hide Line, CleanRow, LineAt, FieldsFrom;
    var cut := LineAt(front + (line + rest), |front|);
    FieldsLocal(cut, line, n, false, "");
    assert cut[..n + 1][0] == line[..n + 1][0];
  }

  /** A line is blank only if it is the line of a single empty cell. */
  lemma {:induction false} BlankLine(row: seq<string>)
    requires CleanRow(row) && row != []
    ensures IsBlank(Line(row)) <==> row == [""]
  {
    CellClean(row[0]);
    if row[0] == "" {
      assert Cell("") == "";
      if |row| > 1 {
        assert Line(row)[0] == ',';
      }
    } else {
      assert Line(row)[0] == Cell(row[0])[0];
    }
  }

  /** The written rows that loading reports, with their places: all but the blank ones. */
  function Places(rows: seq<seq<string>>, base: nat): seq<Placed> {
    if rows == [] then []
    else (if rows[0] == [""] then [] else [Placed(rows[0], base)]) + Places(rows[1..], base + |Line(rows[0])|)
  }

  /** Loading goes over one written row. */
  lemma {:induction false} RowRead(front: string, row: seq<string>, rest: string)
    requires CleanRow(row) && row != []
    ensures var file, next := front + (Line(row) + rest), |front| + |Line(row)|;
      next <= |file| &&
      RowsFrom(file, |front|, |row|) ==
        match RowsFrom(file, next, |row|)
        case Ok(more) => Ok((if row == [""] then [] else [Placed(row, |front|)]) + more)
        case Err(e) => Err(e)
  {
    var file := front + (Line(row) + rest);
    LineFound(front, row, rest);
    BlankLine(row);
    RowReads(row);
    assert |Line(row)| > 0;
    var more := RowsFrom(file, |front| + |Line(row)|, |row|);
    hide Line, LineAt, LineEnd, IsBlank, CleanRow;
    assert RowOf(Line(row), |row|) == Ok(row);
    assert more.Ok? ==> [] + more.value == more.value;
  }

  lemma RowsNone(front: string, count: nat)
    ensures RowsFrom(front + RowsText([]), |front|, count) == Ok(Places([], |front|))
  {
    assert front + "" == front;
  }

  /** The first of the rows and the others. */
  lemma RowsFirst(rows: seq<seq<string>>, base: nat)
    requires rows != []
    ensures RowsText(rows) == Line(rows[0]) + RowsText(rows[1..])
    ensures Places(rows, base) ==
      (if rows[0] == [""] then [] else [Placed(rows[0], base)]) + Places(rows[1..], base + |Line(rows[0])|)
  {
    hide Line, CleanRow;
  }

  lemma {:induction false} RowsRead(front: string, rows: seq<seq<string>>, count: nat)
    requires Even(rows, count) && count > 0
    ensures RowsFrom(front + RowsText(rows), |front|, count) ==
      if RowsClean(rows, count) then Ok(Places(rows, |front|)) else Err(MalformedLine)
    decreases |rows|
  {
    hide *;
    CleanFirst(rows, count);
    if rows == [] {
      RowsNone(front, count);
    } else {
      var row, rest := rows[0], RowsText(rows[1..]);
      RowsFirst(rows, |front|);
      Regrouped(front, Line(row), rest);
      if CleanRow(row) {
        RowRead(front, row, rest);
        RowsRead(front + Line(row), rows[1..], count);
      } else {
        RowBroken(front, row, rest);
      }
    }
  }

  lemma RowBroken(front: string, row: seq<string>, rest: string)
    requires row != [] && !CleanRow(row)
    ensures RowsFrom(front + (Line(row) + rest), |front|, |row|) == Err(MalformedLine)
  {
    LineBroken(front, row, rest);
    hide LineAt, LineEnd, IsBlank, Fields, CleanRow, Line;
  }

  lemma CleanFirst(rows: seq<seq<string>>, count: nat)
    requires Even(rows, count)
    ensures RowsClean([], count)
    ensures rows != [] ==> |rows[0]| == count && Even(rows[1..], count)
    ensures rows != [] ==> (RowsClean(rows, count) <==> CleanRow(rows[0]) && RowsClean(rows[1..], count))
  {
    hide CleanRow;
    if rows != [] {
      assert rows == [rows[0]] + rows[1..];
    }
  }

  predicate NoBlank(rows: seq<seq<string>>) {
    forall i :: 0 <= i < |rows| ==> rows[i] != [""]
  }

  function Kept(rows: seq<seq<string>>): seq<seq<string>> {
    if rows == [] then [] else (if rows[0] == [""] then [] else [rows[0]]) + Kept(rows[1..])
  }

  lemma {:induction false} PlacesKept(rows: seq<seq<string>>, base: nat)
    ensures DataOf([], Places(rows, base)).rows == Kept(rows)
    ensures Kept(rows) == rows <==> NoBlank(rows)
    ensures |Kept(rows)| <= |rows|
  {
    if rows != [] {
      var next := base + |Line(rows[0])|;
      PlacesKept(rows[1..], next);
      PlacesOfFirst(rows[0], base, Places(rows[1..], next));
      assert rows == [rows[0]] + rows[1..];
      NoBlankFirst(rows);
      hide NoBlank, Line, DataOf;
    }
  }

  lemma NoBlankFirst(rows: seq<seq<string>>)
    requires rows != []
    ensures NoBlank(rows) <==> rows[0] != [""] && NoBlank(rows[1..])
  {
    assert rows == [rows[0]] + rows[1..];
  }

  lemma PlacesOfFirst(row: seq<string>, base: nat, rest: seq<Placed>)
    ensures DataOf([], [Placed(row, base)] + rest).rows == [row] + DataOf([], rest).rows
    ensures DataOf([], [] + rest).rows == [] + DataOf([], rest).rows
  {
  }

  /** A written table loads if and only if no cell of it has a line break. Then loading gives back the
      columns and, in order, the rows; only blank rows, which need a single column, are lost. So the table
      comes back as it was exactly when it has none. */
  lemma {:induction false} LoadedWritten(columns: seq<string>, rows: seq<seq<string>>)
    requires ColumnsHeld(columns) && Even(rows, |columns|)
    ensures Loaded(TableText(columns, rows)).Ok? <==> CleanRow(columns) && RowsClean(rows, |columns|)
    ensures Loaded(TableText(columns, rows)).Err? ==> Loaded(TableText(columns, rows)) == Err(MalformedLine)
    ensures Loaded(TableText(columns, rows)).Ok? ==>
      var table := Loaded(TableText(columns, rows)).value;
      table.columns == columns && table.rows == Kept(rows) && (table.rows == rows <==> NoBlank(rows)) &&
      (|columns| > 1 ==> NoBlank(rows))
    ensures Loaded(TableText(columns, rows)).Ok? ==>
      var file, table := TableText(columns, rows), Loaded(TableText(columns, rows)).value;
      |table.offsets| == |table.rows| &&
      (forall i, j :: 0 <= i < j < |table.offsets| ==> table.offsets[i] < table.offsets[j]) &&
      forall i :: 0 <= i < |table.rows| ==> RowAt(file, table.offsets[i], |columns|) == Ok(table.rows[i])
  {
    var file := TableText(columns, rows);
    HeaderRead(columns, RowsText(rows));
    if CleanRow(columns) {
      RowsRead(Line(columns), rows, |columns|);
      PlacesKept(rows, |Line(columns)|);
      if RowsClean(rows, |columns|) {
        OffsetsLead(file, |Line(columns)|, |columns|);
      }
      assert |columns| > 1 && Even(rows, |columns|) ==> NoBlank(rows);
      hide Header, RowsFrom, RowAt, Places, Kept, Line, RowsText, LineEnd, ColumnsHeld, NoBlank, CleanRow, RowsClean;
    }
    hide Header, RowsFrom, RowAt, Line, RowsText, LineEnd, CleanRow, RowsClean;
  }

  lemma {:induction false} HeaderRead(columns: seq<string>, rest: string)
    requires ColumnsHeld(columns)
    ensures Header(Line(columns) + rest) == if CleanRow(columns) then Ok(columns) else Err(MalformedLine)
    ensures CleanRow(columns) ==> LineEnd(Line(columns) + rest, 0) == |Line(columns)|
  {
    var file := Line(columns) + rest;
    assert file == "" + (Line(columns) + rest);
    if CleanRow(columns) {
      LineFound("", columns, rest);
      RowReads(columns);
    } else {
      LineBroken("", columns, rest);
    }
    hide Line, LineAt, LineEnd, CleanRow, ParsedLine;
  }
}
