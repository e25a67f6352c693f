/**
INSERT and DELETE of src/storage.c on table files: the checks, the automatic id, appending a row and
rewriting a file, and what any run of them keeps.
*/
module Storage {
  import opened Wrappers
  import opened Text
  import opened Statements
  import opened Csv
  import opened TableFiles
  import Tables
  import Comparing
  import SqlText

  /** The first column with the name, case folded; the same search as in the table runtime. */
  function FindColumn(columns: seq<string>, name: string): (r: Option<nat>)
    ensures r.Some? ==> r.value < |columns|
  {
    Tables.FindColumn(columns, name)
  }

  // ---------- Ids ----------

  function IdsOf(rows: seq<seq<string>>, k: nat): seq<string>
    requires forall i :: 0 <= i < |rows| ==> k < |rows[i]|
  {
    seq(|rows|, i requires 0 <= i < |rows| => rows[i][k])
  }

  /** 1 + max(0, ids); nothing if an id is no integer, or so large that the next one has no room in a
      long long, where the C program's addition is undefined. */
  function NextId(ids: seq<string>): Option<nat> {
    if ids == [] then Some(1)
    else
      match NextId(ids[..|ids| - 1])
      case None => None
      case Some(next) =>
        var id := ids[|ids| - 1];
        if !IsIntegerText(id) || ParseSaturating(id) == LLONG_MAX then None
        else if ParseSaturating(id) >= next then Some(ParseSaturating(id) + 1)
        else Some(next)
  }

  lemma {:induction false} NextIdSaturating(ids: seq<string>)
    ensures NextId(ids).Some? <==>
      forall i :: 0 <= i < |ids| ==> IsIntegerText(ids[i]) && ParseSaturating(ids[i]) < LLONG_MAX
    ensures NextId(ids).Some? ==>
      1 <= NextId(ids).value <= LLONG_MAX &&
      (forall i :: 0 <= i < |ids| ==> ParseSaturating(ids[i]) < NextId(ids).value) &&
      (NextId(ids).value == 1 || exists i :: 0 <= i < |ids| && ParseSaturating(ids[i]) + 1 == NextId(ids).value)
  {
    hide IsIntegerText, ParseSaturating;
    if ids != [] {
      var front, last := ids[..|ids| - 1], ids[|ids| - 1];
      NextIdSaturating(front);
      SaturatingBound(last);
      assert forall i :: 0 <= i < |front| ==> front[i] == ids[i];
      if NextId(ids).Some? && NextId(front).Some? && NextId(front).value != 1 && NextId(ids) == NextId(front) {
        var i :| 0 <= i < |front| && ParseSaturating(front[i]) + 1 == NextId(front).value;
        assert ParseSaturating(ids[i]) + 1 == NextId(ids).value;
      }
    }
  }

  /** The next id is 1 + max(0, ids), in numbers; there is one exactly if all ids are integers below the
      largest. */
  lemma {:induction false} NextIdExact(ids: seq<string>)
    ensures NextId(ids).Some? <==>
      forall i :: 0 <= i < |ids| ==> IsIntegerText(ids[i]) && IntValue(ids[i]) < 0x7FFF_FFFF_FFFF_FFFF
    ensures NextId(ids).Some? ==>
      1 <= NextId(ids).value <= 0x7FFF_FFFF_FFFF_FFFF &&
      (forall i :: 0 <= i < |ids| ==> IntValue(ids[i]) < NextId(ids).value) &&
      (NextId(ids).value == 1 || exists i :: 0 <= i < |ids| && IntValue(ids[i]) + 1 == NextId(ids).value)
  {
    NextIdSaturating(ids);
    hide NextId, IsIntegerText, IntValue, ParseSaturating;
    forall i | 0 <= i < |ids|
      ensures ParseSaturating(ids[i]) < LLONG_MAX <==> IntValue(ids[i]) < LLONG_MAX
      ensures IntValue(ids[i]) < LLONG_MAX ==>
        IntValue(ids[i]) <= ParseSaturating(ids[i]) &&
        (ParseSaturating(ids[i]) >= 0 ==> IntValue(ids[i]) == ParseSaturating(ids[i]))
    {
      SaturatingBound(ids[i]);
    }
    if NextId(ids).Some? && NextId(ids).value != 1 {
      var i :| 0 <= i < |ids| && ParseSaturating(ids[i]) + 1 == NextId(ids).value;
      assert IntValue(ids[i]) + 1 == NextId(ids).value;
    }
  }

  lemma SaturatingBound(id: string)
    ensures ParseSaturating(id) <= LLONG_MAX
    ensures ParseSaturating(id) < LLONG_MAX <==> IntValue(id) < LLONG_MAX
    ensures IntValue(id) < LLONG_MAX ==>
      IntValue(id) <= ParseSaturating(id) && (ParseSaturating(id) >= 0 ==> IntValue(id) == ParseSaturating(id))
  {
    hide IntValue;
  }

  /** A new id differs, as a string, from every one there is. */
  lemma {:induction false} NextIdFresh(ids: seq<string>)
    requires NextId(ids).Some?
    ensures Decimal(NextId(ids).value) !in ids && Decimal(NextId(ids).value) != ""
    ensures Clean(Decimal(NextId(ids).value))
  {
    NextIdSaturating(ids);
    var n := NextId(ids).value;
    DecimalParses(n);
    hide NextId, Decimal;
    assert ParseSaturating(Decimal(n)) == n by {
      hide AllDigits;
    }
    hide ParseSaturating, IntValue;
    forall i | 0 <= i < |ids| ensures ids[i] != Decimal(n) {
      assert ParseSaturating(ids[i]) < n;
    }
    assert forall i :: 0 <= i < |Decimal(n)| ==> IsDigit(Decimal(n)[i]);
  }

  // ---------- The scans ----------

  function RowsOf(placed: seq<Placed>): seq<seq<string>> {
    seq(|placed|, i requires 0 <= i < |placed| => placed[i].row)
  }

  function AutoIdIn(file: string, pos: nat, count: nat, k: nat): Option<nat>
    requires pos <= |file| && k < count
  {
    match RowsFrom(file, pos, count)
    case Err(_) => None
    case Ok(placed) =>
      RowsEven(file, pos, count);
      NextId(IdsOf(RowsOf(placed), k))
  }

  /** No row from here on has the id; false as well if a row cannot be read. */
  predicate KeyFreeIn(file: string, pos: nat, count: nat, k: nat, id: string)
    requires pos <= |file| && k < count
  {
    match RowsFrom(file, pos, count)
    case Err(_) => false
    case Ok(placed) =>
      RowsEven(file, pos, count);
      id !in IdsOf(RowsOf(placed), k)
  }

  /** The ids found up to a position are those of the rows up to there. */
  ghost predicate IdsTo(file: string, first: nat, pos: nat, count: nat, k: nat, ids: seq<string>) {
    k < count && exists found :: FoundTo(file, first, pos, count, found) && IdsAre(found, count, k, ids)
  }

  ghost predicate IdsAre(found: seq<Placed>, count: nat, k: nat, ids: seq<string>)
    requires k < count
  {
    |ids| == |found| && forall i :: 0 <= i < |found| ==> |found[i].row| == count && ids[i] == found[i].row[k]
  }

  lemma IdsStart(file: string, first: nat, count: nat, k: nat)
    requires first <= |file| && k < count
    ensures IdsTo(file, first, first, count, k, [])
  {
    FoundStart(file, first, count);
    assert IdsAre([], count, k, []);
  }

  lemma {:induction false} IdsStep(file: string, first: nat, pos: nat, count: nat, k: nat, ids: seq<string>)
    requires IdsTo(file, first, pos, count, k, ids) && first <= pos < |file|
    ensures
      if IsBlank(LineAt(file, pos)) then IdsTo(file, first, LineEnd(file, pos), count, k, ids)
      else
        match RowOf(LineAt(file, pos), count)
        case Err(e) => RowsFrom(file, first, count) == Err(e)
        case Ok(row) => |row| == count && IdsTo(file, first, LineEnd(file, pos), count, k, ids + [row[k]])
  {
    hide FoundTo, RowsFrom, LineAt, IsBlank, LineEnd, Fields;
    var found :| FoundTo(file, first, pos, count, found) && IdsAre(found, count, k, ids);
    FoundStep(file, first, pos, count, found);
    if !IsBlank(LineAt(file, pos)) && RowOf(LineAt(file, pos), count).Ok? {
      var row := RowOf(LineAt(file, pos), count).value;
      assert IdsAre(found + [Placed(row, pos)], count, k, ids + [row[k]]);
    }
  }

  /** Whatever remains, the ids found are a part of those of the file. */
  lemma {:induction false} IdsWithin(file: string, first: nat, pos: nat, count: nat, k: nat, ids: seq<string>)
    requires IdsTo(file, first, pos, count, k, ids) && first <= pos <= |file|
    ensures RowsFrom(file, first, count).Ok? ==>
      (forall i :: 0 <= i < |RowsFrom(file, first, count).value| ==>
        |RowsFrom(file, first, count).value[i].row| == count) &&
      ids <= IdsOf(RowsOf(RowsFrom(file, first, count).value), k)
    ensures pos == |file| ==>
      RowsFrom(file, first, count).Ok? && ids == IdsOf(RowsOf(RowsFrom(file, first, count).value), k)
  {
    var found :| FoundTo(file, first, pos, count, found) && IdsAre(found, count, k, ids);
    if pos == |file| {
      FoundStep(file, first, pos, count, found);
    }
    if RowsFrom(file, first, count).Ok? {
      RowsEven(file, first, count);
      var rest := RowsFrom(file, pos, count);
      hide RowsFrom;
      assert RowsFrom(file, first, count).value == found + rest.value;
    }
  }

  lemma {:induction false} NextIdPrefix(a: seq<string>, b: seq<string>)
    requires a <= b && NextId(a).None?
    ensures NextId(b).None?
    decreases |b|
  {
    if |a| == |b| {
      assert a == b;
    } else {
      assert a <= b[..|b| - 1];
      NextIdPrefix(a, b[..|b| - 1]);
    }
  }

  /** storage_get_next_auto_id, from after the header. */
  method NextAutoId(file: string, first: nat, count: nat, k: nat) returns (r: Option<nat>)
    requires first <= |file| && k < count
    ensures r == AutoIdIn(file, first, count, k)
  {
    hide *;
    var pos, next: nat := first, 1;
    ghost var ids: seq<string> := [];
    IdsStart(file, first, count, k);
    NoIds();
    while pos < |file|
      invariant first <= pos <= |file| && IdsTo(file, first, pos, count, k, ids) && NextId(ids) == Some(next)
      decreases |file| - pos
    {
      IdsStep(file, first, pos, count, k, ids);
      RowOfLine(LineAt(file, pos), count);
      var line := LineAt(file, pos);
      pos := LineEnd(file, pos);
      if IsBlank(line) {
        continue;
      }
      var parsed := ParseCsvLine(line);
      if parsed.Err? || |parsed.value| != count {
        UnreadableIds(file, first, count, k);
        return None;
      }
      var id := parsed.value[k];
      NextIdGrows(ids, id);
      var integer := IsInteger(id);
      if !integer || ParseSaturating(id) == LLONG_MAX {
        NextIdStops(file, first, pos, count, k, ids + [id]);
        return None;
      }
      if ParseSaturating(id) >= next {
        next := ParseSaturating(id) + 1;
      }
      ids := ids + [id];
    }
    NextIdEnds(file, first, count, k, ids);
    return Some(next);
  }

  lemma NoIds()
    ensures NextId([]) == Some(1)
  {
  }

  lemma NextIdGrows(ids: seq<string>, id: string)
    requires NextId(ids).Some?
    ensures NextId(ids + [id]) ==
      if !IsIntegerText(id) || ParseSaturating(id) == LLONG_MAX then None
      else if ParseSaturating(id) >= NextId(ids).value then Some(ParseSaturating(id) + 1)
      else NextId(ids)
  {
    var more := ids + [id];
    assert more[..|more| - 1] == ids;
    hide IsIntegerText, ParseSaturating;
  }

  lemma RowOfLine(line: string, count: nat)
    ensures RowOf(line, count) ==
      if ParsedLine(line).Err? then Err(MalformedLine)
      else if |ParsedLine(line).value| == count then Ok(ParsedLine(line).value) else Err(CorruptedRow)
  {
    hide ParsedLine;
  }

  lemma UnreadableIds(file: string, first: nat, count: nat, k: nat)
    requires first <= |file| && k < count && RowsFrom(file, first, count).Err?
    ensures AutoIdIn(file, first, count, k) == None
  {
    hide RowsFrom;
  }

  lemma NextIdEnds(file: string, first: nat, count: nat, k: nat, ids: seq<string>)
    requires first <= |file| && IdsTo(file, first, |file|, count, k, ids) && k < count
    ensures AutoIdIn(file, first, count, k) == NextId(ids)
  {
    IdsWithin(file, first, |file|, count, k, ids);
    hide IdsTo, RowsFrom, NextId;
  }

  lemma NextIdStops(file: string, first: nat, pos: nat, count: nat, k: nat, ids: seq<string>)
    requires first <= pos <= |file| && IdsTo(file, first, pos, count, k, ids) && k < count && NextId(ids).None?
    ensures AutoIdIn(file, first, count, k).None?
  {
    IdsWithin(file, first, pos, count, k, ids);
    hide IdsTo, RowsFrom, NextId;
    if RowsFrom(file, first, count).Ok? {
      NextIdPrefix(ids, IdsOf(RowsOf(RowsFrom(file, first, count).value), k));
    }
  }

  /** What is asked of the id of a new row, in a table that has an id column. */
  predicate IdFree(file: string, first: nat, columns: seq<string>, row: seq<string>)
    requires first <= |file| && |row| == |columns|
  {
    match FindColumn(columns, "id")
    case None => true
    case Some(k) => row[k] != "" && KeyFreeIn(file, first, |columns|, k, row[k])
  }

  /** storage_validate_primary_key. */
  method ValidatePrimaryKey(file: string, first: nat, columns: seq<string>, row: seq<string>) returns (ok: bool)
    requires first <= |file| && |row| == |columns|
    ensures ok == IdFree(file, first, columns, row)
  {
    var k := FindColumn(columns, "id");
    if k.None? {
      return true;
    }
    if row[k.value] == "" {
      return false;
    }
    ok := ScanForId(file, first, |columns|, k.value, row[k.value]);
  }

  /** The loop of storage_validate_primary_key. */
  method ScanForId(file: string, first: nat, count: nat, k: nat, id: string) returns (ok: bool)
    requires first <= |file| && k < count
    ensures ok == KeyFreeIn(file, first, count, k, id)
  {
    var pos := first;
    ghost var ids: seq<string> := [];
    IdsStart(file, first, count, k);
    hide IdsTo, RowsFrom, LineEnd, LineAt;
    while pos < |file|
      invariant first <= pos <= |file| && IdsTo(file, first, pos, count, k, ids) && id !in ids
      decreases |file| - pos
    {
      IdsStep(file, first, pos, count, k, ids);
      var line := LineAt(file, pos);
      pos := LineEnd(file, pos);
      if IsBlank(line) {
        continue;
      }
      var parsed := ParseCsvLine(line);
      if parsed.Err? || |parsed.value| != count {
        return false;
      }
      ids := ids + [parsed.value[k]];
      if parsed.value[k] == id {
        IdsWithin(file, first, pos, count, k, ids);
        assert ids[|ids| - 1] == id;
        return false;
      }
    }
    IdsWithin(file, first, pos, count, k, ids);
    return true;
  }

  // ---------- INSERT ----------

  /** A statement as its C structure can hold it. */
  predicate Held(stmt: InsertStatement) {
    stmt.Even() && |stmt.columns| <= MAX_COLUMNS
  }

  predicate ColumnsShort(columns: seq<string>) {
    forall i :: 0 <= i < |columns| ==> |columns[i]| < MAX_IDENTIFIER_LEN
  }

  datatype FirstLines = FirstLines(columns: seq<string>, row: seq<string>)

  /** The header and row that the first INSERT writes: with a column id in front, unless it names one. */
  function FirstInsert(stmt: InsertStatement): Option<FirstLines>
    requires Held(stmt)
  {
    match FindColumn(stmt.columns, "id")
    case None =>
      if |stmt.columns| + 1 > MAX_COLUMNS || !ColumnsShort(stmt.columns) then None
      else Some(FirstLines(["id"] + stmt.columns, ["1"] + stmt.values))
    case Some(k) =>
      if !ColumnsShort(stmt.columns) || stmt.values[k] == "" then None
      else Some(FirstLines(stmt.columns, stmt.values))
  }

  /** Where the id is filled in: the table has an id column and the statement names none. */
  function AutoAt(columns: seq<string>, stmt: InsertStatement): Option<nat> {
    if FindColumn(stmt.columns, "id").None? then FindColumn(columns, "id") else None
  }

  /** The statement names every column of the table but the one filled in, and as many columns as these
      are. If the table has two columns of one name, a value can be left over that is not stored. */
  predicate Covered(columns: seq<string>, stmt: InsertStatement) {
    |columns| == |stmt.columns| + (if AutoAt(columns, stmt).Some? then 1 else 0) &&
    forall i :: 0 <= i < |columns| ==> AutoAt(columns, stmt) == Some(i) || FindColumn(stmt.columns, columns[i]).Some?
  }

  /** The column at i is filled in: it is the first named id, and the statement names none so. */
  predicate FilledAt(columns: seq<string>, stmt: InsertStatement, i: nat) {
    Tables.FirstNamed(columns, "id", i) && !Tables.HasName(stmt.columns, "id")
  }

  /** When a statement covers the columns of a table. */
  lemma CoveredMeans(columns: seq<string>, stmt: InsertStatement)
    ensures Covered(columns, stmt) <==>
      |columns| ==
        |stmt.columns| + (if Tables.HasName(columns, "id") && !Tables.HasName(stmt.columns, "id") then 1 else 0) &&
      forall i :: 0 <= i < |columns| ==> FilledAt(columns, stmt, i) || Tables.HasName(stmt.columns, columns[i])
  {
    Tables.FoundNamed(columns, "id");
    Tables.FoundNamed(stmt.columns, "id");
    hide Tables.FindColumn, Tables.FirstNamed, Tables.HasName;
    forall i | 0 <= i < |columns|
      ensures FindColumn(stmt.columns, columns[i]).Some? <==> Tables.HasName(stmt.columns, columns[i])
    {
      Tables.FoundNamed(stmt.columns, columns[i]);
    }
  }

  function CellFor(columns: seq<string>, stmt: InsertStatement, id: string, i: nat): string
    requires Held(stmt) && Covered(columns, stmt) && i < |columns|
  {
    if AutoAt(columns, stmt) == Some(i) then id else stmt.values[FindColumn(stmt.columns, columns[i]).value]
  }

  /** The values in the order of the table's columns. */
  function Reordered(columns: seq<string>, stmt: InsertStatement, id: string): (row: seq<string>)
    requires Held(stmt) && Covered(columns, stmt)
    ensures |row| == |columns|
  {
    seq(|columns|, i requires 0 <= i < |columns| => CellFor(columns, stmt, id, i))
  }

  function NewRow(file: string, columns: seq<string>, stmt: InsertStatement): Option<seq<string>>
    requires Held(stmt)
  {
    if !Covered(columns, stmt) then None
    else
      var first, count := LineEnd(file, 0), |columns|;
      match AutoAt(columns, stmt)
      case Some(k) =>
        (match AutoIdIn(file, first, count, k)
         case None => None
         case Some(n) => Some(Reordered(columns, stmt, Decimal(n))))
      case None =>
        var row := Reordered(columns, stmt, "");
        if IdFree(file, first, columns, row) then Some(row) else None
  }

  /** The file after a successful INSERT; a failed one leaves it as it was. */
  function Inserted(file: string, stmt: InsertStatement): Option<string>
    requires Held(stmt)
  {
    match Header(file)
    case Err(_) => None
    case Ok(columns) =>
      if columns == [] then
        match FirstInsert(stmt)
        case None => None
        case Some(lines) => Some(file + Line(lines.columns) + Line(lines.row))
      else
        match NewRow(file, columns, stmt)
        case None => None
        case Some(row) => Some(file + Line(row))
  }

  method CheckNames(columns: seq<string>) returns (ok: bool)
    ensures ok == ColumnsShort(columns)
  {
    var i := 0;
    while i < |columns|
      invariant i <= |columns| && forall j :: 0 <= j < i ==> |columns[j]| < MAX_IDENTIFIER_LEN
    {
      if |columns[i]| >= MAX_IDENTIFIER_LEN {
        return false;
      }
      i := i + 1;
    }
    return true;
  }

  /** Only an empty file has no header. */
  lemma NoHeader(file: string)
    requires Header(file) == Ok([])
    ensures file == ""
  {
    if file != "" {
      SomeFields(LineAt(file, 0), false, "");
      hide FieldsFrom, LineAt;
    }
  }

  lemma {:induction false} SomeFields(line: string, inQuotes: bool, current: string)
    ensures FieldsFrom(line, inQuotes, current).Ok? ==> FieldsFrom(line, inQuotes, current).value != []
    decreases |line|
  {
    if line != "" {
      SomeFields(line[1..], true, current);
      SomeFields(line[1..], false, current);
      SomeFields(line[1..], true, current + [line[0]]);
      SomeFields(line[1..], false, current + [line[0]]);
      SomeFields(line[1..], false, "");
      if |line| > 1 {
        SomeFields(line[2..], true, current + "\"");
      }
    }
  }

  /** The part of storage_insert for a file without a header. */
  method InsertFirst(file: string, stmt: InsertStatement) returns (file': string, ok: bool)
    requires Held(stmt) && file == ""
    ensures ok == FirstInsert(stmt).Some?
    ensures file' == match FirstInsert(stmt)
      case None => file
      case Some(lines) => file + Line(lines.columns) + Line(lines.row)
  {
    var given := FindColumn(stmt.columns, "id");
    if given.None? && |stmt.columns| + 1 > MAX_COLUMNS {
      return file, false;
    }
    var short := CheckNames(stmt.columns);
    if !short {
      return file, false;
    }
    var header, row := stmt.columns, stmt.values;
    if given.None? {
      header, row := ["id"] + stmt.columns, ["1"] + stmt.values;
    }
    assert IdFree(file, 0, header, row) <==> FirstInsert(stmt).Some? by {
      assert given.None? ==> FindColumn(header, "id") == Some(0);
    }
    var free := ValidatePrimaryKey(file, 0, header, row);
    if !free {
      return file, false;
    }
    file' := WriteCsvRow(file, header);
    file' := WriteCsvRow(file', row);
    ok := true;
  }

  method CheckCovered(columns: seq<string>, stmt: InsertStatement) returns (ok: bool)
    ensures ok == Covered(columns, stmt)
  {
    hide FindColumn, AutoAt;
    var auto := AutoAt(columns, stmt);
    if |columns| != |stmt.columns| + (if auto.Some? then 1 else 0) {
      return false;
    }
    var i := 0;
    while i < |columns|
      invariant i <= |columns|
      invariant forall j :: 0 <= j < i ==> auto == Some(j) || FindColumn(stmt.columns, columns[j]).Some?
    {
      if auto != Some(i) && FindColumn(stmt.columns, columns[i]).None? {
        return false;
      }
      i := i + 1;
    }
    return true;
  }

  method Reorder(columns: seq<string>, stmt: InsertStatement, id: string) returns (row: seq<string>)
    requires Held(stmt) && Covered(columns, stmt)
    ensures row == Reordered(columns, stmt, id)
  {
    row := [];
    var i := 0;
    hide Covered, CellFor, Held;
    while i < |columns|
      invariant i <= |columns| && |row| == i && forall j :: 0 <= j < i ==> row[j] == CellFor(columns, stmt, id, j)
    {
      row := row + [CellFor(columns, stmt, id, i)];
      i := i + 1;
    }
  }

  /** storage_insert. */
  method StorageInsert(file: string, stmt: InsertStatement) returns (file': string, ok: bool)
    requires Held(stmt)
    ensures ok == Inserted(file, stmt).Some?
    ensures file' == match Inserted(file, stmt) case Some(f) => f case None => file
  {
    hide FirstInsert, Covered, AutoIdIn, KeyFreeIn, AutoAt, Reordered, Header, LineEnd;
    var columns, first := ReadHeader(file);
    if columns.Err? {
      return file, false;
    }
    if columns.value == [] {
      NoHeader(file);
      file', ok := InsertFirst(file, stmt);
      return;
    }
    var row := ReadyRow(file, columns.value, first, stmt);
    if row.None? {
      return file, false;
    }
    file' := WriteCsvRow(file, row.value);
    ok := true;
  }

  /** The part of storage_insert that checks a statement against the table and orders its values. */
  method ReadyRow(file: string, columns: seq<string>, first: nat, stmt: InsertStatement)
    returns (r: Option<seq<string>>)
    requires Held(stmt) && first == LineEnd(file, 0)
    ensures r == NewRow(file, columns, stmt)
  {
    var covered := CheckCovered(columns, stmt);
    if !covered {
      return None;
    }
    var auto := AutoAt(columns, stmt);
    hide Covered, AutoIdIn, IdFree, LineEnd;
    if auto.Some? {
      var next := NextAutoId(file, first, |columns|, auto.value);
      if next.None? {
        return None;
      }
      var row := Reorder(columns, stmt, Decimal(next.value));
      return Some(row);
    }
    var row := Reorder(columns, stmt, "");
    var free := ValidatePrimaryKey(file, first, columns, row);
    if !free {
      return None;
    }
    return Some(row);
  }

  // ---------- DELETE ----------

  predicate KnownOp(op: string) {
    op in ["=", "!=", ">", "<", ">=", "<="]
  }

  /** storage_row_matches_where, on a column that is there and an operator that is known. */
  predicate RowMatches(columns: seq<string>, row: seq<string>, w: WhereClause)
    requires FindColumn(columns, w.column).Some? && |row| == |columns|
  {
    Comparing.OpHolds(w.op, CompareValues(row[FindColumn(columns, w.column).value], w.value))
  }

  predicate Checks(columns: seq<string>, w: WhereClause) {
    FindColumn(columns, w.column).Some? && KnownOp(w.op)
  }

  predicate Goes(columns: seq<string>, row: seq<string>, where: Option<WhereClause>)
    requires |row| == |columns| && (where.Some? ==> Checks(columns, where.value))
  {
    where.None? || RowMatches(columns, row, where.value)
  }

  /** The rows a DELETE leaves, in order. */
  function Spared(columns: seq<string>, rows: seq<seq<string>>, where: Option<WhereClause>): seq<seq<string>>
    requires Even(rows, |columns|) && (where.Some? ==> Checks(columns, where.value))
  {
    if rows == [] then []
    else
      Spared(columns, rows[..|rows| - 1], where) +
      if Goes(columns, rows[|rows| - 1], where) then [] else [rows[|rows| - 1]]
  }

  function GoneCount(columns: seq<string>, rows: seq<seq<string>>, where: Option<WhereClause>): nat
    requires Even(rows, |columns|) && (where.Some? ==> Checks(columns, where.value))
  {
    if rows == [] then 0
    else GoneCount(columns, rows[..|rows| - 1], where) + if Goes(columns, rows[|rows| - 1], where) then 1 else 0
  }

  /** What is kept and what goes add up, every row kept is one that does not go, and every row that does not
      go is kept, in order. */
  lemma {:induction false} KeptFrom(columns: seq<string>, rows: seq<seq<string>>, where: Option<WhereClause>)
    returns (from: seq<nat>)
    requires Even(rows, |columns|) && (where.Some? ==> Checks(columns, where.value))
    ensures |Spared(columns, rows, where)| + GoneCount(columns, rows, where) == |rows|
    ensures |from| == |Spared(columns, rows, where)|
    ensures forall k :: 0 <= k < |from| ==> from[k] < |rows| && rows[from[k]] == Spared(columns, rows, where)[k]
    ensures forall k, m :: 0 <= k < m < |from| ==> from[k] < from[m]
    ensures forall i :: 0 <= i < |rows| ==> (i in from <==> !Goes(columns, rows[i], where))
  {
    hide Goes, Checks;
    from := [];
    if rows != [] {
      var last := |rows| - 1;
      assert Even(rows[..last], |columns|);
      from := KeptFrom(columns, rows[..last], where);
      assert forall i :: 0 <= i < last ==> rows[..last][i] == rows[i];
      if !Goes(columns, rows[last], where) {
        from := from + [last];
      }
    }
  }

  /** The row's cell in the first column with the name passes the condition of the WHERE. */
  ghost predicate MatchesWhere(columns: seq<string>, row: seq<string>, w: WhereClause) {
    exists col: nat :: MatchesAt(columns, row, w, col)
  }

  ghost predicate MatchesAt(columns: seq<string>, row: seq<string>, w: WhereClause, col: nat) {
    Tables.FirstNamed(columns, w.column, col) && col < |row| && Comparing.ValuesStand(w.op, row[col], w.value)
  }

  /** There is such a column, and the operator is one of the six. */
  predicate CanCheck(columns: seq<string>, w: WhereClause) {
    Tables.HasName(columns, w.column) &&
    (w.op == "=" || w.op == "!=" || w.op == "<" || w.op == "<=" || w.op == ">" || w.op == ">=")
  }

  lemma ChecksMean(columns: seq<string>, w: WhereClause)
    ensures Checks(columns, w) <==> CanCheck(columns, w)
  {
    Tables.FoundNamed(columns, w.column);
  }

  lemma {:induction false} GoesMeans(columns: seq<string>, row: seq<string>, where: Option<WhereClause>)
    requires |row| == |columns| && (where.Some? ==> Checks(columns, where.value))
    ensures Goes(columns, row, where) <==> where.None? || MatchesWhere(columns, row, where.value)
  {
    if where.Some? {
      var w := where.value;
      Tables.FoundNamed(columns, w.column);
      var col := FindColumn(columns, w.column).value;
      Comparing.OperatorsMean(w.op, row[col], w.value);
      hide Tables.FindColumn, Tables.FirstNamed, Comparing.OpHolds, CompareValues, Comparing.ValuesStand, KnownOp;
      assert MatchesAt(columns, row, w, col) <==> Goes(columns, row, where);
    }
  }

  /** Exactly the rows that match go; the others are kept, in order. */
  lemma {:induction false} KeptExact(columns: seq<string>, rows: seq<seq<string>>, where: Option<WhereClause>)
    returns (from: seq<nat>)
    requires Even(rows, |columns|) && (where.Some? ==> Checks(columns, where.value))
    ensures |Spared(columns, rows, where)| + GoneCount(columns, rows, where) == |rows|
    ensures |from| == |Spared(columns, rows, where)|
    ensures forall k :: 0 <= k < |from| ==> from[k] < |rows| && rows[from[k]] == Spared(columns, rows, where)[k]
    ensures forall k, m :: 0 <= k < m < |from| ==> from[k] < from[m]
    ensures forall i :: 0 <= i < |rows| ==>
      (i in from <==> where.Some? && !MatchesWhere(columns, rows[i], where.value))
  {
    from := KeptFrom(columns, rows, where);
    hide Goes, Checks, MatchesWhere, Spared, GoneCount;
    forall i | 0 <= i < |rows| ensures i in from <==> where.Some? && !MatchesWhere(columns, rows[i], where.value) {
      GoesMeans(columns, rows[i], where);
    }
  }

  datatype Rewritten = Rewritten(file: string, deleted: nat)

  function Deleted(file: string, stmt: DeleteStatement): Option<Rewritten> {
    match Loaded(file)
    case Err(_) => None
    case Ok(table) =>
      LoadedEven(file);
      if stmt.where.Some? && !Checks(table.columns, stmt.where.value) then
        if table.rows == [] then Some(Rewritten(TableText(table.columns, []), 0)) else None
      else
        Some(Rewritten(TableText(table.columns, Spared(table.columns, table.rows, stmt.where)),
                       GoneCount(table.columns, table.rows, stmt.where)))
  }

  /** A DELETE on any file that loads: it fails exactly if its condition cannot be checked and there is a row
      to check it on; else the file becomes that of the table with exactly the rows that do not match, in
      order, and the others are counted. */
  lemma {:induction false} DeleteExact(file: string, stmt: DeleteStatement)
    returns (left: seq<seq<string>>, from: seq<nat>)
    requires Loaded(file).Ok?
    ensures var table := Loaded(file).value;
      Deleted(file, stmt).Some? <==> stmt.where.None? || table.rows == [] || CanCheck(table.columns, stmt.where.value)
    ensures Deleted(file, stmt).Some? ==>
      var table, done := Loaded(file).value, Deleted(file, stmt).value;
      done.file == TableText(table.columns, left) && |left| == |from| && done.deleted + |left| == |table.rows| &&
      (forall k :: 0 <= k < |from| ==> from[k] < |table.rows| && left[k] == table.rows[from[k]]) &&
      (forall k, m :: 0 <= k < m < |from| ==> from[k] < from[m]) &&
      forall i :: 0 <= i < |table.rows| ==>
        (i in from <==> stmt.where.Some? && !MatchesWhere(table.columns, table.rows[i], stmt.where.value))
  {
    var table := Loaded(file).value;
    LoadedEven(file);
    left, from := [], [];
    if stmt.where.Some? {
      ChecksMean(table.columns, stmt.where.value);
    }
    hide Loaded, Checks, CanCheck, MatchesWhere, Spared, GoneCount, TableText;
    if stmt.where.None? || Checks(table.columns, stmt.where.value) {
      from := KeptExact(table.columns, table.rows, stmt.where);
      left := Spared(table.columns, table.rows, stmt.where);
    }
  }

  lemma {:induction false} TextSnoc(columns: seq<string>, rows: seq<seq<string>>, row: seq<string>)
    ensures TableText(columns, rows + [row]) == TableText(columns, rows) + Line(row)
  {
    RowsTextSnoc(rows, row);
    hide Line, RowsText;
  }

  lemma {:induction false} RowsTextSnoc(rows: seq<seq<string>>, row: seq<string>)
    ensures RowsText(rows + [row]) == RowsText(rows) + Line(row)
  {
    hide Line;
    if rows == [] {
      assert [] + [row] == [row] && [row][1..] == [];
      assert RowsText([row]) == Line(row) + "";
    } else {
      assert (rows + [row])[1..] == rows[1..] + [row];
      RowsTextSnoc(rows[1..], row);
    }
  }

  /** storage_delete: the table is rewritten without the rows that match. */
  method StorageDelete(file: string, stmt: DeleteStatement) returns (file': string, r: Option<nat>)
    ensures match Deleted(file, stmt)
      case None => r == None && file' == file
      case Some(new') => r == Some(new'.deleted) && file' == new'.file
  {
    var loaded := LoadTable(file);
    if loaded.Err? {
      return file, None;
    }
    LoadedEven(file);
    var table := loaded.value;
    file', r := RewriteRows(file, table.columns, table.rows, stmt.where);
  }

  /** The copy after the first i rows. */
  ghost predicate CopiedTo(
      columns: seq<string>, rows: seq<seq<string>>, where: Option<WhereClause>, i: nat, temp: string, deleted: nat)
    requires Even(rows, |columns|) && (where.Some? ==> Checks(columns, where.value))
  {
    i <= |rows| && temp == TableText(columns, Spared(columns, rows[..i], where)) &&
    deleted == GoneCount(columns, rows[..i], where)
  }

  lemma CopyStart(columns: seq<string>, rows: seq<seq<string>>, where: Option<WhereClause>)
    requires Even(rows, |columns|) && (where.Some? ==> Checks(columns, where.value))
    ensures CopiedTo(columns, rows, where, 0, Line(columns), 0)
  {
    assert rows[..0] == [];
  }

  lemma {:induction false} CopyStep(
      columns: seq<string>, rows: seq<seq<string>>, where: Option<WhereClause>, i: nat, temp: string, deleted: nat)
    requires Even(rows, |columns|) && (where.Some? ==> Checks(columns, where.value))
    requires CopiedTo(columns, rows, where, i, temp, deleted) && i < |rows|
    ensures
      if Goes(columns, rows[i], where) then CopiedTo(columns, rows, where, i + 1, temp, deleted + 1)
      else CopiedTo(columns, rows, where, i + 1, temp + Line(rows[i]), deleted)
  {
    assert rows[..i + 1][..i] == rows[..i];
    hide Goes, Checks, TableText;
    TextSnoc(columns, Spared(columns, rows[..i], where), rows[i]);
    var spared := Spared(columns, rows[..i], where);
    assert spared + [] == spared;
  }

  lemma CopyEnd(columns: seq<string>, rows: seq<seq<string>>, where: Option<WhereClause>, temp: string, deleted: nat)
    requires Even(rows, |columns|) && (where.Some? ==> Checks(columns, where.value))
    requires CopiedTo(columns, rows, where, |rows|, temp, deleted)
    ensures temp == TableText(columns, Spared(columns, rows, where)) && deleted == GoneCount(columns, rows, where)
  {
    assert rows[..|rows|] == rows;
  }

  method RewriteRows(file: string, columns: seq<string>, rows: seq<seq<string>>, where: Option<WhereClause>)
    returns (file': string, r: Option<nat>)
    requires Even(rows, |columns|)
    ensures
      if where.Some? && !Checks(columns, where.value) then
        if rows == [] then r == Some(0) && file' == TableText(columns, []) else r == None && file' == file
      else r == Some(GoneCount(columns, rows, where)) && file' == TableText(columns, Spared(columns, rows, where))
  {
    var temp := WriteCsvRow("", columns);
    assert temp == Line(columns) == TableText(columns, []);
    var deleted := 0;
    ghost var fails := where.Some? && !Checks(columns, where.value);
    if !fails {
      CopyStart(columns, rows, where);
    }
    var i := 0;
    hide TableText, Goes, RowMatches, Line, CopiedTo;
    while i < |rows|
      invariant i <= |rows| && (fails ==> i == 0 && deleted == 0)
      invariant fails ==> temp == TableText(columns, [])
      invariant !fails ==> CopiedTo(columns, rows, where, i, temp, deleted)
    {
      if where.Some? {
        if FindColumn(columns, where.value.column).None? || !KnownOp(where.value.op) {
          return file, None;
        }
      }
      CopyStep(columns, rows, where, i, temp, deleted);
      if Goes(columns, rows[i], where) {
        deleted := deleted + 1;
      } else {
        temp := WriteCsvRow(temp, rows[i]);
      }
      i := i + 1;
    }
    if !fails {
      CopyEnd(columns, rows, where, temp, deleted);
    }
    return temp, Some(deleted);
  }

  // ---------- Tables in files ----------

  predicate Distinct(ids: seq<string>) {
    forall i, j :: 0 <= i < j < |ids| ==> ids[i] != ids[j]
  }

  predicate Nonempty(ids: seq<string>) {
    forall i :: 0 <= i < |ids| ==> ids[i] != ""
  }

  /** The rows have an id each, no two the same. */
  predicate IdsUnique(columns: seq<string>, rows: seq<seq<string>>) {
    Even(rows, |columns|) && FindColumn(columns, "id").Some? &&
    var ids := IdsOf(rows, FindColumn(columns, "id").value);
    Distinct(ids) && Nonempty(ids)
  }

  /** A table as these operations make it: with its ids in order, or without rows and without any
      column that a statement can name. */
  predicate Good(columns: seq<string>, rows: seq<seq<string>>) {
    ColumnsFit(columns) && RowsClean(rows, |columns|) &&
    (IdsUnique(columns, rows) || (columns == [""] && rows == []))
  }

  lemma {:induction false} GoodNoBlank(columns: seq<string>, rows: seq<seq<string>>)
    requires Good(columns, rows)
    ensures NoBlank(rows) && Even(rows, |columns|)
  {
    hide ColumnsFit, Distinct, FindColumn;
    if rows != [] {
      var k := FindColumn(columns, "id").value;
      forall i | 0 <= i < |rows| ensures rows[i] != [""] {
        assert IdsOf(rows, k)[i] == rows[i][k];
      }
    }
  }

  /** What loading finds in the file of a good table. */
  lemma {:induction false} GoodLoads(columns: seq<string>, rows: seq<seq<string>>)
    requires Good(columns, rows)
    ensures var file := TableText(columns, rows);
      Header(file) == Ok(columns) && columns != [] && Even(rows, |columns|) &&
      RowsFrom(file, LineEnd(file, 0), |columns|).Ok? &&
      RowsOf(RowsFrom(file, LineEnd(file, 0), |columns|).value) == rows &&
      Loaded(file).Ok? && Loaded(file).value.columns == columns && Loaded(file).value.rows == rows
  {
    GoodNoBlank(columns, rows);
    HeaderRead(columns, RowsText(rows));
    LoadedWritten(columns, rows);
    PlacesKept(rows, |Line(columns)|);
    RowsRead(Line(columns), rows, |columns|);
    var file := TableText(columns, rows);
    hide Header, RowsFrom, Line, RowsText, LineEnd, NoBlank, Good, Places, TableFiles.Kept;
    assert RowsOf(RowsFrom(file, LineEnd(file, 0), |columns|).value) == DataOf([], Places(rows, |Line(columns)|)).rows;
  }

  /** The row an INSERT adds to a table with these rows, if it adds one. */
  function RowFor(columns: seq<string>, rows: seq<seq<string>>, stmt: InsertStatement): Option<seq<string>>
    requires Held(stmt) && Even(rows, |columns|)
  {
    if !Covered(columns, stmt) then None
    else
      match AutoAt(columns, stmt)
      case Some(k) =>
        (match NextId(IdsOf(rows, k))
         case None => None
         case Some(n) => Some(Reordered(columns, stmt, Decimal(n))))
      case None =>
        var row := Reordered(columns, stmt, "");
        match FindColumn(columns, "id")
        case None => Some(row)
        case Some(k) => if row[k] != "" && row[k] !in IdsOf(rows, k) then Some(row) else None
  }

  lemma NewRowIs(columns: seq<string>, rows: seq<seq<string>>, stmt: InsertStatement)
    requires Good(columns, rows) && Held(stmt)
    ensures Even(rows, |columns|) && NewRow(TableText(columns, rows), columns, stmt) == RowFor(columns, rows, stmt)
  {
    GoodLoads(columns, rows);
    hide Good, Header, RowsFrom, LineEnd, TableText, Covered, Held, Reordered, NextId, FindColumn, Loaded;
  }

  /** INSERT on a good table's file: the row is appended, and that is all. */
  lemma {:induction false} InsertAppends(columns: seq<string>, rows: seq<seq<string>>, stmt: InsertStatement)
    requires Good(columns, rows) && Held(stmt)
    ensures Even(rows, |columns|)
    ensures Inserted(TableText(columns, rows), stmt) ==
      match RowFor(columns, rows, stmt)
      case None => None
      case Some(row) => Some(TableText(columns, rows + [row]))
  {
    GoodLoads(columns, rows);
    NewRowIs(columns, rows, stmt);
    hide Good, Header, RowsFrom, LineEnd, TableText, Covered, Held, NewRow, RowFor, FindColumn, Loaded;
    if RowFor(columns, rows, stmt).Some? {
      TextSnoc(columns, rows, RowFor(columns, rows, stmt).value);
    }
  }

  /** A statement as the parser makes it: no name is empty. */
  predicate Named(stmt: InsertStatement) {
    Held(stmt) && forall name <- stmt.columns :: name != ""
  }

  /** So the parser makes them: names are words, or a star. */
  lemma {:induction false} CompiledNamed(sql: string, stmt: InsertStatement)
    requires SqlText.Compiled(sql) == Ok(Statement.Insert(stmt))
    ensures Named(stmt) && CleanRow(stmt.columns)
  {
    SqlText.CompiledNames(sql, stmt);
    hide SqlText.Compiled;
    forall i | 0 <= i < |stmt.columns| ensures Clean(stmt.columns[i]) {
      assert stmt.columns[i] in stmt.columns;
    }
  }

  /** The values of the statement that are stored in the table are free of line breaks. */
  predicate StoredClean(columns: seq<string>, stmt: InsertStatement)
    requires Held(stmt) && Covered(columns, stmt)
  {
    forall i :: 0 <= i < |columns| && AutoAt(columns, stmt) != Some(i) ==>
      Clean(stmt.values[FindColumn(stmt.columns, columns[i]).value])
  }

  /** The row added fits the table: the statement's values in the table's order, and an id no other
      row has, the next one if the statement gives none. */
  lemma {:induction false} RowForFits(columns: seq<string>, rows: seq<seq<string>>, stmt: InsertStatement)
    requires Good(columns, rows) && Named(stmt) && Even(rows, |columns|) && RowFor(columns, rows, stmt).Some?
    ensures IdsUnique(columns, rows) && Covered(columns, stmt)
    ensures var row, k := RowFor(columns, rows, stmt).value, FindColumn(columns, "id").value;
      |row| == |columns| && row[k] != "" && row[k] !in IdsOf(rows, k) &&
      (CleanRow(row) <==> StoredClean(columns, stmt)) &&
      (forall i :: 0 <= i < |columns| && AutoAt(columns, stmt) != Some(i) ==>
        row[i] == stmt.values[FindColumn(stmt.columns, columns[i]).value]) &&
      (FindColumn(stmt.columns, "id").None? ==>
        NextId(IdsOf(rows, k)).Some? && row[k] == Decimal(NextId(IdsOf(rows, k)).value))
  {
    var row := RowFor(columns, rows, stmt).value;
    UnnamedColumn(stmt);
    assert IdsUnique(columns, rows);
    var k := FindColumn(columns, "id").value;
    var id := if AutoAt(columns, stmt).Some? then Decimal(NextId(IdsOf(rows, k)).value) else "";
    if AutoAt(columns, stmt).Some? {
      NextIdFresh(IdsOf(rows, k));
      assert row[k] == CellFor(columns, stmt, id, k);
    }
    StoredAre(columns, stmt, id);
    hide Good, IdsUnique, NextId, Decimal, FindColumn, Covered, CleanRow, StoredClean;
  }

  lemma StoredAre(columns: seq<string>, stmt: InsertStatement, id: string)
    requires Held(stmt) && Covered(columns, stmt) && Clean(id)
    ensures CleanRow(Reordered(columns, stmt, id)) <==> StoredClean(columns, stmt)
    ensures forall i :: 0 <= i < |columns| && AutoAt(columns, stmt) != Some(i) ==>
      Reordered(columns, stmt, id)[i] == stmt.values[FindColumn(stmt.columns, columns[i]).value]
  {
    hide FindColumn, Clean, AutoAt;
    var row := Reordered(columns, stmt, id);
    forall i | 0 <= i < |columns|
      ensures AutoAt(columns, stmt) != Some(i) ==>
        FindColumn(stmt.columns, columns[i]).Some? && row[i] == stmt.values[FindColumn(stmt.columns, columns[i]).value]
      ensures AutoAt(columns, stmt) == Some(i) ==> row[i] == id
    {
      assert row[i] == CellFor(columns, stmt, id, i);
    }
    if CleanRow(row) {
      forall i | 0 <= i < |columns| && AutoAt(columns, stmt) != Some(i)
        ensures Clean(stmt.values[FindColumn(stmt.columns, columns[i]).value])
      {
        assert Clean(row[i]);
      }
    }
  }

  /** No statement can name the only column of a table without ids. */
  lemma UnnamedColumn(stmt: InsertStatement)
    requires Named(stmt)
    ensures !Covered([""], stmt)
  {
    assert |Fold("")| == 0 && |Fold("id")| == 2;
    assert forall i :: 0 <= i < |stmt.columns| ==> stmt.columns[i] in stmt.columns;
    assert forall i :: 0 <= i < |stmt.columns| ==> |Fold(stmt.columns[i])| == |stmt.columns[i]| > 0;
    assert FindColumn(stmt.columns, "").None? && FindColumn([""], "id").None?;
    assert [""][0] == "";
  }

  lemma CleanSnoc(rows: seq<seq<string>>, row: seq<string>, count: nat)
    requires RowsClean(rows, count) && |row| == count && CleanRow(row)
    ensures RowsClean(rows + [row], count)
  {
    hide CleanRow;
  }

  lemma IdsSnoc(columns: seq<string>, rows: seq<seq<string>>, row: seq<string>)
    requires IdsUnique(columns, rows) && |row| == |columns|
    requires var k := FindColumn(columns, "id").value; row[k] != "" && row[k] !in IdsOf(rows, k)
    ensures IdsUnique(columns, rows + [row])
  {
    hide FindColumn;
    var k := FindColumn(columns, "id").value;
    assert IdsOf(rows + [row], k) == IdsOf(rows, k) + [row[k]];
  }

  lemma {:induction false} InsertKeepsGood(columns: seq<string>, rows: seq<seq<string>>, stmt: InsertStatement)
    requires Good(columns, rows) && Named(stmt) && Even(rows, |columns|) && RowFor(columns, rows, stmt).Some?
    ensures CleanRow(RowFor(columns, rows, stmt).value) ==>
      Good(columns, rows + [RowFor(columns, rows, stmt).value])
  {
    RowForFits(columns, rows, stmt);
    var row := RowFor(columns, rows, stmt).value;
    if CleanRow(row) {
      CleanSnoc(rows, row, |columns|);
    }
    IdsSnoc(columns, rows, row);
    hide RowFor, ColumnsFit, RowsClean, IdsUnique, StoredClean, CleanRow;
  }

  /** The first INSERT makes a table with an id column and one row, a good one if no name or value has a
      line break. */
  lemma {:induction false} FirstGood(stmt: InsertStatement)
    requires Held(stmt) && FirstInsert(stmt).Some?
    ensures var lines := FirstInsert(stmt).value;
      ColumnsHeld(lines.columns) && |lines.row| == |lines.columns| && FindColumn(lines.columns, "id").Some? &&
      (CleanRow(lines.columns) && CleanRow(lines.row) <==> CleanRow(stmt.columns) && CleanRow(stmt.values)) &&
      (CleanRow(stmt.columns) && CleanRow(stmt.values) ==> Good(lines.columns, [lines.row]))
    ensures Inserted("", stmt) == Some(TableText(FirstInsert(stmt).value.columns, [FirstInsert(stmt).value.row]))
    ensures FirstInsert(stmt).value ==
      if Tables.HasName(stmt.columns, "id") then FirstLines(stmt.columns, stmt.values)
      else FirstLines(["id"] + stmt.columns, ["1"] + stmt.values)
  {
    Tables.FoundNamed(stmt.columns, "id");
    var lines := FirstInsert(stmt).value;
    assert Line(lines.columns) + (Line(lines.row) + "") == "" + Line(lines.columns) + Line(lines.row);
    assert RowsText([lines.row]) == Line(lines.row) + RowsText([]);
    hide Line;
    assert FindColumn(lines.columns, "id").Some? && lines.row[FindColumn(lines.columns, "id").value] != "" by {
      assert FindColumn(stmt.columns, "id").None? ==> lines.columns[0] == "id";
    }
    FirstClean("id", stmt.columns);
    FirstClean("1", stmt.values);
    hide FindColumn, CleanRow;
  }

  lemma FirstClean(first: string, row: seq<string>)
    requires Clean(first)
    ensures CleanRow([first] + row) <==> CleanRow(row)
  {
    hide Clean;
    assert forall i :: 0 <= i < |row| ==> ([first] + row)[i + 1] == row[i];
  }

  /** What a DELETE leaves of the rows of a table; nothing if its condition cannot be checked on them. */
  function RowsAfterDelete(
      columns: seq<string>, rows: seq<seq<string>>, where: Option<WhereClause>): Option<seq<seq<string>>>
    requires Even(rows, |columns|)
  {
    if where.Some? && !Checks(columns, where.value) then if rows == [] then Some([]) else None
    else Some(Spared(columns, rows, where))
  }

  /** DELETE on a good table's file: exactly the rows that match are gone, and counted. */
  lemma {:induction false} DeleteRewrites(columns: seq<string>, rows: seq<seq<string>>, stmt: DeleteStatement)
    requires Good(columns, rows)
    ensures Even(rows, |columns|)
    ensures match (Deleted(TableText(columns, rows), stmt), RowsAfterDelete(columns, rows, stmt.where))
      case (None, None) => true
      case (Some(new'), Some(left)) => new'.file == TableText(columns, left) && |left| + new'.deleted == |rows|
      case _ => false
  {
    GoodLoads(columns, rows);
    hide Good, TableText, Checks, Header, RowsFrom, Loaded;
    if stmt.where.None? || Checks(columns, stmt.where.value) {
      var from := KeptFrom(columns, rows, stmt.where);
    }
    hide Spared, GoneCount;
  }

  lemma {:induction false} SparedGood(columns: seq<string>, rows: seq<seq<string>>, where: Option<WhereClause>)
    requires Good(columns, rows) && Even(rows, |columns|) && (where.Some? ==> Checks(columns, where.value))
    ensures Good(columns, Spared(columns, rows, where))
  {
    var left := Spared(columns, rows, where);
    var from := KeptFrom(columns, rows, where);
    hide Spared, Checks, ColumnsFit, CleanRow, FindColumn, Goes;
    assert RowsClean(left, |columns|);
    if IdsUnique(columns, rows) {
      SparedIds(columns, rows, left, from);
    }
    hide IdsUnique;
  }

  lemma {:induction false} SparedIds(
      columns: seq<string>, rows: seq<seq<string>>, left: seq<seq<string>>, from: seq<nat>)
    requires IdsUnique(columns, rows) && Even(left, |columns|) && |from| == |left|
    requires forall k :: 0 <= k < |from| ==> from[k] < |rows| && rows[from[k]] == left[k]
    requires forall k, m :: 0 <= k < m < |from| ==> from[k] < from[m]
    ensures IdsUnique(columns, left)
  {
    hide FindColumn;
    var k := FindColumn(columns, "id").value;
    forall i | 0 <= i < |left| ensures IdsOf(left, k)[i] == IdsOf(rows, k)[from[i]] {
    }
  }

  // ---------- Runs ----------

  datatype Op = Add(insert: InsertStatement) | Remove(delete: DeleteStatement)

  predicate HeldRun(ops: seq<Op>) {
    forall i :: 0 <= i < |ops| ==> HeldOp(ops[i])
  }

  predicate HeldOp(op: Op) {
    op.Add? ==> Held(op.insert)
  }

  predicate NamedRun(ops: seq<Op>) {
    forall i :: 0 <= i < |ops| ==> NamedOp(ops[i])
  }

  predicate NamedOp(op: Op) {
    op.Add? ==> Named(op.insert)
  }

  function Contents(file: Option<string>): string {
    if file.Some? then file.value else ""
  }

  /** The table's file, if there is one, after an operation. An INSERT opens the file for appending and
      so makes one even if it then fails. */
  function After(file: Option<string>, op: Op): Option<string>
    requires HeldOp(op)
  {
    match op
    case Add(stmt) =>
      (match Inserted(Contents(file), stmt) case Some(new') => Some(new') case None => Some(Contents(file)))
    case Remove(stmt) =>
      match file
      case None => None
      case Some(f) => match Deleted(f, stmt) case Some(new') => Some(new'.file) case None => file
  }

  function AfterAll(ops: seq<Op>): Option<string>
    requires HeldRun(ops)
  {
    if ops == [] then None else After(AfterAll(ops[..|ops| - 1]), ops[|ops| - 1])
  }

  // ---------- Line breaks ----------

  /** An INSERT that succeeds on the file and writes a line break into a cell. */
  predicate WritesBreak(file: string, stmt: InsertStatement)
    requires Held(stmt)
  {
    match Header(file)
    case Err(_) => false
    case Ok(columns) =>
      if columns == [] then
        FirstInsert(stmt).Some? && !(CleanRow(FirstInsert(stmt).value.columns) && CleanRow(FirstInsert(stmt).value.row))
      else NewRow(file, columns, stmt).Some? && !CleanRow(NewRow(file, columns, stmt).value)
  }

  predicate BreaksAt(ops: seq<Op>, k: nat)
    requires HeldRun(ops) && k < |ops|
  {
    ops[k].Add? && WritesBreak(Contents(AfterAll(ops[..k])), ops[k].insert)
  }

  /** Some INSERT of the run succeeded and wrote a line break. */
  predicate BreakWritten(ops: seq<Op>)
    requires HeldRun(ops)
  {
    exists k :: 0 <= k < |ops| && BreaksAt(ops, k)
  }

  lemma {:induction false} BreakSnoc(ops: seq<Op>, op: Op)
    requires HeldRun(ops) && HeldOp(op)
    ensures HeldRun(ops + [op])
    ensures BreakWritten(ops + [op]) <==>
      BreakWritten(ops) || (op.Add? && WritesBreak(Contents(AfterAll(ops)), op.insert))
  {
    var more, n := ops + [op], |ops|;
    assert op.Add? ==> Held(op.insert);
    hide HeldOp, WritesBreak, AfterAll;
    assert forall i :: 0 <= i < |more| ==> HeldOp(more[i]);
    forall k: nat | k < n ensures BreaksAt(more, k) <==> BreaksAt(ops, k) {
      assert more[..k] == ops[..k] && more[k] == ops[k];
    }
    assert more[..n] == ops && more[n] == op;
    assert BreaksAt(more, n) <==> op.Add? && WritesBreak(Contents(AfterAll(ops)), op.insert);
    hide BreaksAt;
    if BreakWritten(ops) {
      var k :| 0 <= k < n && BreaksAt(ops, k);
      assert BreaksAt(more, k);
    }
  }

  lemma FirstWrites(stmt: InsertStatement)
    requires Held(stmt)
    ensures WritesBreak("", stmt) <==> FirstInsert(stmt).Some? && !(CleanRow(stmt.columns) && CleanRow(stmt.values))
  {
    assert Header("") == Ok([]);
    if FirstInsert(stmt).Some? {
      FirstGood(stmt);
    }
    hide FirstInsert, Good, CleanRow;
  }

  /** On a good table, whether it does can be told from the values that are stored. */
  lemma {:induction false} GoodWrites(columns: seq<string>, rows: seq<seq<string>>, stmt: InsertStatement)
    requires Good(columns, rows) && Named(stmt)
    ensures Even(rows, |columns|)
    ensures WritesBreak(TableText(columns, rows), stmt) <==>
      RowFor(columns, rows, stmt).Some? && !CleanRow(RowFor(columns, rows, stmt).value)
    ensures WritesBreak(TableText(columns, rows), stmt) <==>
      RowFor(columns, rows, stmt).Some? && !StoredClean(columns, stmt)
  {
    GoodLoads(columns, rows);
    NewRowIs(columns, rows, stmt);
    if RowFor(columns, rows, stmt).Some? {
      RowForFits(columns, rows, stmt);
    }
    hide Good, TableText, Header, NewRow, RowFor, RowsFrom, Loaded, CleanRow, StoredClean, IdsUnique, FindColumn;
  }

  predicate DistinctNames(columns: seq<string>) {
    forall i, j :: 0 <= i < j < |columns| ==> !SameName(columns[i], columns[j])
  }

  /** If no two columns of the table have one name, all values are stored. */
  lemma {:induction false} AllStored(columns: seq<string>, stmt: InsertStatement)
    requires Held(stmt) && Covered(columns, stmt) && DistinctNames(columns)
    ensures StoredClean(columns, stmt) <==> CleanRow(stmt.values)
  {
    if StoredClean(columns, stmt) {
      forall v | 0 <= v < |stmt.values| ensures Clean(stmt.values[v]) {
        var i := StoredFrom(columns, stmt, v);
      }
    }
    hide FindColumn, Clean;
  }

  /** The column at i takes the value at v. */
  predicate Takes(columns: seq<string>, stmt: InsertStatement, i: nat, v: nat)
    requires i < |columns|
  {
    AutoAt(columns, stmt) != Some(i) && FindColumn(stmt.columns, columns[i]) == Some(v)
  }

  /** The values that the first n columns take. */
  function Taken(columns: seq<string>, stmt: InsertStatement, n: nat): set<nat>
    requires Held(stmt) && Covered(columns, stmt) && n <= |columns|
  {
    if n == 0 then {}
    else if AutoAt(columns, stmt) == Some(n - 1) then Taken(columns, stmt, n - 1)
    else Taken(columns, stmt, n - 1) + {FindColumn(stmt.columns, columns[n - 1]).value}
  }

  predicate TakenBelow(columns: seq<string>, stmt: InsertStatement, n: nat, v: nat)
    requires n <= |columns|
  {
    v < |stmt.values| && exists i: nat :: i < n && Takes(columns, stmt, i, v)
  }

  lemma TakenOnce(columns: seq<string>, stmt: InsertStatement, n: nat, v: nat)
    requires n < |columns| && DistinctNames(columns) && Takes(columns, stmt, n, v)
    ensures !TakenBelow(columns, stmt, n, v)
  {
    hide FindColumn, SameName;
    NameFound(stmt.columns, columns[n]);
    forall i: nat | i < n ensures !Takes(columns, stmt, i, v) {
      if Takes(columns, stmt, i, v) {
        NameFound(stmt.columns, columns[i]);
        SameNames(columns[i], columns[n], stmt.columns[v]);
      }
    }
  }

  lemma SameNames(a: string, b: string, c: string)
    requires SameName(c, a) && SameName(c, b)
    ensures SameName(a, b)
  {
  }

  lemma TakenMore(columns: seq<string>, stmt: InsertStatement, n: nat)
    requires Held(stmt) && Covered(columns, stmt) && n < |columns|
    ensures forall v :: TakenBelow(columns, stmt, n, v) ==> TakenBelow(columns, stmt, n + 1, v)
    ensures AutoAt(columns, stmt) != Some(n) ==>
      FindColumn(stmt.columns, columns[n]).Some? &&
      var v := FindColumn(stmt.columns, columns[n]).value;
      Takes(columns, stmt, n, v) && TakenBelow(columns, stmt, n + 1, v)
  {
    hide FindColumn, AutoAt;
    if AutoAt(columns, stmt) != Some(n) {
      assert Takes(columns, stmt, n, FindColumn(stmt.columns, columns[n]).value);
    }
  }

  /** Each column takes its own value. */
  lemma {:induction false} TakenCount(columns: seq<string>, stmt: InsertStatement, n: nat)
    requires Held(stmt) && Covered(columns, stmt) && DistinctNames(columns) && n <= |columns|
    ensures |Taken(columns, stmt, n)| ==
      n - if AutoAt(columns, stmt).Some? && AutoAt(columns, stmt).value < n then 1 else 0
    ensures forall v <- Taken(columns, stmt, n) :: TakenBelow(columns, stmt, n, v)
  {
    hide FindColumn, AutoAt, DistinctNames, Held, Takes, TakenBelow, Covered;
    if n > 0 {
      var front := Taken(columns, stmt, n - 1);
      TakenMore(columns, stmt, n - 1);
      TakenCount(columns, stmt, n - 1);
      if AutoAt(columns, stmt) != Some(n - 1) {
        var v := FindColumn(stmt.columns, columns[n - 1]).value;
        TakenOnce(columns, stmt, n - 1, v);
        assert Taken(columns, stmt, n) == front + {v} && v !in front;
      }
    }
  }

  /** As many values as columns to take them: so each value has its column. */
  lemma {:induction false} StoredFrom(columns: seq<string>, stmt: InsertStatement, v: nat) returns (i: nat)
    requires Held(stmt) && Covered(columns, stmt) && DistinctNames(columns) && v < |stmt.values|
    ensures i < |columns| && Takes(columns, stmt, i, v)
  {
    TakenCount(columns, stmt, |columns|);
    hide FindColumn, DistinctNames, Takes, Taken;
    AllBelow(Taken(columns, stmt, |columns|), |stmt.values|, v);
    i :| i < |columns| && Takes(columns, stmt, i, v);
  }

  lemma NameFound(columns: seq<string>, name: string)
    requires FindColumn(columns, name).Some?
    ensures SameName(columns[FindColumn(columns, name).value], name)
  {
  }

  lemma {:induction false} CountBelow(s: set<nat>, n: nat)
    requires forall x <- s :: x < n
    ensures |s| <= n
  {
    if n == 0 {
      assert s == {};
    } else {
      CountBelow(s - {n - 1}, n - 1);
    }
  }

  lemma AllBelow(s: set<nat>, n: nat, v: nat)
    requires (forall x <- s :: x < n) && |s| >= n && v < n
    ensures v in s
  {
    CountBelow(s + {v}, n);
  }

  // ---------- Which runs keep the file readable ----------

  /** The file reads as one row of names and rows of that width, whatever is in the cells. */
  ghost predicate Shaped(file: Option<string>) {
    file == None || file == Some("") || exists columns, rows :: ShapedAs(columns, rows, file)
  }

  ghost predicate ShapedAs(columns: seq<string>, rows: seq<seq<string>>, file: Option<string>) {
    ColumnsHeld(columns) && Even(rows, |columns|) && file == Some(TableText(columns, rows))
  }

  /** There is no file, or one that loads. */
  predicate Readable(file: Option<string>) {
    file.Some? ==> Loaded(file.value).Ok?
  }

  lemma {:induction false} ShapedReads(columns: seq<string>, rows: seq<seq<string>>, file: Option<string>)
    requires ShapedAs(columns, rows, file)
    ensures Readable(file) <==> CleanRow(columns) && RowsClean(rows, |columns|)
    ensures Header(file.value) == if CleanRow(columns) then Ok(columns) else Err(MalformedLine)
    ensures Readable(file) ==> Loaded(file.value).value.columns == columns
  {
    LoadedWritten(columns, rows);
    HeaderRead(columns, RowsText(rows));
    hide Loaded, Header, CleanRow, RowsClean, Line, RowsText;
  }

  lemma {:induction false} ShapedInsert(file: Option<string>, stmt: InsertStatement)
    requires Shaped(file) && Held(stmt)
    ensures Shaped(After(file, Add(stmt)))
    ensures Readable(After(file, Add(stmt))) <==> Readable(file) && !WritesBreak(Contents(file), stmt)
  {
    if file == None || file == Some("") {
      EmptyLoads();
      FirstWrites(stmt);
      FirstShaped(stmt);
      hide Inserted, Loaded, FirstInsert, WritesBreak, CleanRow;
    } else {
      var columns, rows :| ShapedAs(columns, rows, file);
      InsertShaped(columns, rows, file, stmt);
      hide After, WritesBreak, Readable, ShapedAs;
    }
  }

  lemma {:induction false} FirstShaped(stmt: InsertStatement)
    requires Held(stmt)
    ensures Inserted("", stmt).Some? <==> FirstInsert(stmt).Some?
    ensures FirstInsert(stmt).Some? ==> Shaped(Inserted("", stmt))
    ensures FirstInsert(stmt).Some? ==>
      (Readable(Inserted("", stmt)) <==> CleanRow(stmt.columns) && CleanRow(stmt.values))
  {
    FirstSucceeds(stmt);
    if FirstInsert(stmt).Some? {
      FirstGood(stmt);
      var lines := FirstInsert(stmt).value;
      var rows := [lines.row];
      hide FirstInsert, Inserted, Good, TableText, CleanRow, FindColumn;
      assert Even(rows, |lines.columns|) && (RowsClean(rows, |lines.columns|) <==> CleanRow(lines.row));
      ShapedReads(lines.columns, rows, Inserted("", stmt));
    }
  }

  lemma {:induction false} InsertShaped(
      columns: seq<string>, rows: seq<seq<string>>, file: Option<string>, stmt: InsertStatement)
    requires ShapedAs(columns, rows, file) && Held(stmt)
    ensures Shaped(After(file, Add(stmt)))
    ensures Readable(After(file, Add(stmt))) <==> Readable(file) && !WritesBreak(Contents(file), stmt)
  {
    ShapedReads(columns, rows, file);
    var after := After(file, Add(stmt));
    if CleanRow(columns) && NewRow(file.value, columns, stmt).Some? {
      var row := NewRow(file.value, columns, stmt).value;
      NewRowWide(file.value, columns, stmt);
      TextSnoc(columns, rows, row);
      hide NewRow, TableText, Header, CleanRow, Line;
      assert after == Some(file.value + Line(row));
      assert ShapedAs(columns, rows + [row], after);
      ShapedReads(columns, rows + [row], after);
      CleanMore(rows, row, |columns|);
    } else {
      hide NewRow, TableText, Header, CleanRow;
      assert after == file && !WritesBreak(file.value, stmt);
    }
    hide After, WritesBreak, Readable, ShapedAs, RowsClean, CleanRow;
  }

  lemma NewRowWide(file: string, columns: seq<string>, stmt: InsertStatement)
    requires Held(stmt)
    ensures NewRow(file, columns, stmt).Some? ==> |NewRow(file, columns, stmt).value| == |columns|
  {
    hide Covered, AutoIdIn, IdFree, AutoAt;
  }

  lemma CleanMore(rows: seq<seq<string>>, row: seq<string>, count: nat)
    requires Even(rows, count) && |row| == count
    ensures RowsClean(rows + [row], count) <==> RowsClean(rows, count) && CleanRow(row)
  {
    hide CleanRow;
    var more := rows + [row];
    assert more[|rows|] == row && forall i :: 0 <= i < |rows| ==> more[i] == rows[i];
  }

  lemma {:induction false} ShapedDelete(file: Option<string>, stmt: DeleteStatement)
    requires Shaped(file)
    ensures Shaped(After(file, Remove(stmt)))
    ensures Readable(After(file, Remove(stmt))) <==> Readable(file)
  {
    if file == Some("") {
      EmptyLoads();
      EmptyDeleted(stmt);
      GoodLoads([""], []);
      assert ShapedAs([""], [], Some("\n"));
      hide Deleted, Loaded, Good, TableText;
    } else if file.Some? && Deleted(file.value, stmt).Some? {
      var columns, rows :| ShapedAs(columns, rows, file);
      DeleteShaped(columns, rows, file, stmt);
      hide Deleted, Loaded, ShapedAs;
    }
  }

  lemma {:induction false} DeleteShaped(
      columns: seq<string>, rows: seq<seq<string>>, file: Option<string>, stmt: DeleteStatement)
    requires ShapedAs(columns, rows, file) && Deleted(file.value, stmt).Some?
    ensures Readable(file) && Shaped(After(file, Remove(stmt))) && Readable(After(file, Remove(stmt)))
  {
    ShapedReads(columns, rows, file);
    LoadedWritten(columns, rows);
    KeptClean(rows, |columns|);
    var table := Loaded(file.value).value;
    LoadedEven(file.value);
    var where, left := stmt.where, [];
    if where.None? || Checks(columns, where.value) {
      left := Spared(columns, table.rows, where);
      SparedClean(columns, table.rows, where);
    }
    hide Loaded, TableText, Spared, GoneCount, Checks, CleanRow, Kept, NoBlank;
    assert After(file, Remove(stmt)) == Some(TableText(columns, left));
    assert ShapedAs(columns, left, Some(TableText(columns, left)));
    ShapedReads(columns, left, Some(TableText(columns, left)));
  }

  lemma {:induction false} KeptClean(rows: seq<seq<string>>, count: nat)
    requires RowsClean(rows, count)
    ensures RowsClean(Kept(rows), count)
  {
    hide CleanRow;
    if rows != [] {
      assert rows == [rows[0]] + rows[1..];
      assert RowsClean(rows[1..], count);
      KeptClean(rows[1..], count);
    }
  }

  lemma {:induction false} SparedClean(columns: seq<string>, rows: seq<seq<string>>, where: Option<WhereClause>)
    requires RowsClean(rows, |columns|) && Even(rows, |columns|) && (where.Some? ==> Checks(columns, where.value))
    ensures RowsClean(Spared(columns, rows, where), |columns|)
    ensures Even(Spared(columns, rows, where), |columns|)
  {
    var from := KeptFrom(columns, rows, where);
    hide Spared, Checks, CleanRow, Goes, GoneCount;
  }

  /** Over every run of INSERTs and DELETEs, the file can be read if and only if no INSERT that succeeded
      wrote a line break into a cell. */
  lemma {:induction false} ReadableExactly(ops: seq<Op>)
    requires HeldRun(ops)
    ensures Shaped(AfterAll(ops)) && (Readable(AfterAll(ops)) <==> !BreakWritten(ops))
  {
    hide After, Shaped, Readable, BreakWritten, WritesBreak;
    NothingRun();
    if ops != [] {
      var before, op := ops[..|ops| - 1], ops[|ops| - 1];
      assert ops == before + [op] && HeldOp(op);
      ReadableExactly(before);
      BreakSnoc(before, op);
      match op {
        case Add(stmt) => ShapedInsert(AfterAll(before), stmt);
        case Remove(stmt) => ShapedDelete(AfterAll(before), stmt);
      }
    }
  }

  lemma NothingRun()
    ensures AfterAll([]) == None && Shaped(None) && Readable(None) && !BreakWritten([])
  {
  }

  // ---------- Unreadable for good ----------

  /** The file does not load, and if that is not for its header, the header has an id column. */
  predicate Broken(file: Option<string>) {
    file.Some? && Loaded(file.value).Err? &&
    (Header(file.value).Ok? ==> FindColumn(Header(file.value).value, "id").Some?)
  }

  /** Whatever the file: no INSERT succeeds on it, no DELETE does, and it stays as it is. */
  lemma {:induction false} BrokenStays(file: string, op: Op)
    requires Broken(Some(file)) && HeldOp(op)
    ensures After(Some(file), op) == Some(file)
    ensures op.Add? ==> Inserted(file, op.insert) == None
    ensures op.Remove? ==> Deleted(file, op.delete) == None
  {
    if op.Add? && Header(file).Ok? {
      var columns := Header(file).value;
      NoNewRow(file, columns, op.insert);
      hide NewRow, FirstInsert;
    }
    hide Header, RowsFrom, LineEnd, FindColumn, NewRow, FirstInsert;
  }

  lemma NoNewRow(file: string, columns: seq<string>, stmt: InsertStatement)
    requires Held(stmt) && FindColumn(columns, "id").Some? && RowsFrom(file, LineEnd(file, 0), |columns|).Err?
    ensures NewRow(file, columns, stmt).None?
  {
    hide RowsFrom, LineEnd, FindColumn, Covered, Reordered;
  }

  lemma {:induction false} TextBroken(columns: seq<string>, rows: seq<seq<string>>)
    requires ColumnsHeld(columns) && Even(rows, |columns|) && FindColumn(columns, "id").Some?
    requires !(CleanRow(columns) && RowsClean(rows, |columns|))
    ensures Broken(Some(TableText(columns, rows)))
  {
    LoadedWritten(columns, rows);
    HeaderRead(columns, RowsText(rows));
    hide Loaded, Header, CleanRow, RowsClean, Line, RowsText, FindColumn;
  }

  /** The file is missing or empty, or that of a good table. */
  ghost predicate Sound(file: Option<string>) {
    file == None || file == Some("") ||
    exists columns, rows :: Good(columns, rows) && file == Some(TableText(columns, rows))
  }

  lemma {:induction false} InsertSound(file: Option<string>, stmt: InsertStatement)
    requires Sound(file) && Named(stmt)
    ensures if WritesBreak(Contents(file), stmt) then Broken(After(file, Add(stmt))) else Sound(After(file, Add(stmt)))
  {
    if file == None || file == Some("") {
      FirstSound(file, stmt);
    } else {
      var columns, rows :| Good(columns, rows) && file == Some(TableText(columns, rows));
      GoodInsert(columns, rows, stmt);
      hide Good, TableText, After, WritesBreak, Broken, Named, RowFor, CleanRow;
    }
  }

  lemma {:induction false} FirstSound(file: Option<string>, stmt: InsertStatement)
    requires (file == None || file == Some("")) && Held(stmt)
    ensures if WritesBreak("", stmt) then Broken(After(file, Add(stmt))) else Sound(After(file, Add(stmt)))
    ensures FirstInsert(stmt).None? ==> !WritesBreak("", stmt) && After(file, Add(stmt)) == Some("")
    ensures FirstInsert(stmt).Some? && !WritesBreak("", stmt) ==>
      var lines := FirstInsert(stmt).value;
      Good(lines.columns, [lines.row]) && FindColumn(lines.columns, "id").Some? &&
      After(file, Add(stmt)) == Some(TableText(lines.columns, [lines.row]))
  {
    FirstSucceeds(stmt);
    FirstWrites(stmt);
    if FirstInsert(stmt).Some? {
      FirstGood(stmt);
      var lines := FirstInsert(stmt).value;
      hide FirstInsert, Good, TableText, Inserted, WritesBreak, CleanRow, FindColumn, ColumnsHeld, Broken;
      assert RowsClean([lines.row], |lines.columns|) <==> CleanRow(lines.row);
      if WritesBreak("", stmt) {
        TextBroken(lines.columns, [lines.row]);
      }
    }
    hide FirstInsert, Good, TableText, Inserted, WritesBreak, Broken, CleanRow;
  }

  /** An INSERT on a good table: it fails, or adds a good row, or leaves a file that cannot be read. */
  lemma {:induction false} GoodInsert(columns: seq<string>, rows: seq<seq<string>>, stmt: InsertStatement)
    requires Good(columns, rows) && Named(stmt)
    ensures var file, after := Some(TableText(columns, rows)), After(Some(TableText(columns, rows)), Add(stmt));
      Even(rows, |columns|) &&
      if WritesBreak(TableText(columns, rows), stmt) then Broken(after)
      else if RowFor(columns, rows, stmt).None? then after == file
      else
        var more := rows + [RowFor(columns, rows, stmt).value];
        Good(columns, more) && after == Some(TableText(columns, more))
  {
    InsertAppends(columns, rows, stmt);
    GoodWrites(columns, rows, stmt);
    if RowFor(columns, rows, stmt).Some? {
      InsertKeepsGood(columns, rows, stmt);
      if WritesBreak(TableText(columns, rows), stmt) {
        RowBreaks(columns, rows, stmt);
      }
    }
    hide Good, TableText, Inserted, RowFor, Named, WritesBreak, Broken, CleanRow, StoredClean;
  }

  lemma {:induction false} RowBreaks(columns: seq<string>, rows: seq<seq<string>>, stmt: InsertStatement)
    requires Good(columns, rows) && Named(stmt) && Even(rows, |columns|) && RowFor(columns, rows, stmt).Some?
    requires !CleanRow(RowFor(columns, rows, stmt).value)
    ensures Broken(Some(TableText(columns, rows + [RowFor(columns, rows, stmt).value])))
  {
    hide RowFor, Good, TableText, CleanRow, ColumnsHeld, RowsClean, Broken, FindColumn, StoredClean, Covered, AutoAt,
      IdsOf, NextId, Decimal, Held;
    RowForFits(columns, rows, stmt);
    GoodShape(columns, rows);
    var row := RowFor(columns, rows, stmt).value;
    CleanMore(rows, row, |columns|);
    TextBroken(columns, rows + [row]);
  }

  lemma GoodShape(columns: seq<string>, rows: seq<seq<string>>)
    requires Good(columns, rows)
    ensures ColumnsHeld(columns)
  {
  }

  lemma {:induction false} DeleteSound(file: Option<string>, stmt: DeleteStatement)
    requires Sound(file)
    ensures Sound(After(file, Remove(stmt)))
  {
    if file == Some("") {
      EmptyDeleted(stmt);
    } else if file.Some? {
      var columns, rows :| Good(columns, rows) && file == Some(TableText(columns, rows));
      DeleteRewrites(columns, rows, stmt);
      if stmt.where.None? || Checks(columns, stmt.where.value) {
        SparedGood(columns, rows, stmt.where);
      }
      hide Good, TableText, Deleted, Spared, Checks;
    }
  }

  lemma EmptyLoads()
    ensures Loaded("") == Ok(TableData([], [], []))
  {
    assert DataOf([], []).rows == [] && DataOf([], []).offsets == [];
  }

  /** A DELETE on an empty file writes the header of no columns: an empty line, which is read back as
      one column without a name. */
  lemma {:induction false} EmptyDeleted(stmt: DeleteStatement)
    ensures Deleted("", stmt) == Some(Rewritten("\n", 0))
    ensures Good([""], []) && "\n" == TableText([""], [])
  {
    EmptyLoads();
    assert Line([]) == "\n" && Line([""]) == "\n";
    assert TableText([], []) == "\n" == TableText([""], []);
  }

  lemma NamedHeld(ops: seq<Op>)
    requires NamedRun(ops)
    ensures HeldRun(ops)
  {
    forall i | 0 <= i < |ops| ensures HeldOp(ops[i]) {
      assert NamedOp(ops[i]);
    }
  }

  /** Over every run of INSERTs and DELETEs: the file is that of a table whose ids are all there and all
      different, or of one with no rows; or an INSERT wrote a line break, and then it is broken. */
  lemma {:induction false} RunSound(ops: seq<Op>)
    requires NamedRun(ops)
    ensures HeldRun(ops) && if BreakWritten(ops) then Broken(AfterAll(ops)) else Sound(AfterAll(ops))
  {
    NamedHeld(ops);
    if ops != [] {
      var before, op := ops[..|ops| - 1], ops[|ops| - 1];
      assert ops == before + [op] && HeldOp(op) && NamedOp(op);
      RunSound(before);
      BreakSnoc(before, op);
      var file := AfterAll(before);
      if BreakWritten(before) {
        BrokenStays(file.value, op);
      } else {
        match op {
          case Add(stmt) => InsertSound(file, stmt);
          case Remove(stmt) => DeleteSound(file, stmt);
        }
      }
    }
    hide After, Sound, Broken, BreakWritten, WritesBreak;
  }

  /** What soundness means for a reader of the file: it loads, and no two rows have the same id. */
  lemma {:induction false} SoundLoads(file: string)
    requires Sound(Some(file))
    ensures Loaded(file).Ok?
    ensures var table := Loaded(file).value; table.rows == [] || IdsUnique(table.columns, table.rows)
  {
    if file == "" {
      EmptyLoads();
    } else {
      var columns, rows :| Good(columns, rows) && file == TableText(columns, rows);
      GoodLoads(columns, rows);
    }
  }

  // ---------- When a table is locked for good ----------

  /** The first INSERT succeeds if it gives an id that is not empty, or none and leaves room for the
      column, and its names fit. */
  lemma FirstSucceeds(stmt: InsertStatement)
    requires Held(stmt)
    ensures Inserted("", stmt).Some? <==>
      (forall i :: 0 <= i < |stmt.columns| ==> |stmt.columns[i]| < 64) &&
      (Tables.HasName(stmt.columns, "id") || |stmt.columns| < 32) &&
      forall k: nat :: Tables.FirstNamed(stmt.columns, "id", k) ==> stmt.values[k] != ""
    ensures Inserted("", stmt).Some? <==> FirstInsert(stmt).Some?
  {
    assert Header("") == Ok([]);
    Tables.FoundNamed(stmt.columns, "id");
    assert forall k: nat :: Tables.FirstNamed(stmt.columns, "id", k) ==> k < |stmt.columns|;
    hide Header, FindColumn, Tables.HasName, Tables.FirstNamed;
  }

  predicate Tried(ops: seq<Op>) {
    exists op <- ops :: op.Add?
  }

  /** No INSERT of the run could be the first one of a table. */
  predicate AllRefused(ops: seq<Op>) {
    forall op <- ops :: HeldOp(op) && (op.Add? ==> FirstInsert(op.insert).None?)
  }

  /** A DELETE comes after an INSERT, and none up to it could be the first. */
  predicate Locks(ops: seq<Op>) {
    exists j :: 0 <= j < |ops| && ops[j].Remove? && Tried(ops[..j]) && AllRefused(ops[..j])
  }

  /** A table that has an id column, and no column without a name. */
  ghost predicate Tabled(file: Option<string>) {
    exists columns, rows :: TabledAs(columns, rows, file)
  }

  ghost predicate TabledAs(columns: seq<string>, rows: seq<seq<string>>, file: Option<string>) {
    Good(columns, rows) && FindColumn(columns, "id").Some? && (forall name <- columns :: name != "") &&
    file == Some(TableText(columns, rows))
  }

  lemma {:induction false} TabledStays(file: Option<string>, op: Op)
    requires Tabled(file) && NamedOp(op)
    ensures op.Add? && WritesBreak(Contents(file), op.insert) ==> Broken(After(file, op))
    ensures !(op.Add? && WritesBreak(Contents(file), op.insert)) ==> Tabled(After(file, op))
  {
    var columns, rows :| TabledAs(columns, rows, file);
    match op {
      case Add(stmt) => TabledInsert(columns, rows, file, stmt);
      case Remove(stmt) => TabledDelete(columns, rows, file, stmt);
    }
    hide TabledAs, Tabled, After, WritesBreak, Broken;
  }

  lemma {:induction false} TabledInsert(
      columns: seq<string>, rows: seq<seq<string>>, file: Option<string>, stmt: InsertStatement)
    requires TabledAs(columns, rows, file) && Named(stmt)
    ensures if WritesBreak(Contents(file), stmt) then Broken(After(file, Add(stmt))) else Tabled(After(file, Add(stmt)))
  {
    hide Good, TableText, RowFor, FindColumn, Held, WritesBreak, Broken, After;
    GoodInsert(columns, rows, stmt);
    if !WritesBreak(file.value, stmt) {
      var more := if RowFor(columns, rows, stmt).None? then rows else rows + [RowFor(columns, rows, stmt).value];
      assert TabledAs(columns, more, After(file, Add(stmt)));
    }
  }

  lemma {:induction false} TabledDelete(
      columns: seq<string>, rows: seq<seq<string>>, file: Option<string>, stmt: DeleteStatement)
    requires TabledAs(columns, rows, file)
    ensures Tabled(After(file, Remove(stmt)))
  {
    hide Good, TableText, FindColumn, Spared, Checks, Deleted;
    GoodNoBlank(columns, rows);
    DeleteRewrites(columns, rows, stmt);
    if stmt.where.None? || Checks(columns, stmt.where.value) {
      SparedGood(columns, rows, stmt.where);
    } else if rows == [] {
      assert Good(columns, []);
    }
    var left := RowsAfterDelete(columns, rows, stmt.where);
    assert TabledAs(columns, if left.Some? then left.value else rows, After(file, Remove(stmt)));
  }

  /** Such a table's file is neither empty nor the one with the nameless column. */
  lemma TabledFile(file: Option<string>)
    requires Tabled(file)
    ensures file.Some? && file != Some("") && file != Some("\n") && !Broken(file)
  {
    var columns, rows :| TabledAs(columns, rows, file);
    GoodLoads(columns, rows);
    EmptyDeleted(DeleteStatement("", None));
    GoodLoads([""], []);
    assert Header("") == Ok([]);
    assert FindColumn([""], "id").None? by {
      assert |Fold("")| == 0 && |Fold("id")| == 2;
    }
    hide Good, TableText, Header, FindColumn, RowsFrom, Loaded;
  }

  /** An INSERT can be found that succeeds on such a table: one that gives a new id. */
  lemma {:induction false} TabledOpen(file: Option<string>) returns (next: InsertStatement)
    requires Tabled(file)
    ensures Named(next) && Inserted(Contents(file), next).Some?
  {
    var columns, rows :| TabledAs(columns, rows, file);
    GoodNoBlank(columns, rows);
    GoodShape(columns, rows);
    hide Good, TableText, FindColumn, Inserted;
    var k := FindColumn(columns, "id").value;
    var id := FreshId(IdsOf(rows, k));
    next := InsertStatement("", columns, seq(|columns|, _ => id), seq(|columns|, _ => StringKind));
    GivesId(columns, next, id);
    InsertAppends(columns, rows, next);
    hide Covered, AutoAt, Reordered, IdsOf;
  }

  lemma GivesId(columns: seq<string>, next: InsertStatement, id: string)
    requires FindColumn(columns, "id").Some? && |columns| <= MAX_COLUMNS
    requires next == InsertStatement("", columns, seq(|columns|, _ => id), seq(|columns|, _ => StringKind))
    ensures Held(next) && Covered(columns, next) && AutoAt(columns, next) == None
    ensures Reordered(columns, next, "")[FindColumn(columns, "id").value] == id
  {
    NamesFound(columns);
    hide FindColumn;
    var k := FindColumn(columns, "id").value;
    assert Covered(columns, next);
    assert Reordered(columns, next, "")[k] == CellFor(columns, next, "", k);
  }

  lemma NamesFound(columns: seq<string>)
    ensures forall i :: 0 <= i < |columns| ==> FindColumn(columns, columns[i]).Some?
  {
    forall i | 0 <= i < |columns| ensures FindColumn(columns, columns[i]).Some? {
      assert SameName(columns[i], columns[i]);
    }
  }

  /** One that is longer than all there are. */
  lemma {:induction false} FreshId(ids: seq<string>) returns (id: string)
    ensures id != "" && id !in ids && forall other <- ids :: |other| < |id|
  {
    if ids == [] {
      id := "1";
    } else {
      id := FreshId(ids[1..]);
      var first := ids[0];
      id := id + first;
      assert ids == [first] + ids[1..];
    }
  }

  /** The first INSERT that could make the table does so, from no file or an empty one. */
  lemma {:induction false} FirstAfter(file: Option<string>, stmt: InsertStatement)
    requires (file == None || file == Some("")) && Named(stmt)
    ensures
      if FirstInsert(stmt).None? then After(file, Add(stmt)) == Some("") && !WritesBreak("", stmt)
      else if WritesBreak("", stmt) then Broken(After(file, Add(stmt)))
      else Tabled(After(file, Add(stmt)))
  {
    FirstSound(file, stmt);
    if FirstInsert(stmt).Some? && !WritesBreak("", stmt) {
      var lines := FirstInsert(stmt).value;
      assert forall name <- lines.columns :: name != "";
      assert TabledAs(lines.columns, [lines.row], After(file, Add(stmt))) by {
        hide After, Good, TableText, FirstInsert, WritesBreak, FindColumn;
      }
    }
    hide After, FirstInsert, WritesBreak, Broken, Good, TableText, TabledAs;
  }

  lemma {:induction false} LockedStays(op: Op)
    requires NamedOp(op)
    ensures After(Some("\n"), op) == Some("\n")
    ensures op.Add? ==> Inserted("\n", op.insert) == None && !WritesBreak("\n", op.insert)
  {
    EmptyDeleted(DeleteStatement("", None));
    GoodLoads([""], []);
    if op.Add? {
      InsertAppends([""], [], op.insert);
      UnnamedColumn(op.insert);
    } else {
      DeleteRewrites([""], [], op.delete);
      if op.delete.where.None? || Checks([""], op.delete.where.value) {
        assert Spared([""], [], op.delete.where) == [];
      }
    }
    hide Inserted, Deleted, Good, Covered, Named, Checks, Spared, TableText, Header, RowsFrom, Loaded;
  }

  lemma {:induction false} RunSnoc(ops: seq<Op>, op: Op)
    requires HeldOp(op)
    ensures var more := ops + [op];
      (Tried(more) <==> Tried(ops) || op.Add?) &&
      (AllRefused(more) <==> AllRefused(ops) && (op.Add? ==> FirstInsert(op.insert).None?)) &&
      (Locks(more) <==> Locks(ops) || (op.Remove? && Tried(ops) && AllRefused(ops)))
  {
    var more, n := ops + [op], |ops|;
    assert more[..n] == ops && more[n] == op;
    assert forall o :: o in more <==> o in ops || o == op;
    hide FirstInsert, HeldOp, Locks;
    forall j | 0 <= j <= n ensures more[..j] == ops[..j] {
    }
    LocksSnoc(ops, op, more);
  }

  lemma LocksSnoc(ops: seq<Op>, op: Op, more: seq<Op>)
    requires more == ops + [op]
    requires forall j :: 0 <= j <= |ops| ==> more[..j] == ops[..j]
    ensures Locks(more) <==> Locks(ops) || (op.Remove? && Tried(ops) && AllRefused(ops))
  {
    hide Tried, AllRefused;
    var n := |ops|;
    assert more[n] == op && ops[..n] == ops;
    assert forall j :: 0 <= j < n ==> more[j] == ops[j];
    if Locks(ops) {
      var j :| 0 <= j < n && ops[j].Remove? && Tried(ops[..j]) && AllRefused(ops[..j]);
      assert more[j].Remove?;
    }
    if op.Remove? && Tried(ops) && AllRefused(ops) {
      assert more[n].Remove? && more[..n] == ops;
    }
  }

  /** What kind of file a run leaves, told from its statements and whether one wrote a line break. */
  lemma {:induction false} RunFile(ops: seq<Op>)
    requires NamedRun(ops)
    ensures HeldRun(ops)
    ensures
      if !Tried(ops) then AfterAll(ops) == None
      else if Locks(ops) then AfterAll(ops) == Some("\n")
      else if AllRefused(ops) then AfterAll(ops) == Some("")
      else if BreakWritten(ops) then Broken(AfterAll(ops))
      else Tabled(AfterAll(ops))
    ensures Locks(ops) ==> Tried(ops)
    ensures BreakWritten(ops) ==> Tried(ops) && !Locks(ops) && !AllRefused(ops)
  {
    NamedHeld(ops);
    if ops != [] {
      var before, op := ops[..|ops| - 1], ops[|ops| - 1];
      assert ops == before + [op] && HeldOp(op) && NamedOp(op) && NamedRun(before);
      RunFile(before);
      RunSnoc(before, op);
      BreakSnoc(before, op);
      hide Tried, AllRefused, Locks, HeldOp, NamedOp, BreakWritten;
      OneMore(AfterAll(before), op);
    }
  }

  lemma {:induction false} OneMore(file: Option<string>, op: Op)
    requires NamedOp(op)
    ensures var broken := op.Add? && WritesBreak(Contents(file), op.insert);
      (file == None ==>
        if op.Remove? then After(file, op) == None
        else if FirstInsert(op.insert).None? then After(file, op) == Some("") && !broken
        else if broken then Broken(After(file, op)) else Tabled(After(file, op))) &&
      (file == Some("") ==>
        if op.Remove? then After(file, op) == Some("\n")
        else if FirstInsert(op.insert).None? then After(file, op) == Some("") && !broken
        else if broken then Broken(After(file, op)) else Tabled(After(file, op))) &&
      (file == Some("\n") ==> After(file, op) == Some("\n") && !broken) &&
      (Broken(file) ==> Broken(After(file, op))) &&
      (Tabled(file) ==> if broken then Broken(After(file, op)) else Tabled(After(file, op)))
  {
    if Tabled(file) {
      TabledStays(file, op);
    }
    if Broken(file) {
      BrokenStays(file.value, op);
    }
    if file == Some("\n") {
      LockedStays(op);
    }
    if file == None || file == Some("") {
      match op
      case Add(stmt) => FirstAfter(file, stmt);
      case Remove(stmt) => EmptyDeleted(stmt);
    }
    hide Tabled, FirstInsert, Inserted, Deleted, Named, Broken, WritesBreak;
  }

  /** No INSERT can ever succeed again. */
  ghost predicate Shut(file: Option<string>) {
    forall next | Named(next) :: Inserted(Contents(file), next) == None
  }

  /** After a run no INSERT can succeed if and only if a DELETE came after an INSERT and every INSERT up to
      it failed as the table's first, or an INSERT wrote a line break. */
  lemma {:induction false} LockedExactly(ops: seq<Op>)
    requires NamedRun(ops)
    ensures HeldRun(ops) && (Shut(AfterAll(ops)) <==> Locks(ops) || BreakWritten(ops))
    ensures AfterAll(ops) == Some("\n") <==> Locks(ops)
    ensures Broken(AfterAll(ops)) <==> BreakWritten(ops)
  {
    RunFile(ops);
    KnownFiles();
    var file := AfterAll(ops);
    hide Tried, AllRefused, Locks, BreakWritten, Tabled, Broken, Inserted, Named;
    if Tabled(file) {
      TabledFile(file);
      var next := TabledOpen(file);
    } else if Broken(file) {
      forall next | Named(next) ensures Inserted(file.value, next) == None {
        BrokenStays(file.value, Add(next));
      }
    } else if file == Some("\n") {
      forall next | Named(next) ensures Inserted(file.value, next) == None {
        LockedStays(Add(next));
      }
    } else {
      var next := FirstOpen();
      assert Inserted(Contents(file), next).Some?;
    }
  }

  lemma KnownFiles()
    ensures !Broken(None) && !Broken(Some("")) && !Broken(Some("\n"))
  {
    EmptyLoads();
    EmptyDeleted(DeleteStatement("", None));
    GoodLoads([""], []);
    hide Loaded, Good, TableText, Header;
  }

  lemma FirstOpen() returns (next: InsertStatement)
    ensures Named(next) && Inserted("", next).Some?
  {
    next := InsertStatement("", ["a"], [""], [StringKind]);
    assert FindColumn(["a"], "id").None? by {
      assert |Fold("a")| == 1 && |Fold("id")| == 2;
    }
    FirstSucceeds(next);
    hide Inserted, FindColumn;
  }

  /** A failed INSERT does not leave things as they were if it was the first: it makes the file, a
      DELETE then makes the nameless column, and from then on every INSERT fails. */
  lemma {:induction false} FailedInsertLocksTable(bad: InsertStatement, delete: DeleteStatement, next: InsertStatement)
    requires Named(bad) && FirstInsert(bad).None? && Named(next)
    ensures var ops := [Add(bad), Remove(delete)];
      AfterAll(ops) == Some("\n") && Inserted("\n", next) == None && AfterAll(ops + [Add(next)]) == Some("\n")
  {
    var ops := [Add(bad), Remove(delete)];
    EmptyDeleted(delete);
    FirstAfter(None, bad);
    assert ops[..1] == [Add(bad)] && ops[..1][..0] == [];
    assert AfterAll(ops[..1]) == Some("");
    LockedStays(Add(next));
    hide Inserted, Deleted, FirstInsert, Good, Covered, Named, Tabled, Broken, WritesBreak;
    assert (ops + [Add(next)])[..2] == ops;
  }

  /** An INSERT of an empty id is one such. */
  lemma EmptyIdLocks(table: string, delete: DeleteStatement)
    ensures var bad := InsertStatement(table, ["id"], [""], [StringKind]);
      Named(bad) && FirstInsert(bad).None? && AfterAll([Add(bad), Remove(delete)]) == Some("\n")
  {
    var bad := InsertStatement(table, ["id"], [""], [StringKind]);
    assert FindColumn(["id"], "id") == Some(0);
    hide FindColumn;
    FailedInsertLocksTable(bad, delete, bad);
  }

  /** The other way: a first INSERT of a name with a line feed succeeds, and no statement after it does. */
  lemma LineFeedLocks(table: string, op: Op)
    requires HeldOp(op)
    ensures var feed := InsertStatement(table, ["name"], ["a\nb"], [StringKind]);
      Named(feed) && Inserted("", feed).Some? && AfterAll([Add(feed)]) == Inserted("", feed) &&
      Loaded(Inserted("", feed).value).Err? && AfterAll([Add(feed), op]) == Inserted("", feed)
    ensures var feed := InsertStatement(table, ["name"], ["a\nb"], [StringKind]);
      Inserted("", feed).Some? &&
      (op.Add? ==> Inserted(Inserted("", feed).value, op.insert) == None) &&
      (op.Remove? ==> Deleted(Inserted("", feed).value, op.delete) == None)
  {
    var feed := InsertStatement(table, ["name"], ["a\nb"], [StringKind]);
    assert FindColumn(["name"], "id").None? by {
      assert |Fold("name")| == 4 && |Fold("id")| == 2;
    }
    assert !Clean("a\nb") by {
      assert IsBreak("a\nb"[1]);
    }
    FirstSucceeds(feed);
    FirstWrites(feed);
    FirstSound(None, feed);
    hide FindColumn, Inserted, Deleted, WritesBreak, FirstInsert, Good, TableText, Loaded, Header, Clean;
    var file := After(None, Add(feed));
    assert [Add(feed)][..0] == [] && [Add(feed), op][..1] == [Add(feed)];
    assert AfterAll([Add(feed)]) == file;
    assert feed.values[0] == "a\nb" && !CleanRow(feed.values);
    BrokenStays(file.value, op);
  }

  /** On a file with a header an INSERT that names the columns in the file, with an id that is free
      or, without one, integer ids below the largest, always succeeds. */
  lemma {:induction false} InsertSucceeds(columns: seq<string>, rows: seq<seq<string>>, stmt: InsertStatement)
    requires Good(columns, rows) && Named(stmt)
    ensures Even(rows, |columns|)
    ensures Inserted(TableText(columns, rows), stmt).Some? <==>
      IdsUnique(columns, rows) && Covered(columns, stmt) &&
      var ids := IdsOf(rows, FindColumn(columns, "id").value);
      match FindColumn(stmt.columns, "id")
      case Some(given) => GivenId(columns, stmt) != "" && GivenId(columns, stmt) !in ids
      case None => forall i :: 0 <= i < |ids| ==> IsIntegerText(ids[i]) && IntValue(ids[i]) < 0x7FFF_FFFF_FFFF_FFFF
  {
    InsertAppends(columns, rows, stmt);
    UnnamedColumn(stmt);
    hide Inserted, TableText, NextId, ColumnsFit, RowsClean, IsIntegerText, IntValue, Named;
    if IdsUnique(columns, rows) {
      NextIdExact(IdsOf(rows, FindColumn(columns, "id").value));
    }
    hide IdsUnique;
  }

  /** The id a statement gives for a table that has an id column. */
  function GivenId(columns: seq<string>, stmt: InsertStatement): string
    requires Held(stmt) && Covered(columns, stmt) && FindColumn(columns, "id").Some?
  {
    Reordered(columns, stmt, "")[FindColumn(columns, "id").value]
  }
}
