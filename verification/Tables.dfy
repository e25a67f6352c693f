/**
What a table of src/table_runtime.c is, as a value, and what INSERT and SELECT do to it: the
specification that the methods of TableRuntime and the threads of Sessions are proved against.
*/
module Tables {
  import opened Wrappers
  import opened Text
  import opened Statements
  import opened Comparing

  type Row = seq<string>

  datatype Error =
    | EmptyTableName
    | NameTooLong
    | WrongTable
    | BadColumnCount
    | ExplicitId
    | SchemaMismatch
    | KindMismatch
    | IdOutOfRange
    | TableNotFound
    | ColumnNotFound
    | BadIntegerLiteral
    | DeleteUnsupported

  /** columns and kinds are those of the schema, empty until the first INSERT has set it. */
  datatype Table = Table(
    name: string, loaded: bool, columns: seq<string>, kinds: seq<ValueKind>,
    rows: seq<Row>, nextId: int, index: map<int, int>)

  datatype QueryTable = QueryTable(columns: seq<string>, rows: seq<Row>)

  /** table_init. */
  const FRESH_TABLE := Table("", false, [], [], [], 1, map[])

  // ---------- INSERT ----------

  /** The first column called id, whatever its case. */
  predicate NamesId(columns: seq<string>) {
    exists i :: 0 <= i < |columns| && SameName(columns[i], "id")
  }

  /** table_initialize_schema. A column name longer than the schema's cells is refused as well, but
      only if it comes before any column called id. */
  function SchemaError(columns: seq<string>): Option<Error>
    decreases columns
  {
    if columns == [] || |columns| + 1 > MAX_COLUMNS then Some(BadColumnCount) else ColumnsError(columns)
  }

  function ColumnsError(columns: seq<string>): Option<Error> {
    if columns == [] then None
    else if SameName(columns[0], "id") then Some(ExplicitId)
    else if |columns[0]| >= MAX_IDENTIFIER_LEN then Some(NameTooLong)
    else ColumnsError(columns[1..])
  }

  /** table_validate_insert_schema. */
  function MatchError(t: Table, stmt: InsertStatement): Option<Error>
    requires stmt.Even() && |t.kinds| == |t.columns|
  {
    if stmt.columns == [] || |stmt.columns| != |t.columns| - 1 then Some(SchemaMismatch)
    else PairsError(t.columns[1..], t.kinds[1..], stmt.columns, stmt.kinds)
  }

  function PairsError(
      columns: seq<string>, kinds: seq<ValueKind>, given: seq<string>, givenKinds: seq<ValueKind>): Option<Error>
    requires |columns| == |kinds| == |given| == |givenKinds|
  {
    if columns == [] then None
    else if !SameName(columns[0], given[0]) then Some(SchemaMismatch)
    else if kinds[0] != givenKinds[0] then Some(KindMismatch)
    else PairsError(columns[1..], kinds[1..], given[1..], givenKinds[1..])
  }

  function Named(t: Table, name: string): Table {
    if t.name == "" then t.(name := Stored(MAX_IDENTIFIER_LEN, name)) else t
  }

  /** Why table_insert_row refuses a statement, if it does. */
  function InsertError(t: Table, stmt: InsertStatement): Option<Error>
    requires stmt.Even() && |t.kinds| == |t.columns|
  {
    if t.name == "" && |stmt.tableName| >= MAX_IDENTIFIER_LEN then Some(NameTooLong)
    else if !SameName(Named(t, stmt.tableName).name, stmt.tableName) then Some(WrongTable)
    else
      var bad := if t.loaded then MatchError(t, stmt) else SchemaError(stmt.columns);
      if bad.Some? then bad else if t.nextId > INT_MAX then Some(IdOutOfRange) else None
  }

  function WithSchema(t: Table, stmt: InsertStatement): Table {
    if t.loaded then t
    else t.(loaded := true, columns := ["id"] + stmt.columns, kinds := [IntKind] + stmt.kinds)
  }

  /** table_insert_row on a table in order: the table afterwards. */
  function AfterInsert(t: Table, stmt: InsertStatement): Table
    requires stmt.Even() && TableOk(t)
  {
    var named := Named(t, stmt.tableName);
    if InsertError(t, stmt).Some? then named
    else
      var s := WithSchema(named, stmt);
      s.(rows := s.rows + [[Decimal(s.nextId)] + stmt.values],
         nextId := s.nextId + 1,
         index := s.index[s.nextId := |s.rows|])
  }

  function InsertResult(t: Table, stmt: InsertStatement): Result<int, Error>
    requires stmt.Even() && |t.kinds| == |t.columns|
  {
    match InsertError(t, stmt)
    case Some(e) => Err(e)
    case None => Ok(|t.rows|)
  }

  /** What every table keeps: ids count the rows, the index maps ids to slots, rows are even. */
  ghost predicate TableOk(t: Table) {
    |t.kinds| == |t.columns| &&
    (t.loaded <==> t.rows != []) &&
    (t.loaded ==>
      2 <= |t.columns| <= MAX_COLUMNS && t.columns[0] == "id" && t.kinds[0] == IntKind) &&
    (!t.loaded ==> t.columns == []) &&
    t.nextId == |t.rows| + 1 <= INT_MAX + 1 &&
    (forall i :: 0 <= i < |t.rows| ==> |t.rows[i]| == |t.columns| && t.rows[i][0] == Decimal(i + 1)) &&
    t.index == IdSlots(|t.rows|)
  }

  /** id -> slot for the first n rows. */
  function IdSlots(n: nat): map<int, int> {
    if n == 0 then map[] else IdSlots(n - 1)[n as int := n - 1]
  }

  lemma {:induction false} IdSlotsBinds(n: nat, key: int)
    ensures key in IdSlots(n) <==> 1 <= key <= n
    ensures 1 <= key <= n ==> IdSlots(n)[key] == key - 1
  {
    if n > 0 {
      IdSlotsBinds(n - 1, key);
    }
  }

  /** One INSERT: it keeps the table in order, adds exactly one row with the next id or changes no
      row, id or index entry, and never touches an earlier row. */
  lemma {:induction false} InsertKeepsOrder(t: Table, stmt: InsertStatement)
    requires TableOk(t) && stmt.Even()
    ensures
      var t' := AfterInsert(t, stmt);
      TableOk(t') && t.rows <= t'.rows && |t'.rows| == t'.nextId - 1 &&
      (InsertError(t, stmt).None? ==>
        |t'.rows| == |t.rows| + 1 && t'.rows[|t.rows|] == [Decimal(t.nextId)] + stmt.values &&
        InsertResult(t, stmt) == Ok(|t.rows|) && (t.loaded ==> t'.columns == t.columns && t'.kinds == t.kinds)) &&
      (InsertError(t, stmt).Some? ==> t' == Named(t, stmt.tableName))
  {
    if InsertError(t, stmt).None? && t.loaded {
      MatchErrorNone(t, stmt);
    }
  }

  /** The outcome for a table whose name matches, part by part. */
  lemma InsertParts(t: Table, stmt: InsertStatement)
    requires TableOk(t) && stmt.Even()
    requires SameName(Named(t, stmt.tableName).name, stmt.tableName)
    requires t.name == "" ==> |stmt.tableName| < MAX_IDENTIFIER_LEN
    ensures var named := Named(t, stmt.tableName);
      var bad := if t.loaded then MatchError(t, stmt) else SchemaError(stmt.columns);
      named == t.(name := named.name) && MatchError(named, stmt) == MatchError(t, stmt) &&
      if bad.Some? || t.nextId > INT_MAX then
        AfterInsert(t, stmt) == named &&
        InsertResult(t, stmt) == Err(if bad.Some? then bad.value else IdOutOfRange)
      else
        InsertResult(t, stmt) == Ok(|t.rows|) &&
        AfterInsert(t, stmt) == Table(
          named.name, true,
          if t.loaded then t.columns else ["id"] + stmt.columns, if t.loaded then t.kinds else [IntKind] + stmt.kinds,
          t.rows + [[Decimal(t.nextId)] + stmt.values], t.nextId + 1, t.index[t.nextId := |t.rows|])
  {
    hide TableOk, PairsError, SchemaError, Decimal, Stored, SameName;
  }

  lemma MatchErrorNone(t: Table, stmt: InsertStatement)
    requires stmt.Even() && |t.kinds| == |t.columns| && MatchError(t, stmt).None?
    ensures |stmt.columns| == |t.columns| - 1
  {
  }

  /** A run of INSERTs. */
  function AfterInserts(t: Table, stmts: seq<InsertStatement>): (t': Table)
    requires TableOk(t) && forall s <- stmts :: s.Even()
    ensures TableOk(t')
    decreases |stmts|
  {
    if stmts == [] then t
    else
      InsertKeepsOrder(t, stmts[0]);
      AfterInserts(AfterInsert(t, stmts[0]), stmts[1..])
  }

  ghost function Accepted(t: Table, stmts: seq<InsertStatement>): nat
    requires TableOk(t) && forall s <- stmts :: s.Even()
    decreases |stmts|
  {
    if stmts == [] then 0
    else
      InsertKeepsOrder(t, stmts[0]);
      (if InsertError(t, stmts[0]).None? then 1 else 0) + Accepted(AfterInsert(t, stmts[0]), stmts[1..])
  }

  /** Over every run of INSERTs, accepted and refused, on a fresh table: ids are 1, 2, 3, ... in row
      order, the index binds exactly them to their slots, every row fits the schema, and the rows
      there after a part of the run are still there, unchanged, after all of it. */
  lemma {:induction false} InsertRun(first: seq<InsertStatement>, rest: seq<InsertStatement>)
    requires (forall s <- first :: s.Even()) && forall s <- rest :: s.Even()
    ensures TableOk(FRESH_TABLE)
    ensures
      var t, t' := AfterInserts(FRESH_TABLE, first), AfterInserts(FRESH_TABLE, first + rest);
      t.rows <= t'.rows && |t'.rows| == Accepted(FRESH_TABLE, first + rest) && t'.nextId == |t'.rows| + 1 &&
      (forall i :: 0 <= i < |t'.rows| ==> t'.rows[i][0] == Decimal(i + 1) && |t'.rows[i]| == |t'.columns|) &&
      (forall key :: key in t'.index <==> 1 <= key <= |t'.rows|) &&
      (forall key :: key in t'.index ==> t'.index[key] == key - 1)
  {
    RunSplits(FRESH_TABLE, first, rest);
    RunGrows(AfterInserts(FRESH_TABLE, first), rest);
    RunCounts(FRESH_TABLE, first + rest);
    var t' := AfterInserts(FRESH_TABLE, first + rest);
    forall key ensures key in t'.index <==> 1 <= key <= |t'.rows| {
      IdSlotsBinds(|t'.rows|, key);
    }
    forall key | key in t'.index ensures t'.index[key] == key - 1 {
      IdSlotsBinds(|t'.rows|, key);
    }
  }

  lemma {:induction false} RunSplits(t: Table, first: seq<InsertStatement>, rest: seq<InsertStatement>)
    requires TableOk(t) && (forall s <- first :: s.Even()) && forall s <- rest :: s.Even()
    ensures AfterInserts(t, first + rest) == AfterInserts(AfterInserts(t, first), rest)
    decreases |first|
  {
    if first == [] {
      assert first + rest == rest;
    } else {
      assert (first + rest)[1..] == first[1..] + rest;
      InsertKeepsOrder(t, first[0]);
      RunSplits(AfterInsert(t, first[0]), first[1..], rest);
    }
  }

  lemma {:induction false} RunGrows(t: Table, stmts: seq<InsertStatement>)
    requires TableOk(t) && forall s <- stmts :: s.Even()
    ensures t.rows <= AfterInserts(t, stmts).rows
    decreases |stmts|
  {
    if stmts != [] {
      InsertKeepsOrder(t, stmts[0]);
      RunGrows(AfterInsert(t, stmts[0]), stmts[1..]);
    }
  }

  lemma {:induction false} RunCounts(t: Table, stmts: seq<InsertStatement>)
    requires TableOk(t) && forall s <- stmts :: s.Even()
    ensures |AfterInserts(t, stmts).rows| == |t.rows| + Accepted(t, stmts)
    decreases |stmts|
  {
    if stmts != [] {
      InsertKeepsOrder(t, stmts[0]);
      RunCounts(AfterInsert(t, stmts[0]), stmts[1..]);
    }
  }

  // ---------- SELECT ----------

  /** The first column with the name, case folded. */
  function FindColumn(columns: seq<string>, name: string): (r: Option<nat>)
    ensures r.Some? ==> r.value < |columns| && SameName(columns[r.value], name)
    ensures r.Some? ==> forall j :: 0 <= j < r.value ==> !SameName(columns[j], name)
    ensures r.None? ==> forall j :: 0 <= j < |columns| ==> !SameName(columns[j], name)
  {
    if columns == [] then None
    else if SameName(columns[0], name) then Some(0)
    else match FindColumn(columns[1..], name)
      case None => None
      case Some(i) =>
        assert forall j :: 1 <= j < |columns| ==> columns[j] == columns[1..][j - 1];
        Some(i + 1)
  }

  /** table_compare_field_value. */
  function Compare(kind: ValueKind, cell: string, w: WhereClause): Option<int> {
    if kind == IntKind then CompareIntegers(cell, w.value) else Some(StrCmp(cell, w.value))
  }

  function CompareAt(t: Table, col: nat, w: WhereClause, i: nat): Option<int>
    requires TableOk(t) && col < |t.columns| && i < |t.rows|
  {
    Compare(t.kinds[col], t.rows[i][col], w)
  }

  /** Row i satisfies the predicate. */
  predicate Satisfies(t: Table, col: nat, w: WhereClause, i: nat)
    requires TableOk(t) && col < |t.columns| && i < |t.rows|
  {
    match CompareAt(t, col, w, i)
    case Some(c) => OpHolds(w.op, c)
    case None => false
  }

  /** The slots among the first n whose rows satisfy the predicate. */
  function Matching(t: Table, col: nat, w: WhereClause, n: nat): seq<nat>
    requires TableOk(t) && col < |t.columns| && n <= |t.rows|
  {
    if n == 0 then []
    else Matching(t, col, w, n - 1) + if Satisfies(t, col, w, n - 1) then [n - 1] else []
  }

  lemma {:induction false} MatchingExact(t: Table, col: nat, w: WhereClause, n: nat)
    requires TableOk(t) && col < |t.columns| && n <= |t.rows|
    ensures forall i :: i in Matching(t, col, w, n) <==> 0 <= i < n && Satisfies(t, col, w, i)
    ensures forall a, b :: 0 <= a < b < |Matching(t, col, w, n)| ==>
      Matching(t, col, w, n)[a] < Matching(t, col, w, n)[b]
  {
    hide TableOk, Satisfies;
    if n > 0 {
      MatchingExact(t, col, w, n - 1);
      var front, last := Matching(t, col, w, n - 1), if Satisfies(t, col, w, n - 1) then [(n - 1) as nat] else [];
      assert Matching(t, col, w, n) == front + last;
      assert forall a :: 0 <= a < |front| ==> front[a] in front;
    }
  }

  function AllSlots(n: nat): seq<nat> {
    seq(n, i => i)
  }

  predicate AllComparable(t: Table, col: nat, w: WhereClause, n: nat)
    requires TableOk(t) && col < |t.columns| && n <= |t.rows|
  {
    forall i :: 0 <= i < n ==> CompareAt(t, col, w, i).Some?
  }

  /** table_linear_scan_by_field. */
  function ScanResult(t: Table, where: Option<WhereClause>): (r: Result<seq<nat>, Error>)
    requires TableOk(t)
    ensures r.Ok? ==> forall k :: 0 <= k < |r.value| ==> r.value[k] < |t.rows|
  {
    if !t.loaded || t.rows == [] then Ok([])
    else match where
      case None => Ok(AllSlots(|t.rows|))
      case Some(w) =>
        match FindColumn(t.columns, w.column)
        case None => Err(ColumnNotFound)
        case Some(col) =>
          MatchingExact(t, col, w, |t.rows|);
          assert forall k :: 0 <= k < |Matching(t, col, w, |t.rows|)| ==>
            Matching(t, col, w, |t.rows|)[k] in Matching(t, col, w, |t.rows|);
          if AllComparable(t, col, w, |t.rows|) then Ok(Matching(t, col, w, |t.rows|)) else Err(BadIntegerLiteral)
  }

  /** executor_can_use_id_index: the key, when the predicate is an equality on the id with a
      literal that is a B+ tree key. */
  function IndexKey(t: Table, w: WhereClause): Option<int>
    requires TableOk(t)
  {
    if t.loaded && t.rows != [] && w.op == "=" && SameName(t.columns[0], w.column) then
      match TryParse(w.value)
      case Some(v) => if 0 <= v <= INT_MAX then Some(v) else None
      case None => None
    else None
  }

  /** executor_collect_rows_by_id: the slot the index has for the key. */
  function IndexSlots(t: Table, key: int): seq<nat> {
    if key in t.index && t.index[key] >= 0 then [t.index[key]] else []
  }

  /** Where the index may be used, it gives what the scan gives: for every literal (signs, leading
      zeros and quotes included), present or absent. */
  lemma {:induction false} IndexAgreesWithScan(t: Table, w: WhereClause)
    requires TableOk(t) && IndexKey(t, w).Some?
    ensures ScanResult(t, Some(w)) == Ok(IndexSlots(t, IndexKey(t, w).value))
  {
    var key, n := IndexKey(t, w).value, |t.rows|;
    assert FindColumn(t.columns, w.column) == Some(0);
    forall i | 0 <= i < n
      ensures CompareAt(t, 0, w, i).Some? && (Satisfies(t, 0, w, i) <==> i + 1 == key)
    {
      IdRowCompares(t, w, key, i);
    }
    hide CompareAt, Satisfies;
    MatchingOne(t, w, key, n);
    IdSlotsBinds(n, key);
  }

  lemma {:induction false} IdRowCompares(t: Table, w: WhereClause, key: int, i: nat)
    requires TableOk(t) && t.loaded && i < |t.rows| && w.op == "=" && TryParse(w.value) == Some(key)
    ensures CompareAt(t, 0, w, i).Some? && (Satisfies(t, 0, w, i) <==> i + 1 == key)
  {
    DecimalParses(i + 1);
    hide TryParse, Decimal, IdSlots;
    assert CompareAt(t, 0, w, i) == Some(Sign(i + 1 - key));
  }

  lemma {:induction false} MatchingOne(t: Table, w: WhereClause, key: int, n: nat)
    requires TableOk(t) && t.loaded && n <= |t.rows|
    requires forall i :: 0 <= i < n ==> (Satisfies(t, 0, w, i) <==> i + 1 == key)
    ensures Matching(t, 0, w, n) == if 1 <= key <= n then [key - 1] else []
  {
    hide TableOk, Satisfies;
    if n > 0 {
      MatchingOne(t, w, key, n - 1);
    }
  }

  /** The columns a SELECT asks for, as positions in the schema. */
  function Projection(t: Table, wanted: seq<string>): Result<seq<nat>, Error> {
    if wanted == [] then Ok(AllSlots(|t.columns|)) else Positions(t.columns, wanted)
  }

  function Positions(columns: seq<string>, wanted: seq<string>): (r: Result<seq<nat>, Error>)
    ensures r.Ok? ==> |r.value| == |wanted| && forall i :: 0 <= i < |wanted| ==>
      FindColumn(columns, wanted[i]) == Some(r.value[i])
    ensures r.Err? ==>
      r.error == ColumnNotFound && exists i :: 0 <= i < |wanted| && FindColumn(columns, wanted[i]).None?
  {
    if wanted == [] then Ok([])
    else
      match FindColumn(columns, wanted[0])
      case None => Err(ColumnNotFound)
      case Some(p) =>
        match Positions(columns, wanted[1..])
        case Err(e) =>
          assert forall i :: 0 <= i < |wanted| - 1 ==> wanted[1..][i] == wanted[i + 1];
          Err(e)
        case Ok(rest) => Ok([p] + rest)
  }

  function Pick<T>(xs: seq<T>, at: seq<nat>): seq<T>
    requires forall i :: 0 <= i < |at| ==> at[i] < |xs|
  {
    seq(|at|, i requires 0 <= i < |at| => xs[at[i]])
  }

  predicate InRange(sel: seq<nat>, n: nat) {
    forall i :: 0 <= i < |sel| ==> sel[i] < n
  }

  lemma ProjectionWithin(t: Table, wanted: seq<string>)
    ensures Projection(t, wanted).Ok? ==> InRange(Projection(t, wanted).value, |t.columns|)
  {
    if wanted != [] && Projection(t, wanted).Ok? {
      var sel := Projection(t, wanted).value;
      assert forall i :: 0 <= i < |wanted| ==> FindColumn(t.columns, wanted[i]) == Some(sel[i]);
    }
  }

  /** The rows at the given slots, cut down to the selected columns. */
  function CopyRows(t: Table, sel: seq<nat>, slots: seq<nat>): (rows: seq<Row>)
    requires TableOk(t) && InRange(sel, |t.columns|) && InRange(slots, |t.rows|)
  {
    seq(|slots|, k requires 0 <= k < |slots| => Pick(t.rows[slots[k]], sel))
  }

  /** executor_execute_select on the table it found. */
  function SelectResult(t: Table, stmt: SelectStatement): Result<QueryTable, Error>
    requires TableOk(t)
  {
    if !t.loaded then Err(TableNotFound)
    else
      match Projection(t, stmt.columns)
      case Err(e) => Err(e)
      case Ok(sel) =>
        match ScanResult(t, stmt.where)
        case Err(e) => Err(e)
        case Ok(slots) =>
          ProjectionWithin(t, stmt.columns);
          Ok(QueryTable(Pick(t.columns, sel), CopyRows(t, sel, slots)))
  }

  // ---------- What a SELECT gives ----------

  predicate HasName(columns: seq<string>, name: string) {
    exists p :: 0 <= p < |columns| && SameName(columns[p], name)
  }

  /** The first column with the name, case folded, is at p. */
  predicate FirstNamed(columns: seq<string>, name: string, p: nat) {
    p < |columns| && SameName(columns[p], name) && forall q :: 0 <= q < p ==> !SameName(columns[q], name)
  }

  /** The columns wanted are at these places; all of them if none is named. */
  predicate Selects(columns: seq<string>, wanted: seq<string>, sel: seq<nat>) {
    |sel| == (if wanted == [] then |columns| else |wanted|) &&
    forall j :: 0 <= j < |sel| ==>
      if wanted == [] then sel[j] == j else FirstNamed(columns, wanted[j], sel[j])
  }

  /** The cell of a column of that kind passes the condition: an integer column compares integers, any
      other compares texts. */
  ghost predicate Passes(kind: ValueKind, cell: string, op: string, value: string) {
    if kind == IntKind then IntegersStand(op, cell, value) else TextsStand(op, cell, value)
  }

  /** The row at i passes the condition. */
  ghost predicate RowPasses(t: Table, w: WhereClause, i: nat) {
    exists col: nat :: PassesAt(t, w, i, col)
  }

  ghost predicate PassesAt(t: Table, w: WhereClause, i: nat, col: nat) {
    FirstNamed(t.columns, w.column, col) && col < |t.kinds| && i < |t.rows| && col < |t.rows[i]| &&
    Passes(t.kinds[col], t.rows[i][col], w.op, w.value)
  }

  /** The condition can be checked on every row: there is such a column, and if it is an integer column,
      its cells and the literal are integers. */
  ghost predicate Checkable(t: Table, w: WhereClause) {
    exists col: nat :: CheckableAt(t, w, col)
  }

  ghost predicate CheckableAt(t: Table, w: WhereClause, col: nat) {
    FirstNamed(t.columns, w.column, col) && col < |t.kinds| &&
    forall i: nat | i < |t.rows| ::
      col < |t.rows[i]| && (t.kinds[col] == IntKind ==> IsLongText(t.rows[i][col]) && IsLongText(w.value))
  }

  /** Cell by cell, what is shown of the row are its cells at these places. */
  predicate CellsAre(row: Row, sel: seq<nat>, shown: Row) {
    |shown| == |sel| && forall j :: 0 <= j < |sel| ==> sel[j] < |row| && shown[j] == row[sel[j]]
  }

  lemma CellsPicked(row: Row, sel: seq<nat>)
    requires InRange(sel, |row|)
    ensures CellsAre(row, sel, Pick(row, sel))
  {
  }

  lemma FoundNamed(columns: seq<string>, name: string)
    ensures FindColumn(columns, name).Some? <==> HasName(columns, name)
    ensures forall p: nat :: FirstNamed(columns, name, p) <==> FindColumn(columns, name) == Some(p)
  {
  }

  lemma {:induction false} SatisfiesMeans(t: Table, col: nat, w: WhereClause, i: nat)
    requires TableOk(t) && col < |t.columns| && i < |t.rows|
    ensures |t.rows[i]| == |t.columns| == |t.kinds|
    ensures CompareAt(t, col, w, i).Some? <==>
      (t.kinds[col] == IntKind ==> IsLongText(t.rows[i][col]) && IsLongText(w.value))
    ensures Satisfies(t, col, w, i) <==> Passes(t.kinds[col], t.rows[i][col], w.op, w.value)
  {
    OperatorsMean(w.op, t.rows[i][col], w.value);
    NoIntegers(w.op, t.rows[i][col], w.value);
    hide OpHolds, IsLongText, IntegersStand, TextsStand, CompareIntegers, StrCmp, CompareValues;
  }

  lemma NoIntegers(op: string, a: string, b: string)
    ensures !(IsLongText(a) && IsLongText(b)) ==> !IntegersStand(op, a, b)
  {
    hide Denotes;
    assert forall x, y :: NumbersStand(op, a, b, x, y) ==> IsLongText(a) && IsLongText(b);
  }

  lemma {:induction false} ProjectionMeans(t: Table, wanted: seq<string>)
    ensures Projection(t, wanted).Ok? <==> forall j :: 0 <= j < |wanted| ==> HasName(t.columns, wanted[j])
    ensures Projection(t, wanted).Err? ==> Projection(t, wanted).error == ColumnNotFound
    ensures Projection(t, wanted).Ok? ==> Selects(t.columns, wanted, Projection(t, wanted).value)
  {
    hide HasName, FirstNamed, FindColumn;
    forall j | 0 <= j < |wanted|
      ensures FindColumn(t.columns, wanted[j]).Some? <==> HasName(t.columns, wanted[j])
      ensures forall p: nat :: FirstNamed(t.columns, wanted[j], p) <==> FindColumn(t.columns, wanted[j]) == Some(p)
    {
      FoundNamed(t.columns, wanted[j]);
    }
  }

  lemma {:induction false} ScanMeans(t: Table, where: Option<WhereClause>)
    requires TableOk(t) && t.loaded
    ensures ScanResult(t, where).Ok? <==> (where.Some? ==> Checkable(t, where.value))
    ensures ScanResult(t, where).Err? ==>
      where.Some? && ScanResult(t, where).error ==
        if HasName(t.columns, where.value.column) then BadIntegerLiteral else ColumnNotFound
    ensures ScanResult(t, where).Ok? ==>
      var slots := ScanResult(t, where).value;
      (forall a, b :: 0 <= a < b < |slots| ==> slots[a] < slots[b]) &&
      forall i: nat :: i in slots <==> i < |t.rows| && (where.Some? ==> RowPasses(t, where.value, i))
  {
    hide *;
    if where.Some? {
      var w := where.value;
      NamedColumn(t, w);
      ScanIs(t, w);
      if FindColumn(t.columns, w.column).Some? {
        ScanColumn(t, w, FindColumn(t.columns, w.column).value);
      }
    } else {
      ScanAll(t);
    }
  }

  lemma ScanAll(t: Table)
    requires TableOk(t) && t.loaded
    ensures ScanResult(t, None) == Ok(AllSlots(|t.rows|))
    ensures var slots := AllSlots(|t.rows|);
      (forall a, b :: 0 <= a < b < |slots| ==> slots[a] < slots[b]) && forall i: nat :: i in slots <==> i < |t.rows|
  {
    var slots := AllSlots(|t.rows|);
    forall i: nat ensures i in slots <==> i < |t.rows| {
      assert i < |t.rows| ==> slots[i] == i;
    }
  }

  lemma ScanIs(t: Table, w: WhereClause)
    requires TableOk(t) && t.loaded
    ensures var col := FindColumn(t.columns, w.column);
      ScanResult(t, Some(w)) ==
        if col.None? then Err(ColumnNotFound)
        else if AllComparable(t, col.value, w, |t.rows|) then Ok(Matching(t, col.value, w, |t.rows|))
        else Err(BadIntegerLiteral)
  {
    LoadedRows(t);
    hide TableOk, Matching, AllComparable, FindColumn;
  }

  lemma LoadedRows(t: Table)
    requires TableOk(t) && t.loaded
    ensures t.rows != []
  {
  }

  lemma NamedColumn(t: Table, w: WhereClause)
    ensures FindColumn(t.columns, w.column).Some? <==> HasName(t.columns, w.column)
    ensures FindColumn(t.columns, w.column).None? ==> !Checkable(t, w)
  {
    FoundNamed(t.columns, w.column);
    hide FindColumn, IsLongText;
  }

  lemma {:induction false} ScanColumn(t: Table, w: WhereClause, col: nat)
    requires TableOk(t) && FindColumn(t.columns, w.column) == Some(col)
    ensures AllComparable(t, col, w, |t.rows|) <==> Checkable(t, w)
    ensures var slots := Matching(t, col, w, |t.rows|);
      (forall a, b :: 0 <= a < b < |slots| ==> slots[a] < slots[b]) &&
      forall i: nat :: i in slots <==> i < |t.rows| && RowPasses(t, w, i)
  {
    FoundNamed(t.columns, w.column);
    MatchingExact(t, col, w, |t.rows|);
    ComparableMeans(t, w, col);
    hide FindColumn, FirstNamed, Passes, Satisfies, CompareAt, Matching, HasName, CheckableAt, AllComparable;
    CheckableIn(t, w, col);
    forall i: nat ensures i < |t.rows| ==> (Satisfies(t, col, w, i) <==> RowPasses(t, w, i)) {
      if i < |t.rows| {
        SatisfiesMeans(t, col, w, i);
        assert PassesAt(t, w, i, col) <==> Satisfies(t, col, w, i);
      }
    }
    hide TableOk, RowPasses;
  }

  lemma {:induction false} ComparableMeans(t: Table, w: WhereClause, col: nat)
    requires TableOk(t) && col < |t.columns| && FirstNamed(t.columns, w.column, col)
    ensures AllComparable(t, col, w, |t.rows|) <==> CheckableAt(t, w, col)
  {
    hide FirstNamed, CompareAt, IsLongText, Satisfies;
    forall i: nat | i < |t.rows|
      ensures |t.rows[i]| == |t.columns| == |t.kinds|
      ensures CompareAt(t, col, w, i).Some? <==>
        (t.kinds[col] == IntKind ==> IsLongText(t.rows[i][col]) && IsLongText(w.value))
    {
      SatisfiesMeans(t, col, w, i);
    }
    KindsEven(t);
    hide TableOk;
  }

  lemma KindsEven(t: Table)
    requires TableOk(t)
    ensures |t.kinds| == |t.columns|
  {
  }

  lemma CheckableIn(t: Table, w: WhereClause, col: nat)
    requires |t.kinds| == |t.columns| && forall p: nat :: FirstNamed(t.columns, w.column, p) <==> p == col
    ensures Checkable(t, w) <==> CheckableAt(t, w, col)
  {
    hide FirstNamed, IsLongText, TableOk;
  }

  /** The index is used exactly for an equality on the id with a literal that is a B+ tree key, however it is
      written; and then the answer is the slots of the rows that pass. */
  lemma {:induction false} IndexUsed(t: Table, w: WhereClause, key: int)
    requires TableOk(t)
    ensures IndexKey(t, w) == Some(key) <==>
      t.loaded && w.op == "=" && SameName(w.column, "id") && Denotes(w.value, key) && 0 <= key <= 0x7FFF_FFFF
    ensures IndexKey(t, w) == Some(key) ==>
      forall i: nat :: i in IndexSlots(t, key) <==> i < |t.rows| && RowPasses(t, w, i)
  {
    ParsedNumber(w.value, key);
    hide Decimal, IdSlots, Denotes, TryParse, RowPasses;
    if IndexKey(t, w) == Some(key) {
      IndexAgreesWithScan(t, w);
      ScanMeans(t, Some(w));
    }
    hide ScanResult, IndexSlots;
  }

  /** What a SELECT on a loaded table gives: in insertion order the selected cells of exactly the rows that
      pass its condition, if it has one; it fails exactly on an unknown column or an unreadable integer. */
  lemma {:induction false} SelectExact(t: Table, stmt: SelectStatement) returns (sel: seq<nat>, slots: seq<nat>)
    requires TableOk(t) && t.loaded
    ensures SelectResult(t, stmt).Ok? <==>
      (forall j :: 0 <= j < |stmt.columns| ==> HasName(t.columns, stmt.columns[j])) &&
      (stmt.where.Some? ==> Checkable(t, stmt.where.value))
    ensures SelectResult(t, stmt).Err? ==>
      SelectResult(t, stmt).error ==
        if (forall j :: 0 <= j < |stmt.columns| ==> HasName(t.columns, stmt.columns[j])) &&
           HasName(t.columns, stmt.where.value.column)
        then BadIntegerLiteral else ColumnNotFound
    ensures SelectResult(t, stmt).Ok? ==>
      var q := SelectResult(t, stmt).value;
      Selects(t.columns, stmt.columns, sel) && CellsAre(t.columns, sel, q.columns) &&
      (forall a, b :: 0 <= a < b < |slots| ==> slots[a] < slots[b]) &&
      (forall i: nat :: i in slots <==> i < |t.rows| && (stmt.where.Some? ==> RowPasses(t, stmt.where.value, i))) &&
      |q.rows| == |slots| &&
      forall k :: 0 <= k < |slots| ==>
        slots[k] < |t.rows| && CellsAre(t.rows[slots[k]], sel, q.rows[k])
  {
    ProjectionMeans(t, stmt.columns);
    ProjectionWithin(t, stmt.columns);
    ScanMeans(t, stmt.where);
    sel := if Projection(t, stmt.columns).Ok? then Projection(t, stmt.columns).value else [];
    slots := if ScanResult(t, stmt.where).Ok? then ScanResult(t, stmt.where).value else [];
    hide Projection, ScanResult, Selects, RowPasses, Checkable, HasName, CellsAre, Pick, InRange;
    assert forall k :: 0 <= k < |slots| ==> slots[k] in slots;
    if SelectResult(t, stmt).Ok? {
      CellsPicked(t.columns, sel);
      forall k | 0 <= k < |slots| ensures CellsAre(t.rows[slots[k]], sel, Pick(t.rows[slots[k]], sel)) {
        assert |t.rows[slots[k]]| == |t.columns|;
        CellsPicked(t.rows[slots[k]], sel);
      }
    }
  }

  /** Without condition and columns: the whole table. */
  lemma {:induction false} SelectAll(t: Table, stmt: SelectStatement)
    requires TableOk(t) && t.loaded && stmt.where.None? && stmt.columns == []
    ensures SelectResult(t, stmt) == Ok(QueryTable(t.columns, t.rows))
  {
    ProjectionWithin(t, []);
    assert Pick(t.columns, AllSlots(|t.columns|)) == t.columns;
    forall k | 0 <= k < |t.rows| ensures Pick(t.rows[k], AllSlots(|t.columns|)) == t.rows[k] {
    }
    assert CopyRows(t, AllSlots(|t.columns|), AllSlots(|t.rows|)) == t.rows;
  }

  // ---------- What an INSERT does ----------

  /** The statement fits the table: its names are those of the schema in order and its values of the same
      kinds; or there is no schema yet and it makes one. */
  predicate FitsSchema(t: Table, stmt: InsertStatement)
    requires stmt.Even() && |t.kinds| == |t.columns|
  {
    if t.loaded then
      |stmt.columns| >= 1 && |stmt.columns| + 1 == |t.columns| &&
      forall i :: 0 <= i < |stmt.columns| ==>
        SameName(t.columns[i + 1], stmt.columns[i]) && t.kinds[i + 1] == stmt.kinds[i]
    else
      1 <= |stmt.columns| < 32 &&
      forall i :: 0 <= i < |stmt.columns| ==> !SameName(stmt.columns[i], "id") && |stmt.columns[i]| < 64
  }

  /** The table has the name, or none yet and can take it. */
  predicate FitsName(t: Table, name: string) {
    if t.name == "" then |name| < 64 else SameName(t.name, name)
  }

  lemma {:induction false} ColumnsErrorIs(columns: seq<string>, i: nat)
    ensures ColumnsError(columns).None? <==>
      forall k :: 0 <= k < |columns| ==> !SameName(columns[k], "id") && |columns[k]| < 64
    ensures
      (i < |columns| && (SameName(columns[i], "id") || |columns[i]| >= 64) &&
       forall k :: 0 <= k < i ==> !SameName(columns[k], "id") && |columns[k]| < 64) ==>
      ColumnsError(columns) == Some(if SameName(columns[i], "id") then ExplicitId else NameTooLong)
  {
    hide SameName;
    if columns != [] {
      ColumnsErrorIs(columns[1..], if i == 0 then 0 else i - 1);
      assert forall k :: 0 <= k < |columns| - 1 ==> columns[1..][k] == columns[k + 1];
      assert forall k :: 1 <= k < |columns| ==> columns[k] == columns[1..][k - 1];
    }
  }

  lemma {:induction false} PairsErrorIs(
      columns: seq<string>, kinds: seq<ValueKind>, given: seq<string>, givenKinds: seq<ValueKind>, i: nat)
    requires |columns| == |kinds| == |given| == |givenKinds|
    ensures PairsError(columns, kinds, given, givenKinds).None? <==>
      forall k :: 0 <= k < |columns| ==> SameName(columns[k], given[k]) && kinds[k] == givenKinds[k]
    ensures
      (i < |columns| && !(SameName(columns[i], given[i]) && kinds[i] == givenKinds[i]) &&
       forall k :: 0 <= k < i ==> SameName(columns[k], given[k]) && kinds[k] == givenKinds[k]) ==>
      PairsError(columns, kinds, given, givenKinds) ==
        Some(if SameName(columns[i], given[i]) then KindMismatch else SchemaMismatch)
  {
    hide SameName;
    if columns != [] {
      PairsErrorIs(columns[1..], kinds[1..], given[1..], givenKinds[1..], if i == 0 then 0 else i - 1);
      assert forall k :: 1 <= k < |columns| ==> columns[k] == columns[1..][k - 1] && given[k] == given[1..][k - 1];
      assert forall k :: 1 <= k < |columns| ==>
        kinds[k] == kinds[1..][k - 1] && givenKinds[k] == givenKinds[1..][k - 1];
      assert forall k :: 0 <= k < |columns| - 1 ==> columns[1..][k] == columns[k + 1] && given[1..][k] == given[k + 1];
      assert forall k :: 0 <= k < |columns| - 1 ==>
        kinds[1..][k] == kinds[k + 1] && givenKinds[1..][k] == givenKinds[k + 1];
    }
  }

  /** An INSERT is accepted exactly if it fits name and schema and the next id is a key of the index; then the
      table is the old one with the row behind the others, under that id, and with the schema of the first
      INSERT; else only the name may be set. */
  lemma {:induction false} InsertExact(t: Table, stmt: InsertStatement)
    requires TableOk(t) && stmt.Even()
    ensures InsertError(t, stmt).None? <==>
      FitsName(t, stmt.tableName) && FitsSchema(t, stmt) && t.nextId <= 0x7FFF_FFFF
    ensures InsertError(t, stmt).None? ==>
      AfterInsert(t, stmt) == Table(
        if t.name == "" then stmt.tableName else t.name, true,
        if t.loaded then t.columns else ["id"] + stmt.columns, if t.loaded then t.kinds else [IntKind] + stmt.kinds,
        t.rows + [[Decimal(t.nextId)] + stmt.values], t.nextId + 1, t.index[t.nextId := |t.rows|])
    ensures InsertError(t, stmt).Some? ==>
      AfterInsert(t, stmt) ==
        if t.name != "" then t
        else t.(name := if |stmt.tableName| < 64 then stmt.tableName else stmt.tableName[..63])
  {
    FitsExact(t, stmt);
    hide TableOk, FitsSchema, MatchError, SchemaError, SameName, Decimal;
    assert SameName(stmt.tableName, stmt.tableName) by {
      NameItself(stmt.tableName);
    }
  }

  lemma NameItself(name: string)
    ensures SameName(name, name)
  {
  }

  lemma {:induction false} FitsExact(t: Table, stmt: InsertStatement)
    requires TableOk(t) && stmt.Even()
    ensures (if t.loaded then MatchError(t, stmt) else SchemaError(stmt.columns)).None? <==> FitsSchema(t, stmt)
  {
    hide SameName, Decimal, IdSlots;
    if t.loaded {
      if |stmt.columns| == |t.columns| - 1 {
        PairsErrorIs(t.columns[1..], t.kinds[1..], stmt.columns, stmt.kinds, 0);
        assert forall k :: 0 <= k < |stmt.columns| ==>
          t.columns[1..][k] == t.columns[k + 1] && t.kinds[1..][k] == t.kinds[k + 1];
      }
    } else {
      ColumnsErrorIs(stmt.columns, 0);
    }
    hide PairsError, ColumnsError;
  }

  /** Which error a refused INSERT gets: that of the name first, then of the number of columns, then of the
      first column that does not fit, then of the id. */
  lemma {:induction false} InsertRefused(t: Table, stmt: InsertStatement, i: nat)
    requires TableOk(t) && stmt.Even()
    ensures var e := InsertError(t, stmt);
      if !FitsName(t, stmt.tableName) then e == Some(if t.name == "" then NameTooLong else WrongTable)
      else if t.loaded then
        if |stmt.columns| == 0 || |stmt.columns| + 1 != |t.columns| then e == Some(SchemaMismatch)
        else if FitsSchema(t, stmt) then e == if t.nextId <= 0x7FFF_FFFF then None else Some(IdOutOfRange)
        else
          (i < |stmt.columns| && !(SameName(t.columns[i + 1], stmt.columns[i]) && t.kinds[i + 1] == stmt.kinds[i]) &&
           forall k :: 0 <= k < i ==>
             SameName(t.columns[k + 1], stmt.columns[k]) && t.kinds[k + 1] == stmt.kinds[k]) ==>
          e == Some(if SameName(t.columns[i + 1], stmt.columns[i]) then KindMismatch else SchemaMismatch)
      else
        if |stmt.columns| == 0 || |stmt.columns| >= 32 then e == Some(BadColumnCount)
        else if FitsSchema(t, stmt) then e.None?
        else
          (i < |stmt.columns| && (SameName(stmt.columns[i], "id") || |stmt.columns[i]| >= 64) &&
           forall k :: 0 <= k < i ==> !SameName(stmt.columns[k], "id") && |stmt.columns[k]| < 64) ==>
          e == Some(if SameName(stmt.columns[i], "id") then ExplicitId else NameTooLong)
  {
    FitsExact(t, stmt);
    NameItself(stmt.tableName);
    if t.loaded && |stmt.columns| == |t.columns| - 1 {
      PairsErrorIs(t.columns[1..], t.kinds[1..], stmt.columns, stmt.kinds, i);
      assert forall k :: 0 <= k < |stmt.columns| ==>
        t.columns[1..][k] == t.columns[k + 1] && t.kinds[1..][k] == t.kinds[k + 1];
    }
    ColumnsErrorIs(stmt.columns, i);
    hide SameName, Decimal, IdSlots, FitsSchema, PairsError, ColumnsError;
  }
}
