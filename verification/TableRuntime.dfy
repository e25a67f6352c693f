/**
The table of src/table_runtime.c and the SELECT of src/executor.c as they work: fields, a row
array that is doubled when full, the B+ tree index, and loops that fill buffers. The methods are
proved against the functions of Tables.
*/
module TableRuntime {
  import opened Wrappers
  import opened Text
  import opened Statements
  import opened Tables
  import opened Comparing
  import opened BPTree
  import opened BPTreeShape

  const INITIAL_ROW_CAPACITY: nat := 16

  class TableRuntime {
    var tableName: string
    var colCount: nat
    var columns: seq<string>       // columns[MAX_COLUMNS]
    var kinds: seq<ValueKind>      // column_value_kinds[MAX_COLUMNS]
    var rows: array<Row>
    var rowCount: nat
    var capacity: nat
    var idColumnIndex: nat
    var nextId: int
    var idIndex: BPTree
    var loaded: bool

    /** The table this object stands for. */
    ghost function View(): Table
      reads this, rows, idIndex
    {
      var n := if colCount <= |columns| && colCount <= |kinds| && loaded then colCount else 0;
      Table(tableName, loaded, columns[..n], kinds[..n],
            if rowCount <= rows.Length then rows[..rowCount] else [], nextId, idIndex.Map())
    }

    ghost predicate Valid()
      reads this, rows, idIndex, idIndex.Repr()
    {
      |columns| == |kinds| == MAX_COLUMNS && colCount <= MAX_COLUMNS &&
      rowCount <= capacity == rows.Length && idColumnIndex == 0 &&
      idIndex.Valid() && TableOk(View()) && (idIndex.root == null <==> rowCount == 0)
    }

    /** table_init. */
    constructor ()
      ensures Valid() && View() == FRESH_TABLE && fresh(rows) && fresh(idIndex) && fresh(idIndex.Repr())
    {
      tableName, colCount, loaded := "", 0, false;
      columns := seq(MAX_COLUMNS, _ => "");
      kinds := seq(MAX_COLUMNS, _ => IntKind);
      rows := new Row[0];
      rowCount, capacity, idColumnIndex, nextId := 0, 0, 0, 1;
      idIndex := new BPTree();
    }

    /** table_reserve_if_needed. */
    method ReserveIfNeeded()
      requires rowCount <= capacity == rows.Length
      modifies this`rows, this`capacity
      ensures rowCount < capacity == rows.Length && rows[..rowCount] == old(rows[..rowCount])
      ensures rows == old(rows) || fresh(rows)
    {
      if rowCount < capacity {
        return;
      }
      var newCapacity := if capacity == 0 then INITIAL_ROW_CAPACITY else capacity * 2;
      var newRows := new Row[newCapacity](
        i reads this, rows requires rows.Length == capacity => if 0 <= i < capacity then rows[i] else []);
      assert newRows[..rowCount] == rows[..rowCount];
      rows := newRows;
      capacity := newCapacity;
    }

    /** table_initialize_schema: columns are taken over one by one, so a refused statement leaves
        leftovers behind, but not a loaded table. */
    method InitializeSchema(stmt: InsertStatement) returns (bad: Option<Error>)
      requires |columns| == |kinds| == MAX_COLUMNS && colCount <= MAX_COLUMNS && !loaded && stmt.Even()
      modifies this`colCount, this`columns, this`kinds, this`loaded, this`idColumnIndex
      ensures bad == SchemaError(stmt.columns)
      ensures |columns| == |kinds| == MAX_COLUMNS && colCount <= MAX_COLUMNS
      ensures bad.Some? ==> !loaded && idColumnIndex == old(idColumnIndex)
      ensures bad.None? ==> loaded && idColumnIndex == 0 && colCount == |stmt.columns| + 1
      ensures bad.None? ==> columns[..colCount] == ["id"] + stmt.columns && kinds[..colCount] == [IntKind] + stmt.kinds
    {
      var count := |stmt.columns|;
      if count <= 0 || count + 1 > MAX_COLUMNS {
        return Some(BadColumnCount);
      }
      colCount := count + 1;
      columns := columns[0 := "id"];
      kinds := kinds[0 := IntKind];
      var i := 0;
      while i < count
        invariant 0 <= i <= count && colCount == count + 1 && !loaded && idColumnIndex == old(idColumnIndex)
        invariant |columns| == |kinds| == MAX_COLUMNS
        invariant columns[..i + 1] == ["id"] + stmt.columns[..i] && kinds[..i + 1] == [IntKind] + stmt.kinds[..i]
        invariant ColumnsError(stmt.columns) == ColumnsError(stmt.columns[i..])
      {
        var isId := EqualsIgnoreCase(stmt.columns[i], "id");
        if isId {
          return Some(ExplicitId);
        }
        SchemaGrows(columns, "id", stmt.columns, i);
        SchemaGrows(kinds, IntKind, stmt.kinds, i);
        columns := columns[i + 1 := Stored(MAX_IDENTIFIER_LEN, stmt.columns[i])];
        if |stmt.columns[i]| >= MAX_IDENTIFIER_LEN {
          return Some(NameTooLong);
        }
        kinds := kinds[i + 1 := stmt.kinds[i]];
        assert stmt.columns[i..][1..] == stmt.columns[i + 1..];
        i := i + 1;
      }
      idColumnIndex := 0;
      loaded := true;
      return None;
    }

    static lemma SchemaGrows<T>(cells: seq<T>, first: T, given: seq<T>, i: nat)
      requires i < |given| && i + 1 < |cells| && cells[..i + 1] == [first] + given[..i]
      ensures cells[i + 1 := given[i]][..i + 2] == [first] + given[..i + 1]
    {
    }

    /** table_validate_insert_schema. */
    method ValidateSchema(stmt: InsertStatement) returns (bad: Option<Error>)
      requires Valid() && loaded && stmt.Even()
      ensures bad == MatchError(View(), stmt)
    {
      var count := |stmt.columns|;
      if count <= 0 || count != colCount - 1 {
        return Some(SchemaMismatch);
      }
      ghost var cs, ks := View().columns[1..], View().kinds[1..];
      var i := 0;
      while i < count
        invariant 0 <= i <= count
        invariant PairsError(cs, ks, stmt.columns, stmt.kinds) ==
          PairsError(cs[i..], ks[i..], stmt.columns[i..], stmt.kinds[i..])
      {
        assert cs[i..][0] == columns[i + 1] && ks[i..][0] == kinds[i + 1];
        var same := EqualsIgnoreCase(columns[i + 1], stmt.columns[i]);
        if !same {
          return Some(SchemaMismatch);
        }
        if kinds[i + 1] != stmt.kinds[i] {
          return Some(KindMismatch);
        }
        assert cs[i..][1..] == cs[i + 1..] && ks[i..][1..] == ks[i + 1..];
        assert stmt.columns[i..][1..] == stmt.columns[i + 1..] && stmt.kinds[i..][1..] == stmt.kinds[i + 1..];
        i := i + 1;
      }
      return None;
    }

    /** table_build_row. */
    method BuildRow(stmt: InsertStatement) returns (row: Row)
      requires nextId >= 0
      ensures row == [Decimal(nextId)] + stmt.values
    {
      row := [Decimal(nextId)];
      var i := 0;
      while i < |stmt.values|
        invariant 0 <= i <= |stmt.values|
        invariant row == [Decimal(nextId)] + stmt.values[..i]
      {
        row := row + [stmt.values[i]];
        i := i + 1;
      }
    }

    /** The last steps of table_insert_row, with the schema in place: reserve, build, store, index,
        count. */
    method AppendRow(stmt: InsertStatement) returns (r: Result<int, Error>, ghost news: set<Node>)
      requires |columns| == |kinds| == MAX_COLUMNS && 1 <= colCount <= MAX_COLUMNS && loaded
      requires rowCount <= capacity == rows.Length && idIndex.Valid()
      requires nextId == rowCount + 1 && idIndex.Map() == IdSlots(rowCount) && stmt.Even()
      modifies this`rows, this`capacity, this`rowCount, this`nextId, rows, idIndex, idIndex.Repr()
      ensures r == if old(nextId) > INT_MAX then Err(IdOutOfRange) else Ok(old(rowCount))
      ensures rowCount <= capacity == rows.Length && idIndex.Valid()
      ensures rows == old(rows) || fresh(rows)
      ensures idIndex.Repr() == old(idIndex.Repr()) + news && fresh(news)
      ensures r.Err? ==> rowCount == old(rowCount) && nextId == old(nextId) && rows[..rowCount] == old(rows[..rowCount])
      ensures r.Err? ==> idIndex.Map() == old(idIndex.Map()) && idIndex.root == old(idIndex.root)
      ensures r.Ok? ==> rowCount == old(rowCount) + 1 && nextId == old(nextId) + 1
      ensures r.Ok? ==> rows[..rowCount] == old(rows[..rowCount]) + [[Decimal(old(nextId))] + stmt.values]
      ensures r.Ok? ==> idIndex.Map() == IdSlots(rowCount) && idIndex.root != null
    {
      hide BPTree.Valid, BPTree.Map, BPTree.Repr, Decimal;
      idIndex.ReprAllocated();
      IdSlotsBinds(rowCount, nextId);
      ReserveIfNeeded();
      var row := BuildRow(stmt);
      if nextId > INT_MAX {
        return Err(IdOutOfRange), {};
      }
      var slot := rowCount;
      rows[slot] := row;
      var ok;
      ok, news := idIndex.Insert(nextId, slot);
      if !ok {
        assert false;
        return Err(IdOutOfRange), {};
      }
      assert rows[..slot + 1] == rows[..slot] + [rows[slot]];
      rowCount := rowCount + 1;
      nextId := nextId + 1;
      return Ok(slot), news;
    }

    /** table_insert_row, once the table's name is known to match: t is the table before the call. */
    method InsertNamed(stmt: InsertStatement, ghost t: Table) returns (r: Result<int, Error>, ghost news: set<Node>)
      requires Valid() && stmt.Even() && TableOk(t)
      requires View() == Named(t, stmt.tableName) && SameName(tableName, stmt.tableName)
      requires t.name == "" ==> |stmt.tableName| < MAX_IDENTIFIER_LEN
      modifies this, rows, idIndex, idIndex.Repr()
      ensures Valid() && View() == AfterInsert(t, stmt) && r == InsertResult(t, stmt)
      ensures idIndex == old(idIndex) && (rows == old(rows) || fresh(rows))
      ensures idIndex.Repr() == old(idIndex.Repr()) + news && fresh(news)
    {
      hide BPTree.Valid, BPTree.Map, BPTree.Repr, TableOk, IdSlots, Stored, SameName, Valid, View, Decimal;
      hide AfterInsert, InsertResult, InsertError, Named, WithSchema, MatchError, SchemaError;
      news := {};
      ValidParts();
      ViewParts();
      InsertParts(t, stmt);
      idIndex.ReprAllocated();
      InsertKeepsOrder(t, stmt);
      var bad;
      if !loaded {
        bad := InitializeSchema(stmt);
      } else {
        bad := ValidateSchema(stmt);
        ViewParts();
      }
      if bad.Some? {
        ViewParts();
        ValidAgain();
        return Err(bad.value), {};
      }
      r, news := AppendRow(stmt);
      ViewParts();
      ValidAgain();
    }

    /** The definitions, spelled out. */
    lemma ValidParts()
      requires Valid()
      ensures |columns| == |kinds| == MAX_COLUMNS && colCount <= MAX_COLUMNS && rowCount <= capacity == rows.Length
      ensures idIndex.Valid() && TableOk(View()) && (idIndex.root == null <==> rowCount == 0)
      ensures |View().kinds| == |View().columns| && nextId == rowCount + 1 && idIndex.Map() == IdSlots(rowCount)
      ensures (loaded <==> rowCount > 0) && (loaded ==> colCount >= 2) && idColumnIndex == 0
    {
      hide BPTree.Valid, BPTree.Map;
    }

    lemma ViewParts()
      requires |columns| == |kinds| == MAX_COLUMNS && colCount <= MAX_COLUMNS && rowCount <= rows.Length
      ensures View() == Table(tableName, loaded, if loaded then columns[..colCount] else [],
        if loaded then kinds[..colCount] else [], rows[..rowCount], nextId, idIndex.Map())
    {
    }

    lemma ValidAgain()
      requires |columns| == |kinds| == MAX_COLUMNS && colCount <= MAX_COLUMNS && rowCount <= capacity == rows.Length
      requires idColumnIndex == 0 && idIndex.Valid() && TableOk(View()) && (idIndex.root == null <==> rowCount == 0)
      ensures Valid()
    {
    }

    /** table_insert_row: refuses, or appends one row under the next id and indexes it. */
    method InsertRow(stmt: InsertStatement) returns (r: Result<int, Error>, ghost news: set<Node>)
      requires Valid() && stmt.Even()
      modifies this, rows, idIndex, idIndex.Repr()
      ensures Valid() && View() == AfterInsert(old(View()), stmt)
      ensures r == InsertResult(old(View()), stmt)
      ensures idIndex == old(idIndex) && (rows == old(rows) || fresh(rows))
      ensures idIndex.Repr() == old(idIndex.Repr()) + news && fresh(news)
    {
      hide BPTree.Valid, BPTree.Map, BPTree.Repr, TableOk, IdSlots, Stored, SameName, SchemaError, MatchError, Valid,
        View;
      news := {};
      ghost var t := View();
      ValidParts();
      ViewParts();
      idIndex.ReprAllocated();
      InsertKeepsOrder(t, stmt);
      if tableName == "" {
        tableName := Stored(MAX_IDENTIFIER_LEN, stmt.tableName);
        if |stmt.tableName| >= MAX_IDENTIFIER_LEN {
          ViewParts();
          ValidAgain();
          return Err(NameTooLong), {};
        }
      }
      var same := EqualsIgnoreCase(tableName, stmt.tableName);
      ViewParts();
      if !same {
        ValidAgain();
        return Err(WrongTable), {};
      }
      ValidAgain();
      r, news := InsertNamed(stmt, t);
    }

    // ---------- SELECT ----------

    /** table_linear_scan_by_field. */
    method LinearScan(where: Option<WhereClause>) returns (r: Result<seq<nat>, Error>)
      requires Valid()
      ensures r == ScanResult(View(), where)
    {
      hide BPTree.Valid, BPTree.Map, BPTree.Repr, IdSlots, Decimal, SameName, Compare, OpHolds, FindColumn;
      ghost var t := View();
      ValidParts();
      ViewParts();
      if !loaded || rowCount == 0 {
        return Ok([]);
      }
      var matches := new nat[rowCount];
      if where.None? {
        var i := 0;
        while i < rowCount
          invariant 0 <= i <= rowCount && matches[..i] == AllSlots(i)
        {
          matches[i] := i;
          assert matches[..i + 1] == matches[..i] + [i];
          i := i + 1;
        }
        assert matches[..] == matches[..rowCount];
        return Ok(matches[..]);
      }
      var w := where.value;
      var col := FindColumnIndex(columns, colCount, w.column);
      if col.None? {
        return Err(ColumnNotFound);
      }
      var count, i := 0, 0;
      while i < rowCount
        invariant 0 <= count <= i <= rowCount
        invariant AllComparable(t, col.value, w, i)
        invariant matches[..count] == Matching(t, col.value, w, i)
      {
        assert CompareAt(t, col.value, w, i) == Compare(kinds[col.value], rows[i][col.value], w);
        var comparison := Compare(kinds[col.value], rows[i][col.value], w);
        if comparison.None? {
          return Err(BadIntegerLiteral);
        }
        if OpHolds(w.op, comparison.value) {
          matches[count] := i;
          assert matches[..count + 1] == matches[..count] + [i];
          count := count + 1;
        }
        i := i + 1;
      }
      return Ok(matches[..count]);
    }

    /** table_get_row_by_slot. */
    method GetRowBySlot(slot: int) returns (row: Option<Row>)
      requires Valid()
      ensures row == if 0 <= slot < |View().rows| then Some(View().rows[slot]) else None
    {
      ValidParts();
      ViewParts();
      if slot < 0 || slot >= rowCount {
        return None;
      }
      return Some(rows[slot]);
    }

    /** executor_prepare_projection: fills the positions of the selected columns. */
    method PrepareProjection(wanted: seq<string>) returns (r: Result<seq<nat>, Error>, names: seq<string>)
      requires Valid() && |wanted| <= MAX_COLUMNS
      ensures r == Projection(View(), wanted)
      ensures r.Ok? ==> InRange(r.value, |View().columns|) && names == Pick(View().columns, r.value)
    {
      ProjectionWithin(View(), wanted);
      if wanted == [] {
        r, names := ProjectAll();
      } else {
        r, names := ProjectNamed(wanted);
      }
    }

    /** For SELECT *. */
    method ProjectAll() returns (r: Result<seq<nat>, Error>, names: seq<string>)
      requires Valid()
      ensures r == Ok(AllSlots(|View().columns|)) && names == View().columns
      ensures names == Pick(View().columns, AllSlots(|View().columns|))
    {
      hide BPTree.Valid, BPTree.Map, BPTree.Repr, IdSlots, Decimal, TableOk;
      ghost var t := View();
      ValidParts();
      ViewParts();
      var selected := new nat[MAX_COLUMNS];
      names := [];
      var i := 0;
      var count := if loaded then colCount else 0;
      while i < count
        invariant 0 <= i <= count && selected[..i] == AllSlots(i)
        invariant names == t.columns[..i]
      {
        selected[i] := i;
        assert selected[..i + 1] == selected[..i] + [i];
        names := names + [columns[i]];
        i := i + 1;
      }
      assert names == Pick(t.columns, AllSlots(i));
      return Ok(selected[..i]), names;
    }

    method ProjectNamed(wanted: seq<string>) returns (r: Result<seq<nat>, Error>, names: seq<string>)
      requires Valid() && |wanted| <= MAX_COLUMNS
      ensures r == Positions(View().columns, wanted)
      ensures r.Ok? ==> InRange(r.value, |View().columns|) && names == Pick(View().columns, r.value)
    {
      hide BPTree.Valid, BPTree.Map, BPTree.Repr, IdSlots, Decimal, SameName, TableOk;
      ghost var t := View();
      ValidParts();
      ViewParts();
      var selected := new nat[MAX_COLUMNS];
      names := [];
      var i := 0;
      while i < |wanted|
        invariant 0 <= i <= |wanted| && |names| == i
        invariant forall j :: 0 <= j < i ==> FindColumn(t.columns, wanted[j]) == Some(selected[j])
        invariant forall j :: 0 <= j < i ==> selected[j] < |t.columns| && names[j] == t.columns[selected[j]]
      {
        var p := FindColumnIndex(columns, if loaded then colCount else 0, wanted[i]);
        if p.None? {
          PositionsFail(t.columns, wanted, i);
          return Err(ColumnNotFound), [];
        }
        selected[i] := p.value;
        names := names + [columns[p.value]];
        i := i + 1;
      }
      PositionsFound(t.columns, wanted, selected[..i]);
      return Ok(selected[..i]), names;
    }

    /** executor_collect_rows_by_indices: copies the selected cells of the rows at the given slots. */
    method CollectRows(sel: seq<nat>, slots: seq<nat>) returns (out: seq<Row>)
      requires Valid() && InRange(sel, |View().columns|) && InRange(slots, |View().rows|)
      ensures out == CopyRows(View(), sel, slots)
    {
      hide BPTree.Valid, BPTree.Map, BPTree.Repr, IdSlots, Decimal;
      ghost var t := View();
      ValidParts();
      ViewParts();
      out := [];
      var k := 0;
      while k < |slots|
        invariant 0 <= k <= |slots| && |out| == k
        invariant forall a :: 0 <= a < k ==> out[a] == Pick(t.rows[slots[a]], sel)
      {
        var source := rows[slots[k]];
        var copy := [];
        var j := 0;
        while j < |sel|
          invariant 0 <= j <= |sel| && |copy| == j
          invariant forall b :: 0 <= b < j ==> copy[b] == source[sel[b]]
        {
          copy := copy + [source[sel[j]]];
          j := j + 1;
        }
        assert copy == Pick(source, sel);
        out := out + [copy];
        k := k + 1;
      }
    }

    /** executor_can_use_id_index. */
    method CanUseIdIndex(w: WhereClause) returns (key: Option<int>)
      requires Valid()
      ensures key == IndexKey(View(), w)
    {
      ValidParts();
      ViewParts();
      if !loaded || idIndex.root == null {
        return None;
      }
      var isInteger := IsInteger(w.value);
      if w.op != "=" || !isInteger {
        return None;
      }
      var same := EqualsIgnoreCase(columns[idColumnIndex], w.column);
      if !same {
        return None;
      }
      var parsed := TryParse(w.value);
      if parsed.None? || parsed.value < 0 || parsed.value > INT_MAX {
        return None;
      }
      return parsed;
    }

    /** executor_collect_rows_by_id. */
    method CollectRowsById(key: int, sel: seq<nat>) returns (out: seq<Row>)
      requires Valid() && 0 <= key <= INT_MAX && InRange(sel, |View().columns|)
      ensures InRange(IndexSlots(View(), key), |View().rows|)
      ensures out == CopyRows(View(), sel, IndexSlots(View(), key))
    {
      hide BPTree.Valid, BPTree.Repr, BPTree.Map, Decimal, IdSlots;
      ValidParts();
      ViewParts();
      IdSlotsBinds(rowCount, key);
      idIndex.ReprAllocated();
      var found := idIndex.Search(key);
      if found.None? {
        out := CollectRows(sel, []);
      } else {
        out := CollectRows(sel, [found.value]);
      }
    }

    /** executor_execute_select on the table it has locked: without WHERE all rows, by the index
        where it may be used, else by the scan - always the SELECT of the specification. */
    method ExecuteSelect(stmt: SelectStatement) returns (r: Result<QueryTable, Error>)
      requires Valid() && |stmt.columns| <= MAX_COLUMNS
      ensures r == SelectResult(View(), stmt)
    {
      hide BPTree.Valid, BPTree.Repr, BPTree.Map, TableOk, Decimal, IdSlots, Valid;
      ghost var t := View();
      ValidParts();
      idIndex.ReprAllocated();
      ViewParts();
      if !loaded {
        return Err(TableNotFound);
      }
      var sel, names := PrepareProjection(stmt.columns);
      if sel.Err? {
        return Err(sel.error);
      }
      var out;
      if stmt.where.None? {
        var slots := LinearScan(None);
        if slots.Err? {
          return Err(slots.error);
        }
        out := CollectRows(sel.value, slots.value);
      } else {
        var key := CanUseIdIndex(stmt.where.value);
        if key.Some? {
          IndexAgreesWithScan(t, stmt.where.value);
          out := CollectRowsById(key.value, sel.value);
        } else {
          var slots := LinearScan(stmt.where);
          if slots.Err? {
            return Err(slots.error);
          }
          out := CollectRows(sel.value, slots.value);
        }
      }
      return Ok(QueryTable(names, out));
    }
  }

  /** table_find_column_index and executor_find_column_index. */
  method FindColumnIndex(columns: seq<string>, count: nat, target: string) returns (r: Option<nat>)
    requires count <= |columns|
    ensures r == FindColumn(columns[..count], target)
  {
    var i := 0;
    while i < count
      invariant 0 <= i <= count
      invariant forall j :: 0 <= j < i ==> !SameName(columns[j], target)
    {
      var same := EqualsIgnoreCase(columns[i], target);
      if same {
        return Some(i);
      }
      i := i + 1;
    }
    return None;
  }

  lemma {:induction false} PositionsFail(columns: seq<string>, wanted: seq<string>, i: nat)
    requires i < |wanted| && FindColumn(columns, wanted[i]).None?
    ensures Positions(columns, wanted) == Err(ColumnNotFound)
  {
    assert !Positions(columns, wanted).Ok?;
  }

  lemma {:induction false} PositionsFound(columns: seq<string>, wanted: seq<string>, found: seq<nat>)
    requires |found| == |wanted|
    requires forall j :: 0 <= j < |wanted| ==> FindColumn(columns, wanted[j]) == Some(found[j])
    ensures Positions(columns, wanted) == Ok(found)
  {
    var p := Positions(columns, wanted);
    if p.Ok? {
      assert forall j :: 0 <= j < |wanted| ==> FindColumn(columns, wanted[j]) == Some(p.value[j]);
      assert p.value == found;
    }
  }
}
