/**
Workers running INSERT and SELECT at the same time: the registry mutex, the reader-writer lock of
each table and the bodies between, as interleaved steps (src/executor.c, src/table_runtime.c).
Every schedule gives the results and tables of running the statements one at a time, in the order
in which they got hold of their table.
*/
module Sessions {
  import opened Wrappers
  import opened Text
  import opened Statements
  import opened Tables
  import opened Comparing

  datatype Outcome = Inserted | Rows(table: QueryTable) | Failed(error: Error)

  // ---------- One statement at a time ----------

  /** Tables by case-folded name; the spelling a table was created under is not kept. */
  type Db = map<string, Table>

  ghost predicate DbOk(db: Db) {
    forall k <- db :: TableOk(db[k]) && db[k].name == k && Fold(k) == k && k != ""
  }

  predicate Formed(stmt: Statement) {
    stmt.Insert? ==> stmt.insert.Even()
  }

  function NewTable(name: string): Table {
    FRESH_TABLE.(name := Fold(name))
  }

  function Target(stmt: Statement): string {
    match stmt
    case Insert(i) => i.tableName
    case Select(s) => s.tableName
    case Delete(d) => d.tableName
  }

  /** Refused before any lock is taken. */
  function Refusal(stmt: Statement): Option<Error> {
    match stmt
    case Insert(i) =>
      if NamesId(i.columns) then Some(ExplicitId)
      else if i.tableName == "" then Some(EmptyTableName)
      else None
    case Select(s) => if s.tableName == "" then Some(TableNotFound) else None
    case Delete(_) => Some(DeleteUnsupported)
  }

  /** What a statement gets when its table is not in the registry and is not created. */
  function Missing(stmt: Statement): Option<Error> {
    match stmt
    case Insert(i) => if |i.tableName| >= MAX_IDENTIFIER_LEN then Some(NameTooLong) else None
    case _ => Some(TableNotFound)
  }

  function OutcomeOn(t: Table, stmt: Statement): Outcome
    requires TableOk(t) && Formed(stmt)
  {
    match stmt
    case Insert(i) =>
      (match InsertError(t, i) case None => Inserted case Some(e) => Failed(e))
    case Select(s) =>
      (match SelectResult(t, s) case Ok(q) => Rows(q) case Err(e) => Failed(e))
    case Delete(_) => Failed(DeleteUnsupported)
  }

  function ExecOutcome(db: Db, stmt: Statement): Outcome
    requires DbOk(db) && Formed(stmt)
  {
    var key := Fold(Target(stmt));
    if Refusal(stmt).Some? then Failed(Refusal(stmt).value)
    else if key in db then OutcomeOn(db[key], stmt)
    else if Missing(stmt).Some? then Failed(Missing(stmt).value)
    else FreshOk(Target(stmt)); OutcomeOn(NewTable(Target(stmt)), stmt)
  }

  function ExecDb(db: Db, stmt: Statement): (db': Db)
    requires DbOk(db) && Formed(stmt)
    ensures DbOk(db')
  {
    var key := Fold(Target(stmt));
    if Refusal(stmt).Some? || !stmt.Insert? then db
    else if key !in db && Missing(stmt).Some? then db
    else
      FreshOk(Target(stmt));
      var t := if key in db then db[key] else NewTable(Target(stmt));
      InsertKeepsOrder(t, stmt.insert);
      FoldTwice(Target(stmt));
      db[key := AfterInsert(t, stmt.insert)]
  }

  lemma FreshOk(name: string)
    ensures TableOk(NewTable(name))
  {
  }

  lemma FoldTwice(s: string)
    ensures Fold(Fold(s)) == Fold(s) && (Fold(s) == "" <==> s == "")
  {
  }

  // ---------- What a statement does, run alone ----------

  /** A SELECT fails if there is no such table, the name case-folded; else it gives what it gives on the
      table. It changes nothing. */
  lemma SelectAlone(db: Db, q: SelectStatement)
    requires DbOk(db)
    ensures ExecDb(db, Select(q)) == db
    ensures q.tableName == "" || Fold(q.tableName) !in db ==> ExecOutcome(db, Select(q)) == Failed(TableNotFound)
    ensures q.tableName != "" && Fold(q.tableName) in db ==>
      ExecOutcome(db, Select(q)) ==
        match SelectResult(db[Fold(q.tableName)], q) case Ok(rows) => Rows(rows) case Err(e) => Failed(e)
  {
    hide TableOk, SelectResult;
  }

  lemma DeleteAlone(db: Db, q: DeleteStatement)
    requires DbOk(db)
    ensures ExecDb(db, Delete(q)) == db && ExecOutcome(db, Delete(q)) == Failed(DeleteUnsupported)
  {
    hide TableOk;
  }

  /** The table an INSERT goes to: the one with the name, or a new one. */
  function TableFor(db: Db, name: string): Table {
    if Fold(name) in db then db[Fold(name)] else Table(Fold(name), false, [], [], [], 1, map[])
  }

  /** Why an INSERT does not come to a table: it names the id, or no table, or one that cannot be made. */
  predicate Stray(db: Db, i: InsertStatement) {
    (exists k :: 0 <= k < |i.columns| && SameName(i.columns[k], "id")) || i.tableName == "" ||
    (Fold(i.tableName) !in db && |i.tableName| >= 64)
  }

  /** An INSERT that comes to no table fails and changes nothing. */
  lemma StrayAlone(db: Db, i: InsertStatement)
    requires DbOk(db) && i.Even() && Stray(db, i)
    ensures ExecDb(db, Insert(i)) == db
    ensures ExecOutcome(db, Insert(i)) ==
      Failed(
        if (exists k :: 0 <= k < |i.columns| && SameName(i.columns[k], "id")) then ExplicitId
        else if i.tableName == "" then EmptyTableName
        else NameTooLong)
  {
    hide TableOk, SameName, InsertError, AfterInsert;
  }

  /** Any other is done on its table, which is made if need be: it succeeds exactly if it fits the schema and
      an id is left, and then the table has its row under the next id; else the table is as it was. */
  lemma {:induction false} InsertAlone(db: Db, i: InsertStatement)
    requires DbOk(db) && i.Even() && !Stray(db, i)
    ensures var key, t := Fold(i.tableName), TableFor(db, i.tableName);
      TableOk(t) &&
      if FitsSchema(t, i) && t.nextId <= 0x7FFF_FFFF then
        ExecOutcome(db, Insert(i)) == Inserted &&
        ExecDb(db, Insert(i)) == db[key := Table(
          key, true,
          if t.loaded then t.columns else ["id"] + i.columns, if t.loaded then t.kinds else [IntKind] + i.kinds,
          t.rows + [[Decimal(t.nextId)] + i.values], t.nextId + 1, t.index[t.nextId := |t.rows|])]
      else ExecOutcome(db, Insert(i)).Failed? && ExecDb(db, Insert(i)) == db[key := t]
  {
    InsertOn(db, i);
    var t := TableFor(db, i.tableName);
    InsertExact(t, i);
    FoldTwice(i.tableName);
    assert t.name == Fold(i.tableName) && FitsName(t, i.tableName);
    hide TableOk, InsertError, AfterInsert, FitsSchema, SameName, Decimal, FitsName, ExecOutcome, ExecDb, Stray;
  }

  lemma InsertOn(db: Db, i: InsertStatement)
    requires DbOk(db) && i.Even() && !Stray(db, i)
    ensures var key, t := Fold(i.tableName), TableFor(db, i.tableName);
      TableOk(t) && ExecDb(db, Insert(i)) == db[key := AfterInsert(t, i)] &&
      ExecOutcome(db, Insert(i)) ==
        match InsertError(t, i) case None => Inserted case Some(e) => Failed(e)
  {
    FreshOk(i.tableName);
    hide TableOk, InsertError, AfterInsert, SameName;
    var key := Fold(i.tableName);
    assert TableFor(db, i.tableName) == if key in db then db[key] else NewTable(i.tableName);
  }

  // ---------- Workers ----------

  /** How far the body of a statement has come while it holds its table. */
  datatype Frame =
    | Start
    | Schemed | Indexed | Counted
    | Scanning(sel: seq<nat>, slots: seq<nat>, i: nat)
    | Copying(sel: seq<nat>, slots: seq<nat>, out: seq<Row>)
    | Done(outcome: Outcome)

  datatype Pc =
    | Idle
    | Searching                                    // holds the registry mutex
    | Creating                                     // holds it too; the table was not there
    | Leaving(found: Option<nat>, at: nat)         // holds it too; the search is over
    | Waiting(entry: nat)                          // waits for its table's lock
    | Running(entry: nat, frame: Frame, at: nat)   // holds its table's lock

  /** A worker: its statements, where it is in the one it works on, and what came of those before,
      each with its place in the log. */
  datatype Worker = Worker(pc: Pc, script: seq<Statement>, done: seq<(nat, Outcome)>) {
    predicate Busy() { |done| < |script| }

    /** The statement in hand. */
    function Stmt(): Statement
      requires Busy()
    {
      script[|done|]
    }

    predicate HoldsMutex() {
      pc.Searching? || pc.Creating? || pc.Leaving?
    }

    predicate Holds(i: nat) {
      pc.Running? && pc.entry == i && Busy()
    }

    predicate Writes(i: nat) {
      Holds(i) && Stmt().Insert?
    }

    predicate Reads(i: nat) {
      Holds(i) && !Stmt().Insert?
    }

    /** The registry entry it has found for the statement in hand. */
    function Bound(): Option<nat> {
      match pc
      case Leaving(found, _) => found
      case Waiting(i) => Some(i)
      case Running(i, _, _) => Some(i)
      case _ => None
    }

    /** The statement in hand already has its place in the log. */
    predicate Logged() {
      Busy() && (pc.Running? || (pc.Leaving? && pc.found.None?))
    }
  }

  /** A registry entry: the table and who holds its lock. */
  datatype Entry = Entry(table: Table, readers: set<nat>, writer: Option<nat>)

  datatype LogItem = LogItem(worker: nat, stmt: Statement)

  /** The log orders the statements by when they got hold of their table; one that gets hold of
      none stands where that was decided. It only serves the statements made here. */
  datatype State = State(mutex: Option<nat>, entries: seq<Entry>, workers: seq<Worker>, log: seq<LogItem>)

  /** table_runtime_find_entry_locked: newest entry first. */
  function Lookup(entries: seq<Entry>, name: string): (r: Option<nat>)
    ensures r.Some? ==> r.value < |entries| && SameName(entries[r.value].table.name, name)
    ensures r.None? ==> forall i :: 0 <= i < |entries| ==> !SameName(entries[i].table.name, name)
  {
    if entries == [] then None
    else if SameName(entries[|entries| - 1].table.name, name) then Some(|entries| - 1)
    else Lookup(entries[..|entries| - 1], name)
  }

  /** One step of the body of table_insert_row. */
  function InsertStep(t: Table, stmt: InsertStatement, f: Frame): (Table, Frame)
    requires stmt.Even() && |t.kinds| == |t.columns| && t.nextId >= 0
  {
    match f
    case Start =>
      (match InsertError(t, stmt)
       case Some(e) => (t, Done(Failed(e)))
       case None => (WithSchema(t, stmt), Schemed))
    case Schemed => (t.(index := t.index[t.nextId := |t.rows|]), Indexed)
    case Indexed => (t.(rows := t.rows + [[Decimal(t.nextId)] + stmt.values]), Counted)
    case _ => (t.(nextId := t.nextId + 1), Done(Inserted))
  }

  /** One step of the body of executor_execute_select. */
  function SelectStep(t: Table, stmt: SelectStatement, f: Frame): Frame
    requires TableOk(t) && SelectFrameOk(t, stmt, f)
  {
    match f
    case Start =>
      if !t.loaded then Done(Failed(TableNotFound))
      else
        (match Projection(t, stmt.columns)
         case Err(e) => Done(Failed(e))
         case Ok(sel) =>
           match stmt.where
           case None => Copying(sel, AllSlots(|t.rows|), [])
           case Some(w) =>
             if IndexKey(t, w).Some? then Copying(sel, IndexSlots(t, IndexKey(t, w).value), [])
             else if FindColumn(t.columns, w.column).None? then Done(Failed(ColumnNotFound))
             else Scanning(sel, [], 0))
    case Scanning(sel, slots, i) =>
      if i == |t.rows| then Copying(sel, slots, [])
      else
        var w := stmt.where.value;
        (match CompareAt(t, FindColumn(t.columns, w.column).value, w, i)
         case None => Done(Failed(BadIntegerLiteral))
         case Some(c) => Scanning(sel, if OpHolds(w.op, c) then slots + [i] else slots, i + 1))
    case Copying(sel, slots, out) =>
      if |out| == |slots| then Done(Rows(QueryTable(Pick(t.columns, sel), out)))
      else Copying(sel, slots, out + [Pick(t.rows[slots[|out|]], sel)])
    case _ => f
  }

  /** The frame of a SELECT is what its steps make of the table t. */
  ghost predicate SelectFrameOk(t: Table, stmt: SelectStatement, f: Frame)
    requires TableOk(t)
  {
    match f
    case Start => true
    case Scanning(sel, slots, i) =>
      t.loaded && Projection(t, stmt.columns) == Ok(sel) && stmt.where.Some? && i <= |t.rows| &&
      var w := stmt.where.value;
      FindColumn(t.columns, w.column).Some? &&
      var col := FindColumn(t.columns, w.column).value;
      AllComparable(t, col, w, i) && slots == Matching(t, col, w, i)
    case Copying(sel, slots, out) =>
      t.loaded && Projection(t, stmt.columns) == Ok(sel) && ScanResult(t, stmt.where) == Ok(slots) &&
      InRange(sel, |t.columns|) && InRange(slots, |t.rows|) && |out| <= |slots| &&
      out == CopyRows(t, sel, slots[..|out|])
    case Done(o) => o == OutcomeOn(t, Select(stmt))
    case _ => false
  }

  lemma {:induction false} SelectStepOk(t: Table, stmt: SelectStatement, f: Frame)
    requires TableOk(t) && SelectFrameOk(t, stmt, f)
    ensures SelectFrameOk(t, stmt, SelectStep(t, stmt, f))
  {
    match f
    case Start => StartOk(t, stmt);
    case Scanning(sel, slots, i) => ScanStepOk(t, stmt, f);
    case Copying(sel, slots, out) => CopyStepOk(t, stmt, f);
    case _ =>
  }

  lemma {:induction false} StartOk(t: Table, stmt: SelectStatement)
    requires TableOk(t)
    ensures SelectFrameOk(t, stmt, SelectStep(t, stmt, Start))
  {
    ProjectionWithin(t, stmt.columns);
    if t.loaded && stmt.where.Some? && IndexKey(t, stmt.where.value).Some? {
      IndexAgreesWithScan(t, stmt.where.value);
    }
    hide TableOk, Projection, IndexKey, IndexSlots, FindColumn, CompareAt, Matching, SameName;
  }

  lemma {:induction false} ScanStepOk(t: Table, stmt: SelectStatement, f: Frame)
    requires TableOk(t) && SelectFrameOk(t, stmt, f) && f.Scanning?
    ensures SelectFrameOk(t, stmt, SelectStep(t, stmt, f))
  {
    hide TableOk, Projection, FindColumn, CompareAt, SameName, Matching, ScanResult, AllComparable, OpHolds;
    if f.i == |t.rows| {
      ScanEnds(t, stmt, f);
    } else {
      ScanGoesOn(t, stmt, f);
    }
    hide SelectFrameOk, SelectStep;
  }

  lemma {:induction false} ScanEnds(t: Table, stmt: SelectStatement, f: Frame)
    requires TableOk(t) && SelectFrameOk(t, stmt, f) && f.Scanning? && f.i == |t.rows|
    ensures SelectFrameOk(t, stmt, SelectStep(t, stmt, f))
  {
    ProjectionWithin(t, stmt.columns);
    ScanSoFar(t, stmt.where.value, FindColumn(t.columns, stmt.where.value.column).value, f.i);
    hide TableOk, Projection, FindColumn, CompareAt, SameName, Matching, ScanResult, AllComparable, OpHolds;
    assert f.slots[..0] == [];
  }

  lemma {:induction false} ScanGoesOn(t: Table, stmt: SelectStatement, f: Frame)
    requires TableOk(t) && SelectFrameOk(t, stmt, f) && f.Scanning? && f.i < |t.rows|
    ensures SelectFrameOk(t, stmt, SelectStep(t, stmt, f))
  {
    ScanSoFar(t, stmt.where.value, FindColumn(t.columns, stmt.where.value.column).value, f.i);
    hide TableOk, Projection, FindColumn, CompareAt, SameName, Matching, ScanResult, AllComparable, OpHolds;
  }

  /** The scan up to row i, and what row i does to it. */
  lemma {:induction false} ScanSoFar(t: Table, w: WhereClause, col: nat, i: nat)
    requires TableOk(t) && t.loaded && FindColumn(t.columns, w.column) == Some(col) && i <= |t.rows|
    requires AllComparable(t, col, w, i)
    ensures i == |t.rows| ==> ScanResult(t, Some(w)) == Ok(Matching(t, col, w, i))
    ensures i < |t.rows| ==>
      match CompareAt(t, col, w, i)
      case None => ScanResult(t, Some(w)) == Err(BadIntegerLiteral)
      case Some(c) =>
        AllComparable(t, col, w, i + 1) &&
        Matching(t, col, w, i + 1) == if OpHolds(w.op, c) then Matching(t, col, w, i) + [i] else Matching(t, col, w, i)
  {
    hide CompareAt, FindColumn, OpHolds;
  }

  lemma {:induction false} CopyStepOk(t: Table, stmt: SelectStatement, f: Frame)
    requires TableOk(t) && SelectFrameOk(t, stmt, f) && f.Copying?
    ensures SelectFrameOk(t, stmt, SelectStep(t, stmt, f))
  {
    var sel, slots, out := f.sel, f.slots, f.out;
    hide TableOk, Projection, ScanResult;
    if |out| == |slots| {
      assert slots[..|out|] == slots;
    } else {
      assert slots[..|out| + 1] == slots[..|out|] + [slots[|out|]];
      assert CopyRows(t, sel, slots[..|out| + 1]) == out + [Pick(t.rows[slots[|out|]], sel)];
    }
  }

  /** The table under an INSERT is what its steps have made of the table `base` it found. */
  ghost predicate InsertFrameOk(base: Table, t: Table, stmt: InsertStatement, f: Frame)
    requires TableOk(base) && stmt.Even()
  {
    match f
    case Start => t == base
    case Schemed => InsertError(base, stmt).None? && t == WithSchema(base, stmt)
    case Indexed =>
      InsertError(base, stmt).None? &&
      t == WithSchema(base, stmt).(index := base.index[base.nextId := |base.rows|])
    case Counted =>
      InsertError(base, stmt).None? &&
      t == WithSchema(base, stmt).(index := base.index[base.nextId := |base.rows|],
        rows := base.rows + [[Decimal(base.nextId)] + stmt.values])
    case Done(o) => t == AfterInsert(base, stmt) && o == OutcomeOn(base, Insert(stmt))
    case _ => false
  }

  lemma {:induction false} InsertStepOk(base: Table, t: Table, stmt: InsertStatement, f: Frame)
    requires TableOk(base) && stmt.Even() && base.name != "" && !f.Done?
    requires InsertFrameOk(base, t, stmt, f)
    ensures |t.kinds| == |t.columns| && t.nextId >= 0
    ensures var (t', f') := InsertStep(t, stmt, f); InsertFrameOk(base, t', stmt, f') && t'.name == t.name
  {
  }

  // ---------- Steps ----------

  /** Worker `id` can take a step: it has something to do and waits for no one. */
  predicate Enabled(s: State, id: nat)
    requires id < |s.workers|
  {
    var w := s.workers[id];
    w.Busy() &&
    match w.pc
    case Idle => Refusal(w.Stmt()).Some? || s.mutex.None?
    case Waiting(i) =>
      i < |s.entries| && s.entries[i].writer.None? && (w.Stmt().Insert? ==> s.entries[i].readers == {})
    case _ => true
  }

  function Finish(w: Worker, at: nat, o: Outcome): Worker {
    Worker(Idle, w.script, w.done + [(at, o)])
  }

  function SetWorker(s: State, id: nat, w: Worker): State
    requires id < |s.workers|
  {
    s.(workers := s.workers[id := w])
  }

  function SetEntry(s: State, i: nat, e: Entry): State
    requires i < |s.entries|
  {
    s.(entries := s.entries[i := e])
  }

  function Log(s: State, id: nat, stmt: Statement): State {
    s.(log := s.log + [LogItem(id, stmt)])
  }

  /** From Idle: refuse the statement outright, or lock the registry. */
  function StepIdle(s: State, id: nat): State
    requires id < |s.workers| && s.workers[id].Busy()
  {
    var w := s.workers[id];
    match Refusal(w.Stmt())
    case Some(e) => SetWorker(Log(s, id, w.Stmt()), id, Finish(w, |s.log|, Failed(e)))
    case None => SetWorker(s.(mutex := Some(id)), id, w.(pc := Searching))
  }

  /** Under the registry mutex: look the table up; only an INSERT goes on to create it. */
  function StepSearch(s: State, id: nat): State
    requires id < |s.workers| && s.workers[id].Busy()
  {
    var w := s.workers[id];
    match Lookup(s.entries, Target(w.Stmt()))
    case Some(i) => SetWorker(s, id, w.(pc := Leaving(Some(i), 0)))
    case None =>
      if Missing(w.Stmt()).Some? then SetWorker(Log(s, id, w.Stmt()), id, w.(pc := Leaving(None, |s.log|)))
      else SetWorker(s, id, w.(pc := Creating))
  }

  function StepCreate(s: State, id: nat): State
    requires id < |s.workers| && s.workers[id].Busy()
  {
    var w := s.workers[id];
    SetWorker(s.(entries := s.entries + [Entry(NewTable(Target(w.Stmt())), {}, None)]), id,
              w.(pc := Leaving(Some(|s.entries|), 0)))
  }

  /** Unlock the registry, before anything is done about the table's lock. */
  function StepLeave(s: State, id: nat): State
    requires id < |s.workers| && s.workers[id].Busy() && s.workers[id].pc.Leaving?
    requires s.workers[id].pc.found.None? ==> Missing(s.workers[id].Stmt()).Some?
  {
    var w := s.workers[id];
    var s' := s.(mutex := None);
    match w.pc.found
    case Some(i) => SetWorker(s', id, w.(pc := Waiting(i)))
    case None => SetWorker(s', id, Finish(w, w.pc.at, Failed(Missing(w.Stmt()).value)))
  }

  /** The lock of the table is granted: to a writer alone, to readers together. */
  function StepAcquire(s: State, id: nat): State
    requires id < |s.workers| && s.workers[id].Busy() && s.workers[id].pc.Waiting?
    requires s.workers[id].pc.entry < |s.entries|
  {
    var w := s.workers[id];
    var i := w.pc.entry;
    var e := s.entries[i];
    var e' := if w.Stmt().Insert? then e.(writer := Some(id)) else e.(readers := e.readers + {id});
    SetWorker(SetEntry(Log(s, id, w.Stmt()), i, e'), id, w.(pc := Running(i, Start, |s.log|)))
  }

  /** One step of the body under the table's lock. */
  function StepBody(s: State, id: nat): State
    requires id < |s.workers| && s.workers[id].Busy() && s.workers[id].pc.Running?
    requires s.workers[id].pc.entry < |s.entries| && !s.workers[id].Stmt().Delete? && Formed(s.workers[id].Stmt())
    requires
      var w, t := s.workers[id], s.entries[s.workers[id].pc.entry].table;
      match w.Stmt()
      case Select(q) => TableOk(t) && SelectFrameOk(t, q, w.pc.frame)
      case _ => |t.kinds| == |t.columns| && t.nextId >= 0
  {
    var w := s.workers[id];
    var e := s.entries[w.pc.entry];
    match w.Stmt()
    case Insert(i) =>
      var (t', f') := InsertStep(e.table, i, w.pc.frame);
      SetWorker(SetEntry(s, w.pc.entry, e.(table := t')), id, w.(pc := w.pc.(frame := f')))
    case Select(q) =>
      SetWorker(s, id, w.(pc := w.pc.(frame := SelectStep(e.table, q, w.pc.frame))))
  }

  function StepRelease(s: State, id: nat): State
    requires id < |s.workers| && s.workers[id].Busy() && s.workers[id].pc.Running?
    requires s.workers[id].pc.frame.Done? && s.workers[id].pc.entry < |s.entries|
  {
    var w := s.workers[id];
    var e := s.entries[w.pc.entry];
    var e' := if w.Stmt().Insert? then e.(writer := None) else e.(readers := e.readers - {id});
    SetWorker(SetEntry(s, w.pc.entry, e'), id, Finish(w, w.pc.at, w.pc.frame.outcome))
  }

  // ---------- Replaying the log ----------

  ghost predicate LogFormed(log: seq<LogItem>) {
    forall item <- log :: Formed(item.stmt)
  }

  /** The tables after running the statements of the log one at a time. */
  function Replay(log: seq<LogItem>): (db: Db)
    requires LogFormed(log)
    ensures DbOk(db)
  {
    if log == [] then map[] else ExecDb(Replay(log[..|log| - 1]), log[|log| - 1].stmt)
  }

  /** What the statement at place `at` gets when they run one at a time. */
  function Expected(log: seq<LogItem>, at: nat): Outcome
    requires LogFormed(log) && at < |log|
  {
    ExecOutcome(Replay(log[..at]), log[at].stmt)
  }

  lemma ReplayGrows(log: seq<LogItem>, item: LogItem)
    requires LogFormed(log) && Formed(item.stmt)
    ensures LogFormed(log + [item]) && Replay(log + [item]) == ExecDb(Replay(log), item.stmt)
    ensures forall at :: 0 <= at < |log| ==> Expected(log + [item], at) == Expected(log, at)
    ensures Expected(log + [item], |log|) == ExecOutcome(Replay(log), item.stmt)
  {
    hide ExecDb, ExecOutcome, Formed;
    var log' := log + [item];
    assert log'[..|log|] == log;
    assert forall at :: 0 <= at < |log| ==> log'[..at] == log[..at];
  }

  /** The statements of one worker in the log. */
  function Mine(log: seq<LogItem>, id: nat): seq<Statement> {
    if log == [] then []
    else Mine(log[..|log| - 1], id) + if log[|log| - 1].worker == id then [log[|log| - 1].stmt] else []
  }

  // ---------- What every reachable state satisfies ----------

  /** Each name once, folded. */
  ghost predicate NamesOk(s: State) {
    (forall i :: 0 <= i < |s.entries| ==> NameOk(s.entries[i].table.name)) &&
    (forall i, j :: 0 <= i < j < |s.entries| ==> s.entries[i].table.name != s.entries[j].table.name)
  }

  predicate NameOk(name: string) {
    name != "" && Fold(name) == name && |name| < MAX_IDENTIFIER_LEN
  }

  /** The registry mutex and the table locks are where the workers say. */
  ghost predicate LocksOk(s: State) {
    (s.mutex.Some? ==> s.mutex.value < |s.workers|) &&
    (forall id :: 0 <= id < |s.workers| ==> (s.workers[id].HoldsMutex() <==> s.mutex == Some(id))) &&
    (forall i :: 0 <= i < |s.entries| ==> LockOk(s, i))
  }

  /** Who holds the lock of entry i: one writer alone, or readers. */
  ghost predicate LockOk(s: State, i: nat)
    requires i < |s.entries|
  {
    var e := s.entries[i];
    (forall id :: 0 <= id < |s.workers| ==> (s.workers[id].Writes(i) <==> e.writer == Some(id))) &&
    (forall id :: 0 <= id < |s.workers| ==> (s.workers[id].Reads(i) <==> id in e.readers)) &&
    (e.writer.Some? ==> e.writer.value < |s.workers| && e.readers == {}) &&
    (forall id <- e.readers :: id < |s.workers|)
  }

  predicate Absent(entries: seq<Entry>, name: string) {
    forall i :: 0 <= i < |entries| ==> entries[i].table.name != Fold(name)
  }

  /** What a worker's position says about it, whatever the others do. */
  ghost predicate WorkerOk(s: State, w: Worker) {
    (forall stmt <- w.script :: Formed(stmt)) && |w.done| <= |w.script| &&
    (w.pc != Idle ==> w.Busy() && Refusal(w.Stmt()).None? && !w.Stmt().Delete?) &&
    (w.pc.Creating? ==> w.Stmt().Insert? && Missing(w.Stmt()).None? && Absent(s.entries, Target(w.Stmt()))) &&
    (w.pc.Leaving? && w.pc.found.None? ==> Missing(w.Stmt()).Some?) &&
    (w.Bound().Some? ==>
      w.Bound().value < |s.entries| && s.entries[w.Bound().value].table.name == Fold(Target(w.Stmt())))
  }

  function TableIn(db: Db, name: string): Table {
    if name in db then db[name] else NewTable(name)
  }

  lemma TableInOk(db: Db, name: string)
    requires DbOk(db)
    ensures TableOk(TableIn(db, name)) && (Fold(name) == name ==> TableIn(db, name).name == name)
  {
  }

  /** The table the worker found when it got the lock. */
  function Base(s: State, w: Worker): (t: Table)
    requires LogFormed(s.log) && w.pc.Running? && w.pc.at <= |s.log| && w.Busy()
    ensures TableOk(t)
  {
    TableInOk(Replay(s.log[..w.pc.at]), Fold(Target(w.Stmt())));
    TableIn(Replay(s.log[..w.pc.at]), Fold(Target(w.Stmt())))
  }

  /** The table of entry i is what the log makes of it, up to the steps its writer is through. */
  ghost predicate EntryOk(s: State, i: nat)
    requires LogFormed(s.log) && i < |s.entries|
  {
    var e, db := s.entries[i], Replay(s.log);
    match e.writer
    case None => e.table == TableIn(db, e.table.name)
    case Some(id) =>
      id < |s.workers| && s.workers[id].Writes(i) && s.workers[id].pc.at < |s.log| &&
      Formed(s.workers[id].Stmt()) && e.table.name in db &&
      var w := s.workers[id];
      InsertFrameOk(Base(s, w), e.table, w.Stmt().insert, w.pc.frame) &&
      db[e.table.name] == AfterInsert(Base(s, w), w.Stmt().insert)
  }

  /** An INSERT still on its way to entry i, which it may have created. */
  predicate Owes(w: Worker, i: nat) {
    w.Busy() && w.Stmt().Insert? && w.Bound() == Some(i) && !w.pc.Running?
  }

  ghost predicate Accounted(s: State, i: nat)
    requires LogFormed(s.log) && i < |s.entries|
  {
    s.entries[i].table.name in Replay(s.log) || exists id :: 0 <= id < |s.workers| && Owes(s.workers[id], i)
  }

  /** The registry has the tables the log makes and those of INSERTs under way: reading adds none. */
  ghost predicate TablesOk(s: State) {
    LogFormed(s.log) &&
    (forall i :: 0 <= i < |s.entries| ==> EntryOk(s, i)) &&
    (forall i :: 0 <= i < |s.entries| ==> Accounted(s, i)) &&
    (forall k <- Replay(s.log) :: HasEntry(s, k))
  }

  ghost predicate HasEntry(s: State, name: string) {
    exists i :: 0 <= i < |s.entries| && s.entries[i].table.name == name
  }

  /** The statements of a worker that have their place in the log. */
  function Ran(w: Worker): seq<Statement>
    requires |w.done| <= |w.script|
  {
    if w.Logged() then w.script[..|w.done| + 1] else w.script[..|w.done|]
  }

  /** The results a worker has are those of the log, in its order. */
  ghost predicate DonesOk(s: State, id: nat)
    requires LogFormed(s.log) && id < |s.workers|
  {
    var done := s.workers[id].done;
    (forall j :: 0 <= j < |done| ==> DoneOk(s, id, j)) &&
    (forall j, k :: 0 <= j < k < |done| ==> done[j].0 < done[k].0)
  }

  ghost predicate DoneOk(s: State, id: nat, j: nat)
    requires LogFormed(s.log) && id < |s.workers| && j < |s.workers[id].done|
  {
    var w := s.workers[id];
    j < |w.script| && w.done[j].0 < |s.log| && s.log[w.done[j].0] == LogItem(id, w.script[j]) &&
    w.done[j].1 == Expected(s.log, w.done[j].0)
  }

  /** The result a worker is about to have is that of the log. */
  ghost predicate HandOk(s: State, id: nat)
    requires LogFormed(s.log) && id < |s.workers| && s.workers[id].Logged()
  {
    var w := s.workers[id];
    var at := w.pc.at;
    at < |s.log| && s.log[at] == LogItem(id, w.Stmt()) && Formed(w.Stmt()) &&
    (forall j :: 0 <= j < |w.done| ==> w.done[j].0 < at) &&
    if w.pc.Leaving? then
      Missing(w.Stmt()).Some? && Expected(s.log, at) == Failed(Missing(w.Stmt()).value)
    else
      Expected(s.log, at) == OutcomeOn(Base(s, w), w.Stmt()) &&
      (w.Stmt().Select? ==>
        w.pc.entry < |s.entries| && s.entries[w.pc.entry].table == Base(s, w) &&
        SelectFrameOk(Base(s, w), w.Stmt().select, w.pc.frame))
  }

  ghost predicate ResultsOk(s: State, id: nat)
    requires LogFormed(s.log) && id < |s.workers|
  {
    var w := s.workers[id];
    |w.done| <= |w.script| && DonesOk(s, id) && Mine(s.log, id) == Ran(w) && (w.Logged() ==> HandOk(s, id))
  }

  ghost predicate Inv(s: State) {
    NamesOk(s) && LocksOk(s) && TablesOk(s) &&
    forall id :: 0 <= id < |s.workers| ==> WorkerOk(s, s.workers[id]) && ResultsOk(s, id)
  }

  // ---------- Runs ----------

  lemma {:induction false} StepReady(s: State, id: nat)
    requires Inv(s) && id < |s.workers| && Enabled(s, id)
    ensures var w := s.workers[id];
      (w.pc.Leaving? && w.pc.found.None? ==> Missing(w.Stmt()).Some?) &&
      (w.pc.Running? ==>
        w.pc.entry < |s.entries| && !w.Stmt().Delete? && Formed(w.Stmt()) &&
        var t := s.entries[w.pc.entry].table;
        if w.Stmt().Select? then TableOk(t) && SelectFrameOk(t, w.Stmt().select, w.pc.frame)
        else !w.pc.frame.Done? ==> |t.kinds| == |t.columns| && t.nextId >= 0)
  {
    var w := s.workers[id];
    if w.pc.Running? {
      assert w.script[|w.done|] in w.script;
      if w.Stmt().Insert? && !w.pc.frame.Done? {
        var i := w.pc.entry;
        assert LockOk(s, i) && w.Writes(i) && EntryOk(s, i);
        var base := Base(s, w);
        TableInOk(Replay(s.log[..w.pc.at]), Fold(Target(w.Stmt())));
        FoldTwice(Target(w.Stmt()));
        hide Replay, TableOk, AfterInsert, InsertFrameOk, InsertError;
        InsertStepOk(base, s.entries[i].table, w.Stmt().insert, w.pc.frame);
      }
    }
  }

  /** One step of worker `id`. */
  function Step(s: State, id: nat): State
    requires Inv(s) && id < |s.workers| && Enabled(s, id)
  {
    StepReady(s, id);
    var w := s.workers[id];
    match w.pc
    case Idle => StepIdle(s, id)
    case Searching => StepSearch(s, id)
    case Creating => StepCreate(s, id)
    case Leaving(_, _) => StepLeave(s, id)
    case Waiting(_) => StepAcquire(s, id)
    case Running(_, frame, _) => if frame.Done? then StepRelease(s, id) else StepBody(s, id)
  }

  function Init(scripts: seq<seq<Statement>>): State {
    State(None, [], seq(|scripts|, k requires 0 <= k < |scripts| => Worker(Idle, scripts[k], [])), [])
  }
}
