/**
Every schedule of the workers of Sessions keeps the invariant Inv, whatever the interleaving; what
follows from it for finished runs, for the locks and for progress.
*/
module Interleaving {
  import opened Wrappers
  import opened Text
  import opened Statements
  import opened Tables
  import opened Sessions

  // ---------- What a step leaves alone ----------

  /** s' has the log of s, perhaps with one more item, made by worker `id`. */
  ghost predicate LogExtends(s: State, s': State, id: nat) {
    s'.log == s.log ||
    (|s'.log| == |s.log| + 1 && s'.log[..|s.log|] == s.log && Formed(s'.log[|s.log|].stmt) &&
      s'.log[|s.log|].worker == id)
  }

  /** What one step of worker `id` changes at most: itself, the end of the log, the table and lock
      of the entry it is bound to, and the end of the registry. */
  ghost predicate Frames(s: State, s': State, id: nat) {
    id < |s.workers| == |s'.workers| && LogExtends(s, s', id) && |s.entries| <= |s'.entries| &&
    (forall k :: 0 <= k < |s.workers| && k != id ==> s'.workers[k] == s.workers[k]) &&
    (forall i :: 0 <= i < |s.entries| ==> s'.entries[i].table.name == s.entries[i].table.name) &&
    (forall i :: 0 <= i < |s.entries| && s'.entries[i].table != s.entries[i].table ==> s.workers[id].Writes(i))
  }

  lemma {:induction false} LogExtended(s: State, s': State, id: nat)
    requires LogFormed(s.log) && LogExtends(s, s', id)
    ensures LogFormed(s'.log) && |s.log| <= |s'.log|
    ensures forall at :: 0 <= at < |s.log| ==> s'.log[at] == s.log[at] && s'.log[..at] == s.log[..at]
    ensures forall at :: 0 <= at < |s.log| ==> Expected(s'.log, at) == Expected(s.log, at)
    ensures |s'.log| > |s.log| ==> Replay(s'.log) == ExecDb(Replay(s.log), s'.log[|s.log|].stmt)
    ensures |s'.log| > |s.log| ==> Expected(s'.log, |s.log|) == ExecOutcome(Replay(s.log), s'.log[|s.log|].stmt)
    ensures forall k :: k != id ==> Mine(s'.log, k) == Mine(s.log, k)
    ensures |s'.log| > |s.log| ==> Mine(s'.log, id) == Mine(s.log, id) + [s'.log[|s.log|].stmt]
  {
    if |s'.log| > |s.log| {
      var item := s'.log[|s.log|];
      assert s'.log == s.log + [item];
      ReplayGrows(s.log, item);
    }
  }

  lemma {:induction false} BaseStays(s: State, s': State, id: nat, w: Worker)
    requires LogFormed(s.log) && LogExtends(s, s', id) && LogFormed(s'.log)
    requires w.pc.Running? && w.Busy() && w.pc.at < |s.log|
    ensures w.pc.at < |s'.log| && Base(s', w) == Base(s, w)
  {
    hide Replay, TableIn;
    assert s'.log[..w.pc.at] == s.log[..w.pc.at];
  }

  /** The results of the other workers. */
  lemma {:induction false} ResultsStay(s: State, s': State, id: nat, k: nat)
    requires Frames(s, s', id) && LogFormed(s.log) && LocksOk(s) && k < |s.workers| && k != id
    requires ResultsOk(s, k)
    ensures LogFormed(s'.log) && ResultsOk(s', k)
  {
    LogExtended(s, s', id);
    DonesStay(s, s', id, k);
    if s.workers[k].Logged() {
      HandStays(s, s', id, k);
    }
    hide *;
    hide DonesOk, HandOk, Mine, Frames, LocksOk, LogExtends;
  }

  lemma {:induction false} DonesStay(s: State, s': State, id: nat, k: nat)
    requires LogExtends(s, s', id) && LogFormed(s.log) && k < |s.workers| == |s'.workers|
    requires s'.workers[k].script == s.workers[k].script && s'.workers[k].done == s.workers[k].done
    requires DonesOk(s, k)
    ensures LogFormed(s'.log) && DonesOk(s', k)
  {
    LogExtended(s, s', id);
    hide Expected, LogExtends;
    forall j | 0 <= j < |s'.workers[k].done| ensures DoneOk(s', k, j) {
      assert DoneOk(s, k, j);
    }
    hide DoneOk;
  }

  lemma {:induction false} HandStays(s: State, s': State, id: nat, k: nat)
    requires Frames(s, s', id) && LogFormed(s.log) && LogFormed(s'.log) && LocksOk(s) && k < |s.workers| && k != id
    requires s.workers[k].Logged() && HandOk(s, k)
    ensures HandOk(s', k)
  {
    LogExtended(s, s', id);
    var w := s.workers[k];
    if w.pc.Running? {
      BaseStays(s, s', id, w);
      if w.Stmt().Select? {
        ReaderAlone(s, k, id, w.pc.entry);
      }
    }
    hide Expected, OutcomeOn, SelectFrameOk, Missing, Base, LogExtends, LocksOk;
  }

  /** A writer excludes every other holder of the lock. */
  lemma {:induction false} ReaderAlone(s: State, k: nat, id: nat, i: nat)
    requires LocksOk(s) && k < |s.workers| && id < |s.workers| && k != id && i < |s.entries|
    requires s.workers[k].Holds(i)
    ensures !s.workers[id].Writes(i)
  {
    assert LockOk(s, i);
  }

  // ---------- The registry and its locks ----------

  lemma {:induction false} NamesStay(s: State, s': State, id: nat)
    requires NamesOk(s) && Frames(s, s', id) && |s'.entries| == |s.entries|
    ensures NamesOk(s')
  {
  }

  /** The other workers, when the registry does not grow. */
  lemma {:induction false} WorkerStays(s: State, s': State, id: nat, w: Worker)
    requires Frames(s, s', id) && WorkerOk(s, w) && (w.pc.Creating? ==> |s'.entries| == |s.entries|)
    ensures WorkerOk(s', w)
  {
    hide LogExtends, Missing, Refusal, Formed, Fold;
  }

  /** A worker that goes on with the same entry. */
  lemma WorkerRuns(s: State, w: Worker, w': Worker)
    requires WorkerOk(s, w) && w.Busy() && (w.pc.Waiting? || w.pc.Running?)
    requires w' == w.(pc := w'.pc) && w'.pc.Running? && w'.pc.entry == w.pc.entry
    ensures WorkerOk(s, w')
  {
    hide Missing, Refusal, Formed, Fold;
  }

  /** Entry i's lock does not change hands. */
  lemma {:induction false} LockStays(s: State, s': State, i: nat, id: nat)
    requires Frames(s, s', id) && i < |s.entries| && LockOk(s, i)
    requires s'.entries[i].writer == s.entries[i].writer && s'.entries[i].readers == s.entries[i].readers
    requires s'.workers[id].Writes(i) == s.workers[id].Writes(i) && s'.workers[id].Reads(i) == s.workers[id].Reads(i)
    ensures LockOk(s', i)
  {
    forall k | 0 <= k < |s'.workers|
      ensures s'.workers[k].Writes(i) == s.workers[k].Writes(i) && s'.workers[k].Reads(i) == s.workers[k].Reads(i)
    {
    }
  }

  // ---------- Tables ----------

  /** A statement leaves the tables it does not insert into as they are. */
  lemma {:induction false} ExecElsewhere(db: Db, stmt: Statement, k: string)
    requires DbOk(db) && Formed(stmt)
    requires Refusal(stmt).Some? || !stmt.Insert? || k != Fold(Target(stmt)) || (k !in db && Missing(stmt).Some?)
    ensures k in ExecDb(db, stmt) <==> k in db
    ensures k in db ==> ExecDb(db, stmt)[k] == db[k]
  {
  }

  ghost predicate SameTable(s: State, s': State, name: string)
    requires LogFormed(s.log) && LogFormed(s'.log)
  {
    (name in Replay(s.log) <==> name in Replay(s'.log)) &&
    TableIn(Replay(s.log), name) == TableIn(Replay(s'.log), name)
  }

  predicate Spares(s: State, stmt: Statement, name: string)
    requires LogFormed(s.log)
  {
    Refusal(stmt).Some? || !stmt.Insert? || name != Fold(Target(stmt)) ||
      (name !in Replay(s.log) && Missing(stmt).Some?)
  }

  lemma {:induction false} SameTableUnless(s: State, s': State, id: nat, name: string)
    requires LogFormed(s.log) && LogExtends(s, s', id)
    requires |s'.log| > |s.log| ==> Spares(s, s'.log[|s.log|].stmt, name)
    ensures LogFormed(s'.log) && SameTable(s, s', name)
  {
    LogExtended(s, s', id);
    if |s'.log| > |s.log| {
      ExecElsewhere(Replay(s.log), s'.log[|s.log|].stmt, name);
    }
    hide Replay, Mine, Expected, ExecDb, NewTable;
  }

  lemma {:induction false} EntryStays(s: State, s': State, id: nat, i: nat)
    requires LogFormed(s.log) && LogFormed(s'.log) && Frames(s, s', id) && i < |s.entries| && EntryOk(s, i)
    requires s'.entries[i].table == s.entries[i].table && s'.entries[i].writer == s.entries[i].writer
    requires s.workers[id].Writes(i) ==> s'.workers[id] == s.workers[id]
    requires SameTable(s, s', s.entries[i].table.name)
    ensures EntryOk(s', i)
  {
    if s.entries[i].writer.Some? {
      var k := s.entries[i].writer.value;
      BaseStays(s, s', id, s.workers[k]);
    }
    hide Replay, InsertFrameOk, AfterInsert, TableOk, NewTable, Base, LogExtends;
  }

  lemma {:induction false} AccountedStays(s: State, s': State, id: nat, i: nat)
    requires LogFormed(s.log) && LogFormed(s'.log) && Frames(s, s', id) && i < |s.entries| && Accounted(s, i)
    requires SameTable(s, s', s.entries[i].table.name)
    requires Owes(s.workers[id], i) ==> Owes(s'.workers[id], i)
    ensures Accounted(s', i)
  {
    hide Replay, TableIn, Owes, LogExtends;
    if s.entries[i].table.name !in Replay(s.log) {
      var k :| 0 <= k < |s.workers| && Owes(s.workers[k], i);
      assert Owes(s'.workers[k], i);
    }
  }

  lemma {:induction false} HasEntryStays(s: State, s': State, id: nat, name: string)
    requires Frames(s, s', id) && HasEntry(s, name)
    ensures HasEntry(s', name)
  {
    hide LogExtends;
    var i :| 0 <= i < |s.entries| && s.entries[i].table.name == name;
    assert s'.entries[i].table.name == name;
  }

  /** A step that only moves the worker, or refuses its statement: tables and locks stay. */
  lemma {:induction false} TablesStay(s: State, s': State, id: nat)
    requires Inv(s) && Frames(s, s', id) && s'.entries == s.entries
    requires forall i :: 0 <= i < |s.entries| ==> !s.workers[id].Writes(i)
    requires forall i :: 0 <= i < |s.entries| && Owes(s.workers[id], i) ==> Owes(s'.workers[id], i)
    requires |s'.log| > |s.log| ==> forall name :: Spares(s, s'.log[|s.log|].stmt, name)
    ensures TablesOk(s')
  {
    hide Replay, EntryOk, Accounted, HasEntry, NamesOk, LocksOk, WorkerOk, ResultsOk, SameTable, Owes, Spares;
    hide Expected, Mine, TableIn, NewTable;
    LogExtended(s, s', id);
    forall name ensures SameTable(s, s', name) {
      SameTableUnless(s, s', id, name);
    }
    forall i | 0 <= i < |s'.entries| ensures EntryOk(s', i) && Accounted(s', i) {
      EntryStays(s, s', id, i);
      AccountedStays(s, s', id, i);
    }
    forall k <- Replay(s'.log) ensures HasEntry(s', k) {
      assert SameTable(s, s', k);
      SameKeys(s, s', k);
      HasEntryStays(s, s', id, k);
    }
  }

  lemma SameKeys(s: State, s': State, name: string)
    requires LogFormed(s.log) && LogFormed(s'.log) && SameTable(s, s', name)
    ensures name in Replay(s.log) <==> name in Replay(s'.log)
  {
  }

  // ---------- The worker that steps ----------

  /** It is where the others are concerned what it was. */
  lemma {:induction false} OthersKeep(s: State, s': State, id: nat)
    requires Inv(s) && Frames(s, s', id) && (|s'.entries| == |s.entries| || s.mutex == Some(id))
    requires NamesOk(s') && LocksOk(s') && TablesOk(s') && WorkerOk(s', s'.workers[id]) && ResultsOk(s', id)
    ensures Inv(s')
  {
    assert LogFormed(s'.log) && |s'.workers| == |s.workers|;
    hide Frames, NamesOk, TablesOk, WorkerOk, ResultsOk, LogFormed;
    forall k | 0 <= k < |s'.workers| ensures WorkerOk(s', s'.workers[k]) && ResultsOk(s', k) {
      if k != id {
        OtherKeeps(s, s', id, k);
      }
    }
    hide LocksOk;
  }

  lemma {:induction false} OtherKeeps(s: State, s': State, id: nat, k: nat)
    requires Inv(s) && Frames(s, s', id) && (|s'.entries| == |s.entries| || s.mutex == Some(id))
    requires k < |s.workers| && k != id
    ensures LogFormed(s'.log) && WorkerOk(s', s'.workers[k]) && ResultsOk(s', k)
  {
    hide WorkerOk, ResultsOk, NamesOk, LogExtends, LockOk, Mine, Replay, Ran, HandOk, DonesOk;
    assert s.workers[k].HoldsMutex() <==> s.mutex == Some(k);
    WorkerStays(s, s', id, s.workers[k]);
    ResultsStay(s, s', id, k);
  }

  /** The mutex stays, or worker `id` takes or leaves it. */
  ghost predicate MutexMoves(s: State, s': State, id: nat)
    requires id < |s.workers| == |s'.workers|
  {
    (s'.mutex == s.mutex && s'.workers[id].HoldsMutex() == s.workers[id].HoldsMutex()) ||
    (s.mutex == None && s'.mutex == Some(id) && s'.workers[id].HoldsMutex()) ||
    (s.mutex == Some(id) && s'.mutex == None && !s'.workers[id].HoldsMutex())
  }

  ghost predicate SameHold(w: Worker, w': Worker, i: nat) {
    w'.Writes(i) == w.Writes(i) && w'.Reads(i) == w.Reads(i)
  }

  lemma {:induction false} LocksMove(s: State, s': State, id: nat)
    requires LocksOk(s) && Frames(s, s', id) && MutexMoves(s, s', id)
    requires forall i :: 0 <= i < |s.entries| ==>
      s'.entries[i].writer == s.entries[i].writer && s'.entries[i].readers == s.entries[i].readers
    requires forall i :: 0 <= i < |s.entries| ==> SameHold(s.workers[id], s'.workers[id], i)
    requires forall i :: |s.entries| <= i < |s'.entries| ==> LockOk(s', i)
    ensures LocksOk(s')
  {
    hide LogExtends;
    forall i | 0 <= i < |s'.entries| ensures LockOk(s', i) {
      if i < |s.entries| {
        assert SameHold(s.workers[id], s'.workers[id], i);
        LockStays(s, s', i, id);
      }
    }
    hide LockOk, SameHold;
  }

  /** Worker `id` steps without holding a lock for writing, and no entry changes. */
  lemma {:induction false} MoveKeeps(s: State, s': State, id: nat)
    requires Inv(s) && Frames(s, s', id) && s'.entries == s.entries && MutexMoves(s, s', id)
    requires forall i :: 0 <= i < |s.entries| ==> !s.workers[id].Writes(i) && SameHold(s.workers[id], s'.workers[id], i)
    requires forall i :: 0 <= i < |s.entries| && Owes(s.workers[id], i) ==> Owes(s'.workers[id], i)
    requires |s'.log| > |s.log| ==> forall name :: Spares(s, s'.log[|s.log|].stmt, name)
    requires WorkerOk(s', s'.workers[id])
    requires LogFormed(s'.log) && ResultsOk(s', id)
    ensures Inv(s')
  {
    TablesStay(s, s', id);
    hide WorkerOk, ResultsOk, TablesOk, Spares, Owes, LockOk, SameHold, MutexMoves;
    LocksMove(s, s', id);
    NamesStay(s, s', id);
    OthersKeep(s, s', id);
  }

  // ---------- Its results ----------

  lemma {:induction false} ResultsSame(s: State, s': State, id: nat)
    requires Frames(s, s', id) && LogFormed(s.log) && s'.log == s.log && ResultsOk(s, id)
    requires s'.workers[id].done == s.workers[id].done && s'.workers[id].script == s.workers[id].script
    requires s'.workers[id].Logged() == s.workers[id].Logged()
    requires s'.workers[id].Logged() ==> HandOk(s', id)
    ensures ResultsOk(s', id)
  {
    DonesStay(s, s', id, id);
    hide DonesOk, HandOk, Mine, LogExtends;
  }

  lemma {:induction false} MineGrows(s: State, s': State, id: nat)
    requires LogFormed(s.log) && LogExtends(s, s', id) && |s'.log| > |s.log|
    ensures Mine(s'.log, id) == Mine(s.log, id) + [s'.log[|s.log|].stmt]
  {
    LogExtended(s, s', id);
  }

  /** The statement in hand gets its place in the log. */
  lemma {:induction false} ResultsLogged(s: State, s': State, id: nat)
    requires Frames(s, s', id) && LogFormed(s.log) && ResultsOk(s, id)
    requires s'.workers[id].done == s.workers[id].done && s'.workers[id].script == s.workers[id].script
    requires s.workers[id].Busy() && !s.workers[id].Logged() && s'.workers[id].Logged()
    requires |s'.log| > |s.log| && s'.log[|s.log|] == LogItem(id, s.workers[id].Stmt())
    requires LogFormed(s'.log) && HandOk(s', id)
    ensures ResultsOk(s', id)
  {
    DonesStay(s, s', id, id);
    MineGrows(s, s', id);
    var w := s.workers[id];
    hide DonesOk, HandOk, Mine, Frames, LogFormed;
    assert w.script[..|w.done| + 1] == w.script[..|w.done|] + [w.Stmt()];
  }

  /** The statement in hand is done: its place in the log and its outcome go to the results. */
  lemma {:induction false} ResultsFinish(s: State, s': State, id: nat, at: nat, o: Outcome)
    requires Frames(s, s', id) && LogFormed(s.log) && s.workers[id].Busy() && ResultsOk(s, id)
    requires s'.workers[id] == Finish(s.workers[id], at, o)
    requires
      if s.workers[id].Logged() then s'.log == s.log && at == s.workers[id].pc.at
      else |s'.log| > |s.log| == at && s'.log[at] == LogItem(id, s.workers[id].Stmt())
    requires LogFormed(s'.log) && at < |s'.log| && o == Expected(s'.log, at)
    ensures ResultsOk(s', id)
  {
    DonesGrow(s, s', id, at, o);
    RanGrows(s, s', id, at, o);
    hide DonesOk, HandOk, Mine, Frames, LogFormed, Expected, Ran;
  }

  lemma {:induction false} RanGrows(s: State, s': State, id: nat, at: nat, o: Outcome)
    requires LogExtends(s, s', id) && LogFormed(s.log) && id < |s.workers| == |s'.workers| && s.workers[id].Busy()
    requires Mine(s.log, id) == Ran(s.workers[id]) && s'.workers[id] == Finish(s.workers[id], at, o)
    requires
      if s.workers[id].Logged() then s'.log == s.log
      else |s'.log| > |s.log| && s'.log[|s.log|] == LogItem(id, s.workers[id].Stmt())
    ensures Mine(s'.log, id) == Ran(s'.workers[id])
  {
    if |s'.log| > |s.log| {
      MineGrows(s, s', id);
    }
    var w := s.workers[id];
    hide Mine, LogExtends, LogFormed;
    assert w.script[..|w.done| + 1] == w.script[..|w.done|] + [w.Stmt()];
  }

  lemma {:induction false} DonesBefore(s: State, id: nat)
    requires LogFormed(s.log) && id < |s.workers| && DonesOk(s, id)
    ensures forall j :: 0 <= j < |s.workers[id].done| ==> s.workers[id].done[j].0 < |s.log|
  {
    hide Expected;
    forall j | 0 <= j < |s.workers[id].done| ensures s.workers[id].done[j].0 < |s.log| {
      assert DoneOk(s, id, j);
    }
  }

  lemma {:induction false} DoneStays(s: State, s': State, id: nat, j: nat)
    requires LogExtends(s, s', id) && LogFormed(s.log) && LogFormed(s'.log) && id < |s.workers| == |s'.workers|
    requires s'.workers[id].script == s.workers[id].script
    requires j < |s.workers[id].done| && j < |s'.workers[id].done| && s'.workers[id].done[j] == s.workers[id].done[j]
    requires DoneOk(s, id, j)
    ensures DoneOk(s', id, j)
  {
    LogExtended(s, s', id);
    hide Expected, LogExtends;
  }

  lemma {:induction false} DonesGrow(s: State, s': State, id: nat, at: nat, o: Outcome)
    requires LogExtends(s, s', id) && LogFormed(s.log) && id < |s.workers| == |s'.workers|
    requires s.workers[id].Busy() && DonesOk(s, id) && s'.workers[id] == Finish(s.workers[id], at, o)
    requires LogFormed(s'.log) && at < |s'.log| && s'.log[at] == LogItem(id, s.workers[id].Stmt())
    requires o == Expected(s'.log, at)
    requires (s.workers[id].Logged() && HandOk(s, id) && at == s.workers[id].pc.at) || at == |s.log|
    ensures DonesOk(s', id)
  {
    var done, done' := s.workers[id].done, s'.workers[id].done;
    var n := |done|;
    DonesBefore(s, id);
    assert DoneOk(s', id, n);
    hide Expected, LogExtends, Base, Replay, Missing, OutcomeOn, SelectFrameOk;
    assert forall j :: 0 <= j < n ==> done'[j] == done[j] && done[j].0 < at;
    hide HandOk;
    forall j | 0 <= j < |done'| ensures DoneOk(s', id, j) {
      if j < n {
        DoneStays(s, s', id, j);
      }
    }
    hide DoneOk;
  }

  // ---------- Step by step ----------

  lemma {:induction false} ReadyFormed(s: State, id: nat)
    requires Inv(s) && id < |s.workers| && s.workers[id].Busy()
    ensures Formed(s.workers[id].Stmt()) && LogFormed(s.log)
  {
    assert WorkerOk(s, s.workers[id]);
    assert s.workers[id].Stmt() in s.workers[id].script;
  }

  lemma {:induction false} AbsentNotLogged(s: State, name: string)
    requires TablesOk(s) && Absent(s.entries, name)
    ensures Fold(name) !in Replay(s.log)
  {
    hide Replay, Fold, EntryOk, Accounted;
    assert !HasEntry(s, Fold(name));
  }

  lemma {:induction false} LookupAbsent(s: State, name: string)
    requires NamesOk(s)
    ensures Lookup(s.entries, name).None? ==> Absent(s.entries, name)
    ensures Lookup(s.entries, name).Some? ==> s.entries[Lookup(s.entries, name).value].table.name == Fold(name)
  {
    hide Fold, Lookup;
    forall i | 0 <= i < |s.entries| ensures Fold(s.entries[i].table.name) == s.entries[i].table.name {
      assert NameOk(s.entries[i].table.name);
    }
  }

  lemma {:induction false} RefuseKeeps(s: State, id: nat)
    requires Inv(s) && id < |s.workers| && s.workers[id].Busy() && s.workers[id].pc.Idle?
    requires Refusal(s.workers[id].Stmt()).Some?
    ensures Inv(StepIdle(s, id))
  {
    var w, s' := s.workers[id], StepIdle(s, id);
    ReadyFormed(s, id);
    assert Frames(s, s', id);
    LogExtended(s, s', id);
    assert WorkerOk(s, w) && ResultsOk(s, id);
    hide TablesOk, NamesOk, LocksOk, Replay, Missing, OutcomeOn, NewTable, DonesOk, Fold, Mine, ResultsOk;
    ResultsFinish(s, s', id, |s.log|, Failed(Refusal(w.Stmt()).value));
    MoveKeeps(s, s', id);
  }

  lemma {:induction false} LockKeeps(s: State, id: nat)
    requires Inv(s) && id < |s.workers| && s.workers[id].Busy() && s.workers[id].pc.Idle?
    requires Refusal(s.workers[id].Stmt()).None? && s.mutex.None?
    requires !s.workers[id].Stmt().Delete?
    ensures Inv(StepIdle(s, id))
  {
    var w, s' := s.workers[id], StepIdle(s, id);
    assert WorkerOk(s, w) && ResultsOk(s, id);
    hide TablesOk, NamesOk, LocksOk, Replay, Refusal, Missing, Fold, Mine, ResultsOk, Formed;
    ResultsSame(s, s', id);
    MoveKeeps(s, s', id);
  }

  lemma {:induction false} CreateNextKeeps(s: State, id: nat)
    requires Inv(s) && id < |s.workers| && s.workers[id].Busy() && s.workers[id].pc.Searching?
    requires Lookup(s.entries, Target(s.workers[id].Stmt())).None? && Missing(s.workers[id].Stmt()).None?
    ensures Inv(StepSearch(s, id))
  {
    var w, s' := s.workers[id], StepSearch(s, id);
    assert WorkerOk(s, w) && ResultsOk(s, id);
    LookupAbsent(s, Target(w.Stmt()));
    hide TablesOk, LocksOk, Replay, Refusal, Fold, Mine, ResultsOk, Formed, Lookup, Absent, NamesOk;
    ResultsSame(s, s', id);
    MoveKeeps(s, s', id);
  }

  lemma {:induction false} FoundKeeps(s: State, id: nat)
    requires Inv(s) && id < |s.workers| && s.workers[id].Busy() && s.workers[id].pc.Searching?
    requires Lookup(s.entries, Target(s.workers[id].Stmt())).Some?
    ensures Inv(StepSearch(s, id))
  {
    var w, s' := s.workers[id], StepSearch(s, id);
    assert WorkerOk(s, w) && ResultsOk(s, id);
    LookupAbsent(s, Target(w.Stmt()));
    hide TablesOk, LocksOk, Replay, Refusal, Missing, Fold, Mine, ResultsOk, Formed, Lookup, Absent, NamesOk;
    ResultsSame(s, s', id);
    MoveKeeps(s, s', id);
  }

  ghost predicate CanMiss(s: State, id: nat) {
    id < |s.workers| && s.workers[id].Busy() && s.workers[id].pc.Searching? &&
    Lookup(s.entries, Target(s.workers[id].Stmt())).None? && Missing(s.workers[id].Stmt()).Some?
  }

  lemma {:induction false} MissingHand(s: State, id: nat)
    requires Inv(s) && CanMiss(s, id)
    ensures var s' := StepSearch(s, id);
      LogExtends(s, s', id) && LogFormed(s'.log) && s'.workers[id].Logged() && HandOk(s', id) &&
      Fold(Target(s.workers[id].Stmt())) !in Replay(s.log)
  {
    var w, s' := s.workers[id], StepSearch(s, id);
    ReadyFormed(s, id);
    assert LogExtends(s, s', id);
    LogExtended(s, s', id);
    assert WorkerOk(s, w) && ResultsOk(s, id);
    LookupAbsent(s, Target(w.Stmt()));
    AbsentNotLogged(s, Target(w.Stmt()));
    DonesBefore(s, id);
    hide Inv, Replay, Lookup, OutcomeOn, NewTable, Fold, Mine, ResultsOk, TableOk, Formed, LogFormed;
  }

  lemma {:induction false} MissingMove(s: State, id: nat)
    requires Inv(s) && CanMiss(s, id)
    ensures var s' := StepSearch(s, id);
      Frames(s, s', id) && s'.entries == s.entries && MutexMoves(s, s', id) &&
      s'.log == s.log + [LogItem(id, s.workers[id].Stmt())] && WorkerOk(s', s'.workers[id])
    ensures var w, w' := s.workers[id], StepSearch(s, id).workers[id];
      w'.done == w.done && w'.script == w.script && !w.Logged() && w.pc.Searching? &&
      w'.pc == Leaving(None, |s.log|)
  {
    MissingHand(s, id);
    assert WorkerOk(s, s.workers[id]);
    hide TablesOk, NamesOk, LocksOk, Replay, Lookup, Fold, ResultsOk, HandOk, Absent, LogExtends, LogFormed;
  }

  lemma {:induction false} MissingKeeps(s: State, id: nat)
    requires Inv(s) && CanMiss(s, id)
    ensures Inv(StepSearch(s, id))
  {
    var w, s' := s.workers[id], StepSearch(s, id);
    MissingHand(s, id);
    MissingMove(s, id);
    assert LogFormed(s.log) && ResultsOk(s, id) && Missing(w.Stmt()).Some?;
    hide StepSearch, Frames, WorkerOk, MutexMoves, TablesOk, NamesOk, LocksOk, Replay, Lookup, Fold, ResultsOk, HandOk,
      Absent, LogExtends, LogFormed, Inv;
    ResultsLogged(s, s', id);
    MoveKeeps(s, s', id);
  }

  lemma {:induction false} LeaveKeeps(s: State, id: nat)
    requires Inv(s) && id < |s.workers| && s.workers[id].Busy() && s.workers[id].pc.Leaving?
    requires s.workers[id].pc.found.Some?
    ensures Inv(StepLeave(s, id))
  {
    var w, s' := s.workers[id], StepLeave(s, id);
    assert WorkerOk(s, w) && ResultsOk(s, id);
    hide TablesOk, LocksOk, Replay, Refusal, Missing, Fold, Mine, ResultsOk, Formed, Lookup, Absent, NamesOk;
    ResultsSame(s, s', id);
    MoveKeeps(s, s', id);
  }

  lemma {:induction false} GiveUpKeeps(s: State, id: nat)
    requires Inv(s) && id < |s.workers| && s.workers[id].Busy() && s.workers[id].pc.Leaving?
    requires s.workers[id].pc.found.None? && Missing(s.workers[id].Stmt()).Some?
    ensures Inv(StepLeave(s, id))
  {
    var w, s' := s.workers[id], StepLeave(s, id);
    assert WorkerOk(s, w) && ResultsOk(s, id) && HandOk(s, id);
    hide TablesOk, LocksOk, Replay, Refusal, Fold, Mine, ResultsOk, Formed, Lookup, Absent, NamesOk;
    ResultsFinish(s, s', id, w.pc.at, Failed(Missing(w.Stmt()).value));
    MoveKeeps(s, s', id);
  }

  lemma {:induction false} CreateKeeps(s: State, id: nat)
    requires Inv(s) && id < |s.workers| && s.workers[id].Busy() && s.workers[id].pc.Creating?
    ensures Inv(StepCreate(s, id))
  {
    var w, s' := s.workers[id], StepCreate(s, id);
    assert WorkerOk(s, w) && ResultsOk(s, id);
    var name, n := Target(w.Stmt()), |s.entries|;
    FoldTwice(name);
    assert s.mutex == Some(id);
    assert s'.entries[n] == Entry(NewTable(name), {}, None);
    assert NamesOk(s');
    NewLockOk(s, s', id);
    NewTablesOk(s, s', id);
    assert WorkerOk(s', s'.workers[id]);
    hide TablesOk, NamesOk, Replay, Refusal, Missing, Fold, Mine, Formed, Absent, ResultsOk, WorkerOk, LockOk;
    ResultsSame(s, s', id);
    LocksMove(s, s', id);
    OthersKeep(s, s', id);
  }

  lemma {:induction false} NewLockOk(s: State, s': State, id: nat)
    requires Inv(s) && Frames(s, s', id) && |s'.entries| == |s.entries| + 1
    requires s'.entries[|s.entries|].readers == {} && s'.entries[|s.entries|].writer.None?
    requires !s'.workers[id].pc.Running?
    ensures LockOk(s', |s.entries|)
  {
    hide TablesOk, NamesOk, LocksOk, ResultsOk, Refusal, Missing, Fold, Formed, Absent, LogExtends;
    forall k | 0 <= k < |s'.workers| ensures !s'.workers[k].Holds(|s.entries|) {
      assert WorkerOk(s, s.workers[k]);
    }
  }

  lemma {:induction false} NewTablesOk(s: State, s': State, id: nat)
    requires Inv(s) && id < |s.workers| && s.workers[id].Busy() && s.workers[id].pc.Creating?
    requires s' == StepCreate(s, id)
    ensures TablesOk(s')
  {
    var n, w := |s.entries|, s.workers[id];
    var name := Fold(Target(w.Stmt()));
    assert WorkerOk(s, w);
    FoldTwice(Target(w.Stmt()));
    AbsentNotLogged(s, Target(w.Stmt()));
    assert Frames(s, s', id) && s'.log == s.log;
    hide Missing, Refusal, Fold, LocksOk, NamesOk, ResultsOk, Replay, Absent, LogExtends;
    assert Owes(s'.workers[id], n);
    forall i | 0 <= i < |s'.entries| ensures EntryOk(s', i) && Accounted(s', i) {
      if i < n {
        assert SameTable(s, s', s.entries[i].table.name);
        EntryStays(s, s', id, i);
        AccountedStays(s, s', id, i);
      }
    }
    forall k <- Replay(s'.log) ensures HasEntry(s', k) {
      HasEntryStays(s, s', id, k);
    }
  }

  /** What a statement gets from the tables is what it gets from its own, created if need be. */
  lemma {:induction false} ExecOnTable(db: Db, stmt: Statement)
    requires DbOk(db) && Formed(stmt) && Refusal(stmt).None? && |Target(stmt)| < MAX_IDENTIFIER_LEN
    ensures TableOk(TableIn(db, Fold(Target(stmt))))
    ensures ExecOutcome(db, stmt) == OutcomeOn(TableIn(db, Fold(Target(stmt))), stmt)
    ensures stmt.Insert? ==>
      Fold(Target(stmt)) in ExecDb(db, stmt) &&
      ExecDb(db, stmt)[Fold(Target(stmt))] == AfterInsert(TableIn(db, Fold(Target(stmt))), stmt.insert)
    ensures stmt.Select? ==> ExecDb(db, stmt) == db
  {
    TableInOk(db, Fold(Target(stmt)));
    FoldTwice(Target(stmt));
    assert NewTable(Fold(Target(stmt))) == NewTable(Target(stmt));
    hide AfterInsert, InsertError, TableOk, Fold, Projection, ScanResult;
  }

  ghost predicate CanAcquire(s: State, id: nat) {
    id < |s.workers| && s.workers[id].Busy() && s.workers[id].pc.Waiting? && Enabled(s, id)
  }

  lemma {:induction false} AcquireFacts(s: State, id: nat)
    requires Inv(s) && CanAcquire(s, id)
    ensures var w, s' := s.workers[id], StepAcquire(s, id);
      Frames(s, s', id) && Formed(w.Stmt()) && Refusal(w.Stmt()).None? && !w.Stmt().Delete? &&
      |Target(w.Stmt())| < MAX_IDENTIFIER_LEN && LogFormed(s.log) && LogFormed(s'.log) &&
      s.entries[w.pc.entry].table.name == Fold(Target(w.Stmt())) &&
      s.entries[w.pc.entry].table == TableIn(Replay(s.log), Fold(Target(w.Stmt()))) &&
      Replay(s'.log) == ExecDb(Replay(s.log), w.Stmt()) &&
      Expected(s'.log, |s.log|) == ExecOutcome(Replay(s.log), w.Stmt()) &&
      Base(s', s'.workers[id]) == s.entries[w.pc.entry].table
  {
    var w, s' := s.workers[id], StepAcquire(s, id);
    ReadyFormed(s, id);
    assert WorkerOk(s, w) && EntryOk(s, w.pc.entry) && NameOk(s.entries[w.pc.entry].table.name);
    assert Frames(s, s', id);
    LogExtended(s, s', id);
    assert s'.log[..|s.log|] == s.log;
    hide Replay, Refusal, Missing, Mine, Expected, ResultsOk, LocksOk, TableIn, NamesOk;
  }

  lemma {:induction false} AcquireHand(s: State, id: nat)
    requires Inv(s) && CanAcquire(s, id)
    ensures LogFormed(StepAcquire(s, id).log) && ResultsOk(StepAcquire(s, id), id)
  {
    var w, s' := s.workers[id], StepAcquire(s, id);
    AcquireFacts(s, id);
    assert ResultsOk(s, id);
    DonesBefore(s, id);
    ExecOnTable(Replay(s.log), w.Stmt());
    hide TablesOk, NamesOk, LocksOk, Replay, Refusal, Missing, OutcomeOn, NewTable, DonesOk, Fold, Mine, ResultsOk,
      Frames, Expected, Base, ExecOutcome, ExecDb, TableIn, WorkerOk, AfterInsert;
    assert HandOk(s', id);
    hide HandOk;
    ResultsLogged(s, s', id);
  }

  lemma {:induction false} AcquireTables(s: State, id: nat)
    requires Inv(s) && CanAcquire(s, id)
    ensures TablesOk(StepAcquire(s, id))
  {
    var w, s' := s.workers[id], StepAcquire(s, id);
    AcquireFacts(s, id);
    ExecOnTable(Replay(s.log), w.Stmt());
    var n := w.pc.entry;
    hide NamesOk, LocksOk, Replay, Refusal, Missing, OutcomeOn, NewTable, DonesOk, Fold, Mine, ResultsOk, Expected,
      Base, ExecOutcome, ExecDb, TableIn, WorkerOk, AfterInsert, LogExtends;
    forall i | 0 <= i < |s'.entries| ensures EntryOk(s', i) && Accounted(s', i) {
      AcquireEntry(s, id, i);
    }
    forall k <- Replay(s'.log) ensures HasEntry(s', k) {
      if k != Fold(Target(w.Stmt())) {
        SameTableUnless(s, s', id, k);
        SameKeys(s, s', k);
        HasEntryStays(s, s', id, k);
      } else {
        assert s'.entries[n].table.name == k;
      }
    }
  }

  lemma {:induction false} AcquireEntry(s: State, id: nat, i: nat)
    requires Inv(s) && CanAcquire(s, id) && i < |s.entries| && LogFormed(StepAcquire(s, id).log)
    ensures EntryOk(StepAcquire(s, id), i) && Accounted(StepAcquire(s, id), i)
  {
    var w, s' := s.workers[id], StepAcquire(s, id);
    if i == w.pc.entry && w.Stmt().Insert? {
      AcquireOwnEntry(s, id);
    } else {
      AcquireFacts(s, id);
      AcquireSpares(s, id, i);
      assert EntryOk(s, i) && Accounted(s, i);
      hide Inv, Replay, Refusal, Missing, OutcomeOn, Fold, Expected, Base, ExecOutcome, ExecDb, WorkerOk, AfterInsert,
        LogExtends, EntryOk, Accounted, SameTable, TableIn, Frames;
      EntryStays(s, s', id, i);
      AccountedStays(s, s', id, i);
    }
  }

  lemma {:induction false} AcquireSpares(s: State, id: nat, i: nat)
    requires Inv(s) && CanAcquire(s, id) && i < |s.entries|
    requires i != s.workers[id].pc.entry || s.workers[id].Stmt().Select?
    ensures var s' := StepAcquire(s, id); LogFormed(s'.log) && SameTable(s, s', s.entries[i].table.name)
  {
    var w, s' := s.workers[id], StepAcquire(s, id);
    AcquireFacts(s, id);
    assert i != w.pc.entry ==> s.entries[i].table.name != s.entries[w.pc.entry].table.name by {
      hide *;
    }
    hide Inv, Replay, Refusal, Missing, OutcomeOn, Fold, Expected, Base, ExecOutcome, ExecDb, WorkerOk, TableIn;
    SameTableUnless(s, s', id, s.entries[i].table.name);
  }

  lemma {:induction false} AcquireOwnEntry(s: State, id: nat)
    requires Inv(s) && CanAcquire(s, id) && s.workers[id].Stmt().Insert?
    ensures var s', n := StepAcquire(s, id), s.workers[id].pc.entry;
      n < |s'.entries| && LogFormed(s'.log) && EntryOk(s', n) && Accounted(s', n)
  {
    AcquireFacts(s, id);
    ExecOnTable(Replay(s.log), s.workers[id].Stmt());
    var s', n := StepAcquire(s, id), s.workers[id].pc.entry;
    hide Inv, Replay, Refusal, Missing, OutcomeOn, NewTable, Fold, Expected, Base, ExecOutcome, ExecDb, WorkerOk,
      AfterInsert, Frames, TableIn, LogFormed, EntryOk;
    WriterStarts(s', id, n);
  }

  lemma {:induction false} WriterStarts(s: State, id: nat, n: nat)
    requires LogFormed(s.log) && id < |s.workers| && n < |s.entries| && s.entries[n].writer == Some(id)
    requires s.workers[id].Writes(n) && s.workers[id].pc.at < |s.log| && Formed(s.workers[id].Stmt())
    requires s.workers[id].pc.frame.Start? && Base(s, s.workers[id]) == s.entries[n].table
    requires var w, db, name := s.workers[id], Replay(s.log), s.entries[n].table.name;
      name in db && db[name] == AfterInsert(Base(s, w), w.Stmt().insert)
    ensures EntryOk(s, n)
  {
    hide Replay, Base, AfterInsert, Formed, LogFormed;
  }

  lemma {:induction false} LockGranted(s: State, s': State, id: nat, i: nat)
    requires Frames(s, s', id) && i < |s.entries| && LockOk(s, i)
    requires !s.workers[id].Writes(i) && !s.workers[id].Reads(i) && s.entries[i].writer.None?
    requires
      (s'.workers[id].Writes(i) && !s'.workers[id].Reads(i) && s.entries[i].readers == {} &&
       s'.entries[i].writer == Some(id) && s'.entries[i].readers == {}) ||
      (s'.workers[id].Reads(i) && !s'.workers[id].Writes(i) &&
       s'.entries[i].writer.None? && s'.entries[i].readers == s.entries[i].readers + {id})
    ensures LockOk(s', i)
  {
    hide LogExtends, Worker.Writes, Worker.Reads;
  }

  lemma {:induction false} AcquireLock(s: State, id: nat, i: nat)
    requires Inv(s) && CanAcquire(s, id) && i < |s.entries|
    ensures LockOk(StepAcquire(s, id), i)
  {
    var w, s' := s.workers[id], StepAcquire(s, id);
    AcquireFacts(s, id);
    assert LockOk(s, i);
    hide NamesOk, TablesOk, LocksOk, LockOk, Replay, Refusal, Missing, ResultsOk, WorkerOk, Expected, Base, ExecDb,
      ExecOutcome, LogFormed, Fold, TableIn, Frames;
    if i != w.pc.entry {
      LockStays(s, s', i, id);
    } else {
      LockGranted(s, s', id, i);
    }
  }

  lemma {:induction false} AcquireLocks(s: State, id: nat)
    requires Inv(s) && CanAcquire(s, id)
    ensures LocksOk(StepAcquire(s, id))
  {
    var s' := StepAcquire(s, id);
    hide NamesOk, TablesOk, Replay, Refusal, Missing, ResultsOk, WorkerOk, LockOk;
    forall i | 0 <= i < |s'.entries| ensures LockOk(s', i) {
      AcquireLock(s, id, i);
    }
    assert forall k :: 0 <= k < |s.workers| ==> s'.workers[k].HoldsMutex() == s.workers[k].HoldsMutex();
  }

  lemma {:induction false} AcquireWorkerOk(s: State, id: nat)
    requires Inv(s) && CanAcquire(s, id)
    ensures var s' := StepAcquire(s, id); WorkerOk(s', s'.workers[id]) && Frames(s, s', id) && NamesOk(s')
  {
    var w, s' := s.workers[id], StepAcquire(s, id);
    AcquireFacts(s, id);
    hide NamesOk, TablesOk, LocksOk, Replay, Refusal, Missing, ResultsOk, Expected, Base, ExecDb, ExecOutcome, Fold,
      LogFormed, Frames, WorkerOk;
    assert WorkerOk(s, w);
    WorkerStays(s, s', id, w);
    WorkerRuns(s', w, s'.workers[id]);
    NamesStay(s, s', id);
  }

  lemma {:induction false} AcquireKeeps(s: State, id: nat)
    requires Inv(s) && CanAcquire(s, id)
    ensures Inv(StepAcquire(s, id))
  {
    AcquireHand(s, id);
    AcquireTables(s, id);
    AcquireLocks(s, id);
    AcquireWorkerOk(s, id);
    hide Inv, TablesOk, LocksOk, NamesOk, ResultsOk, Frames, WorkerOk;
    OthersKeep(s, StepAcquire(s, id), id);
  }

  // ---------- The body ----------

  ghost predicate InBody(s: State, id: nat) {
    id < |s.workers| && s.workers[id].Busy() && s.workers[id].pc.Running?
  }

  /** The writer of an entry, and what it has made of the table. */
  lemma {:induction false} WriterFacts(s: State, id: nat)
    requires Inv(s) && InBody(s, id) && s.workers[id].Stmt().Insert?
    ensures var w := s.workers[id];
      w.pc.entry < |s.entries| && LogFormed(s.log) && w.pc.at < |s.log| && Formed(w.Stmt()) &&
      WorkerOk(s, w) && ResultsOk(s, id) && HandOk(s, id) &&
      var e, db := s.entries[w.pc.entry], Replay(s.log);
      e.writer == Some(id) && e.readers == {} && e.table.name in db && e.table.name == Fold(Target(w.Stmt())) &&
      TableOk(Base(s, w)) && Base(s, w).name == e.table.name && e.table.name != "" &&
      InsertFrameOk(Base(s, w), e.table, w.Stmt().insert, w.pc.frame) &&
      db[e.table.name] == AfterInsert(Base(s, w), w.Stmt().insert)
  {
    var w := s.workers[id];
    ReadyFormed(s, id);
    assert WorkerOk(s, w) && ResultsOk(s, id);
    assert LockOk(s, w.pc.entry) && w.Writes(w.pc.entry) && EntryOk(s, w.pc.entry);
    assert NameOk(s.entries[w.pc.entry].table.name);
    TableInOk(Replay(s.log[..w.pc.at]), Fold(Target(w.Stmt())));
    FoldTwice(Target(w.Stmt()));
    hide Replay, TableOk, AfterInsert, InsertFrameOk, OutcomeOn, Mine, Refusal, Missing, LocksOk, LockOk, NamesOk,
      DonesOk, Ran;
  }

  lemma {:induction false} InsertBodyFacts(s: State, id: nat)
    requires Inv(s) && InBody(s, id) && s.workers[id].Stmt().Insert? && !s.workers[id].pc.frame.Done?
    requires Enabled(s, id)
    ensures var w, s' := s.workers[id], Step(s, id);
      w.pc.entry < |s.entries| == |s'.entries| &&
      s' == SetWorker(
        SetEntry(s, w.pc.entry, s'.entries[w.pc.entry]), id, w.(pc := w.pc.(frame := s'.workers[id].pc.frame))) &&
      s'.entries[w.pc.entry].writer == s.entries[w.pc.entry].writer &&
      s'.entries[w.pc.entry].readers == s.entries[w.pc.entry].readers &&
      s'.entries[w.pc.entry].table.name == s.entries[w.pc.entry].table.name &&
      s'.workers[id].pc.Running? &&
      LogFormed(s.log) && w.pc.at < |s.log| && Formed(w.Stmt()) &&
      InsertFrameOk(Base(s, w), s'.entries[w.pc.entry].table, w.Stmt().insert, s'.workers[id].pc.frame)
  {
    var w := s.workers[id];
    WriterFacts(s, id);
    StepReady(s, id);
    hide Inv, Replay, TableOk, AfterInsert, InsertFrameOk, InsertStep, HandOk, ResultsOk, WorkerOk, Enabled, Base;
    InsertStepOk(Base(s, w), s.entries[w.pc.entry].table, w.Stmt().insert, w.pc.frame);
  }

  /** Worker `id` moves on and entry n changes: nothing else. */
  lemma {:induction false} EntryChanges(s: State, s': State, id: nat, n: nat, e': Entry, w': Worker)
    requires id < |s.workers| && n < |s.entries| && s' == SetWorker(SetEntry(s, n, e'), id, w')
    requires e'.table.name == s.entries[n].table.name
    requires e'.table == s.entries[n].table || s.workers[id].Writes(n)
    ensures Frames(s, s', id) && s'.log == s.log && s'.mutex == s.mutex && |s'.entries| == |s.entries|
    ensures s'.workers[id] == w' && s'.entries[n] == e'
    ensures forall i :: 0 <= i < |s.entries| && i != n ==> s'.entries[i] == s.entries[i]
  {
    hide Worker.Writes;
  }

  lemma {:induction false} EntryChangesTables(s: State, s': State, id: nat, n: nat)
    requires TablesOk(s) && Frames(s, s', id) && s'.log == s.log && |s'.entries| == |s.entries| && n < |s.entries|
    requires forall i :: 0 <= i < |s.entries| && i != n ==> s'.entries[i] == s.entries[i]
    requires s.workers[id].pc.Running? && s.workers[id].pc.entry == n
    requires EntryOk(s', n)
    ensures TablesOk(s')
  {
    hide EntryOk, LogExtends, Replay, Accounted, HasEntry, TableIn;
    forall i | 0 <= i < |s'.entries| ensures EntryOk(s', i) && Accounted(s', i) {
      assert SameTable(s, s', s.entries[i].table.name);
      if i != n {
        EntryStays(s, s', id, i);
      }
      AccountedStays(s, s', id, i);
    }
    forall k <- Replay(s'.log) ensures HasEntry(s', k) {
      HasEntryStays(s, s', id, k);
    }
  }

  lemma {:induction false} InsertBodyTables(s: State, id: nat)
    requires Inv(s) && InBody(s, id) && s.workers[id].Stmt().Insert? && !s.workers[id].pc.frame.Done?
    requires Enabled(s, id)
    ensures TablesOk(Step(s, id))
  {
    var w, s', n := s.workers[id], Step(s, id), s.workers[id].pc.entry;
    WriterFacts(s, id);
    InsertBodyFacts(s, id);
    hide Step, Inv, Replay, AfterInsert, TableOk, InsertFrameOk, Refusal, Missing, HandOk, ResultsOk, WorkerOk, Base,
      Fold, Formed, TableIn, LogFormed;
    EntryChanges(s, s', id, n, s'.entries[n], s'.workers[id]);
    BaseKept(s, s', w, s'.workers[id]);
    hide Frames;
    assert EntryOk(s', n);
    hide EntryOk;
    InvTables(s);
    EntryChangesTables(s, s', id, n);
  }

  lemma InvTables(s: State)
    requires Inv(s)
    ensures TablesOk(s)
  {
  }

  lemma {:induction false} BaseKept(s: State, s': State, w: Worker, w': Worker)
    requires LogFormed(s.log) && w.pc.Running? && w.pc.at <= |s.log| && w.Busy()
    requires s'.log == s.log && w'.pc.Running? && w'.pc.at == w.pc.at && w'.script == w.script && w'.done == w.done
    ensures Base(s', w') == Base(s, w)
  {
    hide Replay, TableIn, Fold;
  }

  lemma {:induction false} InsertHandOk(s: State, id: nat)
    requires Inv(s) && InBody(s, id) && s.workers[id].Stmt().Insert? && !s.workers[id].pc.frame.Done?
    requires Enabled(s, id)
    ensures var s' := Step(s, id); WorkerOk(s', s'.workers[id]) && HandOk(s', id)
  {
    var w, s' := s.workers[id], Step(s, id);
    WriterFacts(s, id);
    InsertBodyFacts(s, id);
    BaseKept(s, s', w, s'.workers[id]);
    hide Step, Inv, Replay, AfterInsert, TableOk, InsertFrameOk, Refusal, Missing, ResultsOk, Base, Fold, Formed,
      TableIn, Expected, OutcomeOn, SelectFrameOk, LogFormed;
  }

  lemma {:induction false} InsertBodyHand(s: State, id: nat)
    requires Inv(s) && InBody(s, id) && s.workers[id].Stmt().Insert? && !s.workers[id].pc.frame.Done?
    requires Enabled(s, id)
    ensures var s' := Step(s, id);
      Frames(s, s', id) && WorkerOk(s', s'.workers[id]) && LogFormed(s'.log) && ResultsOk(s', id)
  {
    var w, s' := s.workers[id], Step(s, id);
    WriterFacts(s, id);
    InsertBodyFacts(s, id);
    InsertHandOk(s, id);
    hide Step, Inv, Replay, AfterInsert, TableOk, InsertFrameOk, ResultsOk, Base, Formed, LogFormed, Frames, WorkerOk,
      HandOk, Fold;
    EntryChanges(s, s', id, w.pc.entry, s'.entries[w.pc.entry], s'.workers[id]);
    ResultsSame(s, s', id);
  }

  lemma {:induction false} InsertBodyKeeps(s: State, id: nat)
    requires Inv(s) && InBody(s, id) && s.workers[id].Stmt().Insert? && !s.workers[id].pc.frame.Done?
    requires Enabled(s, id)
    ensures Inv(Step(s, id))
  {
    var s' := Step(s, id);
    InsertBodyFacts(s, id);
    InsertBodyTables(s, id);
    InsertBodyHand(s, id);
    hide Step, NamesOk, LocksOk, TablesOk, Replay, InsertFrameOk, ResultsOk, Base, Formed, LockOk, WorkerOk, Frames,
      Refusal, Missing;
    NamesStay(s, s', id);
    LocksMove(s, s', id);
    OthersKeep(s, s', id);
  }

  lemma {:induction false} SelectBodyHand(s: State, id: nat)
    requires Inv(s) && InBody(s, id) && s.workers[id].Stmt().Select? && !s.workers[id].pc.frame.Done?
    requires Enabled(s, id)
    ensures var w, s' := s.workers[id], Step(s, id);
      s' == SetWorker(s, id, s'.workers[id]) && s'.workers[id] == w.(pc := w.pc.(frame := s'.workers[id].pc.frame)) &&
      s'.workers[id].pc.Running? && WorkerOk(s, w) && LogFormed(s.log) && ResultsOk(s, id) && HandOk(s', id)
  {
    var w, s' := s.workers[id], Step(s, id);
    StepReady(s, id);
    assert ResultsOk(s, id) && WorkerOk(s, w) && HandOk(s, id);
    SelectStepOk(s.entries[w.pc.entry].table, w.Stmt().select, w.pc.frame);
    assert s' == StepBody(s, id);
    hide Step, Inv, Replay, TableOk, SelectFrameOk, SelectStep, Refusal, Missing, ResultsOk, WorkerOk, Formed,
      OutcomeOn, Base, Expected;
    BaseKept(s, s', w, s'.workers[id]);
  }

  lemma {:induction false} SelectWorkerOk(s: State, id: nat)
    requires Inv(s) && InBody(s, id) && s.workers[id].Stmt().Select? && !s.workers[id].pc.frame.Done?
    requires Enabled(s, id)
    ensures var s' := Step(s, id); WorkerOk(s', s'.workers[id]) && Frames(s, s', id)
  {
    var w, s' := s.workers[id], Step(s, id);
    SelectBodyHand(s, id);
    hide Inv, Step, Replay, Refusal, Missing, ResultsOk, Fold, Formed, HandOk, LogFormed, WorkerOk;
    assert Frames(s, s', id);
    hide Frames;
    WorkerStays(s, s', id, w);
    WorkerRuns(s', w, s'.workers[id]);
  }

  lemma {:induction false} SelectBodyKeeps(s: State, id: nat)
    requires Inv(s) && InBody(s, id) && s.workers[id].Stmt().Select? && !s.workers[id].pc.frame.Done?
    requires Enabled(s, id)
    ensures Inv(Step(s, id))
  {
    var s' := Step(s, id);
    SelectBodyHand(s, id);
    SelectWorkerOk(s, id);
    SelectorHolds(s.workers[id], s'.workers[id]);
    hide Inv, Step, NamesOk, LocksOk, TablesOk, Replay, Refusal, Missing, ResultsOk, Fold, Formed, LockOk, HandOk,
      LogFormed, LogExtends, Frames, WorkerOk, Owes, SameHold, Worker.Writes;
    ResultsSame(s, s', id);
    MoveKeeps(s, s', id);
  }

  lemma SelectorHolds(w: Worker, w': Worker)
    requires w.Busy() && w.Stmt().Select? && w.pc.Running? && w' == w.(pc := w'.pc) && w'.pc.Running? &&
      w'.pc.entry == w.pc.entry
    ensures forall i :: !w.Writes(i) && SameHold(w, w', i) && !Owes(w, i)
    ensures !w.HoldsMutex() && !w'.HoldsMutex()
  {
  }

  // ---------- Releasing the lock ----------

  ghost predicate AtRelease(s: State, id: nat) {
    InBody(s, id) && s.workers[id].pc.frame.Done? && s.workers[id].pc.entry < |s.entries|
  }

  /** The entry of worker `id` once it has let go of its lock. */
  function Freed(s: State, id: nat): Entry
    requires AtRelease(s, id)
  {
    var e := s.entries[s.workers[id].pc.entry];
    if s.workers[id].Stmt().Insert? then e.(writer := None) else e.(readers := e.readers - {id})
  }

  lemma {:induction false} ReleaseFrames(s: State, id: nat)
    requires AtRelease(s, id)
    ensures var w, s', n := s.workers[id], StepRelease(s, id), s.workers[id].pc.entry;
      s' == SetWorker(SetEntry(s, n, Freed(s, id)), id, Finish(w, w.pc.at, w.pc.frame.outcome)) &&
      Frames(s, s', id) && s'.log == s.log && s'.mutex == s.mutex && |s'.entries| == |s.entries| &&
      s'.workers[id] == Finish(w, w.pc.at, w.pc.frame.outcome) && s'.entries[n] == Freed(s, id) &&
      forall i :: 0 <= i < |s.entries| && i != n ==> s'.entries[i] == s.entries[i]
  {
    var w := s.workers[id];
    EntryChanges(s, StepRelease(s, id), id, w.pc.entry, Freed(s, id), Finish(w, w.pc.at, w.pc.frame.outcome));
  }

  lemma {:induction false} ReleaseOutcome(s: State, id: nat)
    requires Inv(s) && AtRelease(s, id)
    ensures var w := s.workers[id];
      WorkerOk(s, w) && LogFormed(s.log) && ResultsOk(s, id) && w.pc.at < |s.log| &&
      w.pc.frame.outcome == Expected(s.log, w.pc.at)
  {
    var w := s.workers[id];
    assert ResultsOk(s, id) && WorkerOk(s, w) && HandOk(s, id);
    if w.Stmt().Insert? {
      WriterFacts(s, id);
      hide Inv, Replay, ResultsOk, WorkerOk, Base, Expected, LogFormed, Formed, HandOk, Enabled;
      DoneOutcome(Base(s, w), s.entries[w.pc.entry].table, w.Stmt(), w.pc.frame);
      HandExpects(s, id);
    } else {
      hide Inv, Replay, ResultsOk, WorkerOk, Base, Expected, LogFormed, Formed, OutcomeOn, Refusal, Missing;
    }
  }

  lemma DoneOutcome(base: Table, t: Table, stmt: Statement, f: Frame)
    requires stmt.Insert? && Formed(stmt) && TableOk(base) && f.Done? && InsertFrameOk(base, t, stmt.insert, f)
    ensures f.outcome == OutcomeOn(base, stmt)
  {
    hide TableOk, OutcomeOn, AfterInsert;
    assert stmt == Insert(stmt.insert);
  }

  lemma HandExpects(s: State, id: nat)
    requires LogFormed(s.log) && InBody(s, id) && HandOk(s, id)
    ensures Expected(s.log, s.workers[id].pc.at) == OutcomeOn(Base(s, s.workers[id]), s.workers[id].Stmt())
  {
  }

  lemma {:induction false} ReleaseHand(s: State, id: nat)
    requires Inv(s) && AtRelease(s, id)
    ensures var s' := StepRelease(s, id);
      Frames(s, s', id) && WorkerOk(s', s'.workers[id]) && LogFormed(s'.log) && ResultsOk(s', id)
  {
    var w, s' := s.workers[id], StepRelease(s, id);
    ReleaseOutcome(s, id);
    ReleaseFrames(s, id);
    hide Inv, StepRelease, Refusal, Missing, ResultsOk, Expected, Formed, LogFormed, Frames;
    assert WorkerOk(s', s'.workers[id]);
    hide WorkerOk;
    ResultsFinish(s, s', id, w.pc.at, w.pc.frame.outcome);
  }

  lemma {:induction false} ReleaseEntry(s: State, id: nat)
    requires Inv(s) && AtRelease(s, id)
    ensures var s' := StepRelease(s, id);
      LogFormed(s'.log) && s.workers[id].pc.entry < |s'.entries| && EntryOk(s', s.workers[id].pc.entry)
  {
    var w, s', n := s.workers[id], StepRelease(s, id), s.workers[id].pc.entry;
    ReleaseFrames(s, id);
    if w.Stmt().Insert? {
      WriterDone(s, id);
      hide Inv, Replay, TableIn, LogFormed, StepRelease, Frames;
    } else {
      assert LockOk(s, n) && w.Reads(n) && EntryOk(s, n);
      hide Inv, LockOk, Replay, TableIn, StepRelease;
      EntryStays(s, s', id, n);
    }
  }

  lemma {:induction false} WriterDone(s: State, id: nat)
    requires Inv(s) && AtRelease(s, id) && s.workers[id].Stmt().Insert?
    ensures LogFormed(s.log)
    ensures var e := s.entries[s.workers[id].pc.entry]; e.table == TableIn(Replay(s.log), e.table.name)
  {
    WriterFacts(s, id);
    hide Inv, Replay, AfterInsert, TableOk, Refusal, Missing, HandOk, ResultsOk, WorkerOk, Base, Fold, Formed,
      OutcomeOn, NewTable, LogFormed;
  }

  lemma {:induction false} ReleaseTables(s: State, id: nat)
    requires Inv(s) && AtRelease(s, id)
    ensures TablesOk(StepRelease(s, id))
  {
    var w, s', n := s.workers[id], StepRelease(s, id), s.workers[id].pc.entry;
    InvTables(s);
    hide Inv, Replay, LogFormed, TablesOk, Freed;
    ReleaseEntry(s, id);
    ReleaseFrames(s, id);
    hide StepRelease, Frames, EntryOk;
    EntryChangesTables(s, s', id, n);
  }

  lemma {:induction false} LockFreed(s: State, s': State, id: nat, i: nat)
    requires Frames(s, s', id) && i < |s.entries| && LockOk(s, i) && (s.workers[id].Writes(i) || s.workers[id].Reads(i))
    requires !s'.workers[id].Writes(i) && !s'.workers[id].Reads(i)
    requires
      if s.workers[id].Writes(i) then s'.entries[i].writer.None? && s'.entries[i].readers == s.entries[i].readers
      else s'.entries[i].writer == s.entries[i].writer && s'.entries[i].readers == s.entries[i].readers - {id}
    ensures LockOk(s', i)
  {
    hide LogExtends, Worker.Writes, Worker.Reads;
  }

  lemma {:induction false} ReleaseLock(s: State, id: nat, i: nat)
    requires Inv(s) && AtRelease(s, id) && i < |s.entries|
    ensures LockOk(StepRelease(s, id), i)
  {
    var w, s' := s.workers[id], StepRelease(s, id);
    ReleaseFrames(s, id);
    assert LockOk(s, i);
    hide StepRelease, NamesOk, TablesOk, LocksOk, LockOk, ResultsOk, WorkerOk, Frames, Refusal, Missing;
    if i != w.pc.entry {
      LockStays(s, s', i, id);
    } else {
      LockFreed(s, s', id, i);
    }
  }

  lemma {:induction false} ReleaseKeeps(s: State, id: nat)
    requires Inv(s) && AtRelease(s, id)
    ensures Inv(StepRelease(s, id))
  {
    var s' := StepRelease(s, id);
    ReleaseHand(s, id);
    ReleaseTables(s, id);
    ReleaseFrames(s, id);
    hide StepRelease, NamesOk, TablesOk, ResultsOk, WorkerOk, Frames, Refusal, Missing, LockOk;
    NamesStay(s, s', id);
    forall i | 0 <= i < |s'.entries| ensures LockOk(s', i) {
      ReleaseLock(s, id, i);
    }
    assert LocksOk(s') by {
      assert forall k :: 0 <= k < |s.workers| ==> s'.workers[k].HoldsMutex() == s.workers[k].HoldsMutex();
    }
    hide LocksOk;
    OthersKeep(s, s', id);
  }

  // ---------- Every schedule ----------

  lemma {:induction false} StepKeeps(s: State, id: nat)
    requires Inv(s) && id < |s.workers| && Enabled(s, id)
    ensures Inv(Step(s, id))
  {
    var w := s.workers[id];
    StepReady(s, id);
    assert WorkerOk(s, w);
    hide Inv, WorkerOk, Missing, Refusal, Lookup;
    match w.pc
    case Idle => if Refusal(w.Stmt()).Some? { RefuseKeeps(s, id); } else { NotDelete(w.Stmt()); LockKeeps(s, id); }
    case Searching =>
      if Lookup(s.entries, Target(w.Stmt())).Some? { FoundKeeps(s, id); }
      else if Missing(w.Stmt()).Some? { MissingKeeps(s, id); }
      else { CreateNextKeeps(s, id); }
    case Creating => CreateKeeps(s, id);
    case Leaving(found, _) => if found.Some? { LeaveKeeps(s, id); } else { GiveUpKeeps(s, id); }
    case Waiting(_) => AcquireKeeps(s, id);
    case Running(_, frame, _) =>
      if frame.Done? { ReleaseKeeps(s, id); }
      else if w.Stmt().Insert? { InsertBodyKeeps(s, id); }
      else { SelectBodyKeeps(s, id); }
  }

  lemma NotDelete(stmt: Statement)
    requires Refusal(stmt).None?
    ensures !stmt.Delete?
  {
  }

  ghost predicate ScriptsFormed(scripts: seq<seq<Statement>>) {
    forall k :: 0 <= k < |scripts| ==> forall stmt <- scripts[k] :: Formed(stmt)
  }

  lemma InitOk(scripts: seq<seq<Statement>>)
    requires ScriptsFormed(scripts)
    ensures Inv(Init(scripts))
  {
  }

  /** Workers with these scripts, after the steps of a schedule; naming a worker that cannot step
      has no effect. */
  ghost function Run(scripts: seq<seq<Statement>>, schedule: seq<nat>): (s: State)
    requires ScriptsFormed(scripts)
    ensures Inv(s) && |s.workers| == |scripts|
    ensures forall k :: 0 <= k < |scripts| ==> s.workers[k].script == scripts[k]
  {
    if schedule == [] then
      InitOk(scripts);
      Init(scripts)
    else
      var s, id := Run(scripts, schedule[..|schedule| - 1]), schedule[|schedule| - 1];
      if id < |s.workers| && Enabled(s, id) then
        StepKeeps(s, id);
        StepScripts(s, id);
        Step(s, id)
      else s
  }

  lemma {:induction false} StepScripts(s: State, id: nat)
    requires Inv(s) && id < |s.workers| && Enabled(s, id)
    ensures |Step(s, id).workers| == |s.workers|
    ensures forall k :: 0 <= k < |s.workers| ==> Step(s, id).workers[k].script == s.workers[k].script
  {
    StepReady(s, id);
    hide Inv, Missing, Refusal, Lookup, InsertStep, SelectStep;
  }

  /** Whatever the schedule: every result that has come is the one its statement gets when the
      statements of the log run one at a time in the log's order, and each worker's statements have
      their places there in the order it gave them. */
  lemma {:induction false} ResultsAreSerial(scripts: seq<seq<Statement>>, schedule: seq<nat>, id: nat, j: nat)
    requires ScriptsFormed(scripts) && id < |scripts|
    requires j < |Run(scripts, schedule).workers[id].done|
    ensures var s := Run(scripts, schedule);
      var (at, o) := s.workers[id].done[j];
      LogFormed(s.log) && j < |scripts[id]| && at < |s.log| && s.log[at] == LogItem(id, scripts[id][j]) &&
      o == ExecOutcome(Replay(s.log[..at]), scripts[id][j]) &&
      forall k :: 0 <= k < j ==> s.workers[id].done[k].0 < at
  {
    var s := Run(scripts, schedule);
    assert ResultsOk(s, id) && DoneOk(s, id, j);
    hide Inv, Run, Replay;
  }

  /** No worker has anything left to do. */
  predicate Finished(s: State) {
    forall k :: 0 <= k < |s.workers| ==> !s.workers[k].Busy()
  }

  /** When all is done, the log is an interleaving of exactly the scripts, and the registry has
      exactly the tables that running it one statement at a time makes, each once. */
  lemma {:induction false} FinishedIsSerial(scripts: seq<seq<Statement>>, schedule: seq<nat>)
    requires ScriptsFormed(scripts) && Finished(Run(scripts, schedule))
    ensures var s := Run(scripts, schedule);
      LogFormed(s.log) && s.mutex.None? &&
      (forall id :: 0 <= id < |scripts| ==> Mine(s.log, id) == scripts[id] && |s.workers[id].done| == |scripts[id]|) &&
      (forall i :: 0 <= i < |s.entries| ==>
        s.entries[i].table.name in Replay(s.log) && s.entries[i].table == Replay(s.log)[s.entries[i].table.name]) &&
      (forall name <- Replay(s.log) :: HasEntry(s, name)) &&
      (forall i, k :: 0 <= i < k < |s.entries| ==> s.entries[i].table.name != s.entries[k].table.name) &&
      (forall i :: 0 <= i < |s.entries| ==> s.entries[i].writer.None? && s.entries[i].readers == {})
  {
    var s := Run(scripts, schedule);
    hide Run, Replay;
    forall id | 0 <= id < |scripts| ensures Mine(s.log, id) == scripts[id] && |s.workers[id].done| == |scripts[id]| {
      FinishedWorker(s, id);
    }
    forall i | 0 <= i < |s.entries|
      ensures s.entries[i].writer.None? && s.entries[i].readers == {}
      ensures s.entries[i].table.name in Replay(s.log) && s.entries[i].table == Replay(s.log)[s.entries[i].table.name]
    {
      FinishedEntry(s, i);
    }
    MutexHolderBusy(s);
    hide *;
    hide Inv, WorkerOk, ResultsOk, EntryOk, Accounted, LockOk;
  }

  lemma {:induction false} FinishedWorker(s: State, id: nat)
    requires Inv(s) && id < |s.workers| && !s.workers[id].Busy()
    ensures Mine(s.log, id) == s.workers[id].script && |s.workers[id].done| == |s.workers[id].script|
  {
    var w := s.workers[id];
    assert WorkerOk(s, w) && ResultsOk(s, id);
    hide Inv, Mine, DonesOk, HandOk, Formed, Refusal;
    assert w.script[..|w.script|] == w.script;
  }

  lemma {:induction false} FinishedEntry(s: State, i: nat)
    requires Inv(s) && Finished(s) && i < |s.entries|
    ensures s.entries[i].writer.None? && s.entries[i].readers == {}
    ensures s.entries[i].table.name in Replay(s.log) && s.entries[i].table == Replay(s.log)[s.entries[i].table.name]
  {
    assert LockOk(s, i) && EntryOk(s, i) && Accounted(s, i);
    hide Replay, WorkerOk, ResultsOk, NamesOk, InsertFrameOk, AfterInsert;
    forall k ensures k !in s.entries[i].readers {
      ReaderBusy(s, i, k);
    }
  }

  lemma {:induction false} ReaderBusy(s: State, i: nat, k: nat)
    requires i < |s.entries| && LockOk(s, i)
    ensures k in s.entries[i].readers ==> k < |s.workers| && s.workers[k].Busy()
  {
    assert k in s.entries[i].readers ==> k < |s.workers| && s.workers[k].Reads(i);
  }

  lemma {:induction false} MutexHolderBusy(s: State)
    requires Inv(s)
    ensures s.mutex.Some? ==> s.mutex.value < |s.workers| && s.workers[s.mutex.value].Busy()
  {
    hide NamesOk, TablesOk, ResultsOk, Refusal, Missing;
    assert s.mutex.Some? ==> s.workers[s.mutex.value].HoldsMutex() && WorkerOk(s, s.workers[s.mutex.value]);
  }

  /** Mutual exclusion: a worker that writes a table holds its lock alone. */
  lemma {:induction false} WritersExclude(
      scripts: seq<seq<Statement>>, schedule: seq<nat>, writer: nat, other: nat, i: nat)
    requires ScriptsFormed(scripts) && writer < |scripts| && other < |scripts|
    requires i < |Run(scripts, schedule).entries|
    requires Run(scripts, schedule).workers[writer].Writes(i) && Run(scripts, schedule).workers[other].Holds(i)
    ensures other == writer
  {
    var s := Run(scripts, schedule);
    if other != writer {
      ReaderAlone(s, other, writer, i);
      assert false;
    }
  }

  /** One registry entry a name, case folded, and none that no INSERT has asked for: the statements
      of the log that ran, or one on its way to the entry's lock. */
  lemma {:induction false} EntriesAccounted(scripts: seq<seq<Statement>>, schedule: seq<nat>, i: nat)
    requires ScriptsFormed(scripts) && i < |Run(scripts, schedule).entries|
    ensures var s := Run(scripts, schedule);
      LogFormed(s.log) &&
      (forall k :: 0 <= k < |s.entries| && k != i ==> !SameName(s.entries[k].table.name, s.entries[i].table.name)) &&
      ((exists at :: 0 <= at < |s.log| && Made(s.log[at].stmt, s.entries[i].table.name)) ||
       exists id ::
         0 <= id < |s.workers| && Owes(s.workers[id], i) && Made(s.workers[id].Stmt(), s.entries[i].table.name))
  {
    var s := Run(scripts, schedule);
    assert NamesOk(s) && Accounted(s, i);
    forall k | 0 <= k < |s.entries| ensures NameOk(s.entries[k].table.name) {
    }
    hide Inv, Run, Replay;
    var name := s.entries[i].table.name;
    if name in Replay(s.log) {
      MadeByInsert(s.log, name);
    } else {
      var id :| 0 <= id < |s.workers| && Owes(s.workers[id], i);
      OwedName(s, id, i);
    }
  }

  /** An INSERT into the table with this folded name, not refused. */
  predicate Made(stmt: Statement, name: string) {
    stmt.Insert? && Fold(Target(stmt)) == name
  }

  lemma {:induction false} OwedName(s: State, id: nat, i: nat)
    requires Inv(s) && id < |s.workers| && i < |s.entries| && Owes(s.workers[id], i)
    ensures Made(s.workers[id].Stmt(), s.entries[i].table.name)
  {
    assert WorkerOk(s, s.workers[id]);
    hide Inv, Refusal, Missing, Fold;
  }

  lemma {:induction false} MadeByInsert(log: seq<LogItem>, name: string)
    requires LogFormed(log) && name in Replay(log)
    ensures exists at :: 0 <= at < |log| && Made(log[at].stmt, name)
  {
    if log != [] {
      var front, stmt := log[..|log| - 1], log[|log| - 1].stmt;
      if !Made(stmt, name) {
        ExecElsewhere(Replay(front), stmt, name);
        MadeByInsert(front, name);
        var at :| 0 <= at < |front| && Made(front[at].stmt, name);
        assert log[at] == front[at];
      }
    }
  }

  /** Worker `other` keeps worker `id` from its table: it writes it, or holds it at all and `id` is to write. */
  predicate InTheWay(s: State, id: nat, other: nat)
    requires id < |s.workers| && s.workers[id].Busy() && s.workers[id].pc.Waiting? && other < |s.workers|
  {
    var i := s.workers[id].pc.entry;
    s.workers[other].Writes(i) || (s.workers[id].Stmt().Insert? && s.workers[other].Holds(i))
  }

  /** A worker that waits for its table waits for a writer, or for any holder if it is to write itself;
      readers share. One that is to lock the registry waits for whoever has that. No other waits. */
  lemma {:induction false} WaitsFor(scripts: seq<seq<Statement>>, schedule: seq<nat>, id: nat)
    requires ScriptsFormed(scripts) && id < |scripts| && Run(scripts, schedule).workers[id].Busy()
    ensures var s, w := Run(scripts, schedule), Run(scripts, schedule).workers[id];
      match w.pc
      case Waiting(_) => Enabled(s, id) <==> forall k :: 0 <= k < |s.workers| ==> !InTheWay(s, id, k)
      case Idle =>
        Enabled(s, id) <==> Refusal(w.Stmt()).Some? || forall k :: 0 <= k < |s.workers| ==> !s.workers[k].HoldsMutex()
      case _ => Enabled(s, id)
  {
    hide *;
    var s := Run(scripts, schedule);
    match s.workers[id].pc
    case Waiting(_) => TableWait(s, id);
    case Idle => RegistryWait(s, id);
    case _ => NoWait(s, id);
  }

  lemma NoWait(s: State, id: nat)
    requires id < |s.workers| && s.workers[id].Busy() && !s.workers[id].pc.Waiting? && !s.workers[id].pc.Idle?
    ensures Enabled(s, id)
  {
  }

  lemma {:induction false} RegistryWait(s: State, id: nat)
    requires Inv(s) && id < |s.workers| && s.workers[id].Busy() && s.workers[id].pc.Idle?
    ensures Enabled(s, id) <==>
      Refusal(s.workers[id].Stmt()).Some? || forall k :: 0 <= k < |s.workers| ==> !s.workers[k].HoldsMutex()
  {
    assert LocksOk(s);
    hide Inv, Refusal, LockOk, Worker.HoldsMutex;
  }

  lemma {:induction false} TableWait(s: State, id: nat)
    requires Inv(s) && id < |s.workers| && s.workers[id].Busy() && s.workers[id].pc.Waiting?
    ensures Enabled(s, id) <==> forall k :: 0 <= k < |s.workers| ==> !InTheWay(s, id, k)
  {
    var i := s.workers[id].pc.entry;
    WaiterBound(s, id);
    hide Inv, LockOk, Worker.Writes, Worker.Reads, Worker.Holds, InTheWay;
    HeldBy(s, i);
    forall k | 0 <= k < |s.workers|
      ensures InTheWay(s, id, k) <==>
        s.workers[k].Writes(i) || (s.workers[id].Stmt().Insert? && s.workers[k].Reads(i))
    {
      WayIs(s, id, k);
    }
    if !Enabled(s, id) {
      if s.entries[i].writer.Some? {
        var k :| 0 <= k < |s.workers| && s.workers[k].Writes(i);
        assert InTheWay(s, id, k);
      } else {
        var k :| 0 <= k < |s.workers| && s.workers[k].Reads(i);
        assert InTheWay(s, id, k);
      }
    }
  }

  lemma WayIs(s: State, id: nat, k: nat)
    requires id < |s.workers| && s.workers[id].Busy() && s.workers[id].pc.Waiting? && k < |s.workers|
    ensures var i := s.workers[id].pc.entry;
      InTheWay(s, id, k) <==> s.workers[k].Writes(i) || (s.workers[id].Stmt().Insert? && s.workers[k].Reads(i))
  {
    HoldsIs(s.workers[k], s.workers[id].pc.entry);
    hide Worker.Writes, Worker.Reads, Worker.Holds;
  }

  lemma {:induction false} WaiterBound(s: State, id: nat)
    requires Inv(s) && id < |s.workers| && s.workers[id].pc.Waiting?
    ensures s.workers[id].pc.entry < |s.entries| && LockOk(s, s.workers[id].pc.entry)
  {
    assert WorkerOk(s, s.workers[id]);
    hide LockOk, NamesOk, TablesOk, ResultsOk, Refusal, Missing;
  }

  lemma {:induction false} HeldBy(s: State, i: nat)
    requires i < |s.entries| && LockOk(s, i)
    ensures s.entries[i].writer.None? <==> forall k :: 0 <= k < |s.workers| ==> !s.workers[k].Writes(i)
    ensures s.entries[i].readers == {} <==> forall k :: 0 <= k < |s.workers| ==> !s.workers[k].Reads(i)
    ensures forall k :: 0 <= k < |s.workers| ==>
      (s.workers[k].Holds(i) <==> s.workers[k].Writes(i) || s.workers[k].Reads(i))
  {
    var e := s.entries[i];
    hide Worker.Writes, Worker.Reads;
    if e.readers != {} {
      var k :| k in e.readers;
      assert s.workers[k].Reads(i);
    }
    if e.writer.Some? {
      assert s.workers[e.writer.value].Writes(i);
    }
    forall k | 0 <= k < |s.workers|
      ensures s.workers[k].Holds(i) <==> s.workers[k].Writes(i) || s.workers[k].Reads(i)
    {
      HoldsIs(s.workers[k], i);
    }
  }

  lemma HoldsIs(w: Worker, i: nat)
    ensures w.Holds(i) <==> w.Writes(i) || w.Reads(i)
  {
  }

  /** No deadlock: while some worker has something left to do, some worker can step. */
  lemma {:induction false} SomeoneCanStep(scripts: seq<seq<Statement>>, schedule: seq<nat>) returns (id: nat)
    requires ScriptsFormed(scripts) && !Finished(Run(scripts, schedule))
    ensures id < |scripts| && Enabled(Run(scripts, schedule), id)
  {
    var s := Run(scripts, schedule);
    hide Run, Inv, Enabled;
    var k :| 0 <= k < |s.workers| && s.workers[k].Busy();
    if s.mutex.Some? {
      id := MutexHolderSteps(s);
    } else {
      id := BusySteps(s, k);
    }
  }

  lemma {:induction false} MutexHolderSteps(s: State) returns (id: nat)
    requires Inv(s) && s.mutex.Some?
    ensures id < |s.workers| && Enabled(s, id)
  {
    id := s.mutex.value;
    MutexHolderBusy(s);
    hide NamesOk, TablesOk, ResultsOk, WorkerOk, Refusal, LockOk;
    assert s.workers[id].HoldsMutex();
  }

  lemma {:induction false} BusySteps(s: State, k: nat) returns (id: nat)
    requires Inv(s) && s.mutex.None? && k < |s.workers| && s.workers[k].Busy()
    ensures id < |s.workers| && Enabled(s, id)
  {
    if s.workers[k].pc.Waiting? {
      hide NamesOk, TablesOk, ResultsOk, LocksOk, Enabled, Refusal, Missing, Formed;
      assert WorkerOk(s, s.workers[k]);
      id := WaiterOrHolder(s, k);
    } else {
      hide Inv;
      id := k;
    }
  }

  /** One that waits for a lock can take it, or else whoever holds it can step. */
  lemma {:induction false} WaiterOrHolder(s: State, k: nat) returns (id: nat)
    requires LocksOk(s) && k < |s.workers| && s.workers[k].Busy() && s.workers[k].pc.Waiting?
    requires s.workers[k].pc.entry < |s.entries|
    ensures id < |s.workers| && Enabled(s, id)
  {
    var i := s.workers[k].pc.entry;
    assert LockOk(s, i);
    if s.entries[i].writer.Some? {
      id := s.entries[i].writer.value;
      assert s.workers[id].Writes(i);
    } else if s.entries[i].readers != {} {
      id :| id in s.entries[i].readers;
      assert s.workers[id].Reads(i);
    } else {
      id := k;
    }
  }
}
