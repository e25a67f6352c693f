/**
Every step of the workers of Sessions brings them nearer to the end: what is left to do, before the
table locks and under them, goes down. So every fair schedule finishes.
*/
module Progress {
  import opened Wrappers
  import opened Statements
  import opened Tables
  import opened Comparing
  import opened Sessions
  import opened Interleaving

  function Sum(xs: seq<nat>): nat {
    if xs == [] then 0 else xs[0] + Sum(xs[1..])
  }

  lemma {:induction false} SumChanges(xs: seq<nat>, ys: seq<nat>, i: nat)
    requires |xs| == |ys| && i < |xs| && forall k :: 0 <= k < |xs| && k != i ==> ys[k] == xs[k]
    ensures Sum(ys) + xs[i] == Sum(xs) + ys[i]
  {
    if i == 0 {
      assert ys[1..] == xs[1..];
    } else {
      SumChanges(xs[1..], ys[1..], i - 1);
    }
  }

  // ---------- What is left ----------

  function Place(pc: Pc): nat {
    match pc
    case Idle => 0
    case Searching => 1
    case Creating => 2
    case Leaving(_, _) => 3
    case Waiting(_) => 4
    case Running(_, _, _) => 5
  }

  /** A bound on the steps a worker has left, those under its table's lock not counted. */
  function StepsLeft(w: Worker): nat
    requires |w.done| <= |w.script| && (w.pc != Idle ==> w.Busy())
  {
    7 * (|w.script| - |w.done|) - Place(w.pc)
  }

  /** A bound on the steps a statement has left under its table's lock, when the table has that many rows. */
  function FrameLeft(f: Frame, rows: nat): int {
    match f
    case Start => 4 + 2 * rows
    case Schemed => 3
    case Indexed => 2
    case Counted => 1
    case Scanning(_, slots, i) => 2 + 2 * (rows - i) + |slots|
    case Copying(_, slots, out) => 1 + |slots| - |out|
    case Done(_) => 0
  }

  function BodyLeft(entries: seq<Entry>, w: Worker): nat {
    if w.pc.Running? && w.pc.entry < |entries| then
      var left := FrameLeft(w.pc.frame, |entries[w.pc.entry].table.rows|);
      if left < 0 then 0 else left
    else 0
  }

  ghost predicate Sane(s: State) {
    forall k :: 0 <= k < |s.workers| ==> WorkerOk(s, s.workers[k])
  }

  ghost function OutsideEach(s: State): seq<nat>
    requires Sane(s)
  {
    seq(|s.workers|, k requires 0 <= k < |s.workers| => assert WorkerOk(s, s.workers[k]); StepsLeft(s.workers[k]))
  }

  ghost function InsideEach(s: State): seq<nat> {
    seq(|s.workers|, k requires 0 <= k < |s.workers| => BodyLeft(s.entries, s.workers[k]))
  }

  /** What all workers have left outside the table locks, and what under them. */
  ghost function Outside(s: State): nat
    requires Inv(s)
  {
    Sum(OutsideEach(s))
  }

  ghost function Inside(s: State): nat {
    Sum(InsideEach(s))
  }

  /** Less is left: outside, or as much outside and less under the locks. */
  ghost predicate Nearer(s': State, s: State)
    requires Inv(s) && Inv(s')
  {
    Outside(s') < Outside(s) || (Outside(s') == Outside(s) && Inside(s') < Inside(s))
  }

  // ---------- Every step ----------

  ghost predicate BodyStep(s: State, id: nat)
    requires id < |s.workers|
  {
    s.workers[id].pc.Running? && !s.workers[id].pc.frame.Done?
  }

  /** The worker has gone on: it is through with its statement, or further on the way to its table. */
  predicate GoneOn(w: Worker, w': Worker) {
    w'.script == w.script &&
    ((|w'.done| == |w.done| + 1 && w'.pc.Idle?) || (w'.done == w.done && Place(w'.pc) > Place(w.pc)))
  }

  ghost predicate Moves(s: State, s': State, id: nat)
    requires id < |s.workers|
  {
    |s'.workers| == |s.workers| && (forall k :: 0 <= k < |s.workers| && k != id ==> s'.workers[k] == s.workers[k]) &&
    var w, w' := s.workers[id], s'.workers[id];
    if BodyStep(s, id) then w'.script == w.script && w'.done == w.done && w'.pc.Running? else GoneOn(w, w')
  }

  lemma {:induction false} StepMoves(s: State, id: nat)
    requires Inv(s) && id < |s.workers| && Enabled(s, id)
    ensures Moves(s, Step(s, id), id)
  {
    StepReady(s, id);
    hide Inv, Missing, Refusal, Lookup, StepIdle, StepSearch, StepCreate, StepLeave, StepAcquire, StepBody, StepRelease,
      Moves, TableOk, SelectFrameOk, Formed;
    match s.workers[id].pc
    case Idle => IdleMoves(s, id);
    case Searching => SearchMoves(s, id);
    case Creating => CreateMoves(s, id);
    case Leaving(_, _) => LeaveMoves(s, id);
    case Waiting(_) => AcquireMoves(s, id);
    case Running(_, frame, _) => if frame.Done? { ReleaseMoves(s, id); } else { BodyMoves(s, id); }
  }

  lemma IdleMoves(s: State, id: nat)
    requires id < |s.workers| && s.workers[id].Busy() && s.workers[id].pc.Idle?
    ensures Moves(s, StepIdle(s, id), id)
  {
    hide Refusal, Missing, Lookup;
  }

  lemma SearchMoves(s: State, id: nat)
    requires id < |s.workers| && s.workers[id].Busy() && s.workers[id].pc.Searching?
    ensures Moves(s, StepSearch(s, id), id)
  {
    hide Refusal, Missing, Lookup;
  }

  lemma CreateMoves(s: State, id: nat)
    requires id < |s.workers| && s.workers[id].Busy() && s.workers[id].pc.Creating?
    ensures Moves(s, StepCreate(s, id), id)
  {
    hide Refusal, Missing, Lookup;
  }

  lemma LeaveMoves(s: State, id: nat)
    requires id < |s.workers| && s.workers[id].Busy() && s.workers[id].pc.Leaving?
    requires s.workers[id].pc.found.None? ==> Missing(s.workers[id].Stmt()).Some?
    ensures Moves(s, StepLeave(s, id), id)
  {
    hide Refusal, Missing, Lookup;
  }

  lemma AcquireMoves(s: State, id: nat)
    requires id < |s.workers| && s.workers[id].Busy() && s.workers[id].pc.Waiting?
    requires s.workers[id].pc.entry < |s.entries|
    ensures Moves(s, StepAcquire(s, id), id)
  {
    hide Refusal, Missing, Lookup;
  }

  lemma ReleaseMoves(s: State, id: nat)
    requires id < |s.workers| && s.workers[id].Busy() && s.workers[id].pc.Running?
    requires s.workers[id].pc.frame.Done? && s.workers[id].pc.entry < |s.entries|
    ensures Moves(s, StepRelease(s, id), id)
  {
    hide Refusal, Missing, Lookup;
  }

  lemma BodyMoves(s: State, id: nat)
    requires id < |s.workers| && s.workers[id].Busy() && s.workers[id].pc.Running?
    requires !s.workers[id].pc.frame.Done? && s.workers[id].pc.entry < |s.entries|
    requires !s.workers[id].Stmt().Delete? && Formed(s.workers[id].Stmt())
    requires
      var w, t := s.workers[id], s.entries[s.workers[id].pc.entry].table;
      if w.Stmt().Select? then TableOk(t) && SelectFrameOk(t, w.Stmt().select, w.pc.frame)
      else |t.kinds| == |t.columns| && t.nextId >= 0
    ensures Moves(s, StepBody(s, id), id)
  {
    hide Refusal, Missing, Lookup, InsertStep, SelectStep, TableOk, SelectFrameOk;
  }

  /** A step that is not one of a statement's body leaves its worker less outside the locks. */
  lemma {:induction false} OutsideStep(s: State, id: nat)
    requires Inv(s) && id < |s.workers| && Enabled(s, id)
    ensures Inv(Step(s, id))
    ensures var s' := Step(s, id);
      if BodyStep(s, id) then Outside(s') == Outside(s) else Outside(s') < Outside(s)
  {
    StepKeeps(s, id);
    StepMoves(s, id);
    var s' := Step(s, id);
    EachOk(s, id);
    EachOk(s', id);
    var xs, ys := OutsideEach(s), OutsideEach(s');
    assert xs[id] == StepsLeft(s.workers[id]) && ys[id] == StepsLeft(s'.workers[id]);
    hide Inv, Step, Enabled, WorkerOk, Sane;
    SumChanges(xs, ys, id);
  }

  lemma EachOk(s: State, id: nat)
    requires Inv(s) && id < |s.workers|
    ensures Sane(s) && WorkerOk(s, s.workers[id])
  {
    hide WorkerOk, NamesOk, LocksOk, TablesOk, ResultsOk;
  }

  lemma {:induction false} SelectLess(t: Table, stmt: SelectStatement, f: Frame)
    requires TableOk(t) && SelectFrameOk(t, stmt, f) && !f.Done?
    ensures 0 <= FrameLeft(SelectStep(t, stmt, f), |t.rows|) < FrameLeft(f, |t.rows|)
  {
    hide TableOk, Projection, FindColumn, CompareAt, Matching, ScanResult, AllComparable, OpHolds, IndexKey;
  }

  lemma InsertLess(t: Table, stmt: InsertStatement, f: Frame)
    requires stmt.Even() && |t.kinds| == |t.columns| && t.nextId >= 0
    requires f.Start? || f.Schemed? || f.Indexed? || f.Counted?
    ensures var (t', f') := InsertStep(t, stmt, f);
      0 <= FrameLeft(f', |t'.rows|) < FrameLeft(f, |t.rows|)
  {
    hide InsertError;
  }

  /** A step of a statement's body leaves less inside: its own frame is further on, and no other worker
      is under the lock of a table that changes. */
  lemma {:induction false} InsideStep(s: State, id: nat)
    requires Inv(s) && id < |s.workers| && Enabled(s, id) && BodyStep(s, id)
    ensures Inside(Step(s, id)) < Inside(s)
  {
    var s' := Step(s, id);
    StepMoves(s, id);
    BodyLess(s, id);
    forall k | 0 <= k < |s.workers| && k != id
      ensures BodyLeft(s'.entries, s'.workers[k]) == BodyLeft(s.entries, s.workers[k])
    {
      OtherBody(s, id, k);
    }
    var xs, ys := InsideEach(s), InsideEach(s');
    assert xs[id] == BodyLeft(s.entries, s.workers[id]) && ys[id] == BodyLeft(s'.entries, s'.workers[id]);
    hide Inv, Step, Enabled, BodyLeft, BodyStep;
    SumChanges(xs, ys, id);
  }

  lemma {:induction false} BodyLess(s: State, id: nat)
    requires Inv(s) && id < |s.workers| && Enabled(s, id) && BodyStep(s, id)
    ensures BodyLeft(Step(s, id).entries, Step(s, id).workers[id]) < BodyLeft(s.entries, s.workers[id])
  {
    StepReady(s, id);
    var w := s.workers[id];
    var e := s.entries[w.pc.entry];
    if w.Stmt().Select? {
      SelectLess(e.table, w.Stmt().select, w.pc.frame);
    } else {
      WriterFrame(s, id);
      InsertLess(e.table, w.Stmt().insert, w.pc.frame);
    }
    hide Inv, Refusal, Missing, Lookup, InsertStep, SelectStep, FrameLeft, TableOk, SelectFrameOk;
    assert Step(s, id) == StepBody(s, id);
  }

  lemma {:induction false} WriterFrame(s: State, id: nat)
    requires Inv(s) && id < |s.workers| && Enabled(s, id) && BodyStep(s, id) && s.workers[id].Stmt().Insert?
    ensures var f := s.workers[id].pc.frame; f.Start? || f.Schemed? || f.Indexed? || f.Counted?
  {
    WriterFacts(s, id);
    hide Inv, Enabled, Replay, AfterInsert, TableOk, Base;
  }

  lemma {:induction false} OtherBody(s: State, id: nat, k: nat)
    requires Inv(s) && id < |s.workers| && Enabled(s, id) && BodyStep(s, id) && k < |s.workers| && k != id
    ensures k < |Step(s, id).workers|
    ensures BodyLeft(Step(s, id).entries, Step(s, id).workers[k]) == BodyLeft(s.entries, s.workers[k])
  {
    StepMoves(s, id);
    BodyEntries(s, id);
    if s.workers[id].Stmt().Insert? {
      NotBeside(s, id, k);
    }
    hide Inv, Step, Enabled, FrameLeft;
  }

  lemma {:induction false} NotBeside(s: State, id: nat, k: nat)
    requires Inv(s) && id < |s.workers| && Enabled(s, id) && BodyStep(s, id) && k < |s.workers| && k != id
    requires s.workers[id].Stmt().Insert? && s.workers[id].pc.entry < |s.entries|
    ensures s.workers[k].pc.Running? ==> s.workers[k].pc.entry != s.workers[id].pc.entry
  {
    EachOk(s, k);
    assert LocksOk(s);
    hide Inv, LocksOk, Refusal, Missing;
    var i := s.workers[id].pc.entry;
    if s.workers[k].pc.Running? && s.workers[k].pc.entry == i {
      assert s.workers[k].Holds(i) && s.workers[id].Writes(i);
      ReaderAlone(s, k, id, i);
    }
  }

  /** Of the registry a body's step changes its own entry, and that only if it writes. */
  lemma {:induction false} BodyEntries(s: State, id: nat)
    requires Inv(s) && id < |s.workers| && Enabled(s, id) && BodyStep(s, id)
    ensures var i, s' := s.workers[id].pc.entry, Step(s, id);
      i < |s.entries| == |s'.entries| &&
      (forall k :: 0 <= k < |s.entries| && k != i ==> s'.entries[k] == s.entries[k]) &&
      (s.workers[id].Stmt().Select? ==> s'.entries == s.entries) && !s.workers[id].Stmt().Delete?
  {
    StepReady(s, id);
    hide Inv, Missing, Refusal, Lookup, InsertStep, SelectStep;
  }

  /** Every step of every worker leaves less to do. */
  lemma {:induction false} StepAdvances(s: State, id: nat)
    requires Inv(s) && id < |s.workers| && Enabled(s, id)
    ensures Inv(Step(s, id)) && Nearer(Step(s, id), s)
  {
    OutsideStep(s, id);
    if BodyStep(s, id) {
      InsideStep(s, id);
    }
    hide Inv, Step, Enabled, Outside, Inside, BodyStep;
  }

  // ---------- Fair schedules ----------

  /** The first n turns of an endless schedule. */
  ghost function Turns(pick: nat -> nat, n: nat): seq<nat> {
    seq(n, i requires 0 <= i < n => pick(i))
  }

  ghost predicate PicksFrom(pick: nat -> nat, n: nat, id: nat) {
    exists m: nat :: n <= m && pick(m) == id
  }

  /** Every worker has its turn again and again, whether it can step then or not. */
  ghost predicate Fair(pick: nat -> nat, workers: nat) {
    forall n: nat, id: nat :: id < workers ==> PicksFrom(pick, n, id)
  }

  ghost function StateAt(scripts: seq<seq<Statement>>, pick: nat -> nat, n: nat): (s: State)
    requires ScriptsFormed(scripts)
    ensures Inv(s) && |s.workers| == |scripts|
  {
    Run(scripts, Turns(pick, n))
  }

  lemma {:induction false} NextState(scripts: seq<seq<Statement>>, pick: nat -> nat, n: nat)
    requires ScriptsFormed(scripts)
    ensures var s := StateAt(scripts, pick, n);
      StateAt(scripts, pick, n + 1) ==
        if pick(n) < |s.workers| && Enabled(s, pick(n)) then Step(s, pick(n)) else s
  {
    var more := Turns(pick, n + 1);
    assert more[..n] == Turns(pick, n) && more[n] == pick(n);
    hide *;
    RunMore(scripts, more);
    StateIs(scripts, pick, n);
    StateIs(scripts, pick, n + 1);
  }

  lemma StateIs(scripts: seq<seq<Statement>>, pick: nat -> nat, n: nat)
    requires ScriptsFormed(scripts)
    ensures StateAt(scripts, pick, n) == Run(scripts, Turns(pick, n)) && |Turns(pick, n)| == n
  {
    hide Run, Inv;
  }

  lemma RunMore(scripts: seq<seq<Statement>>, more: seq<nat>)
    requires ScriptsFormed(scripts) && more != []
    ensures var s, id := Run(scripts, more[..|more| - 1]), more[|more| - 1];
      Run(scripts, more) == if id < |s.workers| && Enabled(s, id) then Step(s, id) else s
  {
    hide Inv, Step, Enabled, ScriptsFormed;
  }

  /** If a worker can step and has its turn at m, then by then someone has stepped. */
  lemma {:induction false} SomeoneSteps(scripts: seq<seq<Statement>>, pick: nat -> nat, n: nat, m: nat, id: nat)
    returns (next: nat)
    requires ScriptsFormed(scripts) && n <= m && pick(m) == id && id < |scripts|
    requires Enabled(StateAt(scripts, pick, n), id)
    ensures n < next && Nearer(StateAt(scripts, pick, next), StateAt(scripts, pick, n))
    decreases m - n
  {
    hide *;
    var s := StateAt(scripts, pick, n);
    NextState(scripts, pick, n);
    if pick(n) < |s.workers| && Enabled(s, pick(n)) {
      StepAdvances(s, pick(n));
      next := n + 1;
    } else {
      next := SomeoneSteps(scripts, pick, n + 1, m, id);
    }
  }

  /** Whatever the scripts: under every schedule that gives each worker its turn again and again, there
      comes a time when all statements are done. What is then in the tables, FinishedIsSerial says. */
  lemma {:induction false} FairFinishes(scripts: seq<seq<Statement>>, pick: nat -> nat) returns (n: nat)
    requires ScriptsFormed(scripts) && Fair(pick, |scripts|)
    ensures Finished(Run(scripts, Turns(pick, n)))
  {
    n := FinishesFrom(scripts, pick, 0);
    hide Run, Finished;
  }

  lemma {:induction false} FinishesFrom(scripts: seq<seq<Statement>>, pick: nat -> nat, n: nat)
    returns (last: nat)
    requires ScriptsFormed(scripts) && Fair(pick, |scripts|)
    ensures Finished(StateAt(scripts, pick, last))
    decreases Outside(StateAt(scripts, pick, n)), Inside(StateAt(scripts, pick, n))
  {
    last := n;
    if !Finished(StateAt(scripts, pick, n)) {
      var id := SomeoneCanStep(scripts, Turns(pick, n));
      assert PicksFrom(pick, n, id);
      var m: nat :| n <= m && pick(m) == id;
      var next := SomeoneSteps(scripts, pick, n, m, id);
      last := FinishesFrom(scripts, pick, next);
    }
    hide Inv, Run, Step, Enabled, Outside, Inside, Finished;
  }
}
