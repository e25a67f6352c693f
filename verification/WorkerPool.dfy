/**
The accept loop and the workers of src/server.c around the request queue, as interleaved steps:
the mutex, the condition variable with its signals, broadcasts and spurious wakeups, starting,
shutting down and joining.
*/
module WorkerPool {
  import opened Wrappers
  import opened RequestQueue

  const WORKER_COUNT: nat := 8

  datatype WorkerPc =
    | Entering                    // about to lock the mutex in server_queue_pop
    | Checking                    // holds it, at the test of the wait loop
    | Sleeping                    // in pthread_cond_wait
    | Waking                      // woken; has to lock the mutex again
    | Leaving(got: Option<nat>)   // holds it, about to unlock and return
    | Handling(conn: nat)         // in server_handle_client
    | Exited

  datatype MainPc =
    | Starting
    | Accepting
    | Offering(conn: nat)              // about to lock the mutex in server_queue_push
    | Pushing(conn: nat)               // holds it
    | Unlocking(conn: nat, ok: bool)   // holds it
    | Rejecting(conn: nat)             // about to answer 503
    | Closing                          // about to lock the mutex in server_queue_shutdown
    | Broadcasting                     // holds it
    | Finishing                        // holds it
    | Joining(next: nat)
    | Ended

  datatype Holder = Nobody | Main | Worker(id: nat)

  /** accepted numbers the connections so far; the lists record what has become of them, in order. */
  datatype State = State(
    ring: Ring, mutex: Holder, main: MainPc, workers: seq<WorkerPc>,
    accepted: nat, rejected: seq<nat>, queued: seq<nat>, taken: seq<nat>, handled: seq<nat>)

  function Initial(): State {
    State(EmptyRing(), Nobody, Starting, [], 0, [], [], [], [])
  }

  /** What may happen next: pthread_create, accept, a signal from outside, a step of the main thread
      (with the sleeper its signal wakes, if there is one), a step of a worker, a spurious wakeup. */
  datatype Action =
    | StartWorker | StartFails | Listen
    | Accept | Stop
    | MainSteps(woken: nat)
    | WorkerSteps(id: nat)
    | Spurious(id: nat)

  predicate SomeoneSleeps(s: State) {
    exists k :: 0 <= k < |s.workers| && s.workers[k].Sleeping?
  }

  predicate IsSleeping(s: State, id: nat) {
    id < |s.workers| && s.workers[id].Sleeping?
  }

  predicate Enabled(s: State, a: Action) {
    match a
    case StartWorker => s.main.Starting? && |s.workers| < WORKER_COUNT
    case StartFails => s.main.Starting? && |s.workers| < WORKER_COUNT
    case Listen => s.main.Starting? && |s.workers| == WORKER_COUNT
    case Accept => s.main.Accepting?
    case Stop => s.main.Accepting?
    case MainSteps(woken) =>
      (match s.main
       case Starting => false
       case Accepting => false
       case Offering(_) => s.mutex.Nobody?
       case Pushing(_) => SomeoneSleeps(s) ==> IsSleeping(s, woken)
       case Closing => s.mutex.Nobody?
       case Joining(next) => next < |s.workers| ==> s.workers[next].Exited?
       case Ended => false
       case _ => true)
    case WorkerSteps(id) =>
      id < |s.workers| &&
      (match s.workers[id]
       case Entering => s.mutex.Nobody?
       case Waking => s.mutex.Nobody?
       case Sleeping => false
       case Exited => false
       case _ => true)
    case Spurious(id) => IsSleeping(s, id)
  }

  function Wake(p: WorkerPc): WorkerPc {
    if p.Sleeping? then Waking else p
  }

  function WakeAll(workers: seq<WorkerPc>): seq<WorkerPc> {
    seq(|workers|, k requires 0 <= k < |workers| => Wake(workers[k]))
  }

  function MainNext(s: State, woken: nat): State
    requires s.ring.Ok()
  {
    match s.main
    case Offering(conn) => s.(mutex := Main, main := Pushing(conn))
    case Pushing(conn) =>
      if !Accepts(s.ring) then s.(main := Unlocking(conn, false))
      else
        s.(ring := Pushed(s.ring, conn), queued := s.queued + [conn], main := Unlocking(conn, true),
           workers := if IsSleeping(s, woken) then s.workers[woken := Waking] else s.workers)
    case Unlocking(conn, ok) => s.(mutex := Nobody, main := if ok then Accepting else Rejecting(conn))
    case Rejecting(conn) => s.(rejected := s.rejected + [conn], main := Accepting)
    case Closing => s.(mutex := Main, main := Broadcasting)
    case Broadcasting =>
      s.(ring := s.ring.(shuttingDown := true), workers := WakeAll(s.workers), main := Finishing)
    case Finishing => s.(mutex := Nobody, main := Joining(0))
    case Joining(next) => s.(main := if next < |s.workers| then Joining(next + 1) else Ended)
    case _ => s
  }

  function SetWorker(s: State, id: nat, p: WorkerPc): State
    requires id < |s.workers|
  {
    s.(workers := s.workers[id := p])
  }

  function WorkerNext(s: State, id: nat): State
    requires s.ring.Ok() && id < |s.workers|
  {
    match s.workers[id]
    case Entering => SetWorker(s.(mutex := Worker(id)), id, Checking)
    case Waking => SetWorker(s.(mutex := Worker(id)), id, Checking)
    case Checking =>
      if s.ring.MustWait() then SetWorker(s.(mutex := Nobody), id, Sleeping)
      else if s.ring.count == 0 then SetWorker(s, id, Leaving(None))
      else
        var conn := s.ring.items[s.ring.head];
        SetWorker(s.(ring := Popped(s.ring), taken := s.taken + [conn]), id, Leaving(Some(conn)))
    case Leaving(got) =>
      SetWorker(s.(mutex := Nobody), id, match got case Some(conn) => Handling(conn) case None => Exited)
    case Handling(conn) => SetWorker(s.(handled := s.handled + [conn]), id, Entering)
    case _ => s
  }

  function Next(s: State, a: Action): State
    requires s.ring.Ok() && Enabled(s, a)
  {
    match a
    case StartWorker => s.(workers := s.workers + [Entering])
    case StartFails => s.(main := Closing)
    case Listen => s.(main := Accepting)
    case Accept => s.(main := Offering(s.accepted), accepted := s.accepted + 1)
    case Stop => s.(main := Closing)
    case MainSteps(woken) => MainNext(s, woken)
    case WorkerSteps(id) => WorkerNext(s, id)
    case Spurious(id) => SetWorker(s, id, Waking)
  }

  // ---------- Counting workers ----------

  /** The sum of a weight over the workers. */
  function Total(workers: seq<WorkerPc>, weight: WorkerPc -> nat): nat {
    if workers == [] then 0 else Total(workers[..|workers| - 1], weight) + weight(workers[|workers| - 1])
  }

  lemma {:induction false} TotalUpdate(workers: seq<WorkerPc>, weight: WorkerPc -> nat, id: nat, p: WorkerPc)
    requires id < |workers|
    ensures Total(workers[id := p], weight) == Total(workers, weight) - weight(workers[id]) + weight(p)
  {
    var last := |workers| - 1;
    if id == last {
      assert workers[id := p][..last] == workers[..last];
    } else {
      assert workers[id := p][..last] == workers[..last][id := p];
      TotalUpdate(workers[..last], weight, id, p);
    }
  }

  lemma {:induction false} TotalAtLeast(workers: seq<WorkerPc>, weight: WorkerPc -> nat, id: nat)
    requires id < |workers|
    ensures Total(workers, weight) >= weight(workers[id])
  {
    if id < |workers| - 1 {
      TotalAtLeast(workers[..|workers| - 1], weight, id);
    }
  }

  lemma {:induction false} TotalBelow(workers: seq<WorkerPc>, small: WorkerPc -> nat, large: WorkerPc -> nat)
    requires forall p <- workers :: small(p) <= large(p)
    ensures Total(workers, small) <= Total(workers, large)
  {
    if workers != [] {
      assert workers[|workers| - 1] in workers;
      TotalBelow(workers[..|workers| - 1], small, large);
    }
  }

  /** On its way to the queue: it will look before it sleeps or handles anything. */
  function Coming(p: WorkerPc): nat {
    if p.Entering? || p.Waking? || p.Checking? then 1 else 0
  }

  function Awake(p: WorkerPc): nat {
    if p.Sleeping? || p.Exited? then 0 else 1
  }

  /** 1 for a worker that has taken the connection and not handled it yet. */
  function Has(conn: nat): WorkerPc -> nat {
    p => if p == Leaving(Some(conn)) || p == Handling(conn) then 1 else 0
  }

  function Times(xs: seq<nat>, x: nat): nat {
    multiset(xs)[x]
  }

  lemma TimesAppended(xs: seq<nat>, x: nat)
    ensures forall y: nat :: Times(xs + [x], y) == Times(xs, y) + if x == y then 1 else 0
  {
  }

  // ---------- What every reachable state satisfies ----------

  predicate MainLocked(m: MainPc) {
    m.Pushing? || m.Unlocking? || m.Broadcasting? || m.Finishing?
  }

  predicate Locked(p: WorkerPc) {
    p.Checking? || p.Leaving?
  }

  /** The mutex is where it is. */
  ghost predicate MutexOk(s: State) {
    (s.mutex.Main? <==> MainLocked(s.main)) &&
    (forall id :: 0 <= id < |s.workers| ==> (Locked(s.workers[id]) <==> s.mutex == Worker(id))) &&
    (s.mutex.Worker? ==> s.mutex.id < |s.workers|)
  }

  /** First in, first out: what has been taken and what is queued is what was ever queued. */
  ghost predicate FifoOk(s: State) {
    s.ring.Ok() && s.queued == s.taken + s.ring.Contents()
  }

  predicate MainHas(m: MainPc, conn: nat) {
    m == Offering(conn) || m == Pushing(conn) || m == Unlocking(conn, false) || m == Rejecting(conn)
  }

  /** Each accepted connection is in one place: queued at some time, rejected, or before either. */
  ghost predicate OfferedOk(s: State) {
    forall conn: nat :: PlaceOk(s, conn)
  }

  ghost predicate PlaceOk(s: State, conn: nat) {
    Times(s.queued, conn) + Times(s.rejected, conn) + (if MainHas(s.main, conn) then 1 else 0) ==
    if conn < s.accepted then 1 else 0
  }

  /** Each connection taken from the queue is handled, or in the hands of one worker. */
  ghost predicate TakenOk(s: State) {
    forall conn: nat :: HandOk(s, conn)
  }

  ghost predicate HandOk(s: State, conn: nat) {
    Times(s.taken, conn) == Times(s.handled, conn) + Total(s.workers, Has(conn))
  }

  /** Connections are queued in the order they were accepted in. */
  ghost predicate OrderOk(s: State) {
    (forall i, j :: 0 <= i < j < |s.queued| ==> s.queued[i] < s.queued[j]) &&
    (forall i :: 0 <= i < |s.queued| ==> s.queued[i] < s.accepted && !MainHas(s.main, s.queued[i])) &&
    (forall conn: nat :: MainHas(s.main, conn) ==> conn + 1 == s.accepted)
  }

  /** No lost wakeup: while a worker sleeps, there is one on its way for each queued connection. */
  ghost predicate WakeOk(s: State) {
    SomeoneSleeps(s) ==> s.ring.count <= Total(s.workers, Coming)
  }

  /** How far the main thread is, and what that says about the workers. */
  ghost predicate PhaseOk(s: State) {
    |s.workers| <= WORKER_COUNT &&
    (s.ring.shuttingDown <==> s.main.Finishing? || s.main.Joining? || s.main.Ended?) &&
    (s.ring.shuttingDown ==> !SomeoneSleeps(s)) &&
    (forall p <- s.workers :: p.Exited? || p == Leaving(None) ==> s.ring.shuttingDown && s.ring.count == 0) &&
    (s.main.Accepting? || s.main.Offering? || s.main.Pushing? || s.main.Unlocking? || s.main.Rejecting? ==>
      |s.workers| == WORKER_COUNT) &&
    (s.workers == [] || s.main.Starting? ==> s.queued == []) &&
    (s.main.Joining? ==> s.main.next <= |s.workers| && forall k :: 0 <= k < s.main.next ==> s.workers[k].Exited?) &&
    (s.main.Ended? ==> forall k :: 0 <= k < |s.workers| ==> s.workers[k].Exited?)
  }

  ghost predicate Inv(s: State) {
    MutexOk(s) && FifoOk(s) && OfferedOk(s) && TakenOk(s) && OrderOk(s) && WakeOk(s) && PhaseOk(s)
  }

  // ---------- Each part is kept by every step ----------

  /** What a worker's step leaves alone. */
  lemma {:induction false} WorkerFrame(s: State, id: nat)
    requires s.ring.Ok() && id < |s.workers|
    ensures var s' := WorkerNext(s, id);
      s'.main == s.main && s'.accepted == s.accepted && s'.rejected == s.rejected && s'.queued == s.queued &&
      s'.ring.shuttingDown == s.ring.shuttingDown && s'.ring.count <= s.ring.count &&
      |s'.workers| == |s.workers| && forall k :: 0 <= k < |s.workers| && k != id ==> s'.workers[k] == s.workers[k]
  {
  }

  lemma {:induction false} MutexKept(s: State, a: Action)
    requires s.ring.Ok() && MutexOk(s) && Enabled(s, a)
    ensures MutexOk(Next(s, a))
  {
    match a {
      case WorkerSteps(id) => WorkerMutexKept(s, id);
      case MainSteps(woken) => MainMutexKept(s, woken);
      case _ => LocksSame(s, a); hide Ring.Contents;
    }
  }

  lemma {:induction false} MainMutexKept(s: State, woken: nat)
    requires s.ring.Ok() && MutexOk(s) && Enabled(s, MainSteps(woken))
    ensures MutexOk(MainNext(s, woken))
  {
    LocksSame(s, MainSteps(woken));
    MainMutex(s, woken);
    hide MainNext, Enabled;
  }

  lemma {:induction false} MainMutex(s: State, woken: nat)
    requires s.ring.Ok() && Enabled(s, MainSteps(woken)) && (s.mutex.Main? <==> MainLocked(s.main))
    ensures var s' := MainNext(s, woken);
      (s'.mutex.Main? <==> MainLocked(s'.main)) && !s'.mutex.Worker? <==> !s.mutex.Worker?
    ensures var s' := MainNext(s, woken); s.mutex.Worker? ==> s'.mutex == s.mutex
  {
    hide WakeAll, SomeoneSleeps, IsSleeping, Pushed, Accepts;
  }

  lemma InvParts(s: State)
    requires Inv(s)
    ensures MutexOk(s) && FifoOk(s) && OfferedOk(s) && TakenOk(s) && OrderOk(s) && WakeOk(s) && PhaseOk(s)
  {
    hide MutexOk, FifoOk, OfferedOk, TakenOk, OrderOk, WakeOk, PhaseOk;
  }

  lemma {:induction false} WorkerMutexKept(s: State, id: nat)
    requires s.ring.Ok() && MutexOk(s) && Enabled(s, WorkerSteps(id))
    ensures MutexOk(WorkerNext(s, id))
  {
    WorkerFrame(s, id);
    hide Popped, Ring.MustWait, Ring.Contents;
  }

  /** Only a worker's own step moves it to or from holding the mutex. */
  lemma {:induction false} LocksSame(s: State, a: Action)
    requires s.ring.Ok() && Enabled(s, a) && !a.WorkerSteps?
    ensures |Next(s, a).workers| == |s.workers| + (if a.StartWorker? then 1 else 0)
    ensures forall k :: 0 <= k < |s.workers| ==> Locked(Next(s, a).workers[k]) == Locked(s.workers[k])
    ensures forall k :: 0 <= k < |s.workers| && s.workers[k].Exited? ==> Next(s, a).workers[k].Exited?
    ensures forall k :: 0 <= k < |s.workers| && Next(s, a).workers[k] != s.workers[k] ==> Next(s, a).workers[k].Waking?
  {
    hide Pushed, Popped, Accepts, Ring.MustWait, Ring.Contents;
  }

  lemma {:induction false} FifoKept(s: State, a: Action)
    requires Inv(s) && Enabled(s, a)
    ensures FifoOk(Next(s, a))
  {
    hide MutexOk, OfferedOk, TakenOk, OrderOk, WakeOk, PhaseOk, Ring.Contents, Pushed, Popped;
    if a.MainSteps? && s.main.Pushing? && Accepts(s.ring) {
      PushAppends(s.ring, s.main.conn);
    } else if a.WorkerSteps? && s.workers[a.id].Checking? && s.ring.count > 0 {
      PopTakesFirst(s.ring);
    } else if a.MainSteps? && s.main.Broadcasting? {
      SameContents(s.ring, s.ring.(shuttingDown := true));
    }
  }

  lemma SameContents(q: Ring, q': Ring)
    requires q.Ok() && q' == q.(shuttingDown := true)
    ensures q'.Ok() && q'.Contents() == q.Contents()
  {
  }

  lemma {:induction false} OfferedKept(s: State, a: Action)
    requires s.ring.Ok() && OfferedOk(s) && Enabled(s, a)
    ensures OfferedOk(Next(s, a))
  {
    forall conn: nat ensures PlaceOk(Next(s, a), conn) {
      assert PlaceOk(s, conn);
      PlaceKept(s, a, conn);
    }
  }

  lemma {:induction false} PlaceKept(s: State, a: Action, conn: nat)
    requires s.ring.Ok() && PlaceOk(s, conn) && Enabled(s, a)
    ensures PlaceOk(Next(s, a), conn)
  {
    match a {
      case WorkerSteps(id) => WorkerFrame(s, id); hide WorkerNext;
      case MainSteps(woken) => MainPlace(s, woken, conn); hide MainNext, Enabled, Times;
      case _ => hide Times;
    }
  }

  lemma {:induction false} MainPlace(s: State, woken: nat, conn: nat)
    requires s.ring.Ok() && PlaceOk(s, conn)
    ensures PlaceOk(MainNext(s, woken), conn)
  {
    hide Times, Accepts, IsSleeping, WakeAll;
    match s.main {
      case Pushing(c) => TimesAppended(s.queued, c);
      case Rejecting(c) => TimesAppended(s.rejected, c);
      case _ =>
    }
  }

  lemma {:induction false} TakenKept(s: State, a: Action)
    requires Inv(s) && Enabled(s, a)
    ensures TakenOk(Next(s, a))
  {
    assert s.ring.Ok();
    hide MutexOk, FifoOk, OfferedOk, OrderOk, WakeOk, PhaseOk, Times, Total;
    forall conn: nat ensures HandOk(Next(s, a), conn) {
      assert HandOk(s, conn);
      HandKept(s, a, conn);
    }
  }

  lemma {:induction false} HandKept(s: State, a: Action, conn: nat)
    requires s.ring.Ok() && Enabled(s, a) && HandOk(s, conn)
    ensures HandOk(Next(s, a), conn)
  {
    WeightNext(s, a, Has(conn));
    if a.WorkerSteps? {
      TakenNext(s, a.id, conn);
      hide WorkerNext, Total, Times, Has;
    } else {
      hide Total, Times, WakeAll, SomeoneSleeps, Accepts, Enabled;
    }
  }

  lemma {:induction false} TakenNext(s: State, id: nat, conn: nat)
    requires s.ring.Ok() && Enabled(s, WorkerSteps(id))
    ensures var s' := WorkerNext(s, id);
      Times(s'.taken, conn) - Times(s.taken, conn) ==
      Times(s'.handled, conn) - Times(s.handled, conn) + Has(conn)(s'.workers[id]) - Has(conn)(s.workers[id])
  {
    hide Times, Popped;
    match s.workers[id] {
      case Checking => if s.ring.count > 0 { TimesAppended(s.taken, s.ring.items[s.ring.head]); }
      case Handling(c) => TimesAppended(s.handled, c);
      case _ =>
    }
  }

  /** How a weight that sleeping and waking do not change follows a step. */
  lemma {:induction false} WeightNext(s: State, a: Action, weight: WorkerPc -> nat)
    requires s.ring.Ok() && Enabled(s, a) && weight(Sleeping) == weight(Waking)
    ensures var s' := Next(s, a);
      match a
      case StartWorker => Total(s'.workers, weight) == Total(s.workers, weight) + weight(Entering)
      case WorkerSteps(id) =>
        s'.workers == s.workers[id := s'.workers[id]] &&
        Total(s'.workers, weight) == Total(s.workers, weight) - weight(s.workers[id]) + weight(s'.workers[id])
      case _ => Total(s'.workers, weight) == Total(s.workers, weight)
  {
    var s' := Next(s, a);
    hide Pushed, Popped, Accepts;
    match a {
      case StartWorker => assert s'.workers[..|s.workers|] == s.workers;
      case WorkerSteps(id) => TotalUpdate(s.workers, weight, id, s'.workers[id]);
      case Spurious(id) => TotalUpdate(s.workers, weight, id, Waking);
      case MainSteps(woken) =>
        if s.main.Broadcasting? {
          WakeAllTotal(s.workers, weight);
        } else if s.main.Pushing? && IsSleeping(s, woken) {
          TotalUpdate(s.workers, weight, woken, Waking);
        }
      case _ =>
    }
  }

  lemma {:induction false} WakeAllTotal(workers: seq<WorkerPc>, weight: WorkerPc -> nat)
    requires weight(Sleeping) == weight(Waking)
    ensures Total(WakeAll(workers), weight) == Total(workers, weight)
  {
    if workers != [] {
      var last := |workers| - 1;
      assert WakeAll(workers)[..last] == WakeAll(workers[..last]);
      WakeAllTotal(workers[..last], weight);
    }
  }

  lemma {:induction false} OrderKept(s: State, a: Action)
    requires s.ring.Ok() && OrderOk(s) && Enabled(s, a)
    ensures OrderOk(Next(s, a))
  {
    if a.WorkerSteps? {
      WorkerFrame(s, a.id);
      hide WorkerNext;
    } else if a.MainSteps? && s.main.Pushing? {
      var s', conn := Next(s, a), s.main.conn;
      assert MainHas(s.main, conn);
      assert forall i :: 0 <= i < |s.queued| ==> s'.queued[i] == s.queued[i] && s.queued[i] < conn;
      hide Accepts, Pushed, SomeoneSleeps, IsSleeping;
    } else if a.MainSteps? {
      MainHand(s, a.woken);
      hide MainNext;
    } else {
      assert a.Accept? ==> forall conn: nat :: !MainHas(s.main, conn);
    }
  }

  /** A step of the main thread, but that of pushing, neither gets nor queues a connection. */
  lemma {:induction false} MainHand(s: State, woken: nat)
    requires s.ring.Ok() && !s.main.Pushing?
    ensures var s' := MainNext(s, woken);
      s'.queued == s.queued && s'.accepted == s.accepted &&
      forall conn: nat :: MainHas(s'.main, conn) ==> MainHas(s.main, conn)
  {
    hide WakeAll;
  }

  lemma {:induction false} WakeKept(s: State, a: Action)
    requires Inv(s) && Enabled(s, a)
    ensures WakeOk(Next(s, a))
  {
    InvParts(s);
    assert s.ring.Ok();
    hide Inv, MutexOk, FifoOk, OfferedOk, TakenOk, OrderOk, PhaseOk, Ring.Contents;
    if a.WorkerSteps? {
      WorkerWakeKept(s, a.id);
    } else if SomeoneSleeps(Next(s, a)) {
      SleeperBefore(s, a);
      hide Total, SomeoneSleeps;
      WeightRises(s, a);
    }
  }

  lemma {:induction false} WorkerWakeKept(s: State, id: nat)
    requires s.ring.Ok() && Enabled(s, WorkerSteps(id)) && WakeOk(s)
    ensures WakeOk(WorkerNext(s, id))
  {
    var s' := WorkerNext(s, id);
    if SomeoneSleeps(s') && !s'.workers[id].Sleeping? {
      var k :| 0 <= k < |s'.workers| && s'.workers[k].Sleeping?;
      assert s.workers[k].Sleeping?;
    }
    hide SomeoneSleeps, Total, Ring.Contents;
    TotalUpdate(s.workers, Coming, id, s'.workers[id]);
    assert s'.workers == s.workers[id := s'.workers[id]];
  }

  lemma {:induction false} SleeperBefore(s: State, a: Action)
    requires s.ring.Ok() && Enabled(s, a) && !a.WorkerSteps? && SomeoneSleeps(Next(s, a))
    ensures SomeoneSleeps(s) && !(a.MainSteps? && s.main.Broadcasting?)
  {
    hide Accepts, Pushed, Ring.Contents;
    var s' := Next(s, a);
    var k :| 0 <= k < |s'.workers| && s'.workers[k].Sleeping?;
    assert s.workers[k].Sleeping?;
  }

  /** While a worker sleeps, whatever adds to the queue also brings a worker to it. */
  lemma {:induction false} WeightRises(s: State, a: Action)
    requires s.ring.Ok() && Enabled(s, a) && !a.WorkerSteps? && SomeoneSleeps(s) &&
      !(a.MainSteps? && s.main.Broadcasting?)
    ensures var s' := Next(s, a);
      s'.ring.count - s.ring.count <= Total(s'.workers, Coming) - Total(s.workers, Coming)
  {
    var s' := Next(s, a);
    hide Total, SomeoneSleeps, Ring.Contents;
    match a {
      case StartWorker => StartTotal(s.workers);
      case Spurious(id) => TotalUpdate(s.workers, Coming, id, Waking);
      case MainSteps(woken) =>
        if s.main.Pushing? {
          TotalUpdate(s.workers, Coming, woken, Waking);
        }
      case _ =>
    }
  }

  lemma StartTotal(workers: seq<WorkerPc>)
    ensures Total(workers + [Entering], Coming) == Total(workers, Coming) + 1
  {
    assert (workers + [Entering])[..|workers|] == workers;
  }

  lemma {:induction false} PhaseKept(s: State, a: Action)
    requires s.ring.Ok() && PhaseOk(s) && MutexOk(s) && Enabled(s, a)
    ensures PhaseOk(Next(s, a))
  {
    match a {
      case WorkerSteps(id) => WorkerPhaseKept(s, id);
      case MainSteps(woken) => MainPhaseKept(s, woken);
      case _ => OutsidePhaseKept(s, a);
    }
  }

  lemma {:induction false} OutsidePhaseKept(s: State, a: Action)
    requires s.ring.Ok() && PhaseOk(s) && Enabled(s, a) && !a.WorkerSteps? && !a.MainSteps?
    ensures PhaseOk(Next(s, a))
  {
    LocksSame(s, a);
    hide Ring.Contents;
    var s' := Next(s, a);
    forall p <- s'.workers ensures p in s.workers || p == Waking || p == Entering {
      var k :| 0 <= k < |s'.workers| && s'.workers[k] == p;
      assert k < |s.workers| ==> p == s.workers[k] || p == Waking;
    }
  }

  lemma {:induction false} MainPhaseKept(s: State, woken: nat)
    requires s.ring.Ok() && PhaseOk(s) && Enabled(s, MainSteps(woken))
    ensures PhaseOk(MainNext(s, woken))
  {
    LocksSame(s, MainSteps(woken));
    hide Ring.Contents;
    var s' := MainNext(s, woken);
    forall p <- s'.workers ensures p in s.workers || p == Waking {
      var k :| 0 <= k < |s'.workers| && s'.workers[k] == p;
      assert p == s.workers[k] || p == Waking;
    }
  }

  lemma {:induction false} WorkerPhaseKept(s: State, id: nat)
    requires s.ring.Ok() && PhaseOk(s) && MutexOk(s) && Enabled(s, WorkerSteps(id))
    ensures PhaseOk(WorkerNext(s, id))
  {
    var s' := WorkerNext(s, id);
    WorkerFrame(s, id);
    assert s.workers[id] in s.workers;
    hide Ring.Contents;
    forall p <- s'.workers ensures p == s'.workers[id] || p in s.workers {
      var k :| 0 <= k < |s'.workers| && s'.workers[k] == p;
      assert k != id ==> p == s.workers[k];
    }
  }

  // ---------- Every run ----------

  lemma {:induction false} InitialOk(s: State)
    requires s == Initial()
    ensures Inv(s)
  {
  }

  lemma {:induction false} NextKeeps(s: State, a: Action)
    requires Inv(s) && Enabled(s, a)
    ensures Inv(Next(s, a))
  {
    InvParts(s);
    MutexKept(s, a);
    FifoKept(s, a);
    OfferedKept(s, a);
    TakenKept(s, a);
    OrderKept(s, a);
    WakeKept(s, a);
    PhaseKept(s, a);
    hide MutexOk, FifoOk, OfferedOk, TakenOk, OrderOk, WakeOk, PhaseOk, Next;
  }

  /** An action that cannot happen has no effect. */
  ghost function Attempt(s: State, a: Action): (s': State)
    requires Inv(s)
    ensures Inv(s')
  {
    if Enabled(s, a) then
      NextKeeps(s, a);
      Next(s, a)
    else s
  }

  /** Any sequence of actions from the start. */
  ghost function Run(actions: seq<Action>): (s: State)
    ensures Inv(s)
  {
    if actions == [] then
      InitialOk(Initial());
      Initial()
    else Attempt(Run(actions[..|actions| - 1]), actions[|actions| - 1])
  }

  /** Connections leave the queue exactly once, in the order they were accepted in, and each one ever
      taken has been handled or is in the hands of exactly one worker. */
  lemma {:induction false} TakenInOrder(actions: seq<Action>)
    ensures var s := Run(actions);
      s.ring.Ok() && s.taken + s.ring.Contents() == s.queued &&
      (forall i, j :: 0 <= i < j < |s.taken| ==> s.taken[i] < s.taken[j] < s.accepted) &&
      forall conn: nat :: Times(s.handled, conn) + Total(s.workers, Has(conn)) == if conn in s.taken then 1 else 0
  {
    var s := Run(actions);
    hide Run;
    InvParts(s);
    hide Inv, MutexOk, OfferedOk, WakeOk, PhaseOk, Total, Ring.Contents;
    assert forall i :: 0 <= i < |s.taken| ==> s.queued[i] == s.taken[i];
    forall conn: nat ensures Times(s.handled, conn) + Total(s.workers, Has(conn)) == if conn in s.taken then 1 else 0 {
      assert HandOk(s, conn);
      TimesOnce(s.taken, conn);
    }
  }

  lemma {:induction false} TimesOnce(xs: seq<nat>, x: nat)
    requires forall i, j :: 0 <= i < j < |xs| ==> xs[i] < xs[j]
    ensures Times(xs, x) == if x in xs then 1 else 0
  {
    if xs != [] {
      var last := |xs| - 1;
      assert xs == xs[..last] + [xs[last]];
      TimesOnce(xs[..last], x);
      TimesAppended(xs[..last], xs[last]);
    }
  }

  /** Each accepted connection is rejected, or was queued, or is still with the main thread, and no
      two of these; a rejected one never reaches a worker. */
  lemma {:induction false} RejectedOrQueued(actions: seq<Action>, conn: nat)
    ensures var s := Run(actions);
      conn < s.accepted ==>
        Times(s.queued, conn) + Times(s.rejected, conn) + (if MainHas(s.main, conn) then 1 else 0) == 1
    ensures var s := Run(actions); conn in s.rejected ==> conn < s.accepted && conn !in s.queued && conn !in s.taken
  {
    var s := Run(actions);
    hide Run;
    assert PlaceOk(s, conn);
    assert FifoOk(s);
    hide Inv, PlaceOk, Ring.Contents;
    hide MainHas;
    PlaceOkIs(s, conn);
  }

  /** What the main thread decides under the mutex: a connection is refused only when all 32 places are taken
      or the queue is shut down; else it goes to the end of the queue, and a sleeper is woken. */
  lemma {:induction false} PushDecides(s: State, woken: nat)
    requires s.ring.Ok() && s.main.Pushing?
    ensures var s', conn := MainNext(s, woken), s.main.conn;
      s'.main == Unlocking(conn, !s.ring.shuttingDown && |s.ring.Contents()| < 32) &&
      if s'.main.ok then
        s'.ring.Ok() && s'.ring.Contents() == s.ring.Contents() + [conn] && s'.queued == s.queued + [conn] &&
        (IsSleeping(s, woken) ==> s'.workers == s.workers[woken := Waking])
      else s' == s.(main := s'.main)
  {
    if Accepts(s.ring) {
      PushAppends(s.ring, s.main.conn);
    }
  }

  /** Refused, or about to be: the decision has been taken. */
  predicate Doomed(s: State, conn: nat) {
    conn in s.rejected || s.main == Unlocking(conn, false) || s.main == Rejecting(conn)
  }

  /** After n actions the main thread is about to decide about the connection, and all places are taken. */
  ghost predicate FullAt(actions: seq<Action>, n: nat, conn: nat) {
    n <= |actions| && Run(actions[..n]).main == Pushing(conn) && |Run(actions[..n]).ring.Contents()| == 32
  }

  lemma {:induction false} DoomedByFull(s: State, a: Action, conn: nat)
    requires Inv(s) && Enabled(s, a) && Doomed(Next(s, a), conn) && !Doomed(s, conn)
    ensures s.main == Pushing(conn) && |s.ring.Contents()| == 32
  {
    assert s.ring.Ok();
    if s.main.Pushing? && a.MainSteps? {
      PushDecides(s, a.woken);
      InvParts(s);
    }
    hide Inv, Ring.Contents, Pushed, Popped;
  }

  /** A connection is refused only if it found all 32 places of the queue taken. */
  lemma {:induction false} RejectedWhenFull(actions: seq<Action>, conn: nat) returns (n: nat)
    requires Doomed(Run(actions), conn)
    ensures FullAt(actions, n, conn)
  {
    n := 0;
    if actions == [] {
      assert false;
    } else {
      var before, a := actions[..|actions| - 1], actions[|actions| - 1];
      if Doomed(Run(before), conn) {
        n := RejectedWhenFull(before, conn);
        assert actions[..n] == before[..n];
      } else {
        n := |before|;
        assert actions[..n] == before;
        DoomedByFull(Run(before), a, conn);
      }
    }
    hide Inv, Enabled, Next, Ring.Contents, Doomed;
  }

  lemma PlaceOkIs(s: State, conn: nat)
    requires PlaceOk(s, conn)
    ensures Times(s.queued, conn) + Times(s.rejected, conn) + (if MainHas(s.main, conn) then 1 else 0) ==
      if conn < s.accepted then 1 else 0
  {
  }

  /** When all is over, every accepted connection has been rejected once or handled once, and the
      queue is empty, however many workers could be started. */
  lemma {:induction false} NoneLeftBehind(actions: seq<Action>, conn: nat)
    requires Run(actions).main.Ended?
    ensures var s := Run(actions);
      s.ring.Ok() && s.ring.Contents() == [] && s.taken == s.queued &&
      (conn < s.accepted ==> Times(s.handled, conn) + Times(s.rejected, conn) == 1) &&
      (conn >= s.accepted ==> conn !in s.handled && conn !in s.rejected)
  {
    var s := Run(actions);
    hide Run;
    InvParts(s);
    EndedEmpty(s);
    assert PlaceOk(s, conn) && HandOk(s, conn);
    hide Inv, PhaseOk, OrderOk, WakeOk, MutexOk, OfferedOk, TakenOk, Ring.Contents;
    ExitedHold(s.workers, conn);
  }

  lemma {:induction false} EndedEmpty(s: State)
    requires Inv(s) && s.main.Ended?
    ensures s.ring.Ok() && s.ring.Contents() == [] && forall k :: 0 <= k < |s.workers| ==> s.workers[k].Exited?
  {
    InvParts(s);
    hide Inv, OrderOk, WakeOk, MutexOk, OfferedOk, TakenOk;
    if s.workers != [] {
      assert s.workers[0] in s.workers;
      assert s.workers[0].Exited?;
    }
  }

  lemma {:induction false} ExitedHold(workers: seq<WorkerPc>, conn: nat)
    requires forall k :: 0 <= k < |workers| ==> workers[k].Exited?
    ensures Total(workers, Has(conn)) == 0
  {
    if workers != [] {
      ExitedHold(workers[..|workers| - 1], conn);
    }
  }

  /** No lost wakeup: before shutdown there are as many workers awake as there are connections queued,
      or all of them are; and while any worker sleeps, each queued connection has a worker of its own
      that will look into the queue before it does anything else. */
  lemma {:induction false} NoLostWakeup(actions: seq<Action>)
    ensures var s := Run(actions);
      (SomeoneSleeps(s) ==> s.ring.count <= Total(s.workers, Coming)) &&
      (!s.ring.shuttingDown ==>
        Total(s.workers, Awake) >= if s.ring.count < |s.workers| then s.ring.count else |s.workers|) &&
      (s.ring.shuttingDown ==> !SomeoneSleeps(s))
  {
    var s := Run(actions);
    hide Run;
    InvParts(s);
    hide Inv, FifoOk, OrderOk, MutexOk, OfferedOk, TakenOk;
    if SomeoneSleeps(s) {
      TotalBelow(s.workers, Coming, Awake);
    } else if !s.ring.shuttingDown {
      forall k | 0 <= k < |s.workers| ensures Awake(s.workers[k]) == 1 {
        assert s.workers[k] in s.workers;
      }
      AllAwake(s.workers);
    }
  }

  lemma {:induction false} AllAwake(workers: seq<WorkerPc>)
    requires forall k :: 0 <= k < |workers| ==> Awake(workers[k]) == 1
    ensures Total(workers, Awake) == |workers|
  {
    if workers != [] {
      AllAwake(workers[..|workers| - 1]);
    }
  }

  // ---------- Shutting down comes to an end ----------

  /** The steps a worker still has to take, once the queue has been shut down. */
  function Steps(p: WorkerPc): nat {
    match p
    case Exited => 0
    case Leaving(None) => 1
    case Checking => 2
    case Leaving(Some(_)) => 5
    case Handling(_) => 4
    case _ => 3
  }

  function MainLeft(s: State): nat {
    match s.main
    case Finishing => |s.workers| + 2
    case Joining(next) => if next <= |s.workers| then |s.workers| + 1 - next else 0
    case _ => 0
  }

  function Remaining(s: State): nat {
    4 * s.ring.count + Total(s.workers, Steps) + MainLeft(s)
  }

  /** Once shut down, every step brings the end nearer ... */
  lemma {:induction false} ShutdownAdvances(actions: seq<Action>, a: Action)
    requires Run(actions).ring.shuttingDown && Enabled(Run(actions), a)
    ensures Next(Run(actions), a).ring.shuttingDown && Remaining(Next(Run(actions), a)) < Remaining(Run(actions))
  {
    var s := Run(actions);
    hide Run;
    InvParts(s);
    assert s.ring.Ok();
    hide Inv, FifoOk, OrderOk, MutexOk, OfferedOk, TakenOk, WakeOk;
    assert a.WorkerSteps? || a.MainSteps? by {
      hide Total;
    }
    if a.WorkerSteps? {
      WorkerAdvances(s, a.id);
    } else {
      MainAdvances(s, a.woken);
    }
  }

  lemma {:induction false} WorkerAdvances(s: State, id: nat)
    requires s.ring.Ok() && s.ring.shuttingDown && Enabled(s, WorkerSteps(id))
    ensures WorkerNext(s, id).ring.shuttingDown && Remaining(WorkerNext(s, id)) < Remaining(s)
  {
    var s' := WorkerNext(s, id);
    WorkerFrame(s, id);
    assert s'.workers == s.workers[id := s'.workers[id]];
    TotalUpdate(s.workers, Steps, id, s'.workers[id]);
    assert 4 * s'.ring.count + Steps(s'.workers[id]) < 4 * s.ring.count + Steps(s.workers[id]) by {
      hide Total;
    }
    hide WorkerNext, Steps, Total;
  }

  lemma {:induction false} MainAdvances(s: State, woken: nat)
    requires s.ring.Ok() && PhaseOk(s) && s.ring.shuttingDown && Enabled(s, MainSteps(woken))
    ensures MainNext(s, woken).ring.shuttingDown && Remaining(MainNext(s, woken)) < Remaining(s)
  {
    hide Total, WakeAll, SomeoneSleeps, Accepts, Ring.Contents;
  }

  /** ... and until the end is reached, some step can be taken. */
  lemma {:induction false} ShutdownNeverStuck(actions: seq<Action>) returns (a: Action)
    requires Run(actions).ring.shuttingDown && !Run(actions).main.Ended?
    ensures Enabled(Run(actions), a)
  {
    var s := Run(actions);
    hide Run;
    InvParts(s);
    hide Inv, FifoOk, OrderOk, OfferedOk, TakenOk, WakeOk;
    if s.main.Finishing? || s.main.next == |s.workers| || s.workers[s.main.next].Exited? {
      a := MainSteps(0);
    } else if s.mutex.Worker? {
      a := WorkerSteps(s.mutex.id);
    } else {
      a := WorkerSteps(s.main.next);
    }
  }

  ghost predicate MainCan(s: State) {
    exists woken: nat :: Enabled(s, MainSteps(woken))
  }

  /** Who waits, and for what: the main thread can always take a connection when it is back from the last;
      else a thread waits for the mutex, a sleeper for a wakeup, the main thread at last for the worker to
      join, and for nothing else. Whoever has the mutex can go on. */
  lemma {:induction false} WaitsFor(actions: seq<Action>, id: nat)
    ensures var s := Run(actions);
      (s.main.Accepting? ==> Enabled(s, Accept)) &&
      (!s.main.Starting? && !s.main.Accepting? && !s.main.Ended? ==>
        (MainCan(s) <==>
          ((s.main.Offering? || s.main.Closing?) ==> s.mutex.Nobody?) &&
          (s.main.Joining? && s.main.next < |s.workers| ==> s.workers[s.main.next].Exited?))) &&
      (id < |s.workers| && !s.workers[id].Sleeping? && !s.workers[id].Exited? ==>
        (Enabled(s, WorkerSteps(id)) <==> (s.workers[id].Entering? || s.workers[id].Waking?) ==> s.mutex.Nobody?)) &&
      (s.mutex.Main? ==> MainCan(s)) &&
      (s.mutex.Worker? ==> Enabled(s, WorkerSteps(s.mutex.id)))
  {
    var s := Run(actions);
    hide Run;
    InvParts(s);
    hide Inv, FifoOk, OrderOk, OfferedOk, TakenOk, WakeOk, PhaseOk;
    if SomeoneSleeps(s) {
      var k: nat :| k < |s.workers| && s.workers[k].Sleeping?;
      assert Enabled(s, MainSteps(k)) || !s.main.Pushing?;
    }
    assert !s.main.Pushing? || !SomeoneSleeps(s) ==> (MainCan(s) <==> Enabled(s, MainSteps(0)));
  }
}
