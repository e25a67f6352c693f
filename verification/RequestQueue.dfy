/**
The bounded request queue of src/server.c: a ring buffer of accepted connections. What pushing and
popping do to it as a value, and the class that does so in place.
*/
module RequestQueue {
  import opened Wrappers

  const CAPACITY: nat := 32

  /** The fields of ServerRequestQueue but for its mutex and condition variable. A connection is
      named by its number in the order of accept, not by a descriptor the system may use again. */
  datatype Ring = Ring(items: seq<nat>, head: nat, tail: nat, count: nat, shuttingDown: bool) {
    predicate Ok() {
      |items| == CAPACITY && head < CAPACITY && count <= CAPACITY && tail == (head + count) % CAPACITY
    }

    /** What is queued, oldest first. */
    function Contents(): seq<nat>
      requires Ok()
    {
      seq(count, k requires 0 <= k < count => items[(head + k) % CAPACITY])
    }

    predicate MustWait() {
      count == 0 && !shuttingDown
    }
  }

  function EmptyRing(): Ring {
    Ring(seq(CAPACITY, k => 0), 0, 0, 0, false)
  }

  predicate Accepts(q: Ring) {
    !q.shuttingDown && q.count != CAPACITY
  }

  /** server_queue_push on a ring that accepts. */
  function Pushed(q: Ring, conn: nat): Ring
    requires q.Ok()
  {
    q.(items := q.items[q.tail := conn], tail := (q.tail + 1) % CAPACITY, count := q.count + 1)
  }

  /** The end of server_queue_pop, on a ring that is not empty. */
  function Popped(q: Ring): Ring
    requires q.Ok() && q.count > 0
  {
    q.(head := (q.head + 1) % CAPACITY, count := q.count - 1)
  }

  /** Across any wraparound, pushing adds at the end and popping takes from the front. */
  lemma {:induction false} PushAppends(q: Ring, conn: nat)
    requires q.Ok() && Accepts(q)
    ensures Pushed(q, conn).Ok() && Pushed(q, conn).Contents() == q.Contents() + [conn]
  {
    var q' := Pushed(q, conn);
    assert (q.head + q.count + 1) % CAPACITY == (q.tail + 1) % CAPACITY;
    forall k | 0 <= k < q'.count ensures q'.Contents()[k] == (q.Contents() + [conn])[k] {
      if k < q.count {
        Apart(q.head, k, q.count);
      }
    }
  }

  lemma Apart(head: nat, k: nat, count: nat)
    requires k < count < CAPACITY && head < CAPACITY
    ensures (head + k) % CAPACITY != (head + count) % CAPACITY
  {
  }

  lemma {:induction false} PopTakesFirst(q: Ring)
    requires q.Ok() && q.count > 0
    ensures Popped(q).Ok() && q.Contents() == [q.items[q.head]] + Popped(q).Contents()
  {
    var q' := Popped(q);
    PoppedOk(q);
    forall k | 0 <= k < q'.count ensures q'.Contents()[k] == q.Contents()[k + 1] {
      PoppedAt(q, k);
    }
    assert q.Contents()[0] == q.items[q.head];
    assert |q.Contents()| == 1 + |q'.Contents()|;
    hide *;
    assert q.Contents() == [q.items[q.head]] + q'.Contents();
  }

  lemma PoppedAt(q: Ring, k: nat)
    requires q.Ok() && k < q.count - 1 && Popped(q).Ok()
    ensures Popped(q).Contents()[k] == q.Contents()[k + 1]
  {
    WrapOnce(q.head, k);
  }

  lemma PoppedOk(q: Ring)
    requires q.Ok() && q.count > 0
    ensures Popped(q).Ok()
  {
    WrapOnce(q.head, q.count - 1);
  }

  lemma WrapOnce(head: nat, k: nat)
    requires head < CAPACITY
    ensures ((head + 1) % CAPACITY + k) % CAPACITY == (head + (k + 1)) % CAPACITY
  {
  }

  class RequestQueue {
    var items: array<nat>
    var head: nat
    var tail: nat
    var count: nat
    var shuttingDown: bool

    ghost function View(): Ring
      reads this, items
    {
      Ring(items[..], head, tail, count, shuttingDown)
    }

    ghost predicate Valid()
      reads this, items
    {
      View().Ok()
    }

    /** server_queue_init. */
    constructor ()
      ensures Valid() && fresh(items) && View() == EmptyRing() && View().Contents() == []
    {
      items := new nat[CAPACITY](k => 0);
      head, tail, count, shuttingDown := 0, 0, 0, false;
      new;
      assert items[..] == EmptyRing().items;
    }

    /** server_queue_push, under the mutex: refused on shutdown or when all places are taken. */
    method Push(conn: nat) returns (ok: bool)
      requires Valid()
      modifies this, items
      ensures Valid() && items == old(items)
      ensures ok <==> !old(shuttingDown) && |old(View().Contents())| < CAPACITY
      ensures View() == if ok then Pushed(old(View()), conn) else old(View())
      ensures View().Contents() == if ok then old(View().Contents()) + [conn] else old(View().Contents())
    {
      if shuttingDown || count == CAPACITY {
        return false;
      }
      PushAppends(View(), conn);
      items[tail] := conn;
      tail := (tail + 1) % CAPACITY;
      count := count + 1;
      return true;
    }

    /** server_queue_pop, under the mutex, once there is no more reason to wait. */
    method Pop() returns (r: Option<nat>)
      requires Valid() && !View().MustWait()
      modifies this
      ensures Valid() && items == old(items)
      ensures r.None? <==> old(View().Contents()) == []
      ensures r.None? ==> View() == old(View()) && old(shuttingDown)
      ensures r.Some? ==> View() == Popped(old(View())) && old(View().Contents()) == [r.value] + View().Contents()
    {
      if count == 0 && shuttingDown {
        return None;
      }
      PopTakesFirst(View());
      var conn := items[head];
      head := (head + 1) % CAPACITY;
      count := count - 1;
      return Some(conn);
    }

    /** server_queue_shutdown, under the mutex. */
    method ShutDown()
      requires Valid()
      modifies this
      ensures Valid() && items == old(items) && View() == old(View()).(shuttingDown := true)
    {
      shuttingDown := true;
    }
  }
}
