/**
 The response queue of the server: a ring of 128 records. The class is the code between locking and
 unlocking the queue's mutex; the step machine in Pipeline adds the mutex, the condition variable and
 the threads.
 */
module ResponseQueue {
  import opened Basics

  const CAPACITY := 128

  /** A received response with the time it arrived. */
  datatype Record = Record(testId: nat, result: nat, receivedTime: int)

  /** What the queue means: the records in it, oldest first, and whether shutdown was requested. */
  datatype Fifo = Fifo(items: seq<Record>, closed: bool)

  /** A push is accepted exactly when the queue is not full, whether or not it is closed. */
  predicate Accepts(q: Fifo) {
    |q.items| < CAPACITY
  }

  function Pushed(q: Fifo, r: Record): Fifo {
    if Accepts(q) then q.(items := q.items + [r]) else q
  }

  /** What a consumer holding the mutex finds: it has to wait, the queue is finished, or a record. */
  datatype PopOutcome = MustWait | Finished | Popped(record: Record)

  function PopResult(q: Fifo): PopOutcome {
    if q.items != [] then Popped(q.items[0])
    else if q.closed then Finished
    else MustWait
  }

  function AfterPop(q: Fifo): Fifo {
    if q.items != [] then q.(items := q.items[1..]) else q
  }

  /** What a consumer gets by popping until it would have to wait or is told that the queue is finished. */
  function Drained(q: Fifo): seq<Record>
    decreases |q.items|
  {
    match PopResult(q)
    case Popped(r) => [r] + Drained(AfterPop(q))
    case _ => []
  }

  /** Shutting down loses nothing: what is queued is still delivered, in order, and no pop waits any more. */
  lemma {:induction false} ShutdownStillDelivers(q: Fifo)
    requires q.closed
    ensures Drained(q) == q.items
    ensures !PopResult(q).MustWait?
    decreases |q.items|
  {
    if q.items != [] {
      ShutdownStillDelivers(AfterPop(q));
    }
  }

  /** The ring's records, oldest first: count of them, starting at head and wrapping at the capacity. */
  function RingItems(slots: seq<Record>, head: nat, count: nat): (items: seq<Record>)
    requires |slots| == CAPACITY
    ensures |items| == count
  {
    seq(count, i requires 0 <= i < count => slots[(head + i) % CAPACITY])
  }

  lemma StoringAppends(slots: seq<Record>, head: nat, count: nat, r: Record)
    requires |slots| == CAPACITY && head < CAPACITY && count < CAPACITY
    ensures RingItems(slots[(head + count) % CAPACITY := r], head, count + 1) == RingItems(slots, head, count) + [r]
  {
    var after := RingItems(slots[(head + count) % CAPACITY := r], head, count + 1);
    forall i | 0 <= i < count
      ensures after[i] == RingItems(slots, head, count)[i]
    {
      assert (head + i) % CAPACITY != (head + count) % CAPACITY;
    }
  }

  lemma TakingDropsOldest(slots: seq<Record>, head: nat, count: nat)
    requires |slots| == CAPACITY && head < CAPACITY && 0 < count <= CAPACITY
    ensures (head + 1) % CAPACITY == (if head + 1 >= CAPACITY then 0 else head + 1)
    ensures ((head + 1) % CAPACITY + (count - 1)) % CAPACITY == (head + count) % CAPACITY
    ensures RingItems(slots, (head + 1) % CAPACITY, count - 1) == RingItems(slots, head, count)[1..]
  {
    var after := RingItems(slots, (head + 1) % CAPACITY, count - 1);
    forall i | 0 <= i < count - 1
      ensures after[i] == RingItems(slots, head, count)[i + 1]
    {
      assert ((head + 1) % CAPACITY + i) % CAPACITY == (head + (i + 1)) % CAPACITY;
    }
  }

  /** What push, pop and shutdown mean, by the records alone. */
  lemma FifoLaws(q: Fifo, r: Record)
    ensures |q.items| < 128 ==> Pushed(q, r) == Fifo(q.items + [r], q.closed)
    ensures |q.items| >= 128 ==> Pushed(q, r) == q
    ensures q.items != [] ==> PopResult(q) == Popped(q.items[0]) && AfterPop(q) == Fifo(q.items[1..], q.closed)
    ensures q.items == [] ==> AfterPop(q) == q && PopResult(q) == if q.closed then Finished else MustWait
  {
  }

  class Queue {
    const buffer: array<Record>
    var head: nat
    var tail: nat
    var count: nat
    var shutdownRequested: bool

    ghost predicate Valid()
      reads this
    {
      && buffer.Length == CAPACITY
      && head < CAPACITY && tail < CAPACITY && count <= CAPACITY
      && tail == (head + count) % CAPACITY
    }

    ghost function View(): Fifo
      requires Valid()
      reads this, buffer
    {
      Fifo(RingItems(buffer[..], head, count), shutdownRequested)
    }

    /** response_queue_init. */
    constructor ()
      ensures Valid() && fresh(buffer) && View() == Fifo([], false)
    {
      buffer := new Record[CAPACITY](i => Record(0, 0, 0));
      head, tail, count := 0, 0, 0;
      shutdownRequested := false;
    }

    /** response_queue_push; None is the null pointer. A full ring refuses and keeps its 128 records. */
    method Push(record: Option<Record>) returns (ok: bool)
      requires Valid()
      modifies this`tail, this`count, buffer
      ensures Valid() && |View().items| <= 128
      ensures ok <==> record.Some? && |old(View()).items| < 128
      ensures ok ==> View().items == old(View()).items + [record.value] && View().closed == old(View()).closed
      ensures !ok ==> View() == old(View())
    {
      if record.None? {
        return false;
      }
      if count >= CAPACITY {
        return false;
      }
      StoringAppends(buffer[..], head, count, record.value);
      buffer[tail] := record.value;
      tail := tail + 1;
      if tail >= CAPACITY {
        tail := 0;
      }
      count := count + 1;
      ok := true;
    }

    /**
     One pass through response_queue_pop with the mutex held: either the wait loop has to sleep, or the
     call is decided.
     */
    method Pop() returns (outcome: PopOutcome)
      requires Valid()
      modifies this`head, this`count
      ensures Valid()
      ensures old(View()).items != [] ==> outcome == Popped(old(View()).items[0])
      ensures old(View()).items != [] ==> View().items == old(View()).items[1..] && View().closed == old(View()).closed
      ensures old(View()).items == [] ==> View() == old(View()) && outcome == if old(View()).closed then Finished else MustWait
    {
      if count == 0 && !shutdownRequested {
        return MustWait;
      }
      if count == 0 && shutdownRequested {
        return Finished;
      }
      TakingDropsOldest(buffer[..], head, count);
      ghost var next := (head + 1) % CAPACITY;
      outcome := Popped(buffer[head]);
      head := head + 1;
      if head >= CAPACITY {
        head := 0;
      }
      assert head == next;
      count := count - 1;
    }

    /** response_queue_shutdown. */
    method Shutdown()
      requires Valid()
      modifies this`shutdownRequested
      ensures Valid() && View() == old(View()).(closed := true)
    {
      shutdownRequested := true;
    }
  }
}
