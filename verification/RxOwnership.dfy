/** Who owns a receive buffer: every one has exactly one owner, and what the callbacks do with it, undisturbed. */
module RxOwnership {
  import opened Basics
  import opened RxPool

  /** In how many places a buffer is. */
  function Places(s: State, b: nat): nat {
    (if b in s.pool then 1 else 0) + (if b in s.dma then 1 else 0)
    + (if b in s.assembly then 1 else 0) + (if b in s.stack then 1 else 0)
  }

  /** Every one of the twelve buffers is in exactly one place, and the descriptors never hold more than four. */
  ghost predicate Owned(s: State) {
    && (forall b: nat :: Places(s, b) == if b < BUFFERS then 1 else 0)
    && |s.dma| <= DESCRIPTORS
  }

  lemma DrainedFewer(dma: set<nat>, taken: set<nat>)
    requires taken <= dma
    ensures |dma - taken| <= |dma|
  {
    assert dma == (dma - taken) + taken;
  }

  lemma PlacesKept(s: State, a: Action, atomic: bool, b: nat)
    requires Enabled(s, a) && Places(s, b) <= 1
    ensures Places(Next(s, a, atomic), b) == Places(s, b)
  {
    match a
    case ReaderAllocates(c) => assert b == c || b != c;
    case StarterAllocates(c) => assert b == c || b != c;
    case FreerReturns(c) => assert b == c || b != c;
    case _ =>
  }

  lemma OwnedKept(s: State, a: Action, atomic: bool)
    requires Owned(s) && Enabled(s, a)
    ensures Owned(Next(s, a, atomic))
  {
    var t := Next(s, a, atomic);
    forall b: nat
      ensures Places(t, b) == if b < BUFFERS then 1 else 0
    {
      PlacesKept(s, a, atomic, b);
    }
    if a.ReaderDrains? {
      DrainedFewer(s.dma, a.taken);
    }
  }

  lemma {:induction false} OwnedAlong(s: State, run: seq<Action>, atomic: bool)
    requires Owned(s) && Legal(s, run, atomic)
    ensures Owned(After(s, run, atomic))
    decreases |run|
  {
    if run != [] {
      OwnedKept(s, run[0], atomic);
      OwnedAlong(Next(s, run[0], atomic), run[1..], atomic);
    }
  }

  /** Whether or not the callback is atomic, no run ever loses a buffer or gives it to two owners. */
  lemma EveryBufferHasOneOwner(s: State, atomic: bool, b: nat)
    requires Reachable(s, atomic) && b < BUFFERS
    ensures Places(s, b) == 1
    ensures |s.dma| <= DESCRIPTORS
  {
    var run :| Legal(INITIAL, run, atomic) && After(INITIAL, run, atomic) == s;
    OwnedAlong(INITIAL, run, atomic);
  }

  // ------------------------------------------------------------------ the callbacks, undisturbed

  /** A freeing thread on its own: the buffer is back, and a status of error is reset and signalled. */
  lemma FreeingAlone(s: State, b: nat, atomic: bool) returns (t: State)
    requires b in s.stack
    ensures Leads(s, t, atomic)
    ensures t == s.(stack := s.stack - {b}, pool := s.pool + {b}, allocOk := true,
                    semaphore := s.semaphore || !s.allocOk, freedSince := true)
  {
    var s1 := Next(s, FreerReturns(b), atomic);
    var s2 := Next(s1, FreerTests, atomic);
    if s.allocOk {
      t := s2;
      LeadsNowhere(t, atomic);
    } else {
      var s3 := Next(s2, FreerResets, atomic);
      t := Next(s3, FreerReleases, atomic);
      LeadsNowhere(t, atomic);
      LeadsNext(s3, FreerReleases, t, atomic);
      LeadsNext(s2, FreerResets, t, atomic);
    }
    LeadsNext(s1, FreerTests, t, atomic);
    LeadsNext(s, FreerReturns(b), t, atomic);
  }

  /** The variables that the callbacks touch; `others` stands for the rest of the state. */
  class Glue {
    var pool: set<nat>
    var stack: set<nat>
    var allocOk: bool
    var semaphore: bool
    ghost var others: State

    ghost function View(): State
      reads this
    {
      others.(pool := pool, stack := stack, allocOk := allocOk, semaphore := semaphore)
    }

    constructor ()
      ensures View() == INITIAL
    {
      pool, stack, allocOk, semaphore := AllBuffers(), {}, true, false;
      others := INITIAL;
    }

    /** pbuf_free_custom for the buffer b: one freeing thread's steps from start to end. */
    method PbufFreeCustom(b: nat, ghost atomic: bool)
      requires b in stack
      modifies this
      ensures Leads(old(View()), View(), atomic)
      ensures pool == old(pool) + {b} && stack == old(stack) - {b}
      ensures allocOk && semaphore == (old(semaphore) || !old(allocOk))
      ensures others == old(others).(freedSince := true)
    {
      ghost var t := FreeingAlone(View(), b, atomic);
      pool := pool + {b};
      stack := stack - {b};
      if !allocOk {
        allocOk := true;
        semaphore := true;
      }
      others := others.(freedSince := true);
      assert View() == t;
    }

    /** HAL_ETH_RxAllocateCallback: a buffer from the pool, or the error status and none. */
    method RxAllocate() returns (buffer: Option<nat>)
      modifies this`pool, this`allocOk
      ensures buffer.Some? <==> old(pool) != {}
      ensures buffer.Some? ==> buffer.value in old(pool) && pool == old(pool) - {buffer.value} && allocOk == old(allocOk)
      ensures buffer.None? ==> pool == {} && !allocOk
    {
      if pool != {} {
        var b :| b in pool;
        pool := pool - {b};
        buffer := Some(b);
      } else {
        allocOk := false;
        buffer := None;
      }
    }
  }
}
