/**
 What the exhaustion protocol of the receive pool keeps: when a descriptor can stay without a buffer, who
 will fill it, and the one step that breaks the protocol when the allocate callback is not atomic.
 */
module RxProtocol {
  import opened RxPool

  /** A status of error with buffers to be had means that a freeing thread is still about to reset it. */
  predicate NoStaleError(s: State) {
    !s.allocOk && s.pool != {} ==> s.testing + s.resetting > 0
  }

  /**
   The exact condition for the code as it is written: the only step that breaks this is the late write of
   the status, and it does so exactly when the pool has been refilled by threads that are all past it. With
   the callback atomic there is no such step.
   */
  lemma StaleErrorExactly(s: State, a: Action)
    requires NoStaleError(s) && Enabled(s, a)
    ensures NoWindow(s) ==> NoStaleError(Next(s, a, true))
    ensures !NoStaleError(Next(s, a, false)) <==>
            (a.ReaderWritesError? || a.StarterWritesError?) && s.pool != {} && s.testing + s.resetting == 0
  {
  }

  /** With the callback atomic nobody is ever between seeing the pool empty and writing the status. */
  predicate NoWindow(s: State) {
    !s.reader.Failing? && !s.starter.FillFailing?
  }

  /** Nobody is filling descriptors, and they have been tried since the driver was last started. */
  predicate Settled(s: State) {
    && (s.driver.Started? || s.starter.Starting?) && !s.starter.Filling?
    && (s.reader.Waiting? || s.reader.Testing? || s.reader.Entering?)
  }

  /** While a descriptor is missing, the reader is on its way, or will be signalled, or has been turned away. */
  predicate RefillPending(s: State) {
    Settled(s) && |s.dma| < DESCRIPTORS ==>
      || !s.allocOk || s.releasing > 0 || s.semaphore || !s.reader.Waiting?
      || s.turnedAway
  }

  /** While a descriptor is missing, what the pool holds has been returned since it was last found empty. */
  predicate PoolRefilled(s: State) {
    Settled(s) && |s.dma| < DESCRIPTORS ==> (s.pool != {} <==> s.freedSince)
  }

  predicate TurnedAwayFromGood(s: State) {
    s.turnedAway ==> s.allocOk
  }

  /** The starter is at work exactly in the states of the driver that only it leaves. */
  predicate StarterAtWork(s: State) {
    && (s.driver.Busy? ==> !s.starter.Idle?)
    && (!s.starter.Idle? ==> s.driver.Busy? || s.driver.Failed?)
  }

  ghost predicate Protocol(s: State) {
    NoStaleError(s) && NoWindow(s) && RefillPending(s) && PoolRefilled(s) && TurnedAwayFromGood(s) && StarterAtWork(s)
  }

  lemma NoStaleErrorKept(s: State, a: Action)
    requires NoStaleError(s) && NoWindow(s) && Enabled(s, a)
    ensures NoStaleError(Next(s, a, true)) && NoWindow(Next(s, a, true))
  {
  }

  lemma RefillPendingKept(s: State, a: Action)
    requires RefillPending(s) && TurnedAwayFromGood(s) && StarterAtWork(s) && NoWindow(s) && Enabled(s, a)
    ensures RefillPending(Next(s, a, true)) && TurnedAwayFromGood(Next(s, a, true)) && StarterAtWork(Next(s, a, true))
  {
  }

  lemma PoolRefilledKept(s: State, a: Action)
    requires PoolRefilled(s) && NoWindow(s) && StarterAtWork(s) && Enabled(s, a)
    ensures PoolRefilled(Next(s, a, true))
  {
  }

  lemma {:induction false} ProtocolAlong(s: State, run: seq<Action>)
    requires Protocol(s) && Legal(s, run, true)
    ensures Protocol(After(s, run, true))
    decreases |run|
  {
    if run != [] {
      NoStaleErrorKept(s, run[0]);
      RefillPendingKept(s, run[0]);
      PoolRefilledKept(s, run[0]);
      ProtocolAlong(Next(s, run[0], true), run[1..]);
    }
  }

  lemma ReachableProtocol(s: State)
    requires Reachable(s, true)
    ensures Protocol(s)
  {
    var run :| Legal(INITIAL, run, true) && After(INITIAL, run, true) == s;
    ProtocolAlong(INITIAL, run);
  }

  // ------------------------------------------------------------------ the theorems

  /**
   With an atomic callback, an error status while the pool has a buffer means that some thread that freed
   one has yet to test or reset the status.
   */
  lemma ErrorMeansFreerUnderWay(s: State)
    requires Reachable(s, true) && !s.allocOk && s.pool != {}
    ensures s.testing > 0 || s.resetting > 0
  {
    ReachableProtocol(s);
  }

  /** The driver is started, the reader waits, and nobody is inside any of the protocol's code. */
  predicate AtRest(s: State) {
    && s.driver.Started? && s.reader.Waiting? && !s.semaphore && s.starter.Idle?
    && s.testing == 0 && s.resetting == 0 && s.releasing == 0
  }

  /**
   A descriptor is missing at rest. Either the status says so, and then every buffer is taken; or it is
   good, exactly when the reader was turned away by the busy driver after the descriptors were last tried.
   A buffer lies idle in the pool meanwhile exactly when, besides, one was freed since the pool was empty.
   */
  lemma MissingAtRest(s: State)
    requires Reachable(s, true) && AtRest(s) && |s.dma| < DESCRIPTORS
    ensures s.allocOk <==> s.turnedAway
    ensures !s.turnedAway ==> s.pool == {}
    ensures s.pool != {} <==> s.turnedAway && s.freedSince
  {
    ReachableProtocol(s);
  }

  /** If the reader was not turned away, the next buffer that is freed, whichever it is, gets it going again. */
  lemma NextFreeRestarts(s: State, b: nat) returns (t: State)
    requires Reachable(s, true) && AtRest(s) && |s.dma| < DESCRIPTORS && b in s.stack && !s.turnedAway
    ensures Reachable(t, true)
    ensures t == s.(stack := s.stack - {b}, pool := {b}, allocOk := true, reader := Draining, freedSince := true)
  {
    MissingAtRest(s);
    t := Onward(s, FreerReturns(b), true);
    t := Onward(t, FreerTests, true);
    t := Onward(t, FreerResets, true);
    t := Onward(t, FreerReleases, true);
    t := Onward(t, ReaderWakes, true);
    t := Onward(t, ReaderTests, true);
    t := Onward(t, ReaderEnters, true);
  }

  /** If it was, a freed buffer only adds to the pool: the state stays at rest with the descriptor missing. */
  lemma NextFreeIsWasted(s: State, b: nat) returns (t: State)
    requires Reachable(s, true) && AtRest(s) && |s.dma| < DESCRIPTORS && b in s.stack && s.turnedAway
    ensures Reachable(t, true) && AtRest(t)
    ensures t == s.(stack := s.stack - {b}, pool := s.pool + {b}, freedSince := true)
  {
    MissingAtRest(s);
    t := Onward(s, FreerReturns(b), true);
    t := Onward(t, FreerTests, true);
  }

  /** What still holds then: the next receive interrupt makes the reader fill a descriptor from the pool. */
  lemma NextInterruptRefills(s: State, b: nat) returns (t: State)
    requires Reachable(s, true) && AtRest(s) && |s.dma| < DESCRIPTORS && b in s.pool
    ensures Reachable(t, true)
    ensures t == s.(pool := s.pool - {b}, dma := s.dma + {b}, reader := Building(false), turnedAway := false)
  {
    MissingAtRest(s);
    t := Onward(s, RxInterrupt, true);
    t := Onward(t, ReaderWakes, true);
    t := Onward(t, ReaderTests, true);
    t := Onward(t, ReaderEnters, true);
    t := Onward(t, ReaderDrains({}, false), true);
    assert t.dma == s.dma && t.assembly == s.assembly;
    t := Onward(t, ReaderAllocates(b), true);
  }
}
