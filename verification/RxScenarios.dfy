/**
 How reception can stop: for good when the allocate callback is interrupted between seeing the pool empty
 and writing the status, and until the next interrupt when the driver was busy as a buffer came free.
 */
module RxScenarios {
  import opened RxPool
  import opened RxOwnership
  import opened RxProtocol

  /** Reception is dead: the status is error and nobody is left who could reset it. */
  predicate Dead(s: State) {
    && !s.allocOk && s.stack == {} && s.testing == 0 && s.resetting == 0
    && (s.reader.Waiting? || s.reader.Testing?)
  }

  /** Nothing revives it: no interrupt, no restart of the driver, no wake-up; and no packet is delivered. */
  lemma {:induction false} DeadForever(s: State, run: seq<Action>, atomic: bool)
    requires Dead(s) && Legal(s, run, atomic)
    ensures Dead(After(s, run, atomic)) && After(s, run, atomic).assembly == s.assembly
    decreases |run|
  {
    if run != [] {
      DeadForever(Next(s, run[0], atomic), run[1..], atomic);
    }
  }

  /**
   With an atomic callback it cannot die with a buffer in the pool: an unfinished packet would have to hold
   eight of them.
   */
  lemma AtomicDiesOnlyExhausted(s: State)
    requires Reachable(s, true) && Dead(s)
    ensures s.pool == {} && |s.assembly| >= BUFFERS - DESCRIPTORS
  {
    ReachableProtocol(s);
    forall b | b in AllBuffers()
      ensures b in s.dma + s.assembly
    {
      EveryBufferHasOneOwner(s, true, b);
    }
    EveryBufferHasOneOwner(s, true, 0);
    assert |AllBuffers()| == BUFFERS;
    SubsetIsSmaller(AllBuffers(), s.dma + s.assembly);
    assert |s.dma + s.assembly| <= |s.dma| + |s.assembly|;
  }

  lemma {:induction false} SubsetIsSmaller(a: set<nat>, b: set<nat>)
    requires a <= b
    ensures |a| <= |b|
  {
    assert b == a + (b - a);
  }

  // ------------------------------------------------------------------ the window of the callback

  function ReaderStage(r: Reader): nat {
    match r
    case Entering => 4
    case Draining => 3
    case Building(_) => 2
    case Failing(_) => 1
    case _ => 0
  }

  /** The reader can always come to the end of what it is doing; nobody else has to move. */
  lemma {:induction false} ReaderFinishes(s: State) returns (t: State)
    requires Reachable(s, false)
    ensures Reachable(t, false) && (t.reader.Waiting? || t.reader.Testing?)
    ensures t.starter == s.starter && (ReaderStage(s.reader) == 0 ==> t == s)
    decreases ReaderStage(s.reader), s.pool
  {
    match s.reader
    case Entering =>
      t := Onward(s, ReaderEnters, false);
      t := ReaderFinishes(t);
    case Draining =>
      t := Onward(s, ReaderDrains({}, false), false);
      t := ReaderFinishes(t);
    case Building(_) =>
      if |s.dma| >= DESCRIPTORS {
        t := Onward(s, ReaderReturns, false);
      } else if s.pool == {} {
        t := Onward(s, ReaderFindsEmpty, false);
        t := Onward(t, ReaderWritesError, false);
      } else {
        var b :| b in s.pool;
        t := Onward(s, ReaderAllocates(b), false);
        t := ReaderFinishes(t);
      }
    case Failing(_) =>
      t := Onward(s, ReaderWritesError, false);
    case _ =>
      t := s;
  }

  /**
   While the late write is still to come, all freeing threads can come to their end and all buffers of the
   stack can be freed; then the write comes, and nobody is left to reset the status.
   */
  lemma {:induction false} FreersFinishFirst(s: State) returns (t: State)
    requires Reachable(s, false) && s.starter.FillFailing? && (s.reader.Waiting? || s.reader.Testing?)
    ensures Reachable(t, false) && Dead(t) && t.pool == s.pool + s.stack && t.dma == s.dma
    decreases s.stack, 2 * s.testing + s.resetting
  {
    if s.testing > 0 {
      t := Onward(s, FreerTests, false);
      t := FreersFinishFirst(t);
    } else if s.resetting > 0 {
      t := Onward(s, FreerResets, false);
      t := FreersFinishFirst(t);
    } else if s.stack == {} {
      t := Onward(s, StarterWritesError, false);
    } else {
      var b :| b in s.stack;
      t := Onward(s, FreerReturns(b), false);
      assert t.pool + t.stack == s.pool + s.stack;
      t := FreersFinishFirst(t);
    }
  }

  /**
   Without atomicity the window is fatal: from every reachable state in which the starter has seen the pool
   empty and not yet written the status, reception can die; and unless the reader is in the middle of
   reading, it can do so with all of the stack's buffers back in the pool.
   */
  lemma WindowIsFatal(s: State) returns (t: State)
    requires Reachable(s, false) && s.starter.FillFailing?
    ensures Reachable(t, false) && Dead(t)
    ensures s.reader.Waiting? || s.reader.Testing? ==> t.pool == s.pool + s.stack && t.dma == s.dma
  {
    t := ReaderFinishes(s);
    t := FreersFinishFirst(t);
  }

  // ------------------------------------------------------------------ runs

  function Elements(buffers: seq<nat>): set<nat> {
    set b | b in buffers
  }

  lemma ElementsOfRest(buffers: seq<nat>)
    requires buffers != []
    ensures Elements(buffers) == {buffers[0]} + Elements(buffers[1..])
  {
    assert buffers == [buffers[0]] + buffers[1..];
  }

  lemma MovedOneByOne(pool: set<nat>, dma: set<nat>, b: nat, rest: set<nat>)
    ensures pool - ({b} + rest) == (pool - {b}) - rest
    ensures dma + ({b} + rest) == (dma + {b}) + rest
    ensures |dma + {b}| <= |dma| + 1
  {
    if b in dma {
      assert dma + {b} == dma;
    }
  }

  /** The reader or the starter takes a buffer from the pool. */
  lemma Takes(s: State, b: nat, byReader: bool, atomic: bool) returns (t: State)
    requires Reachable(s, atomic) && (if byReader then s.reader.Building? else s.starter.Filling?)
    requires |s.dma| < DESCRIPTORS && b in s.pool
    ensures Reachable(t, atomic) && t == s.(pool := s.pool - {b}, dma := s.dma + {b})
  {
    t := Onward(s, if byReader then ReaderAllocates(b) else StarterAllocates(b), atomic);
  }

  /** The buffers are distinct and in the pool. */
  ghost predicate Drawable(buffers: seq<nat>, pool: set<nat>) {
    && (forall i :: 0 <= i < |buffers| ==> buffers[i] in pool)
    && (forall i, j :: 0 <= i < j < |buffers| ==> buffers[i] != buffers[j])
  }

  lemma RestIsDrawable(buffers: seq<nat>, pool: set<nat>)
    requires buffers != [] && Drawable(buffers, pool)
    ensures Drawable(buffers[1..], pool - {buffers[0]})
  {
    var rest := buffers[1..];
    assert forall i :: 0 <= i < |rest| ==> rest[i] == buffers[i + 1] && rest[i] != buffers[0];
  }

  /** One by one they take several, while there is room for them. */
  lemma {:induction false} Fills(s: State, buffers: seq<nat>, byReader: bool, atomic: bool) returns (t: State)
    requires Reachable(s, atomic) && (if byReader then s.reader.Building? else s.starter.Filling?)
    requires |s.dma| + |buffers| <= DESCRIPTORS && Drawable(buffers, s.pool)
    ensures Reachable(t, atomic)
    ensures t == s.(pool := s.pool - Elements(buffers), dma := s.dma + Elements(buffers))
    decreases |buffers|
  {
    if buffers == [] {
      t := s;
      assert Elements(buffers) == {};
      assert s.pool - {} == s.pool && s.dma + {} == s.dma;
    } else {
      var b, rest := buffers[0], buffers[1..];
      RestIsDrawable(buffers, s.pool);
      MovedOneByOne(s.pool, s.dma, b, Elements(rest));
      ElementsOfRest(buffers);
      t := Takes(s, b, byReader, atomic);
      t := Fills(t, rest, byReader, atomic);
    }
  }

  lemma FillsFour(s: State, a: nat, b: nat, c: nat, d: nat, byReader: bool, atomic: bool) returns (t: State)
    requires Reachable(s, atomic) && (if byReader then s.reader.Building? else s.starter.Filling?)
    requires s.dma == {} && {a, b, c, d} <= s.pool && a < b < c < d
    ensures Reachable(t, atomic)
    ensures t == s.(pool := s.pool - {a, b, c, d}, dma := {a, b, c, d})
    ensures |t.dma| == DESCRIPTORS
  {
    assert Elements([a, b, c, d]) == {a, b, c, d};
    t := Fills(s, [a, b, c, d], byReader, atomic);
    assert {} + {a, b, c, d} == {a, b, c, d};
  }

  lemma Started(atomic: bool) returns (t: State)
    ensures Reachable(t, atomic)
    ensures t == INITIAL.(pool := {4, 5, 6, 7, 8, 9, 10, 11}, dma := {0, 1, 2, 3}, driver := Driver.Started)
  {
    LeadsNowhere(INITIAL, atomic);
    t := Onward(INITIAL, StarterBegins, atomic);
    t := FillsFour(t, 0, 1, 2, 3, false, atomic);
    assert AllBuffers() - {0, 1, 2, 3} == {4, 5, 6, 7, 8, 9, 10, 11};
    t := Onward(t, StarterEnds, atomic);
    t := Onward(t, StarterStarts, atomic);
  }

  /** One packet takes all the descriptors' buffers, and four buffers from the pool replace them. */
  lemma ReceivesPacket(s: State, a: nat, b: nat, c: nat, d: nat, atomic: bool) returns (t: State)
    requires Reachable(s, atomic) && s.reader.Testing? && s.allocOk && s.driver.Started? && !s.turnedAway
    requires s.dma != {} && s.assembly == {}
    requires {a, b, c, d} <= s.pool && a < b < c < d
    ensures Reachable(t, atomic)
    ensures t == s.(pool := s.pool - {a, b, c, d}, dma := {a, b, c, d}, stack := s.stack + s.dma)
  {
    t := Onward(s, ReaderTests, atomic);
    t := Onward(t, ReaderEnters, atomic);
    t := Onward(t, ReaderDrains(s.dma, true), atomic);
    assert t.dma == {};
    t := FillsFour(t, a, b, c, d, true, atomic);
    t := Onward(t, ReaderReturns, atomic);
  }

  /** Two packets have used up the pool, and the first buffer of a third leaves a descriptor without one. */
  lemma UsesUpPool(atomic: bool) returns (t: State)
    ensures Reachable(t, atomic)
    ensures t == INITIAL.(pool := {}, dma := {9, 10, 11}, assembly := {8}, stack := {0, 1, 2, 3, 4, 5, 6, 7},
                          driver := Driver.Started, reader := Building(true))
  {
    t := Started(atomic);
    t := Onward(t, RxInterrupt, atomic);
    t := Onward(t, ReaderWakes, atomic);
    t := ReceivesPacket(t, 4, 5, 6, 7, atomic);
    t := ReceivesPacket(t, 8, 9, 10, 11, atomic);
    assert t.pool == {} && t.stack == {0, 1, 2, 3, 4, 5, 6, 7};
    t := TakesFirst(t, 8, atomic);
    assert t.dma == {9, 10, 11};
  }

  /** The reader takes the first buffer of a packet. */
  lemma TakesFirst(s: State, b: nat, atomic: bool) returns (t: State)
    requires Reachable(s, atomic) && s.reader.Testing? && s.allocOk && s.driver.Started? && !s.turnedAway
    requires b in s.dma && s.assembly == {}
    ensures Reachable(t, atomic)
    ensures t == s.(dma := s.dma - {b}, assembly := {b}, reader := Building(true))
  {
    t := Onward(s, ReaderTests, atomic);
    t := Onward(t, ReaderEnters, atomic);
    t := Onward(t, ReaderDrains({b}, true), atomic);
    assert t.assembly == {b};
  }

  /** The pool is exhausted, the reader waits, and the driver has been stopped and is being started again. */
  lemma RestartsExhausted(atomic: bool) returns (t: State)
    ensures Reachable(t, atomic)
    ensures t == INITIAL.(pool := {}, dma := {9, 10, 11}, stack := {0, 1, 2, 3, 4, 5, 6, 7, 8},
                          driver := Busy, starter := Filling, allocOk := false)
  {
    t := UsesUpPool(atomic);
    t := Onward(t, ReaderFindsEmpty, atomic);
    if !atomic {
      t := Onward(t, ReaderWritesError, atomic);
    }
    t := Onward(t, ReaderTests, atomic);
    t := Onward(t, StarterStops, atomic);
    t := Onward(t, StarterHasStopped, atomic);
    t := Onward(t, StarterBegins, atomic);
    assert t.stack == {0, 1, 2, 3, 4, 5, 6, 7, 8};
  }

  /**
   The pool is used up while the driver is restarted, and so reception can die for good with nine of the
   twelve buffers idle in the pool.
   */
  lemma ReceptionCanDie() returns (t: State)
    ensures Reachable(t, false) && Dead(t)
    ensures t.pool == {0, 1, 2, 3, 4, 5, 6, 7, 8}
  {
    t := RestartsExhausted(false);
    t := Onward(t, StarterFindsEmpty, false);
    t := WindowIsFatal(t);
  }

  /** Whatever is freed while the driver is past its descriptors and still busy: the signal comes to nothing. */
  lemma BusyDriverEatsSignal(s: State, b: nat, atomic: bool) returns (t: State)
    requires Reachable(s, atomic) && s.starter.Starting? && s.driver.Busy?
    requires !s.allocOk && s.reader.Waiting? && b in s.stack
    ensures Reachable(t, atomic)
    ensures t == s.(stack := s.stack - {b}, pool := s.pool + {b}, allocOk := true, semaphore := false,
                    turnedAway := true, freedSince := true)
  {
    t := FreeingAlone(s, b, atomic);
    ReachableLeads(s, t, atomic);
    t := Onward(t, ReaderWakes, atomic);
    t := Onward(t, ReaderTests, atomic);
    t := Onward(t, ReaderEnters, atomic);
  }

  /**
   Even with an atomic callback a buffer can lie idle while a descriptor is missing: it is freed after the
   restarting driver found the pool empty, and the reader that is signalled finds the driver busy.
   */
  lemma BufferCanLieIdle() returns (t: State)
    ensures Reachable(t, true) && AtRest(t)
    ensures |t.dma| < DESCRIPTORS && t.pool == {0} && t.allocOk
  {
    t := RestartsExhausted(true);
    t := Onward(t, StarterFindsEmpty, true);
    t := BusyDriverEatsSignal(t, 0, true);
    t := Onward(t, StarterStarts, true);
    assert t.dma == {9, 10, 11} && t.pool == {0};
  }
}
