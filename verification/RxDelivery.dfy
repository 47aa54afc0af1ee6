/**
 What goes up to the stack, said by the steps of a run: the buffers of a packet stay under assembly, over
 several reads if need be, until a read whose draining met the packet's end is over. And what the two
 histories of the machine mean, said in the same way.
 */
module RxDelivery {
  import opened RxPool

  lemma {:induction false} LastStep(s: State, run: seq<Action>, atomic: bool)
    requires Legal(s, run, atomic) && run != []
    ensures var n := |run| - 1;
            && Legal(s, run[..n], atomic) && Enabled(After(s, run[..n], atomic), run[n])
            && After(s, run, atomic) == Next(After(s, run[..n], atomic), run[n], atomic)
    decreases |run|
  {
    if |run| > 1 {
      var n := |run| - 1;
      LastStep(Next(s, run[0], atomic), run[1..], atomic);
      assert run[1..][..n - 1] == run[..n][1..];
    }
  }

  /** Whether the last draining met the end of a packet. */
  function PacketComplete(run: seq<Action>): bool {
    if run == [] then false
    else
      var n := |run| - 1;
      if run[n].ReaderDrains? then run[n].complete else PacketComplete(run[..n])
  }

  /** The steps with which HAL_ETH_ReadData is over. */
  predicate EndsRead(a: Action, atomic: bool) {
    a.ReaderReturns? || a.ReaderWritesError? || (a.ReaderFindsEmpty? && atomic)
  }

  /** The buffers drained since a packet was last handed up. */
  function Unfinished(run: seq<Action>, atomic: bool): set<nat> {
    if run == [] then {}
    else
      var n := |run| - 1;
      if run[n].ReaderDrains? then Unfinished(run[..n], atomic) + run[n].taken
      else if EndsRead(run[n], atomic) && PacketComplete(run[..n]) then {}
      else Unfinished(run[..n], atomic)
  }

  /** The reader knows whether the packet is complete, and what is under assembly is what was drained. */
  predicate Assembles(s: State, complete: bool, unfinished: set<nat>) {
    && (s.reader.Building? || s.reader.Failing? ==> s.reader.ready == complete)
    && s.assembly == unfinished
  }

  /** One step: the stack gains the unfinished buffers exactly when a read of a complete packet is over. */
  lemma StepDelivers(s: State, a: Action, atomic: bool, complete: bool)
    requires Enabled(s, a) && Assembles(s, complete, s.assembly)
    ensures var t := Next(s, a, atomic);
            && (EndsRead(a, atomic) && complete ==> t.stack == s.stack + s.assembly && t.assembly == {} && t.reader.Testing?)
            && (EndsRead(a, atomic) && !complete ==> t.stack == s.stack && t.assembly == s.assembly && t.reader.Waiting?)
            && (!EndsRead(a, atomic) ==> t.stack == if a.FreerReturns? then s.stack - {a.buffer} else s.stack)
            && (!EndsRead(a, atomic) ==> t.assembly == if a.ReaderDrains? then s.assembly + a.taken else s.assembly)
            && Assembles(t, if a.ReaderDrains? then a.complete else complete, t.assembly)
  {
  }

  lemma {:induction false} AssembliesAlong(run: seq<Action>, atomic: bool)
    requires Legal(INITIAL, run, atomic)
    ensures Assembles(After(INITIAL, run, atomic), PacketComplete(run), Unfinished(run, atomic))
    decreases |run|
  {
    if run != [] {
      var n := |run| - 1;
      LastStep(INITIAL, run, atomic);
      AssembliesAlong(run[..n], atomic);
      StepDelivers(After(INITIAL, run[..n], atomic), run[n], atomic, PacketComplete(run[..n]));
    }
  }

  /**
   In every run, atomic callback or not, the stack gains buffers only when a read is over whose packet is
   complete, and then all that were drained since the last packet was handed up.
   */
  lemma DeliveredExactly(run: seq<Action>, a: Action, atomic: bool)
    requires Legal(INITIAL, run, atomic) && Enabled(After(INITIAL, run, atomic), a)
    ensures var s, t := After(INITIAL, run, atomic), Next(After(INITIAL, run, atomic), a, atomic);
            if EndsRead(a, atomic) && PacketComplete(run) then t.stack == s.stack + Unfinished(run, atomic) && t.assembly == {}
            else t.stack == (if a.FreerReturns? then s.stack - {a.buffer} else s.stack) && s.assembly <= t.assembly
  {
    AssembliesAlong(run, atomic);
    StepDelivers(After(INITIAL, run, atomic), a, atomic, PacketComplete(run));
  }

  /** The reader is not inside a read. */
  predicate BetweenReads(s: State) {
    s.reader.Waiting? || s.reader.Testing? || s.reader.Entering?
  }

  /** After a fatal bus error that strikes outside a read and a restart, no run ever hands up a packet again. */
  lemma BusErrorEndsReception(s: State, run: seq<Action>, atomic: bool)
    requires s.starter.Idle? && BetweenReads(s) && Legal(Next(s, BusError, atomic), run, atomic)
    ensures var t := After(Next(s, BusError, atomic), run, atomic);
            t.driver == Failed && t.stack <= s.stack && t.assembly == s.assembly
  {
    FailedHandsUpNothing(Next(s, BusError, atomic), run, atomic);
  }

  lemma {:induction false} FailedHandsUpNothing(s: State, run: seq<Action>, atomic: bool)
    requires s.driver.Failed? && s.starter.Idle? && BetweenReads(s) && Legal(s, run, atomic)
    ensures var t := After(s, run, atomic);
            t.driver.Failed? && t.stack <= s.stack && t.assembly == s.assembly
    decreases |run|
  {
    if run != [] {
      FailedHandsUpNothing(Next(s, run[0], atomic), run[1..], atomic);
    }
  }

  // ------------------------------------------------------------------ filling the descriptors

  /**
   The status becomes error, or is about to, only for a descriptor without a buffer and with an empty pool;
   and a descriptor is only filled while one is missing.
   */
  lemma ErrorOnlyForMissing(s: State, a: Action, atomic: bool)
    requires Enabled(s, a)
    ensures var t := Next(s, a, atomic);
            && (s.allocOk && !t.allocOk && !s.reader.Failing? && !s.starter.FillFailing? ==> |s.dma| < 4 && s.pool == {})
            && (!s.reader.Failing? && t.reader.Failing? ==> |s.dma| < 4 && s.pool == {} && s.reader.Building?)
            && (!s.starter.FillFailing? && t.starter.FillFailing? ==> |s.dma| < 4 && s.pool == {} && s.starter.Filling?)
            && (!(t.dma <= s.dma) ==> |s.dma| < 4)
  {
  }

  predicate OfStarter(a: Action) {
    a.StarterAllocates? || a.StarterFindsEmpty? || a.StarterWritesError? || a.StarterEnds? || a.StarterStarts? || a.StarterHasStopped?
  }

  /** How many of its own steps a start or a stop still takes at most. */
  function StarterLeft(s: State): nat {
    match s.starter
    case Idle => 0
    case Starting | Stopping => 1
    case FillFailing => 2
    case Filling => 3 + if |s.dma| < 4 then 4 - |s.dma| else 0
  }

  lemma OneMoreBuffer(dma: set<nat>, b: nat)
    requires b !in dma
    ensures |dma + {b}| == |dma| + 1
  {
  }

  /** A start or a stop ends: each of its steps brings it closer to the end, and one is always possible. */
  lemma StarterWindsDown(s: State, a: Action, atomic: bool)
    requires Enabled(s, a) && OfStarter(a) && s.pool !! s.dma
    ensures StarterLeft(Next(s, a, atomic)) < StarterLeft(s)
    ensures Next(s, a, atomic).starter.Idle? ==> Next(s, a, atomic).driver == if a.StarterStarts? then Started else Ready
  {
    if a.StarterAllocates? {
      OneMoreBuffer(s.dma, a.buffer);
    }
  }

  lemma StarterCanMove(s: State) returns (a: Action)
    requires !s.starter.Idle?
    ensures OfStarter(a) && Enabled(s, a)
  {
    match s.starter
    case Starting => a := StarterStarts;
    case Stopping => a := StarterHasStopped;
    case FillFailing => a := StarterWritesError;
    case Filling =>
      if |s.dma| >= DESCRIPTORS {
        a := StarterEnds;
      } else if s.pool == {} {
        a := StarterFindsEmpty;
      } else {
        var b :| b in s.pool;
        a := StarterAllocates(b);
      }
  }

  // ------------------------------------------------------------------ what the two histories mean

  /** The step at i is the reader's, which comes for a good status and finds the driver not started. */
  ghost predicate TurnedAwayAt(run: seq<Action>, i: nat, atomic: bool)
    requires Legal(INITIAL, run, atomic) && i < |run|
  {
    PrefixIsLegal(INITIAL, run, i, atomic);
    var s := After(INITIAL, run[..i], atomic);
    run[i].ReaderEnters? && !s.driver.Started? && s.allocOk
  }

  lemma {:induction false} PrefixIsLegal(s: State, run: seq<Action>, i: nat, atomic: bool)
    requires Legal(s, run, atomic) && i <= |run|
    ensures Legal(s, run[..i], atomic)
    decreases |run|
  {
    if i < |run| {
      LastStep(s, run, atomic);
      var front := run[..|run| - 1];
      PrefixIsLegal(s, front, i, atomic);
      assert front[..i] == run[..i];
    } else {
      assert run[..i] == run;
    }
  }

  /** The steps with which somebody tries to fill the descriptors again, or learns that they cannot be filled. */
  predicate Tries(a: Action, atomic: bool) {
    || a.ReaderEnters? || a.StarterBegins? || a.ReaderWritesError? || a.StarterWritesError?
    || ((a.ReaderFindsEmpty? || a.StarterFindsEmpty?) && atomic)
  }

  lemma ReaderTurnsAway(s: State, a: Action, atomic: bool)
    requires Enabled(s, a) && (a.ReaderEnters? || a.ReaderFindsEmpty? || a.ReaderWritesError? || a.ReaderReturns?)
    ensures Next(s, a, atomic).turnedAway
       <==> (a.ReaderEnters? && !s.driver.Started? && s.allocOk) || (!Tries(a, atomic) && s.turnedAway)
  {
  }

  lemma StarterTurnsAway(s: State, a: Action, atomic: bool)
    requires Enabled(s, a) && (a.StarterBegins? || a.StarterFindsEmpty? || a.StarterWritesError?)
    ensures Next(s, a, atomic).turnedAway <==> !Tries(a, atomic) && s.turnedAway
  {
  }

  lemma OthersDoNotTurnAway(s: State, a: Action, atomic: bool)
    requires Enabled(s, a) && !Tries(a, atomic) && !a.ReaderFindsEmpty? && !a.ReaderReturns? && !a.StarterFindsEmpty?
    ensures Next(s, a, atomic).turnedAway == s.turnedAway
  {
  }

  lemma StepOfTurnedAway(s: State, a: Action, atomic: bool)
    requires Enabled(s, a)
    ensures Next(s, a, atomic).turnedAway
       <==> (a.ReaderEnters? && !s.driver.Started? && s.allocOk) || (!Tries(a, atomic) && s.turnedAway)
  {
    match a
    case ReaderEnters | ReaderFindsEmpty | ReaderWritesError | ReaderReturns => ReaderTurnsAway(s, a, atomic);
    case StarterBegins | StarterFindsEmpty | StarterWritesError => StarterTurnsAway(s, a, atomic);
    case _ => OthersDoNotTurnAway(s, a, atomic);
  }

  lemma StepOfFreedSince(s: State, a: Action, atomic: bool)
    requires Enabled(s, a)
    ensures Next(s, a, atomic).freedSince
       <==> a.FreerReturns? || (!a.ReaderFindsEmpty? && !a.StarterFindsEmpty? && s.freedSince)
  {
  }

  predicate NoTryAfter(run: seq<Action>, i: nat, atomic: bool) {
    forall j :: i < j < |run| ==> !Tries(run[j], atomic)
  }

  ghost predicate SentBackSince(run: seq<Action>, atomic: bool)
    requires Legal(INITIAL, run, atomic)
  {
    exists i: nat :: i < |run| && TurnedAwayAt(run, i, atomic) && NoTryAfter(run, i, atomic)
  }

  lemma SameInFront(run: seq<Action>, front: seq<Action>, i: nat, atomic: bool)
    requires Legal(INITIAL, run, atomic) && Legal(INITIAL, front, atomic)
    requires run != [] && front == run[..|run| - 1] && i < |front|
    ensures TurnedAwayAt(run, i, atomic) == TurnedAwayAt(front, i, atomic)
    ensures NoTryAfter(run, i, atomic) <==> NoTryAfter(front, i, atomic) && !Tries(run[|run| - 1], atomic)
  {
    assert front[..i] == run[..i];
    assert forall j :: 0 <= j < |front| ==> front[j] == run[j];
  }

  lemma SentBackStep(run: seq<Action>, front: seq<Action>, atomic: bool)
    requires Legal(INITIAL, run, atomic) && Legal(INITIAL, front, atomic)
    requires run != [] && front == run[..|run| - 1]
    ensures SentBackSince(run, atomic)
       <==> TurnedAwayAt(run, |run| - 1, atomic) || (!Tries(run[|run| - 1], atomic) && SentBackSince(front, atomic))
  {
    var n := |run| - 1;
    if TurnedAwayAt(run, n, atomic) {
      assert NoTryAfter(run, n, atomic);
    }
    if i: nat :| i < n && TurnedAwayAt(run, i, atomic) && NoTryAfter(run, i, atomic) {
      SameInFront(run, front, i, atomic);
    }
    if !Tries(run[n], atomic) && SentBackSince(front, atomic) {
      var i: nat :| i < n && TurnedAwayAt(front, i, atomic) && NoTryAfter(front, i, atomic);
      SameInFront(run, front, i, atomic);
    }
  }

  /** Since anybody last tried to fill the descriptors, the reader came for a good status and was sent back. */
  lemma {:induction false} TurnedAwayMeans(run: seq<Action>, atomic: bool)
    requires Legal(INITIAL, run, atomic)
    ensures After(INITIAL, run, atomic).turnedAway <==> SentBackSince(run, atomic)
    decreases |run|
  {
    if run != [] {
      var n := |run| - 1;
      LastStep(INITIAL, run, atomic);
      TurnedAwayMeans(run[..n], atomic);
      StepOfTurnedAway(After(INITIAL, run[..n], atomic), run[n], atomic);
      SentBackStep(run, run[..n], atomic);
    }
  }

  /** Since anybody last found the pool empty, a buffer was returned to it. */
  lemma {:induction false} FreedSinceMeans(run: seq<Action>, atomic: bool)
    requires Legal(INITIAL, run, atomic)
    ensures After(INITIAL, run, atomic).freedSince
       <==> exists i :: 0 <= i < |run| && run[i].FreerReturns?
                        && forall j :: i < j < |run| ==> !run[j].ReaderFindsEmpty? && !run[j].StarterFindsEmpty?
    decreases |run|
  {
    if run != [] {
      var n := |run| - 1;
      var front := run[..n];
      LastStep(INITIAL, run, atomic);
      FreedSinceMeans(front, atomic);
      StepOfFreedSince(After(INITIAL, front, atomic), run[n], atomic);
      assert forall j :: 0 <= j < n ==> front[j] == run[j];
      if i :| 0 <= i < n && front[i].FreerReturns? && forall j :: i < j < n ==> !front[j].ReaderFindsEmpty? && !front[j].StarterFindsEmpty? {
        assert run[i].FreerReturns?;
      }
    }
  }
}
