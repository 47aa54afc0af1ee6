/**
 What every interleaving of main, the receiver and the writer keeps: who holds the mutex, that no record
 is lost, doubled or reordered on its way through the ring, and that the writer never sleeps through work.
 */
module PipelineSafety {
  import opened Basics
  import opened Pipeline
  import Q = ResponseQueue

  /** The mutex is held by exactly the thread that is between its lock and its unlock. */
  predicate Locks(s: State) {
    && (s.owner.Writer? <==> s.writer.WriterCheck? || s.writer.WriterUnlock?)
    && (s.owner.Rx? <==> s.rx.RxPush? || s.rx.RxSignal? || s.rx.RxUnlock?)
    && (s.owner.Main? <==> s.main.ShutSet? || s.main.ShutSignal? || s.main.ShutUnlock?)
  }

  /** The record that the writer has popped and not finished with. */
  function InHand(w: WriterPc): seq<Record> {
    match w
    case WriterUnlock(Some(r)) => [r]
    case WriterUpdate(r) => [r]
    case _ => []
  }

  predicate Conserved(s: State) {
    && s.accepted == s.processed + InHand(s.writer) + s.queue.items
    && |s.queue.items| <= Q.CAPACITY
  }

  /** A sleeping writer has nothing to do, or the thread that gave it something holds the mutex and is about to signal. */
  predicate NoLostWakeUp(s: State) {
    s.writer.WriterAsleep? ==>
      && (s.queue.items == [] || s.rx.RxSignal?)
      && (s.queue.closed ==> s.main.ShutSignal?)
  }

  predicate ShutBegun(s: State) {
    || s.main.ShutLock? || s.main.ShutSet? || s.main.ShutSignal? || s.main.ShutUnlock? || s.main.Done?
    || (s.path.AllStarted? && (s.main.ClearWriter? || s.main.JoinWriter?))
  }

  predicate ShutRequested(s: State) {
    ShutBegun(s) && !s.main.ShutLock? && !s.main.ShutSet?
  }

  predicate WriterCleared(s: State) {
    || s.main.JoinWriter? || s.main.Done?
    || (s.path.RxFailed? && (s.main.ShutLock? || s.main.ShutSet? || s.main.ShutSignal? || s.main.ShutUnlock?))
  }

  /** How far main has come decides the flags and which threads exist. */
  predicate Phases(s: State) {
    && (s.queue.closed <==> ShutRequested(s))
    && (s.writer.WriterAbsent? <==> s.main.StartWriter? || s.path.WriterFailed?)
    && (s.rx.RxAbsent? <==> s.main.StartWriter? || s.main.StartRx? || !s.path.AllStarted?)
    && (s.writerRunning <==> !s.writer.WriterAbsent? && !WriterCleared(s))
    && (s.rxRunning <==> !s.rx.RxAbsent? && !s.main.JoinRx? && !ShutBegun(s))
    && (s.writer.WriterExited? ==> !s.writerRunning)
    && (s.rx.RxExited? ==> !s.rxRunning)
    && (s.writer == WriterUnlock(None) ==> s.queue.closed)
    && (s.path.AllStarted? && ShutBegun(s) ==> s.rx.RxExited?)
    && (s.path.AllStarted? && s.main.Done? ==> s.writer.WriterExited?)
    && (s.path.RxFailed? && (ShutBegun(s) || s.main.Done?) ==> s.writer.WriterExited?)
    && (s.path.RxFailed? ==> ShutBegun(s) || s.main.ClearWriter? || s.main.JoinWriter?)
    && (s.path.WriterFailed? ==> ShutBegun(s))
    && (!s.path.AllStarted? ==> s.accepted == [])
    && (s.main.StartWriter? || s.main.StartRx? ==> s.accepted == [])
  }

  predicate Invariant(s: State) {
    Locks(s) && Conserved(s) && NoLostWakeUp(s) && Phases(s)
  }

  lemma LocksKeptByMain(s: State)
    requires Locks(s) && Enabled(s, MainGoesOn)
    ensures Locks(MainNext(s))
  {
  }

  lemma LocksKeptByRx(s: State)
    requires Locks(s) && Enabled(s, RxGoesOn)
    ensures Locks(RxNext(s))
  {
  }

  lemma LocksKeptByWriter(s: State)
    requires Locks(s) && Enabled(s, WriterGoesOn)
    ensures Locks(WriterNext(s))
  {
  }

  lemma LocksKept(s: State, a: Action)
    requires Locks(s) && Phases(s) && Enabled(s, a)
    ensures Locks(Next(s, a))
  {
    match a
    case MainGoesOn => LocksKeptByMain(s);
    case RxGoesOn => LocksKeptByRx(s);
    case WriterGoesOn => LocksKeptByWriter(s);
    case _ =>
  }

  lemma ConservedKeptByRx(s: State)
    requires Conserved(s) && Enabled(s, RxGoesOn)
    ensures Conserved(RxNext(s))
  {
    if s.rx.RxPush? && Q.Accepts(s.queue) {
      assert s.accepted + [s.rx.record]
          == s.processed + InHand(s.writer) + (s.queue.items + [s.rx.record]);
    }
  }

  lemma ConservedKeptByWriter(s: State)
    requires Conserved(s) && Enabled(s, WriterGoesOn)
    ensures Conserved(WriterNext(s))
  {
    if s.writer.WriterCheck? && s.queue.items != [] {
      assert s.queue.items == [s.queue.items[0]] + s.queue.items[1..];
      assert s.processed + InHand(s.writer) + s.queue.items
          == s.processed + [s.queue.items[0]] + s.queue.items[1..];
    }
  }

  lemma ConservedKept(s: State, a: Action)
    requires Conserved(s) && Phases(s) && Enabled(s, a)
    ensures Conserved(Next(s, a))
  {
    match a
    case RxGoesOn => ConservedKeptByRx(s);
    case WriterGoesOn => ConservedKeptByWriter(s);
    case _ =>
  }

  lemma WakeUpKept(s: State, a: Action)
    requires NoLostWakeUp(s) && Phases(s) && Enabled(s, a)
    ensures NoLostWakeUp(Next(s, a))
  {
  }

  lemma PhasesKeptByMain(s: State)
    requires Phases(s) && Enabled(s, MainGoesOn)
    ensures Phases(MainNext(s))
  {
  }

  lemma PhasesKeptByStart(s: State, created: bool)
    requires Phases(s) && Enabled(s, MainStarts(created))
    ensures Phases(MainStarted(s, created))
  {
  }

  lemma PhasesKeptByRx(s: State)
    requires Phases(s) && Enabled(s, RxGoesOn)
    ensures Phases(RxNext(s))
  {
  }

  lemma PhasesKeptByWriter(s: State)
    requires Phases(s) && Enabled(s, WriterGoesOn)
    ensures Phases(WriterNext(s))
  {
  }

  lemma PhasesKept(s: State, a: Action)
    requires Phases(s) && Enabled(s, a)
    ensures Phases(Next(s, a))
  {
    match a
    case MainStarts(created) => PhasesKeptByStart(s, created);
    case MainGoesOn => PhasesKeptByMain(s);
    case RxGoesOn => PhasesKeptByRx(s);
    case WriterGoesOn => PhasesKeptByWriter(s);
    case _ =>
  }

  lemma InvariantKept(s: State, a: Action)
    requires Invariant(s) && Enabled(s, a)
    ensures Invariant(Next(s, a))
  {
    LocksKept(s, a);
    ConservedKept(s, a);
    WakeUpKept(s, a);
    PhasesKept(s, a);
  }

  lemma {:induction false} InvariantAlong(s: State, run: seq<Action>)
    requires Invariant(s) && Legal(s, run)
    ensures Invariant(After(s, run))
    decreases |run|
  {
    if run != [] {
      InvariantKept(s, run[0]);
      InvariantAlong(Next(s, run[0]), run[1..]);
    }
  }

  lemma ReachableInvariant(s: State)
    requires Reachable(s)
    ensures Invariant(s)
  {
    var run :| Legal(INITIAL, run) && After(INITIAL, run) == s;
    InvariantAlong(INITIAL, run);
  }

  // ------------------------------------------------------------------ the theorems

  /**
   In every reachable state the accepted records are, in order, those processed, the one in the writer's
   hand, and those in the ring: the processed ones are a prefix of the arrivals.
   */
  lemma NothingIsLost(s: State)
    requires Reachable(s)
    ensures s.accepted == s.processed + InHand(s.writer) + s.queue.items
    ensures s.processed <= s.accepted
    ensures |InHand(s.writer)| <= 1 && |s.queue.items| <= Q.CAPACITY
  {
    ReachableInvariant(s);
  }

  /** When the program ends, what was accepted and not processed is exactly what the ring still holds. */
  lemma LeftInTheRing(s: State)
    requires Reachable(s) && s.main.Done?
    ensures s.accepted == s.processed + s.queue.items
  {
    ReachableInvariant(s);
  }

  /** No lost wake-up: while no thread is inside the queue's code, a sleeping writer has nothing to do. */
  lemma SleepingMeansIdle(s: State)
    requires Reachable(s) && s.writer.WriterAsleep?
    ensures s.owner.Nobody? ==> s.queue.items == [] && !s.queue.closed
    ensures s.queue.items != [] ==> s.rx.RxSignal? && s.owner.Rx?
    ensures s.queue.closed ==> s.main.ShutSignal? && s.owner.Main?
  {
    ReachableInvariant(s);
  }

  /** The critical sections exclude each other. */
  lemma MutualExclusion(s: State)
    requires Reachable(s)
    ensures var inMain := s.main.ShutSet? || s.main.ShutSignal? || s.main.ShutUnlock?;
            var inRx := s.rx.RxPush? || s.rx.RxSignal? || s.rx.RxUnlock?;
            var inWriter := s.writer.WriterCheck? || s.writer.WriterUnlock?;
            !(inMain && inRx) && !(inMain && inWriter) && !(inRx && inWriter)
  {
    ReachableInvariant(s);
  }

  /** Neither thread leaves its loop while its flag is set, and main clears a flag only on its way to the join. */
  lemma ThreadsRunUntilCleared(s: State)
    requires Reachable(s)
    ensures s.rx.RxExited? ==> !s.rxRunning
    ensures s.writer.WriterExited? ==> !s.writerRunning
    ensures s.path.AllStarted? && (s.main.TestApp? || s.main.Sending? || s.main.Inserting?) ==>
              s.rxRunning && s.writerRunning && !s.queue.closed && !s.rx.RxExited? && !s.writer.WriterExited?
  {
    ReachableInvariant(s);
  }
}
