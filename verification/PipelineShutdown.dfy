/**
 How the program ends. In the normal order main joins the receiver, shuts the queue down and then clears
 the writer's flag and joins it; when the receiver could not be started, it clears the flag and joins
 before it shuts the queue down, and then it can hang.
 */
module PipelineShutdown {
  import opened Basics
  import opened Pipeline
  import opened PipelineSafety
  import Q = ResponseQueue
  import Gen = CommandGenerator

  // ------------------------------------------------------------------ the last join of the normal order

  /** Main waits for the writer after a shutdown of the queue, or is past that. */
  predicate LastJoin(s: State) {
    Invariant(s) && s.path.AllStarted? && (s.main.JoinWriter? || s.main.Done?)
  }

  /** Steps that are left once the writer's flag is cleared and the queue is shut down. */
  function StepsLeft(s: State): nat {
    (if s.main.JoinWriter? then 1 else 0) + WriterSteps(s.writer)
  }

  function WriterSteps(w: WriterPc): nat {
    match w
    case WriterAbsent | WriterExited => 0
    case WriterTest | WriterAsleep => 1
    case WriterUpdate(_) => 2
    case WriterUnlock(_) => 3
    case WriterCheck => 4
    case WriterLock | WriterWoken => 5
  }

  /** What the ring will hold at the end: the writer takes one more record exactly if it is on its way to one. */
  function Residue(s: State): seq<Record> {
    if s.writer.WriterLock? || s.writer.WriterWoken? || s.writer.WriterCheck?
    then Q.AfterPop(s.queue).items
    else s.queue.items
  }

  lemma LastJoinStep(s: State, a: Action)
    requires LastJoin(s) && Enabled(s, a) && a != Sigint
    ensures LastJoin(Next(s, a))
    ensures StepsLeft(Next(s, a)) < StepsLeft(s)
    ensures Residue(Next(s, a)) == Residue(s) && Next(s, a).accepted == s.accepted
  {
    InvariantKept(s, a);
  }

  lemma LastJoinSignal(s: State)
    requires LastJoin(s)
    ensures LastJoin(Next(s, Sigint)) && StepsLeft(Next(s, Sigint)) == StepsLeft(s)
    ensures Residue(Next(s, Sigint)) == Residue(s) && Next(s, Sigint).accepted == s.accepted
  {
    InvariantKept(s, Sigint);
  }

  /** The steps of a run that a thread of the program takes. */
  function Work(run: seq<Action>): nat {
    if run == [] then 0 else (if run[0] == Sigint then 0 else 1) + Work(run[1..])
  }

  /** While main still waits, some thread can take a step that is not the user's signal. */
  lemma SomeoneMoves(s: State) returns (a: Action)
    requires LastJoin(s) && s.main.JoinWriter?
    ensures a != Sigint && Enabled(s, a)
  {
    a := if s.writer.WriterExited? then MainGoesOn
         else if s.writer.WriterUpdate? then WriterUpdates(true)
         else WriterGoesOn;
  }

  /**
   The join completes: whatever the scheduler does, the threads take at most six more steps together, and
   none of them accepts a record. What the ring holds at the end is known when the flag is cleared.
   */
  lemma {:induction false} JoinCompletes(s: State, run: seq<Action>)
    requires LastJoin(s) && Legal(s, run)
    ensures Work(run) + StepsLeft(After(s, run)) <= StepsLeft(s) <= 6
    ensures LastJoin(After(s, run)) && After(s, run).accepted == s.accepted
    ensures Residue(After(s, run)) == Residue(s)
    ensures After(s, run).main.Done? ==> After(s, run).queue.items == Residue(s)
    decreases |run|
  {
    if run != [] {
      if run[0] == Sigint {
        LastJoinSignal(s);
      } else {
        LastJoinStep(s, run[0]);
      }
      JoinCompletes(Next(s, run[0]), run[1..]);
    }
  }

  /**
   The ring is drained at the end exactly when, at the clearing of the flag, it held nothing that the writer
   was not about to take.
   */
  lemma DrainedExactlyWhen(s: State, run: seq<Action>)
    requires Reachable(s) && s.path.AllStarted? && s.main.JoinWriter?
    requires Legal(s, run) && After(s, run).main.Done?
    ensures var end := After(s, run);
            var committed := s.writer.WriterLock? || s.writer.WriterWoken? || s.writer.WriterCheck?;
            && (end.processed == end.accepted <==> |s.queue.items| <= if committed then 1 else 0)
            && end.accepted == end.processed + Residue(s)
  {
    ReachableInvariant(s);
    JoinCompletes(s, run);
    assert InHand(After(s, run).writer) == [];
  }

  // ------------------------------------------------------------------ which states can still end

  /**
   The failure order hangs from here on: main is about to clear the flag, or joins, and the writer has
   already passed its test of the flag into a pop of a queue that nobody will fill or shut down.
   */
  predicate Doomed(s: State) {
    && s.path.RxFailed? && (s.main.ClearWriter? || s.main.JoinWriter?)
    && (s.writer.WriterLock? || s.writer.WriterCheck? || s.writer.WriterAsleep? || s.writer.WriterWoken?)
  }

  lemma DoomedStep(s: State, a: Action)
    requires Invariant(s) && Doomed(s) && Enabled(s, a)
    ensures Doomed(Next(s, a))
  {
    assert s.queue.items == [] && !s.queue.closed;
  }

  /** No step of any thread, no signal and no spurious wake-up leaves the hang. */
  lemma {:induction false} DoomedForever(s: State, run: seq<Action>)
    requires Invariant(s) && Doomed(s) && Legal(s, run)
    ensures Doomed(After(s, run)) && !After(s, run).main.Done?
    decreases |run|
  {
    if run != [] {
      DoomedStep(s, run[0]);
      InvariantKept(s, run[0]);
      DoomedForever(Next(s, run[0]), run[1..]);
    }
  }

  /** A scheduler that ends the program: it lets the mutex's holder finish, then main go on, or whom main waits for. */
  function Chosen(s: State): Action {
    if s.owner.Writer? then WriterGoesOn
    else if s.owner.Rx? then RxGoesOn
    else match s.main
      case StartWriter | StartRx => MainStarts(true)
      case TestApp => if s.appRunning then Sigint else MainTests(Gen.Command(0, 0, 0, 0, []), 0)
      case Sending(_) => MainSends(false)
      case Inserting(_) => MainInserts(0, true)
      case JoinRx =>
        if s.rx.RxExited? then MainGoesOn
        else if s.rx.RxReceive? then RxReceives(None)
        else RxGoesOn
      case JoinWriter =>
        if s.writer.WriterExited? then MainGoesOn
        else if s.writer.WriterUpdate? then WriterUpdates(true)
        else WriterGoesOn
      case _ => MainGoesOn
  }

  function MainSteps(s: State): nat {
    match s.main
    case StartWriter => 20
    case StartRx => 19
    case Sending(_) => 18
    case Inserting(_) => 17
    case TestApp => 16
    case StopRx => 15
    case JoinRx => 14
    case ShutLock => 13
    case ShutSet => 12
    case ShutSignal => 11
    case ShutUnlock => 10
    case ClearWriter => if s.path.AllStarted? then 9 else 15
    case JoinWriter => if s.path.AllStarted? then 8 else 14
    case Done => 0
  }

  function RxSteps(rx: RxPc): nat {
    match rx
    case RxAbsent | RxExited => 0
    case RxTest => 1
    case RxUnlock => 2
    case RxSignal => 3
    case RxPush(_) => 4
    case RxLock(_) => 5
    case RxReceive => 6
  }

  function Distance(s: State): nat {
    100 * MainSteps(s) + (if s.appRunning then 70 else 0) + 10 * RxSteps(s.rx) + WriterSteps(s.writer)
  }

  predicate ChosenHelps(s: State) {
    && Enabled(s, Chosen(s))
    && Distance(Next(s, Chosen(s))) < Distance(s)
    && !Doomed(Next(s, Chosen(s)))
  }

  /**
   Once its flag is cleared the receiver only winds down: its own steps bring it closer to its exit, no
   other step takes it away.
   */
  lemma ReceiverWindsDown(s: State, a: Action)
    requires Invariant(s) && Enabled(s, a) && !s.rxRunning && !s.rx.RxAbsent?
    ensures !Next(s, a).rxRunning
    ensures if a.RxGoesOn? || a.RxReceives? then RxSteps(Next(s, a).rx) < RxSteps(s.rx)
            else Next(s, a).rx == s.rx
  {
  }

  /** How many of its own steps the writer still takes at most before it gives the mutex back. */
  function HoldSteps(w: WriterPc): nat {
    match w
    case WriterCheck => 2
    case WriterUnlock(_) => 1
    case _ => 0
  }

  /** In the first join the receiver can move, unless it waits for a mutex that the writer holds. */
  lemma ReceiverWaitsOnlyForWriter(s: State)
    requires Invariant(s) && s.main.JoinRx? && !s.rx.RxExited?
    ensures Enabled(s, RxGoesOn) || Enabled(s, RxReceives(None)) || (s.rx.RxLock? && s.owner.Writer?)
  {
  }

  /**
   And then the writer can move, gives the mutex back within two steps of its own, and nobody else's step
   delays it.
   */
  lemma WriterLetsGo(s: State, a: Action)
    requires Invariant(s) && s.main.JoinRx? && s.owner.Writer? && Enabled(s, a)
    ensures Enabled(s, WriterGoesOn) && 1 <= HoldSteps(s.writer) <= 2
    ensures var t := Next(s, a);
            if a.WriterGoesOn? then t.owner.Nobody? || (t.owner.Writer? && HoldSteps(t.writer) < HoldSteps(s.writer))
            else t.owner.Writer? && t.writer == s.writer
  {
  }

  lemma ChosenWriterStep(s: State)
    requires Invariant(s) && !Doomed(s) && !s.main.Done? && s.owner.Writer?
    ensures ChosenHelps(s)
  {
  }

  lemma ChosenReceiverStep(s: State)
    requires Invariant(s) && !Doomed(s) && !s.main.Done? && s.owner.Rx?
    ensures ChosenHelps(s)
  {
  }

  lemma ChosenJoinStep(s: State)
    requires Invariant(s) && !Doomed(s) && (s.main.JoinRx? || s.main.JoinWriter?)
    requires !s.owner.Writer? && !s.owner.Rx?
    ensures ChosenHelps(s)
  {
  }

  lemma ChosenMainStep(s: State)
    requires Invariant(s) && !Doomed(s) && !s.main.Done?
    requires !s.owner.Writer? && !s.owner.Rx? && !s.main.JoinRx? && !s.main.JoinWriter?
    ensures ChosenHelps(s)
  {
  }

  lemma ChosenStep(s: State)
    requires Invariant(s) && !Doomed(s) && !s.main.Done?
    ensures ChosenHelps(s)
  {
    if s.owner.Writer? {
      ChosenWriterStep(s);
    } else if s.owner.Rx? {
      ChosenReceiverStep(s);
    } else if s.main.JoinRx? || s.main.JoinWriter? {
      ChosenJoinStep(s);
    } else {
      ChosenMainStep(s);
    }
  }

  lemma {:induction false} ChosenEnds(s: State) returns (t: State)
    requires Invariant(s) && !Doomed(s)
    ensures Leads(s, t) && t.main.Done?
    decreases Distance(s)
  {
    if s.main.Done? {
      t := s;
      assert Legal(s, []) && After(s, []) == s;
    } else {
      ChosenStep(s);
      InvariantKept(s, Chosen(s));
      t := ChosenEnds(Next(s, Chosen(s)));
      LeadsNext(s, Chosen(s), t);
    }
  }

  /** From every reachable state the program can still end, except exactly from the hang. */
  lemma CanEndUnlessDoomed(s: State)
    requires Reachable(s)
    ensures (exists t :: Leads(s, t) && t.main.Done?) <==> !Doomed(s)
  {
    ReachableInvariant(s);
    if Doomed(s) {
      forall t | Leads(s, t)
        ensures !t.main.Done?
      {
        var run :| Legal(s, run) && After(s, run) == t;
        DoomedForever(s, run);
      }
    } else {
      var t := ChosenEnds(s);
    }
  }

  /** In the normal order no reachable state is stuck: some run always ends the program. */
  lemma NormalOrderCanEnd(s: State) returns (t: State)
    requires Reachable(s) && s.path.AllStarted?
    ensures Leads(s, t) && t.main.Done?
  {
    ReachableInvariant(s);
    t := ChosenEnds(s);
  }

  /** The failure order ends exactly when the writer had not entered a pop as main came to clear the flag. */
  lemma FailureOrderCanEnd(s: State)
    requires Reachable(s) && s.path.RxFailed? && s.main.JoinWriter?
    ensures (exists t :: Leads(s, t) && t.main.Done?) <==> s.writer.WriterTest? || s.writer.WriterExited?
  {
    ReachableInvariant(s);
    assert InHand(s.writer) == [];
    CanEndUnlessDoomed(s);
  }
}
