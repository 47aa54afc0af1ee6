/**
 What a whole run does, said by its steps alone: which commands were sent, which responses were received.
 The inserts of a run are its sent commands without those that SQLite refused, and the accepted responses are
 its received ones without those that found the ring full.
 */
module PipelineTraces {
  import opened Basics
  import opened Pipeline
  import opened Subsequences
  import Q = ResponseQueue
  import RT = ResultTable

  /** A run is a shorter run and one more step. */
  lemma {:induction false} LastStep(s: State, run: seq<Action>)
    requires Legal(s, run) && run != []
    ensures var n := |run| - 1;
            Legal(s, run[..n]) && Enabled(After(s, run[..n]), run[n]) && After(s, run) == Next(After(s, run[..n]), run[n])
    decreases |run|
  {
    if |run| > 1 {
      var n := |run| - 1;
      LastStep(Next(s, run[0]), run[1..]);
      assert run[1..][..n - 1] == run[..n][1..];
    }
  }

  // ------------------------------------------------------------------ what is sent is what is inserted

  /** The command that was built last. */
  function LastBuilt(run: seq<Action>): Option<Command> {
    if run == [] then None
    else
      var n := |run| - 1;
      if run[n].MainTests? then Some(run[n].built) else LastBuilt(run[..n])
  }

  /** The commands whose sending succeeded, in order. */
  function Sent(run: seq<Action>): seq<Command> {
    if run == [] then []
    else
      var n := |run| - 1;
      var built := LastBuilt(run[..n]);
      Sent(run[..n]) + if run[n] == MainSends(true) && built.Some? then [built.value] else []
  }

  /** How many inserts SQLite refused. */
  function RefusedInserts(run: seq<Action>): nat {
    if run == [] then 0
    else
      var n := |run| - 1;
      RefusedInserts(run[..n]) + if run[n].MainInserts? && !run[n].runs then 1 else 0
  }

  /** The commands of the inserts in a log. */
  function Inserted(log: seq<RT.Event>): seq<Command> {
    if log == [] then []
    else
      var n := |log| - 1;
      Inserted(log[..n]) + if log[n].Insert? then [log[n].command] else []
  }

  /** The command that is sent and about to be inserted. */
  function AwaitsInsert(pc: MainPc): seq<Command> {
    if pc.Inserting? then [pc.command] else []
  }

  lemma InsertedSnoc(log: seq<RT.Event>, e: RT.Event)
    ensures Inserted(log + [e]) == Inserted(log) + if e.Insert? then [e.command] else []
  {
    assert (log + [e])[..|log|] == log;
  }

  predicate SentIsInserted(s: State, run: seq<Action>) {
    && (s.main.Sending? || s.main.Inserting? ==> LastBuilt(run) == Some(s.main.command))
    && Subsequence(Inserted(s.log) + AwaitsInsert(s.main), Sent(run))
    && |Inserted(s.log)| + |AwaitsInsert(s.main)| + RefusedInserts(run) == |Sent(run)|
  }

  /** A step that neither sends nor inserts, nor builds. */
  lemma OtherStep(s: State, a: Action)
    requires Enabled(s, a) && !a.MainTests? && !a.MainSends? && !a.MainInserts?
    ensures Inserted(Next(s, a).log) == Inserted(s.log)
    ensures Next(s, a).main == s.main || (!s.main.Sending? && !s.main.Inserting? && !Next(s, a).main.Sending? && !Next(s, a).main.Inserting?)
  {
    match a
    case WriterUpdates(runs) => InsertedSnoc(s.log, RT.Update(s.writer.record));
    case MainGoesOn => assert MainNext(s).log == s.log;
    case RxGoesOn => assert RxNext(s).log == s.log && RxNext(s).main == s.main;
    case WriterGoesOn => assert WriterNext(s).log == s.log && WriterNext(s).main == s.main;
    case _ =>
  }

  lemma SendStep(s: State, run: seq<Action>, sent: bool)
    requires s.main.Sending? && SentIsInserted(s, run)
    ensures SentIsInserted(Next(s, MainSends(sent)), run + [MainSends(sent)])
  {
    var a := MainSends(sent);
    assert (run + [a])[..|run|] == run;
    assert Inserted(s.log) + AwaitsInsert(s.main) == Inserted(s.log);
    SubsequenceSnoc(Inserted(s.log), Sent(run), s.main.command);
    assert Inserted(s.log) + [] == Inserted(s.log);
    assert Sent(run) + [] == Sent(run);
  }

  lemma WithoutLast<T>(a: seq<T>, x: T, b: seq<T>)
    requires Subsequence(a + [x], b)
    ensures Subsequence(a, b)
  {
    SubsequenceDropLast(a + [x], b);
    assert (a + [x])[..|a|] == a;
  }

  /** The waiting element joins the others or is struck out. */
  lemma NoLongerWaiting<T>(a: seq<T>, x: T, b: seq<T>)
    requires Subsequence(a + [x], b)
    ensures Subsequence(a + [], b) && Subsequence((a + [x]) + [], b)
  {
    WithoutLast(a, x, b);
    assert a + [] == a && (a + [x]) + [] == a + [x];
  }

  lemma TraceOfInsert(run: seq<Action>, a: Action)
    requires a.MainInserts?
    ensures Sent(run + [a]) == Sent(run) && LastBuilt(run + [a]) == LastBuilt(run)
    ensures RefusedInserts(run + [a]) == RefusedInserts(run) + if a.runs then 0 else 1
  {
    assert (run + [a])[..|run|] == run;
    assert Sent(run) + [] == Sent(run);
  }

  lemma InsertStep(s: State, run: seq<Action>, a: Action)
    requires s.main.Inserting? && a.MainInserts? && SentIsInserted(s, run)
    ensures SentIsInserted(Next(s, a), run + [a])
  {
    TraceOfInsert(run, a);
    InsertedSnoc(s.log, RT.Insert(s.main.command, a.sentTime));
    NoLongerWaiting(Inserted(s.log), s.main.command, Sent(run));
  }

  lemma StepKeepsSent(s: State, run: seq<Action>, a: Action)
    requires Enabled(s, a) && SentIsInserted(s, run)
    ensures SentIsInserted(Next(s, a), run + [a])
  {
    assert (run + [a])[..|run|] == run;
    assert Sent(run) + [] == Sent(run) && Inserted(s.log) + [] == Inserted(s.log);
    match a
    case MainSends(sent) => SendStep(s, run, sent);
    case MainInserts(_, _) => InsertStep(s, run, a);
    case MainTests(_, _) =>
    case _ => OtherStep(s, a);
  }

  lemma {:induction false} SentAlong(run: seq<Action>)
    requires Legal(INITIAL, run)
    ensures SentIsInserted(After(INITIAL, run), run)
    decreases |run|
  {
    if run != [] {
      var n := |run| - 1;
      LastStep(INITIAL, run);
      SentAlong(run[..n]);
      StepKeepsSent(After(INITIAL, run[..n]), run[..n], run[n]);
      assert run[..n] + [run[n]] == run;
    }
  }

  /**
   Exactly the commands whose sending succeeded are inserted, whole and in order, but for those inserts that SQLite
   refused; the last one may still be on its way.
   */
  lemma InsertedAreTheSent(run: seq<Action>)
    requires Legal(INITIAL, run)
    ensures var s := After(INITIAL, run);
            var inserted := Inserted(s.log) + AwaitsInsert(s.main);
            && Subsequence(inserted, Sent(run))
            && |inserted| + RefusedInserts(run) == |Sent(run)|
            && (RefusedInserts(run) == 0 ==> inserted == Sent(run))
  {
    SentAlong(run);
    var s := After(INITIAL, run);
    if RefusedInserts(run) == 0 {
      SubsequenceOfSameLength(Inserted(s.log) + AwaitsInsert(s.main), Sent(run));
    }
  }

  // ------------------------------------------------------------------ what is received is what is accepted

  /** The whole responses that came in, in order. */
  function Received(run: seq<Action>): seq<Record> {
    if run == [] then []
    else
      var n := |run| - 1;
      Received(run[..n]) + if run[n].RxReceives? && run[n].record.Some? then [run[n].record.value] else []
  }

  /** How often a push found 128 records in the ring. */
  function PushesOnFull(run: seq<Action>): nat
    requires Legal(INITIAL, run)
  {
    if run == [] then 0
    else
      var n := |run| - 1;
      LastStep(INITIAL, run);
      var s := After(INITIAL, run[..n]);
      PushesOnFull(run[..n]) + if run[n].RxGoesOn? && s.rx.RxPush? && |s.queue.items| >= 128 then 1 else 0
  }

  /** The response that the receiver has and has not pushed yet. */
  function ToBePushed(rx: RxPc): seq<Record> {
    match rx
    case RxLock(r) => [r]
    case RxPush(r) => [r]
    case _ => []
  }

  predicate ReceivedIsAccepted(s: State, received: seq<Record>, lost: nat) {
    && Subsequence(s.accepted + ToBePushed(s.rx), received)
    && |s.accepted| + |ToBePushed(s.rx)| + lost == |received|
  }

  /** Only the receiver's own steps concern what is received or accepted. */
  lemma NotTheReceiver(s: State, a: Action)
    requires Enabled(s, a) && StartsAtMostOnce(s) && !a.RxReceives? && !a.RxGoesOn?
    ensures Next(s, a).accepted == s.accepted && ToBePushed(Next(s, a).rx) == ToBePushed(s.rx)
  {
    match a
    case MainGoesOn => assert MainNext(s).accepted == s.accepted && MainNext(s).rx == s.rx;
    case WriterGoesOn => assert WriterNext(s).accepted == s.accepted && WriterNext(s).rx == s.rx;
    case _ =>
  }

  lemma PushStep(s: State, received: seq<Record>, lost: nat)
    requires s.rx.RxPush? && ReceivedIsAccepted(s, received, lost)
    ensures ReceivedIsAccepted(RxNext(s), received, lost + if |s.queue.items| >= 128 then 1 else 0)
  {
    NoLongerWaiting(s.accepted, s.rx.record, received);
  }

  lemma ReceiveStep(s: State, received: seq<Record>, lost: nat, r: Record)
    requires s.rx.RxReceive? && ReceivedIsAccepted(s, received, lost)
    ensures ReceivedIsAccepted(Next(s, RxReceives(Some(r))), received + [r], lost)
    ensures ReceivedIsAccepted(Next(s, RxReceives(None)), received, lost)
  {
    assert s.accepted + [] == s.accepted;
    SubsequenceSnoc(s.accepted, received, r);
  }

  predicate StartsAtMostOnce(s: State) {
    (s.main.StartWriter? || s.main.StartRx?) ==> s.rx.RxAbsent?
  }

  lemma StartsOnce(s: State, a: Action)
    requires Enabled(s, a) && StartsAtMostOnce(s)
    ensures StartsAtMostOnce(Next(s, a))
  {
  }

  lemma {:induction false} ReceivedAlong(run: seq<Action>)
    requires Legal(INITIAL, run)
    ensures ReceivedIsAccepted(After(INITIAL, run), Received(run), PushesOnFull(run))
    ensures StartsAtMostOnce(After(INITIAL, run))
    decreases |run|
  {
    if run != [] {
      var n := |run| - 1;
      LastStep(INITIAL, run);
      var s, a := After(INITIAL, run[..n]), run[n];
      ReceivedAlong(run[..n]);
      StartsOnce(s, a);
      assert Received(run[..n]) + [] == Received(run[..n]);
      if a.RxReceives? {
        ReceiveStep(s, Received(run[..n]), PushesOnFull(run[..n]), if a.record.Some? then a.record.value else Q.Record(0, 0, 0));
      } else if a.RxGoesOn? && s.rx.RxPush? {
        PushStep(s, Received(run[..n]), PushesOnFull(run[..n]));
      } else if !a.RxGoesOn? {
        NotTheReceiver(s, a);
      }
    }
  }

  /**
   The accepted responses are the received ones, whole and in order, but for those that found 128 records in the ring;
   the last one may not be pushed yet.
   */
  lemma AcceptedAreTheReceived(run: seq<Action>)
    requires Legal(INITIAL, run)
    ensures var s := After(INITIAL, run);
            var taken := s.accepted + ToBePushed(s.rx);
            && Subsequence(taken, Received(run))
            && |taken| + PushesOnFull(run) == |Received(run)|
            && (PushesOnFull(run) == 0 ==> taken == Received(run))
  {
    ReceivedAlong(run);
    var s := After(INITIAL, run);
    if PushesOnFull(run) == 0 {
      SubsequenceOfSameLength(s.accepted + ToBePushed(s.rx), Received(run));
    }
  }

  // ------------------------------------------------------------------ rounds that nothing disturbs

  lemma RunOfTwo(s: State, a: Action, b: Action)
    requires Enabled(s, a) && Enabled(Next(s, a), b)
    ensures Legal(s, [a, b]) && After(s, [a, b]) == Next(Next(s, a), b)
  {
    var t := Next(Next(s, a), b);
    assert Legal(t, []) && After(t, []) == t;
    assert [a, b][1..] == [b] && [b][1..] == [];
  }

  lemma OneMore(s: State, run: seq<Action>, a: Action)
    requires Legal(s, run) && Enabled(After(s, run), a)
    ensures Legal(s, run + [a]) && After(s, run + [a]) == Next(After(s, run), a)
  {
    var t := Next(After(s, run), a);
    assert Legal(t, []) && After(t, []) == t && [a][1..] == [];
    RunsConcat(s, run, [a]);
  }

  /** A round of the main loop: a command that was sent is inserted, and one that was not leaves no trace. */
  lemma CommandRoundAlone(s: State, command: Command, draws: nat, sent: bool, sentTime: int, runs: bool)
    returns (run: seq<Action>)
    requires s.main.TestApp? && s.appRunning && Enabled(s, MainTests(command, draws))
    ensures Legal(s, run)
    ensures var t := After(s, run);
            && t.main.TestApp? && t.queue == s.queue && t.built == s.built + 1 && t.accepted == s.accepted
            && t.log == s.log + if sent && runs then [RT.Insert(command, sentTime)] else []
  {
    RunOfTwo(s, MainTests(command, draws), MainSends(sent));
    run := [MainTests(command, draws), MainSends(sent)];
    if sent {
      OneMore(s, run, MainInserts(sentTime, runs));
      run := run + [MainInserts(sentTime, runs)];
    }
  }

  /** A round of the receiver with a free mutex: a whole response goes into the ring unless it holds 128 records. */
  lemma ReceiverRoundAlone(s: State, r: Record) returns (run: seq<Action>)
    requires s.rx.RxTest? && s.rxRunning && s.owner.Nobody?
    ensures Legal(s, run)
    ensures var t := After(s, run);
            && t.rx.RxTest? && t.owner.Nobody? && t.main == s.main && t.log == s.log
            && (|s.queue.items| < 128 ==> t.queue == Q.Fifo(s.queue.items + [r], s.queue.closed) && t.accepted == s.accepted + [r])
            && (|s.queue.items| >= 128 ==> t.queue == s.queue && t.accepted == s.accepted)
  {
    RunOfTwo(s, RxGoesOn, RxReceives(Some(r)));
    run := [RxGoesOn, RxReceives(Some(r))];
    OneMore(s, run, RxGoesOn);
    run := run + [RxGoesOn];
    OneMore(s, run, RxGoesOn);
    run := run + [RxGoesOn];
    if |s.queue.items| < 128 {
      OneMore(s, run, RxGoesOn);
      run := run + [RxGoesOn];
    }
    OneMore(s, run, RxGoesOn);
    run := run + [RxGoesOn];
  }

  /** A round in which nothing, or no whole response, comes in leaves everything as it is. */
  lemma IdleReceiverRound(s: State)
    requires s.rx.RxTest? && s.rxRunning
    ensures Legal(s, [RxGoesOn, RxReceives(None)]) && After(s, [RxGoesOn, RxReceives(None)]) == s
  {
    RunOfTwo(s, RxGoesOn, RxReceives(None));
  }

  /** A round of the writer with a free mutex: the oldest record is taken and its update written. */
  lemma WriterRoundAlone(s: State, runs: bool) returns (run: seq<Action>)
    requires s.writer.WriterTest? && s.writerRunning && s.owner.Nobody? && s.queue.items != []
    ensures Legal(s, run)
    ensures var t := After(s, run);
            && t.writer.WriterTest? && t.owner.Nobody? && t.main == s.main
            && t.queue == Q.Fifo(s.queue.items[1..], s.queue.closed) && t.processed == s.processed + [s.queue.items[0]]
            && t.log == s.log + if runs then [RT.Update(s.queue.items[0])] else []
  {
    RunOfTwo(s, WriterGoesOn, WriterGoesOn);
    run := [WriterGoesOn, WriterGoesOn];
    OneMore(s, run, WriterGoesOn);
    run := run + [WriterGoesOn];
    OneMore(s, run, WriterGoesOn);
    run := run + [WriterGoesOn];
    OneMore(s, run, WriterUpdates(runs));
    run := run + [WriterUpdates(runs)];
  }

  /** A sleeping writer that wakes up for no reason takes the mutex, finds nothing, and sleeps again. */
  lemma SpuriousRound(s: State)
    requires s.writer.WriterAsleep? && s.owner.Nobody? && s.queue == Q.Fifo([], false)
    ensures Enabled(s, SpuriousWakeUp) && !Next(s, SpuriousWakeUp).writer.WriterAsleep?
    ensures Legal(s, [SpuriousWakeUp, WriterGoesOn] + [WriterGoesOn])
    ensures After(s, [SpuriousWakeUp, WriterGoesOn] + [WriterGoesOn]) == s
  {
    RunOfTwo(s, SpuriousWakeUp, WriterGoesOn);
    OneMore(s, [SpuriousWakeUp, WriterGoesOn], WriterGoesOn);
  }
}
