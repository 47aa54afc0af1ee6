/**
 Runs that show what the server does not promise: natural claims about it that are false.
 */
module PipelineScenarios {
  import opened Basics
  import opened Pipeline
  import opened PipelineSafety
  import opened PipelineShutdown
  import opened PipelineTraces
  import opened Subsequences
  import Q = ResponseQueue
  import RT = ResultTable
  import Gen = CommandGenerator

  /** Both threads are created; neither has moved. */
  lemma Started() returns (s: State)
    ensures Reachable(s)
    ensures s == INITIAL.(main := TestApp, writer := WriterTest, writerRunning := true, rx := RxTest, rxRunning := true)
  {
    InitialIsReachable();
    s := Onward(INITIAL, MainStarts(true));
    s := Onward(s, MainStarts(true));
  }

  /** The receiver takes a record from the network into the ring while the writer is not asleep. */
  lemma Receives(s: State, r: Record) returns (t: State)
    requires Reachable(s)
    requires s.rx.RxTest? && s.rxRunning && s.owner.Nobody? && Q.Accepts(s.queue) && !s.writer.WriterAsleep?
    ensures Reachable(t)
    ensures t == s.(queue := Q.Fifo(s.queue.items + [r], s.queue.closed), accepted := s.accepted + [r])
  {
    t := Onward(s, RxGoesOn);
    t := Onward(t, RxReceives(Some(r)));
    t := Onward(t, RxGoesOn);
    t := Onward(t, RxGoesOn);
    t := Onward(t, RxGoesOn);
    t := Onward(t, RxGoesOn);
  }

  /** The writer takes the oldest record through to the table. */
  lemma Processes(s: State) returns (t: State)
    requires Reachable(s)
    requires s.writer.WriterTest? && s.writerRunning && s.owner.Nobody? && s.queue.items != []
    ensures Reachable(t)
    ensures var r := s.queue.items[0];
            t == s.(queue := Q.Fifo(s.queue.items[1..], s.queue.closed), processed := s.processed + [r],
                    table := RT.Apply(s.table, RT.Update(r)), log := s.log + [RT.Update(r)])
  {
    t := Onward(s, WriterGoesOn);
    t := Onward(t, WriterGoesOn);
    t := Onward(t, WriterGoesOn);
    t := Onward(t, WriterGoesOn);
    t := Onward(t, WriterUpdates(true));
  }

  /** The user stops the program, the receiver sees its flag cleared, and main shuts the queue down. */
  lemma ShutsDown(s: State) returns (t: State)
    requires Reachable(s)
    requires s.path.AllStarted? && s.main.TestApp? && s.rx.RxTest? && s.rxRunning
    requires s.writer.WriterTest? && s.owner.Nobody?
    ensures Reachable(t)
    ensures t == s.(main := ClearWriter, appRunning := false, rx := RxExited, rxRunning := false,
                    queue := s.queue.(closed := true))
  {
    t := Onward(s, Sigint);
    t := Onward(t, MainTests(Gen.Command(0, 0, 0, 0, []), 0));
    t := Onward(t, MainGoesOn);
    t := Onward(t, RxGoesOn);
    t := Onward(t, MainGoesOn);
    t := Onward(t, MainGoesOn);
    t := Onward(t, MainGoesOn);
    t := Onward(t, MainGoesOn);
    t := Onward(t, MainGoesOn);
  }

  /** The program ends while the writer is between two records and does not get to run. */
  lemma Stops(s: State) returns (t: State)
    requires Reachable(s)
    requires s.path.AllStarted? && s.main.TestApp? && s.rx.RxTest? && s.rxRunning
    requires s.writer.WriterTest? && s.owner.Nobody?
    ensures Reachable(t)
    ensures t.main.Done? && t.path.AllStarted? && t.table == s.table && t.log == s.log
    ensures t.queue.items == s.queue.items && t.accepted == s.accepted && t.processed == s.processed
    ensures t.lostUpdates == s.lostUpdates && t.built == s.built
  {
    t := ShutsDown(s);
    t := Onward(t, MainGoesOn);
    t := Onward(t, WriterGoesOn);
    t := Onward(t, MainGoesOn);
  }

  /** While the writer does not run, the receiver can take in as many records as the ring holds. */
  lemma {:induction false} ReceivesAll(s: State, records: seq<Record>) returns (t: State)
    requires Reachable(s)
    requires s.rx.RxTest? && s.rxRunning && s.owner.Nobody? && !s.writer.WriterAsleep?
    requires |s.queue.items| + |records| <= Q.CAPACITY
    ensures Reachable(t)
    ensures t == s.(queue := s.queue.(items := s.queue.items + records), accepted := s.accepted + records)
    decreases |records|
  {
    if records == [] {
      t := s;
      assert s.queue.items + records == s.queue.items && s.accepted + records == s.accepted;
    } else {
      t := Receives(s, records[0]);
      assert [records[0]] + records[1..] == records;
      assert t.queue.items + records[1..] == s.queue.items + records;
      assert t.accepted + records[1..] == s.accepted + records;
      t := ReceivesAll(t, records[1..]);
    }
  }

  /** The program can end with up to 128 accepted responses that nobody processed, whatever they are. */
  lemma RingCanBeLeftFull(records: seq<Record>) returns (s: State)
    requires |records| <= Q.CAPACITY
    ensures Reachable(s) && s.main.Done? && s.path.AllStarted?
    ensures s.queue.items == records && s.accepted == records && s.processed == []
  {
    s := Started();
    s := ReceivesAll(s, records);
    s := Stops(s);
  }

  /** The failure order can hang: three steps lead there, and then nothing leads out. */
  lemma FailureOrderCanHang() returns (s: State)
    ensures Reachable(s) && Doomed(s)
    ensures !exists t :: Leads(s, t) && t.main.Done?
  {
    InitialIsReachable();
    s := Onward(INITIAL, MainStarts(true));
    s := Onward(s, WriterGoesOn);
    s := Onward(s, MainStarts(false));
    CanEndUnlessDoomed(s);
  }

  /**
   A response that overtakes the insert of its own row is lost: the command was sent, the response was processed
   without an error, no statement failed, and yet the program ends with the row PENDING.
   */
  lemma EarlyResponseIsLost(result: nat, time: int) returns (run: seq<Action>, s: State)
    ensures Legal(INITIAL, run) && After(INITIAL, run) == s
    ensures s.main.Done? && s.lostUpdates == 0 && s.queue.items == []
    ensures s.processed == [Q.Record(1, result, time)]
    ensures exists c :: c in Sent(run) && c.testId == 1 && s.log == [RT.Update(Q.Record(1, result, time)), RT.Insert(c, 0)]
    ensures 1 in s.table && s.table[1].status == RT.Pending
  {
    var command := Gen.Command(1, 1, 10, 0, []);
    s := Started();
    s := Onward(s, MainTests(command, 0));
    s := Onward(s, MainSends(true));
    s := Receives(s, Q.Record(1, result, time));
    s := Processes(s);
    s := Onward(s, MainInserts(0, true));
    s := Stops(s);
    run :| Legal(INITIAL, run) && After(INITIAL, run) == s;
    InsertedAreTheSent(run);
    InsertedSnoc([RT.Update(Q.Record(1, result, time))], RT.Insert(command, 0));
    assert s.log == [RT.Update(Q.Record(1, result, time))] + [RT.Insert(command, 0)];
    assert command in Inserted(s.log);
    SubsequenceHas(Inserted(s.log) + AwaitsInsert(s.main), Sent(run), command);
  }
}
