/**
 The loop bodies of the server's three threads on the real queue, generator and database, for rounds that
 no other thread disturbs. The step machine in Pipeline cuts the same rounds into steps and interleaves them.
 */
module ServerThreads {
  import opened Basics
  import Q = ResponseQueue
  import RT = ResultTable
  import Gen = CommandGenerator

  /** The seconds between two commands. */
  const MIN_DELAY := 1
  const MAX_DELAY := 5

  /** One turn of the loop in udp_client_rx_thread_func: anything but a whole response is ignored. */
  method ReceiverRound(queue: Q.Queue, received: Option<Q.Record>) returns (failed: bool)
    requires queue.Valid()
    modifies queue`tail, queue`count, queue.buffer
    ensures queue.Valid()
    ensures failed <==> received.Some? && |old(queue.View()).items| == 128
    ensures received.Some? && !failed ==>
              queue.View() == Q.Fifo(old(queue.View()).items + [received.value], old(queue.View()).closed)
    ensures received.None? || failed ==> queue.View() == old(queue.View())
  {
    failed := false;
    if received.Some? {
      var ok := queue.Push(received);
      failed := !ok;
    }
  }

  /**
   One turn of the main loop: build, send, insert what was sent, and draw the delay until the next turn from
   the same random numbers.
   */
  method CommandRound(generator: Gen.Generator, db: RT.ResultDatabase, sent: bool, sentTime: int, runs: bool)
    returns (command: Gen.Command, delay: nat)
    requires generator.Valid() && db.Valid()
    modifies generator, db
    ensures generator.Valid() && db.Valid()
    ensures Gen.IsNextCommand(command, old(generator.View()), generator.rand)
    ensures generator.View() == Gen.AfterRound(old(generator.View()), generator.rand)
    ensures 1 <= delay <= 5 && delay == 1 + generator.rand(Gen.Advanced(old(generator.View()), generator.rand).draws) % 5
    ensures db.log == old(db.log) + if sent && runs then [RT.Insert(command, sentTime)] else []
  {
    var built := generator.BuildNext(true);
    command := built.value;
    if sent {
      var _ := db.InsertCommand(Some(command), sentTime, runs);
    }
    delay := generator.RandomByte(MIN_DELAY, MAX_DELAY);
  }

  /** One turn of the loop in response_writer_thread_func; MustWait is where its pop would sleep. */
  method WriterRound(queue: Q.Queue, db: RT.ResultDatabase, runs: bool) returns (outcome: Q.PopOutcome)
    requires queue.Valid() && db.Valid()
    modifies queue`head, queue`count, db
    ensures queue.Valid() && db.Valid()
    ensures old(queue.View()).items != [] ==>
              outcome == Q.Popped(old(queue.View()).items[0])
              && queue.View() == Q.Fifo(old(queue.View()).items[1..], old(queue.View()).closed)
    ensures old(queue.View()).items == [] ==>
              outcome == (if old(queue.View()).closed then Q.Finished else Q.MustWait) && queue.View() == old(queue.View())
    ensures db.log == old(db.log) + if outcome.Popped? && runs then [RT.Update(outcome.record)] else []
  {
    outcome := queue.Pop();
    if outcome.Popped? {
      var _ := db.UpdateResponse(Some(outcome.record), runs);
    }
  }

  /** The updates that a run of records brings about. */
  function Updates(records: seq<Q.Record>): (log: seq<RT.Event>)
    ensures |log| == |records|
  {
    seq(|records|, i requires 0 <= i < |records| => RT.Update(records[i]))
  }

  lemma OneMoreUpdate(before: seq<RT.Event>, records: seq<Q.Record>, taken: nat)
    requires taken < |records|
    ensures before + Updates(records[..taken]) + [RT.Update(records[taken])] == before + Updates(records[..taken + 1])
  {
    assert Updates(records[..taken + 1]) == Updates(records[..taken]) + [RT.Update(records[taken])];
  }

  /** Left alone, the writer empties the queue in arrival order before it sleeps or is told to finish. */
  method WriterLeftAlone(queue: Q.Queue, db: RT.ResultDatabase) returns (last: Q.PopOutcome)
    requires queue.Valid() && db.Valid()
    modifies queue`head, queue`count, db
    ensures queue.Valid() && db.Valid()
    ensures queue.View() == old(queue.View()).(items := [])
    ensures db.log == old(db.log) + Updates(old(queue.View()).items)
    ensures last == if old(queue.View()).closed then Q.Finished else Q.MustWait
  {
    ghost var first := queue.View();
    ghost var taken := 0;
    var popped := true;
    last := Q.MustWait;
    while popped
      invariant queue.Valid() && db.Valid()
      invariant taken <= |first.items| && queue.View() == first.(items := first.items[taken..])
      invariant db.log == old(db.log) + Updates(first.items[..taken])
      invariant !popped ==> taken == |first.items| && last == if first.closed then Q.Finished else Q.MustWait
      decreases |first.items| - taken, popped
    {
      last := WriterRound(queue, db, true);
      popped := last.Popped?;
      if popped {
        OneMoreUpdate(old(db.log), first.items, taken);
        taken := taken + 1;
      }
    }
    assert first.items[..taken] == first.items;
  }
}
